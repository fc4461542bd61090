/** The limiter and its permits as objects. Every method is one step of the limiter, and the permits
    counted in `live` are exactly the permit objects that still have an owner. */
module LoginObjects {
  import opened Basics
  import opened LoginLimiter

  ghost function Holding(permits: set<Permit>, s: string): set<Permit> {
    set p | p in permits && p.source == s
  }

  ghost predicate Counts(permits: set<Permit>, live: multiset<string>) {
    forall s :: live[s] == |Holding(permits, s)|
  }

  lemma CountsAfterGrant(permits: set<Permit>, live: multiset<string>, p: Permit)
    requires Counts(permits, live) && p !in permits
    ensures Counts(permits + {p}, live + multiset{p.source})
  {
    forall s ensures (live + multiset{p.source})[s] == |Holding(permits + {p}, s)| {
      if s == p.source {
        assert Holding(permits + {p}, s) == Holding(permits, s) + {p};
      } else {
        assert Holding(permits + {p}, s) == Holding(permits, s);
      }
    }
  }

  lemma CountsAfterFinish(permits: set<Permit>, live: multiset<string>, p: Permit)
    requires Counts(permits, live) && p in permits
    ensures p.source in live
    ensures Counts(permits - {p}, live - multiset{p.source})
  {
    assert p in Holding(permits, p.source);
    forall s ensures (live - multiset{p.source})[s] == |Holding(permits - {p}, s)| {
      if s == p.source {
        assert Holding(permits - {p}, s) == Holding(permits, s) - {p};
      } else {
        assert Holding(permits - {p}, s) == Holding(permits, s);
      }
    }
  }

  class AuthLoginRateLimiter {
    const limits: Limits
    var entries: map<string, Entry>
    var saturatedUntil: int
    ghost var permits: set<Permit>
    ghost var live: multiset<string>
    ghost var log: map<string, seq<Failure>>
    ghost var latest: int

    ghost function View(): Limiter
      reads this
    {
      Limiter(limits, entries, saturatedUntil, live, log, latest)
    }

    ghost predicate Valid()
      reads this
    {
      ValidLimits(limits) && Accounted(View()) && Counts(permits, live)
    }

    constructor (limits: Limits, ghost start: int)
      requires ValidLimits(limits)
      ensures Valid() && permits == {} && View() == Initial(limits, start)
    {
      this.limits, entries, saturatedUntil := limits, map[], EPOCH;
      permits, live, log, latest := {}, multiset{}, map[], start;
      new;
      forall s ensures live[s] == |Holding(permits, s)| { assert Holding({}, s) == {}; }
    }

    method RemoveStale(now: int)
      requires Valid()
      modifies this`entries, this`latest
      ensures Valid() && View() == Purged(old(View()), now)
    {
      hide Accounted, Counts, Stale;
      PurgeAccounts(View(), now);
      var rest := entries.Keys;
      while rest != {}
        invariant rest <= entries.Keys <= old(entries).Keys
        invariant latest == old(latest)
        invariant forall s :: s in entries ==> entries[s] == old(entries)[s]
        invariant forall s :: s in old(entries) && s !in rest ==>
          (s in entries <==> !Stale(limits, old(entries)[s], now))
        decreases |rest|
      {
        var s :| s in rest;
        if Stale(limits, entries[s], now) { entries := entries - {s}; }
        rest := rest - {s};
      }
      latest := Later(latest, now);
      assert entries == Purged(old(View()), now).entries;
    }

    method ReserveAttempt(source: string, now: int) returns (p: Permit?)
      requires Valid()
      modifies this
      ensures Valid() && View() == Step(old(View()), Reserve(source, now))
      ensures p != null <==> Grants(old(View()), source, now)
      ensures p == null ==> permits == old(permits)
      ensures p != null ==> fresh(p) && p.owner == this && p.source == source && permits == old(permits) + {p}
    {
      hide Accounted, Counts, Purged, Renewed, Admit, FinishStep, AllowStep, LegacyFailureStep, LegacySuccessStep;
      ReserveAccounts(View(), source, now);
      RemoveStale(now);
      if source !in entries && (saturatedUntil > now || |entries| >= limits.maxSources) {
        saturatedUntil := Later(saturatedUntil, now + limits.lockout);
        return null;
      }
      var entry, granted := AdmitEntry(if source in entries then entries[source] else NewEntry(now), now);
      entries := entries[source := entry];
      if !granted {
        return null;
      }
      p := new Permit(this, source);
      CountsAfterGrant(permits, live, p);
      permits, live := permits + {p}, live + multiset{source};
    }

    /** The part of an admission that concerns the source's entry. */
    method AdmitEntry(found: Entry, now: int) returns (entry: Entry, granted: bool)
      ensures (entry, granted) == Admit(limits, found, now)
    {
      entry := found.(lastSeen := now);
      if entry.blockedUntil > now {
        return entry, false;
      }
      entry := Renewed(limits, entry, now);
      if entry.failures + entry.reservations >= limits.maxFailures {
        return entry, false;
      }
      return entry.(reservations := entry.reservations + 1), true;
    }

    /** The verdict of one of this limiter's permits. */
    method FinishAttempt(ghost p: Permit, source: string, verdict: Verdict, now: int)
      requires Valid() && p in permits && p.source == source
      modifies this
      ensures Valid() && View() == Step(old(View()), Finish(source, verdict, now))
      ensures permits == old(permits) - {p}
    {
      hide Accounted, Counts, FinishStep, ReserveStep, AllowStep, LegacyFailureStep, LegacySuccessStep, Purged;
      CountsAfterFinish(permits, live, p);
      FinishAccounts(View(), source, verdict, now);
      var settled;
      ghost var logged;
      settled, logged := SettleEntry(source, verdict, now);
      permits, live, latest, entries, log := permits - {p}, live - multiset{source}, Later(latest, now), settled, logged;
    }

    /** The part of a verdict that concerns the source's entry. */
    method SettleEntry(source: string, verdict: Verdict, now: int)
      returns (settled: map<string, Entry>, ghost logged: map<string, seq<Failure>>)
      ensures settled == FinishStep(View(), source, verdict, now).entries
      ensures FinishStep(View(), source, verdict, now) ==
        View().(live := live - multiset{source}, latest := Later(latest, now), entries := settled, log := logged)
    {
      hide LoginLimiter.Settle, Erasable, Log;
      settled, logged := entries, log;
      if source in entries {
        var entry := LoginLimiter.Settle(limits, entries[source], verdict, now);
        settled := if Erasable(entry, now) then entries - {source} else entries[source := entry];
        if verdict == Failed {
          logged := log[source := Log(View(), source) + [Failure(now, entry.windowStarted)]];
        } else if verdict == Success {
          logged := log[source := []];
        }
      }
    }

    method TrackedSourceCount(now: int) returns (n: nat)
      requires Valid()
      modifies this`entries, this`latest
      ensures Valid() && View() == Step(old(View()), CountSources(now))
      ensures n == |entries| <= limits.maxSources
    {
      RemoveStale(now);
      n := |entries|;
    }
  }

  /** One admitted attempt. Finishing it, by a verdict, by moving it away or by destroying it, takes the
      owner out, so each permit is settled once. */
  class Permit {
    var owner: AuthLoginRateLimiter?
    const source: string

    constructor (owner: AuthLoginRateLimiter?, source: string)
      ensures this.owner == owner && this.source == source
    {
      this.owner, this.source := owner, source;
    }

    ghost predicate Valid()
      reads this, if owner != null then {owner} else {}
    {
      owner != null ==> owner.Valid() && this in owner.permits
    }

    method Settle(verdict: Verdict, now: int)
      requires Valid()
      modifies this, if owner != null then {owner} else {}
      ensures owner == null
      ensures old(owner) != null ==>
        && old(owner).Valid() && this !in old(owner).permits
        && old(owner).View() == Step(old(owner.View()), Finish(source, verdict, now))
    {
      var held := owner;
      owner := null;
      if held != null { held.FinishAttempt(this, source, verdict, now); }
    }

    /** An abandoned attempt counts as a failure. */
    method Destroy(now: int)
      requires Valid()
      modifies this, if owner != null then {owner} else {}
      ensures owner == null
      ensures old(owner) != null ==> old(owner).View() == Step(old(owner.View()), Finish(source, Failed, now))
    {
      Settle(Failed, now);
    }

    /** Moving a settled or moved-from permit gives another one without an owner. */
    method Move() returns (q: Permit)
      requires Valid()
      modifies this, if owner != null then {owner} else {}
      ensures fresh(q) && q.source == source && q.owner == old(owner) && q.Valid()
      ensures owner == null && (old(owner) != null ==> old(owner).View() == old(owner.View()))
    {
      hide Accounted, Counts;
      var held := owner;
      q := new Permit(held, source);
      owner := null;
      if held != null {
        CountsAfterFinish(held.permits, held.live, this);
        CountsAfterGrant(held.permits - {this}, held.live - multiset{source}, q);
        assert held.live - multiset{source} + multiset{source} == held.live;
        held.permits := held.permits - {this} + {q};
      }
    }
  }
}
