/** When a login attempt gets a permit, told from what happened before: the permits that are out, the
    failures since the last success, and the bounded table. */
module LoginAdmission {
  import opened Basics
  import opened LoginLimiter
  import opened LoginWindows

  // ---- What the past says ----

  /** Failures of the epoch that began at `start`. */
  function FailuresOf(log: seq<Failure>, start: int): nat {
    if log == [] then 0
    else FailuresOf(log[..|log| - 1], start) + (if log[|log| - 1].started == start then 1 else 0)
  }

  /** The failures that count at `now`: those of the last epoch, until it has lasted a window. */
  function Counting(l: Limits, log: seq<Failure>, now: int): nat {
    if log == [] || now >= log[|log| - 1].started + l.window then 0 else FailuresOf(log, log[|log| - 1].started)
  }

  /** The last epoch reached the limit less than a lockout ago. */
  predicate LockedOut(l: Limits, log: seq<Failure>, now: int) {
    && log != [] && FailuresOf(log, log[|log| - 1].started) >= l.maxFailures
    && now < log[|log| - 1].time + l.lockout
  }

  // ---- The entry agrees with it ----

  predicate LockLinked(l: Limits, e: Option<Entry>, log: seq<Failure>, latest: int) {
    match e
    case None => !LockedOut(l, log, latest)
    case Some(e) =>
      if e.failures >= l.maxFailures then log != [] && e.blockedUntil == log[|log| - 1].time + l.lockout
      else e.blockedUntil == EPOCH && !LockedOut(l, log, latest)
  }

  lemma {:induction false} CountEpoch(log: seq<Failure>, k: nat, start: int)
    requires k <= |log| && CurrentEpoch(log, k, start) && forall i :: 0 <= i < k ==> log[i].started != start
    ensures FailuresOf(log, start) == |log| - k
    decreases |log|
  {
    if log != [] {
      var n := |log| - 1;
      CountEpoch(log[..n], if k <= n then k else n, start);
    }
  }

  /** The counter of an entry is the number of failures of its epoch. */
  lemma CounterIsTheCount(l: Limits, e: Entry, log: seq<Failure>, latest: int)
    requires ValidLimits(l) && Linked(l, Some(e), log, latest)
    ensures FailuresOf(log, e.windowStarted) == e.failures
    ensures e.failures > 0 ==> log != [] && log[|log| - 1].started == e.windowStarted
    ensures e.failures == 0 && log != [] ==> log[|log| - 1].started + l.window <= e.windowStarted
  {
    hide EpochLog;
    CountEpoch(log, |log| - e.failures, e.windowStarted);
  }

  /** An entry is admitted exactly when no lockout runs and permits and counting failures leave a place. */
  lemma EntryAdmitsExactlyWhen(l: Limits, e: Entry, log: seq<Failure>, now: int)
    requires ValidLimits(l) && EPOCH <= now && Linked(l, Some(e), log, now) && LockLinked(l, Some(e), log, now)
    ensures Admit(l, e, now).1 <==> !LockedOut(l, log, now) && e.reservations + Counting(l, log, now) < l.maxFailures
  {
    CounterIsTheCount(l, e, log, now);
    assert e.windowStarted <= now;
    hide FailuresOf, Linked;
  }

  lemma LockLater(l: Limits, e: Option<Entry>, log: seq<Failure>, latest: int, now: int)
    requires LockLinked(l, e, log, latest) && latest <= now
    ensures LockLinked(l, e, log, now)
  {
  }

  lemma LockStale(l: Limits, e: Entry, log: seq<Failure>, now: int)
    requires LockLinked(l, Some(e), log, now) && Stale(l, e, now)
    ensures LockLinked(l, None, log, now)
  {
  }

  lemma LockOpened(l: Limits, log: seq<Failure>, now: int)
    requires ValidLimits(l) && LockLinked(l, None, log, now)
    ensures LockLinked(l, Some(NewEntry(now)), log, now)
  {
  }

  lemma LockAdmit(l: Limits, e: Entry, log: seq<Failure>, now: int)
    requires ValidLimits(l) && LockLinked(l, Some(e), log, now)
    ensures LockLinked(l, Some(Admit(l, e, now).0), log, now)
  {
    hide FailuresOf;
  }

  lemma LockFailed(l: Limits, e: Entry, log: seq<Failure>, now: int)
    requires ValidLimits(l) && Linked(l, Some(e), log, now) && LockLinked(l, Some(e), log, now)
    requires e.reservations > 0 && EntryWithin(l, e)
    ensures var settled := Settle(l, e, Failed, now);
      LockLinked(l, Some(settled), log + [Failure(now, settled.windowStarted)], now)
  {
    var settled := Settle(l, e, Failed, now);
    LinkedFailed(l, e, log, now);
    CounterIsTheCount(l, settled, log + [Failure(now, settled.windowStarted)], now);
    hide FailuresOf, Linked;
  }

  lemma LockNeutral(l: Limits, e: Entry, log: seq<Failure>, now: int)
    requires ValidLimits(l) && LockLinked(l, Some(e), log, now)
    ensures LockLinked(l, Some(Settle(l, e, Neutral, now)), log, now)
    ensures e.failures == 0 ==> LockLinked(l, None, log, now)
  {
  }

  lemma LockSuccess(l: Limits, e: Entry, now: int)
    requires ValidLimits(l)
    ensures LockLinked(l, Some(Settle(l, e, Success, now)), [], now) && LockLinked(l, None, [], now)
  {
  }

  // ---- All sources, all runs ----

  ghost predicate AllLocked(m: Limiter) {
    forall s :: LockLinked(m.limits, Entered(m, s), Log(m, s), m.latest)
  }

  lemma PurgeLocks(m: Limiter, now: int)
    requires ValidLimits(m.limits) && AllLocked(m) && now >= m.latest
    ensures AllLocked(Purged(m, now))
  {
    hide LockLinked;
    var p := Purged(m, now);
    forall s ensures LockLinked(p.limits, Entered(p, s), Log(p, s), p.latest) {
      assert LockLinked(m.limits, Entered(m, s), Log(m, s), m.latest);
      LockLater(m.limits, Entered(m, s), Log(m, s), m.latest, now);
      if s in m.entries && Stale(m.limits, m.entries[s], now) {
        LockStale(m.limits, m.entries[s], Log(m, s), now);
      }
    }
  }

  lemma ReserveLocks(m: Limiter, s: string, now: int)
    requires ValidLimits(m.limits) && AllLocked(m) && now >= m.latest
    ensures AllLocked(ReserveStep(m, s, now))
  {
    hide LockLinked, Admit;
    PurgeLocks(m, now);
    var p, r := Purged(m, now), ReserveStep(m, s, now);
    assert p.latest == r.latest == now;
    forall o ensures LockLinked(r.limits, Entered(r, o), Log(r, o), r.latest) {
      assert LockLinked(p.limits, Entered(p, o), Log(p, o), p.latest);
      if o == s && !Refuses(m, s, now) {
        if s !in p.entries { LockOpened(p.limits, Log(p, s), now); }
        LockAdmit(p.limits, if s in p.entries then p.entries[s] else NewEntry(now), Log(p, s), now);
      }
    }
  }

  lemma FinishLocks(m: Limiter, s: string, v: Verdict, now: int)
    requires ValidLimits(m.limits) && Accounted(m) && Within(m) && AllLinked(m) && AllLocked(m)
    requires s in m.live && now >= m.latest
    ensures AllLocked(FinishStep(m, s, v, now))
  {
    hide LockLinked, Linked;
    var r := FinishStep(m, s, v, now);
    assert m.entries[s].reservations == m.live[s] > 0;
    assert EntryWithin(m.limits, m.entries[s]);
    forall o ensures LockLinked(r.limits, Entered(r, o), Log(r, o), r.latest) {
      assert LockLinked(m.limits, Entered(m, o), Log(m, o), m.latest) && Linked(m.limits, Entered(m, o), Log(m, o), m.latest);
      LockLater(m.limits, Entered(m, o), Log(m, o), m.latest, now);
      LinkedLater(m.limits, Entered(m, o), Log(m, o), m.latest, now);
      if o == s {
        match v
        case Failed => LockFailed(m.limits, m.entries[s], Log(m, s), now);
        case Neutral => LockNeutral(m.limits, m.entries[s], Log(m, s), now);
        case Success => LockSuccess(m.limits, m.entries[s], now);
      }
    }
  }

  /** A refused newcomer keeps the table closed to newcomers for a lockout, and no longer than that. */
  predicate SaturationEnds(m: Limiter) { m.saturatedUntil <= EPOCH || m.saturatedUntil <= m.latest + m.limits.lockout }

  ghost predicate Kept(m: Limiter) {
    && ValidLimits(m.limits) && Accounted(m) && Within(m) && AllLinked(m) && AllLocked(m)
    && EPOCH <= m.latest && SaturationEnds(m)
  }

  lemma StepKept(m: Limiter, e: Event)
    requires Kept(m) && Enabled(m, e) && ClockedEvent(m, e)
    ensures Kept(Step(m, e)) && Step(m, e).limits == m.limits
  {
    hide AllLinked, AllLocked, Accounted, Within, Admit, Settle;
    StepAccounts(m, e);
    StepWithin(m, e);
    StepLinks(m, e);
    match e
    case Reserve(s, now) => ReserveLocks(m, s, now);
    case Finish(s, v, now) => FinishLocks(m, s, v, now);
    case CountSources(now) => PurgeLocks(m, now);
  }

  lemma {:induction false} RunKept(m: Limiter, es: seq<Event>)
    requires Kept(m) && ClockedRun(m, es)
    ensures Kept(Run(m, es)) && Run(m, es).limits == m.limits
    decreases |es|
  {
    hide Kept, Step;
    if es != [] {
      StepKept(m, es[0]);
      RunKept(Step(m, es[0]), es[1..]);
    }
  }

  lemma StartKept(limits: Limits, start: int)
    requires ValidLimits(limits) && EPOCH <= start
    ensures Kept(Initial(limits, start))
  {
    NothingLinked(limits, start);
  }

  /** The limiter still tracks the source. */
  predicate Known(m: Limiter, s: string, now: int) { s in Purged(m, now).entries }

  lemma GrantsExactlyWhen(m: Limiter, s: string, now: int)
    requires Kept(m) && now >= m.latest
    ensures Grants(m, s, now) <==>
      && (Known(m, s, now) || !Saturated(Purged(m, now), now))
      && !LockedOut(m.limits, Log(m, s), now) && m.live[s] + Counting(m.limits, Log(m, s), now) < m.limits.maxFailures
    ensures !Known(m, s, now) ==>
      !LockedOut(m.limits, Log(m, s), now) && m.live[s] == 0 && Counting(m.limits, Log(m, s), now) == 0
  {
    hide Accounted, Linked, LockLinked, Admit, LockedOut, Counting, Purged;
    var p := Purged(m, now);
    PurgeAccounts(m, now);
    PurgeLinks(m, now);
    PurgeLocks(m, now);
    PurgeKeeps(m, now);
    var l, log := m.limits, Log(m, s);
    assert Linked(l, Entered(p, s), log, now) && LockLinked(l, Entered(p, s), log, now);
    assert p.live[s] == if s in p.entries then p.entries[s].reservations else 0 by { PermitsOf(p, s); }
    if s in p.entries {
      EntryAdmitsExactlyWhen(l, p.entries[s], log, now);
    } else {
      NobodyIsFree(l, log, now);
      LinkedOpened(l, log, now);
      LockOpened(l, log, now);
      EntryAdmitsExactlyWhen(l, NewEntry(now), log, now);
    }
  }

  lemma PurgeKeeps(m: Limiter, now: int)
    requires now >= m.latest
    ensures var p := Purged(m, now); p.live == m.live && p.limits == m.limits && p.log == m.log && p.latest == now
  {
  }

  lemma PermitsOf(m: Limiter, s: string)
    requires Accounted(m)
    ensures m.live[s] == if s in m.entries then m.entries[s].reservations else 0
  {
  }

  lemma NobodyIsFree(l: Limits, log: seq<Failure>, now: int)
    requires ValidLimits(l) && Linked(l, None, log, now) && LockLinked(l, None, log, now)
    ensures !LockedOut(l, log, now) && Counting(l, log, now) == 0
  {
  }

  /** In every permit-only run whose clock does not go back: an attempt gets a permit exactly when the source
      is known or the table takes newcomers, no lockout is running, and the outstanding permits and the
      failures of the running epoch are fewer than the limit. */
  lemma GrantedExactlyWhen(limits: Limits, start: int, es: seq<Event>, s: string, now: int)
    requires ValidLimits(limits) && EPOCH <= start && ClockedRun(Initial(limits, start), es)
    requires now >= Run(Initial(limits, start), es).latest
    ensures var m := Run(Initial(limits, start), es);
      Grants(m, s, now) <==>
        && (Known(m, s, now) || !Saturated(Purged(m, now), now))
        && !LockedOut(limits, Log(m, s), now) && m.live[s] + Counting(limits, Log(m, s), now) < limits.maxFailures
  {
    hide Kept, Run, ClockedRun, Grants, Saturated, LockedOut, Counting;
    StartKept(limits, start);
    RunKept(Initial(limits, start), es);
    GrantsExactlyWhen(Run(Initial(limits, start), es), s, now);
  }

  /** After a success with no other permit outstanding nothing is held against the source: its next attempt is
      granted exactly when the table takes newcomers. */
  lemma SuccessClearsTheSource(m: Limiter, s: string, at: int, now: int)
    requires Kept(m) && at >= m.latest && now >= at && m.live[s] == 1
    ensures var after := Step(m, Finish(s, Success, at));
      !Known(after, s, now) && (Grants(after, s, now) <==> !Saturated(Purged(after, now), now))
  {
    var e := Finish(s, Success, at);
    StepKept(m, e);
    GrantsExactlyWhen(Step(m, e), s, now);
    assert m.entries[s].reservations == 1;
    hide Grants, AllLinked, AllLocked, Within, Saturated;
  }

  /** The table takes newcomers again a lockout after the last event, unless it is full. */
  lemma SaturationIsOver(m: Limiter, now: int)
    requires Kept(m) && now >= m.latest + m.limits.lockout
    ensures Saturated(Purged(m, now), now) <==> |Purged(m, now).entries| >= m.limits.maxSources
  {
    hide AllLinked, AllLocked, Accounted, Within;
  }

  /** A refused newcomer closes the table to newcomers for a lockout. */
  lemma RefusalSaturates(m: Limiter, s: string, now: int, later: int)
    requires Refuses(m, s, now) && now <= later < now + m.limits.lockout
    ensures var after := Step(m, Reserve(s, now)); Saturated(Purged(after, later), later)
  {
  }

  /** Nothing is remembered for longer than needed: without permits outstanding, a window and a lockout after the last
      event every source is forgotten, and the table takes newcomers. */
  lemma QuietEmptiesTheTable(m: Limiter, s: string, now: int)
    requires Kept(m) && m.live == multiset{} && now >= m.latest + m.limits.window + m.limits.lockout
    ensures Purged(m, now).entries == map[] && Grants(m, s, now)
  {
    forall o | o in m.entries ensures Stale(m.limits, m.entries[o], now) {
      assert m.live[o] == m.entries[o].reservations;
      assert Linked(m.limits, Entered(m, o), Log(m, o), m.latest) && LockLinked(m.limits, Entered(m, o), Log(m, o), m.latest);
      LockIsShort(m.limits, m.entries[o], Log(m, o), m.latest);
    }
    assert Purged(m, now).entries == map[];
    GrantsExactlyWhen(m, s, now);
    SaturationIsOver(m, now);
  }

  lemma LockIsShort(l: Limits, e: Entry, log: seq<Failure>, latest: int)
    requires ValidLimits(l) && EPOCH <= latest && Linked(l, Some(e), log, latest) && LockLinked(l, Some(e), log, latest)
    ensures e.lastSeen <= latest && e.blockedUntil <= latest + l.lockout
  {
  }

  /** The first attempt of any source on a new limiter is granted. */
  lemma FirstAttemptIsGranted(limits: Limits, start: int, s: string, now: int)
    requires ValidLimits(limits) && EPOCH <= start <= now
    ensures Grants(Initial(limits, start), s, now)
  {
    StartKept(limits, start);
    var m := Initial(limits, start);
    GrantsExactlyWhen(m, s, now);
    assert Purged(m, now).entries == map[];
  }
}
