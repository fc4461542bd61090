/** What permits alone guarantee: the ceiling, the lockout, and how many failures of one source can
    fall into one window. */
module LoginWindows {
  import opened Basics
  import opened Windows
  import opened LoginLimiter

  predicate PermitEvent(e: Event) {
    e.Reserve? || e.Finish? || e.CountSources?
  }

  ghost predicate PermitRun(m: Limiter, es: seq<Event>)
    decreases |es|
  {
    es == [] || (Enabled(m, es[0]) && PermitEvent(es[0]) && PermitRun(Step(m, es[0]), es[1..]))
  }

  // ---- The ceiling ----

  predicate EntryWithin(l: Limits, e: Entry) {
    e.failures + e.reservations <= l.maxFailures
  }

  ghost predicate Within(m: Limiter) {
    forall s :: s in m.entries ==> EntryWithin(m.limits, m.entries[s])
  }

  /** An outstanding permit pays for the failure it may become. */
  lemma SettleWithin(l: Limits, e: Entry, v: Verdict, now: int)
    requires EntryWithin(l, e) && e.reservations > 0
    ensures EntryWithin(l, Settle(l, e, v, now))
  {
  }

  lemma StepWithin(m: Limiter, e: Event)
    requires Enabled(m, e) && PermitEvent(e) && ValidLimits(m.limits) && Accounted(m) && Within(m)
    ensures Within(Step(m, e))
  {
    match e
    case Reserve(s, now) => ReserveWithin(m, s, now);
    case Finish(s, v, now) =>
      assert m.entries[s].reservations == m.live[s] > 0;
      SettleWithin(m.limits, m.entries[s], v, now);
      hide Settle, Erasable;
    case CountSources(now) =>
  }

  lemma AdmitWithin(l: Limits, e: Entry, now: int)
    requires EntryWithin(l, e)
    ensures EntryWithin(l, Admit(l, e, now).0)
  {
  }

  lemma ReserveWithin(m: Limiter, s: string, now: int)
    requires Within(m)
    ensures Within(ReserveStep(m, s, now))
  {
    var p := Purged(m, now);
    assert Within(p);
    hide Purged, Admit;
    AdmitWithin(p.limits, if s in p.entries then p.entries[s] else NewEntry(now), now);
  }

  lemma {:induction false} RunWithin(m: Limiter, es: seq<Event>)
    requires PermitRun(m, es) && ValidLimits(m.limits) && Accounted(m) && Within(m)
    ensures ValidRun(m, es) && Accounted(Run(m, es)) && Within(Run(m, es))
    decreases |es|
  {
    if es != [] {
      StepWithin(m, es[0]);
      StepAccounts(m, es[0]);
      RunWithin(Step(m, es[0]), es[1..]);
    }
  }

  // ---- The lockout ----

  /** No attempt of `s` is admitted anywhere in the run. */
  ghost predicate RefusedThroughout(m: Limiter, s: string, es: seq<Event>)
    decreases |es|
  {
    es == [] ||
    ((es[0].Reserve? && es[0].source == s ==> !Grants(m, s, es[0].now)) &&
     RefusedThroughout(Step(m, es[0]), s, es[1..]))
  }

  ghost predicate Locked(m: Limiter, s: string, until: int) {
    && s in m.entries && m.entries[s].blockedUntil == until
    && m.live[s] == 0
  }

  predicate AllBefore(es: seq<Event>, until: int) {
    forall i :: 0 <= i < |es| ==> es[i].now < until
  }

  lemma StepStaysLocked(m: Limiter, e: Event, s: string, until: int)
    requires Enabled(m, e) && PermitEvent(e) && Locked(m, s, until) && e.now < until
    ensures Locked(Step(m, e), s, until)
    ensures e.Reserve? && e.source == s ==> !Grants(m, s, e.now)
  {
    assert !Stale(m.limits, m.entries[s], e.now);
  }

  lemma {:induction false} LockedMeansRefused(m: Limiter, s: string, until: int, es: seq<Event>)
    requires PermitRun(m, es) && Locked(m, s, until) && AllBefore(es, until)
    ensures RefusedThroughout(m, s, es)
    decreases |es|
  {
    if es != [] {
      StepStaysLocked(m, es[0], s, until);
      assert AllBefore(es[1..], until);
      LockedMeansRefused(Step(m, es[0]), s, until, es[1..]);
    }
  }

  /** Reaching the limit leaves no outstanding permit, and until the lockout ends every attempt of the
      source is refused, whatever else happens and in whatever order the times come. */
  lemma LimitLocksTheSource(m: Limiter, s: string, now: int, es: seq<Event>)
    requires ValidLimits(m.limits) && Accounted(m) && Within(m) && s in m.live
    requires var after := Step(m, Finish(s, Failed, now));
      && s in after.entries && after.entries[s].failures >= m.limits.maxFailures
      && PermitRun(after, es) && AllBefore(es, now + m.limits.lockout)
    ensures var after := Step(m, Finish(s, Failed, now));
      && after.live[s] == 0
      && after.entries[s].failures == m.limits.maxFailures
      && RefusedThroughout(after, s, es)
  {
    var after := Step(m, Finish(s, Failed, now));
    StepWithin(m, Finish(s, Failed, now));
    StepAccounts(m, Finish(s, Failed, now));
    assert EntryWithin(after.limits, after.entries[s]);
    assert Locked(after, s, now + m.limits.lockout);
    LockedMeansRefused(after, s, now + m.limits.lockout, es);
  }

  // ---- Failures per window ----

  predicate InEpoch(f: Failure, window: int) {
    f.started <= f.time < f.started + window
  }

  predicate EpochsApart(a: Failure, b: Failure, window: int) {
    a.started == b.started || a.started + window <= b.started
  }

  /** Failures in order of time, each within its epoch, epochs at least a window apart, and no epoch
      with more than `n` of them. */
  ghost predicate EpochLog(log: seq<Failure>, n: nat, window: int) {
    && (forall i :: 0 <= i < |log| ==> InEpoch(log[i], window))
    && (forall i, j :: 0 <= i <= j < |log| ==> log[i].time <= log[j].time && EpochsApart(log[i], log[j], window))
    && (forall j :: n <= j < |log| ==> NewEpoch(log, j, n, window))
  }

  predicate NewEpoch(log: seq<Failure>, j: nat, n: nat, window: int)
    requires n <= j < |log|
  {
    log[j - n].started + window <= log[j].started
  }

  /** The first `k` failures belong to epochs that ended by `start`. */
  ghost predicate Ended(log: seq<Failure>, k: nat, start: int, window: int)
    requires k <= |log|
  {
    forall i :: 0 <= i < k ==> log[i].started + window <= start
  }

  ghost predicate CurrentEpoch(log: seq<Failure>, k: nat, start: int) {
    forall i :: k <= i < |log| ==> log[i].started == start
  }

  /** How a source's entry, or its absence, relates to the failures it has had. */
  ghost predicate Linked(l: Limits, e: Option<Entry>, log: seq<Failure>, latest: int) {
    && EpochLog(log, l.maxFailures, l.window)
    && (log != [] ==> log[|log| - 1].time <= latest)
    && match e
       case None => Ended(log, |log|, latest, l.window)
       case Some(e) =>
         && e.windowStarted <= e.lastSeen <= latest
         && e.failures <= |log|
         && Ended(log, |log| - e.failures, e.windowStarted, l.window)
         && CurrentEpoch(log, |log| - e.failures, e.windowStarted)
  }

  lemma LinkedRenewed(l: Limits, e: Entry, log: seq<Failure>, now: int)
    requires ValidLimits(l) && Linked(l, Some(e), log, now)
    ensures Linked(l, Some(Renewed(l, e.(lastSeen := now), now)), log, now)
  {
    if now - e.windowStarted >= l.window {
      assert Ended(log, |log|, now, l.window);
    }
  }

  lemma LinkedLater(l: Limits, e: Option<Entry>, log: seq<Failure>, latest: int, now: int)
    requires Linked(l, e, log, latest) && latest <= now
    ensures Linked(l, e, log, now)
  {
  }

  lemma LinkedStale(l: Limits, e: Entry, log: seq<Failure>, now: int)
    requires ValidLimits(l) && Linked(l, Some(e), log, now) && Stale(l, e, now)
    ensures Linked(l, None, log, now)
  {
  }

  lemma LinkedOpened(l: Limits, log: seq<Failure>, now: int)
    requires Linked(l, None, log, now)
    ensures Linked(l, Some(NewEntry(now)), log, now)
  {
  }

  lemma LinkedAdmit(l: Limits, e: Entry, log: seq<Failure>, now: int)
    requires ValidLimits(l) && Linked(l, Some(e), log, now)
    ensures Linked(l, Some(Admit(l, e, now).0), log, now)
  {
    LinkedRenewed(l, e, log, now);
  }

  lemma EpochLogAppend(log: seq<Failure>, f: Failure, k: nat, n: nat, window: int)
    requires EpochLog(log, n, window) && InEpoch(f, window) && window > 0
    requires k <= |log| && |log| - k < n
    requires log != [] ==> log[|log| - 1].time <= f.time
    requires Ended(log, k, f.started, window) && CurrentEpoch(log, k, f.started)
    ensures EpochLog(log + [f], n, window)
  {
    var next := log + [f];
    forall i, j | 0 <= i <= j < |next|
      ensures next[i].time <= next[j].time && EpochsApart(next[i], next[j], window)
    {
      if j < |log| {
        assert log[i].time <= log[j].time && EpochsApart(log[i], log[j], window);
      } else if i < |log| {
        assert log[i].time <= log[|log| - 1].time;
      }
    }
    forall j | n <= j < |next| ensures NewEpoch(next, j, n, window) {
      if j < |log| { assert NewEpoch(log, j, n, window); }
    }
  }

  lemma LinkedFailed(l: Limits, e: Entry, log: seq<Failure>, now: int)
    requires ValidLimits(l) && Linked(l, Some(e), log, now)
    requires e.reservations > 0 && EntryWithin(l, e)
    ensures var settled := Settle(l, e, Failed, now);
      Linked(l, Some(settled), log + [Failure(now, settled.windowStarted)], now)
  {
    LinkedRenewed(l, e, log, now);
    var r := Renewed(l, e.(lastSeen := now), now);
    var f := Failure(now, r.windowStarted);
    EpochLogAppend(log, f, |log| - r.failures, l.maxFailures, l.window);
    assert Settle(l, e, Failed, now).windowStarted == r.windowStarted;
    assert Settle(l, e, Failed, now).failures == r.failures + 1;
  }

  lemma LinkedNeutral(l: Limits, e: Entry, log: seq<Failure>, now: int)
    requires Linked(l, Some(e), log, now)
    ensures Linked(l, Some(Settle(l, e, Neutral, now)), log, now)
    ensures e.failures == 0 ==> Linked(l, None, log, now)
  {
  }

  lemma LinkedSuccess(l: Limits, e: Entry, now: int)
    ensures Linked(l, Some(Settle(l, e, Success, now)), [], now) && Linked(l, None, [], now)
  {
  }

  // ---- All sources ----

  ghost predicate AllLinked(m: Limiter) {
    forall s :: Linked(m.limits, Entered(m, s), Log(m, s), m.latest)
  }

  /** Permits only, and a clock that does not go back. */
  predicate ClockedEvent(m: Limiter, e: Event) {
    PermitEvent(e) && e.now >= m.latest
  }

  ghost predicate ClockedRun(m: Limiter, es: seq<Event>)
    decreases |es|
  {
    es == [] || (Enabled(m, es[0]) && ClockedEvent(m, es[0]) && ClockedRun(Step(m, es[0]), es[1..]))
  }

  lemma PurgeLinks(m: Limiter, now: int)
    requires ValidLimits(m.limits) && AllLinked(m) && now >= m.latest
    ensures AllLinked(Purged(m, now))
  {
    var p := Purged(m, now);
    forall s ensures Linked(p.limits, Entered(p, s), Log(p, s), p.latest) {
      assert Linked(m.limits, Entered(m, s), Log(m, s), m.latest);
      hide Linked;
      LinkedLater(m.limits, Entered(m, s), Log(m, s), m.latest, now);
      if s in m.entries && Stale(m.limits, m.entries[s], now) {
        LinkedStale(m.limits, m.entries[s], Log(m, s), now);
      }
    }
  }

  lemma ReserveLinks(m: Limiter, s: string, now: int)
    requires ValidLimits(m.limits) && AllLinked(m) && now >= m.latest
    ensures AllLinked(ReserveStep(m, s, now))
  {
    hide Linked;
    PurgeLinks(m, now);
    var p, r := Purged(m, now), ReserveStep(m, s, now);
    assert p.latest == r.latest == now;
    forall o ensures Linked(r.limits, Entered(r, o), Log(r, o), r.latest) {
      assert Linked(p.limits, Entered(p, o), Log(p, o), p.latest);
      if o == s && !Refuses(m, s, now) {
        if s !in p.entries { LinkedOpened(p.limits, Log(p, s), now); }
        LinkedAdmit(p.limits, if s in p.entries then p.entries[s] else NewEntry(now), Log(p, s), now);
      }
    }
  }

  lemma FinishLinks(m: Limiter, s: string, v: Verdict, now: int)
    requires ValidLimits(m.limits) && Accounted(m) && Within(m) && AllLinked(m)
    requires s in m.live && now >= m.latest
    ensures AllLinked(FinishStep(m, s, v, now))
  {
    hide Linked;
    var r := FinishStep(m, s, v, now);
    assert m.entries[s].reservations == m.live[s] > 0;
    assert EntryWithin(m.limits, m.entries[s]);
    forall o ensures Linked(r.limits, Entered(r, o), Log(r, o), r.latest) {
      assert Linked(m.limits, Entered(m, o), Log(m, o), m.latest);
      LinkedLater(m.limits, Entered(m, o), Log(m, o), m.latest, now);
      if o == s {
        match v
        case Failed => LinkedFailed(m.limits, m.entries[s], Log(m, s), now);
        case Neutral => LinkedNeutral(m.limits, m.entries[s], Log(m, s), now);
        case Success => LinkedSuccess(m.limits, m.entries[s], now);
      }
    }
  }

  lemma StepLinks(m: Limiter, e: Event)
    requires Enabled(m, e) && ClockedEvent(m, e) && ValidLimits(m.limits)
    requires Accounted(m) && Within(m) && AllLinked(m)
    ensures AllLinked(Step(m, e))
  {
    hide AllLinked, Accounted, Within;
    match e
    case Reserve(s, now) => ReserveLinks(m, s, now);
    case Finish(s, v, now) => FinishLinks(m, s, v, now);
    case CountSources(now) => PurgeLinks(m, now);
  }

  lemma {:induction false} RunLinks(m: Limiter, es: seq<Event>)
    requires ClockedRun(m, es) && ValidLimits(m.limits) && Accounted(m) && Within(m) && AllLinked(m)
    ensures ValidRun(m, es) && AllLinked(Run(m, es)) && Run(m, es).limits == m.limits
    decreases |es|
  {
    if es != [] {
      hide AllLinked, Accounted, Within;
      StepLinks(m, es[0]);
      StepWithin(m, es[0]);
      StepAccounts(m, es[0]);
      RunLinks(Step(m, es[0]), es[1..]);
    }
  }

  function Times(log: seq<Failure>): (ts: seq<int>)
    ensures |ts| == |log| && forall i :: 0 <= i < |log| ==> ts[i] == log[i].time
  {
    seq(|log|, i requires 0 <= i < |log| => log[i].time)
  }

  /** 2n + 1 failures touch three epochs, and three epochs span more than a window. */
  lemma EpochsSpaceFailures(log: seq<Failure>, n: nat, window: int)
    requires EpochLog(log, n, window)
    ensures Nondecreasing(Times(log)) && Spaced(Times(log), 2 * n, window)
  {
    var ts := Times(log);
    forall i, j | 0 <= i <= j < |ts| ensures ts[i] <= ts[j] { assert log[i].time <= log[j].time; }
    forall j | 2 * n <= j < |ts| ensures Apart(ts, j, 2 * n, window) {
      assert NewEpoch(log, j, n, window) && NewEpoch(log, j - n, n, window);
      assert InEpoch(log[j], window) && InEpoch(log[j - 2 * n], window);
    }
  }

  lemma NothingLinked(limits: Limits, start: int)
    ensures AllLinked(Initial(limits, start)) && Within(Initial(limits, start)) && Accounted(Initial(limits, start))
  {
  }

  lemma LinkedLog(l: Limits, e: Option<Entry>, log: seq<Failure>, latest: int)
    requires Linked(l, e, log, latest)
    ensures EpochLog(log, l.maxFailures, l.window)
  {
  }

  /** In every permit-only run with a clock that does not go back, no half-open interval of length `window`
      holds more than twice `maxFailures` failures of one source since its last success. */
  lemma FailuresPerWindow(limits: Limits, start: int, es: seq<Event>, s: string, lo: int)
    requires ValidLimits(limits) && ClockedRun(Initial(limits, start), es)
    ensures ValidRun(Initial(limits, start), es)
    ensures CountIn(Times(Log(Run(Initial(limits, start), es), s)), lo, lo + limits.window) <= 2 * limits.maxFailures
  {
    var m0 := Initial(limits, start);
    NothingLinked(limits, start);
    hide Linked, Within, Accounted, Run, ClockedRun, ValidRun, CountIn, EpochLog;
    RunLinks(m0, es);
    var m := Run(m0, es);
    LinkedLog(m.limits, Entered(m, s), Log(m, s), m.latest);
    EpochsSpaceFailures(Log(m, s), limits.maxFailures, limits.window);
    SpacedMeansFew(Times(Log(m, s)), 2 * limits.maxFailures, limits.window, lo);
  }
}
