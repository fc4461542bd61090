/** The router-wide budget of failed logins forwarded to the firmware: the step it takes on each
    event, and what every run of such steps keeps. `log` and `latest` are history: every failure ever
    recorded, and the latest time any call used. */
module ForwardBudget {
  import opened Basics
  import opened Windows

  datatype PermitState = Free | Admitted | Spent

  datatype Budget = Budget(
    capacity: nat, window: int, forwarded: seq<int>, permit: PermitState,
    log: seq<int>, latest: int)

  datatype Event =
    | Reserve(now: int)
    | Record(now: int)
    | Finish
    | Observe(now: int)
    | LegacyRecord(now: int)
    | Reconfigure(capacity: nat, window: int)

  function Pruned(f: seq<int>, now: int, window: int): seq<int> {
    if f != [] && now - f[0] >= window then Pruned(f[1..], now, window) else f
  }

  /** At least one slot is kept even when nothing may be forwarded. */
  function Bound(capacity: nat): nat {
    if capacity > 0 then capacity else 1
  }

  function Newest(f: seq<int>, n: nat): seq<int> {
    if |f| <= n then f else f[|f| - n..]
  }

  function Use(b: Budget, now: int): Budget {
    b.(forwarded := Pruned(b.forwarded, now, b.window), latest := Later(b.latest, now))
  }

  function RecordAt(b: Budget, now: int): Budget {
    var used := Use(b, now);
    used.(forwarded := Newest(used.forwarded + [now], Bound(b.capacity)), log := b.log + [now])
  }

  /** The permit holds the mutex until it is destroyed, so nothing else runs in between. */
  predicate Enabled(b: Budget, e: Event) {
    if e.Record? || e.Finish? then b.permit != Free else b.permit == Free
  }

  predicate Admits(b: Budget, now: int) {
    |Pruned(b.forwarded, now, b.window)| < b.capacity
  }

  function Step(b: Budget, e: Event): Budget
    requires Enabled(b, e)
  {
    match e
    case Reserve(now) => Use(b, now).(permit := if Admits(b, now) then Admitted else Free)
    case Record(now) => if b.permit == Admitted then RecordAt(b, now).(permit := Spent) else b
    case Finish => b.(permit := Free)
    case Observe(now) => Use(b, now)
    case LegacyRecord(now) => RecordAt(b, now)
    case Reconfigure(capacity, window) =>
      b.(capacity := capacity, window := window, forwarded := Newest(b.forwarded, Bound(capacity)))
  }

  ghost predicate ValidRun(b: Budget, es: seq<Event>)
    decreases |es|
  {
    es == [] || (Enabled(b, es[0]) && ValidRun(Step(b, es[0]), es[1..]))
  }

  ghost function Run(b: Budget, es: seq<Event>): Budget
    requires ValidRun(b, es)
    decreases |es|
  {
    if es == [] then b else Run(Step(b, es[0]), es[1..])
  }

  function Initial(capacity: nat, window: int, start: int): Budget {
    Budget(capacity, window, [], Free, [], start)
  }

  function FirmwareCapacity(threshold: nat): nat {
    if threshold == 0 then 0 else threshold - 1
  }

  // ---- Permit-only runs ----

  /** Admission and observation may use a stale time; only the time of a recorded failure, taken
      while the permit holds the lock, must not lie before a time already used. */
  predicate PermitOnly(b: Budget, e: Event) {
    !e.LegacyRecord? && !e.Reconfigure? && (e.Record? && b.permit == Admitted ==> e.now >= b.latest)
  }

  ghost predicate PermitRun(b: Budget, es: seq<Event>)
    decreases |es|
  {
    es == [] || (Enabled(b, es[0]) && PermitOnly(b, es[0]) && PermitRun(Step(b, es[0]), es[1..]))
  }

  /** `f` is the end of `log`, and what is missing was at least `window` old at `latest`. */
  ghost predicate AgedSuffix(f: seq<int>, log: seq<int>, window: int, latest: int) {
    && |f| <= |log| && f == log[|log| - |f|..]
    && Nondecreasing(log) && (log != [] ==> log[|log| - 1] <= latest)
    && (|f| < |log| ==> latest - log[|log| - |f| - 1] >= window)
  }

  ghost predicate PermitInvariant(b: Budget) {
    && AgedSuffix(b.forwarded, b.log, b.window, b.latest)
    && Spaced(b.log, b.capacity, b.window)
    && |b.forwarded| <= b.capacity
    && (b.permit == Admitted ==> |b.forwarded| < b.capacity)
    && (b.capacity == 0 ==> b.log == [])
  }

  lemma {:induction false} PruneKeepsAgedSuffix(f: seq<int>, log: seq<int>, window: int, latest: int, now: int)
    requires AgedSuffix(f, log, window, latest)
    ensures AgedSuffix(Pruned(f, now, window), log, window, Later(latest, now))
    ensures |Pruned(f, now, window)| <= |f|
    decreases |f|
  {
    if f != [] && now - f[0] >= window {
      assert f[1..] == log[|log| - |f| + 1..];
      PruneKeepsAgedSuffix(f[1..], log, window, Later(latest, now), now);
    }
  }

  lemma RecordKeepsInvariant(b: Budget, now: int)
    requires PermitInvariant(b) && b.permit == Admitted && now >= b.latest
    ensures PermitInvariant(RecordAt(b, now).(permit := Spent))
  {
    hide Pruned, Spaced, AgedSuffix;
    PruneKeepsAgedSuffix(b.forwarded, b.log, b.window, b.latest, now);
    assert Later(b.latest, now) == now;
    AgedAppend(Pruned(b.forwarded, now, b.window), b.log, b.capacity, b.window, now);
  }

  /** One more failure after a pruned deque with a free place. */
  lemma AgedAppend(f: seq<int>, log: seq<int>, capacity: nat, window: int, now: int)
    requires AgedSuffix(f, log, window, now) && Spaced(log, capacity, window) && |f| < capacity
    ensures AgedSuffix(f + [now], log + [now], window, now) && Spaced(log + [now], capacity, window)
  {
    hide Spaced;
    assert capacity <= |log| ==> log[|log| - capacity] <= log[|log| - |f| - 1];
    AppendToSuffix(f, log, now);
    NondecreasingAppend(log, now);
    hide Nondecreasing;
    SpacedAppend(log, now, capacity, window);
  }

  lemma AppendToSuffix(f: seq<int>, log: seq<int>, now: int)
    requires |f| <= |log| && f == log[|log| - |f|..]
    ensures f + [now] == (log + [now])[|log| - |f|..]
    ensures |f| < |log| ==> (log + [now])[|log| - |f| - 1] == log[|log| - |f| - 1]
  {
  }

  lemma StepKeepsInvariant(b: Budget, e: Event)
    requires Enabled(b, e) && PermitOnly(b, e) && PermitInvariant(b)
    ensures PermitInvariant(Step(b, e)) && Step(b, e).capacity == b.capacity && Step(b, e).window == b.window
  {
    match e
    case Reserve(now) => PruneKeepsAgedSuffix(b.forwarded, b.log, b.window, b.latest, now);
    case Observe(now) => PruneKeepsAgedSuffix(b.forwarded, b.log, b.window, b.latest, now);
    case Record(now) => if b.permit == Admitted { RecordKeepsInvariant(b, now); }
    case Finish =>
  }

  lemma {:induction false} RunKeepsInvariant(b: Budget, es: seq<Event>)
    requires PermitRun(b, es) && PermitInvariant(b)
    ensures ValidRun(b, es) && PermitInvariant(Run(b, es))
    ensures Run(b, es).capacity == b.capacity && Run(b, es).window == b.window
    decreases |es|
  {
    if es != [] {
      StepKeepsInvariant(b, es[0]);
      RunKeepsInvariant(Step(b, es[0]), es[1..]);
    }
  }

  /** The law the budget exists for: in every permit-only run, no half-open interval of length
      `window` holds more than `capacity` forwarded failures, however stale the admission times. */
  lemma NoWindowExceedsCapacity(capacity: nat, window: int, start: int, es: seq<Event>, lo: int)
    requires PermitRun(Initial(capacity, window, start), es)
    ensures ValidRun(Initial(capacity, window, start), es)
    ensures CountIn(Run(Initial(capacity, window, start), es).log, lo, lo + window) <= capacity
  {
    RunKeepsInvariant(Initial(capacity, window, start), es);
    SpacedMeansFew(Run(Initial(capacity, window, start), es).log, capacity, window, lo);
  }

  /** Sized from the firmware's threshold, the budget never lets the firmware reach it. */
  lemma FirmwareThresholdIsNeverReached(threshold: nat, window: int, start: int, es: seq<Event>, lo: int)
    requires threshold >= 1 && PermitRun(Initial(FirmwareCapacity(threshold), window, start), es)
    ensures ValidRun(Initial(FirmwareCapacity(threshold), window, start), es)
    ensures CountIn(Run(Initial(FirmwareCapacity(threshold), window, start), es).log, lo, lo + window) < threshold
  {
    NoWindowExceedsCapacity(FirmwareCapacity(threshold), window, start, es, lo);
  }

  /** n times the same value. */
  function Repeated(t: int, n: nat): (s: seq<int>)
    ensures |s| == n && forall i :: 0 <= i < n ==> s[i] == t
  {
    seq(n, i => t)
  }

  /** While there are free places, one failure after the other is admitted and recorded at the same time. */
  lemma {:induction false} AdmitUpTo(b: Budget, t: int, n: nat) returns (es: seq<Event>)
    requires b.permit == Free && b.window > 0 && b.latest == t && |b.forwarded| + n <= b.capacity
    requires forall i :: 0 <= i < |b.forwarded| ==> b.forwarded[i] == t
    ensures PermitRun(b, es) && ValidRun(b, es) && Run(b, es).log == b.log + Repeated(t, n)
    decreases n
  {
    if n == 0 {
      es := [];
      assert b.log + Repeated(t, 0) == b.log;
    } else {
      var b1 := Step(b, Reserve(t));
      assert Pruned(b.forwarded, t, b.window) == b.forwarded;
      var b2 := Step(b1, Record(t));
      assert b2.forwarded == b.forwarded + [t];
      var b3 := Step(b2, Finish);
      var more := AdmitUpTo(b3, t, n - 1);
      es := [Reserve(t), Record(t), Finish] + more;
      ThreeSteps(b, t, more);
      assert b.log + [t] + Repeated(t, n - 1) == b.log + Repeated(t, n);
    }
  }

  lemma ThreeSteps(b: Budget, t: int, more: seq<Event>)
    requires b.permit == Free && b.latest == t && Admits(b, t)
    requires var b3 := RecordAt(Use(b, t), t).(permit := Free); PermitRun(b3, more) && ValidRun(b3, more)
    ensures var es := [Reserve(t), Record(t), Finish] + more;
      PermitRun(b, es) && ValidRun(b, es) && Run(b, es) == Run(RecordAt(Use(b, t), t).(permit := Free), more)
  {
    hide Pruned, Newest;
    var es := [Reserve(t), Record(t), Finish] + more;
    var b1 := Step(b, Reserve(t));
    var b2 := Step(b1, Record(t));
    var b3 := Step(b2, Finish);
    assert es[1..][1..][1..] == more;
    assert es[1..][1..][0] == Finish && es[1..][0] == Record(t);
    assert b3 == RecordAt(Use(b, t), t).(permit := Free);
    assert PermitRun(b2, es[1..][1..]) && ValidRun(b2, es[1..][1..]) && Run(b2, es[1..][1..]) == Run(b3, more);
    assert PermitRun(b1, es[1..]) && ValidRun(b1, es[1..]) && Run(b1, es[1..]) == Run(b3, more);
    assert es[0] == Reserve(t) && Step(b, es[0]) == b1;
  }

  lemma {:induction false} AllAreCounted(t: int, n: nat, window: int)
    requires window > 0
    ensures CountIn(Repeated(t, n), t, t + window) == n
  {
    if n > 0 {
      assert Repeated(t, n)[..n - 1] == Repeated(t, n - 1);
      AllAreCounted(t, n - 1, window);
    }
  }

  /** The bound is exact: some permit-only run fills a window up to the capacity. */
  lemma SomeWindowReachesCapacity(capacity: nat, window: int, start: int) returns (es: seq<Event>)
    requires window > 0
    ensures var b := Initial(capacity, window, start);
      PermitRun(b, es) && ValidRun(b, es) && CountIn(Run(b, es).log, start, start + window) == capacity
  {
    hide Run, PermitRun, ValidRun;
    es := AdmitUpTo(Initial(capacity, window, start), start, capacity);
    AllAreCounted(start, capacity, window);
    assert [] + Repeated(start, capacity) == Repeated(start, capacity);
  }

  /** The firmware's threshold allows no larger budget: with one more place a run reaches it. */
  lemma OneMorePlaceReachesTheThreshold(threshold: nat, window: int, start: int) returns (es: seq<Event>)
    requires threshold >= 1 && window > 0
    ensures var b := Initial(FirmwareCapacity(threshold) + 1, window, start);
      PermitRun(b, es) && ValidRun(b, es) && CountIn(Run(b, es).log, start, start + window) >= threshold
  {
    hide Run, PermitRun, ValidRun, CountIn;
    es := SomeWindowReachesCapacity(FirmwareCapacity(threshold) + 1, window, start);
  }

  // ---- The bounded deque against the whole log ----

  /** How many logged failures are younger than `window` at `now`. */
  function Young(log: seq<int>, now: int, window: int): nat {
    if log == [] then 0
    else Young(log[..|log| - 1], now, window) + if now - log[|log| - 1] < window then 1 else 0
  }

  /** `f` is the end of `log`; anything missing was dropped because the deque was full or it was old. */
  ghost predicate Tracks(f: seq<int>, log: seq<int>, bound: nat, window: int, latest: int) {
    && |f| <= |log| && f == log[|log| - |f|..]
    && Nondecreasing(log) && (log != [] ==> log[|log| - 1] <= latest)
    && (|f| < |log| ==> |f| >= bound || latest - log[|log| - |f| - 1] >= window)
  }

  ghost predicate Faithful(b: Budget) {
    Tracks(b.forwarded, b.log, Bound(b.capacity), b.window, b.latest)
  }

  /** Monotone times; a reconfiguration may only tighten. */
  predicate Monotone(b: Budget, e: Event) {
    match e
    case Reconfigure(capacity, window) => capacity <= b.capacity && window <= b.window
    case Finish => true
    case Record(now) => now >= b.latest
    case Reserve(now) => now >= b.latest
    case Observe(now) => now >= b.latest
    case LegacyRecord(now) => now >= b.latest
  }

  ghost predicate MonotoneRun(b: Budget, es: seq<Event>)
    decreases |es|
  {
    es == [] || (Enabled(b, es[0]) && Monotone(b, es[0]) && MonotoneRun(Step(b, es[0]), es[1..]))
  }

  lemma {:induction false} PruneTracks(f: seq<int>, log: seq<int>, bound: nat, window: int, latest: int, now: int)
    requires Tracks(f, log, bound, window, latest) && now >= latest
    ensures Tracks(Pruned(f, now, window), log, bound, window, now)
    decreases |f|
  {
    if f != [] && now - f[0] >= window {
      assert f[1..] == log[|log| - |f| + 1..];
      PruneTracks(f[1..], log, bound, window, now, now);
    }
  }

  lemma RecordTracks(b: Budget, now: int)
    requires Faithful(b) && now >= b.latest
    ensures Faithful(RecordAt(b, now))
  {
    hide Pruned, Newest, Bound, Tracks, Nondecreasing;
    assert Tracks(b.forwarded, b.log, Bound(b.capacity), b.window, b.latest);
    PruneTracks(b.forwarded, b.log, Bound(b.capacity), b.window, b.latest, now);
    TracksAppend(Pruned(b.forwarded, now, b.window), b.log, Bound(b.capacity), b.window, now);
  }

  lemma TracksAppend(f: seq<int>, log: seq<int>, bound: nat, window: int, now: int)
    requires Tracks(f, log, bound, window, now)
    ensures Tracks(Newest(f + [now], bound), log + [now], bound, window, now)
  {
    AppendToSuffix(f, log, now);
    NondecreasingAppend(log, now);
    hide Nondecreasing;
    assert |f| < |log| ==> (log + [now])[|log + [now]| - |f + [now]| - 1] == log[|log| - |f| - 1];
    NewestTracks(f + [now], log + [now], bound, window, now);
  }

  lemma NewestTracks(f: seq<int>, log: seq<int>, bound: nat, window: int, latest: int)
    requires |f| <= |log| && f == log[|log| - |f|..] && Nondecreasing(log) && (log != [] ==> log[|log| - 1] <= latest)
    requires |f| < |log| ==> |f| >= bound || latest - log[|log| - |f| - 1] >= window
    ensures Tracks(Newest(f, bound), log, bound, window, latest)
  {
    var g := Newest(f, bound);
    assert g == log[|log| - |g|..];
  }

  lemma TightenTracks(b: Budget, capacity: nat, window: int)
    requires Faithful(b) && capacity <= b.capacity && window <= b.window
    ensures Tracks(Newest(b.forwarded, Bound(capacity)), b.log, Bound(capacity), window, b.latest)
  {
    NewestTracks(b.forwarded, b.log, Bound(capacity), window, b.latest);
  }

  lemma StepTracks(b: Budget, e: Event)
    requires Enabled(b, e) && Monotone(b, e) && Faithful(b)
    ensures Faithful(Step(b, e))
  {
    hide Tracks, Pruned, RecordAt, Newest, Bound;
    match e
    case Reserve(now) => PruneTracks(b.forwarded, b.log, Bound(b.capacity), b.window, b.latest, now);
    case Observe(now) => PruneTracks(b.forwarded, b.log, Bound(b.capacity), b.window, b.latest, now);
    case Record(now) => if b.permit == Admitted { RecordTracks(b, now); }
    case LegacyRecord(now) => RecordTracks(b, now);
    case Reconfigure(capacity, window) => {
      TightenTracks(b, capacity, window);
    }
    case Finish =>
  }

  lemma {:induction false} RunTracks(b: Budget, es: seq<Event>)
    requires MonotoneRun(b, es) && Faithful(b)
    ensures ValidRun(b, es) && Faithful(Run(b, es))
    decreases |es|
  {
    if es != [] {
      StepTracks(b, es[0]);
      RunTracks(Step(b, es[0]), es[1..]);
    }
  }

  lemma {:induction false} YoungWhenAllOld(log: seq<int>, now: int, window: int)
    requires forall i :: 0 <= i < |log| ==> now - log[i] >= window
    ensures Young(log, now, window) == 0
  {
    if log != [] { YoungWhenAllOld(log[..|log| - 1], now, window); }
  }

  lemma {:induction false} YoungSuffix(log: seq<int>, k: nat, now: int, window: int)
    requires k <= |log| && Nondecreasing(log)
    requires k > 0 ==> now - log[k - 1] >= window
    requires k < |log| ==> now - log[k] < window
    ensures Young(log, now, window) == |log| - k
  {
    if k == |log| {
      YoungWhenAllOld(log, now, window);
    } else {
      assert log[k] <= log[|log| - 1];
      YoungSuffix(log[..|log| - 1], k, now, window);
    }
  }

  lemma {:induction false} PrunedShape(f: seq<int>, now: int, window: int) returns (k: nat)
    ensures k <= |f| && Pruned(f, now, window) == f[k..]
    ensures k > 0 ==> now - f[k - 1] >= window
    ensures k < |f| ==> now - f[k] < window
    decreases |f|
  {
    if f != [] && now - f[0] >= window {
      k := PrunedShape(f[1..], now, window);
      assert f[1..][k..] == f[k + 1..];
      k := k + 1;
    } else {
      k := 0;
    }
  }

  /** The deque answers as the full log would: fewer than `capacity` failures younger than `window`. */
  lemma DecisionMatchesLog(b: Budget, now: int)
    requires Faithful(b) && now >= b.latest
    ensures Admits(b, now) <==> Young(b.log, now, b.window) < b.capacity
  {
    var gone := |b.log| - |b.forwarded|;
    var k := PrunedShape(b.forwarded, now, b.window);
    if k > 0 || gone == 0 || now - b.log[gone - 1] >= b.window {
      assert k > 0 ==> b.forwarded[k - 1] == b.log[gone + k - 1];
      assert k < |b.forwarded| ==> b.forwarded[k] == b.log[gone + k];
      YoungSuffix(b.log, gone + k, now, b.window);
    } else {
      // Full of young failures, and a younger one was dropped: both answers are no.
      var first := PrunedShape(b.log, now, b.window);
      assert first > 0 ==> b.log[first - 1] <= b.log[gone - 1] || first - 1 > gone - 1;
      YoungSuffix(b.log, first, now, b.window);
    }
  }

  /** Over-capacity records, refusals, tightenings and all: after every monotone run the bounded deque
      decides as the unbounded failure log does under the policy then in force. */
  lemma EveryDecisionMatchesLog(capacity: nat, window: int, start: int, es: seq<Event>, now: int)
    requires MonotoneRun(Initial(capacity, window, start), es)
    ensures ValidRun(Initial(capacity, window, start), es)
    ensures var b := Run(Initial(capacity, window, start), es);
      now >= b.latest ==> (Admits(b, now) <==> Young(b.log, now, b.window) < b.capacity)
  {
    var b0 := Initial(capacity, window, start);
    RunTracks(b0, es);
    if now >= Run(b0, es).latest { DecisionMatchesLog(Run(b0, es), now); }
  }

  // ---- Reconfiguring to any policy ----

  /** From this state on deque and log decide alike: after every further monotone run, records and
      tightenings included, and at every later time. */
  ghost predicate AgreesFromNowOn(b: Budget) {
    forall es, now :: MonotoneRun(b, es) && ValidRun(b, es) && now >= Run(b, es).latest ==>
      (Admits(Run(b, es), now) <==> Young(Run(b, es).log, now, Run(b, es).window) < Run(b, es).capacity)
  }

  /** Nothing that the deque lacks is younger than this window. */
  ghost predicate NoYoungMissing(b: Budget, window: int)
    requires |b.forwarded| <= |b.log|
  {
    |b.forwarded| < |b.log| ==> b.latest - b.log[|b.log| - |b.forwarded| - 1] >= window
  }

  /** After a change to any policy, looser or longer included, deque and log agree in every continuation
      if and only if nothing is ever admitted, or the kept failures already fill the new capacity, or no
      failure missing from the deque is young under the new window. */
  lemma ReconfigureAgreesExactlyWhen(b: Budget, capacity: nat, window: int)
    requires Faithful(b) && b.permit == Free
    ensures AgreesFromNowOn(Step(b, Reconfigure(capacity, window))) <==>
      capacity == 0 || |b.forwarded| >= capacity || NoYoungMissing(b, window)
  {
    var after := Step(b, Reconfigure(capacity, window));
    if capacity == 0 {
      ZeroCapacityAgrees(after);
    } else if |b.forwarded| >= capacity || NoYoungMissing(b, window) {
      NewestTracks(b.forwarded, b.log, Bound(capacity), window, b.latest);
      FaithfulAgrees(after);
    } else {
      MissingFailureShows(b, capacity, window);
    }
  }

  lemma FaithfulAgrees(b: Budget)
    requires Faithful(b)
    ensures AgreesFromNowOn(b)
  {
    hide Faithful, Young, Run, MonotoneRun, ValidRun, Admits;
    forall es, now | MonotoneRun(b, es) && ValidRun(b, es) && now >= Run(b, es).latest
      ensures Admits(Run(b, es), now) <==> Young(Run(b, es).log, now, Run(b, es).window) < Run(b, es).capacity
    {
      RunTracks(b, es);
      DecisionMatchesLog(Run(b, es), now);
    }
  }

  lemma ZeroCapacityAgrees(b: Budget)
    requires b.capacity == 0
    ensures AgreesFromNowOn(b)
  {
    hide Young, Run, MonotoneRun, ValidRun, Pruned;
    forall es, now | MonotoneRun(b, es) && ValidRun(b, es) && now >= Run(b, es).latest
      ensures Admits(Run(b, es), now) <==> Young(Run(b, es).log, now, Run(b, es).window) < Run(b, es).capacity
    {
      ZeroCapacityStays(b, es);
    }
  }

  lemma {:induction false} ZeroCapacityStays(b: Budget, es: seq<Event>)
    requires b.capacity == 0 && MonotoneRun(b, es) && ValidRun(b, es)
    ensures Run(b, es).capacity == 0
    decreases |es|
  {
    if es != [] { ZeroCapacityStays(Step(b, es[0]), es[1..]); }
  }

  lemma {:induction false} YoungAtLeast(log: seq<int>, k: nat, now: int, window: int)
    requires k < |log| && Nondecreasing(log) && now - log[k] < window
    ensures Young(log, now, window) >= |log| - k
  {
    var n := |log| - 1;
    assert log[k] <= log[n];
    if k < n { YoungAtLeast(log[..n], k, now, window); }
  }

  /** Otherwise records at the present time, until one place is left, make the deque admit what the log
      refuses. */
  lemma MissingFailureShows(b: Budget, capacity: nat, window: int)
    requires Faithful(b) && b.permit == Free && |b.forwarded| < capacity && !NoYoungMissing(b, window)
    ensures !AgreesFromNowOn(Step(b, Reconfigure(capacity, window)))
  {
    hide Young, Pruned, Run, MonotoneRun, ValidRun, Admits;
    var after := Step(b, Reconfigure(capacity, window));
    assert after.forwarded == b.forwarded;
    var missing := |b.log| - |b.forwarded| - 1;
    YoungAtLeast(b.log, missing, b.latest, window);
    forall i | 0 <= i < |b.forwarded| ensures b.latest - b.forwarded[i] < window {
      assert b.forwarded[i] == b.log[missing + 1 + i] >= b.log[missing];
    }
    var es := FillUp(after, capacity - 1 - |b.forwarded|);
  }

  lemma {:induction false} FillUp(b: Budget, places: nat) returns (es: seq<Event>)
    requires b.permit == Free && b.window > 0 && |b.forwarded| + places == b.capacity - 1
    requires forall i :: 0 <= i < |b.forwarded| ==> b.latest - b.forwarded[i] < b.window
    requires Young(b.log, b.latest, b.window) >= |b.forwarded| + 1
    ensures MonotoneRun(b, es) && ValidRun(b, es) && Run(b, es).latest == b.latest
    ensures Admits(Run(b, es), b.latest) && Young(Run(b, es).log, b.latest, Run(b, es).window) >= Run(b, es).capacity
    decreases places
  {
    assert Pruned(b.forwarded, b.latest, b.window) == b.forwarded;
    if places == 0 {
      es := [];
    } else {
      var next := Step(b, LegacyRecord(b.latest));
      assert next.forwarded == b.forwarded + [b.latest] && next.log == b.log + [b.latest];
      assert (b.log + [b.latest])[..|b.log|] == b.log;
      var rest := FillUp(next, places - 1);
      es := [LegacyRecord(b.latest)] + rest;
      assert es[1..] == rest;
    }
  }

  /** The condition cannot be checked at one time only: here capacity 2 and window 20 agree with the log
      until the next record, and not after it. */
  lemma AgreementEndsAtTheNextRecord()
    ensures var b := Budget(1, 10, [], Free, [0], 10);
      && Faithful(b)
      && Admits(Step(b, Reconfigure(2, 20)), 10) && Young(b.log, 10, 20) < 2
      && !AgreesFromNowOn(Step(b, Reconfigure(2, 20)))
  {
    var b := Budget(1, 10, [], Free, [0], 10);
    assert [0][..0] == [] && [0][1..] == [];
    assert Young([0], 10, 20) == 1;
    ReconfigureAgreesExactlyWhen(b, 2, 20);
  }

  /** A longer window can hand budget back: the failure at 0 was pruned at 10, so under a window of 20
      the deque still admits at 11 what the log would refuse. */
  lemma LongerWindowForgets()
    ensures var b := Initial(1, 10, 0);
      var es := [LegacyRecord(0), Observe(10), Reconfigure(1, 20)];
      && ValidRun(b, es)
      && Admits(Run(b, es), 11) && Young(Run(b, es).log, 11, 20) == 1
  {
    var b0 := Initial(1, 10, 0);
    var b1 := Step(b0, LegacyRecord(0));
    assert b1.log == [0] && b1.forwarded == [0];
    var b2 := Step(b1, Observe(10));
    assert b2.forwarded == [];
    var b3 := Step(b2, Reconfigure(1, 20));
    var es := [LegacyRecord(0), Observe(10), Reconfigure(1, 20)];
    assert es[1..] == [Observe(10), Reconfigure(1, 20)] && es[1..][1..] == [Reconfigure(1, 20)];
    assert es[1..][1..][1..] == [];
    assert ValidRun(b2, es[1..][1..]) && Run(b2, es[1..][1..]) == b3;
    assert ValidRun(b1, es[1..]) && Run(b1, es[1..]) == b3;
    assert [0][..0] == [];
  }

  // ---- The objects ----

  class AuthForwardBudget {
    var capacity: nat
    var window: int
    var forwarded: seq<int>
    ghost var permit: PermitState
    ghost var log: seq<int>
    ghost var latest: int

    ghost function View(): Budget
      reads this
    {
      Budget(capacity, window, forwarded, permit, log, latest)
    }

    constructor (capacity: nat, window: int, ghost start: int)
      ensures View() == Initial(capacity, window, start)
    {
      this.capacity, this.window, forwarded := capacity, window, [];
      permit, log, latest := Free, [], start;
    }

    method Prune(now: int)
      modifies this
      ensures View() == Use(old(View()), now)
    {
      while forwarded != [] && now - forwarded[0] >= window
        invariant Pruned(forwarded, now, window) == Pruned(old(forwarded), now, window)
        invariant View() == old(View()).(forwarded := forwarded)
        decreases |forwarded|
      {
        forwarded := forwarded[1..];
      }
      latest := Later(latest, now);
    }

    method DropOldest()
      modifies this`forwarded
      ensures forwarded == Newest(old(forwarded), Bound(capacity))
    {
      var bound := if capacity > 0 then capacity else 1;
      while |forwarded| > bound
        invariant Newest(forwarded, bound) == Newest(old(forwarded), bound)
        decreases |forwarded|
      {
        assert Newest(forwarded[1..], bound) == Newest(forwarded, bound);
        forwarded := forwarded[1..];
      }
    }

    method RecordLocked(now: int)
      modifies this
      ensures View() == RecordAt(old(View()), now)
    {
      Prune(now);
      forwarded := forwarded + [now];
      log := log + [now];
      DropOldest();
    }

    /** Returns once no other permit holds the lock. */
    method ReserveForward(now: int) returns (p: Permit?)
      requires permit == Free
      modifies this
      ensures View() == Step(old(View()), Reserve(now))
      ensures p == null <==> !Admits(old(View()), now)
      ensures p != null ==> fresh(p) && p.owner == this && p.Valid() && p.ownsLock && !p.failureRecorded
    {
      Prune(now);
      if |forwarded| >= capacity { return null; }
      permit := Admitted;
      p := new Permit(this);
    }

    method MayForward(now: int) returns (r: bool)
      requires permit == Free
      modifies this
      ensures View() == Step(old(View()), Observe(now))
      ensures r <==> Admits(old(View()), now)
    {
      Prune(now);
      r := |forwarded| < capacity;
    }

    method RecordForwardedFailure(now: int)
      requires permit == Free
      modifies this
      ensures View() == Step(old(View()), LegacyRecord(now))
    {
      RecordLocked(now);
    }

    method Reconfigure(capacity: nat, window: int)
      requires permit == Free
      modifies this
      ensures View() == Step(old(View()), Event.Reconfigure(capacity, window))
    {
      this.capacity, this.window := capacity, window;
      DropOldest();
    }
  }

  /** A permit owns the budget's lock from admission until it is destroyed or moved from. */
  class Permit {
    const owner: AuthForwardBudget
    var ownsLock: bool
    var failureRecorded: bool

    ghost predicate Valid()
      reads this, owner
    {
      ownsLock ==> owner.permit == if failureRecorded then Spent else Admitted
    }

    constructor (owner: AuthForwardBudget)
      requires owner.permit == Admitted
      ensures this.owner == owner && ownsLock && !failureRecorded
    {
      this.owner, ownsLock, failureRecorded := owner, true, false;
    }

    /** Records at most once, and only while this permit holds the lock. */
    method RecordForwardedFailure(now: int)
      requires Valid()
      modifies this, owner
      ensures Valid() && ownsLock == old(ownsLock)
      ensures ownsLock ==> owner.View() == Step(old(owner.View()), Record(now)) && failureRecorded
      ensures !ownsLock ==> owner.View() == old(owner.View())
    {
      if failureRecorded || !ownsLock { return; }
      owner.RecordLocked(now);
      owner.permit := Spent;
      failureRecorded := true;
    }

    constructor Take(owner: AuthForwardBudget, ownsLock: bool, failureRecorded: bool)
      ensures this.owner == owner && this.ownsLock == ownsLock && this.failureRecorded == failureRecorded
    {
      this.owner, this.ownsLock, this.failureRecorded := owner, ownsLock, failureRecorded;
    }

    /** Moving hands over the lock, if there is one, and whether a failure was recorded; the moved-from
        permit can no longer record. */
    method Move() returns (q: Permit)
      requires Valid()
      modifies this
      ensures fresh(q) && q.Valid() && q.owner == owner
      ensures q.ownsLock == old(ownsLock) && q.failureRecorded == old(failureRecorded)
      ensures Valid() && !ownsLock && owner.View() == old(owner.View())
    {
      q := new Permit.Take(owner, ownsLock, failureRecorded);
      ownsLock := false;
    }

    method Destroy()
      requires Valid()
      modifies this, owner
      ensures !ownsLock
      ensures old(ownsLock) ==> owner.View() == Step(old(owner.View()), Finish)
      ensures !old(ownsLock) ==> owner.View() == old(owner.View())
    {
      if ownsLock { owner.permit := Free; }
      ownsLock := false;
    }
  }
}
