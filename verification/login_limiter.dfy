/** The per-source login limiter: its step on each event, and what every run of steps keeps.
    `live`, `log` and `latest` are history: the permits still outstanding, the failure verdicts of each
    source since its last success with the start of the counting epoch they fell in, and the latest time
    used. */
module LoginLimiter {
  import opened Basics

  datatype Limits = Limits(maxFailures: nat, window: int, lockout: int, maxSources: nat)

  /** What the constructor insists on. */
  predicate ValidLimits(l: Limits) {
    l.maxFailures > 0 && l.window > 0 && l.lockout > 0 && l.maxSources > 0
  }

  /** `Clock::time_point{}`. */
  const EPOCH: int := 0

  datatype Entry = Entry(failures: nat, reservations: nat, windowStarted: int, blockedUntil: int, lastSeen: int)

  datatype Verdict = Success | Failed | Neutral

  datatype Failure = Failure(time: int, started: int)

  datatype Limiter = Limiter(
    limits: Limits, entries: map<string, Entry>, saturatedUntil: int,
    live: multiset<string>, log: map<string, seq<Failure>>, latest: int)

  datatype Event =
    | Reserve(source: string, now: int)
    | Finish(source: string, verdict: Verdict, now: int)
    | CountSources(now: int)
    | Allow(source: string, now: int)
    | LegacyFailure(source: string, now: int)
    | LegacySuccess(source: string, now: int)

  // ---- One entry ----

  predicate Stale(l: Limits, e: Entry, now: int) {
    e.reservations == 0 && e.blockedUntil <= now && now - e.lastSeen >= l.window + l.lockout
  }

  function NewEntry(now: int): Entry {
    Entry(0, 0, now, EPOCH, now)
  }

  function Renewed(l: Limits, e: Entry, now: int): Entry {
    if now - e.windowStarted >= l.window
    then e.(failures := 0, windowStarted := now, blockedUntil := EPOCH) else e
  }

  /** The entry after an admission attempt, and whether a permit was granted. */
  function Admit(l: Limits, e: Entry, now: int): (Entry, bool) {
    var seen := e.(lastSeen := now);
    if e.blockedUntil > now then (seen, false)
    else
      var current := Renewed(l, seen, now);
      if current.failures + current.reservations >= l.maxFailures then (current, false)
      else (current.(reservations := current.reservations + 1), true)
  }

  function Counted(l: Limits, e: Entry, now: int): Entry {
    var current := Renewed(l, e, now);
    current.(failures := current.failures + 1,
           blockedUntil := if current.failures + 1 >= l.maxFailures then now + l.lockout else current.blockedUntil)
  }

  /** The entry after a permit's verdict; `Erasable` says whether it is then dropped. */
  function Settle(l: Limits, e: Entry, v: Verdict, now: int): Entry {
    var returned := e.(reservations := if e.reservations > 0 then e.reservations - 1 else 0, lastSeen := now);
    match v
    case Success => returned.(failures := 0, blockedUntil := EPOCH, windowStarted := now)
    case Failed => Counted(l, returned, now)
    case Neutral => returned
  }

  predicate Erasable(e: Entry, now: int) {
    e.reservations == 0 && e.failures == 0 && e.blockedUntil <= now
  }

  // ---- The table ----

  function Purged(m: Limiter, now: int): Limiter {
    m.(entries := map s | s in m.entries && !Stale(m.limits, m.entries[s], now) :: m.entries[s],
       latest := Later(m.latest, now))
  }

  function Log(m: Limiter, s: string): seq<Failure> {
    if s in m.log then m.log[s] else []
  }

  function Entered(m: Limiter, s: string): Option<Entry> {
    if s in m.entries then Some(m.entries[s]) else None
  }

  predicate Saturated(m: Limiter, now: int) {
    m.saturatedUntil > now || |m.entries| >= m.limits.maxSources
  }

  /** A new source is refused while the table is saturated. */
  predicate Refuses(m: Limiter, s: string, now: int) {
    var p := Purged(m, now);
    s !in p.entries && Saturated(p, now)
  }

  predicate Grants(m: Limiter, s: string, now: int) {
    var p := Purged(m, now);
    !Refuses(m, s, now) &&
    Admit(m.limits, if s in p.entries then p.entries[s] else NewEntry(now), now).1
  }

  function ReserveStep(m: Limiter, s: string, now: int): Limiter {
    var p := Purged(m, now);
    if Refuses(m, s, now) then p.(saturatedUntil := Later(p.saturatedUntil, now + p.limits.lockout))
    else
      var (e, granted) := Admit(p.limits, if s in p.entries then p.entries[s] else NewEntry(now), now);
      p.(entries := p.entries[s := e], live := if granted then p.live + multiset{s} else p.live)
  }

  function FinishStep(m: Limiter, s: string, v: Verdict, now: int): Limiter {
    var r := m.(live := m.live - multiset{s}, latest := Later(m.latest, now));
    if s !in m.entries then r
    else
      var e := Settle(m.limits, m.entries[s], v, now);
      r.(entries := if Erasable(e, now) then m.entries - {s} else m.entries[s := e],
         log := match v
           case Failed => m.log[s := Log(m, s) + [Failure(now, e.windowStarted)]]
           case Success => m.log[s := []]
           case Neutral => m.log)
  }

  function AllowStep(m: Limiter, s: string, now: int): Limiter {
    var p := Purged(m, now);
    if s !in p.entries then p
    else
      var seen := p.entries[s].(lastSeen := now);
      p.(entries := p.entries[s :=
        if seen.blockedUntil <= now && now - seen.windowStarted >= p.limits.window
        then seen.(failures := 0, windowStarted := now) else seen])
  }

  function LegacyFailureStep(m: Limiter, s: string, now: int): Limiter {
    var p := Purged(m, now);
    if s !in p.entries && |p.entries| >= p.limits.maxSources then
      p.(saturatedUntil := Later(p.saturatedUntil, now + p.limits.lockout))
    else
      var e := if s in p.entries then p.entries[s] else NewEntry(now);
      p.(entries := p.entries[s := Counted(p.limits, e.(lastSeen := now), now)])
  }

  function LegacySuccessStep(m: Limiter, s: string, now: int): Limiter {
    var r := m.(latest := Later(m.latest, now));
    if s !in m.entries then r
    else if m.entries[s].reservations == 0 then r.(entries := m.entries - {s})
    else r.(entries := m.entries[s :=
      m.entries[s].(failures := 0, blockedUntil := EPOCH, windowStarted := now, lastSeen := now)])
  }

  /** A verdict needs an outstanding permit. */
  predicate Enabled(m: Limiter, e: Event) {
    e.Finish? ==> e.source in m.live
  }

  function Step(m: Limiter, e: Event): Limiter {
    match e
    case Reserve(s, now) => ReserveStep(m, s, now)
    case Finish(s, v, now) => FinishStep(m, s, v, now)
    case CountSources(now) => Purged(m, now)
    case Allow(s, now) => AllowStep(m, s, now)
    case LegacyFailure(s, now) => LegacyFailureStep(m, s, now)
    case LegacySuccess(s, now) => LegacySuccessStep(m, s, now)
  }

  ghost predicate ValidRun(m: Limiter, es: seq<Event>)
    decreases |es|
  {
    es == [] || (Enabled(m, es[0]) && ValidRun(Step(m, es[0]), es[1..]))
  }

  ghost function Run(m: Limiter, es: seq<Event>): Limiter
    decreases |es|
  {
    if es == [] then m else Run(Step(m, es[0]), es[1..])
  }

  function Initial(limits: Limits, start: int): Limiter {
    Limiter(limits, map[], EPOCH, multiset{}, map[], start)
  }

  // ---- Accounting: every run, legacy calls and any clock included ----

  ghost predicate Accounted(m: Limiter) {
    && |m.entries| <= m.limits.maxSources
    && forall s :: m.live[s] == if s in m.entries then m.entries[s].reservations else 0
  }

  lemma PurgeAccounts(m: Limiter, now: int)
    requires Accounted(m)
    ensures Accounted(Purged(m, now))
  {
    var p := Purged(m, now);
    assert p.entries.Keys <= m.entries.Keys;
    CardinalityIsMonotone(p.entries.Keys, m.entries.Keys);
  }

  lemma ReplacedSize(m: map<string, Entry>, s: string, e: Entry)
    ensures |m[s := e]| == if s in m then |m| else |m| + 1
    ensures |m - {s}| <= |m|
  {
    assert m[s := e].Keys == m.Keys + {s};
    CardinalityIsMonotone((m - {s}).Keys, m.Keys);
  }

  /** Writing one entry keeps the accounts when its reservations match the permits it has then. */
  lemma PutAccounts(m: Limiter, s: string, e: Entry, m': Limiter)
    requires Accounted(m) && (s in m.entries || |m.entries| < m.limits.maxSources)
    requires m'.entries == m.entries[s := e] && m'.limits == m.limits
    requires m'.live[s] == e.reservations && forall o :: o != s ==> m'.live[o] == m.live[o]
    ensures Accounted(m')
  {
    ReplacedSize(m.entries, s, e);
  }

  lemma DropAccounts(m: Limiter, s: string, m': Limiter)
    requires Accounted(m) && m'.entries == m.entries - {s} && m'.limits == m.limits
    requires m'.live[s] == 0 && forall o :: o != s ==> m'.live[o] == m.live[o]
    ensures Accounted(m')
  {
    ReplacedSize(m.entries, s, NewEntry(0));
  }

  lemma ReserveAccounts(m: Limiter, s: string, now: int)
    requires ValidLimits(m.limits) && Accounted(m)
    ensures Accounted(ReserveStep(m, s, now)) && ReserveStep(m, s, now).limits == m.limits
  {
    PurgeAccounts(m, now);
    var p := Purged(m, now);
    if !Refuses(m, s, now) {
      var e := if s in p.entries then p.entries[s] else NewEntry(now);
      assert p.live[s] == e.reservations;
      PutAccounts(p, s, Admit(p.limits, e, now).0, ReserveStep(m, s, now));
    }
  }

  lemma FinishAccounts(m: Limiter, s: string, v: Verdict, now: int)
    requires Accounted(m) && s in m.live
    ensures Accounted(FinishStep(m, s, v, now))
  {
    var e := Settle(m.limits, m.entries[s], v, now);
    assert e.reservations == m.entries[s].reservations - 1;
    if Erasable(e, now) {
      DropAccounts(m, s, FinishStep(m, s, v, now));
    } else {
      PutAccounts(m, s, e, FinishStep(m, s, v, now));
    }
  }

  lemma LegacyAccounts(m: Limiter, s: string, now: int)
    requires ValidLimits(m.limits) && Accounted(m)
    ensures Accounted(AllowStep(m, s, now))
    ensures Accounted(LegacyFailureStep(m, s, now))
    ensures Accounted(LegacySuccessStep(m, s, now))
  {
    PurgeAccounts(m, now);
    var p := Purged(m, now);
    hide Purged, Accounted;
    assert Accounted(AllowStep(m, s, now)) by {
      if s in p.entries { OnePut(p, s, AllowStep(m, s, now)); }
    }
    assert Accounted(LegacyFailureStep(m, s, now)) by {
      if s in p.entries || |p.entries| < p.limits.maxSources { OnePut(p, s, LegacyFailureStep(m, s, now)); }
      else { SameTable(p, LegacyFailureStep(m, s, now)); }
    }
    assert Accounted(LegacySuccessStep(m, s, now)) by {
      var r := LegacySuccessStep(m, s, now);
      if s !in m.entries { SameTable(m, r); }
      else if m.entries[s].reservations == 0 { OneDrop(m, s, r); }
      else { OnePut(m, s, r); }
    }
  }

  lemma SameTable(m: Limiter, m': Limiter)
    requires Accounted(m) && m'.entries == m.entries && m'.limits == m.limits && m'.live == m.live
    ensures Accounted(m')
  {
  }

  lemma OneDrop(m: Limiter, s: string, m': Limiter)
    requires Accounted(m) && s in m.entries && m.entries[s].reservations == 0
    requires m'.entries == m.entries - {s} && m'.limits == m.limits && m'.live == m.live
    ensures Accounted(m')
  {
    DropAccounts(m, s, m');
  }

  lemma OnePut(m: Limiter, s: string, m': Limiter)
    requires Accounted(m) && (s in m.entries || |m.entries| < m.limits.maxSources)
    requires s in m'.entries && m'.entries == m.entries[s := m'.entries[s]] && m'.limits == m.limits && m'.live == m.live
    requires m'.entries[s].reservations == if s in m.entries then m.entries[s].reservations else 0
    ensures Accounted(m')
  {
    PutAccounts(m, s, m'.entries[s], m');
  }

  lemma StepAccounts(m: Limiter, e: Event)
    requires Enabled(m, e) && ValidLimits(m.limits) && Accounted(m)
    ensures Accounted(Step(m, e)) && Step(m, e).limits == m.limits
  {
    hide Accounted;
    match e
    case Reserve(s, now) => ReserveAccounts(m, s, now);
    case Finish(s, v, now) => FinishAccounts(m, s, v, now);
    case CountSources(now) => PurgeAccounts(m, now);
    case Allow(s, now) => LegacyAccounts(m, s, now);
    case LegacyFailure(s, now) => LegacyAccounts(m, s, now);
    case LegacySuccess(s, now) => LegacyAccounts(m, s, now);
  }

  /** In every run the reservations of a source are its outstanding permits, and the table is bounded. */
  lemma {:induction false} EveryRunAccounts(m: Limiter, es: seq<Event>)
    requires ValidRun(m, es) && ValidLimits(m.limits) && Accounted(m)
    ensures Accounted(Run(m, es))
    decreases |es|
  {
    if es != [] {
      StepAccounts(m, es[0]);
      EveryRunAccounts(Step(m, es[0]), es[1..]);
    }
  }
}
