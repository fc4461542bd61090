/** What the records of the history tell, snapshot by snapshot and over whole runs. */
module ConnectionRecords {
  import opened Basics
  import opened NewestStamps
  import opened ConnectionHistory
  import opened SnapshotMerge
  import opened ConnectionTable
  import Text

  // ----- one snapshot -----

  /** The last row with key k. */
  ghost predicate IsLast(rows: seq<Row>, k: string, j: nat) {
    j < |rows| && RowKey(rows[j]) == k && forall i :: j < i < |rows| ==> RowKey(rows[i]) != k
  }

  /** Some row with key k is in an active state. */
  ghost predicate HeldActive(rows: seq<Row>, k: string) {
    exists i :: 0 <= i < |rows| && RowKey(rows[i]) == k && IsActiveState(rows[i].protocol, rows[i].state)
  }

  /** The connection and its route are those of a row. */
  predicate SameConnection(c: Connection, r: Row, at: Reading) {
    var masked := r.mark & at.markMask;
    && c.protocol == r.protocol && c.source == r.source && c.sourcePort == r.sourcePort
    && c.destination == r.destination && c.destinationPort == r.destinationPort && c.mark == r.mark
    && (masked in at.routeNames ==> c.route == at.routeNames[masked])
    && (masked !in at.routeNames ==> c.route == "direct")
  }

  predicate ShownAsSeen(c: Connection, r: Row, at: Reading) {
    SameConnection(c, r, at) && c.state == r.state && c.observed && (c.active <==> IsActiveState(r.protocol, r.state))
  }

  /** A row of k that comes after another one, when the record of the other one has already been trimmed. */
  ghost predicate ForgottenAt(rows: seq<Row>, closed: History, at: Reading, k: string, i: nat) {
    i < |rows| && RowKey(rows[i]) == k && k in Keys(rows[..i]) && k !in Streamed(rows[..i], closed, at)
  }

  ghost predicate Forgotten(rows: seq<Row>, closed: History, at: Reading, k: string) {
    exists i: nat :: ForgottenAt(rows, closed, at, k, i)
  }

  /** The times of a record that was kept under k before the snapshot and was not forgotten in between are
      continued; all others begin at the snapshot. */
  ghost predicate TimesAre(c: Connection, rows: seq<Row>, closed: History, at: Reading, k: string) {
    var kept := k in closed && !Forgotten(rows, closed, at, k);
    && c.firstSeen == (if kept && closed[k].firstSeen != 0 then closed[k].firstSeen else at.timestamp)
    && c.lastSeen == (if kept && closed[k].lastSeen != 0 && !HeldActive(rows, k) then closed[k].lastSeen else at.timestamp)
  }

  ghost predicate Tells(c: Connection, rows: seq<Row>, closed: History, at: Reading, k: string) {
    && (forall j: nat :: IsLast(rows, k, j) ==> ShownAsSeen(c, rows[j], at))
    && TimesAre(c, rows, closed, at, k)
  }

  lemma FittedRow(e: History, k: string)
    requires k in Fitted(e)
    ensures k in e && Fitted(e)[k] == e[k]
  {
    hide KeptActive, KeptClosed;
  }

  lemma FittedKeys(e: History)
    ensures Fitted(e).Keys <= e.Keys
  {
    hide KeptActive, KeptClosed;
  }

  lemma {:induction false} StreamedKeys(rows: seq<Row>, closed: History, at: Reading)
    ensures Streamed(rows, closed, at).Keys <= Keys(rows)
  {
    hide Observe, Saved, RowKey, Fitted;
    if rows != [] {
      var n := |rows| - 1;
      StreamedKeys(rows[..n], closed, at);
      KeysOfNext(rows, n);
      assert rows[..n + 1] == rows;
      var e, k := Streamed(rows[..n], closed, at), RowKey(rows[n]);
      FittedKeys(e[k := Observe(rows[n], Saved(closed - Keys(rows[..n]), e, k), at)]);
    }
  }

  /** The row that was read last decides how its own record is shown. */
  lemma ObservedShowsTheRow(r: Row, saved: Option<Connection>, at: Reading)
    ensures var c := Observe(r, saved, at);
      && ShownAsSeen(c, r, at)
      && c.firstSeen == (if saved.Some? && saved.value.firstSeen != 0 then saved.value.firstSeen else at.timestamp)
      && c.lastSeen == (if saved.Some? && saved.value.lastSeen != 0 && !IsActiveState(r.protocol, r.state) then saved.value.lastSeen else at.timestamp)
  {
  }

  lemma ForgottenNext(rows: seq<Row>, n: nat, closed: History, at: Reading, k: string)
    requires |rows| == n + 1
    ensures Forgotten(rows, closed, at, k) <==> Forgotten(rows[..n], closed, at, k) || ForgottenAt(rows, closed, at, k, n)
  {
    hide Streamed, Keys, RowKey;
    forall i: nat | i < n ensures ForgottenAt(rows, closed, at, k, i) <==> ForgottenAt(rows[..n], closed, at, k, i) {
      assert rows[..n][..i] == rows[..i];
    }
    assert forall i: nat :: ForgottenAt(rows, closed, at, k, i) ==> i <= n;
  }

  lemma HeldActiveNext(rows: seq<Row>, n: nat, k: string)
    requires |rows| == n + 1
    ensures HeldActive(rows, k) <==>
      HeldActive(rows[..n], k) || (RowKey(rows[n]) == k && IsActiveState(rows[n].protocol, rows[n].state))
  {
    hide RowKey, IsActiveState;
    if HeldActive(rows[..n], k) {
      var i :| 0 <= i < n && RowKey(rows[..n][i]) == k && IsActiveState(rows[..n][i].protocol, rows[..n][i].state);
      assert rows[i] == rows[..n][i];
    }
    if HeldActive(rows, k) {
      var i :| 0 <= i < |rows| && RowKey(rows[i]) == k && IsActiveState(rows[i].protocol, rows[i].state);
      assert i < n ==> rows[..n][i] == rows[i];
    }
  }

  lemma NotSeenBefore(rows: seq<Row>, closed: History, at: Reading, k: string)
    requires k !in Keys(rows)
    ensures !HeldActive(rows, k) && !Forgotten(rows, closed, at, k)
  {
    hide RowKey, Streamed;
    assert forall i: nat :: i < |rows| ==> RowKey(rows[i]) in Keys(rows);
  }

  lemma OtherRowTells(rows: seq<Row>, n: nat, closed: History, at: Reading, k: string, c: Connection)
    requires |rows| == n + 1 && RowKey(rows[n]) != k && Tells(c, rows[..n], closed, at, k)
    ensures Tells(c, rows, closed, at, k)
  {
    hide RowKey, ShownAsSeen, Forgotten, HeldActive;
    ForgottenNext(rows, n, closed, at, k);
    HeldActiveNext(rows, n, k);
    forall j: nat | IsLast(rows, k, j) ensures ShownAsSeen(c, rows[j], at) {
      assert IsLast(rows[..n], k, j) && rows[..n][j] == rows[j];
    }
  }

  lemma OwnRowTells(rows: seq<Row>, n: nat, closed: History, at: Reading, k: string, e: History)
    requires |rows| == n + 1 && RowKey(rows[n]) == k && e == Streamed(rows[..n], closed, at)
    requires k in e ==> Tells(e[k], rows[..n], closed, at, k)
    ensures Tells(Observe(rows[n], Saved(closed - Keys(rows[..n]), e, k), at), rows, closed, at, k)
  {
    hide RowKey, ShownAsSeen, Forgotten, HeldActive, Observe, Streamed, Keys, IsActiveState;
    var saved := Saved(closed - Keys(rows[..n]), e, k);
    ObservedShowsTheRow(rows[n], saved, at);
    ForgottenNext(rows, n, closed, at, k);
    HeldActiveNext(rows, n, k);
    StreamedKeys(rows[..n], closed, at);
    if k !in Keys(rows[..n]) { NotSeenBefore(rows[..n], closed, at, k); }
    assert forall j: nat :: IsLast(rows, k, j) ==> j == n;
  }

  /** Whatever the stream repeats, the record of a key shows the last row of that key, and its times are
      those of the earlier record unless the stream made the table forget it. */
  lemma {:induction false} StreamedTells(rows: seq<Row>, closed: History, at: Reading, k: string)
    requires k in Streamed(rows, closed, at)
    ensures Tells(Streamed(rows, closed, at)[k], rows, closed, at, k)
    decreases |rows|
  {
    hide Tells, Fitted, Observe, Saved, RowKey;
    var n := |rows| - 1;
    var before, last := rows[..n], rows[n];
    var e, key := Streamed(before, closed, at), RowKey(last);
    var c := Observe(last, Saved(closed - Keys(before), e, key), at);
    FittedRow(e[key := c], k);
    if k in e { StreamedTells(before, closed, at, k); }
    if k == key {
      OwnRowTells(rows, n, closed, at, k, e);
    } else {
      OtherRowTells(rows, n, closed, at, k, e[k]);
    }
  }

  /** The closed record of a history: everything but state and flags is kept. */
  predicate ShownAsClosed(c: Connection, saved: Connection) {
    && c.protocol == saved.protocol && c.source == saved.source && c.sourcePort == saved.sourcePort
    && c.destination == saved.destination && c.destinationPort == saved.destinationPort && c.mark == saved.mark
    && c.route == saved.route && c.firstSeen == saved.firstSeen && c.lastSeen == saved.lastSeen
    && c.state == "CLOSED" && !c.active && !c.observed
  }

  lemma AfterRow(rows: seq<Row>, history: History, at: Reading, k: string)
    requires k in After(rows, history, at)
    ensures k in Keys(rows) ==> k in Streamed(rows, AllClosed(history), at) && After(rows, history, at)[k] == Streamed(rows, AllClosed(history), at)[k]
    ensures k !in Keys(rows) ==> k in history && After(rows, history, at)[k] == AllClosed(history)[k]
  {
    hide KeptActive, KeptClosed, Streamed;
    StreamedKeys(rows, AllClosed(history), at);
  }

  /** What every record says after a readable snapshot. */
  lemma EveryRecordTells(rows: seq<Row>, history: History, at: Reading, k: string)
    requires k in After(rows, history, at)
    ensures var c := After(rows, history, at)[k];
      if k in Keys(rows) then Tells(c, rows, AllClosed(history), at, k) else k in history && ShownAsClosed(c, history[k])
  {
    hide After, Streamed, Tells, Keys;
    AfterRow(rows, history, at, k);
    if k in Keys(rows) { StreamedTells(rows, AllClosed(history), at, k); }
  }

  /** A known connection keeps its first time exactly when the stream did not make the table forget it, or
      when nothing shows. */
  lemma FirstSeenStaysExactlyWhen(rows: seq<Row>, history: History, at: Reading, k: string)
    requires k in history && history[k].firstSeen != 0 && k in After(rows, history, at)
    ensures After(rows, history, at)[k].firstSeen == history[k].firstSeen <==>
      !Forgotten(rows, AllClosed(history), at, k) || history[k].firstSeen == at.timestamp
  {
    hide After, Forgotten;
    EveryRecordTells(rows, history, at, k);
    if k !in Keys(rows) { NotSeenBefore(rows, AllClosed(history), at, k); }
  }

  ghost predicate OccursOnce(rows: seq<Row>, k: string) {
    forall i, j :: 0 <= i < j < |rows| ==> !(RowKey(rows[i]) == k && RowKey(rows[j]) == k)
  }

  /** Nothing is forgotten of a key that is not repeated, nor in a stream with too few keys for a trim. */
  lemma NotForgotten(rows: seq<Row>, closed: History, at: Reading, k: string)
    requires OccursOnce(rows, k) || Small(rows)
    ensures !Forgotten(rows, closed, at, k)
  {
    hide RowKey, Streamed;
    forall i: nat | i < |rows| && RowKey(rows[i]) == k && k in Keys(rows[..i]) ensures k in Streamed(rows[..i], closed, at) {
      var j :| 0 <= j < i && RowKey(rows[..i][j]) == k;
      assert RowKey(rows[j]) == k;
      FewKeysBefore(rows, i);
      FewAreAllThere(rows[..i], closed, at);
    }
  }

  lemma FewKeysBefore(rows: seq<Row>, i: nat)
    requires i <= |rows| && Small(rows)
    ensures Small(rows[..i])
  {
    hide RowKey;
    forall k | k in Keys(rows[..i]) ensures k in Keys(rows) {
      var j :| 0 <= j < i && RowKey(rows[..i][j]) == k;
      assert RowKey(rows[j]) == k;
    }
    CardinalityIsMonotone(Keys(rows[..i]), Keys(rows));
  }

  lemma {:induction false} FewAreAllThere(rows: seq<Row>, closed: History, at: Reading)
    requires Small(rows)
    ensures Streamed(rows, closed, at).Keys == Keys(rows)
  {
    hide RowKey, Observe, Saved, Trimmed;
    if rows != [] {
      var n := |rows| - 1;
      FewKeysBefore(rows, n);
      FewAreAllThere(rows[..n], closed, at);
      KeysOfNext(rows, n);
      assert rows[..n + 1] == rows;
      var e, k := Streamed(rows[..n], closed, at), RowKey(rows[n]);
      var full := e[k := Observe(rows[n], Saved(closed - Keys(rows[..n]), e, k), at)];
      assert full.Keys == Keys(rows) && |full| == |full.Keys|;
    }
  }

  // ----- runs -----

  datatype Snapshot = Snapshot(rows: seq<Row>, readable: bool, at: Reading)

  /** The tables before, between and after the updates of a run. */
  ghost predicate Kept(tables: seq<History>, snapshots: seq<Snapshot>) {
    && |tables| == |snapshots| + 1
    && forall i :: 0 <= i < |snapshots| ==> Step(tables[i], snapshots[i], tables[i + 1])
  }

  ghost predicate Step(history: History, s: Snapshot, result: History) {
    result == if s.readable then After(s.rows, history, s.at) else history
  }

  ghost predicate Holds(s: Snapshot, k: string) { s.readable && k in Keys(s.rows) }

  ghost predicate HoldsActive(s: Snapshot, k: string) { s.readable && HeldActive(s.rows, k) }

  ghost predicate Forgets(s: Snapshot, history: History, k: string) {
    s.readable && Forgotten(s.rows, AllClosed(history), s.at, k)
  }

  /** k came into the table with snapshot m and is there after each one up to n - 1; no stream made the table
      forget it in between. */
  ghost predicate Stays(tables: seq<History>, snapshots: seq<Snapshot>, k: string, m: nat, n: nat) {
    && Kept(tables, snapshots) && m < n < |tables| && k !in tables[m]
    && (forall i :: m < i <= n ==> k in tables[i])
    && (forall i :: m <= i < n ==> snapshots[i].at.timestamp != 0)
    && (forall i :: m < i < n ==> !Forgets(snapshots[i], tables[i], k))
  }

  /** The last snapshot before n that held k in an active state, or else the first that held it. */
  ghost predicate LastActive(snapshots: seq<Snapshot>, k: string, m: nat, n: nat, p: nat)
    requires n <= |snapshots|
  {
    && m <= p < n && (p == m || HoldsActive(snapshots[p], k))
    && forall q :: p < q < n ==> !HoldsActive(snapshots[q], k)
  }

  /** Row j of snapshot p is the last one of k that was read before n. */
  ghost predicate LastRead(snapshots: seq<Snapshot>, k: string, n: nat, p: nat, j: nat)
    requires n <= |snapshots|
  {
    && p < n && Holds(snapshots[p], k) && IsLast(snapshots[p].rows, k, j)
    && forall q :: p < q < n ==> !Holds(snapshots[q], k)
  }

  /** The record of k before snapshot n, if row j of snapshot p was the last one: as seen, or closed when a
      later snapshot could be read. */
  ghost predicate ShownFrom(c: Connection, snapshots: seq<Snapshot>, n: nat, p: nat, j: nat)
    requires p < n <= |snapshots| && j < |snapshots[p].rows|
  {
    var r, at := snapshots[p].rows[j], snapshots[p].at;
    && SameConnection(c, r, at)
    && if exists q :: p < q < n && snapshots[q].readable
       then c.state == "CLOSED" && !c.active && !c.observed
       else ShownAsSeen(c, r, at)
  }

  lemma Arrives(tables: seq<History>, snapshots: seq<Snapshot>, k: string, m: nat)
    requires Stays(tables, snapshots, k, m, m + 1)
    ensures var s := snapshots[m];
      s.readable && k in Keys(s.rows) && Tells(tables[m + 1][k], s.rows, AllClosed(tables[m]), s.at, k)
  {
    hide After, Tells, Forgets, Keys;
    assert Step(tables[m], snapshots[m], tables[m + 1]);
    EveryRecordTells(snapshots[m].rows, tables[m], snapshots[m].at, k);
  }

  lemma ArrivesWithItsTime(tables: seq<History>, snapshots: seq<Snapshot>, k: string, m: nat)
    requires Stays(tables, snapshots, k, m, m + 1)
    ensures Holds(snapshots[m], k)
    ensures tables[m + 1][k].firstSeen == tables[m + 1][k].lastSeen == snapshots[m].at.timestamp
  {
    hide Stays, Keys, Forgotten, HeldActive, ShownAsSeen, RowKey;
    StaysThere(tables, snapshots, k, m, m + 1);
    Arrives(tables, snapshots, k, m);
  }

  lemma ArrivesAsShown(tables: seq<History>, snapshots: seq<Snapshot>, k: string, m: nat) returns (j: nat)
    requires Stays(tables, snapshots, k, m, m + 1)
    ensures LastRead(snapshots, k, m + 1, m, j) && ShownFrom(tables[m + 1][k], snapshots, m + 1, m, j)
  {
    hide Stays, Keys, TimesAre, SameConnection, IsActiveState, RowKey;
    StaysThere(tables, snapshots, k, m, m + 1);
    Arrives(tables, snapshots, k, m);
    j := LastExists(snapshots[m].rows, k);
  }

  /** One more snapshot for a connection that stays. */
  lemma GoesOn(tables: seq<History>, snapshots: seq<Snapshot>, k: string, m: nat, n: nat)
    requires Stays(tables, snapshots, k, m, n + 1) && m < n
    ensures Stays(tables, snapshots, k, m, n)
    ensures var s, before, c := snapshots[n], tables[n], tables[n + 1][k];
      && (!s.readable ==> c == before[k])
      && (Holds(s, k) ==> Tells(c, s.rows, AllClosed(before), s.at, k) && !Forgotten(s.rows, AllClosed(before), s.at, k))
      && (s.readable && !Holds(s, k) ==> ShownAsClosed(c, before[k]))
  {
    hide After, Tells, Keys, Forgotten;
    assert Step(tables[n], snapshots[n], tables[n + 1]);
    assert !Forgets(snapshots[n], tables[n], k);
    if snapshots[n].readable { EveryRecordTells(snapshots[n].rows, tables[n], snapshots[n].at, k); }
  }

  lemma HeldActiveIsHeld(rows: seq<Row>, k: string)
    requires HeldActive(rows, k)
    ensures k in Keys(rows)
  {
  }

  lemma TimesGoOn(tables: seq<History>, snapshots: seq<Snapshot>, k: string, m: nat, n: nat)
    requires Stays(tables, snapshots, k, m, n + 1) && m < n
    ensures var s, before, c := snapshots[n], tables[n], tables[n + 1][k];
      && (before[k].firstSeen != 0 ==> c.firstSeen == before[k].firstSeen)
      && (before[k].lastSeen != 0 ==> c.lastSeen == if HoldsActive(s, k) then s.at.timestamp else before[k].lastSeen)
  {
    assert |tables| == |snapshots| + 1;
    hide After, Keys, Forgotten, HeldActive, ShownAsSeen, Kept, Forgets;
    GoesOn(tables, snapshots, k, m, n);
    if HoldsActive(snapshots[n], k) { HeldActiveIsHeld(snapshots[n].rows, k); }
  }

  lemma StaysThere(tables: seq<History>, snapshots: seq<Snapshot>, k: string, m: nat, n: nat)
    requires Stays(tables, snapshots, k, m, n)
    ensures |tables| == |snapshots| + 1 && m < n < |tables| && k in tables[n]
    ensures m + 1 < n ==> k in tables[n - 1]
    ensures snapshots[m].at.timestamp != 0 && snapshots[n - 1].at.timestamp != 0 && k !in tables[m]
  {
    hide Kept, Forgets;
    assert |tables| == |snapshots| + 1 by { assert Kept(tables, snapshots); LengthsMatch(tables, snapshots); }
  }

  lemma LengthsMatch(tables: seq<History>, snapshots: seq<Snapshot>)
    requires Kept(tables, snapshots)
    ensures |tables| == |snapshots| + 1
  {
  }

  /** The first time of a connection that stays is that of the snapshot it came with. */
  lemma {:induction false} FirstSeenOverRuns(tables: seq<History>, snapshots: seq<Snapshot>, k: string, m: nat, n: nat)
    requires Stays(tables, snapshots, k, m, n)
    ensures Holds(snapshots[m], k) && tables[n][k].firstSeen == snapshots[m].at.timestamp
    decreases n
  {
    hide Stays, Holds, Tells, ShownAsClosed, HoldsActive;
    StaysThere(tables, snapshots, k, m, n);
    if n == m + 1 {
      ArrivesWithItsTime(tables, snapshots, k, m);
    } else {
      GoesOn(tables, snapshots, k, m, n - 1);
      TimesGoOn(tables, snapshots, k, m, n - 1);
      FirstSeenOverRuns(tables, snapshots, k, m, n - 1);
    }
  }

  /** The last time is that of the last snapshot that held it in an active state, or else of the first. */
  lemma {:induction false} LastSeenOverRuns(tables: seq<History>, snapshots: seq<Snapshot>, k: string, m: nat, n: nat)
    returns (p: nat)
    requires Stays(tables, snapshots, k, m, n)
    ensures LastActive(snapshots, k, m, n, p) && tables[n][k].lastSeen == snapshots[p].at.timestamp != 0
    decreases n
  {
    hide Stays, Holds, Tells, ShownAsClosed, HoldsActive;
    StaysThere(tables, snapshots, k, m, n);
    if n == m + 1 {
      p := m;
      ArrivesWithItsTime(tables, snapshots, k, m);
    } else {
      GoesOn(tables, snapshots, k, m, n - 1);
      TimesGoOn(tables, snapshots, k, m, n - 1);
      p := LastSeenOverRuns(tables, snapshots, k, m, n - 1);
      if HoldsActive(snapshots[n - 1], k) { p := n - 1; }
    }
  }

  lemma LastExists(rows: seq<Row>, k: string) returns (j: nat)
    requires k in Keys(rows)
    ensures IsLast(rows, k, j)
  {
    hide RowKey;
    var n := |rows| - 1;
    if RowKey(rows[n]) == k {
      j := n;
    } else {
      KeysOfNext(rows, n);
      assert rows[..n + 1] == rows;
      j := LastExists(rows[..n], k);
    }
  }

  /** A connection that stays is shown with the fields of the last row that was read of it. */
  lemma {:induction false} ShownOverRuns(tables: seq<History>, snapshots: seq<Snapshot>, k: string, m: nat, n: nat)
    returns (p: nat, j: nat)
    requires Stays(tables, snapshots, k, m, n)
    ensures m <= p && LastRead(snapshots, k, n, p, j) && ShownFrom(tables[n][k], snapshots, n, p, j)
    decreases n
  {
    hide Stays, Keys, Forgotten, ShownFrom, Tells, ShownAsClosed, RowKey;
    StaysThere(tables, snapshots, k, m, n);
    if n == m + 1 {
      p := m;
      j := ArrivesAsShown(tables, snapshots, k, m);
    } else {
      GoesOn(tables, snapshots, k, m, n - 1);
      if Holds(snapshots[n - 1], k) {
        p := n - 1;
        j := SeenAgain(tables[n][k], snapshots, AllClosed(tables[n - 1]), k, p);
      } else {
        p, j := ShownOverRuns(tables, snapshots, k, m, n - 1);
        ShownLater(tables[n - 1][k], tables[n][k], snapshots, n - 1, p, j);
      }
    }
  }

  lemma SeenAgain(c: Connection, snapshots: seq<Snapshot>, closed: History, k: string, p: nat) returns (j: nat)
    requires p < |snapshots| && Holds(snapshots[p], k) && Tells(c, snapshots[p].rows, closed, snapshots[p].at, k)
    ensures LastRead(snapshots, k, p + 1, p, j) && ShownFrom(c, snapshots, p + 1, p, j)
  {
    hide Keys, TimesAre, SameConnection, IsActiveState;
    j := LastExists(snapshots[p].rows, k);
  }

  lemma ClosedIsSameConnection(c: Connection, saved: Connection, r: Row, at: Reading)
    requires ShownAsClosed(c, saved) && SameConnection(saved, r, at)
    ensures SameConnection(c, r, at) && c.state == "CLOSED" && !c.active && !c.observed
  {
  }

  lemma ShownLater(before: Connection, c: Connection, snapshots: seq<Snapshot>, n: nat, p: nat, j: nat)
    requires p < n < |snapshots| && j < |snapshots[p].rows| && ShownFrom(before, snapshots, n, p, j)
    requires if snapshots[n].readable then ShownAsClosed(c, before) else c == before
    ensures ShownFrom(c, snapshots, n + 1, p, j)
  {
    hide SameConnection, ShownAsClosed, IsActiveState;
    if snapshots[n].readable { ClosedIsSameConnection(c, before, snapshots[p].rows[j], snapshots[p].at); }
  }

  // ----- keys -----

  /** Protocol and addresses as the kernel writes them hold no bar. */
  predicate Plain(r: Row) { '|' !in r.protocol && '|' !in r.source && '|' !in r.destination }

  lemma BarInside(a: string, x: string, b: string, y: string)
    requires a + ("|" + x) == b + ("|" + y)
    ensures |b| < |a| ==> '|' in a
  {
    if |b| < |a| { assert a[|b|] == (b + ("|" + y))[|b|]; }
  }

  lemma BarSplits(a: string, x: string, b: string, y: string)
    requires '|' !in a && '|' !in b && a + ("|" + x) == b + ("|" + y)
    ensures a == b && x == y
  {
    BarInside(a, x, b, y);
    BarInside(b, y, a, x);
    var s, t := a + ("|" + x), b + ("|" + y);
    assert s[..|a|] == a && t[..|b|] == b;
    assert s[|a| + 1..] == x && t[|b| + 1..] == y;
  }

  lemma DecimalHasNoBar(n: nat)
    ensures '|' !in Text.Decimal(n)
  {
    forall i | 0 <= i < |Text.Decimal(n)| ensures Text.Decimal(n)[i] != '|' { assert Text.IsDigit(Text.Decimal(n)[i]); }
  }

  lemma DecimalDiffers(m: nat, n: nat)
    requires Text.Decimal(m) == Text.Decimal(n)
    ensures m == n
  {
    Text.DecimalDenotes(m);
    Text.DecimalDenotes(n);
  }

  lemma KeyInParts(r: Row)
    ensures RowKey(r) == r.protocol + ("|" + (r.source + ("|" + (Text.Decimal(r.sourcePort) + ("|" + (r.destination + ("|" + Text.Decimal(r.destinationPort))))))))
  {
  }

  /** Two rows have the same key exactly when protocol, addresses and ports agree. */
  lemma KeyIsTheTuple(r: Row, s: Row)
    requires Plain(r) && Plain(s)
    ensures RowKey(r) == RowKey(s) <==>
      && r.protocol == s.protocol && r.source == s.source && r.sourcePort == s.sourcePort
      && r.destination == s.destination && r.destinationPort == s.destinationPort
  {
    if RowKey(r) == RowKey(s) {
      var rp, sp, rq, sq := Text.Decimal(r.sourcePort), Text.Decimal(s.sourcePort), Text.Decimal(r.destinationPort), Text.Decimal(s.destinationPort);
      KeyInParts(r);
      KeyInParts(s);
      hide RowKey, Text.Decimal;
      DecimalHasNoBar(r.sourcePort);
      DecimalHasNoBar(s.sourcePort);
      BarSplits(r.protocol, r.source + ("|" + (rp + ("|" + (r.destination + ("|" + rq))))), s.protocol, s.source + ("|" + (sp + ("|" + (s.destination + ("|" + sq))))));
      BarSplits(r.source, rp + ("|" + (r.destination + ("|" + rq))), s.source, sp + ("|" + (s.destination + ("|" + sq))));
      BarSplits(rp, r.destination + ("|" + rq), sp, s.destination + ("|" + sq));
      BarSplits(r.destination, rq, s.destination, sq);
      DecimalDiffers(r.sourcePort, s.sourcePort);
      DecimalDiffers(r.destinationPort, s.destinationPort);
    }
  }

  // ----- a connection that is forgotten -----

  /** An established connection from one of two addresses. */
  function Busy(source: string, port: nat): Row { Row("tcp", "ESTABLISHED", source, "9", port, 1, 0) }

  const AGAIN := Row("tcp", "TIME_WAIT", "1", "9", 0, 1, 0)

  /** A full batch of established connections; the first has the smallest key. */
  function Batch(n: nat): (rows: seq<Row>)
    requires n > 0
    ensures |rows| == n && forall i :: 0 <= i < n ==> rows[i] == BatchRow(i)
  {
    seq(n, i requires 0 <= i < n => BatchRow(i))
  }

  function BatchRow(i: nat): Row { if i == 0 then Busy("1", 0) else Busy("2", i) }

  lemma BatchKeys(n: nat, i: nat, j: nat)
    requires i < n && j < n && RowKey(Batch(n)[i]) == RowKey(Batch(n)[j])
    ensures i == j
  {
    hide RowKey;
    BatchIsPlain(n, i);
    BatchIsPlain(n, j);
    KeyIsTheTuple(Batch(n)[i], Batch(n)[j]);
    assert Batch(n)[i].sourcePort == i && Batch(n)[j].sourcePort == j;
  }

  lemma BatchIsPlain(n: nat, i: nat)
    requires i < n
    ensures Plain(Batch(n)[i])
  {
    var r := Batch(n)[i];
    assert r.protocol == "tcp" && (r.source == "1" || r.source == "2") && r.destination == "9";
  }

  lemma {:induction false} BatchHasManyKeys(n: nat)
    requires n > 0
    ensures |Keys(Batch(n))| == n
  {
    hide RowKey;
    var rows := Batch(n);
    KeysOfNext(rows, n - 1);
    assert rows[..n - 1 + 1] == rows;
    var front := rows[..n - 1];
    forall i | 0 <= i < |front| ensures RowKey(front[i]) != RowKey(rows[n - 1]) {
      if RowKey(rows[i]) == RowKey(rows[n - 1]) { BatchKeys(n, i, n - 1); }
    }
    if n > 1 {
      assert rows[..n - 1] == Batch(n - 1);
      BatchHasManyKeys(n - 1);
    } else {
      assert Keys(rows[..0]) == {};
    }
  }

  lemma FirstKeyIsSmallest(n: nat, i: nat)
    requires 0 < i < n
    ensures Text.Less(RowKey(Batch(n)[0]), RowKey(Batch(n)[i]))
  {
    var a, b := RowKey(Batch(n)[0]), RowKey(Batch(n)[i]);
    KeyFront("1", 0);
    KeyFront("2", i);
    hide RowKey, Text.Less;
    LessAfterPrefix(a, b, 4);
  }

  lemma KeyFront(source: string, port: nat)
    requires |source| == 1
    ensures var a := RowKey(Busy(source, port)); |a| > 4 && a[..4] == "tcp|" && a[4] == source[0]
  {
    hide RowKey, Text.Decimal;
    KeyInParts(Busy(source, port));
    var rest := source + ("|" + (Text.Decimal(port) + ("|" + ("9" + ("|" + Text.Decimal(1))))));
    assert "tcp" + ("|" + rest) == "tcp|" + rest;
  }

  lemma {:induction false} LessAfterPrefix(a: string, b: string, n: nat)
    requires n < |a| && n < |b| && a[..n] == b[..n] && a[n] < b[n]
    ensures Text.Less(a, b)
    decreases n
  {
    if n > 0 {
      assert a[0] == a[..n][0] == b[0];
      assert a[1..][..n - 1] == a[..n][1..] && b[1..][..n - 1] == b[..n][1..];
      LessAfterPrefix(a[1..], b[1..], n - 1);
    }
  }

  /** All established connections of one snapshot are active rows of its time. */
  lemma BatchIsActive(n: nat, closed: History, at: Reading, k: string)
    requires n > 0 && k in Streamed(Batch(n), closed, at)
    ensures Streamed(Batch(n), closed, at)[k].active && Streamed(Batch(n), closed, at)[k].lastSeen == at.timestamp
  {
    hide Streamed, RowKey, Forgotten, SameConnection;
    var rows := Batch(n);
    assert k in Keys(rows) by { StreamedKeys(rows, closed, at); }
    StreamedTells(rows, closed, at, k);
    var j := LastExists(rows, k);
    assert IsActiveState(rows[j].protocol, rows[j].state);
  }

  /** Of more rows of one class and time than there are places, the one with the smallest key goes. */
  lemma SmallestGoes(e: History, k: string, time: int)
    requires |e| > MAXIMUM_ENTRIES && k in e
    requires forall j :: j in e ==> e[j].active && e[j].lastSeen == time && (j == k || Text.Less(k, j))
    ensures k !in Trimmed(e)
  {
    hide Text.Less;
    EveryRowHasOneStamp(e);
    assert Closed(e) == {};
    var kept := KeptActive(e);
    var x := StampOf(e, k);
    CardinalityIsMonotone(kept, Active(e));
    var gone := Active(e) - kept;
    assert |gone| > 0;
    var y :| y in gone;
    OlderIsTotal(x, y);
    Text.LessIsTotal(k, y.key);
  }

  lemma KeyOfBatch(n: nat, j: string)
    requires n > 0 && j in Keys(Batch(n)) && j != RowKey(BatchRow(0))
    ensures Text.Less(RowKey(BatchRow(0)), j)
  {
    hide RowKey, Text.Less;
    var i: nat :| i < n && RowKey(Batch(n)[i]) == j;
    FirstKeyIsSmallest(n, i);
  }

  /** A batch that fills the table makes it drop its smallest key. */
  lemma BatchIsTrimmed(closed: History, at: Reading)
    ensures RowKey(BatchRow(0)) !in Streamed(Batch(BATCH_BOUND), closed, at)
    ensures |Streamed(Batch(BATCH_BOUND), closed, at)| == MAXIMUM_ENTRIES
    ensures forall j :: j in Streamed(Batch(BATCH_BOUND), closed, at) ==> Streamed(Batch(BATCH_BOUND), closed, at)[j].active
  {
    hide RowKey, Text.Less, Observe, Saved, Streamed, Trimmed, Keys;
    var n := BATCH_BOUND - 1;
    var rows, k := Batch(BATCH_BOUND), RowKey(BatchRow(0));
    assert rows[..n] == Batch(n) && rows[..n + 1] == rows;
    var e, key := Streamed(Batch(n), closed, at), RowKey(rows[n]);
    var c := Observe(rows[n], Saved(closed - Keys(Batch(n)), e, key), at);
    var full := e[key := c];
    StreamedNext(rows, n, closed, at);
    KeysOfNext(rows, n);
    assert |Keys(Batch(n))| == n && |Keys(rows)| == n + 1 by { BatchHasManyKeys(n); BatchHasManyKeys(n + 1); }
    FewAreAllThere(Batch(n), closed, at);
    assert full.Keys == Keys(rows) && |full| == |full.Keys|;
    assert c.active && c.lastSeen == at.timestamp by { BusyIsActive(rows[n], Saved(closed - Keys(Batch(n)), e, key), at); }
    forall j | j in full ensures full[j].active && full[j].lastSeen == at.timestamp && (j == k || Text.Less(k, j)) {
      if j != key { BatchIsActive(n, closed, at, j); }
      if j != k { KeyOfBatch(BATCH_BOUND, j); }
    }
    assert k in full by { FirstKeyIsThere(BATCH_BOUND); }
    SmallestGoes(full, k, at.timestamp);
    TrimmedIsBounded(full);
    forall j | j in Trimmed(full) ensures j in full && Trimmed(full)[j] == full[j] { FittedRow(full, j); }
  }

  lemma FirstKeyIsThere(n: nat)
    requires n > 0
    ensures RowKey(BatchRow(0)) in Keys(Batch(n))
  {
    hide RowKey;
    assert Batch(n)[0] == BatchRow(0);
  }

  lemma BusyIsActive(r: Row, saved: Option<Connection>, at: Reading)
    requires r.state == "ESTABLISHED"
    ensures Observe(r, saved, at).active && Observe(r, saved, at).lastSeen == at.timestamp
  {
    assert IsActiveState(r.protocol, r.state);
  }

  /** Closed rows within their reserve are kept. */
  lemma ReservedRowsStay(e: History, k: string)
    requires k in e && !e[k].active && |Closed(e)| <= RESERVED_CLOSED
    ensures k in Trimmed(e)
  {
    CardinalityIsMonotone(KeptClosed(e), Closed(e));
    assert StampOf(e, k) in Closed(e);
  }

  lemma OneClosedRow(e: History, k: string, c: Connection)
    requires k !in e && !c.active && forall j :: j in e ==> e[j].active
    ensures |Closed(e[k := c])| == 1
  {
    assert Closed(e[k := c]) == {Stamp(c.lastSeen, k)} by {
      StampsAfterInsert(e, k, c);
      assert Closed(e) == {};
    }
  }

  /** The first time does not stay for every stream: here a full batch makes the table forget a known
      connection, which then comes once more, in TIME_WAIT, and is shown as new. */
  lemma KnownConnectionIsForgotten(saved: Connection, at: Reading) returns (rows: seq<Row>, k: string)
    ensures k in After(rows, map[k := saved], at) && Forgotten(rows, AllClosed(map[k := saved]), at, k)
    ensures After(rows, map[k := saved], at)[k].firstSeen == at.timestamp
  {
    hide RowKey, Observe, Saved, Streamed, Trimmed, Tells, Keys, Forgotten;
    var n := BATCH_BOUND;
    k := RowKey(BatchRow(0));
    rows := Batch(n) + [AGAIN];
    var history := map[k := saved];
    var closed := AllClosed(history);
    assert rows[..n] == Batch(n) && rows[..n + 1] == rows;
    assert RowKey(AGAIN) == k by { SameKeyAgain(); }
    BatchIsTrimmed(closed, at);
    FirstKeyIsThere(n);
    KeysOfNext(rows, n);
    assert Forgotten(rows, closed, at, k) by { ForgottenHere(rows, closed, at, k, n); }
    var e := Streamed(Batch(n), closed, at);
    var c := Observe(AGAIN, Saved(closed - Keys(Batch(n)), e, k), at);
    StreamedNext(rows, n, closed, at);
    assert !c.active by { ObservedShowsTheRow(AGAIN, Saved(closed - Keys(Batch(n)), e, k), at); }
    assert e[k := c].Keys == e.Keys + {k} && |e[k := c]| == |e[k := c].Keys|;
    assert e[k := c] + (closed - Keys(rows)) == e[k := c];
    OneClosedRow(e, k, c);
    ReservedRowsStay(e[k := c], k);
    ForgottenStartsAnew(rows, history, at, k);
  }

  lemma ForgottenHere(rows: seq<Row>, closed: History, at: Reading, k: string, i: nat)
    requires ForgottenAt(rows, closed, at, k, i)
    ensures Forgotten(rows, closed, at, k)
  {
  }

  lemma ForgottenStartsAnew(rows: seq<Row>, history: History, at: Reading, k: string)
    requires k in After(rows, history, at) && Forgotten(rows, AllClosed(history), at, k)
    ensures After(rows, history, at)[k].firstSeen == at.timestamp
  {
    hide After, RowKey, Forgotten;
    assert k in Keys(rows) by { if k !in Keys(rows) { NotSeenBefore(rows, AllClosed(history), at, k); } }
    EveryRecordTells(rows, history, at, k);
  }

  lemma SameKeyAgain()
    ensures RowKey(AGAIN) == RowKey(BatchRow(0))
  {
  }
}
