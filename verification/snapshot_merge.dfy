/** What one readable kernel snapshot means for the history, before any row is trimmed. */
module SnapshotMerge {
  import opened Basics
  import opened ConnectionHistory
  import Text

  /** One parsed conntrack line that names a source and a destination. */
  datatype Row = Row(
    protocol: string, state: string, source: string, destination: string,
    sourcePort: nat, destinationPort: nat, mark: bv32)

  /** The arguments shared by every row of one snapshot. */
  datatype Reading = Reading(routeNames: map<bv32, string>, markMask: bv32, timestamp: int)

  function RowKey(r: Row): string {
    r.protocol + "|" + r.source + "|" + Text.Decimal(r.sourcePort) + "|" +
    r.destination + "|" + Text.Decimal(r.destinationPort)
  }

  const TERMINATING_STATES: set<string> :=
    {"FIN_WAIT", "CLOSE_WAIT", "LAST_ACK", "TIME_WAIT", "CLOSE", "CLOSED", "CLOSING"}

  predicate IsActiveState(protocol: string, state: string) {
    protocol != "tcp" || state !in TERMINATING_STATES
  }

  function Lookup(e: History, k: string): Option<Connection> {
    if k in e then Some(e[k]) else None
  }

  /** The record of an observed row; `saved` is the record already kept under its key, if any. */
  function Observe(r: Row, saved: Option<Connection>, at: Reading): Connection {
    var masked := r.mark & at.markMask;
    var active := IsActiveState(r.protocol, r.state);
    Connection(
      r.protocol, r.state, r.source, r.destination,
      if masked in at.routeNames then at.routeNames[masked] else "direct",
      r.sourcePort, r.destinationPort, r.mark,
      if saved.Some? && saved.value.firstSeen != 0 then saved.value.firstSeen else at.timestamp,
      if active || saved.None? || saved.value.lastSeen == 0 then at.timestamp else saved.value.lastSeen,
      active, true)
  }

  /** The previous snapshot with every row marked as gone. */
  function AllClosed(e: History): History {
    map k | k in e :: e[k].(active := false, state := "CLOSED", observed := false)
  }

  function Keys(rows: seq<Row>): set<string> {
    set i | 0 <= i < |rows| :: RowKey(rows[i])
  }

  ghost predicate DistinctKeys(rows: seq<Row>) {
    forall i, j :: 0 <= i < j < |rows| ==> RowKey(rows[i]) != RowKey(rows[j])
  }

  /** The record a row continues: its own earlier one in this snapshot, or that of the previous history. */
  function Earlier(seen: History, previous: History, k: string): Option<Connection> {
    if k in seen then Some(seen[k]) else Lookup(previous, k)
  }

  /** The observed rows of a snapshot, each continuing an earlier record of its key; a repeated key
      replaces its row. */
  function Observed(rows: seq<Row>, previous: History, at: Reading): History {
    if rows == [] then map[]
    else
      var last, seen := rows[|rows| - 1], Observed(rows[..|rows| - 1], previous, at);
      seen[RowKey(last) := Observe(last, Earlier(seen, previous, RowKey(last)), at)]
  }

  /** The untrimmed merge: every observed row, and every row of the old history that was not seen,
      as closed. */
  function Merged(rows: seq<Row>, history: History, at: Reading): History {
    (AllClosed(history) - Keys(rows)) + Observed(rows, AllClosed(history), at)
  }

  lemma KeysOfNext(rows: seq<Row>, i: nat)
    requires i < |rows|
    ensures Keys(rows[..i + 1]) == Keys(rows[..i]) + {RowKey(rows[i])}
  {
    var next := rows[..i + 1];
    forall k | k in Keys(rows[..i]) ensures k in Keys(next) {
      var j :| 0 <= j < i && k == RowKey(rows[..i][j]);
      assert next[j] == rows[j];
    }
    assert next[i] == rows[i];
  }

  lemma {:induction false} ObservedKeys(rows: seq<Row>, previous: History, at: Reading)
    ensures Observed(rows, previous, at).Keys == Keys(rows)
    ensures forall k :: k in Observed(rows, previous, at) ==> Observed(rows, previous, at)[k].observed
  {
    if rows != [] {
      ObservedKeys(rows[..|rows| - 1], previous, at);
      KeysOfNext(rows, |rows| - 1);
      assert rows[..|rows| - 1 + 1] == rows;
    }
  }

  /** Ages make sense: a record was first seen no later than it was last seen, and not in the future. */
  predicate Aged(c: Connection, timestamp: int) {
    0 < c.firstSeen <= c.lastSeen <= timestamp
  }

  ghost predicate AllAged(e: History, timestamp: int) {
    forall k :: k in e ==> Aged(e[k], timestamp)
  }

  lemma ObservedNext(rows: seq<Row>, i: nat, previous: History, at: Reading)
    requires i < |rows|
    ensures var seen := Observed(rows[..i], previous, at);
      Observed(rows[..i + 1], previous, at) == seen[RowKey(rows[i]) := Observe(rows[i], Earlier(seen, previous, RowKey(rows[i])), at)]
    ensures DistinctKeys(rows) ==> RowKey(rows[i]) !in Keys(rows[..i])
  {
    assert rows[..i + 1][..i] == rows[..i];
  }

  /** Merging the remaining old rows one by one ends in `Merged`. */
  lemma MergedSplits(rows: seq<Row>, history: History, at: Reading)
    ensures var rest := AllClosed(history) - Keys(rows);
      var seen := Observed(rows, AllClosed(history), at);
      seen.Keys !! rest.Keys && seen + rest == Merged(rows, history, at)
  {
    ObservedKeys(rows, AllClosed(history), at);
    hide Observed, AllClosed, Keys;
  }
}
