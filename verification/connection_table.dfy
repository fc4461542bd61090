/** The history table itself, updated in place: the trim, and the streaming merge that never holds
    more than 1564 current rows. */
module ConnectionTable {
  import opened Basics
  import opened NewestStamps
  import opened ConnectionHistory
  import opened SnapshotMerge

  /** The most current rows ever held: the cap and one batch of slack. */
  const BATCH_BOUND: nat := MAXIMUM_ENTRIES + BATCH_SLACK

  datatype Observation = Observation(available: bool, snapshotAt: int, truncated: bool)

  /** `now` is what remains of `before` with `c` under `k`; the flag says whether an observed row went. */
  ghost predicate Inserted(before: History, k: string, c: Connection, truncated: bool, now: History, truncated': bool) {
    && (forall j :: j in now ==> if j == k then now[j] == c else j in before && now[j] == before[j])
    && (!truncated' ==> !truncated && !OmitsObserved(before[k := c], now))
    && (truncated' ==> truncated || (OmitsObserved(before[k := c], now) && |before[k := c]| >= BATCH_BOUND))
  }

  /** A full batch is trimmed, any smaller table is left alone. */
  ghost function Fitted(e: History): History {
    if |e| >= BATCH_BOUND then Trimmed(e) else e
  }

  lemma FittedIsInserted(before: History, k: string, c: Connection, truncated: bool, now: History, truncated': bool)
    requires now == Fitted(before[k := c])
    requires truncated' <==> truncated || (|before[k := c]| >= BATCH_BOUND && OmitsObserved(before[k := c], now))
    ensures Inserted(before, k, c, truncated, now, truncated')
  {
    hide KeptActive, KeptClosed;
  }

  /** Holds of any stream, repeated keys included: rows in the table were observed and belong to keys
      seen in the snapshot, and an unset flag means none of those keys is missing. */
  ghost predicate OnlyObserved(seen: set<string>, e: History, truncated: bool) {
    && (forall k :: k in e ==> k in seen && e[k].observed)
    && (!truncated ==> forall k :: k in seen ==> k in e)
  }

  lemma NothingObserved(closed: History, at: Reading)
    ensures Observing([], at, closed, closed, map[], false)
  {
    assert closed - Keys([]) == closed;
    assert Active(map[]) == {} && Closed(map[]) == {};
  }

  lemma OnlyObservedAfterInsert(seen: set<string>, e: History, t: bool, k: string, c: Connection, e': History, t': bool)
    requires OnlyObserved(seen, e, t) && Inserted(e, k, c, t, e', t') && c.observed
    ensures OnlyObserved(seen + {k}, e', t')
  {
    if !t' {
      forall j | j in seen + {k} ensures j in e' {
        assert j in e[k := c] && e[k := c][j].observed;
      }
    }
  }

  lemma OnlySeenKeys(seen: set<string>, e: History, t: bool)
    requires OnlyObserved(seen, e, t)
    ensures forall k :: k in e ==> k in seen
  {
  }

  lemma ObserveKeepsAge(r: Row, saved: Option<Connection>, at: Reading)
    requires 0 < at.timestamp && (saved.Some? ==> Aged(saved.value, at.timestamp))
    ensures Aged(Observe(r, saved, at), at.timestamp)
  {
  }

  /** The record the code looks up for a row: the previous snapshot first, then the current table. */
  function Saved(previous: History, e: History, k: string): Option<Connection> {
    if k in previous then Some(previous[k]) else Lookup(e, k)
  }

  /** The snapshots whose result is fixed by what was read: no key is repeated, or there are too few keys
      for a trim in between. Otherwise a row may be trimmed and then come back without its first record. */
  ghost predicate Traceable(rows: seq<Row>) { DistinctKeys(rows) || Small(rows) }

  ghost predicate Small(rows: seq<Row>) { |Keys(rows)| < BATCH_BOUND }

  /** The table of the observing loop after `rows`, whatever keys they repeat. */
  ghost function Streamed(rows: seq<Row>, closed: History, at: Reading): History {
    if rows == [] then map[]
    else
      var before, last := rows[..|rows| - 1], rows[|rows| - 1];
      var e, k := Streamed(before, closed, at), RowKey(last);
      Fitted(e[k := Observe(last, Saved(closed - Keys(before), e, k), at)])
  }

  lemma StreamedNext(rows: seq<Row>, i: nat, closed: History, at: Reading)
    requires i < |rows|
    ensures var e, k := Streamed(rows[..i], closed, at), RowKey(rows[i]);
      Streamed(rows[..i + 1], closed, at) == Fitted(e[k := Observe(rows[i], Saved(closed - Keys(rows[..i]), e, k), at)])
  {
    assert rows[..i + 1][..i] == rows[..i];
  }

  lemma NothingStreamed(closed: History, at: Reading)
    ensures Streamed([], closed, at) == map[]
  {
  }

  lemma UnseenSoFar(rows: seq<Row>, at: Reading, closed: History, previous: History, e: History, t: bool)
    requires Observing(rows, at, closed, previous, e, t)
    ensures previous == closed - Keys(rows)
  {
  }

  /** What one readable snapshot leaves of a history, whatever keys its rows repeat. */
  ghost function After(rows: seq<Row>, history: History, at: Reading): History {
    var closed := AllClosed(history);
    Trimmed(Streamed(rows, closed, at) + (closed - Keys(rows)))
  }

  /** What the observing loop keeps after `rows`, for the table and for the never trimmed table. */
  ghost predicate Observing(rows: seq<Row>, at: Reading, closed: History, previous: History, e: History, t: bool) {
    && previous == closed - Keys(rows)
    && OnlyObserved(Keys(rows), e, t)
    && (DistinctKeys(rows) ==> Batched(Observed(rows, closed, at), e, t))
    && (Small(rows) ==> e == Observed(rows, closed, at) && !t)
    && (t ==> |Keys(rows)| >= BATCH_BOUND)
    && (AllAged(closed, at.timestamp) && 0 < at.timestamp ==> AllAged(e, at.timestamp))
  }

  /** One turn of the observing loop. */
  lemma ObservedRowJoins(rows: seq<Row>, i: nat, at: Reading, closed: History, previous: History,
                         k: string, c: Connection, e: History, t: bool, e': History, t': bool)
    requires i < |rows| && k == RowKey(rows[i]) && Observing(rows[..i], at, closed, previous, e, t)
    requires c == Observe(rows[i], Saved(previous, e, k), at) && Inserted(e, k, c, t, e', t')
    requires var all := Observed(rows[..i], closed, at);
      k !in all && Batched(all, e, t) ==> Batched(all[k := c], e', t')
    requires |e[k := c]| < BATCH_BOUND ==> e' == e[k := c] && t' == t
    ensures Observing(rows[..i + 1], at, closed, previous - {k}, e', t')
  {
    hide Observe, RowKey, Batched, Inserted, OnlyObserved, DistinctKeys, Observed, AllAged, Saved, Small, Keys;
    assert closed - Keys(rows[..i + 1]) == previous - {k} by { KeysOfNext(rows, i); }
    assert OnlyObserved(Keys(rows[..i + 1]), e', t') by {
      KeysOfNext(rows, i);
      ObserveIsObserved(rows[i], Saved(previous, e, k), at);
      OnlyObservedAfterInsert(Keys(rows[..i]), e, t, k, c, e', t');
    }
    assert t' ==> |Keys(rows[..i + 1])| >= BATCH_BOUND by { FlagNeedsManyKeys(rows, i, k, c, e, t, e', t'); }
    DistinctRowJoins(rows, i, at, closed, previous, k, c, e, t, e', t');
    SmallRowJoins(rows, i, at, closed, previous, k, c, e, t, e', t');
    if AllAged(closed, at.timestamp) && 0 < at.timestamp {
      AgedAfterInsert(rows[i], at, closed, previous, k, c, e, t, e', t');
    }
  }

  /** Only a table of more than one batch over the cap is trimmed, and all its keys were seen. */
  lemma FlagNeedsManyKeys(rows: seq<Row>, i: nat, k: string, c: Connection, e: History, t: bool, e': History, t': bool)
    requires i < |rows| && k == RowKey(rows[i]) && OnlyObserved(Keys(rows[..i]), e, t) && Inserted(e, k, c, t, e', t')
    requires t ==> |Keys(rows[..i])| >= BATCH_BOUND
    ensures t' ==> |Keys(rows[..i + 1])| >= BATCH_BOUND
  {
    hide RowKey, Keys, OmitsObserved;
    KeysOfNext(rows, i);
    CardinalityIsMonotone(Keys(rows[..i]), Keys(rows[..i + 1]));
    OnlySeenKeys(Keys(rows[..i]), e, t);
    assert e[k := c].Keys <= Keys(rows[..i + 1]);
    CardinalityIsMonotone(e[k := c].Keys, Keys(rows[..i + 1]));
    assert |e[k := c]| == |e[k := c].Keys|;
  }

  lemma DistinctRowJoins(rows: seq<Row>, i: nat, at: Reading, closed: History, previous: History,
                         k: string, c: Connection, e: History, t: bool, e': History, t': bool)
    requires i < |rows| && k == RowKey(rows[i]) && Observing(rows[..i], at, closed, previous, e, t)
    requires c == Observe(rows[i], Saved(previous, e, k), at)
    requires var all := Observed(rows[..i], closed, at);
      k !in all && Batched(all, e, t) ==> Batched(all[k := c], e', t')
    ensures DistinctKeys(rows[..i + 1]) ==> Batched(Observed(rows[..i + 1], closed, at), e', t')
  {
    hide Observe, RowKey, Batched, OnlyObserved, DistinctKeys, Observed, AllAged, Saved, Small, Keys;
    if DistinctKeys(rows[..i + 1]) {
      assert forall j :: j in e ==> j in Keys(rows[..i]) by { OnlySeenKeys(Keys(rows[..i]), e, t); }
      ObservedGrows(rows, i, at, closed, previous, k, e, c);
    }
  }

  lemma SmallRowJoins(rows: seq<Row>, i: nat, at: Reading, closed: History, previous: History,
                      k: string, c: Connection, e: History, t: bool, e': History, t': bool)
    requires i < |rows| && k == RowKey(rows[i]) && Observing(rows[..i], at, closed, previous, e, t)
    requires c == Observe(rows[i], Saved(previous, e, k), at)
    requires |e[k := c]| < BATCH_BOUND ==> e' == e[k := c] && t' == t
    ensures Small(rows[..i + 1]) ==> e' == Observed(rows[..i + 1], closed, at) && !t'
  {
    hide Observe, RowKey, Batched, OnlyObserved, DistinctKeys, Observed, AllAged, Saved, Small, Keys;
    if Small(rows[..i + 1]) { SmallGrows(rows, i, at, closed, previous, k, e, t, c); }
  }

  lemma ObservedGrows(rows: seq<Row>, i: nat, at: Reading, closed: History, previous: History,
                      k: string, e: History, c: Connection)
    requires i < |rows| && k == RowKey(rows[i]) && DistinctKeys(rows[..i + 1])
    requires previous == closed - Keys(rows[..i]) && forall j :: j in e ==> j in Keys(rows[..i])
    requires c == Observe(rows[i], Saved(previous, e, k), at)
    ensures DistinctKeys(rows[..i]) && k !in Observed(rows[..i], closed, at)
    ensures Observed(rows[..i + 1], closed, at) == Observed(rows[..i], closed, at)[k := c]
  {
    hide Observe, RowKey;
    var before, after := rows[..i], rows[..i + 1];
    forall a, b | 0 <= a < b < i ensures RowKey(before[a]) != RowKey(before[b]) {
      assert RowKey(after[a]) != RowKey(after[b]);
    }
    ObservedNext(after, i, closed, at);
    assert after[..i] == before && after[..i + 1] == after;
    ObservedKeys(before, closed, at);
  }

  lemma SmallGrows(rows: seq<Row>, i: nat, at: Reading, closed: History, previous: History,
                   k: string, e: History, t: bool, c: Connection)
    requires i < |rows| && k == RowKey(rows[i]) && Small(rows[..i + 1]) && previous == closed - Keys(rows[..i])
    requires Small(rows[..i]) ==> e == Observed(rows[..i], closed, at) && !t
    requires c == Observe(rows[i], Saved(previous, e, k), at)
    ensures !t && Observed(rows[..i + 1], closed, at) == e[k := c] && |e[k := c]| < BATCH_BOUND
  {
    hide Observe, RowKey;
    KeysOfNext(rows, i);
    CardinalityIsMonotone(Keys(rows[..i]), Keys(rows[..i + 1]));
    ObservedKeys(rows[..i], closed, at);
    ObservedKeys(rows[..i + 1], closed, at);
    ObservedNext(rows, i, closed, at);
    assert |e[k := c]| == |e[k := c].Keys|;
  }

  lemma AgedAfterInsert(r: Row, at: Reading, closed: History, previous: History,
                        k: string, c: Connection, e: History, t: bool, e': History, t': bool)
    requires AllAged(closed, at.timestamp) && AllAged(e, at.timestamp) && 0 < at.timestamp
    requires forall j :: j in previous ==> j in closed && previous[j] == closed[j]
    requires c == Observe(r, Saved(previous, e, k), at) && Inserted(e, k, c, t, e', t')
    ensures AllAged(e', at.timestamp)
  {
    ObserveKeepsAge(r, Saved(previous, e, k), at);
  }

  lemma ObserveIsObserved(r: Row, saved: Option<Connection>, at: Reading)
    ensures Observe(r, saved, at).observed
  {
  }

  lemma StampsInTable(e: History)
    ensures InTable(e, Active(e)) && InTable(e, Closed(e))
  {
  }

  lemma NoRowOmitted(e: History)
    ensures !OmitsObserved(e, e)
  {
  }

  lemma NothingErased(e: History, rows: set<Stamp>)
    ensures ErasedExactly(e, {}, e) && !AnyObserved(e, {}) && Split(rows, rows, {})
  {
  }

  /** `gone` holds the oldest rows, `left` the others. */
  ghost predicate Split(rows: set<Stamp>, left: set<Stamp>, gone: set<Stamp>) {
    && left !! gone && rows == left + gone
    && forall x, y :: x in left && y in gone ==> Older(y, x)
  }

  lemma SplitOff(rows: set<Stamp>, left: set<Stamp>, gone: set<Stamp>, o: Stamp)
    requires Split(rows, left, gone) && IsOldest(left, o)
    ensures Split(rows, left - {o}, gone + {o}) && o in left && o !in gone && gone + {o} <= rows
  {
  }

  lemma SplitIsNewest(rows: set<Stamp>, left: set<Stamp>, gone: set<Stamp>)
    requires Split(rows, left, gone)
    ensures AreNewest(rows, |left|, left) && rows - left == gone
  {
    CardinalityIsMonotone(left, rows);
  }

  lemma InTableSubset(e: History, rows: set<Stamp>, some: set<Stamp>)
    requires InTable(e, rows) && some <= rows
    ensures InTable(e, some)
  {
  }

  ghost predicate NoneObserved(e: History) { forall k :: k in e ==> !e[k].observed }

  /** Every row of `e` is one of `done`, or else one of `e0`. */
  ghost predicate HoldsRows(e0: History, done: History, e: History) {
    forall k :: k in e ==> if k in done then e[k] == done[k] else k in e0 && e[k] == e0[k]
  }

  /** What the second loop keeps after the rows `done` came back into the table `e0`. */
  ghost predicate Rejoining(e0: History, t0: bool, all: History, done: History, e: History, t: bool) {
    && HoldsRows(e0, done, e) && e0.Keys !! done.Keys
    && (!t ==> !t0 && !OmitsObserved(e0, e))
    && (t ==> t0 || OmitsObserved(e0, e)) && NoneObserved(done)
    && (Batched(all, e0, t0) ==> Batched(all + done, e, t))
  }

  ghost predicate Pending(unseen: History, done: History, rest: History) {
    && (forall k :: k in unseen <==> k in done || k in rest)
    && (forall k :: k in done ==> k !in rest && done[k] == unseen[k])
    && (forall k :: k in rest ==> rest[k] == unseen[k])
  }

  lemma OneLessPending(unseen: History, done: History, rest: History, k: string)
    requires Pending(unseen, done, rest) && k in rest
    ensures k in unseen && k !in done && |rest - {k}| < |rest|
    ensures Pending(unseen, done[k := rest[k]], rest - {k})
  {
    OneKeyLess(rest, k);
  }

  lemma OneKeyLess(rest: History, k: string)
    requires k in rest
    ensures |rest - {k}| < |rest|
  {
    assert rest.Keys == (rest - {k}).Keys + {k};
  }

  lemma PendingUnobserved(unseen: History, done: History, rest: History, k: string)
    requires Pending(unseen, done, rest) && k in rest && NoneObserved(unseen)
    ensures !rest[k].observed
  {
  }

  lemma NothingPending(unseen: History, done: History)
    requires Pending(unseen, done, map[])
    ensures done == unseen
  {
  }

  lemma NothingRejoined(e0: History, t0: bool, all: History, unseen: History)
    ensures Rejoining(e0, t0, all, map[], e0, t0)
    ensures Pending(unseen, map[], unseen)
  {
    assert all + map[] == all;
  }

  lemma UnseenRowRejoins(e0: History, t0: bool, all: History, done: History, k: string, c: Connection,
                         e: History, t: bool, e': History, t': bool)
    requires Rejoining(e0, t0, all, done, e, t) && k !in done && k !in e0 && k !in all && !c.observed
    requires Inserted(e, k, c, t, e', t')
    requires k !in all + done && Batched(all + done, e, t) ==> Batched((all + done)[k := c], e', t')
    ensures Rejoining(e0, t0, all, done[k := c], e', t')
  {
    hide Batched, HoldsRows, NoneObserved, Inserted, OmitsObserved;
    assert (all + done)[k := c] == all + done[k := c] && k !in all + done;
    RowsRejoin(e0, t0, done, k, c, e, t, e', t');
    OmissionStays(e0, t0, done, k, c, e, t, e', t');
  }

  lemma NothingIsSufficient(e0: History)
    ensures Sufficient(e0 + map[], e0)
  {
    assert e0 + map[] == e0;
    SufficientReflexive(e0);
  }

  /** Whatever the first loop left, the second keeps enough of it and of the rows that came back. */
  lemma RejoinedIsSufficient(e0: History, done: History, k: string, c: Connection, e: History)
    requires Sufficient(e0 + done, e) && k !in e0 && k !in done
    ensures Sufficient(e0 + done[k := c], Fitted(e[k := c]))
  {
    hide Sufficient, Trimmed;
    assert (e0 + done)[k := c] == e0 + done[k := c];
    SufficientAfterInsert(e0 + done, e, k, c);
    SufficientAfterTrim(e0 + done[k := c], e[k := c]);
  }

  lemma RowsRejoin(e0: History, t0: bool, done: History, k: string, c: Connection, e: History, t: bool, e': History, t': bool)
    requires HoldsRows(e0, done, e) && e0.Keys !! done.Keys && (!t ==> !t0 && !OmitsObserved(e0, e)) && NoneObserved(done)
    requires k !in done && k !in e0 && !c.observed && Inserted(e, k, c, t, e', t')
    ensures HoldsRows(e0, done[k := c], e') && e0.Keys !! done[k := c].Keys && NoneObserved(done[k := c])
    ensures !t' ==> !t0 && !OmitsObserved(e0, e')
  {
    if !t' {
      forall o | o in e0 && e0[o].observed ensures o in e' { assert o in e[k := c] && e[k := c][o].observed; }
    }
  }

  /** An observed row that went is one of the first loop's and does not come back. */
  lemma OmissionStays(e0: History, t0: bool, done: History, k: string, c: Connection, e: History, t: bool, e': History, t': bool)
    requires HoldsRows(e0, done, e) && (t ==> t0 || OmitsObserved(e0, e)) && NoneObserved(done) && k !in e0 && !c.observed && Inserted(e, k, c, t, e', t')
    ensures t' ==> t0 || OmitsObserved(e0, e')
  {
    if t' && !t0 {
      if t {
        var j :| j in e0 && e0[j].observed && j !in e;
        assert j !in e';
      } else {
        var j :| j in e[k := c] && e[k := c][j].observed && j !in e';
        assert j in e0 && e0[j].observed;
      }
    }
  }

  lemma SeenAndUnseen(rows: seq<Row>, at: Reading, closed: History, previous: History, e: History, t: bool)
    requires Observing(rows, at, closed, previous, e, t)
    ensures Observed(rows, closed, at).Keys !! previous.Keys && e.Keys !! previous.Keys
    ensures NoneObserved(closed) ==> NoneObserved(previous)
  {
    ObservedKeys(rows, closed, at);
  }

  lemma ClosedAreUnobserved(history: History)
    ensures NoneObserved(AllClosed(history))
  {
  }

  /** What the report says of any stream, repeated keys included: a key seen in the snapshot is never
      shown as an unobserved row, other rows are closed rows of the old history, and an unset flag
      means that no seen key is missing. */
  ghost predicate Reported(seen: set<string>, closed: History, e: History, truncated: bool) {
    && (forall k :: k in e ==> if k in seen then e[k].observed else k in closed && e[k] == closed[k])
    && (!truncated ==> forall k :: k in seen ==> k in e)
  }

  ghost predicate Misses(seen: set<string>, e: History) { exists k :: k in seen && k !in e }

  /** A set flag tells the truth for every stream: at the end some seen key is missing. A trim in the first
      loop needs more keys than the table can hold at last; a row omitted later never returns. */
  lemma FlagTellsTheTruth(seen: set<string>, closed: History, e: History, t: bool, e': History, t': bool, result: History, omitted: bool)
    requires OnlyObserved(seen, e, t) && (t ==> |seen| >= BATCH_BOUND) && (t' ==> t || OmitsObserved(e, e'))
    requires Reported(seen, closed, e', t') && NoneObserved(closed) && (omitted ==> OmitsObserved(e', result))
    requires |result| <= MAXIMUM_ENTRIES && result.Keys <= e'.Keys
    ensures t' || omitted ==> Misses(seen, result)
  {
    if t {
      if !Misses(seen, result) {
        CardinalityIsMonotone(seen, result.Keys);
        assert |result| == |result.Keys|;
      }
    } else if t' {
      var k :| k in e && e[k].observed && k !in e';
      assert k in seen && k !in result;
    } else if omitted {
      var k :| k in e' && e'[k].observed && k !in result;
      assert k in seen && k !in result;
    }
  }

  lemma ClosingKeepsAge(history: History, timestamp: int)
    requires AllAged(history, timestamp)
    ensures AllAged(AllClosed(history), timestamp)
  {
  }

  lemma TrimKeepsAge(e: History, timestamp: int)
    requires AllAged(e, timestamp)
    ensures AllAged(Trimmed(e), timestamp)
  {
    hide KeptActive, KeptClosed;
  }

  /** What one merged snapshot leaves of the old history. */
  ghost predicate Merges(rows: seq<Row>, at: Reading, history: History, result: History, truncated: bool) {
    && result == After(rows, history, at)
    && Reported(Keys(rows), AllClosed(history), result, truncated)
    && (truncated <==> Misses(Keys(rows), result))
    && (Traceable(rows) ==>
          && result == Trimmed(Merged(rows, history, at))
          && (truncated <==> OmitsObserved(Merged(rows, history, at), result)))
    && (AllAged(history, at.timestamp) && 0 < at.timestamp ==> AllAged(result, at.timestamp))
  }

  lemma AfterTheLoops(rows: seq<Row>, at: Reading, history: History, unseen: History, e: History, e': History)
    requires unseen == AllClosed(history) - Keys(rows) && e == Streamed(rows, AllClosed(history), at)
    requires Sufficient(e + unseen, e')
    ensures Trimmed(e') == After(rows, history, at)
  {
    hide Sufficient, Trimmed, AllClosed, Keys, Streamed;
    SufficientTrimsSame(e + unseen, e');
  }

  /** Everything the three phases establish about the finished table. */
  lemma FinishedMerge(rows: seq<Row>, at: Reading, history: History, unseen: History,
                      e: History, t: bool, e': History, t': bool, result: History, omitted: bool)
    requires Observing(rows, at, AllClosed(history), unseen, e, t)
    requires Rejoining(e, t, Observed(rows, AllClosed(history), at), unseen, e', t')
    requires result == Trimmed(e') && (omitted <==> OmitsObserved(e', result)) && result == After(rows, history, at)
    ensures Merges(rows, at, history, result, t' || omitted)
  {
    hide AllClosed, AllAged, Observed, Merged, DistinctKeys, Keys, Reported, KeptActive, KeptClosed, Small, After;
    var closed := AllClosed(history);
    if Traceable(rows) {
      assert Batched(Observed(rows, closed, at), e, t) by {
        if Small(rows) { UntrimmedIsBatched(e); }
      }
      MergedSplits(rows, history, at);
      assert Batched(Merged(rows, history, at), e', t') by { hide Batched; }
      BatchedAfterTrim(Merged(rows, history, at), e', t', omitted);
    }
    RejoinedRows(rows, at, closed, unseen, e, t, e', t');
    TrimKeepsReport(Keys(rows), closed, e', t', result, omitted);
    assert t' || omitted <==> Misses(Keys(rows), result) by {
      ClosedAreUnobserved(history);
      TrimmedIsSmaller(e');
      FlagTellsTheTruth(Keys(rows), closed, e, t, e', t', result, omitted);
      ReportedMisses(Keys(rows), closed, result, t' || omitted);
    }
    if AllAged(history, at.timestamp) && 0 < at.timestamp {
      ClosingKeepsAge(history, at.timestamp);
      TrimKeepsAge(e', at.timestamp);
    }
  }

  lemma TrimmedIsSmaller(e: History)
    ensures |Trimmed(e)| <= MAXIMUM_ENTRIES && Trimmed(e).Keys <= e.Keys
  {
    TrimmedIsBounded(e);
  }

  lemma ReportedMisses(seen: set<string>, closed: History, e: History, truncated: bool)
    requires Reported(seen, closed, e, truncated)
    ensures Misses(seen, e) ==> truncated
  {
  }

  lemma UntrimmedIsBatched(e: History)
    ensures Batched(e, e, false)
  {
    SufficientReflexive(e);
    NoRowOmitted(e);
  }

  lemma RejoinedRows(rows: seq<Row>, at: Reading, closed: History, unseen: History, e: History, t: bool, e': History, t': bool)
    requires Observing(rows, at, closed, unseen, e, t)
    requires Rejoining(e, t, Observed(rows, closed, at), unseen, e', t')
    ensures Reported(Keys(rows), closed, e', t')
    ensures AllAged(closed, at.timestamp) && 0 < at.timestamp ==> AllAged(e', at.timestamp)
  {
    hide Batched, Observed;
    if !t' {
      var seen := Keys(rows);
      forall k | k in seen ensures k in e' {
        assert k in e;
        assert e[k].observed;
      }
    }
  }

  lemma TrimKeepsReport(seen: set<string>, closed: History, e: History, t: bool, result: History, omitted: bool)
    requires Reported(seen, closed, e, t)
    requires result == Trimmed(e) && (omitted <==> OmitsObserved(e, result))
    ensures Reported(seen, closed, result, t || omitted)
  {
    hide KeptActive, KeptClosed;
  }

  class HistoryTable {
    var entries: History

    /** Erases the `count` oldest of `rows` from the table. */
    method EraseOldest(rows: set<Stamp>, count: nat) returns (left: set<Stamp>, omitted: bool)
      requires count <= |rows| && InTable(entries, rows)
      modifies this
      ensures AreNewest(rows, |rows| - count, left)
      ensures ErasedExactly(old(entries), rows - left, entries)
      ensures omitted <==> AnyObserved(old(entries), rows - left)
    {
      hide AnyObserved, ErasedExactly, Split, IsOldest, AreNewest, InTable;
      left, omitted := rows, false;
      ghost var before, gone := entries, {};
      NothingErased(entries, rows);
      var index := 0;
      while index < count
        invariant index <= count && |left| == |rows| - index
        invariant Split(rows, left, gone)
        invariant ErasedExactly(before, gone, entries)
        invariant omitted <==> AnyObserved(before, gone)
      {
        var oldest := Oldest(left);
        SplitOff(rows, left, gone, oldest);
        InTableSubset(before, rows, gone + {oldest});
        EraseOne(before, gone, oldest, entries);
        omitted := omitted || entries[oldest.key].observed;
        entries := entries - {oldest.key};
        left, gone := left - {oldest}, gone + {oldest};
        index := index + 1;
      }
      SplitIsNewest(rows, left, gone);
    }

    method Trim() returns (omitted: bool)
      modifies this
      ensures entries == Trimmed(old(entries))
      ensures omitted <==> OmitsObserved(old(entries), entries)
    {
      hide Active, Closed, Restrict, Trimmed, ErasedExactly, AnyObserved, OmitsObserved, InTable;
      var active, closed := Active(entries), Closed(entries);
      ghost var all := entries;
      EveryRowHasOneStamp(all);
      StampsInTable(all);
      if |entries| <= MAXIMUM_ENTRIES {
        SmallTableIsKept(all);
        NoRowOmitted(all);
        return false;
      }
      var activeLimit := MAXIMUM_ENTRIES - Min(RESERVED_CLOSED, |closed|);
      var removeActive := if |active| > activeLimit then |active| - activeLimit else 0;
      var keptActive, omittedActive := EraseOldest(active, removeActive);
      NewestIsUnique(active, activeLimit, keptActive, KeptActive(all));
      ghost var between := entries;
      SizeAfterActive(all, between);
      var removeClosed := if |entries| > MAXIMUM_ENTRIES then |entries| - MAXIMUM_ENTRIES else 0;
      var keptClosed, omittedClosed := EraseOldest(closed, removeClosed);
      NewestIsUnique(closed, ClosedLimit(|active|, |closed|), keptClosed, KeptClosed(all));
      ErasureIsTrim(all, between, entries, keptActive, keptClosed);
      InTableSubset(all, active, active - keptActive);
      InTableSubset(between, closed, closed - keptClosed);
      OmissionSplits(all, between, entries, active - keptActive, closed - keptClosed);
      omitted := omittedActive || omittedClosed;
    }

    method TrimBatch() returns (omitted: bool)
      modifies this
      ensures |old(entries)| < BATCH_BOUND ==> entries == old(entries) && !omitted
      ensures |old(entries)| >= BATCH_BOUND ==>
        entries == Trimmed(old(entries)) && (omitted <==> OmitsObserved(old(entries), entries))
    {
      omitted := false;
      if |entries| >= BATCH_BOUND {
        omitted := Trim();
      }
    }

    /** Adds one row and trims a full batch. `all` is the table that was never trimmed. */
    method Insert(k: string, c: Connection, truncated: bool, ghost all: History)
      returns (truncated': bool, ghost peak: nat)
      requires |entries| <= BATCH_BOUND - 1
      modifies this
      ensures peak <= BATCH_BOUND && |entries| <= BATCH_BOUND - 1
      ensures Inserted(old(entries), k, c, truncated, entries, truncated')
      ensures k !in all && Batched(all, old(entries), truncated) ==> Batched(all[k := c], entries, truncated')
      ensures entries == Fitted(old(entries)[k := c])
      ensures |old(entries)[k := c]| < BATCH_BOUND ==> truncated' == truncated
    {
      hide Batched, Trimmed, OmitsObserved, Inserted;
      ghost var before := entries;
      entries := entries[k := c];
      ghost var full := entries;
      assert full.Keys == before.Keys + {k};
      peak := |entries|;
      var omitted := TrimBatch();
      truncated' := truncated || omitted;
      TrimmedIsBounded(full);
      FittedIsInserted(before, k, c, truncated, entries, truncated');
      if k !in all && Batched(all, before, truncated) {
        BatchedAfterInsert(all, before, truncated, k, c);
        if |full| >= BATCH_BOUND {
          BatchedAfterTrim(all[k := c], full, truncated, omitted);
        }
      }
    }

    /** One turn of the observing loop: the row replaces what the previous snapshot had for it. */
    method ObserveRow(rows: seq<Row>, i: nat, at: Reading, ghost closed: History, previous: History, truncated: bool)
      returns (previous': History, truncated': bool, ghost peak: nat)
      requires i < |rows| && |entries| <= BATCH_BOUND - 1
      requires Observing(rows[..i], at, closed, previous, entries, truncated)
      modifies this
      ensures |entries| <= BATCH_BOUND - 1 && peak <= BATCH_BOUND
      ensures Observing(rows[..i + 1], at, closed, previous', entries, truncated')
      ensures var k := RowKey(rows[i]);
        entries == Fitted(old(entries)[k := Observe(rows[i], Saved(previous, old(entries), k), at)])
    {
      hide Observing, Batched, Inserted, RowKey, Observe, Saved, Observed, Trimmed;
      var key := RowKey(rows[i]);
      var current := Observe(rows[i], Saved(previous, entries, key), at);
      ghost var before := entries;
      truncated', peak := Insert(key, current, truncated, Observed(rows[..i], closed, at));
      ObservedRowJoins(rows, i, at, closed, previous, key, current, before, truncated, entries, truncated');
      previous' := previous - {key};
    }

    /** The first loop, over all rows of the snapshot. */
    method ObserveRows(rows: seq<Row>, at: Reading, closed: History)
      returns (previous: History, truncated: bool, ghost peak: nat)
      requires entries == map[]
      modifies this
      ensures |entries| <= BATCH_BOUND - 1 && peak <= BATCH_BOUND
      ensures Observing(rows, at, closed, previous, entries, truncated)
      ensures previous == closed - Keys(rows) && entries == Streamed(rows, closed, at)
    {
      hide Observing, Streamed, Fitted, Observe, Saved, RowKey, Keys;
      previous, truncated, peak := closed, false, 0;
      NothingObserved(closed, at);
      var i := 0;
      assert rows[..0] == [];
      NothingStreamed(closed, at);
      while i < |rows|
        invariant i <= |rows| && |entries| <= BATCH_BOUND - 1 && peak <= BATCH_BOUND
        invariant Observing(rows[..i], at, closed, previous, entries, truncated)
        invariant entries == Streamed(rows[..i], closed, at)
      {
        ghost var size;
        StreamedNext(rows, i, closed, at);
        UnseenSoFar(rows[..i], at, closed, previous, entries, truncated);
        previous, truncated, size := ObserveRow(rows, i, at, closed, previous, truncated);
        peak := if size > peak then size else peak;
        i := i + 1;
      }
      assert rows[..i] == rows;
      UnseenSoFar(rows, at, closed, previous, entries, truncated);
    }

    /** The second loop: the old rows that were not seen come back as closed, in any order. */
    method MergeUnseen(unseen: History, truncated: bool, ghost all: History)
      returns (truncated': bool, ghost peak: nat)
      requires |entries| <= BATCH_BOUND - 1 && all.Keys !! unseen.Keys && entries.Keys !! unseen.Keys && NoneObserved(unseen)
      modifies this
      ensures |entries| <= BATCH_BOUND - 1 && peak <= BATCH_BOUND
      ensures Rejoining(old(entries), truncated, all, unseen, entries, truncated')
      ensures Sufficient(old(entries) + unseen, entries)
    {
      hide Rejoining, Batched, Inserted, Pending, Sufficient, Fitted;
      truncated', peak := truncated, 0;
      var rest := unseen;
      ghost var before, done: History := entries, map[];
      NothingRejoined(before, truncated, all, unseen);
      NothingIsSufficient(before);
      while rest != map[]
        invariant Pending(unseen, done, rest)
        invariant |entries| <= BATCH_BOUND - 1 && peak <= BATCH_BOUND
        invariant Rejoining(before, truncated, all, done, entries, truncated')
        invariant Sufficient(before + done, entries)
        decreases |rest|
      {
        var k :| k in rest;
        OneLessPending(unseen, done, rest, k);
        assert !rest[k].observed by { PendingUnobserved(unseen, done, rest, k); }
        ghost var e, t, size := entries, truncated', 0;
        RejoinedIsSufficient(before, done, k, rest[k], e);
        truncated', size := Insert(k, rest[k], truncated', all + done);
        UnseenRowRejoins(before, truncated, all, done, k, rest[k], e, t, entries, truncated');
        peak := if size > peak then size else peak;
        done := done[k := rest[k]];
        rest := rest - {k};
      }
      NothingPending(unseen, done);
    }

    /** Both loops and the last trim. */
    method MergeSnapshot(rows: seq<Row>, at: Reading) returns (truncated: bool, ghost peak: nat)
      modifies this
      ensures |entries| <= MAXIMUM_ENTRIES && peak <= BATCH_BOUND
      ensures Merges(rows, at, old(entries), entries, truncated)
    {
      hide Observing, Rejoining, Merges, AllClosed, Trimmed, Observed, OmitsObserved, Streamed, After, Sufficient, Keys;
      ghost var history := entries;
      var closed := AllClosed(entries);
      entries := map[];
      var previous;
      previous, truncated, peak := ObserveRows(rows, at, closed);
      ghost var e, t, size := entries, truncated, 0;
      SeenAndUnseen(rows, at, closed, previous, e, t);
      ClosedAreUnobserved(history);
      truncated, size := MergeUnseen(previous, truncated, Observed(rows, closed, at));
      peak := if size > peak then size else peak;
      ghost var e', t' := entries, truncated;
      var omitted := Trim();
      truncated := truncated || omitted;
      TrimmedIsBounded(e');
      assert entries == After(rows, history, at) by { AfterTheLoops(rows, at, history, previous, e, e'); }
      FinishedMerge(rows, at, history, previous, e, t, e', t', entries, omitted);
    }

    /** Merges one kernel snapshot into the table. `readable` is the stream's state on entry and
        `completed` says whether it ended at end of file. */
    method Update(rows: seq<Row>, readable: bool, completed: bool, at: Reading)
      returns (observation: Observation, ghost peak: nat)
      modifies this
      ensures observation.snapshotAt == at.timestamp
      ensures !readable ==> entries == old(entries) && !observation.available && !observation.truncated
      ensures readable ==> observation.available == completed
      ensures readable ==> |entries| <= MAXIMUM_ENTRIES && peak <= BATCH_BOUND
      ensures readable ==> entries == After(rows, old(entries), at)
      ensures readable && Traceable(rows) ==>
        && entries == Trimmed(Merged(rows, old(entries), at))
        && (observation.truncated <==> OmitsObserved(Merged(rows, old(entries), at), entries))
      ensures readable ==> (observation.truncated <==> Misses(Keys(rows), entries))
      ensures readable ==> Reported(Keys(rows), AllClosed(old(entries)), entries, observation.truncated)
      ensures readable && AllAged(old(entries), at.timestamp) && 0 < at.timestamp ==> AllAged(entries, at.timestamp)
    {
      hide Reported, AllAged, Traceable, AllClosed, Trimmed, Merged, OmitsObserved, After;
      observation, peak := Observation(false, at.timestamp, false), 0;
      if !readable { return; }
      var truncated;
      truncated, peak := MergeSnapshot(rows, at);
      observation := Observation(completed, at.timestamp, truncated);
    }
  }
}
