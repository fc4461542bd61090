/** Cursor paging over frozen lists of connection ids. */
module ConnectionPages {
  import opened Basics
  import Text
  import opened NewestStamps

  datatype Result<+T> = Ok(value: T) | Err(status: nat)

  const SNAPSHOT_TTL: int := 60
  const MAXIMUM_SNAPSHOTS: nat := 8
  const MAXIMUM_OFFSET: nat := 0x1_0000_0000_0000_0000

  datatype Snapshot = Snapshot(ids: seq<string>, snapshotAt: nat, createdAt: int)

  datatype Page = Page(total: nat, snapshotAt: nat, items: seq<string>, nextCursor: Option<string>)

  // ---- Cursors ----

  /** The text inside a cursor. */
  function Encode(id: string, offset: nat): string {
    id + "|" + Text.Decimal(offset)
  }

  predicate IsSpace(c: char) {
    c == ' ' || 0x09 <= c as nat <= 0x0d
  }

  function SkipSpace(s: string): string {
    if s != "" && IsSpace(s[0]) then SkipSpace(s[1..]) else s
  }

  /** `std::stoull` of a whole string: leading space and a sign are accepted, a minus wraps around,
      and a value of 2^64 or more is an error. */
  function ParseOffset(s: string): (r: Option<nat>)
    ensures r.Some? ==> r.value < MAXIMUM_OFFSET
  {
    var t := SkipSpace(s);
    var signed := t != "" && (t[0] == '+' || t[0] == '-');
    var digits := if signed then t[1..] else t;
    if digits == "" || !Text.AllDigits(digits) then None
    else
      var v := Text.NumericValue(digits);
      if v >= MAXIMUM_OFFSET then None
      else Some(if signed && t[0] == '-' && v > 0 then MAXIMUM_OFFSET - v else v)
  }

  /** Position of the first separator; the length when there is none. */
  function FindBar(s: string): (i: nat)
    ensures i <= |s| && '|' !in s[..i] && (i < |s| ==> s[i] == '|')
  {
    if s == "" || s[0] == '|' then 0
    else
      var i := 1 + FindBar(s[1..]);
      assert s[..i] == [s[0]] + s[1..][..i - 1];
      i
  }

  function Decode(s: string): Option<(string, nat)> {
    var bar := FindBar(s);
    if bar == |s| || bar == 0 || bar + 1 >= |s| then None
    else match ParseOffset(s[bar + 1..])
      case None => None
      case Some(offset) => Some((s[..bar], offset))
  }

  lemma FirstBar(a: string, b: string)
    requires '|' !in a
    ensures FindBar(a + "|" + b) == |a|
  {
    var s := a + "|" + b;
    assert s[|a|] == '|' && forall j :: 0 <= j < |a| ==> s[j] == a[j] != '|';
    var i := FindBar(s);
    assert forall j :: 0 <= j < i ==> s[j] in s[..i];
  }

  lemma DigitsParse(offset: nat)
    requires offset < MAXIMUM_OFFSET
    ensures ParseOffset(Text.Decimal(offset)) == Some(offset)
  {
    var d := Text.Decimal(offset);
    assert Text.IsDigit(d[0]);
    Text.DecimalDenotes(offset);
  }

  /** Cursors round-trip for every snapshot id without a separator. */
  lemma CursorRoundTrip(id: string, offset: nat)
    requires id != "" && '|' !in id && offset < MAXIMUM_OFFSET
    ensures Decode(Encode(id, offset)) == Some((id, offset))
  {
    var s := Encode(id, offset);
    FirstBar(id, Text.Decimal(offset));
    assert s[|id| + 1..] == Text.Decimal(offset) && s[..|id|] == id;
    DigitsParse(offset);
  }

  // ---- Pages ----

  function PageEnd(snapshot: Snapshot, offset: nat, limit: nat): nat {
    Min(|snapshot.ids|, offset + limit)
  }

  /** The ids that are still in the history, in their order. */
  function Present(ids: seq<string>, history: set<string>): seq<string> {
    if ids == [] then []
    else (if ids[0] in history then [ids[0]] else []) + Present(ids[1..], history)
  }

  /** Filtering goes id by id, so order and repetitions are those of the list. */
  lemma {:induction false} PresentSplits(a: seq<string>, b: seq<string>, history: set<string>)
    ensures Present(a + b, history) == Present(a, history) + Present(b, history)
    decreases |a|
  {
    if a == [] {
      assert a + b == b;
    } else {
      PresentSplits(a[1..], b, history);
      assert (a + b)[1..] == a[1..] + b;
    }
  }

  /** Nothing but ids of the list that are in the history, and all of those. */
  lemma {:induction false} PresentMembers(ids: seq<string>, history: set<string>, x: string)
    ensures x in Present(ids, history) <==> x in ids && x in history
  {
    if ids != [] {
      PresentMembers(ids[1..], history, x);
      assert ids == [ids[0]] + ids[1..];
    }
  }

  predicate AllPresent(ids: seq<string>, history: set<string>) { forall x :: x in ids ==> x in history }

  lemma {:induction false} AllPresentStay(ids: seq<string>, history: set<string>)
    requires AllPresent(ids, history)
    ensures Present(ids, history) == ids
  {
    if ids != [] {
      assert AllPresent(ids[1..], history);
      AllPresentStay(ids[1..], history);
      assert ids[0] in ids;
    }
  }

  lemma RangeIsPresent(ids: seq<string>, lo: nat, hi: nat, history: set<string>)
    requires lo <= hi <= |ids| && AllPresent(ids, history)
    ensures Present(ids[lo..hi], history) == ids[lo..hi]
  {
    assert AllPresent(ids[lo..hi], history);
    AllPresentStay(ids[lo..hi], history);
  }

  /** One page of a frozen snapshot; ids that have left the history are skipped. */
  function PageOf(snapshot: Snapshot, id: string, offset: nat, limit: nat, history: set<string>): Result<Page> {
    if offset > |snapshot.ids| then Err(400)
    else
      var end := PageEnd(snapshot, offset, limit);
      Ok(Page(|snapshot.ids|, snapshot.snapshotAt, Present(snapshot.ids[offset..end], history),
              if end < |snapshot.ids| then Some(Encode(id, end)) else None))
  }

  /** A client that follows `nextCursor`: the items of the pages it receives, one limit and one
      history per request, and whether it reached a page without a cursor. */
  ghost function Follow(snapshot: Snapshot, id: string, offset: nat, limits: seq<nat>, histories: seq<set<string>>)
    : (seq<seq<string>>, bool)
    requires |limits| == |histories|
    decreases |limits|
  {
    if limits == [] then ([], false)
    else match PageOf(snapshot, id, offset, limits[0], histories[0])
      case Err(_) => ([], false)
      case Ok(page) =>
        match page.nextCursor
        case None => ([page.items], true)
        case Some(cursor) =>
          match Decode(cursor)
          case None => ([page.items], false)
          case Some((next, from)) =>
            if next != id then ([page.items], false)
            else
              var (pages, ended) := Follow(snapshot, id, from, limits[1..], histories[1..]);
              ([page.items] + pages, ended)
  }

  function Concat(pages: seq<seq<string>>): seq<string> {
    if pages == [] then [] else pages[0] + Concat(pages[1..])
  }

  predicate ValidLimits(limits: seq<nat>) {
    forall i :: 0 <= i < |limits| ==> 1 <= limits[i] <= 250
  }

  /** Where the k-th page after `offset` starts. */
  function StartOf(snapshot: Snapshot, offset: nat, limits: seq<nat>, k: nat): nat
    requires k <= |limits|
    decreases k
  {
    if k == 0 then offset else StartOf(snapshot, PageEnd(snapshot, offset, limits[0]), limits[1..], k - 1)
  }

  /** The k-th page stands for as many ids as were asked for, or for all that are left, and shows exactly those that
      were in the history it was served from. */
  ghost predicate ShowsRange(snapshot: Snapshot, offset: nat, limits: seq<nat>, histories: seq<set<string>>, k: nat, items: seq<string>) {
    && k < |limits| && k < |histories|
    && var lo, hi := StartOf(snapshot, offset, limits, k), StartOf(snapshot, offset, limits, k + 1);
       lo <= hi <= |snapshot.ids| && (hi - lo == limits[k] || (hi == |snapshot.ids| && hi - lo < limits[k])) && items == Present(snapshot.ids[lo..hi], histories[k])
  }

  /** With any limits, following the cursors ends within one request per id. The pages show consecutive
      ranges that start at the offset and end with the frozen list, each filtered by its own history. */
  lemma {:induction false} FollowingCoversTheSnapshot(
    snapshot: Snapshot, id: string, offset: nat, limits: seq<nat>, histories: seq<set<string>>)
    requires |limits| == |histories| && ValidLimits(limits)
    requires id != "" && '|' !in id && |snapshot.ids| < MAXIMUM_OFFSET
    requires offset <= |snapshot.ids|
    requires |limits| > 0 && |limits| >= |snapshot.ids| - offset
    ensures var (pages, ended) := Follow(snapshot, id, offset, limits, histories);
      && ended && |pages| <= |limits| && StartOf(snapshot, offset, limits, |pages|) == |snapshot.ids|
      && forall k :: 0 <= k < |pages| ==> ShowsRange(snapshot, offset, limits, histories, k, pages[k])
    decreases |limits|
  {
    hide Decode, Encode, Present;
    var end := PageEnd(snapshot, offset, limits[0]);
    var first := Present(snapshot.ids[offset..end], histories[0]);
    assert StartOf(snapshot, offset, limits, 1) == end;
    assert ShowsRange(snapshot, offset, limits, histories, 0, first);
    if end < |snapshot.ids| {
      CursorRoundTrip(id, end);
      assert ValidLimits(limits[1..]);
      FollowingCoversTheSnapshot(snapshot, id, end, limits[1..], histories[1..]);
      var pages := Follow(snapshot, id, end, limits[1..], histories[1..]).0;
      forall k | 0 <= k < |pages| ensures ShowsRange(snapshot, offset, limits, histories, k + 1, pages[k]) {
        assert ShowsRange(snapshot, end, limits[1..], histories[1..], k, pages[k]);
      }
    }
  }

  /** If no id leaves the history meanwhile, the items of the pages put together are the frozen list from
      the offset on: every id once, in order. */
  lemma {:induction false} NothingGoneNothingMissing(
    snapshot: Snapshot, id: string, offset: nat, limits: seq<nat>, histories: seq<set<string>>)
    requires |limits| == |histories| && ValidLimits(limits)
    requires id != "" && '|' !in id && |snapshot.ids| < MAXIMUM_OFFSET
    requires offset <= |snapshot.ids|
    requires |limits| > 0 && |limits| >= |snapshot.ids| - offset
    requires forall k :: 0 <= k < |histories| ==> AllPresent(snapshot.ids, histories[k])
    ensures Concat(Follow(snapshot, id, offset, limits, histories).0) == snapshot.ids[offset..]
    decreases |limits|
  {
    hide Decode, Encode, Present, AllPresent;
    var end := PageEnd(snapshot, offset, limits[0]);
    var range := snapshot.ids[offset..end];
    RangeIsPresent(snapshot.ids, offset, end, histories[0]);
    if end == |snapshot.ids| {
      assert Concat([range]) == range + Concat([]);
    } else {
      CursorRoundTrip(id, end);
      assert ValidLimits(limits[1..]);
      NothingGoneNothingMissing(snapshot, id, end, limits[1..], histories[1..]);
      var pages := Follow(snapshot, id, end, limits[1..], histories[1..]).0;
      assert ([range] + pages)[1..] == pages;
      assert snapshot.ids[offset..] == range + snapshot.ids[end..];
    }
  }

  // ---- Requests ----

  /** A cursor arrives as base64 text: of some text, or of none. */
  datatype Cursor = FirstPageCursor | Coded(text: string) | Garbled(length: nat)

  datatype Request = Request(
    cursor: Cursor, search: Option<string>, state: Option<string>, route: Option<string>, device: Option<string>,
    limit: Option<int>)

  /** Length of the base64 text of n bytes. */
  function CodedLength(n: nat): nat { (n + 2) / 3 * 4 }

  predicate Fits(text: Option<string>, maximum: nat) { text.None? || |text.value| <= maximum }

  predicate ValidRequest(q: Request) {
    && (q.cursor.Coded? ==> CodedLength(|q.cursor.text|) <= 256)
    && (q.cursor.Garbled? ==> q.cursor.length <= 256)
    && Fits(q.search, 128) && Fits(q.state, 32) && Fits(q.route, 64) && Fits(q.device, 128)
    && (q.limit.Some? ==> 1 <= q.limit.value <= 250)
  }

  function LimitOf(q: Request): nat
    requires ValidRequest(q)
  {
    if q.limit.Some? then q.limit.value else 100
  }

  lemma {:induction false} DecimalLength(n: nat, k: nat)
    requires k > 0 && n < Power10(k)
    ensures |Text.Decimal(n)| <= k
  {
    if n >= 10 { DecimalLength(n / 10, k - 1); }
  }

  /** Every cursor the store gives out is short enough to be accepted again. */
  lemma CursorsFit(at: nat, counter: nat, offset: nat)
    requires at < MAXIMUM_OFFSET && counter < MAXIMUM_OFFSET && offset < MAXIMUM_OFFSET
    ensures CodedLength(|Encode(SnapshotId(at, counter), offset)|) <= 256
  {
    assert MAXIMUM_OFFSET <= Power10(20) by { TwentyDigits(); }
    hide Power10, Text.Decimal;
    DecimalLength(at, 20);
    DecimalLength(counter, 20);
    DecimalLength(offset, 20);
  }

  lemma TwentyDigits()
    ensures Power10(20) == 1_0000_0000_0000_0000_0000
  {
    assert Power10(2) == 100;
    assert Power10(4) == 10000;
    assert Power10(6) == 1000000;
    assert Power10(8) == 100000000;
    assert Power10(10) == 10000000000;
    assert Power10(12) == 1000000000000;
    assert Power10(14) == 100000000000000;
    assert Power10(16) == 10000000000000000;
    assert Power10(18) == 1000000000000000000;
    assert Power10(20) == 100000000000000000000;
  }

  // ---- The store of frozen snapshots ----

  /** `<seconds>-<counter>`. */
  function SnapshotId(at: nat, counter: nat): string {
    Text.Decimal(at) + "-" + Text.Decimal(counter)
  }

  lemma SnapshotIdShape(at: nat, counter: nat)
    ensures SnapshotId(at, counter) != "" && '|' !in SnapshotId(at, counter)
  {
    var a, b := Text.Decimal(at), Text.Decimal(counter);
    forall i | 0 <= i < |SnapshotId(at, counter)| ensures SnapshotId(at, counter)[i] != '|' {
      if i < |a| { assert Text.IsDigit(a[i]); }
      if i > |a| { assert Text.IsDigit(b[i - |a| - 1]); }
    }
  }

  /** The counter alone keeps ids apart. */
  lemma SnapshotIdsDiffer(at: nat, m: nat, at': nat, n: nat)
    requires SnapshotId(at, m) == SnapshotId(at', n)
    ensures m == n
  {
    var a, b, c, d := Text.Decimal(at), Text.Decimal(m), Text.Decimal(at'), Text.Decimal(n);
    var s := a + "-" + b;
    assert s == c + "-" + d;
    assert s[|a|] == '-' && forall j :: 0 <= j < |a| ==> s[j] == a[j] && Text.IsDigit(a[j]);
    assert s[|c|] == '-' && forall j :: 0 <= j < |c| ==> s[j] == c[j] && Text.IsDigit(c[j]);
    assert b == s[|a| + 1..] && d == s[|c| + 1..];
    Text.DecimalIsInjective(m, n);
  }

  function Live(snapshots: map<string, Snapshot>, clock: int): map<string, Snapshot> {
    map id | id in snapshots && clock - snapshots[id].createdAt < SNAPSHOT_TTL :: snapshots[id]
  }

  function Stamps(snapshots: map<string, Snapshot>): set<Stamp> {
    set id | id in snapshots :: Stamp(snapshots[id].createdAt, id)
  }

  ghost predicate Minted(id: string, counter: nat) {
    exists at: nat, n: nat :: n <= counter && id == SnapshotId(at, n)
  }

  /** `kept` is `before` without its oldest snapshots, so that one more fits. */
  ghost predicate MakesRoom(before: map<string, Snapshot>, kept: map<string, Snapshot>) {
    && (forall id :: id in kept ==> id in before && kept[id] == before[id])
    && (forall id, gone :: id in kept && gone in before && gone !in kept ==>
          Older(Stamp(before[gone].createdAt, gone), Stamp(before[id].createdAt, id)))
    && |kept| == Min(|before|, MAXIMUM_SNAPSHOTS - 1)
  }

  class QueryStore {
    var snapshots: map<string, Snapshot>
    var nextId: nat

    ghost predicate Valid()
      reads this
    {
      |snapshots| <= MAXIMUM_SNAPSHOTS && forall id :: id in snapshots ==> Minted(id, nextId)
    }

    constructor ()
      ensures Valid() && snapshots == map[] && nextId == 0
    {
      snapshots, nextId := map[], 0;
    }

    method Purge(clock: int)
      requires Valid()
      modifies this`snapshots
      ensures Valid() && snapshots == Live(old(snapshots), clock)
    {
      hide Minted;
      var rest := snapshots.Keys;
      while rest != {}
        invariant rest <= snapshots.Keys <= old(snapshots).Keys
        invariant forall id :: id in snapshots ==> snapshots[id] == old(snapshots)[id]
        invariant forall id :: id in old(snapshots) && id !in rest ==>
          (id in snapshots <==> clock - old(snapshots)[id].createdAt < SNAPSHOT_TTL)
        decreases |rest|
      {
        var id :| id in rest;
        if clock - snapshots[id].createdAt >= SNAPSHOT_TTL {
          snapshots := snapshots - {id};
        }
        rest := rest - {id};
      }
      CardinalityIsMonotone(snapshots.Keys, old(snapshots).Keys);
    }

    method EvictOldest()
      requires Valid()
      modifies this`snapshots
      ensures Valid() && MakesRoom(old(snapshots), snapshots)
    {
      hide Minted, Older;
      while |snapshots| >= MAXIMUM_SNAPSHOTS
        invariant |snapshots| == |old(snapshots)| || |snapshots| == MAXIMUM_SNAPSHOTS - 1 < |old(snapshots)|
        invariant forall id :: id in snapshots ==> id in old(snapshots) && snapshots[id] == old(snapshots)[id]
        invariant forall id, gone :: id in snapshots && gone in old(snapshots) && gone !in snapshots ==>
          Older(Stamp(old(snapshots)[gone].createdAt, gone), Stamp(old(snapshots)[id].createdAt, id))
        invariant forall id :: id in snapshots ==> Minted(id, nextId)
        decreases |snapshots|
      {
        var stamps := Stamps(snapshots);
        ghost var some :| some in snapshots;
        assert Stamp(snapshots[some].createdAt, some) in stamps;
        var oldest := Oldest(stamps);
        assert snapshots.Keys == (snapshots - {oldest.key}).Keys + {oldest.key};
        forall id | id in snapshots && id != oldest.key
          ensures Older(oldest, Stamp(snapshots[id].createdAt, id))
        {
          assert Stamp(snapshots[id].createdAt, id) in stamps;
        }
        snapshots := snapshots - {oldest.key};
      }
    }

    method Query(c: Call) returns (r: Result<Page>)
      requires Valid()
      modifies this
      ensures Valid()
      ensures Answered(old(Store(snapshots, nextId)), c, Store(snapshots, nextId), r)
    {
      hide Minted, MakesRoom, SnapshotId, Continuation, Live, Present, ValidRequest;
      if !ValidRequest(c.request) { return Err(400); }
      var count := LimitOf(c.request);
      assert 1 <= count <= 250 by { LimitIsValid(c.request); }
      Purge(c.clock);
      if !c.request.cursor.FirstPageCursor? {
        return Continuation(snapshots, c.request.cursor, count, c.history);
      }
      ghost var live := snapshots;
      var snapshot := Snapshot(c.ids, c.at, c.clock);
      nextId := nextId + 1;
      var id := SnapshotId(c.at, nextId);
      assert forall s :: s in snapshots ==> Minted(s, nextId) by { MintedGrows(snapshots.Keys, nextId - 1); }
      assert id !in snapshots by { NewIdIsFresh(snapshots.Keys, c.at, nextId); }
      if |c.ids| > count {
        EvictOldest();
        StoreOne(live, snapshots, id, snapshot);
        NewIdIsMinted(c.at, nextId);
        snapshots := snapshots[id := snapshot];
      }
      r := PageOf(snapshot, id, 0, count, c.history);
    }
  }

  lemma LimitIsValid(q: Request)
    requires ValidRequest(q)
    ensures 1 <= LimitOf(q) <= 250
  {
  }

  datatype Store = Store(snapshots: map<string, Snapshot>, nextId: nat)

  /** One query with what it finds: `ids` is the filtered, sorted list a first-page request freezes, `at`
      and `clock` are the wall and steady clock readings, `history` is the set of ids still in the
      history. */
  datatype Call = Call(request: Request, ids: seq<string>, at: nat, clock: int, history: set<string>)

  /** A query's answer and what it leaves of the store. */
  ghost predicate Answered(before: Store, c: Call, after: Store, r: Result<Page>) {
    if !ValidRequest(c.request) then r == Err(400) && after == before
    else
      var live, limit := Live(before.snapshots, c.clock), LimitOf(c.request);
      if c.request.cursor.FirstPageCursor? then
        && after.nextId == before.nextId + 1
        && FirstPage(live, after.snapshots, SnapshotId(c.at, after.nextId), Snapshot(c.ids, c.at, c.clock), limit, c.history, r)
      else
        && after == before.(snapshots := live)
        && r == Continuation(live, c.request.cursor, limit, c.history)
  }

  /** The answer to a cursor: an unreadable cursor is 400, an unknown or expired snapshot is 409. */
  function Continuation(snapshots: map<string, Snapshot>, cursor: Cursor, limit: nat, history: set<string>): Result<Page>
    requires !cursor.FirstPageCursor?
  {
    if cursor.Garbled? then Err(400)
    else match Decode(cursor.text)
      case None => Err(400)
      case Some((id, offset)) =>
        if id in snapshots then PageOf(snapshots[id], id, offset, limit, history) else Err(409)
  }

  /** A first page: the snapshot is stored exactly when the page carries a cursor, under an id no
      stored snapshot had, and no snapshot that stays is changed. */
  ghost predicate FirstPage(live: map<string, Snapshot>, after: map<string, Snapshot>, id: string, snapshot: Snapshot,
                            limit: nat, history: set<string>, r: Result<Page>) {
    && r == PageOf(snapshot, id, 0, limit, history)
    && id !in live
    && r.Ok?
    && (r.value.nextCursor.None? ==> after == live)
    && (r.value.nextCursor.Some? ==> id in after && after[id] == snapshot && MakesRoom(live, after - {id}))
  }

  lemma StoreOne(live: map<string, Snapshot>, kept: map<string, Snapshot>, id: string, snapshot: Snapshot)
    requires MakesRoom(live, kept) && id !in live
    ensures MakesRoom(live, kept[id := snapshot] - {id})
    ensures |kept[id := snapshot]| <= MAXIMUM_SNAPSHOTS
  {
    assert kept[id := snapshot] - {id} == kept;
    assert kept[id := snapshot].Keys == kept.Keys + {id};
  }

  lemma NewIdIsMinted(at: nat, counter: nat)
    ensures Minted(SnapshotId(at, counter), counter)
  {
  }

  lemma MintedGrows(ids: set<string>, counter: nat)
    requires forall id :: id in ids ==> Minted(id, counter)
    ensures forall id :: id in ids ==> Minted(id, counter + 1)
  {
    forall id | id in ids ensures Minted(id, counter + 1) {
      var at: nat, n: nat :| n <= counter && id == SnapshotId(at, n);
    }
  }

  lemma NewIdIsFresh(ids: set<string>, at: nat, counter: nat)
    requires counter > 0 && forall id :: id in ids ==> Minted(id, counter - 1)
    ensures SnapshotId(at, counter) !in ids
  {
    if SnapshotId(at, counter) in ids {
      var at': nat, n: nat :| n <= counter - 1 && SnapshotId(at, counter) == SnapshotId(at', n);
      SnapshotIdsDiffer(at, counter, at', n);
    }
  }

  // ---- Clients among other clients ----

  /** A run of the store: any calls of any clients, one after the other. */
  ghost predicate Served(stores: seq<Store>, calls: seq<Call>, answers: seq<Result<Page>>) {
    && |stores| == |calls| + 1 && |answers| == |calls|
    && (forall id :: id in stores[0].snapshots ==> Minted(id, stores[0].nextId))
    && forall i :: 0 <= i < |calls| ==> Answered(stores[i], calls[i], stores[i + 1], answers[i])
  }

  lemma AnswerKeepsMinted(before: Store, c: Call, after: Store, r: Result<Page>)
    requires Answered(before, c, after, r) && forall id :: id in before.snapshots ==> Minted(id, before.nextId)
    ensures forall id :: id in after.snapshots ==> Minted(id, after.nextId)
    ensures before.nextId <= after.nextId
    ensures forall id :: id in before.snapshots && id in after.snapshots ==> after.snapshots[id] == before.snapshots[id]
    ensures forall id :: id in after.snapshots && Minted(id, before.nextId) ==> id in before.snapshots
  {
    hide Minted, SnapshotId, Answered;
    AnswerOnlyAdds(before, c, after, r);
    if after.nextId > before.nextId {
      MintedGrows(before.snapshots.Keys, before.nextId);
      NewIdIsMinted(c.at, after.nextId);
      NewIdIsUnissued(c.at, after.nextId);
    }
  }

  /** A stored snapshot was stored before with the same value, or carries the id just issued. */
  lemma AnswerOnlyAdds(before: Store, c: Call, after: Store, r: Result<Page>)
    requires Answered(before, c, after, r)
    ensures after.nextId == before.nextId || after.nextId == before.nextId + 1
    ensures forall id :: id in after.snapshots ==>
      || (id in before.snapshots && after.snapshots[id] == before.snapshots[id])
      || (after.nextId > before.nextId && id == SnapshotId(c.at, after.nextId) && id !in Live(before.snapshots, c.clock))
  {
    hide SnapshotId, PageOf, Continuation, ValidRequest;
    if ValidRequest(c.request) && c.request.cursor.FirstPageCursor? {
      var issued := SnapshotId(c.at, after.nextId);
      forall id | id in after.snapshots && id != issued ensures id in Live(before.snapshots, c.clock) {
        assert r.value.nextCursor.Some? ==> id in after.snapshots - {issued};
      }
      assert r.value.nextCursor.Some? ==> forall id :: id in after.snapshots - {issued} ==> after.snapshots[id] == before.snapshots[id];
    }
  }

  lemma NewIdIsUnissued(at: nat, counter: nat)
    requires counter > 0
    ensures !Minted(SnapshotId(at, counter), counter - 1)
  {
    if Minted(SnapshotId(at, counter), counter - 1) {
      var at': nat, n: nat :| n <= counter - 1 && SnapshotId(at, counter) == SnapshotId(at', n);
      SnapshotIdsDiffer(at, counter, at', n);
    }
  }

  lemma {:induction false} EveryStoreIsMinted(stores: seq<Store>, calls: seq<Call>, answers: seq<Result<Page>>, i: nat)
    requires Served(stores, calls, answers) && i < |stores|
    ensures forall id :: id in stores[i].snapshots ==> Minted(id, stores[i].nextId)
    decreases i
  {
    hide Answered, Minted;
    if i > 0 {
      EveryStoreIsMinted(stores, calls, answers, i - 1);
      assert Answered(stores[i - 1], calls[i - 1], stores[i], answers[i - 1]);
      AnswerKeepsMinted(stores[i - 1], calls[i - 1], stores[i], answers[i - 1]);
    }
  }

  /** In any interleaving a stored snapshot never changes, and one that is gone never comes back. */
  lemma {:induction false} StoredSnapshotsAreFrozen(stores: seq<Store>, calls: seq<Call>, answers: seq<Result<Page>>,
                                                    i: nat, j: nat, id: string)
    requires Served(stores, calls, answers) && i <= j < |stores|
    requires Minted(id, stores[i].nextId) && id in stores[j].snapshots
    ensures Minted(id, stores[j].nextId)
    ensures id in stores[i].snapshots && stores[i].snapshots[id] == stores[j].snapshots[id]
    decreases j - i
  {
    hide Answered, Minted;
    if i < j {
      EveryStoreIsMinted(stores, calls, answers, i);
      assert Answered(stores[i], calls[i], stores[i + 1], answers[i]);
      AnswerKeepsMinted(stores[i], calls[i], stores[i + 1], answers[i]);
      MintedLater(id, stores[i].nextId, stores[i + 1].nextId);
      StoredSnapshotsAreFrozen(stores, calls, answers, i + 1, j, id);
    }
  }

  lemma MintedLater(id: string, counter: nat, later: nat)
    requires Minted(id, counter) && counter <= later
    ensures Minted(id, later)
  {
    var at: nat, n: nat :| n <= counter && id == SnapshotId(at, n);
  }

  /** A first page that carries a cursor, and any later request with a cursor of that snapshot: whatever
      other clients did in between, the answer is a page of the list frozen at first, or 409 if the
      snapshot is no longer stored. */
  lemma LaterPagesAreOfTheFrozenList(stores: seq<Store>, calls: seq<Call>, answers: seq<Result<Page>>, i: nat, j: nat, offset: nat)
    requires Served(stores, calls, answers) && i < j < |calls|
    requires calls[i].request.cursor.FirstPageCursor? && answers[i].Ok? && answers[i].value.nextCursor.Some?
    requires offset < MAXIMUM_OFFSET && ValidRequest(calls[j].request)
    requires calls[j].request.cursor == Coded(Encode(SnapshotId(calls[i].at, stores[i + 1].nextId), offset))
    ensures var id := SnapshotId(calls[i].at, stores[i + 1].nextId);
      answers[j] ==
        if id in stores[j + 1].snapshots
        then PageOf(Snapshot(calls[i].ids, calls[i].at, calls[i].clock), id, offset, LimitOf(calls[j].request), calls[j].history)
        else Err(409)
  {
    var id := SnapshotId(calls[i].at, stores[i + 1].nextId);
    assert Answered(stores[i], calls[i], stores[i + 1], answers[i]);
    assert Answered(stores[j], calls[j], stores[j + 1], answers[j]);
    hide Minted, SnapshotId, Encode, Decode, PageOf, ValidRequest, MakesRoom;
    NewIdIsMinted(calls[i].at, stores[i + 1].nextId);
    SnapshotIdShape(calls[i].at, stores[i + 1].nextId);
    CursorRoundTrip(id, offset);
    if id in stores[j + 1].snapshots {
      StoredSnapshotsAreFrozen(stores, calls, answers, i + 1, j + 1, id);
    }
  }

  /** What a client sees: from a stored first page on, the cursors it is given are accepted and lead to
      the end of the frozen list; if no id leaves the history, the first page and the later ones together
      are that list. */
  lemma CursorsOfAStoredSnapshot(live: map<string, Snapshot>, after: map<string, Snapshot>, at: nat, counter: nat,
                                 snapshot: Snapshot, limit: nat, history: set<string>, r: Result<Page>,
                                 limits: seq<nat>, histories: seq<set<string>>)
    requires FirstPage(live, after, SnapshotId(at, counter), snapshot, limit, history, r) && 1 <= limit <= 250
    requires r.value.nextCursor.Some? && |snapshot.ids| < MAXIMUM_OFFSET
    requires at < MAXIMUM_OFFSET && counter < MAXIMUM_OFFSET
    requires |limits| == |histories| == |snapshot.ids| && ValidLimits(limits)
    ensures var id := SnapshotId(at, counter);
      && limit < |snapshot.ids| && id in after && after[id] == snapshot
      && Decode(r.value.nextCursor.value) == Some((id, limit))
      && CodedLength(|r.value.nextCursor.value|) <= 256
      && Follow(snapshot, id, limit, limits, histories).1
      && (AllPresent(snapshot.ids, history) && (forall k :: 0 <= k < |histories| ==> AllPresent(snapshot.ids, histories[k])) ==>
            r.value.items + Concat(Follow(snapshot, id, limit, limits, histories).0) == snapshot.ids)
  {
    hide SnapshotId, Decode, Encode, Follow, Concat, ValidLimits, AllPresent, Present, MakesRoom, CodedLength;
    var id := SnapshotId(at, counter);
    assert limit < |snapshot.ids| && r.value.nextCursor.value == Encode(id, limit);
    SnapshotIdShape(at, counter);
    CursorRoundTrip(id, limit);
    CursorsFit(at, counter, limit);
    FollowingCoversTheSnapshot(snapshot, id, limit, limits, histories);
    if AllPresent(snapshot.ids, history) && forall k :: 0 <= k < |histories| ==> AllPresent(snapshot.ids, histories[k]) {
      RangeIsPresent(snapshot.ids, 0, limit, history);
      NothingGoneNothingMissing(snapshot, id, limit, limits, histories);
      assert snapshot.ids == snapshot.ids[0..limit] + snapshot.ids[limit..];
    }
  }

  /** One client's calls in a run, by their numbers: a first page, then each time the cursor it was just
      given. Its other parameters are valid and may differ from call to call. */
  ghost predicate Follows(calls: seq<Call>, answers: seq<Result<Page>>, visits: seq<nat>) {
    && |answers| == |calls| && |visits| > 0
    && (forall k :: 0 <= k < |visits| ==> visits[k] < |calls| && ValidOtherwise(calls[visits[k]].request))
    && calls[visits[0]].request.cursor.FirstPageCursor?
    && forall k :: 0 <= k < |visits| - 1 ==> GoesOn(calls, answers, visits[k], visits[k + 1])
  }

  predicate ValidOtherwise(q: Request) { ValidRequest(q.(cursor := FirstPageCursor)) }

  ghost predicate GoesOn(calls: seq<Call>, answers: seq<Result<Page>>, i: nat, j: nat)
    requires i < |calls| && j < |calls| == |answers|
  {
    && i < j && answers[i].Ok? && answers[i].value.nextCursor.Some?
    && calls[j].request.cursor == Coded(answers[i].value.nextCursor.value)
  }

  ghost function LimitsOf(calls: seq<Call>, answers: seq<Result<Page>>, visits: seq<nat>): (limits: seq<nat>)
    requires Follows(calls, answers, visits)
    ensures |limits| == |visits| && ValidLimits(limits)
  {
    seq(|visits|, k requires 0 <= k < |visits| => LimitOf(calls[visits[k]].request.(cursor := FirstPageCursor)))
  }

  ghost function HistoriesOf(calls: seq<Call>, answers: seq<Result<Page>>, visits: seq<nat>): (histories: seq<set<string>>)
    requires Follows(calls, answers, visits)
    ensures |histories| == |visits|
  {
    seq(|visits|, k requires 0 <= k < |visits| => calls[visits[k]].history)
  }

  /** The items of the client's pages; a refused call brings none. */
  ghost function ItemsOf(calls: seq<Call>, answers: seq<Result<Page>>, visits: seq<nat>): (items: seq<seq<string>>)
    requires Follows(calls, answers, visits)
    ensures |items| == |visits|
  {
    seq(|visits|, k requires 0 <= k < |visits| => if answers[visits[k]].Ok? then answers[visits[k]].value.items else [])
  }

  /** The list the client's first call freezes. */
  function Frozen(c: Call): Snapshot { Snapshot(c.ids, c.at, c.clock) }

  /** Where the next page starts. */
  lemma {:induction false} StartsWhereThePageEnds(snapshot: Snapshot, offset: nat, limits: seq<nat>, k: nat)
    requires k < |limits|
    ensures StartOf(snapshot, offset, limits, k + 1) == PageEnd(snapshot, StartOf(snapshot, offset, limits, k), limits[k])
    decreases k
  {
    if k > 0 { StartsWhereThePageEnds(snapshot, PageEnd(snapshot, offset, limits[0]), limits[1..], k - 1); }
  }

  /** The k-th call of a client is answered with the k-th page of the frozen list, or with 409 when the
      snapshot is gone. */
  ghost predicate AnsweredInTurn(stores: seq<Store>, calls: seq<Call>, answers: seq<Result<Page>>, visits: seq<nat>, k: nat)
    requires Served(stores, calls, answers) && Follows(calls, answers, visits) && k < |visits|
  {
    var first, j := visits[0], visits[k];
    var frozen, limits := Frozen(calls[first]), LimitsOf(calls, answers, visits);
    var id, start := SnapshotId(calls[first].at, stores[first + 1].nextId), StartOf(frozen, 0, limits, k);
    && k <= start <= |frozen.ids| && (k > 0 ==> start < |frozen.ids|)
    && answers[j] ==
         if k == 0 || id in stores[j + 1].snapshots then PageOf(frozen, id, start, limits[k], calls[j].history) else Err(409)
  }

  lemma FirstIsAnswered(stores: seq<Store>, calls: seq<Call>, answers: seq<Result<Page>>, visits: seq<nat>)
    requires Served(stores, calls, answers) && Follows(calls, answers, visits)
    ensures AnsweredInTurn(stores, calls, answers, visits, 0)
  {
    hide SnapshotId, PageOf, MakesRoom, Minted;
    var first := visits[0];
    assert Answered(stores[first], calls[first], stores[first + 1], answers[first]);
    var q := calls[first].request;
    assert q.(cursor := FirstPageCursor) == q;
  }

  lemma {:induction false} EachIsAnswered(stores: seq<Store>, calls: seq<Call>, answers: seq<Result<Page>>, visits: seq<nat>, k: nat)
    requires Served(stores, calls, answers) && Follows(calls, answers, visits) && k < |visits|
    requires |calls[visits[0]].ids| < MAXIMUM_OFFSET
    requires calls[visits[0]].at < MAXIMUM_OFFSET && stores[visits[0] + 1].nextId < MAXIMUM_OFFSET
    ensures AnsweredInTurn(stores, calls, answers, visits, k)
    ensures k > 0 ==> visits[0] < visits[k]
    decreases k
  {
    hide Served, AnsweredInTurn;
    if k == 0 {
      FirstIsAnswered(stores, calls, answers, visits);
    } else {
      EachIsAnswered(stores, calls, answers, visits, k - 1);
      assert GoesOn(calls, answers, visits[k - 1], visits[k]);
      assert GoesOn(calls, answers, visits[0], visits[1]);
      NextIsAnswered(stores, calls, answers, visits, k);
    }
  }

  lemma NextIsAnswered(stores: seq<Store>, calls: seq<Call>, answers: seq<Result<Page>>, visits: seq<nat>, k: nat)
    requires Served(stores, calls, answers) && Follows(calls, answers, visits) && 0 < k < |visits|
    requires |calls[visits[0]].ids| < MAXIMUM_OFFSET
    requires calls[visits[0]].at < MAXIMUM_OFFSET && stores[visits[0] + 1].nextId < MAXIMUM_OFFSET
    requires visits[0] < visits[k] && GoesOn(calls, answers, visits[k - 1], visits[k])
    requires answers[visits[0]].Ok? && answers[visits[0]].value.nextCursor.Some?
    requires AnsweredInTurn(stores, calls, answers, visits, k - 1)
    ensures AnsweredInTurn(stores, calls, answers, visits, k)
  {
    assert |stores| == |calls| + 1;
    hide Served, SnapshotId, Encode, Present, StartOf, CodedLength;
    var first, j := visits[0], visits[k];
    var frozen, limits := Frozen(calls[first]), LimitsOf(calls, answers, visits);
    var id, start := SnapshotId(calls[first].at, stores[first + 1].nextId), StartOf(frozen, 0, limits, k);
    StartsWhereThePageEnds(frozen, 0, limits, k - 1);
    assert calls[j].request.cursor == Coded(Encode(id, start)) && start < |frozen.ids|;
    CursorsFit(calls[first].at, stores[first + 1].nextId, start);
    assert ValidOtherwise(calls[j].request);
    LaterPagesAreOfTheFrozenList(stores, calls, answers, first, j, start);
  }

  lemma {:induction false} ConcatAppends(pages: seq<seq<string>>, page: seq<string>)
    ensures Concat(pages + [page]) == Concat(pages) + page
  {
    if pages == [] {
      assert Concat([page]) == page + Concat([]);
    } else {
      assert (pages + [page])[1..] == pages[1..] + [page];
      ConcatAppends(pages[1..], page);
    }
  }

  /** Pages that show consecutive ranges of a list whose ids are all present put together its front. */
  lemma {:induction false} RangesMakeTheFront(snapshot: Snapshot, limits: seq<nat>, histories: seq<set<string>>, pages: seq<seq<string>>)
    requires |pages| <= |limits| == |histories|
    requires forall k :: 0 <= k < |pages| ==> ShowsRange(snapshot, 0, limits, histories, k, pages[k])
    requires forall k :: 0 <= k < |pages| ==> AllPresent(snapshot.ids, histories[k])
    ensures StartOf(snapshot, 0, limits, |pages|) <= |snapshot.ids|
    ensures Concat(pages) == snapshot.ids[..StartOf(snapshot, 0, limits, |pages|)]
    decreases |pages|
  {
    hide StartOf, AllPresent, Present;
    var n := |pages| - 1;
    if n < 0 {
      assert StartOf(snapshot, 0, limits, 0) == 0 by { StartsAtTheOffset(snapshot, 0, limits); }
    } else {
      assert ShowsRange(snapshot, 0, limits, histories, n, pages[n]);
      var lo, hi := StartOf(snapshot, 0, limits, n), StartOf(snapshot, 0, limits, n + 1);
      RangesMakeTheFront(snapshot, limits, histories, pages[..n]);
      RangeIsPresent(snapshot.ids, lo, hi, histories[n]);
      assert pages == pages[..n] + [pages[n]];
      ConcatAppends(pages[..n], pages[n]);
      assert snapshot.ids[..hi] == snapshot.ids[..lo] + snapshot.ids[lo..hi];
    }
  }

  lemma StartsAtTheOffset(snapshot: Snapshot, offset: nat, limits: seq<nat>)
    ensures StartOf(snapshot, offset, limits, 0) == offset
  {
  }

  /** What a client receives while others call as they please. Every page it gets shows the next range of
      the list frozen at its first call, as the history stands then; it needs at most one call per id; a
      call is refused only with 409, only when the snapshot is gone, and only as its last. If no id leaves
      the history and its last page has no cursor, it has received the frozen list, every id once and in
      order. */
  lemma ClientReceivesTheFrozenList(stores: seq<Store>, calls: seq<Call>, answers: seq<Result<Page>>, visits: seq<nat>)
    requires Served(stores, calls, answers) && Follows(calls, answers, visits)
    requires |calls[visits[0]].ids| < MAXIMUM_OFFSET
    requires calls[visits[0]].at < MAXIMUM_OFFSET && stores[visits[0] + 1].nextId < MAXIMUM_OFFSET
    ensures var first, last, n := visits[0], visits[|visits| - 1], |visits|;
      var frozen, limits, histories := Frozen(calls[first]), LimitsOf(calls, answers, visits), HistoriesOf(calls, answers, visits);
      var items := ItemsOf(calls, answers, visits);
      && n <= |frozen.ids| + 1 && (n > 1 ==> n <= |frozen.ids|)
      && (answers[last].Ok? || (answers[last] == Err(409) && n > 1 && SnapshotId(calls[first].at, stores[first + 1].nextId) !in stores[last + 1].snapshots))
      && (forall k :: 0 <= k < n && answers[visits[k]].Ok? ==>
            answers[visits[k]].value.total == |frozen.ids| && ShowsRange(frozen, 0, limits, histories, k, items[k]))
      && (answers[last].Ok? ==> (answers[last].value.nextCursor.None? <==> StartOf(frozen, 0, limits, n) == |frozen.ids|))
      && (answers[last].Ok? && answers[last].value.nextCursor.None? && (forall k :: 0 <= k < n ==> AllPresent(frozen.ids, histories[k])) ==>
            Concat(items) == frozen.ids)
  {
    hide Served, AnsweredInTurn, StartOf, AllPresent, ShowsRange, SnapshotId, Concat, PageOf;
    var first, last, n := visits[0], visits[|visits| - 1], |visits|;
    var frozen, limits, histories := Frozen(calls[first]), LimitsOf(calls, answers, visits), HistoriesOf(calls, answers, visits);
    var items := ItemsOf(calls, answers, visits);
    forall k | 0 <= k < n ensures AnsweredInTurn(stores, calls, answers, visits, k) { EachIsAnswered(stores, calls, answers, visits, k); }
    forall k | 0 <= k < n && answers[visits[k]].Ok? ensures PageShown(stores, calls, answers, visits, k) { PageIsShown(stores, calls, answers, visits, k); }
    LastIsAnswered(stores, calls, answers, visits);
    if answers[last].Ok? && forall k :: 0 <= k < n ==> AllPresent(frozen.ids, histories[k]) {
      forall k | 0 <= k < n ensures ShowsRange(frozen, 0, limits, histories, k, items[k]) {
        assert k < n - 1 ==> GoesOn(calls, answers, visits[k], visits[k + 1]);
        assert PageShown(stores, calls, answers, visits, k);
      }
      RangesMakeTheFront(frozen, limits, histories, items);
    }
  }

  ghost predicate PageShown(stores: seq<Store>, calls: seq<Call>, answers: seq<Result<Page>>, visits: seq<nat>, k: nat)
    requires Served(stores, calls, answers) && Follows(calls, answers, visits) && k < |visits| && answers[visits[k]].Ok?
  {
    var frozen, limits, histories := Frozen(calls[visits[0]]), LimitsOf(calls, answers, visits), HistoriesOf(calls, answers, visits);
    && answers[visits[k]].value.total == |frozen.ids|
    && ShowsRange(frozen, 0, limits, histories, k, ItemsOf(calls, answers, visits)[k])
    && (answers[visits[k]].value.nextCursor.None? <==> StartOf(frozen, 0, limits, k + 1) == |frozen.ids|)
  }

  lemma PageIsShown(stores: seq<Store>, calls: seq<Call>, answers: seq<Result<Page>>, visits: seq<nat>, k: nat)
    requires Served(stores, calls, answers) && Follows(calls, answers, visits) && k < |visits| && answers[visits[k]].Ok?
    requires AnsweredInTurn(stores, calls, answers, visits, k)
    ensures PageShown(stores, calls, answers, visits, k)
  {
    hide Served, StartOf, Present, Encode, SnapshotId;
    StartsWhereThePageEnds(Frozen(calls[visits[0]]), 0, LimitsOf(calls, answers, visits), k);
  }

  lemma LastIsAnswered(stores: seq<Store>, calls: seq<Call>, answers: seq<Result<Page>>, visits: seq<nat>)
    requires Served(stores, calls, answers) && Follows(calls, answers, visits)
    requires AnsweredInTurn(stores, calls, answers, visits, |visits| - 1)
    ensures var first, last, n := visits[0], visits[|visits| - 1], |visits|;
      && n <= |calls[first].ids| + 1 && (n > 1 ==> n <= |calls[first].ids|)
      && (answers[last].Ok? || (answers[last] == Err(409) && n > 1 && SnapshotId(calls[first].at, stores[first + 1].nextId) !in stores[last + 1].snapshots))
  {
    hide Served, StartOf, Present, Encode, SnapshotId;
  }
}
