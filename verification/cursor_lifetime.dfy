/** How long a cursor works: when the store still has the snapshot of a first page. */
module CursorLifetime {
  import opened Basics
  import opened NewestStamps
  import opened ConnectionPages

  function StampOf(id: string, s: Snapshot): Stamp { Stamp(s.createdAt, id) }

  /** The stored snapshots that are newer than x. */
  function Newer(snapshots: map<string, Snapshot>, x: Stamp): set<string> {
    set id | id in snapshots && Older(x, StampOf(id, snapshots[id]))
  }

  /** The call stores a snapshot: a first page that does not show everything. */
  predicate Stores(c: Call) {
    ValidRequest(c.request) && c.request.cursor.FirstPageCursor? && LimitOf(c.request) < |c.ids|
  }

  /** A call that leaves the snapshot x alone: it is not yet a minute old, and if another one is to be stored,
      at most six are newer than it. A request that is refused outright does nothing. */
  predicate Spares(c: Call, x: Stamp, newer: nat) {
    ValidRequest(c.request) ==> c.clock - x.lastSeen < SNAPSHOT_TTL && (Stores(c) ==> newer <= MAXIMUM_SNAPSHOTS - 2)
  }

  lemma LiveKeepsNewer(snapshots: map<string, Snapshot>, id: string, clock: int)
    requires id in snapshots && clock - snapshots[id].createdAt < SNAPSHOT_TTL
    ensures var live, x := Live(snapshots, clock), StampOf(id, snapshots[id]);
      id in live && live[id] == snapshots[id] && Newer(live, x) == Newer(snapshots, x)
  {
    var live, x := Live(snapshots, clock), StampOf(id, snapshots[id]);
    forall k | k in Newer(snapshots, x) ensures k in live { assert snapshots[k].createdAt >= x.lastSeen; }
  }

  lemma SparedWithTheNewer(live: map<string, Snapshot>, kept: map<string, Snapshot>, id: string)
    requires MakesRoom(live, kept) && id in kept
    ensures var x := StampOf(id, live[id]);
      Newer(kept, x) == Newer(live, x) && |Newer(live, x)| <= MAXIMUM_SNAPSHOTS - 2
  {
    var x := StampOf(id, live[id]);
    var newer := Newer(live, x);
    OlderIsTotal(x, x);
    hide Older;
    forall k | k in newer ensures k in kept { OlderIsTotal(x, StampOf(k, live[k])); }
    assert Newer(kept, x) == newer;
    assert |kept| == |kept.Keys|;
    CardinalityIsMonotone(newer + {id}, kept.Keys);
  }

  lemma EvictedBelowTheNewer(live: map<string, Snapshot>, kept: map<string, Snapshot>, id: string)
    requires MakesRoom(live, kept) && id in live && id !in kept
    ensures |Newer(live, StampOf(id, live[id]))| > MAXIMUM_SNAPSHOTS - 2
  {
    hide Older;
    var newer := Newer(live, StampOf(id, live[id]));
    assert |kept| == |kept.Keys| && |live| == |live.Keys|;
    assert kept.Keys <= newer;
    CardinalityIsMonotone(kept.Keys, newer);
    CardinalityIsMonotone(kept.Keys + {id}, live.Keys);
  }

  /** Making room spares a snapshot exactly when at most six are newer; then the newer ones stay as well. */
  lemma RoomSparesExactlyWhen(live: map<string, Snapshot>, kept: map<string, Snapshot>, id: string)
    requires MakesRoom(live, kept)
    ensures id in kept ==> id in live && kept[id] == live[id]
    ensures id in live ==>
      var x := StampOf(id, live[id]);
      && (id in kept <==> |Newer(live, x)| <= MAXIMUM_SNAPSHOTS - 2)
      && (id in kept ==> Newer(kept, x) == Newer(live, x))
  {
    hide Newer, Older;
    if id in kept {
      SparedWithTheNewer(live, kept, id);
    } else if id in live {
      EvictedBelowTheNewer(live, kept, id);
    }
  }

  /** The snapshot a call stores is newer than x. */
  ghost predicate StoresNewer(c: Call, after: Store, x: Stamp) {
    Stores(c) && Older(x, Stamp(c.clock, SnapshotId(c.at, after.nextId)))
  }

  lemma OneCall(before: Store, c: Call, after: Store, r: Result<Page>, id: string)
    requires Answered(before, c, after, r) && id in before.snapshots && Minted(id, before.nextId)
    ensures var x := StampOf(id, before.snapshots[id]);
      && (id in after.snapshots <==> Spares(c, x, |Newer(before.snapshots, x)|))
      && (id in after.snapshots ==> Carried(before, c, after, id, x))
  {
    hide Minted, SnapshotId, Present, Encode, Decode, MakesRoom, Newer, Older, ValidRequest;
    var x, live := StampOf(id, before.snapshots[id]), Live(before.snapshots, c.clock);
    if c.clock - x.lastSeen < SNAPSHOT_TTL { LiveKeepsNewer(before.snapshots, id, c.clock); }
    if Stores(c) {
      var own := SnapshotId(c.at, after.nextId);
      NewIdIsUnissued(c.at, after.nextId);
      assert own != id;
      RoomSparesExactlyWhen(live, after.snapshots - {own}, id);
      NewerWithOneMore(after.snapshots, own, x);
    }
  }

  ghost predicate Carried(before: Store, c: Call, after: Store, id: string, x: Stamp)
    requires id in before.snapshots && id in after.snapshots
  {
    && after.snapshots[id] == before.snapshots[id]
    && |Newer(after.snapshots, x)| == |Newer(before.snapshots, x)| + (if StoresNewer(c, after, x) then 1 else 0)
  }

  lemma NewerWithOneMore(snapshots: map<string, Snapshot>, id: string, x: Stamp)
    requires id in snapshots
    ensures |Newer(snapshots, x)| == |Newer(snapshots - {id}, x)| + (if Older(x, StampOf(id, snapshots[id])) then 1 else 0)
  {
    hide Older;
    var rest := Newer(snapshots - {id}, x);
    if Older(x, StampOf(id, snapshots[id])) {
      assert Newer(snapshots, x) == rest + {id};
    } else {
      assert Newer(snapshots, x) == rest;
    }
  }

  // ----- whole runs -----

  /** Snapshots newer than x before call k, when `count` of them were stored after call i: those and every newer one
      stored since. */
  ghost function NewerSince(stores: seq<Store>, calls: seq<Call>, x: Stamp, i: nat, k: nat, count: nat): nat
    requires i < k <= |calls| < |stores|
    decreases k
  {
    if k == i + 1 then count
    else NewerSince(stores, calls, x, i, k - 1, count) + (if StoresNewer(calls[k - 1], stores[k], x) then 1 else 0)
  }

  ghost predicate AllSpare(stores: seq<Store>, calls: seq<Call>, x: Stamp, i: nat, j: nat, count: nat)
    requires i < j <= |calls| < |stores|
  {
    forall k :: i < k < j ==> Spares(calls[k], x, NewerSince(stores, calls, x, i, k, count))
  }

  /** In any run of any clients' calls: the snapshot that call i stored is there before call j exactly when every call
      in between spared it. A cursor of it is answered exactly that long. */
  lemma {:induction false} StoredExactlyWhen(stores: seq<Store>, calls: seq<Call>, answers: seq<Result<Page>>, i: nat, j: nat)
    requires Served(stores, calls, answers) && i < j <= |calls| && Stores(calls[i])
    ensures var id := SnapshotId(calls[i].at, stores[i + 1].nextId);
      var x := Stamp(calls[i].clock, id);
      var count := |Newer(stores[i + 1].snapshots, x)|;
      && (id in stores[j].snapshots <==> AllSpare(stores, calls, x, i, j, count))
      && (id in stores[j].snapshots ==>
            stores[j].snapshots[id] == Frozen(calls[i]) && |Newer(stores[j].snapshots, x)| == NewerSince(stores, calls, x, i, j, count))
    decreases j
  {
    hide Answered, Minted, Newer, SnapshotId, Stores, Spares, StoresNewer;
    var id := SnapshotId(calls[i].at, stores[i + 1].nextId);
    var x := Stamp(calls[i].clock, id);
    var count := |Newer(stores[i + 1].snapshots, x)|;
    if j == i + 1 {
      assert Answered(stores[i], calls[i], stores[j], answers[i]);
      StoredAtFirst(stores[i], calls[i], stores[j], answers[i]);
    } else {
      StoredExactlyWhen(stores, calls, answers, i, j - 1);
      var before, c, after, r := stores[j - 1], calls[j - 1], stores[j], answers[j - 1];
      assert Answered(before, c, after, r);
      NewIdIsMinted(calls[i].at, stores[i + 1].nextId);
      CounterGrows(stores, calls, answers, i + 1, j - 1);
      MintedLater(id, stores[i + 1].nextId, before.nextId);
      EveryStoreIsMinted(stores, calls, answers, j - 1);
      AnswerKeepsMinted(before, c, after, r);
      if id in before.snapshots { OneCall(before, c, after, r, id); }
      assert AllSpare(stores, calls, x, i, j, count) <==>
        AllSpare(stores, calls, x, i, j - 1, count) && Spares(c, x, NewerSince(stores, calls, x, i, j - 1, count));
    }
  }

  lemma StoredAtFirst(before: Store, c: Call, after: Store, r: Result<Page>)
    requires Answered(before, c, after, r) && Stores(c)
    ensures var id := SnapshotId(c.at, after.nextId); id in after.snapshots && after.snapshots[id] == Frozen(c)
  {
    hide SnapshotId, Present, MakesRoom, ValidRequest;
  }

  lemma {:induction false} CounterGrows(stores: seq<Store>, calls: seq<Call>, answers: seq<Result<Page>>, i: nat, j: nat)
    requires Served(stores, calls, answers) && i <= j < |stores|
    ensures stores[i].nextId <= stores[j].nextId
    decreases j
  {
    hide Answered, Minted;
    if i < j {
      CounterGrows(stores, calls, answers, i, j - 1);
      EveryStoreIsMinted(stores, calls, answers, j - 1);
      assert Answered(stores[j - 1], calls[j - 1], stores[j], answers[j - 1]);
      AnswerKeepsMinted(stores[j - 1], calls[j - 1], stores[j], answers[j - 1]);
    }
  }

  /** What a client can rely on: for a minute, and until eight more snapshots are stored, its cursor is answered. */
  lemma CursorWorksForAMinute(stores: seq<Store>, calls: seq<Call>, answers: seq<Result<Page>>, i: nat, j: nat)
    requires Served(stores, calls, answers) && i < j <= |calls| && Stores(calls[i])
    requires forall k :: i < k < j && ValidRequest(calls[k].request) ==> calls[k].clock - calls[i].clock < SNAPSHOT_TTL
    requires Newer(stores[i + 1].snapshots, Stamp(calls[i].clock, SnapshotId(calls[i].at, stores[i + 1].nextId))) == {}
    requires StoredBetween(calls, i + 1, j) <= MAXIMUM_SNAPSHOTS - 1
    ensures SnapshotId(calls[i].at, stores[i + 1].nextId) in stores[j].snapshots
  {
    hide Answered, Minted, Newer, SnapshotId, Older, ValidRequest;
    var id := SnapshotId(calls[i].at, stores[i + 1].nextId);
    var x := Stamp(calls[i].clock, id);
    StoredExactlyWhen(stores, calls, answers, i, j);
    forall k | i < k < j ensures Spares(calls[k], x, NewerSince(stores, calls, x, i, k, 0)) {
      FewStored(stores, calls, x, i, k);
      StoredSplits(calls, i + 1, k, j);
    }
  }

  function StoredBetween(calls: seq<Call>, i: nat, j: nat): nat
    requires i <= j <= |calls|
    decreases j
  {
    if i == j then 0 else StoredBetween(calls, i, j - 1) + (if Stores(calls[j - 1]) then 1 else 0)
  }

  lemma {:induction false} FewStored(stores: seq<Store>, calls: seq<Call>, x: Stamp, i: nat, k: nat)
    requires i < k <= |calls| < |stores|
    ensures NewerSince(stores, calls, x, i, k, 0) <= StoredBetween(calls, i + 1, k)
    decreases k
  {
    hide Stores, Older, SnapshotId;
    if k > i + 1 { FewStored(stores, calls, x, i, k - 1); }
  }

  lemma {:induction false} StoredSplits(calls: seq<Call>, i: nat, k: nat, j: nat)
    requires i <= k < j <= |calls|
    ensures StoredBetween(calls, i, k) + (if Stores(calls[k]) then 1 else 0) <= StoredBetween(calls, i, j)
    decreases j
  {
    hide Stores;
    if k < j - 1 { StoredSplits(calls, i, k, j - 1); }
  }
}
