/** The covers closure of the catalogue: bundled presets that a `covers` list names and the list of
    presets lacks are appended, round by round, until none is left. */
module CatalogCovers {
  import opened Basics
  import opened CatalogPresets
  import OrderedKeys

  /** Ids in one array: every string, the empty one included. */
  function Names(items: seq<Json>): set<string> {
    set i | 0 <= i < |items| && items[i].Text? :: items[i].text
  }

  function Children(preset: Json): set<string> {
    if preset.Object? then Names(Items(Value(preset.fields, Covers))) else {}
  }

  function AllChildren(presets: seq<Json>): set<string> {
    set i, c | 0 <= i < |presets| && c in Children(presets[i]) :: c
  }

  function Missing(presets: seq<Json>): set<string> {
    set c | c in AllChildren(presets) && !Found(presets, c)
  }

  /** The bundled presets with these ids, in this order; ids the bundle lacks are passed over. */
  function Bundled(ids: seq<string>, bundle: seq<Json>): (r: seq<Json>) {
    if ids == [] then []
    else
      var last := ids[|ids| - 1];
      Bundled(ids[..|ids| - 1], bundle) + (if Found(bundle, last) then [bundle[Find(bundle, last)]] else [])
  }

  ghost function Round(presets: seq<Json>, bundle: seq<Json>): seq<Json> {
    Bundled(OrderedKeys.Sorted(Missing(presets)), bundle)
  }

  /** Ids of the bundle. */
  function Ids(bundle: seq<Json>): set<string> {
    set i | 0 <= i < |bundle| && bundle[i].Object? && Id in bundle[i].fields && bundle[i].fields[Id].Text? ::
      bundle[i].fields[Id].text
  }

  /** Bundled ids that no preset has yet. */
  function Absent(presets: seq<Json>, bundle: seq<Json>): set<string> {
    set id | id in Ids(bundle) && !Found(presets, id)
  }

  /** Repeats rounds until one appends nothing. */
  ghost function Closure(presets: seq<Json>, bundle: seq<Json>): (r: seq<Json>)
    ensures presets <= r
    decreases |Absent(presets, bundle)|
  {
    var added := Round(presets, bundle);
    if added == [] then presets
    else
      RoundMakesProgress(presets, bundle);
      Closure(presets + added, bundle)
  }

  lemma FoundMeansId(bundle: seq<Json>, id: string)
    ensures Found(bundle, id) <==> id in Ids(bundle)
    ensures Found(bundle, id) <==> exists i :: 0 <= i < |bundle| && HasId(bundle[i], id)
  {
  }

  lemma FindAppend(presets: seq<Json>, more: seq<Json>, id: string)
    ensures Found(presets, id) ==> Find(presets + more, id) == Find(presets, id)
    ensures Found(presets + more, id) <==> Found(presets, id) || Found(more, id)
    ensures !Found(presets, id) && Found(more, id) ==> Find(presets + more, id) == |presets| + Find(more, id)
  {
    var all := presets + more;
    assert forall i :: 0 <= i < |presets| ==> all[i] == presets[i];
    assert forall i :: 0 <= i < |more| ==> all[|presets| + i] == more[i];
    assert Found(more, id) ==> HasId(all[|presets| + Find(more, id)], id);
  }

  lemma {:induction false} BundledIds(ids: seq<string>, bundle: seq<Json>, id: string)
    ensures Found(Bundled(ids, bundle), id) <==> id in ids && Found(bundle, id)
  {
    if ids != [] {
      var n := |ids| - 1;
      var last := ids[n];
      BundledIds(ids[..n], bundle, id);
      var tail := if Found(bundle, last) then [bundle[Find(bundle, last)]] else [];
      FindAppend(Bundled(ids[..n], bundle), tail, id);
      assert ids == ids[..n] + [last];
      assert Found(tail, id) <==> id == last && Found(bundle, id);
    } else {
      assert !Found([], id);
    }
  }

  /** A round appends exactly the missing ids the bundle can supply. */
  lemma RoundIds(presets: seq<Json>, bundle: seq<Json>, id: string)
    ensures Found(Round(presets, bundle), id) <==> id in Missing(presets) && Found(bundle, id)
  {
    BundledIds(OrderedKeys.Sorted(Missing(presets)), bundle, id);
  }

  /** `list[k]` is the bundle's preset of this id, and the first in the list with it. */
  predicate IsFirst(list: seq<Json>, k: nat, bundle: seq<Json>, id: string) {
    k < |list| && Found(bundle, id) && list[k] == bundle[Find(bundle, id)] && Find(list, id) == k
  }

  lemma IsFirstAppend(list: seq<Json>, more: seq<Json>, k: nat, bundle: seq<Json>, id: string)
    requires IsFirst(list, k, bundle, id)
    ensures IsFirst(list + more, k, bundle, id)
  {
    FindAppend(list, more, id);
  }

  lemma {:induction false} BundledMembers(ids: seq<string>, bundle: seq<Json>, k: nat)
    requires k < |Bundled(ids, bundle)| && forall i, j :: 0 <= i < j < |ids| ==> ids[i] != ids[j]
    ensures exists id :: id in ids && IsFirst(Bundled(ids, bundle), k, bundle, id)
  {
    hide Find, IsFirst;
    var n := |ids| - 1;
    var front, last := Bundled(ids[..n], bundle), ids[n];
    var tail := if Found(bundle, last) then [bundle[Find(bundle, last)]] else [];
    if k < |front| {
      BundledMembers(ids[..n], bundle, k);
      var id :| id in ids[..n] && IsFirst(front, k, bundle, id);
      IsFirstAppend(front, tail, k, bundle, id);
      assert id in ids;
    } else {
      LastIsFirst(ids, bundle);
      assert last in ids;
    }
  }

  lemma LastIsFirst(ids: seq<string>, bundle: seq<Json>)
    requires ids != [] && Found(bundle, ids[|ids| - 1]) && forall i, j :: 0 <= i < j < |ids| ==> ids[i] != ids[j]
    ensures IsFirst(Bundled(ids, bundle), |Bundled(ids, bundle)| - 1, bundle, ids[|ids| - 1])
  {
    var n := |ids| - 1;
    var front, last := Bundled(ids[..n], bundle), ids[n];
    BundledIds(ids[..n], bundle, last);
    assert last !in ids[..n];
    FindAppend(front, [bundle[Find(bundle, last)]], last);
  }

  lemma RoundMembers(presets: seq<Json>, bundle: seq<Json>, k: nat)
    requires k < |Round(presets, bundle)|
    ensures exists id :: id in Missing(presets) && IsFirst(Round(presets, bundle), k, bundle, id)
  {
    hide Find, Bundled, IsFirst, Missing;
    var ids := OrderedKeys.Sorted(Missing(presets));
    forall i, j | 0 <= i < j < |ids| ensures ids[i] != ids[j] { OrderedKeys.Text.LessIsTotal(ids[i], ids[j]); }
    BundledMembers(ids, bundle, k);
  }

  /** The bundled ids still absent strictly decrease, so the loop ends. */
  lemma RoundMakesProgress(presets: seq<Json>, bundle: seq<Json>)
    requires Round(presets, bundle) != []
    ensures Absent(presets + Round(presets, bundle), bundle) < Absent(presets, bundle)
    ensures |Absent(presets + Round(presets, bundle), bundle)| < |Absent(presets, bundle)|
  {
    hide Bundled, Missing, Find;
    var added := Round(presets, bundle);
    RoundMembers(presets, bundle, 0);
    var id :| id in Missing(presets) && IsFirst(added, 0, bundle, id);
    FoundMeansId(bundle, id);
    RoundIds(presets, bundle, id);
    FindAppend(presets, added, id);
    forall x ensures Found(presets, x) ==> Found(presets + added, x) { FindAppend(presets, added, x); }
    assert id in Absent(presets, bundle) by { MissingIsNotFound(presets, id); }
    assert id !in Absent(presets + added, bundle);
    CardinalityIsMonotone(Absent(presets + added, bundle), Absent(presets, bundle));
  }

  lemma MissingIsNotFound(presets: seq<Json>, id: string)
    requires id in Missing(presets)
    ensures !Found(presets, id) && id in AllChildren(presets)
  {
  }

  // ----- what the closure is -----

  /** No `covers` list names a preset that is absent although the bundle has it. */
  predicate ClosedUnderCovers(presets: seq<Json>, bundle: seq<Json>) {
    forall c :: c in AllChildren(presets) ==> Found(presets, c) || !Found(bundle, c)
  }

  /** A set of ids that holds every bundled id the presets cover but lack, and with each of its
      members also what the bundled preset of that id covers. */
  ghost predicate CoversAllNeeds(ids: set<string>, presets: seq<Json>, bundle: seq<Json>) {
    && (forall c :: c in AllChildren(presets) && !Found(presets, c) && Found(bundle, c) ==> c in ids)
    && (forall x, c ::
          (x in ids && Found(bundle, x) && c in Children(bundle[Find(bundle, x)]) && !Found(presets, c) && Found(bundle, c)
           ==> c in ids))
  }

  lemma ChildrenAppend(presets: seq<Json>, more: seq<Json>)
    ensures AllChildren(presets + more) == AllChildren(presets) + AllChildren(more)
  {
    var all := presets + more;
    forall c ensures c in AllChildren(all) <==> c in AllChildren(presets) + AllChildren(more) {
      assert forall i :: 0 <= i < |presets| ==> all[i] == presets[i];
      assert forall i :: 0 <= i < |more| ==> all[|presets| + i] == more[i];
      assert forall i :: |presets| <= i < |all| ==> all[i] == more[i - |presets|];
    }
  }

  /** The result is closed. */
  lemma {:induction false} ClosureCloses(presets: seq<Json>, bundle: seq<Json>)
    ensures ClosedUnderCovers(Closure(presets, bundle), bundle)
    decreases |Absent(presets, bundle)|
  {
    hide Bundled, Find, Missing, AllChildren;
    var added := Round(presets, bundle);
    if added == [] {
      forall c | c in AllChildren(presets) ensures Found(presets, c) || !Found(bundle, c) {
        RoundIds(presets, bundle, c);
        MissingExactlyWhen(presets, c);
        NothingFoundInNothing(added, c);
      }
    } else {
      RoundMakesProgress(presets, bundle);
      ClosureCloses(presets + added, bundle);
    }
  }

  lemma MissingExactlyWhen(presets: seq<Json>, c: string)
    ensures c in Missing(presets) <==> c in AllChildren(presets) && !Found(presets, c)
  {
  }

  lemma NothingFoundInNothing(presets: seq<Json>, c: string)
    requires presets == []
    ensures !Found(presets, c)
  {
  }

  /** A list that is closed already is returned as it is. */
  lemma ClosedIsKept(presets: seq<Json>, bundle: seq<Json>)
    requires ClosedUnderCovers(presets, bundle)
    ensures Closure(presets, bundle) == presets
  {
    hide Find;
    var ids := OrderedKeys.Sorted(Missing(presets));
    forall id | id in ids ensures !Found(bundle, id) { assert id in Missing(presets); }
    NothingBundled(ids, bundle);
  }

  lemma {:induction false} NothingBundled(ids: seq<string>, bundle: seq<Json>)
    requires forall id :: id in ids ==> !Found(bundle, id)
    ensures Bundled(ids, bundle) == []
  {
    if ids != [] {
      NothingBundled(ids[..|ids| - 1], bundle);
      assert ids[|ids| - 1] in ids;
    }
  }

  /** Whatever is appended is the bundle's own preset of an id that every closed choice must hold: the
      closure adds the least set of bundled presets, and each of their ids only if it was absent. */
  lemma {:induction false} ClosureIsLeast(presets: seq<Json>, bundle: seq<Json>, ids: set<string>, k: nat)
    requires CoversAllNeeds(ids, presets, bundle)
    requires |presets| <= k < |Closure(presets, bundle)|
    ensures exists id :: id in ids && !Found(presets, id) && IsFirst(Closure(presets, bundle), k, bundle, id)
    decreases |Absent(presets, bundle)|
  {
    hide Bundled, Find, Missing, AllChildren, CoversAllNeeds, Round;
    var added := Round(presets, bundle);
    RoundMakesProgress(presets, bundle);
    var next := presets + added;
    ClosureCloses(next, bundle);
    var result := Closure(presets, bundle);
    assert result == next + result[|next|..];
    if k < |next| {
      RoundMembers(presets, bundle, k - |presets|);
      var id :| id in Missing(presets) && IsFirst(added, k - |presets|, bundle, id);
      MissingExactlyWhen(presets, id);
      RoundIds(presets, bundle, id);
      NeededIsHeld(ids, presets, bundle, id);
      IsFirstPrepend(presets, added, k - |presets|, bundle, id);
      IsFirstAppend(next, result[|next|..], k, bundle, id);
    } else {
      NeedsAfterRound(ids, presets, bundle);
      ClosureIsLeast(next, bundle, ids, k);
      var id :| id in ids && !Found(next, id) && IsFirst(result, k, bundle, id);
      FindAppend(presets, added, id);
    }
  }

  lemma IsFirstPrepend(presets: seq<Json>, list: seq<Json>, k: nat, bundle: seq<Json>, id: string)
    requires IsFirst(list, k, bundle, id) && !Found(presets, id)
    ensures IsFirst(presets + list, |presets| + k, bundle, id)
  {
    FindAppend(presets, list, id);
  }

  lemma NeededIsHeld(ids: set<string>, presets: seq<Json>, bundle: seq<Json>, c: string)
    requires CoversAllNeeds(ids, presets, bundle) && c in AllChildren(presets) && !Found(presets, c) && Found(bundle, c)
    ensures c in ids
  {
  }

  lemma NeedsAfterRound(ids: set<string>, presets: seq<Json>, bundle: seq<Json>)
    requires CoversAllNeeds(ids, presets, bundle)
    ensures CoversAllNeeds(ids, presets + Round(presets, bundle), bundle)
  {
    hide Bundled, Find, Missing, AllChildren, Children;
    var added := Round(presets, bundle);
    var next := presets + added;
    ChildrenAppend(presets, added);
    forall c ensures !Found(next, c) ==> !Found(presets, c) { FindAppend(presets, added, c); }
    forall c | c in AllChildren(next) && !Found(next, c) && Found(bundle, c) ensures c in ids {
      if c in AllChildren(added) {
        var x := AddedParent(presets, bundle, c);
        NeededIsHeld(ids, presets, bundle, x);
      }
    }
  }

  lemma AddedParent(presets: seq<Json>, bundle: seq<Json>, c: string) returns (x: string)
    requires c in AllChildren(Round(presets, bundle))
    ensures x in AllChildren(presets) && !Found(presets, x) && Found(bundle, x) && c in Children(bundle[Find(bundle, x)])
  {
    hide Bundled, Find, Children, Round;
    var added := Round(presets, bundle);
    var i :| 0 <= i < |added| && c in Children(added[i]);
    RoundMembers(presets, bundle, i);
    x :| x in Missing(presets) && IsFirst(added, i, bundle, x);
  }

  /** The ids that are appended are themselves such a choice, so the least one exists and is taken. */
  lemma AppendedCoverAllNeeds(presets: seq<Json>, bundle: seq<Json>)
    ensures CoversAllNeeds(Ids(Closure(presets, bundle)[|presets|..]), presets, bundle)
  {
    hide Find, Closure, AllChildren, Children, IsFirst;
    ClosureCloses(presets, bundle);
    var result := Closure(presets, bundle);
    var added := result[|presets|..];
    assert result == presets + added;
    ChildrenAppend(presets, added);
    forall c ensures Found(result, c) && !Found(presets, c) ==> c in Ids(added) {
      FindAppend(presets, added, c);
      FoundMeansId(added, c);
    }
    forall x, c | x in Ids(added) && Found(bundle, x) && c in Children(bundle[Find(bundle, x)]) && !Found(presets, c) && Found(bundle, c)
      ensures c in Ids(added)
    {
      FoundMeansId(added, x);
      BundledParentIsAppended(presets, bundle, x);
      ChildIsThere(added, Find(added, x), c);
    }
  }

  lemma ChildIsThere(list: seq<Json>, k: nat, c: string)
    requires k < |list| && c in Children(list[k])
    ensures c in AllChildren(list)
  {
  }

  lemma BundledParentIsAppended(presets: seq<Json>, bundle: seq<Json>, x: string)
    requires Found(Closure(presets, bundle)[|presets|..], x)
    ensures var added := Closure(presets, bundle)[|presets|..];
      Found(bundle, x) && added[Find(added, x)] == bundle[Find(bundle, x)]
  {
    hide Closure, AllChildren, Children;
    var added := Closure(presets, bundle)[|presets|..];
    var k := Find(added, x);
    EverythingIsEnough(presets, bundle);
    ClosureIsLeast(presets, bundle, Ids(bundle), |presets| + k);
    var id :| id in Ids(bundle) && !Found(presets, id) && IsFirst(Closure(presets, bundle), |presets| + k, bundle, id);
    assert HasId(added[k], x) && HasId(added[k], id);
  }

  lemma EverythingIsEnough(presets: seq<Json>, bundle: seq<Json>)
    ensures CoversAllNeeds(Ids(bundle), presets, bundle)
  {
    hide AllChildren, Children;
    forall c ensures Found(bundle, c) ==> c in Ids(bundle) { FoundMeansId(bundle, c); }
  }

  // ----- the loops -----

  /** Appends the bundled presets the `covers` lists miss, until nothing is appended. */
  method AppendMissingCoveredPresets(presets: seq<Json>, bundle: seq<Json>) returns (r: seq<Json>)
    ensures r == Closure(presets, bundle)
  {
    hide Find, Missing, Bundled;
    r := presets;
    var appended := true;
    while appended
      invariant Closure(r, bundle) == Closure(presets, bundle)
      invariant !appended ==> Round(r, bundle) == []
      decreases |Absent(r, bundle)|, appended
    {
      var ids := CollectMissing(r);
      var added := LookUp(ids, bundle);
      appended := added != [];
      if appended {
        RoundMakesProgress(r, bundle);
        r := r + added;
      }
    }
  }

  method CollectMissing(presets: seq<Json>) returns (ids: seq<string>)
    ensures ids == OrderedKeys.Sorted(Missing(presets))
  {
    hide Find;
    ids := [];
    var i := 0;
    while i < |presets|
      invariant 0 <= i <= |presets|
      invariant OrderedKeys.Ascending(ids)
      invariant forall c :: c in ids <==> c in AllChildren(presets[..i]) && !Found(presets, c)
    {
      assert presets[..i + 1] == presets[..i] + [presets[i]];
      ChildrenAppend(presets[..i], [presets[i]]);
      ids := CollectMissingOf(presets, presets[i], ids);
      assert AllChildren([presets[i]]) == Children(presets[i]) by { ChildrenOfOne(presets[i]); }
      i := i + 1;
    }
    assert presets[..i] == presets;
    OrderedKeys.AscendingIsUnique(ids, OrderedKeys.Sorted(Missing(presets)), Missing(presets));
  }

  lemma ChildrenOfOne(preset: Json)
    ensures AllChildren([preset]) == Children(preset)
  {
    forall c ensures c in AllChildren([preset]) <==> c in Children(preset) {
      assert [preset][0] == preset;
    }
  }

  method CollectMissingOf(presets: seq<Json>, preset: Json, ids0: seq<string>) returns (ids: seq<string>)
    requires OrderedKeys.Ascending(ids0)
    ensures OrderedKeys.Ascending(ids)
    ensures forall c :: c in ids <==> c in ids0 || (c in Children(preset) && !Found(presets, c))
  {
    hide Find;
    ids := ids0;
    if !preset.Object? || Covers !in preset.fields || !preset.fields[Covers].Array? {
      return;
    }
    var covers := preset.fields[Covers].items;
    var j := 0;
    while j < |covers|
      invariant 0 <= j <= |covers|
      invariant OrderedKeys.Ascending(ids)
      invariant forall c :: c in ids <==> c in ids0 || (c in Names(covers[..j]) && !Found(presets, c))
    {
      NamesNext(covers, j);
      if covers[j].Text? {
        var at := FindPreset(presets, covers[j].text);
        if at == |presets| {
          ids := OrderedKeys.Insert(ids, covers[j].text);
        }
      }
      j := j + 1;
    }
    assert covers[..j] == covers;
  }

  lemma NamesNext(items: seq<Json>, j: nat)
    requires j < |items|
    ensures Names(items[..j + 1]) == Names(items[..j]) + (if items[j].Text? then {items[j].text} else {})
  {
    var a, b := items[..j], items[..j + 1];
    assert forall i :: 0 <= i < j ==> a[i] == b[i];
    assert b[j] == items[j];
  }

  method LookUp(ids: seq<string>, bundle: seq<Json>) returns (added: seq<Json>)
    ensures added == Bundled(ids, bundle)
  {
    added := [];
    var i := 0;
    while i < |ids|
      invariant 0 <= i <= |ids| && added == Bundled(ids[..i], bundle)
    {
      assert ids[..i + 1][..i] == ids[..i];
      var at := FindPreset(bundle, ids[i]);
      if at < |bundle| { added := added + [bundle[at]]; }
      i := i + 1;
    }
    assert ids[..i] == ids;
  }
}
