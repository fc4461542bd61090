/** The bundled overlay of the service catalogue: which edits a bundle stands for, how they change
    the upstream list, and what every run leaves behind. */
module CatalogOverlay {
  import opened Basics
  import opened CatalogPresets
  import opened CatalogCovers

  /** Keys an edit may write. */
  const EDITED_KEYS: set<Key> := OWNED_KEYS + {Engines, NoticeI18n, DomainSupplements}

  // ----- one preset -----

  lemma CarriedFields(fields: map<Key, Json>, own: map<Key, Json>, target: Json, bundled: Json)
    requires target == Object(CarryNotice(Carry(Carry(Carry(fields, own, Covers), own, Warnings), own, Hidden), own))
    requires bundled == Object(own)
    requires RoutingCompanions in own ==> RoutingCompanions in fields && fields[RoutingCompanions] == own[RoutingCompanions]
    ensures ShowsOwned(target, bundled)
    ensures SameBut(Object(fields), target, {Covers, Warnings, Hidden, Notice, NoticeI18n})
  {
  }

  lemma OverwritingShows(target: Json, bundled: Json)
    requires target.Object? && bundled.Object? && OverwriteOwned(target, bundled).Done?
    ensures var owned := OverwriteOwned(target, bundled).value;
      && owned.Object? && ShowsOwned(owned, bundled)
      && (if RoutingCompanions in bundled.fields then DnsSubnets(owned) == DnsSubnets(bundled)
          else DnsSubnets(owned) == DnsSubnets(target))
      && SameBut(target, owned, OWNED_KEYS + {Engines, NoticeI18n})
  {
    hide AlignDnsSubnets, CarryNotice, Carry;
    var own := bundled.fields;
    var base := target;
    if RoutingCompanions in own {
      var marked := Object(target.fields[RoutingCompanions := own[RoutingCompanions]]);
      AlignmentAligns(marked, bundled);
      base := AlignDnsSubnets(marked, bundled).value;
    }
    var owned := OverwriteOwned(target, bundled).value;
    CarriedFields(base.fields, own, owned, bundled);
    assert Engines in base.fields <==> Engines in owned.fields;
  }

  /** An edit establishes what it stands for and writes only the fields it may write. */
  lemma EditSettles(target: Json, e: Edit)
    requires target.Object? && ValidEdit(e) && Change(target, e).Done?
    ensures var changed := Change(target, e).value;
      changed.Object? && Settled(changed, e) && SameBut(target, changed, EDITED_KEYS)
  {
    hide AlignDnsSubnets, OverwriteOwned, MergeDomainSupplements, DnsSubnets, ShowsOwned;
    match e
    case Source(_, bundled) => AlignmentAligns(target, bundled);
    case Own(_, bundled) =>
      OverwritingShows(target, bundled);
      var owned := OverwriteOwned(target, bundled).value;
      MergingSettles(owned, bundled);
      SameOwnedKeepsShown(owned, Supplemented(owned, bundled), bundled);
  }

  lemma SameOwnedKeepsShown(target: Json, changed: Json, bundled: Json)
    requires target.Object? && changed.Object? && bundled.Object? && ShowsOwned(target, bundled)
    requires SameBut(target, changed, {Engines, DomainSupplements})
    ensures ShowsOwned(changed, bundled)
  {
  }

  lemma AdditionIsSettled(e: Edit)
    requires ValidEdit(e)
    ensures Settled(Addition(e), e) && HasId(Addition(e), e.id)
  {
    hide AlignDnsSubnets, MergeDomainSupplements, DnsSubnets;
    if e.Own? {
      MergingSettles(e.bundled, e.bundled);
      SameOwnedKeepsShown(e.bundled, Addition(e), e.bundled);
    }
  }

  /** An edit is the identity exactly on the presets that already show what it stands for. */
  lemma SettledExactlyWhenUnchanged(target: Json, e: Edit)
    requires target.Object? && ValidEdit(e)
    ensures Settled(target, e) <==> Change(target, e) == Done(target)
  {
    if Change(target, e) == Done(target) { EditSettles(target, e); }
    if Settled(target, e) { SettledIsUnchanged(target, e); }
  }

  lemma SettledIsUnchanged(target: Json, e: Edit)
    requires target.Object? && ValidEdit(e) && Settled(target, e)
    ensures Change(target, e) == Done(target)
  {
    hide AlignDnsSubnets, MergeDomainSupplements, DnsSubnets;
    AlignedExactlyWhenUnchanged(target, e.bundled);
    if e.Own? {
      var own := e.bundled.fields;
      if RoutingCompanions in own {
        assert target.fields[RoutingCompanions := own[RoutingCompanions]] == target.fields;
      }
      CarryingShownChangesNothing(target, e.bundled);
    }
  }

  lemma CarryingShownChangesNothing(target: Json, bundled: Json)
    requires target.Object? && bundled.Object? && ShowsOwned(target, bundled)
    ensures var own := bundled.fields;
      CarryNotice(Carry(Carry(Carry(target.fields, own, Covers), own, Warnings), own, Hidden), own) == target.fields
  {
    var own := bundled.fields;
    assert Carry(target.fields, own, Covers) == target.fields;
    assert Carry(target.fields, own, Warnings) == target.fields;
    assert Carry(target.fields, own, Hidden) == target.fields;
    assert CarryNotice(target.fields, own) == target.fields;
  }

  /** Two edits that stem from the same bundled preset do not undo each other. */
  lemma EditKeepsSettled(target: Json, e: Edit, f: Edit)
    requires target.Object? && ValidEdit(e) && ValidEdit(f) && e.bundled == f.bundled
    requires Settled(target, e) && Change(target, f).Done?
    ensures Change(target, f).value.Object? && Settled(Change(target, f).value, e)
  {
    hide AlignDnsSubnets, OverwriteOwned, MergeDomainSupplements, DnsSubnets, ShowsOwned;
    var bundled := e.bundled;
    EditSettles(target, f);
    match f
    case Source(_, _) =>
      AlignmentAligns(target, bundled);
      if e.Own? {
        SameOwnedKeepsShown(target, Change(target, f).value, bundled);
        if DomainSupplements in bundled.fields { AligningKeepsMerged(target, bundled); }
      }
    case Own(_, _) =>
      if e.Source? {
        OverwritingShows(target, bundled);
        MergingSettles(OverwriteOwned(target, bundled).value, bundled);
      }
  }

  // ----- the edits a bundle stands for -----

  predicate OwnsSomething(bundled: Json)
    requires bundled.Object?
  {
    exists k :: k in OWNED_KEYS + {DomainSupplements} && k in bundled.fields
  }

  /** A nonempty string under a key. */
  function Name(fields: map<Key, Json>, key: Key): Option<string> {
    match Value(fields, key)
    case Text(text) => if text != "" then Some(text) else None
    case _ => None
  }

  function SourceEdits(companions: seq<Json>, bundle: seq<Json>): (edits: seq<Edit>)
    ensures forall e :: e in edits ==> ValidEdit(e) && FromBundle(e, bundle)
  {
    if companions == [] then []
    else SourceEdits(companions[..|companions| - 1], bundle) + SourceEdit(companions[|companions| - 1], bundle)
  }

  function SourceEdit(companion: Json, bundle: seq<Json>): (edits: seq<Edit>)
    ensures forall e :: e in edits ==> ValidEdit(e) && FromBundle(e, bundle)
  {
    if companion.Object? then
      match Name(companion.fields, SourcePresetId)
      case Some(id) => if Found(bundle, id) then [Source(id, bundle[Find(bundle, id)])] else []
      case None => []
    else []
  }

  /** One bundled preset with something of its own: its own fields first, then its companions. */
  function ParentEdits(parent: Json, bundle: seq<Json>): (edits: seq<Edit>)
    ensures forall e :: e in edits ==> ValidEdit(e)
  {
    if parent.Object? && OwnsSomething(parent) then
      match Name(parent.fields, Id)
      case Some(id) => [Own(id, parent)] + SourceEdits(Items(Value(parent.fields, RoutingCompanions)), bundle)
      case None => []
    else []
  }

  function Edits(parents: seq<Json>, bundle: seq<Json>): (edits: seq<Edit>)
    ensures forall e :: e in edits ==> ValidEdit(e)
  {
    if parents == [] then []
    else Edits(parents[..|parents| - 1], bundle) + ParentEdits(parents[|parents| - 1], bundle)
  }

  /** The edit brings the bundle's preset of its id. */
  predicate FromBundle(e: Edit, bundle: seq<Json>) {
    Found(bundle, e.id) && e.bundled == bundle[Find(bundle, e.id)]
  }

  ghost predicate UniqueIds(bundle: seq<Json>) {
    forall i, j, id :: 0 <= i < |bundle| && 0 <= j < |bundle| && HasId(bundle[i], id) && HasId(bundle[j], id) ==> i == j
  }

  lemma {:induction false} EditsStemFromBundle(bundle: seq<Json>, n: nat)
    requires UniqueIds(bundle) && n <= |bundle|
    ensures forall e :: e in Edits(bundle[..n], bundle) ==> FromBundle(e, bundle)
  {
    hide Find, UniqueIds, SourceEdits, OwnsSomething;
    if n > 0 {
      EditsStemFromBundle(bundle, n - 1);
      assert bundle[..n][..n - 1] == bundle[..n - 1];
      var parent := bundle[n - 1];
      forall e | e in ParentEdits(parent, bundle) ensures FromBundle(e, bundle) {
        if e.Own? && HasId(parent, e.id) { OwnIdIsFound(bundle, n - 1, e.id); }
      }
    }
  }

  lemma OwnIdIsFound(bundle: seq<Json>, i: nat, id: string)
    requires UniqueIds(bundle) && i < |bundle| && HasId(bundle[i], id)
    ensures Find(bundle, id) == i
  {
  }

  // ----- editing the list -----

  predicate AllValid(edits: seq<Edit>) { forall e :: e in edits ==> ValidEdit(e) }

  function ApplyEdit(presets: seq<Json>, e: Edit): Outcome<seq<Json>>
    requires ValidEdit(e)
  {
    var i := Find(presets, e.id);
    if i == |presets| then Done(presets + [Addition(e)])
    else
      match Change(presets[i], e)
      case TypeError => TypeError
      case Done(changed) => Done(presets[i := changed])
  }

  function ApplyEdits(presets: seq<Json>, edits: seq<Edit>): Outcome<seq<Json>>
    requires AllValid(edits)
  {
    if edits == [] then Done(presets)
    else
      match ApplyEdits(presets, edits[..|edits| - 1])
      case TypeError => TypeError
      case Done(edited) => ApplyEdit(edited, edits[|edits| - 1])
  }

  /** The whole overlay: every edit in order, then the covers closure. */
  ghost function Overlay(upstream: seq<Json>, bundle: seq<Json>): Outcome<seq<Json>> {
    match ApplyEdits(upstream, Edits(bundle, bundle))
    case TypeError => TypeError
    case Done(edited) => Done(Closure(edited, bundle))
  }

  predicate SettledIn(presets: seq<Json>, e: Edit)
    requires ValidEdit(e)
  {
    Found(presets, e.id) && Settled(presets[Find(presets, e.id)], e)
  }

  /** An id is found where it was before, or only among what was added. */
  predicate SamePlace(before: seq<Json>, after: seq<Json>, id: string) {
    if Found(before, id) then Find(after, id) == Find(before, id) else Find(after, id) >= |before|
  }

  lemma SameIdsSamePlace(before: seq<Json>, after: seq<Json>, id: string)
    requires |before| <= |after| && forall i :: 0 <= i < |before| ==> (HasId(after[i], id) <==> HasId(before[i], id))
    ensures SamePlace(before, after, id)
  {
  }

  lemma FindAfterEdit(presets: seq<Json>, e: Edit, id: string)
    requires ValidEdit(e) && ApplyEdit(presets, e).Done?
    ensures var edited := ApplyEdit(presets, e).value;
      && |presets| <= |edited|
      && SamePlace(presets, edited, id)
      && (forall i :: 0 <= i < |presets| && i != Find(presets, e.id) ==> edited[i] == presets[i])
  {
    hide Change, Addition, SamePlace, Settled;
    var i := Find(presets, e.id);
    var edited := ApplyEdit(presets, e).value;
    if i < |presets| {
      EditSettles(presets[i], e);
      assert HasId(edited[i], id) <==> HasId(presets[i], id);
    }
    SameIdsSamePlace(presets, edited, id);
  }

  /** An edit of the list is settled afterwards, and keeps the settled ones settled. */
  lemma ApplyingSettles(presets: seq<Json>, e: Edit)
    requires ValidEdit(e) && ApplyEdit(presets, e).Done?
    ensures SettledIn(ApplyEdit(presets, e).value, e)
  {
    hide Change, Addition, Settled;
    var i := Find(presets, e.id);
    if i == |presets| {
      AdditionIsSettled(e);
      FindAppend(presets, [Addition(e)], e.id);
      assert Find([Addition(e)], e.id) == 0;
    } else {
      EditSettles(presets[i], e);
      FindAfterEdit(presets, e, e.id);
    }
  }

  lemma ApplyingKeepsSettled(presets: seq<Json>, e: Edit, f: Edit, bundle: seq<Json>)
    requires ValidEdit(e) && ValidEdit(f) && FromBundle(e, bundle) && FromBundle(f, bundle)
    requires SettledIn(presets, e) && ApplyEdit(presets, f).Done?
    ensures SettledIn(ApplyEdit(presets, f).value, e)
  {
    hide Change, Addition, Settled;
    FindAfterEdit(presets, f, e.id);
    var i := Find(presets, e.id);
    if Find(presets, f.id) == i {
      assert e.id == f.id;
      EditKeepsSettled(presets[i], e, f);
    }
  }

  lemma {:induction false} RunSettles(presets: seq<Json>, edits: seq<Edit>, bundle: seq<Json>)
    requires AllValid(edits) && (forall e :: e in edits ==> FromBundle(e, bundle)) && ApplyEdits(presets, edits).Done?
    ensures forall e :: e in edits ==> SettledIn(ApplyEdits(presets, edits).value, e)
    decreases |edits|
  {
    hide ApplyEdit, SettledIn, FromBundle;
    if edits != [] {
      var n := |edits| - 1;
      var last := edits[n];
      RunSettles(presets, edits[..n], bundle);
      var before := ApplyEdits(presets, edits[..n]).value;
      ApplyingSettles(before, last);
      forall e | e in edits[..n] ensures SettledIn(ApplyEdits(presets, edits).value, e) {
        ApplyingKeepsSettled(before, e, last, bundle);
      }
      assert edits == edits[..n] + [last];
    }
  }

  lemma {:induction false} SettledRunChangesNothing(presets: seq<Json>, edits: seq<Edit>)
    requires AllValid(edits) && forall e :: e in edits ==> SettledIn(presets, e)
    ensures ApplyEdits(presets, edits) == Done(presets)
    decreases |edits|
  {
    hide Change, Settled;
    if edits != [] {
      var last := edits[|edits| - 1];
      SettledRunChangesNothing(presets, edits[..|edits| - 1]);
      assert last in edits && SettledIn(presets, last);
      var i := Find(presets, last.id);
      SettledExactlyWhenUnchanged(presets[i], last);
      assert presets[i := presets[i]] == presets;
    }
  }

  lemma AppendingKeepsSettled(presets: seq<Json>, more: seq<Json>, e: Edit)
    requires ValidEdit(e) && SettledIn(presets, e)
    ensures SettledIn(presets + more, e)
  {
    FindAppend(presets, more, e.id);
  }

  /** After a successful overlay every edit of the bundle is settled, and overlaying the result again
      changes nothing. The upstream list may hold anything, repeated ids included. */
  lemma OverlayIsIdempotent(upstream: seq<Json>, bundle: seq<Json>)
    requires UniqueIds(bundle) && Overlay(upstream, bundle).Done?
    ensures var result := Overlay(upstream, bundle).value;
      && (forall e :: e in Edits(bundle, bundle) ==> SettledIn(result, e))
      && Overlay(result, bundle) == Done(result)
  {
    hide ApplyEdits, Edits, SettledIn, Closure, ClosedUnderCovers;
    var edits := Edits(bundle, bundle);
    assert bundle[..|bundle|] == bundle;
    EditsStemFromBundle(bundle, |bundle|);
    RunSettles(upstream, edits, bundle);
    var edited := ApplyEdits(upstream, edits).value;
    var result := Closure(edited, bundle);
    assert result == edited + result[|edited|..];
    forall e | e in edits ensures SettledIn(result, e) { AppendingKeepsSettled(edited, result[|edited|..], e); }
    SettledRunChangesNothing(result, edits);
    ClosureCloses(edited, bundle);
    ClosedIsKept(result, bundle);
  }

  /** Upstream presets keep their places; one that no edit addresses is not changed at all, and the
      others change only in the fields an edit may write. */
  lemma {:induction false} RunKeepsTheRest(presets: seq<Json>, edits: seq<Edit>, i: nat)
    requires AllValid(edits) && ApplyEdits(presets, edits).Done? && i < |presets|
    ensures var edited := ApplyEdits(presets, edits).value;
      && |presets| <= |edited|
      && (forall id :: SamePlace(presets, edited, id))
      && ((forall e :: e in edits ==> Find(presets, e.id) != i) ==> edited[i] == presets[i])
      && (presets[i].Object? ==> edited[i].Object? && SameBut(presets[i], edited[i], EDITED_KEYS))
    decreases |edits|
  {
    hide ApplyEdit, SameBut, Find, SamePlace;
    if edits != [] {
      var n := |edits| - 1;
      var last := edits[n];
      RunKeepsTheRest(presets, edits[..n], i);
      var before := ApplyEdits(presets, edits[..n]).value;
      var after := ApplyEdit(before, last).value;
      assert edits == edits[..n] + [last];
      forall id ensures SamePlace(presets, after, id) {
        FindAfterEdit(before, last, id);
        SamePlaceChains(presets, before, after, id);
      }
      assert Find(before, last.id) == i ==> Find(presets, last.id) == i by { PlaceWas(presets, before, last.id); }
      OneEditChangesOnePreset(before, last, i);
      if presets[i].Object? { SameButChains(presets[i], before[i], after[i], EDITED_KEYS); }
    } else {
      forall id ensures SamePlace(presets, presets, id) { SameIdsSamePlace(presets, presets, id); }
      if presets[i].Object? { SameButItself(presets[i], EDITED_KEYS); }
    }
  }

  lemma PlaceWas(before: seq<Json>, after: seq<Json>, id: string)
    requires SamePlace(before, after, id)
    ensures Find(after, id) < |before| ==> Find(before, id) == Find(after, id)
  {
  }

  lemma SamePlaceChains(a: seq<Json>, b: seq<Json>, c: seq<Json>, id: string)
    requires |a| <= |b| && SamePlace(a, b, id) && SamePlace(b, c, id)
    ensures SamePlace(a, c, id)
  {
  }

  lemma SameButItself(a: Json, changed: set<Key>)
    requires a.Object?
    ensures SameBut(a, a, changed)
  {
  }

  lemma SameButChains(a: Json, b: Json, c: Json, changed: set<Key>)
    requires a.Object? && b.Object? && c.Object? && SameBut(a, b, changed) && SameBut(b, c, changed)
    ensures SameBut(a, c, changed)
  {
  }

  lemma OneEditChangesOnePreset(presets: seq<Json>, e: Edit, i: nat)
    requires ValidEdit(e) && ApplyEdit(presets, e).Done? && i < |presets|
    ensures var edited := ApplyEdit(presets, e).value;
      && |presets| <= |edited|
      && (Find(presets, e.id) != i ==> edited[i] == presets[i])
      && (presets[i].Object? ==> edited[i].Object? && SameBut(presets[i], edited[i], EDITED_KEYS))
  {
    hide Change, Addition;
    FindAfterEdit(presets, e, e.id);
    if Find(presets, e.id) == i { EditSettles(presets[i], e); }
  }

  /** The same for the whole overlay: what the closure adds comes after everything that was there. */
  lemma OverlayKeepsTheRest(upstream: seq<Json>, bundle: seq<Json>, i: nat)
    requires Overlay(upstream, bundle).Done? && i < |upstream|
    ensures var result := Overlay(upstream, bundle).value;
      && |upstream| <= |result|
      && ((forall e :: e in Edits(bundle, bundle) ==> Find(upstream, e.id) != i) ==> result[i] == upstream[i])
      && (upstream[i].Object? ==> result[i].Object? && SameBut(upstream[i], result[i], EDITED_KEYS))
  {
    hide ApplyEdits, Edits, Closure, Find;
    RunKeepsTheRest(upstream, Edits(bundle, bundle), i);
    var edited := ApplyEdits(upstream, Edits(bundle, bundle)).value;
    assert Closure(edited, bundle)[i] == edited[i];
  }

  // ----- type errors -----

  predicate WellFormed(presets: seq<Json>) {
    forall i :: 0 <= i < |presets| ==> presets[i].Object? ==> OpenPath(presets[i])
  }

  lemma WellFormedEdit(target: Json, e: Edit)
    requires target.Object? && ValidEdit(e) && OpenPath(target)
    ensures Change(target, e).Done? && Change(target, e).value.Object? && OpenPath(Change(target, e).value)
  {
    hide AlignDnsSubnets, Carry, CarryNotice, MergedDomains;
    var bundled := e.bundled;
    match e
    case Source(_, _) => AlignmentThrowsExactlyWhen(target, bundled);
    case Own(_, _) =>
      var own := bundled.fields;
      var base := target;
      if RoutingCompanions in own {
        var marked := Object(target.fields[RoutingCompanions := own[RoutingCompanions]]);
        assert OpenPath(marked);
        AlignmentThrowsExactlyWhen(marked, bundled);
        AlignmentAligns(marked, bundled);
        base := AlignDnsSubnets(marked, bundled).value;
      }
      var owned := OverwriteOwned(target, bundled).value;
      CarriedFields(base.fields, own, owned, bundled);
      assert OpenPath(owned) by { assert Member(owned, Engines) == Member(base, Engines); }
      MergedStaysOpen(owned, bundled);
  }

  lemma MergedStaysOpen(target: Json, bundled: Json)
    requires target.Object? && bundled.Object? && OpenPath(target)
    ensures OpenPath(Supplemented(target, bundled))
  {
    hide MergedDomains;
  }

  /** On well-formed catalogues the overlay never throws. */
  lemma {:induction false} WellFormedRunSucceeds(presets: seq<Json>, edits: seq<Edit>)
    requires AllValid(edits) && WellFormed(presets) && forall e :: e in edits ==> OpenPath(e.bundled)
    ensures ApplyEdits(presets, edits).Done? && WellFormed(ApplyEdits(presets, edits).value)
    decreases |edits|
  {
    hide OpenPath, Change, Supplemented, Find;
    if edits != [] {
      var n := |edits| - 1;
      var e := edits[n];
      WellFormedRunSucceeds(presets, edits[..n]);
      var before := ApplyEdits(presets, edits[..n]).value;
      assert e in edits;
      MergedStaysOpen(e.bundled, e.bundled);
      if Found(before, e.id) { WellFormedEdit(before[Find(before, e.id)], e); }
    }
  }

  lemma {:induction false} EditsAreWellFormed(bundle: seq<Json>, n: nat)
    requires WellFormed(bundle) && n <= |bundle|
    ensures forall e :: e in Edits(bundle[..n], bundle) ==> OpenPath(e.bundled)
  {
    hide OpenPath, SourceEdits, OwnsSomething, Find;
    if n > 0 {
      EditsAreWellFormed(bundle, n - 1);
      assert bundle[..n][..n - 1] == bundle[..n - 1];
    }
  }

  lemma WellFormedOverlaySucceeds(upstream: seq<Json>, bundle: seq<Json>)
    requires WellFormed(upstream) && WellFormed(bundle)
    ensures Overlay(upstream, bundle).Done?
  {
    hide Edits, ApplyEdits, OpenPath;
    assert bundle[..|bundle|] == bundle;
    EditsAreWellFormed(bundle, |bundle|);
    WellFormedRunSucceeds(upstream, Edits(bundle, bundle));
  }

  // ----- the loops -----

  function Then(outcome: Outcome<seq<Json>>, edits: seq<Edit>): Outcome<seq<Json>>
    requires AllValid(edits)
  {
    match outcome
    case TypeError => TypeError
    case Done(presets) => ApplyEdits(presets, edits)
  }

  lemma {:induction false} EditsInTwoParts(presets: seq<Json>, a: seq<Edit>, b: seq<Edit>)
    requires AllValid(a) && AllValid(b)
    ensures AllValid(a + b) && ApplyEdits(presets, a + b) == Then(ApplyEdits(presets, a), b)
    decreases |b|
  {
    hide ApplyEdit;
    if b == [] {
      assert a + b == a;
    } else {
      var n := |b| - 1;
      EditsInTwoParts(presets, a, b[..n]);
      assert (a + b)[..|a| + n] == a + b[..n];
    }
  }

  lemma {:induction false} TypeErrorStays(upstream: seq<Json>, bundle: seq<Json>, i: nat, n: nat)
    requires i <= n <= |bundle| && ApplyEdits(upstream, Edits(bundle[..i], bundle)).TypeError?
    ensures ApplyEdits(upstream, Edits(bundle[..n], bundle)).TypeError?
    decreases n - i
  {
    hide ApplyEdits, ParentEdits;
    if i < n {
      EditsNext(bundle, i);
      EditsInTwoParts(upstream, Edits(bundle[..i], bundle), ParentEdits(bundle[i], bundle));
      TypeErrorStays(upstream, bundle, i + 1, n);
    }
  }

  lemma EditsNext(bundle: seq<Json>, i: nat)
    requires i < |bundle|
    ensures Edits(bundle[..i + 1], bundle) == Edits(bundle[..i], bundle) + ParentEdits(bundle[i], bundle)
  {
    assert bundle[..i + 1][..i] == bundle[..i];
  }

  /** Enriches the upstream catalogue with the bundled overlay. A type error discards everything. */
  method EnrichCatalogWithRoutingCompanions(upstream: Json, bundled: Json) returns (r: Outcome<Json>)
    ensures !(upstream.Array? && bundled.Array?) ==> r == Done(upstream)
    ensures upstream.Array? && bundled.Array? ==>
      r == (match Overlay(upstream.items, bundled.items) case TypeError => TypeError case Done(result) => Done(Array(result)))
  {
    if !upstream.Array? || !bundled.Array? {
      return Done(upstream);
    }
    hide Edits, ApplyEdits, ParentEdits;
    var bundle := bundled.items;
    var presets := upstream.items;
    var i := 0;
    assert ApplyEdits(presets, Edits(bundle[..0], bundle)) == Done(presets) by { NoEdits(presets, bundle); }
    assert bundle[..|bundle|] == bundle;
    while i < |bundle|
      invariant 0 <= i <= |bundle|
      invariant ApplyEdits(upstream.items, Edits(bundle[..i], bundle)) == Done(presets)
    {
      EditsNext(bundle, i);
      EditsInTwoParts(upstream.items, Edits(bundle[..i], bundle), ParentEdits(bundle[i], bundle));
      var next := OverlayParent(presets, bundle[i], bundle);
      if next.TypeError? {
        TypeErrorStays(upstream.items, bundle, i + 1, |bundle|);
        return TypeError;
      }
      presets := next.value;
      i := i + 1;
    }
    presets := AppendMissingCoveredPresets(presets, bundle);
    r := Done(Array(presets));
  }

  lemma NoEdits(presets: seq<Json>, bundle: seq<Json>)
    ensures ApplyEdits(presets, Edits(bundle[..0], bundle)) == Done(presets)
  {
  }

  /** One pass of the outer loop. */
  method OverlayParent(presets: seq<Json>, parent: Json, bundle: seq<Json>) returns (r: Outcome<seq<Json>>)
    ensures r == ApplyEdits(presets, ParentEdits(parent, bundle))
  {
    hide Find, Change, Addition;
    if !parent.Object? { return Done(presets); }
    var own := parent.fields;
    if RoutingCompanions !in own && Covers !in own && Warnings !in own && Hidden !in own && Notice !in own
       && DomainSupplements !in own
    {
      return Done(presets);
    }
    assert OwnsSomething(parent);
    if !(Id in own && own[Id].Text? && own[Id].text != "") { return Done(presets); }
    var id := own[Id].text;
    var edit := Own(id, parent);
    var sources := SourceEdits(Items(Value(own, RoutingCompanions)), bundle);
    EditsInTwoParts(presets, [edit], sources);
    OneEdit(presets, edit);
    var edited := OverlayOwn(presets, id, parent);
    if edited.TypeError? || !(RoutingCompanions in own && own[RoutingCompanions].Array?) {
      return edited;
    }
    r := OverlaySources(edited.value, own[RoutingCompanions].items, bundle);
  }

  lemma OneEdit(presets: seq<Json>, e: Edit)
    requires ValidEdit(e)
    ensures ApplyEdits(presets, [e]) == ApplyEdit(presets, e)
  {
    assert [e][..0] == [];
  }

  /** Adds the bundled preset, or overwrites what it owns; then merges its supplements. */
  method OverlayOwn(presets: seq<Json>, id: string, parent: Json) returns (r: Outcome<seq<Json>>)
    requires HasId(parent, id)
    ensures r == ApplyEdit(presets, Own(id, parent))
  {
    hide Find, OverwriteOwned;
    var at := FindPreset(presets, id);
    var target := parent;
    if at < |presets| {
      var owned := OverwriteOwned(presets[at], parent);
      if owned.TypeError? { return TypeError; }
      OverwritingShows(presets[at], parent);
      target := owned.value;
    }
    if DomainSupplements in parent.fields {
      target := MergeSupplements(target, parent);
    }
    r := Done(if at < |presets| then presets[at := target] else presets + [target]);
  }

  /** The companion loop. */
  method OverlaySources(presets: seq<Json>, companions: seq<Json>, bundle: seq<Json>) returns (r: Outcome<seq<Json>>)
    ensures r == ApplyEdits(presets, SourceEdits(companions, bundle))
  {
    hide Find, ApplyEdits, Change, Addition;
    var current := presets;
    var i := 0;
    assert ApplyEdits(presets, SourceEdits(companions[..0], bundle)) == Done(presets) by { NoSources(presets, companions, bundle); }
    assert companions[..|companions|] == companions;
    while i < |companions|
      invariant 0 <= i <= |companions|
      invariant ApplyEdits(presets, SourceEdits(companions[..i], bundle)) == Done(current)
    {
      var companion := companions[i];
      assert companions[..i + 1][..i] == companions[..i];
      EditsInTwoParts(presets, SourceEdits(companions[..i], bundle), SourceEdit(companion, bundle));
      var next := OverlaySource(current, companion, bundle);
      if next.TypeError? {
        SourceErrorStays(presets, companions, bundle, i + 1);
        return TypeError;
      }
      current := next.value;
      i := i + 1;
    }
    r := Done(current);
  }

  lemma NoSources(presets: seq<Json>, companions: seq<Json>, bundle: seq<Json>)
    ensures ApplyEdits(presets, SourceEdits(companions[..0], bundle)) == Done(presets)
  {
  }

  lemma {:induction false} SourceErrorStays(presets: seq<Json>, companions: seq<Json>, bundle: seq<Json>, i: nat)
    requires i <= |companions| && ApplyEdits(presets, SourceEdits(companions[..i], bundle)).TypeError?
    ensures ApplyEdits(presets, SourceEdits(companions, bundle)).TypeError?
    decreases |companions| - i
  {
    hide ApplyEdits, SourceEdit;
    if i < |companions| {
      assert companions[..i + 1][..i] == companions[..i];
      EditsInTwoParts(presets, SourceEdits(companions[..i], bundle), SourceEdit(companions[i], bundle));
      SourceErrorStays(presets, companions, bundle, i + 1);
    } else {
      assert companions[..i] == companions;
    }
  }

  method OverlaySource(presets: seq<Json>, companion: Json, bundle: seq<Json>) returns (r: Outcome<seq<Json>>)
    ensures r == ApplyEdits(presets, SourceEdit(companion, bundle))
  {
    hide Find, AlignDnsSubnets;
    if !companion.Object? { return Done(presets); }
    var fields := companion.fields;
    if !(SourcePresetId in fields && fields[SourcePresetId].Text? && fields[SourcePresetId].text != "") {
      return Done(presets);
    }
    var id := fields[SourcePresetId].text;
    var inBundle := FindPreset(bundle, id);
    if inBundle == |bundle| { return Done(presets); }
    var source := bundle[inBundle];
    OneEdit(presets, Source(id, source));
    var at := FindPreset(presets, id);
    if at == |presets| { return Done(presets + [source]); }
    var aligned := AlignDnsSubnets(presets[at], source);
    r := if aligned.TypeError? then TypeError else Done(presets[at := aligned.value]);
  }
}
