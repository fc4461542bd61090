/** What the overlay does to the engines of a preset: which domains a service ends up with, and that
    nothing else below the engines is touched. */
module CatalogDomains {
  import opened Basics
  import opened DistinctValues
  import opened CatalogPresets
  import opened CatalogCovers
  import opened CatalogOverlay

  // ----- the engines of a preset -----

  /** The engine under a key; anything on the way that is no object holds nothing. */
  function Engine(preset: Json, key: Key): Option<Json> { Field(Reach(preset, Engines), key) }

  function DnsField(preset: Json, key: Key): Option<Json> { Field(Reach(Reach(preset, Engines), Dns), key) }

  function Reach(json: Json, key: Key): Json {
    match Field(json, key)
    case Some(value) => value
    case None => Null
  }

  function Field(json: Json, key: Key): Option<Json> {
    if json.Object? && key in json.fields then Some(json.fields[key]) else None
  }

  function DomainItems(preset: Json): seq<Json> {
    match DnsField(preset, Domains)
    case Some(Array(items)) => items
    case _ => []
  }

  /** The domains of a service: the nonempty texts of its list. */
  ghost predicate HasDomain(preset: Json, x: string) { x != "" && Text(x) in DomainItems(preset) }

  /** Nothing below the engines differs but the domains and the subnets of the DNS engine. */
  ghost predicate SameEngines(a: Json, b: Json) {
    && (forall k :: k != Dns ==> Engine(a, k) == Engine(b, k))
    && (forall k :: k != Domains && k != Subnets ==> DnsField(a, k) == DnsField(b, k))
  }

  /** b has the domains of a, those of `more`, and no others; the list begins with those of a. */
  ghost predicate Grows(a: Json, b: Json, more: set<string>) {
    && SameEngines(a, b)
    && (forall x :: HasDomain(b, x) <==> HasDomain(a, x) || x in more)
    && Distinct(Texts(DomainItems(a))) <= Distinct(Texts(DomainItems(b)))
  }

  // ----- the merged list -----

  lemma {:induction false} TextsAre(items: seq<Json>, x: string)
    ensures x in Texts(items) <==> x != "" && Text(x) in items
  {
    if items != [] {
      TextsAre(items[..|items| - 1], x);
      assert items == items[..|items| - 1] + [items[|items| - 1]];
    }
  }

  /** A text is among the merged domains exactly when it is a nonempty text of either list; none is
      repeated, nothing but texts is there, and the existing domains come first. */
  lemma MergedDomainsAre(existing: seq<Json>, supplements: seq<Json>)
    ensures var merged := MergedDomains(existing, supplements);
      && (forall x :: Text(x) in merged <==> x != "" && (Text(x) in existing || Text(x) in supplements))
      && (forall i :: 0 <= i < |merged| ==> merged[i].Text?)
      && Texts(merged) == Distinct(Texts(merged)) && Distinct(Texts(existing)) <= Texts(merged)
  {
    hide Texts, Distinct;
    var a, b := Texts(existing), Texts(supplements);
    var kept := Distinct(a + b);
    TextsOfJson(kept);
    DistinctKeeps(kept);
    DistinctIsPrefix(a, b);
    forall x ensures Text(x) in AsJson(kept) <==> x != "" && (Text(x) in existing || Text(x) in supplements) {
      TextsAre(existing, x);
      TextsAre(supplements, x);
      JsonOfTexts(kept, x);
    }
  }

  lemma JsonOfTexts(texts: seq<string>, x: string)
    ensures Text(x) in AsJson(texts) <==> x in texts
  {
    if x in texts {
      var i :| 0 <= i < |texts| && texts[i] == x;
      assert AsJson(texts)[i] == Text(x);
    }
  }

  // ----- one edit -----

  /** The domains a bundled preset brings along. */
  ghost function Supplements(bundled: Json): set<string> {
    match Field(bundled, DomainSupplements)
    case Some(Array(items)) => set x | x in Texts(items)
    case _ => {}
  }

  lemma MergeEngines(target: Json, bundled: Json)
    requires target.Object? && bundled.Object?
    ensures var merged := MergeDomainSupplements(target, bundled);
      && SameEngines(target, merged)
      && (Value(bundled.fields, DomainSupplements).Array? ==>
            DomainItems(merged) == MergedDomains(DomainItems(target), bundled.fields[DomainSupplements].items))
      && (!Value(bundled.fields, DomainSupplements).Array? ==> DomainItems(merged) == DomainItems(target))
  {
    hide MergedDomains;
  }

  lemma MergeGrows(target: Json, bundled: Json)
    requires target.Object? && bundled.Object?
    ensures Grows(target, MergeDomainSupplements(target, bundled), Supplements(bundled))
  {
    hide MergeDomainSupplements, MergedDomains, Texts, Distinct, SameEngines;
    MergeEngines(target, bundled);
    if Value(bundled.fields, DomainSupplements).Array? {
      var items := bundled.fields[DomainSupplements].items;
      MergedDomainsAre(DomainItems(target), items);
      forall x ensures x in Supplements(bundled) <==> x != "" && Text(x) in items { TextsAre(items, x); }
    }
  }

  lemma AlignEngines(target: Json, bundled: Json)
    requires target.Object? && bundled.Object? && AlignDnsSubnets(target, bundled).Done?
    ensures var aligned := AlignDnsSubnets(target, bundled).value;
      SameEngines(target, aligned) && DnsField(aligned, Domains) == DnsField(target, Domains)
  {
  }

  lemma SameDomainsGrow(a: Json, b: Json)
    requires SameEngines(a, b) && DnsField(a, Domains) == DnsField(b, Domains)
    ensures Grows(a, b, {})
  {
  }

  lemma SameEnginesFieldGrows(a: Json, b: Json)
    requires a.Object? && b.Object? && SameBut(a, b, EDITED_KEYS - {Engines})
    ensures Grows(a, b, {})
  {
    assert Reach(a, Engines) == Reach(b, Engines);
  }

  lemma GrowthAddsUp(a: Json, b: Json, c: Json, m: set<string>, n: set<string>)
    requires Grows(a, b, m) && Grows(b, c, n)
    ensures Grows(a, c, m + n)
  {
    hide Engine, DnsField, DomainItems, Texts, Distinct, HasDomain;
  }

  lemma OverwritingGrows(target: Json, bundled: Json)
    requires target.Object? && bundled.Object? && OverwriteOwned(target, bundled).Done?
    ensures var owned := OverwriteOwned(target, bundled).value; owned.Object? && Grows(target, owned, {})
  {
    hide AlignDnsSubnets, CarryNotice, Carry, Grows, SameEngines;
    var own := bundled.fields;
    var base, none: set<string> := target, {};
    assert none + none == none;
    assert Grows(target, target, {}) by { SameEnginesFieldGrows(target, target); }
    if RoutingCompanions in own {
      var marked := Object(target.fields[RoutingCompanions := own[RoutingCompanions]]);
      SameEnginesFieldGrows(target, marked);
      AlignmentAligns(marked, bundled);
      base := AlignDnsSubnets(marked, bundled).value;
      AlignEngines(marked, bundled);
      SameDomainsGrow(marked, base);
      GrowthAddsUp(target, marked, base, none, none);
    }
    var owned := OverwriteOwned(target, bundled).value;
    CarriedFields(base.fields, own, owned, bundled);
    SameEnginesFieldGrows(base, owned);
    GrowthAddsUp(target, base, owned, none, none);
  }

  ghost function Brings(e: Edit): set<string> {
    match e
    case Own(_, bundled) => Supplements(bundled)
    case Source(_, _) => {}
  }

  /** An edit adds the domains it brings, and loses none. */
  lemma EditGrows(target: Json, e: Edit)
    requires target.Object? && ValidEdit(e) && Change(target, e).Done?
    ensures Change(target, e).value.Object? && Grows(target, Change(target, e).value, Brings(e))
  {
    hide AlignDnsSubnets, OverwriteOwned, MergeDomainSupplements, Grows, SameEngines;
    match e
    case Source(_, bundled) =>
      AlignmentAligns(target, bundled);
      AlignEngines(target, bundled);
      SameDomainsGrow(target, Change(target, e).value);
    case Own(_, bundled) =>
      OverwritingGrows(target, bundled);
      var owned := OverwriteOwned(target, bundled).value;
      MergeGrows(owned, bundled);
      SameEnginesFieldGrows(owned, owned);
      GrowthAddsUp(target, owned, Supplemented(owned, bundled), {}, Brings(e));
      assert {} + Brings(e) == Brings(e);
  }

  /** A preset that the bundle adds has its own domains and the supplementary ones. */
  lemma AdditionGrows(e: Edit)
    requires ValidEdit(e)
    ensures Grows(e.bundled, Addition(e), Brings(e))
  {
    hide MergeDomainSupplements, Grows;
    SameEnginesFieldGrows(e.bundled, e.bundled);
    MergeGrows(e.bundled, e.bundled);
  }

  // ----- the whole list -----

  /** What all edits bring to the preset at i. */
  ghost function AllBrought(presets: seq<Json>, edits: seq<Edit>, i: nat): set<string> {
    if edits == [] then {}
    else
      var last := edits[|edits| - 1];
      AllBrought(presets, edits[..|edits| - 1], i) + (if Find(presets, last.id) == i then Brings(last) else {})
  }

  lemma {:induction false} AllBroughtAre(presets: seq<Json>, edits: seq<Edit>, i: nat, x: string)
    ensures x in AllBrought(presets, edits, i) <==> exists e :: e in edits && Find(presets, e.id) == i && x in Brings(e)
    decreases |edits|
  {
    hide Brings, Find;
    if edits != [] {
      var n := |edits| - 1;
      AllBroughtAre(presets, edits[..n], i, x);
      assert edits == edits[..n] + [edits[n]];
      assert edits[n] in edits && forall e :: e in edits[..n] ==> e in edits;
    }
  }

  lemma ApplyingGrows(presets: seq<Json>, e: Edit, i: nat)
    requires ValidEdit(e) && ApplyEdit(presets, e).Done? && i < |presets| && presets[i].Object?
    ensures var edited := ApplyEdit(presets, e).value;
      |presets| <= |edited| && edited[i].Object? && Grows(presets[i], edited[i], if Find(presets, e.id) == i then Brings(e) else {})
  {
    hide Change, Addition, Grows;
    FindAfterEdit(presets, e, e.id);
    if Find(presets, e.id) == i {
      EditGrows(presets[i], e);
    } else {
      SameEnginesFieldGrows(presets[i], presets[i]);
    }
  }

  lemma {:induction false} RunGrows(presets: seq<Json>, edits: seq<Edit>, i: nat)
    requires AllValid(edits) && ApplyEdits(presets, edits).Done? && i < |presets| && presets[i].Object?
    ensures var edited := ApplyEdits(presets, edits).value;
      |presets| <= |edited| && edited[i].Object? && Grows(presets[i], edited[i], AllBrought(presets, edits, i))
    decreases |edits|
  {
    hide ApplyEdit, Find, SamePlace, Grows, Brings, SameBut;
    if edits == [] {
      SameEnginesFieldGrows(presets[i], presets[i]);
    } else {
      var n := |edits| - 1;
      var last := edits[n];
      RunGrows(presets, edits[..n], i);
      RunKeepsTheRest(presets, edits[..n], i);
      var before := ApplyEdits(presets, edits[..n]).value;
      var after := ApplyEdit(before, last).value;
      assert last in edits;
      ApplyingGrows(before, last, i);
      assert Find(before, last.id) == i <==> Find(presets, last.id) == i by { PlaceStays(presets, before, last.id, i); }
      GrowthAddsUp(presets[i], before[i], after[i], AllBrought(presets, edits[..n], i), if Find(before, last.id) == i then Brings(last) else {});
    }
  }

  lemma PlaceStays(before: seq<Json>, after: seq<Json>, id: string, i: nat)
    requires SamePlace(before, after, id) && i < |before| <= |after|
    ensures Find(after, id) == i <==> Find(before, id) == i
  {
  }

  // ----- the edits of a bundle -----

  /** A bundled preset that the overlay acts for: it owns something and has a name. */
  predicate Acts(parent: Json, id: string) {
    && parent.Object? && id != "" && HasId(parent, id)
    && exists k :: k in {RoutingCompanions, Covers, Warnings, Hidden, Notice, DomainSupplements} && k in parent.fields
  }

  /** One of the parent's companions names this source preset. */
  predicate NamesSource(parent: Json, id: string) {
    && id != "" && Reach(parent, RoutingCompanions).Array?
    && exists c :: c in Reach(parent, RoutingCompanions).items && Field(c, SourcePresetId) == Some(Text(id))
  }

  lemma {:induction false} SourceEditsAre(companions: seq<Json>, bundle: seq<Json>, e: Edit)
    ensures e in SourceEdits(companions, bundle) <==>
      && e.Source? && e.id != "" && FromBundle(e, bundle)
      && exists c :: c in companions && Field(c, SourcePresetId) == Some(Text(e.id))
    decreases |companions|
  {
    hide Find;
    if companions != [] {
      var n := |companions| - 1;
      SourceEditsAre(companions[..n], bundle, e);
      assert companions == companions[..n] + [companions[n]];
      assert companions[n] in companions && forall c :: c in companions[..n] ==> c in companions;
    }
  }

  lemma ParentEditsAre(parent: Json, bundle: seq<Json>, e: Edit)
    ensures e in ParentEdits(parent, bundle) <==>
      || (e.Own? && e.bundled == parent && Acts(parent, e.id))
      || (e.Source? && FromBundle(e, bundle) && NamesSource(parent, e.id) && exists id :: Acts(parent, id))
  {
    hide Find, SourceEdits, FromBundle;
    var companions := Items(Value(Fields(parent), RoutingCompanions));
    SourceEditsAre(companions, bundle, e);
    assert OWNED_KEYS + {DomainSupplements} == {RoutingCompanions, Covers, Warnings, Hidden, Notice, DomainSupplements};
    if parent.Object? && OwnsSomething(parent) {
      match Name(parent.fields, Id)
      case Some(id) => assert Acts(parent, id);
      case None => assert forall id :: !Acts(parent, id);
    }
  }

  lemma {:induction false} EditsAre(parents: seq<Json>, bundle: seq<Json>, e: Edit)
    ensures e in Edits(parents, bundle) <==> exists p :: p in parents && e in ParentEdits(p, bundle)
    decreases |parents|
  {
    hide ParentEdits;
    if parents != [] {
      var n := |parents| - 1;
      EditsAre(parents[..n], bundle, e);
      assert parents == parents[..n] + [parents[n]];
      assert parents[n] in parents && forall p :: p in parents[..n] ==> p in parents;
    }
  }

  /** The edits of a bundle, told from the bundle itself: every named preset that owns something brings its
      own fields, and the sources its companions name bring their subnets. */
  lemma EditsAreTheBundles(bundle: seq<Json>, e: Edit)
    ensures e in Edits(bundle, bundle) <==>
      || (e.Own? && e.bundled in bundle && Acts(e.bundled, e.id))
      || (e.Source? && FromBundle(e, bundle) && exists p, id :: p in bundle && Acts(p, id) && NamesSource(p, e.id))
  {
    hide ParentEdits, FromBundle, Acts, NamesSource;
    EditsAre(bundle, bundle, e);
    forall p ensures e in ParentEdits(p, bundle) <==>
      || (e.Own? && e.bundled == p && Acts(p, e.id))
      || (e.Source? && FromBundle(e, bundle) && NamesSource(p, e.id) && exists id :: Acts(p, id))
    {
      ParentEditsAre(p, bundle, e);
    }
  }

  /** A bundled preset supplements the upstream preset at i with this domain. */
  ghost predicate Supplies(bundle: seq<Json>, upstream: seq<Json>, i: nat, x: string) {
    exists p, id :: p in bundle && Acts(p, id) && Find(upstream, id) == i && x in Supplements(p)
  }

  /** The domains of every upstream preset after the overlay: those it had, and those the bundle supplements
      it with. None is lost, the order of the old ones stays, and nothing else below the engines changes but
      the subnets. */
  lemma OverlayDomainsExactly(upstream: seq<Json>, bundle: seq<Json>, i: nat)
    requires Overlay(upstream, bundle).Done? && i < |upstream| && upstream[i].Object?
    ensures var result := Overlay(upstream, bundle).value;
      && i < |result| && SameEngines(upstream[i], result[i])
      && (forall x :: HasDomain(result[i], x) <==> HasDomain(upstream[i], x) || Supplies(bundle, upstream, i, x))
      && Distinct(Texts(DomainItems(upstream[i]))) <= Distinct(Texts(DomainItems(result[i])))
  {
    hide ApplyEdits, Edits, Closure, Find, HasDomain, SameEngines, Texts, Distinct, DomainItems, AllBrought;
    var edits := Edits(bundle, bundle);
    RunGrows(upstream, edits, i);
    var edited := ApplyEdits(upstream, edits).value;
    assert Closure(edited, bundle)[i] == edited[i];
    forall x ensures x in AllBrought(upstream, edits, i) <==> Supplies(bundle, upstream, i, x) {
      BroughtIsSupplied(upstream, bundle, i, x);
    }
  }

  lemma BroughtIsSupplied(upstream: seq<Json>, bundle: seq<Json>, i: nat, x: string)
    ensures x in AllBrought(upstream, Edits(bundle, bundle), i) <==> Supplies(bundle, upstream, i, x)
  {
    hide Edits, Find, Acts, Supplements, AllBrought, FromBundle, NamesSource;
    var edits := Edits(bundle, bundle);
    AllBroughtAre(upstream, edits, i, x);
    if e :| e in edits && Find(upstream, e.id) == i && x in Brings(e) {
      EditsAreTheBundles(bundle, e);
      assert e.bundled in bundle && Acts(e.bundled, e.id) && x in Supplements(e.bundled);
    }
    if p, id :| p in bundle && Acts(p, id) && Find(upstream, id) == i && x in Supplements(p) {
      EditsAreTheBundles(bundle, Own(id, p));
      assert x in Brings(Own(id, p));
    }
  }
}
