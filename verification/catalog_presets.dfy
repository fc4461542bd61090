/** Presets of the service catalogue as JSON values, and the edits the bundled overlay makes to one
    preset: package-owned fields, the curated DNS subnets and the supplementary domains. */
module CatalogPresets {
  import opened Basics
  import opened DistinctValues

  /** Object keys. The overlay names these; every other key is `Other`. */
  datatype Key =
    | Id | Engines | Dns | Subnets | Domains | RoutingCompanions | SourcePresetId | Covers | Warnings | Hidden
    | Notice | NoticeI18n | DomainSupplements | Other(name: string)

  datatype Json =
    | Null
    | Bool(flag: bool)
    | Number(value: real)
    | Text(text: string)
    | Array(items: seq<Json>)
    | Object(fields: map<Key, Json>)

  /** A JSON operation either finishes or throws a type error. */
  datatype Outcome<T> = Done(value: T) | TypeError

  // ----- finding a preset -----

  predicate HasId(preset: Json, id: string) {
    preset.Object? && Id in preset.fields && preset.fields[Id] == Text(id)
  }

  /** Index of the first preset with this id, or the number of presets. */
  function Find(presets: seq<Json>, id: string): (i: nat)
    ensures i <= |presets|
    ensures i < |presets| ==> HasId(presets[i], id)
    ensures forall j :: 0 <= j < i ==> !HasId(presets[j], id)
  {
    if presets == [] then 0
    else if HasId(presets[0], id) then 0
    else
      var i := 1 + Find(presets[1..], id);
      assert forall j :: 1 <= j < i ==> presets[j] == presets[1..][j - 1];
      i
  }

  predicate Found(presets: seq<Json>, id: string) { Find(presets, id) < |presets| }

  method FindPreset(presets: seq<Json>, id: string) returns (i: nat)
    ensures i == Find(presets, id)
  {
    i := 0;
    while i < |presets| && !HasId(presets[i], id)
      invariant i <= |presets|
      invariant forall j :: 0 <= j < i ==> !HasId(presets[j], id)
    {
      i := i + 1;
    }
  }

  // ----- DNS subnets -----

  function DnsSubnets(preset: Json): Option<Json>
    requires preset.Object?
  {
    if Engines in preset.fields && preset.fields[Engines].Object? then
      var engines := preset.fields[Engines].fields;
      if Dns in engines && engines[Dns].Object? && Subnets in engines[Dns].fields
      then Some(engines[Dns].fields[Subnets]) else None
    else None
  }

  /** `json[key]` on a null or an object: a missing member reads as null; anything else throws. */
  function Member(json: Json, key: Key): Outcome<Json> {
    match json
    case Null => Done(Null)
    case Object(fields) => Done(if key in fields then fields[key] else Null)
    case _ => TypeError
  }

  function Fields(json: Json): map<Key, Json>
  {
    if json.Object? then json.fields else map[]
  }

  function AlignDnsSubnets(target: Json, bundled: Json): Outcome<Json>
    requires target.Object? && bundled.Object?
  {
    match DnsSubnets(bundled)
    case Some(subnets) =>
      (match Member(target, Engines)
       case TypeError => TypeError
       case Done(engines) =>
         match Member(engines, Dns)
         case TypeError => TypeError
         case Done(dns) =>
           match Member(dns, Subnets)
           case TypeError => TypeError
           case Done(_) =>
             Done(Object(target.fields[Engines := Object(Fields(engines)[Dns := Object(Fields(dns)[Subnets := subnets])])])))
    case None =>
      if Engines in target.fields && target.fields[Engines].Object? then
        var engines := target.fields[Engines].fields;
        if Dns in engines && engines[Dns].Object? then
          Done(Object(target.fields[Engines := Object(engines[Dns := Object(engines[Dns].fields - {Subnets})])]))
        else Done(target)
      else Done(target)
  }

  /** The engines and their DNS part are objects, null or absent, so subnets can be written. */
  predicate OpenPath(preset: Json)
    requires preset.Object?
  {
    var engines := Member(preset, Engines);
    engines.Done? && Member(engines.value, Dns).Done? && Member(Member(engines.value, Dns).value, Subnets).Done?
  }

  /** Aligning throws exactly when there are subnets to write and no place to write them. */
  lemma AlignmentThrowsExactlyWhen(target: Json, bundled: Json)
    requires target.Object? && bundled.Object?
    ensures AlignDnsSubnets(target, bundled).TypeError? <==> DnsSubnets(bundled).Some? && !OpenPath(target)
    ensures AlignDnsSubnets(target, bundled).Done? && OpenPath(target) ==>
      AlignDnsSubnets(target, bundled).value.Object? && OpenPath(AlignDnsSubnets(target, bundled).value)
  {
  }

  /** The objects agree on every key outside `changed`. */
  ghost predicate SameBut(a: Json, b: Json, changed: set<Key>)
    requires a.Object? && b.Object?
  {
    forall k :: k !in changed ==> (k in a.fields <==> k in b.fields) && (k in a.fields ==> a.fields[k] == b.fields[k])
  }

  /** Aligning makes the subnets those of the bundle, whatever they were, and touches nothing else. */
  lemma AlignmentAligns(target: Json, bundled: Json)
    requires target.Object? && bundled.Object? && AlignDnsSubnets(target, bundled).Done?
    ensures var aligned := AlignDnsSubnets(target, bundled).value;
      aligned.Object? && DnsSubnets(aligned) == DnsSubnets(bundled) && SameBut(target, aligned, {Engines})
  {
  }

  /** Aligning is the identity exactly on the presets whose subnets are already the bundled ones. */
  lemma AlignedExactlyWhenUnchanged(target: Json, bundled: Json)
    requires target.Object? && bundled.Object?
    ensures DnsSubnets(target) == DnsSubnets(bundled) <==> AlignDnsSubnets(target, bundled) == Done(target)
  {
    if AlignDnsSubnets(target, bundled).Done? { AlignmentAligns(target, bundled); }
    if DnsSubnets(target) == DnsSubnets(bundled) && Engines in target.fields && target.fields[Engines].Object? {
      var engines := target.fields[Engines].fields;
      assert target.fields[Engines := Object(engines)] == target.fields;
      if Dns in engines && engines[Dns].Object? {
        var dns := engines[Dns].fields;
        assert engines[Dns := Object(dns)] == engines;
        if Subnets in dns {
          assert dns[Subnets := dns[Subnets]] == dns;
        } else {
          assert dns - {Subnets} == dns;
        }
      }
    }
  }

  // ----- supplementary domains -----

  /** The nonempty strings of an array, in order. */
  function Texts(items: seq<Json>): (texts: seq<string>)
    ensures "" !in texts
  {
    if items == [] then []
    else
      var last := items[|items| - 1];
      Texts(items[..|items| - 1]) + (if last.Text? && last.text != "" then [last.text] else [])
  }

  function AsJson(texts: seq<string>): seq<Json> {
    seq(|texts|, i requires 0 <= i < |texts| => Text(texts[i]))
  }

  /** Collects the nonempty strings of both arrays, each once, in the order they are first met. */
  method CollectDomains(existing: seq<Json>, supplements: seq<Json>) returns (merged: seq<string>)
    ensures merged == Distinct(Texts(existing) + Texts(supplements))
  {
    var seen: set<string> := {};
    merged := [];
    seen, merged := CollectTexts(existing, seen, merged, []);
    assert [] + Texts(existing) == Texts(existing);
    seen, merged := CollectTexts(supplements, seen, merged, Texts(existing));
  }

  method CollectTexts(items: seq<Json>, seen0: set<string>, merged0: seq<string>, ghost earlier: seq<string>)
    returns (seen: set<string>, merged: seq<string>)
    requires merged0 == Distinct(earlier) && forall x :: x in seen0 <==> x in merged0
    ensures merged == Distinct(earlier + Texts(items)) && forall x :: x in seen <==> x in merged
  {
    hide Texts, Distinct;
    seen, merged := seen0, merged0;
    var i := 0;
    assert earlier + Texts(items[..0]) == earlier by { NoTexts(items[..0]); }
    while i < |items|
      invariant 0 <= i <= |items|
      invariant merged == Distinct(earlier + Texts(items[..i])) && forall x :: x in seen <==> x in merged
    {
      var domain := items[i];
      TextsNext(items, i);
      if domain.Text? && domain.text != "" {
        DistinctAppend(earlier + Texts(items[..i]), domain.text);
        assert earlier + Texts(items[..i + 1]) == earlier + Texts(items[..i]) + [domain.text];
        if domain.text !in seen { seen, merged := seen + {domain.text}, merged + [domain.text]; }
      } else {
        assert Texts(items[..i + 1]) == Texts(items[..i]);
      }
      i := i + 1;
    }
    assert items[..i] == items;
  }

  lemma NoTexts(items: seq<Json>)
    requires items == []
    ensures Texts(items) == []
  {
  }

  lemma TextsNext(items: seq<Json>, i: nat)
    requires i < |items|
    ensures Texts(items[..i + 1]) ==
      Texts(items[..i]) + (if items[i].Text? && items[i].text != "" then [items[i].text] else [])
  {
    assert items[..i + 1][..i] == items[..i];
  }

  lemma {:induction false} TextsOfJson(texts: seq<string>)
    requires "" !in texts
    ensures Texts(AsJson(texts)) == texts
  {
    if texts != [] {
      var n := |texts| - 1;
      TextsOfJson(texts[..n]);
      assert AsJson(texts)[..n] == AsJson(texts[..n]);
      assert texts == texts[..n] + [texts[n]] && texts[n] in texts;
    }
  }

  function MergedDomains(existing: seq<Json>, supplements: seq<Json>): seq<Json> {
    AsJson(Distinct(Texts(existing) + Texts(supplements)))
  }

  lemma MergedDomainsSettle(existing: seq<Json>, supplements: seq<Json>)
    ensures var merged := MergedDomains(existing, supplements); MergedDomains(merged, supplements) == merged
  {
    var kept := Distinct(Texts(existing) + Texts(supplements));
    TextsOfJson(kept);
    DistinctKeeps(kept);
    DistinctIsSettled(kept, Texts(supplements));
  }

  function Items(json: Json): seq<Json> { if json.Array? then json.items else [] }

  function Value(fields: map<Key, Json>, key: Key): Json { if key in fields then fields[key] else Null }

  /** The overlay's supplementary domains are folded into the preset's own DNS domains; the merge
      metadata itself does not reach the catalogue. */
  function MergeDomainSupplements(target: Json, bundled: Json): (merged: Json)
    requires target.Object? && bundled.Object?
    ensures merged.Object?
  {
    if !Value(bundled.fields, DomainSupplements).Array? then Object(target.fields - {DomainSupplements})
    else
      var engines := Fields(Value(target.fields, Engines));
      var dns := Fields(Value(engines, Dns));
      var domains := MergedDomains(Items(Value(dns, Domains)), bundled.fields[DomainSupplements].items);
      Object(target.fields[Engines := Object(engines[Dns := Object(dns[Domains := Array(domains)])])] - {DomainSupplements})
  }

  method MergeSupplements(target: Json, bundled: Json) returns (merged: Json)
    requires target.Object? && bundled.Object?
    ensures merged == MergeDomainSupplements(target, bundled)
  {
    hide Texts, Distinct;
    var supplements := Value(bundled.fields, DomainSupplements);
    if !supplements.Array? {
      return Object(target.fields - {DomainSupplements});
    }
    var engines := Fields(Value(target.fields, Engines));
    var dns := Fields(Value(engines, Dns));
    var domains := CollectDomains(Items(Value(dns, Domains)), supplements.items);
    dns := dns[Domains := Array(AsJson(domains))];
    engines := engines[Dns := Object(dns)];
    merged := Object(target.fields[Engines := Object(engines)] - {DomainSupplements});
  }

  /** Merging twice is merging once; it leaves the subnets and the other fields alone. */
  lemma MergingSettles(target: Json, bundled: Json)
    requires target.Object? && bundled.Object?
    ensures var merged := MergeDomainSupplements(target, bundled);
      && MergeDomainSupplements(merged, bundled) == merged
      && DnsSubnets(merged) == DnsSubnets(target)
      && SameBut(target, merged, {Engines, DomainSupplements})
      && DomainSupplements !in merged.fields
  {
    hide MergedDomains;
    var merged := MergeDomainSupplements(target, bundled);
    if Value(bundled.fields, DomainSupplements).Array? {
      var supplements := bundled.fields[DomainSupplements].items;
      var existing := Items(Value(Fields(Value(Fields(Value(target.fields, Engines)), Dns)), Domains));
      MergedDomainsSettle(existing, supplements);
      var engines := merged.fields[Engines].fields;
      var dns := engines[Dns].fields;
      assert dns[Domains := dns[Domains]] == dns;
      assert engines[Dns := Object(dns)] == engines;
      assert merged.fields[Engines := Object(engines)] - {DomainSupplements} == merged.fields;
    } else {
      assert merged.fields - {DomainSupplements} == merged.fields;
    }
  }

  /** Aligning the subnets keeps a merged preset merged. */
  lemma AligningKeepsMerged(target: Json, bundled: Json)
    requires target.Object? && bundled.Object? && MergeDomainSupplements(target, bundled) == target
    requires AlignDnsSubnets(target, bundled).Done?
    ensures var aligned := AlignDnsSubnets(target, bundled).value;
      aligned.Object? && MergeDomainSupplements(aligned, bundled) == aligned
  {
    hide MergedDomains;
    var aligned := AlignDnsSubnets(target, bundled).value;
    MergingSettles(target, bundled);
    AlignmentAligns(target, bundled);
    assert aligned.fields - {DomainSupplements} == aligned.fields;
    if Value(bundled.fields, DomainSupplements).Array? {
      var engines := aligned.fields[Engines].fields;
      var dns := engines[Dns].fields;
      assert Value(dns, Domains) == target.fields[Engines].fields[Dns].fields[Domains];
      assert dns[Domains := dns[Domains]] == dns;
      assert engines[Dns := Object(dns)] == engines;
      assert aligned.fields[Engines := Object(engines)] == aligned.fields;
    }
  }

  // ----- edits of one preset -----

  /** What the overlay does to the first preset with an id: `Own` brings the fields the bundled preset
      owns, `Source` keeps the subnets of a routing companion's source preset. */
  datatype Edit = Own(id: string, bundled: Json) | Source(id: string, bundled: Json)

  predicate ValidEdit(e: Edit) { HasId(e.bundled, e.id) }

  function Carry(fields: map<Key, Json>, bundled: map<Key, Json>, key: Key): map<Key, Json> {
    if key in bundled then fields[key := bundled[key]] else fields
  }

  /** A notice is brought together with its translation, or the stale translation is dropped. */
  function CarryNotice(fields: map<Key, Json>, bundled: map<Key, Json>): map<Key, Json> {
    if Notice !in bundled then fields
    else if NoticeI18n in bundled then fields[Notice := bundled[Notice]][NoticeI18n := bundled[NoticeI18n]]
    else fields[Notice := bundled[Notice]] - {NoticeI18n}
  }

  function OverwriteOwned(target: Json, bundled: Json): Outcome<Json>
    requires target.Object? && bundled.Object?
  {
    var own := bundled.fields;
    match if RoutingCompanions in own
          then AlignDnsSubnets(Object(target.fields[RoutingCompanions := own[RoutingCompanions]]), bundled)
          else Done(target)
    case TypeError => TypeError
    case Done(aligned) =>
      Done(Object(CarryNotice(Carry(Carry(Carry(Fields(aligned), own, Covers), own, Warnings), own, Hidden), own)))
  }

  function Supplemented(target: Json, bundled: Json): (r: Json)
    requires target.Object? && bundled.Object?
    ensures r.Object?
  {
    if DomainSupplements in bundled.fields then MergeDomainSupplements(target, bundled) else target
  }

  function Change(target: Json, e: Edit): Outcome<Json>
    requires target.Object? && ValidEdit(e)
  {
    match e
    case Source(_, bundled) => AlignDnsSubnets(target, bundled)
    case Own(_, bundled) =>
      match OverwriteOwned(target, bundled)
      case TypeError => TypeError
      case Done(owned) => Done(Supplemented(owned, bundled))
  }

  /** What is added when no preset has the id. */
  function Addition(e: Edit): (preset: Json)
    requires ValidEdit(e)
    ensures preset.Object?
  {
    match e
    case Source(_, bundled) => bundled
    case Own(_, bundled) => Supplemented(bundled, bundled)
  }

  const OWNED_KEYS: set<Key> := {RoutingCompanions, Covers, Warnings, Hidden, Notice}

  /** The preset shows every field the bundled one owns, and no translation of another notice. */
  predicate ShowsOwned(target: Json, bundled: Json)
    requires target.Object? && bundled.Object?
  {
    && (forall k :: k in OWNED_KEYS && k in bundled.fields ==> k in target.fields && target.fields[k] == bundled.fields[k])
    && (Notice in bundled.fields ==>
          (NoticeI18n in target.fields <==> NoticeI18n in bundled.fields)
          && (NoticeI18n in bundled.fields ==> target.fields[NoticeI18n] == bundled.fields[NoticeI18n]))
  }

  /** What an edit establishes. */
  predicate Settled(target: Json, e: Edit)
    requires target.Object? && ValidEdit(e)
  {
    match e
    case Source(_, bundled) => DnsSubnets(target) == DnsSubnets(bundled)
    case Own(_, bundled) =>
      && ShowsOwned(target, bundled)
      && (RoutingCompanions in bundled.fields ==> DnsSubnets(target) == DnsSubnets(bundled))
      && (DomainSupplements in bundled.fields ==> MergeDomainSupplements(target, bundled) == target)
  }
}
