/** The projection of the durable ownership records onto the observed interfaces, and which of its results
    the panel's own check accepts. */
module NativeProjection {
  import opened Basics
  import opened Text
  import opened DistinctValues
  import OrderedKeys
  import opened WireguardIdentity
  import opened NativeInventory

  datatype ImportKind = ImportWireguard | ImportAmneziaWireguard | UnknownImportKind

  datatype Claim = Claim(name: string, kind: ImportKind, lifecycle: Lifecycle, revision: string, forgetCapable: bool)

  datatype Ownership = Ownership(readable: bool, claims: seq<Claim>)

  const MAXIMUM_CLAIMS: nat := 128

  // ----- the records -----

  predicate ValidClaim(c: Claim) {
    && Slot(c.name).Some? && CanonicalName(Slot(c.name).value) == c.name
    && c.kind != UnknownImportKind && c.lifecycle != UnknownLifecycle
    && (c.forgetCapable ==> c.lifecycle == DeletedSaveAcknowledged)
    && OpaqueRevision(c.revision, c.lifecycle)
  }

  /** The store keeps its own idea of a revision: a tombstone has the tombstone form, an active record one of two. */
  predicate OpaqueRevision(revision: string, lifecycle: Lifecycle) {
    if lifecycle == DeletedSaveAcknowledged then RevisionWithPrefix(revision, "ndms-native-owner-tombstone-v1-")
    else RevisionWithPrefix(revision, "ndms-native-owner-v2-") || RevisionWithPrefix(revision, "ndms-native-owner-v3-")
  }

  predicate DistinctClaims(claims: seq<Claim>) {
    forall i, j :: 0 <= i < j < |claims| ==> claims[i].name != claims[j].name
  }

  /** The records can be used: readable, not too many, each valid, and no name twice. */
  predicate ValidOwnership(o: Ownership) {
    && o.readable && |o.claims| <= MAXIMUM_CLAIMS && DistinctClaims(o.claims)
    && forall c :: c in o.claims ==> ValidClaim(c)
  }

  ghost predicate MapOf(m: map<string, Claim>, claims: seq<Claim>) {
    && (forall c :: c in claims ==> c.name in m && m[c.name] == c)
    && (forall k :: k in m ==> m[k] in claims && m[k].name == k)
  }

  method ValidatedClaims(o: Ownership) returns (r: Option<map<string, Claim>>)
    ensures r.Some? <==> ValidOwnership(o)
    ensures r.Some? ==> MapOf(r.value, o.claims)
  {
    hide ValidClaim;
    if !o.readable || |o.claims| > MAXIMUM_CLAIMS {
      return None;
    }
    var m := map[];
    var i := 0;
    while i < |o.claims|
      invariant 0 <= i <= |o.claims| && MapOf(m, o.claims[..i]) && DistinctClaims(o.claims[..i])
      invariant forall c :: c in o.claims[..i] ==> ValidClaim(c)
    {
      var c := o.claims[i];
      assert c in o.claims;
      if !ValidClaim(c) {
        return None;
      }
      if c.name in m {
        NameIsTaken(o.claims, i, m);
        return None;
      }
      assert o.claims[..i + 1] == o.claims[..i] + [c];
      assert forall j :: 0 <= j < i ==> o.claims[j] in o.claims[..i];
      m := m[c.name := c];
      i := i + 1;
    }
    assert o.claims[..i] == o.claims;
    return Some(m);
  }

  lemma NameIsTaken(claims: seq<Claim>, i: nat, m: map<string, Claim>)
    requires i < |claims| && MapOf(m, claims[..i]) && claims[i].name in m
    ensures !DistinctClaims(claims)
  {
    var c := m[claims[i].name];
    var j :| 0 <= j < i && claims[..i][j] == c;
    assert claims[j].name == claims[i].name;
  }

  // ----- one interface -----

  /** An imported AmneziaWG client may be observed as plain WireGuard, not the other way round. */
  predicate MatchingKind(observed: TunnelKind, claimed: ImportKind) {
    || (observed == Wireguard && (claimed == ImportWireguard || claimed == ImportAmneziaWireguard))
    || (observed == AmneziaWireguard && claimed == ImportAmneziaWireguard)
  }

  function Simple(name: string, state: OwnershipState, blocker: DeleteBlocker): Row {
    Row(name, state, None, None, false, [blocker], [])
  }

  /** A journal state nobody knows blocks as the worst known one. */
  function AddedImportBlocker(journal: ImportJournal): seq<DeleteBlocker> {
    if journal == UnknownImportJournal then [ImportUnavailable] else ImportBlocker(journal)
  }

  function AddedDeleteBlocker(journal: DeleteJournal): seq<DeleteBlocker> {
    if journal == UnknownDeleteJournal then [DeleteUnsafe] else DeleteJournalBlocker(journal)
  }

  function ActiveBlockers(tunnel: Tunnel, current: bool, c: Claim, importJournal: ImportJournal, deleteJournal: DeleteJournal)
    : seq<DeleteBlocker>
  {
    (if current then [] else [CatalogNotFresh])
    + (if MatchingKind(tunnel.kind, c.kind) then [] else [OwnershipKindMismatch])
    + AddedImportBlocker(importJournal) + AddedDeleteBlocker(deleteJournal)
  }

  function ProjectOne(tunnel: Tunnel, current: bool, claims: Option<map<string, Claim>>,
                      importJournal: ImportJournal, deleteJournal: DeleteJournal): Row {
    if !NativeKind(tunnel.kind) then Simple(tunnel.name, NotApplicable, UnsupportedKind)
    else if !(Slot(tunnel.name).Some? && CanonicalName(Slot(tunnel.name).value) == tunnel.name) then
      Simple(tunnel.name, Foreign, InvalidOrProtectedTarget)
    else if claims.None? then Simple(tunnel.name, StateUnavailable, OwnershipInventoryUnavailable)
    else if tunnel.name !in claims.value then Simple(tunnel.name, Foreign, OwnershipAbsent)
    else
      var c := claims.value[tunnel.name];
      if c.lifecycle == DeletedSaveAcknowledged then
        Row(tunnel.name, OwnedTombstone, Some(c.lifecycle), Some(c.revision), false, [OwnershipNotActive], [])
      else
        var blockers := ActiveBlockers(tunnel, current, c, importJournal, deleteJournal);
        Row(tunnel.name, OwnedActive, Some(c.lifecycle), Some(c.revision), blockers == [], blockers,
            [EncryptedSnapshot, Dependencies, DirectState])
  }

  // ----- retained deletions -----

  function AddedForgetImportBlocker(journal: ImportJournal): seq<ForgetBlocker> {
    if journal == UnknownImportJournal then [ForgetImportUnavailable] else ForgetImportBlocker(journal)
  }

  function AddedForgetDeleteBlocker(journal: DeleteJournal): seq<ForgetBlocker> {
    if journal == UnknownDeleteJournal then [ForgetDeleteUnsafe] else ForgetDeleteBlocker(journal)
  }

  function ProjectRetained(c: Claim, tunnels: seq<Tunnel>, current: bool, importJournal: ImportJournal, deleteJournal: DeleteJournal)
    : Retained
  {
    var blockers :=
      (if current then [] else [ForgetCatalogNotFresh])
      + (if Present(c.name, tunnels) then [TargetPresent] else [])
      + (if c.forgetCapable then [] else [SchemaNotForgetCapable])
      + AddedForgetImportBlocker(importJournal) + AddedForgetDeleteBlocker(deleteJournal);
    Retained(c.name, c.revision, blockers == [], blockers, [SnapshotOrAbsence, ForgetDependencies, KernelAbsence, DualScopeAbsence])
  }

  predicate IsTombstone(c: Claim) { c.lifecycle == DeletedSaveAcknowledged }

  // ----- the whole projection -----

  /** One row per interface in their order, and one retained deletion per tombstone in name order. */
  ghost predicate Projects(p: Projection, tunnels: seq<Tunnel>, current: bool, o: Ownership, claims: Option<map<string, Claim>>) {
    && (claims.Some? <==> ValidOwnership(o)) && (claims.Some? ==> MapOf(claims.value, o.claims))
    && p.available == claims.Some?
    && |p.rows| == |tunnels|
    && (forall i :: 0 <= i < |tunnels| ==> p.rows[i] == ProjectOne(tunnels[i], current, claims, p.importJournal, p.deleteJournal))
    && (claims.None? ==> p.retained == [])
    && (claims.Some? ==> Sorted(p.retained) && forall r :: r in p.retained <==> Retains(r, tunnels, current, o.claims, p))
  }

  ghost predicate Retains(r: Retained, tunnels: seq<Tunnel>, current: bool, claims: seq<Claim>, p: Projection) {
    exists c :: c in claims && IsTombstone(c) && r == ProjectRetained(c, tunnels, current, p.importJournal, p.deleteJournal)
  }

  method ProjectNativeInventory(tunnels: seq<Tunnel>, current: bool, o: Ownership, importJournal: ImportJournal, deleteJournal: DeleteJournal)
    returns (p: Projection, ghost claims: Option<map<string, Claim>>)
    ensures Projects(p, tunnels, current, o, claims)
    ensures p.importJournal == importJournal && p.deleteJournal == deleteJournal
  {
    hide ValidOwnership, MapOf, ProjectOne, ProjectRetained, IsTombstone, Sorted;
    var m := ValidatedClaims(o);
    var rows := [];
    var i := 0;
    while i < |tunnels|
      invariant 0 <= i <= |tunnels| && |rows| == i
      invariant forall k :: 0 <= k < i ==> rows[k] == ProjectOne(tunnels[k], current, m, importJournal, deleteJournal)
    {
      rows := rows + [ProjectOne(tunnels[i], current, m, importJournal, deleteJournal)];
      i := i + 1;
    }
    var retained := [];
    p := Projection(m.Some?, importJournal, deleteJournal, rows, retained);
    claims := m;
    if m.Some? {
      retained := RetainedInOrder(tunnels, current, m.value, o.claims, p);
      p := p.(retained := retained);
    }
  }

  /** The walk over the map, name by name. */
  method RetainedInOrder(tunnels: seq<Tunnel>, current: bool, m: map<string, Claim>, ghost claims: seq<Claim>, p: Projection)
    returns (retained: seq<Retained>)
    requires MapOf(m, claims)
    ensures Sorted(retained) && forall r :: r in retained <==> Retains(r, tunnels, current, claims, p)
  {
    hide Less, ProjectRetained;
    var names := NamesInOrder(m);
    retained := [];
    var i := 0;
    while i < |names|
      invariant 0 <= i <= |names| && Sorted(retained)
      invariant forall r :: r in retained ==> r.name in names[..i]
      invariant forall r :: r in retained <==> RetainsFrom(r, tunnels, current, m, names[..i], p)
    {
      var c := m[names[i]];
      assert names[..i + 1] == names[..i] + [names[i]];
      var r := ProjectRetained(c, tunnels, current, p.importJournal, p.deleteJournal);
      assert r.name == names[i] by { NameOfRetained(c, tunnels, current, p); }
      if IsTombstone(c) {
        NextInOrder(retained, r, names, i);
        retained := retained + [r];
      }
      i := i + 1;
    }
    assert names[..i] == names;
    forall r ensures RetainsFrom(r, tunnels, current, m, names, p) <==> Retains(r, tunnels, current, claims, p) { }
  }

  ghost predicate RetainsFrom(r: Retained, tunnels: seq<Tunnel>, current: bool, m: map<string, Claim>, names: seq<string>, p: Projection) {
    exists n :: n in names && n in m && IsTombstone(m[n]) && r == ProjectRetained(m[n], tunnels, current, p.importJournal, p.deleteJournal)
  }

  lemma NameOfRetained(c: Claim, tunnels: seq<Tunnel>, current: bool, p: Projection)
    ensures var r := ProjectRetained(c, tunnels, current, p.importJournal, p.deleteJournal); r.name == c.name && r.revision == c.revision
  {
  }

  lemma NextInOrder(retained: seq<Retained>, r: Retained, names: seq<string>, i: nat)
    requires OrderedKeys.Ascending(names) && i < |names| && r.name == names[i] && Sorted(retained)
    requires forall x :: x in retained ==> x.name in names[..i]
    ensures Sorted(retained + [r])
  {
    hide Less;
    forall j | 0 <= j < |retained| ensures Less(retained[j].name, r.name) {
      assert retained[j] in retained;
      var k :| 0 <= k < i && names[..i][k] == retained[j].name;
      assert names[k] == retained[j].name;
    }
  }

  method NamesInOrder(m: map<string, Claim>) returns (names: seq<string>)
    ensures OrderedKeys.Ascending(names) && forall x :: x in names <==> x in m
  {
    hide OrderedKeys.Ascending;
    names := [];
    assert OrderedKeys.Ascending(names) by { NoNames(); }
    var rest := m.Keys;
    while rest != {}
      invariant rest <= m.Keys && OrderedKeys.Ascending(names) && forall x :: x in names <==> x in m.Keys - rest
      decreases |rest|
    {
      var x :| x in rest;
      names := OrderedKeys.Insert(names, x);
      rest := rest - {x};
    }
  }

  lemma NoNames()
    ensures OrderedKeys.Ascending([])
  {
  }

  // ----- which projections the panel accepts -----

  ghost function TombstoneNames(claims: seq<Claim>): set<string> {
    set c | c in claims && IsTombstone(c) :: c.name
  }

  /** The interface that bears a tombstone's name, if there is one, is a native tunnel. */
  ghost predicate TombstonesAreNative(claims: seq<Claim>, tunnels: seq<Tunnel>) {
    forall c :: c in claims && IsTombstone(c) ==>
      FirstNamed(tunnels, c.name) < |tunnels| ==> NativeKind(tunnels[FirstNamed(tunnels, c.name)].kind)
  }

  /** What the panel can show: known journals and, when the records can be used, at most 94 tombstones, none of
      them under the name of an interface of another kind. */
  ghost predicate FitsThePanel(o: Ownership, tunnels: seq<Tunnel>, importJournal: ImportJournal, deleteJournal: DeleteJournal) {
    && importJournal != UnknownImportJournal && deleteJournal != UnknownDeleteJournal
    && (ValidOwnership(o) ==> |TombstoneNames(o.claims)| <= MAXIMUM_RETAINED && TombstonesAreNative(o.claims, tunnels))
  }

  lemma RowIsValid(tunnel: Tunnel, current: bool, claims: Option<map<string, Claim>>, o: Ownership, p: Projection)
    requires p.importJournal != UnknownImportJournal && p.deleteJournal != UnknownDeleteJournal && p.available == claims.Some?
    requires claims.Some? ==> ValidOwnership(o) && MapOf(claims.value, o.claims)
    ensures ValidRow(tunnel, ProjectOne(tunnel, current, claims, p.importJournal, p.deleteJournal), current, p)
  {
    hide Slot, CanonicalName, ValidClaim, ActiveBlockers, ValidActive, ValidTombstone;
    if Slot(tunnel.name).Some? { ParsedNamesAreCanonical(tunnel.name); }
    if claims.Some? && tunnel.name in claims.value {
      var c := claims.value[tunnel.name];
      assert ValidClaim(c);
      var row := ProjectOne(tunnel, current, claims, p.importJournal, p.deleteJournal);
      if row.state == OwnedTombstone { TombstoneRowIsValid(c, row); }
      if row.state == OwnedActive { ActiveRowIsValid(tunnel, current, c, p, row); }
    }
  }

  lemma TombstoneRowIsValid(c: Claim, row: Row)
    requires ValidClaim(c) && row.lifecycle == Some(DeletedSaveAcknowledged) && c.lifecycle == DeletedSaveAcknowledged
    requires row.state == OwnedTombstone && row.revision == Some(c.revision)
    requires !row.deleteCandidate && row.blockers == [OwnershipNotActive] && row.deferred == []
    ensures ValidTombstone(row) && KnownParts(row)
  {
    hide Slot, CanonicalName, RevisionWithPrefix;
  }

  lemma ActiveRowIsValid(tunnel: Tunnel, current: bool, c: Claim, p: Projection, row: Row)
    requires p.importJournal != UnknownImportJournal && p.deleteJournal != UnknownDeleteJournal && ValidClaim(c)
    requires row.state == OwnedActive && c.lifecycle != DeletedSaveAcknowledged
    requires row.lifecycle == Some(c.lifecycle) && row.revision == Some(c.revision)
    requires row.deferred == [EncryptedSnapshot, Dependencies, DirectState]
    requires row.blockers == ActiveBlockers(tunnel, current, c, p.importJournal, p.deleteJournal) && row.deleteCandidate == (row.blockers == [])
    ensures ValidActive(row, current, p) && KnownParts(row)
  {
    hide Slot, CanonicalName, RevisionWithPrefix, MatchingKind;
    BlockersMatch(tunnel, current, c, p);
  }

  lemma BlockersMatch(tunnel: Tunnel, current: bool, c: Claim, p: Projection)
    requires p.importJournal != UnknownImportJournal && p.deleteJournal != UnknownDeleteJournal
    ensures var blockers := ActiveBlockers(tunnel, current, c, p.importJournal, p.deleteJournal);
      && (OwnershipKindMismatch in blockers <==> !MatchingKind(tunnel.kind, c.kind))
      && |blockers| <= 13 && UnknownDeleteBlocker !in blockers
  {
    hide MatchingKind;
  }

  lemma RetainedIsValid(c: Claim, tunnels: seq<Tunnel>, current: bool, p: Projection)
    requires p.importJournal != UnknownImportJournal && p.deleteJournal != UnknownDeleteJournal
    requires ValidClaim(c) && IsTombstone(c)
    ensures ValidRetained(ProjectRetained(c, tunnels, current, p.importJournal, p.deleteJournal), tunnels, current, p)
  {
    hide Slot, CanonicalName, RevisionWithPrefix, Present;
    var r := ProjectRetained(c, tunnels, current, p.importJournal, p.deleteJournal);
    assert SchemaNotForgetCapable in r.blockers <==> !c.forgetCapable;
    assert |r.blockers| <= 9 && UnknownForgetBlocker !in r.blockers;
    assert r.blockers == ExpectedForgetBlockers(r, tunnels, current, p);
  }

  /** A tombstone agrees with its row exactly when that row is one of a native tunnel. */
  lemma AgreesExactlyWhen(c: Claim, p: Projection, tunnels: seq<Tunnel>, current: bool, o: Ownership, claims: Option<map<string, Claim>>)
    requires Projects(p, tunnels, current, o, claims) && claims.Some? && c in o.claims && IsTombstone(c)
    ensures var i := FirstNamed(tunnels, c.name);
      (i < |tunnels| ==> NativeKind(tunnels[i].kind)) <==>
      AgreesWithRow(ProjectRetained(c, tunnels, current, p.importJournal, p.deleteJournal), p.rows, tunnels)
  {
    hide OpaqueRevision, CanonicalName, Slot, Sorted, Retains, ProjectRetained;
    NameOfRetained(c, tunnels, current, p);
    assert ValidClaim(c);
    var i := FirstNamed(tunnels, c.name);
    if i < |tunnels| {
      assert p.rows[i] == ProjectOne(tunnels[i], current, claims, p.importJournal, p.deleteJournal);
      assert claims.value[c.name] == c;
    }
  }

  lemma TombstoneRowsAreRetained(p: Projection, tunnels: seq<Tunnel>, current: bool, o: Ownership, claims: Option<map<string, Claim>>, i: nat)
    requires Projects(p, tunnels, current, o, claims) && i < |p.rows| && p.rows[i].state == OwnedTombstone
    ensures HasRetained(p.rows[i], p.retained)
  {
    hide ValidOwnership, CanonicalName, Slot, Sorted, ProjectRetained;
    assert p.rows[i] == ProjectOne(tunnels[i], current, claims, p.importJournal, p.deleteJournal);
    var c := claims.value[tunnels[i].name];
    NameOfRetained(c, tunnels, current, p);
    var r := ProjectRetained(c, tunnels, current, p.importJournal, p.deleteJournal);
    assert Retains(r, tunnels, current, o.claims, p);
    assert r in p.retained;
  }

  function Names(retained: seq<Retained>): (names: seq<string>)
    ensures |names| == |retained| && forall i :: 0 <= i < |retained| ==> names[i] == retained[i].name
  {
    seq(|retained|, i requires 0 <= i < |retained| => retained[i].name)
  }

  /** There are as many retained deletions as tombstones. */
  lemma OneForEachTombstone(p: Projection, tunnels: seq<Tunnel>, current: bool, o: Ownership, claims: Option<map<string, Claim>>)
    requires Projects(p, tunnels, current, o, claims) && claims.Some?
    ensures |p.retained| == |TombstoneNames(o.claims)|
  {
    hide ValidOwnership, MapOf, ProjectOne, ProjectRetained, IsTombstone, Less;
    var names := Names(p.retained);
    forall i, j | 0 <= i < j < |names| ensures names[i] != names[j] { LessIsTotal(names[i], names[j]); }
    forall x ensures x in names <==> x in TombstoneNames(o.claims) {
      if x in names {
        var i :| 0 <= i < |names| && names[i] == x;
        assert Retains(p.retained[i], tunnels, current, o.claims, p);
        var c :| c in o.claims && IsTombstone(c) && p.retained[i] == ProjectRetained(c, tunnels, current, p.importJournal, p.deleteJournal);
        NameOfRetained(c, tunnels, current, p);
      }
      if x in TombstoneNames(o.claims) {
        var c :| c in o.claims && IsTombstone(c) && c.name == x;
        NameOfRetained(c, tunnels, current, p);
        var r := ProjectRetained(c, tunnels, current, p.importJournal, p.deleteJournal);
        assert Retains(r, tunnels, current, o.claims, p);
        var i :| 0 <= i < |p.retained| && p.retained[i] == r;
        assert names[i] == x;
      }
    }
    CountOfDistinct(names, TombstoneNames(o.claims));
  }

  /** The panel's check accepts what this projection builds exactly when it fits. */
  lemma ProjectionIsAcceptedExactlyWhen(p: Projection, tunnels: seq<Tunnel>, current: bool, o: Ownership, claims: Option<map<string, Claim>>)
    requires Projects(p, tunnels, current, o, claims)
    ensures Accepted(p, tunnels, current) <==> FitsThePanel(o, tunnels, p.importJournal, p.deleteJournal)
  {
    hide ValidRow, ValidRetained, ProjectOne, ProjectRetained, AgreesWithRow, HasRetained, Less, MapOf, TombstoneNames;
    if p.importJournal != UnknownImportJournal && p.deleteJournal != UnknownDeleteJournal {
      forall i | 0 <= i < |tunnels| ensures ValidRow(tunnels[i], p.rows[i], current, p) {
        RowIsValid(tunnels[i], current, claims, o, p);
      }
      if claims.Some? {
        OneForEachTombstone(p, tunnels, current, o, claims);
        forall i | 0 <= i < |p.rows| && p.rows[i].state == OwnedTombstone ensures HasRetained(p.rows[i], p.retained) {
          TombstoneRowsAreRetained(p, tunnels, current, o, claims, i);
        }
        RetainedFit(p, tunnels, current, o, claims);
      }
    }
  }

  lemma RetainedFit(p: Projection, tunnels: seq<Tunnel>, current: bool, o: Ownership, claims: Option<map<string, Claim>>)
    requires Projects(p, tunnels, current, o, claims) && claims.Some?
    requires p.importJournal != UnknownImportJournal && p.deleteJournal != UnknownDeleteJournal
    ensures TombstonesAreNative(o.claims, tunnels) <==>
      forall j :: 0 <= j < |p.retained| ==>
        ValidRetained(p.retained[j], tunnels, current, p) && AgreesWithRow(p.retained[j], p.rows, tunnels)
  {
    hide ValidRetained, ProjectOne, ProjectRetained, AgreesWithRow, Less, MapOf, ValidClaim, IsTombstone, NativeKind;
    forall c | c in o.claims && IsTombstone(c)
      ensures var r := ProjectRetained(c, tunnels, current, p.importJournal, p.deleteJournal);
        && r in p.retained && ValidRetained(r, tunnels, current, p)
        && (AgreesWithRow(r, p.rows, tunnels) <==> (FirstNamed(tunnels, c.name) < |tunnels| ==> NativeKind(tunnels[FirstNamed(tunnels, c.name)].kind)))
    {
      var r := ProjectRetained(c, tunnels, current, p.importJournal, p.deleteJournal);
      assert Retains(r, tunnels, current, o.claims, p);
      RetainedIsValid(c, tunnels, current, p);
      AgreesExactlyWhen(c, p, tunnels, current, o, claims);
    }
    assert forall j :: 0 <= j < |p.retained| ==> Retains(p.retained[j], tunnels, current, o.claims, p);
  }

  // ----- records the panel cannot show -----

  function Zeros(n: nat): (s: string)
    ensures |s| == n && forall i :: 0 <= i < n ==> s[i] == '0'
  {
    if n == 0 then "" else Zeros(n - 1) + "0"
  }

  function Deleted(slot: nat): Claim {
    Claim(CanonicalName(slot), ImportWireguard, DeletedSaveAcknowledged, "ndms-native-owner-tombstone-v1-" + Zeros(64), true)
  }

  lemma DeletedIsValid(slot: nat)
    requires slot <= 126
    ensures ValidClaim(Deleted(slot))
  {
    hide Slot, CanonicalName, Zeros;
    SlotExactlyWhen(CanonicalName(slot), slot);
    var prefix := "ndms-native-owner-tombstone-v1-";
    var revision := prefix + Zeros(64);
    assert revision[|prefix|..] == Zeros(64) && revision[..|prefix|] == prefix;
    assert RevisionWithPrefix(revision, prefix);
  }

  /** Valid records with a tombstone in each of 95 slots: every interface list makes the panel refuse the whole
      projection, although the limit on records is 128 and there are 127 slots. */
  lemma ManyTombstonesAreRefused(tunnels: seq<Tunnel>, importJournal: ImportJournal, deleteJournal: DeleteJournal) returns (o: Ownership)
    ensures ValidOwnership(o) && !FitsThePanel(o, tunnels, importJournal, deleteJournal)
  {
    hide ValidClaim, CanonicalName;
    var claims := seq(95, i requires 0 <= i < 95 => Deleted(i));
    forall c | c in claims ensures ValidClaim(c) {
      var i :| 0 <= i < 95 && claims[i] == c;
      DeletedIsValid(i);
    }
    forall i, j | 0 <= i < j < 95 ensures claims[i].name != claims[j].name {
      SlotExactlyWhen(claims[i].name, i);
      SlotExactlyWhen(claims[j].name, j);
      assert Slot(claims[i].name) == Some(i) && Slot(claims[j].name) == Some(j);
    }
    o := Ownership(true, claims);
    var names := seq(95, i requires 0 <= i < 95 => claims[i].name);
    forall x ensures x in names <==> x in TombstoneNames(claims) {
      if x in names {
        var i :| 0 <= i < 95 && names[i] == x;
        assert claims[i] in claims && IsTombstone(claims[i]);
      }
      if x in TombstoneNames(claims) {
        var i :| 0 <= i < 95 && claims[i].name == x;
        assert names[i] == x;
      }
    }
    CountOfDistinct(names, TombstoneNames(claims));
  }
}
