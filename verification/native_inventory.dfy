/** The all-or-nothing check of a native interface inventory: every row, every retained deletion and
    the correspondence between the two, before any delete or forget candidate reaches a client. */
module NativeInventory {
  import opened Basics
  import opened Text
  import opened WireguardIdentity

  // Every enumeration has values the panel does not know; a projection that holds one is refused.

  datatype TunnelKind = Wireguard | AmneziaWireguard | OtherKind

  datatype OwnershipState = NotApplicable | Foreign | OwnedActive | OwnedTombstone | StateUnavailable | UnknownState

  datatype Lifecycle = RunningOnly | SaveAcknowledged | DeletedSaveAcknowledged | UnknownLifecycle

  datatype DeleteBlocker =
    | UnsupportedKind | InvalidOrProtectedTarget | CatalogNotFresh | OwnershipInventoryUnavailable | OwnershipAbsent
    | OwnershipNotActive | OwnershipKindMismatch | ImportNotAuthoritativelyClean | ImportRecoveryRequired | ImportUnsafe
    | ImportUnavailable | DeleteRecoveryRequired | DeleteUnsafe | UnknownDeleteBlocker

  datatype ForgetBlocker =
    | ForgetCatalogNotFresh | TargetPresent | SchemaNotForgetCapable | ForgetImportNotAuthoritativelyClean
    | ForgetImportRecoveryRequired | ForgetImportUnsafe | ForgetImportUnavailable | ForgetDeleteRecoveryRequired
    | ForgetDeleteUnsafe | UnknownForgetBlocker

  datatype DeleteCheck = EncryptedSnapshot | Dependencies | DirectState | UnknownDeleteCheck

  datatype ForgetCheck = SnapshotOrAbsence | ForgetDependencies | KernelAbsence | DualScopeAbsence | UnknownForgetCheck

  datatype ImportJournal =
    | CleanNeverActivated | ImportClean | ImportNeedsRecovery | ImportJournalUnsafe | ImportJournalUnavailable
    | UnknownImportJournal

  datatype DeleteJournal = DeleteClean | DeleteUnfinished | DeleteJournalUnsafe | UnknownDeleteJournal

  datatype Tunnel = Tunnel(name: string, kind: TunnelKind)

  datatype Row = Row(
    name: string, state: OwnershipState, lifecycle: Option<Lifecycle>, revision: Option<string>,
    deleteCandidate: bool, blockers: seq<DeleteBlocker>, deferred: seq<DeleteCheck>)

  datatype Retained = Retained(
    name: string, revision: string, forgetCandidate: bool, blockers: seq<ForgetBlocker>, deferred: seq<ForgetCheck>)

  datatype Projection = Projection(
    available: bool, importJournal: ImportJournal, deleteJournal: DeleteJournal, rows: seq<Row>, retained: seq<Retained>)

  // ----- revisions -----

  predicate LowerHexDigest(value: string) {
    |value| == 64 && forall i :: 0 <= i < 64 ==> '0' <= value[i] <= '9' || 'a' <= value[i] <= 'f'
  }

  predicate RevisionWithPrefix(value: string, prefix: string) {
    |value| == |prefix| + 64 && value[..|prefix|] == prefix && LowerHexDigest(value[|prefix|..])
  }

  predicate TombstoneRevision(revision: string) { RevisionWithPrefix(revision, "ndms-native-owner-tombstone-v1-") }

  predicate ValidRevision(revision: string, lifecycle: Lifecycle) {
    if lifecycle == DeletedSaveAcknowledged then TombstoneRevision(revision)
    else RevisionWithPrefix(revision, "ndms-native-owner-v2-") || RevisionWithPrefix(revision, "ndms-native-owner-v3-")
  }

  // ----- one row -----

  function ImportBlocker(journal: ImportJournal): seq<DeleteBlocker> {
    match journal
    case ImportClean => []
    case CleanNeverActivated => [ImportNotAuthoritativelyClean]
    case ImportNeedsRecovery => [ImportRecoveryRequired]
    case ImportJournalUnsafe => [ImportUnsafe]
    case ImportJournalUnavailable => [ImportUnavailable]
    case UnknownImportJournal => []
  }

  function DeleteJournalBlocker(journal: DeleteJournal): seq<DeleteBlocker> {
    match journal
    case DeleteClean => []
    case DeleteUnfinished => [DeleteRecoveryRequired]
    case DeleteJournalUnsafe => [DeleteUnsafe]
    case UnknownDeleteJournal => []
  }

  function ExpectedBlockers(row: Row, current: bool, p: Projection): seq<DeleteBlocker> {
    (if current then [] else [CatalogNotFresh])
    + (if OwnershipKindMismatch in row.blockers then [OwnershipKindMismatch] else [])
    + ImportBlocker(p.importJournal) + DeleteJournalBlocker(p.deleteJournal)
  }

  predicate ExactSimple(row: Row, state: OwnershipState, blocker: DeleteBlocker) {
    && row.state == state && row.lifecycle == None && row.revision == None && !row.deleteCandidate
    && row.blockers == [blocker] && row.deferred == []
  }

  predicate ValidActive(row: Row, current: bool, p: Projection) {
    && (row.lifecycle == Some(RunningOnly) || row.lifecycle == Some(SaveAcknowledged))
    && row.revision.Some? && ValidRevision(row.revision.value, row.lifecycle.value)
    && row.deferred == [EncryptedSnapshot, Dependencies, DirectState]
    && row.blockers == ExpectedBlockers(row, current, p)
    && row.deleteCandidate == (ExpectedBlockers(row, current, p) == [])
  }

  predicate ValidTombstone(row: Row) {
    && row.lifecycle == Some(DeletedSaveAcknowledged)
    && row.revision.Some? && ValidRevision(row.revision.value, DeletedSaveAcknowledged)
    && !row.deleteCandidate && row.blockers == [OwnershipNotActive] && row.deferred == []
  }

  predicate ManagedTarget(tunnel: Tunnel) { Slot(tunnel.name).Some? }

  predicate NativeKind(kind: TunnelKind) { kind == Wireguard || kind == AmneziaWireguard }

  predicate KnownParts(row: Row) {
    && row.state != UnknownState && row.lifecycle != Some(UnknownLifecycle)
    && |row.blockers| <= 13 && UnknownDeleteBlocker !in row.blockers
    && |row.deferred| <= 3 && UnknownDeleteCheck !in row.deferred
  }

  predicate ValidRow(tunnel: Tunnel, row: Row, current: bool, p: Projection) {
    && row.name == tunnel.name && KnownParts(row)
    && if !NativeKind(tunnel.kind) then ExactSimple(row, NotApplicable, UnsupportedKind)
       else if !ManagedTarget(tunnel) then ExactSimple(row, Foreign, InvalidOrProtectedTarget)
       else if !p.available then ExactSimple(row, StateUnavailable, OwnershipInventoryUnavailable)
       else match row.state
         case Foreign => ExactSimple(row, Foreign, OwnershipAbsent)
         case OwnedActive => ValidActive(row, current, p)
         case OwnedTombstone => ValidTombstone(row)
         case _ => false
  }

  // ----- one retained deletion -----

  function ForgetImportBlocker(journal: ImportJournal): seq<ForgetBlocker> {
    match journal
    case ImportClean => []
    case CleanNeverActivated => [ForgetImportNotAuthoritativelyClean]
    case ImportNeedsRecovery => [ForgetImportRecoveryRequired]
    case ImportJournalUnsafe => [ForgetImportUnsafe]
    case ImportJournalUnavailable => [ForgetImportUnavailable]
    case UnknownImportJournal => []
  }

  function ForgetDeleteBlocker(journal: DeleteJournal): seq<ForgetBlocker> {
    match journal
    case DeleteClean => []
    case DeleteUnfinished => [ForgetDeleteRecoveryRequired]
    case DeleteJournalUnsafe => [ForgetDeleteUnsafe]
    case UnknownDeleteJournal => []
  }

  predicate Present(name: string, tunnels: seq<Tunnel>) {
    exists i :: 0 <= i < |tunnels| && tunnels[i].name == name
  }

  function ExpectedForgetBlockers(r: Retained, tunnels: seq<Tunnel>, current: bool, p: Projection): seq<ForgetBlocker> {
    (if current then [] else [ForgetCatalogNotFresh])
    + (if Present(r.name, tunnels) then [TargetPresent] else [])
    + (if SchemaNotForgetCapable in r.blockers then [SchemaNotForgetCapable] else [])
    + ForgetImportBlocker(p.importJournal) + ForgetDeleteBlocker(p.deleteJournal)
  }

  predicate ValidRetained(r: Retained, tunnels: seq<Tunnel>, current: bool, p: Projection) {
    && Slot(r.name).Some? && CanonicalName(Slot(r.name).value) == r.name
    && TombstoneRevision(r.revision)
    && |r.blockers| <= 9 && UnknownForgetBlocker !in r.blockers
    && r.deferred == [SnapshotOrAbsence, ForgetDependencies, KernelAbsence, DualScopeAbsence]
    && r.blockers == ExpectedForgetBlockers(r, tunnels, current, p)
    && r.forgetCandidate == (ExpectedForgetBlockers(r, tunnels, current, p) == [])
  }

  /** The separate comparison with the canonical name can never refuse a parsed name. */
  lemma ParsedNamesAreCanonical(name: string)
    requires Slot(name).Some?
    ensures CanonicalName(Slot(name).value) == name
  {
    SlotExactlyWhen(name, Slot(name).value);
  }

  // ----- the batch -----

  const MAXIMUM_RETAINED: nat := 94

  predicate Sorted(retained: seq<Retained>) {
    forall i, j :: 0 <= i < j < |retained| ==> Less(retained[i].name, retained[j].name)
  }

  /** Index of the first tunnel with this name, or the number of tunnels. */
  function FirstNamed(tunnels: seq<Tunnel>, name: string): (i: nat)
    ensures i <= |tunnels| && (i < |tunnels| ==> tunnels[i].name == name)
    ensures forall j :: 0 <= j < i ==> tunnels[j].name != name
  {
    if tunnels == [] then 0
    else if tunnels[0].name == name then 0
    else
      var i := 1 + FirstNamed(tunnels[1..], name);
      assert forall j :: 1 <= j < i ==> tunnels[j] == tunnels[1..][j - 1];
      i
  }

  /** The retained deletion agrees with the row of the tunnel it names, if there is one. */
  predicate AgreesWithRow(r: Retained, rows: seq<Row>, tunnels: seq<Tunnel>)
    requires |rows| == |tunnels|
  {
    var i := FirstNamed(tunnels, r.name);
    i < |tunnels| ==> rows[i].state == OwnedTombstone && rows[i].revision == Some(r.revision)
  }

  /** Some retained deletion stands for the tombstone row. */
  predicate HasRetained(row: Row, retained: seq<Retained>) {
    exists j :: 0 <= j < |retained| && retained[j].name == row.name && row.revision == Some(retained[j].revision)
  }

  predicate ValidBatch(p: Projection, tunnels: seq<Tunnel>, current: bool)
    requires |p.rows| == |tunnels|
  {
    if !p.available then p.retained == []
    else
      && |p.retained| <= MAXIMUM_RETAINED
      && Sorted(p.retained)
      && (forall j :: 0 <= j < |p.retained| ==>
            ValidRetained(p.retained[j], tunnels, current, p) && AgreesWithRow(p.retained[j], p.rows, tunnels))
      && (forall i :: 0 <= i < |p.rows| ==> p.rows[i].state == OwnedTombstone ==> HasRetained(p.rows[i], p.retained))
  }

  predicate Accepted(p: Projection, tunnels: seq<Tunnel>, current: bool) {
    && p.importJournal != UnknownImportJournal && p.deleteJournal != UnknownDeleteJournal
    && |p.rows| == |tunnels|
    && ValidBatch(p, tunnels, current)
    && forall i :: 0 <= i < |tunnels| ==> ValidRow(tunnels[i], p.rows[i], current, p)
  }

  // ----- what acceptance means -----

  predicate DistinctNames(tunnels: seq<Tunnel>) {
    forall i, j :: 0 <= i < j < |tunnels| ==> tunnels[i].name != tunnels[j].name
  }

  /** Row i and retained deletion j are two views of one tombstone. */
  predicate Twins(p: Projection, tunnels: seq<Tunnel>, i: nat, j: nat)
    requires |p.rows| == |tunnels|
  {
    && i < |p.rows| && j < |p.retained|
    && p.rows[i].state == OwnedTombstone && p.retained[j].name == tunnels[i].name
    && p.rows[i].revision == Some(p.retained[j].revision)
  }

  /** Tombstone rows and retained deletions that name a present tunnel correspond one to one. */
  lemma TombstonesCorrespond(p: Projection, tunnels: seq<Tunnel>, current: bool)
    requires Accepted(p, tunnels, current) && DistinctNames(tunnels)
    ensures forall i :: 0 <= i < |p.rows| && p.rows[i].state == OwnedTombstone ==> exists j :: Twins(p, tunnels, i, j)
    ensures forall j :: 0 <= j < |p.retained| && Present(p.retained[j].name, tunnels) ==> exists i :: Twins(p, tunnels, i, j)
    ensures forall i, j, k :: Twins(p, tunnels, i, j) && Twins(p, tunnels, i, k) ==> j == k
    ensures forall i, k, j :: Twins(p, tunnels, i, j) && Twins(p, tunnels, k, j) ==> i == k
  {
    hide ValidRetained, KnownParts, Less, Slot, ValidActive, ValidTombstone, Sorted;
    forall i | 0 <= i < |p.rows| && p.rows[i].state == OwnedTombstone ensures exists j :: Twins(p, tunnels, i, j) {
      assert ValidRow(tunnels[i], p.rows[i], current, p);
      assert HasRetained(p.rows[i], p.retained);
      var j :| 0 <= j < |p.retained| && p.retained[j].name == p.rows[i].name && p.rows[i].revision == Some(p.retained[j].revision);
      assert Twins(p, tunnels, i, j);
    }
    forall j | 0 <= j < |p.retained| && Present(p.retained[j].name, tunnels) ensures exists i :: Twins(p, tunnels, i, j) {
      var i := FirstNamed(tunnels, p.retained[j].name);
      assert AgreesWithRow(p.retained[j], p.rows, tunnels);
      assert Twins(p, tunnels, i, j);
    }
    forall i, j, k | Twins(p, tunnels, i, j) && Twins(p, tunnels, i, k) ensures j == k {
      SameNameSameIndex(p.retained, j, k);
    }
  }

  lemma SameNameSameIndex(retained: seq<Retained>, j: nat, k: nat)
    requires Sorted(retained) && j < |retained| && k < |retained| && retained[j].name == retained[k].name
    ensures j == k
  {
    LessIsTotal(retained[j].name, retained[k].name);
  }

  /** A row may be offered for deletion exactly when it is an active row of a managed native target, the
      catalogue is fresh, both journals are clean and its owned kind matches. */
  lemma DeleteCandidateExactlyWhen(p: Projection, tunnels: seq<Tunnel>, current: bool, i: nat)
    requires Accepted(p, tunnels, current) && i < |p.rows|
    ensures p.rows[i].deleteCandidate <==>
      && current && p.importJournal == ImportClean && p.deleteJournal == DeleteClean && p.available
      && NativeKind(tunnels[i].kind) && ManagedTarget(tunnels[i]) && p.rows[i].state == OwnedActive
      && OwnershipKindMismatch !in p.rows[i].blockers
  {
    hide ValidBatch, KnownParts, Slot, RevisionWithPrefix;
    assert ValidRow(tunnels[i], p.rows[i], current, p);
  }

  /** A retained deletion may be forgotten exactly when its target is absent, the catalogue is fresh,
      both journals are clean and its schema allows it; its name is a managed one in every case. */
  lemma ForgetCandidateExactlyWhen(p: Projection, tunnels: seq<Tunnel>, current: bool, j: nat)
    requires Accepted(p, tunnels, current) && j < |p.retained|
    ensures p.available && Slot(p.retained[j].name).Some? && TombstoneRevision(p.retained[j].revision)
    ensures p.retained[j].forgetCandidate <==>
      && current && p.importJournal == ImportClean && p.deleteJournal == DeleteClean
      && !Present(p.retained[j].name, tunnels) && SchemaNotForgetCapable !in p.retained[j].blockers
  {
    hide Slot, TombstoneRevision, Present, ValidRow;
    assert ValidRetained(p.retained[j], tunnels, current, p);
  }

  // ----- the loops -----

  /** First position whose name is not less than `name`, by halving. */
  method LowerBound(retained: seq<Retained>, name: string) returns (at: nat)
    requires Sorted(retained)
    ensures at <= |retained|
    ensures forall j :: 0 <= j < at ==> Less(retained[j].name, name)
    ensures forall j :: at <= j < |retained| ==> !Less(retained[j].name, name)
  {
    hide Less;
    var low, high := 0, |retained|;
    while low < high
      invariant 0 <= low <= high <= |retained|
      invariant forall j :: 0 <= j < low ==> Less(retained[j].name, name)
      invariant forall j :: high <= j < |retained| ==> !Less(retained[j].name, name)
    {
      var mid := (low + high) / 2;
      if Less(retained[mid].name, name) {
        forall j | low <= j < mid ensures Less(retained[j].name, name) {
          LessIsTransitive(retained[j].name, retained[mid].name, name);
        }
        low := mid + 1;
      } else {
        forall j | mid <= j < high ensures !Less(retained[j].name, name) {
          NotLessFurtherOn(retained, mid, j, name);
        }
        high := mid;
      }
    }
    at := low;
  }

  lemma NotLessFurtherOn(retained: seq<Retained>, i: nat, j: nat, name: string)
    requires Sorted(retained) && i <= j < |retained| && !Less(retained[i].name, name)
    ensures !Less(retained[j].name, name)
  {
    hide Less;
    if i < j && Less(retained[j].name, name) {
      LessIsTransitive(retained[i].name, retained[j].name, name);
    }
  }

  method FindTunnel(tunnels: seq<Tunnel>, name: string) returns (i: nat)
    ensures i == FirstNamed(tunnels, name)
  {
    i := 0;
    while i < |tunnels| && tunnels[i].name != name
      invariant i <= |tunnels| && forall j :: 0 <= j < i ==> tunnels[j].name != name
    {
      i := i + 1;
    }
  }

  method ValidRetainedDeletionBatch(p: Projection, tunnels: seq<Tunnel>, current: bool) returns (ok: bool)
    requires |p.rows| == |tunnels|
    ensures ok == ValidBatch(p, tunnels, current)
  {
    hide ValidRetained, AgreesWithRow, HasRetained, Less;
    if !p.available {
      return p.retained == [];
    }
    if |p.retained| > MAXIMUM_RETAINED {
      return false;
    }
    var walked := CheckRetained(p, tunnels, current);
    if !walked {
      return false;
    }
    var i := 0;
    while i < |tunnels|
      invariant 0 <= i <= |tunnels|
      invariant forall k :: 0 <= k < i ==> p.rows[k].state == OwnedTombstone ==> HasRetained(p.rows[k], p.retained)
    {
      if p.rows[i].state == OwnedTombstone {
        var found := FindRetained(p.rows[i], p.retained);
        if !found {
          return false;
        }
      }
      i := i + 1;
    }
    return true;
  }

  /** The walk with `previous_name`: names strictly increase and every entry is valid and agrees. */
  method CheckRetained(p: Projection, tunnels: seq<Tunnel>, current: bool) returns (ok: bool)
    requires |p.rows| == |tunnels|
    ensures ok == (Sorted(p.retained) && forall j :: 0 <= j < |p.retained| ==>
      ValidRetained(p.retained[j], tunnels, current, p) && AgreesWithRow(p.retained[j], p.rows, tunnels))
  {
    hide ValidRetained, Less;
    var previous, first := "", true;
    var j := 0;
    while j < |p.retained|
      invariant 0 <= j <= |p.retained|
      invariant first == (j == 0) && (j > 0 ==> previous == p.retained[j - 1].name)
      invariant Sorted(p.retained[..j])
      invariant forall k :: 0 <= k < j ==>
        ValidRetained(p.retained[k], tunnels, current, p) && AgreesWithRow(p.retained[k], p.rows, tunnels)
    {
      var r := p.retained[j];
      if (!first && !Less(previous, r.name)) || !ValidRetained(r, tunnels, current, p) {
        return false;
      }
      SortedAppend(p.retained, j);
      first, previous := false, r.name;
      var i := FindTunnel(tunnels, r.name);
      if i < |tunnels| {
        var row := p.rows[i];
        if row.state != OwnedTombstone || row.revision.None? || row.revision.value != r.revision {
          return false;
        }
      }
      j := j + 1;
    }
    assert p.retained[..j] == p.retained;
    return true;
  }

  lemma SortedAppend(retained: seq<Retained>, j: nat)
    requires j < |retained| && Sorted(retained[..j]) && (j > 0 ==> Less(retained[j - 1].name, retained[j].name))
    ensures Sorted(retained[..j + 1])
  {
    hide Less;
    var s := retained[..j + 1];
    forall a, b | 0 <= a < b < |s| ensures Less(s[a].name, s[b].name) {
      assert b < j ==> retained[..j][a] == s[a] && retained[..j][b] == s[b];
      if b == j && a < j - 1 {
        assert retained[..j][a] == s[a] && retained[..j][j - 1] == s[j - 1];
        LessIsTransitive(s[a].name, s[j - 1].name, s[b].name);
      }
    }
  }

  method FindRetained(row: Row, retained: seq<Retained>) returns (found: bool)
    requires Sorted(retained)
    ensures found == HasRetained(row, retained)
  {
    hide Less;
    var at := LowerBound(retained, row.name);
    forall j | 0 <= j < |retained| && retained[j].name == row.name ensures j == at {
      OnlyAtLowerBound(retained, row.name, at, j);
    }
    found := at < |retained| && retained[at].name == row.name && row.revision == Some(retained[at].revision);
  }

  lemma OnlyAtLowerBound(retained: seq<Retained>, name: string, at: nat, j: nat)
    requires Sorted(retained) && at <= |retained| && j < |retained| && retained[j].name == name
    requires forall k :: 0 <= k < at ==> Less(retained[k].name, name)
    requires forall k :: at <= k < |retained| ==> !Less(retained[k].name, name)
    ensures j == at
  {
    LessIsTotal(name, name);
    assert at <= j;
    SortedAt(retained, at, j);
  }

  lemma SortedAt(retained: seq<Retained>, i: nat, j: nat)
    requires Sorted(retained)
    ensures i < j < |retained| ==> Less(retained[i].name, retained[j].name)
  {
  }

  method ValidNativeInventoryProjection(p: Projection, tunnels: seq<Tunnel>, current: bool) returns (ok: bool)
    ensures ok == Accepted(p, tunnels, current)
  {
    hide ValidBatch, ValidRow;
    if p.importJournal == UnknownImportJournal || p.deleteJournal == UnknownDeleteJournal || |p.rows| != |tunnels| {
      return false;
    }
    var batch := ValidRetainedDeletionBatch(p, tunnels, current);
    if !batch {
      return false;
    }
    var i := 0;
    while i < |tunnels|
      invariant 0 <= i <= |tunnels|
      invariant forall k :: 0 <= k < i ==> ValidRow(tunnels[k], p.rows[k], current, p)
    {
      if !ValidRow(tunnels[i], p.rows[i], current, p) {
        return false;
      }
      i := i + 1;
    }
    return true;
  }
}
