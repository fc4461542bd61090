/** The durable configuration commit as a step relation. One request moves the config file, the
    transport manager, the write-ahead journal, the runtime and the mutation lease through ordered
    steps; every step may fail, leaving anything its contract allows. */
module ConfigCommit {
  import opened Basics

  type Bytes = string

  /** The exact bytes captured before the journal starts. */
  datatype Snapshot = Snapshot(config: Bytes, transport: Bytes)

  /** What one request brings, and how its surroundings are set up: whether a typed owner takes the lease,
      whether it also quiesces under the lease, and admission's answer to a second request for a gate. */
  datatype Plan = Plan(
    snapshot: Snapshot, newConfig: Bytes, hasTransport: bool, production: bool, leaseQuiesce: bool, regrant: bool)

  datatype Runtime = OldRuntime | NewRuntime | UnknownRuntime | StoppedRuntime

  datatype Party = Request | Owner

  /** What the runtime owner reports; `failed` is a nonempty error text. */
  datatype ApplyResult =
    | Threw
    | Reported(applied: bool, failed: bool, rolledBack: bool, untouched: bool)

  /** Whether the runtime was asked to stop: not at all, refused for want of the lease or of a gate, or
      asked; `stopped` is a clean answer with the lease back. */
  datatype Quiesced = NotAsked | GateRefused | OwnerCalled(stopped: bool)

  datatype Outcome =
    | Committed(announced: bool)
    | NotStarted
    | Conflict
    | RolledBack
    | RecoveryRequired

  datatype Pc =
    | Begin | ReserveGeneration | MutateTransport | WriteConfig | FilesCommitted
    | VerifyTransport | TransportsReady | HandOff | Applying | Returned(result: ApplyResult)
    | CoreApplied | CommitJournal | Finalize
    | VerifyLease | RestoreFiles | RestoreTransport | CompleteRollback | CoordinatorCompletes
    | CloseConflict
    | Quiesce
    | Exit(outcome: Outcome)

  /** `ours` says that this request may have changed the transport; `foreign` are the bytes another writer
      put there. `active`, `payload`, `receipt` and `unknown` are the journal's files; `lease` and `gate`
      are what the request's guard has: the gate is armed at first and retired when the lease returns. */
  datatype State = State(
    pc: Pc, config: Bytes, transport: Bytes, manager: Bytes, committed: Bytes,
    ours: bool, foreign: Option<Bytes>,
    active: bool, payload: Option<Snapshot>, receipt: bool, unknown: bool,
    runtime: Runtime, lease: Party, gate: bool, quiesce: Quiesced)

  predicate Init(c: Plan, s: State) {
    && s.pc == Begin
    && s.config == c.snapshot.config && s.transport == c.snapshot.transport
    && (c.hasTransport ==> s.manager == c.snapshot.transport)
    && !s.ours && s.foreign == None && !s.active && s.payload == None && !s.receipt
    && s.runtime == OldRuntime && s.lease == Request && s.gate && s.quiesce == NotAsked
  }

  /** The owner's contract: a clean success means the new generation runs; a failure that reports a
      rollback or an untouched runtime means the old one does; anything else proves nothing. */
  predicate OwnerContract(r: ApplyResult, runtime: Runtime) {
    match r
    case Threw => true
    case Reported(applied, failed, rolledBack, untouched) =>
      if applied && !failed then runtime == NewRuntime
      else rolledBack || untouched ==> runtime == OldRuntime
  }

  predicate Succeeded(r: ApplyResult) {
    r.Reported? && r.applied && !r.failed
  }

  predicate ProvenOld(r: ApplyResult) {
    r.Reported? && !Succeeded(r) && (r.rolledBack || r.untouched)
  }

  /** A journal marker can only be added. */
  predicate MayMark(s: State, s': State) {
    s.unknown ==> s'.unknown
  }

  predicate BeginStep(c: Plan, s: State, s': State) {
    || (!s.unknown && s' == s.(pc := ReserveGeneration, active := true, payload := Some(c.snapshot)))
       // A temporary file failed before its rename: nothing was published.
    || (&& !s.unknown
        && s' == s.(pc := Exit(NotStarted), payload := s'.payload)
        && (s'.payload == None || s'.payload == Some(c.snapshot)))
    || (&& s' == s.(pc := Quiesce, active := s'.active, payload := s'.payload, unknown := s'.unknown)
        && (s'.payload == None || s'.payload == Some(c.snapshot))
        && (s'.active ==> s'.payload == Some(c.snapshot)) && MayMark(s, s'))
  }

  predicate MutateStep(c: Plan, s: State, s': State) {
    var untouched := s.transport == c.snapshot.transport;
    || (&& untouched
        && s' == s.(pc := WriteConfig, transport := s'.transport, manager := s'.transport,
                    committed := s'.transport, ours := true))
       // Rejected before any mutation: somebody else owns newer bytes, or nothing happened at all.
    || s' == s.(pc := CloseConflict)
    || (if untouched
        then s' == s.(pc := VerifyLease, transport := s'.transport, manager := s'.manager, ours := true)
        else s' == s.(pc := VerifyLease))
  }

  predicate StartStep(c: Plan, s: State, s': State) {
    match s.pc
    case Begin => BeginStep(c, s, s')
    case ReserveGeneration =>
      s' == s.(pc := if c.hasTransport then MutateTransport else WriteConfig) || s' == s.(pc := VerifyLease)
    case _ => false
  }

  predicate WriteStep(c: Plan, s: State, s': State) {
    match s.pc
    case WriteConfig =>
      || s' == s.(pc := FilesCommitted, config := c.newConfig)
      || s' == s.(pc := VerifyLease, config := c.newConfig)
      || s' == s.(pc := VerifyLease)
    case FilesCommitted =>
      || s' == s.(pc := if c.hasTransport then VerifyTransport else HandOff)
      || (s' == s.(pc := VerifyLease, unknown := s'.unknown) && MayMark(s, s'))
    case _ => false
  }

  predicate ReadyStep(c: Plan, s: State, s': State) {
    match s.pc
    case VerifyTransport =>
      (s.manager == s.committed && s' == s.(pc := TransportsReady)) || s' == s.(pc := VerifyLease)
    case TransportsReady =>
      || s' == s.(pc := HandOff)
      || (s' == s.(pc := VerifyLease, unknown := s'.unknown) && MayMark(s, s'))
    case HandOff => s' == s.(pc := Applying, lease := if c.production then Owner else Request)
    case _ => false
  }

  /** The owner's callback, and what is made of its report once the lease was asked back. */
  predicate OwnerStep(c: Plan, s: State, s': State) {
    match s.pc
    case Applying =>
      && s'.pc.Returned? && OwnerContract(s'.pc.result, s'.runtime)
      && (if c.production
          then s' == s.(pc := s'.pc, runtime := s'.runtime, lease := s'.lease, gate := s'.lease == Owner)
          else s' == s.(pc := s'.pc, runtime := s'.runtime))
    case Returned(r) =>
      if s.lease == Request && Succeeded(r) then s' == s.(pc := CoreApplied)
      else if s.lease == Request && ProvenOld(r) then s' == s.(pc := VerifyLease)
      else s' == s.(pc := Quiesce)
    case _ => false
  }

  predicate CommitStep(s: State, s': State) {
    match s.pc
    case CoreApplied =>
      || s' == s.(pc := CommitJournal)
      || (s' == s.(pc := Quiesce, unknown := s'.unknown) && MayMark(s, s'))
    case CommitJournal =>
      || s' == s.(pc := Finalize, active := false, receipt := true)
         // The rename to a receipt may have happened, and the old marker may have been written back.
      || (&& s' == s.(pc := Quiesce, active := s'.active, receipt := s'.receipt, unknown := s'.unknown)
          && (s'.active || s'.receipt) && MayMark(s, s'))
    case _ => false
  }

  /** After the commit point a failed metadata cleanup is only logged; a failure of the bookkeeping behind
      it still reaches the client. */
  predicate FinalizeStep(s: State, s': State) {
    s' == s.(pc := Exit(Committed(true))) || s' == s.(pc := Exit(Committed(false)))
  }

  /** Exact recovery of files and transport. */
  predicate RestoreStep(c: Plan, s: State, s': State) {
    match s.pc
    case VerifyLease => s' == s.(pc := RestoreFiles) || s' == s.(pc := Quiesce)
    case RestoreFiles =>
      || (&& !s.unknown && s.active
          && s' == s.(pc := RestoreTransport, config := c.snapshot.config,
                      transport := if c.hasTransport then c.snapshot.transport else s.transport))
      || (&& s' == s.(pc := Quiesce, config := s'.config, transport := s'.transport, unknown := s'.unknown)
          && (s'.config == s.config || s'.config == c.snapshot.config)
          && (s'.transport == s.transport || (c.hasTransport && s'.transport == c.snapshot.transport))
          && MayMark(s, s'))
    case RestoreTransport =>
      || s' == s.(pc := CompleteRollback, manager := if c.hasTransport then c.snapshot.transport else s.manager)
      || (c.hasTransport && s' == s.(pc := Quiesce, manager := s'.manager))
    case _ => false
  }

  /** Closing the journal after a rollback or a conflict. */
  predicate CloseStep(s: State, s': State) {
    match s.pc
    case CompleteRollback =>
      || (!s.unknown && s' == s.(pc := CoordinatorCompletes, active := false))
      || (&& s' == s.(pc := Quiesce, active := s'.active, unknown := s'.unknown)
          && MayMark(s, s') && (s'.active ==> s.active))
    case CoordinatorCompletes =>
      || (!s.unknown && s' == s.(pc := Exit(RolledBack)))
      || (s' == s.(pc := Quiesce, unknown := s'.unknown) && MayMark(s, s'))
    case CloseConflict =>
      || (!s.unknown && s' == s.(pc := Exit(Conflict), active := false))
      || (&& s' == s.(pc := Quiesce, active := s'.active, unknown := s'.unknown)
          && MayMark(s, s') && (s'.active ==> s.active))
    case _ => false
  }

  /** Without a typed owner the runtime is stopped directly. Otherwise the lease has to be at home, and a
      gate armed or granted again. */
  predicate MayQuiesce(c: Plan, s: State) {
    !(c.production && c.leaseQuiesce) || (s.lease == Request && (s.gate || c.regrant))
  }

  predicate QuiesceStep(c: Plan, s: State, s': State) {
    if MayQuiesce(c, s) then
      && s' == s.(pc := Exit(RecoveryRequired), quiesce := s'.quiesce, runtime := s'.runtime, lease := s'.lease, gate := s'.gate)
      && s'.quiesce.OwnerCalled?
      && (s'.quiesce.stopped ==> s'.runtime == StoppedRuntime && s'.lease == s.lease)
    else s' == s.(pc := Exit(RecoveryRequired), quiesce := GateRefused)
  }

  /** Before this request's own mutation, another writer may replace the transport once. */
  predicate ForeignStep(c: Plan, s: State, s': State) {
    && (s.pc == ReserveGeneration || s.pc == MutateTransport) && c.hasTransport && s.foreign == None
    && s' == s.(transport := s'.transport, manager := s'.manager, foreign := Some(s'.transport))
  }

  predicate RequestStep(c: Plan, s: State, s': State) {
    match s.pc
    case Begin | ReserveGeneration => StartStep(c, s, s')
    case MutateTransport => MutateStep(c, s, s')
    case WriteConfig | FilesCommitted => WriteStep(c, s, s')
    case VerifyTransport | TransportsReady | HandOff => ReadyStep(c, s, s')
    case Applying | Returned(_) => OwnerStep(c, s, s')
    case CoreApplied | CommitJournal => CommitStep(s, s')
    case Finalize => FinalizeStep(s, s')
    case VerifyLease | RestoreFiles | RestoreTransport => RestoreStep(c, s, s')
    case CompleteRollback | CoordinatorCompletes | CloseConflict => CloseStep(s, s')
    case Quiesce => QuiesceStep(c, s, s')
    case Exit(_) => false
  }

  predicate Next(c: Plan, s: State, s': State) {
    RequestStep(c, s, s') || ForeignStep(c, s, s')
  }

  ghost predicate Execution(c: Plan, trace: seq<State>) {
    && |trace| > 0 && Init(c, trace[0])
    && forall i :: 0 < i < |trace| ==> Next(c, trace[i - 1], trace[i])
  }

  // ---- The invariant ----

  /** This request's bytes differ from the snapshot. */
  predicate Changed(c: Plan, s: State) {
    s.config != c.snapshot.config || (s.ours && s.transport != c.snapshot.transport)
  }

  predicate JournalHolds(c: Plan, s: State) {
    s.active && s.payload == Some(c.snapshot)
  }

  predicate Published(c: Plan, s: State) {
    && s.config == c.newConfig
    && (c.hasTransport ==> s.transport == s.committed && s.manager == s.committed)
  }

  predicate Guarded(c: Plan, s: State) {
    JournalHolds(c, s) && !s.receipt && s.lease == Request && s.quiesce == NotAsked
  }

  predicate Invariant(c: Plan, s: State) {
    && (s.active ==> s.payload == Some(c.snapshot))
    && (s.payload == None || s.payload == Some(c.snapshot))
    && (!c.hasTransport ==> !s.ours)
    && ForeignFate(c, s)
    && match s.pc
       case Begin => Init(c, s)
       case ReserveGeneration => Guarded(c, s) && !Changed(c, s) && !s.ours && s.runtime == OldRuntime
       case MutateTransport => Guarded(c, s) && !Changed(c, s) && !s.ours && s.runtime == OldRuntime && c.hasTransport
       case WriteConfig =>
         && Guarded(c, s) && s.config == c.snapshot.config && s.runtime == OldRuntime
         && (c.hasTransport ==> s.transport == s.committed && s.manager == s.committed)
       case FilesCommitted => Guarded(c, s) && Published(c, s) && s.runtime == OldRuntime
       case VerifyTransport => Guarded(c, s) && Published(c, s) && s.runtime == OldRuntime
       case TransportsReady => Guarded(c, s) && Published(c, s) && s.runtime == OldRuntime
       case HandOff => Guarded(c, s) && Published(c, s) && s.runtime == OldRuntime
       case Applying => JournalHolds(c, s) && !s.receipt && s.lease == (if c.production then Owner else Request) && Published(c, s) && s.quiesce == NotAsked
       case Returned(r) => JournalHolds(c, s) && !s.receipt && Published(c, s) && OwnerContract(r, s.runtime) && s.quiesce == NotAsked
       case CoreApplied => Guarded(c, s) && Published(c, s) && s.runtime == NewRuntime
       case CommitJournal => Guarded(c, s) && Published(c, s) && s.runtime == NewRuntime
       case Finalize => s.receipt && !s.active && Published(c, s) && s.runtime == NewRuntime && s.lease == Request
       case VerifyLease => Guarded(c, s) && s.runtime == OldRuntime
       case RestoreFiles => Guarded(c, s) && s.runtime == OldRuntime
       case RestoreTransport => Guarded(c, s) && s.runtime == OldRuntime && !Changed(c, s) && FilesExact(c, s)
       case CompleteRollback => Guarded(c, s) && s.runtime == OldRuntime && !Changed(c, s) && Exact(c, s)
       case CoordinatorCompletes =>
         !s.active && !s.receipt && s.runtime == OldRuntime && !Changed(c, s) && Exact(c, s) && s.lease == Request && s.quiesce == NotAsked
       case CloseConflict => Guarded(c, s) && !Changed(c, s) && !s.ours && s.runtime == OldRuntime
       case Quiesce => Unproven(c, s) && s.quiesce == NotAsked
       case Exit(o) => ExitClass(c, s, o)
  }

  /** Another writer put other bytes into the transport than the snapshot has. */
  predicate Overtaken(c: Plan, s: State) { s.foreign.Some? && s.foreign.value != c.snapshot.transport }

  /** What becomes of another writer's bytes: this request never publishes over them, but an exact rollback
      puts the snapshot back. */
  predicate ForeignFate(c: Plan, s: State) {
    Overtaken(c, s) ==>
      && c.hasTransport && !s.ours
      && match s.pc
         case ReserveGeneration | MutateTransport | VerifyLease | RestoreFiles | CloseConflict => s.transport == s.foreign.value
         case RestoreTransport | CompleteRollback | CoordinatorCompletes => s.transport == c.snapshot.transport
         case Quiesce => s.transport == s.foreign.value || s.transport == c.snapshot.transport
         case Exit(o) =>
           (match o
            case Conflict => s.transport == s.foreign.value
            case RolledBack => s.transport == c.snapshot.transport
            case RecoveryRequired => s.transport == s.foreign.value || s.transport == c.snapshot.transport
            case _ => false)
         case _ => false
  }

  predicate FilesExact(c: Plan, s: State) {
    s.config == c.snapshot.config && (c.hasTransport ==> s.transport == c.snapshot.transport)
  }

  /** The old bytes, and the transport manager running on them. */
  predicate Exact(c: Plan, s: State) {
    FilesExact(c, s) && (c.hasTransport ==> s.manager == c.snapshot.transport)
  }

  /** Even when nothing can be proven: changed bytes are covered by the journal, or the commit point
      was passed with everything published and the new runtime in place. */
  predicate Unproven(c: Plan, s: State) {
    && (if s.receipt then Published(c, s) && (!s.quiesce.OwnerCalled? ==> s.runtime == NewRuntime)
        else Changed(c, s) ==> JournalHolds(c, s))
    && (s.quiesce == OwnerCalled(true) ==> s.runtime == StoppedRuntime)
  }

  /** The three ways a request can end. */
  predicate ExitClass(c: Plan, s: State, o: Outcome) {
    match o
    case Committed(_) => s.receipt && !s.active && Published(c, s) && s.runtime == NewRuntime && s.lease == Request
    case NotStarted => !s.active && !s.receipt && Exact(c, s) && !s.ours && s.runtime == OldRuntime && s.lease == Request
    case Conflict =>
      !s.active && !s.receipt && s.config == c.snapshot.config && !s.ours && s.runtime == OldRuntime && s.lease == Request
    case RolledBack => !s.active && !s.receipt && Exact(c, s) && s.runtime == OldRuntime && s.lease == Request
    case RecoveryRequired => s.quiesce != NotAsked && Unproven(c, s)
  }

  lemma InitHolds(c: Plan, s: State)
    requires Init(c, s)
    ensures Invariant(c, s)
  {
  }

  function Rank(pc: Pc): nat {
    match pc
    case Begin => 21
    case ReserveGeneration => 20
    case MutateTransport => 18
    case WriteConfig => 16
    case FilesCommitted => 15
    case VerifyTransport => 14
    case TransportsReady => 13
    case HandOff => 12
    case Applying => 11
    case Returned(_) => 10
    case CoreApplied => 9
    case CommitJournal => 8
    case Finalize => 7
    case VerifyLease => 6
    case RestoreFiles => 5
    case RestoreTransport => 4
    case CompleteRollback => 3
    case CoordinatorCompletes => 2
    case CloseConflict => 2
    case Quiesce => 1
    case Exit(_) => 0
  }

  function Remaining(s: State): nat {
    Rank(s.pc) + if s.foreign.Some? then 0 else 1
  }

  lemma BeginKeeps(c: Plan, s: State, s': State)
    requires s.pc == Begin && Invariant(c, s) && StartStep(c, s, s')
    ensures Invariant(c, s') && Remaining(s') < Remaining(s)
  {
  }

  lemma ReserveGenerationKeeps(c: Plan, s: State, s': State)
    requires s.pc == ReserveGeneration && Invariant(c, s) && StartStep(c, s, s')
    ensures Invariant(c, s') && Remaining(s') < Remaining(s)
  {
  }

  lemma WriteConfigKeeps(c: Plan, s: State, s': State)
    requires s.pc == WriteConfig && Invariant(c, s) && WriteStep(c, s, s')
    ensures Invariant(c, s') && Remaining(s') < Remaining(s)
  {
  }

  lemma FilesCommittedKeeps(c: Plan, s: State, s': State)
    requires s.pc == FilesCommitted && Invariant(c, s) && WriteStep(c, s, s')
    ensures Invariant(c, s') && Remaining(s') < Remaining(s)
  {
  }

  lemma VerifyTransportKeeps(c: Plan, s: State, s': State)
    requires s.pc == VerifyTransport && Invariant(c, s) && ReadyStep(c, s, s')
    ensures Invariant(c, s') && Remaining(s') < Remaining(s)
  {
  }

  lemma TransportsReadyKeeps(c: Plan, s: State, s': State)
    requires s.pc == TransportsReady && Invariant(c, s) && ReadyStep(c, s, s')
    ensures Invariant(c, s') && Remaining(s') < Remaining(s)
  {
  }

  lemma HandOffKeeps(c: Plan, s: State, s': State)
    requires s.pc == HandOff && Invariant(c, s) && ReadyStep(c, s, s')
    ensures Invariant(c, s') && Remaining(s') < Remaining(s)
  {
  }

  lemma CoreAppliedKeeps(c: Plan, s: State, s': State)
    requires s.pc == CoreApplied && Invariant(c, s) && CommitStep(s, s')
    ensures Invariant(c, s') && Remaining(s') < Remaining(s)
  {
  }

  lemma CommitJournalKeeps(c: Plan, s: State, s': State)
    requires s.pc == CommitJournal && Invariant(c, s) && CommitStep(s, s')
    ensures Invariant(c, s') && Remaining(s') < Remaining(s)
  {
  }

  lemma VerifyLeaseKeeps(c: Plan, s: State, s': State)
    requires s.pc == VerifyLease && Invariant(c, s) && RestoreStep(c, s, s')
    ensures Invariant(c, s') && Remaining(s') < Remaining(s)
  {
  }

  lemma RestoreFilesKeeps(c: Plan, s: State, s': State)
    requires s.pc == RestoreFiles && Invariant(c, s) && RestoreStep(c, s, s')
    ensures Invariant(c, s') && Remaining(s') < Remaining(s)
  {
  }

  lemma RestoreTransportKeeps(c: Plan, s: State, s': State)
    requires s.pc == RestoreTransport && Invariant(c, s) && RestoreStep(c, s, s')
    ensures Invariant(c, s') && Remaining(s') < Remaining(s)
  {
  }

  lemma CompleteRollbackKeeps(c: Plan, s: State, s': State)
    requires s.pc == CompleteRollback && Invariant(c, s) && CloseStep(s, s')
    ensures Invariant(c, s') && Remaining(s') < Remaining(s)
  {
  }

  lemma CoordinatorCompletesKeeps(c: Plan, s: State, s': State)
    requires s.pc == CoordinatorCompletes && Invariant(c, s) && CloseStep(s, s')
    ensures Invariant(c, s') && Remaining(s') < Remaining(s)
  {
  }

  lemma CloseConflictKeeps(c: Plan, s: State, s': State)
    requires s.pc == CloseConflict && Invariant(c, s) && CloseStep(s, s')
    ensures Invariant(c, s') && Remaining(s') < Remaining(s)
  {
  }

  lemma MutateTransportKeeps(c: Plan, s: State, s': State)
    requires s.pc == MutateTransport && Invariant(c, s) && MutateStep(c, s, s')
    ensures Invariant(c, s') && Remaining(s') < Remaining(s)
  {
  }

  lemma ApplyingKeeps(c: Plan, s: State, s': State)
    requires s.pc == Applying && Invariant(c, s) && OwnerStep(c, s, s')
    ensures Invariant(c, s') && Remaining(s') < Remaining(s)
  {
  }

  lemma ReturnedKeeps(c: Plan, s: State, s': State)
    requires s.pc.Returned? && Invariant(c, s) && OwnerStep(c, s, s')
    ensures Invariant(c, s') && Remaining(s') < Remaining(s)
  {
  }

  lemma FinalizeKeeps(c: Plan, s: State, s': State)
    requires s.pc == Finalize && Invariant(c, s) && FinalizeStep(s, s')
    ensures Invariant(c, s') && Remaining(s') < Remaining(s)
  {
  }

  lemma QuiesceKeeps(c: Plan, s: State, s': State)
    requires s.pc == Quiesce && Invariant(c, s) && QuiesceStep(c, s, s')
    ensures Invariant(c, s') && Remaining(s') < Remaining(s)
  {
  }

  lemma ForeignKeeps(c: Plan, s: State, s': State)
    requires Invariant(c, s) && ForeignStep(c, s, s')
    ensures Invariant(c, s') && Remaining(s') < Remaining(s)
  {
  }

  lemma {:induction false} EveryStateIsSound(c: Plan, trace: seq<State>, i: nat)
    requires Execution(c, trace) && i < |trace|
    ensures Invariant(c, trace[i])
    decreases i
  {
    if i == 0 {
      InitHolds(c, trace[0]);
    } else {
      EveryStateIsSound(c, trace, i - 1);
      StepKeeps(c, trace[i - 1], trace[i]);
    }
  }

  lemma EarlyStepKeeps(c: Plan, s: State, s': State)
    requires Early(s.pc) && s.pc != Applying && Invariant(c, s) && RequestStep(c, s, s')
    ensures Invariant(c, s') && Remaining(s') < Remaining(s)
  {
    hide Invariant, Remaining, StartStep, MutateStep, WriteStep, ReadyStep, OwnerStep, CommitStep, FinalizeStep,
      RestoreStep, CloseStep, QuiesceStep;
    match s.pc
    case Begin => BeginKeeps(c, s, s');
    case ReserveGeneration => ReserveGenerationKeeps(c, s, s');
    case MutateTransport => MutateTransportKeeps(c, s, s');
    case WriteConfig => WriteConfigKeeps(c, s, s');
    case FilesCommitted => FilesCommittedKeeps(c, s, s');
    case VerifyTransport => VerifyTransportKeeps(c, s, s');
    case TransportsReady => TransportsReadyKeeps(c, s, s');
    case HandOff => HandOffKeeps(c, s, s');
  }

  lemma LateStepKeeps(c: Plan, s: State, s': State)
    requires (!Early(s.pc) || s.pc == Applying) && Invariant(c, s) && RequestStep(c, s, s')
    ensures Invariant(c, s') && Remaining(s') < Remaining(s)
  {
    hide Invariant, Remaining, StartStep, MutateStep, WriteStep, ReadyStep, OwnerStep, CommitStep, FinalizeStep,
      RestoreStep, CloseStep, QuiesceStep;
    match s.pc
    case Applying => ApplyingKeeps(c, s, s');
    case Returned(_) => ReturnedKeeps(c, s, s');
    case CoreApplied => CoreAppliedKeeps(c, s, s');
    case CommitJournal => CommitJournalKeeps(c, s, s');
    case Finalize => FinalizeKeeps(c, s, s');
    case VerifyLease => VerifyLeaseKeeps(c, s, s');
    case RestoreFiles => RestoreFilesKeeps(c, s, s');
    case RestoreTransport => RestoreTransportKeeps(c, s, s');
    case CompleteRollback => CompleteRollbackKeeps(c, s, s');
    case CoordinatorCompletes => CoordinatorCompletesKeeps(c, s, s');
    case CloseConflict => CloseConflictKeeps(c, s, s');
    case Quiesce => QuiesceKeeps(c, s, s');
  }

  lemma StepKeeps(c: Plan, s: State, s': State)
    requires Invariant(c, s) && Next(c, s, s')
    ensures Invariant(c, s') && Remaining(s') < Remaining(s)
  {
    hide Invariant, Remaining, RequestStep, ForeignStep, Early;
    if ForeignStep(c, s, s') {
      ForeignKeeps(c, s, s');
    } else if Early(s.pc) && s.pc != Applying {
      EarlyStepKeeps(c, s, s');
    } else {
      LateStepKeeps(c, s, s');
    }
  }

  // ---- What every run keeps ----

  /** Write-ahead: in every state of every run, as long as the commit point was not passed, changed
      bytes are covered by an active journal that holds the exact snapshot. */
  lemma JournalCoversChanges(c: Plan, trace: seq<State>, i: nat)
    requires Execution(c, trace) && i < |trace|
    ensures Changed(c, trace[i]) && !trace[i].receipt ==> JournalHolds(c, trace[i])
  {
    EveryStateIsSound(c, trace, i);
    hide Next;
  }

  /** Every way a run can end falls into one of the three classes. */
  lemma ExitsAreClassified(c: Plan, trace: seq<State>, i: nat)
    requires Execution(c, trace) && i < |trace| && trace[i].pc.Exit?
    ensures ExitClass(c, trace[i], trace[i].pc.outcome)
  {
    EveryStateIsSound(c, trace, i);
    hide Next;
  }

  /** What the next start does with the journal that a crash left behind. */
  function StartupRecovery(c: Plan, s: State): State {
    if s.active && s.payload.Some? then
      s.(config := s.payload.value.config,
         transport := if c.hasTransport then s.payload.value.transport else s.transport, active := false)
    else s
  }

  /** Atomicity: a crash in any state of any run is repaired by startup recovery to exactly the old bytes
      or exactly the new ones, unless a marker forbids automatic recovery. */
  lemma CrashIsAtomic(c: Plan, trace: seq<State>, i: nat)
    requires Execution(c, trace) && i < |trace| && !trace[i].unknown
    ensures var r := StartupRecovery(c, trace[i]);
      || !Changed(c, r)
      || (r.receipt && r.config == c.newConfig && (c.hasTransport ==> r.transport == r.committed))
  {
    EveryStateIsSound(c, trace, i);
    hide Next;
  }

  // ---- Every run ends ----

  lemma {:induction false} RunsAreBounded(c: Plan, trace: seq<State>, i: nat)
    requires Execution(c, trace) && i < |trace|
    ensures i + Remaining(trace[i]) <= 22
    decreases i
  {
    hide Invariant, Next;
    if i > 0 {
      RunsAreBounded(c, trace, i - 1);
      EveryStateIsSound(c, trace, i - 1);
      StepKeeps(c, trace[i - 1], trace[i]);
    }
  }

  lemma PublishingCanGoOn(c: Plan, s: State)
    requires s.pc.Begin? || s.pc.ReserveGeneration? || s.pc.MutateTransport? || s.pc.WriteConfig?
      || s.pc.FilesCommitted? || s.pc.VerifyTransport? || s.pc.TransportsReady?
    ensures exists s' :: Next(c, s, s')
  {
    hide ForeignStep;
    if s.pc == Begin {
      assert BeginStep(c, s, s.(pc := Quiesce, active := false, payload := None));
      assert Next(c, s, s.(pc := Quiesce, active := false, payload := None));
    } else if s.pc == MutateTransport {
      assert Next(c, s, s.(pc := CloseConflict));
    } else {
      assert Next(c, s, s.(pc := VerifyLease));
    }
  }

  lemma ApplyingCanGoOn(c: Plan, s: State)
    requires s.pc.HandOff? || s.pc.Applying? || s.pc.Returned? || s.pc.CoreApplied? || s.pc.CommitJournal?
      || s.pc.Finalize?
    ensures exists s' :: Next(c, s, s')
  {
    hide ForeignStep;
    match s.pc
    case HandOff => assert Next(c, s, s.(pc := Applying, lease := if c.production then Owner else Request));
    case Applying =>
      var next := s.(pc := Returned(Threw));
      assert Next(c, s, if c.production then next.(gate := s.lease == Owner) else next);
    case Returned(r) =>
      var next := if s.lease == Request && Succeeded(r) then CoreApplied
                  else if s.lease == Request && ProvenOld(r) then VerifyLease else Quiesce;
      assert Next(c, s, s.(pc := next));
    case CommitJournal => assert Next(c, s, s.(pc := Finalize, active := false, receipt := true));
    case Finalize => assert Next(c, s, s.(pc := Exit(Committed(true))));
    case CoreApplied => assert Next(c, s, s.(pc := Quiesce));
  }

  lemma RecoveringCanGoOn(c: Plan, s: State)
    requires s.pc.VerifyLease? || s.pc.RestoreFiles? || s.pc.RestoreTransport? || s.pc.CompleteRollback?
      || s.pc.CoordinatorCompletes? || s.pc.CloseConflict? || s.pc.Quiesce?
    ensures exists s' :: Next(c, s, s')
  {
    hide ForeignStep;
    if s.pc == RestoreTransport {
      assert Next(c, s, s.(pc := CompleteRollback, manager := if c.hasTransport then c.snapshot.transport else s.manager));
    } else if s.pc == Quiesce {
      var answer := if MayQuiesce(c, s) then OwnerCalled(false) else GateRefused;
      assert Next(c, s, s.(pc := Exit(RecoveryRequired), quiesce := answer));
    } else {
      assert Next(c, s, s.(pc := Quiesce));
    }
  }

  /** Only exits have no successor: no run gets stuck half way. */
  lemma OnlyExitsAreFinal(c: Plan, s: State)
    ensures s.pc.Exit? <==> !exists s' :: Next(c, s, s')
  {
    hide StartStep, MutateStep, WriteStep, ReadyStep, OwnerStep, CommitStep, FinalizeStep, RestoreStep, CloseStep,
      QuiesceStep;
    match s.pc
    case Exit(_) =>
    case HandOff | Applying | Returned(_) | CoreApplied | CommitJournal | Finalize => ApplyingCanGoOn(c, s);
    case VerifyLease | RestoreFiles | RestoreTransport | CompleteRollback | CoordinatorCompletes | CloseConflict
      | Quiesce => RecoveringCanGoOn(c, s);
    case _ => PublishingCanGoOn(c, s);
  }

  // ---- The order of the steps ----

  /** Which place can follow which. */
  predicate Follows(p: Pc, q: Pc) {
    match p
    case Begin => q == ReserveGeneration || q == Exit(NotStarted) || q == Quiesce
    case ReserveGeneration => q == ReserveGeneration || q == MutateTransport || q == WriteConfig || q == VerifyLease
    case MutateTransport => q == MutateTransport || q == WriteConfig || q == CloseConflict || q == VerifyLease
    case WriteConfig => q == FilesCommitted || q == VerifyLease
    case FilesCommitted => q == VerifyTransport || q == HandOff || q == VerifyLease
    case VerifyTransport => q == TransportsReady || q == VerifyLease
    case TransportsReady => q == HandOff || q == VerifyLease
    case HandOff => q == Applying
    case Applying => q.Returned?
    case Returned(_) => q == CoreApplied || q == VerifyLease || q == Quiesce
    case CoreApplied => q == CommitJournal || q == Quiesce
    case CommitJournal => q == Finalize || q == Quiesce
    case Finalize => q.Exit? && q.outcome.Committed?
    case VerifyLease => q == RestoreFiles || q == Quiesce
    case RestoreFiles => q == RestoreTransport || q == Quiesce
    case RestoreTransport => q == CompleteRollback || q == Quiesce
    case CompleteRollback => q == CoordinatorCompletes || q == Quiesce
    case CoordinatorCompletes => q == Exit(RolledBack) || q == Quiesce
    case CloseConflict => q == Exit(Conflict) || q == Quiesce
    case Quiesce => q == Exit(RecoveryRequired)
    case Exit(_) => false
  }

  /** What a step may do to the request's guard. */
  predicate GuardMoves(c: Plan, s: State, s': State) {
    match s.pc
    case HandOff => s'.gate == s.gate && s'.lease == (if c.production then Owner else Request) && s'.quiesce == s.quiesce
    case Applying =>
      && (c.production ==> s'.gate == (s'.lease == Owner)) && (!c.production ==> s'.gate == s.gate && s'.lease == s.lease)
      && s'.quiesce == s.quiesce
    case Returned(r) =>
      && s'.gate == s.gate && s'.lease == s.lease && s'.quiesce == s.quiesce
      && (s'.pc == CoreApplied ==> s.lease == Request && Succeeded(r))
      && (s'.pc == VerifyLease ==> s.lease == Request && ProvenOld(r))
    case Quiesce => s'.quiesce.OwnerCalled? <==> MayQuiesce(c, s)
    case _ => s'.gate == s.gate && s'.lease == s.lease && s'.quiesce == s.quiesce
  }

  predicate Outline(c: Plan, s: State, s': State) { Follows(s.pc, s'.pc) && GuardMoves(c, s, s') }

  lemma BeginOutline(c: Plan, s: State, s': State)
    requires StartStep(c, s, s')
    ensures Outline(c, s, s')
  {
  }

  lemma MutateOutline(c: Plan, s: State, s': State)
    requires s.pc == MutateTransport && MutateStep(c, s, s')
    ensures Outline(c, s, s')
  {
  }

  lemma WriteOutline(c: Plan, s: State, s': State)
    requires WriteStep(c, s, s')
    ensures Outline(c, s, s')
  {
  }

  lemma ReadyOutline(c: Plan, s: State, s': State)
    requires ReadyStep(c, s, s')
    ensures Outline(c, s, s')
  {
  }

  lemma OwnerOutline(c: Plan, s: State, s': State)
    requires OwnerStep(c, s, s')
    ensures Outline(c, s, s')
  {
  }

  lemma CommitOutline(c: Plan, s: State, s': State)
    requires CommitStep(s, s')
    ensures Outline(c, s, s')
  {
  }

  lemma RestoreOutline(c: Plan, s: State, s': State)
    requires RestoreStep(c, s, s')
    ensures Outline(c, s, s')
  {
  }

  lemma CloseOutline(c: Plan, s: State, s': State)
    requires CloseStep(s, s')
    ensures Outline(c, s, s')
  {
  }

  lemma LastOutline(c: Plan, s: State, s': State)
    requires (s.pc == Finalize && FinalizeStep(s, s')) || (s.pc == Quiesce && QuiesceStep(c, s, s')) || ForeignStep(c, s, s')
    ensures Outline(c, s, s')
  {
    hide MayQuiesce;
  }

  lemma StepOutline(c: Plan, s: State, s': State)
    requires Next(c, s, s')
    ensures Outline(c, s, s')
  {
    hide Outline, StartStep, MutateStep, WriteStep, ReadyStep, OwnerStep, CommitStep, FinalizeStep, RestoreStep, CloseStep,
      QuiesceStep, ForeignStep;
    if ForeignStep(c, s, s') {
      LastOutline(c, s, s');
    } else {
      match s.pc
      case Begin | ReserveGeneration => BeginOutline(c, s, s');
      case MutateTransport => MutateOutline(c, s, s');
      case WriteConfig | FilesCommitted => WriteOutline(c, s, s');
      case VerifyTransport | TransportsReady | HandOff => ReadyOutline(c, s, s');
      case Applying | Returned(_) => OwnerOutline(c, s, s');
      case CoreApplied | CommitJournal => CommitOutline(c, s, s');
      case VerifyLease | RestoreFiles | RestoreTransport => RestoreOutline(c, s, s');
      case CompleteRollback | CoordinatorCompletes | CloseConflict => CloseOutline(c, s, s');
      case Finalize | Quiesce => LastOutline(c, s, s');
    }
  }

  ghost predicate Outlined(c: Plan, trace: seq<State>) {
    && |trace| > 0 && trace[0].pc == Begin && trace[0].lease == Request && trace[0].gate && trace[0].quiesce == NotAsked
    && forall i :: 0 < i < |trace| ==> Outline(c, trace[i - 1], trace[i])
  }

  lemma ExecutionOutlined(c: Plan, trace: seq<State>)
    requires Execution(c, trace)
    ensures Outlined(c, trace)
  {
    hide Next, Outline;
    forall i | 0 < i < |trace| ensures Outline(c, trace[i - 1], trace[i]) { StepOutline(c, trace[i - 1], trace[i]); }
  }

  // ---- The lease and the report of the owner ----

  datatype Phase = Publishing | Confirmed | Undoing | Stopping

  /** Where a run can still get to. */
  function PhaseOf(pc: Pc): Phase {
    match pc
    case CoreApplied | CommitJournal | Finalize => Confirmed
    case VerifyLease | RestoreFiles | RestoreTransport | CompleteRollback | CoordinatorCompletes => Undoing
    case Quiesce => Stopping
    case Exit(o) =>
      (match o
       case Committed(_) => Confirmed
       case RolledBack => Undoing
       case RecoveryRequired => Stopping
       case _ => Publishing)
    case _ => Publishing
  }

  /** Once the owner's report was acted on, a run commits, undoes or stops, and never changes sides. */
  lemma {:induction false} PhaseStays(c: Plan, trace: seq<State>, j: nat, i: nat)
    requires Outlined(c, trace) && j <= i < |trace| && PhaseOf(trace[j].pc) != Publishing
    ensures PhaseOf(trace[i].pc) == PhaseOf(trace[j].pc) || PhaseOf(trace[i].pc) == Stopping
    decreases i - j
  {
    hide GuardMoves;
    if j < i {
      PhaseStays(c, trace, j, i - 1);
      assert Outline(c, trace[i - 1], trace[i]);
    }
  }

  /** In every run that handed the lease off and then committed or rolled back, the lease was back in the
      request's hands when the report arrived, and the report was a clean success for a commit, a proven
      old runtime for a rollback. */
  lemma ReportsCountOnlyWithTheLease(c: Plan, trace: seq<State>, j: nat, i: nat)
    requires Execution(c, trace) && j < i < |trace| && trace[j].pc == HandOff && trace[i].pc.Exit?
    requires trace[i].pc.outcome.Committed? || trace[i].pc.outcome.RolledBack?
    ensures j + 2 < i && trace[j + 2].pc.Returned? && trace[j + 2].lease == Request
    ensures if trace[i].pc.outcome.Committed? then Succeeded(trace[j + 2].pc.result) else ProvenOld(trace[j + 2].pc.result)
  {
    hide Next, Init, Succeeded, ProvenOld;
    ExecutionOutlined(c, trace);
    assert Outline(c, trace[j], trace[j + 1]);
    assert j + 1 < i;
    assert Outline(c, trace[j + 1], trace[j + 2]);
    assert j + 2 < i;
    assert Outline(c, trace[j + 2], trace[j + 3]);
    PhaseStays(c, trace, j + 3, i);
  }

  // ---- When the runtime is asked to stop ----

  ghost predicate HadReport(trace: seq<State>, i: nat)
    requires i < |trace|
  {
    exists k :: 0 <= k <= i && trace[k].pc.Returned?
  }

  ghost predicate LostLease(trace: seq<State>, i: nat)
    requires i < |trace|
  {
    exists k :: 0 <= k <= i && trace[k].pc.Returned? && trace[k].lease == Owner
  }

  lemma HistoryGrows(trace: seq<State>, i: nat)
    requires 0 < i < |trace|
    ensures HadReport(trace, i) <==> HadReport(trace, i - 1) || trace[i].pc.Returned?
    ensures LostLease(trace, i) <==> LostLease(trace, i - 1) || (trace[i].pc.Returned? && trace[i].lease == Owner)
  {
  }

  /** Before the hand-off. */
  predicate Early(pc: Pc) {
    pc == Begin || pc == ReserveGeneration || pc == MutateTransport || pc == WriteConfig || pc == FilesCommitted
    || pc == VerifyTransport || pc == TransportsReady || pc == HandOff || pc == Applying
  }

  /** The guard remembers: with a typed owner the lease is away exactly when a report came without it,
      and the gate is gone exactly when one came with it. */
  predicate Remembers(s: State, had: bool, lost: bool) {
    && s.quiesce == NotAsked && (lost ==> had) && (Early(s.pc) ==> !had)
    && s.gate == (!had || lost)
    && (s.lease == Owner <==> lost || s.pc == Applying)
  }

  lemma {:induction false} GuardRemembers(c: Plan, trace: seq<State>, i: nat)
    requires Outlined(c, trace) && i < |trace| && c.production
    requires forall k :: 0 <= k < i ==> trace[k].pc != Quiesce
    ensures Remembers(trace[i], HadReport(trace, i), LostLease(trace, i))
    decreases i
  {
    hide HadReport, LostLease;
    if i == 0 {
      assert !HadReport(trace, 0) && !LostLease(trace, 0) by { NothingYet(trace); }
    } else {
      GuardRemembers(c, trace, i - 1);
      HistoryGrows(trace, i);
      assert Outline(c, trace[i - 1], trace[i]);
      assert trace[i - 1].pc != Quiesce;
    }
  }

  lemma NothingYet(trace: seq<State>)
    requires |trace| > 0 && trace[0].pc == Begin
    ensures !HadReport(trace, 0) && !LostLease(trace, 0)
  {
  }

  lemma QuiesceIsLate(c: Plan, trace: seq<State>, i: nat)
    requires Outlined(c, trace) && i < |trace| && trace[i].pc == Exit(RecoveryRequired)
    ensures i > 0 && trace[i - 1].pc == Quiesce && forall k :: 0 <= k < i - 1 ==> trace[k].pc != Quiesce
  {
    hide GuardMoves;
    assert i > 0;
    assert Outline(c, trace[i - 1], trace[i]);
    forall k | 0 <= k < i - 1 ensures trace[k].pc != Quiesce { QuiesceEndsNext(c, trace, k, i); }
  }

  lemma QuiesceEndsNext(c: Plan, trace: seq<State>, k: nat, i: nat)
    requires Outlined(c, trace) && k + 1 < i < |trace|
    ensures trace[k].pc != Quiesce
  {
    hide GuardMoves;
    assert Outline(c, trace[k], trace[k + 1]);
    ExitIsLast(c, trace, k + 1, i);
  }

  lemma ExitIsLast(c: Plan, trace: seq<State>, k: nat, i: nat)
    requires Outlined(c, trace) && k < i < |trace|
    ensures !trace[k].pc.Exit?
  {
    hide GuardMoves;
    assert Outline(c, trace[k], trace[k + 1]);
  }

  /** When a run ends in recovery required, the owner was asked to stop the runtime exactly when it can
      be stopped directly, or no report came without the lease and, if there was a report, admission grants
      another gate. A clean answer means that the runtime stands still. */
  lemma RuntimeIsAskedToStopExactlyWhen(c: Plan, trace: seq<State>, i: nat)
    requires Execution(c, trace) && i < |trace| && trace[i].pc == Exit(RecoveryRequired)
    ensures trace[i].quiesce.OwnerCalled? <==>
      !(c.production && c.leaseQuiesce) || (!LostLease(trace, i) && (HadReport(trace, i) ==> c.regrant))
    ensures trace[i].quiesce == OwnerCalled(true) ==> trace[i].runtime == StoppedRuntime
  {
    EveryStateIsSound(c, trace, i);
    hide Next, Init, HadReport, LostLease;
    ExecutionOutlined(c, trace);
    QuiesceIsLate(c, trace, i);
    assert Outline(c, trace[i - 1], trace[i]);
    HistoryGrows(trace, i);
    if c.production { GuardRemembers(c, trace, i - 1); }
  }

  // ---- Another writer ----

  /** What a step may do to the transport bytes and to the note of another writer's. */
  predicate TransportMoves(c: Plan, s: State, s': State) {
    || (s'.foreign == s.foreign && s'.transport == s.transport)
    || (s.foreign == None && s'.foreign == Some(s'.transport) && s'.pc == s.pc && (s.pc == ReserveGeneration || s.pc == MutateTransport))
    || (s.pc == MutateTransport && s'.foreign == s.foreign && s.transport == c.snapshot.transport)
    || (s.pc == RestoreFiles && s'.foreign == s.foreign && s'.transport == c.snapshot.transport)
  }

  lemma StartMovesTransport(c: Plan, s: State, s': State)
    requires StartStep(c, s, s')
    ensures TransportMoves(c, s, s')
  {
  }

  lemma MutateMovesTransport(c: Plan, s: State, s': State)
    requires s.pc == MutateTransport && MutateStep(c, s, s')
    ensures TransportMoves(c, s, s')
  {
  }

  lemma WriteMovesTransport(c: Plan, s: State, s': State)
    requires WriteStep(c, s, s')
    ensures TransportMoves(c, s, s')
  {
  }

  lemma ReadyMovesTransport(c: Plan, s: State, s': State)
    requires ReadyStep(c, s, s')
    ensures TransportMoves(c, s, s')
  {
  }

  lemma OwnerMovesTransport(c: Plan, s: State, s': State)
    requires OwnerStep(c, s, s')
    ensures TransportMoves(c, s, s')
  {
  }

  lemma CommitMovesTransport(c: Plan, s: State, s': State)
    requires CommitStep(s, s')
    ensures TransportMoves(c, s, s')
  {
  }

  lemma RestoreMovesTransport(c: Plan, s: State, s': State)
    requires RestoreStep(c, s, s')
    ensures TransportMoves(c, s, s')
  {
  }

  lemma CloseMovesTransport(c: Plan, s: State, s': State)
    requires CloseStep(s, s')
    ensures TransportMoves(c, s, s')
  {
  }

  lemma LastMovesTransport(c: Plan, s: State, s': State)
    requires (s.pc == Finalize && FinalizeStep(s, s')) || (s.pc == Quiesce && QuiesceStep(c, s, s')) || ForeignStep(c, s, s')
    ensures TransportMoves(c, s, s')
  {
  }

  lemma StepMovesTransport(c: Plan, s: State, s': State)
    requires Next(c, s, s')
    ensures TransportMoves(c, s, s')
  {
    hide TransportMoves, StartStep, MutateStep, WriteStep, ReadyStep, OwnerStep, CommitStep, FinalizeStep, RestoreStep,
      CloseStep, QuiesceStep, ForeignStep;
    if ForeignStep(c, s, s') {
      LastMovesTransport(c, s, s');
    } else {
      match s.pc
      case Begin | ReserveGeneration => StartMovesTransport(c, s, s');
      case MutateTransport => MutateMovesTransport(c, s, s');
      case WriteConfig | FilesCommitted => WriteMovesTransport(c, s, s');
      case VerifyTransport | TransportsReady | HandOff => ReadyMovesTransport(c, s, s');
      case Applying | Returned(_) => OwnerMovesTransport(c, s, s');
      case CoreApplied | CommitJournal => CommitMovesTransport(c, s, s');
      case VerifyLease | RestoreFiles | RestoreTransport => RestoreMovesTransport(c, s, s');
      case CompleteRollback | CoordinatorCompletes | CloseConflict => CloseMovesTransport(c, s, s');
      case Finalize | Quiesce => LastMovesTransport(c, s, s');
    }
  }

  /** The exact file restore wrote the transport at this step. */
  predicate RestoredAt(c: Plan, trace: seq<State>, k: nat) {
    0 < k < |trace| && trace[k - 1].pc == RestoreFiles && trace[k].transport == c.snapshot.transport
  }

  ghost predicate Restored(c: Plan, trace: seq<State>, i: nat) { exists k :: 0 < k <= i && RestoredAt(c, trace, k) }

  /** In every state of every run, other bytes of another writer are still there exactly when the exact file
      restore has not written the transport. */
  lemma {:induction false} ForeignWriteIsLostExactlyWhen(c: Plan, trace: seq<State>, i: nat)
    requires Execution(c, trace) && i < |trace| && Overtaken(c, trace[i])
    ensures trace[i].transport != trace[i].foreign.value <==> Restored(c, trace, i)
    ensures Restored(c, trace, i) ==> trace[i].transport == c.snapshot.transport
    decreases i
  {
    assert i > 0 by { assert Init(c, trace[0]); }
    var s, s' := trace[i - 1], trace[i];
    EveryStateIsSound(c, trace, i - 1);
    StepMovesTransport(c, s, s');
    RestoredGrows(c, trace, i);
    hide Next, Init, Restored;
    if Overtaken(c, s) {
      ForeignWriteIsLostExactlyWhen(c, trace, i - 1);
    } else {
      NotRestoredYet(c, trace, i);
    }
  }

  lemma RestoredGrows(c: Plan, trace: seq<State>, i: nat)
    requires 0 < i < |trace|
    ensures Restored(c, trace, i) <==> Restored(c, trace, i - 1) || RestoredAt(c, trace, i)
  {
  }

  /** Before the mutation nothing was restored. */
  lemma NotRestoredYet(c: Plan, trace: seq<State>, i: nat)
    requires Execution(c, trace) && i < |trace| && (trace[i].pc == ReserveGeneration || trace[i].pc == MutateTransport)
    ensures !Restored(c, trace, i)
  {
    ExecutionOutlined(c, trace);
    hide Next, Init, Outline;
    forall k | 0 < k <= i ensures !RestoredAt(c, trace, k) {
      if trace[k - 1].pc == RestoreFiles { PhaseStays(c, trace, k - 1, i); }
    }
  }

  /** The reservation or the mutation failed with anything but the no-mutation conflict. */
  predicate GaveUpAt(trace: seq<State>, k: nat) {
    && 0 < k < |trace| && (trace[k - 1].pc == ReserveGeneration || trace[k - 1].pc == MutateTransport)
    && trace[k].pc == VerifyLease
  }

  ghost predicate GaveUp(trace: seq<State>, i: nat) { exists k :: 0 < k <= i && GaveUpAt(trace, k) }

  /** An ordinary exit has lost another writer's bytes exactly when the reservation or the mutation failed
      with anything but the no-mutation conflict; no exit at all has lost them otherwise. */
  lemma ExitLosesForeignWriteExactlyWhen(c: Plan, trace: seq<State>, i: nat)
    requires Execution(c, trace) && i < |trace| && trace[i].pc.Exit? && Overtaken(c, trace[i])
    ensures trace[i].pc.outcome != RecoveryRequired ==> (trace[i].transport != trace[i].foreign.value <==> GaveUp(trace, i))
    ensures trace[i].transport != trace[i].foreign.value ==> GaveUp(trace, i)
  {
    EveryStateIsSound(c, trace, i);
    ForeignWriteIsLostExactlyWhen(c, trace, i);
    ExecutionOutlined(c, trace);
    hide Next, Init, Outline, GaveUp, Restored;
    if GaveUp(trace, i) { GivingUpUndoes(c, trace, i); }
    if Restored(c, trace, i) { RestoringNeedsGivingUp(c, trace, i); }
  }

  lemma GivingUpUndoes(c: Plan, trace: seq<State>, i: nat)
    requires Outlined(c, trace) && i < |trace| && GaveUp(trace, i)
    ensures PhaseOf(trace[i].pc) == Undoing || PhaseOf(trace[i].pc) == Stopping
  {
    hide Outline;
    var k :| 0 < k <= i && GaveUpAt(trace, k);
    PhaseStays(c, trace, k, i);
  }

  /** An overtaken run never publishes, so its way into the restore leads from the reservation or the
      mutation. */
  lemma RestoringNeedsGivingUp(c: Plan, trace: seq<State>, i: nat)
    requires Execution(c, trace) && i < |trace| && Overtaken(c, trace[i]) && Restored(c, trace, i)
    ensures GaveUp(trace, i)
  {
    hide Next, Init;
    var k :| 0 < k <= i && RestoredAt(c, trace, k);
    ForeignStays(c, trace, k - 1, i);
    UndoingWasEntered(c, trace, k - 1);
  }

  /** Past the mutation another writer's bytes are not noted any more. */
  lemma {:induction false} ForeignStays(c: Plan, trace: seq<State>, j: nat, i: nat)
    requires Execution(c, trace) && j <= i < |trace| && PhaseOf(trace[j].pc) != Publishing
    ensures trace[i].foreign == trace[j].foreign
    decreases i - j
  {
    hide Init, Next, Outline;
    if j < i {
      ForeignStays(c, trace, j, i - 1);
      ExecutionOutlined(c, trace);
      PhaseStays(c, trace, j, i - 1);
      StepMovesTransport(c, trace[i - 1], trace[i]);
    }
  }

  lemma {:induction false} UndoingWasEntered(c: Plan, trace: seq<State>, i: nat)
    requires Execution(c, trace) && i < |trace| && PhaseOf(trace[i].pc) == Undoing && !trace[i].pc.Exit? && Overtaken(c, trace[i])
    ensures GaveUp(trace, i)
    decreases i
  {
    hide Next, Init, Invariant, Outline, TransportMoves, Overtaken;
    ExecutionOutlined(c, trace);
    assert i > 0 by { assert trace[0].pc == Begin; }
    hide PhaseOf;
    EveryStateIsSound(c, trace, i - 1);
    StepMovesTransport(c, trace[i - 1], trace[i]);
    EnteringStep(c, trace[i - 1], trace[i]);
    if PhaseOf(trace[i - 1].pc) == Undoing {
      UndoingWasEntered(c, trace, i - 1);
    } else {
      assert GaveUpAt(trace, i);
    }
  }

  lemma EnteringStep(c: Plan, s: State, s': State)
    requires Invariant(c, s) && Outline(c, s, s') && TransportMoves(c, s, s')
    requires PhaseOf(s'.pc) == Undoing && !s'.pc.Exit? && Overtaken(c, s')
    ensures !s.pc.Exit? && Overtaken(c, s)
    ensures PhaseOf(s.pc) != Undoing ==> s'.pc == VerifyLease && (s.pc == ReserveGeneration || s.pc == MutateTransport)
  {
    hide GuardMoves, Init, Guarded, Published, Exact, FilesExact, Unproven, ExitClass, OwnerContract;
  }

  /** A crash: what startup recovery finds decides. Another writer's bytes are lost exactly when the journal is
      still active or they were overwritten before. */
  lemma CrashLosesForeignWriteExactlyWhen(c: Plan, trace: seq<State>, i: nat)
    requires Execution(c, trace) && i < |trace| && Overtaken(c, trace[i]) && !trace[i].unknown
    ensures StartupRecovery(c, trace[i]).transport != trace[i].foreign.value <==> trace[i].active || Restored(c, trace, i)
  {
    EveryStateIsSound(c, trace, i);
    ForeignWriteIsLostExactlyWhen(c, trace, i);
    hide Next, Init, Restored;
  }

  /** Such a run exists: the other writer comes before the generation is reserved, the reservation fails,
      and the exact rollback overwrites the newer bytes. */
  lemma ForeignWriteCanBeLost(c: Plan, s0: State, other: Bytes) returns (trace: seq<State>)
    requires Init(c, s0) && c.hasTransport && !s0.unknown && other != c.snapshot.transport
    ensures Execution(c, trace) && var last := trace[|trace| - 1];
      last.pc == Exit(RolledBack) && last.foreign == Some(other) && last.transport == c.snapshot.transport
  {
    var s1 := s0.(pc := ReserveGeneration, active := true, payload := Some(c.snapshot));
    var s2 := s1.(transport := other, manager := other, foreign := Some(other));
    var s3 := s2.(pc := VerifyLease);
    var s4 := s3.(pc := RestoreFiles);
    var s5 := s4.(pc := RestoreTransport, config := c.snapshot.config, transport := c.snapshot.transport);
    var s6 := s5.(pc := CompleteRollback, manager := c.snapshot.transport);
    var s7 := s6.(pc := CoordinatorCompletes, active := false);
    var s8 := s7.(pc := Exit(RolledBack));
    assert Next(c, s0, s1) by { hide MutateStep, WriteStep, ReadyStep, OwnerStep, CommitStep, RestoreStep, CloseStep, QuiesceStep; }
    assert Next(c, s1, s2) by { hide RequestStep; }
    assert Next(c, s2, s3) by { hide BeginStep, ForeignStep; }
    assert Next(c, s3, s4) by { hide ForeignStep; }
    assert Next(c, s4, s5) by { hide ForeignStep; }
    assert Next(c, s5, s6) by { hide ForeignStep; }
    assert Next(c, s6, s7) by { hide ForeignStep; }
    assert Next(c, s7, s8) by { hide ForeignStep; }
    hide Next, Init;
    trace := [s0, s1, s2, s3, s4, s5, s6, s7, s8];
  }
}
