/** How a durable commit can end: from every state that a run can reach, exactly which exits are still
    open, and what decides between them. */
module ConfigOutcomes {
  import opened Basics
  import opened ConfigCommit

  // ----- which exits are open -----

  /** The commit is open until a step failed, the transport was overtaken or a report was no clean success
      with the lease back. */
  predicate CanCommit(c: Plan, s: State) {
    match s.pc
    case Begin => !s.unknown
    case ReserveGeneration => c.hasTransport ==> !Overtaken(c, s)
    case MutateTransport => !Overtaken(c, s)
    case VerifyTransport => s.manager == s.committed
    case WriteConfig | FilesCommitted | TransportsReady | HandOff | CoreApplied | CommitJournal | Finalize => true
    case Applying => c.production || s.lease == Request
    case Returned(r) => s.lease == Request && Succeeded(r)
    case _ => false
  }

  /** An exact rollback is open while no marker forbids it, until the report was no proof of the old runtime
      with the lease back. */
  predicate CanRollBack(c: Plan, s: State) {
    && !s.unknown
    && match s.pc
       case Applying => c.production || s.lease == Request
       case Returned(r) => s.lease == Request && ProvenOld(r)
       case VerifyLease | RestoreFiles => s.active
       case CoreApplied | CommitJournal | Finalize | CloseConflict | Quiesce | Exit(_) => false
       case _ => true
  }

  predicate CanConflict(c: Plan, s: State) {
    && !s.unknown
    && match s.pc
       case Begin | ReserveGeneration => c.hasTransport
       case MutateTransport | CloseConflict => true
       case _ => false
  }

  /** Every run may still need recovery, unless it passed the commit point. */
  predicate CanNeedRecovery(s: State) { !s.pc.Finalize? && !s.pc.Exit? }

  predicate CanEnd(c: Plan, s: State, o: Outcome) {
    || s.pc == Exit(o)
    || match o
       case Committed(_) => CanCommit(c, s)
       case NotStarted => s.pc == Begin && !s.unknown
       case Conflict => CanConflict(c, s)
       case RolledBack => CanRollBack(c, s)
       case RecoveryRequired => CanNeedRecovery(s)
  }

  /** Until this request mutates it, the transport holds what another writer put there, or the snapshot. */
  predicate Settled(c: Plan, s: State) {
    s.pc == Begin || s.pc == ReserveGeneration || s.pc == MutateTransport ==>
      s.transport == if s.foreign.Some? then s.foreign.value else c.snapshot.transport
  }

  ghost predicate Sound(c: Plan, s: State) { Invariant(c, s) && Settled(c, s) }

  // ----- nothing else is open -----

  lemma StartBack(c: Plan, s: State, s': State, o: Outcome)
    requires StartStep(c, s, s') && CanEnd(c, s', o)
    ensures CanEnd(c, s, o)
  {
  }

  lemma MutateBack(c: Plan, s: State, s': State, o: Outcome)
    requires s.pc == MutateTransport && ForeignFate(c, s) && MutateStep(c, s, s') && CanEnd(c, s', o)
    ensures CanEnd(c, s, o)
  {
  }

  lemma WriteBack(c: Plan, s: State, s': State, o: Outcome)
    requires WriteStep(c, s, s') && CanEnd(c, s', o)
    ensures CanEnd(c, s, o)
  {
  }

  lemma ReadyBack(c: Plan, s: State, s': State, o: Outcome)
    requires ReadyStep(c, s, s') && CanEnd(c, s', o)
    ensures CanEnd(c, s, o)
  {
  }

  lemma ReportBack(c: Plan, s: State, s': State, o: Outcome)
    requires s.pc == Applying && OwnerStep(c, s, s') && CanEnd(c, s', o)
    ensures CanEnd(c, s, o)
  {
    hide OwnerContract, Succeeded, ProvenOld;
  }

  lemma ReturnBack(c: Plan, s: State, s': State, o: Outcome)
    requires s.pc.Returned? && OwnerStep(c, s, s') && CanEnd(c, s', o)
    ensures CanEnd(c, s, o)
  {
    hide Succeeded, ProvenOld, Overtaken;
    var r := s.pc.result;
    assert s'.unknown == s.unknown && s'.lease == s.lease;
    assert s'.pc == CoreApplied || s'.pc == VerifyLease || s'.pc == Quiesce;
    hide OwnerContract;
  }

  lemma CommitBack(c: Plan, s: State, s': State, o: Outcome)
    requires CommitStep(s, s') && CanEnd(c, s', o)
    ensures CanEnd(c, s, o)
  {
  }

  lemma RestoreFilesBack(c: Plan, s: State, s': State, o: Outcome)
    requires s.pc == RestoreFiles && RestoreStep(c, s, s') && CanEnd(c, s', o)
    ensures CanEnd(c, s, o)
  {
  }

  lemma RestoreBack(c: Plan, s: State, s': State, o: Outcome)
    requires s.pc != RestoreFiles && RestoreStep(c, s, s') && CanEnd(c, s', o)
    ensures CanEnd(c, s, o)
  {
  }

  lemma ConflictBack(c: Plan, s: State, s': State, o: Outcome)
    requires s.pc == CloseConflict && CloseStep(s, s') && CanEnd(c, s', o)
    ensures CanEnd(c, s, o)
  {
  }

  lemma CloseBack(c: Plan, s: State, s': State, o: Outcome)
    requires s.pc != CloseConflict && CloseStep(s, s') && CanEnd(c, s', o)
    ensures CanEnd(c, s, o)
  {
  }

  lemma FinalizeBack(c: Plan, s: State, s': State, o: Outcome)
    requires s.pc == Finalize && FinalizeStep(s, s') && CanEnd(c, s', o)
    ensures CanEnd(c, s, o)
  {
  }

  lemma QuiesceBack(c: Plan, s: State, s': State, o: Outcome)
    requires s.pc == Quiesce && QuiesceStep(c, s, s') && CanEnd(c, s', o)
    ensures CanEnd(c, s, o)
  {
    hide MayQuiesce;
  }

  lemma ForeignBack(c: Plan, s: State, s': State, o: Outcome)
    requires ForeignStep(c, s, s') && CanEnd(c, s', o)
    ensures CanEnd(c, s, o)
  {
  }

  /** An exit that is open after a step was open before it. */
  lemma StepOpensNothing(c: Plan, s: State, s': State, o: Outcome)
    requires ForeignFate(c, s) && Next(c, s, s') && CanEnd(c, s', o)
    ensures CanEnd(c, s, o)
  {
    hide CanEnd, StartStep, MutateStep, WriteStep, ReadyStep, OwnerStep, CommitStep, FinalizeStep, RestoreStep, CloseStep,
      QuiesceStep, ForeignStep, ForeignFate;
    if ForeignStep(c, s, s') {
      ForeignBack(c, s, s', o);
    } else {
      match s.pc
      case Begin | ReserveGeneration => StartBack(c, s, s', o);
      case MutateTransport => MutateBack(c, s, s', o);
      case WriteConfig | FilesCommitted => WriteBack(c, s, s', o);
      case VerifyTransport | TransportsReady | HandOff => ReadyBack(c, s, s', o);
      case Applying => ReportBack(c, s, s', o);
      case Returned(_) => ReturnBack(c, s, s', o);
      case CoreApplied | CommitJournal => CommitBack(c, s, s', o);
      case RestoreFiles => RestoreFilesBack(c, s, s', o);
      case VerifyLease | RestoreTransport => RestoreBack(c, s, s', o);
      case CloseConflict => ConflictBack(c, s, s', o);
      case CompleteRollback | CoordinatorCompletes => CloseBack(c, s, s', o);
      case Finalize => FinalizeBack(c, s, s', o);
      case Quiesce => QuiesceBack(c, s, s', o);
    }
  }

  // ----- all of them are open -----

  lemma EarlyCommitGoesOn(c: Plan, s: State) returns (s': State)
    requires Early(s.pc) && Sound(c, s) && CanCommit(c, s)
    ensures Next(c, s, s') && CanCommit(c, s')
  {
    hide ForeignStep, Changed;
    match s.pc
    case Begin => s' := s.(pc := ReserveGeneration, active := true, payload := Some(c.snapshot));
    case ReserveGeneration => s' := s.(pc := if c.hasTransport then MutateTransport else WriteConfig);
    case MutateTransport => s' := s.(pc := WriteConfig, manager := s.transport, committed := s.transport, ours := true);
    case WriteConfig => s' := s.(pc := FilesCommitted, config := c.newConfig);
    case FilesCommitted => s' := s.(pc := if c.hasTransport then VerifyTransport else HandOff);
    case VerifyTransport => s' := s.(pc := TransportsReady);
    case TransportsReady => s' := s.(pc := HandOff);
    case HandOff => s' := s.(pc := Applying, lease := if c.production then Owner else Request);
    case Applying => s' := Reports(c, s, Reported(true, false, false, false), NewRuntime);
  }

  lemma CommitGoesOn(c: Plan, s: State, announced: bool) returns (s': State)
    requires Sound(c, s) && CanCommit(c, s)
    ensures Next(c, s, s') && CanEnd(c, s', Committed(announced))
  {
    hide ForeignStep, Invariant, Settled;
    if Early(s.pc) {
      s' := EarlyCommitGoesOn(c, s);
    } else {
      match s.pc
      case Returned(_) => s' := s.(pc := CoreApplied);
      case CoreApplied => s' := s.(pc := CommitJournal);
      case CommitJournal => s' := s.(pc := Finalize, active := false, receipt := true);
      case Finalize => s' := s.(pc := Exit(Committed(announced)));
    }
  }

  /** The owner reports and gives the lease back. */
  function Reports(c: Plan, s: State, r: ApplyResult, runtime: Runtime): State {
    var t := s.(pc := Returned(r), runtime := runtime);
    if c.production then t.(lease := Request, gate := false) else t
  }

  lemma RollbackGoesOn(c: Plan, s: State) returns (s': State)
    requires Sound(c, s) && CanRollBack(c, s)
    ensures Next(c, s, s') && CanEnd(c, s', RolledBack)
  {
    match s.pc
    case Begin => s' := s.(pc := ReserveGeneration, active := true, payload := Some(c.snapshot));
    case MutateTransport => s' := s.(pc := VerifyLease, ours := s.ours || s.transport == c.snapshot.transport);
    case ReserveGeneration | WriteConfig | FilesCommitted | VerifyTransport | TransportsReady => s' := s.(pc := VerifyLease);
    case HandOff => s' := s.(pc := Applying, lease := if c.production then Owner else Request);
    case Applying => s' := Reports(c, s, Reported(false, true, true, false), OldRuntime);
    case Returned(_) => s' := s.(pc := VerifyLease);
    case VerifyLease => s' := s.(pc := RestoreFiles);
    case RestoreFiles =>
      s' := s.(pc := RestoreTransport, config := c.snapshot.config, transport := if c.hasTransport then c.snapshot.transport else s.transport);
    case RestoreTransport => s' := s.(pc := CompleteRollback, manager := if c.hasTransport then c.snapshot.transport else s.manager);
    case CompleteRollback => s' := s.(pc := CoordinatorCompletes, active := false);
    case CoordinatorCompletes => s' := s.(pc := Exit(RolledBack));
  }

  lemma ConflictGoesOn(c: Plan, s: State) returns (s': State)
    requires CanConflict(c, s)
    ensures Next(c, s, s') && CanEnd(c, s', Conflict)
  {
    match s.pc
    case Begin => s' := s.(pc := ReserveGeneration, active := true, payload := Some(c.snapshot));
    case ReserveGeneration => s' := s.(pc := MutateTransport);
    case MutateTransport => s' := s.(pc := CloseConflict);
    case CloseConflict => s' := s.(pc := Exit(Conflict), active := false);
  }

  lemma EarlyRecoveryGoesOn(c: Plan, s: State) returns (s': State)
    requires Early(s.pc)
    ensures Next(c, s, s') && CanEnd(c, s', RecoveryRequired)
  {
    hide ForeignStep, Overtaken;
    match s.pc
    case Begin => s' := s.(pc := Quiesce, active := false, payload := None);
    case ReserveGeneration | WriteConfig | FilesCommitted | VerifyTransport | TransportsReady => s' := s.(pc := VerifyLease);
    case MutateTransport => s' := s.(pc := CloseConflict);
    case HandOff => s' := s.(pc := Applying, lease := if c.production then Owner else Request);
    case Applying => s' := Reports(c, s, Threw, s.runtime);
  }

  lemma RecoveryGoesOn(c: Plan, s: State) returns (s': State)
    requires Sound(c, s) && CanNeedRecovery(s)
    ensures Next(c, s, s') && CanEnd(c, s', RecoveryRequired)
  {
    hide ForeignStep, Invariant, Settled, Overtaken, Succeeded, ProvenOld;
    if Early(s.pc) {
      s' := EarlyRecoveryGoesOn(c, s);
    } else {
      match s.pc
      case Returned(r) =>
        s' := s.(pc := if s.lease == Request && Succeeded(r) then CoreApplied
                       else if s.lease == Request && ProvenOld(r) then VerifyLease else Quiesce);
      case RestoreTransport => s' := s.(pc := CompleteRollback, manager := if c.hasTransport then c.snapshot.transport else s.manager);
      case Quiesce =>
        s' := if MayQuiesce(c, s) then s.(pc := Exit(RecoveryRequired), quiesce := OwnerCalled(false))
              else s.(pc := Exit(RecoveryRequired), quiesce := GateRefused);
      case CommitJournal => s' := s.(pc := Quiesce, receipt := true);
      case _ => s' := s.(pc := Quiesce);
    }
  }

  lemma SettledGoesOn(c: Plan, s: State, s': State)
    requires Settled(c, s) && Next(c, s, s')
    ensures Settled(c, s')
  {
    hide GuardMoves, StartStep, MutateStep, WriteStep, ReadyStep, OwnerStep, CommitStep, FinalizeStep, RestoreStep, CloseStep, QuiesceStep;
    StepOutline(c, s, s');
    if RequestStep(c, s, s') {
      if s.pc == Begin || s.pc == ReserveGeneration { StartKeepsTransport(c, s, s'); }
      if s.pc == MutateTransport { MutationGoesOn(c, s, s'); }
    }
  }

  lemma StartKeepsTransport(c: Plan, s: State, s': State)
    requires StartStep(c, s, s')
    ensures s'.transport == s.transport && s'.foreign == s.foreign && s'.pc != Begin
  {
  }

  lemma MutationGoesOn(c: Plan, s: State, s': State)
    requires MutateStep(c, s, s')
    ensures s'.pc == WriteConfig || s'.pc == CloseConflict || s'.pc == VerifyLease
  {
  }

  lemma ExitGoesOn(c: Plan, s: State, o: Outcome) returns (s': State)
    requires Sound(c, s) && CanEnd(c, s, o) && s.pc != Exit(o)
    ensures Next(c, s, s') && CanEnd(c, s', o)
  {
    hide Sound, CanCommit, CanRollBack, CanConflict, CanNeedRecovery, Next;
    match o
    case Committed(announced) => s' := CommitGoesOn(c, s, announced);
    case NotStarted => s' := RefusalGoesOn(c, s);
    case Conflict => s' := ConflictGoesOn(c, s);
    case RolledBack => s' := RollbackGoesOn(c, s);
    case RecoveryRequired => s' := RecoveryGoesOn(c, s);
  }

  lemma RefusalGoesOn(c: Plan, s: State) returns (s': State)
    requires s.pc == Begin && !s.unknown && Sound(c, s)
    ensures Next(c, s, s') && s'.pc == Exit(NotStarted)
  {
    s' := s.(pc := Exit(NotStarted));
  }

  // ----- continuations -----

  /** A way from s to an exit. */
  ghost predicate Leads(c: Plan, s: State, rest: seq<State>, o: Outcome) {
    && |rest| > 0 && rest[0] == s && rest[|rest| - 1].pc == Exit(o)
    && forall i :: 0 < i < |rest| ==> Next(c, rest[i - 1], rest[i])
  }

  lemma {:induction false} OpenExitIsReached(c: Plan, s: State, o: Outcome) returns (rest: seq<State>)
    requires Sound(c, s) && CanEnd(c, s, o)
    ensures Leads(c, s, rest, o)
    decreases Remaining(s)
  {
    hide CanEnd, Next, Invariant, Settled, Remaining;
    if s.pc == Exit(o) {
      rest := [s];
    } else {
      var s' := ExitGoesOn(c, s, o);
      StepKeeps(c, s, s');
      SettledGoesOn(c, s, s');
      var more := OpenExitIsReached(c, s', o);
      rest := [s] + more;
      forall i | 0 < i < |rest| ensures Next(c, rest[i - 1], rest[i]) {
        assert i > 1 ==> rest[i - 1] == more[i - 2] && rest[i] == more[i - 1];
        assert i == 1 ==> rest[i - 1] == s && rest[i] == s';
      }
    }
  }

  lemma FateOfSound(c: Plan, s: State)
    requires Invariant(c, s)
    ensures ForeignFate(c, s)
  {
    hide ForeignFate, Init, Guarded, Published, Exact, FilesExact, Unproven, ExitClass, OwnerContract, Changed;
  }

  lemma {:induction false} ReachedExitWasOpen(c: Plan, s: State, rest: seq<State>, o: Outcome)
    requires Sound(c, s) && Leads(c, s, rest, o)
    ensures CanEnd(c, s, o)
    decreases |rest|
  {
    hide Next, Invariant, Settled, CanCommit, CanRollBack, CanConflict, CanNeedRecovery;
    if |rest| > 1 {
      var s', more := rest[1], rest[1..];
      assert Next(c, rest[0], rest[1]);
      forall i | 0 < i < |more| ensures Next(c, more[i - 1], more[i]) { assert Next(c, rest[i], rest[i + 1]); }
      StepKeeps(c, s, s');
      SettledGoesOn(c, s, s');
      ReachedExitWasOpen(c, s', more, o);
      FateOfSound(c, s);
      StepOpensNothing(c, s, s', o);
    }
  }

  lemma {:induction false} EveryStateIsSettled(c: Plan, trace: seq<State>, i: nat)
    requires Execution(c, trace) && i < |trace|
    ensures Sound(c, trace[i])
    decreases i
  {
    hide Next, Invariant, Settled;
    EveryStateIsSound(c, trace, i);
    if i == 0 {
      StartIsSettled(c, trace[0]);
    } else {
      EveryStateIsSettled(c, trace, i - 1);
      SettledGoesOn(c, trace[i - 1], trace[i]);
    }
  }

  lemma StartIsSettled(c: Plan, s: State)
    requires Init(c, s)
    ensures Settled(c, s)
  {
  }

  /** In every state of every run: some continuation ends in an exit exactly when that exit is open. */
  lemma ExitIsReachableExactlyWhen(c: Plan, trace: seq<State>, i: nat, o: Outcome)
    requires Execution(c, trace) && i < |trace|
    ensures (exists rest :: Leads(c, trace[i], rest, o)) <==> CanEnd(c, trace[i], o)
  {
    hide Next, Invariant, Settled, CanEnd;
    EveryStateIsSettled(c, trace, i);
    if CanEnd(c, trace[i], o) {
      var rest := OpenExitIsReached(c, trace[i], o);
    }
    if rest :| Leads(c, trace[i], rest, o) {
      ReachedExitWasOpen(c, trace[i], rest, o);
    }
  }

  /** Every save that starts without a marker can commit: there is a run that ends with the new config
      published, the new runtime and the journal closed. */
  lemma EverySaveCanCommit(c: Plan, s: State, announced: bool) returns (trace: seq<State>)
    requires Init(c, s) && !s.unknown
    ensures Execution(c, trace) && trace[0] == s
    ensures var last := trace[|trace| - 1];
      && last.pc == Exit(Committed(announced)) && last.config == c.newConfig && last.runtime == NewRuntime
      && !last.active && last.receipt && last.lease == Request
  {
    hide Next, Invariant;
    InitHolds(c, s);
    trace := OpenExitIsReached(c, s, Committed(announced));
    EveryStateIsSound(c, trace, |trace| - 1);
    CommittedMeans(c, trace[|trace| - 1]);
  }

  lemma CommittedMeans(c: Plan, s: State)
    requires Invariant(c, s) && s.pc.Exit? && s.pc.outcome.Committed?
    ensures s.config == c.newConfig && s.runtime == NewRuntime && !s.active && s.receipt && s.lease == Request
  {
  }

  // ----- what decides -----

  /** The owner reported a clean success and the lease was back. */
  predicate CleanReport(s: State) { s.pc.Returned? && s.lease == Request && Succeeded(s.pc.result) }

  /** A finished run has committed exactly when the owner reported a clean success, the lease was back, and no
      journal step failed afterwards. */
  lemma CommitsExactlyWhen(c: Plan, trace: seq<State>)
    requires Execution(c, trace) && trace[|trace| - 1].pc.Exit?
    ensures trace[|trace| - 1].pc.outcome.Committed? <==>
      exists i :: 0 <= i < |trace| && CleanReport(trace[i]) && forall k :: i < k < |trace| ==> trace[k].pc != Quiesce
  {
    hide Next, Init;
    ExecutionOutlined(c, trace);
    var n := |trace| - 1;
    if trace[n].pc.outcome.Committed? {
      var i := CommitHadReport(c, trace, n);
      forall k | i < k < |trace| ensures trace[k].pc != Quiesce {
        if trace[k].pc == Quiesce { PhaseStays(c, trace, k, n); }
      }
    }
    if i :| 0 <= i < |trace| && CleanReport(trace[i]) && forall k :: i < k < |trace| ==> trace[k].pc != Quiesce {
      hide Outline;
      ConfirmedUnlessStopped(c, trace, i, n);
    }
  }

  lemma {:induction false} ConfirmedUnlessStopped(c: Plan, trace: seq<State>, i: nat, n: nat)
    requires Outlined(c, trace) && i < n < |trace| && CleanReport(trace[i]) && forall k :: i < k < |trace| ==> trace[k].pc != Quiesce
    ensures PhaseOf(trace[n].pc) == Confirmed
    decreases n
  {
    assert Outline(c, trace[n - 1], trace[n]);
    if i < n - 1 { ConfirmedUnlessStopped(c, trace, i, n - 1); }
  }

  lemma {:induction false} CommitHadReport(c: Plan, trace: seq<State>, n: nat) returns (i: nat)
    requires Outlined(c, trace) && n < |trace| && PhaseOf(trace[n].pc) == Confirmed
    ensures i < n && CleanReport(trace[i])
    decreases n
  {
    assert n > 0;
    assert Outline(c, trace[n - 1], trace[n]);
    if PhaseOf(trace[n - 1].pc) == Confirmed {
      i := CommitHadReport(c, trace, n - 1);
    } else {
      i := n - 1;
    }
  }
}
