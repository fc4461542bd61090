/** Applying a prepared restore under one lease: files, services and the runtime move forward in
    order, and a failure is compensated unless the runtime's state is unknown. Everything outside the
    process answers as it likes; its answers are a parameter, so the contracts hold for every run. */
module BackupRestore {
  import opened LeaseGuard

  datatype Service = TransportManager | Nfqws
  datatype Body = NextConfig | PreviousConfig

  datatype Effect =
    | ApplyFiles
    | RollBackFiles
    | RestartService(service: Service)
    | Send(body: Body)

  /** Preparation sets the next and the previous config together. */
  datatype Prepared = Prepared(changesConfig: bool, restartTransports: bool, restartNfqws: bool)

  datatype Files = OldFiles | CandidateFiles | MixedFiles
  datatype Runtime = OldRuntime | NewRuntime | UnknownRuntime

  datatype Reply = Reply(applied: bool, failed: bool, rolledBack: bool, untouched: bool)

  /** How one attempt to apply a config ended. */
  datatype Applied = Unavailable | StateUnknown | Known(reply: Reply)

  /** How the forward part ended; `verified` says that the new config was already running. */
  datatype Forward = Done | Unclear | Broken(verified: bool)

  datatype Outcome = Restored | Ambiguous | Failed(complete: bool)

  predicate Verified(r: Reply) { r.applied && !r.failed }

  predicate ProvenOld(r: Reply) { !Verified(r) && (r.rolledBack || r.untouched) }

  /** The owner confirmed the body, with the lease back. */
  predicate Confirmed(a: Applied) { a.Known? && Verified(a.reply) }

  /** Nothing is proven: no usable reply, or a failure that claims neither a rollback nor an untouched
      runtime. */
  predicate Inconclusive(a: Applied) { a.StateUnknown? || (a.Known? && !Verified(a.reply) && !ProvenOld(a.reply)) }

  /** What the typed owner's reply proves about the runtime after `body` was sent. */
  predicate OwnerContract(body: Body, r: Reply, before: Runtime, after: Runtime) {
    if r.applied && !r.failed then after == (if body == NextConfig then NewRuntime else OldRuntime)
    else r.rolledBack || r.untouched ==> after == before
  }

  // ---- The plans ----

  function When(b: bool, e: Effect): seq<Effect> { if b then [e] else [] }

  function ForwardPlan(p: Prepared): seq<Effect> {
    [ApplyFiles] + When(p.restartTransports, RestartService(TransportManager)) +
    When(p.changesConfig, Send(NextConfig)) + When(p.restartNfqws, RestartService(Nfqws))
  }

  function BeforeRuntime(p: Prepared): seq<Effect> {
    [ApplyFiles] + When(p.restartTransports, RestartService(TransportManager))
  }

  function ThroughRuntime(p: Prepared): seq<Effect> { BeforeRuntime(p) + When(p.changesConfig, Send(NextConfig)) }

  lemma PlanInParts(p: Prepared)
    ensures BeforeRuntime(p) <= ThroughRuntime(p) <= ForwardPlan(p)
    ensures ForwardPlan(p) == ThroughRuntime(p) + When(p.restartNfqws, RestartService(Nfqws))
    ensures RestartService(TransportManager) in BeforeRuntime(p) <==> p.restartTransports
    ensures RestartService(TransportManager) in ThroughRuntime(p) <==> p.restartTransports
    ensures RestartService(TransportManager) in ForwardPlan(p) <==> p.restartTransports
    ensures Send(NextConfig) !in BeforeRuntime(p)
    ensures Send(NextConfig) in ThroughRuntime(p) <==> p.changesConfig
    ensures Send(NextConfig) in ForwardPlan(p) <==> p.changesConfig
    ensures RestartService(Nfqws) !in ThroughRuntime(p)
  {
  }

  /** Files first, then the services that were restarted, with the old config in between when the new
      one had been verified and the owner could be reached. */
  function RollbackPlan(forward: seq<Effect>, resend: bool): seq<Effect> {
    [RollBackFiles] + When(RestartService(TransportManager) in forward, RestartService(TransportManager)) +
    When(resend, Send(PreviousConfig)) + When(RestartService(Nfqws) in forward, RestartService(Nfqws))
  }

  // ---- What the outside answers ----

  /** How the owner's callback ends: it replies or throws, it leaves the exact lease it was given in the
      caller's variable or not, and admission still recognises that lease or not. */
  datatype OwnerAnswer = OwnerAnswer(reply: Reply, threw: bool, returned: bool, current: bool)

  /** Every answer a restore may meet, forward and backward: admission to a request for a gate, the file
      transaction, the hooks before a restart and after an apply, the restarts, and the owner. */
  datatype World = World(
    gate: bool, files: bool, transportHook: bool, transport: bool, next: OwnerAnswer, applyHook: bool,
    nfqwsHook: bool, nfqws: bool,
    filesBack: bool, transportBack: bool, regate: bool, previous: OwnerAnswer, nfqwsBack: bool)

  /** What an apply comes to: a reply counts only with the exact lease back. */
  function Heard(o: OwnerAnswer): Applied {
    if o.threw || !o.returned || !o.current then StateUnknown else Known(o.reply)
  }

  /** The files were applied under an armed gate. */
  predicate FilesDone(p: Prepared, armed: bool, w: World) { (p.changesConfig && !armed ==> w.gate) && w.files }

  /** The transport manager is up on them. */
  predicate TransportDone(p: Prepared, armed: bool, w: World) {
    FilesDone(p, armed, w) && (p.restartTransports ==> w.transportHook && w.transport)
  }

  predicate NextSent(p: Prepared, armed: bool, w: World) { TransportDone(p, armed, w) && p.changesConfig }

  /** The owner confirmed the new config. */
  predicate NextConfirmed(p: Prepared, armed: bool, w: World) { NextSent(p, armed, w) && Confirmed(Heard(w.next)) }

  predicate ConfigDone(p: Prepared, armed: bool, w: World) {
    TransportDone(p, armed, w) && (p.changesConfig ==> NextConfirmed(p, armed, w) && w.applyHook)
  }

  /** Everything went well. */
  predicate AllDone(p: Prepared, armed: bool, w: World) {
    ConfigDone(p, armed, w) && (p.restartNfqws ==> w.nfqwsHook && w.nfqws)
  }

  /** The forward effects tell how far a restore came: an effect is there exactly when everything before it
      went well. */
  ghost predicate CameThisFar(p: Prepared, armed: bool, w: World, forward: seq<Effect>) {
    && (ApplyFiles in forward <==> (p.changesConfig && !armed ==> w.gate))
    && (RestartService(TransportManager) in forward <==> FilesDone(p, armed, w) && p.restartTransports && w.transportHook)
    && (Send(NextConfig) in forward <==> NextSent(p, armed, w))
    && (RestartService(Nfqws) in forward <==> ConfigDone(p, armed, w) && p.restartNfqws && w.nfqwsHook)
  }

  /** Every part of a rollback that was called for went well. */
  ghost predicate AllUndone(w: World, forward: seq<Effect>, confirmed: bool) {
    && w.filesBack
    && (RestartService(TransportManager) in forward ==> w.transportBack)
    && (confirmed ==> w.regate && Confirmed(Heard(w.previous)))
    && (RestartService(Nfqws) in forward ==> w.nfqwsBack)
  }

  class RestoreRun {
    const guard: BackupRuntimeMutationGuard
    ghost var forward: seq<Effect>
    ghost var backward: seq<Effect>
    ghost var files: Files
    ghost var runtime: Runtime

    constructor (guard: BackupRuntimeMutationGuard)
      ensures this.guard == guard && forward == [] && backward == [] && files == OldFiles && runtime == OldRuntime
    {
      this.guard := guard;
      forward, backward, files, runtime := [], [], OldFiles, OldRuntime;
    }

    method ApplyFileMutations(answer: bool) returns (ok: bool)
      modifies this`forward, this`files
      ensures forward == old(forward) + [ApplyFiles]
      ensures ok == answer && (ok ==> files == CandidateFiles)
    {
      ok := answer;
      forward := forward + [ApplyFiles];
      files := if ok then CandidateFiles else MixedFiles;
    }

    /** Restart and wait until the service is ready. */
    method Restart(service: Service, rollback: bool, answer: bool) returns (ok: bool)
      modifies this`forward, this`backward
      ensures ok == answer
      ensures !rollback ==> forward == old(forward) + [RestartService(service)] && backward == old(backward)
      ensures rollback ==> backward == old(backward) + [RestartService(service)] && forward == old(forward)
    {
      if rollback { backward := backward + [RestartService(service)]; }
      else { forward := forward + [RestartService(service)]; }
      ok := answer;
    }

    /** The owner's callback. What it leaves in the caller's lease variable, if not the lease it was given,
        is nothing or some other lease; what it proves about the runtime is in its contract. */
    method RuntimeOwner(body: Body, given: Lease, o: OwnerAnswer) returns (r: Reply, threw: bool, left: Lease?)
      modifies this`runtime
      ensures r == o.reply && threw == o.threw
      ensures TokenOf(left) == TokenOf(given) <==> o.returned
      ensures !threw ==> OwnerContract(body, r, old(runtime), runtime)
    {
      r, threw := o.reply, o.threw;
      left := *;
      if o.returned { left := given; }
      else if left != null && left.token == given.token { left := null; }
      if threw { runtime := *; }
      else if r.applied && !r.failed { runtime := if body == NextConfig then NewRuntime else OldRuntime; }
      else if !r.rolledBack && !r.untouched { runtime := *; }
    }

    /** One apply through the typed owner; `granted` is admission's answer when a gate has to be armed
        first. The reply is looked at only after the exact lease is back. */
    method ApplyRuntimeConfig(body: Body, armed: bool, granted: bool, o: OwnerAnswer) returns (a: Applied)
      requires guard.Valid() && guard.owned && guard.gate == armed
      modifies guard, this`forward, this`backward, this`runtime
      ensures guard.Valid()
      ensures a == if armed || granted then Heard(o) else Unavailable
      ensures a.Unavailable? ==> forward == old(forward) && backward == old(backward) && runtime == old(runtime)
      ensures !a.Unavailable? && body == NextConfig ==> forward == old(forward) + [Send(body)] && backward == old(backward)
      ensures !a.Unavailable? && body == PreviousConfig ==> backward == old(backward) + [Send(body)] && forward == old(forward)
      ensures a.Known? ==> guard.owned && !guard.gate && OwnerContract(body, a.reply, old(runtime), runtime)
    {
      if !armed {
        var ok := guard.ArmHandoffGate(granted);
        if !ok { return Unavailable; }
      }
      var given := guard.TakeLease();
      if body == NextConfig { forward := forward + [Send(body)]; } else { backward := backward + [Send(body)]; }
      var r, threw, left := RuntimeOwner(body, given, o);
      var back := guard.RestoreLease(left, o.current);
      a := if !back || threw then StateUnknown else Known(r);
    }

    method RollBackFileMutations(answer: bool) returns (ok: bool)
      modifies this`backward, this`files
      ensures backward == old(backward) + [RollBackFiles]
      ensures ok == answer && (ok ==> files == OldFiles)
    {
      ok := answer;
      backward := backward + [RollBackFiles];
      files := if ok then OldFiles else MixedFiles;
    }

    /** The compensation after a failure that is not ambiguous. */
    method Compensate(p: Prepared, transportAttempted: bool, runtimeAttempted: bool, nfqwsAttempted: bool, w: World)
      returns (complete: bool)
      requires guard.Valid() && guard.owned && (runtimeAttempted ==> !guard.gate) && backward == []
      requires transportAttempted <==> RestartService(TransportManager) in forward
      requires nfqwsAttempted <==> RestartService(Nfqws) in forward
      requires runtimeAttempted <==> runtime != OldRuntime
      modifies guard, this`backward, this`files, this`runtime, this`forward
      ensures guard.Valid() && forward == old(forward)
      ensures backward == RollbackPlan(forward, runtimeAttempted && w.regate)
      ensures complete <==> AllUndone(w, forward, runtimeAttempted)
      ensures complete ==> files == OldFiles && runtime == OldRuntime
    {
      complete := RollBackFileMutations(w.filesBack);
      if transportAttempted {
        var ok := Restart(TransportManager, true, w.transportBack);
        complete := complete && ok;
      }
      if runtimeAttempted {
        var a := ApplyRuntimeConfig(PreviousConfig, false, w.regate, w.previous);
        complete := complete && a.Known? && Verified(a.reply);
      }
      if nfqwsAttempted {
        var ok := Restart(Nfqws, true, w.nfqwsBack);
        complete := complete && ok;
      }
    }

    /** The forward part: everything inside the try block. */
    method MoveForward(p: Prepared, handoffArmed: bool, w: World)
      returns (result: Forward, transportAttempted: bool, nfqwsAttempted: bool)
      requires guard.Valid() && guard.owned && guard.gate == handoffArmed && (handoffArmed ==> p.changesConfig)
      requires forward == [] && backward == [] && files == OldFiles && runtime == OldRuntime
      modifies this`forward, this`backward, this`files, this`runtime, guard
      ensures guard.Valid() && backward == [] && forward <= ForwardPlan(p) && CameThisFar(p, handoffArmed, w, forward)
      ensures result == Done <==> AllDone(p, handoffArmed, w)
      ensures result == Done ==>
        && forward == ForwardPlan(p) && files == CandidateFiles
        && runtime == (if p.changesConfig then NewRuntime else OldRuntime)
      ensures result == Unclear <==> NextSent(p, handoffArmed, w) && Inconclusive(Heard(w.next))
      ensures result == Unclear ==> files == CandidateFiles
      ensures result.Broken? ==>
        && guard.owned && (result.verified ==> !guard.gate)
        && (result.verified <==> runtime == NewRuntime) && runtime != UnknownRuntime
        && (result.verified <==> NextConfirmed(p, handoffArmed, w))
      ensures transportAttempted <==> RestartService(TransportManager) in forward
      ensures nfqwsAttempted <==> RestartService(Nfqws) in forward
    {
      hide ForwardPlan, ThroughRuntime, BeforeRuntime;
      PlanInParts(p);
      nfqwsAttempted := false;
      var ok;
      ok, transportAttempted := StartForward(p, handoffArmed, w);
      if !ok { return Broken(false), transportAttempted, false; }
      result := SendNext(p, handoffArmed, w);
      if result != Done { return; }
      ok, nfqwsAttempted := FinishForward(p, w);
      if !ok { return Broken(p.changesConfig), transportAttempted, nfqwsAttempted; }
    }

    /** The gate, the files and the transport manager. */
    method StartForward(p: Prepared, handoffArmed: bool, w: World) returns (ok: bool, transportAttempted: bool)
      requires guard.Valid() && guard.owned && guard.gate == handoffArmed && (handoffArmed ==> p.changesConfig)
      requires forward == [] && files == OldFiles
      modifies this`forward, this`backward, this`files, guard
      ensures guard.Valid() && guard.owned && backward == old(backward) && forward <= BeforeRuntime(p)
      ensures ok <==> TransportDone(p, handoffArmed, w)
      ensures ok ==> forward == BeforeRuntime(p) && files == CandidateFiles && guard.gate == p.changesConfig
      ensures ApplyFiles in forward <==> (p.changesConfig && !handoffArmed ==> w.gate)
      ensures transportAttempted <==> FilesDone(p, handoffArmed, w) && p.restartTransports && w.transportHook
      ensures transportAttempted <==> RestartService(TransportManager) in forward
      ensures RestartService(Nfqws) !in forward && Send(NextConfig) !in forward
    {
      ok, transportAttempted := true, false;
      if p.changesConfig && !handoffArmed {
        ok := guard.ArmHandoffGate(w.gate);
        if !ok { return; }
      }
      ok := ApplyFileMutations(w.files);
      if !ok { return; }
      if p.restartTransports {
        // The hook before a restart may fail, and then the restart was not attempted.
        if !w.transportHook { return false, false; }
        transportAttempted := true;
        ok := Restart(TransportManager, false, w.transport);
      }
    }

    /** The new config goes to the owner, once. */
    method SendNext(p: Prepared, ghost handoffArmed: bool, w: World) returns (result: Forward)
      requires guard.Valid() && guard.owned && guard.gate == p.changesConfig && TransportDone(p, handoffArmed, w)
      requires forward == BeforeRuntime(p) && runtime == OldRuntime
      modifies this`forward, this`backward, this`runtime, guard
      ensures guard.Valid() && backward == old(backward) && forward == ThroughRuntime(p)
      ensures result == Done <==> ConfigDone(p, handoffArmed, w)
      ensures result == Done ==> guard.owned && !guard.gate && runtime == (if p.changesConfig then NewRuntime else OldRuntime)
      ensures result == Unclear <==> p.changesConfig && Inconclusive(Heard(w.next))
      ensures result.Broken? ==>
        && p.changesConfig && guard.owned && !guard.gate && runtime == (if result.verified then NewRuntime else OldRuntime)
        && (result.verified <==> Confirmed(Heard(w.next)))
    {
      result := Done;
      if p.changesConfig {
        var a := ApplyRuntimeConfig(NextConfig, true, w.gate, w.next);
        if a.StateUnknown? { return Unclear; }
        if a.Known? && !Verified(a.reply) {
          if !a.reply.rolledBack && !a.reply.untouched { return Unclear; }
          return Broken(false);
        }
        // The hook after a verified apply may still fail.
        if !w.applyHook { return Broken(true); }
      }
    }

    method FinishForward(p: Prepared, w: World) returns (ok: bool, nfqwsAttempted: bool)
      modifies this`forward, this`backward
      ensures backward == old(backward)
      ensures forward == old(forward) + When(p.restartNfqws && w.nfqwsHook, RestartService(Nfqws))
      ensures nfqwsAttempted <==> p.restartNfqws && w.nfqwsHook
      ensures ok <==> (p.restartNfqws ==> w.nfqwsHook && w.nfqws)
    {
      ok, nfqwsAttempted := true, false;
      if p.restartNfqws {
        if !w.nfqwsHook { return false, false; }
        nfqwsAttempted := true;
        ok := Restart(Nfqws, false, w.nfqws);
      }
    }

    /** The whole restore in any world. It succeeds exactly when everything goes well. A state that is not
        known is left alone; every other failure is compensated, and the old config is sent again exactly
        when the owner had confirmed the new one and admission lets it be sent. */
    method ApplyPreparedRestore(p: Prepared, handoffArmed: bool, w: World) returns (outcome: Outcome)
      requires guard.Valid() && guard.owned && guard.gate == handoffArmed && (handoffArmed ==> p.changesConfig)
      requires forward == [] && backward == [] && files == OldFiles && runtime == OldRuntime
      modifies this`forward, this`backward, this`files, this`runtime, guard
      ensures guard.Valid() && forward <= ForwardPlan(p) && CameThisFar(p, handoffArmed, w, forward)
      ensures outcome == Restored <==> AllDone(p, handoffArmed, w)
      ensures outcome == Restored ==>
        && forward == ForwardPlan(p) && backward == [] && files == CandidateFiles
        && runtime == (if p.changesConfig then NewRuntime else OldRuntime)
      ensures outcome == Ambiguous <==> NextSent(p, handoffArmed, w) && Inconclusive(Heard(w.next))
      ensures outcome == Ambiguous ==> backward == [] && files == CandidateFiles
      ensures outcome.Failed? ==> backward == RollbackPlan(forward, w.regate && NextConfirmed(p, handoffArmed, w))
      ensures outcome.Failed? ==> (outcome.complete <==> AllUndone(w, forward, NextConfirmed(p, handoffArmed, w)))
      ensures outcome == Failed(true) ==> files == OldFiles && runtime == OldRuntime
    {
      var result, transportAttempted, nfqwsAttempted := MoveForward(p, handoffArmed, w);
      match result
      case Done => outcome := Restored;
      case Unclear => outcome := Ambiguous;
      case Broken(verified) =>
        var complete := Compensate(p, transportAttempted, verified, nfqwsAttempted, w);
        outcome := Failed(complete);
    }
  }

  // ---- What the plans mean ----

  /** The place of an effect in the dependency order: files, transport manager, runtime, nfqws. */
  function Depth(e: Effect): nat {
    match e
    case ApplyFiles | RollBackFiles => 0
    case RestartService(TransportManager) => 1
    case Send(_) => 2
    case RestartService(Nfqws) => 3
  }

  ghost predicate InOrder(trace: seq<Effect>) { forall i, j :: 0 <= i < j < |trace| ==> Depth(trace[i]) < Depth(trace[j]) }

  /** Forward and backward keep the dependency order, and the forward plan holds what the restore calls for. */
  lemma PlansKeepTheOrder(p: Prepared, forward: seq<Effect>, resend: bool)
    ensures InOrder(ForwardPlan(p)) && InOrder(RollbackPlan(forward, resend))
    ensures forall e :: e in ForwardPlan(p) <==>
      || e == ApplyFiles || (e == RestartService(TransportManager) && p.restartTransports)
      || (e == Send(NextConfig) && p.changesConfig) || (e == RestartService(Nfqws) && p.restartNfqws)
  {
    var t, n := RestartService(TransportManager), RestartService(Nfqws);
    FourInOrder(ApplyFiles, p.restartTransports, t, p.changesConfig, Send(NextConfig), p.restartNfqws, n);
    FourInOrder(RollBackFiles, t in forward, t, resend, Send(PreviousConfig), n in forward, n);
  }

  lemma FourInOrder(x: Effect, a: bool, ea: Effect, b: bool, eb: Effect, c: bool, ec: Effect)
    requires Depth(x) < Depth(ea) < Depth(eb) < Depth(ec)
    ensures InOrder([x] + When(a, ea) + When(b, eb) + When(c, ec))
    ensures forall e :: e in [x] + When(a, ea) + When(b, eb) + When(c, ec) <==> e == x || (a && e == ea) || (b && e == eb) || (c && e == ec)
  {
    hide Depth;
  }

  function Times(trace: seq<Effect>, e: Effect): nat {
    if trace == [] then 0 else (if trace[0] == e then 1 else 0) + Times(trace[1..], e)
  }

  lemma {:induction false} TimesSplits(a: seq<Effect>, b: seq<Effect>, e: Effect)
    ensures Times(a + b, e) == Times(a, e) + Times(b, e)
    decreases |a|
  {
    if a == [] {
      assert a + b == b;
    } else {
      assert (a + b)[1..] == a[1..] + b;
      TimesSplits(a[1..], b, e);
    }
  }

  lemma {:induction false} AbsentIsZero(trace: seq<Effect>, e: Effect)
    ensures Times(trace, e) == 0 <==> e !in trace
    decreases |trace|
  {
    if trace != [] {
      AbsentIsZero(trace[1..], e);
      assert trace == [trace[0]] + trace[1..];
    }
  }

  lemma WhenCounts(b: bool, x: Effect, e: Effect)
    ensures Times(When(b, x), e) == if b && x == e then 1 else 0
  {
    assert [x][1..] == [];
  }

  /** How often an effect occurs in four parts put together. */
  lemma TimesOfFour(x: Effect, a: bool, ea: Effect, b: bool, eb: Effect, c: bool, ec: Effect, e: Effect)
    ensures Times([x] + When(a, ea) + When(b, eb) + When(c, ec), e) ==
      (if x == e then 1 else 0) + (if a && ea == e then 1 else 0) + (if b && eb == e then 1 else 0) +
      (if c && ec == e then 1 else 0)
  {
    hide Times, When;
    TimesSplits([x] + When(a, ea) + When(b, eb), When(c, ec), e);
    TimesSplits([x] + When(a, ea), When(b, eb), e);
    TimesSplits([x], When(a, ea), e);
    assert [x] == When(true, x) by { WhenTrue(x); }
    WhenCounts(true, x, e);
    WhenCounts(a, ea, e);
    WhenCounts(b, eb, e);
    WhenCounts(c, ec, e);
  }

  lemma WhenTrue(x: Effect)
    ensures When(true, x) == [x]
  {
  }

  lemma ForwardCounts(p: Prepared, e: Effect)
    ensures Times(ForwardPlan(p), e) <= 1
    ensures Times(ForwardPlan(p), Send(PreviousConfig)) == 0
  {
    hide Times, When;
    TimesOfFour(ApplyFiles, p.restartTransports, RestartService(TransportManager), p.changesConfig, Send(NextConfig),
                p.restartNfqws, RestartService(Nfqws), e);
    TimesOfFour(ApplyFiles, p.restartTransports, RestartService(TransportManager), p.changesConfig, Send(NextConfig),
                p.restartNfqws, RestartService(Nfqws), Send(PreviousConfig));
  }

  lemma RollbackCounts(forward: seq<Effect>, resent: bool, e: Effect)
    ensures Times(RollbackPlan(forward, resent), e) ==
      (if e == RollBackFiles then 1 else 0) +
      (if e.RestartService? && e in forward then 1 else 0) +
      (if e == Send(PreviousConfig) && resent then 1 else 0)
  {
    hide Times, When;
    var t, n := RestartService(TransportManager), RestartService(Nfqws);
    TimesOfFour(RollBackFiles, t in forward, t, resent, Send(PreviousConfig), n in forward, n, e);
    assert e.RestartService? ==> e == t || e == n by { if e.RestartService? { match e.service case TransportManager => case Nfqws => } }
  }

  /** In every run each config body is sent at most once, and the old one only after the new one. */
  lemma EachBodyIsSentOnce(p: Prepared, forward: seq<Effect>, resent: bool, body: Body)
    requires forward <= ForwardPlan(p) && (resent ==> Send(NextConfig) in forward)
    ensures var run := forward + RollbackPlan(forward, resent);
      && Times(run, Send(body)) <= 1
      && (Times(run, Send(PreviousConfig)) == 1 ==> Times(forward, Send(NextConfig)) == 1)
  {
    hide Times, RollbackPlan, ForwardPlan;
    var rest := ForwardPlan(p)[|forward|..];
    assert ForwardPlan(p) == forward + rest;
    forall e ensures Times(ForwardPlan(p), e) == Times(forward, e) + Times(rest, e) { TimesSplits(forward, rest, e); }
    ForwardCounts(p, Send(body));
    ForwardCounts(p, Send(NextConfig));
    TimesSplits(forward, RollbackPlan(forward, resent), Send(body));
    TimesSplits(forward, RollbackPlan(forward, resent), Send(PreviousConfig));
    RollbackCounts(forward, resent, Send(body));
    RollbackCounts(forward, resent, Send(PreviousConfig));
    AbsentIsZero(forward, Send(NextConfig));
  }

  /** A rollback undoes the files once, first, and restarts exactly the services whose restart was
      attempted. */
  lemma RollbackMirrorsForward(forward: seq<Effect>, resent: bool, service: Service)
    ensures var back := RollbackPlan(forward, resent);
      && back[0] == RollBackFiles && Times(back, RollBackFiles) == 1 && Times(back, ApplyFiles) == 0
      && Times(back, RestartService(service)) == (if RestartService(service) in forward then 1 else 0)
  {
    hide Times;
    RollbackCounts(forward, resent, RollBackFiles);
    RollbackCounts(forward, resent, ApplyFiles);
    RollbackCounts(forward, resent, RestartService(service));
  }
}
