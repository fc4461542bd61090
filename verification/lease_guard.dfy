/** The guard that keeps one unforgeable mutation lease for a whole restore, hands it to the runtime
    owner and takes exactly that lease back. Leases are move-only: admission issues each once, and it
    is afterwards in one place or released. */
module LeaseGuard {
  import opened Basics

  type Token = nat

  // ---- Possession, place by place ----

  /** `slot` is the guard's own place, `variable` the lease variable of the request that the owner's
      callback works on, `others` every other lease anybody holds. `issued` are the tokens admission gave
      out so far, no token twice, and `released` those that were let go. */
  datatype System = System(
    token: Token, slot: Option<Token>, gate: bool, handoff: bool, taken: nat, returned: nat,
    variable: Option<Token>, others: multiset<Token>, issued: set<Token>, released: set<Token>)

  datatype Op =
    | Arm(granted: bool)
    | Take
    | Restore(current: bool)
      /** Admission issues a lease to somebody else. */
    | Issue(lease: Token)
      /** The callback keeps the lease from the variable. */
    | Keep
      /** Somebody moves a lease into the variable; what was there is released. */
    | Put(lease: Token)
      /** The lease in the variable is let go. */
    | Release
    | ReleaseOther(lease: Token)

  function Letting(s: System): System {
    match s.variable
    case None => s
    case Some(t) => s.(variable := None, released := s.released + {t})
  }

  function Step(s: System, op: Op): System {
    match op
    case Arm(granted) => if s.slot.Some? && !s.handoff && !s.gate && granted then s.(gate := true) else s
    case Take =>
      if s.slot.Some? && !s.handoff && s.gate
      then Letting(s).(variable := s.slot, slot := None, handoff := true, taken := s.taken + 1) else s
    case Restore(current) =>
      if s.handoff && s.slot.None? && s.variable == Some(s.token) && current
      then s.(slot := s.variable, variable := None, handoff := false, gate := false, returned := s.returned + 1) else s
    case Issue(t) => if t in s.issued then s else s.(others := s.others + multiset{t}, issued := s.issued + {t})
    case Keep => if s.variable.Some? then s.(others := s.others + multiset{s.variable.value}, variable := None) else s
    case Put(t) => if t in s.others then Letting(s).(variable := Some(t), others := s.others - multiset{t}) else s
    case Release => Letting(s)
    case ReleaseOther(t) => if t in s.others then s.(others := s.others - multiset{t}, released := s.released + {t}) else s
  }

  function Start(token: Token): System {
    System(token, Some(token), false, false, 0, 0, None, multiset{}, {token}, {})
  }

  ghost function Run(s: System, ops: seq<Op>): System {
    if ops == [] then s else Step(Run(s, ops[..|ops| - 1]), ops[|ops| - 1])
  }

  function In(place: Option<Token>, t: Token): nat { if place == Some(t) then 1 else 0 }

  /** In how many places a lease is. */
  function Holders(s: System, t: Token): nat { In(s.slot, t) + In(s.variable, t) + s.others[t] }

  function Expected(s: System, t: Token): nat { if t in s.issued && t !in s.released then 1 else 0 }

  /** Every lease that was issued is in exactly one place until it is released, and in none after. */
  ghost predicate HeldOnce(s: System) {
    s.released <= s.issued && forall t: Token :: Holders(s, t) == Expected(s, t)
  }

  ghost predicate Sound(s: System) {
    && HeldOnce(s) && s.token in s.issued
    && (s.slot == if s.handoff then None else Some(s.token))
    && (s.handoff ==> s.gate)
    && s.taken == s.returned + (if s.handoff then 1 else 0)
  }

  lemma StartIsSound(token: Token)
    ensures Sound(Start(token))
  {
  }

  lemma LettingKeeps(s: System)
    requires HeldOnce(s)
    ensures HeldOnce(Letting(s))
  {
    if s.variable.Some? { assert Holders(s, s.variable.value) == Expected(s, s.variable.value); }
    forall t: Token ensures Holders(Letting(s), t) == Expected(Letting(s), t) { assert Holders(s, t) == Expected(s, t); }
  }

  /** A lease that moves between the variable and the others stays in one place. */
  lemma MovingKeeps(s: System, s': System)
    requires HeldOnce(s) && s'.issued == s.issued && s'.released == s.released
    requires forall t: Token :: Holders(s', t) == Holders(s, t)
    ensures HeldOnce(s')
  {
    forall t: Token ensures Holders(s', t) == Expected(s', t) { assert Holders(s, t) == Expected(s, t); }
  }

  lemma StepIsSound(s: System, op: Op)
    requires Sound(s)
    ensures Sound(Step(s, op)) && Step(s, op).token == s.token && s.released <= Step(s, op).released
  {
    hide HeldOnce, Holders;
    var s' := Step(s, op);
    match op
    case Arm(_) => assert HeldOnce(s') by { SamePlaces(s, s'); }
    case Take => if s' != s { TakeKeeps(s); }
    case Restore(_) => assert HeldOnce(s') by { RestoreMoves(s, s', op); }
    case Issue(t) => IssueKeeps(s, t);
    case Keep => KeepKeeps(s);
    case Put(t) => PutKeeps(s, t);
    case Release => LettingKeeps(s);
    case ReleaseOther(t) => ReleaseOtherKeeps(s, t);
  }

  lemma SamePlaces(s: System, s': System)
    requires HeldOnce(s) && s' == s.(gate := s'.gate)
    ensures HeldOnce(s')
  {
    forall t: Token ensures Holders(s', t) == Holders(s, t) {}
    MovingKeeps(s, s');
  }

  lemma TakeKeeps(s: System)
    requires HeldOnce(s)
    ensures HeldOnce(Letting(s).(variable := s.slot, slot := None, handoff := true, taken := s.taken + 1))
  {
    LettingKeeps(s);
    var mid := Letting(s);
    var s' := mid.(variable := s.slot, slot := None, handoff := true, taken := s.taken + 1);
    forall t: Token ensures Holders(s', t) == Holders(mid, t) {}
    MovingKeeps(mid, s');
  }

  lemma RestoreMoves(s: System, s': System, op: Op)
    requires HeldOnce(s) && op.Restore? && s' == Step(s, op)
    ensures HeldOnce(s')
  {
    forall t: Token ensures Holders(s', t) == Holders(s, t) {}
    MovingKeeps(s, s');
  }

  lemma IssueKeeps(s: System, x: Token)
    requires HeldOnce(s)
    ensures HeldOnce(Step(s, Issue(x)))
  {
    var s' := Step(s, Issue(x));
    forall t: Token ensures Holders(s', t) == Expected(s', t) { assert Holders(s, t) == Expected(s, t); }
  }

  lemma KeepKeeps(s: System)
    requires HeldOnce(s)
    ensures HeldOnce(Step(s, Keep))
  {
    var s' := Step(s, Keep);
    forall t: Token ensures Holders(s', t) == Holders(s, t) {}
    MovingKeeps(s, s');
  }

  lemma PutKeeps(s: System, t: Token)
    requires HeldOnce(s)
    ensures HeldOnce(Step(s, Put(t)))
  {
    if t in s.others {
      LettingKeeps(s);
      var mid, s' := Letting(s), Step(s, Put(t));
      forall x: Token ensures Holders(s', x) == Holders(mid, x) {}
      MovingKeeps(mid, s');
    }
  }

  lemma ReleaseOtherKeeps(s: System, t: Token)
    requires HeldOnce(s)
    ensures HeldOnce(Step(s, ReleaseOther(t)))
  {
    assert Holders(s, t) == Expected(s, t);
    var s' := Step(s, ReleaseOther(t));
    forall x: Token ensures Holders(s', x) == Expected(s', x) { assert Holders(s, x) == Expected(s, x); }
  }

  // ---- Every sequence of operations ----

  /** In every run each lease is in exactly one place until it is released; the guard's place holds the
      original lease or, during a hand-off, nothing; and hand-offs exceed returns by the open one. */
  lemma {:induction false} EveryRunIsSound(token: Token, ops: seq<Op>)
    ensures Sound(Run(Start(token), ops)) && Run(Start(token), ops).token == token
  {
    hide Sound, Step;
    if ops == [] {
      StartIsSound(token);
    } else {
      EveryRunIsSound(token, ops[..|ops| - 1]);
      StepIsSound(Run(Start(token), ops[..|ops| - 1]), ops[|ops| - 1]);
    }
  }

  /** At any time exactly one of these holds: the guard has the original lease, the request's variable
      has it, somebody else has it once, or it was released. */
  lemma OriginalIsInOnePlace(token: Token, ops: seq<Op>)
    ensures var s := Run(Start(token), ops);
      In(s.slot, token) + In(s.variable, token) + s.others[token] + (if token in s.released then 1 else 0) == 1
  {
    EveryRunIsSound(token, ops);
    hide Run;
    var s := Run(Start(token), ops);
    assert Holders(s, token) == Expected(s, token);
  }

  /** A return is accepted only for the original lease, which moves from the variable into the guard's
      empty place; no other lease ever gets there. */
  lemma OnlyTheOriginalReturns(token: Token, ops: seq<Op>, op: Op)
    requires Run(Start(token), ops + [op]).returned > Run(Start(token), ops).returned
    ensures var s, s' := Run(Start(token), ops), Run(Start(token), ops + [op]);
      && op == Restore(true) && s.variable == Some(token) && s.slot == None && s'.slot == Some(token) && s'.variable == None
      && s.taken == s.returned + 1 && s'.taken == s'.returned && !s'.gate
  {
    hide Run, HeldOnce;
    EveryRunIsSound(token, ops);
    RunLast(Start(token), ops + [op]);
    assert (ops + [op])[..|ops|] == ops;
  }

  /** A hand-off that starts finds an armed gate and no other hand-off open: every earlier one was
      closed by the return of the original lease. */
  lemma HandOffNeedsReturn(token: Token, ops: seq<Op>, op: Op)
    requires Run(Start(token), ops + [op]).taken > Run(Start(token), ops).taken
    ensures var s, s' := Run(Start(token), ops), Run(Start(token), ops + [op]);
      && op == Take && s.gate && s.taken == s.returned && s.slot == Some(token)
      && s'.variable == Some(token) && s'.slot == None
  {
    hide Run, HeldOnce;
    EveryRunIsSound(token, ops);
    RunLast(Start(token), ops + [op]);
    assert (ops + [op])[..|ops|] == ops;
  }

  /** Once the original lease was released, it is in no place, and no operation ever starts or closes
      another hand-off. */
  lemma {:induction false} LostLeaseEndsEverything(s: System, ops: seq<Op>)
    requires Sound(s) && s.token in s.released
    ensures var r := Run(s, ops);
      Sound(r) && r.token == s.token && r.token in r.released && r.taken == s.taken && r.returned == s.returned
      && Holders(r, s.token) == 0
  {
    hide Run;
    if ops == [] {
      RunNothing(s);
      assert Holders(s, s.token) == Expected(s, s.token);
    } else {
      var front, last := ops[..|ops| - 1], ops[|ops| - 1];
      LostLeaseEndsEverything(s, front);
      var mid := Run(s, front);
      RunLast(s, ops);
      StepIsSound(mid, last);
      var r := Step(mid, last);
      assert Holders(r, s.token) == Expected(r, s.token);
      LostStep(mid, last);
    }
  }

  lemma LostStep(s: System, op: Op)
    requires Sound(s) && Holders(s, s.token) == 0
    ensures Step(s, op).taken == s.taken && Step(s, op).returned == s.returned
  {
  }

  lemma RunNothing(s: System)
    ensures Run(s, []) == s
  {
  }

  lemma RunLast(s: System, ops: seq<Op>)
    requires ops != []
    ensures Run(s, ops) == Step(Run(s, ops[..|ops| - 1]), ops[|ops| - 1])
  {
  }

  // ---- The guard ----

  /** A lease object; its token is what admission knows it by. */
  class Lease {
    const token: Token
    constructor (token: Token)
      ensures this.token == token
    {
      this.token := token;
    }
  }

  function TokenOf(l: Lease?): Option<Token> { if l == null then None else Some(l.token) }

  class BackupRuntimeMutationGuard {
    var lease: Lease?
    var gate: bool
    var owned: bool
    var handoffActive: bool
    const token: Token
    /** Hand-offs started and leases returned so far. */
    ghost var taken: nat
    ghost var returned: nat

    ghost predicate Valid()
      reads this
    {
      && owned == !handoffActive
      && TokenOf(lease) == (if owned then Some(token) else None)
      && (handoffActive ==> gate)
      && taken == returned + (if handoffActive then 1 else 0)
    }

    /** The guard in a world that holds everything else. */
    ghost function View(world: System): System
      reads this
    {
      world.(token := token, slot := TokenOf(lease), gate := gate, handoff := handoffActive, taken := taken, returned := returned)
    }

    constructor (acquired: Lease)
      ensures Valid() && token == acquired.token && View(Start(token)) == Start(token)
    {
      token, lease := acquired.token, acquired;
      owned, handoffActive, gate := true, false, false;
      taken, returned := 0, 0;
    }

    /** `granted` is the admission's answer to the request for a gate. */
    method ArmHandoffGate(granted: bool) returns (armed: bool)
      requires Valid()
      modifies this`gate
      ensures Valid()
      ensures armed <==> owned && !old(gate) && granted
      ensures gate == (old(gate) || armed)
      ensures forall w: System :: View(w) == Step(old(View(w)), Arm(granted))
    {
      if !owned || handoffActive || gate || lease == null { return false; }
      if !granted { return false; }
      gate := true;
      return true;
    }

    /** Null stands for the refusal. A hand-off needs an armed gate and the lease at home. */
    method TakeLease() returns (l: Lease?)
      requires Valid()
      modifies this
      ensures Valid() && gate == old(gate)
      ensures (l != null <==> old(owned) && old(gate)) && (l != null ==> handoffActive)
      ensures l != null ==> l.token == token && forall w: System :: View(Letting(w).(variable := Some(l.token))) == Step(old(View(w)), Take)
      ensures l == null ==> forall w: System :: View(w) == Step(old(View(w)), Take)
    {
      if !owned || handoffActive || !gate || lease == null { return null; }
      l := lease;
      lease, owned, handoffActive := null, false, true;
      taken := taken + 1;
    }

    /** `l` is what came back, `current` whether the admission still recognises it. Only the original
        lease closes the hand-off, and that also retires the gate. */
    method RestoreLease(l: Lease?, current: bool) returns (accepted: bool)
      requires Valid()
      modifies this
      ensures Valid()
      ensures accepted <==> old(handoffActive) && TokenOf(l) == Some(token) && current
      ensures accepted ==> owned && !gate
      ensures forall w: System :: w.variable == TokenOf(l) ==>
        View(if accepted then w.(variable := None) else w) == Step(old(View(w)), Restore(current))
    {
      if !handoffActive || owned || lease != null || l == null || l.token != token { return false; }
      if !current { return false; }
      lease, owned, handoffActive, gate := l, true, false, false;
      returned := returned + 1;
      return true;
    }
  }
}
