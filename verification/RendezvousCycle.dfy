/** The plain Channel in the rendered engine: the waiting and finishing states of two workers do in the clock cycle
what the rendezvous does, also when the main worker enters its reset state again. */
module RendezvousCycle {
  import opened Signals
  import opened Selectors
  import opened Cycle
  import opened FastForward
  import opened Ownership
  import R = Rendezvous

  // ----- The states of the two sides -----

  datatype Wires = Wires(ready: Target, valid: Target, data: Target) {
    ghost predicate Valid() { ready.width == valid.width == 1 }
  }

  /** What each state of a worker is for: the phase of the operation, and the word it sends or the scratch register
      it receives into. */
  datatype Plan = Plan(phase: StateId -> R.Phase, word: StateId -> Expr, target: StateId -> Target)

  /** A state outside of the operations leaves the wires alone; the main worker's reset state holds their reset
      values. */
  ghost predicate LeavesAlone(f: Fsm, main: bool, s: StateId, t: Target) {
    Assigned(f.At(s).assigns, t, if main && s == f.reset then Some(Const(0)) else None)
  }

  /** Waiting is left on one condition, for the finishing state; that state is left in the next cycle. */
  ghost predicate Passes(f: Fsm, phase: StateId -> R.Phase, s: StateId, wire: Target) {
    var trans := f.At(s).trans;
    match phase(s)
    case Waiting =>
      |trans| == 1 && trans[0].cond == Eq(Sig(wire), Const(1)) && phase(trans[0].target) == R.Finished
    case Finished =>
      |trans| == 1 && trans[0].cond == True && phase(trans[0].target) != R.Finished
    case Free =>
      forall i :: 0 <= i < |trans| ==> phase(trans[i].target) != R.Finished
  }

  ghost predicate SenderState(f: Fsm, main: bool, wires: Wires, plan: Plan, s: StateId) {
    var own := f.At(s).assigns;
    Passes(f, plan.phase, s, wires.ready) && match plan.phase(s)
    case Free => LeavesAlone(f, main, s, wires.valid) && LeavesAlone(f, main, s, wires.data)
    case Waiting => Assigned(own, wires.valid, Some(Const(1))) && Assigned(own, wires.data, Some(plan.word(s)))
    case Finished => Assigned(own, wires.valid, Some(Const(0))) && Assigned(own, wires.data, Some(Const(0)))
  }

  ghost predicate ReceiverState(f: Fsm, main: bool, wires: Wires, plan: Plan, s: StateId) {
    var own := f.At(s).assigns;
    Passes(f, plan.phase, s, wires.valid) && match plan.phase(s)
    case Free => LeavesAlone(f, main, s, wires.ready)
    case Waiting => Assigned(own, wires.ready, Some(Const(1)))
    case Finished =>
      Assigned(own, wires.ready, Some(Const(0))) && Assigned(own, plan.target(s), Some(Sig(wires.data)))
  }

  /** Worker u sends and worker v receives. */
  ghost predicate Connected(d: Design, u: nat, v: nat, wires: Wires, sends: Plan, receives: Plan)
    requires u < |d.workers| && v < |d.workers|
  {
    && u != v && wires.Valid() && Owned(d, u, wires.valid) && Owned(d, u, wires.data) && Owned(d, v, wires.ready)
    && sends.phase(d.workers[u].reset) == R.Free && receives.phase(d.workers[v].reset) == R.Free
    && (forall s {:trigger sends.phase(s)} :: SenderState(d.workers[u], u == 0, wires, sends, s))
    && (forall s {:trigger receives.phase(s)} :: ReceiverState(d.workers[v], v == 0, wires, receives, s))
  }

  // ----- One cycle -----

  /** What the two programs do at the edge, seen from the channel. */
  ghost function Seen(d: Design, u: nat, v: nat, wires: Wires, sends: Plan, receives: Plan, ops: Ops,
      c: Config): R.Outside
    requires u < |d.workers| == |c.at| && v < |d.workers|
  {
    var next := NextStates(d.workers, c.at, ops, c.env);
    R.Outside(sends.phase(next[u]).Waiting?, Eval(sends.word(next[u]), ops, c.env) % Pow2(wires.data.width),
              receives.phase(next[v]).Waiting?)
  }

  ghost predicate Matches(c: Config, u: nat, v: nat, wires: Wires, sends: Plan, receives: Plan, l: R.Link)
    requires u < |c.at| && v < |c.at|
  {
    && Along(sends.phase(c.at[u]), l.sender) && Along(receives.phase(c.at[v]), l.receiver)
    && Value(c.env, wires.ready) == Flag(l.ready) && Value(c.env, wires.valid) == Flag(l.valid)
    && Value(c.env, wires.data) == l.data && (l.sender.Free? || l.sender.Finished? ==> l.data == 0)
  }

  /** The same phase; a side that is reset while it finishes is free instead. */
  predicate Along(engine: R.Phase, link: R.Phase) { engine == link || (engine.Free? && link.Finished?) }

  /** The side is not reset synchronously when it starts to wait or goes on waiting. */
  ghost predicate NotCutShort(f: Fsm, phase: StateId -> R.Phase, s: StateId, ops: Ops, env: Env) {
    Holds(f.syncReset, ops, env) ==> !phase(Next(f, s, ops, env)).Waiting?
  }

  lemma NextPhase(f: Fsm, phase: StateId -> R.Phase, s: StateId, wire: Target, ops: Ops, env: Env)
    requires Passes(f, phase, s, wire) && wire.width == 1
    ensures phase(s).Waiting? ==>
              phase(Next(f, s, ops, env)) == if Value(env, wire) == 1 then R.Finished else R.Waiting
    ensures !phase(s).Waiting? ==> !phase(Next(f, s, ops, env)).Finished?
  {
    var trans := f.At(s).trans;
    var k := NextIsTarget(trans, s, ops, env);
    if phase(s).Waiting? {
      assert Eval(Eq(Sig(wire), Const(1)), ops, env) == Flag(Value(env, wire) == 1);
    } else if phase(s).Finished? {
      assert Holds(True, ops, env);
    }
  }

  lemma SmallConst(n: nat, width: nat)
    requires n == 0 || (n == 1 && width == 1)
    ensures n % Pow2(width) == n
  {
    assert Pow2(1) == 2 * Pow2(0);
    SmallMod(n, Pow2(width));
  }

  /** A register outside of the operations is 0 and stays so, whoever enters a reset state. */
  lemma StaysZero(d: Design, w: nat, t: Target, c: Config, ops: Ops, outside: Env)
    requires w < |d.workers| == |c.at| && Owned(d, w, t) && Value(c.env, t) == 0
    requires LeavesAlone(d.workers[w], w == 0, Next(d.workers[w], c.at[w], ops, c.env), t)
    ensures Value(Step(d, c, ops, outside).env, t) == 0
  {
    hide Step, Assigned, Owned;
    if w == 0 && Next(d.workers[w], c.at[w], ops, c.env) == d.workers[w].reset {
      RegisterAfter(d, w, c, ops, outside, t, Some(Const(0)));
      assert Eval(Const(0), ops, c.env) == 0;
      SmallConst(0, t.width);
    } else {
      RegisterAfter(d, w, c, ops, outside, t, None);
    }
  }

  lemma BecomesConst(d: Design, w: nat, t: Target, n: nat, c: Config, ops: Ops, outside: Env)
    requires w < |d.workers| == |c.at| && Owned(d, w, t) && (n == 0 || (n == 1 && t.width == 1))
    requires Assigned(d.workers[w].At(Next(d.workers[w], c.at[w], ops, c.env)).assigns, t, Some(Const(n)))
    ensures Value(Step(d, c, ops, outside).env, t) == n
  {
    hide Step, Assigned, Owned;
    RegisterAfter(d, w, c, ops, outside, t, Some(Const(n)));
    assert Eval(Const(n), ops, c.env) == n;
    SmallConst(n, t.width);
  }

  /** The sender's wires after an edge. */
  lemma SenderAfter(d: Design, u: nat, wires: Wires, plan: Plan, c: Config, ops: Ops, outside: Env)
    requires u < |d.workers| == |c.at| && Owned(d, u, wires.valid) && Owned(d, u, wires.data) && wires.Valid()
    requires var t := Next(d.workers[u], c.at[u], ops, c.env);
      && SenderState(d.workers[u], u == 0, wires, plan, t)
      && (plan.phase(t).Free? ==> Value(c.env, wires.valid) == Value(c.env, wires.data) == 0)
    ensures var t, env := Next(d.workers[u], c.at[u], ops, c.env), Step(d, c, ops, outside).env;
      && Value(env, wires.valid) == (if plan.phase(t).Waiting? then 1 else 0)
      && Value(env, wires.data) ==
        if plan.phase(t).Waiting? then Eval(plan.word(t), ops, c.env) % Pow2(wires.data.width) else 0
  {
    hide Step, Assigned, Owned, Next, Passes;
    var t := Next(d.workers[u], c.at[u], ops, c.env);
    match plan.phase(t)
    case Free =>
      StaysZero(d, u, wires.valid, c, ops, outside);
      StaysZero(d, u, wires.data, c, ops, outside);
    case Waiting =>
      BecomesConst(d, u, wires.valid, 1, c, ops, outside);
      RegisterAfter(d, u, c, ops, outside, wires.data, Some(plan.word(t)));
    case Finished =>
      BecomesConst(d, u, wires.valid, 0, c, ops, outside);
      BecomesConst(d, u, wires.data, 0, c, ops, outside);
  }

  /** The receiver's wire after an edge. */
  lemma ReceiverAfter(d: Design, v: nat, wires: Wires, plan: Plan, c: Config, ops: Ops, outside: Env)
    requires v < |d.workers| == |c.at| && Owned(d, v, wires.ready) && wires.Valid()
    requires var t := Next(d.workers[v], c.at[v], ops, c.env);
      && ReceiverState(d.workers[v], v == 0, wires, plan, t)
      && (plan.phase(t).Free? ==> Value(c.env, wires.ready) == 0)
    ensures var t := Next(d.workers[v], c.at[v], ops, c.env);
      Value(Step(d, c, ops, outside).env, wires.ready) == if plan.phase(t).Waiting? then 1 else 0
  {
    hide Step, Assigned, Owned, Next, Passes;
    match plan.phase(Next(d.workers[v], c.at[v], ops, c.env))
    case Free => StaysZero(d, v, wires.ready, c, ops, outside);
    case Waiting => BecomesConst(d, v, wires.ready, 1, c, ops, outside);
    case Finished => BecomesConst(d, v, wires.ready, 0, c, ops, outside);
  }

  ghost predicate Undisturbed(d: Design, u: nat, v: nat, sends: Plan, receives: Plan, ops: Ops, c: Config)
    requires u < |d.workers| == |c.at| && v < |d.workers|
  {
    && NotCutShort(d.workers[u], sends.phase, c.at[u], ops, c.env)
    && NotCutShort(d.workers[v], receives.phase, c.at[v], ops, c.env)
  }

  lemma PhaseAfter(d: Design, w: nat, phase: StateId -> R.Phase, c: Config, ops: Ops, outside: Env)
    requires w < |d.workers| == |c.at| && NotCutShort(d.workers[w], phase, c.at[w], ops, c.env)
    requires phase(d.workers[w].reset) == R.Free
    ensures Along(phase(Step(d, c, ops, outside).at[w]), phase(Next(d.workers[w], c.at[w], ops, c.env)))
  {}

  /** The next phases, and what the wires are then. */
  lemma WiresAfter(d: Design, u: nat, v: nat, wires: Wires, sends: Plan, receives: Plan, c: Config, l: R.Link,
      ops: Ops, outside: Env)
    requires u < |d.workers| == |c.at| && v < |d.workers| && Connected(d, u, v, wires, sends, receives)
    requires Matches(c, u, v, wires, sends, receives, l) && R.Inv(l)
    ensures var s, t, env := Next(d.workers[u], c.at[u], ops, c.env), Next(d.workers[v], c.at[v], ops, c.env),
      Step(d, c, ops, outside).env;
      && (l.sender.Waiting? ==> sends.phase(s) == if l.ready then R.Finished else R.Waiting)
      && (!l.sender.Waiting? ==> !sends.phase(s).Finished?)
      && (l.receiver.Waiting? ==> receives.phase(t) == if l.valid then R.Finished else R.Waiting)
      && (!l.receiver.Waiting? ==> !receives.phase(t).Finished?)
      && Value(env, wires.valid) == (if sends.phase(s).Waiting? then 1 else 0)
      && Value(env, wires.ready) == (if receives.phase(t).Waiting? then 1 else 0)
      && Value(env, wires.data) ==
        if sends.phase(s).Waiting? then Eval(sends.word(s), ops, c.env) % Pow2(wires.data.width) else 0
  {
    hide Step, Assigned, Owned, Next, Passes, LeavesAlone, Value;
    var s, t := Next(d.workers[u], c.at[u], ops, c.env), Next(d.workers[v], c.at[v], ops, c.env);
    assert SenderState(d.workers[u], u == 0, wires, sends, c.at[u]);
    assert ReceiverState(d.workers[v], v == 0, wires, receives, c.at[v]);
    NextPhase(d.workers[u], sends.phase, c.at[u], wires.ready, ops, c.env);
    NextPhase(d.workers[v], receives.phase, c.at[v], wires.valid, ops, c.env);
    assert SenderState(d.workers[u], u == 0, wires, sends, s);
    assert ReceiverState(d.workers[v], v == 0, wires, receives, t);
    SenderAfter(d, u, wires, sends, c, ops, outside);
    ReceiverAfter(d, v, wires, receives, c, ops, outside);
  }

  /** One clock cycle of the engine is one edge of the rendezvous. */
  lemma StepMatches(d: Design, u: nat, v: nat, wires: Wires, sends: Plan, receives: Plan, c: Config, l: R.Link,
      ops: Ops, outside: Env)
    requires u < |d.workers| == |c.at| && v < |d.workers| && Connected(d, u, v, wires, sends, receives)
    requires Matches(c, u, v, wires, sends, receives, l) && R.Inv(l)
    requires Undisturbed(d, u, v, sends, receives, ops, c)
    ensures Matches(Step(d, c, ops, outside), u, v, wires, sends, receives,
      R.Step(l, Seen(d, u, v, wires, sends, receives, ops, c)))
  {
    hide Step, Next, NotCutShort, Value, SenderState, ReceiverState, Owned;
    WiresAfter(d, u, v, wires, sends, receives, c, l, ops, outside);
    PhaseAfter(d, u, sends.phase, c, ops, outside);
    PhaseAfter(d, v, receives.phase, c, ops, outside);
  }

  /** The wires tell which side waits. */
  ghost predicate WiresTell(c: Config, u: nat, v: nat, wires: Wires, sends: Plan, receives: Plan)
    requires u < |c.at| && v < |c.at|
  {
    && Value(c.env, wires.valid) == (if sends.phase(c.at[u]).Waiting? then 1 else 0)
    && Value(c.env, wires.ready) == (if receives.phase(c.at[v]).Waiting? then 1 else 0)
  }

  /** After a cycle they do exactly if neither side was reset while its next state waits. */
  lemma WiresTellExactly(d: Design, u: nat, v: nat, wires: Wires, sends: Plan, receives: Plan, c: Config, l: R.Link,
      ops: Ops, outside: Env)
    requires u < |d.workers| == |c.at| && v < |d.workers| && Connected(d, u, v, wires, sends, receives)
    requires Matches(c, u, v, wires, sends, receives, l) && R.Inv(l)
    ensures WiresTell(Step(d, c, ops, outside), u, v, wires, sends, receives)
       <==> Undisturbed(d, u, v, sends, receives, ops, c)
  {
    hide Step, Assigned, Owned, Next, Passes, LeavesAlone, Value;
    WiresAfter(d, u, v, wires, sends, receives, c, l, ops, outside);
    AtAfter(d, u, c, ops, outside);
    AtAfter(d, v, c, ops, outside);
  }

  lemma AtAfter(d: Design, w: nat, c: Config, ops: Ops, outside: Env)
    requires w < |d.workers| == |c.at|
    ensures Step(d, c, ops, outside).at[w] == if Holds(d.workers[w].syncReset, ops, c.env) then d.workers[w].reset
      else Next(d.workers[w], c.at[w], ops, c.env)
  {}

  /** A receiver that is cancelled while it waits leaves its wire up: the next sender believes that the word is
      taken. A sender that is cancelled leaves its word and valid behind. */
  lemma CutShortLeavesWires(d: Design, u: nat, v: nat, wires: Wires, sends: Plan, receives: Plan, c: Config,
      l: R.Link, ops: Ops, outside: Env)
    requires u < |d.workers| == |c.at| && v < |d.workers| && Connected(d, u, v, wires, sends, receives)
    requires Matches(c, u, v, wires, sends, receives, l) && R.Inv(l)
    ensures var c2 := Step(d, c, ops, outside);
      && (!NotCutShort(d.workers[v], receives.phase, c.at[v], ops, c.env) ==>
            receives.phase(c2.at[v]).Free? && Value(c2.env, wires.ready) == 1)
      && (!NotCutShort(d.workers[u], sends.phase, c.at[u], ops, c.env) ==>
            sends.phase(c2.at[u]).Free? && Value(c2.env, wires.valid) == 1)
  {
    hide Step, Assigned, Owned, Next, Passes, LeavesAlone, Value;
    WiresAfter(d, u, v, wires, sends, receives, c, l, ops, outside);
    AtAfter(d, u, c, ops, outside);
    AtAfter(d, v, c, ops, outside);
  }

  // ----- Runs -----

  ghost function SeenIn(d: Design, u: nat, v: nat, wires: Wires, sends: Plan, receives: Plan, ops: Ops, powerUp: Env,
      outside: nat -> Env): nat -> R.Outside
    requires u < |d.workers| && v < |d.workers|
  {
    (n: nat) => Seen(d, u, v, wires, sends, receives, ops, Run(d, ops, powerUp, outside, n))
  }

  ghost predicate AlwaysUndisturbed(d: Design, u: nat, v: nat, sends: Plan, receives: Plan, ops: Ops, powerUp: Env,
      outside: nat -> Env, n: nat)
    requires u < |d.workers| && v < |d.workers|
  {
    forall k: nat :: k < n ==> Undisturbed(d, u, v, sends, receives, ops, Run(d, ops, powerUp, outside, k))
  }

  lemma InitialZero(d: Design, w: nat, t: Target, ops: Ops, powerUp: Env, outside: Env)
    requires w < |d.workers| && Owned(d, w, t)
    requires w == 0 ==> Assigned(d.workers[0].At(d.workers[0].reset).assigns, t, Some(Const(0)))
    ensures Value(Initial(d, ops, powerUp, outside).env, t) == 0
  {
    hide Assigned;
    var own := d.workers[0].At(d.workers[0].reset).assigns;
    AssignedConst(own, t, 0, ops, powerUp, powerUp);
    SmallConst(0, t.width);
    BitsValueAgrees(Initial(d, ops, powerUp, outside).env, Apply(own, ops, powerUp, powerUp), t.name, t.Low(), t.width);
  }

  /** In every cycle of every run of the engine, the wires and the two workers are where the rendezvous is. */
  lemma {:induction false} RunMatches(d: Design, u: nat, v: nat, wires: Wires, sends: Plan, receives: Plan,
      ops: Ops, powerUp: Env, outside: nat -> Env, n: nat)
    requires u < |d.workers| && v < |d.workers| && Connected(d, u, v, wires, sends, receives)
    requires AlwaysUndisturbed(d, u, v, sends, receives, ops, powerUp, outside, n)
    ensures Matches(Run(d, ops, powerUp, outside, n), u, v, wires, sends, receives,
      R.Run(SeenIn(d, u, v, wires, sends, receives, ops, powerUp, outside), n))
  {
    hide Step, Initial, Run, Connected, Undisturbed, Seen, Matches, R.Step;
    var seen := SeenIn(d, u, v, wires, sends, receives, ops, powerUp, outside);
    NextRun(d, ops, powerUp, outside, n);
    if n > 0 {
      var c, l := Run(d, ops, powerUp, outside, n - 1), R.Run(seen, n - 1);
      RunMatches(d, u, v, wires, sends, receives, ops, powerUp, outside, n - 1);
      R.IsRendezvous(seen, n - 1);
      StepMatches(d, u, v, wires, sends, receives, c, l, ops, outside(n));
      assert seen(n - 1) == Seen(d, u, v, wires, sends, receives, ops, c);
    } else {
      InitialMatches(d, u, v, wires, sends, receives, ops, powerUp, outside(0));
    }
  }

  lemma InitialMatches(d: Design, u: nat, v: nat, wires: Wires, sends: Plan, receives: Plan, ops: Ops, powerUp: Env,
      outside: Env)
    requires u < |d.workers| && v < |d.workers| && Connected(d, u, v, wires, sends, receives)
    ensures Matches(Initial(d, ops, powerUp, outside), u, v, wires, sends, receives, R.RESET)
  {
    hide Assigned, Passes, Owned;
    assert SenderState(d.workers[u], u == 0, wires, sends, d.workers[u].reset);
    assert ReceiverState(d.workers[v], v == 0, wires, receives, d.workers[v].reset);
    InitialZero(d, u, wires.valid, ops, powerUp, outside);
    InitialZero(d, u, wires.data, ops, powerUp, outside);
    InitialZero(d, v, wires.ready, ops, powerUp, outside);
  }

  /** The channel in the engine: in every run the two workers finish on the same edge, exactly when both were
      waiting, and the receiver's register then holds the word the sender was showing, if no later worker writes
      there at this edge. */
  lemma EngineIsRendezvous(d: Design, u: nat, v: nat, wires: Wires, sends: Plan, receives: Plan,
      ops: Ops, powerUp: Env, outside: nat -> Env, n: nat)
    requires u < |d.workers| && v < |d.workers| && Connected(d, u, v, wires, sends, receives)
    requires AlwaysUndisturbed(d, u, v, sends, receives, ops, powerUp, outside, n)
    ensures var c, c2 := Run(d, ops, powerUp, outside, n), Run(d, ops, powerUp, outside, n + 1);
      var next := NextStates(d.workers, c.at, ops, c.env);
      var both, t := sends.phase(c.at[u]).Waiting? && receives.phase(c.at[v]).Waiting?, receives.target(next[v]);
      && (sends.phase(next[u]).Finished? <==> both) && (receives.phase(next[v]).Finished? <==> both)
      && (!Holds(d.workers[u].syncReset, ops, c.env) ==> c2.at[u] == next[u])
      && (!Holds(d.workers[v].syncReset, ops, c.env) ==> c2.at[v] == next[v])
      && (both && t.name !in d.inputs && Untouched(Effects(d.workers[v + 1..], next[v + 1..]), t) ==>
            Value(c2.env, t) == Value(c.env, wires.data) % Pow2(t.width))
  {
    hide Step, Next, Run, R.Run, Owned, Assigned, Passes, LeavesAlone, Value, Untouched, Effects;
    var seen := SeenIn(d, u, v, wires, sends, receives, ops, powerUp, outside);
    var c := Run(d, ops, powerUp, outside, n);
    RunMatches(d, u, v, wires, sends, receives, ops, powerUp, outside, n);
    R.IsRendezvous(seen, n);
    WiresAfter(d, u, v, wires, sends, receives, c, R.Run(seen, n), ops, outside(n + 1));
    NextRun(d, ops, powerUp, outside, n + 1);
    AtAfter(d, u, c, ops, outside(n + 1));
    AtAfter(d, v, c, ops, outside(n + 1));
    var next := NextStates(d.workers, c.at, ops, c.env);
    var t := receives.target(next[v]);
    if receives.phase(next[v]).Finished? && t.name !in d.inputs
      && Untouched(Effects(d.workers[v + 1..], next[v + 1..]), t)
    {
      assert ReceiverState(d.workers[v], v == 0, wires, receives, next[v]);
      AssignmentStays(d, v, c, ops, outside(n + 1), t, Sig(wires.data));
      assert Eval(Sig(wires.data), ops, c.env) == Value(c.env, wires.data);
    }
  }
}
