/** What the spared registers are for: a main thread that goes back to its reset state during a call of a
forked worker clears the worker's return address. */
module SegmentClearing {
  import opened Signals
  import opened Selectors
  import opened Cycle
  import opened FastForward
  import opened Ownership
  import opened SegmentModel
  import opened SegmentCycle

  // ----- A forked thread that calls one segment twice -----

  const F := Impl(1)
  const START := Whole("start", 1)
  const ADDRESS := Whole("return_address", 1)
  const BACKUP := Whole("backup_address", 1)
  const REGISTERS := Registers(ADDRESS, map[F := BACKUP])

  /** State 0 waits for the start signal, 3 is the segment, 4 is where the first call returns and the second
      one is made, and 6 ends the thread. */
  function ThreadNode(s: StateId): Node {
    match s
    case 0 => Node(None, map[], [Jump(Other(0), 1)])
    case 1 => Node(None, map[], [Jump(Taken, 2)])
    case 2 => Node(Some(Id(0)), map[F := FromAddress], [Jump(Taken, 3)])
    case 3 => Node(None, map[], [Jump(AddressIs(0), 4), Jump(AddressIs(1), 5)])
    case 4 => Node(Some(Id(1)), map[], [Jump(Taken, 3)])
    case 5 => Node(Some(FromBackup(F)), map[], [Jump(Taken, 6)])
    case 6 => Node(None, map[], [Jump(Taken, 0)])
    case _ => Node(None, map[], [])
  }

  function ThreadRole(s: StateId): Role {
    match s
    case 2 => Launch(0)
    case 3 => Body(1, {})
    case 4 => Launch(1)
    case 5 => Body(MAIN, {F})
    case _ => Body(MAIN, {})
  }

  const STATES: set<StateId> := {0, 1, 2, 3, 4, 5, 6}

  const THREAD := Program(1, map s | s in STATES :: ThreadNode(s), map s | s in STATES :: ThreadRole(s),
    map[1 := Segment(F, 3, 3)], [Call(MAIN, 1, 0, 2, 4, 4, {}), Call(MAIN, 1, 1, 4, 5, 5, {F})],
    map[MAIN := {F}, 1 := {}], 0)

  function Conds(k: nat): Expr { Sig(START) }

  lemma ThreadWellFormed()
    ensures WellFormed(THREAD)
  {
    forall s {:trigger StateOk(THREAD, s)} | s in THREAD.nodes ensures StateOk(THREAD, s) { ThreadStateOk(s); }
    forall c {:trigger CallOk(THREAD, c)} | 0 <= c < |THREAD.calls| ensures CallOk(THREAD, c) { ThreadCallOk(c); }
  }

  lemma ThreadStateOk(s: StateId)
    requires s in STATES
    ensures StateOk(THREAD, s)
  {
    if s == 3 {
      var jumps := THREAD.At(3).jumps;
      assert IsReturn(THREAD, 1, 0, jumps[0]) && IsReturn(THREAD, 1, 1, jumps[1]);
      assert jumps[0] in jumps && jumps[1] in jumps;
    }
  }

  lemma ThreadCallOk(c: nat)
    requires c < 2
    ensures CallOk(THREAD, c)
  {
    assert Pow2(1) == 2 * Pow2(0);
  }

  // ----- The engine -----

  function AssignsOf(node: Node): seq<Assignment>
    requires node.address.Some? ==> REGISTERS.Has(node.address.value)
    requires F in node.backups ==> REGISTERS.Has(node.backups[F])
  {
    (if F in node.backups then [Always(BACKUP, SourceExpr(node.backups[F], REGISTERS))] else [])
    + (if node.address.Some? then [Always(ADDRESS, SourceExpr(node.address.value, REGISTERS))] else [])
  }

  function TransOf(jumps: seq<Jump>): seq<Transition> {
    seq(|jumps|, i requires 0 <= i < |jumps| => Transition(CondExpr(jumps[i].cond, REGISTERS, Conds), jumps[i].target))
  }

  function Emitted(assigns: seq<Assignment>, trans: seq<Transition>): State { State(assigns, trans, false, [], None) }

  const WORKER := Fsm([0, 1, 2, 3, 4, 5, 6],
    map s | s in STATES :: Emitted(AssignsOf(ThreadNode(s)), TransOf(ThreadNode(s).jumps)), 0, False)

  /** An endless loop that forks the thread and does not join it; the loop was opened in the reset state. */
  const MAIN_WORKER := Fsm([0, 1, 2], map[
    0 := Emitted([Always(START, Const(0)), Always(ADDRESS, Const(0)), Always(BACKUP, Const(0))], [Transition(True, 1)]),
    1 := Emitted([Always(START, Const(1))], [Transition(True, 2)]),
    2 := Emitted([], [Transition(True, 0)])], 0, False)

  const ENGINE := Design([MAIN_WORKER, WORKER], {"start"}, {})

  lemma One(t: Target, e: Expr)
    requires t.Whole?
    ensures AssignedAt([Always(t, e)], t, 0, e)
  {}

  lemma EmitsNode(s: StateId)
    requires s in STATES
    ensures EncodesNode(AssignsOf(ThreadNode(s)), ThreadNode(s), REGISTERS)
  {
    var node := ThreadNode(s);
    var own := AssignsOf(node);
    if F in node.backups { assert AssignedAt(own, BACKUP, 0, SourceExpr(node.backups[F], REGISTERS)); }
    if node.address.Some? {
      assert AssignedAt(own, ADDRESS, |own| - 1, SourceExpr(node.address.value, REGISTERS));
    }
  }

  lemma WorkerEncodes()
    ensures EncodesWorker(ENGINE, 1, THREAD, REGISTERS, Conds)
  {
    hide EncodesNode, EncodesJumps, WORKER, THREAD, Layout;
    WorkerShape();
    forall s: StateId
      ensures EncodesJumps(WORKER.At(s).trans, THREAD.At(s).jumps, REGISTERS, Conds)
        && EncodesNode(WORKER.At(s).assigns, THREAD.At(s), REGISTERS)
    {
      StateEncodes(s);
    }
  }

  lemma WorkerShape()
    ensures |ENGINE.workers| == 2 && ENGINE.workers[1] == WORKER && WORKER.reset == THREAD.reset == 0
      && THREAD.width == 1 && Layout(REGISTERS, 1) && THREAD.RoleOf(0).Body?
  {}

  lemma StateEncodes(s: StateId)
    ensures EncodesJumps(WORKER.At(s).trans, THREAD.At(s).jumps, REGISTERS, Conds)
    ensures EncodesNode(WORKER.At(s).assigns, THREAD.At(s), REGISTERS)
  {
    hide EncodesNode, ThreadNode, AssignsOf;
    if s in STATES { EmitsNode(s); } else { NothingEncoded(); }
  }

  lemma NothingEncoded()
    ensures EncodesNode([], Node(None, map[], []), REGISTERS)
  {}

  lemma MainResetsRegisters(t: Target)
    requires IsRegister(REGISTERS, t)
    ensures Assigned(MAIN_WORKER.At(0).assigns, t, Some(Const(0)))
  {
    var own := MAIN_WORKER.At(0).assigns;
    assert AssignedAt(own, ADDRESS, 1, Const(0)) && AssignedAt(own, BACKUP, 2, Const(0));
  }

  lemma MainWrites(s: StateId, t: Target)
    requires s != 0 && IsRegister(REGISTERS, t)
    ensures !Writes(MAIN_WORKER.At(s).assigns, t.name)
  {}

  lemma RegistersOwned()
    ensures OwnRegisters(ENGINE, 1, REGISTERS)
  {
    hide MAIN_WORKER, WORKER, Writes, Assigned, IsRegister;
    forall t | IsRegister(REGISTERS, t) ensures Owned(ENGINE, 1, t) {
      MainFixed(t);
      MainResetsRegisters(t);
      forall s: StateId | s != 0 ensures !Writes(MAIN_WORKER.At(s).assigns, t.name) { MainWrites(s, t); }
    }
  }

  lemma MainFixed(t: Target)
    requires IsRegister(REGISTERS, t)
    ensures |ENGINE.workers| == 2 && ENGINE.workers[0] == MAIN_WORKER && MAIN_WORKER.reset == 0
    ensures t.name !in ENGINE.pulsing && t.name !in ENGINE.inputs
  {}

  // ----- The run -----

  lemma MainNext(s: StateId, ops: Ops, env: Env)
    requires s < 3
    ensures Next(MAIN_WORKER, s, ops, env) == (s + 1) % 3
  {
    assert Holds(True, ops, env);
  }

  lemma FirstWorker(d: Design, c: Config, ops: Ops, outside: Env)
    requires |c.at| == |d.workers| >= 1 && d.workers[0].syncReset == False
    ensures Cycle.Step(d, c, ops, outside).at[0] == Next(d.workers[0], c.at[0], ops, c.env)
    ensures MainResets(d, c, ops) <==> Next(d.workers[0], c.at[0], ops, c.env) == d.workers[0].reset
  {
    assert !Holds(False, ops, c.env);
  }

  /** The main worker goes round. */
  lemma MainStep(c: Config, ops: Ops, outside: Env)
    requires |c.at| == 2 && c.at[0] < 3
    ensures Cycle.Step(ENGINE, c, ops, outside).at[0] == (c.at[0] + 1) % 3
    ensures MainResets(ENGINE, c, ops) <==> c.at[0] == 2
  {
    hide Cycle.Step, MainResets, Next;
    MainNext(c.at[0], ops, c.env);
    FirstWorker(ENGINE, c, ops, outside);
  }

  ghost function RegsOf(env: Env): Regs { Regs(Value(env, ADDRESS), imap f: Impl :: Value(env, BACKUP) + 0 * f.zone) }

  /** One cycle of the worker. */
  lemma WorkerStep(d: Design, p: Program, conds: nat -> Expr, c: Config, ops: Ops, outside: Env)
    requires |d.workers| == |c.at| == 2 && EncodesWorker(d, 1, p, REGISTERS, conds) && OwnRegisters(d, 1, REGISTERS)
    requires d.workers[1].syncReset == False
    ensures var c2, t := Cycle.Step(d, c, ops, outside),
      Goto(p.At(c.at[1]).jumps, c.at[1], Value(c.env, ADDRESS), Others(conds, ops, c.env));
      c2.at[1] == t && Value(c2.env, ADDRESS) == Entered(p, t, RegsOf(c.env), MainResets(d, c, ops)).address
  {
    hide EncodesWorker, OwnRegisters, Goto, Entered, MainResets, Apply, Next;
    NextIsGoto(d, 1, p, REGISTERS, conds, c, RegsOf(c.env), ops);
    EnterMatches(d, 1, p, REGISTERS, conds, c, RegsOf(c.env), ops, outside);
    assert !Holds(False, ops, c.env);
  }

  /** The start signal is up while the main worker is in state 1. */
  lemma Started(c: Config, ops: Ops, outside: Env)
    requires |c.at| == 2 && c.at[0] == 0
    ensures Value(Cycle.Step(ENGINE, c, ops, outside).env, START) == 1
  {
    hide Next, Apply, AssignsOf, Value, Write;
    MainNext(0, ops, c.env);
    var next := NextStates(ENGINE.workers, c.at, ops, c.env);
    EffectsUp(next[1], ops, c.env, ClearPulsing({"start"}, c.env));
    var registers := Apply(Effects(ENGINE.workers, next), ops, c.env, ClearPulsing({"start"}, c.env));
    assert next == [1, next[1]];
    SampleNothing(registers, outside);
  }

  lemma SampleNothing(registers: Env, outside: Env)
    ensures Sample({}, registers, outside) == registers
  {}

  lemma EffectsUp(t: StateId, ops: Ops, pre: Env, acc: Env)
    ensures Value(Apply(Effects(ENGINE.workers, [1, t]), ops, pre, acc), START) == 1
  {
    hide Value, Write;
    var own, later := [Always(START, Const(1))], WORKER.At(t).assigns;
    assert ENGINE.workers[1..] == [WORKER] && [1, t][1..] == [t] && [WORKER][1..] == [] && [t][1..] == [];
    assert Effects([WORKER], [t]) == later + [];
    assert Effects(ENGINE.workers, [1, t]) == own + later;
    ApplyAppend(own, later, ops, pre, acc);
    WorkerAssigns(t);
    FrameValue(later, START, ops, pre, Apply(own, ops, pre, acc));
    assert own[1..] == [];
    WriteRead(acc, START, 1);
    assert Pow2(1) == 2 * Pow2(0);
  }

  lemma WorkerAssigns(t: StateId)
    ensures !Writes(WORKER.At(t).assigns, "start")
  {}

  lemma NotStarted(ops: Ops, powerUp: Env, outside: Env)
    ensures Value(Initial(ENGINE, ops, powerUp, outside).env, START) == 0
  {
    hide Apply, Value;
    var own := MAIN_WORKER.At(0).assigns;
    assert AssignedAt(own, START, 0, Const(0));
    AssignedConst(own, START, 0, ops, powerUp, powerUp);
    CutZero(1);
    SampleNothing(Apply(own, ops, powerUp, powerUp), outside);
  }

  ghost predicate Is(c: Config, main: StateId, worker: StateId) { c.at == [main, worker] }

  lemma ThreadGoto(s: StateId, address: nat, other: nat -> bool)
    requires s < 5 && (s == 3 ==> address <= 1)
    ensures Goto(THREAD.At(s).jumps, s, address, other) ==
      match s
      case 0 => if other(0) then 1 else 0
      case 1 => 2
      case 3 => if address == 0 then 4 else 5
      case _ => 3
  {
    if s == 3 {
      assert THREAD.At(s).jumps[..1] == [Jump(AddressIs(0), 4)];
      assert THREAD.At(s).jumps[..1][..0] == [];
    } else {
      assert THREAD.At(s).jumps[..0] == [];
    }
  }

  lemma ThreadEntered(t: StateId, r: Regs, clearing: bool)
    requires t < 5
    ensures var address := Entered(THREAD, t, r, clearing).address;
      match t
      case 2 => address == 0
      case 4 => address == 1
      case _ => address == if clearing then 0 else r.address
  {
    hide THREAD;
    assert Pow2(1) == 2 * Pow2(0);
    assert THREAD.At(t) == ThreadNode(t) && THREAD.width == 1 by { ThreadAt(t); }
  }

  lemma ThreadAt(t: StateId)
    ensures THREAD.At(t) == ThreadNode(t) && THREAD.width == 1
  {}

  function ThreadNext(s: StateId, start: bool, address: nat): StateId {
    match s
    case 0 => if start then 1 else 0
    case 1 => 2
    case 3 => if address == 0 then 4 else 5
    case _ => 3
  }

  /** One cycle of the thread until it goes on to state 5. */
  lemma ThreadStep(c: Config, ops: Ops, outside: Env)
    requires |c.at| == 2 && c.at[1] < 5 && (c.at[1] == 3 ==> Value(c.env, ADDRESS) <= 1)
    ensures var c2, t := Cycle.Step(ENGINE, c, ops, outside),
      ThreadNext(c.at[1], Value(c.env, START) != 0, Value(c.env, ADDRESS));
      && c2.at[1] == t
      && (t < 5 ==> Value(c2.env, ADDRESS) == Entered(THREAD, t, RegsOf(c.env), MainResets(ENGINE, c, ops)).address)
  {
    hide Cycle.Step, EncodesWorker, OwnRegisters, MainResets, Goto, Entered, Value, THREAD, WORKER, MAIN_WORKER, RegsOf;
    WorkerEncodes();
    RegistersOwned();
    assert ENGINE.workers[1].syncReset == False by { WorkerFixed(); }
    WorkerStep(ENGINE, THREAD, Conds, c, ops, outside);
    ThreadGoto(c.at[1], Value(c.env, ADDRESS), Others(Conds, ops, c.env));
    assert Others(Conds, ops, c.env)(0) <==> Value(c.env, START) != 0;
  }

  lemma WorkerFixed()
    ensures |ENGINE.workers| == 2 && ENGINE.workers[1].syncReset == False
  {}

  ghost predicate Ready(c: Config, main: StateId, s: StateId) {
    Is(c, main, s) && main < 3 && s < 5 && (s == 3 ==> Value(c.env, ADDRESS) <= 1)
  }

  ghost predicate Gone(c: Config, c2: Config, main: StateId, s: StateId) {
    var t := ThreadNext(s, Value(c.env, START) != 0, Value(c.env, ADDRESS));
    && Is(c2, (main + 1) % 3, t)
    && (t == 2 ==> Value(c2.env, ADDRESS) == 0)
    && (t == 3 ==> Value(c2.env, ADDRESS) == if main == 2 then 0 else Value(c.env, ADDRESS))
  }

  /** ... and of both. */
  lemma BothStep(c: Config, ops: Ops, outside: Env, main: StateId, s: StateId)
    requires Ready(c, main, s)
    ensures Gone(c, Cycle.Step(ENGINE, c, ops, outside), main, s)
  {
    hide Cycle.Step, MainResets, Entered, Value, THREAD, ENGINE;
    WorkerFixed();
    ThreadStep(c, ops, outside);
    MainStep(c, ops, outside);
    var t := ThreadNext(s, Value(c.env, START) != 0, Value(c.env, ADDRESS));
    if t < 5 { ThreadEntered(t, RegsOf(c.env), MainResets(ENGINE, c, ops)); }
  }

  ghost function In(ops: Ops, powerUp: Env, outside: nat -> Env, n: nat): Config {
    Cycle.Run(ENGINE, ops, powerUp, outside, n)
  }

  lemma InNext(ops: Ops, powerUp: Env, outside: nat -> Env, n: nat)
    ensures n > 0 ==>
              In(ops, powerUp, outside, n) == Cycle.Step(ENGINE, In(ops, powerUp, outside, n - 1), ops, outside(n))
    ensures In(ops, powerUp, outside, 0) == Initial(ENGINE, ops, powerUp, outside(0))
    ensures Is(Initial(ENGINE, ops, powerUp, outside(0)), 0, 0)
  {
    NextRun(ENGINE, ops, powerUp, outside, n);
  }

  /** The main worker starts the thread ... */
  lemma Starting(ops: Ops, powerUp: Env, outside: nat -> Env)
    ensures var c0, c1 := In(ops, powerUp, outside, 0), In(ops, powerUp, outside, 1);
      Is(c1, 1, 0) && Value(c0.env, START) == 0 && Value(c1.env, START) == 1
  {
    hide In, Cycle.Step, Initial, Value, ENGINE;
    InNext(ops, powerUp, outside, 1);
    NotStarted(ops, powerUp, outside(0));
    var c := In(ops, powerUp, outside, 0);
    BothStep(c, ops, outside(1), 0, 0);
    Started(c, ops, outside(1));
  }

  lemma Goes(ops: Ops, powerUp: Env, outside: nat -> Env, n: nat, s: StateId)
    requires Ready(In(ops, powerUp, outside, n), n % 3, s)
    ensures Gone(In(ops, powerUp, outside, n), In(ops, powerUp, outside, n + 1), n % 3, s)
  {
    hide In, Cycle.Step, Initial, Value, ENGINE, ThreadNext, Ready, Gone;
    InNext(ops, powerUp, outside, n + 1);
    BothStep(In(ops, powerUp, outside, n), ops, outside(n + 1), n % 3, s);
  }

  /** ... and in cycle 6, during the second call, clears the return address: the segment goes back to where
      the first call returned. */
  lemma Returned(ops: Ops, powerUp: Env, outside: nat -> Env)
    ensures Is(In(ops, powerUp, outside, 5), 2, 4) && Is(In(ops, powerUp, outside, 7), 1, 4)
  {
    hide In, Value, ENGINE;
    Starting(ops, powerUp, outside);
    Goes(ops, powerUp, outside, 1, 0);
    Goes(ops, powerUp, outside, 2, 1);
    Goes(ops, powerUp, outside, 3, 2);
    Goes(ops, powerUp, outside, 4, 3);
    Goes(ops, powerUp, outside, 5, 4);
    Goes(ops, powerUp, outside, 6, 3);
  }

  // ----- The call stack -----

  lemma Inside(m: Stacked, other: nat -> bool)
    requires m in {Stacked(0, []), Stacked(1, []), Stacked(2, [0]), Stacked(4, [1])}
    ensures var t := StackGoto(THREAD, m, other);
      t == ThreadNext(m.at, other(0), 0) && !Pops(THREAD, m, t)
  {
    hide Goto, ThreadNode;
    ThreadGoto(m.at, 0, other);
  }

  lemma AtSegmentEnd(c: nat, other: nat -> bool)
    requires c < 2
    ensures var m := Stacked(3, [c]); var t := StackGoto(THREAD, m, other); t == 4 + c && Pops(THREAD, m, t)
  {
    hide Goto, ThreadNode;
  }

  lemma ThreadPushes(stack: seq<nat>, t: StateId)
    requires t < 6
    ensures Pushed(THREAD, stack, t) == if t == 2 then stack + [0] else if t == 4 then stack + [1] else stack
  {
    hide ThreadNode;
  }

  lemma StackGoes(m: Stacked, other: nat -> bool)
    requires m in {Stacked(0, []), Stacked(1, []), Stacked(2, [0]), Stacked(3, [0]), Stacked(4, [1]), Stacked(3, [1])}
    ensures StackStep(THREAD, m, other) ==
      match m.at
      case 0 => Stacked(if other(0) then 1 else 0, [])
      case 1 => Stacked(2, [0])
      case 2 => Stacked(3, [0])
      case 3 => if m.stack == [0] then Stacked(4, [1]) else Stacked(5, [])
      case _ => Stacked(3, [1])
  {
    hide Pushed, Pops, StackGoto, THREAD;
    if m.at != 3 { Inside(m, other); } else { AtSegmentEnd(m.stack[0], other); }
    var t := StackGoto(THREAD, m, other);
    ThreadPushes([], t);
    ThreadPushes(m.stack, t);
  }

  lemma {:induction false} StackRuns(other: nat -> nat -> bool, n: nat)
    requires !other(0)(0) && other(1)(0) && n <= 7
    ensures StackRun(THREAD, other, n) ==
      [Stacked(0, []), Stacked(0, []), Stacked(1, []), Stacked(2, [0]), Stacked(3, [0]), Stacked(4, [1]),
       Stacked(3, [1]), Stacked(5, [])][n]
  {
    hide StackStep, THREAD;
    NothingPushed();
    if n > 0 {
      StackRuns(other, n - 1);
      StackGoes(StackRun(THREAD, other, n - 1), other(n - 1));
    }
  }

  lemma NothingPushed()
    ensures THREAD.reset == 0 && Pushed(THREAD, [], 0) == []
  {}

  /** The thread is well-formed, compiled and rendered like any other, and runs its second call twice: in
      cycle 7 it is where the first call returned, and not where the second call returns. */
  lemma ClearedCallIsLost(ops: Ops, powerUp: Env, outside: nat -> Env)
    ensures WellFormed(THREAD) && EncodesWorker(ENGINE, 1, THREAD, REGISTERS, Conds)
      && OwnRegisters(ENGINE, 1, REGISTERS)
    ensures var other := Conditions(ENGINE, Conds, ops, powerUp, outside);
      Cycle.Run(ENGINE, ops, powerUp, outside, 7).at[1] == 4 && StackRun(THREAD, other, 7) == Stacked(5, [])
  {
    hide WellFormed, EncodesWorker, OwnRegisters, Cycle.Run, StackRun, THREAD, Value;
    ThreadWellFormed();
    WorkerEncodes();
    RegistersOwned();
    Starting(ops, powerUp, outside);
    Returned(ops, powerUp, outside);
    StackRuns(Conditions(ENGINE, Conds, ops, powerUp, outside), 7);
  }
}
