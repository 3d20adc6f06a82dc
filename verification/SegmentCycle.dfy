/** Segments in the rendered engine: the compiled machine of the segments is what one worker's states do
in the clock cycle, so its runs are runs of the engine. */
module SegmentCycle {
  import opened Signals
  import opened Selectors
  import opened Cycle
  import opened FastForward
  import opened Ownership
  import S = SegmentModel
  import SegmentProof

  // ----- Registers, assignments and transitions -----

  /** The return address and the backup registers of one worker. */
  datatype Registers = Registers(address: Target, backup: map<S.Impl, Target>) {
    predicate Has(v: S.Source) { v.FromBackup? ==> v.f in backup }
  }

  ghost predicate Layout(regs: Registers, width: nat) {
    && regs.address.Whole? && regs.address.width == width
    && (forall f :: f in regs.backup ==>
          regs.backup[f].Whole? && regs.backup[f].width == width && regs.backup[f].name != regs.address.name)
    && (forall f, g :: f in regs.backup && g in regs.backup && f != g ==> regs.backup[f].name != regs.backup[g].name)
  }

  function SourceExpr(v: S.Source, regs: Registers): Expr
    requires regs.Has(v)
  {
    match v
    case Id(n) => Const(n)
    case FromAddress => Sig(regs.address)
    case FromBackup(f) => Sig(regs.backup[f])
  }

  function CondExpr(c: S.Cond, regs: Registers, conds: nat -> Expr): Expr {
    match c
    case Taken => True
    case Other(k) => conds(k)
    case AddressIs(id) => Eq(Sig(regs.address), Const(id))
  }

  function AddressExpr(node: S.Node, regs: Registers): Option<Expr>
    requires node.address.Some? ==> regs.Has(node.address.value)
  {
    if node.address.Some? then Some(SourceExpr(node.address.value, regs)) else None
  }

  function BackupExpr(node: S.Node, f: S.Impl, regs: Registers): Option<Expr>
    requires f in node.backups ==> regs.Has(node.backups[f])
  {
    if f in node.backups then Some(SourceExpr(node.backups[f], regs)) else None
  }

  ghost predicate EncodesNode(own: seq<Assignment>, node: S.Node, regs: Registers) {
    && (node.address.Some? ==> regs.Has(node.address.value))
    && (forall f :: f in node.backups ==> f in regs.backup && regs.Has(node.backups[f]))
    && Assigned(own, regs.address, AddressExpr(node, regs))
    && forall f :: f in regs.backup ==> Assigned(own, regs.backup[f], BackupExpr(node, f, regs))
  }

  ghost predicate EncodesJumps(trans: seq<Transition>, jumps: seq<S.Jump>, regs: Registers, conds: nat -> Expr) {
    && |trans| == |jumps|
    && forall i :: 0 <= i < |jumps| ==> trans[i] == Transition(CondExpr(jumps[i].cond, regs, conds), jumps[i].target)
  }

  /** Every state assigns to the registers what the program's state does; the reset state of the main worker
      also holds the reset values. A worker that is reset by others calls nothing in its reset state. */
  ghost predicate EncodesWorker(d: Design, w: nat, p: S.Program, regs: Registers, conds: nat -> Expr)
    requires w < |d.workers|
  {
    var f := d.workers[w];
    && f.reset == p.reset && Layout(regs, p.width)
    && (forall s {:trigger p.At(s)} :: EncodesJumps(f.At(s).trans, p.At(s).jumps, regs, conds))
    && (forall s {:trigger p.At(s)} :: w != 0 || s != p.reset ==> EncodesNode(f.At(s).assigns, p.At(s), regs))
    && (w == 0 ==> HoldsResets(f.At(f.reset).assigns, p.At(p.reset), regs))
    && (w != 0 || f.syncReset != False ==> p.RoleOf(p.reset).Body?)
  }

  function ResetValue(v: Option<S.Source>): Expr {
    match v
    case Some(Id(n)) => Const(n)
    case _ => Const(0)
  }

  /** A call in the reset state replaces the reset values of the return address and of its backup. */
  ghost predicate HoldsResets(own: seq<Assignment>, node: S.Node, regs: Registers) {
    && (node.address.Some? ==> node.address.value.Id?)
    && (forall f :: f in node.backups ==> f in regs.backup && node.backups[f].Id?)
    && Assigned(own, regs.address, Some(ResetValue(node.address)))
    && forall f :: f in regs.backup ==>
         Assigned(own, regs.backup[f], Some(ResetValue(if f in node.backups then Some(node.backups[f]) else None)))
  }

  predicate IsRegister(regs: Registers, t: Target) {
    t == regs.address || exists f :: f in regs.backup && t == regs.backup[f]
  }

  /** The registers are the worker's own. */
  ghost predicate OwnRegisters(d: Design, w: nat, regs: Registers)
    requires w < |d.workers|
  {
    forall t :: IsRegister(regs, t) ==> Owned(d, w, t)
  }

  lemma IsOwned(d: Design, w: nat, regs: Registers, t: Target)
    requires w < |d.workers| && OwnRegisters(d, w, regs) && IsRegister(regs, t)
    ensures Owned(d, w, t)
  {}

  // ----- One cycle -----

  /** The program's own conditions in one cycle. */
  ghost function Others(conds: nat -> Expr, ops: Ops, env: Env): nat -> bool {
    (k: nat) => Holds(conds(k), ops, env)
  }

  ghost predicate RegsMatch(env: Env, r: S.Regs, regs: Registers) {
    Value(env, regs.address) == r.address && forall f :: f in regs.backup ==> Value(env, regs.backup[f]) == r.backup[f]
  }

  lemma CondMatches(c: S.Cond, regs: Registers, conds: nat -> Expr, ops: Ops, env: Env)
    ensures Holds(CondExpr(c, regs, conds), ops, env) <==> S.Fires(c, Value(env, regs.address), Others(conds, ops, env))
  {
    if c.AddressIs? {
      assert Eval(Const(c.id), ops, env) == c.id && Eval(Sig(regs.address), ops, env) == Value(env, regs.address);
    }
  }

  lemma {:induction false} NextMatches(trans: seq<Transition>, jumps: seq<S.Jump>, s: StateId, regs: Registers,
      conds: nat -> Expr, ops: Ops, env: Env)
    requires EncodesJumps(trans, jumps, regs, conds)
    ensures NextState(trans, s, ops, env) == S.Goto(jumps, s, Value(env, regs.address), Others(conds, ops, env))
    decreases |jumps|
  {
    if jumps != [] {
      var n := |jumps| - 1;
      NextMatches(trans[..n], jumps[..n], s, regs, conds, ops, env);
      assert trans[n] == Transition(CondExpr(jumps[n].cond, regs, conds), jumps[n].target);
      CondMatches(jumps[n].cond, regs, conds, ops, env);
    }
  }

  lemma SourceRead(v: S.Source, regs: Registers, r: S.Regs, ops: Ops, env: Env)
    requires regs.Has(v) && RegsMatch(env, r, regs)
    ensures Eval(SourceExpr(v, regs), ops, env) == S.Read(v, r)
  {}

  /** The registers of the compiled machine on entering t, cleared if the main worker enters its reset state. */
  ghost function Entered(p: S.Program, t: StateId, r: S.Regs, clearing: bool): S.Regs {
    var entered := S.Enter(p.At(t), r, p.width);
    if clearing then SegmentProof.Clear(p.At(t), entered) else entered
  }

  /** Entering a state of the program. */
  lemma EnterMatches(d: Design, w: nat, p: S.Program, regs: Registers, conds: nat -> Expr, c: Config, r: S.Regs,
      ops: Ops, outside: Env)
    requires w < |d.workers| == |c.at| && EncodesWorker(d, w, p, regs, conds) && OwnRegisters(d, w, regs)
    requires RegsMatch(c.env, r, regs) && (w != 0 || NextStates(d.workers, c.at, ops, c.env)[w] != p.reset)
    ensures RegsMatch(Step(d, c, ops, outside).env,
      Entered(p, NextStates(d.workers, c.at, ops, c.env)[w], r, MainResets(d, c, ops)), regs)
  {
    hide Step, Assigned, OwnRegisters;
    var t := NextStates(d.workers, c.at, ops, c.env)[w];
    var node, own, r2 := p.At(t), d.workers[w].At(t).assigns, Entered(p, t, r, MainResets(d, c, ops));
    assert EncodesNode(own, node, regs);
    if node.address.Some? { SourceRead(node.address.value, regs, r, ops, c.env); }
    IsOwned(d, w, regs, regs.address);
    RegisterAfter(d, w, c, ops, outside, regs.address, AddressExpr(node, regs));
    forall f | f in regs.backup ensures Value(Step(d, c, ops, outside).env, regs.backup[f]) == r2.backup[f] {
      if f in node.backups { SourceRead(node.backups[f], regs, r, ops, c.env); }
      IsOwned(d, w, regs, regs.backup[f]);
      RegisterAfter(d, w, c, ops, outside, regs.backup[f], BackupExpr(node, f, regs));
    }
  }

  /** What the main worker's reset state makes of its registers. */
  lemma ResetRegisters(d: Design, p: S.Program, regs: Registers, conds: nat -> Expr, r: S.Regs, ops: Ops, pre: Env,
      acc: Env, after: Env)
    requires 0 < |d.workers| && EncodesWorker(d, 0, p, regs, conds)
    requires forall t :: IsRegister(regs, t) ==>
               Value(after, t) == Value(Apply(d.workers[0].At(p.reset).assigns, ops, pre, acc), t)
    ensures RegsMatch(after, Entered(p, p.reset, r, true), regs)
  {
    hide Assigned, S.Cut, EncodesNode, EncodesJumps;
    var own, node := d.workers[0].At(p.reset).assigns, p.At(p.reset);
    assert HoldsResets(own, node, regs);
    CutZero(p.width);
    CutIs();
    AssignedConst(own, regs.address, ResetValue(node.address).n, ops, pre, acc);
    forall f | f in regs.backup
      ensures Value(after, regs.backup[f]) == Entered(p, p.reset, r, true).backup[f]
    {
      assert IsRegister(regs, regs.backup[f]);
      AssignedConst(own, regs.backup[f], ResetValue(if f in node.backups then Some(node.backups[f]) else None).n,
        ops, pre, acc);
    }
  }

  lemma CutIs()
    ensures forall n: nat, width: nat {:trigger S.Cut(n, width)} :: S.Cut(n, width) == n % Pow2(width)
  {}

  /** The main worker entering its reset state. */
  lemma ResetMatches(d: Design, p: S.Program, regs: Registers, conds: nat -> Expr, c: Config, r: S.Regs,
      ops: Ops, outside: Env)
    requires 0 < |d.workers| == |c.at| && EncodesWorker(d, 0, p, regs, conds) && OwnRegisters(d, 0, regs)
    requires MainResets(d, c, ops)
    ensures RegsMatch(Step(d, c, ops, outside).env, Entered(p, p.reset, r, true), regs)
  {
    hide Step, Apply, EncodesNode, EncodesJumps, HoldsResets, OwnRegisters, BeforeWorker, Entered, RegsMatch;
    var next := NextStates(d.workers, c.at, ops, c.env);
    forall t | IsRegister(regs, t)
      ensures Value(Step(d, c, ops, outside).env, t) ==
        Value(Apply(d.workers[0].At(p.reset).assigns, ops, c.env, BeforeWorker(d, 0, next, ops, c.env)), t)
    {
      IsOwned(d, 0, regs, t);
      LeftByWorker(d, 0, c, ops, outside, t);
    }
    ResetRegisters(d, p, regs, conds, r, ops, c.env, BeforeWorker(d, 0, next, ops, c.env),
      Step(d, c, ops, outside).env);
  }

  // ----- Coupling with the call stack -----

  /** The worker is in the state of the machine with the call stack, and its registers hold what the
      unreturned calls need. */
  ghost predicate Coupled(c: Config, w: nat, p: S.Program, regs: Registers, s: S.Stacked, zero: bool)
    requires w < |c.at|
  {
    c.at[w] == s.at && exists r :: CoupledBy(c, p, regs, s, zero, r)
  }

  ghost predicate CoupledBy(c: Config, p: S.Program, regs: Registers, s: S.Stacked, zero: bool, r: S.Regs) {
    RegsMatch(c.env, r, regs) && SegmentProof.Inv(p, S.Machine(s.at, r), s.stack, zero)
  }

  /** One cycle of the machine with the call stack; a synchronous reset drops all calls. */
  ghost function StackCycle(p: S.Program, s: S.Stacked, other: nat -> bool, restart: bool): S.Stacked {
    if restart then S.Stacked(p.reset, []) else S.StackStep(p, s, other)
  }

  /** When the main worker enters its reset state, the registers it clears are not needed. */
  ghost predicate SparedHere(d: Design, w: nat, p: S.Program, c: Config, ops: Ops, s2: S.Stacked)
    requires w < |d.workers| == |c.at|
  {
    w != 0 && MainResets(d, c, ops) && !Holds(d.workers[w].syncReset, ops, c.env) ==> SegmentProof.Spared(p, s2)
  }

  lemma NextIsGoto(d: Design, w: nat, p: S.Program, regs: Registers, conds: nat -> Expr, c: Config, r: S.Regs,
      ops: Ops)
    requires w < |d.workers| == |c.at| && EncodesWorker(d, w, p, regs, conds) && RegsMatch(c.env, r, regs)
    ensures NextStates(d.workers, c.at, ops, c.env)[w] ==
      S.Goto(p.At(c.at[w]).jumps, c.at[w], r.address, Others(conds, ops, c.env))
  {
    hide EncodesNode, EncodesJumps;
    var s, f := c.at[w], d.workers[w];
    assert EncodesJumps(f.At(s).trans, p.At(s).jumps, regs, conds);
    NextMatches(f.At(s).trans, p.At(s).jumps, s, regs, conds, ops, c.env);
  }

  /** The reset state is entered with no call open but the one it makes itself. */
  lemma AtReset(p: S.Program, m: S.Machine, stack: seq<nat>, zero: bool)
    requires S.WellFormed(p)
    ensures m.at == p.reset && SegmentProof.Inv(p, m, stack, zero) ==> SegmentProof.Spared(p, S.Stacked(p.reset, stack))
  {
    hide S.CallOk, S.Enter;
    if m.at == p.reset && SegmentProof.Inv(p, m, stack, zero) {
      SegmentProof.MainAtBottom(p, stack, m.regs, zero);
      if stack != [] {
        SegmentProof.PopFrames(p, stack, m.regs, zero);
        var init := stack[..|stack| - 1];
        SegmentProof.MainAtBottom(p, init, m.regs.(address := SegmentProof.AddressOf(p, init)), zero);
        assert p.RoleOf(p.reset).Launch? && init == [] && p.At(p.reset).address.Some?;
        assert SegmentProof.KeptSpared(p, init, p.At(p.reset).backups.Keys);
      }
    }
  }

  /** The registers after the edge are those of the compiled machine, unless they are cleared. */
  lemma RegistersMatch(d: Design, w: nat, p: S.Program, regs: Registers, conds: nat -> Expr, c: Config, r: S.Regs,
      ops: Ops, outside: Env)
    requires w < |d.workers| == |c.at| && EncodesWorker(d, w, p, regs, conds) && OwnRegisters(d, w, regs)
    requires RegsMatch(c.env, r, regs)
    ensures RegsMatch(Step(d, c, ops, outside).env,
      Entered(p, NextStates(d.workers, c.at, ops, c.env)[w], r, MainResets(d, c, ops)), regs)
  {
    hide Step, EncodesNode, EncodesJumps, OwnRegisters, Entered, RegsMatch;
    if w == 0 && NextStates(d.workers, c.at, ops, c.env)[w] == p.reset {
      ResetMatches(d, p, regs, conds, c, r, ops, outside);
    } else {
      EnterMatches(d, w, p, regs, conds, c, r, ops, outside);
    }
  }

  /** One cycle of the engine is one cycle of the machine with the call stack. */
  lemma StepCoupled(d: Design, w: nat, p: S.Program, regs: Registers, conds: nat -> Expr, c: Config, s: S.Stacked,
      ops: Ops, outside: Env, zero: bool)
    requires w < |d.workers| == |c.at| && EncodesWorker(d, w, p, regs, conds) && OwnRegisters(d, w, regs)
    requires S.WellFormed(p) && Coupled(c, w, p, regs, s, zero)
    requires SparedHere(d, w, p, c, ops, S.StackStep(p, s, Others(conds, ops, c.env)))
    ensures var restart := Holds(d.workers[w].syncReset, ops, c.env);
      Coupled(Step(d, c, ops, outside), w, p, regs, StackCycle(p, s, Others(conds, ops, c.env), restart),
        zero && !restart)
  {
    hide EncodesWorker, OwnRegisters, RegsMatch, SegmentProof.Inv, S.WellFormed, S.Goto, S.StackStep,
      SegmentProof.Spared, SegmentProof.Clear;
    var r :| CoupledBy(c, p, regs, s, zero, r);
    var other, m, restart := Others(conds, ops, c.env), S.Machine(s.at, r), Holds(d.workers[w].syncReset, ops, c.env);
    var m2, s2 := S.Step(p, m, other), S.StackStep(p, s, other);
    ResetState(d, w, p, regs, conds, ops, c.env);
    NextIsGoto(d, w, p, regs, conds, c, r, ops);
    SegmentProof.StepRefines(p, m, s.stack, other, zero);
    AtReset(p, m2, s2.stack, zero);
    RegistersMatch(d, w, p, regs, conds, c, r, ops, outside);
    var r2 := Entered(p, m2.at, r, MainResets(d, c, ops));
    if restart {
      SegmentProof.RestartsRefined(p, r2);
      assert CoupledBy(Step(d, c, ops, outside), p, regs, S.Stacked(p.reset, []), false, r2);
    } else {
      SegmentProof.ClearingExactly(p, m2, s2.stack, zero);
      assert CoupledBy(Step(d, c, ops, outside), p, regs, s2, zero, r2);
    }
  }

  lemma ResetState(d: Design, w: nat, p: S.Program, regs: Registers, conds: nat -> Expr, ops: Ops, env: Env)
    requires w < |d.workers| && EncodesWorker(d, w, p, regs, conds)
    ensures d.workers[w].reset == p.reset && (Holds(d.workers[w].syncReset, ops, env) ==> p.RoleOf(p.reset).Body?)
  {
    assert !Holds(False, ops, env);
  }

  // ----- Runs -----

  /** The program's own conditions in each cycle of a run of the engine. */
  ghost function Conditions(d: Design, conds: nat -> Expr, ops: Ops, powerUp: Env,
      outside: nat -> Env): nat -> nat -> bool
    requires |d.workers| >= 1
  {
    (n: nat) => Others(conds, ops, Run(d, ops, powerUp, outside, n).env)
  }

  /** The cycles at whose end the worker is reset synchronously. */
  ghost function Restarts(d: Design, w: nat, ops: Ops, powerUp: Env, outside: nat -> Env): nat -> bool
    requires w < |d.workers|
  {
    (n: nat) => Holds(d.workers[w].syncReset, ops, Run(d, ops, powerUp, outside, n).env)
  }

  /** The machine with the call stack, which loses the calls at a restart. */
  ghost function StackCycles(p: S.Program, other: nat -> nat -> bool, restart: nat -> bool, n: nat): S.Stacked {
    if n == 0 then S.Stacked(p.reset, S.Pushed(p, [], p.reset))
    else StackCycle(p, StackCycles(p, other, restart, n - 1), other(n - 1), restart(n - 1))
  }

  lemma {:induction false} WithoutRestart(p: S.Program, other: nat -> nat -> bool, restart: nat -> bool, n: nat)
    requires forall k: nat :: k < n ==> !restart(k)
    ensures StackCycles(p, other, restart, n) == S.StackRun(p, other, n)
  {
    if n > 0 { WithoutRestart(p, other, restart, n - 1); }
  }

  /** In each of the first n cycles the registers are spared. */
  ghost predicate AlwaysSpared(d: Design, w: nat, p: S.Program, conds: nat -> Expr, ops: Ops, powerUp: Env,
      outside: nat -> Env, n: nat)
    requires w < |d.workers|
  {
    forall k: nat :: k < n ==> SparedIn(d, w, p, conds, ops, powerUp, outside, k)
  }

  ghost predicate SparedIn(d: Design, w: nat, p: S.Program, conds: nat -> Expr, ops: Ops, powerUp: Env,
      outside: nat -> Env, k: nat)
    requires w < |d.workers|
  {
    var other, restart := Conditions(d, conds, ops, powerUp, outside), Restarts(d, w, ops, powerUp, outside);
    SparedHere(d, w, p, Run(d, ops, powerUp, outside, k), ops,
      S.StackStep(p, StackCycles(p, other, restart, k), other(k)))
  }

  /** The registers at power-up: the main worker's reset state holds their reset values. */
  lemma InitialRegisters(d: Design, w: nat, p: S.Program, regs: Registers, conds: nat -> Expr, ops: Ops,
      powerUp: Env, outside: Env, r: S.Regs)
    requires w < |d.workers| && EncodesWorker(d, w, p, regs, conds) && OwnRegisters(d, w, regs) && S.WellFormed(p)
    requires r.address == 0 && forall f: S.Impl :: r.backup[f] == 0
    ensures RegsMatch(Initial(d, ops, powerUp, outside).env, S.Enter(p.At(p.reset), r, p.width), regs)
  {
    hide Assigned, S.StateOk, S.CallOk, EncodesNode, EncodesJumps, S.Cut;
    var own, c := d.workers[0].At(d.workers[0].reset).assigns, Initial(d, ops, powerUp, outside);
    CutIs();
    CutZero(p.width);
    forall t | IsRegister(regs, t) ensures Value(c.env, t) == Value(Apply(own, ops, powerUp, powerUp), t) {
      BitsValueAgrees(c.env, Apply(own, ops, powerUp, powerUp), t.name, t.Low(), t.width);
    }
    assert forall f :: f in regs.backup ==> IsRegister(regs, regs.backup[f]);
    if w == 0 {
      ResetRegisters(d, p, regs, conds, r, ops, powerUp, powerUp, c.env);
    } else {
      forall t | IsRegister(regs, t) ensures Value(c.env, t) == 0 {
        AssignedConst(own, t, 0, ops, powerUp, powerUp);
        CutZero(t.width);
      }
    }
  }

  lemma InitialCoupled(d: Design, w: nat, p: S.Program, regs: Registers, conds: nat -> Expr, ops: Ops, powerUp: Env,
      outside: Env)
    requires w < |d.workers| && EncodesWorker(d, w, p, regs, conds) && OwnRegisters(d, w, regs) && S.WellFormed(p)
    ensures Coupled(Initial(d, ops, powerUp, outside), w, p, regs, S.Stacked(p.reset, S.Pushed(p, [], p.reset)), true)
  {
    hide OwnRegisters, S.WellFormed, SegmentProof.Inv, S.Enter, S.Pushed, RegsMatch;
    var r := S.Regs(0, imap f: S.Impl :: f.zone * 0);
    InitialRegisters(d, w, p, regs, conds, ops, powerUp, outside, r);
    SegmentProof.StartsRefined(p, r, true);
    assert CoupledBy(Initial(d, ops, powerUp, outside), p, regs, S.Stacked(p.reset, S.Pushed(p, [], p.reset)), true,
      S.Enter(p.At(p.reset), r, p.width));
  }

  ghost predicate NoneBefore(restart: nat -> bool, n: nat) { forall k: nat :: k < n ==> !restart(k) }

  lemma CycleCoupled(d: Design, w: nat, p: S.Program, regs: Registers, conds: nat -> Expr,
      ops: Ops, powerUp: Env, outside: nat -> Env, n: nat)
    requires w < |d.workers| && EncodesWorker(d, w, p, regs, conds) && OwnRegisters(d, w, regs) && S.WellFormed(p)
    requires SparedIn(d, w, p, conds, ops, powerUp, outside, n)
    requires var other, restart := Conditions(d, conds, ops, powerUp, outside), Restarts(d, w, ops, powerUp, outside);
      Coupled(Run(d, ops, powerUp, outside, n), w, p, regs, StackCycles(p, other, restart, n), NoneBefore(restart, n))
    ensures var other, restart := Conditions(d, conds, ops, powerUp, outside), Restarts(d, w, ops, powerUp, outside);
      Coupled(Run(d, ops, powerUp, outside, n + 1), w, p, regs, StackCycles(p, other, restart, n + 1),
        NoneBefore(restart, n + 1))
  {
    hide Step, EncodesWorker, OwnRegisters, Initial, Run, S.WellFormed, Coupled, SparedHere, S.StackStep, Others;
    var other, restart := Conditions(d, conds, ops, powerUp, outside), Restarts(d, w, ops, powerUp, outside);
    var c := Run(d, ops, powerUp, outside, n);
    NextRun(d, ops, powerUp, outside, n + 1);
    StepCoupled(d, w, p, regs, conds, c, StackCycles(p, other, restart, n), ops, outside(n + 1),
      NoneBefore(restart, n));
    assert NoneBefore(restart, n + 1) <==> NoneBefore(restart, n) && !restart(n);
  }

  /** In every cycle of every run the worker is coupled with the call stack. */
  lemma {:induction false} RunCoupled(d: Design, w: nat, p: S.Program, regs: Registers, conds: nat -> Expr,
      ops: Ops, powerUp: Env, outside: nat -> Env, n: nat)
    requires w < |d.workers| && EncodesWorker(d, w, p, regs, conds) && OwnRegisters(d, w, regs) && S.WellFormed(p)
    requires AlwaysSpared(d, w, p, conds, ops, powerUp, outside, n)
    ensures var other, restart := Conditions(d, conds, ops, powerUp, outside), Restarts(d, w, ops, powerUp, outside);
      Coupled(Run(d, ops, powerUp, outside, n), w, p, regs, StackCycles(p, other, restart, n), NoneBefore(restart, n))
  {
    hide Step, EncodesWorker, OwnRegisters, Initial, Run, S.WellFormed, Coupled, SparedIn, StackCycle;
    NextRun(d, ops, powerUp, outside, n);
    if n > 0 {
      RunCoupled(d, w, p, regs, conds, ops, powerUp, outside, n - 1);
      assert SparedIn(d, w, p, conds, ops, powerUp, outside, n - 1);
      CycleCoupled(d, w, p, regs, conds, ops, powerUp, outside, n - 1);
    } else {
      InitialCoupled(d, w, p, regs, conds, ops, powerUp, outside(0));
    }
  }

  /** The rendered engine refines the call stack: in every cycle of every run, for every input, each worker
      is in the state of the machine with the call stack, and while a call is open its return address
      register holds the ID of the newest one (0 without a call, unless the worker was reset in between). */
  lemma EngineRefinesStack(d: Design, w: nat, p: S.Program, regs: Registers, conds: nat -> Expr,
                           ops: Ops, powerUp: Env, outside: nat -> Env, n: nat)
    requires w < |d.workers| && EncodesWorker(d, w, p, regs, conds) && OwnRegisters(d, w, regs) && S.WellFormed(p)
    requires AlwaysSpared(d, w, p, conds, ops, powerUp, outside, n)
    ensures var c, restart := Run(d, ops, powerUp, outside, n), Restarts(d, w, ops, powerUp, outside);
      var stacked := StackCycles(p, Conditions(d, conds, ops, powerUp, outside), restart, n);
      && c.at[w] == stacked.at
      && (stacked.stack != [] || NoneBefore(restart, n) ==>
            Value(c.env, regs.address) == SegmentProof.AddressOf(p, stacked.stack))
  {
    hide Run, EncodesWorker, OwnRegisters, S.WellFormed, StackCycles, AlwaysSpared, SegmentProof.AddressOf;
    RunCoupled(d, w, p, regs, conds, ops, powerUp, outside, n);
  }

  /** The main worker needs no further condition: it may re-enter its reset state whenever the program does. */
  lemma MainRefinesStack(d: Design, p: S.Program, regs: Registers, conds: nat -> Expr,
                         ops: Ops, powerUp: Env, outside: nat -> Env, n: nat)
    requires 0 < |d.workers| && EncodesWorker(d, 0, p, regs, conds) && OwnRegisters(d, 0, regs) && S.WellFormed(p)
    requires d.workers[0].syncReset == False
    ensures var c, stacked := Run(d, ops, powerUp, outside, n),
      S.StackRun(p, Conditions(d, conds, ops, powerUp, outside), n);
      c.at[0] == stacked.at && Value(c.env, regs.address) == SegmentProof.AddressOf(p, stacked.stack)
  {
    hide Run, EncodesWorker, OwnRegisters, S.WellFormed, S.StackRun, StackCycles, SegmentProof.AddressOf;
    var restart := Restarts(d, 0, ops, powerUp, outside);
    assert forall k: nat :: !restart(k);
    WithoutRestart(p, Conditions(d, conds, ops, powerUp, outside), restart, n);
    EngineRefinesStack(d, 0, p, regs, conds, ops, powerUp, outside, n);
  }

  /** For the other workers it is enough that the main worker enters its reset state only while no call is
      open, before or after the cycle. */
  lemma NoOpenCallSpared(d: Design, w: nat, p: S.Program, regs: Registers, conds: nat -> Expr, c: Config,
      s: S.Stacked, ops: Ops, zero: bool)
    requires w < |d.workers| == |c.at| && S.WellFormed(p) && Coupled(c, w, p, regs, s, zero)
    requires var other, restart := Others(conds, ops, c.env), Holds(d.workers[w].syncReset, ops, c.env);
      w != 0 && MainResets(d, c, ops) ==> s.stack == [] || StackCycle(p, s, other, restart).stack == []
    ensures SparedHere(d, w, p, c, ops, S.StackStep(p, s, Others(conds, ops, c.env)))
  {
    hide S.WellFormed, SegmentProof.Inv, SegmentProof.Spared, S.StackStep, MainResets;
    var r :| CoupledBy(c, p, regs, s, zero, r);
    if w != 0 && MainResets(d, c, ops) && !Holds(d.workers[w].syncReset, ops, c.env) {
      SegmentProof.NoCallSpared(p, S.Machine(s.at, r), s.stack, Others(conds, ops, c.env), zero);
    }
  }

  /** The main worker enters its reset state at the end of cycle k only if the worker has no call open. */
  ghost predicate QuietIn(d: Design, w: nat, p: S.Program, conds: nat -> Expr, ops: Ops, powerUp: Env,
      outside: nat -> Env, k: nat)
    requires w < |d.workers|
  {
    var other, restart := Conditions(d, conds, ops, powerUp, outside), Restarts(d, w, ops, powerUp, outside);
    MainResets(d, Run(d, ops, powerUp, outside, k), ops) ==>
      StackCycles(p, other, restart, k).stack == [] || StackCycles(p, other, restart, k + 1).stack == []
  }

  lemma {:induction false} QuietSpared(d: Design, w: nat, p: S.Program, regs: Registers, conds: nat -> Expr,
      ops: Ops, powerUp: Env, outside: nat -> Env, n: nat)
    requires w < |d.workers| && EncodesWorker(d, w, p, regs, conds) && OwnRegisters(d, w, regs) && S.WellFormed(p)
    requires forall k: nat :: k < n ==> QuietIn(d, w, p, conds, ops, powerUp, outside, k)
    ensures AlwaysSpared(d, w, p, conds, ops, powerUp, outside, n)
  {
    hide Run, EncodesWorker, OwnRegisters, S.WellFormed, Coupled, MainResets, SparedHere, S.StackStep, StackCycle;
    if n > 0 {
      QuietSpared(d, w, p, regs, conds, ops, powerUp, outside, n - 1);
      RunCoupled(d, w, p, regs, conds, ops, powerUp, outside, n - 1);
      var other, restart := Conditions(d, conds, ops, powerUp, outside), Restarts(d, w, ops, powerUp, outside);
      var c := Run(d, ops, powerUp, outside, n - 1);
      assert QuietIn(d, w, p, conds, ops, powerUp, outside, n - 1);
      assert other(n - 1) == Others(conds, ops, c.env);
      NoOpenCallSpared(d, w, p, regs, conds, c, StackCycles(p, other, restart, n - 1), ops, NoneBefore(restart, n - 1));
      assert SparedIn(d, w, p, conds, ops, powerUp, outside, n - 1);
    }
  }
}
