/** What the order of the workers is good for: a register that a moved state and a later worker write at the same
edge. Before the breakout the later worker wins, afterwards the moved state does. */
module BreakoutClash {
  import opened Signals
  import opened Selectors
  import opened Cycle
  import opened BreakoutModel
  import opened BreakoutRewrite
  import opened BreakoutResult
  import BreakoutProof

  const A := Whole("a", 1)

  function Plain1(assigns: seq<Assignment>, target: StateId): State {
    State(assigns, [Transition(True, target)], false, [], None)
  }

  /** 0, then 2 and 1 in turn; 1 sets the register. */
  const FIRST := Fsm([0, 1, 2],
    map[0 := Plain1([], 2), 1 := Plain1([Always(A, Const(1))], 2), 2 := Plain1([], 1)], 0, False)

  /** Holds the register at 0. */
  const SECOND := Fsm([0], map[0 := Plain1([Always(A, Const(0))], 0)], 0, False)

  const BOTH := Design([FIRST, SECOND], {}, {})

  lemma ControlNames(f: Fsm, part: seq<StateId>)
    requires (forall s :: s in f.states ==> s in f.body) && (forall s :: s in part ==> s in f.body)
    ensures ControlOf(f, part, "W").Names() !! {"a"}
  {
    var ctl := ControlOf(f, part, "W");
    assert |ctl.trigger.name| > 1 && |ctl.finish.name| > 1;
    assert |ctl.triggerSelect.name| > 1 && |ctl.finishSelect.name| > 1;
  }

  lemma FirstListed()
    ensures Listed(Waiting(FIRST, 3)) && 1 in Waiting(FIRST, 3).body && 1 in FIRST.body
  {}

  lemma FirstClean()
    ensures CleanPartition(FIRST, [1]) && CanWait(FIRST, [1], 3) && FIRST.Valid() && SECOND.Valid() && 3 !in FIRST.body
  {
    assert FIRST.body[2].trans[0].target in [1];
  }

  lemma Within()
    ensures FsmWithin(FIRST, {"a"}) && FsmWithin(SECOND, {"a"})
  {}

  lemma BothBreakable()
    ensures Breakable(BOTH, 0, [1], {"a"})
  {
    hide CleanPartition, CanWait, FsmWithin, FIRST, SECOND;
    FirstClean();
    Within();
  }

  lemma NoReset()
    ensures FIRST.syncReset == False && FIRST.reset == 0 && SECOND.syncReset == False && SECOND.reset == 0
  {}

  /** Nothing but the clash is in the way of the breakout. */
  lemma Allowed() returns (ctl: Control)
    ensures Operation(BOTH, 0, [1], {"a"}, "W", 3, ctl) && BOTH.workers[0].Valid()
    ensures |BOTH.workers| == 2 && 1 in BOTH.workers[0].body && 3 !in BOTH.workers[0].body
    ensures Listed(Waiting(BOTH.workers[0], 3)) && BOTH.workers[0].syncReset == False
  {
    hide CleanPartition, CanWait, FIRST, Listed, Breakable, Waiting, ControlFor;
    FirstListed();
    FirstClean();
    assert FIRST.syncReset == False by { NoReset(); }
    BothBreakable();
    ctl := ControlOf(Waiting(FIRST, 3), [1], "W");
    ControlNames(Waiting(FIRST, 3), [1]);
  }

  /** From cycle 1 on, the first worker is in states 2 and 1. */
  lemma Reached(ops: Ops, powerUp: Env, outside: nat -> Env)
    ensures Run(BOTH, ops, powerUp, outside, 1).at == [2, 0]
  {
    hide Apply;
    NextRun(BOTH, ops, powerUp, outside, 1);
    var c := Run(BOTH, ops, powerUp, outside, 0);
    assert c.at == [0, 0];
    Goes(ops, c.env);
  }

  lemma Goes(ops: Ops, env: Env)
    ensures Next(FIRST, 0, ops, env) == 2 && Next(FIRST, 2, ops, env) == 1 && Next(SECOND, 0, ops, env) == 0
    ensures !Holds(False, ops, env)
  {
    assert Holds(True, ops, env);
  }

  /** At the edge into state 1 both write the register. */
  lemma Clashes(ops: Ops, powerUp: Env, outside: nat -> Env)
    ensures !BreakoutProof.AlwaysClashFree(BOTH, 0, StatesOf([1]), ops, powerUp, outside)
  {
    hide Next;
    Reached(ops, powerUp, outside);
    var c := Run(BOTH, ops, powerUp, outside, 1);
    Goes(ops, c.env);
    var next := NextStates(BOTH.workers, c.at, ops, c.env);
    assert next == [1, 0] && BOTH.workers[1..] == [SECOND] && next[1..] == [0];
    var own, later := [Always(A, Const(1))], [Always(A, Const(0))];
    assert Effects([SECOND], [0]) == later by { assert [SECOND][1..] == [] && later + [] == later; }
    OneBit(1, ops, c.env);
    OneBit(0, ops, c.env);
    assert ClashAt(own, later, Bit("a", 0), ops, c.env);
    assert !BreakoutProof.ClashFreeIn(BOTH, 0, StatesOf([1]), ops, powerUp, outside, 1);
  }

  lemma OneBit(n: nat, ops: Ops, env: Env)
    requires n <= 1
    ensures BitWritten([Always(A, Const(n))], Bit("a", 0), ops, env) == Some(n == 1)
  {
    assert A.Covers(Bit("a", 0)) && BitOf(n, 0) == (n == 1);
    assert Eval(Const(n), ops, env) == n;
  }

  /** A breakout that changes a signal, in every run. */
  lemma BreakOutChangesSignal(ops: Ops, powerUp: Env, outside: nat -> Env) returns (ctl: Control, n: nat)
    ensures Operation(BOTH, 0, [1], {"a"}, "W", 3, ctl)
    ensures var d2 := Result(BOTH, 0, [1], 3, ctl);
      |d2.workers| >= 1 && !BreakoutProof.AgreeIn(BOTH, d2, {"a"}, ops, powerUp, outside, n)
  {
    hide Operation, Result, BOTH, BreakoutProof.AgreeIn, BreakoutProof.AlwaysClashFree, BreakoutProof.AlwaysSilent,
      BreakoutProof.AlwaysOnItsWay;
    ctl := Allowed();
    FreshSilent(BOTH, 0, 3, ops, powerUp, outside);
    BreakoutProof.NeverCutShort(BOTH, 0, 3, StatesOf([1]), ops, powerUp, outside);
    Clashes(ops, powerUp, outside);
    CycleExactExactly(BOTH, 0, [1], {"a"}, "W", 3, ctl, ops, powerUp, outside);
    n :| !BreakoutProof.AgreeIn(BOTH, Result(BOTH, 0, [1], 3, ctl), {"a"}, ops, powerUp, outside, n);
  }
}
