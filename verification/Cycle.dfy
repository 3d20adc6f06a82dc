/** One clock cycle of a rendered engine.

Every worker is a state machine. In each cycle its next state is its current state,
overridden by each true transition in list order; at the clock edge the pulsing registers
fall to 0 and then the assignments of the next state of every worker are applied, all
evaluated on the values before the edge. A state's assignments are therefore visible while
the worker is in that state, and they repeat while it waits there. */
module Cycle {
  import opened Signals
  import opened Selectors

  type StateId = nat

  datatype Assignment =
    | Always(target: Target, value: Expr)      // unconditional
    | When(target: Target, sel: Selector)      // conditional or selector assignment

  datatype Transition = Transition(cond: Expr, target: StateId)

  /** A state: its assignments, its transitions and the metadata the algorithms look at. */
  datatype State = State(
    assigns: seq<Assignment>,
    trans: seq<Transition>,
    collapsable: bool,
    forked: seq<(nat, nat)>,          // 'Forked Processes': (worker, select id)
    forkSelect: Option<nat>)          // 'Fork Select ID'

  const NoState := State([], [], false, [], None)

  /** A worker. `states` is its list of states, without repetition; a state missing from
      the list has no case in the rendered text. */
  datatype Fsm = Fsm(states: seq<StateId>, body: map<StateId, State>, reset: StateId, syncReset: Expr) {
    function At(s: StateId): State { if s in body then body[s] else NoState }

    /** The reset state exists and transitions lead to existing states. */
    ghost predicate Closed() {
      reset in body && forall s, k :: s in body && 0 <= k < |body[s].trans| ==> body[s].trans[k].target in body
    }

    ghost predicate Valid() {
      && Closed()
      && (forall s :: s in states <==> s in body)
      && (forall i, j :: 0 <= i < j < |states| ==> states[i] != states[j])
    }
  }

  /** All workers in rendering order, worker 0 being the main one, plus the signal kinds. */
  datatype Design = Design(workers: seq<Fsm>, pulsing: set<string>, inputs: set<string>) {
    ghost predicate Valid() {
      |workers| >= 1 && forall w :: 0 <= w < |workers| ==> workers[w].Valid()
    }
  }

  datatype Config = Config(at: seq<StateId>, env: Env)

  /** Blocking assignments in list order: the last true transition wins. */
  ghost function NextState(trans: seq<Transition>, current: StateId, ops: Ops, env: Env): StateId {
    if trans == [] then current
    else if Holds(trans[|trans| - 1].cond, ops, env) then trans[|trans| - 1].target
    else NextState(trans[..|trans| - 1], current, ops, env)
  }

  ghost function Perform(a: Assignment, ops: Ops, pre: Env, acc: Env): Env {
    match a
    case Always(t, e) => Write(acc, t, Eval(e, ops, pre))
    case When(t, sel) =>
      match Exec(Emit(sel), ops, pre)
      case None => acc
      case Some(x) => Write(acc, t, x)
  }

  ghost function Apply(assigns: seq<Assignment>, ops: Ops, pre: Env, acc: Env): Env {
    if assigns == [] then acc else Apply(assigns[1..], ops, pre, Perform(assigns[0], ops, pre, acc))
  }

  /** What the shared output block executes: the next states' assignments, worker by worker. */
  function Effects(fs: seq<Fsm>, next: seq<StateId>): seq<Assignment>
    requires |fs| == |next|
  {
    if fs == [] then [] else fs[0].At(next[0]).assigns + Effects(fs[1..], next[1..])
  }

  ghost function ClearPulsing(pulsing: set<string>, env: Env): Env {
    imap b: Bit :: env[b] && b.name !in pulsing
  }

  ghost function Next(f: Fsm, s: StateId, ops: Ops, env: Env): StateId {
    NextState(f.At(s).trans, s, ops, env)
  }

  ghost function NextStates(fs: seq<Fsm>, at: seq<StateId>, ops: Ops, env: Env): (next: seq<StateId>)
    requires |fs| == |at|
    ensures |next| == |fs|
    ensures forall w :: 0 <= w < |fs| ==> next[w] == Next(fs[w], at[w], ops, env)
  {
    seq(|fs|, w requires 0 <= w < |fs| => Next(fs[w], at[w], ops, env))
  }

  /** The state registers: the synchronous reset takes precedence over the next state. */
  ghost function Latch(fs: seq<Fsm>, next: seq<StateId>, ops: Ops, env: Env): (at: seq<StateId>)
    requires |fs| == |next|
    ensures |at| == |fs|
    ensures forall w :: 0 <= w < |fs| ==> at[w] == if Holds(fs[w].syncReset, ops, env) then fs[w].reset else next[w]
  {
    seq(|fs|, w requires 0 <= w < |fs| => if Holds(fs[w].syncReset, ops, env) then fs[w].reset else next[w])
  }

  /** Registers after the edge, input signals from outside. */
  ghost function Sample(inputs: set<string>, registers: Env, outside: Env): Env {
    imap b: Bit :: if b.name in inputs then outside[b] else registers[b]
  }

  ghost function Step(d: Design, c: Config, ops: Ops, outside: Env): (r: Config)
    requires |c.at| == |d.workers|
    ensures |r.at| == |d.workers|
  {
    var next := NextStates(d.workers, c.at, ops, c.env);
    var registers := Apply(Effects(d.workers, next), ops, c.env, ClearPulsing(d.pulsing, c.env));
    Config(Latch(d.workers, next, ops, c.env), Sample(d.inputs, registers, outside))
  }

  /** Asynchronous reset: every worker in its reset state, registers from the assignments of
      the main worker's reset state; a register without a reset value powers up arbitrarily. */
  ghost function Initial(d: Design, ops: Ops, powerUp: Env, outside: Env): (c: Config)
    requires |d.workers| >= 1
    ensures |c.at| == |d.workers|
  {
    var main := d.workers[0];
    Config(seq(|d.workers|, w requires 0 <= w < |d.workers| => d.workers[w].reset),
           Sample(d.inputs, Apply(main.At(main.reset).assigns, ops, powerUp, powerUp), outside))
  }

  /** The configuration in cycle n; `outside(k)` are the inputs of cycle k. */
  ghost function Run(d: Design, ops: Ops, powerUp: Env, outside: nat -> Env, n: nat): (c: Config)
    requires |d.workers| >= 1
    ensures |c.at| == |d.workers|
  {
    if n == 0 then Initial(d, ops, powerUp, outside(0))
    else Step(d, Run(d, ops, powerUp, outside, n - 1), ops, outside(n))
  }

  /** All signals in cycle n. */
  ghost function Trace(d: Design, ops: Ops, powerUp: Env, outside: nat -> Env, n: nat): Env
    requires |d.workers| >= 1
  {
    Run(d, ops, powerUp, outside, n).env
  }

  /** The two designs show the same signals in every cycle, for every input sequence. */
  ghost predicate SameTrace(d: Design, d2: Design, ops: Ops) {
    && |d.workers| >= 1 && |d2.workers| >= 1
    && forall powerUp: Env, outside: nat -> Env, n: nat ::
         Trace(d, ops, powerUp, outside, n) == Trace(d2, ops, powerUp, outside, n)
  }

  // ----- What an assignment list reads and writes -----

  function SelectorReads(s: Selector): set<string>
    decreases s
  {
    match s
    case NoDefault => {}
    case Default(c) => ChoiceReads(c)
    case Case(e, c, rest) => Reads(e) + ChoiceReads(c) + SelectorReads(rest)
  }

  function ChoiceReads(c: Choice): set<string>
    decreases c
  {
    match c
    case Plain(e) => Reads(e)
    case Nested(s) => SelectorReads(s)
  }

  function AssignReads(a: Assignment): set<string> {
    match a
    case Always(_, e) => Reads(e)
    case When(_, s) => SelectorReads(s)
  }

  /** Every signal these assignments read or write is among the names. */
  ghost predicate AssignsWithin(assigns: seq<Assignment>, names: set<string>) {
    forall i :: 0 <= i < |assigns| ==> assigns[i].target.name in names && AssignReads(assigns[i]) <= names
  }

  ghost predicate TransWithin(trans: seq<Transition>, names: set<string>) {
    forall i :: 0 <= i < |trans| ==> Reads(trans[i].cond) <= names
  }

  ghost predicate StateWithin(s: State, names: set<string>) {
    AssignsWithin(s.assigns, names) && TransWithin(s.trans, names)
  }

  ghost predicate FsmWithin(f: Fsm, names: set<string>) {
    Reads(f.syncReset) <= names
      && forall s {:trigger StateWithin(f.body[s], names)} :: s in f.body ==> StateWithin(f.body[s], names)
  }

  ghost predicate Writes(assigns: seq<Assignment>, name: string) {
    exists i :: 0 <= i < |assigns| && assigns[i].target.name == name
  }

  lemma {:induction false} EmitAgrees(s: Selector, ops: Ops, e1: Env, e2: Env)
    requires Agree(e1, e2, SelectorReads(s))
    ensures Exec(EmitChain(s), ops, e1) == Exec(EmitChain(s), ops, e2)
    ensures Exec(Emit(s), ops, e1) == Exec(Emit(s), ops, e2)
    decreases s
  {
    match s
    case NoDefault =>
    case Default(c) => ChoiceAgrees(c, ops, e1, e2);
    case Case(cond, c, rest) =>
      EvalAgrees(cond, ops, e1, e2);
      ChoiceAgrees(c, ops, e1, e2);
      EmitAgrees(rest, ops, e1, e2);
  }

  lemma {:induction false} ChoiceAgrees(c: Choice, ops: Ops, e1: Env, e2: Env)
    requires Agree(e1, e2, ChoiceReads(c))
    ensures Exec(EmitChoice(c), ops, e1) == Exec(EmitChoice(c), ops, e2)
    decreases c
  {
    match c
    case Plain(e) => EvalAgrees(e, ops, e1, e2);
    case Nested(s) => EmitAgrees(s, ops, e1, e2);
  }

  lemma PerformAgrees(a: Assignment, ops: Ops, p1: Env, p2: Env, a1: Env, a2: Env, b: Bit)
    requires Agree(p1, p2, AssignReads(a)) && a1[b] == a2[b]
    ensures Perform(a, ops, p1, a1)[b] == Perform(a, ops, p2, a2)[b]
  {
    match a
    case Always(t, e) => EvalAgrees(e, ops, p1, p2);
    case When(t, s) => EmitAgrees(s, ops, p1, p2);
  }

  /** Bit by bit: a bit after the assignments depends on the signals read and on that bit before. */
  lemma {:induction false} ApplyAgrees(assigns: seq<Assignment>, ops: Ops, p1: Env, p2: Env, a1: Env, a2: Env,
      names: set<string>, b: Bit)
    requires AssignsWithin(assigns, names) && Agree(p1, p2, names) && a1[b] == a2[b]
    ensures Apply(assigns, ops, p1, a1)[b] == Apply(assigns, ops, p2, a2)[b]
    decreases assigns
  {
    if assigns != [] {
      PerformAgrees(assigns[0], ops, p1, p2, a1, a2, b);
      ApplyAgrees(assigns[1..], ops, p1, p2, Perform(assigns[0], ops, p1, a1), Perform(assigns[0], ops, p2, a2),
        names, b);
    }
  }

  lemma {:induction false} ApplyLocal(assigns: seq<Assignment>, ops: Ops, pre: Env, a1: Env, a2: Env, b: Bit)
    requires a1[b] == a2[b]
    ensures Apply(assigns, ops, pre, a1)[b] == Apply(assigns, ops, pre, a2)[b]
    decreases assigns
  {
    if assigns != [] {
      ApplyLocal(assigns[1..], ops, pre, Perform(assigns[0], ops, pre, a1), Perform(assigns[0], ops, pre, a2), b);
    }
  }

  /** A signal no assignment targets keeps its bits. */
  lemma {:induction false} ApplyFrame(assigns: seq<Assignment>, ops: Ops, pre: Env, acc: Env, b: Bit)
    requires !Writes(assigns, b.name)
    ensures Apply(assigns, ops, pre, acc)[b] == acc[b]
    decreases assigns
  {
    if assigns != [] {
      assert assigns[0].target.name != b.name;
      forall i | 0 <= i < |assigns[1..]| ensures assigns[1..][i].target.name != b.name {
        assert assigns[1..][i] == assigns[i + 1];
      }
      ApplyFrame(assigns[1..], ops, pre, Perform(assigns[0], ops, pre, acc), b);
    }
  }

  lemma {:induction false} ApplyAppend(x: seq<Assignment>, y: seq<Assignment>, ops: Ops, pre: Env, acc: Env)
    ensures Apply(x + y, ops, pre, acc) == Apply(y, ops, pre, Apply(x, ops, pre, acc))
    decreases x
  {
    if x == [] {
      assert x + y == y;
    } else {
      assert (x + y)[1..] == x[1..] + y;
      ApplyAppend(x[1..], y, ops, pre, Perform(x[0], ops, pre, acc));
    }
  }

  lemma {:induction false} EffectsAppend(f1: seq<Fsm>, n1: seq<StateId>, f2: seq<Fsm>, n2: seq<StateId>)
    requires |f1| == |n1| && |f2| == |n2|
    ensures Effects(f1 + f2, n1 + n2) == Effects(f1, n1) + Effects(f2, n2)
    decreases f1
  {
    if f1 == [] {
      assert f1 + f2 == f2 && n1 + n2 == n2;
    } else {
      assert (f1 + f2)[1..] == f1[1..] + f2 && (n1 + n2)[1..] == n1[1..] + n2;
      EffectsAppend(f1[1..], n1[1..], f2, n2);
    }
  }

  lemma {:induction false} SameEffects(fs: seq<Fsm>, fs2: seq<Fsm>, next: seq<StateId>)
    requires |fs| == |fs2| == |next|
    requires forall v :: 0 <= v < |fs| ==> fs2[v].At(next[v]).assigns == fs[v].At(next[v]).assigns
    ensures Effects(fs2, next) == Effects(fs, next)
    decreases fs
  {
    if fs != [] { SameEffects(fs[1..], fs2[1..], next[1..]); }
  }

  /** Splitting the effects at worker w. */
  lemma SplitEffects(fs: seq<Fsm>, next: seq<StateId>, w: nat)
    requires w < |fs| == |next|
    ensures Effects(fs, next)
         == Effects(fs[..w], next[..w]) + fs[w].At(next[w]).assigns + Effects(fs[w + 1..], next[w + 1..])
  {
    assert fs == fs[..w] + fs[w..] && next == next[..w] + next[w..];
    EffectsAppend(fs[..w], next[..w], fs[w..], next[w..]);
    assert fs[w..][1..] == fs[w + 1..] && next[w..][1..] == next[w + 1..];
  }

  /** Every effect is an assignment of some worker's next state. */
  lemma {:induction false} EffectSource(fs: seq<Fsm>, next: seq<StateId>, i: nat) returns (w: nat, k: nat)
    requires |fs| == |next| && i < |Effects(fs, next)|
    ensures w < |fs| && k < |fs[w].At(next[w]).assigns| && Effects(fs, next)[i] == fs[w].At(next[w]).assigns[k]
    decreases fs
  {
    var here := |fs[0].At(next[0]).assigns|;
    if i < here {
      w, k := 0, i;
    } else {
      w, k := EffectSource(fs[1..], next[1..], i - here);
      w := w + 1;
    }
  }

  /** A synchronous reset redirects the state register of its worker and nothing else: the registers after
      the edge are those of the next state, not of the reset state. */
  lemma SyncResetSparesRegisters(d: Design, c: Config, ops: Ops, outside: Env, w: nat, cond: Expr)
    requires |c.at| == |d.workers| && w < |d.workers|
    ensures var f := d.workers[w];
      var plain, reset := Step(d.(workers := d.workers[w := f.(syncReset := False)]), c, ops, outside),
                          Step(d.(workers := d.workers[w := f.(syncReset := cond)]), c, ops, outside);
      && reset.env == plain.env && plain.at[w] == Next(f, c.at[w], ops, c.env)
      && reset.at == plain.at[w := if Holds(cond, ops, c.env) then f.reset else plain.at[w]]
  {
    var f := d.workers[w];
    var fs, fs2 := d.workers[w := f.(syncReset := False)], d.workers[w := f.(syncReset := cond)];
    var next := NextStates(fs, c.at, ops, c.env);
    assert NextStates(fs2, c.at, ops, c.env) == next;
    SameEffects(fs, fs2, next);
    var at, at2 := Latch(fs, next, ops, c.env), Latch(fs2, next, ops, c.env);
    assert at2 == at[w := if Holds(cond, ops, c.env) then f.reset else at[w]];
  }

  lemma {:induction false} NextAgrees(trans: seq<Transition>, s: StateId, ops: Ops, e1: Env, e2: Env,
      names: set<string>)
    requires TransWithin(trans, names) && Agree(e1, e2, names)
    ensures NextState(trans, s, ops, e1) == NextState(trans, s, ops, e2)
    decreases trans
  {
    if trans != [] {
      EvalAgrees(trans[|trans| - 1].cond, ops, e1, e2);
      NextAgrees(trans[..|trans| - 1], s, ops, e1, e2, names);
    }
  }

  /** The next state is the current one if no transition is true, else the target of the last true one. */
  lemma {:induction false} NextIsTarget(trans: seq<Transition>, s: StateId, ops: Ops, env: Env) returns (k: int)
    ensures -1 <= k < |trans|
    ensures k == -1 ==>
      NextState(trans, s, ops, env) == s && forall i :: 0 <= i < |trans| ==> !Holds(trans[i].cond, ops, env)
    ensures k >= 0 ==> Holds(trans[k].cond, ops, env) && NextState(trans, s, ops, env) == trans[k].target
    ensures k >= 0 ==> forall i :: k < i < |trans| ==> !Holds(trans[i].cond, ops, env)
    decreases trans
  {
    if trans == [] {
      k := -1;
    } else if Holds(trans[|trans| - 1].cond, ops, env) {
      k := |trans| - 1;
    } else {
      k := NextIsTarget(trans[..|trans| - 1], s, ops, env);
      forall i | k < i < |trans| ensures !Holds(trans[i].cond, ops, env) {
        if i < |trans| - 1 { assert trans[..|trans| - 1][i] == trans[i]; }
      }
    }
  }

  // ----- What a list of assignments writes, bit by bit -----

  /** The value an assignment writes; None if it executes nothing. */
  ghost function Executed(a: Assignment, ops: Ops, pre: Env): Option<int> {
    match a
    case Always(_, e) => Some(Eval(e, ops, pre))
    case When(_, s) => Exec(Emit(s), ops, pre)
  }

  /** What the last executed assignment that covers the bit writes to it. */
  ghost function BitWritten(x: seq<Assignment>, b: Bit, ops: Ops, pre: Env): Option<bool>
    decreases |x|
  {
    if x == [] then None
    else
      var last := x[|x| - 1];
      if last.target.Covers(b) && Executed(last, ops, pre).Some?
      then Some(BitOf(Executed(last, ops, pre).value, b.i - last.target.Low()))
      else BitWritten(x[..|x| - 1], b, ops, pre)
  }

  lemma NoEffect(ops: Ops, pre: Env, acc: Env)
    ensures Apply([], ops, pre, acc) == acc
  {}

  lemma ApplyLast(x: seq<Assignment>, ops: Ops, pre: Env, acc: Env)
    requires x != []
    ensures Apply(x, ops, pre, acc) == Perform(x[|x| - 1], ops, pre, Apply(x[..|x| - 1], ops, pre, acc))
  {
    var init, last := x[..|x| - 1], x[|x| - 1];
    assert x == init + [last] && [last][1..] == [];
    ApplyAppend(init, [last], ops, pre, acc);
  }

  /** A bit after the assignments: what was written to it, or what it was. */
  lemma {:induction false} BitAfter(x: seq<Assignment>, b: Bit, ops: Ops, pre: Env, acc: Env)
    ensures var w := BitWritten(x, b, ops, pre); Apply(x, ops, pre, acc)[b] == if w.Some? then w.value else acc[b]
    decreases |x|
  {
    hide Apply, Exec, Eval;
    if x != [] {
      BitAfter(x[..|x| - 1], b, ops, pre, acc);
      ApplyLast(x, ops, pre, acc);
    } else {
      NoEffect(ops, pre, acc);
    }
  }

  lemma {:induction false} BitWrittenAppend(x: seq<Assignment>, y: seq<Assignment>, b: Bit, ops: Ops, pre: Env)
    ensures BitWritten(x + y, b, ops, pre) ==
            if BitWritten(y, b, ops, pre).Some? then BitWritten(y, b, ops, pre) else BitWritten(x, b, ops, pre)
    decreases |y|
  {
    if y == [] {
      assert x + y == x;
    } else {
      assert (x + y)[..|x + y| - 1] == x + y[..|y| - 1];
      BitWrittenAppend(x, y[..|y| - 1], b, ops, pre);
    }
  }

  /** A written bit is covered by some assignment. */
  lemma {:induction false} BitCovered(x: seq<Assignment>, b: Bit, ops: Ops, pre: Env)
    requires BitWritten(x, b, ops, pre).Some?
    ensures exists i :: 0 <= i < |x| && x[i].target.Covers(b)
    decreases |x|
  {
    if !x[|x| - 1].target.Covers(b) { BitCovered(x[..|x| - 1], b, ops, pre); }
  }

  lemma {:induction false} BitWrittenAgrees(x: seq<Assignment>, b: Bit, ops: Ops, p1: Env, p2: Env,
      names: set<string>)
    requires AssignsWithin(x, names) && Agree(p1, p2, names)
    ensures BitWritten(x, b, ops, p1) == BitWritten(x, b, ops, p2)
    decreases |x|
  {
    if x != [] {
      var last := x[|x| - 1];
      BitWrittenAgrees(x[..|x| - 1], b, ops, p1, p2, names);
      match last
      case Always(_, e) => EvalAgrees(e, ops, p1, p2);
      case When(_, s) => EmitAgrees(s, ops, p1, p2);
    }
  }

  // ----- Induction over runs -----

  lemma NextRun(d: Design, ops: Ops, powerUp: Env, outside: nat -> Env, n: nat)
    requires |d.workers| >= 1
    ensures Run(d, ops, powerUp, outside, 0) == Initial(d, ops, powerUp, outside(0))
    ensures n > 0 ==> Run(d, ops, powerUp, outside, n) == Step(d, Run(d, ops, powerUp, outside, n - 1), ops, outside(n))
  {}

  /** An invariant: it holds after reset and every cycle keeps it, so it holds in every cycle. */
  lemma {:induction false} RunKeeps(d: Design, inv: Config -> bool, ops: Ops, powerUp: Env, outside: nat -> Env, n: nat)
    requires |d.workers| >= 1 && inv(Initial(d, ops, powerUp, outside(0)))
    requires forall c: Config, o: Env {:trigger Step(d, c, ops, o)} ::
               (|c.at| == |d.workers| && inv(c)) ==> inv(Step(d, c, ops, o))
    ensures inv(Run(d, ops, powerUp, outside, n))
  {
    hide Step, Initial, Run;
    NextRun(d, ops, powerUp, outside, n);
    if n > 0 { RunKeeps(d, inv, ops, powerUp, outside, n - 1); }
  }

  /** Two designs that start alike and, under an invariant, step alike have the same runs. */
  lemma {:induction false} RunsAlike(d: Design, d2: Design, inv: Config -> bool, ops: Ops, powerUp: Env,
      outside: nat -> Env, n: nat)
    requires |d.workers| == |d2.workers| >= 1 && inv(Initial(d, ops, powerUp, outside(0)))
    requires Initial(d2, ops, powerUp, outside(0)) == Initial(d, ops, powerUp, outside(0))
    requires forall c: Config, o: Env {:trigger Step(d, c, ops, o)} ::
               (|c.at| == |d.workers| && inv(c)) ==>
                 inv(Step(d, c, ops, o)) && Step(d2, c, ops, o) == Step(d, c, ops, o)
    ensures Run(d2, ops, powerUp, outside, n) == Run(d, ops, powerUp, outside, n)
  {
    hide Step, Initial, Run;
    NextRun(d, ops, powerUp, outside, n);
    NextRun(d2, ops, powerUp, outside, n);
    if n > 0 {
      RunsAlike(d, d2, inv, ops, powerUp, outside, n - 1);
      RunKeeps(d, inv, ops, powerUp, outside, n - 1);
    }
  }

  // ----- What a cycle is, bit by bit -----

  /** In every cycle of every run the inputs are what they are outside. */
  lemma InputsSeen(d: Design, ops: Ops, powerUp: Env, outside: nat -> Env, n: nat, b: Bit)
    requires |d.workers| >= 1 && b.name in d.inputs
    ensures Run(d, ops, powerUp, outside, n).env[b] == outside(n)[b]
  {
    NextRun(d, ops, powerUp, outside, n);
  }

  /** After an edge a bit of a register is what the last executed assignment covering it wrote, in the order of
      the workers and of each next state's list, evaluated before the edge; without one it is 0 if the register
      pulses, and what it was otherwise. */
  lemma BitAfterEdge(d: Design, c: Config, ops: Ops, outside: Env, b: Bit)
    requires |c.at| == |d.workers|
    ensures var next := NextStates(d.workers, c.at, ops, c.env);
      var written := LastWritten(d.workers, next, b, ops, c.env);
      Step(d, c, ops, outside).env[b] ==
      if b.name in d.inputs then outside[b]
      else if written.Some? then written.value
      else if b.name in d.pulsing then false else c.env[b]
  {
    var next := NextStates(d.workers, c.at, ops, c.env);
    LastIsBitWritten(d.workers, next, b, ops, c.env);
    BitAfter(Effects(d.workers, next), b, ops, c.env, ClearPulsing(d.pulsing, c.env));
  }

  /** The last of the workers whose next state writes the bit. */
  ghost function LastWritten(fs: seq<Fsm>, next: seq<StateId>, b: Bit, ops: Ops, pre: Env): Option<bool>
    requires |fs| == |next|
    decreases |fs|
  {
    if fs == [] then None
    else
      var w := |fs| - 1;
      var mine := BitWritten(fs[w].At(next[w]).assigns, b, ops, pre);
      if mine.Some? then mine else LastWritten(fs[..w], next[..w], b, ops, pre)
  }

  lemma {:induction false} LastIsBitWritten(fs: seq<Fsm>, next: seq<StateId>, b: Bit, ops: Ops, pre: Env)
    requires |fs| == |next|
    ensures BitWritten(Effects(fs, next), b, ops, pre) == LastWritten(fs, next, b, ops, pre)
    decreases |fs|
  {
    if fs != [] {
      var w := |fs| - 1;
      LastIsBitWritten(fs[..w], next[..w], b, ops, pre);
      SplitEffects(fs, next, w);
      var mine := fs[w].At(next[w]).assigns;
      assert Effects(fs, next) == Effects(fs[..w], next[..w]) + mine;
      BitWrittenAppend(Effects(fs[..w], next[..w]), mine, b, ops, pre);
    }
  }

  /** After reset the registers are what the main worker's reset state makes of the power-up values. */
  lemma BitAfterReset(d: Design, ops: Ops, powerUp: Env, outside: Env, b: Bit)
    requires |d.workers| >= 1
    ensures var written := BitWritten(d.workers[0].At(d.workers[0].reset).assigns, b, ops, powerUp);
      Initial(d, ops, powerUp, outside).env[b] ==
      if b.name in d.inputs then outside[b] else if written.Some? then written.value else powerUp[b]
    ensures forall w :: 0 <= w < |d.workers| ==> Initial(d, ops, powerUp, outside).at[w] == d.workers[w].reset
  {
    BitAfter(d.workers[0].At(d.workers[0].reset).assigns, b, ops, powerUp, powerUp);
  }
}
