/** `join` waits for the idle signal of the thread's worker. The thread's start state lowers it and its last state
raises it; the main worker's reset state and `cancel` raise it from other workers. */
module Join {
  import opened Signals
  import opened Selectors
  import opened Cycle
  import opened ReachabilityModel
  import ReachabilityProof

  /** Whatever is assigned to the signal is this constant. */
  ghost predicate DrivesOnly(assigns: seq<Assignment>, t: Target, n: nat) {
    forall i :: 0 <= i < |assigns| && assigns[i].target.name == t.name ==> assigns[i] == Always(t, Const(n))
  }

  ghost predicate Drives(assigns: seq<Assignment>, t: Target, n: nat) {
    Writes(assigns, t.name) && DrivesOnly(assigns, t, n)
  }

  /** A last state of some thread: it leads back to the idle state. */
  predicate Leaves(f: Fsm, s: StateId) {
    s != f.reset && exists i :: 0 <= i < |f.At(s).trans| && f.At(s).trans[i].target == f.reset
  }

  predicate AtRest(f: Fsm, s: StateId) { s == f.reset || Leaves(f, s) }

  ghost predicate IdleState(f: Fsm, s: StateId, t: Target) {
    var st := f.At(s);
    if s == f.reset then
      && !Writes(st.assigns, t.name)
      && forall i :: 0 <= i < |st.trans| ==> st.trans[i].target != f.reset && f.At(st.trans[i].target).forkSelect.Some?
    else if Leaves(f, s) then
      && Drives(st.assigns, t, 1) && st.forkSelect.None?
      && forall i :: 0 <= i < |st.trans| ==> st.trans[i].target == f.reset
    else if st.forkSelect.Some? then Drives(st.assigns, t, 0)
    else !Writes(st.assigns, t.name)
  }

  /** What a worker's own states, and all others, do to its idle signal. */
  ghost predicate IdleProtocol(d: Design, w: nat, t: Target) {
    && 1 <= w < |d.workers| && t.Whole? && t.width == 1 && t.name !in d.pulsing && t.name !in d.inputs
    && Drives(d.workers[0].At(d.workers[0].reset).assigns, t, 1)
    && (forall v, s {:trigger d.workers[v].At(s)} :: 0 <= v < |d.workers| && v != w ==>
          DrivesOnly(d.workers[v].At(s).assigns, t, 1))
    && OwnIdle(d.workers[w], t)
  }

  ghost predicate OwnIdle(f: Fsm, t: Target) { forall s :: IdleState(f, s, t) }

  /** The signal is 1 exactly while the worker is in its idle state or about to go back there. */
  ghost predicate Tells(d: Design, w: nat, t: Target, c: Config)
    requires w < |d.workers| == |c.at|
  {
    c.env[Bit(t.name, 0)] <==> AtRest(d.workers[w], c.at[w])
  }

  // ----- One edge -----

  /** A worker from v0 on, other than w, raises the signal. */
  ghost predicate Raised(fs: seq<Fsm>, next: seq<StateId>, t: Target, w: nat, v0: nat)
    requires |fs| == |next|
  {
    exists v :: v0 <= v < |fs| && v != w && Writes(fs[v].At(next[v]).assigns, t.name)
  }

  /** The next state goes on with the thread, and the worker is reset without another one raising the signal, or the
      other way round. What is raised before the start state is executed does not count. */
  ghost predicate Misled(d: Design, w: nat, t: Target, c: Config, ops: Ops)
    requires w < |d.workers| == |c.at|
  {
    var next, f := NextStates(d.workers, c.at, ops, c.env), d.workers[w];
    !AtRest(f, next[w]) && Holds(f.syncReset, ops, c.env) !=
      Raised(d.workers, next, t, w, if f.At(next[w]).forkSelect.Some? then w else 0)
  }

  lemma {:induction false} DrivenBit(x: seq<Assignment>, t: Target, n: nat, ops: Ops, pre: Env)
    requires DrivesOnly(x, t, n) && t.Whole? && t.width == 1 && n <= 1
    ensures BitWritten(x, Bit(t.name, 0), ops, pre) == if Writes(x, t.name) then Some(n == 1) else None
    decreases |x|
  {
    if x != [] {
      var init, last := x[..|x| - 1], x[|x| - 1];
      DrivenBit(init, t, n, ops, pre);
      assert Writes(x, t.name) <==> last.target.name == t.name || Writes(init, t.name);
      assert Eval(Const(n), ops, pre) == n;
    }
  }

  lemma {:induction false} DrivenEffects(fs: seq<Fsm>, next: seq<StateId>, t: Target)
    requires |fs| == |next|
    requires forall v {:trigger next[v]} :: 0 <= v < |fs| ==> DrivesOnly(fs[v].At(next[v]).assigns, t, 1)
    ensures DrivesOnly(Effects(fs, next), t, 1)
    ensures Writes(Effects(fs, next), t.name) <==>
            exists v :: 0 <= v < |fs| && Writes(fs[v].At(next[v]).assigns, t.name)
    decreases fs
  {
    if fs != [] {
      var fs1, next1 := fs[1..], next[1..];
      assert forall v {:trigger next1[v]} :: 0 <= v < |fs1| ==> fs1[v] == fs[v + 1] && next1[v] == next[v + 1];
      DrivenEffects(fs1, next1, t);
      var own, rest := fs[0].At(next[0]).assigns, Effects(fs1, next1);
      WritesAppend(own, rest, t.name);
      if v :| 0 <= v < |fs1| && Writes(fs1[v].At(next1[v]).assigns, t.name) {
        assert Writes(fs[v + 1].At(next[v + 1]).assigns, t.name);
      }
      if v :| 0 <= v < |fs| && Writes(fs[v].At(next[v]).assigns, t.name) {
        assert v > 0 ==> Writes(fs1[v - 1].At(next1[v - 1]).assigns, t.name);
      }
    }
  }

  lemma WritesAppend(x: seq<Assignment>, y: seq<Assignment>, name: string)
    ensures Writes(x + y, name) <==> Writes(x, name) || Writes(y, name)
  {
    if i :| 0 <= i < |x| && x[i].target.name == name { assert (x + y)[i] == x[i]; }
    if i :| 0 <= i < |y| && y[i].target.name == name { assert (x + y)[|x| + i] == y[i]; }
  }

  /** The signal after an edge. */
  lemma IdleAfter(d: Design, w: nat, t: Target, c: Config, ops: Ops, outside: Env)
    requires IdleProtocol(d, w, t) && |c.at| == |d.workers|
    ensures var next, f := NextStates(d.workers, c.at, ops, c.env), d.workers[w];
      Step(d, c, ops, outside).env[Bit(t.name, 0)] <==>
        if Leaves(f, next[w]) then true
        else if next[w] != f.reset && f.At(next[w]).forkSelect.Some? then Raised(d.workers, next, t, w, w)
        else c.env[Bit(t.name, 0)] || Raised(d.workers, next, t, w, 0)
  {
    var fs, next, b := d.workers, NextStates(d.workers, c.at, ops, c.env), Bit(t.name, 0);
    BitAfter(Effects(fs, next), b, ops, c.env, ClearPulsing(d.pulsing, c.env));
    SplitEffects(fs, next, w);
    var before, own, later := Effects(fs[..w], next[..w]), fs[w].At(next[w]).assigns,
      Effects(fs[w + 1..], next[w + 1..]);
    BitWrittenAppend(before + own, later, b, ops, c.env);
    BitWrittenAppend(before, own, b, ops, c.env);
    DrivenSides(d, w, t, next);
    DrivenBit(before, t, 1, ops, c.env);
    DrivenBit(later, t, 1, ops, c.env);
    assert IdleState(fs[w], next[w], t);
    if Leaves(fs[w], next[w]) {
      DrivenBit(own, t, 1, ops, c.env);
    } else {
      DrivenBit(own, t, 0, ops, c.env);
    }
  }

  lemma DrivenSides(d: Design, w: nat, t: Target, next: seq<StateId>)
    requires IdleProtocol(d, w, t) && |next| == |d.workers|
    ensures var before, later := Effects(d.workers[..w], next[..w]), Effects(d.workers[w + 1..], next[w + 1..]);
      && DrivesOnly(before, t, 1) && DrivesOnly(later, t, 1)
      && (Writes(later, t.name) <==> Raised(d.workers, next, t, w, w))
      && (Writes(before, t.name) || Writes(later, t.name) <==> Raised(d.workers, next, t, w, 0))
  {
    var fs := d.workers;
    forall v {:trigger next[v]} | 0 <= v < |fs| && v != w ensures DrivesOnly(fs[v].At(next[v]).assigns, t, 1) {}
    DrivenEffects(fs[..w], next[..w], t);
    DrivenEffects(fs[w + 1..], next[w + 1..], t);
    if v :| 0 <= v < w && Writes(fs[v].At(next[v]).assigns, t.name) {
      assert fs[..w][v] == fs[v] && next[..w][v] == next[v];
    }
    if v :| w < v < |fs| && Writes(fs[v].At(next[v]).assigns, t.name) {
      assert fs[w + 1..][v - w - 1] == fs[v] && next[w + 1..][v - w - 1] == next[v];
    }
  }

  /** An edge after which the signal tells where its worker is, as it did before. */
  lemma StepTellsExactly(d: Design, w: nat, t: Target, c: Config, ops: Ops, outside: Env)
    requires IdleProtocol(d, w, t) && |c.at| == |d.workers| && Tells(d, w, t, c)
    ensures Tells(d, w, t, Step(d, c, ops, outside)) <==> !Misled(d, w, t, c, ops)
  {
    hide Step, Raised, Leaves, IdleState, Eval;
    var next, f := NextStates(d.workers, c.at, ops, c.env), d.workers[w];
    IdleAfter(d, w, t, c, ops, outside);
    GoesOn(d, w, t, c.at[w], ops, c.env);
    StepAt(d, c, ops, outside, w);
  }

  lemma StepAt(d: Design, c: Config, ops: Ops, outside: Env, w: nat)
    requires |c.at| == |d.workers| && w < |d.workers|
    ensures Step(d, c, ops, outside).at[w] ==
      if Holds(d.workers[w].syncReset, ops, c.env) then d.workers[w].reset
      else NextStates(d.workers, c.at, ops, c.env)[w]
  {}

  /** A worker begins with a start state, and comes to rest in a last one. */
  lemma GoesOn(d: Design, w: nat, t: Target, s: StateId, ops: Ops, env: Env)
    requires IdleProtocol(d, w, t)
    ensures var f, s2 := d.workers[w], Next(d.workers[w], s, ops, env);
      && (AtRest(f, s) ==> AtRest(f, s2) || (s2 != f.reset && f.At(s2).forkSelect.Some?))
      && (!AtRest(f, s) ==> s2 != f.reset)
  {
    var f := d.workers[w];
    var k := NextIsTarget(f.At(s).trans, s, ops, env);
    assert IdleState(f, s, t);
  }

  // ----- Runs -----

  lemma InitialTells(d: Design, w: nat, t: Target, ops: Ops, powerUp: Env, outside: Env)
    requires IdleProtocol(d, w, t)
    ensures Tells(d, w, t, Initial(d, ops, powerUp, outside))
  {
    BitAfterReset(d, ops, powerUp, outside, Bit(t.name, 0));
    DrivenBit(d.workers[0].At(d.workers[0].reset).assigns, t, 1, ops, powerUp);
  }

  /** In a run the idle signal tells in every cycle where its worker is exactly if no edge misleads it. */
  lemma {:induction false} IdleTellsExactly(d: Design, w: nat, t: Target, ops: Ops, powerUp: Env, outside: nat -> Env,
      n: nat)
    requires w < |d.workers| && IdleProtocol(d, w, t)
    ensures (forall k: nat :: k <= n ==> Tells(d, w, t, Run(d, ops, powerUp, outside, k))) <==>
            (forall k: nat :: k < n ==> !Misled(d, w, t, Run(d, ops, powerUp, outside, k), ops))
  {
    hide Tells, Misled, Step, Initial, IdleProtocol;
    NextRun(d, ops, powerUp, outside, n);
    if n == 0 {
      InitialTells(d, w, t, ops, powerUp, outside(0));
    } else {
      IdleTellsExactly(d, w, t, ops, powerUp, outside, n - 1);
      var c := Run(d, ops, powerUp, outside, n - 1);
      if Tells(d, w, t, c) { StepTellsExactly(d, w, t, c, ops, outside(n)); }
    }
  }

  /** A main worker that goes back to its reset state meanwhile does mislead: a join no longer waits. */
  lemma MainResetMisleads(d: Design, w: nat, t: Target, c: Config, ops: Ops, outside: Env)
    requires IdleProtocol(d, w, t) && |c.at| == |d.workers| && Tells(d, w, t, c)
    requires var next, f := NextStates(d.workers, c.at, ops, c.env), d.workers[w];
      && next[0] == d.workers[0].reset && !Holds(f.syncReset, ops, c.env)
      && !AtRest(f, next[w]) && f.At(next[w]).forkSelect.None?
    ensures var c2 := Step(d, c, ops, outside); !AtRest(d.workers[w], c2.at[w]) && c2.env[Bit(t.name, 0)]
  {
    var next := NextStates(d.workers, c.at, ops, c.env);
    assert Raised(d.workers, next, t, w, 0) by { assert Writes(d.workers[0].At(next[0]).assigns, t.name); }
    StepTellsExactly(d, w, t, c, ops, outside);
    StepAt(d, c, ops, outside, w);
  }

  // ----- Forking and joining -----

  /** A worker that waits for the signal goes on exactly when the thread is done. */
  lemma JoinWaits(d: Design, w: nat, t: Target, c: Config, ops: Ops, f: Fsm, s: StateId, s2: StateId)
    requires IdleProtocol(d, w, t) && |c.at| == |d.workers| && Tells(d, w, t, c)
    requires f.At(s).trans == [Transition(Sig(t), s2)]
    ensures Next(f, s, ops, c.env) == if AtRest(d.workers[w], c.at[w]) then s2 else s
  {
    OneBit(t, c.env);
    assert Eval(Sig(t), ops, c.env) == Value(c.env, t);
    var k := NextIsTarget(f.At(s).trans, s, ops, c.env);
  }

  lemma OneBit(t: Target, env: Env)
    requires t.Whole? && t.width == 1
    ensures Value(env, t) == if env[Bit(t.name, 0)] then 1 else 0
  {
    assert BitsValue(env, t.name, 1, 0) == 0;
  }

  /** What a worker's next state sets stays if no later worker writes it. */
  lemma SetStays(d: Design, v: nat, t: Target, n: nat, c: Config, ops: Ops, outside: Env)
    requires v < |d.workers| == |c.at| && t.name !in d.inputs && n < Pow2(t.width)
    requires var next := NextStates(d.workers, c.at, ops, c.env);
      Sets(d.workers[v].At(next[v]).assigns, t, n) && !Writes(Effects(d.workers[v + 1..], next[v + 1..]), t.name)
    ensures Value(Step(d, c, ops, outside).env, t) == n
  {
    hide Sets, Writes, Apply;
    var next, cleared := NextStates(d.workers, c.at, ops, c.env), ClearPulsing(d.pulsing, c.env);
    var before, own, later := Effects(d.workers[..v], next[..v]), d.workers[v].At(next[v]).assigns,
      Effects(d.workers[v + 1..], next[v + 1..]);
    SplitEffects(d.workers, next, v);
    ApplyAppend(before + own, later, ops, c.env, cleared);
    ApplyAppend(before, own, ops, c.env, cleared);
    ReachabilityProof.SetsValue(own, t, n, ops, c.env, Apply(before, ops, c.env, cleared));
    ReachabilityProof.UntouchedValue(later, t, ops, c.env, Apply(before + own, ops, c.env, cleared));
    BitsValueAgrees(Step(d, c, ops, outside).env, Apply(Effects(d.workers, next), ops, c.env, cleared),
      t.name, t.Low(), t.width);
  }

  /** Asked for a thread, an idle worker enters its start state. */
  lemma AskedStarts(fs: seq<Fsm>, w: nat, p: Port, id: nat, n: StateId, ops: Ops, env: Env)
    requires w < |fs| && StartOf(fs, w, id) == Some(n) && Value(env, p.start) == 1 && Value(env, p.select) == id
    requires Transition(StartCond(p, id), n) in fs[w].At(fs[w].reset).trans
    requires forall i :: 0 <= i < |fs[w].At(fs[w].reset).trans| ==>
               IdleTransition(fs, w, p, fs[w].At(fs[w].reset).trans[i])
    ensures Next(fs[w], fs[w].reset, ops, env) == n
  {
    hide StartOf, StartCond;
    var ts := fs[w].At(fs[w].reset).trans;
    var k := NextIsTarget(ts, fs[w].reset, ops, env);
    var i :| 0 <= i < |ts| && ts[i] == Transition(StartCond(p, id), n);
    ReachabilityProof.IdleHolds(p, id, ops, env);
    assert Holds(ts[i].cond, ops, env);
    var id2: nat :| ts[k].cond == StartCond(p, id2) && StartOf(fs, w, id2) == Some(ts[k].target);
    ReachabilityProof.IdleHolds(p, id2, ops, env);
  }

  /** Worker v is about to enter a state that starts the thread, and to wait for it in the state after. */
  ghost predicate ForksAndJoins(d: Design, v: nat, s: StateId, s2: StateId, s3: StateId, w: nat, p: Port, t: Target,
      id: nat)
    requires v < |d.workers|
  {
    && StartsThread(d.workers[v].At(s), w, p, id)
    && d.workers[v].At(s).trans == [Transition(True, s2)] && d.workers[v].At(s2).trans == [Transition(Sig(t), s3)]
  }

  /** It enters that state now, worker w is idle, and no later worker writes to its port. */
  ghost predicate Entering(d: Design, v: nat, s: StateId, w: nat, p: Port, c: Config, ops: Ops)
    requires v < |d.workers| == |c.at| && w < |d.workers|
  {
    var next := NextStates(d.workers, c.at, ops, c.env);
    var later := Effects(d.workers[v + 1..], next[v + 1..]);
    next[v] == s && next[w] == d.workers[w].reset && !Writes(later, p.start.name) && !Writes(later, p.select.name)
  }

  ghost predicate Quiet(d: Design, v: nat, w: nat, c: Config, ops: Ops)
    requires v < |d.workers| && w < |d.workers|
  {
    !Holds(d.workers[v].syncReset, ops, c.env) && !Holds(d.workers[w].syncReset, ops, c.env)
  }

  /** A worker behind w raises its idle signal at this edge. */
  ghost predicate RaisedBehind(d: Design, w: nat, t: Target, c: Config, ops: Ops)
    requires |c.at| == |d.workers|
  {
    Raised(d.workers, NextStates(d.workers, c.at, ops, c.env), t, w, w)
  }

  /** There is no race between starting a thread and waiting for it: two edges later the forking worker waits, the
      other one is in the start state, and its idle signal is 0, so the waiting goes on. */
  lemma JoinSeesItsThread(d: Design, v: nat, s: StateId, s2: StateId, s3: StateId, w: nat, p: Port, t: Target,
      id: nat, n: StateId, c: Config, ops: Ops, o1: Env, o2: Env)
    requires IdleProtocol(d, w, t) && |c.at| == |d.workers| && v < |d.workers| && PortOk(p, d.pulsing, d.inputs)
    requires ForksAndJoins(d, v, s, s2, s3, w, p, t, id) && StartOf(d.workers, w, id) == Some(n)
    requires Transition(StartCond(p, id), n) in d.workers[w].At(d.workers[w].reset).trans
    requires forall i :: 0 <= i < |d.workers[w].At(d.workers[w].reset).trans| ==>
               IdleTransition(d.workers, w, p, d.workers[w].At(d.workers[w].reset).trans[i])
    requires Entering(d, v, s, w, p, c, ops) && Quiet(d, v, w, c, ops)
    requires Quiet(d, v, w, Step(d, c, ops, o1), ops) && !RaisedBehind(d, w, t, Step(d, c, ops, o1), ops)
    ensures var c2 := Step(d, Step(d, c, ops, o1), ops, o2);
      c2.at[v] == s2 && c2.at[w] == n && !c2.env[Bit(t.name, 0)] && Next(d.workers[v], s2, ops, c2.env) == s2
  {
    hide Step, Raised, IdleState, IdleTransition, StartOf, StartCond, Sets, Writes;
    var c1 := Step(d, c, ops, o1);
    var c2 := Step(d, c1, ops, o2);
    assert Pow2(1) == 2 by { assert Pow2(0) == 1; }
    SetStays(d, v, p.start, 1, c, ops, o1);
    SetStays(d, v, p.select, id, c, ops, o1);
    StepAt(d, c, ops, o1, v);
    StepAt(d, c, ops, o1, w);
    AskedStarts(d.workers, w, p, id, n, ops, c1.env);
    StepAt(d, c1, ops, o2, v);
    StepAt(d, c1, ops, o2, w);
    StartGoesOn(d, w, t, p, id, n);
    IdleAfter(d, w, t, c1, ops, o2);
    PassesOn(d.workers[v], s, s2, ops, c1.env);
    JoinWaits(d, w, t, c2, ops, d.workers[v], s2, s3);
  }

  lemma PassesOn(f: Fsm, s: StateId, s2: StateId, ops: Ops, env: Env)
    requires f.At(s).trans == [Transition(True, s2)]
    ensures Next(f, s, ops, env) == s2
  {
    assert Eval(True, ops, env) == 1;
  }

  lemma StartGoesOn(d: Design, w: nat, t: Target, p: Port, id: nat, n: StateId)
    requires IdleProtocol(d, w, t) && Transition(StartCond(p, id), n) in d.workers[w].At(d.workers[w].reset).trans
    ensures d.workers[w].At(n).forkSelect.Some? && !AtRest(d.workers[w], n)
  {
    assert IdleState(d.workers[w], d.workers[w].reset, t) && IdleState(d.workers[w], n, t);
  }

  // ----- Cancelling -----

  /** Worker v resets worker w by its reset signal r, and raises w's idle signal in the state after. */
  ghost predicate Cancels(d: Design, v: nat, s: StateId, s2: StateId, w: nat, r: Target, t: Target)
    requires v < |d.workers| && w < |d.workers|
  {
    && v != w && d.workers[w].syncReset == Sig(r) && r.width == 1 && r.name !in d.inputs
    && Sets(d.workers[v].At(s).assigns, r, 1) && d.workers[v].At(s).trans == [Transition(True, s2)]
    && Writes(d.workers[v].At(s2).assigns, t.name)
  }

  /** Cancelling leaves the worker idle, with its idle signal at 1, unless it would just have entered a start state
      behind the cancelling worker. */
  lemma CancelTells(d: Design, v: nat, s: StateId, s2: StateId, w: nat, r: Target, t: Target, c: Config, ops: Ops,
      o1: Env, o2: Env)
    requires IdleProtocol(d, w, t) && |c.at| == |d.workers| && v < |d.workers| && Cancels(d, v, s, s2, w, r, t)
    requires !Holds(d.workers[v].syncReset, ops, c.env) && NextStates(d.workers, c.at, ops, c.env)[v] == s
    requires !Writes(Effects(d.workers[v + 1..], NextStates(d.workers, c.at, ops, c.env)[v + 1..]), r.name)
    requires var c1 := Step(d, c, ops, o1);
      Tells(d, w, t, c1) && (v < w ==> d.workers[w].At(Next(d.workers[w], c1.at[w], ops, c1.env)).forkSelect.None?)
    ensures var c2 := Step(d, Step(d, c, ops, o1), ops, o2);
      c2.at[w] == d.workers[w].reset && c2.env[Bit(t.name, 0)]
  {
    hide Step, IdleState, Sets, Writes;
    var c1 := Step(d, c, ops, o1);
    var next := NextStates(d.workers, c1.at, ops, c1.env);
    assert Pow2(1) == 2 by { assert Pow2(0) == 1; }
    SetStays(d, v, r, 1, c, ops, o1);
    StepAt(d, c, ops, o1, v);
    PassesOn(d.workers[v], s, s2, ops, c1.env);
    assert next[v] == s2;
    assert Eval(Sig(r), ops, c1.env) == Value(c1.env, r);
    StepAt(d, c1, ops, o2, w);
    StepTellsExactly(d, w, t, c1, ops, o2);
  }
}
