/** Registers that one worker writes: what a clock edge of the whole engine makes of them. The reset values of all
registers sit in the main worker's reset state and are assigned again whenever it is entered. */
module Ownership {
  import opened Signals
  import opened Selectors
  import opened Cycle
  import opened FastForward

  // ----- One worker's assignments -----

  /** The state assigns e to t, and nothing else that counts; or nothing at all. */
  ghost predicate Assigned(own: seq<Assignment>, t: Target, e: Option<Expr>) {
    match e
    case None => Untouched(own, t)
    case Some(v) => exists k :: AssignedAt(own, t, k, v)
  }

  ghost predicate AssignedAt(own: seq<Assignment>, t: Target, k: int, e: Expr) {
    0 <= k < |own| && own[k] == Always(t, e) && Untouched(own[k + 1..], t)
  }

  /** A register after executing the state: the assigned value cut to its width, or what it held. */
  lemma AssignedValue(own: seq<Assignment>, t: Target, e: Option<Expr>, ops: Ops, pre: Env, acc: Env)
    requires Assigned(own, t, e)
    ensures Value(Apply(own, ops, pre, acc), t) ==
      if e.Some? then Eval(e.value, ops, pre) % Pow2(t.width) else Value(acc, t)
  {
    if e.None? {
      UntouchedValue(own, t, ops, pre, acc);
    } else {
      var k :| AssignedAt(own, t, k, e.value);
      AfterLast(own, t, k, ops, pre, acc);
      var mid := Apply(own[..k], ops, pre, acc);
      WriteRead(mid, t, Eval(e.value, ops, pre));
      BitsValueAgrees(Apply(own, ops, pre, acc), Write(mid, t, Eval(e.value, ops, pre)), t.name, t.Low(), t.width);
    }
  }

  lemma AssignedConst(own: seq<Assignment>, t: Target, n: nat, ops: Ops, pre: Env, acc: Env)
    requires Assigned(own, t, Some(Const(n)))
    ensures Value(Apply(own, ops, pre, acc), t) == n % Pow2(t.width)
  {
    AssignedValue(own, t, Some(Const(n)), ops, pre, acc);
    assert Eval(Const(n), ops, pre) == n;
  }

  lemma CutZero(width: nat)
    ensures 0 % Pow2(width) == 0
  {
    SmallMod(0, Pow2(width));
  }

  lemma EffectsOwned(fs: seq<Fsm>, next: seq<StateId>, name: string)
    requires |fs| == |next| && forall v, s :: 0 <= v < |fs| ==> !Writes(fs[v].At(s).assigns, name)
    ensures !Writes(Effects(fs, next), name)
  {
    if i :| 0 <= i < |Effects(fs, next)| && Effects(fs, next)[i].target.name == name {
      var v, k := EffectSource(fs, next, i);
      assert Writes(fs[v].At(next[v]).assigns, name);
    }
  }

  lemma FrameValue(assigns: seq<Assignment>, t: Target, ops: Ops, pre: Env, acc: Env)
    requires !Writes(assigns, t.name)
    ensures Value(Apply(assigns, ops, pre, acc), t) == Value(acc, t)
  {
    forall b: Bit | b.name == t.name ensures Apply(assigns, ops, pre, acc)[b] == acc[b] {
      ApplyFrame(assigns, ops, pre, acc, b);
    }
    BitsValueAgrees(Apply(assigns, ops, pre, acc), acc, t.name, t.Low(), t.width);
  }

  // ----- One edge of the engine -----

  /** Only the worker itself and the main worker's reset state, with the reset value 0, write the register; it does
      not pulse and is no input. */
  ghost predicate Owned(d: Design, w: nat, t: Target)
    requires w < |d.workers|
  {
    && t.name !in d.pulsing && t.name !in d.inputs
    && (w != 0 ==> Assigned(d.workers[0].At(d.workers[0].reset).assigns, t, Some(Const(0))))
    && forall v, s {:trigger d.workers[v].At(s)} ::
      0 <= v < |d.workers| && v != w && !(v == 0 && s == d.workers[0].reset) ==>
        !Writes(d.workers[v].At(s).assigns, t.name)
  }

  /** The main worker enters, or stays in, its reset state. */
  ghost predicate MainResets(d: Design, c: Config, ops: Ops)
    requires |c.at| == |d.workers| >= 1
  {
    Next(d.workers[0], c.at[0], ops, c.env) == d.workers[0].reset
  }

  ghost function BeforeWorker(d: Design, w: nat, next: seq<StateId>, ops: Ops, pre: Env): Env
    requires w < |d.workers| == |next|
  {
    Apply(Effects(d.workers[..w], next[..w]), ops, pre, ClearPulsing(d.pulsing, pre))
  }

  /** What the worker's own assignments find: the main worker's reset state, which comes first, clears its
      registers. */
  lemma FoundByWorker(d: Design, w: nat, next: seq<StateId>, ops: Ops, pre: Env, t: Target)
    requires w < |d.workers| == |next| && Owned(d, w, t)
    ensures Value(BeforeWorker(d, w, next, ops, pre), t) ==
      if w != 0 && next[0] == d.workers[0].reset then 0 else Value(pre, t)
  {
    hide Assigned;
    var cleared := ClearPulsing(d.pulsing, pre);
    BitsValueAgrees(cleared, pre, t.name, t.Low(), t.width);
    if w != 0 {
      var fs, ns, main := d.workers[..w], next[..w], d.workers[0].At(next[0]).assigns;
      EffectsOwned(fs[1..], ns[1..], t.name);
      ApplyAppend(main, Effects(fs[1..], ns[1..]), ops, pre, cleared);
      FrameValue(Effects(fs[1..], ns[1..]), t, ops, pre, Apply(main, ops, pre, cleared));
      if next[0] == d.workers[0].reset {
        AssignedConst(main, t, 0, ops, pre, cleared);
        CutZero(t.width);
      } else {
        FrameValue(main, t, ops, pre, cleared);
      }
    } else {
      assert Effects(d.workers[..w], next[..w]) == [];
    }
  }

  /** ... and the workers behind it leave what they make of the registers. */
  lemma LeftByWorker(d: Design, w: nat, c: Config, ops: Ops, outside: Env, t: Target)
    requires w < |d.workers| == |c.at| && Owned(d, w, t)
    ensures var next := NextStates(d.workers, c.at, ops, c.env);
      Value(Step(d, c, ops, outside).env, t) ==
      Value(Apply(d.workers[w].At(next[w]).assigns, ops, c.env, BeforeWorker(d, w, next, ops, c.env)), t)
  {
    hide Assigned;
    var next, cleared := NextStates(d.workers, c.at, ops, c.env), ClearPulsing(d.pulsing, c.env);
    var before, own, later := Effects(d.workers[..w], next[..w]), d.workers[w].At(next[w]).assigns,
      Effects(d.workers[w + 1..], next[w + 1..]);
    SplitEffects(d.workers, next, w);
    ApplyAppend(before + own, later, ops, c.env, cleared);
    ApplyAppend(before, own, ops, c.env, cleared);
    EffectsOwned(d.workers[w + 1..], next[w + 1..], t.name);
    FrameValue(later, t, ops, c.env, Apply(before + own, ops, c.env, cleared));
    BitsValueAgrees(Step(d, c, ops, outside).env, Apply(Effects(d.workers, next), ops, c.env, cleared),
      t.name, t.Low(), t.width);
  }

  /** A register of the worker after an edge of the whole engine. */
  lemma RegisterAfter(d: Design, w: nat, c: Config, ops: Ops, outside: Env, t: Target,
      e: Option<Expr>)
    requires w < |d.workers| == |c.at| && Owned(d, w, t)
    requires Assigned(d.workers[w].At(NextStates(d.workers, c.at, ops, c.env)[w]).assigns, t, e)
    ensures Value(Step(d, c, ops, outside).env, t) ==
      if e.Some? then Eval(e.value, ops, c.env) % Pow2(t.width)
      else if w != 0 && MainResets(d, c, ops) then 0 else Value(c.env, t)
  {
    hide Step, Assigned, Owned, BeforeWorker;
    var next := NextStates(d.workers, c.at, ops, c.env);
    LeftByWorker(d, w, c, ops, outside, t);
    FoundByWorker(d, w, next, ops, c.env, t);
    AssignedValue(d.workers[w].At(next[w]).assigns, t, e, ops, c.env, BeforeWorker(d, w, next, ops, c.env));
  }

  /** Whoever else writes the register before it, a worker's assignment stays if no later worker's touches it at
      this edge. */
  lemma AssignmentStays(d: Design, w: nat, c: Config, ops: Ops, outside: Env, t: Target, e: Expr)
    requires w < |d.workers| == |c.at| && t.name !in d.inputs
    requires var next := NextStates(d.workers, c.at, ops, c.env);
      Assigned(d.workers[w].At(next[w]).assigns, t, Some(e)) && Untouched(Effects(d.workers[w + 1..], next[w + 1..]), t)
    ensures Value(Step(d, c, ops, outside).env, t) == Eval(e, ops, c.env) % Pow2(t.width)
  {
    hide Assigned, Untouched;
    var next, cleared := NextStates(d.workers, c.at, ops, c.env), ClearPulsing(d.pulsing, c.env);
    var before, own, later := Effects(d.workers[..w], next[..w]), d.workers[w].At(next[w]).assigns,
      Effects(d.workers[w + 1..], next[w + 1..]);
    SplitEffects(d.workers, next, w);
    ApplyAppend(before + own, later, ops, c.env, cleared);
    ApplyAppend(before, own, ops, c.env, cleared);
    AssignedValue(own, t, Some(e), ops, c.env, Apply(before, ops, c.env, cleared));
    UntouchedValue(later, t, ops, c.env, Apply(before + own, ops, c.env, cleared));
    BitsValueAgrees(Step(d, c, ops, outside).env, Apply(Effects(d.workers, next), ops, c.env, cleared),
      t.name, t.Low(), t.width);
  }
}
