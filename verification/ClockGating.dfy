/** Clock gating: the enables of the renderer's three-level clock gate hierarchy, and the proof
that the gated engine shows the same signals as the ungated one in every cycle.

`widths` gives the declared width of each pulsing signal. */
module ClockGating {
  import opened Signals
  import opened Selectors
  import opened Cycle

  type Widths = map<string, nat>

  // ----- GCLK_output_enable -----

  /** One item of the case statement on the next state. */
  datatype Check =
    | IfDiffers(target: Target, value: Expr)     // if (signal != value) enable = 1
    | Always1                                    // enable = 1
    | IfNonZero(target: Target)                  // if (pulsing signal != 0) enable = 1

  ghost predicate Raises(c: Check, ops: Ops, env: Env) {
    match c
    case IfDiffers(t, e) => Value(env, t) != Eval(e, ops, env)
    case Always1 => true
    case IfNonZero(t) => Value(env, t) != 0
  }

  function CheckOf(a: Assignment): Check {
    match a
    case Always(t, e) => IfDiffers(t, e)
    case When(_, _) => Always1
  }

  predicate WholeAssigned(assigns: seq<Assignment>, p: string, width: nat) {
    exists i :: 0 <= i < |assigns| && assigns[i].Always? && assigns[i].target == Whole(p, width)
  }

  /** The checks of one state: its assignments, then the pulsing signals it leaves to fall. */
  ghost predicate ChecksOf(checks: seq<Check>, assigns: seq<Assignment>, widths: Widths) {
    && (forall i :: 0 <= i < |assigns| ==> CheckOf(assigns[i]) in checks)
    && (forall p :: p in widths && !WholeAssigned(assigns, p, widths[p]) ==> IfNonZero(Whole(p, widths[p])) in checks)
    && (forall c :: c in checks ==>
          || (exists i :: 0 <= i < |assigns| && c == CheckOf(assigns[i]))
          || Falls(c, assigns, widths))
  }

  /** The item looks at a pulsing signal the state does not assign. */
  ghost predicate Falls(c: Check, assigns: seq<Assignment>, widths: Widths) {
    exists p :: p in widths && !WholeAssigned(assigns, p, widths[p]) && c == IfNonZero(Whole(p, widths[p]))
  }

  /** `_create_output_clock_enable`, for one state. */
  method CreateChecks(assigns: seq<Assignment>, pulsing: seq<string>, widths: Widths) returns (checks: seq<Check>)
    requires forall p :: p in pulsing <==> p in widths
    ensures ChecksOf(checks, assigns, widths)
  {
    checks := [];
    for i := 0 to |assigns|
      invariant |checks| == i && forall j :: 0 <= j < i ==> checks[j] == CheckOf(assigns[j])
    {
      checks := checks + [if assigns[i].Always? then IfDiffers(assigns[i].target, assigns[i].value) else Always1];
    }
    ghost var own := checks;
    for i := 0 to |pulsing|
      invariant own <= checks && |own| == |assigns|
      invariant forall j :: 0 <= j < |own| ==> own[j] == CheckOf(assigns[j])
      invariant forall j ::
        0 <= j < i ==>
          WholeAssigned(assigns, pulsing[j], widths[pulsing[j]])
            || IfNonZero(Whole(pulsing[j], widths[pulsing[j]])) in checks
      invariant forall k {:trigger checks[k]} :: |own| <= k < |checks| ==>
        Falls(checks[k], assigns, widths)
    {
      var p := pulsing[i];
      if !WholeAssigned(assigns, p, widths[p]) {
        assert Falls(IfNonZero(Whole(p, widths[p])), assigns, widths);
        checks := checks + [IfNonZero(Whole(p, widths[p]))];
      }
    }
    forall i | 0 <= i < |assigns|
      ensures CheckOf(assigns[i]) in checks
    {
      assert checks[i] == own[i] == CheckOf(assigns[i]);
    }
    forall p | p in widths && !WholeAssigned(assigns, p, widths[p]) ensures IfNonZero(Whole(p, widths[p])) in checks {
      var j :| 0 <= j < |pulsing| && pulsing[j] == p;
    }
    forall c | c in checks
      ensures || (exists i :: 0 <= i < |assigns| && c == CheckOf(assigns[i]))
              || Falls(c, assigns, widths)
    {
      var k :| 0 <= k < |checks| && checks[k] == c;
      if k < |own| { assert c == own[k] == CheckOf(assigns[k]); }
    }
  }

  /** A pulsing signal is checked exactly in the states that do not assign it, whole and unconditionally; the other
      checks are one for each assignment, always raised for a conditional one. */
  lemma ChecksExactly(checks: seq<Check>, assigns: seq<Assignment>, widths: Widths, c: Check)
    requires ChecksOf(checks, assigns, widths)
    ensures c in checks <==>
            || (exists i :: 0 <= i < |assigns| && match assigns[i]
                  case Always(t, e) => c == IfDiffers(t, e)
                  case When(_, _) => c == Always1)
            || (c.IfNonZero? && c.target.Whole? && c.target.name in widths && c.target.width == widths[c.target.name]
                && forall i :: 0 <= i < |assigns| && assigns[i].Always? ==> assigns[i].target != c.target)
  {
    if c.IfNonZero? && c.target.Whole? && c.target.name in widths && c.target.width == widths[c.target.name] {
      assert c == IfNonZero(Whole(c.target.name, widths[c.target.name]));
    }
  }

  // ----- The gated engine -----

  ghost predicate StateRaises(assigns: seq<Assignment>, widths: Widths, ops: Ops, env: Env) {
    || (exists i :: 0 <= i < |assigns| && Raises(CheckOf(assigns[i]), ops, env))
    || (exists p ::
      p in widths && !WholeAssigned(assigns, p, widths[p]) && Raises(IfNonZero(Whole(p, widths[p])), ops, env))
  }

  /** All workers' case statements assign the one enable. */
  ghost predicate OutputEnable(d: Design, widths: Widths, next: seq<StateId>, ops: Ops, env: Env)
    requires |next| == |d.workers|
  {
    exists w :: 0 <= w < |next| && next[w] in d.workers[w].states
      && StateRaises(d.workers[w].At(next[w]).assigns, widths, ops, env)
  }

  /** The state register's own enable: the state changes or the synchronous reset is asserted. */
  ghost predicate WorkerEnable(f: Fsm, s: StateId, ops: Ops, env: Env) {
    Next(f, s, ops, env) != s || Holds(f.syncReset, ops, env)
  }

  ghost predicate ModuleEnable(d: Design, widths: Widths, c: Config, ops: Ops, request: bool)
    requires |c.at| == |d.workers|
  {
    || OutputEnable(d, widths, NextStates(d.workers, c.at, ops, c.env), ops, c.env)
    || (exists w :: 0 <= w < |c.at| && WorkerEnable(d.workers[w], c.at[w], ops, c.env))
    || request
  }

  /** One edge of CLK_I: a register behind a closed gate keeps its value. `request` is the
      clock request of the sub-modules. */
  ghost function GatedStep(d: Design, widths: Widths, c: Config, ops: Ops, outside: Env, request: bool): (r: Config)
    requires |c.at| == |d.workers|
    ensures |r.at| == |d.workers|
  {
    var next := NextStates(d.workers, c.at, ops, c.env);
    var open := ModuleEnable(d, widths, c, ops, request);
    var states := Latch(d.workers, next, ops, c.env);
    var registers := Apply(Effects(d.workers, next), ops, c.env, ClearPulsing(d.pulsing, c.env));
    Config(seq(|d.workers|, w requires 0 <= w < |d.workers| =>
             if open && WorkerEnable(d.workers[w], c.at[w], ops, c.env) then states[w] else c.at[w]),
           Sample(d.inputs, if open && OutputEnable(d, widths, next, ops, c.env) then registers else c.env, outside))
  }

  /** The output enable is raised exactly if the next state of some worker has a conditional assignment, or one whose
      value differs from what its target holds, or leaves out a pulsing signal that is not 0. */
  lemma OutputOpensExactly(d: Design, widths: Widths, next: seq<StateId>, ops: Ops, env: Env)
    requires |next| == |d.workers|
    ensures OutputEnable(d, widths, next, ops, env) <==>
            exists w :: 0 <= w < |next| && next[w] in d.workers[w].states && Notices(d.workers[w].At(next[w]).assigns,
                          widths, ops, env)
  {
    forall w | 0 <= w < |next|
      ensures StateRaises(d.workers[w].At(next[w]).assigns, widths, ops, env) <==>
              Notices(d.workers[w].At(next[w]).assigns, widths, ops, env)
    {
      RaisesExactly(d.workers[w].At(next[w]).assigns, widths, ops, env);
    }
  }

  ghost predicate Notices(own: seq<Assignment>, widths: Widths, ops: Ops, env: Env) {
    || (exists i :: 0 <= i < |own| && (own[i].When? || Value(env, own[i].target) != Eval(own[i].value, ops, env)))
    || (exists p :: p in widths && Value(env, Whole(p, widths[p])) != 0
          && forall i :: 0 <= i < |own| && own[i].Always? ==> own[i].target != Whole(p, widths[p]))
  }

  lemma RaisesExactly(own: seq<Assignment>, widths: Widths, ops: Ops, env: Env)
    ensures StateRaises(own, widths, ops, env) <==> Notices(own, widths, ops, env)
  {
    forall i | 0 <= i < |own|
      ensures Raises(CheckOf(own[i]), ops, env) <==>
              own[i].When? || Value(env, own[i].target) != Eval(own[i].value, ops, env)
    {
    }
  }

  /** A closed gate holds, an open one does not, whatever the design: a state register moves only if its next state
      differs or it is reset, the output registers only if the output enable is raised. */
  lemma GatesHold(d: Design, widths: Widths, c: Config, ops: Ops, outside: Env, request: bool, w: nat, b: Bit)
    requires |c.at| == |d.workers| && w < |d.workers| && b.name !in d.inputs
    ensures var next, r := NextStates(d.workers, c.at, ops, c.env), GatedStep(d, widths, c, ops, outside, request);
      && (OutputEnable(d, widths, next, ops, c.env) ==> r.env[b] == Step(d, c, ops, outside).env[b])
      && (!OutputEnable(d, widths, next, ops, c.env) ==> r.env[b] == c.env[b])
      && r.at[w] == (if Holds(d.workers[w].syncReset, ops, c.env) then d.workers[w].reset else next[w])
  {
    var next := NextStates(d.workers, c.at, ops, c.env);
    if WorkerEnable(d.workers[w], c.at[w], ops, c.env) { assert ModuleEnable(d, widths, c, ops, request); }
  }

  /** No gate opens in vain: a worker's clock runs exactly if its state register changes or it is reset, and the
      engine's exactly if some worker's does, an output may change, or a sub-module asks for it. */
  lemma ClocksExactly(d: Design, widths: Widths, c: Config, ops: Ops, outside: Env, request: bool)
    requires |c.at| == |d.workers|
    ensures forall w {:trigger d.workers[w]} :: 0 <= w < |d.workers| ==>
              (WorkerEnable(d.workers[w], c.at[w], ops, c.env) <==>
                Holds(d.workers[w].syncReset, ops, c.env) || Step(d, c, ops, outside).at[w] != c.at[w])
    ensures ModuleEnable(d, widths, c, ops, request) <==>
            || request || OutputEnable(d, widths, NextStates(d.workers, c.at, ops, c.env), ops, c.env)
            || exists w {:trigger d.workers[w]} :: 0 <= w < |d.workers|
                 && (Holds(d.workers[w].syncReset, ops, c.env) || Step(d, c, ops, outside).at[w] != c.at[w])
  {
    var r := Step(d, c, ops, outside);
    forall w {:trigger d.workers[w]} | 0 <= w < |d.workers|
      ensures WorkerEnable(d.workers[w], c.at[w], ops, c.env) <==>
              Holds(d.workers[w].syncReset, ops, c.env) || r.at[w] != c.at[w]
    {
    }
  }

  ghost function GatedRun(d: Design, widths: Widths, ops: Ops, powerUp: Env, outside: nat -> Env,
      requests: nat -> bool, n: nat): (c: Config)
    requires |d.workers| >= 1
    ensures |c.at| == |d.workers|
  {
    if n == 0 then Initial(d, ops, powerUp, outside(0))
    else GatedStep(d, widths, GatedRun(d, widths, ops, powerUp, outside, requests, n - 1), ops, outside(n), requests(n))
  }

  // ----- A closed output gate hides no change -----

  /** Pulsing signals have no bits beyond their width. */
  ghost predicate Fits(widths: Widths, env: Env) {
    forall b: Bit {:trigger env[b]} :: b.name in widths && env[b] ==> b.i < widths[b.name]
  }

  ghost predicate TargetsFit(widths: Widths, assigns: seq<Assignment>) {
    forall i :: 0 <= i < |assigns| ==>
      var t := assigns[i].target; t.name in widths ==> t.Low() + t.width <= widths[t.name]
  }

  ghost predicate Gateable(d: Design, widths: Widths) {
    && d.Valid() && widths.Keys == d.pulsing && d.pulsing !! d.inputs
    && forall w, s {:trigger d.workers[w].body[s]} ::
      0 <= w < |d.workers| && s in d.workers[w].body ==> TargetsFit(widths, d.workers[w].body[s].assigns)
  }

  ghost predicate Quiet(assigns: seq<Assignment>, ops: Ops, env: Env) {
    forall i :: 0 <= i < |assigns| ==> !Raises(CheckOf(assigns[i]), ops, env)
  }

  lemma QuietAppend(x: seq<Assignment>, y: seq<Assignment>, ops: Ops, env: Env)
    ensures Quiet(x + y, ops, env) <==> Quiet(x, ops, env) && Quiet(y, ops, env)
  {
    if Quiet(x + y, ops, env) {
      forall i | 0 <= i < |x| ensures !Raises(CheckOf(x[i]), ops, env) { assert (x + y)[i] == x[i]; }
      forall i | 0 <= i < |y| ensures !Raises(CheckOf(y[i]), ops, env) { assert (x + y)[|x| + i] == y[i]; }
    }
  }

  /** A quiet assignment writes what its target holds already; a wider value only agrees with
      the target if nothing is cut off. */
  lemma QuietPerform(a: Assignment, ops: Ops, env: Env, acc: Env, b: Bit)
    requires !Raises(CheckOf(a), ops, env)
    ensures acc[b] == env[b] || a.target.Covers(b) ==> Perform(a, ops, env, acc)[b] == env[b]
  {
    var t := a.target;
    if t.Covers(b) { ValueBit(env, t.name, t.Low(), t.width, b.i - t.Low()); }
  }

  lemma {:induction false} QuietApply(assigns: seq<Assignment>, ops: Ops, env: Env, acc: Env, b: Bit)
    requires Quiet(assigns, ops, env) && acc[b] == env[b]
    ensures Apply(assigns, ops, env, acc)[b] == env[b]
    decreases assigns
  {
    if assigns != [] {
      assert assigns == [assigns[0]] + assigns[1..];
      QuietAppend([assigns[0]], assigns[1..], ops, env);
      QuietPerform(assigns[0], ops, env, acc, b);
      QuietApply(assigns[1..], ops, env, Perform(assigns[0], ops, env, acc), b);
    }
  }

  /** A bit that falls before the assignments rises again if a quiet assignment covers it. */
  lemma {:induction false} QuietCover(assigns: seq<Assignment>, i: nat, ops: Ops, env: Env, acc: Env, b: Bit)
    requires Quiet(assigns, ops, env) && i < |assigns| && assigns[i].target.Covers(b)
    ensures Apply(assigns, ops, env, acc)[b] == env[b]
  {
    var head, tail := assigns[..i], assigns[i..];
    assert assigns == head + tail && tail == [assigns[i]] + assigns[i + 1..];
    var mid := Apply(head, ops, env, acc);
    ApplyAppend(head, tail, ops, env, acc);
    QuietAppend(head, tail, ops, env);
    QuietAppend([assigns[i]], assigns[i + 1..], ops, env);
    assert tail[0] == assigns[i] && tail[1..] == assigns[i + 1..];
    QuietPerform(assigns[i], ops, env, mid, b);
    QuietApply(assigns[i + 1..], ops, env, Perform(assigns[i], ops, env, mid), b);
  }

  lemma BitNonZero(env: Env, p: string, width: nat, b: Bit)
    requires b.name == p && b.i < width && env[b]
    ensures Value(env, Whole(p, width)) != 0
  {
    ValueBit(env, p, 0, width, b.i);
    if BitsValue(env, p, 0, width) == 0 { ZeroBit(b.i); }
  }

  lemma QuietEffects(d: Design, widths: Widths, next: seq<StateId>, ops: Ops, env: Env)
    requires |next| == |d.workers| && !OutputEnable(d, widths, next, ops, env)
    requires forall w :: 0 <= w < |next| ==> next[w] in d.workers[w].states
    ensures Quiet(Effects(d.workers, next), ops, env)
  {
    var effects := Effects(d.workers, next);
    forall i | 0 <= i < |effects| ensures !Raises(CheckOf(effects[i]), ops, env) {
      var w, k := EffectSource(d.workers, next, i);
      assert !StateRaises(d.workers[w].At(next[w]).assigns, widths, ops, env);
    }
  }

  /** With GCLK_output_enable at 0 the output block would change no register, pulsing ones included. */
  lemma ClosedGateHidesNothing(d: Design, widths: Widths, next: seq<StateId>, ops: Ops, env: Env)
    requires |next| == |d.workers| >= 1 && !OutputEnable(d, widths, next, ops, env)
    requires widths.Keys == d.pulsing && Fits(widths, env)
    requires forall w :: 0 <= w < |next| ==> next[w] in d.workers[w].states
    ensures Apply(Effects(d.workers, next), ops, env, ClearPulsing(d.pulsing, env)) == env
  {
    var effects, cleared := Effects(d.workers, next), ClearPulsing(d.pulsing, env);
    QuietEffects(d, widths, next, ops, env);
    forall b: Bit ensures Apply(effects, ops, env, cleared)[b] == env[b] {
      if cleared[b] == env[b] {
        QuietApply(effects, ops, env, cleared, b);
      } else {
        var own := d.workers[0].At(next[0]).assigns;
        BitNonZero(env, b.name, widths[b.name], b);
        assert !StateRaises(own, widths, ops, env);
        assert WholeAssigned(own, b.name, widths[b.name]);
        var i :| 0 <= i < |own| && own[i].Always? && own[i].target == Whole(b.name, widths[b.name]);
        assert effects[i] == own[i];
        QuietCover(effects, i, ops, env, cleared, b);
      }
    }
  }

  // ----- The gated engine shows what the ungated one shows -----

  ghost predicate Ready(d: Design, widths: Widths, c: Config) {
    && |c.at| == |d.workers| && Fits(widths, c.env)
    && forall w {:trigger c.at[w]} :: 0 <= w < |c.at| ==> c.at[w] in d.workers[w].body
  }

  lemma {:induction false} ApplyFits(assigns: seq<Assignment>, widths: Widths, ops: Ops, pre: Env, acc: Env)
    requires TargetsFit(widths, assigns) && Fits(widths, acc)
    ensures Fits(widths, Apply(assigns, ops, pre, acc))
    decreases assigns
  {
    if assigns != [] {
      var now := Perform(assigns[0], ops, pre, acc);
      assert Fits(widths, now) by {
        forall b: Bit | b.name in widths && now[b] ensures b.i < widths[b.name] {
          if !assigns[0].target.Covers(b) { assert acc[b]; }
        }
      }
      assert forall i :: 0 <= i < |assigns[1..]| ==> assigns[1..][i] == assigns[i + 1];
      ApplyFits(assigns[1..], widths, ops, pre, now);
    }
  }

  lemma NextReady(d: Design, widths: Widths, c: Config, ops: Ops)
    requires Gateable(d, widths) && Ready(d, widths, c)
    ensures var next := NextStates(d.workers, c.at, ops, c.env);
      && (forall w {:trigger next[w]} ::
        0 <= w < |next| ==> next[w] in d.workers[w].body && next[w] in d.workers[w].states)
      && TargetsFit(widths, Effects(d.workers, next))
  {
    var next := NextStates(d.workers, c.at, ops, c.env);
    forall w {:trigger next[w]} | 0 <= w < |next|
      ensures next[w] in d.workers[w].body && next[w] in d.workers[w].states {
      var f := d.workers[w];
      assert f.Valid();
      var k := NextIsTarget(f.At(c.at[w]).trans, c.at[w], ops, c.env);
      assert c.at[w] in f.body;
      if k >= 0 { assert f.body[c.at[w]].trans[k].target in f.body; }
    }
    var effects := Effects(d.workers, next);
    forall i | 0 <= i < |effects|
      ensures var t := effects[i].target; t.name in widths ==> t.Low() + t.width <= widths[t.name]
    {
      var w, k := EffectSource(d.workers, next, i);
      assert next[w] in d.workers[w].body;
      assert TargetsFit(widths, d.workers[w].body[next[w]].assigns);
    }
  }

  lemma StepReady(d: Design, widths: Widths, c: Config, ops: Ops, outside: Env)
    requires Gateable(d, widths) && Ready(d, widths, c)
    ensures Ready(d, widths, Step(d, c, ops, outside))
  {
    var next := NextStates(d.workers, c.at, ops, c.env);
    NextReady(d, widths, c, ops);
    var cleared := ClearPulsing(d.pulsing, c.env);
    ApplyFits(Effects(d.workers, next), widths, ops, c.env, cleared);
    var r := Step(d, c, ops, outside);
    forall w {:trigger r.at[w]} | 0 <= w < |r.at| ensures r.at[w] in d.workers[w].body {
      assert next[w] in d.workers[w].body && d.workers[w].Valid();
    }
  }

  lemma InitialReady(d: Design, widths: Widths, ops: Ops, powerUp: Env, outside: Env)
    requires Gateable(d, widths) && Fits(widths, powerUp)
    ensures Ready(d, widths, Initial(d, ops, powerUp, outside))
  {
    var main := d.workers[0];
    assert forall w :: 0 <= w < |d.workers| ==> d.workers[w].Valid();
    assert TargetsFit(widths, d.workers[0].body[main.reset].assigns);
    ApplyFits(main.At(main.reset).assigns, widths, ops, powerUp, powerUp);
  }

  /** One edge: the gates change nothing. */
  lemma GatedStepSame(d: Design, widths: Widths, c: Config, ops: Ops, outside: Env, request: bool)
    requires Gateable(d, widths) && Ready(d, widths, c)
    ensures GatedStep(d, widths, c, ops, outside, request) == Step(d, c, ops, outside)
  {
    var next := NextStates(d.workers, c.at, ops, c.env);
    NextReady(d, widths, c, ops);
    if !OutputEnable(d, widths, next, ops, c.env) { ClosedGateHidesNothing(d, widths, next, ops, c.env); }
    var r, g := Step(d, c, ops, outside), GatedStep(d, widths, c, ops, outside, request);
    forall w | 0 <= w < |d.workers| ensures g.at[w] == r.at[w] {
      if WorkerEnable(d.workers[w], c.at[w], ops, c.env) { assert ModuleEnable(d, widths, c, ops, request); }
    }
    assert g.at == r.at;
  }

  /** Clock gating is transparent: gated and ungated engine agree in every cycle, for every
      input sequence and every sequence of sub-module clock requests. */
  lemma {:induction false} GatingIsTransparent(d: Design, widths: Widths, ops: Ops, powerUp: Env, outside: nat -> Env,
                                               requests: nat -> bool, n: nat)
    requires Gateable(d, widths) && Fits(widths, powerUp)
    ensures GatedRun(d, widths, ops, powerUp, outside, requests, n) == Run(d, ops, powerUp, outside, n)
    ensures Ready(d, widths, Run(d, ops, powerUp, outside, n))
  {
    hide Ready, Fits, Step, GatedStep, TargetsFit;
    if n == 0 {
      InitialReady(d, widths, ops, powerUp, outside(0));
    } else {
      GatingIsTransparent(d, widths, ops, powerUp, outside, requests, n - 1);
      var c := Run(d, ops, powerUp, outside, n - 1);
      GatedStepSame(d, widths, c, ops, outside(n), requests(n));
      StepReady(d, widths, c, ops, outside(n));
    }
  }
}
