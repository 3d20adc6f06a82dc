/** State breakout is cycle-exact: the coupling invariant holds initially, every clock edge
keeps it, and it makes every old signal agree. */
module BreakoutProof {
  import opened Signals
  import opened Selectors
  import opened Cycle
  import opened BreakoutModel

  // ----- Guards and control flow -----

  lemma LowValue(env: Env, t: Target)
    requires Low(env, t)
    ensures Value(env, t) == 0
  {
    LowBits(env, t.name, t.Low(), t.width);
  }

  lemma {:induction false} LowBits(env: Env, name: string, low: nat, width: nat)
    requires forall k: nat | low <= k < low + width :: !env[Bit(name, k)]
    ensures BitsValue(env, name, low, width) == 0
    decreases width
  {
    if width > 0 { LowBits(env, name, low + 1, width - 1); }
  }

  lemma GuardHolds(pulse: Target, select: Target, k: nat, ops: Ops, env: Env)
    ensures Holds(Guard(pulse, select, k), ops, env) <==> Value(env, pulse) == 1 && Value(env, select) == k
  {
    var x, y := Eq(Sig(pulse), Const(1)), Eq(Sig(select), Const(k));
    assert Eval(x, ops, env) == Flag(Value(env, pulse) == 1);
    assert Eval(y, ops, env) == Flag(Value(env, select) == k);
  }

  /** A list of guarded transitions stays put while nothing is announced and takes exactly the
      announced one otherwise. */
  lemma {:induction false} FollowResume(list: seq<Transition>, pulse: Target, select: Target, number: Option<nat>,
                                        s: StateId, ops: Ops, env: Env)
    requires forall k :: 0 <= k < |list| ==> list[k].cond == Guard(pulse, select, k)
    requires Shows(env, pulse, select, number)
    requires number.Some? ==> number.value < |list|
    ensures NextState(list, s, ops, env) == if number.None? then s else list[number.value].target
  {
    var k := NextIsTarget(list, s, ops, env);
    if number.None? { LowValue(env, pulse); }
    if k >= 0 { GuardHolds(pulse, select, k, ops, env); }
    if k == -1 && number.Some? { GuardHolds(pulse, select, number.value, ops, env); }
  }

  lemma {:induction false} NextAppend(a: seq<Transition>, b: seq<Transition>, s: StateId, ops: Ops, env: Env)
    ensures NextState(a + b, s, ops, env) == NextState(b, NextState(a, s, ops, env), ops, env)
    decreases |b|
  {
    if b == [] {
      assert a + b == a;
    } else {
      assert (a + b)[..|a + b| - 1] == a + b[..|b| - 1];
      NextAppend(a, b[..|b| - 1], s, ops, env);
    }
  }

  lemma WaitTransitions(f: Fsm, f2: Fsm, part: seq<StateId>, ctl: Control, wait: StateId, ks: Numbers,
      extra: seq<Assignment>, names: set<string>)
    requires OldWorker(f, f2, part, ctl, wait, ks, extra) && FsmWithin(f, names)
    ensures f2.At(wait).trans == f.At(wait).trans + Added(f, f2, wait) && TransWithin(f.At(wait).trans, names)
    ensures forall k :: 0 <= k < |Added(f, f2, wait)| ==>
              Added(f, f2, wait)[k].cond == Guard(ctl.finish, ctl.finishSelect, k)
  {
    hide Added;
    if wait in f.body { assert StateWithin(f.body[wait], names); }
  }

  /** A WAIT state with transitions for several partitions: those of an earlier one, then these. */
  lemma WaitGoesOn(f: Fsm, f2: Fsm, part: seq<StateId>, ctl: Control, wait: StateId, ks: Numbers,
      extra: seq<Assignment>, names: set<string>, number: Option<nat>, ops: Ops, env: Env, env2: Env)
    requires OldWorker(f, f2, part, ctl, wait, ks, extra) && FsmWithin(f, names) && Agree(env, env2, names)
    requires Shows(env2, ctl.finish, ctl.finishSelect, number)
    requires number.Some? ==> number.value < |Added(f, f2, wait)|
    ensures Next(f2, wait, ops, env2) ==
      if number.None? then Next(f, wait, ops, env) else Added(f, f2, wait)[number.value].target
  {
    hide OldWorker, FsmWithin, StateWithin, TransWithin, Guard, Shows, Added;
    var base, added := f.At(wait).trans, Added(f, f2, wait);
    WaitTransitions(f, f2, part, ctl, wait, ks, extra, names);
    NextAppend(base, added, wait, ops, env2);
    NextAgrees(base, wait, ops, env, env2, names);
    FollowResume(added, ctl.finish, ctl.finishSelect, number, NextState(base, wait, ops, env2), ops, env2);
  }

  lemma SilentStays(f: Fsm, wait: StateId, ops: Ops, env: Env)
    requires Silent(f, wait, ops, env)
    ensures Next(f, wait, ops, env) == wait
  {
    var k := NextIsTarget(f.At(wait).trans, wait, ops, env);
  }

  /** Renaming the targets of a transition list renames the next state. */
  lemma {:induction false} RenamedNext(ts: seq<Transition>, ts2: seq<Transition>, part: seq<StateId>, s: StateId,
      ops: Ops, env: Env)
    requires |ts2| == |ts|
    requires forall i :: 0 <= i < |ts| ==> ts2[i] == Transition(ts[i].cond, Moved(part, ts[i].target))
    ensures NextState(ts2, Moved(part, s), ops, env) == Moved(part, NextState(ts, s, ops, env))
    decreases |ts|
  {
    if ts != [] { RenamedNext(ts[..|ts| - 1], ts2[..|ts| - 1], part, s, ops, env); }
  }

  lemma NextInBody(f: Fsm, s: StateId, ops: Ops, env: Env)
    requires f.Closed() && s in f.body
    ensures Next(f, s, ops, env) in f.body
  {
    var k := NextIsTarget(f.At(s).trans, s, ops, env);
  }

  /** While the old worker is outside the partition. */
  lemma HandoverOutside(f: Fsm, f2: Fsm, g: Fsm, part: seq<StateId>, ctl: Control, wait: StateId, ks: Numbers,
      extra: seq<Assignment>, names: set<string>, ops: Ops, s: StateId, i: StateId, env: Env, env2: Env)
    requires f.Closed() && CleanPartition(f, part) && FsmWithin(f, names) && Agree(env, env2, names)
    requires OldWorker(f, f2, part, ctl, wait, ks, extra) && NewWorker(f, g, part, ctl, ks)
    requires s in f.body && s !in part
    requires i == IDLE || (i == IDLE_RESET && s == f.reset)
    requires Shows(env2, ctl.trigger, ctl.triggerSelect, EnterNumber(f, part, ks, s)) && Low(env2, ctl.finish)
    ensures var nx := Next(f, s, ops, env);
      && Next(f2, s, ops, env2) == (if nx in part then wait else nx)
      && Next(g, i, ops, env2) == (if nx in part then Moved(part, nx) else IDLE)
  {
    var st, number := f.body[s], EnterNumber(f, part, ks, s);
    assert StateWithin(f.body[s], names);
    NextAgrees(st.trans, s, ops, env, env2, names);
    if i == IDLE {
      assert f.At(s) == st;
      if number.Some? { assert Resumes(g.At(IDLE).trans, ctl.trigger, ctl.triggerSelect, f, part, true, ks.enter); }
      FollowResume(g.At(IDLE).trans, ctl.trigger, ctl.triggerSelect, number, IDLE, ops, env2);
    }
    if s == wait { WaitGoesOn(f, f2, part, ctl, wait, ks, extra, names, None, ops, env, env2); }
    if Crossing(st, part, true) {
      assert CleanBorder(st, part, true);
      var t := st.trans[0].target;
      assert st.trans == [Transition(True, t)];
      assert t in part;
    } else {
      var k := NextIsTarget(st.trans, s, ops, env);
      if k >= 0 { assert !Crosses(part, true, st.trans[k].target); }
    }
  }

  /** The copy of s goes where s goes. */
  lemma CopyGoes(f: Fsm, g: Fsm, part: seq<StateId>, ctl: Control, ks: Numbers, names: set<string>, ops: Ops,
      s: StateId, env: Env, env2: Env)
    requires s in f.body && CleanPartition(f, part) && FsmWithin(f, names) && Agree(env, env2, names)
    requires NewWorker(f, g, part, ctl, ks) && s in part
    ensures var nx := Next(f, s, ops, env);
      && Next(g, Moved(part, s), ops, env2) == (if nx in part then Moved(part, nx) else IDLE)
      && (Crossing(f.body[s], part, false) ==>
            f.body[s].trans != [] && nx == f.body[s].trans[0].target && nx !in part)
      && (!Crossing(f.body[s], part, false) ==> nx in part)
  {
    hide Resumes, FsmWithin, Guard;
    var st, ts := f.body[s], g.At(Moved(part, s)).trans;
    assert f.At(s) == st;
    assert StateWithin(st, names) by { StateIsWithin(f, names, s); }
    NextAgrees(st.trans, s, ops, env, env2, names);
    if Crossing(st, part, false) {
      assert CleanBorder(st, part, false);
      var t := st.trans[0].target;
      assert st.trans == [Transition(True, t)] && ts == [Transition(True, IDLE)];
    } else {
      RenamedNext(st.trans, ts, part, s, ops, env2);
      var k := NextIsTarget(st.trans, s, ops, env);
      if k >= 0 { assert !Crosses(part, false, st.trans[k].target); }
    }
  }

  lemma StateIsWithin(f: Fsm, names: set<string>, s: StateId)
    requires FsmWithin(f, names) && s in f.body
    ensures StateWithin(f.body[s], names)
  {}

  /** While the new worker runs the partition. */
  lemma HandoverInside(f: Fsm, f2: Fsm, g: Fsm, part: seq<StateId>, ctl: Control, wait: StateId, ks: Numbers,
                       extra: seq<Assignment>, names: set<string>, ops: Ops, s: StateId, env: Env, env2: Env)
    requires f.Closed() && CleanPartition(f, part) && FsmWithin(f, names) && Agree(env, env2, names)
    requires OldWorker(f, f2, part, ctl, wait, ks, extra) && NewWorker(f, g, part, ctl, ks)
    requires s in part && Silent(f, wait, ops, env)
    requires Shows(env2, ctl.finish, ctl.finishSelect, LeaveNumber(f, part, ks, s))
    ensures var nx := Next(f, s, ops, env);
      && Next(f2, wait, ops, env2) == (if nx in part then wait else nx)
      && Next(g, Moved(part, s), ops, env2) == (if nx in part then Moved(part, nx) else IDLE)
  {
    hide FsmWithin, NewWorker, CleanBorder, Shows, Next, Silent;
    var number := LeaveNumber(f, part, ks, s);
    CopyGoes(f, g, part, ctl, ks, names, ops, s, env, env2);
    SilentStays(f, wait, ops, env);
    ResumesAt(f, f2, part, ctl, wait, ks, extra, s);
    WaitGoesOn(f, f2, part, ctl, wait, ks, extra, names, number, ops, env, env2);
  }

  /** WAIT has a transition for the number that s announces. */
  lemma ResumesAt(f: Fsm, f2: Fsm, part: seq<StateId>, ctl: Control, wait: StateId, ks: Numbers,
      extra: seq<Assignment>, s: StateId)
    requires OldWorker(f, f2, part, ctl, wait, ks, extra) && CleanPartition(f, part) && s in part
    ensures var number := LeaveNumber(f, part, ks, s);
      && (number.Some? <==> Crossing(f.body[s], part, false))
      && (number.Some? ==>
            && number.value < |Added(f, f2, wait)| && number.value < Pow2(ctl.finishSelect.width)
            && f.body[s].trans != []
            && Added(f, f2, wait)[number.value].target == Moved(part, f.body[s].trans[0].target))
  {
    hide Added, CanWait;
    assert f.At(s) == f.body[s];
  }

  lemma CoupledHandover(d: Design, d2: Design, w: nat, part: seq<StateId>, ctl: Control, wait: StateId, ks: Numbers,
                        names: set<string>, ops: Ops, c: Config, c2: Config)
    requires Breakable(d, w, part, names) && BreakoutShape(d, d2, w, part, ctl, wait, ks)
    requires |c.at| == |d.workers| && Coupled(d, w, part, ctl, wait, ks, names, c, c2)
    requires c.at[w] in part ==> Silent(d.workers[w], wait, ops, c.env)
    ensures Handover(d, d2, w, part, wait, ops, c, c2)
  {
    var n, f, s := |d.workers|, d.workers[w], c.at[w];
    NextInBody(f, s, ops, c.env);
    if s in part {
      HandoverInside(f, d2.workers[w], d2.workers[n], part, ctl, wait, ks, MainExtra(w, ctl), names, ops, s, c.env,
        c2.env);
    } else {
      HandoverOutside(f, d2.workers[w], d2.workers[n], part, ctl, wait, ks, MainExtra(w, ctl), names, ops, s,
        c2.at[n], c.env, c2.env);
    }
    forall v | 0 <= v < n && v != w
      ensures Next(d.workers[v], c.at[v], ops, c.env) in d.workers[v].body
      ensures Next(d2.workers[v], c2.at[v], ops, c2.env) == Next(d.workers[v], c.at[v], ops, c.env)
    {
      NextInBody(d.workers[v], c.at[v], ops, c.env);
      assert Bystander(d.workers[v], d2.workers[v], MainExtra(v, ctl));
      assert StateWithin(d.workers[v].body[c.at[v]], names);
      NextAgrees(d.workers[v].At(c.at[v]).trans, c.at[v], ops, c.env, c2.env, names);
    }
  }

  // ----- Effects: the signals the design had before -----

  lemma {:induction false} StripAppend(x: seq<Assignment>, y: seq<Assignment>, names: set<string>)
    ensures Strip(x + y, names) == Strip(x, names) + Strip(y, names)
    decreases x
  {
    hide Strip;
    if x == [] {
      assert x + y == y;
      StripNothing(names);
    } else {
      var rest := x[1..];
      StripAppend(rest, y, names);
      assert x == [x[0]] + rest;
      assert x + y == [x[0]] + (rest + y);
      StripFirst(x[0], rest + y, names);
      StripFirst(x[0], rest, names);
    }
  }

  lemma StripNothing(names: set<string>)
    ensures Strip([], names) == []
  {}

  lemma StripFirst(a: Assignment, rest: seq<Assignment>, names: set<string>)
    ensures Strip([a] + rest, names) == if a.target.name in names then [a] + Strip(rest, names) else Strip(rest, names)
  {
    assert ([a] + rest)[1..] == rest;
  }

  lemma {:induction false} StripKeeps(x: seq<Assignment>, names: set<string>)
    requires AssignsWithin(x, names)
    ensures Strip(x, names) == x
    decreases x
  {
    if x != [] { StripKeeps(x[1..], names); }
  }

  lemma {:induction false} StripDrops(x: seq<Assignment>, names: set<string>)
    requires forall i :: 0 <= i < |x| ==> x[i].target.name !in names
    ensures Strip(x, names) == []
    decreases x
  {
    if x != [] { StripDrops(x[1..], names); }
  }

  lemma {:induction false} ApplyStrip(x: seq<Assignment>, names: set<string>, ops: Ops, pre: Env, a1: Env, a2: Env,
      b: Bit)
    requires b.name in names && a1[b] == a2[b]
    ensures Apply(x, ops, pre, a1)[b] == Apply(Strip(x, names), ops, pre, a2)[b]
    decreases x
  {
    if x != [] {
      if x[0].target.name in names {
        assert Strip(x, names)[1..] == Strip(x[1..], names);
        ApplyStrip(x[1..], names, ops, pre, Perform(x[0], ops, pre, a1), Perform(x[0], ops, pre, a2), b);
      } else {
        assert Strip(x, names) == Strip(x[1..], names);
        ApplyStrip(x[1..], names, ops, pre, Perform(x[0], ops, pre, a1), a2, b);
      }
    }
  }

  /** Two lists may be swapped, as far as a bit is concerned, exactly if they do not clash there. */
  lemma SwapExactly(x: seq<Assignment>, y: seq<Assignment>, ops: Ops, pre: Env, acc: Env, b: Bit)
    ensures Apply(x + y, ops, pre, acc)[b] == Apply(y + x, ops, pre, acc)[b] <==> !ClashAt(x, y, b, ops, pre)
  {
    BitAfter(x + y, b, ops, pre, acc);
    BitAfter(y + x, b, ops, pre, acc);
    BitWrittenAppend(x, y, b, ops, pre);
    BitWrittenAppend(y, x, b, ops, pre);
  }

  lemma PadOne(a: seq<Assignment>, a2: seq<Assignment>, ctl: Control, names: set<string>)
    requires AssignsWithin(a, names) && Padded(a, a2, ctl) && ctl.Names() !! names
    ensures Strip(a2, names) == a && OnlyFalse(a2, names)
  {
    StripKeeps(a, names);
    if a2 != a { StripAnnounce(a, ctl.Reset(), names); }
  }

  lemma {:induction false} PaddedEffects(fs: seq<Fsm>, fs2: seq<Fsm>, next: seq<StateId>, ctl: Control,
      names: set<string>)
    requires |fs| == |fs2| == |next| && AllPadded(fs, fs2, next, ctl, names) && ctl.Names() !! names
    ensures Strip(Effects(fs2, next), names) == Effects(fs, next)
    ensures AssignsWithin(Effects(fs, next), names)
    ensures OnlyFalse(Effects(fs2, next), names)
    decreases fs
  {
    if fs != [] {
      PadOne(fs[0].At(next[0]).assigns, fs2[0].At(next[0]).assigns, ctl, names);
      PaddedEffects(fs[1..], fs2[1..], next[1..], ctl, names);
      StripAppend(fs2[0].At(next[0]).assigns, Effects(fs2[1..], next[1..]), names);
    }
  }

  // ----- Effects: the control registers -----

  lemma {:induction false} FalseStays(x: seq<Assignment>, names: set<string>, t: Target, ops: Ops, pre: Env, acc: Env)
    requires OnlyFalse(x, names) && t.name !in names && Low(acc, t)
    ensures Low(Apply(x, ops, pre, acc), t)
    decreases x
  {
    if x != [] {
      var acc1 := Perform(x[0], ops, pre, acc);
      assert Low(acc1, t) by {
        forall b: Bit | t.Covers(b) ensures !acc1[b] {
          if x[0].target.name == t.name && x[0].target.Covers(b) { ZeroBit(b.i - x[0].target.Low()); }
        }
      }
      FalseStays(x[1..], names, t, ops, pre, acc1);
    }
  }

  lemma KeepsShow(env: Env, env2: Env, pulse: Target, select: Target, number: Option<nat>)
    requires Shows(env, pulse, select, number)
    requires forall b: Bit | b.name == pulse.name || b.name == select.name :: env2[b] == env[b]
    ensures Shows(env2, pulse, select, number)
  {
    if number.Some? {
      BitsValueAgrees(env, env2, pulse.name, pulse.Low(), pulse.width);
      BitsValueAgrees(env, env2, select.name, select.Low(), select.width);
    }
  }

  lemma PerformAnnounced(t: Target, e: Expr, ops: Ops, pre: Env, acc: Env)
    ensures Perform(When(t, Case(True, Plain(e), NoDefault)), ops, pre, acc) == Write(acc, t, Eval(e, ops, pre))
    ensures Perform(When(t, NoDefault), ops, pre, acc) == acc
  {
    var sel := Case(True, Plain(e), NoDefault);
    assert EmitChain(sel) == IfElse(True, EmitChoice(Plain(e)), EmitChain(NoDefault));
    assert EmitChoice(Plain(e)) == Assign(e);
    assert Exec(Emit(sel), ops, pre) == Exec(Assign(e), ops, pre);
  }

  lemma ApplyTwo(x: Assignment, y: Assignment, ops: Ops, pre: Env, acc: Env)
    ensures Apply([x, y], ops, pre, acc) == Perform(y, ops, pre, Perform(x, ops, pre, acc))
  {
    assert [x, y][1..] == [y] && [y][1..] == [];
    assert Apply([y], ops, pre, Perform(x, ops, pre, acc)) == Perform(y, ops, pre, Perform(x, ops, pre, acc));
  }

  /** Executing a state's own assignments and then the announcement makes it visible. */
  lemma Announces(own: seq<Assignment>, names: set<string>, pulse: Target, select: Target, number: Option<nat>,
      ops: Ops, pre: Env, acc: Env)
    requires AssignsWithin(own, names) && pulse.name !in names && select.name !in names && pulse.name != select.name
    requires pulse.Whole? && select.Whole? && pulse.width == 1
    requires Low(acc, pulse)
    requires number.Some? ==> number.value < Pow2(select.width)
    ensures Shows(Apply(own + Announce(pulse, select, number), ops, pre, acc), pulse, select, number)
  {
    var mid := Apply(own, ops, pre, acc);
    ApplyAppend(own, Announce(pulse, select, number), ops, pre, acc);
    match number
    case None =>
      AnnouncesNothing(pulse, select, ops, pre, mid);
      forall b: Bit | pulse.Covers(b) ensures !mid[b] { ApplyFrame(own, ops, pre, acc, b); }
    case Some(k) =>
      AnnouncesNumber(pulse, select, k, ops, pre, mid);
  }

  lemma AnnouncesNothing(pulse: Target, select: Target, ops: Ops, pre: Env, mid: Env)
    ensures Apply(Announce(pulse, select, None), ops, pre, mid) == mid
  {
    ApplyTwo(When(pulse, NoDefault), When(select, NoDefault), ops, pre, mid);
    PerformAnnounced(pulse, Const(1), ops, pre, mid);
    PerformAnnounced(select, Const(1), ops, pre, mid);
  }

  lemma AnnouncesNumber(pulse: Target, select: Target, k: nat, ops: Ops, pre: Env, mid: Env)
    requires pulse.Whole? && select.Whole? && pulse.width == 1 && pulse.name != select.name && k < Pow2(select.width)
    ensures Shows(Apply(Announce(pulse, select, Some(k)), ops, pre, mid), pulse, select, Some(k))
  {
    var e1 := Write(mid, pulse, 1);
    var e2 := Write(e1, select, k);
    ApplyTwo(When(pulse, Case(True, Plain(Const(1)), NoDefault)),
      When(select, Case(True, Plain(Const(k)), NoDefault)), ops, pre, mid);
    PerformAnnounced(pulse, Const(1), ops, pre, mid);
    PerformAnnounced(select, Const(k), ops, pre, e1);
    WriteRead(mid, pulse, 1);
    WriteRead(e1, select, k);
    assert Pow2(1) == 2 * Pow2(0) == 2;
    SmallMod(k, Pow2(select.width));
    assert Value(e2, pulse) == Value(e1, pulse) by {
      BitsValueAgrees(e1, e2, pulse.name, pulse.Low(), pulse.width);
    }
  }

  lemma StripAnnounce(own: seq<Assignment>, extra: seq<Assignment>, names: set<string>)
    requires AssignsWithin(own, names)
    requires forall i :: 0 <= i < |extra| ==> extra[i].target.name !in names
    ensures Strip(own + extra, names) == own
  {
    StripAppend(own, extra, names);
    StripKeeps(own, names);
    StripDrops(extra, names);
  }

  lemma StripEdge(e: Edge, names: set<string>, ctl: Control, own: seq<Assignment>, idle: seq<Assignment>)
    requires EdgeOk(e, names, ctl)
    requires Strip(e.own2, names) == own && Strip(e.idle, names) == idle
    ensures Strip(e.All2(), names) == e.before + own + e.after + idle
  {
    StripAppend(e.before2 + e.own2 + e.after, e.idle, names);
    StripAppend(e.before2 + e.own2, e.after, names);
    StripAppend(e.before2, e.own2, names);
    StripKeeps(e.after, names);
  }

  lemma StripOutside(e: Edge, names: set<string>, ctl: Control, number: Option<nat>)
    requires EdgeOk(e, names, ctl) && EdgeOutside(e, ctl, number)
    ensures Strip(e.All2(), names) == e.All1()
  {
    if e.own2 == e.own {
      StripKeeps(e.own, names);
    } else if e.own2 == e.own + ctl.Reset() {
      StripAnnounce(e.own, ctl.Reset(), names);
    } else {
      StripAnnounce(e.own, Announce(ctl.trigger, ctl.triggerSelect, number), names);
    }
    StripDrops(e.idle, names);
    StripEdge(e, names, ctl, e.own, []);
    assert e.before + e.own + e.after + [] == e.All1();
  }

  lemma {:induction false} QuietApplies(x: seq<Assignment>, ops: Ops, pre: Env, acc: Env)
    requires Quiet(x)
    ensures Apply(x, ops, pre, acc) == acc
    decreases x
  {
    if x != [] {
      PerformAnnounced(x[0].target, Const(0), ops, pre, acc);
      QuietApplies(x[1..], ops, pre, acc);
    }
  }

  /** What WAIT executes can be left out. */
  lemma WithoutQuiet(e: Edge, ops: Ops, pre: Env, acc: Env)
    requires Quiet(e.own2)
    ensures Apply(e.All2(), ops, pre, acc) == Apply(e.(own2 := []).All2(), ops, pre, acc)
  {
    ApplyFour(e, ops, pre, acc);
    ApplyFour(e.(own2 := []), ops, pre, acc);
    QuietApplies(e.own2, ops, pre, Apply(e.before2, ops, pre, acc));
  }

  lemma StripInside(e: Edge, names: set<string>, ctl: Control, number: Option<nat>)
    requires EdgeOk(e, names, ctl) && EdgeInside(e, ctl, number) && e.own2 == []
    ensures Strip(e.All2(), names) == e.before + (e.after + e.own)
  {
    StripAnnounce(e.own, Announce(ctl.finish, ctl.finishSelect, number), names);
    StripEdge(e, names, ctl, [], e.own);
    assert e.before + [] + e.after + e.own == e.before + (e.after + e.own);
  }

  lemma SwapOwn(e: Edge, ops: Ops, pre: Env, acc: Env, b: Bit)
    ensures Apply(e.All1(), ops, pre, acc)[b] == Apply(e.before + (e.after + e.own), ops, pre, acc)[b]
       <==> !ClashAt(e.own, e.after, b, ops, pre)
  {
    assert e.All1() == e.before + (e.own + e.after);
    ApplyAppend(e.before, e.own + e.after, ops, pre, acc);
    ApplyAppend(e.before, e.after + e.own, ops, pre, acc);
    SwapExactly(e.own, e.after, ops, pre, Apply(e.before, ops, pre, acc), b);
  }

  lemma OutsideSignals(e: Edge, names: set<string>, ctl: Control, number: Option<nat>, ops: Ops, p1: Env, p2: Env,
      a1: Env, a2: Env, b: Bit)
    requires EdgeOk(e, names, ctl) && EdgeOutside(e, ctl, number)
    requires Agree(p1, p2, names) && b.name in names && a1[b] == a2[b]
    ensures Apply(e.All1(), ops, p1, a1)[b] == Apply(e.All2(), ops, p2, a2)[b]
  {
    ApplyAgrees(e.All1(), ops, p1, p2, a1, a2, names, b);
    ApplyStrip(e.All2(), names, ops, p2, a2, a2, b);
    StripOutside(e, names, ctl, number);
  }

  /** The moved state's assignments are now executed after those of the later workers. */
  lemma InsideSignals(e: Edge, names: set<string>, ctl: Control, number: Option<nat>, ops: Ops, p1: Env, p2: Env,
      a1: Env, a2: Env, b: Bit)
    requires EdgeOk(e, names, ctl) && EdgeInside(e, ctl, number)
    requires Agree(p1, p2, names) && b.name in names && a1[b] == a2[b]
    ensures Apply(e.All1(), ops, p1, a1)[b] == Apply(e.All2(), ops, p2, a2)[b] <==> !ClashAt(e.own, e.after, b, ops, p1)
  {
    var e2 := e.(own2 := []);
    WithoutQuiet(e, ops, p2, a2);
    ApplyStrip(e2.All2(), names, ops, p2, a2, a2, b);
    StripInside(e2, names, ctl, number);
    ApplyAgrees(e.before + (e.after + e.own), ops, p1, p2, a1, a2, names, b);
    SwapOwn(e, ops, p1, a1, b);
  }

  lemma ApplyFour(e: Edge, ops: Ops, pre: Env, acc: Env)
    ensures Apply(e.All2(), ops, pre, acc)
         == Apply(e.idle, ops, pre, Apply(e.after, ops, pre, Apply(e.own2, ops, pre, Apply(e.before2, ops, pre, acc))))
  {
    ApplyAppend(e.before2 + e.own2 + e.after, e.idle, ops, pre, acc);
    ApplyAppend(e.before2 + e.own2, e.after, ops, pre, acc);
    ApplyAppend(e.before2, e.own2, ops, pre, acc);
  }

  /** The old worker's assignments outside the partition, from a low TRIGGER. */
  lemma TriggerShown(e: Edge, names: set<string>, ctl: Control, number: Option<nat>, ops: Ops, pre: Env, acc: Env)
    requires EdgeOk(e, names, ctl) && EdgeOutside(e, ctl, number)
    requires Low(acc, ctl.trigger)
    requires number.Some? ==> number.value < Pow2(ctl.triggerSelect.width)
    ensures Shows(Apply(e.own2, ops, pre, acc), ctl.trigger, ctl.triggerSelect, number)
  {
    if e.own2 == e.own + Announce(ctl.trigger, ctl.triggerSelect, number) {
      Announces(e.own, names, ctl.trigger, ctl.triggerSelect, number, ops, pre, acc);
    } else {
      FalseStays(e.own2, names, ctl.trigger, ops, pre, acc);
    }
  }

  lemma TriggerOutside(e: Edge, names: set<string>, ctl: Control, number: Option<nat>, ops: Ops, pre: Env, acc: Env)
    requires EdgeOk(e, names, ctl) && EdgeOutside(e, ctl, number)
    requires Low(acc, ctl.trigger)
    requires number.Some? ==> number.value < Pow2(ctl.triggerSelect.width)
    ensures Shows(Apply(e.All2(), ops, pre, acc), ctl.trigger, ctl.triggerSelect, number)
    ensures Low(Apply(e.All2(), ops, pre, acc), ctl.finish)
  {
    var e1 := Apply(e.before2, ops, pre, acc);
    var e2 := Apply(e.own2, ops, pre, e1);
    var e3 := Apply(e.after, ops, pre, e2);
    ApplyFour(e, ops, pre, acc);
    FalseStays(e.before2, names, ctl.trigger, ops, pre, acc);
    TriggerShown(e, names, ctl, number, ops, pre, e1);
    forall b: Bit | b.name == ctl.trigger.name || b.name == ctl.triggerSelect.name
      ensures e3[b] == e2[b]
    {
      ApplyFrame(e.after, ops, pre, e2, b);
    }
    KeepsShow(e2, Apply(e.idle, ops, pre, e3), ctl.trigger, ctl.triggerSelect, number);
  }

  lemma FinishInside(e: Edge, names: set<string>, ctl: Control, number: Option<nat>, ops: Ops, pre: Env, acc: Env)
    requires EdgeOk(e, names, ctl) && EdgeInside(e, ctl, number)
    requires Low(acc, ctl.finish)
    requires number.Some? ==> number.value < Pow2(ctl.finishSelect.width)
    ensures Shows(Apply(e.All2(), ops, pre, acc), ctl.finish, ctl.finishSelect, number)
  {
    var e1 := Apply(e.before2, ops, pre, acc);
    var e2 := Apply(e.own2, ops, pre, e1);
    var e3 := Apply(e.after, ops, pre, e2);
    ApplyFour(e, ops, pre, acc);
    FalseStays(e.before2, names, ctl.finish, ops, pre, acc);
    forall b: Bit | ctl.finish.Covers(b) ensures !e3[b] {
      QuietApplies(e.own2, ops, pre, e1);
      ApplyFrame(e.after, ops, pre, e2, b);
    }
    Announces(e.own, names, ctl.finish, ctl.finishSelect, number, ops, pre, e3);
  }

  lemma BystanderPads(f: Fsm, f2: Fsm, v: int, ctl: Control, s: StateId)
    requires Bystander(f, f2, MainExtra(v, ctl))
    ensures Padded(f.At(s).assigns, f2.At(s).assigns, ctl)
    ensures v != 0 ==> f2.At(s).assigns == f.At(s).assigns
  {
    assert f.At(s).assigns + [] == f.At(s).assigns;
  }

  lemma OwnWithin(d: Design, names: set<string>, next: seq<StateId>, v: nat)
    requires v < |d.workers| == |next| && FsmWithin(d.workers[v], names) && next[v] in d.workers[v].body
    ensures AssignsWithin(d.workers[v].At(next[v]).assigns, names)
  {
    assert StateWithin(d.workers[v].body[next[v]], names);
  }

  lemma EarlierEffects(d: Design, d2: Design, w: nat, ctl: Control, names: set<string>, next: seq<StateId>)
    requires w < |d.workers| == |next| && |d2.workers| > w && ctl.Names() !! names
    requires forall v :: 0 <= v < |d.workers| ==> FsmWithin(d.workers[v], names) && next[v] in d.workers[v].body
    requires forall v :: 0 <= v < w ==> Bystander(d.workers[v], d2.workers[v], MainExtra(v, ctl))
    ensures Strip(Effects(d2.workers[..w], next[..w]), names) == Effects(d.workers[..w], next[..w])
    ensures AssignsWithin(Effects(d.workers[..w], next[..w]), names)
    ensures OnlyFalse(Effects(d2.workers[..w], next[..w]), names)
  {
    var fs, fs2, nx := d.workers[..w], d2.workers[..w], next[..w];
    forall v | 0 <= v < w
      ensures AssignsWithin(fs[v].At(nx[v]).assigns, names)
      ensures Padded(fs[v].At(nx[v]).assigns, fs2[v].At(nx[v]).assigns, ctl)
    {
      OwnWithin(d, names, next, v);
      BystanderPads(d.workers[v], d2.workers[v], v, ctl, next[v]);
    }
    PaddedEffects(fs, fs2, nx, ctl, names);
  }

  lemma LaterEffects(d: Design, d2: Design, w: nat, ctl: Control, names: set<string>, next: seq<StateId>,
      next2: seq<StateId>)
    requires w < |d.workers| == |next| && |d2.workers| == |next2| == |d.workers| + 1 && ctl.Names() !! names
    requires forall v :: 0 <= v < |d.workers| ==> FsmWithin(d.workers[v], names) && next[v] in d.workers[v].body
    requires forall v ::
      w < v < |d.workers| ==> Bystander(d.workers[v], d2.workers[v], MainExtra(v, ctl)) && next2[v] == next[v]
    ensures var n := |d.workers|;
      Effects(d2.workers[w + 1..], next2[w + 1..]) ==
        Effects(d.workers[w + 1..], next[w + 1..]) + d2.workers[n].At(next2[n]).assigns
    ensures AssignsWithin(Effects(d.workers[w + 1..], next[w + 1..]), names)
  {
    hide FsmWithin, Bystander;
    var n := |d.workers|;
    var fs, nx := d.workers[w + 1..], next[w + 1..];
    var rest := d2.workers[w + 1..n];
    assert d2.workers[w + 1..] == rest + [d2.workers[n]];
    assert next2[w + 1..] == nx + [next2[n]];
    EffectsAppend(rest, nx, [d2.workers[n]], [next2[n]]);
    forall v | 0 <= v < |rest|
      ensures rest[v].At(nx[v]).assigns == fs[v].At(nx[v]).assigns
      ensures AssignsWithin(fs[v].At(nx[v]).assigns, names)
    {
      OwnWithin(d, names, next, w + 1 + v);
      BystanderPads(d.workers[w + 1 + v], d2.workers[w + 1 + v], w + 1 + v, ctl, nx[v]);
    }
    SameEffects(fs, rest, nx);
    PaddedEffects(fs, fs, nx, ctl, names);
  }

  lemma EdgeIsEffects(d: Design, d2: Design, w: nat, part: seq<StateId>, ctl: Control, wait: StateId, ks: Numbers,
                      names: set<string>, next: seq<StateId>, next2: seq<StateId>)
    requires Breakable(d, w, part, names) && BreakoutShape(d, d2, w, part, ctl, wait, ks)
    requires ctl.Valid() && ctl.Names() !! names
    requires |next| == |d.workers| && |next2| == |d.workers| + 1
    requires forall v :: 0 <= v < |d.workers| ==> next[v] in d.workers[v].body
    requires forall v :: 0 <= v < |d.workers| && v != w ==> next2[v] == next[v]
    ensures var e := EdgeOf(d, d2, w, next, next2);
      && EdgeOk(e, names, ctl)
      && Effects(d.workers, next) == e.All1() && Effects(d2.workers, next2) == e.All2()
  {
    assert next2[..w] == next[..w];
    OwnWithin(d, names, next, w);
    EarlierEffects(d, d2, w, ctl, names, next);
    LaterEffects(d, d2, w, ctl, names, next, next2);
    JoinEdge(d, d2, w, next, next2);
  }

  lemma JoinEdge(d: Design, d2: Design, w: nat, next: seq<StateId>, next2: seq<StateId>)
    requires w < |d.workers| == |next| && |d2.workers| == |next2| == |d.workers| + 1
    requires next2[..w] == next[..w]
    requires var n := |d.workers|;
      Effects(d2.workers[w + 1..], next2[w + 1..]) ==
        Effects(d.workers[w + 1..], next[w + 1..]) + d2.workers[n].At(next2[n]).assigns
    ensures var e := EdgeOf(d, d2, w, next, next2);
      Effects(d.workers, next) == e.All1() && Effects(d2.workers, next2) == e.All2()
  {
    var e := EdgeOf(d, d2, w, next, next2);
    SplitEffects(d.workers, next, w);
    SplitEffects(d2.workers, next2, w);
    assert e.before2 + e.own2 + (e.after + e.idle) == e.All2();
  }

  lemma InsideEdge(d: Design, d2: Design, w: nat, part: seq<StateId>, ctl: Control, wait: StateId, ks: Numbers,
                   names: set<string>, next: seq<StateId>, next2: seq<StateId>)
    requires Breakable(d, w, part, names) && BreakoutShape(d, d2, w, part, ctl, wait, ks)
    requires |next| == |d.workers| && |next2| == |d.workers| + 1
    requires forall v :: 0 <= v < |d.workers| ==> next[v] in d.workers[v].body
    requires next[w] in part && next2[w] == wait && next2[|d.workers|] == Moved(part, next[w])
    ensures EdgeInside(EdgeOf(d, d2, w, next, next2), ctl, LeaveNumber(d.workers[w], part, ks, next[w]))
  {
    hide OldWorker, NewWorker, Bystander, CleanPartition, FsmWithin, Quiet, Announce, LeaveNumber, Effects;
    WaitQuiet(d.workers[w], d2.workers[w], part, ctl, wait, ks, MainExtra(w, ctl));
    CopyAssigns(d.workers[w], d2.workers[|d.workers|], part, ctl, ks, next[w]);
  }

  lemma CopyAssigns(f: Fsm, g: Fsm, part: seq<StateId>, ctl: Control, ks: Numbers, s: StateId)
    requires NewWorker(f, g, part, ctl, ks) && s in part
    ensures g.At(Moved(part, s)).assigns ==
            f.At(s).assigns + Announce(ctl.finish, ctl.finishSelect, LeaveNumber(f, part, ks, s))
  {}

  /** An exit state leaves in the cycle after it was entered. */
  lemma ExitLeaves(f: Fsm, part: seq<StateId>, s: StateId, ops: Ops, env: Env)
    requires CleanPartition(f, part)
    ensures s in part && Crossing(f.At(s), part, false) ==> Next(f, s, ops, env) !in part
  {
    if s in part && Crossing(f.At(s), part, false) {
      assert CleanBorder(f.At(s), part, false);
      var t := f.At(s).trans[0].target;
      assert f.At(s).trans == [Transition(True, t)];
    }
  }

  lemma NumbersFit(f: Fsm, part: seq<StateId>, ks: Numbers, list: seq<Transition>, pulse: Target, select: Target,
      inward: bool, s: StateId)
    requires Resumes(list, pulse, select, f, part, inward, if inward then ks.enter else ks.leave)
    requires s in f.body && (s in part) != inward
    ensures inward && EnterNumber(f, part, ks, s).Some? ==> EnterNumber(f, part, ks, s).value < Pow2(select.width)
    ensures !inward && LeaveNumber(f, part, ks, s).Some? ==> LeaveNumber(f, part, ks, s).value < Pow2(select.width)
  {}

  /** Registers after one edge that leaves the old worker outside the partition. */
  lemma EdgeStaysOutside(d: Design, d2: Design, w: nat, part: seq<StateId>, ctl: Control, wait: StateId, ks: Numbers,
                         names: set<string>, next: seq<StateId>, next2: seq<StateId>, ops: Ops, pre: Env, pre2: Env)
    requires Surgery(d, d2, w, part, ctl, wait, ks, names) && Agree(pre, pre2, names)
    requires |next| == |d.workers| && |next2| == |d.workers| + 1
    requires forall v :: 0 <= v < |d.workers| ==> next[v] in d.workers[v].body
    requires forall v :: 0 <= v < |d.workers| && v != w ==> next2[v] == next[v]
    requires next[w] !in part && next2[w] == next[w] && next2[|d.workers|] == IDLE
    ensures var r2 := Apply(Effects(d2.workers, next2), ops, pre2, ClearPulsing(d2.pulsing, pre2));
      && Agree(Apply(Effects(d.workers, next), ops, pre, ClearPulsing(d.pulsing, pre)), r2, names)
      && Shows(r2, ctl.trigger, ctl.triggerSelect, EnterNumber(d.workers[w], part, ks, next[w])) && Low(r2, ctl.finish)
  {
    var acc, acc2 := ClearPulsing(d.pulsing, pre), ClearPulsing(d2.pulsing, pre2);
    var e := EdgeOf(d, d2, w, next, next2);
    var number := EnterNumber(d.workers[w], part, ks, next[w]);
    EdgeIsEffects(d, d2, w, part, ctl, wait, ks, names, next, next2);
    NumbersFit(d.workers[w], part, ks, d2.workers[|d.workers|].At(IDLE).trans, ctl.trigger, ctl.triggerSelect, true,
      next[w]);
    TriggerOutside(e, names, ctl, number, ops, pre2, acc2);
    OutsideAgrees(e, names, ctl, number, ops, pre, pre2, acc, acc2);
  }

  /** Registers after one edge that enters the partition or stays in it. */
  lemma EdgeGoesInside(d: Design, d2: Design, w: nat, part: seq<StateId>, ctl: Control, wait: StateId, ks: Numbers,
                       names: set<string>, next: seq<StateId>, next2: seq<StateId>, ops: Ops, pre: Env, pre2: Env)
    requires Surgery(d, d2, w, part, ctl, wait, ks, names) && Agree(pre, pre2, names)
    requires |next| == |d.workers| && |next2| == |d.workers| + 1
    requires forall v :: 0 <= v < |d.workers| ==> next[v] in d.workers[v].body
    requires forall v :: 0 <= v < |d.workers| && v != w ==> next2[v] == next[v]
    requires next[w] in part && next2[w] == wait && next2[|d.workers|] == Moved(part, next[w])
    requires Low(pre2, ctl.finish)
    ensures var r2 := Apply(Effects(d2.workers, next2), ops, pre2, ClearPulsing(d2.pulsing, pre2));
      && (Agree(Apply(Effects(d.workers, next), ops, pre, ClearPulsing(d.pulsing, pre)), r2, names - d.inputs)
          <==> NoClash(d.workers[w].At(next[w]).assigns, Effects(d.workers[w + 1..], next[w + 1..]), d.inputs, ops,
                 pre))
      && Shows(r2, ctl.finish, ctl.finishSelect, LeaveNumber(d.workers[w], part, ks, next[w]))
  {
    hide OldWorker, NewWorker, Bystander, FsmWithin, CleanPartition, NoClash, Apply, Effects, Announce, EdgeInside,
      LeaveNumber, EdgeOk;
    var acc, acc2 := ClearPulsing(d.pulsing, pre), ClearPulsing(d2.pulsing, pre2);
    var e := EdgeOf(d, d2, w, next, next2);
    var number := LeaveNumber(d.workers[w], part, ks, next[w]);
    EdgeIsEffects(d, d2, w, part, ctl, wait, ks, names, next, next2);
    InsideEdge(d, d2, w, part, ctl, wait, ks, names, next, next2);
    ResumesAt(d.workers[w], d2.workers[w], part, ctl, wait, ks, MainExtra(w, ctl), next[w]);
    FinishInside(e, names, ctl, number, ops, pre2, acc2);
    InsideAgrees(e, names, ctl, number, d.inputs, ops, pre, pre2, acc, acc2);
  }

  lemma OutsideAgrees(e: Edge, names: set<string>, ctl: Control, number: Option<nat>, ops: Ops, p1: Env, p2: Env,
      a1: Env, a2: Env)
    requires EdgeOk(e, names, ctl) && EdgeOutside(e, ctl, number)
    requires Agree(p1, p2, names) && Agree(a1, a2, names)
    ensures Agree(Apply(e.All1(), ops, p1, a1), Apply(e.All2(), ops, p2, a2), names)
  {
    forall b: Bit | b.name in names
      ensures Apply(e.All1(), ops, p1, a1)[b] == Apply(e.All2(), ops, p2, a2)[b]
    {
      OutsideSignals(e, names, ctl, number, ops, p1, p2, a1, a2, b);
    }
  }

  lemma InsideAgrees(e: Edge, names: set<string>, ctl: Control, number: Option<nat>, inputs: set<string>, ops: Ops,
      p1: Env, p2: Env, a1: Env, a2: Env)
    requires EdgeOk(e, names, ctl) && EdgeInside(e, ctl, number)
    requires Agree(p1, p2, names) && Agree(a1, a2, names)
    ensures Agree(Apply(e.All1(), ops, p1, a1), Apply(e.All2(), ops, p2, a2), names - inputs)
       <==> NoClash(e.own, e.after, inputs, ops, p1)
  {
    hide ClashAt, Apply;
    var r1, r2 := Apply(e.All1(), ops, p1, a1), Apply(e.All2(), ops, p2, a2);
    forall b: Bit | b.name in names ensures r1[b] == r2[b] <==> !ClashAt(e.own, e.after, b, ops, p1) {
      InsideSignals(e, names, ctl, number, ops, p1, p2, a1, a2, b);
    }
    forall b: Bit {:trigger ClashAt(e.own, e.after, b, ops, p1)} | b.name !in names
      ensures !ClashAt(e.own, e.after, b, ops, p1)
    {
      Unwritten(e.own, names, b, ops, p1);
      NoClashThere(e.own, e.after, b, ops, p1);
    }
  }

  /** A signal the list does not know is not written. */
  lemma Unwritten(x: seq<Assignment>, names: set<string>, b: Bit, ops: Ops, pre: Env)
    requires AssignsWithin(x, names) && b.name !in names
    ensures BitWritten(x, b, ops, pre).None?
  {
    if BitWritten(x, b, ops, pre).Some? { BitCovered(x, b, ops, pre); }
  }

  lemma NoClashThere(x: seq<Assignment>, y: seq<Assignment>, b: Bit, ops: Ops, pre: Env)
    requires BitWritten(x, b, ops, pre).None? || BitWritten(y, b, ops, pre).None?
    ensures !ClashAt(x, y, b, ops, pre)
  {}

  lemma SampleKeepsShow(inputs: set<string>, r: Env, outside: Env, pulse: Target, select: Target, number: Option<nat>)
    requires pulse.name !in inputs && select.name !in inputs && Shows(r, pulse, select, number)
    ensures Shows(Sample(inputs, r, outside), pulse, select, number)
  {
    KeepsShow(r, Sample(inputs, r, outside), pulse, select, number);
  }

  /** The environments after a cycle that ends outside the partition. */
  lemma StepEnvOutside(d: Design, d2: Design, w: nat, part: seq<StateId>, ctl: Control, wait: StateId, ks: Numbers,
                       names: set<string>, ops: Ops, c: Config, c2: Config, outside: Env)
    requires Surgery(d, d2, w, part, ctl, wait, ks, names)
    requires |c.at| == |d.workers| && |c2.at| == |d.workers| + 1 && Agree(c.env, c2.env, names)
    requires Handover(d, d2, w, part, wait, ops, c, c2)
    requires Next(d.workers[w], c.at[w], ops, c.env) !in part
    ensures var nx, e, e2 := Next(d.workers[w], c.at[w], ops, c.env), Step(d, c, ops, outside).env,
      Step(d2, c2, ops, outside).env;
      && Agree(e, e2, names) && Low(e2, ctl.finish)
      && Shows(e2, ctl.trigger, ctl.triggerSelect, EnterNumber(d.workers[w], part, ks, nx))
  {
    hide OldWorker, NewWorker, Bystander, CleanPartition, FsmWithin;
    var next, next2 := NextStates(d.workers, c.at, ops, c.env), NextStates(d2.workers, c2.at, ops, c2.env);
    var r2 := Apply(Effects(d2.workers, next2), ops, c2.env, ClearPulsing(d2.pulsing, c2.env));
    EdgeStaysOutside(d, d2, w, part, ctl, wait, ks, names, next, next2, ops, c.env, c2.env);
    SampleKeepsShow(d.inputs, r2, outside, ctl.trigger, ctl.triggerSelect,
      EnterNumber(d.workers[w], part, ks, next[w]));
    SampleKeepsShow(d.inputs, r2, outside, ctl.finish, ctl.finishSelect, None);
  }

  /** The environments after a cycle that ends inside the partition. */
  lemma StepEnvInside(d: Design, d2: Design, w: nat, part: seq<StateId>, ctl: Control, wait: StateId, ks: Numbers,
                      names: set<string>, ops: Ops, c: Config, c2: Config, outside: Env)
    requires Surgery(d, d2, w, part, ctl, wait, ks, names)
    requires |c.at| == |d.workers| && |c2.at| == |d.workers| + 1 && Agree(c.env, c2.env, names)
    requires Handover(d, d2, w, part, wait, ops, c, c2)
    requires Next(d.workers[w], c.at[w], ops, c.env) in part && Low(c2.env, ctl.finish)
    ensures var nx, e, e2 := Next(d.workers[w], c.at[w], ops, c.env), Step(d, c, ops, outside).env,
      Step(d2, c2, ops, outside).env;
      && (Agree(e, e2, names) <==> ClashFree(d, w, StatesOf(part), ops, c))
      && Shows(e2, ctl.finish, ctl.finishSelect, LeaveNumber(d.workers[w], part, ks, nx))
  {
    hide OldWorker, NewWorker, Bystander, CleanPartition, FsmWithin, NoClash, Apply, Effects, Sample, Shows, Low,
      LeaveNumber, Next;
    var next, next2 := NextStates(d.workers, c.at, ops, c.env), NextStates(d2.workers, c2.at, ops, c2.env);
    var r := Apply(Effects(d.workers, next), ops, c.env, ClearPulsing(d.pulsing, c.env));
    var r2 := Apply(Effects(d2.workers, next2), ops, c2.env, ClearPulsing(d2.pulsing, c2.env));
    EdgeGoesInside(d, d2, w, part, ctl, wait, ks, names, next, next2, ops, c.env, c2.env);
    SampleAgrees(d.inputs, names, r, r2, outside);
    SampleKeepsShow(d.inputs, r2, outside, ctl.finish, ctl.finishSelect, LeaveNumber(d.workers[w], part, ks, next[w]));
  }

  lemma SampleAgrees(inputs: set<string>, names: set<string>, r: Env, r2: Env, outside: Env)
    ensures Agree(Sample(inputs, r, outside), Sample(inputs, r2, outside), names) <==> Agree(r, r2, names - inputs)
  {
    forall b: Bit ensures Sample(inputs, r, outside)[b] == if b.name in inputs then outside[b] else r[b] {}
    forall b: Bit ensures Sample(inputs, r2, outside)[b] == if b.name in inputs then outside[b] else r2[b] {}
  }

  /** The states after one cycle; a synchronous reset meets both designs alike. */
  lemma StepAt(d: Design, d2: Design, w: nat, part: seq<StateId>, ctl: Control, wait: StateId, ks: Numbers,
               names: set<string>, ops: Ops, c: Config, c2: Config, outside: Env)
    requires Surgery(d, d2, w, part, ctl, wait, ks, names)
    requires |c.at| == |d.workers| && Coupled(d, w, part, ctl, wait, ks, names, c, c2)
    requires Handover(d, d2, w, part, wait, ops, c, c2)
    ensures var n, nx, at, at2 := |d.workers|, Next(d.workers[w], c.at[w], ops, c.env), Step(d, c, ops, outside).at,
      Step(d2, c2, ops, outside).at;
      && at[w] == (if Holds(d.workers[w].syncReset, ops, c.env) then d.workers[w].reset else nx)
      && at2[w] == (if Holds(d.workers[w].syncReset, ops, c.env) then d.workers[w].reset
                    else if nx in part then wait else nx)
      && at2[n] == (if nx in part then Moved(part, nx) else IDLE)
      && forall v :: 0 <= v < n && v != w ==> at[v] in d.workers[v].body && at2[v] == at[v]
  {
    hide CleanPartition, Resumes, Announce, EnterNumber, LeaveNumber, Shows, Apply, Effects, Moved;
    var after, after2 := Step(d, c, ops, outside), Step(d2, c2, ops, outside);
    forall v | 0 <= v < |d.workers| && v != w
      ensures after.at[v] in d.workers[v].body && after2.at[v] == after.at[v]
    {
      assert FsmWithin(d.workers[v], names) && Bystander(d.workers[v], d2.workers[v], MainExtra(v, ctl));
      EvalAgrees(d.workers[v].syncReset, ops, c.env, c2.env);
    }
    assert FsmWithin(d.workers[w], names);
    EvalAgrees(d.workers[w].syncReset, ops, c.env, c2.env);
    assert !Holds(False, ops, c2.env);
  }

  /** Neither a state that does not lead into the partition nor WAIT announces an entry. */
  lemma NotEntered(f: Fsm, part: seq<StateId>, wait: StateId, ks: Numbers, ops: Ops, s: StateId, env: Env)
    requires CleanPartition(f, part) && CanWait(f, part, wait)
    ensures var nx := Next(f, s, ops, env);
      nx == wait || !LeadsInto(f.At(nx), StatesOf(part)) ==> EnterNumber(f, part, ks, nx).None?
    ensures EnterNumber(f, part, ks, f.reset).None?
  {
    var nx := Next(f, s, ops, env);
    if Crossing(f.At(nx), part, true) {
      var i :| 0 <= i < |f.At(nx).trans| && Crosses(part, true, f.At(nx).trans[i].target);
      assert LeadsInto(f.At(nx), StatesOf(part));
    }
  }

  /** One cycle keeps the two designs coupled. */
  lemma StepCoupled(d: Design, d2: Design, w: nat, part: seq<StateId>, ctl: Control, wait: StateId, ks: Numbers,
                    names: set<string>, ops: Ops, c: Config, c2: Config, outside: Env)
    requires Surgery(d, d2, w, part, ctl, wait, ks, names)
    requires |c.at| == |d.workers| && Coupled(d, w, part, ctl, wait, ks, names, c, c2)
    requires c.at[w] in part ==> Silent(d.workers[w], wait, ops, c.env)
    requires ClashFree(d, w, StatesOf(part), ops, c) && OnItsWay(d, w, wait, StatesOf(part), ops, c)
    ensures Coupled(d, w, part, ctl, wait, ks, names, Step(d, c, ops, outside), Step(d2, c2, ops, outside))
  {
    CoupledHandover(d, d2, w, part, ctl, wait, ks, names, ops, c, c2);
    if Next(d.workers[w], c.at[w], ops, c.env) in part {
      ExitLeaves(d.workers[w], part, c.at[w], ops, c.env);
      StepEnvInside(d, d2, w, part, ctl, wait, ks, names, ops, c, c2, outside);
    } else {
      StepEnvOutside(d, d2, w, part, ctl, wait, ks, names, ops, c, c2, outside);
      if Holds(d.workers[w].syncReset, ops, c.env) { NotEntered(d.workers[w], part, wait, ks, ops, c.at[w], c.env); }
    }
    StepAt(d, d2, w, part, ctl, wait, ks, names, ops, c, c2, outside);
  }

  lemma MainReset(d: Design, d2: Design, w: nat, part: seq<StateId>, ctl: Control, wait: StateId, ks: Numbers)
    requires w < |d.workers| && BreakoutShape(d, d2, w, part, ctl, wait, ks)
    ensures var main, main2 := d.workers[0], d2.workers[0];
      main2.reset == main.reset && main2.At(main.reset).assigns == main.At(main.reset).assigns + ctl.Reset()
  {
    if w != 0 { assert Bystander(d.workers[0], d2.workers[0], MainExtra(0, ctl)); }
  }

  lemma ResetRegisters(own: seq<Assignment>, ctl: Control, names: set<string>, ops: Ops, powerUp: Env)
    requires ctl.Valid() && ctl.Names() !! names
    ensures var r, r2 := Apply(own, ops, powerUp, powerUp), Apply(own + ctl.Reset(), ops, powerUp, powerUp);
      Agree(r, r2, names) && Low(r2, ctl.trigger) && Low(r2, ctl.finish)
  {
    var mid := Apply(own, ops, powerUp, powerUp);
    ApplyAppend(own, ctl.Reset(), ops, powerUp, powerUp);
    forall b: Bit | b.name in names ensures mid[b] == Apply(ctl.Reset(), ops, powerUp, mid)[b] {
      ApplyFrame(ctl.Reset(), ops, powerUp, mid, b);
    }
    ResetLow(ctl, ops, powerUp, mid);
  }

  lemma InitialRegisters(d: Design, d2: Design, w: nat, part: seq<StateId>, ctl: Control, wait: StateId, ks: Numbers,
                         names: set<string>, ops: Ops, powerUp: Env, outside: Env)
    requires Surgery(d, d2, w, part, ctl, wait, ks, names)
    ensures var c, c2 := Initial(d, ops, powerUp, outside), Initial(d2, ops, powerUp, outside);
      Agree(c.env, c2.env, names) && Low(c2.env, ctl.trigger) && Low(c2.env, ctl.finish)
  {
    hide OldWorker, NewWorker, Bystander, CleanPartition, Apply;
    MainReset(d, d2, w, part, ctl, wait, ks);
    ResetRegisters(d.workers[0].At(d.workers[0].reset).assigns, ctl, names, ops, powerUp);
  }

  lemma InitialCoupled(d: Design, d2: Design, w: nat, part: seq<StateId>, ctl: Control, wait: StateId, ks: Numbers,
                       names: set<string>, ops: Ops, powerUp: Env, outside: Env)
    requires Surgery(d, d2, w, part, ctl, wait, ks, names)
    ensures Coupled(d, w, part, ctl, wait, ks, names, Initial(d, ops, powerUp, outside),
      Initial(d2, ops, powerUp, outside))
  {
    var c, c2 := Initial(d, ops, powerUp, outside), Initial(d2, ops, powerUp, outside);
    InitialRegisters(d, d2, w, part, ctl, wait, ks, names, ops, powerUp, outside);
    forall v | 0 <= v < |d.workers| && v != w ensures c2.at[v] == c.at[v] {
      assert Bystander(d.workers[v], d2.workers[v], MainExtra(v, ctl));
    }
  }

  lemma ResetLow(ctl: Control, ops: Ops, pre: Env, acc: Env)
    requires ctl.Valid()
    ensures Low(Apply(ctl.Reset(), ops, pre, acc), ctl.trigger)
    ensures Low(Apply(ctl.Reset(), ops, pre, acc), ctl.finish)
  {
    var x := ctl.Reset();
    var e1 := Perform(x[0], ops, pre, acc);
    var e2 := Perform(x[1], ops, pre, e1);
    assert x[1..][1..] == x[2..];
    assert Apply(x, ops, pre, acc) == Apply(x[1..], ops, pre, e1) == Apply(x[2..], ops, pre, e2);
    forall b: Bit | ctl.trigger.Covers(b) ensures !e1[b] { ZeroBit(b.i - ctl.trigger.Low()); }
    forall b: Bit | ctl.finish.Covers(b) ensures !e2[b] { ZeroBit(b.i - ctl.finish.Low()); }
    FalseStays(x[2..], {}, ctl.trigger, ops, pre, e2);
    FalseStays(x[2..], {}, ctl.finish, ops, pre, e2);
  }

  /** In cycle n the worker is in WAIT, or WAIT would not leave. */
  ghost predicate SilentIn(d: Design, w: nat, wait: StateId, ops: Ops, powerUp: Env, outside: nat -> Env, n: nat)
    requires w < |d.workers|
  {
    var c := Run(d, ops, powerUp, outside, n);
    c.at[w] != wait ==> Silent(d.workers[w], wait, ops, c.env)
  }

  /** ... in every cycle. Without a WAIT state there is nothing to leave. */
  ghost predicate AlwaysSilent(d: Design, w: nat, wait: StateId, ops: Ops, powerUp: Env, outside: nat -> Env)
    requires w < |d.workers|
  {
    forall n: nat :: SilentIn(d, w, wait, ops, powerUp, outside, n)
  }

  ghost predicate OnItsWayIn(d: Design, w: nat, wait: StateId, moved: set<StateId>, ops: Ops, powerUp: Env,
      outside: nat -> Env, n: nat)
    requires w < |d.workers|
  {
    OnItsWay(d, w, wait, moved, ops, Run(d, ops, powerUp, outside, n))
  }

  /** In no run is the worker cut short by a synchronous reset. */
  ghost predicate AlwaysOnItsWay(d: Design, w: nat, wait: StateId, moved: set<StateId>, ops: Ops, powerUp: Env,
      outside: nat -> Env)
    requires w < |d.workers|
  {
    forall n: nat :: OnItsWayIn(d, w, wait, moved, ops, powerUp, outside, n)
  }

  ghost predicate ClashFreeIn(d: Design, w: nat, moved: set<StateId>, ops: Ops, powerUp: Env, outside: nat -> Env,
      n: nat)
    requires w < |d.workers|
  {
    ClashFree(d, w, moved, ops, Run(d, ops, powerUp, outside, n))
  }

  /** In every run of the design no later worker writes against these states. */
  ghost predicate AlwaysClashFree(d: Design, w: nat, moved: set<StateId>, ops: Ops, powerUp: Env,
      outside: nat -> Env)
    requires w < |d.workers|
  {
    forall n: nat :: ClashFreeIn(d, w, moved, ops, powerUp, outside, n)
  }

  /** Both designs stay coupled as long as nothing clashes. */
  lemma {:induction false} RunCoupled(d: Design, d2: Design, w: nat, part: seq<StateId>, ctl: Control,
      wait: StateId, ks: Numbers, names: set<string>, ops: Ops, powerUp: Env, outside: nat -> Env, n: nat)
    requires Surgery(d, d2, w, part, ctl, wait, ks, names)
    requires AlwaysSilent(d, w, wait, ops, powerUp, outside)
    requires AlwaysOnItsWay(d, w, wait, StatesOf(part), ops, powerUp, outside)
    requires forall k: nat :: k < n ==> ClashFreeIn(d, w, StatesOf(part), ops, powerUp, outside, k)
    ensures Coupled(d, w, part, ctl, wait, ks, names, Run(d, ops, powerUp, outside, n),
      Run(d2, ops, powerUp, outside, n))
  {
    hide Step, Initial, Run, Surgery, Coupled, Silent, ClashFree, OnItsWay, StatesOf;
    CanStillWait(d, d2, w, part, ctl, wait, ks, names);
    NextRun(d, ops, powerUp, outside, n);
    NextRun(d2, ops, powerUp, outside, n);
    if n > 0 {
      var c, c2 := Run(d, ops, powerUp, outside, n - 1), Run(d2, ops, powerUp, outside, n - 1);
      RunCoupled(d, d2, w, part, ctl, wait, ks, names, ops, powerUp, outside, n - 1);
      assert SilentIn(d, w, wait, ops, powerUp, outside, n - 1);
      assert ClashFreeIn(d, w, StatesOf(part), ops, powerUp, outside, n - 1);
      assert OnItsWayIn(d, w, wait, StatesOf(part), ops, powerUp, outside, n - 1);
      StepCoupled(d, d2, w, part, ctl, wait, ks, names, ops, c, c2, outside(n));
    } else {
      InitialCoupled(d, d2, w, part, ctl, wait, ks, names, ops, powerUp, outside(0));
    }
  }

  lemma CanStillWait(d: Design, d2: Design, w: nat, part: seq<StateId>, ctl: Control, wait: StateId, ks: Numbers,
      names: set<string>)
    requires Surgery(d, d2, w, part, ctl, wait, ks, names)
    ensures wait !in part && w < |d.workers| && |d2.workers| == |d.workers| + 1
  {}

  /** State breakout is cycle-exact: every signal the design had before has the same value in
      every cycle of every run, and every other worker is in the same state. */
  lemma BreakoutCycleExact(d: Design, d2: Design, w: nat, part: seq<StateId>, ctl: Control, wait: StateId, ks: Numbers,
                           names: set<string>, ops: Ops, powerUp: Env, outside: nat -> Env, n: nat, t: Target)
    requires Surgery(d, d2, w, part, ctl, wait, ks, names) && t.name in names
    requires AlwaysSilent(d, w, wait, ops, powerUp, outside)
    requires AlwaysOnItsWay(d, w, wait, StatesOf(part), ops, powerUp, outside)
    requires AlwaysClashFree(d, w, StatesOf(part), ops, powerUp, outside)
    ensures var c, c2 := Run(d, ops, powerUp, outside, n), Run(d2, ops, powerUp, outside, n);
      && Value(c.env, t) == Value(c2.env, t)
      && (forall v :: 0 <= v < |d.workers| && v != w ==> c2.at[v] == c.at[v])
      && c2.at[w] == if c.at[w] in part then wait else c.at[w]
  {
    var c, c2 := Run(d, ops, powerUp, outside, n), Run(d2, ops, powerUp, outside, n);
    RunCoupled(d, d2, w, part, ctl, wait, ks, names, ops, powerUp, outside, n);
    BitsValueAgrees(c.env, c2.env, t.name, t.Low(), t.width);
  }

  /** Where it clashes, a signal differs after the edge. */
  lemma ClashShows(d: Design, d2: Design, w: nat, part: seq<StateId>, ctl: Control, wait: StateId, ks: Numbers,
      names: set<string>, ops: Ops, c: Config, c2: Config, outside: Env)
    requires Surgery(d, d2, w, part, ctl, wait, ks, names)
    requires |c.at| == |d.workers| && Coupled(d, w, part, ctl, wait, ks, names, c, c2)
    requires c.at[w] in part ==> Silent(d.workers[w], wait, ops, c.env)
    requires !ClashFree(d, w, StatesOf(part), ops, c)
    ensures !Agree(Step(d, c, ops, outside).env, Step(d2, c2, ops, outside).env, names)
  {
    hide Step, OldWorker, NewWorker, Bystander, NoClash;
    CoupledHandover(d, d2, w, part, ctl, wait, ks, names, ops, c, c2);
    ExitLeaves(d.workers[w], part, c.at[w], ops, c.env);
    StepEnvInside(d, d2, w, part, ctl, wait, ks, names, ops, c, c2, outside);
  }

  ghost predicate AgreeIn(d: Design, d2: Design, names: set<string>, ops: Ops, powerUp: Env, outside: nat -> Env,
      n: nat)
    requires |d.workers| >= 1 && |d2.workers| >= 1
  {
    Agree(Run(d, ops, powerUp, outside, n).env, Run(d2, ops, powerUp, outside, n).env, names)
  }

  /** The first clash shows in the cycle after it. */
  lemma {:induction false} FirstClashShows(d: Design, d2: Design, w: nat, part: seq<StateId>, ctl: Control,
      wait: StateId, ks: Numbers, names: set<string>, ops: Ops, powerUp: Env, outside: nat -> Env, n: nat)
      returns (k: nat)
    requires Surgery(d, d2, w, part, ctl, wait, ks, names)
    requires AlwaysSilent(d, w, wait, ops, powerUp, outside)
    requires AlwaysOnItsWay(d, w, wait, StatesOf(part), ops, powerUp, outside)
    requires !ClashFreeIn(d, w, StatesOf(part), ops, powerUp, outside, n)
    ensures |d2.workers| >= 1 && !AgreeIn(d, d2, names, ops, powerUp, outside, k)
    decreases n
  {
    hide Step, Run, Surgery, Coupled, Silent, ClashFree, StatesOf, Agree;
    CanStillWait(d, d2, w, part, ctl, wait, ks, names);
    if earlier: nat :| earlier < n && !ClashFreeIn(d, w, StatesOf(part), ops, powerUp, outside, earlier) {
      k := FirstClashShows(d, d2, w, part, ctl, wait, ks, names, ops, powerUp, outside, earlier);
    } else {
      var c, c2 := Run(d, ops, powerUp, outside, n), Run(d2, ops, powerUp, outside, n);
      RunCoupled(d, d2, w, part, ctl, wait, ks, names, ops, powerUp, outside, n);
      assert SilentIn(d, w, wait, ops, powerUp, outside, n);
      k := n + 1;
      NextRun(d, ops, powerUp, outside, k);
      NextRun(d2, ops, powerUp, outside, k);
      ClashShows(d, d2, w, part, ctl, wait, ks, names, ops, c, c2, outside(k));
    }
  }

  /** All signals the design had before agree in every cycle exactly if nothing clashes in its run. */
  lemma AgreesExactly(d: Design, d2: Design, w: nat, part: seq<StateId>, ctl: Control, wait: StateId, ks: Numbers,
      names: set<string>, ops: Ops, powerUp: Env, outside: nat -> Env)
    requires Surgery(d, d2, w, part, ctl, wait, ks, names)
    requires AlwaysSilent(d, w, wait, ops, powerUp, outside)
    requires AlwaysOnItsWay(d, w, wait, StatesOf(part), ops, powerUp, outside)
    ensures |d2.workers| >= 1
    ensures (forall n: nat :: AgreeIn(d, d2, names, ops, powerUp, outside, n))
       <==> AlwaysClashFree(d, w, StatesOf(part), ops, powerUp, outside)
  {
    hide Surgery, Coupled, Silent, ClashFree, StatesOf, Run;
    CanStillWait(d, d2, w, part, ctl, wait, ks, names);
    if n: nat :| !ClashFreeIn(d, w, StatesOf(part), ops, powerUp, outside, n) {
      var k := FirstClashShows(d, d2, w, part, ctl, wait, ks, names, ops, powerUp, outside, n);
    } else {
      forall n: nat ensures AgreeIn(d, d2, names, ops, powerUp, outside, n) {
        RunCoupled(d, d2, w, part, ctl, wait, ks, names, ops, powerUp, outside, n);
        CoupledAgrees(d, d2, w, part, ctl, wait, ks, names, Run(d, ops, powerUp, outside, n),
          Run(d2, ops, powerUp, outside, n));
      }
    }
  }

  lemma CoupledAgrees(d: Design, d2: Design, w: nat, part: seq<StateId>, ctl: Control, wait: StateId, ks: Numbers,
      names: set<string>, c: Config, c2: Config)
    requires w < |d.workers| == |c.at| && Coupled(d, w, part, ctl, wait, ks, names, c, c2)
    ensures Agree(c.env, c2.env, names)
  {}

  lemma SilentHere(d: Design, d2: Design, w: nat, part: seq<StateId>, ctl: Control, wait: StateId, ks: Numbers,
      names: set<string>, ops: Ops, c: Config, c2: Config)
    requires Surgery(d, d2, w, part, ctl, wait, ks, names)
    requires |c.at| == |d.workers| && Coupled(d, w, part, ctl, wait, ks, names, c, c2)
    requires c.at[w] != wait ==> Silent(d.workers[w], wait, ops, c.env)
    ensures c2.at[w] != wait ==> Silent(d2.workers[w], wait, ops, c2.env)
  {
    hide OldWorker, NewWorker, Bystander, CleanPartition, FsmWithin, Shows, Silent;
    if c2.at[w] != wait {
      WaitSilent(d.workers[w], d2.workers[w], part, ctl, wait, ks, MainExtra(w, ctl), names, ops, c.env, c2.env);
    }
  }

  lemma WaitQuiet(f: Fsm, f2: Fsm, part: seq<StateId>, ctl: Control, wait: StateId, ks: Numbers,
      extra: seq<Assignment>)
    requires OldWorker(f, f2, part, ctl, wait, ks, extra)
    ensures Quiet(f2.At(wait).assigns)
  {}

  /** Afterwards WAIT is silent again outside of itself: the next partition of the worker can be broken out. */
  lemma StaysSilent(d: Design, d2: Design, w: nat, part: seq<StateId>, ctl: Control, wait: StateId, ks: Numbers,
      names: set<string>, ops: Ops, powerUp: Env, outside: nat -> Env)
    requires Surgery(d, d2, w, part, ctl, wait, ks, names) && AlwaysSilent(d, w, wait, ops, powerUp, outside)
    requires AlwaysOnItsWay(d, w, wait, StatesOf(part), ops, powerUp, outside)
    requires AlwaysClashFree(d, w, StatesOf(part), ops, powerUp, outside)
    ensures w < |d2.workers| && AlwaysSilent(d2, w, wait, ops, powerUp, outside)
    ensures Quiet(d2.workers[w].At(wait).assigns)
  {
    hide OldWorker, NewWorker, Bystander, Breakable, Run, Coupled, Silent, Quiet;
    CanStillWait(d, d2, w, part, ctl, wait, ks, names);
    WaitQuiet(d.workers[w], d2.workers[w], part, ctl, wait, ks, MainExtra(w, ctl));
    forall n: nat ensures SilentIn(d2, w, wait, ops, powerUp, outside, n) {
      RunCoupled(d, d2, w, part, ctl, wait, ks, names, ops, powerUp, outside, n);
      assert SilentIn(d, w, wait, ops, powerUp, outside, n);
      SilentHere(d, d2, w, part, ctl, wait, ks, names, ops, Run(d, ops, powerUp, outside, n),
        Run(d2, ops, powerUp, outside, n));
    }
  }

  lemma WaitSilent(f: Fsm, f2: Fsm, part: seq<StateId>, ctl: Control, wait: StateId, ks: Numbers,
      extra: seq<Assignment>, names: set<string>, ops: Ops, env: Env, env2: Env)
    requires OldWorker(f, f2, part, ctl, wait, ks, extra) && FsmWithin(f, names) && Agree(env, env2, names)
    requires Silent(f, wait, ops, env) && Low(env2, ctl.finish)
    ensures Silent(f2, wait, ops, env2)
  {
    hide OldWorker, FsmWithin, StateWithin, Guard, Added;
    var base, added := f.At(wait).trans, Added(f, f2, wait);
    WaitTransitions(f, f2, part, ctl, wait, ks, extra, names);
    LowValue(env2, ctl.finish);
    forall i | 0 <= i < |f2.At(wait).trans| ensures !Holds(f2.At(wait).trans[i].cond, ops, env2) {
      if i < |base| {
        EvalAgrees(base[i].cond, ops, env, env2);
      } else {
        assert f2.At(wait).trans[i] == added[i - |base|];
        GuardHolds(ctl.finish, ctl.finishSelect, i - |base|, ops, env2);
      }
    }
  }

  // ----- The next breakout finds no clash either -----

  lemma OwnClash(x: seq<Assignment>, y: seq<Assignment>, a: seq<Assignment>, z: seq<Assignment>, names: set<string>,
      b: Bit, ops: Ops, p1: Env, p2: Env)
    requires AssignsWithin(x, names) && AssignsWithin(y, names) && Agree(p1, p2, names)
    requires forall i :: 0 <= i < |a| ==> a[i].target.name !in names
    requires forall i :: 0 <= i < |z| ==> z[i].target.name !in names
    requires forall i, j :: 0 <= i < |a| && 0 <= j < |z| ==> a[i].target.name != z[j].target.name
    ensures ClashAt(x + a, y + z, b, ops, p2) ==> ClashAt(x, y, b, ops, p1)
  {
    hide BitWritten;
    BitWrittenAppend(x, a, b, ops, p2);
    BitWrittenAppend(y, z, b, ops, p2);
    BitWrittenAgrees(x, b, ops, p1, p2, names);
    BitWrittenAgrees(y, b, ops, p1, p2, names);
    if BitWritten(a, b, ops, p2).Some? { BitCovered(a, b, ops, p2); }
    if BitWritten(z, b, ops, p2).Some? { BitCovered(z, b, ops, p2); }
    if b.name !in names {
      Unwritten(x, names, b, ops, p2);
      Unwritten(y, names, b, ops, p2);
    }
  }

  lemma AnnounceOnly(f: Fsm, f2: Fsm, g: Fsm, part: seq<StateId>, ctl: Control, wait: StateId, ks: Numbers,
      extra: seq<Assignment>, s: StateId)
    requires OldWorker(f, f2, part, ctl, wait, ks, extra) && NewWorker(f, g, part, ctl, ks)
    requires s in f.body && s !in part && s != wait && s != f.reset
    ensures f2.At(s).assigns == f.At(s).assigns + Announce(ctl.trigger, ctl.triggerSelect, EnterNumber(f, part, ks, s))
    ensures g.At(IDLE).assigns == [Always(ctl.finish, False)]
  {}

  lemma StillNoClash(own: seq<Assignment>, later: seq<Assignment>, ctl: Control, number: Option<nat>,
      names: set<string>, inputs: set<string>, ops: Ops, p1: Env, p2: Env)
    requires AssignsWithin(own, names) && AssignsWithin(later, names) && Agree(p1, p2, names)
    requires ctl.Valid() && ctl.Names() !! names && NoClash(own, later, inputs, ops, p1)
    ensures NoClash(own + Announce(ctl.trigger, ctl.triggerSelect, number), later + [Always(ctl.finish, False)],
              inputs, ops, p2)
  {
    hide ClashAt;
    var a, z := Announce(ctl.trigger, ctl.triggerSelect, number), [Always(ctl.finish, False)];
    forall b: Bit {:trigger ClashAt(own + a, later + z, b, ops, p2)} | b.name !in inputs
      ensures !ClashAt(own + a, later + z, b, ops, p2)
    {
      assert !ClashAt(own, later, b, ops, p1);
      OwnClash(own, later, a, z, names, b, ops, p1, p2);
    }
  }

  /** One cycle: while the worker is outside of WAIT, the new worker only takes back its finish flag. */
  lemma ClashFreeAfter(d: Design, d2: Design, w: nat, part: seq<StateId>, ctl: Control, wait: StateId, ks: Numbers,
      names: set<string>, moved: set<StateId>, ops: Ops, c: Config, c2: Config)
    requires Surgery(d, d2, w, part, ctl, wait, ks, names)
    requires |c.at| == |d.workers| && Coupled(d, w, part, ctl, wait, ks, names, c, c2)
    requires c.at[w] in part ==> Silent(d.workers[w], wait, ops, c.env)
    requires ClashFree(d, w, moved, ops, c) && wait !in moved && d.workers[w].reset !in moved
    ensures w < |d2.workers| == |c2.at| && ClashFree(d2, w, moved, ops, c2)
  {
    hide CleanPartition, FsmWithin, OldWorker, NewWorker, Bystander, Shows, NoClash, Silent, Next, Announce, Effects,
      EnterNumber, LeaveNumber;
    CoupledHandover(d, d2, w, part, ctl, wait, ks, names, ops, c, c2);
    var n, next := |d.workers|, NextStates(d.workers, c.at, ops, c.env);
    var next2 := NextStates(d2.workers, c2.at, ops, c2.env);
    if next2[w] in moved {
      var own, later := d.workers[w].At(next[w]).assigns, Effects(d.workers[w + 1..], next[w + 1..]);
      AnnounceOnly(d.workers[w], d2.workers[w], d2.workers[n], part, ctl, wait, ks, MainExtra(w, ctl), next[w]);
      LaterEffects(d, d2, w, ctl, names, next, next2);
      OwnWithin(d, names, next, w);
      StillNoClash(own, later, ctl, EnterNumber(d.workers[w], part, ks, next[w]), names, d.inputs, ops, c.env, c2.env);
    }
  }

  lemma StaysClashFree(d: Design, d2: Design, w: nat, part: seq<StateId>, ctl: Control, wait: StateId, ks: Numbers,
      names: set<string>, moved: set<StateId>, ops: Ops, powerUp: Env, outside: nat -> Env)
    requires Surgery(d, d2, w, part, ctl, wait, ks, names) && AlwaysSilent(d, w, wait, ops, powerUp, outside)
    requires AlwaysOnItsWay(d, w, wait, moved, ops, powerUp, outside)
    requires AlwaysClashFree(d, w, moved, ops, powerUp, outside) && StatesOf(part) <= moved
    requires wait !in moved && d.workers[w].reset !in moved
    ensures w < |d2.workers| && AlwaysClashFree(d2, w, moved, ops, powerUp, outside)
  {
    hide Surgery, Coupled, Silent, ClashFree, Run;
    CanStillWait(d, d2, w, part, ctl, wait, ks, names);
    FewerStates(d, w, wait, StatesOf(part), moved, ops, powerUp, outside);
    forall n: nat ensures ClashFreeIn(d2, w, moved, ops, powerUp, outside, n) {
      RunCoupled(d, d2, w, part, ctl, wait, ks, names, ops, powerUp, outside, n);
      assert SilentIn(d, w, wait, ops, powerUp, outside, n) && ClashFreeIn(d, w, moved, ops, powerUp, outside, n);
      ClashFreeAfter(d, d2, w, part, ctl, wait, ks, names, moved, ops, Run(d, ops, powerUp, outside, n),
        Run(d2, ops, powerUp, outside, n));
    }
  }

  lemma FewerStates(d: Design, w: nat, wait: StateId, part: set<StateId>, moved: set<StateId>, ops: Ops,
      powerUp: Env, outside: nat -> Env)
    requires w < |d.workers| && part <= moved
    ensures AlwaysClashFree(d, w, moved, ops, powerUp, outside) ==> AlwaysClashFree(d, w, part, ops, powerUp, outside)
    ensures AlwaysOnItsWay(d, w, wait, moved, ops, powerUp, outside) ==>
              AlwaysOnItsWay(d, w, wait, part, ops, powerUp, outside)
  {
    hide NoClash, Run, Next;
    if AlwaysClashFree(d, w, moved, ops, powerUp, outside) {
      forall n: nat ensures ClashFreeIn(d, w, part, ops, powerUp, outside, n) {
        assert ClashFreeIn(d, w, moved, ops, powerUp, outside, n);
      }
    }
    if AlwaysOnItsWay(d, w, wait, moved, ops, powerUp, outside) {
      forall n: nat ensures OnItsWayIn(d, w, wait, part, ops, powerUp, outside, n) {
        assert OnItsWayIn(d, w, wait, moved, ops, powerUp, outside, n);
      }
    }
  }

  lemma OnItsWayAfter(d: Design, d2: Design, w: nat, part: seq<StateId>, ctl: Control, wait: StateId, ks: Numbers,
      names: set<string>, moved: set<StateId>, ops: Ops, c: Config, c2: Config)
    requires Surgery(d, d2, w, part, ctl, wait, ks, names)
    requires |c.at| == |d.workers| && Coupled(d, w, part, ctl, wait, ks, names, c, c2)
    requires c.at[w] in part ==> Silent(d.workers[w], wait, ops, c.env)
    requires OnItsWay(d, w, wait, moved, ops, c) && StatesOf(part) <= moved && wait !in moved
    ensures w < |d2.workers| == |c2.at| && OnItsWay(d2, w, wait, moved, ops, c2)
  {
    hide CleanPartition, OldWorker, NewWorker, Bystander, Shows, Silent, Next, LeadsInto, CleanBorder;
    CoupledHandover(d, d2, w, part, ctl, wait, ks, names, ops, c, c2);
    var f, f2 := d.workers[w], d2.workers[w];
    assert FsmWithin(f, names);
    EvalAgrees(f.syncReset, ops, c.env, c2.env);
    SameReset(f, f2, part, ctl, wait, ks, MainExtra(w, ctl));
    var nx := Next(f, c.at[w], ops, c.env);
    if Holds(f2.syncReset, ops, c2.env) && nx != wait {
      LeadsSame(f, f2, part, ctl, wait, ks, MainExtra(w, ctl), moved, nx);
    }
  }

  lemma SameReset(f: Fsm, f2: Fsm, part: seq<StateId>, ctl: Control, wait: StateId, ks: Numbers,
      extra: seq<Assignment>)
    requires OldWorker(f, f2, part, ctl, wait, ks, extra)
    ensures f2.syncReset == f.syncReset && f2.reset == f.reset
  {}

  /** A state outside does not come to lead to other moved states. */
  lemma LeadsSame(f: Fsm, f2: Fsm, part: seq<StateId>, ctl: Control, wait: StateId, ks: Numbers,
      extra: seq<Assignment>, moved: set<StateId>, s: StateId)
    requires OldWorker(f, f2, part, ctl, wait, ks, extra) && s in f.body && s !in part && s != wait && wait !in moved
    ensures LeadsInto(f2.At(s), moved) ==> LeadsInto(f.At(s), moved)
  {}

  lemma StaysOnItsWay(d: Design, d2: Design, w: nat, part: seq<StateId>, ctl: Control, wait: StateId, ks: Numbers,
      names: set<string>, moved: set<StateId>, ops: Ops, powerUp: Env, outside: nat -> Env)
    requires Surgery(d, d2, w, part, ctl, wait, ks, names) && AlwaysSilent(d, w, wait, ops, powerUp, outside)
    requires AlwaysOnItsWay(d, w, wait, moved, ops, powerUp, outside)
    requires AlwaysClashFree(d, w, moved, ops, powerUp, outside) && StatesOf(part) <= moved && wait !in moved
    ensures w < |d2.workers| && AlwaysOnItsWay(d2, w, wait, moved, ops, powerUp, outside)
  {
    hide Surgery, Coupled, Silent, ClashFree, OnItsWay, Run, StatesOf;
    CanStillWait(d, d2, w, part, ctl, wait, ks, names);
    FewerStates(d, w, wait, StatesOf(part), moved, ops, powerUp, outside);
    forall n: nat ensures OnItsWayIn(d2, w, wait, moved, ops, powerUp, outside, n) {
      RunCoupled(d, d2, w, part, ctl, wait, ks, names, ops, powerUp, outside, n);
      assert SilentIn(d, w, wait, ops, powerUp, outside, n) && OnItsWayIn(d, w, wait, moved, ops, powerUp, outside, n);
      OnItsWayAfter(d, d2, w, part, ctl, wait, ks, names, moved, ops, Run(d, ops, powerUp, outside, n),
        Run(d2, ops, powerUp, outside, n));
    }
  }

  /** A worker that is never reset synchronously. */
  lemma NeverCutShort(d: Design, w: nat, wait: StateId, moved: set<StateId>, ops: Ops, powerUp: Env,
      outside: nat -> Env)
    requires w < |d.workers| && d.workers[w].syncReset == False
    ensures AlwaysOnItsWay(d, w, wait, moved, ops, powerUp, outside)
  {
    hide Run;
    forall n: nat ensures OnItsWayIn(d, w, wait, moved, ops, powerUp, outside, n) {
      assert !Holds(False, ops, Run(d, ops, powerUp, outside, n).env);
    }
  }

  /** A worker that is reset while a moved state is entered: the new worker does not notice and goes on. */
  lemma CutShortGoesOn(d: Design, d2: Design, w: nat, part: seq<StateId>, ctl: Control, wait: StateId, ks: Numbers,
      names: set<string>, ops: Ops, c: Config, c2: Config, outside: Env)
    requires Surgery(d, d2, w, part, ctl, wait, ks, names)
    requires |c.at| == |d.workers| && Coupled(d, w, part, ctl, wait, ks, names, c, c2)
    requires c.at[w] in part ==> Silent(d.workers[w], wait, ops, c.env)
    requires Holds(d.workers[w].syncReset, ops, c.env) && Next(d.workers[w], c.at[w], ops, c.env) in part
    ensures var after, after2 := Step(d, c, ops, outside), Step(d2, c2, ops, outside);
      && after.at[w] == after2.at[w] == d.workers[w].reset
      && after2.at[|d.workers|] == Moved(part, Next(d.workers[w], c.at[w], ops, c.env))
  {
    hide Step, OldWorker, NewWorker, Bystander, CleanPartition;
    CoupledHandover(d, d2, w, part, ctl, wait, ks, names, ops, c, c2);
    StepAt(d, d2, w, part, ctl, wait, ks, names, ops, c, c2, outside);
  }

  // ----- What a look at the states tells -----

  ghost predicate SharesBit(t: Target, u: Target) { exists b: Bit :: t.Covers(b) && u.Covers(b) }

  /** No state of a later worker assigns to a bit that one of these states assigns to. */
  ghost predicate BitsApart(d: Design, w: nat, moved: set<StateId>)
    requires w < |d.workers|
  {
    forall v, s, t, i, j {:trigger d.workers[w].At(s).assigns[i], d.workers[v].At(t).assigns[j]} ::
      w < v < |d.workers| && s in moved && 0 <= i < |d.workers[w].At(s).assigns|
      && 0 <= j < |d.workers[v].At(t).assigns|
      ==> !SharesBit(d.workers[w].At(s).assigns[i].target, d.workers[v].At(t).assigns[j].target)
  }

  /** Then nothing clashes in any run. */
  lemma ApartNeverClash(d: Design, w: nat, moved: set<StateId>, ops: Ops, powerUp: Env, outside: nat -> Env)
    requires w < |d.workers| && BitsApart(d, w, moved)
    ensures AlwaysClashFree(d, w, moved, ops, powerUp, outside)
  {
    hide Run;
    forall n: nat ensures ClashFreeIn(d, w, moved, ops, powerUp, outside, n) {
      ApartHere(d, w, moved, ops, Run(d, ops, powerUp, outside, n));
    }
  }

  lemma BothCover(x: seq<Assignment>, y: seq<Assignment>, b: Bit, ops: Ops, pre: Env) returns (i: nat, j: nat)
    requires BitWritten(x, b, ops, pre).Some? && BitWritten(y, b, ops, pre).Some?
    ensures i < |x| && j < |y| && SharesBit(x[i].target, y[j].target)
  {
    BitCovered(x, b, ops, pre);
    BitCovered(y, b, ops, pre);
    i :| i < |x| && x[i].target.Covers(b);
    j :| j < |y| && y[j].target.Covers(b);
  }

  lemma ApartHere(d: Design, w: nat, moved: set<StateId>, ops: Ops, c: Config)
    requires w < |d.workers| == |c.at| && BitsApart(d, w, moved)
    ensures ClashFree(d, w, moved, ops, c)
  {
    hide Next, BitWritten, SharesBit;
    var next := NextStates(d.workers, c.at, ops, c.env);
    var fs, ns := d.workers[w + 1..], next[w + 1..];
    var own, later := d.workers[w].At(next[w]).assigns, Effects(fs, ns);
    if next[w] in moved {
      forall i, j | 0 <= i < |own| && 0 <= j < |later| ensures !SharesBit(own[i].target, later[j].target) {
        var v, k := EffectSource(fs, ns, j);
        assert fs[v] == d.workers[w + 1 + v];
      }
      forall b: Bit {:trigger ClashAt(own, later, b, ops, c.env)} ensures !ClashAt(own, later, b, ops, c.env) {
        if ClashAt(own, later, b, ops, c.env) { var i, j := BothCover(own, later, b, ops, c.env); }
      }
    }
  }
}
