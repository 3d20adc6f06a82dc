/** What the surgery yields for a clean partition is what the simulation proof assumes, so
breaking states out is cycle-exact. */
module BreakoutResult {
  import opened Signals
  import opened Selectors
  import opened Cycle
  import opened BreakoutModel
  import opened BreakoutRewrite
  import BreakoutProof

  lemma SelectedConstant(n: int)
    ensures Selected(Empty) == NoDefault
    ensures Selected(Entry(On(True), Level(Const(n)), Empty)) == Case(True, Plain(Const(n)), NoDefault)
  {
    var d := Entry(On(True), Level(Const(n)), Empty);
    assert !HasDefault(d) && !HasDefault(Empty);
    assert FirstTrue(d) == Some(Level(Const(n))) && FirstTrue(Empty).None?;
    assert NormItem(Level(Const(n)), true) == Some(Plain(Const(n)));
  }

  lemma {:induction false} NoCrossing(ts: seq<Transition>, part: seq<StateId>, inward: bool, stop: StateId,
                                      pulse: Target, select: Target, k: nat)
    requires forall i :: 0 <= i < |ts| ==> !Crosses(part, inward, ts[i].target)
    ensures var side := Reroute(ts, part, inward, stop, pulse, select, k);
      && side == Side(side.trans, Empty, Empty, [], k) && |side.trans| == |ts|
      && forall i :: 0 <= i < |ts| ==> side.trans[i] == Transition(ts[i].cond, Moved(part, ts[i].target))
    ensures Crossings(ts, part, inward) == 0
    decreases |ts|
  {
    if ts != [] { NoCrossing(ts[..|ts| - 1], part, inward, stop, pulse, select, k); }
  }

  /** A handled state, for a clean border. */
  ghost predicate HandledState(st: State, st2: State, part: seq<StateId>, inward: bool, stop: StateId,
                               pulse: Target, select: Target, k: nat) {
    && st2.assigns == st.assigns + Announce(pulse, select, if Crossing(st, part, inward) then Some(k) else None)
    && |st2.trans| == |st.trans|
    && forall i :: 0 <= i < |st.trans| ==>
         && st2.trans[i].cond == st.trans[i].cond
         && st2.trans[i].target == if Crossing(st, part, inward) then stop else Moved(part, st.trans[i].target)
  }

  /** ... whose crossing, number k, resumes on the other side. */
  ghost predicate HandledOne(st: State, st2: State, other: seq<Transition>, part: seq<StateId>, inward: bool,
      stop: StateId, pulse: Target, select: Target, k: nat) {
    && HandledState(st, st2, part, inward, stop, pulse, select, k)
    && (Crossing(st, part, inward) ==> k < |other| && other[k].target == Moved(part, st.trans[0].target))
  }

  lemma HandleClean(st: State, part: seq<StateId>, inward: bool, stop: StateId, pulse: Target, select: Target, k: nat)
    requires CleanBorder(st, part, inward)
    ensures var side := Reroute(st.trans, part, inward, stop, pulse, select, k);
      && HandledState(st, Rerouted(st, side, pulse, select), part, inward, stop, pulse, select, k)
      && side.count == k + Crossings(st.trans, part, inward)
      && side.other == if Crossing(st, part, inward)
                       then [Transition(BreakoutModel.Guard(pulse, select, k), Moved(part, st.trans[0].target))] else []
    ensures Crossings(st.trans, part, inward) == if Crossing(st, part, inward) then 1 else 0
  {
    SelectedConstant(1);
    SelectedConstant(k);
    if Crossing(st, part, inward) {
      var t := st.trans[0].target;
      assert st.trans == [Transition(True, t)];
    } else {
      NoCrossing(st.trans, part, inward, stop, pulse, select, k);
    }
  }

  lemma SelectedCase(c: Expr, n: int)
    ensures Selected(Entry(On(c), Level(Const(n)), Empty)) ==
            if c == False then NoDefault else Case(c, Plain(Const(n)), NoDefault)
  {
    var d := Entry(On(c), Level(Const(n)), Empty);
    assert !HasDefault(d) && !HasDefault(Empty) && FirstTrue(Empty).None?;
    assert FirstTrue(d) == if c == True then Some(Level(Const(n))) else None;
    assert NormItem(Level(Const(n)), true) == Some(Plain(Const(n)));
    assert NormCases(Empty, NoDefault, false, true) == Some(NoDefault);
    if c == True {
      SelectedConstant(n);
    } else {
      assert Normalise(d, true) == NormCases(d, NoDefault, false, true);
    }
  }

  /** The new worker is told when the condition holds *before* the edge into s, the old one leaves when it holds
      after it: a crossing under a condition is taken and announced alike exactly if its value does not change. */
  lemma AnnouncedExactly(st: State, part: seq<StateId>, stop: StateId, s: StateId, pulse: Target, select: Target,
      k: nat, cond: Expr, t: StateId, ops: Ops, pre: Env, acc: Env, after: Env)
    requires st.trans == [Transition(cond, t)] && t in part && stop != s
    requires pulse.Whole? && pulse.width == 1 && pulse.name != select.name
    requires Low(acc, pulse) && !Writes(st.assigns, pulse.name)
    requires Value(after, pulse) == Value(Apply(Rerouted(st, Reroute(st.trans, part, true, stop, pulse, select, k),
                                                         pulse, select).assigns, ops, pre, acc), pulse)
    ensures var trans := Reroute(st.trans, part, true, stop, pulse, select, k).trans;
      && (NextState(trans, s, ops, after) == stop <==> Holds(cond, ops, after))
      && (Value(after, pulse) == 1 <==> Holds(cond, ops, pre))
      && ((NextState(trans, s, ops, after) == stop <==> Value(after, pulse) == 1)
          <==> (Holds(cond, ops, pre) <==> Holds(cond, ops, after)))
  {
    var side := Reroute(st.trans, part, true, stop, pulse, select, k);
    SelectedCase(cond, 1);
    SelectedCase(cond, k);
    assert st.trans[..0] == [];
    assert side.trans == [Transition(cond, stop)] && side.trans[..0] == [];
    var sel1 := Selected(side.pulse);
    PulseAfter(st.assigns, pulse, select, cond, sel1, Selected(side.select), ops, pre, acc);
  }

  lemma OneCase(cond: Expr, sel: Selector, ops: Ops, pre: Env)
    requires sel == if cond == False then NoDefault else Case(cond, Plain(Const(1)), NoDefault)
    ensures Exec(Emit(sel), ops, pre) == if Holds(cond, ops, pre) then Some(1) else None
  {
    assert EmitChoice(Plain(Const(1))) == Assign(Const(1));
    assert Eval(Const(1), ops, pre) == 1 && !Holds(False, ops, pre);
    if cond != False {
      assert EmitChain(sel) == IfElse(cond, EmitChoice(Plain(Const(1))), EmitChain(NoDefault));
      assert Emit(sel) == EmitChain(sel);
    }
  }

  lemma PulseAfter(own: seq<Assignment>, pulse: Target, select: Target, cond: Expr, sel: Selector, other: Selector,
      ops: Ops, pre: Env, acc: Env)
    requires sel == if cond == False then NoDefault else Case(cond, Plain(Const(1)), NoDefault)
    requires pulse.Whole? && pulse.width == 1 && pulse.name != select.name
    requires Low(acc, pulse) && !Writes(own, pulse.name)
    ensures Value(Apply(own + [When(pulse, sel), When(select, other)], ops, pre, acc), pulse) ==
            if Holds(cond, ops, pre) then 1 else 0
  {
    hide Emit, Exec, Selected;
    var mid := Apply(own, ops, pre, acc);
    var e1 := Perform(When(pulse, sel), ops, pre, mid);
    var e2 := Perform(When(select, other), ops, pre, e1);
    ApplyAppend(own, [When(pulse, sel), When(select, other)], ops, pre, acc);
    BreakoutProof.ApplyTwo(When(pulse, sel), When(select, other), ops, pre, mid);
    forall b: Bit | pulse.Covers(b) ensures !mid[b] && e2[b] == e1[b] { ApplyFrame(own, ops, pre, acc, b); }
    BitsValueAgrees(e2, e1, pulse.name, pulse.Low(), pulse.width);
    BreakoutProof.LowValue(mid, pulse);
    OneCase(cond, sel, ops, pre);
    WriteRead(mid, pulse, 1);
    assert Pow2(1) == 2 * Pow2(0);
  }

  /** The number of the first crossing of state s. */
  function Before(order: seq<StateId>, skip: StateId, body: map<StateId, State>, part: seq<StateId>, inward: bool,
      s: StateId): nat
    requires forall x :: x in order ==> x in body
    decreases |order|
  {
    if order == [] then 0
    else
      var init := order[..|order| - 1];
      if order[|order| - 1] == s then TotalCrossings(init, skip, body, part, inward)
      else Before(init, skip, body, part, inward, s)
  }

  ghost predicate Distinct(order: seq<StateId>) {
    forall i, j :: 0 <= i < j < |order| ==> order[i] != order[j]
  }

  ghost predicate AllClean(order: seq<StateId>, skip: StateId, body: map<StateId, State>, part: seq<StateId>,
      inward: bool) {
    forall s :: s in order ==> s in body && (s != skip ==> CleanBorder(body[s], part, inward))
  }

  /** What the handling loop leaves behind. */
  ghost predicate Handled(order: seq<StateId>, skip: StateId, body: map<StateId, State>, part: seq<StateId>,
      inward: bool, stop: StateId, pulse: Target, select: Target, p: Progress)
    requires forall x :: x in order ==> x in body
  {
    && |p.other| == p.count == TotalCrossings(order, skip, body, part, inward)
    && NumberedFrom(p.other, pulse, select, 0)
    && p.body.Keys == body.Keys
    && (forall s {:trigger p.body[s]} :: s in body && (s !in order || s == skip) ==> p.body[s] == body[s])
    && (forall s {:trigger p.body[s]} :: s in order && s != skip ==>
          HandledOne(body[s], p.body[s], p.other, part, inward, stop, pulse, select,
            Before(order, skip, body, part, inward, s)))
  }

  lemma {:induction false} AllHandled(order: seq<StateId>, skip: StateId, body: map<StateId, State>,
      part: seq<StateId>, inward: bool, stop: StateId, pulse: Target, select: Target)
    requires Distinct(order) && AllClean(order, skip, body, part, inward)
    ensures Handled(order, skip, body, part, inward, stop, pulse, select,
                    RerouteAll(order, skip, body, part, inward, stop, pulse, select))
    decreases |order|
  {
    if order != [] {
      var init, s := order[..|order| - 1], order[|order| - 1];
      assert init + [s] == order && s !in init;
      AllHandled(init, skip, body, part, inward, stop, pulse, select);
      var r := RerouteAll(init, skip, body, part, inward, stop, pulse, select);
      if s != skip {
        HandledNext(init, s, skip, body, part, inward, stop, pulse, select, r);
      } else {
      }
    }
  }

  lemma HandledNext(init: seq<StateId>, s: StateId, skip: StateId, body: map<StateId, State>, part: seq<StateId>,
      inward: bool, stop: StateId, pulse: Target, select: Target, r: Progress)
    requires (forall x :: x in init ==> x in body) && s in body && s !in init && s != skip
    requires Handled(init, skip, body, part, inward, stop, pulse, select, r) && CleanBorder(body[s], part, inward)
    ensures forall x :: x in init + [s] ==> x in body
    ensures Handled(init + [s], skip, body, part, inward, stop, pulse, select,
                    RerouteNext(r, s, body[s], part, inward, stop, pulse, select))
  {
    HandleClean(body[s], part, inward, stop, pulse, select, r.count);
    var side := Reroute(body[s].trans, part, inward, stop, pulse, select, r.count);
    HandledStep(init, s, skip, body, part, inward, stop, pulse, select, r, Rerouted(body[s], side, pulse, select),
      side.other);
  }

  lemma BeforeInit(init: seq<StateId>, s: StateId, skip: StateId, body: map<StateId, State>, part: seq<StateId>,
      inward: bool, x: StateId)
    requires (forall y :: y in init ==> y in body) && s in body
    ensures forall y :: y in init + [s] ==> y in body
    ensures Before(init + [s], skip, body, part, inward, x)
         == if x == s then TotalCrossings(init, skip, body, part, inward) else Before(init, skip, body, part, inward, x)
    ensures TotalCrossings(init + [s], skip, body, part, inward)
         == TotalCrossings(init, skip, body, part, inward)
            + if s == skip then 0 else Crossings(body[s].trans, part, inward)
  {
    assert (init + [s])[..|init|] == init;
  }

  lemma NewCrossing(st: State, st2: State, other: seq<Transition>, more: seq<Transition>, part: seq<StateId>,
      inward: bool, stop: StateId, pulse: Target, select: Target)
    requires HandledState(st, st2, part, inward, stop, pulse, select, |other|)
    requires Crossing(st, part, inward) ==>
      |st.trans| > 0 && |more| == 1 && more[0].target == Moved(part, st.trans[0].target)
    ensures HandledOne(st, st2, other + more, part, inward, stop, pulse, select, |other|)
  {}

  lemma HandledStep(init: seq<StateId>, s: StateId, skip: StateId, body: map<StateId, State>, part: seq<StateId>,
      inward: bool, stop: StateId, pulse: Target, select: Target, r: Progress, st2: State, more: seq<Transition>)
    requires (forall x :: x in init ==> x in body) && s in body && s !in init && s != skip
    requires Handled(init, skip, body, part, inward, stop, pulse, select, r)
    requires HandledState(body[s], st2, part, inward, stop, pulse, select, r.count)
    requires |more| == Crossings(body[s].trans, part, inward) <= 1
    requires more != [] ==> more[0].cond == BreakoutModel.Guard(pulse, select, r.count)
    requires Crossing(body[s], part, inward) ==>
      |body[s].trans| > 0 && |more| == 1 && more[0].target == Moved(part, body[s].trans[0].target)
    ensures forall x :: x in init + [s] ==> x in body
    ensures Handled(init + [s], skip, body, part, inward, stop, pulse, select,
                    Progress(r.body[s := st2], r.other + more, r.count + |more|))
  {
    hide HandledOne, HandledState, Before, TotalCrossings, Crossing;
    var p := Progress(r.body[s := st2], r.other + more, r.count + |more|);
    BeforeInit(init, s, skip, body, part, inward, s);
    NewCrossing(body[s], st2, r.other, more, part, inward, stop, pulse, select);
    forall x | x in init + [s] && x != skip
      ensures HandledOne(body[x], p.body[x], p.other, part, inward, stop, pulse, select,
        Before(init + [s], skip, body, part, inward, x))
    {
      if x != s { OldCrossing(init, s, skip, body, part, inward, stop, pulse, select, r, more, x); }
    }
  }

  lemma OldCrossing(init: seq<StateId>, s: StateId, skip: StateId, body: map<StateId, State>, part: seq<StateId>,
      inward: bool, stop: StateId, pulse: Target, select: Target, r: Progress, more: seq<Transition>, x: StateId)
    requires (forall y :: y in init ==> y in body) && s in body && x in init && x != s && x != skip
    requires Handled(init, skip, body, part, inward, stop, pulse, select, r)
    ensures forall y :: y in init + [s] ==> y in body
    ensures x in r.body
    ensures HandledOne(body[x], r.body[x], r.other + more, part, inward, stop, pulse, select,
      Before(init + [s], skip, body, part, inward, x))
  {
    BeforeInit(init, s, skip, body, part, inward, x);
    assert x in r.body.Keys;
  }

  lemma {:induction false} SameTotal(o1: seq<StateId>, o2: seq<StateId>, skip1: StateId, skip2: StateId,
                                     b1: map<StateId, State>, b2: map<StateId, State>, part: seq<StateId>, inward: bool)
    requires |o1| == |o2|
    requires (forall s :: s in o1 ==> s in b1) && (forall s :: s in o2 ==> s in b2)
    requires forall i :: 0 <= i < |o1| ==> (o1[i] == skip1 <==> o2[i] == skip2)
    requires forall i :: 0 <= i < |o1| ==> b1[o1[i]].trans == b2[o2[i]].trans
    ensures TotalCrossings(o1, skip1, b1, part, inward) == TotalCrossings(o2, skip2, b2, part, inward)
    decreases |o1|
  {
    if o1 != [] {
      SameTotal(o1[..|o1| - 1], o2[..|o2| - 1], skip1, skip2, b1, b2, part, inward);
    }
  }

  // ----- The shape -----

  /** The worker with its WAIT state, which is created if it is not there. */
  function Waiting(f: Fsm, wait: StateId): Fsm { if wait in f.body then f else WithState(f, wait) }

  /** What the result needs: a breakable partition, a fresh WAIT state or one from an earlier breakout, and the
      control registers of the operation, which are new. */
  ghost predicate Operation(d: Design, w: nat, part: seq<StateId>, names: set<string>, name: string, wait: StateId,
      ctl: Control) {
    && Breakable(d, w, part, names)
    && CanWait(d.workers[w], part, wait) && Listed(Waiting(d.workers[w], wait))
    && ctl == ControlOf(Waiting(d.workers[w], wait), part, name)
    && ctl.Names() !! names
  }

  /** The result of the operation on d, the WAIT state being created first if there is none. */
  ghost function Result(d: Design, w: nat, part: seq<StateId>, wait: StateId, ctl: Control): Design
    requires w < |d.workers| && Listed(Waiting(d.workers[w], wait))
      && forall s :: s in part ==> s in d.workers[w].body
  {
    BrokenOut(d.(workers := d.workers[w := Waiting(d.workers[w], wait)]), w, part, wait, ctl)
  }

  /** The worker the two loops work on. */
  ghost predicate Source(f: Fsm, g: Fsm, wait: StateId, extra: seq<Assignment>) {
    && wait != f.reset && f.reset in f.body
    && g.reset == f.reset && g.syncReset == f.syncReset && Listed(g)
    && (forall s :: s in f.body ==> s in g.states)
    && (forall s :: s in g.states <==> s in f.body || s == wait)
    && (forall s :: s in g.body <==> s in f.body || s == wait)
    && g.body[wait] == f.At(wait)
    && (forall s {:trigger g.body[s]} :: s in f.body && s != f.reset ==> g.body[s] == f.body[s])
    && g.body[f.reset].assigns == f.body[f.reset].assigns + extra && g.body[f.reset].trans == f.body[f.reset].trans
  }

  ghost function Incoming(g: Fsm, part: seq<StateId>, wait: StateId, ctl: Control): Progress
    requires Listed(g)
  {
    RerouteAll(Shrunk(g, part).states, g.reset, Shrunk(g, part).body, part, true, wait, ctl.trigger, ctl.triggerSelect)
  }

  lemma IncomingHandled(f: Fsm, g: Fsm, part: seq<StateId>, wait: StateId, extra: seq<Assignment>, ctl: Control)
    requires Source(f, g, wait, extra) && CleanPartition(f, part)
    ensures var left := Shrunk(g, part);
      && (forall s :: s in left.states <==> s in left.body) && Distinct(left.states)
      && Handled(left.states, g.reset, left.body, part, true, wait, ctl.trigger, ctl.triggerSelect,
        Incoming(g, part, wait, ctl))
  {
    var left := Shrunk(g, part);
    WithoutDistinct(g.states, part);
    forall s | s in left.states && s != g.reset ensures s in left.body && CleanBorder(left.body[s], part, true) {
      if s in f.body { assert CleanBorder(f.body[s], part, true); }
    }
    AllHandled(left.states, g.reset, left.body, part, true, wait, ctl.trigger, ctl.triggerSelect);
  }

  ghost function RightSource(g: Fsm, part: seq<StateId>, ctl: Control, starts: seq<Transition>): Fsm
    requires forall s :: s in part ==> s in g.body
  {
    Extend(Grown(FreshWorker(ctl), g, part), IDLE, starts)
  }

  ghost function Outgoing(g: Fsm, part: seq<StateId>, ctl: Control, starts: seq<Transition>): Progress
    requires forall s :: s in part ==> s in g.body
  {
    GrownBody(FreshWorker(ctl), g, part);
    RerouteAll(Copies(|part|), IDLE_RESET, RightSource(g, part, ctl, starts).body, part, false, IDLE, ctl.finish,
      ctl.finishSelect)
  }

  lemma RightBody(f: Fsm, g: Fsm, part: seq<StateId>, wait: StateId, extra: seq<Assignment>, ctl: Control,
      starts: seq<Transition>)
    requires Source(f, g, wait, extra) && f.reset !in part
    requires forall s :: s in part ==> s in f.body && s in g.body
    ensures var right := RightSource(g, part, ctl, starts);
      && right.reset == IDLE_RESET && right.syncReset == False
      && IDLE_RESET in right.body && right.body[IDLE_RESET] == FreshWorker(ctl).body[IDLE_RESET]
      && IDLE in right.body && right.body[IDLE] == FreshWorker(ctl).body[IDLE].(trans := starts)
      && forall c :: 2 <= c < 2 + |part| ==>
            && c in right.body
            && right.body[c] == NoState.(assigns := f.body[part[c - 2]].assigns, trans := f.body[part[c - 2]].trans)
  {
    GrownBody(FreshWorker(ctl), g, part);
    assert [] + starts == starts;
    forall s | s in part ensures g.body[s] == f.body[s] {
      assert s != f.reset;
    }
  }

  lemma OutgoingHandled(f: Fsm, g: Fsm, part: seq<StateId>, wait: StateId, extra: seq<Assignment>, ctl: Control,
      starts: seq<Transition>)
    requires Source(f, g, wait, extra) && CleanPartition(f, part)
    requires forall s :: s in part ==> s in g.body
    ensures var right := RightSource(g, part, ctl, starts);
      && (forall s :: s in Copies(|part|) ==> s in right.body)
      && Handled(Copies(|part|), IDLE_RESET, right.body, part, false, IDLE, ctl.finish, ctl.finishSelect,
        Outgoing(g, part, ctl, starts))
  {
    var right := RightSource(g, part, ctl, starts);
    RightBody(f, g, part, wait, extra, ctl, starts);
    forall s | s in part ensures CleanBorder(f.body[s], part, false) {
      assert CleanBorder(f.At(s), part, false);
    }
    AllHandled(Copies(|part|), IDLE_RESET, right.body, part, false, IDLE, ctl.finish, ctl.finishSelect);
  }

  lemma WidthFits(n: nat)
    ensures n < Pow2(SelectWidth(n))
  {}

  ghost predicate EnterNumbers(f: Fsm, g: Fsm, part: seq<StateId>, ks: Numbers)
    requires Listed(g)
  {
    forall s :: s in f.body && s !in part && s != f.reset ==>
      s in ks.enter && ks.enter[s] == Before(Shrunk(g, part).states, g.reset, Shrunk(g, part).body, part, true, s)
  }

  lemma OldOne(f: Fsm, g: Fsm, part: seq<StateId>, wait: StateId, extra: seq<Assignment>, ctl: Control, ks: Numbers,
      s: StateId)
    requires Source(f, g, wait, extra) && CleanPartition(f, part) && EnterNumbers(f, g, part, ks)
    requires s in f.body && s !in part && s != f.reset
    ensures var p := Incoming(g, part, wait, ctl);
      && s in p.body
      && HandledOne(f.body[s], p.body[s], p.other, part, true, wait, ctl.trigger, ctl.triggerSelect, ks.enter[s])
  {
    var left, p := Shrunk(g, part), Incoming(g, part, wait, ctl);
    IncomingHandled(f, g, part, wait, extra, ctl);
    assert s in left.states && left.body[s] == f.body[s] && s in p.body.Keys;
    assert HandledOne(left.body[s], p.body[s], p.other, part, true, wait, ctl.trigger, ctl.triggerSelect, ks.enter[s]);
  }

  /** The list the idle state of the new worker gets. */
  lemma EntriesResume(f: Fsm, g: Fsm, part: seq<StateId>, wait: StateId, extra: seq<Assignment>, ctl: Control,
      ks: Numbers)
    requires Source(f, g, wait, extra) && CleanPartition(f, part) && EnterNumbers(f, g, part, ks)
    requires |Incoming(g, part, wait, ctl).other| <= Pow2(ctl.triggerSelect.width)
    ensures Resumes(Incoming(g, part, wait, ctl).other, ctl.trigger, ctl.triggerSelect, f, part, true, ks.enter)
  {
    var p := Incoming(g, part, wait, ctl);
    IncomingHandled(f, g, part, wait, extra, ctl);
    forall s {:trigger Crossing(f.body[s], part, true)} | s in f.body && s !in part && Crossing(f.body[s], part, true)
      ensures s in ks.enter && ks.enter[s] < |p.other|
        && p.other[ks.enter[s]].target == Moved(part, f.body[s].trans[0].target)
    {
      assert s != f.reset;
      OldOne(f, g, part, wait, extra, ctl, ks, s);
    }
  }

  /** The WAIT state and the reset state after the loop. */
  lemma WaitKept(f: Fsm, g: Fsm, part: seq<StateId>, wait: StateId, extra: seq<Assignment>, ctl: Control)
    requires Source(f, g, wait, extra) && CleanPartition(f, part) && CanWait(f, part, wait)
    ensures var p := Incoming(g, part, wait, ctl);
      && wait in p.body && f.reset in p.body && p.body[f.reset] == g.body[f.reset]
      && p.body[wait].trans == f.At(wait).trans
      && p.body[wait].assigns == f.At(wait).assigns + Announce(ctl.trigger, ctl.triggerSelect, None)
  {
    var left, p := Shrunk(g, part), Incoming(g, part, wait, ctl);
    IncomingHandled(f, g, part, wait, extra, ctl);
    assert wait in left.states && wait != g.reset;
    assert wait in p.body.Keys && f.reset in p.body.Keys;
    assert HandledOne(f.At(wait), p.body[wait], p.other, part, true, wait, ctl.trigger, ctl.triggerSelect,
                      Before(left.states, g.reset, left.body, part, true, wait));
    NotCrossing(f.At(wait), part, true);
    assert p.body[f.reset] == left.body[f.reset];
  }

  lemma NotCrossing(st: State, part: seq<StateId>, inward: bool)
    requires inward && !Crossing(st, part, inward)
    ensures forall i :: 0 <= i < |st.trans| ==> Moved(part, st.trans[i].target) == st.trans[i].target
  {
    forall i | 0 <= i < |st.trans| ensures st.trans[i].target !in part {
      assert !Crosses(part, inward, st.trans[i].target);
    }
  }

  /** The old worker, from the handled loop. */
  lemma OldWorkerShape(f: Fsm, g: Fsm, part: seq<StateId>, wait: StateId, extra: seq<Assignment>, ctl: Control,
      ks: Numbers, resumes: seq<Transition>)
    requires Source(f, g, wait, extra) && CleanPartition(f, part) && EnterNumbers(f, g, part, ks)
    requires CanWait(f, part, wait) && Resumes(resumes, ctl.finish, ctl.finishSelect, f, part, false, ks.leave)
    ensures OldWorker(f, Extend(Shrunk(g, part).(body := Incoming(g, part, wait, ctl).body), wait, resumes), part,
      ctl, wait, ks, extra)
  {
    hide Resumes, EnterNumbers, EnterNumber, Incoming, CleanPartition, Announce, Crossing, Quiet;
    var p := Incoming(g, part, wait, ctl);
    var f2 := Extend(Shrunk(g, part).(body := p.body), wait, resumes);
    WaitKept(f, g, part, wait, extra, ctl);
    assert f2.At(wait).trans == f.At(wait).trans + resumes;
    assert Added(f, f2, wait) == resumes;
    forall s | s in f.body && s !in part && s != f.reset && s != wait
      ensures f2.At(s).assigns ==
        f.body[s].assigns + Announce(ctl.trigger, ctl.triggerSelect, EnterNumber(f, part, ks, s))
      ensures f2.At(s).trans == if Crossing(f.body[s], part, true) then [Transition(True, wait)] else f.body[s].trans
    {
      OldOneShape(f, g, part, wait, extra, ctl, ks, s);
      assert f2.At(s) == p.body[s];
    }
  }

  lemma OldOneShape(f: Fsm, g: Fsm, part: seq<StateId>, wait: StateId, extra: seq<Assignment>, ctl: Control,
      ks: Numbers, s: StateId)
    requires Source(f, g, wait, extra) && CleanPartition(f, part) && EnterNumbers(f, g, part, ks)
    requires s in f.body && s !in part && s != f.reset
    ensures var p := Incoming(g, part, wait, ctl);
      && s in p.body
      && p.body[s].assigns == f.body[s].assigns + Announce(ctl.trigger, ctl.triggerSelect, EnterNumber(f, part, ks, s))
      && p.body[s].trans == if Crossing(f.body[s], part, true) then [Transition(True, wait)] else f.body[s].trans
  {
    OldOne(f, g, part, wait, extra, ctl, ks, s);
    assert f.At(s) == f.body[s];
    assert CleanBorder(f.body[s], part, true);
  }

  /** The numbers of the copied states. */
  ghost predicate LeaveNumbers(f: Fsm, g: Fsm, part: seq<StateId>, ctl: Control, ks: Numbers, starts: seq<Transition>)
    requires forall s :: s in part ==> s in g.body
  {
    && (forall s :: s in Copies(|part|) ==> s in RightSource(g, part, ctl, starts).body)
    && (forall s :: s in part ==> s in ks.leave)
    && (forall s :: s in part ==>
          ks.leave[s] ==
            Before(Copies(|part|), IDLE_RESET, RightSource(g, part, ctl, starts).body, part, false, Moved(part, s)))
  }

  lemma CopyOne(f: Fsm, g: Fsm, part: seq<StateId>, wait: StateId, extra: seq<Assignment>, ctl: Control, ks: Numbers,
                starts: seq<Transition>, s: StateId)
    requires Source(f, g, wait, extra) && CleanPartition(f, part) && s in part
    requires (forall x :: x in part ==> x in g.body) && LeaveNumbers(f, g, part, ctl, ks, starts)
    ensures var q := Outgoing(g, part, ctl, starts);
      && Moved(part, s) in q.body
      && HandledOne(f.body[s], q.body[Moved(part, s)], q.other, part, false, IDLE, ctl.finish, ctl.finishSelect,
        ks.leave[s])
  {
    var right, q, c := RightSource(g, part, ctl, starts), Outgoing(g, part, ctl, starts), Moved(part, s);
    RightBody(f, g, part, wait, extra, ctl, starts);
    OutgoingHandled(f, g, part, wait, extra, ctl, starts);
    assert part[c - 2] == s && Copies(|part|)[c - 2] == c;
    assert c in q.body.Keys;
    assert HandledOne(right.body[c], q.body[c], q.other, part, false, IDLE, ctl.finish, ctl.finishSelect, ks.leave[s]);
  }

  lemma IdleKept(f: Fsm, g: Fsm, part: seq<StateId>, wait: StateId, extra: seq<Assignment>, ctl: Control,
      starts: seq<Transition>)
    requires Source(f, g, wait, extra) && CleanPartition(f, part)
    requires forall s :: s in part ==> s in g.body
    ensures var g2, idle := RightSource(g, part, ctl, starts).(body := Outgoing(g, part, ctl, starts).body),
      FreshWorker(ctl).body;
      && g2.reset == IDLE_RESET && g2.syncReset == False
      && g2.At(IDLE_RESET) == idle[IDLE_RESET] && g2.At(IDLE) == idle[IDLE].(trans := starts)
    ensures NumberedFrom(Outgoing(g, part, ctl, starts).other, ctl.finish, ctl.finishSelect, 0)
  {
    var right, q := RightSource(g, part, ctl, starts), Outgoing(g, part, ctl, starts);
    RightBody(f, g, part, wait, extra, ctl, starts);
    OutgoingHandled(f, g, part, wait, extra, ctl, starts);
    assert IDLE_RESET !in Copies(|part|) && IDLE !in Copies(|part|);
    assert IDLE_RESET in q.body.Keys && IDLE in q.body.Keys;
    assert q.body[IDLE_RESET] == right.body[IDLE_RESET] && q.body[IDLE] == right.body[IDLE];
  }

  /** The new worker, from the handled loop. */
  lemma NewWorkerShape(f: Fsm, g: Fsm, part: seq<StateId>, wait: StateId, extra: seq<Assignment>, ctl: Control,
      ks: Numbers, starts: seq<Transition>)
    requires Source(f, g, wait, extra) && CleanPartition(f, part)
    requires (forall s :: s in part ==> s in g.body) && LeaveNumbers(f, g, part, ctl, ks, starts)
    requires Resumes(starts, ctl.trigger, ctl.triggerSelect, f, part, true, ks.enter)
    requires |Outgoing(g, part, ctl, starts).other| <= Pow2(ctl.finishSelect.width)
    ensures NewWorker(f, RightSource(g, part, ctl, starts).(body := Outgoing(g, part, ctl, starts).body), part, ctl, ks)
    ensures Resumes(Outgoing(g, part, ctl, starts).other, ctl.finish, ctl.finishSelect, f, part, false, ks.leave)
  {
    var q := Outgoing(g, part, ctl, starts);
    var g2 := RightSource(g, part, ctl, starts).(body := q.body);
    IdleKept(f, g, part, wait, extra, ctl, starts);
    forall s | s in part
      ensures HandledOne(f.At(s), g2.At(Moved(part, s)), q.other, part, false, IDLE, ctl.finish, ctl.finishSelect,
        ks.leave[s])
    {
      CopyOne(f, g, part, wait, extra, ctl, ks, starts, s);
    }
  }

  /** The worker both loops start from. */
  ghost function SourceOf(f: Fsm, w: nat, wait: StateId, ctl: Control): Fsm {
    var g := Waiting(f, wait);
    if w == 0 then AddReset(g, ctl.Reset()) else g
  }

  lemma IsSource(f: Fsm, w: nat, part: seq<StateId>, wait: StateId, ctl: Control)
    requires f.Closed() && wait != f.reset && Listed(Waiting(f, wait)) && (forall s :: s in f.body <==> s in f.states)
    ensures Source(f, SourceOf(f, w, wait, ctl), wait, MainExtra(w, ctl))
  {
    var g, h := Waiting(f, wait), SourceOf(f, w, wait, ctl);
    assert g.body[f.reset] == f.body[f.reset];
    assert f.body[f.reset].assigns + [] == f.body[f.reset].assigns;
    assert forall s :: s in g.states <==> s in f.states || s == wait;
  }

  lemma EntryWidthFits(f: Fsm, w: nat, part: seq<StateId>, wait: StateId, ctl: Control)
    requires CleanPartition(f, part) && Source(f, SourceOf(f, w, wait, ctl), wait, MainExtra(w, ctl))
      && Listed(Waiting(f, wait))
    ensures var g, h := SourceOf(f, w, wait, ctl), Waiting(f, wait);
      |Incoming(g, part, wait, ctl).other| <
      Pow2(SelectWidth(TotalCrossings(Shrunk(h, part).states, f.reset, h.body, part, true)))
  {
    var h, g := Waiting(f, wait), SourceOf(f, w, wait, ctl);
    var order := Shrunk(g, part).states;
    IncomingHandled(f, g, part, wait, MainExtra(w, ctl), ctl);
    SameTransitions(f, w, part, wait, ctl);
    SameTotal(order, order, f.reset, f.reset, Shrunk(g, part).body, h.body, part, true);
    WidthFits(TotalCrossings(order, f.reset, h.body, part, true));
  }

  lemma SameTransitions(f: Fsm, w: nat, part: seq<StateId>, wait: StateId, ctl: Control)
    requires Source(f, SourceOf(f, w, wait, ctl), wait, MainExtra(w, ctl)) && Listed(Waiting(f, wait))
    ensures var g, h := SourceOf(f, w, wait, ctl), Waiting(f, wait);
      && Shrunk(g, part).states == Shrunk(h, part).states
      && forall i :: 0 <= i < |Shrunk(g, part).states| ==>
           var s := Shrunk(g, part).states[i];
           s in Shrunk(g, part).body && s in h.body && Shrunk(g, part).body[s].trans == h.body[s].trans
  {
    var g := SourceOf(f, w, wait, ctl);
    forall i | 0 <= i < |Shrunk(g, part).states|
      ensures Shrunk(g, part).states[i] in g.states && Shrunk(g, part).states[i] !in part
    {
      assert Shrunk(g, part).states[i] in Shrunk(g, part).states;
    }
  }

  lemma ExitWidthFits(f: Fsm, g: Fsm, part: seq<StateId>, wait: StateId, extra: seq<Assignment>, ctl: Control,
      starts: seq<Transition>)
    requires CleanPartition(f, part) && Source(f, g, wait, extra)
    requires forall s :: s in part ==> s in g.body && s in Waiting(f, wait).body
    ensures |Outgoing(g, part, ctl, starts).other|
          < Pow2(SelectWidth(TotalCrossings(part, f.reset, Waiting(f, wait).body, part, false)))
  {
    var h, right := Waiting(f, wait), RightSource(g, part, ctl, starts);
    OutgoingHandled(f, g, part, wait, extra, ctl, starts);
    RightBody(f, g, part, wait, extra, ctl, starts);
    SameTotal(Copies(|part|), part, IDLE_RESET, f.reset, right.body, h.body, part, false);
    WidthFits(TotalCrossings(part, f.reset, h.body, part, false));
  }

  lemma SelectWidthsFit(f: Fsm, w: nat, part: seq<StateId>, wait: StateId, name: string, ctl: Control,
      starts: seq<Transition>)
    requires CleanPartition(f, part) && Source(f, SourceOf(f, w, wait, ctl), wait, MainExtra(w, ctl))
      && Listed(Waiting(f, wait))
    requires ctl == ControlOf(Waiting(f, wait), part, name)
    requires forall s :: s in part ==> s in SourceOf(f, w, wait, ctl).body
    ensures var g := SourceOf(f, w, wait, ctl);
      && |Incoming(g, part, wait, ctl).other| <= Pow2(ctl.triggerSelect.width)
      && |Outgoing(g, part, ctl, starts).other| <= Pow2(ctl.finishSelect.width)
  {
    EntryWidthFits(f, w, part, wait, ctl);
    ExitWidthFits(f, SourceOf(f, w, wait, ctl), part, wait, MainExtra(w, ctl), ctl, starts);
  }

  /** The numbers the loops give to the crossings. */
  lemma GivenNumbers(f: Fsm, g: Fsm, part: seq<StateId>, wait: StateId, extra: seq<Assignment>, ctl: Control,
      starts: seq<Transition>)
    returns (ks: Numbers)
    requires Source(f, g, wait, extra) && CleanPartition(f, part)
    ensures forall s :: s in part ==> s in g.body
    ensures EnterNumbers(f, g, part, ks) && LeaveNumbers(f, g, part, ctl, ks, starts)
  {
    hide EnterNumbers, LeaveNumbers, Source;
    var enter := EnterNumbersOf(f, g, part, wait, extra, ctl);
    var leave := LeaveNumbersOf(f, g, part, wait, extra, ctl, starts, enter);
    ks := Numbers(enter, leave);
  }

  lemma EnterNumbersOf(f: Fsm, g: Fsm, part: seq<StateId>, wait: StateId, extra: seq<Assignment>, ctl: Control)
    returns (enter: map<StateId, nat>)
    requires Source(f, g, wait, extra) && CleanPartition(f, part)
    ensures forall s :: s in part ==> s in g.body
    ensures Listed(g) && forall leave :: EnterNumbers(f, g, part, Numbers(enter, leave))
  {
    hide Handled, HandledOne, Before;
    IncomingHandled(f, g, part, wait, extra, ctl);
    var left := Shrunk(g, part);
    enter := map s | s in f.body :: Before(left.states, g.reset, left.body, part, true, s);
  }

  lemma LeaveNumbersOf(f: Fsm, g: Fsm, part: seq<StateId>, wait: StateId, extra: seq<Assignment>, ctl: Control,
      starts: seq<Transition>, enter: map<StateId, nat>)
    returns (leave: map<StateId, nat>)
    requires Source(f, g, wait, extra) && CleanPartition(f, part) && forall s :: s in part ==> s in g.body
    ensures LeaveNumbers(f, g, part, ctl, Numbers(enter, leave), starts)
  {
    hide Handled, HandledOne, Before, Source;
    OutgoingHandled(f, g, part, wait, extra, ctl, starts);
    var right := RightSource(g, part, ctl, starts);
    leave := map s | s in part :: Before(Copies(|part|), IDLE_RESET, right.body, part, false, Moved(part, s));
  }

  /** The two machines, for one worker. */
  lemma Divided(f: Fsm, w: nat, part: seq<StateId>, name: string, wait: StateId, ctl: Control) returns (ks: Numbers)
    requires f.Valid() && CleanPartition(f, part) && CanWait(f, part, wait) && Listed(Waiting(f, wait))
    requires ctl == ControlOf(Waiting(f, wait), part, name)
    ensures var g := SourceOf(f, w, wait, ctl);
      && Listed(g) && (forall s :: s in part ==> s in g.body)
      && var (left, right) := Divide(g, part, wait, ctl);
        OldWorker(f, left, part, ctl, wait, ks, MainExtra(w, ctl)) && NewWorker(f, right, part, ctl, ks)
  {
    hide Source, EnterNumbers, LeaveNumbers, OldWorker, NewWorker, Listed, Divide, CanWait;
    var g, extra := SourceOf(f, w, wait, ctl), MainExtra(w, ctl);
    assert wait != f.reset by { NotReset(f, part, wait); }
    IsSource(f, w, part, wait, ctl);
    var starts := StartsOf(f, g, part, wait, extra, ctl);
    ks := GivenNumbers(f, g, part, wait, extra, ctl, starts);
    SelectWidthsFit(f, w, part, wait, name, ctl, starts);
    HandedOver(f, g, part, wait, extra, ctl, ks);
  }

  lemma NotReset(f: Fsm, part: seq<StateId>, wait: StateId)
    requires CanWait(f, part, wait)
    ensures wait != f.reset
  {}

  /** The operation yields the two machines of the simulation proof. */
  lemma ResultShape(d: Design, w: nat, part: seq<StateId>, names: set<string>, name: string, wait: StateId,
      ctl: Control)
    returns (ks: Numbers)
    requires Operation(d, w, part, names, name, wait, ctl) && d.workers[w].Valid()
    ensures BreakoutShape(d, Result(d, w, part, wait, ctl), w, part, ctl, wait, ks)
  {
    hide OldWorker, NewWorker, Bystander, Listed, FsmWithin, Divide, CanWait, BrokenOut;
    ks := Divided(d.workers[w], w, part, name, wait, ctl);
    WorkersOfResult(d, w, part, wait, ctl);
  }

  lemma StartsOf(f: Fsm, g: Fsm, part: seq<StateId>, wait: StateId, extra: seq<Assignment>, ctl: Control)
      returns (starts: seq<Transition>)
    requires Source(f, g, wait, extra)
    ensures Listed(g) && starts == Incoming(g, part, wait, ctl).other
  {
    starts := Incoming(g, part, wait, ctl).other;
  }

  lemma HandedOver(f: Fsm, g: Fsm, part: seq<StateId>, wait: StateId, extra: seq<Assignment>, ctl: Control, ks: Numbers)
    requires Source(f, g, wait, extra) && CleanPartition(f, part) && CanWait(f, part, wait)
    requires forall s :: s in part ==> s in g.body
    requires |Incoming(g, part, wait, ctl).other| <= Pow2(ctl.triggerSelect.width)
    requires |Outgoing(g, part, ctl, Incoming(g, part, wait, ctl).other).other| <= Pow2(ctl.finishSelect.width)
    requires EnterNumbers(f, g, part, ks)
    requires LeaveNumbers(f, g, part, ctl, ks, Incoming(g, part, wait, ctl).other)
    ensures var (left, right) := Divide(g, part, wait, ctl);
      OldWorker(f, left, part, ctl, wait, ks, extra) && NewWorker(f, right, part, ctl, ks)
  {
    hide OldWorker, NewWorker, CleanPartition, EnterNumbers, LeaveNumbers, Resumes, CanWait;
    var starts := Incoming(g, part, wait, ctl).other;
    GrownBody(FreshWorker(ctl), g, part);
    EntriesResume(f, g, part, wait, extra, ctl, ks);
    NewWorkerShape(f, g, part, wait, extra, ctl, ks, starts);
    OldWorkerShape(f, g, part, wait, extra, ctl, ks, Outgoing(g, part, ctl, starts).other);
  }

  lemma WorkersOfResult(d: Design, w: nat, part: seq<StateId>, wait: StateId, ctl: Control)
    requires w < |d.workers| && Listed(Waiting(d.workers[w], wait))
      && forall s :: s in part ==> s in d.workers[w].body
    requires d.workers[w].reset in d.workers[w].body
    ensures var d2, n, g := Result(d, w, part, wait, ctl), |d.workers|, SourceOf(d.workers[w], w, wait, ctl);
      && |d2.workers| == n + 1 && d2.pulsing == d.pulsing + {ctl.trigger.name} && d2.inputs == d.inputs
      && Listed(g) && (forall s :: s in part ==> s in g.body)
      && (d2.workers[w], d2.workers[n]) == Divide(g, part, wait, ctl)
      && forall v :: 0 <= v < n && v != w ==> Bystander(d.workers[v], d2.workers[v], MainExtra(v, ctl))
  {
    hide Divide, Without;
    forall v | 0 <= v < |d.workers| && v != w
      ensures Bystander(d.workers[v], Result(d, w, part, wait, ctl).workers[v], MainExtra(v, ctl))
    {
      assert forall s :: d.workers[v].At(s).assigns + [] == d.workers[v].At(s).assigns;
    }
  }

  /** State breakout is cycle-exact: in every cycle of every run, every signal the engine had
      before the operation has the value it has without it. */
  lemma BreakOutIsCycleExact(d: Design, w: nat, part: seq<StateId>, names: set<string>, name: string, wait: StateId,
      ctl: Control, ops: Ops, powerUp: Env, outside: nat -> Env, n: nat, t: Target)
    requires Operation(d, w, part, names, name, wait, ctl) && d.workers[w].Valid()
    requires BreakoutProof.AlwaysSilent(d, w, wait, ops, powerUp, outside)
    requires BreakoutProof.AlwaysOnItsWay(d, w, wait, StatesOf(part), ops, powerUp, outside)
    requires BreakoutProof.AlwaysClashFree(d, w, StatesOf(part), ops, powerUp, outside)
    requires t.name in names
    ensures var c, c2 := Run(d, ops, powerUp, outside, n), Run(Result(d, w, part, wait, ctl), ops, powerUp, outside, n);
      && Value(c2.env, t) == Value(c.env, t)
      && (forall v :: 0 <= v < |d.workers| && v != w ==> c2.at[v] == c.at[v])
      && c2.at[w] == if c.at[w] in part then wait else c.at[w]
  {
    var ks := ResultShape(d, w, part, names, name, wait, ctl);
    BreakoutProof.BreakoutCycleExact(d, Result(d, w, part, wait, ctl), w, part, ctl, wait, ks, names, ops, powerUp,
      outside, n, t);
  }

  /** A worker without a WAIT state does not leave it. */
  lemma FreshSilent(d: Design, w: nat, wait: StateId, ops: Ops, powerUp: Env, outside: nat -> Env)
    requires w < |d.workers| && wait !in d.workers[w].body
    ensures BreakoutProof.AlwaysSilent(d, w, wait, ops, powerUp, outside)
  {
    forall n: nat ensures BreakoutProof.SilentIn(d, w, wait, ops, powerUp, outside, n) {}
  }

  // ----- One breakout of a worker after another -----

  datatype Move = Move(part: seq<StateId>, name: string, ctl: Control)

  /** Each breakout meets the conditions on the design it finds. */
  ghost predicate Operations(d: Design, w: nat, wait: StateId, names: set<string>, moves: seq<Move>)
    decreases |moves|
  {
    moves == []
    || (var m := moves[0];
        && Operation(d, w, m.part, names, m.name, wait, m.ctl) && d.workers[w].Valid()
        && Operations(Result(d, w, m.part, wait, m.ctl), w, wait, names + m.ctl.Names(), moves[1..]))
  }

  ghost function Results(d: Design, w: nat, wait: StateId, names: set<string>, moves: seq<Move>): Design
    requires Operations(d, w, wait, names, moves)
    decreases |moves|
  {
    if moves == [] then d
    else Results(Result(d, w, moves[0].part, wait, moves[0].ctl), w, wait, names + moves[0].ctl.Names(), moves[1..])
  }

  /** The states that are moved in the course of these breakouts. */
  function Parts(moves: seq<Move>): set<StateId> { set i, s | 0 <= i < |moves| && s in moves[i].part :: s }

  lemma PartsOfRest(moves: seq<Move>)
    requires moves != []
    ensures Parts(moves) == StatesOf(moves[0].part) + Parts(moves[1..])
  {
    forall s | s in Parts(moves) ensures s in StatesOf(moves[0].part) + Parts(moves[1..]) {
      var i :| 0 <= i < |moves| && s in moves[i].part;
      if i > 0 { assert s in moves[1..][i - 1].part; }
    }
    forall s | s in Parts(moves[1..]) ensures s in Parts(moves) {
      var i :| 0 <= i < |moves[1..]| && s in moves[1..][i].part;
      assert s in moves[i + 1].part;
    }
  }

  /** Neither WAIT nor the reset state is moved. */
  lemma {:induction false} NeverMoved(d: Design, w: nat, wait: StateId, names: set<string>, moves: seq<Move>)
    requires Operations(d, w, wait, names, moves) && w < |d.workers|
    ensures wait !in Parts(moves) && d.workers[w].reset !in Parts(moves)
    decreases |moves|
  {
    hide Result, CleanBorder, Crossing, FsmWithin, Listed, Quiet, Parts;
    if moves != [] {
      var m := moves[0];
      PartsOfRest(moves);
      ResultWorker(d, w, m.part, names, m.name, wait, m.ctl);
      NeverMoved(Result(d, w, m.part, wait, m.ctl), w, wait, names + m.ctl.Names(), moves[1..]);
    } else {
      assert Parts([]) == {} by { NoParts(); }
    }
  }

  lemma NoParts()
    ensures Parts([]) == {}
  {}

  lemma ResultWorker(d: Design, w: nat, part: seq<StateId>, names: set<string>, name: string, wait: StateId,
      ctl: Control)
    requires Operation(d, w, part, names, name, wait, ctl) && d.workers[w].Valid()
    ensures var d2 := Result(d, w, part, wait, ctl);
      |d2.workers| == |d.workers| + 1 && d2.workers[w].reset == d.workers[w].reset
  {
    var ks := ResultShape(d, w, part, names, name, wait, ctl);
  }

  /** Any number of breakouts that share the WAIT state is cycle-exact, if in the run of the design before them no
      worker rendered later writes against a state that is moved. */
  lemma BreakOutsAreCycleExact(d: Design, w: nat, wait: StateId, names: set<string>, moves: seq<Move>, ops: Ops,
      powerUp: Env, outside: nat -> Env, n: nat, t: Target)
    requires Operations(d, w, wait, names, moves) && w < |d.workers| && t.name in names
    requires BreakoutProof.AlwaysSilent(d, w, wait, ops, powerUp, outside)
    requires BreakoutProof.AlwaysOnItsWay(d, w, wait, Parts(moves), ops, powerUp, outside)
    requires BreakoutProof.AlwaysClashFree(d, w, Parts(moves), ops, powerUp, outside)
    ensures |Results(d, w, wait, names, moves).workers| >= |d.workers|
    ensures var c, c2 := Run(d, ops, powerUp, outside, n),
      Run(Results(d, w, wait, names, moves), ops, powerUp, outside, n);
      Value(c2.env, t) == Value(c.env, t) && (forall v :: 0 <= v < |d.workers| && v != w ==> c2.at[v] == c.at[v])
  {
    NeverMoved(d, w, wait, names, moves);
    OneAfterAnother(d, w, wait, names, moves, Parts(moves), ops, powerUp, outside, n, t);
  }

  lemma {:induction false} OneAfterAnother(d: Design, w: nat, wait: StateId, names: set<string>, moves: seq<Move>,
      moved: set<StateId>, ops: Ops, powerUp: Env, outside: nat -> Env, n: nat, t: Target)
    requires Operations(d, w, wait, names, moves) && w < |d.workers| && t.name in names
    requires BreakoutProof.AlwaysSilent(d, w, wait, ops, powerUp, outside)
    requires BreakoutProof.AlwaysOnItsWay(d, w, wait, moved, ops, powerUp, outside)
    requires BreakoutProof.AlwaysClashFree(d, w, moved, ops, powerUp, outside)
    requires Parts(moves) <= moved && wait !in moved && d.workers[w].reset !in moved
    ensures |Results(d, w, wait, names, moves).workers| >= |d.workers|
    ensures var c, c2 := Run(d, ops, powerUp, outside, n),
      Run(Results(d, w, wait, names, moves), ops, powerUp, outside, n);
      Value(c2.env, t) == Value(c.env, t) && (forall v :: 0 <= v < |d.workers| && v != w ==> c2.at[v] == c.at[v])
    decreases |moves|
  {
    hide Result, Run, BreakoutProof.AlwaysSilent, BreakoutProof.AlwaysClashFree, BreakoutProof.AlwaysOnItsWay,
      CleanBorder, Crossing, FsmWithin, Listed, CanWait, Parts, StatesOf;
    if moves != [] {
      var m := moves[0];
      var d2 := Result(d, w, m.part, wait, m.ctl);
      PartsOfRest(moves);
      BreakoutProof.FewerStates(d, w, wait, StatesOf(m.part), moved, ops, powerUp, outside);
      ResultWorker(d, w, m.part, names, m.name, wait, m.ctl);
      SilentAfter(d, w, m.part, names, m.name, wait, m.ctl, ops, powerUp, outside);
      ClashFreeAfter(d, w, m.part, names, m.name, wait, m.ctl, moved, ops, powerUp, outside);
      BreakOutIsCycleExact(d, w, m.part, names, m.name, wait, m.ctl, ops, powerUp, outside, n, t);
      OneAfterAnother(d2, w, wait, names + m.ctl.Names(), moves[1..], moved, ops, powerUp, outside, n, t);
    }
  }

  /** After a breakout, WAIT does not leave for it while the worker is elsewhere. */
  lemma SilentAfter(d: Design, w: nat, part: seq<StateId>, names: set<string>, name: string, wait: StateId,
      ctl: Control, ops: Ops, powerUp: Env, outside: nat -> Env)
    requires Operation(d, w, part, names, name, wait, ctl) && d.workers[w].Valid()
    requires BreakoutProof.AlwaysSilent(d, w, wait, ops, powerUp, outside)
    requires BreakoutProof.AlwaysOnItsWay(d, w, wait, StatesOf(part), ops, powerUp, outside)
    requires BreakoutProof.AlwaysClashFree(d, w, StatesOf(part), ops, powerUp, outside)
    ensures var d2 := Result(d, w, part, wait, ctl);
      && |d2.workers| == |d.workers| + 1 && Quiet(d2.workers[w].At(wait).assigns)
      && BreakoutProof.AlwaysSilent(d2, w, wait, ops, powerUp, outside)
  {
    hide BreakoutProof.AlwaysSilent, BreakoutProof.AlwaysClashFree, BreakoutProof.AlwaysOnItsWay;
    var ks := ResultShape(d, w, part, names, name, wait, ctl);
    BreakoutProof.StaysSilent(d, Result(d, w, part, wait, ctl), w, part, ctl, wait, ks, names, ops, powerUp, outside);
  }

  /** ... and the other states still meet no clash, the new worker included. */
  lemma ClashFreeAfter(d: Design, w: nat, part: seq<StateId>, names: set<string>, name: string, wait: StateId,
      ctl: Control, moved: set<StateId>, ops: Ops, powerUp: Env, outside: nat -> Env)
    requires Operation(d, w, part, names, name, wait, ctl) && d.workers[w].Valid()
    requires BreakoutProof.AlwaysSilent(d, w, wait, ops, powerUp, outside)
    requires BreakoutProof.AlwaysOnItsWay(d, w, wait, moved, ops, powerUp, outside)
    requires BreakoutProof.AlwaysClashFree(d, w, moved, ops, powerUp, outside)
    requires StatesOf(part) <= moved && wait !in moved && d.workers[w].reset !in moved
    ensures var d2 := Result(d, w, part, wait, ctl);
      && |d2.workers| == |d.workers| + 1 && BreakoutProof.AlwaysClashFree(d2, w, moved, ops, powerUp, outside)
      && BreakoutProof.AlwaysOnItsWay(d2, w, wait, moved, ops, powerUp, outside)
  {
    hide BreakoutProof.AlwaysSilent, BreakoutProof.AlwaysClashFree, BreakoutProof.AlwaysOnItsWay, StatesOf;
    var ks := ResultShape(d, w, part, names, name, wait, ctl);
    var d2 := Result(d, w, part, wait, ctl);
    BreakoutProof.StaysClashFree(d, d2, w, part, ctl, wait, ks, names, moved, ops, powerUp, outside);
    BreakoutProof.StaysOnItsWay(d, d2, w, part, ctl, wait, ks, names, moved, ops, powerUp, outside);
  }

  /** The condition is exact: all signals the engine had agree in every cycle exactly if nothing clashes. */
  lemma CycleExactExactly(d: Design, w: nat, part: seq<StateId>, names: set<string>, name: string, wait: StateId,
      ctl: Control, ops: Ops, powerUp: Env, outside: nat -> Env)
    requires Operation(d, w, part, names, name, wait, ctl) && d.workers[w].Valid()
    requires BreakoutProof.AlwaysSilent(d, w, wait, ops, powerUp, outside)
    requires BreakoutProof.AlwaysOnItsWay(d, w, wait, StatesOf(part), ops, powerUp, outside)
    ensures var d2 := Result(d, w, part, wait, ctl);
      && |d2.workers| == |d.workers| + 1
      && ((forall n: nat :: BreakoutProof.AgreeIn(d, d2, names, ops, powerUp, outside, n))
          <==> BreakoutProof.AlwaysClashFree(d, w, StatesOf(part), ops, powerUp, outside))
  {
    hide BreakoutProof.AlwaysSilent, BreakoutProof.AlwaysClashFree, BreakoutProof.AlwaysOnItsWay, StatesOf,
      BreakoutProof.AgreeIn;
    var ks := ResultShape(d, w, part, names, name, wait, ctl);
    BreakoutProof.AgreesExactly(d, Result(d, w, part, wait, ctl), w, part, ctl, wait, ks, names, ops, powerUp, outside);
  }
}
