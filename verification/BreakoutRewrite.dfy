/** The surgery itself: the loops of `_state_breakout_single_partition`, and the proof that
they produce the two machines of BreakoutShape. */
module BreakoutRewrite {
  import opened Signals
  import opened Selectors
  import opened Cycle
  import opened Engine
  import opened BreakoutModel

  // ----- What the loops compute -----

  /** One handled state: its transitions, the two selector dictionaries, the transitions added
      on the other side, and the number of crossings so far. */
  datatype Side = Side(trans: seq<Transition>, pulse: Dict, select: Dict, other: seq<Transition>, count: nat)

  /** `d[cond] = value` on an insertion-ordered dictionary. */
  function Put(d: Dict, cond: Expr, value: int): Dict {
    match d
    case Empty => Entry(On(cond), Level(Const(value)), Empty)
    case Entry(k, item, rest) =>
      if k == On(cond) then Entry(k, Level(Const(value)), rest) else Entry(k, item, Put(rest, cond, value))
  }

  /** The conditions of a dictionary in order, and what it holds for one. */
  function Conditions(d: Dict): seq<Key> {
    match d
    case Empty => []
    case Entry(k, _, rest) => [k] + Conditions(rest)
  }

  function Found(d: Dict, k: Key): Option<Item> {
    match d
    case Empty => None
    case Entry(k2, item, rest) => if k2 == k then Some(item) else Found(rest, k)
  }

  /** A condition that is there keeps its place, a new one is the last; the others keep what they had. */
  lemma {:induction false} PutExactly(d: Dict, cond: Expr, value: int, k: Key)
    ensures Found(Put(d, cond, value), k) == if k == On(cond) then Some(Level(Const(value))) else Found(d, k)
    ensures Conditions(Put(d, cond, value)) ==
            if On(cond) in Conditions(d) then Conditions(d) else Conditions(d) + [On(cond)]
    decreases d
  {
    if d.Entry? && d.key != On(cond) {
      PutExactly(d.rest, cond, value, k);
      assert Conditions(d) == [d.key] + Conditions(d.rest);
    }
  }

  /** Transitions across the border lead to `stop` and are numbered; the others follow the move. */
  function Reroute(ts: seq<Transition>, part: seq<StateId>, inward: bool, stop: StateId,
                   pulse: Target, select: Target, k: nat): Side
    decreases |ts|
  {
    if ts == [] then Side([], Empty, Empty, [], k)
    else
      var t := ts[|ts| - 1];
      var r := Reroute(ts[..|ts| - 1], part, inward, stop, pulse, select, k);
      if Crosses(part, inward, t.target) then
        Side(r.trans + [Transition(t.cond, stop)], Put(r.pulse, t.cond, 1), Put(r.select, t.cond, r.count),
             r.other + [Transition(BreakoutModel.Guard(pulse, select, r.count), Moved(part, t.target))], r.count + 1)
      else
        r.(trans := r.trans + [Transition(t.cond, Moved(part, t.target))])
  }

  /** `add_selector_assignment(..., True)`: short circuits are allowed, so no error arises. */
  function Selected(d: Dict): Selector {
    match Normalise(d, true)
    case Some(s) => s
    case None => NoDefault
  }

  function Rerouted(st: State, side: Side, pulse: Target, select: Target): State {
    st.(trans := side.trans,
        assigns := st.assigns + [When(pulse, Selected(side.pulse)), When(select, Selected(side.select))])
  }

  datatype Progress = Progress(body: map<StateId, State>, other: seq<Transition>, count: nat)

  function RerouteNext(r: Progress, s: StateId, st: State, part: seq<StateId>, inward: bool, stop: StateId,
                       pulse: Target, select: Target): Progress {
    var side := Reroute(st.trans, part, inward, stop, pulse, select, r.count);
    Progress(r.body[s := Rerouted(st, side, pulse, select)], r.other + side.other, side.count)
  }

  /** All states of a worker in list order, except the reset state. */
  function RerouteAll(order: seq<StateId>, skip: StateId, body: map<StateId, State>, part: seq<StateId>, inward: bool,
                      stop: StateId, pulse: Target, select: Target): Progress
    requires forall s :: s in order ==> s in body
    decreases |order|
  {
    if order == [] then Progress(body, [], 0)
    else
      var s := order[|order| - 1];
      var r := RerouteAll(order[..|order| - 1], skip, body, part, inward, stop, pulse, select);
      if s == skip then r else RerouteNext(r, s, body[s], part, inward, stop, pulse, select)
  }

  function Without(states: seq<StateId>, gone: seq<StateId>): (r: seq<StateId>)
    ensures forall s :: s in r <==> s in states && s !in gone
    ensures |r| <= |states|
  {
    if states == [] then []
    else
      var init := Without(states[..|states| - 1], gone);
      if states[|states| - 1] in gone then init else init + [states[|states| - 1]]
  }

  lemma WithoutDistinct(states: seq<StateId>, gone: seq<StateId>)
    requires forall i, j :: 0 <= i < j < |states| ==> states[i] != states[j]
    ensures forall i, j :: 0 <= i < j < |Without(states, gone)| ==> Without(states, gone)[i] != Without(states, gone)[j]
    decreases |states|
  {
    if states != [] {
      WithoutDistinct(states[..|states| - 1], gone);
    }
  }

  lemma WithoutStep(states: seq<StateId>, gone: seq<StateId>, s: StateId)
    ensures Without(Without(states, gone), [s]) == Without(states, gone + [s])
    decreases |states|
  {
    if states != [] {
      var init, last := states[..|states| - 1], states[|states| - 1];
      WithoutStep(init, gone, s);
      var w := Without(init, gone);
      if last !in gone {
        assert (w + [last])[..|w|] == w;
      }
    }
  }

  // ----- The loops -----

  method RerouteState(ts: seq<Transition>, part: seq<StateId>, inward: bool, stop: StateId,
                      pulse: Target, select: Target, k: nat) returns (side: Side)
    ensures side == Reroute(ts, part, inward, stop, pulse, select, k)
  {
    var trans, other: seq<Transition> := [], [];
    var pulseAssign, selectAssign, count := Empty, Empty, k;
    for i := 0 to |ts|
      invariant Side(trans, pulseAssign, selectAssign, other, count) ==
        Reroute(ts[..i], part, inward, stop, pulse, select, k)
    {
      assert ts[..i + 1][..i] == ts[..i];
      if Crosses(part, inward, ts[i].target) {
        selectAssign := Put(selectAssign, ts[i].cond, count);
        pulseAssign := Put(pulseAssign, ts[i].cond, 1);
        trans := trans + [Transition(ts[i].cond, stop)];
        other := other + [Transition(BreakoutModel.Guard(pulse, select, count), Moved(part, ts[i].target))];
        count := count + 1;
      } else {
        trans := trans + [Transition(ts[i].cond, Moved(part, ts[i].target))];
      }
    }
    assert ts[..|ts|] == ts;
    side := Side(trans, pulseAssign, selectAssign, other, count);
  }

  method RerouteWorker(order: seq<StateId>, skip: StateId, body: map<StateId, State>, part: seq<StateId>, inward: bool,
                       stop: StateId, pulse: Target, select: Target)
    returns (p: Progress)
    requires forall s :: s in order ==> s in body
    requires forall i, j :: 0 <= i < j < |order| ==> order[i] != order[j]
    ensures p == RerouteAll(order, skip, body, part, inward, stop, pulse, select)
  {
    var now, other, count := body, [], 0;
    for i := 0 to |order|
      invariant Progress(now, other, count) == RerouteAll(order[..i], skip, body, part, inward, stop, pulse, select)
      invariant forall j :: i <= j < |order| ==> order[j] in now && now[order[j]] == body[order[j]]
    {
      assert order[..i + 1][..i] == order[..i];
      var s := order[i];
      if s != skip {
        var side := RerouteState(now[s].trans, part, inward, stop, pulse, select, count);
        now := now[s := Rerouted(now[s], side, pulse, select)];
        other, count := other + side.other, side.count;
      }
    }
    assert order[..|order|] == order;
    p := Progress(now, other, count);
  }

  /** `move_partition_to_worker`: each state leaves the old list and gets a copy, with the same
      assignments and transitions, in the new worker. */
  method MovePartition(source: Fsm, target: Fsm, part: seq<StateId>) returns (left: Fsm, right: Fsm)
    requires forall s :: s in part ==> s in source.body
    ensures left == Shrunk(source, part)
    ensures right == Grown(target, source, part)
  {
    left, right := source, target;
    assert Without(source.states, []) == source.states by { WithoutNothing(source.states); }
    for i := 0 to |part|
      invariant left == Shrunk(source, part[..i])
      invariant right == Grown(target, source, part[..i])
    {
      assert part[..i + 1] == part[..i] + [part[i]];
      ShrunkStep(source, part[..i], part[i]);
      GrownStep(target, source, part[..i], part[i]);
      left := left.(states := Without(left.states, [part[i]]), body := left.body - {part[i]});
      var st := source.body[part[i]];
      right := right.(states := right.states + [2 + i],
                      body := right.body[2 + i := NoState.(assigns := st.assigns, trans := st.trans)]);
    }
    assert part[..|part|] == part;
  }

  lemma WithoutNothing(states: seq<StateId>)
    ensures Without(states, []) == states
  {}

  function Shrunk(f: Fsm, part: seq<StateId>): Fsm {
    f.(states := Without(f.states, part), body := map s | s in f.body && s !in part :: f.body[s])
  }

  function Grown(g: Fsm, f: Fsm, part: seq<StateId>): Fsm
    requires forall s :: s in part ==> s in f.body
    decreases |part|
  {
    if part == [] then g
    else
      var r := Grown(g, f, part[..|part| - 1]);
      var id, st := 1 + |part|, f.body[part[|part| - 1]];
      r.(states := r.states + [id], body := r.body[id := NoState.(assigns := st.assigns, trans := st.trans)])
  }

  lemma ShrunkStep(f: Fsm, part: seq<StateId>, s: StateId)
    ensures var l := Shrunk(f, part);
      Shrunk(f, part + [s]) == l.(states := Without(l.states, [s]), body := l.body - {s})
  {
    WithoutStep(f.states, part, s);
    assert Shrunk(f, part + [s]).body == Shrunk(f, part).body - {s};
  }

  lemma GrownStep(g: Fsm, f: Fsm, part: seq<StateId>, s: StateId)
    requires s in f.body && forall x :: x in part ==> x in f.body
    ensures forall x :: x in part + [s] ==> x in f.body
    ensures var r, id := Grown(g, f, part), 2 + |part|;
      Grown(g, f, part + [s]) == r.(states := r.states + [id],
                                    body := r.body[id := NoState.(assigns := f.body[s].assigns,
                                      trans := f.body[s].trans)])
  {
    assert (part + [s])[..|part|] == part;
  }

  // ----- The whole operation -----

  /** `ceil(log2(n + 1)) + 1` bits for the numbers below n. */
  function SelectWidth(n: nat): nat { CeilLog2(n + 1) + 1 }

  function Crossings(ts: seq<Transition>, part: seq<StateId>, inward: bool): nat
    decreases |ts|
  {
    if ts == [] then 0
    else Crossings(ts[..|ts| - 1], part, inward) + if Crosses(part, inward, ts[|ts| - 1].target) then 1 else 0
  }

  function TotalCrossings(order: seq<StateId>, skip: StateId, body: map<StateId, State>, part: seq<StateId>,
      inward: bool): nat
    requires forall s :: s in order ==> s in body
    decreases |order|
  {
    if order == [] then 0
    else
      var s, n := order[|order| - 1], TotalCrossings(order[..|order| - 1], skip, body, part, inward);
      if s == skip then n else n + Crossings(body[s].trans, part, inward)
  }

  /** One bit more than it takes to tell the numbers up to n apart. */
  lemma SelectWidthExactly(n: nat)
    ensures n + 1 <= Pow2(SelectWidth(n) - 1)
    ensures SelectWidth(n) > 1 ==> Pow2(SelectWidth(n) - 2) <= n
  {}

  ghost predicate NumberedFrom(other: seq<Transition>, pulse: Target, select: Target, k: nat) {
    forall i :: 0 <= i < |other| ==> other[i].cond == BreakoutModel.Guard(pulse, select, k + i)
  }

  lemma {:induction false} RerouteNumbers(ts: seq<Transition>, part: seq<StateId>, inward: bool, stop: StateId,
      pulse: Target, select: Target, k: nat)
    ensures var side := Reroute(ts, part, inward, stop, pulse, select, k);
      side.count == k + |side.other| && |side.other| == Crossings(ts, part, inward)
        && NumberedFrom(side.other, pulse, select, k)
    decreases |ts|
  {
    if ts != [] { RerouteNumbers(ts[..|ts| - 1], part, inward, stop, pulse, select, k); }
  }

  /** Whatever the transitions, all crossings of a worker are numbered 0, 1, 2, ... and there are as many of them as
      the width of the select register is made for. */
  lemma {:induction false} NumberedInOrder(order: seq<StateId>, skip: StateId, body: map<StateId, State>,
      part: seq<StateId>, inward: bool, stop: StateId, pulse: Target, select: Target)
    requires forall s :: s in order ==> s in body
    ensures var p := RerouteAll(order, skip, body, part, inward, stop, pulse, select);
      p.count == |p.other| == TotalCrossings(order, skip, body, part, inward) && NumberedFrom(p.other, pulse, select, 0)
    decreases |order|
  {
    if order != [] {
      var init, s := order[..|order| - 1], order[|order| - 1];
      NumberedInOrder(init, skip, body, part, inward, stop, pulse, select);
      var r := RerouteAll(init, skip, body, part, inward, stop, pulse, select);
      RerouteNumbers(body[s].trans, part, inward, stop, pulse, select, r.count);
    }
  }

  /** The control registers, named after the new worker. */
  function ControlFor(name: string, entries: nat, exits: nat): (ctl: Control)
    ensures ctl.Valid()
  {
    Control(Whole(name + "_TRIGGER", 1), Whole(name + "_TRIGGER_SELECT", SelectWidth(entries)),
            Whole(name + "_FINISH", 1), Whole(name + "_FINISH_SELECT", SelectWidth(exits)))
  }

  function AddReset(f: Fsm, extra: seq<Assignment>): Fsm {
    var st := f.At(f.reset);
    f.(body := f.body[f.reset := st.(assigns := st.assigns + extra)])
  }

  function Extend(f: Fsm, s: StateId, more: seq<Transition>): Fsm {
    var st := f.At(s);
    f.(body := f.body[s := st.(trans := st.trans + more)])
  }

  function FreshWorker(ctl: Control): Fsm {
    Fsm([IDLE_RESET, IDLE],
        map[IDLE_RESET := NoState.(trans := [Transition(True, IDLE)]),
          IDLE := NoState.(assigns := [Always(ctl.finish, False)])],
        IDLE_RESET, False)
  }

  function Copies(n: nat): (r: seq<StateId>)
    ensures |r| == n && forall i :: 0 <= i < n ==> r[i] == 2 + i
  {
    seq(n, i => 2 + i)
  }

  lemma {:induction false} GrownBody(g: Fsm, f: Fsm, part: seq<StateId>)
    requires forall s :: s in part ==> s in f.body
    requires forall s :: s in g.body ==> s < 2
    ensures Grown(g, f, part).reset == g.reset && Grown(g, f, part).syncReset == g.syncReset
    ensures Grown(g, f, part).states == g.states + Copies(|part|)
    ensures forall s :: s in Grown(g, f, part).body <==> s in g.body || 2 <= s < 2 + |part|
    ensures forall s :: s in g.body ==> Grown(g, f, part).body[s] == g.body[s]
    ensures forall c :: 2 <= c < 2 + |part| ==>
      Grown(g, f, part).body[c] == NoState.(assigns := f.body[part[c - 2]].assigns, trans := f.body[part[c - 2]].trans)
    decreases |part|
  {
    if part != [] {
      GrownBody(g, f, part[..|part| - 1]);
      assert Copies(|part|) == Copies(|part| - 1) + [1 + |part|];
    }
  }

  /** The two workers after the move and both handling loops. */
  function Divide(f: Fsm, part: seq<StateId>, wait: StateId, ctl: Control): (Fsm, Fsm)
    requires forall s :: s in f.states ==> s in f.body
    requires forall s :: s in part ==> s in f.body
  {
    var left := Shrunk(f, part);
    var incoming := RerouteAll(left.states, f.reset, left.body, part, true, wait, ctl.trigger, ctl.triggerSelect);
    GrownBody(FreshWorker(ctl), f, part);
    var right := Extend(Grown(FreshWorker(ctl), f, part), IDLE, incoming.other);
    var outgoing := RerouteAll(Copies(|part|), IDLE_RESET, right.body, part, false, IDLE, ctl.finish, ctl.finishSelect);
    (Extend(left.(body := incoming.body), wait, outgoing.other), right.(body := outgoing.body))
  }

  /** The design after breaking `part` out of worker w; the WAIT state is already there. */
  function BrokenOut(d: Design, w: nat, part: seq<StateId>, wait: StateId, ctl: Control): Design
    requires w < |d.workers|
    requires forall s :: s in d.workers[w].states ==> s in d.workers[w].body
    requires forall s :: s in part ==> s in d.workers[w].body
  {
    var workers := d.workers[0 := AddReset(d.workers[0], ctl.Reset())];
    var (left, right) := Divide(workers[w], part, wait, ctl);
    Design(workers[w := left] + [right], d.pulsing + {ctl.trigger.name}, d.inputs)
  }

  function ControlOf(f: Fsm, part: seq<StateId>, name: string): (ctl: Control)
    requires forall s :: s in f.states ==> s in f.body
    requires forall s :: s in part ==> s in f.body
    ensures ctl.Valid()
  {
    ControlFor(name, TotalCrossings(Shrunk(f, part).states, f.reset, f.body, part, true),
               TotalCrossings(part, f.reset, f.body, part, false))
  }

  /** `_get_wait_state`: the WAIT state of the worker, created if there is none. */
  method GetWaitState(e: CoreEngine, w: nat) returns (wait: StateId)
    requires e.Valid() && w < |e.workers|
    requires e.waits[w].Some? ==> e.waits[w].value in e.workers[w].body
    modifies e
    ensures e.Valid() && |e.workers| == old(|e.workers|) && wait in e.workers[w].body
    ensures e.waits == old(e.waits)[w := Some(wait)]
    ensures e.counters == if old(e.waits[w].None?) then old(e.counters)[w := wait + 1] else old(e.counters)
    ensures e.pulsing == old(e.pulsing) && e.inputs == old(e.inputs)
    ensures old(e.waits[w].Some?) ==> wait == old(e.waits[w].value) && e.workers == old(e.workers)
    ensures old(e.waits[w].None?) ==>
      wait == old(e.counters[w]) && e.workers == old(e.workers)[w := WithState(old(e.workers[w]), wait)]
  {
    if e.waits[w].Some? {
      wait := e.waits[w].value;
    } else {
      wait := e.CreateState(w);
      e.waits := e.waits[w := Some(wait)];
    }
  }

  function WithState(f: Fsm, s: StateId): Fsm {
    f.(states := f.states + [s], body := f.body[s := NoState])
  }

  /** The move and both handling loops. */
  method DivideWorker(source: Fsm, part: seq<StateId>, wait: StateId, ctl: Control) returns (left: Fsm, right: Fsm)
    requires forall s :: s in source.states ==> s in source.body
    requires forall i, j :: 0 <= i < j < |source.states| ==> source.states[i] != source.states[j]
    requires forall s :: s in part ==> s in source.body
    ensures (left, right) == Divide(source, part, wait, ctl)
  {
    GrownBody(FreshWorker(ctl), source, part);
    left, right := MovePartition(source, FreshWorker(ctl), part);
    WithoutDistinct(source.states, part);
    var incoming := RerouteWorker(left.states, source.reset, left.body, part, true, wait, ctl.trigger,
      ctl.triggerSelect);
    right := Extend(right, IDLE, incoming.other);
    var outgoing := RerouteWorker(Copies(|part|), IDLE_RESET, right.body, part, false, IDLE, ctl.finish,
      ctl.finishSelect);
    left := Extend(left.(body := incoming.body), wait, outgoing.other);
    right := right.(body := outgoing.body);
  }

  ghost predicate Listed(f: Fsm) {
    && (forall s :: s in f.states ==> s in f.body)
    && (forall i, j :: 0 <= i < j < |f.states| ==> f.states[i] != f.states[j])
  }

  /** The control registers, the new worker and the two handling loops. */
  method HandOver(e: CoreEngine, w: nat, part: seq<StateId>, wait: StateId, ctl: Control)
    requires e.Valid() && w < |e.workers| && wait in e.workers[w].body
    requires part != [] && forall s :: s in part ==> s in e.workers[w].body
    modifies e
    ensures e.CurrentDesign() == BrokenOut(old(e.CurrentDesign()), w, part, wait, ctl)
    ensures e.counters == old(e.counters) + [2 + |part|] && e.waits == old(e.waits) + [None]
    ensures e.Valid() <==> StaysWhole(old(e.workers[w]), part) && wait !in part
  {
    hide StaysWhole, Divide, Without;
    ghost var d := e.CurrentDesign();
    assert e.workers[w].Valid() && e.workers[0].Valid();
    BrokenOutValid(d, w, part, wait, ctl);
    WithReset(e.workers[0], ctl.Reset());
    e.pulsing := e.pulsing + {ctl.trigger.name};
    e.workers := e.workers[0 := AddReset(e.workers[0], ctl.Reset())];
    var left, right := DivideWorker(e.workers[w], part, wait, ctl);
    e.workers := e.workers[w := left] + [right];
    e.counters, e.waits := e.counters + [2 + |part|], e.waits + [None];
  }

  /** The reset state is not moved, and does not lead to what is moved: its transitions are not handled. */
  ghost predicate StaysWhole(f: Fsm, part: seq<StateId>) {
    f.reset !in part && forall i :: 0 <= i < |f.At(f.reset).trans| ==> f.At(f.reset).trans[i].target !in part
  }

  // ----- The engine is in order afterwards -----

  /** Where a handled transition leads. */
  function Handled(part: seq<StateId>, inward: bool, stop: StateId, t: StateId): StateId {
    if Crosses(part, inward, t) then stop else Moved(part, t)
  }

  ghost predicate TransHandled(ts: seq<Transition>, ts2: seq<Transition>, part: seq<StateId>, inward: bool,
      stop: StateId) {
    |ts2| == |ts| && forall i :: 0 <= i < |ts| ==> ts2[i].target == Handled(part, inward, stop, ts[i].target)
  }

  /** The added transitions lead to copies, or back to targets outside the partition. */
  ghost predicate FromCrossings(other: seq<Transition>, part: seq<StateId>, inward: bool, targets: set<StateId>) {
    forall j :: 0 <= j < |other| ==>
      if inward then 2 <= other[j].target < 2 + |part| else other[j].target in targets && other[j].target !in part
  }

  function TargetsOf(ts: seq<Transition>): set<StateId> { set i | 0 <= i < |ts| :: ts[i].target }

  lemma {:induction false} RerouteTargets(ts: seq<Transition>, part: seq<StateId>, inward: bool, stop: StateId,
      pulse: Target, select: Target, k: nat)
    ensures var side := Reroute(ts, part, inward, stop, pulse, select, k);
      TransHandled(ts, side.trans, part, inward, stop) && FromCrossings(side.other, part, inward, TargetsOf(ts))
    decreases |ts|
  {
    if ts != [] {
      var init, t := ts[..|ts| - 1], ts[|ts| - 1].target;
      RerouteTargets(init, part, inward, stop, pulse, select, k);
      var r, side := Reroute(init, part, inward, stop, pulse, select, k),
        Reroute(ts, part, inward, stop, pulse, select, k);
      assert t in TargetsOf(ts);
      assert forall x :: x in TargetsOf(init) ==> x in TargetsOf(ts);
    }
  }

  /** All targets in the listed states. */
  function AllTargets(order: seq<StateId>, body: map<StateId, State>): set<StateId> {
    set s, i | s in order && s in body && 0 <= i < |body[s].trans| :: body[s].trans[i].target
  }

  /** What handling these states comes to. */
  ghost predicate AllHandledIn(order: seq<StateId>, skip: StateId, body: map<StateId, State>, part: seq<StateId>,
      inward: bool, stop: StateId, p: Progress) {
    && p.body.Keys == body.Keys && FromCrossings(p.other, part, inward, AllTargets(order, body))
    && forall s {:trigger p.body[s]} :: s in body ==>
         if s in order && s != skip then TransHandled(body[s].trans, p.body[s].trans, part, inward, stop)
         else p.body[s] == body[s]
  }

  lemma MoreCrossings(other: seq<Transition>, more: seq<Transition>, part: seq<StateId>, inward: bool,
      x: set<StateId>, y: set<StateId>, z: set<StateId>)
    requires FromCrossings(other, part, inward, x) && FromCrossings(more, part, inward, y) && x <= z && y <= z
    ensures FromCrossings(other + more, part, inward, z)
  {}

  lemma MoreTargets(init: seq<StateId>, s: StateId, body: map<StateId, State>)
    requires s in body
    ensures AllTargets(init, body) <= AllTargets(init + [s], body)
    ensures TargetsOf(body[s].trans) <= AllTargets(init + [s], body)
  {}

  lemma HandledMore(init: seq<StateId>, s: StateId, skip: StateId, body: map<StateId, State>, part: seq<StateId>,
      inward: bool, stop: StateId, pulse: Target, select: Target, r: Progress)
    requires s in body && s !in init && s != skip && AllHandledIn(init, skip, body, part, inward, stop, r)
    ensures AllHandledIn(init + [s], skip, body, part, inward, stop,
              RerouteNext(r, s, body[s], part, inward, stop, pulse, select))
  {
    hide Reroute, FromCrossings, TransHandled, AllTargets, TargetsOf;
    var side := Reroute(body[s].trans, part, inward, stop, pulse, select, r.count);
    RerouteTargets(body[s].trans, part, inward, stop, pulse, select, r.count);
    MoreTargets(init, s, body);
    MoreCrossings(r.other, side.other, part, inward, AllTargets(init, body), TargetsOf(body[s].trans),
      AllTargets(init + [s], body));
  }

  lemma SkippedToo(init: seq<StateId>, skip: StateId, body: map<StateId, State>, part: seq<StateId>, inward: bool,
      stop: StateId, r: Progress)
    requires skip in body && AllHandledIn(init, skip, body, part, inward, stop, r)
    ensures AllHandledIn(init + [skip], skip, body, part, inward, stop, r)
  {
    hide TransHandled, AllTargets;
    MoreTargets(init, skip, body);
  }

  lemma {:induction false} RerouteAllTargets(order: seq<StateId>, skip: StateId, body: map<StateId, State>,
      part: seq<StateId>, inward: bool, stop: StateId, pulse: Target, select: Target)
    requires forall s :: s in order ==> s in body
    requires forall i, j :: 0 <= i < j < |order| ==> order[i] != order[j]
    ensures AllHandledIn(order, skip, body, part, inward, stop,
              RerouteAll(order, skip, body, part, inward, stop, pulse, select))
    decreases |order|
  {
    hide RerouteNext, AllHandledIn;
    if order != [] {
      var init, s := order[..|order| - 1], order[|order| - 1];
      assert order == init + [s];
      RerouteAllTargets(init, skip, body, part, inward, stop, pulse, select);
      var r := RerouteAll(init, skip, body, part, inward, stop, pulse, select);
      if s == skip {
        SkippedToo(init, skip, body, part, inward, stop, r);
      } else {
        HandledMore(init, s, skip, body, part, inward, stop, pulse, select, r);
      }
    } else {
      NothingHandled(skip, body, part, inward, stop);
    }
  }

  lemma NothingHandled(skip: StateId, body: map<StateId, State>, part: seq<StateId>, inward: bool, stop: StateId)
    ensures AllHandledIn([], skip, body, part, inward, stop, Progress(body, [], 0))
  {}

  /** The old worker is in order exactly if it stays whole and WAIT is not moved. */
  lemma LeftValid(f: Fsm, part: seq<StateId>, wait: StateId, p: Progress, more: seq<Transition>)
    requires f.Valid() && wait in f.body
    requires AllHandledIn(Shrunk(f, part).states, f.reset, Shrunk(f, part).body, part, true, wait, p)
    requires FromCrossings(more, part, false, f.body.Keys)
    ensures Extend(Shrunk(f, part).(body := p.body), wait, more).Valid() <==> StaysWhole(f, part) && wait !in part
    ensures Extend(Shrunk(f, part).(body := p.body), wait, more).body.Keys <= f.body.Keys
  {
    hide AllHandledIn, Without, AllTargets;
    var left := Shrunk(f, part);
    var g := Extend(left.(body := p.body), wait, more);
    WithoutDistinct(f.states, part);
    assert p.body.Keys == left.body.Keys by { HandledKeys(left.states, f.reset, left.body, part, true, wait, p); }
    if StaysWhole(f, part) && wait !in part {
      forall s, k | s in g.body && 0 <= k < |g.body[s].trans| ensures g.body[s].trans[k].target in g.body {
        LeftTargets(f, part, wait, p, s);
      }
    } else if wait in part {
      assert wait in g.body && wait !in g.states;
    } else if f.reset !in part {
      LeftReset(f, part, wait, p);
      var i :| 0 <= i < |f.body[f.reset].trans| && f.body[f.reset].trans[i].target in part;
      assert f.body[f.reset].trans[i].target !in g.body;
      assert g.body[f.reset].trans[i] == f.body[f.reset].trans[i];
    }
  }

  lemma HandledKeys(order: seq<StateId>, skip: StateId, body: map<StateId, State>, part: seq<StateId>, inward: bool,
      stop: StateId, p: Progress)
    requires AllHandledIn(order, skip, body, part, inward, stop, p)
    ensures p.body.Keys == body.Keys
  {}

  lemma LeftReset(f: Fsm, part: seq<StateId>, wait: StateId, p: Progress)
    requires f.reset in f.body && f.reset !in part
    requires AllHandledIn(Shrunk(f, part).states, f.reset, Shrunk(f, part).body, part, true, wait, p)
    ensures f.reset in p.body && p.body[f.reset] == f.body[f.reset]
  {
    assert f.reset in Shrunk(f, part).body;
  }

  lemma LeftTargets(f: Fsm, part: seq<StateId>, wait: StateId, p: Progress, s: StateId)
    requires f.Valid() && wait in f.body && wait !in part && StaysWhole(f, part) && s in f.body && s !in part
    requires AllHandledIn(Shrunk(f, part).states, f.reset, Shrunk(f, part).body, part, true, wait, p)
    ensures s in p.body
    ensures forall k :: 0 <= k < |p.body[s].trans| ==> p.body[s].trans[k].target in Shrunk(f, part).body
  {
    hide AllTargets, Without;
    var left := Shrunk(f, part);
    assert s in left.states && s in left.body && s in p.body;
    if s != f.reset {
      assert TransHandled(left.body[s].trans, p.body[s].trans, part, true, wait);
      forall k | 0 <= k < |p.body[s].trans| ensures p.body[s].trans[k].target in left.body {
        assert f.body[s].trans[k].target in f.body;
      }
    } else {
      assert p.body[s] == f.body[s] == f.At(f.reset);
    }
  }

  lemma RightSource(f: Fsm, part: seq<StateId>, ctl: Control, starts: seq<Transition>)
    requires forall s :: s in part ==> s in f.body
    ensures var right := Extend(Grown(FreshWorker(ctl), f, part), IDLE, starts);
      && right.reset == IDLE_RESET && right.states == [IDLE_RESET, IDLE] + Copies(|part|)
      && (forall c: StateId :: c in right.body <==> c < 2 + |part|)
      && right.body[IDLE_RESET].trans == [Transition(True, IDLE)] && right.body[IDLE].trans == starts
      && forall c :: 2 <= c < 2 + |part| ==> right.body[c].trans == f.body[part[c - 2]].trans
  {
    GrownBody(FreshWorker(ctl), f, part);
    assert [] + starts == starts;
    var grown := Grown(FreshWorker(ctl), f, part);
    forall c: StateId ensures c in Extend(grown, IDLE, starts).body <==> c < 2 + |part| {
      assert c in FreshWorker(ctl).body <==> c == IDLE_RESET || c == IDLE;
      assert c in grown.body <==> c in FreshWorker(ctl).body || 2 <= c < 2 + |part|;
    }
  }

  lemma ListedCopies(n: nat)
    ensures var states := [IDLE_RESET, IDLE] + Copies(n);
      && (forall c: StateId :: c in states <==> c < 2 + n)
      && forall i, j :: 0 <= i < j < |states| ==> states[i] != states[j]
  {
    var states := [IDLE_RESET, IDLE] + Copies(n);
    assert forall i :: 0 <= i < |states| ==> states[i] == i;
    forall c: StateId ensures c in states <==> c < 2 + n {
      if c < 2 + n { assert states[c] == c; }
      if c in states { var i :| 0 <= i < |states| && states[i] == c; }
    }
  }

  /** The new worker is in order in any case. */
  lemma RightValid(f: Fsm, part: seq<StateId>, right: Fsm, starts: seq<Transition>, q: Progress)
    requires f.Closed() && part != [] && forall s :: s in part ==> s in f.body
    requires right.reset == IDLE_RESET && right.states == [IDLE_RESET, IDLE] + Copies(|part|)
    requires forall c: StateId :: c in right.body <==> c < 2 + |part|
    requires right.body[IDLE_RESET].trans == [Transition(True, IDLE)] && right.body[IDLE].trans == starts
    requires forall c :: 2 <= c < 2 + |part| ==> right.body[c].trans == f.body[part[c - 2]].trans
    requires FromCrossings(starts, part, true, f.body.Keys)
    requires AllHandledIn(Copies(|part|), IDLE_RESET, right.body, part, false, IDLE, q)
    ensures right.(body := q.body).Valid() && FromCrossings(q.other, part, false, f.body.Keys)
  {
    hide AllTargets, TransHandled;
    var g := right.(body := q.body);
    forall c, k | c in g.body && 0 <= k < |g.body[c].trans| ensures g.body[c].trans[k].target in g.body {
      if c >= 2 {
        assert Copies(|part|)[c - 2] == c && part[c - 2] in part;
        assert TransHandled(right.body[c].trans, q.body[c].trans, part, false, IDLE);
        CopyInside(right.body[c].trans, q.body[c].trans, part);
      } else {
        assert q.body[c] == right.body[c];
      }
    }
    ListedCopies(|part|);
    CopyTargets(f, part, right);
    assert AllTargets(Copies(|part|), right.body) <= f.body.Keys;
  }

  ghost predicate CopyLeads(ts: seq<Transition>, n: nat) {
    forall k :: 0 <= k < |ts| ==> 1 <= ts[k].target < 2 + n
  }

  lemma CopyInside(ts: seq<Transition>, ts2: seq<Transition>, part: seq<StateId>)
    requires TransHandled(ts, ts2, part, false, IDLE)
    ensures CopyLeads(ts2, |part|)
  {}

  lemma CopyTargets(f: Fsm, part: seq<StateId>, right: Fsm)
    requires f.Closed() && forall s :: s in part ==> s in f.body
    requires forall c :: 2 <= c < 2 + |part| ==>
               c in right.body && right.body[c].trans == f.body[part[c - 2]].trans
    ensures AllTargets(Copies(|part|), right.body) <= f.body.Keys
  {
    forall t | t in AllTargets(Copies(|part|), right.body) ensures t in f.body {
      var c, i :| c in Copies(|part|) && c in right.body && 0 <= i < |right.body[c].trans|
        && right.body[c].trans[i].target == t;
      assert part[c - 2] in part;
    }
  }

  lemma WithReset(f: Fsm, extra: seq<Assignment>)
    requires f.Valid()
    ensures AddReset(f, extra).Valid() && AddReset(f, extra).body.Keys == f.body.Keys
    ensures AddReset(f, extra).reset == f.reset
      && AddReset(f, extra).At(f.reset).trans == f.At(f.reset).trans
  {
    var g := AddReset(f, extra);
    forall s | s in f.body ensures g.body[s].trans == f.body[s].trans {}
  }

  lemma HandledEntries(order: seq<StateId>, skip: StateId, body: map<StateId, State>, part: seq<StateId>,
      stop: StateId, p: Progress, targets: set<StateId>)
    requires AllHandledIn(order, skip, body, part, true, stop, p)
    ensures FromCrossings(p.other, part, true, targets)
  {}

  lemma DivideValid(f: Fsm, part: seq<StateId>, wait: StateId, ctl: Control)
    requires f.Valid() && wait in f.body && part != [] && forall s :: s in part ==> s in f.body
    ensures var (left, right) := Divide(f, part, wait, ctl);
      && (left.Valid() <==> StaysWhole(f, part) && wait !in part) && right.Valid()
      && (forall s :: s in right.body ==> s < 2 + |part|) && left.body.Keys <= f.body.Keys
  {
    hide RerouteAll, AllHandledIn, StaysWhole, Grown, Extend, AllTargets;
    var left := Shrunk(f, part);
    WithoutDistinct(f.states, part);
    var incoming := RerouteAll(left.states, f.reset, left.body, part, true, wait, ctl.trigger, ctl.triggerSelect);
    RerouteAllTargets(left.states, f.reset, left.body, part, true, wait, ctl.trigger, ctl.triggerSelect);
    HandledEntries(left.states, f.reset, left.body, part, wait, incoming, f.body.Keys);
    GrownBody(FreshWorker(ctl), f, part);
    var right := Extend(Grown(FreshWorker(ctl), f, part), IDLE, incoming.other);
    RightSource(f, part, ctl, incoming.other);
    var outgoing := RerouteAll(Copies(|part|), IDLE_RESET, right.body, part, false, IDLE, ctl.finish, ctl.finishSelect);
    RerouteAllTargets(Copies(|part|), IDLE_RESET, right.body, part, false, IDLE, ctl.finish, ctl.finishSelect);
    RightValid(f, part, right, incoming.other, outgoing);
    LeftValid(f, part, wait, incoming, outgoing.other);
  }

  lemma BrokenOutValid(d: Design, w: nat, part: seq<StateId>, wait: StateId, ctl: Control)
    requires d.Valid() && w < |d.workers| && wait in d.workers[w].body
    requires part != [] && forall s :: s in part ==> s in d.workers[w].body
    ensures var d2 := BrokenOut(d, w, part, wait, ctl);
      && (d2.Valid() <==> StaysWhole(d.workers[w], part) && wait !in part)
      && |d2.workers| == |d.workers| + 1
      && (forall v, s :: 0 <= v < |d.workers| && s in d2.workers[v].body ==> s in d.workers[v].body)
      && forall s :: s in d2.workers[|d.workers|].body ==> s < 2 + |part|
  {
    hide Divide, AddReset;
    var workers := d.workers[0 := AddReset(d.workers[0], ctl.Reset())];
    WithReset(d.workers[0], ctl.Reset());
    DivideValid(workers[w], part, wait, ctl);
    var (left, right) := Divide(workers[w], part, wait, ctl);
    var d2 := BrokenOut(d, w, part, wait, ctl);
    assert d2.workers == workers[w := left] + [right];
    assert d2.workers[w] == left && d2.workers[|d.workers|] == right;
    assert StaysWhole(workers[w], part) <==> StaysWhole(d.workers[w], part);
    forall v | 0 <= v < |d.workers| && v != w ensures d2.workers[v].Valid() {
      assert d2.workers[v] == workers[v];
    }
  }

  /** `_state_breakout_single_partition` on an engine, for a partition of states of
      worker w. */
  method BreakOut(e: CoreEngine, w: nat, part: seq<StateId>, name: string) returns (wait: StateId, ctl: Control)
    requires e.Valid() && w < |e.workers|
    requires e.waits[w].Some? ==> e.waits[w].value in e.workers[w].body
    requires forall s :: s in part ==> s in e.workers[w].body
    modifies e
    ensures part == [] ==>
      e.CurrentDesign() == old(e.CurrentDesign()) && e.counters == old(e.counters) && e.waits == old(e.waits)
    ensures part != [] ==>
      && e.waits == old(e.waits)[w := Some(wait)] + [None]
      && e.counters == (if old(e.waits[w].None?) then old(e.counters)[w := wait + 1] else old(e.counters))
                       + [2 + |part|]
      && (e.Valid() <==> old(StaysWhole(e.workers[w], part)) && wait !in part)
    ensures part != [] ==>
      var d := old(e.CurrentDesign());
      var f := if old(e.waits[w].None?) then WithState(d.workers[w], wait) else d.workers[w];
      && wait == (if old(e.waits[w].None?) then old(e.counters[w]) else old(e.waits[w].value))
      && (wait in d.workers[w].body <==> old(e.waits[w].Some?))
      && Listed(f) && (forall s :: s in part ==> s in f.body)
      && ctl == ControlOf(f, part, name)
      && e.CurrentDesign() == BrokenOut(d.(workers := d.workers[w := f]), w, part, wait, ctl)
  {
    hide BrokenOut, StaysWhole, ControlOf, Without;
    wait, ctl := 0, ControlFor(name, 0, 0);
    if part == [] { return; }
    assert e.workers[w].Valid();
    wait := GetWaitState(e, w);
    assert e.workers[w].Valid();
    assert old(e.waits[w].Some?) ==> e.workers == old(e.workers)[w := old(e.workers[w])];
    ctl := ControlOf(e.workers[w], part, name);
    HandOver(e, w, part, wait, ctl);
    StaysWholeSame(old(e.workers[w]), wait, part);
  }

  lemma StaysWholeSame(f: Fsm, wait: StateId, part: seq<StateId>)
    requires f.reset in f.body && (wait !in f.body ==> wait != f.reset)
    ensures StaysWhole(WithState(f, wait), part) <==> StaysWhole(f, part) || (wait == f.reset && f.reset !in part)
  {
    assert WithState(f, wait).At(f.reset) == if wait == f.reset then NoState else f.At(f.reset);
  }
}
