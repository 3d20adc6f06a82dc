/** State breakout: the states of a partition move into a new worker, a WAIT state takes their
place, and the two workers hand over with a trigger pulse, a finish flag and two select
registers.

`BreakoutShape` describes the two machines after the surgery; `Breakout...` lemmas prove that
the design before and the design after hold the same values in every cycle. */
module BreakoutModel {
  import opened Signals
  import opened Selectors
  import opened Cycle

  /** The four registers created for one breakout. */
  datatype Control = Control(trigger: Target, triggerSelect: Target, finish: Target, finishSelect: Target) {
    ghost predicate Valid() {
      && trigger.Whole? && triggerSelect.Whole? && finish.Whole? && finishSelect.Whole?
      && trigger.width == finish.width == 1
      && trigger.name != triggerSelect.name && trigger.name != finish.name && trigger.name != finishSelect.name
      && triggerSelect.name != finish.name && triggerSelect.name != finishSelect.name
      && finish.name != finishSelect.name
    }

    function Names(): set<string> { {trigger.name, triggerSelect.name, finish.name, finishSelect.name} }

    function Reset(): seq<Assignment> {
      [Always(trigger, False), Always(finish, False), Always(triggerSelect, False), Always(finishSelect, False)]
    }
  }

  const IDLE_RESET: StateId := 0
  const IDLE: StateId := 1

  function IndexOf(part: seq<StateId>, s: StateId): (i: nat)
    requires s in part
    ensures i < |part| && part[i] == s
  {
    if part[0] == s then 0 else 1 + IndexOf(part[1..], s)
  }

  /** Where a state of the old worker is found afterwards. */
  function Moved(part: seq<StateId>, s: StateId): StateId {
    if s in part then 2 + IndexOf(part, s) else s
  }

  /** `pulse == 1 & select == k` */
  function Guard(pulse: Target, select: Target, k: nat): Expr {
    All(Eq(Sig(pulse), Const(1)), Eq(Sig(select), Const(k)))
  }

  /** The selector assignments added to a state: with a constantly true crossing number k, or without. */
  function Announce(pulse: Target, select: Target, k: Option<nat>): seq<Assignment> {
    match k
    case None => [When(pulse, NoDefault), When(select, NoDefault)]
    case Some(n) => [When(pulse, Case(True, Plain(Const(1)), NoDefault)),
                     When(select, Case(True, Plain(Const(n)), NoDefault))]
  }

  // ----- The partitions for which breakout is cycle-exact -----

  /** A transition crosses the border of the partition, inward or outward. */
  predicate Crosses(part: seq<StateId>, inward: bool, t: StateId) { (t in part) == inward }

  ghost predicate Crossing(st: State, part: seq<StateId>, inward: bool) {
    exists i :: 0 <= i < |st.trans| && Crosses(part, inward, st.trans[i].target)
  }

  /** A crossing transition is the only transition of its source, and constantly true. */
  ghost predicate CleanBorder(st: State, part: seq<StateId>, inward: bool) {
    Crossing(st, part, inward) ==> |st.trans| == 1 && st.trans[0].cond == True
  }

  ghost predicate CleanPartition(f: Fsm, part: seq<StateId>) {
    && (forall s :: s in part ==> s in f.body)
    && f.reset !in part
    && !Crossing(f.At(f.reset), part, true)
    && (forall s {:trigger CleanBorder(f.body[s], part, true)} ::
      s in f.body && s !in part ==> CleanBorder(f.body[s], part, true))
    && (forall s {:trigger CleanBorder(f.At(s), part, false)} :: s in part ==> CleanBorder(f.At(s), part, false))
  }

  /** Both lists write the bit, with different values. */
  ghost predicate ClashAt(x: seq<Assignment>, y: seq<Assignment>, b: Bit, ops: Ops, env: Env) {
    var p, q := BitWritten(x, b, ops, env), BitWritten(y, b, ops, env);
    p.Some? && q.Some? && p != q
  }

  ghost predicate NoClash(x: seq<Assignment>, y: seq<Assignment>, inputs: set<string>, ops: Ops, env: Env) {
    forall b: Bit {:trigger ClashAt(x, y, b, ops, env)} :: b.name !in inputs ==> !ClashAt(x, y, b, ops, env)
  }

  /** The single-writer discipline, as far as it is needed: when the worker enters one of these states, no worker
      rendered later writes another value to a bit that it writes. */
  ghost predicate ClashFree(d: Design, w: nat, moved: set<StateId>, ops: Ops, c: Config)
    requires w < |d.workers| == |c.at|
  {
    var next := NextStates(d.workers, c.at, ops, c.env);
    next[w] in moved ==>
      NoClash(d.workers[w].At(next[w]).assigns, Effects(d.workers[w + 1..], next[w + 1..]), d.inputs, ops, c.env)
  }

  /** The worker is not reset synchronously when it enters one of these states or one that leads there. */
  ghost predicate OnItsWay(d: Design, w: nat, wait: StateId, moved: set<StateId>, ops: Ops, c: Config)
    requires w < |d.workers| == |c.at|
  {
    var f := d.workers[w];
    var s := Next(f, c.at[w], ops, c.env);
    Holds(f.syncReset, ops, c.env) ==> s !in moved && (s != wait ==> !LeadsInto(f.At(s), moved))
  }

  ghost predicate LeadsInto(st: State, moved: set<StateId>) {
    exists i :: 0 <= i < |st.trans| && st.trans[i].target in moved
  }

  function StatesOf(part: seq<StateId>): set<StateId> { set s | s in part }

  /** These assignments write nothing. */
  predicate Quiet(assigns: seq<Assignment>) {
    forall i :: 0 <= i < |assigns| ==> assigns[i].When? && assigns[i].sel == NoDefault
  }

  /** A WAIT state may be there from an earlier breakout: it writes nothing and does not lead into the partition. */
  ghost predicate CanWait(f: Fsm, part: seq<StateId>, wait: StateId) {
    wait != f.reset && wait !in part && Quiet(f.At(wait).assigns) && !Crossing(f.At(wait), part, true)
  }

  /** What breakout may be applied to. `names` are the signals the design has so far. */
  ghost predicate Breakable(d: Design, w: nat, part: seq<StateId>, names: set<string>) {
    && w < |d.workers|
    && (forall v :: 0 <= v < |d.workers| ==> d.workers[v].Closed())
    && (forall v :: 0 <= v < |d.workers| ==> FsmWithin(d.workers[v], names))
    && d.pulsing <= names && d.inputs <= names
    && CleanPartition(d.workers[w], part)
  }

  // ----- The two machines afterwards -----

  datatype Numbers = Numbers(enter: map<StateId, nat>, leave: map<StateId, nat>)

  ghost function EnterNumber(f: Fsm, part: seq<StateId>, ks: Numbers, s: StateId): Option<nat> {
    if Crossing(f.At(s), part, true) && s in ks.enter then Some(ks.enter[s]) else None
  }

  ghost function LeaveNumber(f: Fsm, part: seq<StateId>, ks: Numbers, s: StateId): Option<nat> {
    if Crossing(f.At(s), part, false) && s in ks.leave then Some(ks.leave[s]) else None
  }

  /** `list[k]` waits for crossing number k and continues at the target of the k-th crossing. */
  ghost predicate Resumes(list: seq<Transition>, pulse: Target, select: Target, f: Fsm, part: seq<StateId>,
                          inward: bool, number: map<StateId, nat>) {
    && |list| <= Pow2(select.width)
    && (forall k :: 0 <= k < |list| ==> list[k].cond == Guard(pulse, select, k))
    && (forall s {:trigger Crossing(f.body[s], part, inward)} ::
          s in f.body && (s in part) != inward && Crossing(f.body[s], part, inward) ==>
          && s in number && number[s] < |list|
          && list[number[s]].target == Moved(part, f.body[s].trans[0].target))
  }

  ghost predicate OldWorker(f: Fsm, f2: Fsm, part: seq<StateId>, ctl: Control, wait: StateId, ks: Numbers,
      extra: seq<Assignment>) {
    && f2.reset == f.reset && f2.syncReset == f.syncReset && CanWait(f, part, wait)
    && f2.At(f.reset).trans == f.At(f.reset).trans
    && f2.At(f.reset).assigns == f.At(f.reset).assigns + extra
    && (forall s {:trigger f2.At(s)} :: s in f.body && s !in part && s != f.reset && s != wait ==>
          && f2.At(s).assigns ==
            f.body[s].assigns + Announce(ctl.trigger, ctl.triggerSelect, EnterNumber(f, part, ks, s))
          && f2.At(s).trans == if Crossing(f.body[s], part, true) then [Transition(True, wait)] else f.body[s].trans)
    && f2.At(wait).assigns == f.At(wait).assigns + Announce(ctl.trigger, ctl.triggerSelect, None)
    && f2.At(wait).trans == f.At(wait).trans + Added(f, f2, wait)
    && Resumes(Added(f, f2, wait), ctl.finish, ctl.finishSelect, f, part, false, ks.leave)
  }

  /** The transitions WAIT gets for this partition. */
  function Added(f: Fsm, f2: Fsm, wait: StateId): seq<Transition> {
    var base, all := |f.At(wait).trans|, f2.At(wait).trans;
    if base <= |all| then all[base..] else []
  }

  ghost predicate NewWorker(f: Fsm, g: Fsm, part: seq<StateId>, ctl: Control, ks: Numbers) {
    && g.reset == IDLE_RESET && g.syncReset == False
    && g.At(IDLE_RESET).assigns == [] && g.At(IDLE_RESET).trans == [Transition(True, IDLE)]
    && g.At(IDLE).assigns == [Always(ctl.finish, False)]
    && Resumes(g.At(IDLE).trans, ctl.trigger, ctl.triggerSelect, f, part, true, ks.enter)
    && (forall s {:trigger Moved(part, s)} :: s in part ==>
          && g.At(Moved(part, s)).assigns ==
            f.At(s).assigns + Announce(ctl.finish, ctl.finishSelect, LeaveNumber(f, part, ks, s))
          && |g.At(Moved(part, s)).trans| == |f.At(s).trans|
          && forall i :: 0 <= i < |f.At(s).trans| ==>
               g.At(Moved(part, s)).trans[i] ==
                 Transition(f.At(s).trans[i].cond,
                            if Crossing(f.At(s), part, false) then IDLE else Moved(part, f.At(s).trans[i].target)))
  }

  /** Another worker: unchanged, but the main reset state now resets the new registers too. */
  ghost predicate Bystander(f: Fsm, f2: Fsm, extra: seq<Assignment>) {
    && f2.reset == f.reset && f2.syncReset == f.syncReset
    && (forall s :: f2.At(s).trans == f.At(s).trans)
    && (forall s :: s != f.reset ==> f2.At(s).assigns == f.At(s).assigns)
    && f2.At(f.reset).assigns == f.At(f.reset).assigns + extra
  }

  function MainExtra(v: int, ctl: Control): seq<Assignment> { if v == 0 then ctl.Reset() else [] }

  ghost predicate BreakoutShape(d: Design, d2: Design, w: nat, part: seq<StateId>, ctl: Control, wait: StateId,
      ks: Numbers)
    requires w < |d.workers|
  {
    var n := |d.workers|;
    && |d2.workers| == n + 1
    && d2.pulsing == d.pulsing + {ctl.trigger.name} && d2.inputs == d.inputs
    && (forall v :: 0 <= v < n && v != w ==> Bystander(d.workers[v], d2.workers[v], MainExtra(v, ctl)))
    && OldWorker(d.workers[w], d2.workers[w], part, ctl, wait, ks, MainExtra(w, ctl))
    && NewWorker(d.workers[w], d2.workers[n], part, ctl, ks)
  }

  // ----- The coupling invariant -----

  ghost predicate Low(env: Env, t: Target) { forall b: Bit | t.Covers(b) :: !env[b] }

  ghost predicate Shows(env: Env, pulse: Target, select: Target, number: Option<nat>) {
    match number
    case None => Low(env, pulse)
    case Some(k) => Value(env, pulse) == 1 && Value(env, select) == k
  }

  /** Either the old worker is in s and the new one idles, or the old worker waits and the new
      one is in the copy of s. TRIGGER is 1 exactly in entry predecessors, FINISH exactly in exit states. */
  ghost predicate Coupled(d: Design, w: nat, part: seq<StateId>, ctl: Control, wait: StateId, ks: Numbers,
      names: set<string>, c: Config, c2: Config)
    requires w < |d.workers| == |c.at|
  {
    var n, f, s := |d.workers|, d.workers[w], c.at[w];
    && |c2.at| == n + 1
    && Agree(c.env, c2.env, names)
    && (forall v :: 0 <= v < n ==> c.at[v] in d.workers[v].body)
    && (forall v :: 0 <= v < n && v != w ==> c2.at[v] == c.at[v])
    && if s in part then
         && c2.at[w] == wait && c2.at[n] == Moved(part, s)
         && Shows(c2.env, ctl.finish, ctl.finishSelect, LeaveNumber(f, part, ks, s))
       else
         && c2.at[w] == s
         && (c2.at[n] == IDLE || (c2.at[n] == IDLE_RESET && s == f.reset))
         && Low(c2.env, ctl.finish)
         && Shows(c2.env, ctl.trigger, ctl.triggerSelect, EnterNumber(f, part, ks, s))
  }

  /** While the worker is in the partition, WAIT would not leave for an earlier breakout. */
  ghost predicate Silent(f: Fsm, wait: StateId, ops: Ops, env: Env) {
    forall i :: 0 <= i < |f.At(wait).trans| ==> !Holds(f.At(wait).trans[i].cond, ops, env)
  }

  // ----- One clock edge of the two designs -----

  ghost predicate Handover(d: Design, d2: Design, w: nat, part: seq<StateId>, wait: StateId, ops: Ops, c: Config,
      c2: Config)
    requires w < |d.workers| == |c.at| && |d2.workers| == |c2.at| == |d.workers| + 1
  {
    var n, nx := |d.workers|, Next(d.workers[w], c.at[w], ops, c.env);
    && nx in d.workers[w].body
    && Next(d2.workers[w], c2.at[w], ops, c2.env) == (if nx in part then wait else nx)
    && Next(d2.workers[n], c2.at[n], ops, c2.env) == (if nx in part then Moved(part, nx) else IDLE)
    && forall v :: 0 <= v < n && v != w ==>
         && Next(d.workers[v], c.at[v], ops, c.env) in d.workers[v].body
         && Next(d2.workers[v], c2.at[v], ops, c2.env) == Next(d.workers[v], c.at[v], ops, c.env)
  }

  /** The assignments to the given signals, in order. */
  ghost function Strip(assigns: seq<Assignment>, names: set<string>): seq<Assignment> {
    if assigns == [] then []
    else (if assigns[0].target.name in names then [assigns[0]] else []) + Strip(assigns[1..], names)
  }

  /** a2 is a, perhaps followed by the reset of the control registers. */
  ghost predicate Padded(a: seq<Assignment>, a2: seq<Assignment>, ctl: Control) {
    a2 == a || a2 == a + ctl.Reset()
  }

  ghost predicate AllPadded(fs: seq<Fsm>, fs2: seq<Fsm>, next: seq<StateId>, ctl: Control, names: set<string>)
    requires |fs| == |fs2| == |next|
  {
    forall v :: 0 <= v < |fs| ==>
      && AssignsWithin(fs[v].At(next[v]).assigns, names)
      && Padded(fs[v].At(next[v]).assigns, fs2[v].At(next[v]).assigns, ctl)
  }

  /** Outside the names, the list only writes zeros. */
  ghost predicate OnlyFalse(x: seq<Assignment>, names: set<string>) {
    forall i :: 0 <= i < |x| ==> x[i].target.name in names || (x[i].Always? && x[i].value == False)
  }

  /** The effects of both designs at one edge, taken apart at the broken-out worker. */
  datatype Edge = Edge(before: seq<Assignment>, before2: seq<Assignment>, own: seq<Assignment>, own2: seq<Assignment>,
                       after: seq<Assignment>, idle: seq<Assignment>) {
    function All1(): seq<Assignment> { before + own + after }
    function All2(): seq<Assignment> { before2 + own2 + after + idle }
  }

  ghost predicate EdgeOk(e: Edge, names: set<string>, ctl: Control) {
    && ctl.Valid() && ctl.Names() !! names
    && AssignsWithin(e.before, names) && AssignsWithin(e.own, names) && AssignsWithin(e.after, names)
    && Strip(e.before2, names) == e.before && OnlyFalse(e.before2, names)
  }

  /** The old worker's next state stays outside. */
  ghost predicate EdgeOutside(e: Edge, ctl: Control, number: Option<nat>) {
    && (e.own2 == e.own + Announce(ctl.trigger, ctl.triggerSelect, number)
      || (number.None? && Padded(e.own, e.own2, ctl)))
    && e.idle == [Always(ctl.finish, False)]
  }

  /** The old worker's next state has moved. */
  ghost predicate EdgeInside(e: Edge, ctl: Control, number: Option<nat>) {
    && Quiet(e.own2)
    && e.idle == e.own + Announce(ctl.finish, ctl.finishSelect, number)
  }

  ghost function EdgeOf(d: Design, d2: Design, w: nat, next: seq<StateId>, next2: seq<StateId>): Edge
    requires w < |d.workers| == |next| && |d2.workers| == |next2| == |d.workers| + 1
  {
    var n := |d.workers|;
    Edge(Effects(d.workers[..w], next[..w]), Effects(d2.workers[..w], next2[..w]),
         d.workers[w].At(next[w]).assigns, d2.workers[w].At(next2[w]).assigns,
         Effects(d.workers[w + 1..], next[w + 1..]), d2.workers[n].At(next2[n]).assigns)
  }

  ghost predicate Surgery(d: Design, d2: Design, w: nat, part: seq<StateId>, ctl: Control, wait: StateId, ks: Numbers,
      names: set<string>) {
    && Breakable(d, w, part, names) && BreakoutShape(d, d2, w, part, ctl, wait, ks)
    && ctl.Valid() && ctl.Names() !! names
  }
}
