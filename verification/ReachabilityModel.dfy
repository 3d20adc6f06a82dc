/** Reachability over the states of all workers, and the fork protocol it relies on. */
module ReachabilityModel {
  import opened Signals
  import opened Selectors
  import opened Cycle

  type Node = (nat, StateId)

  function StateOf(fs: seq<Fsm>, x: Node): State {
    if x.0 < |fs| then fs[x.0].At(x.1) else NoState
  }

  /** Statically off: the condition is the constant 0. */
  predicate ConstFalse(c: Expr) { c == False }

  /** The first state of the list that starts the thread, if any. */
  function FindStart(f: Fsm, states: seq<StateId>, id: nat): Option<StateId> {
    if states == [] then None
    else if f.At(states[0]).forkSelect == Some(id) then Some(states[0])
    else FindStart(f, states[1..], id)
  }

  function StartOf(fs: seq<Fsm>, v: nat, id: nat): Option<StateId> {
    if v < |fs| then FindStart(fs[v], fs[v].states, id) else None
  }

  ghost predicate ForkEdge(fs: seq<Fsm>, x: Node, y: Node) {
    exists id: nat :: (y.0, id) in StateOf(fs, x).forked && StartOf(fs, y.0, id) == Some(y.1)
  }

  ghost predicate TransEdge(fs: seq<Fsm>, x: Node, y: Node) {
    && y.0 == x.0
    && exists i :: 0 <= i < |StateOf(fs, x).trans|
         && StateOf(fs, x).trans[i].target == y.1 && !ConstFalse(StateOf(fs, x).trans[i].cond)
  }

  predicate IsReset(fs: seq<Fsm>, x: Node) { x.0 < |fs| && x.1 == fs[x.0].reset }

  function Resets(fs: seq<Fsm>): set<Node> {
    set w | 0 <= w < |fs| :: (w, fs[w].reset)
  }

  function AllNodes(fs: seq<Fsm>): set<Node> {
    set w, s | 0 <= w < |fs| && s in fs[w].body :: (w, s)
  }

  /** One step of the analysis; reset states are marked beforehand and never stepped to. */
  ghost predicate Edge(fs: seq<Fsm>, x: Node, y: Node) {
    (TransEdge(fs, x, y) || ForkEdge(fs, x, y)) && !IsReset(fs, y)
  }

  ghost predicate FirstStart(f: Fsm, states: seq<StateId>, id: nat, k: int) {
    && 0 <= k < |states| && f.At(states[k]).forkSelect == Some(id)
    && forall j :: 0 <= j < k ==> f.At(states[j]).forkSelect != Some(id)
  }

  /** The start of a thread is the first listed state of its worker with this ID. */
  lemma {:induction false} StartsExactly(f: Fsm, states: seq<StateId>, id: nat, s: StateId)
    ensures FindStart(f, states, id) == Some(s) <==> exists k :: FirstStart(f, states, id, k) && states[k] == s
    decreases states
  {
    if states != [] {
      var rest := states[1..];
      StartsExactly(f, rest, id, s);
      if f.At(states[0]).forkSelect != Some(id) {
        if k :| FirstStart(f, rest, id, k) && rest[k] == s {
          assert states[k + 1] == rest[k] && forall j :: 0 < j < k + 1 ==> states[j] == rest[j - 1];
          assert FirstStart(f, states, id, k + 1);
        }
        if k :| FirstStart(f, states, id, k) && states[k] == s {
          assert rest[k - 1] == states[k] && forall j :: 0 <= j < k - 1 ==> rest[j] == states[j + 1];
          assert FirstStart(f, rest, id, k - 1);
        }
      } else {
        assert FirstStart(f, states, id, 0);
      }
    }
  }

  ghost predicate LeadsTo(st: State, t: StateId) {
    exists i :: 0 <= i < |st.trans| && st.trans[i].target == t && st.trans[i].cond != Const(0)
  }

  /** What the analysis steps over: transitions whose condition is not the constant 0, and forks to the start of the
      thread, but to no reset state. */
  lemma StepsExactly(fs: seq<Fsm>, x: Node, y: Node)
    requires x.0 < |fs|
    ensures Edge(fs, x, y) <==>
            && (y.0 < |fs| ==> y.1 != fs[y.0].reset)
            && (|| (y.0 == x.0 && LeadsTo(fs[x.0].At(x.1), y.1))
                || (y.0 < |fs| && exists id: nat ::
                      (y.0, id) in fs[x.0].At(x.1).forked && FindStart(fs[y.0], fs[y.0].states, id) == Some(y.1)))
  {}

  ghost predicate IsPath(fs: seq<Fsm>, p: seq<Node>) {
    p != [] && forall i :: 0 <= i < |p| - 1 ==> Edge(fs, p[i], p[i + 1])
  }

  ghost predicate Leads(fs: seq<Fsm>, x: Node, y: Node) {
    exists p :: IsPath(fs, p) && p[0] == x && p[|p| - 1] == y
  }

  /** The graph the analysis walks: transitions and fork entries lead to existing states and
      workers; the state that starts a thread is no reset state and does not fork, because Fork
      leaves it at once; reset states cannot fork, because they may not set the start pulse. */
  ghost predicate ForkGraph(fs: seq<Fsm>) {
    && |fs| >= 1
    && (forall w :: 0 <= w < |fs| ==> fs[w].Valid())
    && (forall x {:trigger NodeOk(fs, x)} {:trigger StateOf(fs, x)} :: x in AllNodes(fs) ==> NodeOk(fs, x))
  }

  ghost predicate NodeOk(fs: seq<Fsm>, x: Node) {
    && ((StateOf(fs, x).forkSelect.Some? || IsReset(fs, x)) ==> StateOf(fs, x).forked == [])
    && (StateOf(fs, x).forkSelect.Some? ==> !IsReset(fs, x))
    && forall i :: 0 <= i < |StateOf(fs, x).forked| ==> StateOf(fs, x).forked[i].0 < |fs|
  }

  /** The reset states of the other workers are marked but not visited. */
  ghost predicate Visited(fs: seq<Fsm>, x: Node)
    requires |fs| >= 1
  {
    x == Main(fs) || !IsReset(fs, x)
  }

  function Main(fs: seq<Fsm>): Node
    requires |fs| >= 1
  {
    (0, fs[0].reset)
  }

  /** A marking of the reset states that no step of the analysis leaves. */
  ghost predicate ClosedMarking(fs: seq<Fsm>, marked: set<Node>)
    requires |fs| >= 1
  {
    && Resets(fs) <= marked
    && (forall x, y {:trigger Edge(fs, x, y)} :: x in marked && Visited(fs, x) && Edge(fs, x, y) ==> y in marked)
  }

  // ----- The fork protocol -----

  /** Start pulse and select register of each worker. */
  datatype Port = Port(start: Target, select: Target)

  ghost predicate PortOk(p: Port, pulsing: set<string>, inputs: set<string>) {
    && p.start.Whole? && p.select.Whole? && p.start.width == 1 && p.start.name != p.select.name
    && p.start.name in pulsing && p.start.name !in inputs && p.select.name !in inputs
  }

  function StartCond(p: Port, id: nat): Expr { All(Sig(p.start), Eq(Sig(p.select), Const(id))) }

  /** x[i] is the only assignment to its signal. */
  ghost predicate OnlyWriter(x: seq<Assignment>, i: nat) {
    i < |x| && forall j :: 0 <= j < |x| && j != i ==> x[j].target.name != x[i].target.name
  }

  /** The assignments write this constant to the signal, and nothing else to it. */
  ghost predicate Sets(x: seq<Assignment>, t: Target, n: nat) {
    exists i: nat :: OnlyWriter(x, i) && x[i] == Always(t, Const(n))
  }

  /** What a state does to a worker's port: nothing, or start one of the threads its metadata names. */
  ghost predicate Speaks(st: State, w: nat, p: Port) {
    || (!Writes(st.assigns, p.start.name) && !Writes(st.assigns, p.select.name))
    || exists id: nat :: StartsThread(st, w, p, id)
  }

  ghost predicate StartsThread(st: State, w: nat, p: Port, id: nat) {
    (w, id) in st.forked && id < Pow2(p.select.width) && Sets(st.assigns, p.start, 1) && Sets(st.assigns, p.select, id)
  }

  /** Threads are started only by Fork: an idle worker leaves its reset state only for the
      thread it is asked to start, and only states that name the thread ask for it. */
  ghost predicate ForkProtocol(d: Design, ports: seq<Port>) {
    && |ports| == |d.workers| >= 1
    && forall w {:trigger ports[w]} :: 1 <= w < |ports| ==>
         && PortOk(ports[w], d.pulsing, d.inputs)
         && Sets(StateOf(d.workers, Main(d.workers)).assigns, ports[w].start, 0)
         && (forall x {:trigger StateOf(d.workers, x)} :: x in AllNodes(d.workers) && x != Main(d.workers) ==>
               Speaks(StateOf(d.workers, x), w, ports[w]))
         && (forall i :: 0 <= i < |d.workers[w].At(d.workers[w].reset).trans| ==>
               IdleTransition(d.workers, w, ports[w], d.workers[w].At(d.workers[w].reset).trans[i]))
  }

  ghost predicate IdleTransition(fs: seq<Fsm>, w: nat, p: Port, t: Transition) {
    exists id: nat :: t.cond == StartCond(p, id) && StartOf(fs, w, id) == Some(t.target)
  }
}
