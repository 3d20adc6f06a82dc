/** Fork: what entering and leaving the construct does to the engine, and the proof that it keeps
the protocol the reachability analysis relies on. */
module ForkJoin {
  import opened Signals
  import opened Selectors
  import opened Cycle
  import opened ReachabilityModel
  import ReachabilityProof
  import opened Join

  /** The control signals of different workers are different. */
  ghost predicate PortsApart(ports: seq<Port>) {
    forall v, w {:trigger ports[v], ports[w]} ::
      1 <= v < |ports| && 1 <= w < |ports| && v != w ==> PortNames(ports[v]) !! PortNames(ports[w])
  }

  function PortNames(p: Port): set<string> { {p.start.name, p.select.name} }

  /** Thread IDs are given out in order. */
  ghost predicate IdsBelow(f: Fsm, threads: nat) {
    forall s {:trigger f.body[s]} :: s in f.body && f.body[s].forkSelect.Some? ==> f.body[s].forkSelect.value <= threads
  }

  /** `_get_select_width`: ceil(log2(threads) + 1). */
  function SelectWidth(threads: nat): nat { CeilLog2(threads) + 1 }

  /** The select register is wide enough for the ID of every thread: it has one bit more than it takes to tell them
      apart. */
  lemma SelectFits(threads: nat, id: nat)
    requires id <= threads
    ensures id < Pow2(SelectWidth(threads))
    ensures threads <= Pow2(SelectWidth(threads) - 1)
    ensures SelectWidth(threads) > 1 ==> Pow2(SelectWidth(threads) - 2) < threads
  {}

  // ----- Starting a thread: the state with the fork's assignments -----

  function SetState(d: Design, x: Node, st: State): Design
    requires x.0 < |d.workers|
  {
    var f := d.workers[x.0];
    d.(workers := d.workers[x.0 := f.(body := f.body[x.1 := st])])
  }

  function StartAssigns(p: Port, id: nat): seq<Assignment> { [Always(p.start, Const(1)), Always(p.select, Const(id))] }

  /** `__exit__` in the checkpoint state. */
  function Forking(d: Design, x: Node, v: nat, id: nat, p: Port): Design
    requires x.0 < |d.workers|
  {
    var st := StateOf(d.workers, x);
    SetState(d, x, st.(assigns := st.assigns + StartAssigns(p, id), forked := st.forked + [(v, id)]))
  }

  /** The added assignments are the only ones to the port, if there were none. */
  lemma StartsIt(st: State, v: nat, p: Port, id: nat)
    requires !Writes(st.assigns, p.start.name) && !Writes(st.assigns, p.select.name) && p.start.name != p.select.name
    requires id < Pow2(p.select.width)
    ensures StartsThread(st.(assigns := st.assigns + StartAssigns(p, id), forked := st.forked + [(v, id)]), v, p, id)
  {
    var x, n := st.assigns + StartAssigns(p, id), |st.assigns|;
    assert x[n] == Always(p.start, Const(1)) && x[n + 1] == Always(p.select, Const(id));
    forall j | 0 <= j < |x| && j != n ensures x[j].target.name != x[n].target.name {
      if j < n { assert st.assigns[j].target.name != p.start.name; }
    }
    forall j | 0 <= j < |x| && j != n + 1 ensures x[j].target.name != x[n + 1].target.name {
      if j < n { assert st.assigns[j].target.name != p.select.name; }
    }
    assert OnlyWriter(x, n) && OnlyWriter(x, n + 1);
    assert (st.forked + [(v, id)])[|st.forked|] == (v, id);
  }

  /** Assignments to other signals change nothing about a constant set here. */
  lemma SetsStill(x: seq<Assignment>, more: seq<Assignment>, t: Target, n: nat)
    requires Sets(x, t, n) && !Writes(more, t.name)
    ensures Sets(x + more, t, n)
  {
    var i: nat :| OnlyWriter(x, i) && x[i] == Always(t, Const(n));
    forall j | 0 <= j < |x + more| && j != i ensures (x + more)[j].target.name != (x + more)[i].target.name {
      if j >= |x| { assert more[j - |x|].target.name != t.name; } else { assert x[j].target.name != x[i].target.name; }
    }
    assert OnlyWriter(x + more, i);
  }

  lemma SpeaksStill(st: State, w: nat, p: Port, more: seq<Assignment>, forked: seq<(nat, nat)>)
    requires Speaks(st, w, p) && !Writes(more, p.start.name) && !Writes(more, p.select.name)
    ensures Speaks(st.(assigns := st.assigns + more, forked := st.forked + forked), w, p)
  {
    var st2 := st.(assigns := st.assigns + more, forked := st.forked + forked);
    if id: nat :| StartsThread(st, w, p, id) {
      SetsStill(st.assigns, more, p.start, 1);
      SetsStill(st.assigns, more, p.select, id);
      assert StartsThread(st2, w, p, id);
    } else {
    }
  }

  lemma {:induction false} FindStartSame(f: Fsm, f2: Fsm, states: seq<StateId>, id: nat)
    requires forall s :: s in states ==> f2.At(s).forkSelect == f.At(s).forkSelect
    ensures FindStart(f2, states, id) == FindStart(f, states, id)
    decreases states
  {
    if states != [] { FindStartSame(f, f2, states[1..], id); }
  }

  lemma StartOfSame(d: Design, x: Node, st: State, w: nat, id: nat)
    requires x in AllNodes(d.workers) && st.forkSelect == StateOf(d.workers, x).forkSelect
    ensures StartOf(SetState(d, x, st).workers, w, id) == StartOf(d.workers, w, id)
  {
    if w < |d.workers| {
      var f, f2 := d.workers[w], SetState(d, x, st).workers[w];
      FindStartSame(f, f2, f.states, id);
    }
  }

  lemma IdleSame(fs: seq<Fsm>, fs2: seq<Fsm>, w: nat, p: Port, t: Transition)
    requires IdleTransition(fs, w, p, t)
    requires forall id: nat {:trigger StartOf(fs2, w, id)} ::
      StartOf(fs, w, id) == Some(t.target) ==> StartOf(fs2, w, id) == Some(t.target)
    ensures IdleTransition(fs2, w, p, t)
  {
    var id: nat :| t.cond == StartCond(p, id) && StartOf(fs, w, id) == Some(t.target);
    assert StartOf(fs2, w, id) == Some(t.target);
  }

  /** The protocol for one worker's port. */
  ghost predicate PortProtocol(d: Design, w: nat, p: Port)
    requires 1 <= w < |d.workers|
  {
    && PortOk(p, d.pulsing, d.inputs)
    && Sets(StateOf(d.workers, Main(d.workers)).assigns, p.start, 0)
    && (forall x {:trigger StateOf(d.workers, x)} ::
      x in AllNodes(d.workers) && x != Main(d.workers) ==> Speaks(StateOf(d.workers, x), w, p))
    && (forall i :: 0 <= i < |d.workers[w].At(d.workers[w].reset).trans| ==>
          IdleTransition(d.workers, w, p, d.workers[w].At(d.workers[w].reset).trans[i]))
  }

  lemma ProtocolPorts(d: Design, ports: seq<Port>)
    requires |ports| == |d.workers| >= 1
    ensures ForkProtocol(d, ports) <==>
      forall w {:trigger ports[w]} :: 1 <= w < |ports| ==> PortProtocol(d, w, ports[w])
  {}

  lemma ForkingGraph(d: Design, x: Node, v: nat, id: nat, p: Port)
    requires ForkGraph(d.workers) && x in AllNodes(d.workers) && !IsReset(d.workers, x)
      && StateOf(d.workers, x).forkSelect.None?
    requires v < |d.workers|
    ensures ForkGraph(Forking(d, x, v, id, p).workers)
  {
    var st := StateOf(d.workers, x);
    var st2 := st.(assigns := st.assigns + StartAssigns(p, id), forked := st.forked + [(v, id)]);
    var d2 := Forking(d, x, v, id, p);
    forall w | 0 <= w < |d2.workers| ensures d2.workers[w].Valid() {
      assert d.workers[w].Valid();
    }
    forall y {:trigger NodeOk(d2.workers, y)} {:trigger StateOf(d2.workers, y)} | y in AllNodes(d2.workers)
      ensures NodeOk(d2.workers, y) {
      assert NodeOk(d.workers, y);
      assert NodeOk(d.workers, x);
    }
  }

  lemma ForkingPort(d: Design, x: Node, v: nat, id: nat, p: Port, w: nat, q: Port)
    requires ForkGraph(d.workers) && x in AllNodes(d.workers) && !IsReset(d.workers, x) && 1 <= w < |d.workers|
    requires PortProtocol(d, w, q)
    requires if w == v then q == p && id < Pow2(p.select.width) && Free(StateOf(d.workers, x), p)
      else PortNames(p) !! PortNames(q)
    ensures PortProtocol(Forking(d, x, v, id, p), w, q)
  {
    var st := StateOf(d.workers, x);
    var st2 := st.(assigns := st.assigns + StartAssigns(p, id), forked := st.forked + [(v, id)]);
    var d2 := Forking(d, x, v, id, p);
    forall y {:trigger StateOf(d2.workers, y)} | y in AllNodes(d2.workers) && y != Main(d2.workers)
      ensures Speaks(StateOf(d2.workers, y), w, q) {
      assert Speaks(StateOf(d.workers, y), w, q);
      if y == x {
        if w == v {
          StartsIt(st, v, p, id);
        } else {
          assert !Writes(StartAssigns(p, id), q.start.name) && !Writes(StartAssigns(p, id), q.select.name);
          SpeaksStill(st, w, q, StartAssigns(p, id), [(v, id)]);
        }
      }
    }
    assert StateOf(d2.workers, (w, d2.workers[w].reset)) == StateOf(d.workers, (w, d.workers[w].reset));
    var ts := d.workers[w].At(d.workers[w].reset).trans;
    forall i | 0 <= i < |ts| ensures IdleTransition(d2.workers, w, q, ts[i]) {
      forall n: nat {:trigger StartOf(d2.workers, w, n)} ensures StartOf(d2.workers, w, n) == StartOf(d.workers, w, n) {
        StartOfSame(d, x, st2, w, n);
      }
      IdleSame(d.workers, d2.workers, w, q, ts[i]);
    }
  }

  /** The state does not write to the port. */
  ghost predicate Free(st: State, p: Port) { !Writes(st.assigns, p.start.name) && !Writes(st.assigns, p.select.name) }

  /** Leaving a fork in a state that is no reset state, starts no thread itself and does not drive
      the port yet keeps graph and protocol. */
  lemma ForkingKeeps(d: Design, ports: seq<Port>, x: Node, v: nat, id: nat)
    requires ForkGraph(d.workers) && ForkProtocol(d, ports) && PortsApart(ports)
    requires x in AllNodes(d.workers) && !IsReset(d.workers, x) && StateOf(d.workers, x).forkSelect.None?
    requires 1 <= v < |ports| && id < Pow2(ports[v].select.width) && Free(StateOf(d.workers, x), ports[v])
    ensures ForkGraph(Forking(d, x, v, id, ports[v]).workers) && ForkProtocol(Forking(d, x, v, id, ports[v]), ports)
  {
    hide PortProtocol, ForkGraph;
    var d2 := Forking(d, x, v, id, ports[v]);
    ForkingGraph(d, x, v, id, ports[v]);
    ProtocolPorts(d, ports);
    forall w {:trigger ports[w]} | 1 <= w < |ports| ensures PortProtocol(d2, w, ports[w]) {
      assert PortProtocol(d, w, ports[w]);
      ForkingPort(d, x, v, id, ports[v], w, ports[w]);
    }
    ProtocolPorts(d2, ports);
  }

  // ----- Entering a thread -----

  /** `__enter__`: a transition from the idle state into a new state that carries the thread's ID and
      takes back idle. */
  function Entered(d: Design, v: nat, n: StateId, id: nat, p: Port, idle: Target): Design
    requires v < |d.workers|
  {
    var f := d.workers[v];
    var reset, start := f.At(f.reset), NoState.(assigns := [Always(idle, False)], forkSelect := Some(id));
    var idleState := reset.(trans := reset.trans + [Transition(StartCond(p, id), n)]);
    d.(workers := d.workers[v := f.(states := f.states + [n], body := f.body[f.reset := idleState][n := start])])
  }

  lemma EnteredGraph(d: Design, v: nat, n: StateId, id: nat, p: Port, idle: Target)
    requires ForkGraph(d.workers) && v < |d.workers| && n !in d.workers[v].body
    ensures ForkGraph(Entered(d, v, n, id, p, idle).workers)
  {
    var d2 := Entered(d, v, n, id, p, idle);
    forall w | 0 <= w < |d2.workers| ensures d2.workers[w].Valid() {
      assert d.workers[w].Valid();
      if w == v { }
    }
    forall y {:trigger NodeOk(d2.workers, y)} {:trigger StateOf(d2.workers, y)} | y in AllNodes(d2.workers)
      ensures NodeOk(d2.workers, y) {
      assert d.workers[v].Valid();
      if y != (v, n) { assert NodeOk(d.workers, y); }
    }
  }

  lemma {:induction false} FindStartMore(f: Fsm, g: Fsm, states: seq<StateId>, n: StateId, id: nat, k: nat)
    requires forall s :: s in states ==> g.At(s).forkSelect == f.At(s).forkSelect
    requires g.At(n).forkSelect == Some(id)
    ensures FindStart(g, states + [n], k) == if FindStart(f, states, k).Some? then FindStart(f, states, k)
      else if k == id then Some(n) else None
    decreases states
  {
    if states == [] {
      assert ([] + [n])[1..] == [];
    } else {
      assert (states + [n])[1..] == states[1..] + [n];
      FindStartMore(f, g, states[1..], n, id, k);
    }
  }

  lemma {:induction false} NoStart(f: Fsm, states: seq<StateId>, id: nat)
    requires forall s :: s in states ==> f.At(s).forkSelect != Some(id)
    ensures FindStart(f, states, id) == None
    decreases states
  {
    if states != [] { NoStart(f, states[1..], id); }
  }

  lemma EnteredStart(d: Design, v: nat, n: StateId, id: nat, p: Port, idle: Target, w: nat, k: nat)
    requires ForkGraph(d.workers) && v < |d.workers| && n !in d.workers[v].body && id >= 1
      && IdsBelow(d.workers[v], id - 1)
    ensures var d2 := Entered(d, v, n, id, p, idle);
      StartOf(d2.workers, w, k) == if w == v && k == id then Some(n) else StartOf(d.workers, w, k)
  {
    if w == v {
      var f, g := d.workers[v], Entered(d, v, n, id, p, idle).workers[v];
      assert f.Valid();
      FindStartMore(f, g, f.states, n, id, k);
      NewId(d, v, id);
    }
  }

  lemma EnteredPort(d: Design, v: nat, n: StateId, id: nat, p: Port, idle: Target, w: nat, q: Port)
    requires ForkGraph(d.workers) && 1 <= v < |d.workers| && n !in d.workers[v].body && id >= 1
      && IdsBelow(d.workers[v], id - 1)
    requires 1 <= w < |d.workers| && PortProtocol(d, w, q) && idle.name !in PortNames(q) && (w == v ==> q == p)
    ensures PortProtocol(Entered(d, v, n, id, p, idle), w, q)
  {
    var d2 := Entered(d, v, n, id, p, idle);
    assert d.workers[0].Valid() && d.workers[v].Valid() && d.workers[w].Valid();
    forall y {:trigger StateOf(d2.workers, y)} | y in AllNodes(d2.workers) && y != Main(d2.workers)
      ensures Speaks(StateOf(d2.workers, y), w, q) {
      if y == (v, n) {
        assert !Writes([Always(idle, False)], q.start.name) && !Writes([Always(idle, False)], q.select.name);
      } else {
        assert Speaks(StateOf(d.workers, y), w, q);
        SameSpeech(StateOf(d.workers, y), StateOf(d2.workers, y), w, q);
      }
    }
    var ts, ts2 := d.workers[w].At(d.workers[w].reset).trans, d2.workers[w].At(d2.workers[w].reset).trans;
    forall i | 0 <= i < |ts2| ensures IdleTransition(d2.workers, w, q, ts2[i]) {
      forall k: nat {:trigger StartOf(d2.workers, w, k)}
        ensures StartOf(d2.workers, w, k) == if w == v && k == id then Some(n) else StartOf(d.workers, w, k) {
        EnteredStart(d, v, n, id, p, idle, w, k);
      }
      if i < |ts| {
        assert ts2[i] == ts[i];
        EnteredIdle(d, v, n, id, p, idle, w, q, ts[i]);
      } else {
        assert ts2[i] == Transition(StartCond(p, id), n) && StartOf(d2.workers, w, id) == Some(n);
      }
    }
  }

  /** No state starts the next thread yet. */
  lemma NewId(d: Design, v: nat, id: nat)
    requires ForkGraph(d.workers) && v < |d.workers| && id >= 1 && IdsBelow(d.workers[v], id - 1)
    ensures StartOf(d.workers, v, id) == None
  {
    var f := d.workers[v];
    assert f.Valid();
    forall s | s in f.states
      ensures f.At(s).forkSelect != Some(id)
    {
      assert s in f.body && f.body[s].forkSelect != Some(id);
    }
    NoStart(f, f.states, id);
  }

  lemma EnteredIdle(d: Design, v: nat, n: StateId, id: nat, p: Port, idle: Target, w: nat, q: Port, t: Transition)
    requires ForkGraph(d.workers) && v < |d.workers| && n !in d.workers[v].body && id >= 1
      && IdsBelow(d.workers[v], id - 1)
    requires IdleTransition(d.workers, w, q, t)
    ensures IdleTransition(Entered(d, v, n, id, p, idle).workers, w, q, t)
  {
    var k: nat :| t.cond == StartCond(q, k) && StartOf(d.workers, w, k) == Some(t.target);
    NewId(d, v, id);
    EnteredStart(d, v, n, id, p, idle, w, k);
  }

  lemma SameSpeech(st: State, st2: State, w: nat, p: Port)
    requires Speaks(st, w, p) && st2.assigns == st.assigns && st2.forked == st.forked
    ensures Speaks(st2, w, p)
  {
    if id: nat :| StartsThread(st, w, p, id) { assert StartsThread(st2, w, p, id); }
  }

  /** Entering a fork with the next ID of the worker keeps graph and protocol. */
  lemma EnteredKeeps(d: Design, ports: seq<Port>, v: nat, n: StateId, id: nat, idle: Target)
    requires ForkGraph(d.workers) && ForkProtocol(d, ports) && 1 <= v < |ports|
    requires n !in d.workers[v].body && id >= 1 && IdsBelow(d.workers[v], id - 1)
    requires forall w {:trigger ports[w]} :: 1 <= w < |ports| ==> idle.name !in PortNames(ports[w])
    ensures var d2 := Entered(d, v, n, id, ports[v], idle);
      ForkGraph(d2.workers) && ForkProtocol(d2, ports) && IdsBelow(d2.workers[v], id)
        && StartOf(d2.workers, v, id) == Some(n)
        && Transition(StartCond(ports[v], id), n) in d2.workers[v].At(d2.workers[v].reset).trans
  {
    hide PortProtocol, ForkGraph;
    var d2 := Entered(d, v, n, id, ports[v], idle);
    EnteredGraph(d, v, n, id, ports[v], idle);
    ProtocolPorts(d, ports);
    forall w {:trigger ports[w]} | 1 <= w < |ports| ensures PortProtocol(d2, w, ports[w]) {
      assert PortProtocol(d, w, ports[w]);
      EnteredPort(d, v, n, id, ports[v], idle, w, ports[w]);
    }
    ProtocolPorts(d2, ports);
    EnteredStart(d, v, n, id, ports[v], idle, v, id);
    LeadsToStart(d, v, n, id, ports[v], idle);
  }

  lemma LeadsToStart(d: Design, v: nat, n: StateId, id: nat, p: Port, idle: Target)
    requires ForkGraph(d.workers) && v < |d.workers| && n !in d.workers[v].body
    ensures var f := Entered(d, v, n, id, p, idle).workers[v]; Transition(StartCond(p, id), n) in f.At(f.reset).trans
  {
    assert d.workers[v].Valid();
    var ts := d.workers[v].At(d.workers[v].reset).trans;
    assert (ts + [Transition(StartCond(p, id), n)])[|ts|] == Transition(StartCond(p, id), n);
  }

  // ----- Other steps: new states and further transitions -----

  /** `next_state`: a new state that nothing leads to yet. */
  function WithState(d: Design, w: nat, n: StateId): Design
    requires w < |d.workers|
  {
    var f := d.workers[w];
    d.(workers := d.workers[w := f.(states := f.states + [n], body := f.body[n := NoState])])
  }

  /** Further assignments of a state and a transition. */
  function Extended(d: Design, x: Node, more: seq<Assignment>, t: Transition): Design
    requires x.0 < |d.workers|
  {
    var st := StateOf(d.workers, x);
    SetState(d, x, st.(assigns := st.assigns + more, trans := st.trans + [t]))
  }

  /** `sync`: an unconditional transition to a new state. */
  function Synced(d: Design, x: Node, n: StateId): Design
    requires x.0 < |d.workers|
  {
    Extended(WithState(d, x.0, n), x, [], Transition(True, n))
  }

  /** `finish`: back to the idle state, and idle again. */
  function FinishedIn(d: Design, x: Node, idle: Target): Design
    requires x.0 < |d.workers|
  {
    Extended(d, x, [Always(idle, True)], Transition(True, d.workers[x.0].reset))
  }

  lemma {:induction false} FindStartNone(f: Fsm, g: Fsm, states: seq<StateId>, n: StateId, k: nat)
    requires (forall s :: s in states ==> g.At(s).forkSelect == f.At(s).forkSelect) && g.At(n).forkSelect == None
    ensures FindStart(g, states + [n], k) == FindStart(f, states, k)
    decreases states
  {
    if states == [] {
      assert ([] + [n])[1..] == [];
    } else {
      assert (states + [n])[1..] == states[1..] + [n];
      FindStartNone(f, g, states[1..], n, k);
    }
  }

  lemma WithStateGraph(d: Design, v: nat, n: StateId)
    requires ForkGraph(d.workers) && v < |d.workers| && n !in d.workers[v].body
    ensures ForkGraph(WithState(d, v, n).workers)
  {
    var d2 := WithState(d, v, n);
    forall w | 0 <= w < |d2.workers| ensures d2.workers[w].Valid() {
      assert d.workers[w].Valid();
    }
    forall y {:trigger NodeOk(d2.workers, y)} {:trigger StateOf(d2.workers, y)} | y in AllNodes(d2.workers)
      ensures NodeOk(d2.workers, y) {
      assert d.workers[v].Valid();
      if y != (v, n) { assert NodeOk(d.workers, y); }
    }
  }

  lemma WithStatePort(d: Design, v: nat, n: StateId, w: nat, q: Port)
    requires ForkGraph(d.workers) && v < |d.workers| && n !in d.workers[v].body && 1 <= w < |d.workers|
      && PortProtocol(d, w, q)
    ensures PortProtocol(WithState(d, v, n), w, q)
  {
    var d2 := WithState(d, v, n);
    assert d.workers[0].Valid() && d.workers[v].Valid() && d.workers[w].Valid();
    forall y {:trigger StateOf(d2.workers, y)} | y in AllNodes(d2.workers) && y != Main(d2.workers)
      ensures Speaks(StateOf(d2.workers, y), w, q) {
      if y != (v, n) { assert Speaks(StateOf(d.workers, y), w, q); }
    }
    var ts := d.workers[w].At(d.workers[w].reset).trans;
    forall i | 0 <= i < |ts| ensures IdleTransition(d2.workers, w, q, ts[i]) {
      forall k: nat {:trigger StartOf(d2.workers, w, k)} ensures StartOf(d2.workers, w, k) == StartOf(d.workers, w, k) {
        if w == v { FindStartNone(d.workers[w], d2.workers[w], d.workers[w].states, n, k); }
      }
      IdleSame(d.workers, d2.workers, w, q, ts[i]);
    }
  }

  lemma WithStateKeeps(d: Design, ports: seq<Port>, v: nat, n: StateId)
    requires ForkGraph(d.workers) && ForkProtocol(d, ports) && v < |d.workers| && n !in d.workers[v].body
    ensures ForkGraph(WithState(d, v, n).workers) && ForkProtocol(WithState(d, v, n), ports)
  {
    hide PortProtocol, ForkGraph;
    WithStateGraph(d, v, n);
    ProtocolPorts(d, ports);
    forall w {:trigger ports[w]} | 1 <= w < |ports| ensures PortProtocol(WithState(d, v, n), w, ports[w]) {
      assert PortProtocol(d, w, ports[w]);
      WithStatePort(d, v, n, w, ports[w]);
    }
    ProtocolPorts(WithState(d, v, n), ports);
  }

  lemma ExtendedGraph(d: Design, x: Node, more: seq<Assignment>, t: Transition)
    requires ForkGraph(d.workers) && x in AllNodes(d.workers) && t.target in d.workers[x.0].body
    ensures ForkGraph(Extended(d, x, more, t).workers)
  {
    var d2 := Extended(d, x, more, t);
    forall w | 0 <= w < |d2.workers| ensures d2.workers[w].Valid() {
      assert d.workers[w].Valid();
    }
    forall y {:trigger NodeOk(d2.workers, y)} {:trigger StateOf(d2.workers, y)} | y in AllNodes(d2.workers)
      ensures NodeOk(d2.workers, y) {
      assert NodeOk(d.workers, y);
    }
  }

  lemma ExtendedPort(d: Design, x: Node, more: seq<Assignment>, t: Transition, w: nat, q: Port)
    requires ForkGraph(d.workers) && x in AllNodes(d.workers) && (x == Main(d.workers) || !IsReset(d.workers, x))
    requires 1 <= w < |d.workers| && PortProtocol(d, w, q) && !Writes(more, q.start.name)
      && !Writes(more, q.select.name)
    ensures PortProtocol(Extended(d, x, more, t), w, q)
  {
    var st, d2 := StateOf(d.workers, x), Extended(d, x, more, t);
    var st2 := st.(assigns := st.assigns + more, trans := st.trans + [t]);
    if x == Main(d.workers) { SetsStill(st.assigns, more, q.start, 0); }
    forall y {:trigger StateOf(d2.workers, y)} | y in AllNodes(d2.workers) && y != Main(d2.workers)
      ensures Speaks(StateOf(d2.workers, y), w, q) {
      assert Speaks(StateOf(d.workers, y), w, q);
      if y == x {
        SpeaksStill(st, w, q, more, []);
        assert st.forked + [] == st.forked;
        SameSpeech(st.(assigns := st.assigns + more), st2, w, q);
      }
    }
    var ts := d.workers[w].At(d.workers[w].reset).trans;
    assert StateOf(d2.workers, (w, d2.workers[w].reset)) == StateOf(d.workers, (w, d.workers[w].reset));
    forall i | 0 <= i < |ts| ensures IdleTransition(d2.workers, w, q, ts[i]) {
      forall k: nat {:trigger StartOf(d2.workers, w, k)} ensures StartOf(d2.workers, w, k) == StartOf(d.workers, w, k) {
        StartOfSame(d, x, st2, w, k);
      }
      IdleSame(d.workers, d2.workers, w, q, ts[i]);
    }
  }

  /** A transition and assignments to signals other than ports keep graph and protocol, except in the idle
      states, where only threads may be started. */
  lemma ExtendedKeeps(d: Design, ports: seq<Port>, x: Node, more: seq<Assignment>, t: Transition)
    requires ForkGraph(d.workers) && ForkProtocol(d, ports)
    requires x in AllNodes(d.workers) && (x == Main(d.workers) || !IsReset(d.workers, x))
      && t.target in d.workers[x.0].body
    requires forall w {:trigger ports[w]} ::
      1 <= w < |ports| ==> !Writes(more, ports[w].start.name) && !Writes(more, ports[w].select.name)
    ensures ForkGraph(Extended(d, x, more, t).workers) && ForkProtocol(Extended(d, x, more, t), ports)
  {
    hide PortProtocol, ForkGraph;
    ExtendedGraph(d, x, more, t);
    ProtocolPorts(d, ports);
    forall w {:trigger ports[w]} | 1 <= w < |ports| ensures PortProtocol(Extended(d, x, more, t), w, ports[w]) {
      assert PortProtocol(d, w, ports[w]);
      ExtendedPort(d, x, more, t, w, ports[w]);
    }
    ProtocolPorts(Extended(d, x, more, t), ports);
  }

  /** The end of a fork's body: unless it has transitions already, a sync and the way back to idle. */
  function BodyEnded(d: Design, x: Node, n: StateId, idle: Target): Design
    requires x.0 < |d.workers|
  {
    if StateOf(d.workers, x).trans == [] then FinishedIn(Synced(d, x, n), (x.0, n), idle) else d
  }

  /** What `__exit__` leaves behind. */
  function Exited(d: Design, x: Node, n: StateId, idle: Target, checkpoint: Node, v: nat, id: nat, p: Port,
      n2: StateId): Design
    requires x.0 < |d.workers| && checkpoint.0 < |d.workers|
  {
    Synced(Forking(BodyEnded(d, x, n, idle), checkpoint, v, id, p), checkpoint, n2)
  }

  // ----- A new worker -----

  function ResetAssigns(p: Port, idle: Target): seq<Assignment> {
    [Always(p.start, False), Always(p.select, False), Always(idle, True)]
  }

  /** `create_worker` and its control signals: the reset values are assignments of the main reset
      state, the start signal pulses. */
  function Added(d: Design, p: Port, idle: Target, syncReset: Expr): Design
    requires |d.workers| >= 1
  {
    var st := StateOf(d.workers, Main(d.workers));
    var d1 := SetState(d, Main(d.workers), st.(assigns := st.assigns + ResetAssigns(p, idle)));
    Design(d1.workers + [Fsm([0], map[0 := NoState], 0, syncReset)], d.pulsing + {p.start.name}, d.inputs)
  }

  lemma AddedGraph(d: Design, p: Port, idle: Target, syncReset: Expr)
    requires ForkGraph(d.workers)
    ensures ForkGraph(Added(d, p, idle, syncReset).workers)
  {
    var d2 := Added(d, p, idle, syncReset);
    forall w | 0 <= w < |d2.workers| ensures d2.workers[w].Valid() {
      if w < |d.workers| {
        assert d.workers[w].Valid();
      }
    }
    forall y {:trigger NodeOk(d2.workers, y)} {:trigger StateOf(d2.workers, y)} | y in AllNodes(d2.workers)
      ensures NodeOk(d2.workers, y) {
      if y in AllNodes(d.workers) { assert NodeOk(d.workers, y); }
    }
  }

  /** The new signals are new. */
  ghost predicate NewPort(d: Design, p: Port, idle: Target) {
    && p.start.Whole? && p.select.Whole? && p.start.width == 1 && p.start.name !in d.inputs
      && p.select.name !in d.inputs
    && p.start.name != p.select.name && idle.name != p.start.name && idle.name != p.select.name
    && idle.Whole? && idle.width == 1 && idle.name !in d.pulsing && idle.name !in d.inputs
    && forall x {:trigger StateOf(d.workers, x)} :: x in AllNodes(d.workers) ==>
         Free(StateOf(d.workers, x), p) && !Writes(StateOf(d.workers, x).assigns, idle.name)
  }

  lemma AddedNewPort(d: Design, p: Port, idle: Target, syncReset: Expr)
    requires ForkGraph(d.workers) && NewPort(d, p, idle)
    ensures PortProtocol(Added(d, p, idle, syncReset), |d.workers|, p)
  {
    var d2, n := Added(d, p, idle, syncReset), |d.workers|;
    var st := StateOf(d.workers, Main(d.workers));
    assert d.workers[0].Valid() && Main(d.workers) in AllNodes(d.workers);
    var x := st.assigns + ResetAssigns(p, idle);
    assert x[|st.assigns|] == Always(p.start, False);
    forall j | 0 <= j < |x| && j != |st.assigns| ensures x[j].target.name != p.start.name {
      if j < |st.assigns| { assert st.assigns[j].target.name != p.start.name; }
    }
    assert OnlyWriter(x, |st.assigns|);
    forall y {:trigger StateOf(d2.workers, y)} | y in AllNodes(d2.workers) && y != Main(d2.workers)
      ensures Speaks(StateOf(d2.workers, y), n, p) {
      if y in AllNodes(d.workers) { assert Free(StateOf(d.workers, y), p); }
    }
  }

  lemma AddedOldPort(d: Design, p: Port, idle: Target, syncReset: Expr, w: nat, q: Port)
    requires ForkGraph(d.workers) && 1 <= w < |d.workers| && PortProtocol(d, w, q)
    requires PortNames(p) !! PortNames(q) && idle.name !in PortNames(q)
    ensures PortProtocol(Added(d, p, idle, syncReset), w, q)
  {
    var d2, main := Added(d, p, idle, syncReset), Main(d.workers);
    assert !Writes(ResetAssigns(p, idle), q.start.name);
    SetsStill(StateOf(d.workers, main).assigns, ResetAssigns(p, idle), q.start, 0);
    forall y {:trigger StateOf(d2.workers, y)} | y in AllNodes(d2.workers) && y != Main(d2.workers)
      ensures Speaks(StateOf(d2.workers, y), w, q) {
      if y in AllNodes(d.workers) { assert Speaks(StateOf(d.workers, y), w, q); }
    }
    var ts := d.workers[w].At(d.workers[w].reset).trans;
    assert d2.workers[w] == d.workers[w];
    forall i | 0 <= i < |ts| ensures IdleTransition(d2.workers, w, q, ts[i]) {
      IdleSame(d.workers, d2.workers, w, q, ts[i]);
    }
  }

  lemma AddedKeeps(d: Design, ports: seq<Port>, p: Port, idle: Target, syncReset: Expr)
    requires ForkGraph(d.workers) && ForkProtocol(d, ports) && NewPort(d, p, idle)
    requires forall w {:trigger ports[w]} ::
      1 <= w < |ports| ==> PortNames(p) !! PortNames(ports[w]) && idle.name !in PortNames(ports[w])
    ensures var d2 := Added(d, p, idle, syncReset); ForkGraph(d2.workers) && ForkProtocol(d2, ports + [p])
  {
    hide PortProtocol, ForkGraph;
    var d2, ports2 := Added(d, p, idle, syncReset), ports + [p];
    AddedGraph(d, p, idle, syncReset);
    ProtocolPorts(d, ports);
    AddedNewPort(d, p, idle, syncReset);
    forall w {:trigger ports2[w]} | 1 <= w < |ports2| ensures PortProtocol(d2, w, ports2[w]) {
      if w < |ports| {
        assert PortProtocol(d, w, ports[w]);
        AddedOldPort(d, p, idle, syncReset, w, ports[w]);
      }
    }
    ProtocolPorts(d2, ports2);
  }

  /** What `cancel` leaves behind: the reset signal r is raised in x, and taken back in the next state n, in which the
      worker's idle signal is raised. */
  function Cancelled(d: Design, x: Node, n: StateId, n2: StateId, r: Target, idle: Target): Design
    requires x.0 < |d.workers|
  {
    var raised := Extended(WithState(d, x.0, n), x, [Always(r, True)], Transition(True, n));
    Extended(WithState(raised, x.0, n2), (x.0, n), [Always(r, False), Always(idle, True)], Transition(True, n2))
  }

  /** This cancels the worker that r resets. */
  lemma CancelledCancels(d: Design, x: Node, n: StateId, n2: StateId, v: nat, r: Target, idle: Target)
    requires x in AllNodes(d.workers) && v < |d.workers| && x.0 != v && n !in d.workers[x.0].body && n2 != n
    requires n2 !in d.workers[x.0].body
    requires StateOf(d.workers, x).trans == [] && !Writes(StateOf(d.workers, x).assigns, r.name)
    requires d.workers[v].syncReset == Sig(r) && r.width == 1 && r.name !in d.inputs
    ensures Cancels(Cancelled(d, x, n, n2, r, idle), x.0, x.1, n, v, r, idle)
    ensures StateOf(Cancelled(d, x, n, n2, r, idle).workers, (x.0, n)).trans == [Transition(True, n2)]
  {
    var d2, st := Cancelled(d, x, n, n2, r, idle), StateOf(d.workers, x);
    var own, after := d2.workers[x.0].At(x.1).assigns, d2.workers[x.0].At(n).assigns;
    assert own == st.assigns + [Always(r, True)] && after == [Always(r, False), Always(idle, True)];
    assert OnlyWriter(own, |st.assigns|) by {
      forall j | 0 <= j < |own| && j != |st.assigns| ensures own[j].target.name != r.name {
        assert own[j] == st.assigns[j];
      }
    }
    assert after[1].target.name == idle.name;
  }

  /** A state that forks starts the thread, and leads on to the state after. */
  lemma ExitedForks(d: Design, checkpoint: Node, v: nat, id: nat, p: Port, n2: StateId)
    requires checkpoint in AllNodes(d.workers) && MayFork(d.workers, checkpoint, p) && p.start.name != p.select.name
    requires id < Pow2(p.select.width) && n2 !in d.workers[checkpoint.0].body
    ensures var st := StateOf(Synced(Forking(d, checkpoint, v, id, p), checkpoint, n2).workers, checkpoint);
      StartsThread(st, v, p, id) && st.trans == [Transition(True, n2)]
  {
    var st := StateOf(d.workers, checkpoint);
    StartsIt(st, v, p, id);
    var st2 := st.(assigns := st.assigns + StartAssigns(p, id), forked := st.forked + [(v, id)]);
    assert st2.assigns + [] == st2.assigns;
  }

  /** With a join in the state after, this is what `Join.JoinSeesItsThread` is about. */
  lemma ExitedJoins(d: Design, checkpoint: Node, v: nat, id: nat, p: Port, n2: StateId, n3: StateId, idle: Target)
    requires checkpoint in AllNodes(d.workers) && MayFork(d.workers, checkpoint, p) && p.start.name != p.select.name
    requires id < Pow2(p.select.width) && n2 !in d.workers[checkpoint.0].body && n3 !in d.workers[checkpoint.0].body
    requires n3 != n2
    ensures var d2 := Synced(Forking(d, checkpoint, v, id, p), checkpoint, n2);
      var d3 := Extended(WithState(d2, checkpoint.0, n3), (checkpoint.0, n2), [], Transition(Sig(idle), n3));
      ForksAndJoins(d3, checkpoint.0, checkpoint.1, n2, n3, v, p, idle, id)
  {
    hide StartsThread;
    ExitedForks(d, checkpoint, v, id, p, n2);
    var d2 := Synced(Forking(d, checkpoint, v, id, p), checkpoint, n2);
    var d3 := Extended(WithState(d2, checkpoint.0, n3), (checkpoint.0, n2), [], Transition(Sig(idle), n3));
    assert StateOf(d3.workers, checkpoint) == StateOf(d2.workers, checkpoint);
    assert StateOf(d2.workers, (checkpoint.0, n2)) == NoState;
  }

  lemma EndedBody(d: Design, x: Node, n: StateId, idle: Target)
    requires x.0 < |d.workers| && n !in d.workers[x.0].body && x != (x.0, n) && StateOf(d.workers, x).trans == []
    ensures var d2 := BodyEnded(d, x, n, idle);
      && StateOf(d2.workers, x).trans == [Transition(True, n)]
      && StateOf(d2.workers, (x.0, n)).assigns == [Always(idle, True)]
      && StateOf(d2.workers, (x.0, n)).trans == [Transition(True, d.workers[x.0].reset)]
      && |d2.workers| == |d.workers| && d2.workers[x.0].reset == d.workers[x.0].reset
  {}

  /** Starting a thread and leaving the state concerns that state and the next one only. */
  lemma ForkedElsewhere(d: Design, checkpoint: Node, v: nat, id: nat, p: Port, n2: StateId, y: Node)
    requires checkpoint.0 < |d.workers| && y != checkpoint && y != (checkpoint.0, n2) && y.0 < |d.workers|
    ensures var d2 := Synced(Forking(d, checkpoint, v, id, p), checkpoint, n2);
      && |d2.workers| == |d.workers| && d2.workers[y.0].reset == d.workers[y.0].reset
      && StateOf(d2.workers, y) == StateOf(d.workers, y)
      && (y.1 in d2.workers[y.0].body <==> y.1 in d.workers[y.0].body)
  {}

  /** A body without transitions at its end gets a last state, any other is left as it is. */
  lemma ExitedEnd(d: Design, x: Node, n: StateId, idle: Target, checkpoint: Node, v: nat, id: nat, p: Port, n2: StateId)
    requires x in AllNodes(d.workers) && checkpoint in AllNodes(d.workers) && checkpoint != x
    requires n !in d.workers[x.0].body && n2 !in d.workers[checkpoint.0].body && (checkpoint.0 == x.0 ==> n2 != n)
    ensures var d2 := Exited(d, x, n, idle, checkpoint, v, id, p, n2);
      if StateOf(d.workers, x).trans == [] then
        && StateOf(d2.workers, x).trans == [Transition(True, n)]
        && StateOf(d2.workers, (x.0, n)).assigns == [Always(idle, True)]
        && StateOf(d2.workers, (x.0, n)).trans == [Transition(True, d2.workers[x.0].reset)]
      else StateOf(d2.workers, x) == StateOf(d.workers, x) && n !in d2.workers[x.0].body
  {
    hide Synced, Forking, FinishedIn;
    var d1 := BodyEnded(d, x, n, idle);
    if StateOf(d.workers, x).trans == [] { EndedBody(d, x, n, idle); }
    ForkedElsewhere(d1, checkpoint, v, id, p, n2, x);
    ForkedElsewhere(d1, checkpoint, v, id, p, n2, (x.0, n));
  }

  /** After reset the new worker is asked for nothing, and idle. */
  lemma ResetValues(d: Design, p: Port, idle: Target, syncReset: Expr, ops: Ops, powerUp: Env, outside: Env)
    requires ForkGraph(d.workers) && NewPort(d, p, idle)
    ensures var env := Initial(Added(d, p, idle, syncReset), ops, powerUp, outside).env;
      Value(env, p.start) == 0 && Value(env, p.select) == 0 && Value(env, idle) == 1
  {
    hide Apply, Free;
    var d2, st, main := Added(d, p, idle, syncReset), StateOf(d.workers, Main(d.workers)), Main(d.workers);
    assert d.workers[0].Valid() && main in AllNodes(d.workers) && d2.workers[0].At(d2.workers[0].reset).assigns ==
      st.assigns + ResetAssigns(p, idle);
    var registers := Apply(st.assigns + ResetAssigns(p, idle), ops, powerUp, powerUp);
    assert Pow2(1) == 2 by { assert Pow2(0) == 1; }
    NewSets(d, p, idle);
    ReachabilityProof.SetsValue(st.assigns + ResetAssigns(p, idle), p.start, 0, ops, powerUp, powerUp);
    ReachabilityProof.SetsValue(st.assigns + ResetAssigns(p, idle), p.select, 0, ops, powerUp, powerUp);
    ReachabilityProof.SetsValue(st.assigns + ResetAssigns(p, idle), idle, 1, ops, powerUp, powerUp);
    var env := Initial(d2, ops, powerUp, outside).env;
    BitsValueAgrees(env, registers, p.start.name, p.start.Low(), p.start.width);
    BitsValueAgrees(env, registers, p.select.name, p.select.Low(), p.select.width);
    BitsValueAgrees(env, registers, idle.name, idle.Low(), idle.width);
  }

  lemma NewSets(d: Design, p: Port, idle: Target)
    requires ForkGraph(d.workers) && NewPort(d, p, idle)
    ensures var x := StateOf(d.workers, Main(d.workers)).assigns + ResetAssigns(p, idle);
      Sets(x, p.start, 0) && Sets(x, p.select, 0) && Sets(x, idle, 1)
  {
    var st := StateOf(d.workers, Main(d.workers));
    assert d.workers[0].Valid() && Main(d.workers) in AllNodes(d.workers) && Free(st, p);
    var x, n := st.assigns + ResetAssigns(p, idle), |st.assigns|;
    assert x[n] == Always(p.start, False) && x[n + 1] == Always(p.select, False) && x[n + 2] == Always(idle, True);
    forall j | 0 <= j < n
      ensures x[j].target.name != p.start.name && x[j].target.name != p.select.name && x[j].target.name != idle.name
    {
      assert x[j] == st.assigns[j];
    }
    assert OnlyWriter(x, n) && OnlyWriter(x, n + 1) && OnlyWriter(x, n + 2);
  }

  // ----- The idle signals -----

  /** Other assignments do not touch the signal. */
  lemma DrivesStill(x: seq<Assignment>, more: seq<Assignment>, t: Target, n: nat)
    requires DrivesOnly(more, t, n)
    ensures DrivesOnly(x, t, n) ==> DrivesOnly(x + more, t, n)
    ensures Drives(x, t, n) ==> Drives(x + more, t, n)
  {
    WritesAppend(x, more, t.name);
  }

  /** A worker all of whose states but one are as they were. */
  lemma OwnIdleBut(f: Fsm, g: Fsm, x: StateId, t: Target)
    requires OwnIdle(f, t) && g.reset == f.reset && IdleState(g, x, t)
    requires forall s {:trigger g.At(s)} :: s != x ==> g.At(s) == f.At(s)
    requires f.At(x).forkSelect.Some? ==> g.At(x).forkSelect.Some?
    ensures OwnIdle(g, t)
  {
    forall s ensures IdleState(g, s, t) {
      assert IdleState(f, s, t);
      if s != x && s == g.reset {
        forall i | 0 <= i < |g.At(s).trans| ensures g.At(g.At(s).trans[i].target).forkSelect.Some? {
          assert f.At(f.At(s).trans[i].target).forkSelect.Some?;
        }
      }
    }
  }

  lemma WithStateIdle(d: Design, v: nat, n: StateId, w: nat, t: Target)
    requires IdleProtocol(d, w, t) && v < |d.workers| && n !in d.workers[v].body
    ensures IdleProtocol(WithState(d, v, n), w, t)
  {
    var d2 := WithState(d, v, n);
    assert forall u, s {:trigger d2.workers[u].At(s)} :: 0 <= u < |d.workers| ==>
             d2.workers[u].At(s) == d.workers[u].At(s);
    if v == w {
      assert IdleState(d.workers[w], n, t);
      assert IdleState(d2.workers[w], n, t);
      OwnIdleBut(d.workers[w], d2.workers[w], n, t);
    }
  }

  lemma SetStateIdle(d: Design, x: Node, st: State, w: nat, t: Target)
    requires IdleProtocol(d, w, t) && x.0 < |d.workers|
    requires x == Main(d.workers) ==> Drives(st.assigns, t, 1)
    requires x.0 != w ==> DrivesOnly(st.assigns, t, 1)
    requires x.0 == w && StateOf(d.workers, x).forkSelect.Some? ==> st.forkSelect.Some?
    requires x.0 == w ==> IdleState(SetState(d, x, st).workers[w], x.1, t)
    ensures IdleProtocol(SetState(d, x, st), w, t)
  {
    var d2 := SetState(d, x, st);
    forall v, s {:trigger d2.workers[v].At(s)} | 0 <= v < |d.workers| && v != w
      ensures DrivesOnly(d2.workers[v].At(s).assigns, t, 1)
    {
      assert DrivesOnly(d.workers[v].At(s).assigns, t, 1);
    }
    if x.0 == w { OwnIdleBut(d.workers[w], d2.workers[w], x.1, t); }
  }

  /** A state in which a worker's thread may go on, or any state of another worker. */
  ghost predicate MayExtend(d: Design, x: Node, more: seq<Assignment>, tr: Transition, w: nat, t: Target)
    requires w < |d.workers|
  {
    var f := d.workers[w];
    if x.0 == w then x.1 != f.reset && !Leaves(f, x.1) && tr.target != f.reset && !Writes(more, t.name)
    else DrivesOnly(more, t, 1)
  }

  lemma ExtendedIdle(d: Design, x: Node, more: seq<Assignment>, tr: Transition, w: nat, t: Target)
    requires IdleProtocol(d, w, t) && x.0 < |d.workers| && MayExtend(d, x, more, tr, w, t)
    ensures IdleProtocol(Extended(d, x, more, tr), w, t)
  {
    var st := StateOf(d.workers, x);
    var st2 := st.(assigns := st.assigns + more, trans := st.trans + [tr]);
    DrivesStill(st.assigns, more, t, 1);
    WritesAppend(st.assigns, more, t.name);
    if x.0 == w {
      DrivesStill(st.assigns, more, t, 0);
      assert IdleState(d.workers[w], x.1, t);
    } else {
      assert DrivesOnly(d.workers[x.0].At(x.1).assigns, t, 1);
    }
    SetStateIdle(d, x, st2, w, t);
  }

  lemma FinishedIdle(d: Design, x: Node, idle: Target, w: nat, t: Target)
    requires IdleProtocol(d, w, t) && x.0 < |d.workers|
    requires if x.0 == w then idle == t && x.1 != d.workers[w].reset && StateOf(d.workers, x).trans == []
      && StateOf(d.workers, x).forkSelect.None? else idle.name != t.name
    ensures IdleProtocol(FinishedIn(d, x, idle), w, t)
  {
    var st, tr, raise := StateOf(d.workers, x), Transition(True, d.workers[x.0].reset), [Always(idle, True)];
    var st2 := st.(assigns := st.assigns + raise, trans := st.trans + [tr]);
    if x.0 == w {
      assert IdleState(d.workers[w], x.1, t);
      WritesAppend(st.assigns, raise, t.name);
      assert raise[0].target.name == t.name && st2.trans[|st.trans|] == tr;
      SetStateIdle(d, x, st2, w, t);
    } else {
      ExtendedIdle(d, x, raise, tr, w, t);
    }
  }

  lemma ForkingIdle(d: Design, x: Node, v: nat, id: nat, p: Port, w: nat, t: Target)
    requires IdleProtocol(d, w, t) && x.0 < |d.workers| && t.name !in PortNames(p)
    ensures IdleProtocol(Forking(d, x, v, id, p), w, t)
  {
    var st, more := StateOf(d.workers, x), StartAssigns(p, id);
    var st2 := st.(assigns := st.assigns + more, forked := st.forked + [(v, id)]);
    DrivesStill(st.assigns, more, t, 1);
    DrivesStill(st.assigns, more, t, 0);
    WritesAppend(st.assigns, more, t.name);
    if x.0 == w { assert IdleState(d.workers[w], x.1, t); } else { assert DrivesOnly(st.assigns, t, 1); }
    SetStateIdle(d, x, st2, w, t);
  }

  lemma EnteredIdleSignal(d: Design, v: nat, n: StateId, id: nat, p: Port, idle: Target, w: nat, t: Target)
    requires IdleProtocol(d, w, t) && v < |d.workers| && n !in d.workers[v].body
    requires d.workers[v].reset in d.workers[v].body
    requires if v == w then idle == t else idle.name != t.name
    ensures IdleProtocol(Entered(d, v, n, id, p, idle), w, t)
  {
    var d2 := Entered(d, v, n, id, p, idle);
    var f, g := d.workers[v], d2.workers[v];
    forall u, s {:trigger d2.workers[u].At(s)} | 0 <= u < |d.workers| && u != w
      ensures DrivesOnly(d2.workers[u].At(s).assigns, t, 1)
    {
      assert DrivesOnly(d.workers[u].At(s).assigns, t, 1);
    }
    if v == w {
      forall s ensures IdleState(g, s, t) {
        assert IdleState(f, s, t) && IdleState(f, n, t) && IdleState(f, f.reset, t);
        if s == f.reset {
          var ts := f.At(s).trans;
          forall i | 0 <= i < |g.At(s).trans| ensures g.At(g.At(s).trans[i].target).forkSelect.Some? {
            if i < |ts| { assert f.At(ts[i].target).forkSelect.Some?; }
          }
        } else if s == n {
          assert g.At(n).assigns[0].target.name == t.name;
        }
      }
    }
  }

  /** A worker with a new idle signal: the main worker's reset state raises it. */
  lemma AddedIdle(d: Design, p: Port, idle: Target, syncReset: Expr)
    requires |d.workers| >= 1 && idle.Whole? && idle.width == 1 && idle.name !in PortNames(p)
    requires idle.name !in d.pulsing && idle.name !in d.inputs
    requires forall v, s {:trigger d.workers[v].At(s)} ::
               0 <= v < |d.workers| ==> !Writes(d.workers[v].At(s).assigns, idle.name)
    ensures IdleProtocol(Added(d, p, idle, syncReset), |d.workers|, idle)
  {
    var d2, f := Added(d, p, idle, syncReset), d.workers[0];
    var st := f.At(f.reset);
    assert !Writes(st.assigns, idle.name);
    WritesAppend(st.assigns, ResetAssigns(p, idle), idle.name);
    assert ResetAssigns(p, idle)[2].target.name == idle.name;
    DrivesStill(st.assigns, ResetAssigns(p, idle), idle, 1);
    forall v, s {:trigger d2.workers[v].At(s)} | 0 <= v < |d.workers|
      ensures DrivesOnly(d2.workers[v].At(s).assigns, idle, 1)
    {
      assert !Writes(d.workers[v].At(s).assigns, idle.name);
    }
  }

  lemma AddedOldIdle(d: Design, p: Port, idle: Target, syncReset: Expr, w: nat, t: Target)
    requires IdleProtocol(d, w, t) && t.name !in PortNames(p) && t.name != idle.name
    ensures IdleProtocol(Added(d, p, idle, syncReset), w, t)
  {
    var d2, f := Added(d, p, idle, syncReset), d.workers[0];
    var st := f.At(f.reset);
    DrivesStill(st.assigns, ResetAssigns(p, idle), t, 1);
    forall v, s {:trigger d2.workers[v].At(s)} | 0 <= v < |d2.workers| && v != w
      ensures DrivesOnly(d2.workers[v].At(s).assigns, t, 1)
    {
      if v < |d.workers| { assert DrivesOnly(d.workers[v].At(s).assigns, t, 1); }
    }
    assert d2.workers[w] == d.workers[w];
  }

  // ----- The construct -----

  /** Graph and protocol, thread IDs in order, and a current state that is no idle state of another worker. */
  ghost predicate ContextOk(d: Design, ports: seq<Port>, threads: seq<nat>, current: Node) {
    && ForkGraph(d.workers) && ForkProtocol(d, ports) && PortsApart(ports)
    && |threads| == |ports| && (forall w :: 0 <= w < |threads| ==> IdsBelow(d.workers[w], threads[w]))
    && Stays(d, current)
  }

  ghost predicate Stays(d: Design, x: Node)
    requires |d.workers| >= 1
  {
    x in AllNodes(d.workers) && (x == Main(d.workers) || !IsReset(d.workers, x))
  }

  ghost predicate NotPort(ports: seq<Port>, idle: Target) {
    forall w {:trigger ports[w]} :: 1 <= w < |ports| ==> idle.name !in PortNames(ports[w])
  }

  lemma PortsCount(d: Design, ports: seq<Port>)
    requires ForkProtocol(d, ports)
    ensures |ports| == |d.workers|
  {}

  lemma GraphValid(d: Design, v: nat)
    requires ForkGraph(d.workers)
    ensures |d.workers| >= 1 && (v < |d.workers| ==> d.workers[v].Valid())
  {}

  lemma WithStateStays(d: Design, v: nat, n: StateId, x: Node)
    requires |d.workers| >= 1 && v < |d.workers| && n !in d.workers[v].body && d.workers[v].reset in d.workers[v].body
    ensures Stays(WithState(d, v, n), (v, n)) && (Stays(d, x) ==> Stays(WithState(d, v, n), x))
  {}

  lemma WithStateIds(d: Design, v: nat, n: StateId, w: nat, threads: nat)
    requires v < |d.workers| && n !in d.workers[v].body && w < |d.workers| && IdsBelow(d.workers[w], threads)
    ensures IdsBelow(WithState(d, v, n).workers[w], threads)
  {}

  lemma WithStateOk(d: Design, ports: seq<Port>, threads: seq<nat>, current: Node, v: nat, n: StateId)
    requires ContextOk(d, ports, threads, current) && v < |d.workers| && n !in d.workers[v].body
    ensures ContextOk(WithState(d, v, n), ports, threads, current)
    ensures Stays(WithState(d, v, n), (v, n))
  {
    hide ForkProtocol, ForkGraph, IdsBelow, Stays;
    GraphValid(d, v);
    PortsCount(d, ports);
    WithStateKeeps(d, ports, v, n);
    WithStateStays(d, v, n, current);
    forall w | 0 <= w < |threads|
      ensures IdsBelow(WithState(d, v, n).workers[w], threads[w])
    {
      WithStateIds(d, v, n, w, threads[w]);
    }
  }

  lemma ExtendedOk(d: Design, ports: seq<Port>, threads: seq<nat>, x: Node, more: seq<Assignment>, t: Transition)
    requires ContextOk(d, ports, threads, x) && t.target in d.workers[x.0].body
    requires forall i :: 0 <= i < |more| ==> NotPort(ports, more[i].target)
    ensures ContextOk(Extended(d, x, more, t), ports, threads, x)
  {
    hide ForkProtocol;
    PortsCount(d, ports);
    ExtendedKeeps(d, ports, x, more, t);
  }

  lemma EnteredOk(d: Design, ports: seq<Port>, threads: seq<nat>, current: Node, v: nat, n: StateId, idle: Target)
    requires ContextOk(d, ports, threads, current) && 1 <= v < |ports| && n !in d.workers[v].body
      && NotPort(ports, idle)
    ensures ContextOk(Entered(d, v, n, threads[v] + 1, ports[v], idle), ports, threads[v := threads[v] + 1], (v, n))
  {
    hide ForkProtocol;
    PortsCount(d, ports);
    assert d.workers[v].Valid();
    EnteredKeeps(d, ports, v, n, threads[v] + 1, idle);
  }

  lemma ForkingOk(d: Design, ports: seq<Port>, threads: seq<nat>, x: Node, v: nat)
    requires ContextOk(d, ports, threads, x) && 1 <= v < |ports| && StateOf(d.workers, x).forkSelect.None?
    requires !IsReset(d.workers, x) && Free(StateOf(d.workers, x), ports[v]) && threads[v] < Pow2(ports[v].select.width)
    ensures ContextOk(Forking(d, x, v, threads[v], ports[v]), ports, threads, x)
  {
    hide ForkProtocol;
    PortsCount(d, ports);
    ForkingKeeps(d, ports, x, v, threads[v]);
  }

  lemma AddedOk(d: Design, ports: seq<Port>, threads: seq<nat>, current: Node, p: Port, idle: Target, syncReset: Expr)
    requires ContextOk(d, ports, threads, current) && NewPort(d, p, idle)
    requires forall w {:trigger ports[w]} ::
      1 <= w < |ports| ==> PortNames(p) !! PortNames(ports[w]) && idle.name !in PortNames(ports[w])
    ensures ContextOk(Added(d, p, idle, syncReset), ports + [p], threads + [0], current)
  {
    hide ForkProtocol;
    PortsCount(d, ports);
    AddedKeeps(d, ports, p, idle, syncReset);
    assert d.workers[0].Valid();
  }

  lemma StartOk()
    ensures ContextOk(Design([Fsm([0], map[0 := NoState], 0, False)], {}, {}),
      [Port(Whole("start", 1), Whole("select", 1))], [1], (0, 0))
  {}

  lemma SameLength(d: Design, ports: seq<Port>, threads: seq<nat>, current: Node)
    requires ContextOk(d, ports, threads, current)
    ensures |threads| == |ports| == |d.workers|
  {}

  lemma ResetInside(d: Design, ports: seq<Port>, threads: seq<nat>, current: Node, v: nat)
    requires ContextOk(d, ports, threads, current) && v < |d.workers|
    ensures d.workers[v].reset in d.workers[v].body
  {
    assert d.workers[v].Valid();
  }

  /** The state a sync leads to is new, so it is no reset state, and it is empty. */
  lemma Arrives(d: Design, ports: seq<Port>, threads: seq<nat>, x: Node, n: StateId)
    requires ContextOk(d, ports, threads, x) && n !in d.workers[x.0].body
    ensures Stays(Synced(d, x, n), (x.0, n)) && !IsReset(Synced(d, x, n).workers, (x.0, n))
    ensures StateOf(Synced(d, x, n).workers, (x.0, n)) == NoState
    ensures n in WithState(d, x.0, n).workers[x.0].body
  {
    assert d.workers[x.0].Valid();
  }

  /** Ending the body leaves the checkpoint state alone. */
  lemma CheckpointStays(d: Design, x: Node, n: StateId, idle: Target, checkpoint: Node, n2: StateId)
    requires x in AllNodes(d.workers) && checkpoint in AllNodes(d.workers) && checkpoint != x
      && n !in d.workers[x.0].body
    requires n2 !in d.workers[checkpoint.0].body && (checkpoint.0 == x.0 ==> n2 != n)
    ensures var d2 := BodyEnded(d, x, n, idle);
      && |d2.workers| == |d.workers| && checkpoint in AllNodes(d2.workers)
      && StateOf(d2.workers, checkpoint) == StateOf(d.workers, checkpoint)
      && (IsReset(d2.workers, checkpoint) <==> IsReset(d.workers, checkpoint)) && n2 !in d2.workers[checkpoint.0].body
      && (|d.workers| >= 1 ==> Main(d2.workers) == Main(d.workers))
  {}

  /** The control signals may be set in the state, and it has no transitions. */
  ghost predicate MayFork(fs: seq<Fsm>, x: Node, p: Port) {
    !IsReset(fs, x) && Free(StateOf(fs, x), p) && StateOf(fs, x).trans == []
  }

  /** Every worker keeps to the protocol of its own idle signal. */
  ghost predicate IdlesOk(d: Design, ports: seq<Port>, idles: seq<Target>) {
    && |idles| == |ports| == |d.workers| >= 1
    && (forall w {:trigger idles[w]} :: 1 <= w < |idles| ==> IdleProtocol(d, w, idles[w]) && NotPort(ports, idles[w]))
    && forall v, w {:trigger idles[v], idles[w]} ::
         1 <= v < |idles| && 1 <= w < |idles| && v != w ==> idles[v].name != idles[w].name
  }

  lemma WithStateIdles(d: Design, ports: seq<Port>, idles: seq<Target>, v: nat, n: StateId)
    requires IdlesOk(d, ports, idles) && v < |d.workers| && n !in d.workers[v].body
    ensures IdlesOk(WithState(d, v, n), ports, idles)
  {
    hide IdleProtocol;
    forall w {:trigger idles[w]} | 1 <= w < |idles| ensures IdleProtocol(WithState(d, v, n), w, idles[w]) {
      WithStateIdle(d, v, n, w, idles[w]);
    }
  }

  ghost predicate MayExtendAll(d: Design, idles: seq<Target>, x: Node, more: seq<Assignment>, tr: Transition) {
    |idles| == |d.workers|
      && forall w {:trigger idles[w]} :: 1 <= w < |idles| ==> MayExtend(d, x, more, tr, w, idles[w])
  }

  lemma ExtendedIdles(d: Design, ports: seq<Port>, idles: seq<Target>, x: Node, more: seq<Assignment>, tr: Transition)
    requires IdlesOk(d, ports, idles) && x.0 < |d.workers| && MayExtendAll(d, idles, x, more, tr)
    ensures IdlesOk(Extended(d, x, more, tr), ports, idles)
  {
    hide IdleProtocol, MayExtend;
    forall w {:trigger idles[w]} | 1 <= w < |idles| ensures IdleProtocol(Extended(d, x, more, tr), w, idles[w]) {
      ExtendedIdle(d, x, more, tr, w, idles[w]);
    }
  }

  /** A sync leads on from a state without transitions. */
  lemma MaySync(d: Design, idles: seq<Target>, x: Node, more: seq<Assignment>, n: StateId)
    requires |idles| == |d.workers| && x.0 < |d.workers| && (x.0 != 0 ==> !IsReset(d.workers, x))
    requires StateOf(d.workers, x).trans == [] && n != d.workers[x.0].reset
    requires forall w {:trigger idles[w]} :: 1 <= w < |idles| ==> DrivesOnly(more, idles[w], 1)
    requires x.0 != 0 ==> !Writes(more, idles[x.0].name)
    ensures MayExtendAll(d, idles, x, more, Transition(True, n))
  {}

  lemma FinishedIdles(d: Design, ports: seq<Port>, idles: seq<Target>, x: Node)
    requires IdlesOk(d, ports, idles) && 1 <= x.0 < |d.workers| && !IsReset(d.workers, x)
    requires StateOf(d.workers, x).trans == [] && StateOf(d.workers, x).forkSelect.None?
    ensures IdlesOk(FinishedIn(d, x, idles[x.0]), ports, idles)
  {
    hide IdleProtocol;
    forall w {:trigger idles[w]} | 1 <= w < |idles|
      ensures IdleProtocol(FinishedIn(d, x, idles[x.0]), w, idles[w])
    {
      FinishedIdle(d, x, idles[x.0], w, idles[w]);
    }
  }

  lemma ForkingIdles(d: Design, ports: seq<Port>, idles: seq<Target>, x: Node, v: nat, id: nat)
    requires IdlesOk(d, ports, idles) && x.0 < |d.workers| && 1 <= v < |ports|
    ensures IdlesOk(Forking(d, x, v, id, ports[v]), ports, idles)
  {
    hide IdleProtocol;
    forall w {:trigger idles[w]} | 1 <= w < |idles|
      ensures IdleProtocol(Forking(d, x, v, id, ports[v]), w, idles[w])
    {
      ForkingIdle(d, x, v, id, ports[v], w, idles[w]);
    }
  }

  lemma EnteredIdles(d: Design, ports: seq<Port>, idles: seq<Target>, v: nat, n: StateId, id: nat)
    requires IdlesOk(d, ports, idles) && 1 <= v < |ports| && n !in d.workers[v].body
    requires d.workers[v].reset in d.workers[v].body
    ensures IdlesOk(Entered(d, v, n, id, ports[v], idles[v]), ports, idles)
  {
    hide IdleProtocol;
    forall w {:trigger idles[w]} | 1 <= w < |idles|
      ensures IdleProtocol(Entered(d, v, n, id, ports[v], idles[v]), w, idles[w])
    {
      EnteredIdleSignal(d, v, n, id, ports[v], idles[v], w, idles[w]);
    }
  }

  lemma AddedIdles(d: Design, ports: seq<Port>, idles: seq<Target>, p: Port, idle: Target, syncReset: Expr)
    requires IdlesOk(d, ports, idles) && ForkGraph(d.workers) && NewPort(d, p, idle) && NotPort(ports, idle)
    ensures IdlesOk(Added(d, p, idle, syncReset), ports + [p], idles + [idle])
  {
    hide IdleProtocol, ForkGraph;
    var d2, idles2 := Added(d, p, idle, syncReset), idles + [idle];
    forall v, s {:trigger d.workers[v].At(s)} | 0 <= v < |d.workers|
      ensures !Writes(d.workers[v].At(s).assigns, idle.name)
    {
      if s in d.workers[v].body {
        assert (v, s) in AllNodes(d.workers) && StateOf(d.workers, (v, s)) == d.workers[v].At(s);
      }
    }
    AddedIdle(d, p, idle, syncReset);
    forall w {:trigger idles[w]} | 1 <= w < |idles|
      ensures idles[w].name !in PortNames(p) && idles[w].name != idle.name && IdleProtocol(d2, w, idles[w])
    {
      NewNames(d, p, idle, w, idles[w]);
      AddedOldIdle(d, p, idle, syncReset, w, idles[w]);
    }
    forall w {:trigger idles2[w]} | 1 <= w < |idles2|
      ensures IdleProtocol(d2, w, idles2[w]) && NotPort(ports + [p], idles2[w])
    {
      assert w < |idles| ==> idles2[w] == idles[w] && NotPort(ports, idles[w]);
    }
  }

  /** The names of an older idle signal are in use. */
  lemma NewNames(d: Design, p: Port, idle: Target, w: nat, t: Target)
    requires IdleProtocol(d, w, t) && NewPort(d, p, idle) && ForkGraph(d.workers)
    ensures t.name !in PortNames(p) && t.name != idle.name
  {
    assert d.workers[0].Valid();
    var st := StateOf(d.workers, Main(d.workers));
    assert Main(d.workers) in AllNodes(d.workers) && Writes(st.assigns, t.name);
    assert Free(st, p) && !Writes(st.assigns, idle.name);
  }

  lemma PortApart(d: Design, ports: seq<Port>, v: nat)
    requires ForkProtocol(d, ports) && 1 <= v < |ports|
    ensures ports[v].start.name != ports[v].select.name
  {}

  lemma OwnName(d: Design, ports: seq<Port>, idles: seq<Target>, v: nat)
    requires IdlesOk(d, ports, idles) && 1 <= v < |idles|
    ensures NotPort(ports, idles[v])
  {}

  class ForkContext {
    var design: Design
    var ports: seq<Port>                // of each worker; the main worker's is not used
    var idles: seq<Target>              // the idle signals, likewise
    var threads: seq<nat>               // the number of threads created on each worker
    var current: Node                   // current worker and state

    ghost predicate Valid()
      reads this
    {
      ContextOk(design, ports, threads, current) && IdlesOk(design, ports, idles)
    }

    constructor ()
      ensures Valid() && design == Design([Fsm([0], map[0 := NoState], 0, False)], {}, {}) && current == (0, 0)
      ensures |ports| == 1 && threads == [1]
    {
      design := Design([Fsm([0], map[0 := NoState], 0, False)], {}, {});
      ports, idles := [Port(Whole("start", 1), Whole("select", 1))], [Whole("idle", 1)];
      threads, current := [1], (0, 0);
      StartOk();
    }

    method CreateWorker(p: Port, idle: Target, syncReset: Expr) returns (w: nat)
      requires Valid() && NewPort(design, p, idle)
      requires forall v {:trigger ports[v]} ::
        1 <= v < |ports| ==> PortNames(p) !! PortNames(ports[v]) && idle.name !in PortNames(ports[v])
      modifies this`design, this`ports, this`idles, this`threads
      ensures Valid() && w == |old(ports)| && ports == old(ports) + [p] && idles == old(idles) + [idle]
      ensures threads == old(threads) + [0]
      ensures design == Added(old(design), p, idle, syncReset)
    {
      hide ForkGraph, ForkProtocol, IdlesOk;
      w := |ports|;
      AddedOk(design, ports, threads, current, p, idle, syncReset);
      AddedIdles(design, ports, idles, p, idle, syncReset);
      var main := design.workers[0];
      var st := main.At(main.reset);
      var grown := main.(body := main.body[main.reset := st.(assigns := st.assigns + ResetAssigns(p, idle))]);
      var workers := design.workers[0 := grown] + [Fsm([0], map[0 := NoState], 0, syncReset)];
      design := Design(workers, design.pulsing + {p.start.name}, design.inputs);
      ports, idles, threads := ports + [p], idles + [idle], threads + [0];
    }

    /** `next_state`. */
    method NewState(w: nat, n: StateId)
      requires Valid() && w < |design.workers| && n !in design.workers[w].body
      modifies this`design
      ensures Valid() && design == WithState(old(design), w, n) && Stays(design, (w, n))
    {
      hide ContextOk, IdlesOk;
      WithStateOk(design, ports, threads, current, w, n);
      WithStateIdles(design, ports, idles, w, n);
      var f := design.workers[w];
      design := design.(workers := design.workers[w := f.(states := f.states + [n], body := f.body[n := NoState])]);
    }

    /** Assignments to signals other than ports and a transition, in the current state. A worker does not write its
        own idle signal, and goes back to its idle state in `Finish` only. */
    method Extend(more: seq<Assignment>, t: Transition)
      requires Valid() && t.target in design.workers[current.0].body && MayExtendAll(design, idles, current, more, t)
      requires forall i :: 0 <= i < |more| ==> NotPort(ports, more[i].target)
      modifies this`design
      ensures Valid() && design == Extended(old(design), current, more, t)
    {
      hide ForkGraph, ForkProtocol, IdlesOk, MayExtendAll;
      ExtendedOk(design, ports, threads, current, more, t);
      ExtendedIdles(design, ports, idles, current, more, t);
      var f := design.workers[current.0];
      var st := f.At(current.1);
      var st2 := st.(assigns := st.assigns + more, trans := st.trans + [t]);
      design := design.(workers := design.workers[current.0 := f.(body := f.body[current.1 := st2])]);
    }

    /** Assignments in the current state, then `sync`. */
    method SyncWith(more: seq<Assignment>, n: StateId)
      requires Valid() && current.0 < |design.workers| && n !in design.workers[current.0].body
      requires StateOf(design.workers, current).trans == []
      requires forall i :: 0 <= i < |more| ==> NotPort(ports, more[i].target)
      requires forall w {:trigger idles[w]} :: 1 <= w < |idles| ==> DrivesOnly(more, idles[w], 1)
      requires current.0 != 0 ==> current.0 < |idles| && !Writes(more, idles[current.0].name)
      modifies this`design, this`current
      ensures Valid()
      ensures design ==
              Extended(WithState(old(design), old(current.0), n), old(current), more, Transition(True, n))
      ensures current == (old(current.0), n) && !IsReset(design.workers, current)
      ensures StateOf(design.workers, current) == NoState
    {
      hide ForkGraph, ForkProtocol;
      Arrives(design, ports, threads, current, n);
      NewState(current.0, n);
      MaySync(design, idles, current, more, n);
      Extend(more, Transition(True, n));
      current := (current.0, n);
    }

    /** `sync` in the current state; an error if it has transitions. */
    method Sync(n: StateId) returns (ok: bool)
      requires Valid() && n !in design.workers[current.0].body
      modifies this`design, this`current
      ensures Valid() && ok == (old(StateOf(design.workers, current).trans) == [])
      ensures design == if ok then Synced(old(design), old(current), n) else old(design)
      ensures current == if ok then (old(current.0), n) else old(current)
      ensures ok ==> !IsReset(design.workers, current) && StateOf(design.workers, current) == NoState
    {
      hide ForkGraph, ForkProtocol;
      ok := design.workers[current.0].At(current.1).trans == [];
      if ok {
        SyncWith([], n);
      }
    }

    /** `finish` in the current state. */
    method Finish()
      requires Valid() && current.0 >= 1 && !IsReset(design.workers, current)
      requires StateOf(design.workers, current).trans == [] && StateOf(design.workers, current).forkSelect.None?
      modifies this`design
      ensures Valid() && design == FinishedIn(old(design), current, idles[current.0])
    {
      hide ForkProtocol;
      assert design.workers[current.0].Valid();
      var idle, f := idles[current.0], design.workers[current.0];
      ExtendedOk(design, ports, threads, current, [Always(idle, True)], Transition(True, f.reset));
      FinishedIdles(design, ports, idles, current);
      var st := f.At(current.1);
      var st2 := st.(assigns := st.assigns + [Always(idle, True)], trans := st.trans + [Transition(True, f.reset)]);
      design := design.(workers := design.workers[current.0 := f.(body := f.body[current.1 := st2])]);
    }

    /** `__enter__`: a thread on worker v; n is its start state, n2 the state its body begins in. The
        checkpoint is where the fork was opened. */
    method Enter(v: nat, n: StateId, n2: StateId) returns (checkpoint: Node)
      requires Valid() && 1 <= v < |ports| == |idles|
      requires v < |design.workers| && n !in design.workers[v].body && n2 !in design.workers[v].body && n != n2
      modifies this`design, this`threads, this`current
      ensures Valid() && checkpoint == old(current) && current == (v, n2) && !IsReset(design.workers, current)
      ensures threads == old(threads)[v := old(threads)[v] + 1]
      ensures design == Synced(Entered(old(design), v, n, threads[v], ports[v], idles[v]), (v, n), n2)
    {
      hide ContextOk, IdlesOk;
      checkpoint := current;
      assert |threads| == |ports| by { SameLength(design, ports, threads, current); }
      var f, id, idle := design.workers[v], threads[v] + 1, idles[v];
      assert NotPort(ports, idle) by { OwnName(design, ports, idles, v); }
      EnteredOk(design, ports, threads, current, v, n, idle);
      var reset, start := f.At(f.reset), NoState.(assigns := [Always(idle, False)], forkSelect := Some(id));
      var idleState := reset.(trans := reset.trans + [Transition(StartCond(ports[v], id), n)]);
      var body := f.body[f.reset := idleState][n := start];
      ResetInside(design, ports, threads, checkpoint, v);
      EnteredIdles(design, ports, idles, v, n, id);
      design := design.(workers := design.workers[v := f.(states := f.states + [n], body := body)]);
      threads, current := threads[v := id], (v, n);
      var ok := Sync(n2);
    }

    /** Starting the worker from the current state; it fails where the control signals may not be set: in
        reset states and where they are set already. The select register has `SelectWidth` bits for all
        threads. */
    method Start(v: nat) returns (ok: bool)
      requires Valid() && 1 <= v < |ports| && |threads| == |ports|
      requires StateOf(design.workers, current).forkSelect.None? && threads[v] < Pow2(ports[v].select.width)
      modifies this`design
      ensures Valid()
      ensures ok == (!IsReset(old(design).workers, current) && old(Free(StateOf(design.workers, current), ports[v])))
      ensures design == if ok then Forking(old(design), current, v, threads[v], ports[v]) else old(design)
    {
      hide ForkGraph, ForkProtocol, IdlesOk;
      var f := design.workers[current.0];
      var st, names := f.At(current.1), {ports[v].start.name, ports[v].select.name};
      ok := current.1 != f.reset;
      for i := 0 to |st.assigns|
        invariant ok == (current.1 != f.reset && forall j :: 0 <= j < i ==> st.assigns[j].target.name !in names)
      {
        if st.assigns[i].target.name in names { ok := false; }
      }
      if ok {
        ForkingOk(design, ports, threads, current, v);
        ForkingIdles(design, ports, idles, current, v, threads[v]);
        var st2 := st.(assigns := st.assigns + StartAssigns(ports[v], threads[v]),
                       forked := st.forked + [(v, threads[v])]);
        design := design.(workers := design.workers[current.0 := f.(body := f.body[current.1 := st2])]);
      }
    }

    /** `__exit__`: the body ends in a new state n, the checkpoint state starts the worker and syncs to n2. The
        final sync fails if the checkpoint state has transitions, as it has after another fork there. */
    method Exit(checkpoint: Node, v: nat, n: StateId, n2: StateId) returns (ok: bool)
      requires 1 <= v < |ports| == |threads| == |idles| && current.0 == v < |design.workers|
      requires checkpoint.0 < |design.workers|
      requires n !in design.workers[current.0].body && n2 !in design.workers[checkpoint.0].body
        && (checkpoint.0 == current.0 ==> n2 != n)
      requires StateOf(design.workers, checkpoint).forkSelect.None? && threads[v] < Pow2(ports[v].select.width)
      requires Stays(design, checkpoint) && checkpoint != current && !IsReset(design.workers, current)
      requires Valid()
      modifies this`design, this`current
      ensures Valid()
      ensures ok == old(MayFork(design.workers, checkpoint, ports[v]))
      ensures ok ==> current == (checkpoint.0, n2)
      ensures ok ==> design == Exited(old(design), old(current), n, idles[v], checkpoint, v, threads[v], ports[v], n2)
      ensures ok ==> StartsThread(StateOf(design.workers, checkpoint), v, ports[v], threads[v])
      ensures ok ==> StateOf(design.workers, checkpoint).trans == [Transition(True, n2)]
      ensures ok ==>
        if old(StateOf(design.workers, current).trans) == [] then
          && StateOf(design.workers, (v, n)).assigns == [Always(idles[v], True)]
          && StateOf(design.workers, (v, n)).trans == [Transition(True, design.workers[v].reset)]
        else n !in design.workers[v].body
    {
      hide ForkGraph, ForkProtocol, Synced, FinishedIn, IdlesOk;
      ghost var d0, x0 := design, current;
      var done := Sync(n);
      if done { Finish(); }
      assert design == BodyEnded(d0, x0, n, idles[v]);
      CheckpointStays(d0, x0, n, idles[v], checkpoint, n2);
      current := checkpoint;
      ghost var d1 := design;
      ok := Start(v);
      if !ok { return; }
      ok := Sync(n2);
      if ok {
        PortApart(d1, ports, v);
        ExitedForks(d1, checkpoint, v, threads[v], ports[v], n2);
        ExitedEnd(d0, x0, n, idles[v], checkpoint, v, threads[v], ports[v], n2);
      }
    }

    /** `cancel` of worker v, which r resets; it fails where r may not be set, and in a state with transitions. */
    method Cancel(v: nat, r: Target, n: StateId, n2: StateId) returns (ok: bool)
      requires Valid() && 1 <= v < |idles| && current.0 != v && current.0 < |design.workers|
      requires n !in design.workers[current.0].body && n2 !in design.workers[current.0].body && n2 != n
      requires NotPort(ports, r) && forall w :: 1 <= w < |idles| ==> idles[w].name != r.name
      modifies this`design, this`current
      ensures Valid()
      ensures ok == (!IsReset(old(design).workers, old(current)) && old(StateOf(design.workers, current).trans) == []
                     && !Writes(old(StateOf(design.workers, current).assigns), r.name))
      ensures design == if ok then Cancelled(old(design), old(current), n, n2, r, idles[v]) else old(design)
      ensures current == if ok then (old(current.0), n2) else old(current)
    {
      hide ForkGraph, ForkProtocol;
      var f := design.workers[current.0];
      var st := f.At(current.1);
      ok := current.1 != f.reset && st.trans == [];
      for i := 0 to |st.assigns|
        invariant ok == (current.1 != f.reset && st.trans == []
                         && forall j :: 0 <= j < i ==> st.assigns[j].target.name != r.name)
      {
        if st.assigns[i].target.name == r.name { ok := false; }
      }
      if ok {
        SyncWith([Always(r, True)], n);
        SyncWith([Always(r, False), Always(idles[v], True)], n2);
      }
    }
  }
}
