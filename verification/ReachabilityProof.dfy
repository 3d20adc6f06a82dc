/** Reachability over-approximates every run: no worker ever enters a state outside a closed
marking, so pruning the rest changes no run. */
module ReachabilityProof {
  import opened Signals
  import opened Selectors
  import opened Cycle
  import opened ReachabilityModel

  // ----- Closed markings and paths -----

  /** A closed marking contains whatever the main reset state leads to. */
  lemma {:induction false} PathStays(fs: seq<Fsm>, marked: set<Node>, p: seq<Node>, k: nat)
    requires |fs| >= 1 && ClosedMarking(fs, marked)
    requires IsPath(fs, p) && p[0] == Main(fs) && k < |p|
    ensures p[k] in marked && Visited(fs, p[k])
  {
    if k > 0 {
      PathStays(fs, marked, p, k - 1);
      assert Edge(fs, p[k - 1], p[k - 1 + 1]);
    }
  }

  lemma PathStarts(fs: seq<Fsm>, x: Node)
    ensures Leads(fs, x, x)
  {
    assert IsPath(fs, [x]);
  }

  lemma {:induction false} PathsJoin(fs: seq<Fsm>, x: Node, y: Node, z: Node)
    requires Edge(fs, x, y) && Leads(fs, y, z)
    ensures Leads(fs, x, z)
  {
    var p :| IsPath(fs, p) && p[0] == y && p[|p| - 1] == z;
    var q := [x] + p;
    forall i | 0 <= i < |q| - 1 ensures Edge(fs, q[i], q[i + 1]) {
      if i > 0 { assert Edge(fs, p[i - 1], p[i - 1 + 1]); }
    }
    assert IsPath(fs, q) && q[0] == x && q[|q| - 1] == z;
  }

  // ----- What reaches a worker's port in one cycle -----

  /** The start pulse is low, or the selected thread is one of the known ones. */
  ghost predicate Announced(known: iset<int>, p: Port, env: Env) {
    Value(env, p.start) == 0 || Value(env, p.select) in known
  }

  /** A state that keeps this so. */
  ghost predicate Tame(known: iset<int>, p: Port, st: State) {
    || (!Writes(st.assigns, p.start.name) && !Writes(st.assigns, p.select.name))
    || Sets(st.assigns, p.start, 0)
    || exists id: nat ::
      id in known && id < Pow2(p.select.width) && Sets(st.assigns, p.start, 1) && Sets(st.assigns, p.select, id)
  }

  lemma SetsValue(assigns: seq<Assignment>, t: Target, n: nat, ops: Ops, pre: Env, acc: Env)
    requires Sets(assigns, t, n) && n < Pow2(t.width)
    ensures Value(Apply(assigns, ops, pre, acc), t) == n
  {
    var i: nat :| OnlyWriter(assigns, i) && assigns[i] == Always(t, Const(n));
    var head, tail := assigns[..i + 1], assigns[i + 1..];
    assert assigns == head + tail && head == assigns[..i] + [assigns[i]];
    var before := Apply(assigns[..i], ops, pre, acc);
    var written := Write(before, t, n);
    ApplyAppend(head, tail, ops, pre, acc);
    ApplyAppend(assigns[..i], [assigns[i]], ops, pre, acc);
    assert Apply([assigns[i]], ops, pre, before) == written by { assert [assigns[i]][1..] == []; }
    forall b: Bit | b.name == t.name
      ensures Apply(tail, ops, pre, written)[b] == written[b]
    {
      assert !Writes(tail, b.name) by {
        forall k | 0 <= k < |tail| ensures tail[k].target.name != t.name { assert tail[k] == assigns[i + 1 + k]; }
      }
      ApplyFrame(tail, ops, pre, written, b);
    }
    BitsValueAgrees(Apply(tail, ops, pre, written), written, t.name, t.Low(), t.width);
    WriteRead(before, t, n);
    SmallMod(n, Pow2(t.width));
  }

  lemma UntouchedValue(assigns: seq<Assignment>, t: Target, ops: Ops, pre: Env, acc: Env)
    requires !Writes(assigns, t.name)
    ensures Value(Apply(assigns, ops, pre, acc), t) == Value(acc, t)
  {
    forall b: Bit | b.name == t.name
      ensures Apply(assigns, ops, pre, acc)[b] == acc[b]
    {
      ApplyFrame(assigns, ops, pre, acc, b);
    }
    BitsValueAgrees(Apply(assigns, ops, pre, acc), acc, t.name, t.Low(), t.width);
  }

  lemma TameKeeps(known: iset<int>, p: Port, st: State, ops: Ops, pre: Env, acc: Env)
    requires Announced(known, p, acc) && Tame(known, p, st) && p.start.width == 1
    ensures Announced(known, p, Apply(st.assigns, ops, pre, acc))
  {
    assert Pow2(1) == 2 by { assert Pow2(0) == 1; }
    if Sets(st.assigns, p.start, 0) {
      SetsValue(st.assigns, p.start, 0, ops, pre, acc);
    } else if !Writes(st.assigns, p.start.name) && !Writes(st.assigns, p.select.name) {
      UntouchedValue(st.assigns, p.start, ops, pre, acc);
      UntouchedValue(st.assigns, p.select, ops, pre, acc);
    } else {
      var id: nat :| id in known && id < Pow2(p.select.width) && Sets(st.assigns, p.start, 1)
        && Sets(st.assigns, p.select, id);
      SetsValue(st.assigns, p.select, id, ops, pre, acc);
    }
  }

  /** However the workers' writes interleave, the last one to the port is a known thread's. */
  lemma {:induction false} EffectsTame(known: iset<int>, p: Port, fs: seq<Fsm>, next: seq<StateId>, ops: Ops,
      pre: Env, acc: Env)
    requires |fs| == |next| && Announced(known, p, acc) && p.start.width == 1
    requires forall k {:trigger next[k]} :: 0 <= k < |fs| ==> Tame(known, p, fs[k].At(next[k]))
    ensures Announced(known, p, Apply(Effects(fs, next), ops, pre, acc))
    decreases fs
  {
    if fs != [] {
      var st := fs[0].At(next[0]);
      assert Tame(known, p, st);
      TameKeeps(known, p, st, ops, pre, acc);
      ApplyAppend(st.assigns, Effects(fs[1..], next[1..]), ops, pre, acc);
      assert forall k {:trigger next[1..][k]} ::
        0 <= k < |fs[1..]| ==> fs[1..][k] == fs[k + 1] && next[1..][k] == next[k + 1];
      EffectsTame(known, p, fs[1..], next[1..], ops, pre, Apply(st.assigns, ops, pre, acc));
    }
  }

  // ----- Every run stays inside -----

  /** The threads of worker w that marked states may start. */
  ghost function Known(fs: seq<Fsm>, marked: set<Node>, w: nat): iset<int> {
    iset id: nat, x | x in marked && (w, id) in StateOf(fs, x).forked :: id
  }

  ghost predicate Setting(d: Design, ports: seq<Port>, marked: set<Node>) {
    && ForkGraph(d.workers) && ForkProtocol(d, ports)
    && ClosedMarking(d.workers, marked) && marked <= AllNodes(d.workers)
  }

  /** Every worker is in a marked state, and only marked states' threads are being started. */
  ghost predicate Safe(d: Design, ports: seq<Port>, marked: set<Node>, c: Config) {
    && |c.at| == |d.workers| == |ports|
    && (forall w {:trigger c.at[w]} :: 0 <= w < |c.at| ==> (w, c.at[w]) in marked)
    && (forall w {:trigger ports[w]} :: 1 <= w < |ports| ==> Announced(Known(d.workers, marked, w), ports[w], c.env))
  }

  lemma FoundStart(f: Fsm, states: seq<StateId>, id: nat)
    ensures var s := FindStart(f, states, id); s.Some? ==> s.value in states && f.At(s.value).forkSelect == Some(id)
  {}

  lemma StartIsNode(fs: seq<Fsm>, v: nat, id: nat)
    requires ForkGraph(fs)
    ensures var s := StartOf(fs, v, id); s.Some? ==>
      v < |fs| && (v, s.value) in AllNodes(fs) && !IsReset(fs, (v, s.value))
  {
    if v < |fs| {
      FoundStart(fs[v], fs[v].states, id);
      var s := StartOf(fs, v, id);
      if s.Some? {
        assert fs[v].Valid() && (v, s.value) in AllNodes(fs);
        assert StateOf(fs, (v, s.value)).forkSelect == Some(id);
      }
    }
  }

  lemma IdleHolds(p: Port, id: nat, ops: Ops, env: Env)
    ensures Holds(StartCond(p, id), ops, env) <==> Value(env, p.start) != 0 && Value(env, p.select) == id
  {
    var asked := Eq(Sig(p.select), Const(id));
    assert Eval(Sig(p.select), ops, env) == Value(env, p.select) && Eval(Const(id), ops, env) == id;
    assert Eval(asked, ops, env) == Flag(Value(env, p.select) == id);
    assert Eval(All(Sig(p.start), asked), ops, env) ==
      Flag(Eval(Sig(p.start), ops, env) != 0 && Eval(asked, ops, env) != 0);
  }

  /** A marked state's successor is marked: also an idle worker's, which only follows a start. */
  lemma NextMarked(d: Design, ports: seq<Port>, marked: set<Node>, w: nat, s: StateId, ops: Ops, env: Env)
    requires Setting(d, ports, marked) && w < |d.workers| && (w, s) in marked
    requires w >= 1 ==> Announced(Known(d.workers, marked, w), ports[w], env)
    ensures (w, Next(d.workers[w], s, ops, env)) in marked
  {
    var fs := d.workers;
    var st := StateOf(fs, (w, s));
    var k := NextIsTarget(st.trans, s, ops, env);
    if k >= 0 {
      var y := (w, st.trans[k].target);
      if IsReset(fs, y) {
        assert y in Resets(fs);
      } else if Visited(fs, (w, s)) {
        assert st.trans[k].target == y.1 && !ConstFalse(st.trans[k].cond);
        assert TransEdge(fs, (w, s), y);
        assert Edge(fs, (w, s), y);
      } else {
        StartedMarked(d, ports, marked, w, k, ops, env);
      }
    }
  }

  lemma StartedMarked(d: Design, ports: seq<Port>, marked: set<Node>, w: nat, k: nat, ops: Ops, env: Env)
    requires Setting(d, ports, marked) && 1 <= w < |d.workers|
    requires Announced(Known(d.workers, marked, w), ports[w], env)
    requires var ts := d.workers[w].At(d.workers[w].reset).trans; k < |ts| && Holds(ts[k].cond, ops, env)
    ensures (w, d.workers[w].At(d.workers[w].reset).trans[k].target) in marked
  {
    var fs := d.workers;
    var t := fs[w].At(fs[w].reset).trans[k];
    assert IdleTransition(fs, w, ports[w], t);
    var id: nat :| t.cond == StartCond(ports[w], id) && StartOf(fs, w, id) == Some(t.target);
    IdleHolds(ports[w], id, ops, env);
    assert id in Known(fs, marked, w);
    var x :| x in marked && (w, id) in StateOf(fs, x).forked;
    assert NodeOk(fs, x);
    StartIsNode(fs, w, id);
    assert ForkEdge(fs, x, (w, t.target));
    assert Edge(fs, x, (w, t.target));
  }

  lemma SampleKeeps(inputs: set<string>, registers: Env, outside: Env, t: Target)
    requires t.name !in inputs
    ensures Value(Sample(inputs, registers, outside), t) == Value(registers, t)
  {
    BitsValueAgrees(Sample(inputs, registers, outside), registers, t.name, t.Low(), t.width);
  }

  lemma ClearedValue(pulsing: set<string>, env: Env, t: Target)
    requires t.name in pulsing
    ensures Value(ClearPulsing(pulsing, env), t) == 0
  {
    ZeroBits(ClearPulsing(pulsing, env), t.name, t.Low(), t.width);
  }

  lemma ZeroBits(env: Env, name: string, low: nat, width: nat)
    requires forall b: Bit | b.name == name :: !env[b]
    ensures BitsValue(env, name, low, width) == 0
    decreases width
  {
    if width > 0 { ZeroBits(env, name, low + 1, width - 1); }
  }

  lemma StepPorts(d: Design, ports: seq<Port>, marked: set<Node>, c: Config, ops: Ops, outside: Env,
      next: seq<StateId>, w: nat)
    requires Setting(d, ports, marked) && |c.at| == |d.workers| && next == NextStates(d.workers, c.at, ops, c.env)
    requires forall u {:trigger next[u]} :: 0 <= u < |next| ==> (u, next[u]) in marked
    requires 1 <= w < |ports|
    ensures Announced(Known(d.workers, marked, w), ports[w], Step(d, c, ops, outside).env)
  {
    var fs, known := d.workers, Known(d.workers, marked, w);
    assert PortOk(ports[w], d.pulsing, d.inputs);
    forall k {:trigger next[k]} | 0 <= k < |fs| ensures Tame(known, ports[w], fs[k].At(next[k])) {
      assert StateOf(fs, (k, next[k])) == fs[k].At(next[k]);
    }
    var cleared := ClearPulsing(d.pulsing, c.env);
    ClearedValue(d.pulsing, c.env, ports[w].start);
    EffectsTame(known, ports[w], fs, next, ops, c.env, cleared);
    var registers := Apply(Effects(fs, next), ops, c.env, cleared);
    SampleKeeps(d.inputs, registers, outside, ports[w].start);
    SampleKeeps(d.inputs, registers, outside, ports[w].select);
  }

  lemma NextAllMarked(d: Design, ports: seq<Port>, marked: set<Node>, c: Config, ops: Ops)
    requires Setting(d, ports, marked) && Safe(d, ports, marked, c)
    ensures var next := NextStates(d.workers, c.at, ops, c.env);
      forall u {:trigger next[u]} :: 0 <= u < |next| ==> (u, next[u]) in marked
  {
    var next := NextStates(d.workers, c.at, ops, c.env);
    forall u {:trigger next[u]} | 0 <= u < |next| ensures (u, next[u]) in marked {
      assert (u, c.at[u]) in marked;
      if u >= 1 { assert Announced(Known(d.workers, marked, u), ports[u], c.env); }
      NextMarked(d, ports, marked, u, c.at[u], ops, c.env);
    }
  }

  lemma StepSafe(d: Design, ports: seq<Port>, marked: set<Node>, c: Config, ops: Ops, outside: Env)
    requires Setting(d, ports, marked) && Safe(d, ports, marked, c)
    ensures Safe(d, ports, marked, Step(d, c, ops, outside))
  {
    var next := NextStates(d.workers, c.at, ops, c.env);
    NextAllMarked(d, ports, marked, c, ops);
    var r := Step(d, c, ops, outside);
    forall w {:trigger r.at[w]} | 0 <= w < |r.at| ensures (w, r.at[w]) in marked {
      assert (w, next[w]) in marked && (w, d.workers[w].reset) in Resets(d.workers);
    }
    forall w {:trigger ports[w]} | 1 <= w < |ports|
      ensures Announced(Known(d.workers, marked, w), ports[w], r.env)
    {
      StepPorts(d, ports, marked, c, ops, outside, next, w);
    }
  }

  lemma InitialSafe(d: Design, ports: seq<Port>, marked: set<Node>, ops: Ops, powerUp: Env, outside: Env)
    requires Setting(d, ports, marked)
    ensures Safe(d, ports, marked, Initial(d, ops, powerUp, outside))
  {
    var c := Initial(d, ops, powerUp, outside);
    forall w {:trigger c.at[w]} | 0 <= w < |c.at| ensures (w, c.at[w]) in marked {
      assert (w, d.workers[w].reset) in Resets(d.workers);
    }
    var st := StateOf(d.workers, Main(d.workers));
    forall w {:trigger ports[w]} | 1 <= w < |ports|
      ensures Announced(Known(d.workers, marked, w), ports[w], c.env)
    {
      assert PortOk(ports[w], d.pulsing, d.inputs) && Sets(st.assigns, ports[w].start, 0);
      SetsValue(st.assigns, ports[w].start, 0, ops, powerUp, powerUp);
      SampleKeeps(d.inputs, Apply(st.assigns, ops, powerUp, powerUp), outside, ports[w].start);
    }
  }

  /** No run of any worker ever enters an unmarked state. */
  lemma {:induction false} RunSafe(d: Design, ports: seq<Port>, marked: set<Node>, ops: Ops, powerUp: Env,
      outside: nat -> Env, n: nat)
    requires Setting(d, ports, marked)
    ensures Safe(d, ports, marked, Run(d, ops, powerUp, outside, n))
  {
    InitialSafe(d, ports, marked, ops, powerUp, outside(0));
    forall c: Config, o: Env {:trigger Step(d, c, ops, o)} | |c.at| == |d.workers| && Safe(d, ports, marked, c)
      ensures Safe(d, ports, marked, Step(d, c, ops, o))
    {
      StepSafe(d, ports, marked, c, ops, o);
    }
    RunKeeps(d, c => Safe(d, ports, marked, c), ops, powerUp, outside, n);
  }

  // ----- Pruning -----

  function Kept(states: seq<StateId>, w: nat, marked: set<Node>): (r: seq<StateId>)
    ensures forall s :: s in r <==> s in states && (w, s) in marked
  {
    if states == [] then []
    else (if (w, states[0]) in marked then [states[0]] else []) + Kept(states[1..], w, marked)
  }

  function PrunedFsm(f: Fsm, w: nat, marked: set<Node>): Fsm {
    f.(states := Kept(f.states, w, marked), body := map s | s in f.body && (w, s) in marked :: f.body[s])
  }

  function Pruned(fs: seq<Fsm>, marked: set<Node>): (r: seq<Fsm>)
    ensures |r| == |fs| && forall w :: 0 <= w < |fs| ==> r[w] == PrunedFsm(fs[w], w, marked)
  {
    seq(|fs|, w requires 0 <= w < |fs| => PrunedFsm(fs[w], w, marked))
  }

  lemma PrunedStep(d: Design, ports: seq<Port>, marked: set<Node>, c: Config, ops: Ops, outside: Env)
    requires Setting(d, ports, marked) && Safe(d, ports, marked, c)
    ensures Step(d.(workers := Pruned(d.workers, marked)), c, ops, outside) == Step(d, c, ops, outside)
  {
    hide ForkGraph, ForkProtocol, ClosedMarking, Apply;
    var fs, gs := d.workers, Pruned(d.workers, marked);
    var next := NextStates(fs, c.at, ops, c.env);
    NextAllMarked(d, ports, marked, c, ops);
    forall w {:trigger c.at[w]} | 0 <= w < |fs| ensures gs[w].At(c.at[w]) == fs[w].At(c.at[w]) {
      assert (w, c.at[w]) in marked;
    }
    forall w {:trigger next[w]} | 0 <= w < |fs| ensures gs[w].At(next[w]) == fs[w].At(next[w]) {
      assert (w, next[w]) in marked;
    }
    assert NextStates(gs, c.at, ops, c.env) == next;
    SameEffects(fs, gs, next);
    assert Latch(gs, next, ops, c.env) == Latch(fs, next, ops, c.env);
  }

  /** Deleting every state outside a closed marking keeps every run, state by state. */
  lemma {:induction false} PruningKeepsRuns(d: Design, ports: seq<Port>, marked: set<Node>, ops: Ops,
                                            powerUp: Env, outside: nat -> Env, n: nat)
    requires Setting(d, ports, marked)
    ensures Run(d.(workers := Pruned(d.workers, marked)), ops, powerUp, outside, n) == Run(d, ops, powerUp, outside, n)
  {
    var d2 := d.(workers := Pruned(d.workers, marked));
    InitialSafe(d, ports, marked, ops, powerUp, outside(0));
    forall c: Config, o: Env {:trigger Step(d, c, ops, o)} | |c.at| == |d.workers| && Safe(d, ports, marked, c)
      ensures Safe(d, ports, marked, Step(d, c, ops, o)) && Step(d2, c, ops, o) == Step(d, c, ops, o)
    {
      StepSafe(d, ports, marked, c, ops, o);
      PrunedStep(d, ports, marked, c, ops, o);
    }
    RunsAlike(d, d2, c => Safe(d, ports, marked, c), ops, powerUp, outside, n);
  }
}
