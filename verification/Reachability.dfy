/** The reachability analysis and pruning of `ReachabilityAnalysisMixin`. */
module Reachability {
  import opened Signals
  import opened Selectors
  import opened Cycle
  import opened Engine
  import opened ReachabilityModel
  import opened ReachabilityProof

  /** x's successors are all marked. */
  ghost predicate Explored(fs: seq<Fsm>, x: Node, marked: set<Node>) {
    forall y {:trigger Edge(fs, x, y)} :: Edge(fs, x, y) ==> y in marked
  }

  /** What a visit of x may add: states x leads to, all of them explored. */
  ghost predicate Grows(fs: seq<Fsm>, x: Node, before: set<Node>, after: set<Node>) {
    && before <= after <= AllNodes(fs)
    && forall z {:trigger z in after} {:trigger z in before} ::
      z in after && z !in before ==> Leads(fs, x, z) && Explored(fs, z, after)
  }

  ghost predicate VisitOk(fs: seq<Fsm>, x: Node, marked: set<Node>) {
    && ForkGraph(fs) && Resets(fs) <= marked <= AllNodes(fs) && x in AllNodes(fs)
    && (x in marked ==> StateOf(fs, x).forked == [])
  }

  lemma GrowsOn(fs: seq<Fsm>, x: Node, y: Node, before: set<Node>, now: set<Node>, after: set<Node>)
    requires Grows(fs, x, before, now) && Grows(fs, y, now, after) && Edge(fs, x, y)
    ensures Grows(fs, x, before, after) && now <= after
  {
    forall z | z in after && z !in before ensures Leads(fs, x, z) && Explored(fs, z, after) {
      if z !in now { PathsJoin(fs, x, y, z); }
    }
  }

  lemma GrowsRoot(fs: seq<Fsm>, x: Node, before: set<Node>, after: set<Node>)
    requires Grows(fs, x, before + {x}, after) && Explored(fs, x, after)
    ensures Grows(fs, x, before, after)
  {
    PathStarts(fs, x);
  }

  lemma FewerLeft(all: set<Node>, before: set<Node>, after: set<Node>)
    requires before <= after
    ensures |all - after| <= |all - before|
    ensures forall x :: x in all && x in after && x !in before ==> |all - after| < |all - before|
  {
    SubsetSize(all - after, all - before);
    forall x | x in all && x in after && x !in before ensures |all - after| < |all - before| {
      SubsetSize(all - after, all - before - {x});
    }
  }

  lemma {:induction false} SubsetSize(a: set<Node>, b: set<Node>)
    requires a <= b
    ensures |a| <= |b|
    decreases a
  {
    if a != {} {
      var x :| x in a;
      SubsetSize(a - {x}, b - {x});
    }
  }

  ghost predicate TransDone(fs: seq<Fsm>, x: Node, marked: set<Node>, n: nat) {
    n <= |StateOf(fs, x).trans|
    && forall j :: 0 <= j < n ==>
         var t := StateOf(fs, x).trans[j]; ConstFalse(t.cond) || (x.0, t.target) in marked
  }

  ghost predicate ForksDone(fs: seq<Fsm>, x: Node, marked: set<Node>, n: nat) {
    n <= |StateOf(fs, x).forked|
    && forall j :: 0 <= j < n ==>
         var (v, id) := StateOf(fs, x).forked[j]; StartOf(fs, v, id).None? || (v, StartOf(fs, v, id).value) in marked
  }

  lemma AllExplored(fs: seq<Fsm>, x: Node, marked: set<Node>)
    requires TransDone(fs, x, marked, |StateOf(fs, x).trans|) && ForksDone(fs, x, marked, |StateOf(fs, x).forked|)
    ensures Explored(fs, x, marked)
  {
    forall y | Edge(fs, x, y) ensures y in marked {
      if ForkEdge(fs, x, y) {
        var id: nat :| (y.0, id) in StateOf(fs, x).forked && StartOf(fs, y.0, id) == Some(y.1);
        var j :| 0 <= j < |StateOf(fs, x).forked| && StateOf(fs, x).forked[j] == (y.0, id);
      }
    }
  }

  lemma MoreDone(fs: seq<Fsm>, x: Node, marked: set<Node>, more: set<Node>)
    requires marked <= more
    ensures forall n: nat {:trigger TransDone(fs, x, marked, n)} ::
      TransDone(fs, x, marked, n) ==> TransDone(fs, x, more, n)
    ensures forall n: nat {:trigger ForksDone(fs, x, marked, n)} ::
      ForksDone(fs, x, marked, n) ==> ForksDone(fs, x, more, n)
  {}

  lemma VisitStarts(fs: seq<Fsm>, x: Node, before: set<Node>)
    requires VisitOk(fs, x, before)
    ensures Grows(fs, x, before + {x}, before + {x}) && TransDone(fs, x, before + {x}, 0)
  {}

  ghost function Left(fs: seq<Fsm>, marked: set<Node>): nat { |AllNodes(fs) - marked| }

  lemma NextTarget(fs: seq<Fsm>, x: Node, before: set<Node>, now: set<Node>, i: nat)
    requires VisitOk(fs, x, before) && Grows(fs, x, before + {x}, now) && i < |StateOf(fs, x).trans|
    requires var t := StateOf(fs, x).trans[i]; !ConstFalse(t.cond) && (x.0, t.target) !in now
    ensures var y := (x.0, StateOf(fs, x).trans[i].target); VisitOk(fs, y, now) && Edge(fs, x, y)
    ensures Left(fs, now) <= Left(fs, before) && (x !in before ==> Left(fs, now) < Left(fs, before))
  {
    var y := (x.0, StateOf(fs, x).trans[i].target);
    assert fs[x.0].Valid();
    assert StateOf(fs, x).trans[i].target == y.1;
    assert TransEdge(fs, x, y);
    FewerLeft(AllNodes(fs), before, now);
  }

  lemma NextStart(fs: seq<Fsm>, x: Node, before: set<Node>, now: set<Node>, i: nat)
    requires VisitOk(fs, x, before) && Grows(fs, x, before + {x}, now) && i < |StateOf(fs, x).forked|
    requires var (v, id) := StateOf(fs, x).forked[i]; StartOf(fs, v, id).Some?
    ensures var (v, id) := StateOf(fs, x).forked[i];
      var y := (v, StartOf(fs, v, id).value);
      VisitOk(fs, y, now) && Edge(fs, x, y)
    ensures Left(fs, now) < Left(fs, before)
  {
    var (v, id) := StateOf(fs, x).forked[i];
    StartIsNode(fs, v, id);
    var y := (v, StartOf(fs, v, id).value);
    assert (y.0, id) in StateOf(fs, x).forked;
    assert ForkEdge(fs, x, y);
    FoundStart(fs[v], fs[v].states, id);
    assert NodeOk(fs, y);
    FewerLeft(AllNodes(fs), before, now);
  }

  lemma StepDone(fs: seq<Fsm>, x: Node, marked: set<Node>, n: nat)
    ensures TransDone(fs, x, marked, n) && n < |StateOf(fs, x).trans|
         && (var t := StateOf(fs, x).trans[n]; ConstFalse(t.cond) || (x.0, t.target) in marked)
         ==> TransDone(fs, x, marked, n + 1)
    ensures ForksDone(fs, x, marked, n) && n < |StateOf(fs, x).forked|
         && (var (v, id) := StateOf(fs, x).forked[n];
             StartOf(fs, v, id).None? || (v, StartOf(fs, v, id).value) in marked)
         ==> ForksDone(fs, x, marked, n + 1)
  {}

  class ReachabilityAnalysis {
    const engine: CoreEngine
    var reachable: set<Node>          // the states with metadata 'reachable'

    constructor (engine: CoreEngine)
      ensures this.engine == engine && reachable == {}
    {
      this.engine := engine;
      reachable := {};
    }

    /** `_reachability_visit`. Fork edges are followed without looking at the mark; the recursion
        still ends because a state that starts a thread does not fork itself. */
    method Visit(x: Node)
      requires VisitOk(engine.workers, x, reachable)
      modifies this`reachable
      ensures x in reachable && Grows(engine.workers, x, old(reachable), reachable)
      ensures Explored(engine.workers, x, reachable)
      decreases Left(engine.workers, reachable), if x in reachable then 1 else 0
    {
      hide VisitOk, Grows, Explored, TransDone, ForksDone, Edge, Left, StartOf, StateOf;
      ghost var fs, before := engine.workers, reachable;
      VisitStarts(fs, x, before);
      reachable := reachable + {x};
      var st := StateOf(engine.workers, x);
      for i := 0 to |st.trans|
        invariant x in reachable
        invariant Grows(fs, x, before + {x}, reachable) && TransDone(fs, x, reachable, i)
      {
        var y := (x.0, st.trans[i].target);
        if !ConstFalse(st.trans[i].cond) && y !in reachable {
          ghost var now := reachable;
          NextTarget(fs, x, before, now, i);
          Visit(y);
          GrowsOn(fs, x, y, before + {x}, now, reachable);
          MoreDone(fs, x, now, reachable);
        }
        StepDone(fs, x, reachable, i);
      }
      NoForkDone(fs, x, reachable);
      for i := 0 to |st.forked|
        invariant x in reachable
        invariant Grows(fs, x, before + {x}, reachable)
        invariant TransDone(fs, x, reachable, |st.trans|) && ForksDone(fs, x, reachable, i)
      {
        var (v, id) := st.forked[i];
        var start := StartOf(engine.workers, v, id);
        if start.Some? {
          ghost var now := reachable;
          NextStart(fs, x, before, now, i);
          Visit((v, start.value));
          GrowsOn(fs, x, (v, start.value), before + {x}, now, reachable);
          MoreDone(fs, x, now, reachable);
        }
        StepDone(fs, x, reachable, i);
      }
      AllExplored(fs, x, reachable);
      GrowsRoot(fs, x, before, reachable);
    }

    /** `reachability_analysis`: marks the reset states and exactly what the main reset state leads to. */
    method Analyse()
      requires ForkGraph(engine.workers)
      modifies this`reachable
      ensures Exact(engine.workers, reachable)
      ensures ClosedMarking(engine.workers, reachable) && reachable <= AllNodes(engine.workers)
    {
      ghost var fs := engine.workers;
      reachable := {};
      for w := 0 to |engine.workers|
        invariant reachable == set v | 0 <= v < w :: (v, fs[v].reset)
      {
        reachable := reachable + {(w, engine.workers[w].reset)};
      }
      assert reachable == Resets(fs);
      Visit(Main(engine.workers));
      VisitedAll(fs, reachable);
    }

    method KeepReachable(states: seq<StateId>, w: nat) returns (kept: seq<StateId>)
      ensures kept == Kept(states, w, reachable)
    {
      kept := [];
      for i := 0 to |states|
        invariant kept == Kept(states[..i], w, reachable)
      {
        KeptStep(states, i, w, reachable);
        if (w, states[i]) in reachable { kept := kept + [states[i]]; }
      }
      assert states[..|states|] == states;
    }

    /** `prune_unreachable_states`. */
    method PruneUnreachableStates()
      requires engine.Valid() && ForkGraph(engine.workers)
      modifies this`reachable, engine`workers
      ensures Exact(old(engine.workers), reachable)
      ensures engine.workers == Pruned(old(engine.workers), reachable)
      ensures forall ports,
        ops {:trigger ForkProtocol(old(engine.CurrentDesign()), ports),
          SameTrace(old(engine.CurrentDesign()), engine.CurrentDesign(), ops)} ::
                ForkProtocol(old(engine.CurrentDesign()), ports) ==>
                  SameTrace(old(engine.CurrentDesign()), engine.CurrentDesign(), ops)
    {
      hide Exact, ClosedMarking, ForkGraph, SameTrace, ForkProtocol;
      ghost var d, fs := engine.CurrentDesign(), engine.workers;
      Analyse();
      ghost var marked := reachable;
      for w := 0 to |engine.workers|
        invariant |engine.workers| == |fs| && reachable == marked
        invariant forall v ::
          0 <= v < |fs| ==> engine.workers[v] == if v < w then PrunedFsm(fs[v], v, reachable) else fs[v]
      {
        var f := engine.workers[w];
        var kept := KeepReachable(f.states, w);
        engine.workers := engine.workers[w := f.(states := kept, body := map s | s in f.body
          && (w, s) in reachable :: f.body[s])];
      }
      assert engine.workers == Pruned(fs, reachable);
      PruningKeepsTrace(d, reachable);
    }
  }

  lemma {:induction false} KeptAppend(x: seq<StateId>, y: seq<StateId>, w: nat, marked: set<Node>)
    ensures Kept(x + y, w, marked) == Kept(x, w, marked) + Kept(y, w, marked)
    decreases x
  {
    if x == [] {
      assert x + y == y;
    } else {
      assert (x + y)[1..] == x[1..] + y;
      KeptAppend(x[1..], y, w, marked);
    }
  }

  lemma KeptStep(states: seq<StateId>, i: nat, w: nat, marked: set<Node>)
    requires i < |states|
    ensures Kept(states[..i + 1], w, marked) ==
      Kept(states[..i], w, marked) + if (w, states[i]) in marked then [states[i]] else []
  {
    assert states[..i + 1] == states[..i] + [states[i]];
    KeptAppend(states[..i], [states[i]], w, marked);
  }

  /** The marks: all reset states, and what the main reset state leads to. */
  ghost predicate Exact(fs: seq<Fsm>, marked: set<Node>)
    requires |fs| >= 1
  {
    forall y :: y in marked <==> y in Resets(fs) || Leads(fs, Main(fs), y)
  }

  lemma VisitedAll(fs: seq<Fsm>, marked: set<Node>)
    requires ForkGraph(fs) && Grows(fs, Main(fs), Resets(fs), marked) && Explored(fs, Main(fs), marked)
    ensures ClosedMarking(fs, marked) && Exact(fs, marked)
  {
    forall x, y | x in marked && Visited(fs, x) && Edge(fs, x, y) ensures y in marked {
      if x != Main(fs) {
        assert Explored(fs, x, marked);
      }
    }
    forall y | Leads(fs, Main(fs), y) ensures y in marked {
      LeadsInto(fs, marked, y);
    }
  }

  /** The marking is the least closed one. */
  lemma LeadsInto(fs: seq<Fsm>, marked: set<Node>, y: Node)
    requires |fs| >= 1 && ClosedMarking(fs, marked) && Leads(fs, Main(fs), y)
    ensures y in marked
  {
    var p :| IsPath(fs, p) && p[0] == Main(fs) && p[|p| - 1] == y;
    assert Main(fs) in Resets(fs);
    PathStays(fs, marked, p, |p| - 1);
  }

  lemma PruningKeepsTrace(d: Design, marked: set<Node>)
    requires ForkGraph(d.workers) && ClosedMarking(d.workers, marked) && marked <= AllNodes(d.workers)
    ensures forall ports,
      ops {:trigger ForkProtocol(d, ports), SameTrace(d, d.(workers := Pruned(d.workers, marked)), ops)} ::
              ForkProtocol(d, ports) ==> SameTrace(d, d.(workers := Pruned(d.workers, marked)), ops)
  {
    var d2 := d.(workers := Pruned(d.workers, marked));
    forall ports, ops | ForkProtocol(d, ports) ensures SameTrace(d, d2, ops) {
      forall powerUp: Env, outside: nat -> Env, n: nat
        ensures Trace(d, ops, powerUp, outside, n) == Trace(d2, ops, powerUp, outside, n)
      {
        PruningKeepsRuns(d, ports, marked, ops, powerUp, outside, n);
      }
    }
  }

  // ----- What pruning leaves behind -----

  /** Transitions the analysis does not follow: those of the other workers' reset states, and constantly
      false ones. */
  ghost predicate Unfollowed(fs: seq<Fsm>, w: nat, s: StateId, t: Transition)
    requires w < |fs|
  {
    (s == fs[w].reset && w != 0) || ConstFalse(t.cond)
  }

  /** Every transition of a kept state leads to a kept state exactly when those do that the analysis does not
      follow: every thread an idle worker may start is marked, and so is every target of a constantly false
      transition. */
  lemma PrunedClosed(fs: seq<Fsm>, marked: set<Node>, w: nat)
    requires ForkGraph(fs) && ClosedMarking(fs, marked) && marked <= AllNodes(fs) && w < |fs|
    ensures PrunedFsm(fs[w], w, marked).Closed() <==>
            forall s, k ::
              (w, s) in marked && 0 <= k < |fs[w].At(s).trans| && Unfollowed(fs, w, s, fs[w].At(s).trans[k])
              ==> (w, fs[w].At(s).trans[k].target) in marked
  {
    var f, g := fs[w], PrunedFsm(fs[w], w, marked);
    assert f.Valid() && (w, f.reset) in Resets(fs);
    assert g.reset in g.body && g.body[g.reset] == f.body[f.reset];
    forall s, k | s in g.body && 0 <= k < |g.body[s].trans| && !Unfollowed(fs, w, s, f.body[s].trans[k])
      ensures g.body[s].trans[k].target in g.body
    {
      var x, y := (w, s), (w, f.body[s].trans[k].target);
      if !IsReset(fs, y) {
        assert StateOf(fs, x).trans[k].target == y.1 && !ConstFalse(StateOf(fs, x).trans[k].cond);
        assert TransEdge(fs, x, y);
        assert Edge(fs, x, y);
      }
    }
    forall s | (w, s) in marked ensures s in g.body && g.body[s] == f.At(s) { assert (w, s) in AllNodes(fs); }
    forall t ensures (w, t) in marked <==> t in g.body { if (w, t) in marked { assert (w, t) in AllNodes(fs); } }
  }

  /** It can fail: a thread forked only in an unreachable state is removed, but the transition
      that would start it stays. */
  lemma PruningLeavesDanglingStart() returns (fs: seq<Fsm>)
    ensures ForkGraph(fs) && ClosedMarking(fs, Resets(fs)) && |fs| == 2
    ensures !PrunedFsm(fs[1], 1, Resets(fs)).Closed()
  {
    var port := Port(Whole("WORKER_1_start", 1), Whole("WORKER_1_select", 1));
    var forking := NoState.(forked := [(1, 1)],
      assigns := [Always(port.start, Const(1)), Always(port.select, Const(1))]);
    var thread := NoState.(forkSelect := Some(1));
    var idle := NoState.(trans := [Transition(StartCond(port, 1), 1)]);
    var main := Fsm([0, 1], map[0 := NoState, 1 := forking], 0, False);
    var worker := Fsm([0, 1], map[0 := idle, 1 := thread], 0, False);
    fs := [main, worker];
    assert main.Valid() && worker.Valid();
    forall x | x in AllNodes(fs) ensures NodeOk(fs, x) {}
    forall x, y ensures x in Resets(fs) && Visited(fs, x) ==> !Edge(fs, x, y) {
    }
    var g := PrunedFsm(worker, 1, Resets(fs));
    assert (1, fs[1].reset) in Resets(fs);
    assert 0 in g.body && g.body[0].trans[0].target == 1;
    assert (1, 1) !in Resets(fs);
  }

  lemma NoForkDone(fs: seq<Fsm>, x: Node, marked: set<Node>)
    ensures ForksDone(fs, x, marked, 0)
  {}
}
