/** Removal of empty states: a collapsable state without assignments and with one constantly true
transition is taken out, and the transitions to it lead to its successor. */
module EmptyStates {
  import opened Signals
  import opened Selectors
  import opened Cycle
  import opened Engine

  /** `_is_removable_state`. */
  predicate Removable(st: State) {
    st.assigns == [] && |st.trans| == 1 && st.trans[0].cond == True && st.collapsable
  }

  predicate Goes(f: Fsm, s: StateId) { s in f.body && Removable(f.body[s]) }

  function Successor(f: Fsm, s: StateId): StateId
    requires Goes(f, s)
  {
    f.body[s].trans[0].target
  }

  // ----- Removing one state -----

  function Redirect(ts: seq<Transition>, s: StateId, to: StateId): (r: seq<Transition>)
    ensures |r| == |ts|
    ensures forall i :: 0 <= i < |ts| ==> r[i] == Transition(ts[i].cond, if ts[i].target == s then to else ts[i].target)
  {
    if ts == [] then []
      else [Transition(ts[0].cond, if ts[0].target == s then to else ts[0].target)] + Redirect(ts[1..], s, to)
  }

  function Dropped(states: seq<StateId>, s: StateId): (r: seq<StateId>)
    ensures forall x :: x in r <==> x in states && x != s
  {
    if states == [] then [] else (if states[0] == s then [] else [states[0]]) + Dropped(states[1..], s)
  }

  lemma {:induction false} DroppedDistinct(states: seq<StateId>, s: StateId)
    requires forall i, j :: 0 <= i < j < |states| ==> states[i] != states[j]
    ensures forall i, j :: 0 <= i < j < |Dropped(states, s)| ==> Dropped(states, s)[i] != Dropped(states, s)[j]
    decreases states
  {
    if states != [] {
      var rest := Dropped(states[1..], s);
      DroppedDistinct(states[1..], s);
      assert forall x :: x in rest ==> x in states[1..];
      assert states[0] !in states[1..];
    }
  }

  /** `_remove_empty_state`. */
  function RemoveState(f: Fsm, s: StateId): Fsm
    requires s in f.body && |f.body[s].trans| == 1
  {
    var to := f.body[s].trans[0].target;
    f.(states := Dropped(f.states, s),
       body := map x | x in f.body && x != s :: f.body[x].(trans := Redirect(f.body[x].trans, s, to)))
  }

  // ----- Following a chain of removed states -----

  /** A path over removed states. */
  ghost predicate Via(f: Fsm, gone: set<StateId>, p: seq<StateId>, t: StateId, r: StateId) {
    && p != [] && p[0] == t && p[|p| - 1] == r
    && forall i :: 0 <= i < |p| - 1 ==> p[i] in gone && Goes(f, p[i]) && Successor(f, p[i]) == p[i + 1]
  }

  /** Removed states that lead only to each other. */
  ghost predicate Trap(f: Fsm, gone: set<StateId>, c: set<StateId>) {
    c <= gone && forall s :: s in c ==> Goes(f, s) && Successor(f, s) in c
  }

  ghost predicate Trapped(f: Fsm, gone: set<StateId>, r: StateId) {
    exists c: set<StateId> :: Trap(f, gone, c) && r in c
  }

  /** A transition to t leads to r now: over removed states, and out of them unless they are a trap. */
  ghost predicate Redirected(f: Fsm, gone: set<StateId>, t: StateId, r: StateId) {
    (exists p :: Via(f, gone, p, t, r)) && (r in gone ==> Trapped(f, gone, r))
  }

  lemma MoreGone(f: Fsm, gone: set<StateId>, s: StateId, t: StateId, r: StateId)
    requires Redirected(f, gone, t, r) && r != s
    ensures Redirected(f, gone + {s}, t, r)
  {
    var p :| Via(f, gone, p, t, r);
    assert Via(f, gone + {s}, p, t, r);
    if r in gone {
      var c: set<StateId> :| Trap(f, gone, c) && r in c;
      assert Trap(f, gone + {s}, c);
    }
  }

  /** Removing s takes a transition to s on to where the transition of s leads. */
  lemma TakenOn(f: Fsm, gone: set<StateId>, s: StateId, to: StateId, t: StateId)
    requires Goes(f, s) && Redirected(f, gone, Successor(f, s), to) && Redirected(f, gone, t, s) && s !in gone
    ensures Redirected(f, gone + {s}, t, to)
  {
    var p :| Via(f, gone, p, t, s);
    var q :| Via(f, gone, q, Successor(f, s), to);
    var r := p + q;
    assert Via(f, gone + {s}, r, t, to) by {
      forall i | 0 <= i < |r| - 1 ensures r[i] in gone + {s} && Goes(f, r[i]) && Successor(f, r[i]) == r[i + 1] {
        if i < |p| - 1 { assert r[i] == p[i] && r[i + 1] == p[i + 1]; }
        else if i == |p| - 1 { assert r[i] == s && r[i + 1] == q[0]; }
        else { assert r[i] == q[i - |p|] && r[i + 1] == q[i - |p| + 1]; }
      }
    }
    if to == s {
      var c := set i | 0 <= i < |q| :: q[i];
      assert q[|q| - 1] in c && q[0] in c;
      assert Trap(f, gone + {s}, c) by {
        forall x | x in c ensures x in gone + {s} && Goes(f, x) && Successor(f, x) in c {
          var i :| 0 <= i < |q| && q[i] == x;
          if i < |q| - 1 { assert q[i + 1] in c; }
        }
      }
    } else {
      if to in gone {
        var c: set<StateId> :| Trap(f, gone, c) && to in c;
        assert Trap(f, gone + {s}, c);
      }
    }
  }

  // ----- The pass -----

  /** One state after the states in `gone` were removed. */
  ghost predicate Redirection(f: Fsm, gone: set<StateId>, old_: State, new_: State) {
    && new_ == old_.(trans := new_.trans) && |new_.trans| == |old_.trans|
    && forall i :: 0 <= i < |old_.trans| ==>
         new_.trans[i].cond == old_.trans[i].cond && Redirected(f, gone, old_.trans[i].target, new_.trans[i].target)
  }

  /** g is f without the states that are gone, every transition skipping them. */
  ghost predicate Skipped(f: Fsm, gone: set<StateId>, g: Fsm) {
    && g.reset == f.reset && g.syncReset == f.syncReset
    && (forall x :: x in g.body <==> x in f.body && x !in gone)
    && (forall x :: x in g.states <==> x in f.states && x !in gone)
    && (forall x {:trigger g.body[x]} :: x in g.body ==> Redirection(f, gone, f.body[x], g.body[x]))
  }

  lemma RemoveSkips(f: Fsm, gone: set<StateId>, g: Fsm, s: StateId)
    requires Skipped(f, gone, g) && Goes(f, s) && s !in gone
    ensures s in g.body && |g.body[s].trans| == 1
    ensures Skipped(f, gone + {s}, RemoveState(g, s))
  {
    hide Redirected;
    var g2 := RemoveState(g, s);
    assert Redirection(f, gone, f.body[s], g.body[s]);
    var to := g.body[s].trans[0].target;
    forall x {:trigger g2.body[x]} | x in g2.body ensures Redirection(f, gone + {s}, f.body[x], g2.body[x]) {
      assert Redirection(f, gone, f.body[x], g.body[x]);
      forall i | 0 <= i < |f.body[x].trans|
        ensures Redirected(f, gone + {s}, f.body[x].trans[i].target, g2.body[x].trans[i].target) {
        var t, r := f.body[x].trans[i].target, g.body[x].trans[i].target;
        if r == s { TakenOn(f, gone, s, to, t); } else { MoreGone(f, gone, s, t, r); }
      }
    }
  }

  ghost function AllGone(f: Fsm): set<StateId> { set s | s in f.body && Removable(f.body[s]) }

  /** The states removed in one pass over the list, in list order. */
  function Candidates(f: Fsm, states: seq<StateId>): (r: seq<StateId>)
    ensures forall s :: s in r <==> s in states && Goes(f, s)
  {
    if states == [] then []
    else Candidates(f, states[..|states| - 1]) + if Goes(f, states[|states| - 1]) then [states[|states| - 1]] else []
  }

  method FindCandidates(f: Fsm) returns (r: seq<StateId>)
    ensures r == Candidates(f, f.states)
  {
    r := [];
    for i := 0 to |f.states|
      invariant r == Candidates(f, f.states[..i])
    {
      assert f.states[..i + 1][..i] == f.states[..i];
      if Goes(f, f.states[i]) { r := r + [f.states[i]]; }
    }
    assert f.states[..|f.states|] == f.states;
  }

  ghost predicate Distinct(states: seq<StateId>) { forall i, j :: 0 <= i < j < |states| ==> states[i] != states[j] }

  lemma NothingGone(f: Fsm)
    ensures Skipped(f, {}, f)
  {
    forall x | x in f.body ensures Redirection(f, {}, f.body[x], f.body[x]) {
      forall i | 0 <= i < |f.body[x].trans|
        ensures Redirected(f, {}, f.body[x].trans[i].target, f.body[x].trans[i].target) {
        var t := f.body[x].trans[i].target;
        assert Via(f, {}, [t], t, t);
      }
    }
  }

  /** The worker after the pass. */
  ghost predicate Collapsed(f: Fsm, g: Fsm) { Skipped(f, AllGone(f), g) }

  /** The pass over one worker, in any order of the removable states. */
  method RemoveInOrder(f: Fsm, order: seq<StateId>) returns (g: Fsm)
    requires Distinct(order) && forall s :: s in order <==> Goes(f, s)
    ensures Collapsed(f, g)
    ensures Distinct(f.states) ==> Distinct(g.states)
  {
    hide Skipped, Dropped;
    g := f;
    ghost var gone: set<StateId> := {};
    NothingGone(f);
    for i := 0 to |order|
      invariant forall s :: s in gone <==> s in order[..i]
      invariant Skipped(f, gone, g) && (Distinct(f.states) ==> Distinct(g.states))
    {
      var s := order[i];
      if Distinct(g.states) { DroppedDistinct(g.states, s); }
      RemoveSkips(f, gone, g, s);
      var to := g.body[s].trans[0].target;
      g := g.(states := Dropped(g.states, s),
              body := map x | x in g.body && x != s :: g.body[x].(trans := Redirect(g.body[x].trans, s, to)));
      gone := gone + {s};
    }
    assert order[..|order|] == order;
    assert gone == AllGone(f);
  }

  // ----- What the pass achieves -----

  /** A chain of removed states from t to the survivor u. */
  ghost predicate Chain(f: Fsm, p: seq<StateId>, t: StateId, u: StateId) {
    && p != [] && p[0] == t && p[|p| - 1] == u && u in f.body && !Goes(f, u)
    && forall i :: 0 <= i < |p| - 1 ==> Goes(f, p[i]) && Successor(f, p[i]) == p[i + 1]
  }

  /** Removed states do not go round in circles from t on. */
  ghost predicate GetsOut(f: Fsm, t: StateId) { exists p, u :: Chain(f, p, t, u) }

  lemma ChainRest(f: Fsm, p: seq<StateId>, t: StateId, u: StateId)
    requires Chain(f, p, t, u) && Goes(f, t)
    ensures |p| > 1 && Chain(f, p[1..], Successor(f, t), u)
  {
    forall i | 0 <= i < |p[1..]| - 1
      ensures Goes(f, p[1..][i]) && Successor(f, p[1..][i]) == p[1..][i + 1]
    {
      assert Goes(f, p[i + 1]);
    }
  }

  /** Only one survivor is reached. */
  lemma {:induction false} ChainUnique(f: Fsm, p: seq<StateId>, q: seq<StateId>, t: StateId, u: StateId, v: StateId)
    requires Chain(f, p, t, u) && Chain(f, q, t, v)
    ensures u == v && p == q
    decreases |p|
  {
    if Goes(f, t) {
      ChainRest(f, p, t, u);
      ChainRest(f, q, t, v);
      ChainUnique(f, p[1..], q[1..], Successor(f, t), u, v);
      assert p == [t] + p[1..] && q == [t] + q[1..];
    } else {
      assert p == [t] == q;
    }
  }

  lemma {:induction false} NoWayOut(f: Fsm, gone: set<StateId>, c: set<StateId>, p: seq<StateId>, t: StateId,
      u: StateId)
    requires Trap(f, gone, c) && t in c && Chain(f, p, t, u)
    ensures false
    decreases |p|
  {
    ChainRest(f, p, t, u);
    NoWayOut(f, gone, c, p[1..], Successor(f, t), u);
  }

  /** A chain from t goes through everything t leads to over removed states. */
  lemma {:induction false} ChainFrom(f: Fsm, gone: set<StateId>, q: seq<StateId>, t: StateId, r: StateId,
      p: seq<StateId>, u: StateId)
    requires Via(f, gone, q, t, r) && Chain(f, p, t, u)
    ensures GetsOut(f, r)
    decreases |q|
  {
    if |q| > 1 {
      assert Goes(f, q[0]);
      ChainRest(f, p, t, u);
      assert Via(f, gone, q[1..], q[1], r) by {
        forall i | 0 <= i < |q[1..]| - 1
          ensures q[1..][i] in gone && Goes(f, q[1..][i]) && Successor(f, q[1..][i]) == q[1..][i + 1] {
          assert q[i + 1] in gone;
        }
      }
      ChainFrom(f, gone, q[1..], q[1], r, p[1..], u);
    }
  }

  lemma {:induction false} ViaInside(f: Fsm, q: seq<StateId>, t: StateId, r: StateId)
    requires f.Closed() && t in f.body && Via(f, AllGone(f), q, t, r)
    ensures r in f.body
    decreases |q|
  {
    if |q| > 1 {
      var init := q[..|q| - 1];
      assert Goes(f, q[|q| - 2]) && Successor(f, q[|q| - 2]) == r;
      assert Via(f, AllGone(f), init, t, q[|q| - 2]) by {
        forall i | 0 <= i < |init| - 1
          ensures init[i] in AllGone(f) && Goes(f, init[i]) && Successor(f, init[i]) == init[i + 1]
        {
          assert Goes(f, q[i]);
        }
      }
      ViaInside(f, init, t, q[|q| - 2]);
    }
  }

  /** Where a redirected transition leads to: to the first survivor of the chain, and to a removed state
      exactly if there is no such chain. */
  lemma LeadsOut(f: Fsm, t: StateId, r: StateId)
    requires f.Closed() && t in f.body && Redirected(f, AllGone(f), t, r)
    ensures !Goes(f, r) <==> GetsOut(f, t)
    ensures !Goes(f, r) ==> exists p :: Chain(f, p, t, r)
  {
    var q :| Via(f, AllGone(f), q, t, r);
    ViaInside(f, q, t, r);
    if !Goes(f, r) {
      assert Chain(f, q, t, r);
    } else {
      var c: set<StateId> :| Trap(f, AllGone(f), c) && r in c;
      if GetsOut(f, t) {
        var p, u :| Chain(f, p, t, u);
        ChainFrom(f, AllGone(f), q, t, r, p, u);
        var p2, u2 :| Chain(f, p2, r, u2);
        NoWayOut(f, AllGone(f), c, p2, r, u2);
      }
    }
  }

  /** A surviving transition keeps its condition and leads to a survivor exactly if a chain from its old
      target does; it is that survivor then. */
  lemma CollapsedTargets(f: Fsm, g: Fsm, x: StateId, i: nat)
    requires f.Closed() && Collapsed(f, g) && x in g.body && i < |g.body[x].trans|
    ensures x in f.body && !Goes(f, x) && |g.body[x].trans| == |f.body[x].trans|
      && g.body[x].assigns == f.body[x].assigns
    ensures g.body[x].trans[i].cond == f.body[x].trans[i].cond
    ensures g.body[x].trans[i].target in g.body <==> GetsOut(f, f.body[x].trans[i].target)
    ensures g.body[x].trans[i].target in g.body ==>
      exists p :: Chain(f, p, f.body[x].trans[i].target, g.body[x].trans[i].target)
  {
    assert Redirection(f, AllGone(f), f.body[x], g.body[x]);
    var t, r := f.body[x].trans[i].target, g.body[x].trans[i].target;
    var q :| Via(f, AllGone(f), q, t, r);
    ViaInside(f, q, t, r);
    LeadsOut(f, t, r);
  }

  /** From every transition of a survivor on, removed states lead to a survivor. */
  ghost predicate AllGetOut(f: Fsm) {
    forall x, i :: x in f.body && !Goes(f, x) && 0 <= i < |f.body[x].trans| ==> GetsOut(f, f.body[x].trans[i].target)
  }

  /** Nothing dangles after the pass exactly if the reset state stays and all chains get out. */
  lemma NothingDanglesExactly(f: Fsm, g: Fsm)
    requires f.Valid() && Collapsed(f, g) && Distinct(g.states)
    ensures g.reset == f.reset && forall x :: x in g.body <==> x in f.body && !Goes(f, x)
    ensures g.Valid() <==> !Goes(f, f.reset) && AllGetOut(f)
  {
    hide GetsOut, Removable;
    forall x, i | x in g.body && 0 <= i < |g.body[x].trans|
      ensures g.body[x].trans[i].target in g.body <==> GetsOut(f, f.body[x].trans[i].target) {
      CollapsedTargets(f, g, x, i);
    }
    forall x | x in g.body
      ensures |g.body[x].trans| == |f.body[x].trans|
    {
      assert Redirection(f, AllGone(f), f.body[x], g.body[x]);
    }
  }

  /** Where all chains get out, the order of removal makes no difference. */
  lemma AnyOrderSame(f: Fsm, g1: Fsm, g2: Fsm)
    requires f.Closed() && AllGetOut(f) && Collapsed(f, g1) && Collapsed(f, g2)
    ensures g1.body == g2.body
  {
    forall x | x in g1.body ensures g1.body[x] == g2.body[x] {
      assert Redirection(f, AllGone(f), f.body[x], g1.body[x]) && Redirection(f, AllGone(f), f.body[x], g2.body[x]);
      var ts1, ts2 := g1.body[x].trans, g2.body[x].trans;
      forall i | 0 <= i < |ts1| ensures ts1[i] == ts2[i] {
        CollapsedTargets(f, g1, x, i);
        CollapsedTargets(f, g2, x, i);
        var t := f.body[x].trans[i].target;
        var p :| Chain(f, p, t, ts1[i].target);
        var q :| Chain(f, q, t, ts2[i].target);
        ChainUnique(f, p, q, t, ts1[i].target, ts2[i].target);
      }
      assert ts1 == ts2;
    }
  }

  /** No cycle consists of removable states only: they can be ranked. */
  ghost predicate Ranked(f: Fsm, rank: map<StateId, nat>) {
    && (forall s :: s in f.body ==> s in rank)
    && (forall s {:trigger Goes(f, s)} :: Goes(f, s) && Goes(f, Successor(f, s)) ==> rank[Successor(f, s)] < rank[s])
  }

  lemma {:induction false} RankedGetsOut(f: Fsm, rank: map<StateId, nat>, t: StateId)
    requires f.Closed() && Ranked(f, rank) && t in f.body
    ensures GetsOut(f, t)
    decreases rank[t]
  {
    if Goes(f, t) {
      var u := Successor(f, t);
      if Goes(f, u) {
        RankedGetsOut(f, rank, u);
        var p, v :| Chain(f, p, u, v);
        LongerChain(f, t, p, v);
      } else {
        assert Chain(f, [t, u], t, u);
      }
    } else {
      assert Chain(f, [t], t, t);
    }
  }

  /** Without cycles of removable states all chains get out. */
  lemma AcyclicGetsOut(f: Fsm, rank: map<StateId, nat>)
    requires f.Closed() && Ranked(f, rank)
    ensures AllGetOut(f)
  {
    forall x, i | x in f.body && !Goes(f, x) && 0 <= i < |f.body[x].trans|
      ensures GetsOut(f, f.body[x].trans[i].target) {
      RankedGetsOut(f, rank, f.body[x].trans[i].target);
    }
  }

  // ----- Paths -----

  ghost predicate Arrow(f: Fsm, x: StateId, y: StateId) {
    x in f.body && exists i :: 0 <= i < |f.body[x].trans| && f.body[x].trans[i].target == y
  }

  ghost predicate IsPath(f: Fsm, p: seq<StateId>) {
    && p != [] && (forall i :: 0 <= i < |p| ==> p[i] in f.body)
    && forall i :: 0 <= i < |p| - 1 ==> Arrow(f, p[i], p[i + 1])
  }

  ghost function Erase(f: Fsm, p: seq<StateId>): seq<StateId> {
    if p == [] then [] else (if Goes(f, p[0]) then [] else [p[0]]) + Erase(f, p[1..])
  }

  lemma ArrowCollapses(f: Fsm, g: Fsm, x: StateId, y: StateId, p: seq<StateId>, u: StateId)
    requires f.Closed() && Collapsed(f, g) && Arrow(f, x, y) && !Goes(f, x) && Chain(f, p, y, u)
    ensures Arrow(g, x, u) && x in g.body
  {
    var i :| 0 <= i < |f.body[x].trans| && f.body[x].trans[i].target == y;
    assert Redirection(f, AllGone(f), f.body[x], g.body[x]);
    CollapsedTargets(f, g, x, i);
    var q :| Chain(f, q, y, g.body[x].trans[i].target);
    ChainUnique(f, p, q, y, u, g.body[x].trans[i].target);
  }

  /** A path of the old worker that ends in a survivor is, without the removed states, a path of the
      new one, from the first survivor on. */
  lemma {:induction false} PathCollapses(f: Fsm, g: Fsm, p: seq<StateId>) returns (q: seq<StateId>)
    requires f.Closed() && Collapsed(f, g) && IsPath(f, p) && !Goes(f, p[|p| - 1])
    ensures var e := Erase(f, p);
      IsPath(g, e) && Chain(f, q, p[0], e[0]) && e[|e| - 1] == p[|p| - 1]
    decreases |p|
  {
    hide Collapsed;
    if |p| == 1 {
      assert p[1..] == [];
      q := p;
      SurvivorStays(f, g, p[0]);
    } else {
      var rest := p[1..];
      RestPath(f, p);
      var q2 := PathCollapses(f, g, rest);
      var e := Erase(f, rest);
      if Goes(f, p[0]) {
        assert Successor(f, p[0]) == p[1];
        q := [p[0]] + q2;
        LongerChain(f, p[0], q2, e[0]);
      } else {
        ArrowCollapses(f, g, p[0], p[1], q2, e[0]);
        JoinPaths(g, [p[0]], e);
        q := [p[0]];
      }
    }
  }

  lemma LongerChain(f: Fsm, t: StateId, p: seq<StateId>, u: StateId)
    requires Goes(f, t) && Chain(f, p, Successor(f, t), u)
    ensures Chain(f, [t] + p, t, u)
  {
    var q := [t] + p;
    forall i | 0 <= i < |q| - 1
      ensures Goes(f, q[i]) && Successor(f, q[i]) == q[i + 1]
    {
      if i > 0 { assert q[i] == p[i - 1]; }
    }
  }

  lemma SurvivorStays(f: Fsm, g: Fsm, x: StateId)
    requires Collapsed(f, g) && x in f.body && !Goes(f, x)
    ensures x in g.body && IsPath(g, [x])
  {}

  lemma RestPath(f: Fsm, p: seq<StateId>)
    requires IsPath(f, p) && |p| > 1
    ensures IsPath(f, p[1..]) && Arrow(f, p[0], p[1])
  {
    var rest := p[1..];
    forall i | 0 <= i < |rest| - 1 ensures Arrow(f, rest[i], rest[i + 1]) { assert Arrow(f, p[i + 1], p[i + 1 + 1]); }
    assert Arrow(f, p[0], p[0 + 1]);
  }

  lemma {:induction false} EraseChain(f: Fsm, p: seq<StateId>, t: StateId, u: StateId)
    requires f.Closed() && t in f.body && Chain(f, p, t, u)
    ensures Erase(f, p) == [u] && IsPath(f, p)
    decreases |p|
  {
    if |p| == 1 {
      assert p[1..] == [];
    } else {
      assert Goes(f, p[0]) && Successor(f, p[0]) == p[1];
      var rest := p[1..];
      forall i | 0 <= i < |rest| - 1
        ensures Goes(f, rest[i]) && Successor(f, rest[i]) == rest[i + 1]
      {
        assert Goes(f, p[i + 1]);
      }
      EraseChain(f, rest, p[1], u);
      assert Arrow(f, p[0], p[1]) by { assert f.body[p[0]].trans[0].target == p[1]; }
      forall i | 0 <= i < |p| - 1 ensures Arrow(f, p[i], p[i + 1]) {
        if i > 0 { assert Arrow(f, rest[i - 1], rest[i - 1 + 1]); }
      }
      assert forall i :: 0 <= i < |p| ==> p[i] in f.body by {
        forall i | 0 <= i < |p| ensures p[i] in f.body { if i > 0 { assert rest[i - 1] in f.body; } }
      }
    }
  }

  lemma {:induction false} EraseJoin(f: Fsm, p: seq<StateId>, q: seq<StateId>)
    ensures Erase(f, p + q) == Erase(f, p) + Erase(f, q)
    decreases |p|
  {
    if p == [] {
      assert p + q == q;
    } else {
      assert (p + q)[1..] == p[1..] + q;
      EraseJoin(f, p[1..], q);
    }
  }

  /** Conversely, every path of the new worker is a path of the old one without removed states. */
  lemma {:induction false} PathExpands(f: Fsm, g: Fsm, q: seq<StateId>) returns (p: seq<StateId>)
    requires f.Closed() && Collapsed(f, g) && IsPath(g, q)
    ensures IsPath(f, p) && Erase(f, p) == q && p[0] == q[0] && p[|p| - 1] == q[|q| - 1]
    decreases |q|
  {
    hide Collapsed;
    OldState(f, g, q[0]);
    if |q| == 1 {
      p := q;
      assert q[1..] == [];
    } else {
      var init := q[..|q| - 1];
      assert IsPath(g, init) by {
        forall i | 0 <= i < |init| - 1 ensures Arrow(g, init[i], init[i + 1]) { assert Arrow(g, q[i], q[i + 1]); }
      }
      var head := PathExpands(f, g, init);
      var x, y := q[|q| - 2], q[|q| - 1];
      assert Arrow(g, q[|q| - 2], q[|q| - 2 + 1]);
      var tail := ArrowExpands(f, g, x, y);
      p := head + tail;
      EraseJoin(f, head, tail);
      assert q == init + [y];
      JoinPaths(f, head, tail);
    }
  }

  lemma OldState(f: Fsm, g: Fsm, x: StateId)
    requires Collapsed(f, g) && x in g.body
    ensures x in f.body && !Goes(f, x)
  {}

  lemma JoinPaths(f: Fsm, p: seq<StateId>, q: seq<StateId>)
    requires IsPath(f, p) && IsPath(f, q) && Arrow(f, p[|p| - 1], q[0])
    ensures IsPath(f, p + q)
  {
    var r := p + q;
    forall i | 0 <= i < |r| - 1 ensures Arrow(f, r[i], r[i + 1]) {
      if i < |p| - 1 {
        assert Arrow(f, p[i], p[i + 1]);
      } else if i >= |p| {
        assert Arrow(f, q[i - |p|], q[i - |p| + 1]);
      }
    }
  }

  lemma ArrowExpands(f: Fsm, g: Fsm, x: StateId, y: StateId) returns (p: seq<StateId>)
    requires f.Closed() && Collapsed(f, g) && Arrow(g, x, y) && y in g.body
    ensures IsPath(f, p) && Erase(f, p) == [y] && p[|p| - 1] == y && Arrow(f, x, p[0])
  {
    var i :| 0 <= i < |g.body[x].trans| && g.body[x].trans[i].target == y;
    CollapsedTargets(f, g, x, i);
    var t := f.body[x].trans[i].target;
    p :| Chain(f, p, t, y);
    EraseChain(f, p, t, y);
  }

  /** Paths between survivors are the same in both workers once removed states are erased. */
  lemma SamePaths(f: Fsm, g: Fsm, q: seq<StateId>)
    requires f.Closed() && Collapsed(f, g)
    ensures IsPath(g, q) <==> exists p :: IsPath(f, p) && !Goes(f, p[0]) && !Goes(f, p[|p| - 1]) && Erase(f, p) == q
  {
    if IsPath(g, q) {
      var p := PathExpands(f, g, q);
      OldState(f, g, q[0]);
      OldState(f, g, q[|q| - 1]);
      assert IsPath(f, p) && !Goes(f, p[0]) && !Goes(f, p[|p| - 1]) && Erase(f, p) == q;
    }
    if p :| IsPath(f, p) && !Goes(f, p[0]) && !Goes(f, p[|p| - 1]) && Erase(f, p) == q {
      var c := PathCollapses(f, g, p);
    }
  }

  // ----- The algorithm -----

  lemma {:induction false} CandidatesDistinct(f: Fsm, states: seq<StateId>)
    requires Distinct(states)
    ensures Distinct(Candidates(f, states))
    decreases |states|
  {
    if states != [] {
      var init := states[..|states| - 1];
      CandidatesDistinct(f, init);
      assert states[|states| - 1] !in init;
    }
  }

  /** Which states are gone, and what the others keep. */
  lemma CollapsedStates(f: Fsm, g: Fsm)
    requires Collapsed(f, g)
    ensures forall s :: s in f.body ==>
              && (s !in g.body <==> f.body[s].assigns == [] && |f.body[s].trans| == 1
                                    && f.body[s].trans[0].cond == Const(1) && f.body[s].collapsable)
              && (s in g.body ==> g.body[s].assigns == f.body[s].assigns)
    ensures forall s :: s in g.body ==> s in f.body
  {}

  lemma AllCollapsed(fs: seq<Fsm>, gs: seq<Fsm>)
    requires |fs| == |gs| && forall w :: 0 <= w < |fs| ==>
               fs[w].Valid() && Collapsed(fs[w], gs[w]) && Distinct(gs[w].states)
    ensures (forall w :: 0 <= w < |gs| ==> gs[w].Valid()) <==>
            forall f :: f in fs ==> !Goes(f, f.reset) && AllGetOut(f)
    ensures forall w, s :: 0 <= w < |gs| && s in fs[w].body ==>
              var st := fs[w].body[s];
              && (s !in gs[w].body <==>
                    st.assigns == [] && |st.trans| == 1 && st.trans[0].cond == Const(1) && st.collapsable)
              && (s in gs[w].body ==> gs[w].body[s].assigns == st.assigns)
    ensures forall w, s :: 0 <= w < |gs| && s in gs[w].body ==> s in fs[w].body
  {
    hide Collapsed, AllGetOut, Goes;
    forall w | 0 <= w < |fs|
      ensures gs[w].Valid() <==> !Goes(fs[w], fs[w].reset) && AllGetOut(fs[w])
    {
      NothingDanglesExactly(fs[w], gs[w]);
    }
    forall w, s | 0 <= w < |gs|
      ensures s in fs[w].body ==>
                && (s !in gs[w].body <==> fs[w].body[s].assigns == [] && |fs[w].body[s].trans| == 1
                                          && fs[w].body[s].trans[0].cond == Const(1) && fs[w].body[s].collapsable)
                && (s in gs[w].body ==> gs[w].body[s].assigns == fs[w].body[s].assigns)
      ensures s in gs[w].body ==> s in fs[w].body
    {
      CollapsedStates(fs[w], gs[w]);
    }
  }

  /** `empty_state_removal`. The workers are in order afterwards exactly if no reset state was removable
      and all chains of removable states that survivors lead into get out again. */
  method EmptyStateRemoval(engine: CoreEngine)
    requires engine.Valid()
    modifies engine`workers
    ensures |engine.workers| == |old(engine.workers)|
    ensures forall w :: 0 <= w < |engine.workers| ==> Collapsed(old(engine.workers)[w], engine.workers[w])
    ensures engine.Valid() <==> forall f :: f in old(engine.workers) ==> !Goes(f, f.reset) && AllGetOut(f)
    ensures forall w, s :: 0 <= w < |engine.workers| && s in old(engine.workers)[w].body ==>
              var st := old(engine.workers)[w].body[s];
              && (s !in engine.workers[w].body <==>
                    st.assigns == [] && |st.trans| == 1 && st.trans[0].cond == Const(1) && st.collapsable)
              && (s in engine.workers[w].body ==> engine.workers[w].body[s].assigns == st.assigns)
    ensures forall w, s :: 0 <= w < |engine.workers| && s in engine.workers[w].body ==> s in old(engine.workers)[w].body
    ensures engine.counters == old(engine.counters) && engine.waits == old(engine.waits)
  {
    hide Collapsed, AllGetOut, Redirect, RemoveState;
    ghost var fs := engine.workers;
    for w := 0 to |engine.workers|
      invariant |engine.workers| == |fs| && engine.counters == old(engine.counters) && engine.waits == old(engine.waits)
      invariant forall v :: w <= v < |fs| ==> engine.workers[v] == fs[v]
      invariant forall v :: 0 <= v < w ==> Collapsed(fs[v], engine.workers[v]) && Distinct(engine.workers[v].states)
    {
      var f := engine.workers[w];
      var order := FindCandidates(f);
      CandidatesDistinct(f, f.states);
      var g := RemoveInOrder(f, order);
      engine.workers := engine.workers[w := g];
    }
    AllCollapsed(fs, engine.workers);
  }

  // ----- Cycles of removable states -----

  function SelfLoop(): Fsm {
    var loop := NoState.(trans := [Transition(True, 1)], collapsable := true);
    Fsm([0, 1], map[0 := NoState.(trans := [Transition(True, 1)]), 1 := loop], 0, False)
  }

  /** A removable state that leads to itself is removed, and what led to it leads nowhere. */
  lemma SelfLoopDangles(g: Fsm)
    requires Collapsed(SelfLoop(), g)
    ensures SelfLoop().Valid() && !Goes(SelfLoop(), SelfLoop().reset)
    ensures g.reset in g.body && Arrow(g, g.reset, 1) && 1 !in g.body
  {
    var f := SelfLoop();
    assert Redirection(f, AllGone(f), f.body[0], g.body[0]);
    var r := g.body[0].trans[0].target;
    var q :| Via(f, AllGone(f), q, 1, r);
    StaysInLoop(f, q, r);
  }

  lemma {:induction false} StaysInLoop(f: Fsm, q: seq<StateId>, r: StateId)
    requires Goes(f, 1) && Successor(f, 1) == 1 && Via(f, AllGone(f), q, 1, r)
    ensures r == 1
    decreases |q|
  {
    if |q| > 1 {
      assert Successor(f, q[0]) == q[1];
      assert Via(f, AllGone(f), q[1..], 1, r) by {
        forall i | 0 <= i < |q[1..]| - 1
          ensures q[1..][i] in AllGone(f) && Goes(f, q[1..][i]) && Successor(f, q[1..][i]) == q[1..][i + 1] {
          assert q[i + 1] in AllGone(f);
        }
      }
      StaysInLoop(f, q[1..], r);
    }
  }
}
