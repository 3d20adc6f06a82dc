/** The loops of state merging: grouping by signature, merging one group, one iteration over
all workers, and the iteration until nothing is merged. */
module StateMerger {
  import opened Signals
  import opened Selectors
  import opened Cycle
  import opened Engine
  import opened MergerModel
  import opened MergerProof

  // ----- Grouping -----

  /** The entry of the dictionary for the signature of s; the signature of a group is that of
      its first state. */
  function Find(f: Fsm, groups: seq<seq<StateId>>, s: StateId): (k: int)
    requires forall l :: 0 <= l < |groups| ==> groups[l] != []
    ensures -1 <= k < |groups|
    ensures k >= 0 ==> SignatureOf(f.At(groups[k][0])) == SignatureOf(f.At(s))
    ensures k == -1 ==> forall l :: 0 <= l < |groups| ==> SignatureOf(f.At(groups[l][0])) != SignatureOf(f.At(s))
    decreases |groups|
  {
    if groups == [] then -1
    else if SignatureOf(f.At(groups[|groups| - 1][0])) == SignatureOf(f.At(s)) then |groups| - 1
    else Find(f, groups[..|groups| - 1], s)
  }

  ghost predicate NoRepeat(group: seq<StateId>) {
    forall i, j :: 0 <= i < j < |group| ==> group[i] != group[j]
  }

  ghost predicate OneGroup(f: Fsm, group: seq<StateId>, states: seq<StateId>) {
    && group != [] && NoRepeat(group)
    && forall i :: 0 <= i < |group| ==> group[i] in states && SignatureOf(f.At(group[i])) == SignatureOf(f.At(group[0]))
  }

  /** The groups partition the states by signature, the first state being first in its group;
      `home` says which group a state is in. */
  ghost predicate Grouped(f: Fsm, states: seq<StateId>, groups: seq<seq<StateId>>, home: map<StateId, nat>) {
    && (forall k :: 0 <= k < |groups| ==> OneGroup(f, groups[k], states))
    && (forall k, l :: 0 <= k < l < |groups| ==> SignatureOf(f.At(groups[k][0])) != SignatureOf(f.At(groups[l][0])))
    && (forall s :: s in states ==> s in home && home[s] < |groups| && s in groups[home[s]])
    && (states == [] ==> groups == [])
    && (states != [] ==> groups != [] && groups[0][0] == states[0])
  }

  /** `_get_same_signature_states`, for one worker. */
  method GetSameSignatureStates(f: Fsm) returns (groups: seq<seq<StateId>>, ghost home: map<StateId, nat>)
    requires NoRepeat(f.states)
    ensures Grouped(f, f.states, groups, home)
  {
    groups, home := [], map[];
    for i := 0 to |f.states|
      invariant Grouped(f, f.states[..i], groups, home)
    {
      var s := f.states[i];
      assert forall l :: 0 <= l < |groups| ==> OneGroup(f, groups[l], f.states[..i]);
      assert f.states[..i + 1] == f.states[..i] + [s];
      var k := Find(f, groups, s);
      if k >= 0 {
        AppendToGroup(f, f.states[..i], groups, home, k, s);
        groups, home := groups[k := groups[k] + [s]], home[s := k];
      } else {
        NewGroup(f, f.states[..i], groups, home, s);
        groups, home := groups + [[s]], home[s := |groups|];
      }
    }
    assert f.states[..|f.states|] == f.states;
  }

  lemma AppendToGroup(f: Fsm, states: seq<StateId>, groups: seq<seq<StateId>>, home: map<StateId, nat>, k: nat,
      s: StateId)
    requires Grouped(f, states, groups, home) && s !in states && k < |groups|
    requires groups[k] != [] && SignatureOf(f.At(groups[k][0])) == SignatureOf(f.At(s))
    ensures Grouped(f, states + [s], groups[k := groups[k] + [s]], home[s := k])
  {
    var r := groups[k := groups[k] + [s]];
    forall l | 0 <= l < |r| ensures OneGroup(f, r[l], states + [s]) && r[l][0] == groups[l][0] {
      assert OneGroup(f, groups[l], states);
    }
  }

  lemma NewGroup(f: Fsm, states: seq<StateId>, groups: seq<seq<StateId>>, home: map<StateId, nat>, s: StateId)
    requires Grouped(f, states, groups, home)
    requires forall l ::
      0 <= l < |groups| ==> groups[l] != [] && SignatureOf(f.At(groups[l][0])) != SignatureOf(f.At(s))
    ensures Grouped(f, states + [s], groups + [[s]], home[s := |groups|])
  {
    var r := groups + [[s]];
    forall l | 0 <= l < |r| ensures OneGroup(f, r[l], states + [s]) {
      if l < |groups| { assert OneGroup(f, groups[l], states); }
    }
  }

  // ----- Merging one group -----

  /** The transitions of one state: targets are replaced, duplicates OR-ed together. */
  method MergeTransitions(ts: seq<Transition>, group: seq<StateId>) returns (merged: seq<Transition>)
    requires group != []
    ensures merged == MergedTrans(ts, group)
  {
    merged := [];
    var targets: set<StateId> := {};
    for i := 0 to |ts|
      invariant merged == MergedTrans(ts[..i], group)
      invariant forall t :: t in targets <==> HasTarget(merged, t)
    {
      assert ts[..i + 1][..i] == ts[..i];
      var t := if ts[i].target in group[1..] then group[0] else ts[i].target;
      if t in targets {
        var tmp := OrAll(merged, ts[i].cond, t);
        assert forall u :: HasTarget(tmp, u) <==> HasTarget(merged, u) by { OrKeepsTargets(merged, ts[i].cond, t); }
        merged := tmp;
      } else {
        AppendTarget(merged, ts[i].cond, t);
        merged, targets := merged + [Transition(ts[i].cond, t)], targets + {t};
      }
    }
    assert ts[..|ts|] == ts;
  }

  lemma OrKeepsTargets(ts: seq<Transition>, cond: Expr, t: StateId)
    ensures forall u :: HasTarget(OrInto(ts, cond, t), u) <==> HasTarget(ts, u)
  {
    var r := OrInto(ts, cond, t);
    forall u ensures HasTarget(r, u) <==> HasTarget(ts, u) {
      assert forall i :: 0 <= i < |ts| ==> r[i].target == ts[i].target;
    }
  }

  lemma AppendTarget(ts: seq<Transition>, cond: Expr, t: StateId)
    ensures forall u :: HasTarget(ts + [Transition(cond, t)], u) <==> HasTarget(ts, u) || u == t
  {
    var r := ts + [Transition(cond, t)];
    assert r[|ts|].target == t;
    forall u | HasTarget(ts, u) ensures HasTarget(r, u) {
      var i :| 0 <= i < |ts| && ts[i].target == u;
      assert r[i].target == u;
    }
  }

  method OrAll(ts: seq<Transition>, cond: Expr, t: StateId) returns (tmp: seq<Transition>)
    ensures tmp == OrInto(ts, cond, t)
  {
    tmp := [];
    for i := 0 to |ts|
      invariant tmp == OrInto(ts[..i], cond, t)
    {
      assert ts[..i + 1][..i] == ts[..i];
      tmp := tmp + [if ts[i].target == t then Transition(Any(ts[i].cond, cond), t) else ts[i]];
    }
    assert ts[..|ts|] == ts;
  }

  /** The worker after the states in `done` have been handled. */
  function PartlyMerged(f: Fsm, group: seq<StateId>, done: seq<StateId>): Fsm
    requires group != []
  {
    f.(body := map s | s in f.body ::
         if s in done then f.body[s].(trans := MergedTrans(f.body[s].trans, group)) else f.body[s])
  }

  lemma PartlyMergedStep(f: Fsm, group: seq<StateId>, done: seq<StateId>, s: StateId)
    requires group != [] && s in f.body && s !in done
    ensures var g := PartlyMerged(f, group, done);
      && g.body[s] == f.body[s]
      && g.(body := g.body[s := f.body[s].(trans := MergedTrans(f.body[s].trans, group))]) ==
        PartlyMerged(f, group, done + [s])
  {
    var g := PartlyMerged(f, group, done);
    assert g.body[s := f.body[s].(trans := MergedTrans(f.body[s].trans, group))] ==
      PartlyMerged(f, group, done + [s]).body;
  }

  lemma PartlyMergedAll(f: Fsm, group: seq<StateId>)
    requires group != [] && forall s :: s in f.body ==> s in f.states
    ensures var g := PartlyMerged(f, group, f.states);
      g.(states := Remaining(g.states, group[1..]), body := map s | s in g.body && s !in group[1..] :: g.body[s]) ==
        Merged(f, group)
  {
    var g := PartlyMerged(f, group, f.states);
    assert (map s | s in g.body && s !in group[1..] :: g.body[s]) == Merged(f, group).body;
  }

  /** All transitions of the worker are re-referenced, state by state. */
  method Rereference(f: Fsm, group: seq<StateId>) returns (g: Fsm)
    requires group != []
    requires (forall s :: s in f.states <==> s in f.body) && NoRepeat(f.states)
    ensures g == PartlyMerged(f, group, f.states)
  {
    g := f;
    assert PartlyMerged(f, group, []).body == f.body;
    for i := 0 to |f.states|
      invariant g == PartlyMerged(f, group, f.states[..i])
    {
      var s := f.states[i];
      assert s in f.states && s !in f.states[..i];
      assert f.states[..i + 1] == f.states[..i] + [s];
      PartlyMergedStep(f, group, f.states[..i], s);
      var merged := MergeTransitions(g.body[s].trans, group);
      g := g.(body := g.body[s := g.body[s].(trans := merged)]);
    }
    assert f.states[..|f.states|] == f.states;
  }

  /** `_merge_same_signature_states`: re-references all transitions of the worker and deletes
      the merged states. */
  method MergeSameSignatureStates(e: CoreEngine, w: nat, group: seq<StateId>)
    requires w < |e.workers| && |group| >= 2
    requires (forall s :: s in e.workers[w].states <==> s in e.workers[w].body) && NoRepeat(e.workers[w].states)
    modifies e`workers
    ensures e.workers == old(e.workers)[w := Merged(old(e.workers[w]), group)]
  {
    PartlyMergedAll(e.workers[w], group);
    var g := Rereference(e.workers[w], group);
    e.workers := e.workers[w := g];
    e.workers := e.workers[w := g.(states := Remaining(g.states, group[1..]), body := map s | s in g.body
      && s !in group[1..] :: g.body[s])];
  }

  // ----- One iteration -----

  /** Number of states of all workers. */
  function TotalStates(fs: seq<Fsm>): nat {
    if fs == [] then 0 else |fs[0].states| + TotalStates(fs[1..])
  }

  lemma {:induction false} TotalUpdate(fs: seq<Fsm>, w: nat, f: Fsm)
    requires w < |fs|
    ensures TotalStates(fs[w := f]) == TotalStates(fs) - |fs[w].states| + |f.states|
    decreases fs
  {
    if w == 0 {
      assert fs[w := f][1..] == fs[1..];
    } else {
      assert fs[w := f][1..] == fs[1..][w - 1 := f];
      TotalUpdate(fs[1..], w - 1, f);
    }
  }

  lemma {:induction false} RemainingCount(states: seq<StateId>, gone: seq<StateId>)
    requires NoRepeat(states) && NoRepeat(gone) && forall s :: s in gone ==> s in states
    ensures |Remaining(states, gone)| == |states| - |gone|
    decreases states
  {
    if states == [] {
      if gone != [] { assert gone[0] in gone; }
    } else if states[0] in gone {
      var k :| 0 <= k < |gone| && gone[k] == states[0];
      var rest := gone[..k] + gone[k + 1..];
      assert states == [states[0]] + states[1..];
      forall s | s in rest ensures s in states[1..] {
        var i :| 0 <= i < |rest| && rest[i] == s;
        assert s in gone && s != states[0] by { assert rest[i] == if i < k then gone[i] else gone[i + 1]; }
      }
      RemainingCount(states[1..], rest);
      SameRemaining(states[1..], gone, rest, states[0]);
    } else {
      forall s | s in gone ensures s in states[1..] { assert s != states[0]; }
      RemainingCount(states[1..], gone);
    }
  }

  lemma {:induction false} SameRemaining(states: seq<StateId>, gone: seq<StateId>, rest: seq<StateId>, x: StateId)
    requires x !in states && forall s :: s in gone <==> s in rest || s == x
    ensures Remaining(states, gone) == Remaining(states, rest)
    decreases states
  {
    if states != [] {
      assert states[0] in states;
      SameRemaining(states[1..], gone, rest, x);
    }
  }

  /** All workers are well-formed, begin with their reset state, and have suitable states. */
  ghost predicate Ready(fs: seq<Fsm>, ops: Ops) {
    && |fs| >= 1
    && forall w :: 0 <= w < |fs| ==> ReadyWorker(fs[w], ops)
  }

  ghost predicate ReadyWorker(f: Fsm, ops: Ops) {
    f.Valid() && Suitable(f, ops) && f.states != [] && f.states[0] == f.reset
  }

  ghost predicate Apart(x: seq<StateId>, y: seq<StateId>) {
    forall s :: s in x ==> s !in y
  }

  lemma GroupedIsGroup(f: Fsm, groups: seq<seq<StateId>>, home: map<StateId, nat>, k: nat)
    requires Grouped(f, f.states, groups, home) && f.Valid() && f.states != [] && f.states[0] == f.reset && k < |groups|
    ensures Group(f, groups[k])
    ensures forall l :: 0 <= l < |groups| && l != k ==> Apart(groups[k], groups[l])
  {
    var g := groups[k];
    assert OneGroup(f, g, f.states);
    forall l, s | 0 <= l < |groups| && l != k && s in g ensures s !in groups[l] {
      assert OneGroup(f, groups[l], f.states);
    }
    assert f.reset !in g[1..] by {
      if k == 0 {
        assert forall i :: 0 <= i < |g[1..]| ==> g[1..][i] == g[i + 1];
      } else {
        assert OneGroup(f, groups[0], f.states) && f.reset in groups[0];
      }
    }
  }

  /** Merging the k-th group of a worker, if it has more than one state. */
  method MergeGroup(e: CoreEngine, w: nat, groups: seq<seq<StateId>>, k: nat, ret: nat, ghost before: Design,
      ghost ops: Ops)
    returns (total: nat)
    requires k < |groups| && Underway(before, e.CurrentDesign(), w, groups, k, ret, ops)
    modifies e`workers
    ensures Underway(before, e.CurrentDesign(), w, groups, k + 1, total, ops)
  {
    total := ret;
    ghost var now := e.CurrentDesign();
    UnderwayNext(before, now, w, groups, k, ret, ops);
    if |groups[k]| > 1 {
      total := ret + |groups[k]| - 1;
      MergeSameSignatureStates(e, w, groups[k]);
      assert e.CurrentDesign() == MergedDesign(now, w, groups[k]);
    }
  }

  /** Merging all groups of one worker. */
  method MergeGroups(e: CoreEngine, w: nat, groups: seq<seq<StateId>>, ghost before: Design, ghost ops: Ops)
      returns (ret: nat)
    requires Underway(before, e.CurrentDesign(), w, groups, 0, 0, ops)
    modifies e`workers
    ensures Underway(before, e.CurrentDesign(), w, groups, |groups|, ret, ops)
  {
    ret := 0;
    for k := 0 to |groups|
      invariant Underway(before, e.CurrentDesign(), w, groups, k, ret, ops)
    {
      ret := MergeGroup(e, w, groups, k, ret, before, ops);
    }
  }

  /** The groups from k on are still to be merged. */
  ghost predicate Underway(before: Design, now: Design, w: nat, groups: seq<seq<StateId>>, k: nat, ret: nat, ops: Ops) {
    && w < |before.workers| && |now.workers| == |before.workers| && k <= |groups|
    && now == before.(workers := before.workers[w := now.workers[w]])
    && now.workers[w].reset == before.workers[w].reset
    && ReadyWorker(now.workers[w], ops)
    && (forall l :: k <= l < |groups| ==> Group(now.workers[w], groups[l]))
    && (forall l, m :: 0 <= l < |groups| && 0 <= m < |groups| && l != m ==> Apart(groups[l], groups[m]))
    && SameTrace(before, now, ops)
    && TotalStates(now.workers) + ret == TotalStates(before.workers)
    && (ret == 0 ==> now == before && forall l :: 0 <= l < k ==> |groups[l]| == 1)
  }

  lemma UnderwayStart(d: Design, w: nat, groups: seq<seq<StateId>>, home: map<StateId, nat>, ops: Ops)
    requires w < |d.workers| && ReadyWorker(d.workers[w], ops)
      && Grouped(d.workers[w], d.workers[w].states, groups, home)
    ensures Underway(d, d, w, groups, 0, 0, ops)
  {
    forall k | 0 <= k < |groups|
      ensures Group(d.workers[w], groups[k]) && forall l :: 0 <= l < |groups| && l != k ==> Apart(groups[k], groups[l])
    {
      GroupedIsGroup(d.workers[w], groups, home, k);
    }
    assert d.workers[w := d.workers[w]] == d.workers;
  }

  lemma UnderwayNext(before: Design, now: Design, w: nat, groups: seq<seq<StateId>>, k: nat, ret: nat, ops: Ops)
    requires Underway(before, now, w, groups, k, ret, ops) && k < |groups|
    ensures groups[k] != [] && (forall s :: s in now.workers[w].states <==> s in now.workers[w].body)
      && NoRepeat(now.workers[w].states)
    ensures |groups[k]| > 1 ==>
      Underway(before, MergedDesign(now, w, groups[k]), w, groups, k + 1, ret + |groups[k]| - 1, ops)
    ensures |groups[k]| <= 1 ==> Underway(before, now, w, groups, k + 1, ret, ops)
  {
    assert Group(now.workers[w], groups[k]);
    if |groups[k]| > 1 {
      var after := MergedDesign(now, w, groups[k]);
      AfterMerge(now, w, groups, k, ops);
      assert after.workers == before.workers[w := after.workers[w]];
    }
  }

  lemma UnderwayEnd(before: Design, now: Design, w: nat, groups: seq<seq<StateId>>, ret: nat, ops: Ops)
    requires Underway(before, now, w, groups, |groups|, ret, ops)
    requires Ready(before.workers, ops)
    ensures Ready(now.workers, ops)
    ensures now.workers == before.workers[w := now.workers[w]] && now.workers[w].reset == before.workers[w].reset
    ensures SameTrace(before, now, ops)
    ensures TotalStates(now.workers) + ret == TotalStates(before.workers)
    ensures ret == 0 ==> now.workers == before.workers && forall k :: 0 <= k < |groups| ==> |groups[k]| == 1
  {}

  /** One merge keeps the trace, the worker ready, the later groups, and drops |group| - 1 states. */
  lemma AfterMerge(d: Design, w: nat, groups: seq<seq<StateId>>, k: nat, ops: Ops)
    requires w < |d.workers| && ReadyWorker(d.workers[w], ops) && k < |groups| && groups[k] != []
    requires forall l :: k <= l < |groups| ==> Group(d.workers[w], groups[l])
    requires forall l :: k < l < |groups| ==> Apart(groups[l], groups[k])
    ensures var f2 := Merged(d.workers[w], groups[k]);
      && ReadyWorker(f2, ops)
      && (forall l :: k < l < |groups| ==> Group(f2, groups[l]))
      && SameTrace(d, MergedDesign(d, w, groups[k]), ops)
      && TotalStates(MergedDesign(d, w, groups[k]).workers) + |groups[k]| - 1 == TotalStates(d.workers)
  {
    var f, group := d.workers[w], groups[k];
    assert Group(f, group);
    MergedValid(f, group, ops);
    MergeKeepsTrace(d, w, group, ops);
    forall l | k < l < |groups| ensures Group(Merged(f, group), groups[l]) {
      OtherGroupStays(f, group, groups[l]);
    }
    RemainingCount(f.states, group[1..]);
    TotalUpdate(d.workers, w, Merged(f, group));
  }

  // ----- The iteration -----

  ghost predicate DistinctSignatures(f: Fsm) {
    forall s, t :: s in f.body && t in f.body && s != t ==> SignatureOf(f.body[s]) != SignatureOf(f.body[t])
  }

  lemma AloneInGroup(f: Fsm, groups: seq<seq<StateId>>, home: map<StateId, nat>, s: StateId)
    requires Grouped(f, f.states, groups, home) && s in f.states
    requires forall k :: 0 <= k < |groups| ==> |groups[k]| == 1
    ensures home[s] < |groups| && groups[home[s]] == [s]
  {}

  lemma SingletonsAreDistinct(f: Fsm, groups: seq<seq<StateId>>, home: map<StateId, nat>)
    requires f.Valid() && Grouped(f, f.states, groups, home)
    requires forall k :: 0 <= k < |groups| ==> |groups[k]| == 1
    ensures DistinctSignatures(f)
  {
    forall s, t | s in f.body && t in f.body && s != t
      ensures SignatureOf(f.body[s]) != SignatureOf(f.body[t])
    {
      assert s in f.states && t in f.states;
      AloneInGroup(f, groups, home, s);
      AloneInGroup(f, groups, home, t);
      var a, b := home[s], home[t];
      assert f.At(groups[a][0]) == f.body[s] && f.At(groups[b][0]) == f.body[t];
      assert a != b;
    }
  }

  lemma TraceTransitive(a: Design, b: Design, c: Design, ops: Ops)
    requires SameTrace(a, b, ops) && SameTrace(b, c, ops)
    ensures SameTrace(a, c, ops)
  {}

  ghost predicate AllGrouped(fs: seq<Fsm>, signatures: seq<seq<seq<StateId>>>, homes: seq<map<StateId, nat>>,
      from: nat, to: nat)
    requires to <= |fs| && to <= |signatures| && to <= |homes|
  {
    forall v :: from <= v < to ==> Grouped(fs[v], fs[v].states, signatures[v], homes[v])
  }

  /** The workers from w on are still to be merged. */
  ghost predicate Iterating(before: Design, now: Design, w: nat, ret: nat, ops: Ops) {
    && w <= |now.workers| == |before.workers| && now == before.(workers := now.workers)
    && Ready(now.workers, ops)
    && (forall v :: w <= v < |now.workers| ==> now.workers[v] == before.workers[v])
    && (forall v :: 0 <= v < |now.workers| ==> now.workers[v].reset == before.workers[v].reset)
    && SameTrace(before, now, ops)
    && TotalStates(now.workers) + ret == TotalStates(before.workers)
    && (ret == 0 ==> now == before && forall v :: 0 <= v < w ==> DistinctSignatures(now.workers[v]))
  }

  lemma IteratingNext(before: Design, now: Design, after: Design, w: nat, ret: nat, more: nat,
                      groups: seq<seq<StateId>>, home: map<StateId, nat>, ops: Ops)
    requires Iterating(before, now, w, ret, ops) && w < |now.workers|
    requires Underway(now, after, w, groups, |groups|, more, ops)
    requires Grouped(before.workers[w], before.workers[w].states, groups, home)
    ensures Iterating(before, after, w + 1, ret + more, ops)
  {
    UnderwayEnd(now, after, w, groups, more, ops);
    TraceTransitive(before, now, after, ops);
    if more == 0 {
      assert ReadyWorker(now.workers[w], ops);
      SingletonsAreDistinct(now.workers[w], groups, home);
    }
  }

  /** The dictionaries of all workers. */
  method GetAllSignatures(fs: seq<Fsm>)
      returns (signatures: seq<seq<seq<StateId>>>, ghost homes: seq<map<StateId, nat>>)
    requires forall w :: 0 <= w < |fs| ==> NoRepeat(fs[w].states)
    ensures |signatures| == |homes| == |fs| && AllGrouped(fs, signatures, homes, 0, |fs|)
  {
    signatures, homes := [], [];
    for w := 0 to |fs|
      invariant |signatures| == |homes| == w && AllGrouped(fs, signatures, homes, 0, w)
    {
      ghost var home: map<StateId, nat>;
      var groups: seq<seq<StateId>>;
      groups, home := GetSameSignatureStates(fs[w]);
      signatures, homes := signatures + [groups], homes + [home];
    }
  }

  /** `_same_signature_state_merging_single_iteration`: all groups are computed first, then
      merged worker by worker. Returns the number of states merged away. */
  method SingleIteration(e: CoreEngine, ghost ops: Ops) returns (ret: nat)
    requires Ready(e.workers, ops)
    modifies e`workers
    ensures Iterating(old(e.CurrentDesign()), e.CurrentDesign(), |e.workers|, ret, ops)
  {
    ghost var before := e.CurrentDesign();
    var signatures;
    ghost var homes;
    forall w | 0 <= w < |e.workers| ensures NoRepeat(e.workers[w].states) { assert ReadyWorker(e.workers[w], ops); }
    signatures, homes := GetAllSignatures(e.workers);
    ret := 0;
    for w := 0 to |e.workers|
      invariant |e.workers| == |before.workers|
      invariant Iterating(before, e.CurrentDesign(), w, ret, ops)
    {
      ghost var now := e.CurrentDesign();
      assert ReadyWorker(now.workers[w], ops) && now.workers[w] == before.workers[w];
      assert Grouped(before.workers[w], before.workers[w].states, signatures[w], homes[w]);
      UnderwayStart(now, w, signatures[w], homes[w], ops);
      var merged := MergeGroups(e, w, signatures[w], now, ops);
      IteratingNext(before, now, e.CurrentDesign(), w, ret, merged, signatures[w], homes[w], ops);
      ret := ret + merged;
    }
  }

  /** `state_merging`: iterations until nothing is merged. The loop ends because every
      iteration that goes on has removed states; then all signatures within a worker differ,
      every reset state is still there, and the registers show the same trace as before. */
  method StateMerging(e: CoreEngine, ghost ops: Ops)
    requires Ready(e.workers, ops)
    modifies e`workers
    ensures Ready(e.workers, ops) && |e.workers| == old(|e.workers|)
    ensures forall w :: 0 <= w < |e.workers| ==> DistinctSignatures(e.workers[w])
    ensures forall w :: 0 <= w < |e.workers| ==> e.workers[w].reset == old(e.workers[w].reset)
    ensures SameTrace(old(e.CurrentDesign()), e.CurrentDesign(), ops)
  {
    ghost var before := e.CurrentDesign();
    while true
      invariant Ready(e.workers, ops) && |e.workers| == |before.workers|
      invariant forall w :: 0 <= w < |e.workers| ==> e.workers[w].reset == before.workers[w].reset
      invariant SameTrace(before, e.CurrentDesign(), ops)
      decreases TotalStates(e.workers)
    {
      ghost var now := e.CurrentDesign();
      var ret := SingleIteration(e, ops);
      TraceTransitive(before, now, e.CurrentDesign(), ops);
      if ret == 0 { return; }
    }
  }
}
