/** Merging states with equal signatures keeps the register trace. */
module MergerProof {
  import opened Signals
  import opened Selectors
  import opened Cycle
  import opened MergerModel

  // ----- When signatures are equal -----

  /** The same conditions and values, nested or not, whatever the defaults. */
  predicate SameCases(s1: Selector, s2: Selector)
    decreases s1
  {
    if s1.Case? && s2.Case? then
      && s1.cond == s2.cond && SameCases(s1.rest, s2.rest)
      && match s1.choice
         case Plain(v) => s2.choice == Plain(v)
         case Nested(n) => s2.choice.Nested? && SameCases(n, s2.choice.sel)
    else
      !s1.Case? && !s2.Case?
  }

  lemma {:induction false} EraseExactly(s1: Selector, s2: Selector)
    ensures EraseDefaults(s1) == EraseDefaults(s2) <==> SameCases(s1, s2)
    decreases s1
  {
    if s1.Case? && s2.Case? {
      EraseExactly(s1.rest, s2.rest);
      if s1.choice.Nested? && s2.choice.Nested? { EraseExactly(s1.choice.sel, s2.choice.sel); }
    }
  }

  /** The assignments to a target that have a text, in their order. */
  function Shown(x: seq<Assignment>, t: Target): seq<Assignment> {
    if x == [] then []
    else (if x[0].target == t && (x[0].Always? || x[0].sel.Case?) then [x[0]] else []) + Shown(x[1..], t)
  }

  predicate SameText(a: Assignment, b: Assignment) {
    match a
    case Always(_, e) => b.Always? && b.value == e
    case When(_, s) => b.When? && SameCases(s, b.sel)
  }

  predicate SameShown(st1: State, st2: State, t: Target) {
    var x, y := Shown(st1.assigns, t), Shown(st2.assigns, t);
    |x| == |y| && forall i :: 0 <= i < |x| ==> SameText(x[i], y[i])
  }

  lemma {:induction false} TextsShown(x: seq<Assignment>, t: Target)
    ensures |Texts(x, t)| == |Shown(x, t)|
    ensures forall i :: 0 <= i < |Shown(x, t)| ==> TextOf(Shown(x, t)[i]) == [Texts(x, t)[i]]
    decreases x
  {
    if x != [] {
      TextsShown(x[1..], t);
      if x[0].When? { EraseExactly(x[0].sel, NoDefault); }
    }
  }

  lemma {:induction false} AllShown(x: seq<Assignment>, t: Target)
    ensures forall i :: 0 <= i < |Shown(x, t)| ==>
              Shown(x, t)[i].target == t && (Shown(x, t)[i].Always? || Shown(x, t)[i].sel.Case?)
    ensures t !in Targets(x) ==> Shown(x, t) == []
    decreases x
  {
    if x != [] {
      AllShown(x[1..], t);
      assert x[0].target in Targets(x);
      assert forall u :: u in Targets(x[1..]) ==> u in Targets(x);
    }
  }

  lemma TextExactly(a: Assignment, b: Assignment)
    requires (a.Always? || a.sel.Case?) && (b.Always? || b.sel.Case?)
    ensures TextOf(a) == TextOf(b) <==> SameText(a, b)
  {
    if a.When? && b.When? {
      EraseExactly(a.sel, b.sel);
      EraseExactly(a.sel, NoDefault);
      EraseExactly(b.sel, NoDefault);
    }
  }

  lemma TextsExactly(st1: State, st2: State, t: Target)
    ensures Texts(st1.assigns, t) == Texts(st2.assigns, t) <==> SameShown(st1, st2, t)
  {
    var x, y := Shown(st1.assigns, t), Shown(st2.assigns, t);
    TextsShown(st1.assigns, t);
    TextsShown(st2.assigns, t);
    AllShown(st1.assigns, t);
    AllShown(st2.assigns, t);
    forall i | 0 <= i < |x| && i < |y|
      ensures Texts(st1.assigns, t)[i] == Texts(st2.assigns, t)[i] <==> SameText(x[i], y[i])
    {
      TextExactly(x[i], y[i]);
    }
  }

  lemma InSignature(st: State, t: Target)
    ensures t in SignatureOf(st).assigns <==> Texts(st.assigns, t) != []
    ensures t in SignatureOf(st).assigns ==> SignatureOf(st).assigns[t] == Texts(st.assigns, t)
  {
    TextsShown(st.assigns, t);
    AllShown(st.assigns, t);
  }

  /** Two states have the same signature exactly if their transitions are the same and to every target the same values
      and cases are assigned in the same order; defaults, and the order between targets, do not matter. */
  lemma SignaturesExactly(st1: State, st2: State)
    ensures SignatureOf(st1) == SignatureOf(st2) <==>
            st1.trans == st2.trans && forall t :: SameShown(st1, st2, t)
  {
    hide SameShown;
    var a, b := SignatureOf(st1).assigns, SignatureOf(st2).assigns;
    forall t ensures SameShown(st1, st2, t) <==> (t in a <==> t in b) && (t in a && t in b ==> a[t] == b[t]) {
      InSignature(st1, t);
      InSignature(st2, t);
      TextsExactly(st1, st2, t);
    }
    if a != b {
      var t :| (t in a) != (t in b) || (t in a && a[t] != b[t]);
      assert !SameShown(st1, st2, t);
    }
  }

  // ----- States that write the same -----

  /** Two lists of assignments do the same, whatever came before, exactly if to every bit their last executed
      assignments that cover it write the same. */
  lemma SameWritesExactly(x: seq<Assignment>, y: seq<Assignment>, ops: Ops, pre: Env)
    ensures (forall acc: Env :: Apply(x, ops, pre, acc) == Apply(y, ops, pre, acc))
       <==> (forall b: Bit :: BitWritten(x, b, ops, pre) == BitWritten(y, b, ops, pre))
  {
    hide Apply, BitWritten;
    if b: Bit :| BitWritten(x, b, ops, pre) != BitWritten(y, b, ops, pre) {
      var v := if BitWritten(x, b, ops, pre).Some? then BitWritten(x, b, ops, pre).value
               else BitWritten(y, b, ops, pre).value;
      var acc: Env := imap c: Bit :: c.i >= 0 && !v;
      BitAfter(x, b, ops, pre, acc);
      BitAfter(y, b, ops, pre, acc);
      assert Apply(x, ops, pre, acc)[b] != Apply(y, ops, pre, acc)[b];
    } else {
      forall acc: Env ensures Apply(x, ops, pre, acc) == Apply(y, ops, pre, acc) {
        forall b: Bit ensures Apply(x, ops, pre, acc)[b] == Apply(y, ops, pre, acc)[b] {
          BitAfter(x, b, ops, pre, acc);
          BitAfter(y, b, ops, pre, acc);
        }
      }
    }
  }

  /** An assignment without text executes nothing. */
  lemma NoTextNoWrite(a: Assignment, ops: Ops, pre: Env)
    requires TextOf(a) == []
    ensures Executed(a, ops, pre) == None
  {}

  lemma BitUntouched(a: Assignment, b: Bit, ops: Ops, pre: Env)
    requires !a.target.Covers(b) || TextOf(a) == []
    ensures BitWritten([a], b, ops, pre) == None
  {
    if TextOf(a) == [] { NoTextNoWrite(a, ops, pre); }
    assert BitWritten([a][..0], b, ops, pre) == None;
  }

  /** Only the assignments that cover the bit and have a text count. */
  lemma {:induction false} BitTouched(x: seq<Assignment>, b: Bit, ops: Ops, pre: Env)
    ensures BitWritten(Touching(x, b), b, ops, pre) == BitWritten(x, b, ops, pre)
    decreases |x|
  {
    hide TextOf, BitWritten;
    if x == [] {
      assert Touching(x, b) == x;
    } else {
      var init, last := x[..|x| - 1], x[|x| - 1];
      BitTouched(init, b, ops, pre);
      assert x == init + [last];
      BitWrittenAppend(init, [last], b, ops, pre);
      if last.target.Covers(b) && TextOf(last) != [] {
        BitWrittenAppend(Touching(init, b), [last], b, ops, pre);
      } else {
        assert Touching(x, b) == Touching(init, b);
        BitUntouched(last, b, ops, pre);
      }
    }
  }

  /** What can be seen on the states: they write the same if for every bit they have the same assignments to
      it, defaults included, in the same order. */
  lemma SameTouchingAlike(x: seq<Assignment>, y: seq<Assignment>, ops: Ops)
    requires forall b: Bit :: Touching(x, b) == Touching(y, b)
    ensures Alike(x, y, ops)
  {
    forall pre: Env, b: Bit ensures BitWritten(x, b, ops, pre) == BitWritten(y, b, ops, pre) {
      BitTouched(x, b, ops, pre);
      BitTouched(y, b, ops, pre);
      assert Touching(x, b) == Touching(y, b);
    }
  }

  // ----- The defaults a signature leaves out -----

  /** The end of the chain that is reached when no case down to a value holds. */
  ghost function Reached(s: Selector, ops: Ops, env: Env): Option<Selector>
    decreases s
  {
    match s
    case NoDefault => Some(s)
    case Default(_) => Some(s)
    case Case(c, Plain(_), rest) => if Holds(c, ops, env) then None else Reached(rest, ops, env)
    case Case(c, Nested(n), rest) =>
      if !Holds(c, ops, env) then Reached(rest, ops, env) else if n.Case? then Reached(n, ops, env) else None
  }

  ghost predicate SameEnd(s1: Selector, s2: Selector, ops: Ops, env: Env) {
    Exec(EmitChain(s1), ops, env) == Exec(EmitChain(s2), ops, env)
  }

  /** Selectors with the same text write the same exactly when a case down to a value holds, or the
      ends of their chains that are reached execute the same. */
  lemma {:induction false} SameChainWrites(s1: Selector, s2: Selector, ops: Ops, env: Env)
    requires EraseDefaults(s1) == EraseDefaults(s2)
    ensures Reached(s1, ops, env).Some? <==> Reached(s2, ops, env).Some?
    ensures Exec(EmitChain(s1), ops, env) == Exec(EmitChain(s2), ops, env)
       <==> (Reached(s1, ops, env).Some?
             ==> SameEnd(Reached(s1, ops, env).value, Reached(s2, ops, env).value, ops, env))
    decreases s1
  {
    match s1
    case NoDefault =>
    case Default(_) =>
    case Case(c, v, rest) =>
      if !Holds(c, ops, env) { SameChainWrites(rest, s2.rest, ops, env); }
      else if v.Nested? {
        var n1, n2 := v.sel, s2.choice.sel;
        SameChainWrites(n1, n2, ops, env);
        assert n1.Case? <==> n2.Case?;
        assert EmitChoice(v) == Emit(n1) && EmitChoice(s2.choice) == Emit(n2);
        assert Exec(EmitChain(s1), ops, env) == Exec(Emit(n1), ops, env);
        assert Exec(EmitChain(s2), ops, env) == Exec(Emit(n2), ops, env);
      }
  }

  /** The same for the emitted statements: a selector of which only the default is left emits nothing. */
  lemma SameCasesSameWrites(s1: Selector, s2: Selector, ops: Ops, env: Env)
    requires EraseDefaults(s1) == EraseDefaults(s2)
    ensures Exec(Emit(s1), ops, env) == Exec(Emit(s2), ops, env)
       <==> (s1.Case? && Reached(s1, ops, env).Some? && Reached(s2, ops, env).Some?
             ==> SameEnd(Reached(s1, ops, env).value, Reached(s2, ops, env).value, ops, env))
  {
    SameChainWrites(s1, s2, ops, env);
  }

  // ----- Merging duplicate targets keeps the step -----

  ghost predicate Fires(ts: seq<Transition>, t: StateId, ops: Ops, env: Env) {
    exists i :: 0 <= i < |ts| && ts[i].target == t && Holds(ts[i].cond, ops, env)
  }

  ghost predicate DistinctTargets(ts: seq<Transition>) {
    forall i, j :: 0 <= i < j < |ts| ==> ts[i].target != ts[j].target
  }

  lemma AddFires(ts: seq<Transition>, cond: Expr, t: StateId, u: StateId, ops: Ops, env: Env)
    requires DistinctTargets(ts)
    ensures DistinctTargets(AddTransition(ts, cond, t))
    ensures Fires(AddTransition(ts, cond, t), u, ops, env) <==>
      Fires(ts, u, ops, env) || (u == t && Holds(cond, ops, env))
  {
    var r := AddTransition(ts, cond, t);
    if HasTarget(ts, t) {
      var k :| 0 <= k < |ts| && ts[k].target == t;
      assert forall i :: 0 <= i < |ts| ==> r[i].target == ts[i].target;
      assert forall i :: 0 <= i < |ts| ==>
        (Holds(r[i].cond, ops, env) <==> Holds(ts[i].cond, ops, env) || (ts[i].target == t && Holds(cond, ops, env)));
      assert r[k].target == t;
    } else {
      assert r[|ts|] == Transition(cond, t);
      assert forall i :: 0 <= i < |ts| ==> r[i] == ts[i];
    }
  }

  ghost predicate FiresInto(ts: seq<Transition>, group: seq<StateId>, u: StateId, ops: Ops, env: Env)
    requires group != []
  {
    exists j :: 0 <= j < |ts| && Rep(group, ts[j].target) == u && Holds(ts[j].cond, ops, env)
  }

  /** A merged transition to u is true exactly when an old one to a state u stands for is true. */
  lemma {:induction false} MergedFires(ts: seq<Transition>, group: seq<StateId>, u: StateId, ops: Ops, env: Env)
    requires group != []
    ensures DistinctTargets(MergedTrans(ts, group))
    ensures Fires(MergedTrans(ts, group), u, ops, env) <==> FiresInto(ts, group, u, ops, env)
    decreases |ts|
  {
    if ts != [] {
      var init, last := ts[..|ts| - 1], ts[|ts| - 1];
      MergedFires(init, group, u, ops, env);
      AddFires(MergedTrans(init, group), last.cond, Rep(group, last.target), u, ops, env);
      assert FiresInto(ts, group, u, ops, env)
        <==> FiresInto(init, group, u, ops, env) || (Rep(group, last.target) == u && Holds(last.cond, ops, env)) by {
        assert forall j :: 0 <= j < |init| ==> init[j] == ts[j];
      }
    }
  }

  /** Where a transition to u, or to a state u stands for, occurs first. */
  function FirstTo(ts: seq<Transition>, group: seq<StateId>, u: StateId): (k: nat)
    requires group != []
    ensures k <= |ts|
    ensures k < |ts| ==> Rep(group, ts[k].target) == u
    ensures forall i :: 0 <= i < k ==> Rep(group, ts[i].target) != u
    decreases |ts|
  {
    if ts == [] then 0
    else
      var k := FirstTo(ts[..|ts| - 1], group, u);
      if k < |ts| - 1 || Rep(group, ts[k].target) == u then k else k + 1
  }

  /** A true transition that does not lead where the last true one leads is merged to a later place. */
  ghost predicate Overtaken(ts: seq<Transition>, group: seq<StateId>, ops: Ops, env: Env)
    requires group != []
  {
    exists i, k :: 0 <= i < |ts| && LastTrue(ts, k, ops, env) && Holds(ts[i].cond, ops, env)
      && FirstTo(ts, group, Rep(group, ts[i].target)) > FirstTo(ts, group, Rep(group, ts[k].target))
  }

  ghost predicate LastTrue(ts: seq<Transition>, k: int, ops: Ops, env: Env) {
    && 0 <= k < |ts| && Holds(ts[k].cond, ops, env)
    && forall i :: k < i < |ts| ==> !Holds(ts[i].cond, ops, env)
  }

  /** The merged list keeps its targets in order of first occurrence in the old one. */
  ghost predicate Ordered(ts: seq<Transition>, group: seq<StateId>, m: seq<Transition>)
    requires group != []
  {
    && (forall i :: 0 <= i < |m| ==> FirstTo(ts, group, m[i].target) < |ts|)
    && (forall i, j :: 0 <= i < j < |m| ==> FirstTo(ts, group, m[i].target) < FirstTo(ts, group, m[j].target))
  }

  /** Every old target is among the merged ones. */
  ghost predicate AllThere(ts: seq<Transition>, group: seq<StateId>, m: seq<Transition>)
    requires group != []
  {
    forall k :: 0 <= k < |ts| ==> HasTarget(m, Rep(group, ts[k].target))
  }

  lemma AddTargets(m: seq<Transition>, cond: Expr, t: StateId)
    ensures var m2 := AddTransition(m, cond, t);
      && |m2| == |m| + (if HasTarget(m, t) then 0 else 1) && HasTarget(m2, t)
      && (forall i :: 0 <= i < |m| ==> m2[i].target == m[i].target)
      && (!HasTarget(m, t) ==> m2[|m|].target == t)
  {
    var m2 := AddTransition(m, cond, t);
    if HasTarget(m, t) {
      var i :| 0 <= i < |m| && m[i].target == t;
      assert m2[i].target == t;
    } else {
      assert m2[|m|].target == t;
    }
  }

  lemma OrderedStep(ts: seq<Transition>, group: seq<StateId>, m: seq<Transition>, last: Transition)
    requires group != [] && Ordered(ts, group, m) && AllThere(ts, group, m)
    ensures Ordered(ts + [last], group, AddTransition(m, last.cond, Rep(group, last.target)))
  {
    hide FirstTo, AddTransition;
    var t := Rep(group, last.target);
    var m2, more := AddTransition(m, last.cond, t), ts + [last];
    AddTargets(m, last.cond, t);
    forall i | 0 <= i < |m| ensures FirstTo(more, group, m2[i].target) == FirstTo(ts, group, m[i].target) {
      var k := FirstTo(ts, group, m[i].target);
      assert more[k] == ts[k] && m2[i].target == m[i].target;
      assert forall l :: 0 <= l < k ==> more[l] == ts[l];
    }
    if !HasTarget(m, t) {
      assert more[|ts|] == last;
      assert forall k :: 0 <= k < |ts| ==> more[k] == ts[k] && HasTarget(m, Rep(group, ts[k].target));
    }
  }

  lemma AllThereStep(ts: seq<Transition>, group: seq<StateId>, m: seq<Transition>, last: Transition)
    requires group != [] && AllThere(ts, group, m)
    ensures AllThere(ts + [last], group, AddTransition(m, last.cond, Rep(group, last.target)))
  {
    hide AddTransition;
    var t := Rep(group, last.target);
    var m2, more := AddTransition(m, last.cond, t), ts + [last];
    AddTargets(m, last.cond, t);
    forall k | 0 <= k < |more| ensures HasTarget(m2, Rep(group, more[k].target)) {
      if k < |ts| {
        assert HasTarget(m, Rep(group, ts[k].target));
        var i :| 0 <= i < |m| && m[i].target == Rep(group, ts[k].target);
        assert m2[i].target == m[i].target;
      }
    }
  }

  lemma {:induction false} MergedOrder(ts: seq<Transition>, group: seq<StateId>)
    requires group != []
    ensures Ordered(ts, group, MergedTrans(ts, group)) && AllThere(ts, group, MergedTrans(ts, group))
    decreases |ts|
  {
    hide FirstTo, AddTransition, Ordered, AllThere;
    if ts != [] {
      var init, last := ts[..|ts| - 1], ts[|ts| - 1];
      assert ts == init + [last];
      MergedOrder(init, group);
      OrderedStep(init, group, MergedTrans(init, group), last);
      AllThereStep(init, group, MergedTrans(init, group), last);
    } else {
      OrderedNothing(group);
    }
  }

  lemma OrderedNothing(group: seq<StateId>)
    requires group != []
    ensures Ordered([], group, []) && AllThere([], group, [])
  {}

  /** The merged list takes the true target that occurs last in it. */
  lemma MergedLast(ts: seq<Transition>, group: seq<StateId>, k: int, k2: int, ops: Ops, env: Env)
    requires group != [] && LastTrue(ts, k, ops, env) && LastTrue(MergedTrans(ts, group), k2, ops, env)
    ensures MergedTrans(ts, group)[k2].target == Rep(group, ts[k].target) <==> !Overtaken(ts, group, ops, env)
  {
    hide FirstTo, MergedTrans, Rep;
    var m := MergedTrans(ts, group);
    var u, u2 := Rep(group, ts[k].target), m[k2].target;
    MergedFires(ts, group, u2, ops, env);
    assert Fires(m, u2, ops, env);
    var j :| 0 <= j < |ts| && Rep(group, ts[j].target) == u2 && Holds(ts[j].cond, ops, env);
    forall i | 0 <= i < |ts| && Holds(ts[i].cond, ops, env)
      ensures FirstTo(ts, group, Rep(group, ts[i].target)) <= FirstTo(ts, group, u2)
    {
      LastInMerged(ts, group, m, k2, i, ops, env);
    }
    if u != u2 {
      assert FirstTo(ts, group, u) != FirstTo(ts, group, u2);
      assert Overtaken(ts, group, ops, env);
    } else {
      assert forall l :: LastTrue(ts, l, ops, env) ==> l == k;
    }
  }

  /** OR-ing duplicate targets keeps the step exactly when no true transition is overtaken: the merged
      list then takes the kept state of the state the old list takes. */
  lemma MergedNextExactly(ts: seq<Transition>, group: seq<StateId>, s: StateId, ops: Ops, env: Env)
    requires group != []
    ensures NextState(MergedTrans(ts, group), Rep(group, s), ops, env) == Rep(group, NextState(ts, s, ops, env))
       <==> !Overtaken(ts, group, ops, env)
  {
    hide FirstTo, MergedTrans;
    var m := MergedTrans(ts, group);
    var k := NextIsTarget(ts, s, ops, env);
    var k2 := NextIsTarget(m, Rep(group, s), ops, env);
    if k2 >= 0 {
      MergedFires(ts, group, m[k2].target, ops, env);
      assert Fires(m, m[k2].target, ops, env);
    }
    if k >= 0 {
      MergedFires(ts, group, Rep(group, ts[k].target), ops, env);
      assert FiresInto(ts, group, Rep(group, ts[k].target), ops, env);
      MergedLast(ts, group, k, k2, ops, env);
    }
  }

  lemma LastInMerged(ts: seq<Transition>, group: seq<StateId>, m: seq<Transition>, k2: nat, i: nat, ops: Ops, env: Env)
    requires group != [] && m == MergedTrans(ts, group) && LastTrue(m, k2, ops, env)
    requires i < |ts| && Holds(ts[i].cond, ops, env)
    ensures FirstTo(ts, group, Rep(group, ts[i].target)) <= FirstTo(ts, group, m[k2].target)
  {
    hide FirstTo, MergedTrans, Rep;
    var u := Rep(group, ts[i].target);
    MergedOrder(ts, group);
    MergedFires(ts, group, u, ops, env);
    assert FiresInto(ts, group, u, ops, env);
    var l :| 0 <= l < |m| && m[l].target == u && Holds(m[l].cond, ops, env);
    assert l <= k2;
  }

  /** With conditions that exclude each other nothing is overtaken. */
  lemma MergedNext(ts: seq<Transition>, group: seq<StateId>, s: StateId, ops: Ops, env: Env)
    requires group != [] && Exclusive(ts, ops)
    ensures NextState(MergedTrans(ts, group), Rep(group, s), ops, env) == Rep(group, NextState(ts, s, ops, env))
  {
    hide FirstTo, MergedTrans, Rep, NextState;
    MergedNextExactly(ts, group, s, ops, env);
    forall i, k | 0 <= i < |ts| && LastTrue(ts, k, ops, env) && Holds(ts[i].cond, ops, env) ensures i == k {}
  }

  lemma MergedExclusive(ts: seq<Transition>, group: seq<StateId>, ops: Ops)
    requires group != [] && Exclusive(ts, ops)
    ensures Exclusive(MergedTrans(ts, group), ops)
  {
    var m := MergedTrans(ts, group);
    forall i, j, env: Env | 0 <= i < j < |m|
      ensures !(Holds(m[i].cond, ops, env) && Holds(m[j].cond, ops, env))
    {
      MergedFires(ts, group, m[i].target, ops, env);
      MergedFires(ts, group, m[j].target, ops, env);
      assert Holds(m[i].cond, ops, env) ==> Fires(m, m[i].target, ops, env);
      assert Holds(m[j].cond, ops, env) ==> Fires(m, m[j].target, ops, env);
    }
  }

  // ----- The merged worker -----

  lemma MergedStates(f: Fsm, group: seq<StateId>, s: StateId)
    requires Group(f, group) && f.Closed() && s in f.body
    ensures Rep(group, s) in Merged(f, group).body
    ensures SignatureOf(f.body[Rep(group, s)]) == SignatureOf(f.body[s])
  {
    if s in group[1..] { assert f.At(s) == f.body[s] && f.At(group[0]) == f.body[group[0]]; }
  }

  lemma {:induction false} RemainingDistinct(states: seq<StateId>, gone: seq<StateId>)
    requires forall i, j :: 0 <= i < j < |states| ==> states[i] != states[j]
    ensures forall i, j ::
      0 <= i < j < |Remaining(states, gone)| ==> Remaining(states, gone)[i] != Remaining(states, gone)[j]
    decreases states
  {
    if states != [] { RemainingDistinct(states[1..], gone); }
  }

  lemma MergedTargets(ts: seq<Transition>, group: seq<StateId>, f: Fsm)
    requires group != [] && (forall s :: s in group ==> s in f.body)
    requires forall i, j :: 0 <= i < j < |group| ==> group[i] != group[j]
    requires forall i :: 0 <= i < |ts| ==> ts[i].target in f.body
    ensures forall i :: 0 <= i < |MergedTrans(ts, group)| ==>
      var t := MergedTrans(ts, group)[i].target; t in f.body && t !in group[1..]
    decreases |ts|
  {
    if ts != [] {
      var init, last := ts[..|ts| - 1], ts[|ts| - 1];
      MergedTargets(init, group, f);
      assert Rep(group, last.target) in f.body && Rep(group, last.target) !in group[1..];
    }
  }

  /** Merging keeps a worker well-formed, its reset state in place, and its states suitable. */
  lemma MergedValid(f: Fsm, group: seq<StateId>, ops: Ops)
    requires f.Valid() && Group(f, group) && Suitable(f, ops)
    ensures Merged(f, group).Valid() && Suitable(Merged(f, group), ops)
    ensures f.states != [] && f.states[0] == f.reset ==>
      Merged(f, group).states != [] && Merged(f, group).states[0] == f.reset
  {
    var g := Merged(f, group);
    RemainingDistinct(f.states, group[1..]);
    forall s | s in g.body
      ensures Exclusive(g.body[s].trans, ops)
      ensures forall k :: 0 <= k < |g.body[s].trans| ==> g.body[s].trans[k].target in g.body
    {
      MergedExclusive(f.body[s].trans, group, ops);
      MergedTargets(f.body[s].trans, group, f);
    }
    forall s, t | s in g.body && t in g.body && SignatureOf(g.body[s]).assigns == SignatureOf(g.body[t]).assigns
      ensures Alike(g.body[s].assigns, g.body[t].assigns, ops)
    {
      SameAssigns(g.body[s], f.body[s]);
      SameAssigns(g.body[t], f.body[t]);
      assert Alike(f.body[s].assigns, f.body[t].assigns, ops);
    }
  }

  lemma SameAssigns(st1: State, st2: State)
    requires st1.assigns == st2.assigns
    ensures SignatureOf(st1).assigns == SignatureOf(st2).assigns
  {}

  // ----- The bisimulation -----

  ghost function MergedDesign(d: Design, w: nat, group: seq<StateId>): Design
    requires w < |d.workers| && group != []
  {
    d.(workers := d.workers[w := Merged(d.workers[w], group)])
  }

  /** Equal registers, and the merged worker in the kept state of the old worker's state. */
  ghost predicate Matched(d: Design, w: nat, group: seq<StateId>, c: Config, c2: Config)
    requires w < |d.workers| == |c.at| && group != []
  {
    && c.at[w] in d.workers[w].body
    && c2.at == c.at[w := Rep(group, c.at[w])] && c2.env == c.env
  }

  ghost predicate MergeJob(d: Design, w: nat, group: seq<StateId>, ops: Ops) {
    && w < |d.workers| && d.workers[w].Closed() && Group(d.workers[w], group) && Suitable(d.workers[w], ops)
  }

  lemma MatchedEffects(d: Design, w: nat, group: seq<StateId>, next: seq<StateId>, ops: Ops, pre: Env, acc: Env)
    requires MergeJob(d, w, group, ops) && |next| == |d.workers| && next[w] in d.workers[w].body
    ensures Apply(Effects(MergedDesign(d, w, group).workers, next[w := Rep(group, next[w])]), ops, pre, acc)
         == Apply(Effects(d.workers, next), ops, pre, acc)
  {
    var f, ws2 := d.workers[w], MergedDesign(d, w, group).workers;
    var s, next2 := next[w], next[w := Rep(group, next[w])];
    var a, b := Effects(d.workers[..w], next[..w]), Effects(d.workers[w + 1..], next[w + 1..]);
    SplitEffects(d.workers, next, w);
    SplitEffects(ws2, next2, w);
    assert ws2[..w] == d.workers[..w] && ws2[w + 1..] == d.workers[w + 1..];
    assert next2[..w] == next[..w] && next2[w + 1..] == next[w + 1..];
    MergedStates(f, group, s);
    var own, own2 := f.body[s].assigns, f.body[Rep(group, s)].assigns;
    assert Merged(f, group).At(Rep(group, s)).assigns == own2 && f.At(s).assigns == own;
    ApplyAppend(a + own, b, ops, pre, acc);
    ApplyAppend(a, own, ops, pre, acc);
    ApplyAppend(a + own2, b, ops, pre, acc);
    ApplyAppend(a, own2, ops, pre, acc);
    assert Alike(own, own2, ops);
    SameWritesExactly(own, own2, ops, pre);
  }

  lemma MatchedNext(d: Design, w: nat, group: seq<StateId>, ops: Ops, c: Config, c2: Config)
    requires MergeJob(d, w, group, ops) && |c.at| == |d.workers| && Matched(d, w, group, c, c2)
    ensures var next := NextStates(d.workers, c.at, ops, c.env);
      && next[w] in d.workers[w].body
      && NextStates(MergedDesign(d, w, group).workers, c2.at, ops, c2.env) == next[w := Rep(group, next[w])]
  {
    var f, s := d.workers[w], c.at[w];
    MergedStates(f, group, s);
    var k := NextIsTarget(f.body[s].trans, s, ops, c.env);
    assert f.body[Rep(group, s)].trans == f.body[s].trans by {
      assert SignatureOf(f.body[s]).trans == SignatureOf(f.body[Rep(group, s)]).trans;
    }
    assert Merged(f, group).At(Rep(group, s)).trans == MergedTrans(f.body[s].trans, group);
    MergedNext(f.body[s].trans, group, s, ops, c.env);
  }

  lemma MatchedStep(d: Design, w: nat, group: seq<StateId>, ops: Ops, c: Config, c2: Config, outside: Env)
    requires MergeJob(d, w, group, ops) && |c.at| == |d.workers| && Matched(d, w, group, c, c2)
    ensures Matched(d, w, group, Step(d, c, ops, outside), Step(MergedDesign(d, w, group), c2, ops, outside))
  {
    var d2 := MergedDesign(d, w, group);
    var next := NextStates(d.workers, c.at, ops, c.env);
    MatchedNext(d, w, group, ops, c, c2);
    MatchedEffects(d, w, group, next, ops, c.env, ClearPulsing(d.pulsing, c.env));
    var at, at2 := Latch(d.workers, next, ops, c.env), Latch(d2.workers, next[w := Rep(group, next[w])], ops, c.env);
    assert at2 == at[w := Rep(group, at[w])];
  }

  lemma MatchedInitial(d: Design, w: nat, group: seq<StateId>, ops: Ops, powerUp: Env, outside: Env)
    requires MergeJob(d, w, group, ops)
    ensures Matched(d, w, group, Initial(d, ops, powerUp, outside),
      Initial(MergedDesign(d, w, group), ops, powerUp, outside))
  {
    var f, d2 := d.workers[w], MergedDesign(d, w, group);
    var c, c2 := Initial(d, ops, powerUp, outside), Initial(d2, ops, powerUp, outside);
    assert Merged(f, group).At(f.reset).assigns == f.At(f.reset).assigns;
    assert c2.at == c.at[w := Rep(group, c.at[w])];
  }

  lemma MatchedRun(d: Design, w: nat, group: seq<StateId>, ops: Ops, powerUp: Env, outside: nat -> Env, n: nat)
    requires MergeJob(d, w, group, ops)
    ensures Matched(d, w, group, Run(d, ops, powerUp, outside, n),
      Run(MergedDesign(d, w, group), ops, powerUp, outside, n))
  {
    var d2, k := MergedDesign(d, w, group), 0;
    var c, c2 := Run(d, ops, powerUp, outside, 0), Run(d2, ops, powerUp, outside, 0);
    MatchedInitial(d, w, group, ops, powerUp, outside(0));
    while k < n
      invariant 0 <= k <= n
      invariant c == Run(d, ops, powerUp, outside, k) && c2 == Run(d2, ops, powerUp, outside, k)
      invariant Matched(d, w, group, c, c2)
    {
      k := k + 1;
      MatchedStep(d, w, group, ops, c, c2, outside(k));
      c, c2 := Step(d, c, ops, outside(k)), Step(d2, c2, ops, outside(k));
    }
  }

  /** Merging one group of equal signatures keeps the register trace for every input sequence. */
  lemma MergeKeepsTrace(d: Design, w: nat, group: seq<StateId>, ops: Ops)
    requires MergeJob(d, w, group, ops)
    ensures SameTrace(d, MergedDesign(d, w, group), ops)
  {
    forall powerUp: Env, outside: nat -> Env, n: nat
      ensures Trace(d, ops, powerUp, outside, n) == Trace(MergedDesign(d, w, group), ops, powerUp, outside, n)
    {
      MatchedRun(d, w, group, ops, powerUp, outside, n);
    }
  }

  /** The signatures of a group stay equal while another group is merged. */
  lemma OtherGroupStays(f: Fsm, group: seq<StateId>, other: seq<StateId>)
    requires Group(f, group) && Group(f, other)
    requires forall s :: s in other ==> s !in group
    ensures Group(Merged(f, group), other)
  {
    var g := Merged(f, group);
    forall s | s in other
      ensures s in g.body && SignatureOf(g.At(s)) == SignatureOf(g.At(other[0]))
    {
      assert SignatureOf(f.At(s)) == SignatureOf(f.At(other[0]));
      SignatureParts(f.body[s], f.body[other[0]], group);
    }
  }

  lemma SignatureParts(st1: State, st2: State, group: seq<StateId>)
    requires group != [] && SignatureOf(st1) == SignatureOf(st2)
    ensures SignatureOf(st1.(trans := MergedTrans(st1.trans, group))) ==
      SignatureOf(st2.(trans := MergedTrans(st2.trans, group)))
  {
    assert st1.trans == SignatureOf(st1).trans == SignatureOf(st2).trans == st2.trans;
    var a, b := st1.(trans := MergedTrans(st1.trans, group)), st2.(trans := MergedTrans(st2.trans, group));
    assert SignatureOf(a).assigns == SignatureOf(st1).assigns && SignatureOf(b).assigns == SignatureOf(st2).assigns;
  }

  // ----- Where the two conditions are needed -----

  const INPUT := Sig(Whole("a", 1))

  function Writing(x: seq<Assignment>): State { NoState.(assigns := x) }

  /** From reset the input selects one of two states. */
  function TwoStates(x: seq<Assignment>, y: seq<Assignment>): Design {
    var choose := NoState.(trans := [Transition(INPUT, 1), Transition(Not(INPUT), 2)]);
    Design([Fsm([0, 1, 2], map[0 := choose, 1 := Writing(x), 2 := Writing(y)], 0, False)], {}, {"a"})
  }

  /** Merging the two states is what the signatures ask for, and everything else is in order. */
  ghost predicate Candidates(x: seq<Assignment>, y: seq<Assignment>, ops: Ops) {
    var d := TwoStates(x, y);
    var f := d.workers[0];
    && d.Valid() && Group(f, [1, 2])
    && forall s {:trigger Exclusive(f.body[s].trans, ops)} :: s in f.body ==> Exclusive(f.body[s].trans, ops)
  }

  lemma ChoosingExclusive(ops: Ops)
    ensures Exclusive([Transition(INPUT, 1), Transition(Not(INPUT), 2)], ops) && Exclusive([], ops)
  {}

  lemma SameSignatureCandidates(x: seq<Assignment>, y: seq<Assignment>, ops: Ops)
    requires SignatureOf(Writing(x)) == SignatureOf(Writing(y))
    ensures Candidates(x, y, ops)
  {
    hide SignatureOf, Exclusive;
    ChoosingExclusive(ops);
    assert [1, 2][1..] == [2];
  }

  lemma InputLow(ops: Ops, low: Env)
    requires !low[Bit("a", 0)]
    ensures !Holds(INPUT, ops, low) && Holds(Not(INPUT), ops, low)
  {
    assert BitsValue(low, "a", 1, 0) == 0;
    assert Eval(INPUT, ops, low) == 0;
  }

  /** One cycle after reset, with all inputs and registers at 0. */
  lemma FirstCycle(f: Fsm, s: StateId, x: seq<Assignment>, b: Bit, ops: Ops, low: Env)
    requires (forall c: Bit :: !low[c]) && f.reset == 0 && f.At(0).assigns == [] && b.name != "a"
    requires NextState(f.At(0).trans, 0, ops, low) == s && f.At(s).assigns == x
    ensures Trace(Design([f], {}, {"a"}), ops, low, _ => low, 1)[b] == Apply(x, ops, low, low)[b]
  {
    hide Apply;
    var d := Design([f], {}, {"a"});
    NoEffect(ops, low, low);
    assert Sample({"a"}, low, low) == low;
    assert ClearPulsing({}, low) == low;
    var c := Run(d, ops, low, _ => low, 0);
    assert c == Config([0], low);
    assert NextStates(d.workers, [0], ops, low) == [s];
    assert Effects(d.workers, [s]) == x by { assert d.workers[1..] == [] && [s][1..] == [] && x + [] == x; }
    assert Run(d, ops, low, _ => low, 1) == Step(d, c, ops, low);
  }

  lemma MergedTwo(x: seq<Assignment>, y: seq<Assignment>)
    ensures var f2 := Merged(TwoStates(x, y).workers[0], [1, 2]);
      && MergedDesign(TwoStates(x, y), 0, [1, 2]) == Design([f2], {}, {"a"})
      && f2.reset == 0 && f2.At(0).assigns == [] && f2.At(1).assigns == x
      && f2.At(0).trans == [Transition(Any(INPUT, Not(INPUT)), 1)]
  {
    hide MergedTrans;
    MergedChoice([1, 2]);
    assert [1, 2][1..] == [2];
  }

  /** If the two states write different bits, merging them changes the trace. */
  lemma TracesDiffer(x: seq<Assignment>, y: seq<Assignment>, b: Bit, ops: Ops, low: Env)
    requires (forall c: Bit :: !low[c]) && b.name != "a" && Apply(x, ops, low, low)[b] != Apply(y, ops, low, low)[b]
    ensures !SameTrace(TwoStates(x, y), MergedDesign(TwoStates(x, y), 0, [1, 2]), ops)
  {
    hide Run, Apply, Merged, MergedDesign;
    var d, d2 := TwoStates(x, y), MergedDesign(TwoStates(x, y), 0, [1, 2]);
    var f, f2 := d.workers[0], Merged(d.workers[0], [1, 2]);
    MergedTwo(x, y);
    InputLow(ops, low);
    assert NextState(f.At(0).trans, 0, ops, low) == 2;
    FirstCycle(f, 2, y, b, ops, low);
    assert NextState(f2.At(0).trans, 0, ops, low) == 1 by {
      assert Eval(Any(INPUT, Not(INPUT)), ops, low) == 1;
    }
    FirstCycle(f2, 1, x, b, ops, low);
    assert Trace(d, ops, low, _ => low, 1)[b] != Trace(d2, ops, low, _ => low, 1)[b];
  }

  /** One conditional assignment: nothing but what it writes. */
  lemma OneWrite(t: Target, s: Selector, n: nat, ops: Ops, pre: Env, acc: Env)
    requires Exec(Emit(s), ops, pre) == Some(n)
    ensures Apply([When(t, s)], ops, pre, acc) == Write(acc, t, n)
  {
    assert [When(t, s)][1..] == [];
  }

  // ----- Defaults -----

  /** Writes 0 while the input is 1, and n otherwise. */
  function WithDefault(n: nat): seq<Assignment> {
    [When(Whole("r", 1), Case(INPUT, Plain(Const(0)), Default(Plain(Const(n)))))]
  }

  lemma SameDefaultTexts()
    ensures SignatureOf(Writing(WithDefault(0))) == SignatureOf(Writing(WithDefault(1)))
  {
    var a, b := WithDefault(0), WithDefault(1);
    assert EraseDefaults(a[0].sel) == EraseDefaults(b[0].sel);
    assert TextOf(a[0]) == TextOf(b[0]);
    forall t ensures Texts(a, t) == Texts(b, t) {
      assert a[1..] == [] == b[1..];
    }
    assert Targets(a) == Targets(b);
  }

  lemma DefaultWritten(n: nat, ops: Ops, low: Env)
    requires (forall c: Bit :: !low[c]) && n <= 1
    ensures Apply(WithDefault(n), ops, low, low)[Bit("r", 0)] == (n == 1)
  {
    InputLow(ops, low);
    assert Exec(EmitChain(Default(Plain(Const(n)))), ops, low) == Some(n) by { assert Eval(Const(n), ops, low) == n; }
    OneWrite(Whole("r", 1), WithDefault(n)[0].sel, n, ops, low, low);
    assert Write(low, Whole("r", 1), n)[Bit("r", 0)] == BitOf(n, 0);
  }

  /** Two states that differ in a default only have the same signature, and merging them changes the trace. */
  lemma DefaultsDifferentTrace(ops: Ops)
    ensures Candidates(WithDefault(0), WithDefault(1), ops)
    ensures !SameTrace(TwoStates(WithDefault(0), WithDefault(1)),
                       MergedDesign(TwoStates(WithDefault(0), WithDefault(1)), 0, [1, 2]), ops)
  {
    hide SignatureOf, Apply, SameTrace, MergedDesign, Candidates, WithDefault;
    var low: Env := imap b: Bit :: b.i < 0;
    SameDefaultTexts();
    SameSignatureCandidates(WithDefault(0), WithDefault(1), ops);
    DefaultWritten(0, ops, low);
    DefaultWritten(1, ops, low);
    TracesDiffer(WithDefault(0), WithDefault(1), Bit("r", 0), ops, low);
  }

  // ----- Overlapping targets -----

  const LOW_BITS := Slice("r", 0, 2)
  const HIGH_BITS := Slice("r", 1, 2)

  /** Writes 1 while the input is 0. */
  function IfLow(): Selector { Case(Not(INPUT), Plain(Const(1)), NoDefault) }

  /** Two conditional assignments that share bit 1. */
  function LowFirst(): seq<Assignment> { [When(LOW_BITS, IfLow()), When(HIGH_BITS, IfLow())] }

  function HighFirst(): seq<Assignment> { [When(HIGH_BITS, IfLow()), When(LOW_BITS, IfLow())] }

  lemma SameOverlapTexts()
    ensures SignatureOf(Writing(LowFirst())) == SignatureOf(Writing(HighFirst()))
  {
    var a, b := LowFirst(), HighFirst();
    forall t ensures Texts(a, t) == Texts(b, t) {
      assert a[1..] == [a[1]] && a[1..][1..] == [] && b[1..] == [b[1]] && b[1..][1..] == [];
      assert Texts(a, t) == (if a[0].target == t then TextOf(a[0]) else []) + Texts(a[1..], t);
      assert Texts(b, t) == (if b[0].target == t then TextOf(b[0]) else []) + Texts(b[1..], t);
    }
    forall u: Target ensures u in Targets(a) <==> u in Targets(b) {
      assert a[0] == b[1] && a[1] == b[0];
      assert (exists i :: 0 <= i < |a| && a[i].target == u) <==> (a[0].target == u || a[1].target == u);
      assert (exists i :: 0 <= i < |b| && b[i].target == u) <==> (b[0].target == u || b[1].target == u);
    }
    assert Targets(a) == Targets(b);
  }

  /** Bit 1 is what the second assignment makes of it. */
  lemma OverlapWritten(t: Target, u: Target, ops: Ops, low: Env)
    requires (forall c: Bit :: !low[c]) && u.Covers(Bit("r", 1))
    ensures Apply([When(t, IfLow()), When(u, IfLow())], ops, low, low)[Bit("r", 1)] == BitOf(1, 1 - u.Low())
  {
    InputLow(ops, low);
    assert Exec(Emit(IfLow()), ops, low) == Some(1) by { assert Eval(Const(1), ops, low) == 1; }
    var x := [When(t, IfLow()), When(u, IfLow())];
    var mid := Perform(x[0], ops, low, low);
    assert x[1..] == [When(u, IfLow())];
    OneWrite(u, IfLow(), 1, ops, low, mid);
  }

  /** So do two states with overlapping assignments in a different order: the signature is sorted. */
  lemma OverlapDifferentTrace(ops: Ops)
    ensures Candidates(LowFirst(), HighFirst(), ops)
    ensures !SameTrace(TwoStates(LowFirst(), HighFirst()),
                       MergedDesign(TwoStates(LowFirst(), HighFirst()), 0, [1, 2]), ops)
  {
    hide SignatureOf, Apply, SameTrace, MergedDesign, Candidates;
    var low: Env := imap b: Bit :: b.i < 0;
    SameOverlapTexts();
    SameSignatureCandidates(LowFirst(), HighFirst(), ops);
    OverlapWritten(LOW_BITS, HIGH_BITS, ops, low);
    OverlapWritten(HIGH_BITS, LOW_BITS, ops, low);
    assert BitOf(1, 0) && !BitOf(1, 1);
    TracesDiffer(LowFirst(), HighFirst(), Bit("r", 1), ops, low);
  }

  lemma MergedChoice(group: seq<StateId>)
    requires group == [1, 2]
    ensures MergedTrans([Transition(INPUT, 1), Transition(Not(INPUT), 2)], group) ==
      [Transition(Any(INPUT, Not(INPUT)), 1)]
  {
    var t1, t2 := Transition(INPUT, 1), Transition(Not(INPUT), 2);
    AddFresh([], t1, group);
    assert [] + [t1] == [t1] && [t1, t2][..1] == [t1] && group[1..] == [2];
    assert HasTarget([t1], 1) by { assert [t1][0].target == 1; }
  }

  lemma AddFresh(ts: seq<Transition>, t: Transition, group: seq<StateId>)
    requires group != [] && Rep(group, t.target) == t.target && MergedTrans(ts, group) == ts && !HasTarget(ts, t.target)
    ensures MergedTrans(ts + [t], group) == ts + [t]
  {
    assert (ts + [t])[..|ts|] == ts;
  }

  /** OR-ing moves a condition forward: with two conditions true, the merged list may take a
      transition the old one overrides. */
  lemma OverlapChangesStep(a: Expr, b: Expr, ops: Ops, env: Env)
    requires Holds(a, ops, env) && Holds(b, ops, env)
    ensures var ts := [Transition(a, 1), Transition(b, 2), Transition(a, 3)];
      && NextState(ts, 0, ops, env) == 3
      && NextState(MergedTrans(ts, [1, 3]), 0, ops, env) == 2
  {
    var t1, t2, group := Transition(a, 1), Transition(b, 2), [1, 3];
    var ts := [t1, t2, Transition(a, 3)];
    assert group[1..] == [3];
    AddFresh([], t1, group);
    AddFresh([t1], t2, group);
    assert [] + [t1] == [t1] && [t1] + [t2] == [t1, t2] && ts[..2] == [t1, t2];
    assert [t1, t2][0].target == 1;
    var m := OrInto([t1, t2], a, 1);
    assert MergedTrans(ts, group) == m;
    assert m[1] == t2;
  }
}
