/** Copying results out of a segment without a sync: the end state assigns the forwarded value to the
caller's output slot, in a case for the caller's ID. */
module CopyOut {
  import opened Signals
  import opened Selectors
  import opened Cycle
  import opened FastForward

  // ----- Adding a case to the assignments of the end state -----

  function AppendCase(s: Selector, cond: Expr, value: Expr): Selector {
    match s
    case NoDefault => Case(cond, Plain(value), NoDefault)
    case Default(c) => Case(cond, Plain(value), Default(c))
    case Case(e, c, rest) => Case(e, c, AppendCase(rest, cond, value))
  }

  function Behind(head: seq<Assignment>, rest: Option<seq<Assignment>>): Option<seq<Assignment>> {
    if rest.Some? then Some(head + rest.value) else None
  }

  /** The first assignment that fully overlaps the slot gets another case, or the state another
      assignment; None is the RuntimeError. */
  function WithCase(assigns: seq<Assignment>, slot: Target, cond: Expr, value: Expr): Option<seq<Assignment>>
    decreases |assigns|
  {
    if assigns == [] then Some([When(slot, Case(cond, Plain(value), NoDefault))])
    else if Overlaps(slot, assigns[0].target) == Full then
      if assigns[0].When? then Some([assigns[0].(sel := AppendCase(assigns[0].sel, cond, value))] + assigns[1..])
        else None
    else
      Behind([assigns[0]], WithCase(assigns[1..], slot, cond, value))
  }

  lemma BehindOne(head: seq<Assignment>, a: Assignment, rest: Option<seq<Assignment>>)
    ensures Behind(head, Behind([a], rest)) == Behind(head + [a], rest)
    ensures Behind([], rest) == rest
  {
    if rest.Some? {
      assert head + ([a] + rest.value) == head + [a] + rest.value;
      assert [] + rest.value == rest.value;
    }
  }

  /** One step of the search. */
  lemma CaseAt(assigns: seq<Assignment>, i: nat, slot: Target, cond: Expr, value: Expr)
    requires i < |assigns|
    ensures Behind(assigns[..i], WithCase(assigns[i..], slot, cond, value))
         == if Overlaps(slot, assigns[i].target) != Full
           then Behind(assigns[..i + 1], WithCase(assigns[i + 1..], slot, cond, value))
            else if assigns[i].When?
              then Some(assigns[i := assigns[i].(sel := AppendCase(assigns[i].sel, cond, value))]) else None
  {
    var rest := assigns[i..];
    assert rest[1..] == assigns[i + 1..] && assigns[..i + 1] == assigns[..i] + [assigns[i]];
    BehindOne(assigns[..i], assigns[i], WithCase(assigns[i + 1..], slot, cond, value));
    if assigns[i].When? {
      var more := assigns[i].(sel := AppendCase(assigns[i].sel, cond, value));
      assert assigns[..i] + ([more] + rest[1..]) == assigns[i := more];
    }
  }

  /** `add_assignment_case`. */
  method AddAssignmentCase(assigns: seq<Assignment>, slot: Target, value: Expr, cond: Expr)
      returns (r: Option<seq<Assignment>>)
    ensures r == WithCase(assigns, slot, cond, value)
  {
    hide AppendCase, Overlaps;
    BehindOne([], When(slot, NoDefault), WithCase(assigns, slot, cond, value));
    assert assigns[0..] == assigns && assigns[..0] == [];
    for i := 0 to |assigns|
      invariant WithCase(assigns, slot, cond, value) == Behind(assigns[..i], WithCase(assigns[i..], slot, cond, value))
    {
      CaseAt(assigns, i, slot, cond, value);
      if Overlaps(slot, assigns[i].target) == Full {
        if !assigns[i].When? { return None; }
        return Some(assigns[i := assigns[i].(sel := AppendCase(assigns[i].sel, cond, value))]);
      }
    }
    assert assigns[..|assigns|] == assigns && assigns[|assigns|..] == [];
    r := Some(assigns + [When(slot, Case(cond, Plain(value), NoDefault))]);
  }

  /** One case per calling ID. */
  function CasesOf(guard: Expr, ids: seq<nat>, value: Expr): Selector {
    if ids == [] then NoDefault else Case(Eq(guard, Const(ids[0])), Plain(value), CasesOf(guard, ids[1..], value))
  }

  /** The end state once the calls with these IDs share the slot. */
  function Copied(base: seq<Assignment>, slot: Target, guard: Expr, ids: seq<nat>, value: Expr): seq<Assignment> {
    if ids == [] then base else base + [When(slot, CasesOf(guard, ids, value))]
  }

  lemma {:induction false} CasesAppend(guard: Expr, ids: seq<nat>, value: Expr, id: nat)
    ensures AppendCase(CasesOf(guard, ids, value), Eq(guard, Const(id)), value) == CasesOf(guard, ids + [id], value)
    decreases |ids|
  {
    if ids == [] {
      assert (ids + [id])[1..] == [];
    } else {
      assert (ids + [id])[1..] == ids[1..] + [id];
      CasesAppend(guard, ids[1..], value, id);
    }
  }

  /** Every further call adds its case to the same selector. */
  lemma {:induction false} NextCall(base: seq<Assignment>, slot: Target, guard: Expr, ids: seq<nat>, value: Expr,
      id: nat)
    requires Untouched(base, slot) && slot.width > 0
    ensures WithCase(Copied(base, slot, guard, ids, value), slot, Eq(guard, Const(id)), value)
         == Some(Copied(base, slot, guard, ids + [id], value))
    decreases |base|
  {
    var own := Copied(base, slot, guard, ids, value);
    if base == [] {
      CasesAppend(guard, ids, value, id);
      assert Overlaps(slot, slot) == Full;
      var last := When(slot, CasesOf(guard, ids + [id], value));
      assert Copied(base, slot, guard, ids + [id], value) == [] + [last] == [last];
      if ids != [] {
        assert own == [When(slot, CasesOf(guard, ids, value))] && own[1..] == [];
        assert [last] + [] == [last];
      } else {
        assert [id][1..] == []
          && CasesOf(guard, [id], value) == Case(Eq(guard, Const(id)), Plain(value), CasesOf(guard, [], value));
        assert ids + [id] == [id];
      }
    } else {
      var rest := base[1..];
      assert base == [base[0]] + rest && Overlaps(slot, base[0].target) == Apart;
      assert Untouched(rest, slot) by { assert forall i :: 0 <= i < |rest| ==> rest[i] == base[i + 1]; }
      NextCall(rest, slot, guard, ids, value, id);
      assert own[1..] == Copied(rest, slot, guard, ids, value);
      assert [base[0]] + Copied(rest, slot, guard, ids + [id], value) == Copied(base, slot, guard, ids + [id], value);
    }
  }

  // ----- The guard -----

  /** `get_fast_forward_return_address`: what the state assigns to the return address, or itself. */
  function GuardValue(base: seq<Assignment>, address: Target): Expr {
    if base == [] then Sig(address)
    else if Overlaps(address, base[0].target) != Apart && base[0].Always? then base[0].value
    else GuardValue(base[1..], address)
  }

  ghost predicate AssignedOnce(base: seq<Assignment>, address: Target) {
    && (forall i ::
      0 <= i < |base| && Overlaps(address, base[i].target) != Apart ==> base[i].Always? && base[i].target == address)
    && (forall i, j ::
      0 <= i < j < |base| && Overlaps(address, base[i].target) != Apart ==> Overlaps(address, base[j].target) == Apart)
  }

  lemma {:induction false} UntouchedForwards(base: seq<Assignment>, t: Target, value: Expr)
    requires Untouched(base, t)
    ensures Forwarded(base, t, value) == Some(value)
    decreases |base|
  {
    if base != [] {
      assert Overlaps(t, base[|base| - 1].target) == Apart;
      UntouchedForwards(base[..|base| - 1], t, value);
    }
  }

  /** The value the state assigns, if it is assigned at all, is also the one that would be forwarded. */
  lemma {:induction false} GuardIsForwarded(base: seq<Assignment>, address: Target)
    requires AssignedOnce(base, address) && address.Whole?
    ensures Forwarded(base, address, Sig(address)) == Some(GuardValue(base, address))
    decreases |base|
  {
    if k :| 0 <= k < |base| && Overlaps(address, base[k].target) != Apart {
      GuardAt(base, address, k);
      var tail := base[k + 1..];
      assert Untouched(tail, address) by { assert forall i :: 0 <= i < |tail| ==> tail[i] == base[i + 1 + k]; }
      FullForwards(base, address);
      LastForwarded(base, address, k);
    } else {
      UntouchedForwards(base, address, Sig(address));
      GuardNone(base, address);
    }
  }

  lemma {:induction false} FullForwards(base: seq<Assignment>, t: Target)
    requires forall i ::
      0 <= i < |base| && Overlaps(t, base[i].target) != Apart ==> base[i].Always? && base[i].target == t
    ensures Forwarded(base, t, Sig(t)).Some?
    decreases |base|
  {
    if base != [] { FullForwards(base[..|base| - 1], t); }
  }

  lemma {:induction false} GuardAt(base: seq<Assignment>, address: Target, k: nat)
    requires AssignedOnce(base, address) && k < |base| && Overlaps(address, base[k].target) != Apart
    ensures GuardValue(base, address) == base[k].value
    decreases |base|
  {
    if k > 0 {
      assert Overlaps(address, base[0].target) == Apart;
      assert AssignedOnce(base[1..], address) by { assert forall i ::
        0 <= i < |base[1..]| ==> base[1..][i] == base[i + 1]; }
      GuardAt(base[1..], address, k - 1);
    }
  }

  lemma {:induction false} GuardNone(base: seq<Assignment>, address: Target)
    requires Untouched(base, address)
    ensures GuardValue(base, address) == Sig(address)
    decreases |base|
  {
    if base != [] {
      assert Overlaps(address, base[0].target) == Apart;
      assert forall i :: 0 <= i < |base[1..]| ==> base[1..][i] == base[i + 1];
      GuardNone(base[1..], address);
    }
  }

  // ----- What the slot holds -----

  lemma {:induction false} CasesWrite(guard: Expr, ids: seq<nat>, value: Expr, ops: Ops, pre: Env)
    ensures Exec(EmitChain(CasesOf(guard, ids, value)), ops, pre)
         == if exists i :: 0 <= i < |ids| && ids[i] == Eval(guard, ops, pre) then Some(Eval(value, ops, pre)) else None
    decreases |ids|
  {
    if ids != [] {
      CasesWrite(guard, ids[1..], value, ops, pre);
      var g := Eval(guard, ops, pre);
      assert (exists i :: 0 <= i < |ids| && ids[i] == g) <==>
        ids[0] == g || exists i :: 0 <= i < |ids[1..]| && ids[1..][i] == g by {
        if i :| 0 < i < |ids| && ids[i] == g { assert ids[1..][i - 1] == g; }
      }
      assert Eval(Const(ids[0]), ops, pre) == ids[0];
      assert Eval(Eq(guard, Const(ids[0])), ops, pre) == Flag(g == ids[0]);
    }
  }

  /** Executing the end state's assignments writes the slot exactly for the IDs the guard has. */
  lemma SlotWritten(base: seq<Assignment>, slot: Target, guard: Expr, ids: seq<nat>, value: Expr, ops: Ops, pre: Env,
      acc: Env)
    requires Untouched(base, slot)
    ensures Value(Apply(Copied(base, slot, guard, ids, value), ops, pre, acc), slot)
         == if exists i :: 0 <= i < |ids| && ids[i] == Eval(guard, ops, pre)
            then Eval(value, ops, pre) % Pow2(slot.width)
            else Value(acc, slot)
  {
    var mid := Apply(base, ops, pre, acc);
    UntouchedValue(base, slot, ops, pre, acc);
    if ids != [] {
      var last := When(slot, CasesOf(guard, ids, value));
      ApplyAppend(base, [last], ops, pre, acc);
      assert Apply([last], ops, pre, mid) == Perform(last, ops, pre, mid) by { assert [last][1..] == []; }
      CasesWrite(guard, ids, value, ops, pre);
      WriteRead(mid, slot, Eval(value, ops, pre));
    }
  }

  /** The registers after an edge of the whole engine are those after the worker's own assignments
      between the ones of the other workers. */
  lemma StepIsAfter(d: Design, c: Config, ops: Ops, outside: Env, w: nat, b: Bit)
    requires |c.at| == |d.workers| && w < |d.workers| && b.name !in d.inputs
    ensures var next := NextStates(d.workers, c.at, ops, c.env);
      Step(d, c, ops, outside).env[b] ==
      After(Effects(d.workers[..w], next[..w]), d.workers[w].At(next[w]).assigns,
        Effects(d.workers[w + 1..], next[w + 1..]), d.pulsing, ops, c.env)[b]
  {
    SplitEffects(d.workers, NextStates(d.workers, c.at, ops, c.env), w);
  }

  /** The slot is neither the return address nor read as part of the result. */
  ghost predicate SlotApart(base: seq<Assignment>, address: Target, slot: Target, result: Expr, value: Expr) {
    && AssignedOnce(base, address) && address.Whole? && Untouched(base, slot)
    && Overlaps(address, slot) == Apart && (forall t :: t in AllSignals(result) ==> Overlaps(t, slot) == Apart)
    && ForwardsTo(base, result, Some(value)) && (result.Sig? ==> WholeForWhole(base, result.target))
  }

  /** The state with the copy-out cases forwards the same. */
  lemma StillForwards(base: seq<Assignment>, slot: Target, guard: Expr, ids: seq<nat>, value: Expr, t: Target, e: Expr)
    requires Overlaps(t, slot) == Apart
    ensures Forwarded(Copied(base, slot, guard, ids, value), t, e) == Forwarded(base, t, e)
    ensures Untouched(base, t) ==> Untouched(Copied(base, slot, guard, ids, value), t)
    ensures WholeForWhole(base, t) ==> WholeForWhole(Copied(base, slot, guard, ids, value), t)
  {
    var own := Copied(base, slot, guard, ids, value);
    if ids != [] { assert own[..|own| - 1] == base; }
  }

  /** What holds after the edge into the end state: the guard says which ID the return address then is,
      and the forwarded value is the result then. */
  lemma GuardAndResult(before: seq<Assignment>, base: seq<Assignment>, later: seq<Assignment>, pulsing: set<string>,
      ops: Ops, pre: Env, address: Target, slot: Target, result: Expr, value: Expr, ids: seq<nat>)
    requires SlotApart(base, address, slot, result, value)
    requires OwnedHere(before, later, pulsing, AllSignals(result) + [address, slot])
    requires 0 <= Eval(GuardValue(base, address), ops, pre) < Pow2(address.width)
    requires result.Sig? ==> 0 <= Eval(value, ops, pre) < Pow2(result.target.width)
    ensures var after := After(before, Copied(base, slot, GuardValue(base, address), ids, value), later, pulsing, ops,
      pre);
      && Value(after, address) == Eval(GuardValue(base, address), ops, pre)
      && Eval(result, ops, after) == Eval(value, ops, pre)
  {
    hide After, Forwarded, Copied;
    var guard := GuardValue(base, address);
    var own := Copied(base, slot, guard, ids, value);
    GuardIsForwarded(base, address);
    StillForwards(base, slot, guard, ids, value, address, Sig(address));
    ForwardedSignalExact(before, own, later, pulsing, ops, pre, address);
    if result.Sig? {
      StillForwards(base, slot, guard, ids, value, result.target, result);
      ForwardedSignalExact(before, own, later, pulsing, ops, pre, result.target);
    } else {
      forall t | t in AllSignals(result) ensures Untouched(own, t) {
        StillForwards(base, slot, guard, ids, value, t, result);
      }
      ForwardedExpressionExact(before, own, later, pulsing, ops, pre, result);
    }
  }

  /** One edge of the whole engine into an end state with copy-out cases of the calls that share a slot:
      afterwards the slot holds the result exactly if the return address then is the ID of one of them,
      and otherwise what it held before. */
  lemma CopyOutExact(d: Design, c: Config, ops: Ops, outside: Env, w: nat, base: seq<Assignment>,
                     address: Target, slot: Target, result: Expr, value: Expr, ids: seq<nat>)
    requires |c.at| == |d.workers| && w < |d.workers| && SlotApart(base, address, slot, result, value)
    requires var ts, next := AllSignals(result) + [address, slot], NextStates(d.workers, c.at, ops, c.env);
      && (forall t :: t in ts ==> t.name !in d.inputs)
      && OwnedHere(Effects(d.workers[..w], next[..w]), Effects(d.workers[w + 1..], next[w + 1..]), d.pulsing, ts)
      && d.workers[w].At(next[w]).assigns == Copied(base, slot, GuardValue(base, address), ids, value)
    requires 0 <= Eval(GuardValue(base, address), ops, c.env) < Pow2(address.width)
    requires result.Sig? ==> 0 <= Eval(value, ops, c.env) < Pow2(result.target.width)
    ensures var after := Step(d, c, ops, outside).env;
      Value(after, slot) == if Value(after, address) in ids then Eval(result, ops, after) % Pow2(slot.width)
        else Value(c.env, slot)
  {
    hide Step, Apply, Copied, SlotApart;
    var ts, next := AllSignals(result) + [address, slot], NextStates(d.workers, c.at, ops, c.env);
    var before, later := Effects(d.workers[..w], next[..w]), Effects(d.workers[w + 1..], next[w + 1..]);
    var guard := GuardValue(base, address);
    var own := Copied(base, slot, guard, ids, value);
    var after, after2 := Step(d, c, ops, outside).env, After(before, own, later, d.pulsing, ops, c.env);
    forall t | t in ts ensures Value(after, t) == Value(after2, t) {
      forall b: Bit | t.Covers(b) ensures after[b] == after2[b] { StepIsAfter(d, c, ops, outside, w, b); }
      BitsValueAgrees(after, after2, t.name, t.Low(), t.width);
    }
    GuardAndResult(before, base, later, d.pulsing, ops, c.env, address, slot, result, value, ids);
    SlotAfter(before, base, later, d.pulsing, ops, c.env, ts, address, slot, result, value, ids);
    SameSignals(result, ops, after2, after);
  }

  lemma SlotAfter(before: seq<Assignment>, base: seq<Assignment>, later: seq<Assignment>, pulsing: set<string>,
      ops: Ops, pre: Env, ts: seq<Target>, address: Target, slot: Target, result: Expr, value: Expr, ids: seq<nat>)
    requires SlotApart(base, address, slot, result, value) && OwnedHere(before, later, pulsing, ts)
      && slot in ts
    ensures var guard := GuardValue(base, address);
      Value(After(before, Copied(base, slot, guard, ids, value), later, pulsing, ops, pre), slot)
      == if Eval(guard, ops, pre) >= 0 && (Eval(guard, ops, pre) as nat) in ids
         then Eval(value, ops, pre) % Pow2(slot.width)
         else Value(pre, slot)
  {
    var guard := GuardValue(base, address);
    var acc := OwnedValue(before, Copied(base, slot, guard, ids, value), later, pulsing, ops, pre, ts, slot);
    SlotWritten(base, slot, guard, ids, value, ops, pre, acc);
  }
}
