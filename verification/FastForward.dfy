/** Fast-forwarding: instead of a protective sync before a register is copied, the copy takes the
value the register is just being assigned. */
module FastForward {
  import opened Signals
  import opened Selectors
  import opened Cycle
  import SegmentModel

  datatype Overlap = Apart | Partial | Full

  /** `overlaps_with`. A whole signal overlaps fully with every slice of it, not partially. */
  function Overlaps(t: Target, u: Target): Overlap {
    if t.name != u.name then Apart
    else if t.Whole? then Full
    else if u.Whole? then Partial
    else if t.low == u.low && t.width == u.width then Full
    else if t.low + t.width <= u.low || u.low + u.width <= t.low then Apart
    else Partial
  }

  ghost predicate Shared(t: Target, u: Target) { exists b: Bit :: t.Covers(b) && u.Covers(b) }

  /** Slices of one signal are apart exactly if they share no bit, and overlap fully exactly if they are the same. A
      whole signal overlaps fully with all of its slices, and a slice only partially with the whole signal. */
  lemma OverlapsExactly(t: Target, u: Target)
    requires t.width >= 1 && u.width >= 1
    ensures t.name != u.name ==> Overlaps(t, u) == Apart && !Shared(t, u)
    ensures t.name == u.name && (t.Whole? || u.Whole?) ==> Overlaps(t, u) == if t.Whole? then Full else Partial
    ensures t.name == u.name && t.Slice? && u.Slice? ==>
              && (Overlaps(t, u) == Apart <==> !Shared(t, u))
              && (Overlaps(t, u) == Full <==> t == u)
  {
    if t.name == u.name && t.Slice? && u.Slice? {
      var b := Bit(t.name, if t.low < u.low then u.low else t.low);
      assert t.Covers(b) && u.Covers(b) <==> t.low < u.low + u.width && u.low < t.low + t.width;
    }
  }

  /** `extract_all_signals`. */
  function AllSignals(e: Expr): seq<Target> {
    match e
    case Const(_) => []
    case Sig(t) => [t]
    case Op(_, a, b) => AllSignals(a) + AllSignals(b)
    case Eq(a, b) => AllSignals(a) + AllSignals(b)
    case Any(a, b) => AllSignals(a) + AllSignals(b)
    case All(a, b) => AllSignals(a) + AllSignals(b)
    case Not(a) => AllSignals(a)
  }

  /** No assignment of the state touches the signal. */
  ghost predicate Untouched(assigns: seq<Assignment>, t: Target) {
    forall i :: 0 <= i < |assigns| ==> Overlaps(t, assigns[i].target) == Apart
  }

  /** The last assignment that touches the signal, all of them being unconditional and full; None
      if one is not. */
  function Forwarded(assigns: seq<Assignment>, t: Target, value: Expr): Option<Expr> {
    if assigns == [] then Some(value)
    else
      var last := assigns[|assigns| - 1];
      if Forwarded(assigns[..|assigns| - 1], t, value).None? then None
      else match Overlaps(t, last.target)
        case Apart => Forwarded(assigns[..|assigns| - 1], t, value)
        case Partial => None
        case Full => if last.Always? then Some(last.value) else None
  }

  /** What the forwarder returns for a value; None means that a sync is needed. */
  ghost predicate ForwardsTo(assigns: seq<Assignment>, value: Expr, result: Option<Expr>) {
    if value.Sig? then result == Forwarded(assigns, value.target, value)
    else result == if forall t :: t in AllSignals(value) ==> Untouched(assigns, t) then Some(value) else None
  }

  class FastForwarder {
    var needsSync: bool

    constructor ()
      ensures !needsSync
    {
      needsSync := false;
    }

    /** `__call__` with the assignments of the current state. */
    method Forward(assigns: seq<Assignment>, value: Expr) returns (result: Option<Expr>)
      modifies this
      ensures ForwardsTo(assigns, value, result)
      ensures needsSync == (old(needsSync) || result.None?)
    {
      var signals, forward := AllSignals(value), value;
      for i := 0 to |signals|
        invariant needsSync == old(needsSync)
        invariant value.Sig? && i == 0 ==> forward == value
        invariant value.Sig? && i > 0 ==> Forwarded(assigns, value.target, value) == Some(forward)
        invariant !value.Sig? ==> forward == value && forall j :: 0 <= j < i ==> Untouched(assigns, signals[j])
      {
        for k := 0 to |assigns|
          invariant needsSync == old(needsSync)
          invariant value.Sig? ==> Forwarded(assigns[..k], value.target, value) == Some(forward)
          invariant !value.Sig? ==> forward == value && Untouched(assigns[..k], signals[i])
        {
          assert assigns[..k + 1] == assigns[..k] + [assigns[k]];
          if Overlaps(signals[i], assigns[k].target) != Apart {
            if Overlaps(signals[i], assigns[k].target) == Partial || !assigns[k].Always? || !value.Sig? {
              needsSync := true;
              if value.Sig? {
                NeverForwarded(assigns, value.target, value, k + 1);
              } else {
                assert signals[i] in AllSignals(value) && !Untouched(assigns, signals[i]);
              }
              return None;
            }
            forward := assigns[k].value;
          }
        }
        assert assigns[..|assigns|] == assigns;
      }
      return Some(forward);
    }
  }

  lemma {:induction false} NeverForwarded(assigns: seq<Assignment>, t: Target, value: Expr, k: nat)
    requires k <= |assigns| && Forwarded(assigns[..k], t, value).None?
    ensures Forwarded(assigns, t, value).None?
    decreases |assigns|
  {
    if k < |assigns| {
      assert assigns[..|assigns| - 1][..k] == assigns[..k];
      NeverForwarded(assigns[..|assigns| - 1], t, value, k);
    } else {
      assert assigns[..k] == assigns;
    }
  }

  // ----- When the forwarded value is the value after the edge -----

  /** The registers after an edge on which the state's own assignments are executed between those
      of the other workers. */
  ghost function After(before: seq<Assignment>, own: seq<Assignment>, later: seq<Assignment>, pulsing: set<string>,
      ops: Ops, pre: Env): Env {
    Apply(before + own + later, ops, pre, ClearPulsing(pulsing, pre))
  }

  /** Single writer at this edge: the others do not touch these signals, and they do not pulse. */
  ghost predicate OwnedHere(before: seq<Assignment>, later: seq<Assignment>, pulsing: set<string>, ts: seq<Target>) {
    forall t :: t in ts ==> t.name !in pulsing && Untouched(before, t) && Untouched(later, t)
  }

  /** What touches the signal is assigned to exactly this signal or slice. */
  ghost predicate WholeForWhole(own: seq<Assignment>, t: Target) {
    forall i :: 0 <= i < |own| && Overlaps(t, own[i].target) != Apart ==> own[i].target == t
  }

  lemma {:induction false} ValueFits(env: Env, name: string, low: nat, width: nat)
    ensures BitsValue(env, name, low, width) < Pow2(width)
    decreases width
  {
    if width > 0 { ValueFits(env, name, low + 1, width - 1); }
  }

  /** Executing only the own assignments: an untouched signal keeps its bits ... */
  lemma {:induction false} UntouchedBit(own: seq<Assignment>, t: Target, ops: Ops, pre: Env, acc: Env, b: Bit)
    requires Untouched(own, t) && t.Covers(b)
    ensures Apply(own, ops, pre, acc)[b] == acc[b]
    decreases own
  {
    if own != [] {
      assert Overlaps(t, own[0].target) == Apart;
      assert forall i :: 0 <= i < |own[1..]| ==> own[1..][i] == own[i + 1];
      UntouchedBit(own[1..], t, ops, pre, Perform(own[0], ops, pre, acc), b);
    }
  }

  lemma UntouchedValue(own: seq<Assignment>, t: Target, ops: Ops, pre: Env, acc: Env)
    requires Untouched(own, t)
    ensures Value(Apply(own, ops, pre, acc), t) == Value(acc, t)
  {
    forall b: Bit | t.Covers(b)
      ensures Apply(own, ops, pre, acc)[b] == acc[b]
    {
      UntouchedBit(own, t, ops, pre, acc, b);
    }
    BitsValueAgrees(Apply(own, ops, pre, acc), acc, t.name, t.Low(), t.width);
  }

  /** ... and one assigned whole-for-whole holds the forwarded value, cut to its width. */
  lemma {:induction false} ForwardedValue(own: seq<Assignment>, t: Target, ops: Ops, pre: Env, acc: Env)
    requires WholeForWhole(own, t) && Value(acc, t) == Value(pre, t)
    ensures var e := Forwarded(own, t, Sig(t));
      e.Some? ==> Value(Apply(own, ops, pre, acc), t) == Eval(e.value, ops, pre) % Pow2(t.width)
    decreases |own|
  {
    if own == [] {
      ValueFits(pre, t.name, t.Low(), t.width);
      SmallMod(Value(pre, t), Pow2(t.width));
    } else {
      var init, last := own[..|own| - 1], own[|own| - 1];
      assert own == init + [last];
      ForwardedValue(init, t, ops, pre, acc);
      ApplyAppend(init, [last], ops, pre, acc);
      var mid := Apply(init, ops, pre, acc);
      if Overlaps(t, last.target) == Apart {
        UntouchedValue([last], t, ops, pre, mid);
      } else if last.Always? {
        assert Apply([last], ops, pre, mid) == Perform(last, ops, pre, mid) by { assert [last][1..] == []; }
        WriteRead(mid, t, Eval(last.value, ops, pre));
      }
    }
  }

  lemma FitsIff(x: int, m: nat)
    requires m >= 1
    ensures x == x % m <==> 0 <= x < m
  {}

  /** What the others write does not matter for an owned signal. */
  lemma OwnedValue(before: seq<Assignment>, own: seq<Assignment>, later: seq<Assignment>, pulsing: set<string>,
      ops: Ops, pre: Env, ts: seq<Target>, t: Target) returns (acc: Env)
    requires OwnedHere(before, later, pulsing, ts) && t in ts
    ensures Value(acc, t) == Value(pre, t)
    ensures Value(After(before, own, later, pulsing, ops, pre), t) == Value(Apply(own, ops, pre, acc), t)
    ensures forall b: Bit | t.Covers(b) ::
      After(before, own, later, pulsing, ops, pre)[b] == Apply(own, ops, pre, acc)[b]
  {
    var cleared := ClearPulsing(pulsing, pre);
    acc := Apply(before, ops, pre, cleared);
    var mid := Apply(own, ops, pre, acc);
    assert before + own + later == before + (own + later);
    ApplyAppend(before, own + later, ops, pre, cleared);
    ApplyAppend(own, later, ops, pre, acc);
    forall b: Bit | t.Covers(b) ensures acc[b] == pre[b] && Apply(later, ops, pre, mid)[b] == mid[b] {
      UntouchedBit(before, t, ops, pre, cleared, b);
      UntouchedBit(later, t, ops, pre, mid, b);
    }
    BitsValueAgrees(acc, pre, t.name, t.Low(), t.width);
    BitsValueAgrees(Apply(later, ops, pre, mid), mid, t.name, t.Low(), t.width);
  }

  /** A forwarded signal: the value evaluated before the edge is the signal's value after it
      exactly when it fits the signal. */
  lemma ForwardedSignalExact(before: seq<Assignment>, own: seq<Assignment>, later: seq<Assignment>,
      pulsing: set<string>, ops: Ops, pre: Env, t: Target)
    requires OwnedHere(before, later, pulsing, [t]) && WholeForWhole(own, t)
    ensures var e := Forwarded(own, t, Sig(t));
      e.Some? ==> (Eval(e.value, ops, pre) == Value(After(before, own, later, pulsing, ops, pre), t)
                   <==> 0 <= Eval(e.value, ops, pre) < Pow2(t.width))
  {
    var acc := OwnedValue(before, own, later, pulsing, ops, pre, [t], t);
    ForwardedValue(own, t, ops, pre, acc);
    var e := Forwarded(own, t, Sig(t));
    if e.Some? { FitsIff(Eval(e.value, ops, pre), Pow2(t.width)); }
  }

  /** Any other value is forwarded as it is, and only if nothing it reads changes. */
  lemma ForwardedExpressionExact(before: seq<Assignment>, own: seq<Assignment>, later: seq<Assignment>,
      pulsing: set<string>, ops: Ops, pre: Env, value: Expr)
    requires OwnedHere(before, later, pulsing, AllSignals(value)) && !value.Sig? && ForwardsTo(own, value, Some(value))
    ensures Eval(value, ops, After(before, own, later, pulsing, ops, pre)) == Eval(value, ops, pre)
  {
    var after := After(before, own, later, pulsing, ops, pre);
    forall t | t in AllSignals(value) ensures Value(after, t) == Value(pre, t) {
      var acc := OwnedValue(before, own, later, pulsing, ops, pre, AllSignals(value), t);
      UntouchedValue(own, t, ops, pre, acc);
    }
    SameSignals(value, ops, pre, after);
  }

  lemma {:induction false} SameSignals(e: Expr, ops: Ops, e1: Env, e2: Env)
    requires forall t :: t in AllSignals(e) ==> Value(e2, t) == Value(e1, t)
    ensures Eval(e, ops, e2) == Eval(e, ops, e1)
  {
    match e
    case Const(_) =>
    case Sig(t) => assert t in AllSignals(e);
    case Not(a) => SameSignals(a, ops, e1, e2);
    case Op(_, a, b) => SameSignals(a, ops, e1, e2); SameSignals(b, ops, e1, e2);
    case Eq(a, b) => SameSignals(a, ops, e1, e2); SameSignals(b, ops, e1, e2);
    case Any(a, b) => SameSignals(a, ops, e1, e2); SameSignals(b, ops, e1, e2);
    case All(a, b) => SameSignals(a, ops, e1, e2); SameSignals(b, ops, e1, e2);
  }

  // ----- A slice forwarded as the whole signal -----

  lemma {:induction false} SplitValue(env: Env, name: string, low: nat, w1: nat, w2: nat)
    ensures BitsValue(env, name, low, w1 + w2) ==
      BitsValue(env, name, low, w1) + Pow2(w1) * BitsValue(env, name, low + w1, w2)
    decreases w1
  {
    if w1 > 0 {
      SplitValue(env, name, low + 1, w1 - 1, w2);
      DoubleSum(BitsValue(env, name, low + 1, w1 - 1), Pow2(w1 - 1), BitsValue(env, name, low + w1, w2));
    }
  }

  lemma DoubleSum(x: nat, p: nat, y: nat)
    ensures 2 * (x + p * y) == 2 * x + (2 * p) * y
  {}

  lemma {:induction false} ZeroBits(env: Env, name: string, low: nat, width: nat)
    ensures BitsValue(env, name, low, width) == 0 <==> forall j: nat :: low <= j < low + width ==> !env[Bit(name, j)]
    decreases width
  {
    if width > 0 {
      ZeroBits(env, name, low + 1, width - 1);
      assert (forall j: nat :: low <= j < low + width ==> !env[Bit(name, j)])
        <==> !env[Bit(name, low)] && forall j: nat :: low + 1 <= j < low + 1 + (width - 1) ==> !env[Bit(name, j)];
    }
  }

  /** A number is its own sum of parts only if the other parts are 0 and it is not shifted. */
  lemma SameUnshifted(e: nat, lo: nat, hi: nat, p: nat, q: nat)
    requires p >= 1 && e < q && (p == 1 ==> lo == 0)
    ensures e == lo + p * (e + q * hi) <==> lo == 0 && hi == 0 && (p == 1 || e == 0)
  {
    if hi >= 1 {
      MulAtLeast(hi, q);
      MulAtLeast(p, e + q * hi);
    } else {
      assert q * hi == 0;
      if p >= 2 {
        MulAtLeast(p - 1, e);
        assert p * e == (p - 1) * e + e;
      }
    }
  }

  ghost predicate ZeroOutside(env: Env, t: Target, u: Target) {
    forall j: nat :: j < t.width && !u.Covers(Bit(t.name, j)) ==> !env[Bit(t.name, j)]
  }

  lemma SliceValue(env: Env, t: Target, u: Target, e: nat)
    requires t.Whole? && u.Slice? && u.name == t.name && u.low + u.width <= t.width && e < Pow2(u.width)
      && Value(env, u) == e
    ensures Value(env, t) == e <==> ZeroOutside(env, t, u) && (u.low == 0 || e == 0)
  {
    var n, low, w, rest := t.name, u.low, u.width, t.width - u.low - u.width;
    SplitValue(env, n, 0, low, w + rest);
    SplitValue(env, n, low, w, rest);
    var lo, hi := BitsValue(env, n, 0, low), BitsValue(env, n, low + w, rest);
    assert low > 0 ==> Pow2(low) == 2 * Pow2(low - 1);
    SameUnshifted(e, lo, hi, Pow2(low), Pow2(w));
    ZeroBits(env, n, 0, low);
    ZeroBits(env, n, low + w, rest);
    assert ZeroOutside(env, t, u) <==> lo == 0 && hi == 0 by {
      forall j: nat | j < t.width ensures u.Covers(Bit(n, j)) <==> low <= j < low + w {}
    }
  }

  /** The assignment that touches the signal last is the one that is forwarded. */
  lemma {:induction false} LastForwarded(own: seq<Assignment>, t: Target, k: nat)
    requires k < |own| && own[k].Always? && Overlaps(t, own[k].target) == Full && Untouched(own[k + 1..], t)
    requires Forwarded(own, t, Sig(t)).Some?
    ensures Forwarded(own, t, Sig(t)) == Some(own[k].value)
    decreases |own|
  {
    if k < |own| - 1 {
      var init := own[..|own| - 1];
      assert own[k + 1..][|own| - 1 - (k + 1)] == own[|own| - 1];
      assert init[k + 1..] == own[k + 1..][..|own| - 1 - (k + 1)];
      LastForwarded(init, t, k);
    }
  }

  /** The bits of the signal after its last assignment stay. */
  lemma AfterLast(own: seq<Assignment>, t: Target, k: nat, ops: Ops, pre: Env, acc: Env)
    requires k < |own| && own[k].Always? && Untouched(own[k + 1..], t)
    ensures var mid := Apply(own[..k], ops, pre, acc);
      forall b: Bit | t.Covers(b) ::
        Apply(own, ops, pre, acc)[b] == Write(mid, own[k].target, Eval(own[k].value, ops, pre))[b]
  {
    var head, tail := own[..k + 1], own[k + 1..];
    assert own == head + tail && head == own[..k] + [own[k]];
    ApplyAppend(head, tail, ops, pre, acc);
    ApplyAppend(own[..k], [own[k]], ops, pre, acc);
    var mid := Apply(own[..k], ops, pre, acc);
    assert Apply([own[k]], ops, pre, mid) == Perform(own[k], ops, pre, mid) by { assert [own[k]][1..] == []; }
    forall b: Bit | t.Covers(b) ensures Apply(own, ops, pre, acc)[b] == Apply(head, ops, pre, acc)[b] {
      UntouchedBit(tail, t, ops, pre, Apply(head, ops, pre, acc), b);
    }
  }

  /** A whole signal of which a slice is assigned last is forwarded as the value of the slice. If that fits
      the slice, it is the signal's value after the edge exactly if all other bits of the signal are 0 then
      and the slice starts at bit 0 (or the value is 0). */
  lemma SliceForwardedExactly(before: seq<Assignment>, own: seq<Assignment>, later: seq<Assignment>,
      pulsing: set<string>, ops: Ops, pre: Env, t: Target, k: nat)
    requires OwnedHere(before, later, pulsing, [t]) && t.Whole? && Forwarded(own, t, Sig(t)).Some?
    requires k < |own| && own[k].Always? && Untouched(own[k + 1..], t)
    requires own[k].target.Slice? && own[k].target.name == t.name && own[k].target.low + own[k].target.width <= t.width
    ensures Forwarded(own, t, Sig(t)) == Some(own[k].value)
    ensures var u, e, after := own[k].target, Eval(own[k].value, ops, pre),
      After(before, own, later, pulsing, ops, pre);
      0 <= e < Pow2(u.width) ==>
        (e == Value(after, t) <==> ZeroOutside(after, t, u) && (u.low == 0 || e == 0))
  {
    LastForwarded(own, t, k);
    var u, e, after := own[k].target, Eval(own[k].value, ops, pre), After(before, own, later, pulsing, ops, pre);
    var acc := OwnedValue(before, own, later, pulsing, ops, pre, [t], t);
    AfterLast(own, t, k, ops, pre, acc);
    var written := Write(Apply(own[..k], ops, pre, acc), u, e);
    WriteRead(Apply(own[..k], ops, pre, acc), u, e);
    forall b: Bit | u.Covers(b) ensures after[b] == written[b] {}
    BitsValueAgrees(after, written, u.name, u.low, u.width);
    if 0 <= e < Pow2(u.width) {
      SmallMod(e, Pow2(u.width));
      SliceValue(after, t, u, e);
    }
  }

  /** A whole signal at 2 of which bit 0 is set to 1: it is 3, and the forwarded value 1. */
  lemma SliceForwardedAsWhole(ops: Ops, pre: Env)
    requires Value(pre, Whole("a", 2)) == 2
    ensures var own := [Always(Slice("a", 0, 1), Const(1))];
      && ForwardsTo(own, Sig(Whole("a", 2)), Some(Const(1)))
      && Value(After([], own, [], {}, ops, pre), Whole("a", 2)) != 1
  {
    var own, t := [Always(Slice("a", 0, 1), Const(1))], Whole("a", 2);
    assert [] + own + [] == own && own[..0] == [] && own[1..] == [];
    assert Forwarded(own[..0], t, Sig(t)) == Some(Sig(t));
    SliceForwardedExactly([], own, [], {}, ops, pre, t, 0);
    assert Value(pre, t) ==
      (if pre[Bit("a", 0)] then 1 else 0) + 2 * ((if pre[Bit("a", 1)] then 1 else 0) + 2 * BitsValue(pre, "a", 2, 0));
    var acc := ClearPulsing({}, pre);
    assert After([], own, [], {}, ops, pre) == Write(acc, Slice("a", 0, 1), 1);
    assert After([], own, [], {}, ops, pre)[Bit("a", 1)] == pre[Bit("a", 1)];
    assert !Slice("a", 0, 1).Covers(Bit("a", 1));
  }

  // ----- The guard of a fast-forwarded result -----

  /** `get_fast_forward_return_address`: the value the end state itself assigns to the return
      address, or the return address. */
  function GuardSource(node: SegmentModel.Node): SegmentModel.Source {
    match node.address
    case Some(v) => v
    case None => SegmentModel.FromAddress
  }

  ghost predicate RegsFit(r: SegmentModel.Regs, width: nat) {
    r.address < Pow2(width) && forall f: SegmentModel.Impl :: r.backup[f] < Pow2(width)
  }

  lemma EnterFits(node: SegmentModel.Node, r: SegmentModel.Regs, width: nat)
    requires RegsFit(r, width)
    ensures RegsFit(SegmentModel.Enter(node, r, width), width)
    ensures (GuardSource(node).Id? ==> GuardSource(node).n < Pow2(width)) ==>
      SegmentModel.Read(GuardSource(node), r) == SegmentModel.Enter(node, r, width).address
  {
    var v := SegmentModel.Read(GuardSource(node), r);
    if v < Pow2(width) { SmallMod(v, Pow2(width)); }
  }

  lemma {:induction false} RunFits(p: SegmentModel.Program, backup: SegmentModel.Backups, other: nat -> nat -> bool,
      n: nat)
    requires RegsFit(SegmentModel.Regs(0, backup), p.width)
    ensures RegsFit(SegmentModel.Run(p, backup, other, n).regs, p.width)
  {
    if n > 0 {
      RunFits(p, backup, other, n - 1);
      var m := SegmentModel.Run(p, backup, other, n - 1);
      var t := SegmentModel.Goto(p.At(m.at).jumps, m.at, m.regs.address, other(n - 1));
      EnterFits(p.At(t), m.regs, p.width);
    }
  }

  /** In every cycle of every run: the guard `guard == id`, evaluated before the edge into a state, holds
      exactly when `return_address == id` holds after it, also if the state itself pushes an ID that fits. */
  lemma GuardHoldsAhead(p: SegmentModel.Program, backup: SegmentModel.Backups, other: nat -> nat -> bool, n: nat,
      id: nat)
    requires RegsFit(SegmentModel.Regs(0, backup), p.width)
    ensures var m, m2 := SegmentModel.Run(p, backup, other, n), SegmentModel.Run(p, backup, other, n + 1);
      (GuardSource(p.At(m2.at)).Id? ==> GuardSource(p.At(m2.at)).n < Pow2(p.width)) ==>
        (SegmentModel.Read(GuardSource(p.At(m2.at)), m.regs) == id <==> m2.regs.address == id)
  {
    RunFits(p, backup, other, n);
    var m := SegmentModel.Run(p, backup, other, n);
    EnterFits(p.At(SegmentModel.Run(p, backup, other, n + 1).at), m.regs, p.width);
  }
}
