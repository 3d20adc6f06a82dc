/** The scratch allocator: first-fit allocation of bits on a scratch pad shared by threads, where
whether a signal counts as released depends on the thread that asks. */
module Scratch {
  import opened Selectors

  // ----- Threads -----

  /** Threads in the order of their creation; a thread's parent was created before it. */
  datatype Thread = Thread(parent: Option<nat>, active: bool)

  predicate Family(threads: seq<Thread>) {
    && |threads| >= 1 && threads[0] == Thread(None, true)
    && forall t :: 1 <= t < |threads| ==> threads[t].parent.Some? && threads[t].parent.value < t
  }

  /** The ancestors of a thread. */
  function CallStack(threads: seq<Thread>, t: nat): seq<nat>
    requires Family(threads) && t < |threads|
    decreases t
  {
    if threads[t].parent.None? || t == 0 then []
    else [threads[t].parent.value] + CallStack(threads, threads[t].parent.value)
  }

  /** Whether thread t is running, as the current thread sees it. */
  predicate Running(threads: seq<Thread>, t: nat, asker: nat)
    requires Family(threads) && t < |threads| && asker < |threads|
  {
    if threads[t].parent == Some(asker) then threads[t].active
    else
      || threads[t].active
      || exists a :: a in CallStack(threads, t) && a !in CallStack(threads, asker) && a < |threads| && threads[a].active
  }

  // ----- Signals -----

  /** `depth` counts the contexts (conditions and loops) entered since the signal was created, until it is
      released. */
  datatype Signal = Signal(start: nat, width: nat, owner: nat, released: bool, depth: int, counting: bool) {
    predicate Covers(b: nat) { start <= b < start + width }

    function Freed(): Signal { this.(released := true, counting := false) }
  }

  function NewSignal(start: nat, width: nat, owner: nat): Signal { Signal(start, width, owner, false, 0, true) }

  /** To its owner a signal is released when it was released, to others when its owner has ended. */
  predicate Released(threads: seq<Thread>, s: Signal, asker: nat)
    requires Family(threads) && s.owner < |threads| && asker < |threads|
  {
    if s.owner != asker then !Running(threads, s.owner, asker) else s.released
  }

  /** What a context that begins or ends does to a signal. */
  function InContext(s: Signal, enter: bool, current: nat): Signal {
    if !s.counting then s
    else if enter then s.(depth := s.depth + 1)
    else if s.depth == 0 && s.owner == current then s.Freed()
    else s.(depth := s.depth - 1)
  }

  /** The signal after contexts begin (true) and end (false) in the owner's thread. */
  function Nested(s: Signal, steps: seq<bool>): Signal
    decreases |steps|
  {
    if steps == [] then s else InContext(Nested(s, steps[..|steps| - 1]), steps[|steps| - 1], s.owner)
  }

  function Level(steps: seq<bool>): int {
    if steps == [] then 0 else Level(steps[..|steps| - 1]) + if steps[|steps| - 1] then 1 else -1
  }

  /** A signal can be used as long as the context where it was created has not ended, and is released on its
      own when that ends; in between, its owner can release it exactly in that context. */
  lemma {:induction false} ReleasedWithContext(s: Signal, steps: seq<bool>)
    requires s.counting && !s.released && s.depth == 0
    ensures Nested(s, steps).owner == s.owner
    ensures (forall k :: 0 <= k <= |steps| ==> Level(steps[..k]) >= 0)
      ==> !Nested(s, steps).released && Nested(s, steps).counting && Nested(s, steps).depth == Level(steps)
    ensures !(forall k :: 0 <= k <= |steps| ==> Level(steps[..k]) >= 0) ==>
      Nested(s, steps).released && !Nested(s, steps).counting
    decreases |steps|
  {
    assert steps[..|steps|] == steps;
    if steps != [] {
      var init := steps[..|steps| - 1];
      ReleasedWithContext(s, init);
      assert forall k :: 0 <= k <= |init| ==> init[..k] == steps[..k];
      if forall k :: 0 <= k <= |init| ==> Level(init[..k]) >= 0 {
        assert forall k :: 0 <= k < |steps| ==> Level(steps[..k]) >= 0;
      } else {
        var k :| 0 <= k <= |init| && Level(init[..k]) < 0;
        assert Level(steps[..k]) < 0;
      }
    }
  }

  /** Not released by its owner, who is active. */
  predicate Alive(threads: seq<Thread>, s: Signal) {
    !s.released && s.owner < |threads| && threads[s.owner].active
  }

  predicate Apart(s: Signal, t: Signal) { s.start + s.width <= t.start || t.start + t.width <= s.start }

  /** Whoever asks, a live signal is not released. */
  lemma AliveIsUsed(threads: seq<Thread>, s: Signal, asker: nat)
    requires Family(threads) && asker < |threads| && s.owner < |threads| && threads[s.owner].active && !s.released
    ensures !Released(threads, s, asker)
  {}

  /** The answer does depend on who asks: a signal its owner has released is still in use to others
      while the owner runs. */
  lemma AnswersDiffer(threads: seq<Thread>, s: Signal, asker: nat)
    requires Family(threads) && asker < |threads| && s.owner < |threads| && s.owner != asker
      && threads[s.owner].active && s.released
    ensures Released(threads, s, s.owner) && !Released(threads, s, asker)
  {}

  // ----- Ancestors -----

  /** From t to its parent, to the parent of that, and so on up to a. */
  ghost predicate Line(threads: seq<Thread>, p: seq<nat>, t: nat, a: nat) {
    && |p| >= 2 && p[0] == t && p[|p| - 1] == a
    && forall i :: 0 <= i < |p| - 1 ==> p[i] < |threads| && threads[p[i]].parent == Some(p[i + 1])
  }

  ghost predicate Ancestor(threads: seq<Thread>, a: nat, t: nat) { exists p :: Line(threads, p, t, a) }

  lemma LineStart(threads: seq<Thread>, p: seq<nat>, t: nat, a: nat)
    requires Line(threads, p, t, a)
    ensures t < |threads| && threads[t].parent == Some(p[1])
  {
    assert p[0 + 1] == p[1];
  }

  lemma LineMore(threads: seq<Thread>, p: seq<nat>, t: nat, up: nat, a: nat)
    requires Line(threads, p, up, a) && t < |threads| && threads[t].parent == Some(up)
    ensures Line(threads, [t] + p, t, a)
  {
    var q := [t] + p;
    assert q[|q| - 1] == a;
    forall i | 0 <= i < |q| - 1 ensures q[i] < |threads| && threads[q[i]].parent == Some(q[i + 1]) {
      assert q[i + 1] == p[i];
    }
  }

  lemma {:induction false} CallStackIsAncestors(threads: seq<Thread>, t: nat, a: nat)
    requires Family(threads) && t < |threads|
    ensures a in CallStack(threads, t) <==> Ancestor(threads, a, t)
    ensures Ancestor(threads, a, t) ==> a < t
    decreases t
  {
    if t != 0 {
      var up := threads[t].parent.value;
      CallStackIsAncestors(threads, up, a);
      if a == up {
        assert Line(threads, [t, up], t, a);
      } else if Ancestor(threads, a, up) {
        var p :| Line(threads, p, up, a);
        LineMore(threads, p, t, up, a);
      }
      if Ancestor(threads, a, t) && a != up {
        var p :| Line(threads, p, t, a);
        assert p[1] == up;
        assert Line(threads, p[1..], up, a);
      }
    } else {
      forall p ensures !Line(threads, p, t, a) {
        if Line(threads, p, t, a) { LineStart(threads, p, t, a); }
      }
    }
  }

  /** A thread's signals are in use to another one while it is active itself, or while some active ancestor of it
      is not an ancestor of the asking thread as well, unless that is its parent. */
  ghost predicate InUse(threads: seq<Thread>, owner: nat, asker: nat)
    requires owner < |threads|
  {
    || threads[owner].active
    || (threads[owner].parent != Some(asker) && exists a: nat {:trigger Ancestor(threads, a, owner)} ::
          a < |threads| && threads[a].active && Ancestor(threads, a, owner) && !Ancestor(threads, a, asker))
  }

  /** Who still uses a signal, as a thread sees it: to its owner it is released when it was released. */
  lemma ReleasedExactly(threads: seq<Thread>, s: Signal, asker: nat)
    requires Family(threads) && asker < |threads| && s.owner < |threads|
    ensures asker == s.owner ==> (Released(threads, s, asker) <==> s.released)
    ensures asker != s.owner ==> (Released(threads, s, asker) <==> !InUse(threads, s.owner, asker))
  {
    forall a: nat
      ensures a in CallStack(threads, s.owner) <==> Ancestor(threads, a, s.owner)
      ensures a in CallStack(threads, asker) <==> Ancestor(threads, a, asker)
    {
      CallStackIsAncestors(threads, s.owner, a);
      CallStackIsAncestors(threads, asker, a);
    }
  }

  // ----- Free windows -----

  predicate FreeAt(smap: seq<bool>, p: nat, width: nat) {
    p + width <= |smap| && forall b :: p <= b < p + width ==> !smap[b]
  }

  /** The least start of a free window. */
  predicate LeastFree(smap: seq<bool>, p: nat, width: nat) {
    FreeAt(smap, p, width) && forall q :: 0 <= q < p ==> !FreeAt(smap, q, width)
  }

  datatype Stretch = Stretch(used: bool, length: nat)

  function Total(runs: seq<Stretch>): nat {
    if runs == [] then 0 else Total(runs[..|runs| - 1]) + runs[|runs| - 1].length
  }

  /** Run k covers its part of the map. */
  ghost predicate Describes(smap: seq<bool>, runs: seq<Stretch>, k: nat)
    requires k < |runs|
  {
    && runs[k].length >= 1 && Total(runs[..k]) + runs[k].length <= |smap|
    && forall b :: Total(runs[..k]) <= b < Total(runs[..k]) + runs[k].length ==> smap[b] == runs[k].used
  }

  /** A run-length encoding: the runs cover the map and neighbours differ. */
  ghost predicate Encodes(smap: seq<bool>, runs: seq<Stretch>) {
    && Total(runs) == |smap|
    && (forall k: nat {:trigger Describes(smap, runs, k)} :: k < |runs| ==> Describes(smap, runs, k))
    && (forall k :: 0 <= k < |runs| - 1 ==> runs[k].used != runs[k + 1].used)
  }

  method Encode(smap: seq<bool>) returns (runs: seq<Stretch>)
    ensures Encodes(smap, runs)
  {
    runs := [];
    var i := 0;
    while i < |smap|
      invariant 0 <= i <= |smap| && Encodes(smap[..i], runs)
      invariant i == 0 ==> runs == []
      invariant 0 < i < |smap| ==> runs != [] && runs[|runs| - 1].used != smap[i]
    {
      var j := i + 1;
      while j < |smap| && smap[j] == smap[i]
        invariant i < j <= |smap| && forall b :: i <= b < j ==> smap[b] == smap[i]
      {
        j := j + 1;
      }
      EncodesMore(smap, i, j, runs);
      runs := runs + [Stretch(smap[i], j - i)];
      i := j;
    }
    assert smap[..|smap|] == smap;
  }

  lemma EncodesMore(smap: seq<bool>, i: nat, j: nat, runs: seq<Stretch>)
    requires i < j <= |smap| && Encodes(smap[..i], runs) && forall b :: i <= b < j ==> smap[b] == smap[i]
    requires runs != [] ==> runs[|runs| - 1].used != smap[i]
    ensures Encodes(smap[..j], runs + [Stretch(smap[i], j - i)])
  {
    var more := runs + [Stretch(smap[i], j - i)];
    assert more[..|runs|] == runs;
    forall k: nat {:trigger Describes(smap[..j], more, k)} | k < |more| ensures Describes(smap[..j], more, k) {
      if k < |runs| {
        assert Describes(smap[..i], runs, k) && more[..k] == runs[..k];
      }
    }
  }

  /** Looking for a fitting run in turn. */
  method FirstFit(smap: seq<bool>, runs: seq<Stretch>, width: nat) returns (position: Option<nat>)
    requires Encodes(smap, runs) && width >= 1
    ensures position.Some? ==> LeastFree(smap, position.value, width)
    ensures position.None? ==> forall q: nat :: !FreeAt(smap, q, width)
  {
    var p := 0;
    for k := 0 to |runs|
      invariant p == Total(runs[..k])
      invariant forall q :: 0 <= q < p ==> !FreeAt(smap, q, width)
    {
      assert Describes(smap, runs, k);
      assert runs[..k + 1][..k] == runs[..k];
      if !runs[k].used && runs[k].length >= width { return Some(p); }
      TooShort(smap, runs, width, k);
      p := p + runs[k].length;
    }
    assert runs[..|runs|] == runs;
    position := None;
  }

  /** No window starts in a used run or in a free one that is too short. */
  lemma TooShort(smap: seq<bool>, runs: seq<Stretch>, width: nat, k: nat)
    requires Encodes(smap, runs) && k < |runs| && (runs[k].used || runs[k].length < width)
    ensures forall q ::
      Total(runs[..k]) <= q < Total(runs[..k]) + runs[k].length ==> width >= 1 ==> !FreeAt(smap, q, width)
  {
    var p, end := Total(runs[..k]), Total(runs[..k]) + runs[k].length;
    assert Describes(smap, runs, k);
    assert runs[..k + 1][..k] == runs[..k];
    assert Total(runs[..k + 1]) == end;
    if k + 1 < |runs| {
      assert Describes(smap, runs, k + 1);
      assert !runs[k].used ==> smap[end];
    } else {
      assert runs[..k + 1] == runs;
    }
    forall q | p <= q < end && width >= 1 ensures !FreeAt(smap, q, width) {
      if runs[k].used { assert smap[q]; }
    }
  }

  // ----- A memory zone -----

  /** The bit belongs to a signal that is not released to the asking thread. */
  ghost predicate UsedBit(threads: seq<Thread>, signals: seq<Signal>, asker: nat, b: nat)
    requires Family(threads) && asker < |threads| && forall i :: 0 <= i < |signals| ==> signals[i].owner < |threads|
  {
    exists i :: 0 <= i < |signals| && !Released(threads, signals[i], asker) && signals[i].Covers(b)
  }

  ghost predicate FreeWindow(threads: seq<Thread>, signals: seq<Signal>, asker: nat, pad: nat, p: nat, width: nat)
    requires Family(threads) && asker < |threads| && forall i :: 0 <= i < |signals| ==> signals[i].owner < |threads|
  {
    p + width <= pad && forall b: nat :: p <= b < p + width ==> !UsedBit(threads, signals, asker, b)
  }

  /** A bit counts as used exactly if it belongs to a signal of the asking thread itself that it has not released,
      or to any signal of another thread that is in use. */
  lemma UsedExactly(threads: seq<Thread>, signals: seq<Signal>, asker: nat, b: nat)
    requires Family(threads) && asker < |threads| && forall i :: 0 <= i < |signals| ==> signals[i].owner < |threads|
    ensures UsedBit(threads, signals, asker, b) <==>
            exists i :: 0 <= i < |signals| && signals[i].start <= b < signals[i].start + signals[i].width
              && if signals[i].owner == asker then !signals[i].released else InUse(threads, signals[i].owner, asker)
  {
    forall i | 0 <= i < |signals|
      ensures !Released(threads, signals[i], asker) <==>
              if signals[i].owner == asker then !signals[i].released else InUse(threads, signals[i].owner, asker)
    {
      ReleasedExactly(threads, signals[i], asker);
    }
  }

  /** All signals lie on the pad, and live ones do not overlap. */
  ghost predicate ViewOk(threads: seq<Thread>, signals: seq<Signal>, pad: nat) {
    && (forall i ::
      0 <= i < |signals| ==>
        signals[i].owner < |threads| && signals[i].width >= 1 && signals[i].start + signals[i].width <= pad)
    && (forall i, j ::
      0 <= i < j < |signals| && Alive(threads, signals[i]) && Alive(threads, signals[j]) ==>
        Apart(signals[i], signals[j]))
  }

  /** No bit of the pad belongs to two live signals of a view. */
  lemma NoSharedBit(threads: seq<Thread>, signals: seq<Signal>, pad: nat, i: nat, j: nat, b: nat)
    requires ViewOk(threads, signals, pad) && i < |signals| && j < |signals| && i != j
    requires forall k :: k == i || k == j ==> !signals[k].released && threads[signals[k].owner].active
    requires signals[i].start <= b < signals[i].start + signals[i].width
    ensures b < pad && !(signals[j].start <= b < signals[j].start + signals[j].width)
  {
    assert Alive(threads, signals[i]) && Alive(threads, signals[j]);
    if i < j { assert Apart(signals[i], signals[j]); } else { assert Apart(signals[j], signals[i]); }
  }

  function Widths(signals: seq<Signal>): nat {
    if signals == [] then 0 else Widths(signals[..|signals| - 1]) + signals[|signals| - 1].width
  }

  function AllWidths(views: seq<seq<Signal>>): nat {
    if views == [] then 0 else AllWidths(views[..|views| - 1]) + Widths(views[|views| - 1])
  }

  /** Threads may end and signals be released; neither makes a signal live. */
  ghost predicate OnlyEnds(threads: seq<Thread>, threads2: seq<Thread>) {
    && |threads| <= |threads2|
    && forall t ::
      0 <= t < |threads| ==> threads2[t].parent == threads[t].parent && (threads2[t].active ==> threads[t].active)
  }

  ghost predicate OnlyReleases(signals: seq<Signal>, signals2: seq<Signal>) {
    && |signals2| == |signals|
    && forall i :: 0 <= i < |signals| ==>
         && signals2[i].start == signals[i].start && signals2[i].width == signals[i].width
           && signals2[i].owner == signals[i].owner
         && (signals[i].released ==> signals2[i].released)
  }

  lemma {:induction false} SameWidths(signals: seq<Signal>, signals2: seq<Signal>)
    requires OnlyReleases(signals, signals2)
    ensures Widths(signals2) == Widths(signals)
    decreases |signals|
  {
    if signals != [] { SameWidths(signals[..|signals| - 1], signals2[..|signals| - 1]); }
  }

  lemma {:induction false} AllWidthsUpdate(views: seq<seq<Signal>>, v: nat, signals: seq<Signal>)
    requires v < |views|
    ensures AllWidths(views[v := signals]) == AllWidths(views) - Widths(views[v]) + Widths(signals)
    decreases |views|
  {
    var init, views2 := views[..|views| - 1], views[v := signals];
    if v < |views| - 1 {
      AllWidthsUpdate(init, v, signals);
      assert views2[..|views| - 1] == init[v := signals];
    } else {
      assert views2[..|views| - 1] == init;
    }
  }

  /** A new signal in a free window is apart from every live one. */
  lemma WindowApart(threads: seq<Thread>, signals: seq<Signal>, asker: nat, pad: nat, p: nat, width: nat, i: nat)
    requires Family(threads) && asker < |threads| && ViewOk(threads, signals, pad) && width >= 1
    requires FreeWindow(threads, signals, asker, pad, p, width) && i < |signals| && Alive(threads, signals[i])
    ensures Apart(signals[i], NewSignal(p, width, asker))
  {
    var s := signals[i];
    AliveIsUsed(threads, s, asker);
    var b := if s.start < p then p else s.start;
    if s.Covers(b) && p <= b < p + width { assert UsedBit(threads, signals, asker, b); }
  }

  lemma ViewGrows(threads: seq<Thread>, signals: seq<Signal>, asker: nat, pad: nat, p: nat, width: nat)
    requires Family(threads) && asker < |threads| && ViewOk(threads, signals, pad) && width >= 1
    requires FreeWindow(threads, signals, asker, pad, p, width)
    ensures ViewOk(threads, signals + [NewSignal(p, width, asker)], pad)
    ensures Widths(signals + [NewSignal(p, width, asker)]) == Widths(signals) + width
  {
    var s, grown := NewSignal(p, width, asker), signals + [NewSignal(p, width, asker)];
    assert grown[..|signals|] == signals;
    forall i, j | 0 <= i < j < |grown| && Alive(threads, grown[i]) && Alive(threads, grown[j])
      ensures Apart(grown[i], grown[j]) {
      if j == |signals| { WindowApart(threads, signals, asker, pad, p, width, i); }
    }
  }

  /** Thread x is t or was spawned, directly or not, by it. */
  predicate Descends(threads: seq<Thread>, x: nat, t: nat)
    requires Family(threads) && x < |threads|
  {
    x == t || t in CallStack(threads, x)
  }

  /** One zone with its views, and the threads of the engine. The zone need not be the active one:
      joining a thread releases its signals only in the active zone. */
  class MemoryZone {
    var threads: seq<Thread>
    var current: nat
    var width: nat
    var views: seq<seq<Signal>>
    var view: nat

    ghost predicate Sound()
      reads this
    {
      && Family(threads) && current < |threads| && view < |views|
      && forall v :: 0 <= v < |views| ==> ViewOk(threads, views[v], width)
    }

    /** ... and the pad is no wider than all signals ever created side by side. */
    ghost predicate Valid()
      reads this
    {
      Sound() && width <= AllWidths(views)
    }

    constructor ()
      ensures Valid() && threads == [Thread(None, true)] && width == 0 && views == [[]] && view == 0
    {
      threads, current, width, views, view := [Thread(None, true)], 0, 0, [[]], 0;
    }

    ghost predicate RoomFor(w: nat)
      requires Sound()
      reads this
    {
      exists p: nat :: FreeWindow(threads, views[view], current, width, p, w)
    }

    /** `scratch_map`. */
    method ScratchMap() returns (result: seq<bool>)
      requires Sound()
      ensures |result| == width
      ensures forall b: nat :: b < width ==> (result[b] <==> UsedBit(threads, views[view], current, b))
    {
      var smap := new bool[width](_ => false);
      var signals := views[view];
      for i := 0 to |signals|
        invariant forall b: nat :: b < width ==> (smap[b] <==> UsedBit(threads, signals[..i], current, b))
      {
        ghost var before := smap[..];
        if !Released(threads, signals[i], current) {
          for b := signals[i].start to signals[i].start + signals[i].width
            invariant forall c: nat :: c < width ==> smap[c] == (before[c] || signals[i].start <= c < b)
          {
            smap[b] := true;
          }
        }
      }
      assert signals[..|signals|] == signals;
      result := smap[..];
    }

    /** `alloc`: the least start of a free window; the pad grows by the width, once, if there is none. */
    method Alloc(w: nat) returns (position: nat)
      requires Sound() && w >= 1
      modifies this`width
      ensures Sound()
      ensures width == old(width) + if old(RoomFor(w)) then 0 else w
      ensures FreeWindow(threads, views[view], current, width, position, w)
      ensures forall q: nat :: q < position ==> !FreeWindow(threads, views[view], current, width, q, w)
      decreases if RoomFor(w) then 0 else 1
    {
      var smap := ScratchMap();
      var runs := Encode(smap);
      var fit := FirstFit(smap, runs, w);
      forall q: nat ensures FreeAt(smap, q, w) <==> FreeWindow(threads, views[view], current, width, q, w) {
      }
      if fit.Some? { return fit.value; }
      assert !RoomFor(w);
      ghost var end := width;
      forall v | 0 <= v < |views| ensures ViewOk(threads, views[v], width + w) {
      }
      width := width + w;
      assert RoomFor(w) by { assert FreeWindow(threads, views[view], current, width, end, w); }
      position := Alloc(w);
    }

    /** `create_signal`. */
    method CreateSignal(w: int) returns (position: Option<nat>)
      requires Valid()
      modifies this`width, this`views
      ensures Valid() && position.Some? == (w >= 1)
      ensures w < 1 ==> width == old(width) && views == old(views)
      ensures w >= 1 ==>
        views == old(views)[view := old(views)[view] + [Signal(position.value, w, current, false, 0, true)]]
      ensures old(width) <= width <= old(width) + if w >= 1 then w else 0
      ensures w >= 1 ==> FreeWindow(threads, old(views)[view], current, width, position.value, w)
    {
      if w < 1 { return None; }
      var p := Alloc(w);
      ViewGrows(threads, views[view], current, width, p, w);
      AllWidthsUpdate(views, view, views[view] + [NewSignal(p, w, current)]);
      views := views[view := views[view] + [NewSignal(p, w, current)]];
      position := Some(p);
    }

    /** `release`, by the owner and in the context where the signal was created only. */
    method Release(i: nat) returns (ok: bool)
      requires Valid() && i < |views[view]|
      modifies this`views
      ensures Valid() && ok == (old(views)[view][i].owner == current && old(views)[view][i].depth == 0)
      ensures views == if ok then
        old(views)[view := old(views)[view][i := old(views)[view][i].(released := true, counting := false)]]
        else old(views)
    {
      ok := views[view][i].owner == current && views[view][i].depth == 0;
      if ok {
        var signals := views[view][i := views[view][i].Freed()];
        Rereleased(threads, threads, views, view, signals, width);
        views := views[view := signals];
      }
    }

    /** `enter_context` and `exit_context`, if this is the active zone: a condition or a loop begins or ends. */
    method Context(enter: bool)
      requires Valid()
      modifies this`views
      ensures Valid() && |views| == |old(views)| && |views[view]| == |old(views)[view]|
      ensures forall i :: 0 <= i < |views[view]| ==> views[view][i] == InContext(old(views)[view][i], enter, current)
      ensures forall v :: 0 <= v < |views| && v != view ==> views[v] == old(views)[v]
    {
      var now, signals := views[view], views[view];
      for i := 0 to |now|
        invariant |signals| == |now|
        invariant forall k ::
          0 <= k < |now| ==> signals[k] == if k < i then InContext(now[k], enter, current) else now[k]
      {
        var s := signals[i];
        if s.counting {
          if enter {
            s := s.(depth := s.depth + 1);
          } else {
            s := s.(depth := s.depth - 1);
            if s.depth == -1 && s.owner == current { s := s.(depth := 0).Freed(); }
          }
        }
        signals := signals[i := s];
      }
      Rereleased(threads, threads, views, view, signals, width);
      views := views[view := signals];
    }

    /** The start of a fork: a new thread, which becomes the current one. */
    method Fork() returns (t: nat)
      requires Valid()
      modifies this`threads, this`current
      ensures Valid() && t == |old(threads)| == current && threads == old(threads) + [Thread(Some(old(current)), true)]
    {
      t := |threads|;
      ghost var before := threads;
      threads, current := threads + [Thread(Some(current), true)], t;
      forall v | 0 <= v < |views| ensures ViewOk(threads, views[v], width) { }
    }

    /** Another thread is assembled from here on. */
    method Switch(t: nat)
      requires Valid() && t < |threads|
      modifies this`current
      ensures Valid() && current == t
    {
      current := t;
    }

    /** `force_release_signals_by_thread`, if this is the active zone. */
    method ForceRelease(t: nat, activeZone: bool)
      requires Valid()
      modifies this`views
      ensures Valid()
      ensures views == if activeZone then old(views)[view := ReleasedBy(old(views)[view], t)] else old(views)
    {
      if activeZone {
        var signals := views[view];
        for i := 0 to |signals|
          invariant |signals| == |views[view]|
          invariant forall k :: 0 <= k < |signals| ==>
            signals[k] == if k < i && views[view][k].owner == t then views[view][k].Freed() else views[view][k]
        {
          if signals[i].owner == t { signals := signals[i := signals[i].Freed()]; }
        }
        assert signals == ReleasedBy(views[view], t);
        Rereleased(threads, threads, views, view, signals, width);
        views := views[view := signals];
      }
    }

    /** `join`. */
    method Join(t: nat, activeZone: bool) returns (ok: bool)
      requires Valid() && t < |threads|
      modifies this`threads, this`views
      ensures Valid() && ok == (t != 0)
      ensures !ok ==> threads == old(threads) && views == old(views)
      ensures ok ==> threads == old(threads)[t := old(threads)[t].(active := false)]
      ensures ok ==> views == if activeZone then old(views)[view := ReleasedBy(old(views)[view], t)] else old(views)
    {
      ok := t != 0;
      if ok {
        ghost var before := threads;
        threads := threads[t := threads[t].(active := false)];
        forall v | 0 <= v < |views| ensures ViewOk(threads, views[v], width) { }
        ForceRelease(t, activeZone);
      }
    }

    /** `cancel`: the spawned threads first, then the thread itself. The main thread has no reset, so
        only its descendants are cancelled before the error. */
    method Cancel(t: nat, activeZone: bool) returns (ok: bool)
      requires Valid() && t < |threads|
      modifies this`threads, this`views
      ensures Valid() && ok == (t != 0) && Ended(old(threads), threads, old(views), views, view, activeZone)
      ensures forall x ::
        0 <= x < |threads| ==>
          threads[x].active == (old(threads)[x].active && !(x != 0 && Descends(old(threads), x, t)))
      ensures forall i :: 0 <= i < |views[view]| ==>
        var s := old(views)[view][i];
        views[view][i].released == (s.released || (activeZone && s.owner != 0 && Descends(old(threads), s.owner, t)))
      decreases |threads| - t
    {
      hide Descends, Through, CallStack, ViewOk, AllWidths;
      ghost var before, beforeViews := threads, views;
      NoChildYet(threads, t, t + 1);
      OwnersOk(threads, views[view], width);
      for c := t + 1 to |threads|
        invariant Valid() && Ended(before, threads, beforeViews, views, view, activeZone)
        invariant forall x ::
          0 <= x < |threads| ==> threads[x].active == (before[x].active && !Through(before, x, t, c))
        invariant forall i :: 0 <= i < |views[view]| ==>
          var s := beforeViews[view][i];
          views[view][i].released == (s.released || (activeZone && Through(before, s.owner, t, c)))
      {
        ghost var now := threads;
        if threads[c].parent == Some(t) {
          var done := Cancel(c, activeZone);
        }
        AfterChild(before, now, t, c);
      }
      AllChildren(before, t, |threads|);
      ok := t != 0;
      if ok {
        var joined := Join(t, activeZone);
      }
    }

    /** Leaving the zone releases the signals of its view; entering it starts a new view. */
    method ReleaseZone()
      requires Valid()
      modifies this`views
      ensures Valid() && |views| == |old(views)| && OnlyReleases(old(views)[view], views[view])
      ensures forall i :: 0 <= i < |views[view]| ==> views[view][i].released
      ensures forall v :: 0 <= v < |views| && v != view ==> views[v] == old(views)[v]
    {
      var now := views[view];
      var signals := seq(|now|, i requires 0 <= i < |now| => now[i].Freed());
      Rereleased(threads, threads, views, view, signals, width);
      views := views[view := signals];
    }

    method EnterZone()
      requires Valid()
      modifies this`views, this`view
      ensures Valid() && views == old(views) + [[]] && view == |old(views)|
    {
      assert (views + [[]])[..|views|] == views;
      views, view := views + [[]], |views|;
    }
  }

  /** Threads were deactivated and signals of the active view released, nothing else. */
  ghost predicate Ended(threads: seq<Thread>, threads2: seq<Thread>, views: seq<seq<Signal>>,
      views2: seq<seq<Signal>>, view: nat, activeZone: bool) {
    && |threads2| == |threads| && OnlyEnds(threads, threads2) && Family(threads) && Family(threads2)
    && |views2| == |views| && view < |views| && OnlyReleases(views[view], views2[view])
    && (forall v :: 0 <= v < |views| && v != view ==> views2[v] == views[v])
    && (!activeZone ==> views2 == views)
    && (forall i :: 0 <= i < |views[view]| ==> views[view][i].owner < |threads|)
  }

  /** x descends from a child of t that is older than c. */
  ghost predicate Through(threads: seq<Thread>, x: nat, t: nat, c: nat)
    requires Family(threads) && x < |threads|
  {
    exists d: nat :: t < d < c && d < |threads| && threads[d].parent == Some(t) && Descends(threads, x, d)
  }

  lemma {:induction false} SameStack(threads: seq<Thread>, threads2: seq<Thread>, x: nat)
    requires Family(threads) && Family(threads2) && |threads2| == |threads| && x < |threads|
    requires forall t :: 0 <= t < |threads| ==> threads2[t].parent == threads[t].parent
    ensures CallStack(threads2, x) == CallStack(threads, x)
  {
    if x != 0 { SameStack(threads, threads2, threads[x].parent.value); }
  }

  lemma NoChildYet(threads: seq<Thread>, t: nat, c: nat)
    requires Family(threads) && c == t + 1
    ensures forall x: nat :: x < |threads| ==> !Through(threads, x, t, c)
  {}

  lemma OwnersOk(threads: seq<Thread>, signals: seq<Signal>, pad: nat)
    requires ViewOk(threads, signals, pad)
    ensures forall i :: 0 <= i < |signals| ==> signals[i].owner < |threads|
  {}

  lemma AfterChild(threads: seq<Thread>, now: seq<Thread>, t: nat, c: nat)
    requires Family(threads) && Family(now) && |now| == |threads| && t < c < |threads|
    requires forall u :: 0 <= u < |threads| ==> now[u].parent == threads[u].parent
    ensures forall x: nat :: x < |threads| ==>
      (Through(threads, x, t, c + 1) <==>
        Through(threads, x, t, c) || (threads[c].parent == Some(t) && Descends(now, x, c)))
    ensures forall x: nat :: x < |threads| ==> Descends(now, x, c) == Descends(threads, x, c)
    ensures !(threads[c].parent == Some(t) && Descends(now, 0, c))
  {
    forall x: nat | x < |threads|
      ensures Descends(now, x, c) == Descends(threads, x, c)
      ensures Through(threads, x, t, c + 1) <==>
        Through(threads, x, t, c) || (threads[c].parent == Some(t) && Descends(now, x, c))
    {
      SameStack(threads, now, x);
      if Through(threads, x, t, c) {
        var d: nat :| t < d < c && d < |threads| && threads[d].parent == Some(t) && Descends(threads, x, d);
        assert t < d < c + 1;
      }
    }
  }

  /** x descends from t exactly if it is t or descends from one of its children. */
  lemma AllChildren(threads: seq<Thread>, t: nat, n: nat)
    requires Family(threads) && t < |threads| == n
    ensures forall x: nat :: x < n ==> (Descends(threads, x, t) <==> x == t || Through(threads, x, t, n))
    ensures !Through(threads, 0, t, n)
  {
    forall x: nat | x < n ensures Descends(threads, x, t) <==> x == t || Through(threads, x, t, n) {
      DownTo(threads, x, t);
      if Through(threads, x, t, n) {
        var d: nat :| t < d < n && threads[d].parent == Some(t) && Descends(threads, x, d);
        UpFrom(threads, x, d, t);
      }
    }
  }

  lemma {:induction false} DownTo(threads: seq<Thread>, x: nat, t: nat)
    requires Family(threads) && x < |threads|
    ensures t in CallStack(threads, x) ==> t < x && Through(threads, x, t, |threads|)
    decreases x
  {
    if x != 0 {
      var up := threads[x].parent.value;
      DownTo(threads, up, t);
      if up == t {
        assert Descends(threads, x, x);
      } else if t in CallStack(threads, x) {
        var d: nat :| t < d < |threads| && threads[d].parent == Some(t) && Descends(threads, up, d);
        assert Descends(threads, x, d);
      }
    }
  }

  lemma {:induction false} UpFrom(threads: seq<Thread>, x: nat, d: nat, t: nat)
    requires Family(threads) && x < |threads| && d < |threads| && threads[d].parent == Some(t)
      && Descends(threads, x, d)
    ensures t in CallStack(threads, x)
    decreases x
  {
    if x != d {
      assert x != 0;
      UpFrom(threads, threads[x].parent.value, d, t);
    } else {
      assert x != 0;
    }
  }

  function ReleasedBy(signals: seq<Signal>, t: nat): (r: seq<Signal>)
    ensures |r| == |signals|
    ensures forall i :: 0 <= i < |r| ==> r[i] == if signals[i].owner == t then signals[i].Freed() else signals[i]
  {
    seq(|signals|, i requires 0 <= i < |signals| => if signals[i].owner == t then signals[i].Freed() else signals[i])
  }

  /** Replacing a view by one with more signals released. */
  lemma Rereleased(threads: seq<Thread>, threads2: seq<Thread>, views: seq<seq<Signal>>, v: nat, signals: seq<Signal>,
      pad: nat)
    requires v < |views| && OnlyEnds(threads, threads2) && OnlyReleases(views[v], signals)
    requires forall u :: 0 <= u < |views| ==> ViewOk(threads, views[u], pad)
    ensures var views2 := views[v := signals];
      AllWidths(views2) == AllWidths(views)
        && forall u {:trigger views2[u]} :: 0 <= u < |views| ==> ViewOk(threads2, views2[u], pad)
  {
    var views2 := views[v := signals];
    forall u {:trigger views2[u]} | 0 <= u < |views| ensures ViewOk(threads2, views2[u], pad) {
    }
    SameWidths(views[v], signals);
    AllWidthsUpdate(views, v, signals);
  }
}
