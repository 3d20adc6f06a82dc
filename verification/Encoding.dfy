/** State encodings: one-hot, multi-hot in packets, and the compressed case statements that use
them as labels. */
module Encoding {
  import opened Signals
  import opened Selectors

  type Word = seq<bool>              // a register value, least significant bit first

  // ----- Multi-hot encoding -----

  function CeilDiv(a: nat, b: nat): (q: nat)
    requires b >= 1
    ensures q * b >= a && (q > 0 ==> (q - 1) * b < a)
  {
    if a == 0 then 0 else if a <= b then 1 else 1 + CeilDiv(a - b, b)
  }

  function BitsNeeded(states: nat): nat { if states > 1 then CeilLog2(states) else 1 }

  /** The least width, at least 1, that tells the states apart. */
  lemma BitsNeededExactly(states: nat)
    ensures BitsNeeded(states) >= 1 && states <= Pow2(BitsNeeded(states))
    ensures BitsNeeded(states) > 1 ==> Pow2(BitsNeeded(states) - 1) < states
  {}

  function NumPackets(states: nat, packetSize: nat): nat
    requires packetSize >= 1
  {
    CeilDiv(BitsNeeded(states), packetSize)
  }

  function StateWidth(states: nat, packetSize: nat): nat
    requires packetSize >= 1
  {
    NumPackets(states, packetSize) * Pow2(packetSize)
  }

  /** 2^v as a word of the given width. */
  function Hot(v: nat, width: nat): (w: Word)
    ensures |w| == width && forall i :: 0 <= i < width ==> w[i] == (i == v)
  {
    seq(width, i requires 0 <= i < width => i == v)
  }

  /** The lowest packet of the index, and what remains after shifting it out. */
  function Digit(index: nat, packetSize: nat): (d: nat)
    ensures d < Pow2(packetSize)
  {
    index % Pow2(packetSize)
  }

  function Shift(index: nat, packetSize: nat): (q: nat)
    ensures index == Digit(index, packetSize) + Pow2(packetSize) * q
  {
    DivMod(index, Pow2(packetSize));
    index / Pow2(packetSize)
  }

  lemma DivMod(n: nat, m: nat)
    requires m >= 1
    ensures n == n % m + m * (n / m) && n / m >= 0
  {}

  /** The packets of a state index, least significant first. */
  function Packets(index: nat, packetSize: nat, count: nat): (ps: seq<Word>)
    ensures |ps| == count && forall j :: 0 <= j < count ==> |ps[j]| == Pow2(packetSize)
    decreases count
  {
    if count == 0 then []
    else [Hot(Digit(index, packetSize), Pow2(packetSize))] + Packets(Shift(index, packetSize), packetSize, count - 1)
  }

  function Join(ps: seq<Word>): Word {
    if ps == [] then [] else ps[0] + Join(ps[1..])
  }

  /** The register value of state number `index`. */
  function MultiHot(index: nat, states: nat, packetSize: nat): Word
    requires packetSize >= 1
  {
    Join(Packets(index, packetSize, NumPackets(states, packetSize)))
  }

  /** `encode`: packet by packet, the index shifted and masked. */
  method Encode(index: nat, states: nat, packetSize: nat) returns (word: Word)
    requires packetSize >= 1
    ensures word == MultiHot(index, states, packetSize)
  {
    var packets: seq<Word> := [];
    var rest: nat := index;
    var count := NumPackets(states, packetSize);
    for n := 0 to count
      invariant packets + Packets(rest, packetSize, count - n) == Packets(index, packetSize, count)
    {
      packets := packets + [Hot(Digit(rest, packetSize), Pow2(packetSize))];
      rest := Shift(rest, packetSize);
    }
    word := [];
    for n := 0 to |packets|
      invariant word + Join(packets[n..]) == Join(packets)
    {
      assert packets[n..][1..] == packets[n + 1..];
      word := word + packets[n];
    }
    assert packets == Packets(index, packetSize, count);
  }

  // ----- Reading a word back -----

  /** The position of the hot bit. */
  function Position(w: Word): nat {
    if w == [] then 0 else if w[0] then 0 else 1 + Position(w[1..])
  }

  function Decode(word: Word, packetSize: nat, count: nat): nat
    decreases count
  {
    if count == 0 || |word| < Pow2(packetSize) then 0
    else Position(word[..Pow2(packetSize)]) + Pow2(packetSize) * Decode(word[Pow2(packetSize)..], packetSize, count - 1)
  }

  lemma {:induction false} PositionOfHot(w: Word, v: nat)
    requires v < |w| && forall i :: 0 <= i < |w| ==> w[i] == (i == v)
    ensures Position(w) == v
    decreases v
  {
    if v > 0 {
      assert !w[0];
      PositionOfHot(w[1..], v - 1);
    }
  }

  lemma {:induction false} PowSum(a: nat, b: nat)
    ensures Pow2(a + b) == Pow2(a) * Pow2(b)
    decreases a
  {
    if a > 0 { PowSum(a - 1, b); }
  }

  lemma ShiftFits(index: nat, packetSize: nat, rest: nat)
    requires index < Pow2(packetSize) * rest
    ensures Shift(index, packetSize) < rest
  {
    if Shift(index, packetSize) >= rest {
      MulMore(Pow2(packetSize), rest, Shift(index, packetSize));
      assert false;
    }
  }

  lemma MulMore(a: nat, b: nat, c: nat)
    requires b <= c
    ensures a * b <= a * c
  {}

  /** Packets read back give the index, if it has no more digits than packets. */
  lemma {:induction false} DecodePackets(index: nat, packetSize: nat, count: nat)
    requires index < Pow2(packetSize * count)
    ensures Decode(Join(Packets(index, packetSize, count)), packetSize, count) == index
    ensures |Join(Packets(index, packetSize, count))| == count * Pow2(packetSize)
    decreases count
  {
    hide Digit, Shift, Pow2;
    var base := Pow2(packetSize);
    if count > 0 {
      var ps, q := Packets(index, packetSize, count), Shift(index, packetSize);
      assert ps[1..] == Packets(q, packetSize, count - 1);
      assert packetSize * count == packetSize + packetSize * (count - 1);
      PowSum(packetSize, packetSize * (count - 1));
      ShiftFits(index, packetSize, Pow2(packetSize * (count - 1)));
      DecodePackets(q, packetSize, count - 1);
      var word := Join(ps);
      assert word[..base] == ps[0] && word[base..] == Join(ps[1..]);
      PositionOfHot(ps[0], Digit(index, packetSize));
      NextProduct(count, base);
    } else {
      NoIndex(packetSize);
    }
  }

  lemma NextProduct(count: nat, base: nat)
    requires count >= 1
    ensures count * base == base + (count - 1) * base
  {}

  lemma NoIndex(packetSize: nat)
    ensures Pow2(packetSize * 0) == 1
  {}

  /** There are enough packets for every state. */
  lemma IndexFits(index: nat, states: nat, packetSize: nat)
    requires index < states && packetSize >= 1
    ensures index < Pow2(packetSize * NumPackets(states, packetSize))
  {
    var bits := BitsNeeded(states);
    assert states <= Pow2(bits) by { assert Pow2(1) == 2 * Pow2(0); }
    assert NumPackets(states, packetSize) * packetSize >= bits;
    PowGrows(bits, packetSize * NumPackets(states, packetSize));
  }

  /** encode has a left inverse on the indices below the number of states and fills the register. */
  lemma MultiHotDecodes(index: nat, states: nat, packetSize: nat)
    requires index < states && packetSize >= 1
    ensures Decode(MultiHot(index, states, packetSize), packetSize, NumPackets(states, packetSize)) == index
    ensures |MultiHot(index, states, packetSize)| == StateWidth(states, packetSize)
  {
    IndexFits(index, states, packetSize);
    DecodePackets(index, packetSize, NumPackets(states, packetSize));
  }

  lemma MultiHotInjective(a: nat, b: nat, states: nat, packetSize: nat)
    requires a < states && b < states && packetSize >= 1
    ensures MultiHot(a, states, packetSize) == MultiHot(b, states, packetSize) ==> a == b
  {
    MultiHotDecodes(a, states, packetSize);
    MultiHotDecodes(b, states, packetSize);
  }

  function Ones(w: Word): nat {
    if w == [] then 0 else (if w[0] then 1 else 0) + Ones(w[1..])
  }

  lemma {:induction false} OneHotBit(w: Word, v: nat)
    requires forall i :: 0 <= i < |w| ==> w[i] == (i == v)
    ensures Ones(w) == if v < |w| then 1 else 0
    decreases |w|
  {
    if w != [] {
      if v == 0 { OneHotBit(w[1..], |w|); } else { OneHotBit(w[1..], v - 1); }
    }
  }

  /** Every packet of every encoded state has exactly one hot bit. */
  lemma {:induction false} OneHotPerPacket(index: nat, packetSize: nat, count: nat, j: nat)
    requires j < count
    ensures Ones(Packets(index, packetSize, count)[j]) == 1
    decreases count
  {
    hide Digit, Shift, Pow2;
    if j == 0 {
      OneHotBit(Packets(index, packetSize, count)[0], Digit(index, packetSize));
    } else {
      OneHotPerPacket(Shift(index, packetSize), packetSize, count - 1, j - 1);
    }
  }

  // ----- Compressed case statements -----

  type Label = Word

  /** A block that is not rendered: empty, unless the case statement is a unique one. */
  predicate Kept<B>(block: seq<B>, unique: bool) { block != [] || unique }

  /** The case statement of the uncompressed rendering: the block of the label, if it has one. */
  function Select<B>(cases: seq<(Label, seq<B>)>, unique: bool, l: Label): Option<seq<B>> {
    if cases == [] then None
    else if cases[0].0 == l && Kept(cases[0].1, unique) then Some(cases[0].1)
    else Select(cases[1..], unique, l)
  }

  /** The compressed one: the first item that lists the label. */
  function SelectMerged<B>(items: seq<(seq<Label>, seq<B>)>, l: Label): Option<seq<B>> {
    if items == [] then None
    else if l in items[0].0 then Some(items[0].1)
    else SelectMerged(items[1..], l)
  }

  ghost predicate Keys<B>(cases: seq<(Label, seq<B>)>) {
    forall i, j :: 0 <= i < j < |cases| ==> cases[i].0 != cases[j].0
  }

  /** The items list exactly the labels kept so far, each once, with its own block; blocks differ. */
  ghost predicate Merges<B>(items: seq<(seq<Label>, seq<B>)>, cases: seq<(Label, seq<B>)>, unique: bool) {
    && (forall a, x :: 0 <= a < |items| && 0 <= x < |items[a].0| ==> KeptCase(cases, unique, items[a].0[x], items[a].1))
    && (forall j :: 0 <= j < |cases| && Kept(cases[j].1, unique) ==> Listed(items, cases[j].0, cases[j].1))
    && (forall a, b :: 0 <= a < b < |items| ==> items[a].1 != items[b].1)
    && (forall a, x, y :: 0 <= a < |items| && 0 <= x < y < |items[a].0| ==> items[a].0[x] != items[a].0[y])
  }

  ghost predicate KeptCase<B>(cases: seq<(Label, seq<B>)>, unique: bool, l: Label, block: seq<B>) {
    Kept(block, unique) && exists j :: 0 <= j < |cases| && cases[j] == (l, block)
  }

  ghost predicate Listed<B>(items: seq<(seq<Label>, seq<B>)>, l: Label, block: seq<B>) {
    exists a :: 0 <= a < |items| && l in items[a].0 && items[a].1 == block
  }

  /** `compress_cases`: a case whose block is there already joins that item. */
  method CompressCases<B(==)>(cases: seq<(Label, seq<B>)>, unique: bool) returns (items: seq<(seq<Label>, seq<B>)>)
    requires Keys(cases)
    ensures Merges(items, cases, unique)
  {
    items := [];
    for i := 0 to |cases|
      invariant Merges(items, cases[..i], unique)
    {
      var key, block := cases[i].0, cases[i].1;
      assert cases[..i + 1] == cases[..i] + [(key, block)];
      if Kept(block, unique) {
        var prev: nat := |items|;
        for a := 0 to |items|
          invariant prev == |items| ==> forall b :: 0 <= b < a ==> items[b].1 != block
          invariant prev <= |items| && (prev < |items| ==> items[prev].1 == block)
        {
          if items[a].1 == block { prev := a; }
        }
        if prev == |items| {
          AddsItem(items, cases, i, unique);
          items := items + [([key], block)];
        } else {
          JoinsItem(items, cases, i, unique, prev);
          var joined := ([key] + items[prev].0, block);
          assert items[..prev] + items[prev + 1..] + [joined] == Joined(items, prev, key);
          items := items[..prev] + items[prev + 1..] + [joined];
        }
      } else {
      }
    }
    assert cases[..|cases|] == cases;
  }

  /** Whatever is rendered, a label with a block executes that block, and one without executes nothing; in a unique
      statement every label is listed. */
  lemma CompressedExactly<B>(items: seq<(seq<Label>, seq<B>)>, cases: seq<(Label, seq<B>)>, unique: bool, j: nat)
    requires Keys(cases) && Merges(items, cases, unique) && j < |cases|
    ensures cases[j].1 != [] ==> SelectMerged(items, cases[j].0) == Some(cases[j].1)
    ensures cases[j].1 == [] ==> SelectMerged(items, cases[j].0) == if unique then Some([]) else None
  {
    CompressionKeepsSelection(items, cases, unique, cases[j].0);
    SelectOwn(cases, unique, j);
  }

  lemma {:induction false} SelectOwn<B>(cases: seq<(Label, seq<B>)>, unique: bool, j: nat)
    requires Keys(cases) && j < |cases|
    ensures Select(cases, unique, cases[j].0) == if cases[j].1 != [] || unique then Some(cases[j].1) else None
    decreases cases
  {
    var rest := cases[1..];
    if j > 0 {
      SelectOwn(rest, unique, j - 1);
    } else if !(cases[0].1 != [] || unique) {
      SelectNone(rest, unique, cases[0].0);
    }
  }

  lemma {:induction false} SelectNone<B>(cases: seq<(Label, seq<B>)>, unique: bool, l: Label)
    requires forall i :: 0 <= i < |cases| ==> cases[i].0 != l
    ensures Select(cases, unique, l) == None
    decreases cases
  {
    if cases != [] { SelectNone(cases[1..], unique, l); }
  }

  lemma AddsItem<B>(items: seq<(seq<Label>, seq<B>)>, cases: seq<(Label, seq<B>)>, i: nat, unique: bool)
    requires i < |cases| && Keys(cases) && Merges(items, cases[..i], unique) && Kept(cases[i].1, unique)
    requires forall b :: 0 <= b < |items| ==> items[b].1 != cases[i].1
    ensures Merges(items + [([cases[i].0], cases[i].1)], cases[..i + 1], unique)
  {
    var more := items + [([cases[i].0], cases[i].1)];
    assert cases[..i + 1][i] == cases[i];
    forall a, x | 0 <= a < |more| && 0 <= x < |more[a].0|
      ensures KeptCase(cases[..i + 1], unique, more[a].0[x], more[a].1) {
      if a < |items| { }
    }
    var now := cases[..i + 1];
    forall j | 0 <= j < |now| && Kept(now[j].1, unique) ensures Listed(more, now[j].0, now[j].1) {
      if j < i {
        assert cases[..i][j] == now[j];
        var a :| 0 <= a < |items| && cases[j].0 in items[a].0 && items[a].1 == cases[j].1;
        assert more[a] == items[a];
      } else {
        assert cases[i].0 in more[|items|].0;
      }
    }
  }

  /** The item is taken out and comes back, with one more label, at the end. */
  function Joined<B>(items: seq<(seq<Label>, seq<B>)>, prev: nat, key: Label): (r: seq<(seq<Label>, seq<B>)>)
    requires prev < |items|
    ensures |r| == |items| && r[|r| - 1] == ([key] + items[prev].0, items[prev].1)
    ensures forall a :: 0 <= a < |items| - 1 ==> r[a] == items[if a < prev then a else a + 1]
  {
    items[..prev] + items[prev + 1..] + [([key] + items[prev].0, items[prev].1)]
  }

  lemma JoinedLists<B>(items: seq<(seq<Label>, seq<B>)>, prev: nat, key: Label, l: Label, block: seq<B>)
    requires prev < |items| && Listed(items, l, block)
    ensures Listed(Joined(items, prev, key), l, block)
  {
    hide Joined;
    var more := Joined(items, prev, key);
    var a :| 0 <= a < |items| && l in items[a].0 && items[a].1 == block;
    if a == prev {
      assert l in more[|more| - 1].0;
    } else {
      assert more[if a < prev then a else a - 1] == items[a];
    }
  }

  lemma JoinedKept<B>(items: seq<(seq<Label>, seq<B>)>, cases: seq<(Label, seq<B>)>, i: nat, unique: bool, prev: nat,
      a: nat, x: nat)
    requires i < |cases| && Keys(cases) && Merges(items, cases[..i], unique) && Kept(cases[i].1, unique)
    requires prev < |items| && items[prev].1 == cases[i].1
    requires var more := Joined(items, prev, cases[i].0); a < |more| && x < |more[a].0|
    ensures var more := Joined(items, prev, cases[i].0); KeptCase(cases[..i + 1], unique, more[a].0[x], more[a].1)
  {
    hide Joined;
    var more := Joined(items, prev, cases[i].0);
    if a < |more| - 1 {
      var b := if a < prev then a else a + 1;
      assert more[a] == items[b];
    } else if x > 0 {
      assert more[a].0[x] == items[prev].0[x - 1];
    } else {
      assert cases[..i + 1][i] == (more[a].0[x], more[a].1);
    }
  }

  lemma JoinedDistinct<B>(items: seq<(seq<Label>, seq<B>)>, cases: seq<(Label, seq<B>)>, i: nat, unique: bool,
      prev: nat)
    requires i < |cases| && Keys(cases) && Merges(items, cases[..i], unique) && prev < |items|
    ensures var more := Joined(items, prev, cases[i].0);
      && (forall a, b :: 0 <= a < b < |more| ==> more[a].1 != more[b].1)
      && (forall a, x, y :: 0 <= a < |more| && 0 <= x < y < |more[a].0| ==> more[a].0[x] != more[a].0[y])
  {
    hide Joined;
    var more := Joined(items, prev, cases[i].0);
    forall a, b | 0 <= a < b < |more| ensures more[a].1 != more[b].1 {
      var a2, b2 := if a < prev then a else a + 1, if b < prev then b else b + 1;
      assert more[a] == items[a2];
      if b < |more| - 1 { assert more[b] == items[b2]; }
    }
    forall a, x, y | 0 <= a < |more| && 0 <= x < y < |more[a].0| ensures more[a].0[x] != more[a].0[y] {
      if a < |more| - 1 {
        assert more[a] == items[if a < prev then a else a + 1];
      } else {
        assert more[a].0[y] == items[prev].0[y - 1];
      }
    }
  }

  lemma JoinsItem<B>(items: seq<(seq<Label>, seq<B>)>, cases: seq<(Label, seq<B>)>, i: nat, unique: bool, prev: nat)
    requires i < |cases| && Keys(cases) && Merges(items, cases[..i], unique) && Kept(cases[i].1, unique)
    requires prev < |items| && items[prev].1 == cases[i].1
    ensures Merges(Joined(items, prev, cases[i].0), cases[..i + 1], unique)
  {
    hide Joined, KeptCase, Listed;
    var more, now := Joined(items, prev, cases[i].0), cases[..i + 1];
    forall a, x | 0 <= a < |more| && 0 <= x < |more[a].0| ensures KeptCase(now, unique, more[a].0[x], more[a].1) {
      JoinedKept(items, cases, i, unique, prev, a, x);
    }
    forall j | 0 <= j < |now| && Kept(now[j].1, unique) ensures Listed(more, now[j].0, now[j].1) {
      if j < i {
        assert cases[..i][j] == now[j];
        JoinedLists(items, prev, cases[i].0, now[j].0, now[j].1);
      } else {
        JoinedNew(items, prev, cases[i].0);
      }
    }
    JoinedDistinct(items, cases, i, unique, prev);
  }

  lemma JoinedNew<B>(items: seq<(seq<Label>, seq<B>)>, prev: nat, key: Label)
    requires prev < |items|
    ensures Listed(Joined(items, prev, key), key, items[prev].1)
  {
    var more := Joined(items, prev, key);
    assert key in more[|more| - 1].0;
  }

  // ----- The block that is executed -----

  lemma {:induction false} MergedFinds<B>(items: seq<(seq<Label>, seq<B>)>, l: Label, a: nat)
    requires a < |items| && l in items[a].0 && forall b :: 0 <= b < |items| && b != a ==> l !in items[b].0
    ensures SelectMerged(items, l) == Some(items[a].1)
    decreases |items|
  {
    if a > 0 {
      assert l !in items[0].0;
      forall b | 0 <= b < |items[1..]| && b != a - 1
        ensures l !in items[1..][b].0
      {
        assert items[1..][b] == items[b + 1];
      }
      MergedFinds(items[1..], l, a - 1);
    }
  }

  lemma {:induction false} MergedMisses<B>(items: seq<(seq<Label>, seq<B>)>, l: Label)
    requires forall b :: 0 <= b < |items| ==> l !in items[b].0
    ensures SelectMerged(items, l) == None
    decreases |items|
  {
    if items != [] {
      assert l !in items[0].0;
      forall b | 0 <= b < |items[1..]| ensures l !in items[1..][b].0 { assert items[1..][b] == items[b + 1]; }
      MergedMisses(items[1..], l);
    }
  }

  lemma {:induction false} SelectFinds<B>(cases: seq<(Label, seq<B>)>, unique: bool, j: nat)
    requires Keys(cases) && j < |cases|
    ensures Select(cases, unique, cases[j].0) == if Kept(cases[j].1, unique) then Some(cases[j].1) else None
    decreases |cases|
  {
    if j > 0 {
      assert cases[1..][j - 1] == cases[j];
      SelectFinds(cases[1..], unique, j - 1);
    } else if !Kept(cases[0].1, unique) {
      forall k | 0 <= k < |cases[1..]| ensures cases[1..][k].0 != cases[0].0 { assert cases[1..][k] == cases[k + 1]; }
      SelectMisses(cases[1..], unique, cases[0].0);
    }
  }

  lemma {:induction false} SelectMisses<B>(cases: seq<(Label, seq<B>)>, unique: bool, l: Label)
    requires forall k :: 0 <= k < |cases| ==> cases[k].0 != l
    ensures Select(cases, unique, l) == None
    decreases |cases|
  {
    if cases != [] {
      assert cases[0].0 != l;
      forall k | 0 <= k < |cases[1..]| ensures cases[1..][k].0 != l { assert cases[1..][k] == cases[k + 1]; }
      SelectMisses(cases[1..], unique, l);
    }
  }

  /** Compression changes no selection: a label finds its own block, and only if it is kept. */
  lemma CompressionKeepsSelection<B>(items: seq<(seq<Label>, seq<B>)>, cases: seq<(Label, seq<B>)>, unique: bool,
      l: Label)
    requires Keys(cases) && Merges(items, cases, unique)
    ensures SelectMerged(items, l) == Select(cases, unique, l)
  {
    if j :| 0 <= j < |cases| && cases[j].0 == l {
      SelectFinds(cases, unique, j);
      if Kept(cases[j].1, unique) {
        assert Listed(items, l, cases[j].1);
        var a :| 0 <= a < |items| && l in items[a].0 && items[a].1 == cases[j].1;
        forall b | 0 <= b < |items| && b != a ensures l !in items[b].0 {
          if l in items[b].0 { }
        }
        MergedFinds(items, l, a);
      } else {
        forall b | 0 <= b < |items| ensures l !in items[b].0 {
          if l in items[b].0 { }
        }
        MergedMisses(items, l);
      }
    } else {
      SelectMisses(cases, unique, l);
      MergedMisses(items, l);
    }
  }

  // ----- One-hot encoding -----

  /** The states are written from left to right, so state 0 is the most significant bit. */
  function OneHot(index: nat, states: nat): Word
    requires index < states
  {
    Hot(states - 1 - index, states)
  }

  lemma OneHotDecodes(index: nat, states: nat)
    requires index < states
    ensures |OneHot(index, states)| == states && Ones(OneHot(index, states)) == 1
    ensures states - 1 - Position(OneHot(index, states)) == index
  {
    OneHotBit(OneHot(index, states), states - 1 - index);
    PositionOfHot(OneHot(index, states), states - 1 - index);
  }

  // ----- Encoded case statements -----

  datatype Register = OneHotRegister | MultiHotRegister(packetSize: nat)

  function Code(register: Register, index: nat, states: nat): Word
    requires index < states && (register.MultiHotRegister? ==> register.packetSize >= 1)
  {
    match register
    case OneHotRegister => OneHot(index, states)
    case MultiHotRegister(packetSize) => MultiHot(index, states, packetSize)
  }

  /** Different states have different codes. */
  lemma CodeInjective(register: Register, a: nat, b: nat, states: nat)
    requires a < states && b < states && (register.MultiHotRegister? ==> register.packetSize >= 1)
    ensures Code(register, a, states) == Code(register, b, states) ==> a == b
  {
    match register
    case OneHotRegister =>
      OneHotDecodes(a, states);
      OneHotDecodes(b, states);
    case MultiHotRegister(packetSize) => MultiHotInjective(a, b, states, packetSize);
  }

  /** The encoded case statement: each state's block under its code. */
  function Encoded<B>(blocks: seq<seq<B>>, register: Register): (cases: seq<(Label, seq<B>)>)
    requires register.MultiHotRegister? ==> register.packetSize >= 1
    ensures |cases| == |blocks|
      && forall k :: 0 <= k < |blocks| ==> cases[k] == (Code(register, k, |blocks|), blocks[k])
  {
    seq(|blocks|, k requires 0 <= k < |blocks| => (Code(register, k, |blocks|), blocks[k]))
  }

  /** For every number of states, both registers and every packet size: while the register holds the code
      of a state, the compressed case statement executes that state's block, as the symbolic one does. */
  lemma EncodedSelectsSame<B>(blocks: seq<seq<B>>, register: Register, items: seq<(seq<Label>, seq<B>)>, state: nat)
    requires (register.MultiHotRegister? ==> register.packetSize >= 1) && state < |blocks|
    requires Merges(items, Encoded(blocks, register), true)
    ensures SelectMerged(items, Code(register, state, |blocks|)) == Some(blocks[state])
  {
    hide Code;
    var cases := Encoded(blocks, register);
    forall i, j | 0 <= i < j < |cases| ensures cases[i].0 != cases[j].0 { CodeInjective(register, i, j, |blocks|); }
    CompressionKeepsSelection(items, cases, true, Code(register, state, |blocks|));
    assert cases[state] == (Code(register, state, |blocks|), blocks[state]);
    SelectFinds(cases, true, state);
  }
}
