/** The ElasticChannel is a FIFO for every power-of-two depth, and for no other depth of 3 or more. */
module ElasticChannelProof {
  import opened Signals
  import opened ElasticChannelModel

  // ----- Positions in the ring -----

  /** Position k of the ring, counted from `start`. */
  ghost function Pos(start: nat, k: nat, d: nat): (p: nat)
    requires d >= 1
    ensures p < d
  {
    (start + k) % d
  }

  /** n words from position `start` on, modulo the depth. */
  ghost function Window(mem: seq<int>, start: nat, n: nat): (r: seq<int>)
    requires |mem| >= 1
    ensures |r| == n && forall k :: 0 <= k < n ==> r[k] == mem[Pos(start, k, |mem|)]
  {
    seq(n, k requires 0 <= k < n => mem[Pos(start, k, |mem|)])
  }

  lemma ModSum(a: int, b: int, d: nat)
    requires d >= 1
    ensures (a + b) % d == ((a % d) + b) % d
  {
    ModUnique(a + b, d, (a / d) + ((a % d) + b) / d, ((a % d) + b) % d) by {
      assert a == (a / d) * d + a % d;
      var s := (a % d) + b;
      assert s == (s / d) * d + s % d;
      assert a + b == (a / d) * d + s;
      assert a + b == ((a / d) + s / d) * d + s % d by { assert ((a / d) + s / d) * d == (a / d) * d + (s / d) * d; }
    }
  }

  /** Places less than d apart are different. */
  lemma PosApart(a: nat, i: nat, j: nat, d: nat)
    requires i < j < i + d
    ensures Pos(a, i, d) != Pos(a, j, d)
  {
    if (a + i) % d == (a + j) % d {
      var q := (a + j) / d - (a + i) / d;
      assert j - i == q * d by {
        assert a + i == ((a + i) / d) * d + (a + i) % d && a + j == ((a + j) / d) * d + (a + j) % d;
        assert q * d == ((a + j) / d) * d - ((a + i) / d) * d;
      }
      NoMultipleBelow(q, d);
    }
  }

  /** Counting on from a position. */
  lemma PosSum(start: nat, i: nat, j: nat, d: nat)
    requires d >= 1
    ensures Pos(Pos(start, i, d), j, d) == Pos(start, i + j, d)
  {
    ModSum(start + i, j, d);
  }

  lemma PosHere(start: nat, d: nat)
    requires start < d
    ensures Pos(start, 0, d) == start
  {
    SmallMod(start, d);
  }

  lemma NoMultipleBelow(q: int, d: nat)
    requires d >= 1
    ensures q * d <= 0 || q * d >= d
  {
    if q >= 1 { MulAtLeast(q, d); }
  }

  /** The level is the distance of the pointers. */
  lemma LevelIs(readPtr: nat, writePtr: nat, d: nat, n: nat)
    requires readPtr < d && writePtr < d && n < d
    ensures (writePtr + d - readPtr) % d == n <==> writePtr == Pos(readPtr, n, d)
  {
    if writePtr == (readPtr + n) % d {
      ModSum(readPtr + n, d - readPtr, d);
      assert readPtr + n + (d - readPtr) == n + d;
      ModSum(n, d, d);
      ModUnique(n + d, d, 1, n);
    }
    if (writePtr + d - readPtr) % d == n {
      ModSum(writePtr + d - readPtr, readPtr, d);
      assert writePtr + d - readPtr + readPtr == writePtr + d;
      ModUnique(writePtr + d, d, 1, writePtr);
    }
  }

  lemma WindowPut(mem: seq<int>, start: nat, n: nat, word: int)
    requires n < |mem|
    ensures Window(mem[Pos(start, n, |mem|) := word], start, n + 1) == Window(mem, start, n) + [word]
  {
    hide Pos;
    var d := |mem|;
    forall k {:trigger Pos(start, k, d)} | 0 <= k < n
      ensures Pos(start, k, d) != Pos(start, n, d)
    {
      PosApart(start, k, n, d);
    }
    assert Window(mem[Pos(start, n, d) := word], start, n + 1) == Window(mem, start, n) + [word];
  }

  lemma WindowTake(mem: seq<int>, start: nat, n: nat)
    requires start < |mem| && n >= 1
    ensures Window(mem, start, n) == [mem[start]] + Window(mem, Pos(start, 1, |mem|), n - 1)
  {
    hide Pos;
    PosHere(start, |mem|);
    WindowAppend(mem, start, 1, n - 1);
    assert Window(mem, start, 1) == [mem[start]];
  }

  lemma WindowAppend(mem: seq<int>, start: nat, m: nat, n: nat)
    requires |mem| >= 1
    ensures Window(mem, start, m + n) == Window(mem, start, m) + Window(mem, Pos(start, m, |mem|), n)
  {
    hide Pos;
    var d := |mem|;
    var whole, rest := Window(mem, start, m + n), Window(mem, Pos(start, m, d), n);
    forall k {:trigger rest[k]} | 0 <= k < n ensures whole[m + k] == rest[k] { PosSum(start, m, k, d); }
    assert whole == Window(mem, start, m) + rest;
  }

  /** Storing words behind the window extends it by these words and touches nothing in it. */
  lemma {:induction false} WindowPutAll(mem: seq<int>, start: nat, n: nat, words: seq<int>)
    requires |mem| >= 1 && n + |words| <= |mem|
    ensures Window(PutAll(mem, Pos(start, n, |mem|), words), start, n + |words|) == Window(mem, start, n) + words
    decreases |words|
  {
    if words != [] {
      var init, d, ptr := words[..|words| - 1], |mem|, Pos(start, n, |mem|);
      WindowPutAll(mem, start, n, init);
      PosSum(start, n, |init|, d);
      WindowPut(PutAll(mem, ptr, init), start, n + |init|, words[|words| - 1]);
      assert words == init + [words[|words| - 1]];
    } else {
      assert Window(mem, start, n) + words == Window(mem, start, n);
    }
  }

  // ----- The invariant -----

  ghost predicate PowerOfTwo(depth: nat) { depth >= 2 && depth == Wrap(depth) }

  /** What was sent is what was received and then the unread slots; at most depth - 2 slots are
      unread; words stored by send_multiple lie beyond them. */
  ghost predicate Inv(c: Fifo) {
    && PowerOfTwo(c.depth) && |c.mem| == c.depth && c.readPtr < c.depth && c.writePtr < c.depth
    && 0 <= Level(c) <= c.depth - 2
    && c.sent == c.received + Window(c.mem, c.readPtr, Level(c))
    && (c.producer.Stored? ==>
          && Level(c) + |c.producer.items| <= c.depth - 2
          && Window(c.mem, c.writePtr, |c.producer.items|) == Reverse(c.producer.items))
  }

  /** The producer's half of an edge; no unread slot changes. */
  lemma ProducerKeeps(c: Fifo, o: Outside)
    requires Inv(c) && Allowed(c, o)
    ensures var p := StepProducer(c, NextProducer(c, o), o.word);
      && Inv(p) && p.depth == c.depth && p.readPtr == c.readPtr && p.received == c.received && Level(p) >= Level(c)
      && Window(p.mem, c.readPtr, Level(c)) == Window(c.mem, c.readPtr, Level(c))
  {
    match NextProducer(c, o)
    case Pushed => PushKeeps(c);
    case Stored(items) => StoreKeeps(c, items);
    case Advanced => if c.producer.Stored? { AdvanceKeeps(c); }
    case _ =>
  }

  lemma PushKeeps(c: Fifo)
    requires Inv(c) && Level(c) < c.depth - 2
    ensures var p := StepProducer(c, Pushed, 0);
      Inv(p) && Level(p) == Level(c) + 1 && Window(p.mem, c.readPtr, Level(c)) == Window(c.mem, c.readPtr, Level(c))
  {
    var d, n, p := c.depth, Level(c), StepProducer(c, Pushed, 0);
    LevelIs(c.readPtr, c.writePtr, d, n);
    WindowPut(c.mem, c.readPtr, n, c.tx);
    PosSum(c.readPtr, n, 1, d);
    LevelIs(c.readPtr, p.writePtr, d, n + 1);
    assert Window(p.mem, c.readPtr, n) == Window(p.mem, c.readPtr, n + 1)[..n];
  }

  lemma StoreKeeps(c: Fifo, items: seq<int>)
    requires Inv(c) && Level(c) < c.depth - 1 - |items|
    ensures var p := StepProducer(c, Stored(items), 0);
      Inv(p) && Level(p) == Level(c) && Window(p.mem, c.readPtr, Level(c)) == Window(c.mem, c.readPtr, Level(c))
  {
    hide Pos, Level, Reverse, PutAll;
    var d, n, p, words := c.depth, Level(c), StepProducer(c, Stored(items), 0), Reverse(items);
    LevelPos(c);
    SameLevel(c, p);
    WindowPutAll(c.mem, c.readPtr, n, words);
    WindowAppend(p.mem, c.readPtr, n, |words|);
    SplitWindow(Window(c.mem, c.readPtr, n), words, Window(p.mem, c.readPtr, n), Window(p.mem, c.writePtr, |words|));
  }

  lemma SplitWindow(a: seq<int>, b: seq<int>, x: seq<int>, y: seq<int>)
    requires a + b == x + y && |a| == |x|
    ensures a == x && b == y
  {
    assert a == (a + b)[..|a|] && x == (x + y)[..|x|];
    assert b == (a + b)[|a|..] && y == (x + y)[|x|..];
  }

  lemma SameLevel(c: Fifo, p: Fifo)
    requires c.depth >= 1 && p.depth == c.depth && p.readPtr == c.readPtr && p.writePtr == c.writePtr
    ensures Level(p) == Level(c)
  {}

  lemma LevelPos(c: Fifo)
    requires c.readPtr < c.depth && c.writePtr < c.depth && 0 <= Level(c) < c.depth
    ensures c.writePtr == Pos(c.readPtr, Level(c), c.depth)
  {
    LevelIs(c.readPtr, c.writePtr, c.depth, Level(c));
  }

  lemma AdvanceKeeps(c: Fifo)
    requires Inv(c) && c.producer.Stored?
    ensures var p := StepProducer(c, Advanced, 0);
      Inv(p) && Level(p) == Level(c) + |c.producer.items| && p.mem == c.mem
  {
    var d, n, items, p := c.depth, Level(c), c.producer.items, StepProducer(c, Advanced, 0);
    LevelIs(c.readPtr, c.writePtr, d, n);
    WindowAppend(c.mem, c.readPtr, n, |items|);
    PosSum(c.readPtr, n, |items|, d);
    LevelIs(c.readPtr, p.writePtr, d, n + |items|);
  }

  /** The consumer's half: it takes the oldest unread word. */
  lemma TakeKeeps(p: Fifo)
    requires Inv(p) && Level(p) >= 1
    requires p.readPtr < |p.mem|
    ensures var q := p.(readPtr := (p.readPtr + 1) % Wrap(p.depth), received := p.received + [p.mem[p.readPtr]]);
      Inv(q) && Level(q) == Level(p) - 1
  {
    hide Window;
    var d, n := p.depth, Level(p);
    var q := p.(readPtr := (p.readPtr + 1) % Wrap(p.depth), received := p.received + [p.mem[p.readPtr]]);
    LevelIs(p.readPtr, p.writePtr, d, n);
    WindowTake(p.mem, p.readPtr, n);
    PosSum(p.readPtr, 1, n - 1, d);
    LevelIs(q.readPtr, q.writePtr, d, n - 1);
  }

  lemma OldestUnread(mem: seq<int>, start: nat, n: nat)
    requires start < |mem| && n >= 1
    ensures Window(mem, start, n)[0] == mem[start]
  {
    PosHere(start, |mem|);
  }

  /** Every edge keeps the channel a FIFO, whatever both sides do. */
  lemma StepKeeps(c: Fifo, o: Outside)
    requires Inv(c) && Allowed(c, o)
    ensures Inv(Step(c, o))
  {
    hide Pos, Window, Level, NextProducer, StepProducer, Wrap, PowerOfTwo, Allowed;
    ProducerKeeps(c, o);
    var p := StepProducer(c, NextProducer(c, o), o.word);
    SameLevel(p, Step(c, o).(readPtr := p.readPtr));
    if NextConsumer(c, o).Taken? {
      OldestUnread(c.mem, c.readPtr, Level(c));
      OldestUnread(p.mem, c.readPtr, Level(c));
      TakeKeeps(p);
      var q := p.(readPtr := (p.readPtr + 1) % Wrap(p.depth), received := p.received + [p.mem[p.readPtr]]);
      SameLevel(q, Step(c, o));
    }
  }

  lemma ResetIsFifo(depth: nat)
    requires PowerOfTwo(depth)
    ensures Inv(Reset(depth))
  {
    PosHere(0, depth);
    LevelIs(0, 0, depth, 0);
  }

  /** In every cycle of every run: sent = received ++ the slots from the read pointer on, as many as
      the level says, which is at most depth - 2. */
  lemma {:induction false} ChannelIsFifo(depth: nat, outside: nat -> Outside, n: nat)
    requires PowerOfTwo(depth) && AllAllowed(depth, outside)
    ensures Inv(Run(depth, outside, n))
  {
    hide Inv, Allowed, Step;
    if n == 0 {
      ResetIsFifo(depth);
    } else {
      ChannelIsFifo(depth, outside, n - 1);
      assert Allowed(Run(depth, outside, n - 1), outside(n - 1));
      StepKeeps(Run(depth, outside, n - 1), outside(n - 1));
    }
  }

  // ----- The words handed to the channel -----

  /** The word of the last edge at which `send` started to wait or went on waiting. */
  ghost function Shown(depth: nat, outside: nat -> Outside, n: nat): int
    requires depth >= 1
  {
    if n == 0 then 0
    else if Run(depth, outside, n).producer.SendWait? then outside(n - 1).word
    else Shown(depth, outside, n - 1)
  }

  /** The list of the last edge at which `send_multiple` stopped waiting. */
  ghost function Listed(depth: nat, outside: nat -> Outside, n: nat): seq<int>
    requires depth >= 1
  {
    if n == 0 then []
    else if Run(depth, outside, n).producer.Stored? then outside(n - 1).items
    else Listed(depth, outside, n - 1)
  }

  /** What the completed sends were called with, in order; a list is sent from its end. */
  ghost function Offered(depth: nat, outside: nat -> Outside, n: nat): seq<int>
    requires depth >= 1
  {
    if n == 0 then []
    else match Run(depth, outside, n).producer
      case Pushed => Offered(depth, outside, n - 1) + [Shown(depth, outside, n - 1)]
      case Advanced => Offered(depth, outside, n - 1) + Backwards(Listed(depth, outside, n - 1))
      case _ => Offered(depth, outside, n - 1)
  }

  function Backwards(s: seq<int>): (r: seq<int>)
    ensures |r| == |s|
  {
    seq(|s|, k requires 0 <= k < |s| => s[|s| - 1 - k])
  }

  lemma SentGrows(c: Fifo, o: Outside)
    requires c.depth >= 1
    ensures var r := Step(c, o);
      && (r.producer.Pushed? ==> c.producer.SendWait? && r.sent == c.sent + [c.tx])
      && (r.producer.Advanced? ==> c.producer.Stored? && r.sent == c.sent + Backwards(c.producer.items))
      && (!r.producer.Pushed? && !r.producer.Advanced? ==> r.sent == c.sent)
      && (r.producer.SendWait? ==> r.tx == o.word) && (r.producer.Stored? ==> r.producer.items == o.items)
  {
    hide Level, Wrap, PutAll, Put;
    if c.producer.Stored? { assert Reverse(c.producer.items) == Backwards(c.producer.items); }
  }

  /** In every run exactly these words are sent, whatever the depth. */
  lemma {:induction false} SentIsOffered(depth: nat, outside: nat -> Outside, n: nat)
    requires depth >= 1
    ensures Run(depth, outside, n).sent == Offered(depth, outside, n)
    ensures Run(depth, outside, n).producer.SendWait? ==> Run(depth, outside, n).tx == Shown(depth, outside, n)
    ensures Run(depth, outside, n).producer.Stored? ==>
              Run(depth, outside, n).producer.items == Listed(depth, outside, n)
  {
    hide Step, Backwards;
    if n > 0 {
      SentIsOffered(depth, outside, n - 1);
      OneStep(depth, outside, n);
      SentGrows(Run(depth, outside, n - 1), outside(n - 1));
    }
  }

  lemma OneStep(depth: nat, outside: nat -> Outside, n: nat)
    requires depth >= 1 && n > 0
    ensures Run(depth, outside, n) == Step(Run(depth, outside, n - 1), outside(n - 1))
  {}

  /** What has arrived is the beginning of it. */
  lemma ReceivedInOrder(depth: nat, outside: nat -> Outside, n: nat)
    requires PowerOfTwo(depth) && AllAllowed(depth, outside)
    ensures Run(depth, outside, n).received <= Offered(depth, outside, n)
  {
    SentIsOffered(depth, outside, n);
    ChannelIsFifo(depth, outside, n);
  }

  /** Going back to the reset state is harmless exactly if the channel is empty: every word in it is lost. */
  lemma ClearedExactly(c: Fifo)
    requires Inv(c) && (c.producer.Idle? || ProducerWaits(c))
    ensures Inv(Cleared(c)) <==> c.sent == c.received
    ensures c.producer.SendWait? ==> Cleared(c).tx == c.tx
    ensures Cleared(c).sent == c.sent && Cleared(c).received == c.received
  {
    var r := Cleared(c);
    PosHere(0, c.depth);
    LevelIs(0, 0, c.depth, 0);
    assert Level(r) == 0 && Window(r.mem, 0, 0) == [];
    assert c.received + [] == c.received;
  }

  // ----- No deadlock -----

  ghost predicate ProducerWaits(c: Fifo) { c.producer.SendWait? || c.producer.MultiWait? }

  lemma AllowedAt(depth: nat, outside: nat -> Outside, n: nat)
    requires depth >= 1 && AllAllowed(depth, outside)
    ensures Allowed(Run(depth, outside, n), outside(n))
  {
    assert Allowed(Run(depth, outside, n), outside(n));
  }

  /** A list that waits to be sent is an allowed one. */
  lemma {:induction false} WaitsAllowed(depth: nat, outside: nat -> Outside, n: nat)
    requires depth >= 1 && AllAllowed(depth, outside)
    ensures Run(depth, outside, n).producer.MultiWait? ==> Run(depth, outside, n).producer.count + 2 <= depth
  {
    hide Step, AllAllowed, Level;
    if n > 0 {
      WaitsAllowed(depth, outside, n - 1);
      AllowedAt(depth, outside, n - 1);
    }
  }

  /** From depth 3 on: whenever in a run both sides wait, one of them goes on at the next edge. */
  lemma NeverDeadlocked(depth: nat, outside: nat -> Outside, n: nat)
    requires depth >= 3 && AllAllowed(depth, outside)
    ensures var c, next := Run(depth, outside, n), Run(depth, outside, n + 1);
      ProducerWaits(c) && c.consumer == ReceiveWait ==> next.producer != c.producer || next.consumer != c.consumer
  {
    hide AllAllowed, StepProducer, Wrap;
    WaitsAllowed(depth, outside, n);
  }

  ghost predicate Silent(c: Fifo) {
    && c.sent == c.received == [] && c.readPtr == c.writePtr == 0
    && (c.producer == Idle || c.producer == SendWait || c.producer == MultiWait(0) || c.producer == Stored([])
      || c.producer == Advanced)
  }

  lemma StaysSilent(c: Fifo, o: Outside)
    requires 1 <= c.depth <= 2 && Silent(c) && Allowed(c, o)
    ensures Silent(Step(c, o)) && (c.producer == SendWait ==> Step(c, o).producer == SendWait)
  {
    assert Level(c) == 0 by { assert c.depth == 1 || c.depth == 2; }
    assert Reverse([]) == [];
  }

  lemma {:induction false} AlwaysSilent(depth: nat, outside: nat -> Outside, n: nat)
    requires 1 <= depth <= 2 && AllAllowed(depth, outside)
    ensures Silent(Run(depth, outside, n))
  {
    hide Silent, Step, AllAllowed, Allowed;
    if n > 0 {
      AlwaysSilent(depth, outside, n - 1);
      AllowedAt(depth, outside, n - 1);
      StaysSilent(Run(depth, outside, n - 1), outside(n - 1));
    } else {
      ResetSilent(depth);
    }
  }

  /** With depth 2 or less nothing is ever sent in any run, and a send that waits waits forever. */
  lemma NothingSent(depth: nat, outside: nat -> Outside, n: nat)
    requires 1 <= depth <= 2 && AllAllowed(depth, outside)
    ensures Run(depth, outside, n).sent == Run(depth, outside, n).received == []
    ensures Run(depth, outside, n).producer == SendWait ==> Run(depth, outside, n + 1).producer == SendWait
  {
    hide Step, AllAllowed, Allowed;
    AlwaysSilent(depth, outside, n);
    AllowedAt(depth, outside, n);
    StaysSilent(Run(depth, outside, n), outside(n));
  }

  lemma ResetSilent(depth: nat)
    ensures Silent(Reset(depth))
  {}

  /** The channel from a configuration on. */
  ghost function RunFrom(c: Fifo, outside: nat -> Outside, n: nat): (r: Fifo)
    requires c.depth >= 1
    ensures r.depth == c.depth
    decreases n
  {
    if n == 0 then c else Step(RunFrom(c, outside, n - 1), outside(n - 1))
  }

  /** How long a waiting producer can be kept waiting by a consumer that keeps receiving. */
  ghost function Patience(c: Fifo): int
    requires c.depth >= 1
  {
    2 * Level(c) + if c.consumer == ReceiveWait then 0 else 1
  }

  lemma PatienceNat(c: Fifo)
    requires Inv(c)
    ensures Patience(c) >= 0
  {}

  lemma WaitingKeeps(c: Fifo, o: Outside)
    requires Inv(c) && c.depth >= 4 && ProducerWaits(c) && NextProducer(c, o) == c.producer
    requires c.producer.MultiWait? ==> c.producer.count + 2 <= c.depth
    ensures var p := StepProducer(c, NextProducer(c, o), o.word);
      Inv(p) && p.readPtr < |p.mem| && Level(p) == Level(c) >= 1
    ensures NextConsumer(c, o).Taken? ==> var p := StepProducer(c, NextProducer(c, o), o.word);
      Step(c, o) ==
        p.(consumer := Taken, readPtr := (p.readPtr + 1) % Wrap(p.depth), received := p.received + [p.mem[p.readPtr]])
  {
    SameLevel(c, StepProducer(c, NextProducer(c, o), o.word));
  }

  lemma WaitsLess(c: Fifo, o: Outside)
    requires Inv(c) && c.depth >= 4 && ProducerWaits(c) && (c.producer.MultiWait? ==> c.producer.count + 2 <= c.depth)
    requires o.receive && NextProducer(c, o) == c.producer
    ensures Step(c, o).producer == c.producer && Patience(Step(c, o)) < Patience(c)
  {
    hide Inv, Level, Wrap;
    var p := StepProducer(c, NextProducer(c, o), o.word);
    WaitingKeeps(c, o);
    if NextConsumer(c, o).Taken? {
      TakeKeeps(p);
      SameLevel(p.(readPtr := (p.readPtr + 1) % Wrap(p.depth), received := p.received + [p.mem[p.readPtr]]),
        Step(c, o));
    } else {
      SameLevel(c, Step(c, o));
    }
  }

  /** While the consumer keeps receiving, every send and every send_multiple completes. */
  lemma {:induction false} ProducerProceeds(c: Fifo, outside: nat -> Outside) returns (n: nat)
    requires Inv(c) && c.depth >= 4 && ProducerWaits(c) && (c.producer.MultiWait? ==> c.producer.count + 2 <= c.depth)
    requires forall k: nat {:trigger outside(k)} :: outside(k).receive && Allowed(c, outside(k))
    ensures 1 <= n <= Patience(c) + 1
    ensures RunFrom(c, outside, n).producer == if c.producer.SendWait? then Pushed else Stored(outside(n - 1).items)
    decreases Patience(c)
  {
    hide Inv, Level, Wrap, StepProducer, NextConsumer, Patience;
    var o := outside(0);
    PatienceNat(c);
    if NextProducer(c, o) != c.producer {
      n := 1;
      assert RunFrom(c, outside, 0) == c;
    } else {
      StepKeeps(c, o);
      WaitsLess(c, o);
      var later := (k: nat) => outside(k + 1);
      n := ProducerProceeds(Step(c, o), later);
      Shifted(c, outside, later, n);
      n := n + 1;
    }
  }

  lemma {:induction false} Shifted(c: Fifo, outside: nat -> Outside, later: nat -> Outside, n: nat)
    requires c.depth >= 1 && forall k: nat {:trigger later(k)} :: later(k) == outside(k + 1)
    ensures RunFrom(Step(c, outside(0)), later, n) == RunFrom(c, outside, n + 1)
  {
    hide Step;
    if n > 0 {
      Shifted(c, outside, later, n - 1);
    } else {
      assert RunFrom(c, outside, 0) == c;
    }
  }

  // ----- Other depths -----

  /** What a user may rely on: words arrive in order, and the level counts the unread ones. */
  ghost predicate Faithful(c: Fifo)
    requires c.depth >= 1
  {
    c.received <= c.sent && Level(c) == |c.sent| - |c.received|
  }

  /** One word after the other is sent and received. */
  function Alternating(n: nat): Outside {
    Outside(if n % 4 == 0 then Send else Nothing, 1, [], n % 4 == 2)
  }

  function Ones(n: nat): seq<int> { seq(n, _ => 1) }

  /** After k words. */
  function AfterWords(depth: nat, k: nat): Fifo {
    Fifo(depth, seq(depth, i => if i < k then 1 else 0), k, k, if k == 0 then 0
      else 1, Idle, if k == 0 then Busy else Taken, Ones(k), Ones(k))
  }

  function AfterPush(depth: nat, k: nat): Fifo {
    var c := AfterWords(depth, k);
    c.(mem := Put(c.mem, k, 1), writePtr := (k + 1) % Wrap(depth), tx := 1, producer := Idle, consumer := ReceiveWait,
      sent := c.sent + [1])
  }

  lemma Phase(k: nat)
    ensures (4 * k) % 4 == 0 && (4 * k + 1) % 4 == 1 && (4 * k + 2) % 4 == 2 && (4 * k + 3) % 4 == 3
  {}

  lemma EqualLevel(c: Fifo)
    requires c.depth >= 1 && c.readPtr == c.writePtr
    ensures Level(c) == 0
  {}

  /** Three edges of a round: the word is sent and the consumer starts to receive. */
  lemma RoundSends(depth: nat, k: nat)
    requires depth >= 3 && k < Wrap(depth) && Run(depth, Alternating, 4 * k) == AfterWords(depth, k)
    ensures Run(depth, Alternating, 4 * k + 3) == AfterPush(depth, k)
  {
    Phase(k);
    var c0 := AfterWords(depth, k);
    EqualLevel(c0);
    var c1 := Step(c0, Alternating(4 * k));
    assert Run(depth, Alternating, 4 * k + 1) == c1;
    EqualLevel(c1);
    var c2 := Step(c1, Alternating(4 * k + 1));
    assert Run(depth, Alternating, 4 * k + 2) == c2;
    assert c2.producer == Pushed;
    assert Run(depth, Alternating, 4 * k + 3) == Step(c2, Alternating(4 * k + 2));
  }

  lemma OneLevel(depth: nat, k: nat)
    requires depth >= 2 && k + 1 < Wrap(depth)
    ensures Level(AfterPush(depth, k)) == 1
  {
    SmallMod(k + 1, Wrap(depth));
    ModUnique(depth + 1, depth, 1, 1);
  }

  /** The fourth edge: the word is received. */
  lemma RoundReceives(depth: nat, k: nat)
    requires depth >= 3 && k + 1 < Wrap(depth) && k < depth
    ensures Step(AfterPush(depth, k), Alternating(4 * k + 3)) == AfterWords(depth, k + 1)
  {
    OneLevel(depth, k);
    Phase(k);
    SmallMod(k + 1, Wrap(depth));
    var r := Step(AfterPush(depth, k), Alternating(4 * k + 3));
    assert Ones(k) + [1] == Ones(k + 1);
    assert r.mem == AfterWords(depth, k + 1).mem;
  }

  /** As long as the pointers stay below the depth, rounds work. */
  lemma {:induction false} Rounds(depth: nat, k: nat)
    requires depth >= 3 && depth < Wrap(depth) && k <= depth
    ensures Run(depth, Alternating, 4 * k) == AfterWords(depth, k)
  {
    hide Step, AfterPush, AfterWords, Alternating, Run, Wrap;
    if k == 0 {
      ZeroWords(depth);
    } else {
      Rounds(depth, k - 1);
      RoundSends(depth, k - 1);
      RoundReceives(depth, k - 1);
      NextRun(depth, Alternating, 4 * k - 1);
    }
  }

  lemma ZeroWords(depth: nat)
    requires depth >= 1
    ensures AfterWords(depth, 0) == Reset(depth) == Run(depth, Alternating, 4 * 0)
  {}

  lemma NextRun(depth: nat, outside: nat -> Outside, n: nat)
    requires depth >= 1
    ensures Run(depth, outside, n + 1) == Step(Run(depth, outside, n), outside(n))
  {}

  /** Beyond the last slot the word is stored nowhere; if the level sees it at all, 0 is received. */
  lemma ReceivesZero(depth: nat)
    requires depth >= 3 && depth + 1 < Wrap(depth)
    ensures !Faithful(Step(AfterPush(depth, depth), Alternating(4 * depth + 3)))
  {
    OneLevel(depth, depth);
    Phase(depth);
    var r := Step(AfterPush(depth, depth), Alternating(4 * depth + 3));
    assert r.received == Ones(depth) + [0] && r.sent == Ones(depth) + [1];
    assert r.received[depth] == 0 && r.sent[depth] == 1;
  }

  lemma LevelMissesIt(depth: nat)
    requires depth >= 3 && depth + 1 == Wrap(depth)
    ensures !Faithful(AfterPush(depth, depth))
  {
    hide Wrap;
    var c := AfterPush(depth, depth);
    ModUnique(depth + 1, depth + 1, 1, 0);
    assert c.writePtr == 0 && c.readPtr == depth;
    ModUnique(0, depth, 0, 0);
    assert Level(c) == 0;
  }

  /** A word is lost when the write pointer reaches a position beyond the last slot. */
  lemma LosesAWord(depth: nat) returns (n: nat)
    requires depth >= 3 && depth < Wrap(depth)
    ensures AllAllowed(depth, Alternating) && !Faithful(Run(depth, Alternating, n))
  {
    hide Step, AfterPush, AfterWords, Alternating, Wrap, Faithful, AllAllowed, Run;
    Rounds(depth, depth);
    RoundSends(depth, depth);
    NeverMultiple(depth);
    if depth + 1 < Wrap(depth) {
      ReceivesZero(depth);
      NextRun(depth, Alternating, 4 * depth + 3);
      n := 4 * depth + 4;
    } else {
      LevelMissesIt(depth);
      n := 4 * depth + 3;
    }
  }

  lemma {:induction false} NoLists(depth: nat, n: nat)
    requires depth >= 1
    ensures !Run(depth, Alternating, n).producer.MultiWait?
  {
    hide Step;
    if n > 0 {
      NoLists(depth, n - 1);
      NextRun(depth, Alternating, n - 1);
    }
  }

  lemma NeverMultiple(depth: nat)
    requires depth >= 1
    ensures AllAllowed(depth, Alternating)
  {
    forall n: nat {:trigger Alternating(n)}
      ensures Allowed(Run(depth, Alternating, n), Alternating(n))
    {
      NoLists(depth, n);
    }
  }

  /** For depths of 3 or more, the channel is a FIFO in every run exactly when the depth is a power of
      two; the constructor's own check for this never fails. */
  lemma FifoExactlyForPowersOfTwo(depth: nat)
    requires depth >= 3
    ensures depth == Wrap(depth)
       <==> forall outside: nat -> Outside, n: nat :: AllAllowed(depth, outside) ==> Faithful(Run(depth, outside, n))
  {
    if depth == Wrap(depth) {
      forall outside: nat -> Outside, n: nat | AllAllowed(depth, outside) ensures Faithful(Run(depth, outside, n)) {
        ChannelIsFifo(depth, outside, n);
      }
    } else {
      var n := LosesAWord(depth);
      var outside: nat -> Outside := Alternating;
      assert AllAllowed(depth, outside) && !Faithful(Run(depth, outside, n));
    }
  }
}
