/** The ElasticChannel: a ring buffer between a producer and a consumer that are clocked together.

A producer operation passes through states whose assignments execute on entering them: `send`
waits while it holds the word in the transmit register, then stores it and advances the write
pointer; `send_multiple` waits, stores all words, then advances the pointer; `receive` waits,
then copies a word out and advances the read pointer. */
module ElasticChannelModel {
  import opened Signals

  // ----- Phases of the two workers -----

  datatype Producer =
    | Idle                                // anything else the producer does
    | SendWait                            // send: waiting for room
    | Pushed                              // send: the word is stored
    | MultiWait(count: nat)               // send_multiple: waiting for room
    | Stored(items: seq<int>)             // send_multiple: the words are stored
    | Advanced                            // send_multiple: the pointer is advanced

  datatype Consumer = Busy | ReceiveWait | Taken

  /** What the surroundings do at one clock edge: what the producer starts when it is free, the
      value of the words it sends, and whether a free consumer starts to receive. */
  datatype Start = Nothing | Send | SendMultiple(count: nat)
  datatype Outside = Outside(start: Start, word: int, items: seq<int>, receive: bool)

  /** The registers, the phases, and what has been sent and received so far. */
  datatype Fifo = Fifo(depth: nat, mem: seq<int>, readPtr: nat, writePtr: nat, tx: int,
                       producer: Producer, consumer: Consumer, sent: seq<int>, received: seq<int>)

  /** The pointers have ceil(log2(depth)) bits. */
  function Wrap(depth: nat): (m: nat)
    ensures m >= 1 && m >= depth
  {
    Pow2(CeilLog2(depth))
  }

  function Level(c: Fifo): int
    requires c.depth >= 1
  {
    (c.writePtr + c.depth - c.readPtr) % c.depth
  }

  function Reset(depth: nat): Fifo {
    Fifo(depth, seq(depth, _ => 0), 0, 0, 0, Idle, Busy, [], [])
  }

  // ----- The next states -----

  function NextProducer(c: Fifo, o: Outside): Producer
    requires c.depth >= 1
  {
    match c.producer
    case SendWait => if Level(c) < c.depth - 2 then Pushed else SendWait
    case MultiWait(n) => if Level(c) < c.depth - 1 - n then Stored(o.items) else MultiWait(n)
    case Stored(_) => Advanced
    case _ => match o.start case Nothing => Idle case Send => SendWait case SendMultiple(n) => MultiWait(n)
  }

  function NextConsumer(c: Fifo, o: Outside): Consumer
    requires c.depth >= 1
  {
    match c.consumer
    case ReceiveWait => if Level(c) != 0 then Taken else ReceiveWait
    case _ => if o.receive then ReceiveWait else Busy
  }

  /** `send_multiple` raises for lists longer than depth - 2. */
  predicate Allowed(c: Fifo, o: Outside) {
    && (o.start.SendMultiple? ==> o.start.count + 2 <= c.depth)
    && (c.producer.MultiWait? ==> |o.items| == c.producer.count)
  }

  // ----- The multiplexers -----

  /** The word the read pointer selects; 0 if it selects none. */
  function Selected(mem: seq<int>, ptr: nat): int { if ptr < |mem| then mem[ptr] else 0 }

  /** The word is stored where the write pointer points, if there is such a place. */
  function Put(mem: seq<int>, ptr: nat, word: int): seq<int> { if ptr < |mem| then mem[ptr := word] else mem }

  function Reverse(s: seq<int>): (r: seq<int>)
    ensures |r| == |s| && forall k :: 0 <= k < |s| ==> r[k] == s[|s| - 1 - k]
  {
    if s == [] then [] else Reverse(s[1..]) + [s[0]]
  }

  /** The words go to consecutive places from the write pointer on, modulo the depth; the last word
      of the list first. */
  function PutAll(mem: seq<int>, ptr: nat, words: seq<int>): (r: seq<int>)
    ensures |r| == |mem|
    decreases |words|
  {
    if words == [] || |mem| == 0 then mem
    else PutAll(mem, ptr, words[..|words| - 1])[(ptr + |words| - 1) % |mem| := words[|words| - 1]]
  }

  // ----- One clock edge -----

  function StepProducer(c: Fifo, next: Producer, word: int): Fifo {
    match next
    case SendWait => c.(producer := next, tx := word)
    case Pushed => c.(producer := next, mem := Put(c.mem, c.writePtr, c.tx),
      writePtr := (c.writePtr + 1) % Wrap(c.depth),
                      sent := c.sent + [c.tx])
    case Stored(items) => c.(producer := next, mem := PutAll(c.mem, c.writePtr, Reverse(items)))
    case Advanced =>
      var items := if c.producer.Stored? then c.producer.items else [];
      c.(producer := next, writePtr := (c.writePtr + |items|) % Wrap(c.depth), sent := c.sent + Reverse(items))
    case _ => c.(producer := next)
  }

  /** Both workers move on the registers before the edge. */
  function Step(c: Fifo, o: Outside): (r: Fifo)
    requires c.depth >= 1
    ensures r.depth == c.depth && r.producer == NextProducer(c, o)
  {
    var p := StepProducer(c, NextProducer(c, o), o.word);
    var next := NextConsumer(c, o);
    if next.Taken? then
      p.(consumer := next, readPtr := (c.readPtr + 1) % Wrap(c.depth),
         received := c.received + [Selected(c.mem, c.readPtr)])
    else
      p.(consumer := next)
  }

  /** The main worker enters its reset state, which holds the reset values of all registers, while neither side
      writes one; a waiting sender writes its word again. */
  function Cleared(c: Fifo): Fifo {
    c.(mem := seq(c.depth, _ => 0), readPtr := 0, writePtr := 0, tx := if c.producer.SendWait? then c.tx else 0)
  }

  ghost function Run(depth: nat, outside: nat -> Outside, n: nat): (c: Fifo)
    requires depth >= 1
    ensures c.depth == depth
  {
    if n == 0 then Reset(depth) else Step(Run(depth, outside, n - 1), outside(n - 1))
  }

  /** Every call of the producer is allowed. */
  ghost predicate AllAllowed(depth: nat, outside: nat -> Outside)
    requires depth >= 1
  {
    forall n: nat {:trigger outside(n)} :: Allowed(Run(depth, outside, n), outside(n))
  }
}
