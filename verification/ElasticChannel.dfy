/** The ElasticChannel as the registers it consists of, with the loops that build its multiplexers. */
module ElasticChannel {
  import opened Signals
  import opened ElasticChannelModel
  import ElasticChannelProof

  class Channel {
    const depth: nat
    var readPtr: nat
    var writePtr: nat
    var data: seq<int>
    var tx: int
    var producer: Producer
    var consumer: Consumer
    ghost var sent: seq<int>
    ghost var received: seq<int>

    /** The channel, with what went through it. */
    ghost function State(): Fifo
      reads this
    {
      Fifo(depth, data, readPtr, writePtr, tx, producer, consumer, sent, received)
    }

    /** The pointers get ceil(log2(depth)) bits. The check that the depth is a power of two looks at
        whether this rounded number is an integer, so it accepts every depth. */
    constructor (depth: nat)
      requires depth >= 1
      ensures this.depth == depth && State() == Reset(depth)
    {
      this.depth := depth;
      readPtr, writePtr, data, tx := 0, 0, seq(depth, _ => 0), 0;
      producer, consumer, sent, received := Idle, Busy, [], [];
    }

    /** `_next_rec_data_item`: a chain of multiplexers over all slots. */
    method NextReceived() returns (item: int)
      ensures item == Selected(data, readPtr)
    {
      item := 0;
      for i := 0 to |data|
        invariant item == if readPtr < i then data[readPtr] else 0
      {
        item := if readPtr == i then data[i] else item;
      }
    }

    /** `_new_data_values`: one multiplexer per slot. */
    method NewData() returns (values: seq<int>)
      ensures values == Put(data, writePtr, tx)
    {
      values := [];
      for i := 0 to |data|
        invariant |values| == i && forall k :: 0 <= k < i ==> values[k] == if writePtr == k then tx else data[k]
      {
        values := values + [if writePtr == i then tx else data[i]];
      }
    }

    /** The multiplexers of send_multiple: for each word of the reversed list, one per slot. */
    method MultipleData(items: seq<int>) returns (tmp: seq<int>)
      requires |data| == depth >= 1
      ensures tmp == PutAll(data, writePtr, Reverse(items))
    {
      var words := Reverse(items);
      tmp := data;
      for j := 0 to |words|
        invariant |tmp| == depth && tmp == PutAll(data, writePtr, words[..j])
      {
        assert words[..j + 1][..j] == words[..j];
        ghost var before := tmp;
        var position := (writePtr + j) % depth;
        for i := 0 to depth
          invariant |tmp| == depth
            && forall k :: 0 <= k < depth ==> tmp[k] == if k < i && position == k then words[j] else before[k]
        {
          tmp := tmp[i := if position == i then words[j] else tmp[i]];
        }
        assert tmp == before[position := words[j]];
      }
      assert words[..|words|] == words;
    }

    /** The beginning of `send_multiple`: what `Allowed` leaves out is an error there. */
    method SendMultiple(items: seq<int>, o: Outside) returns (ok: bool)
      requires o.start == ElasticChannelModel.SendMultiple(|items|) && !producer.MultiWait?
      ensures ok <==> |items| <= depth - 2
      ensures ok <==> Allowed(State(), o)
    {
      ok := !(|items| > depth - 2);
    }

    function CurrentLevel(): (level: int)
      requires depth >= 1
      reads this
      ensures level == Level(State())
    {
      (writePtr + depth - readPtr) % depth
    }

    /** The producer's half of an edge. */
    method ClockProducer(o: Outside, level: int)
      requires |data| == depth >= 1 && level == Level(State())
      modifies this`data, this`writePtr, this`tx, this`producer, this`sent
      ensures State() == StepProducer(old(State()), NextProducer(old(State()), o), o.word) && |data| == depth
    {
      hide Level, Wrap, PutAll, Reverse, CurrentLevel;
      match producer {
        case SendWait =>
          if level < depth - 2 {
            var values := NewData();
            producer, data, writePtr, sent := Pushed, values, (writePtr + 1) % Wrap(depth), sent + [tx];
          } else {
            tx := o.word;
          }
        case MultiWait(n) =>
          if level < depth - 1 - n {
            var values := MultipleData(o.items);
            producer, data := Stored(o.items), values;
          }
        case Stored(items) =>
          producer, writePtr, sent := Advanced, (writePtr + |items|) % Wrap(depth), sent + Reverse(items);
        case _ =>
          match o.start {
            case Nothing => producer := Idle;
            case Send => producer, tx := SendWait, o.word;
            case SendMultiple(n) => producer := MultiWait(n);
          }
      }
    }

    /** One clock edge: both workers' next states are determined and their assignments executed on
        the registers before the edge. */
    method Clock(o: Outside)
      requires |data| == depth >= 1
      modifies this
      ensures State() == Step(old(State()), o) && |data| == depth
    {
      hide Level, Wrap, PutAll, Put, Reverse, CurrentLevel, NextProducer, StepProducer;
      var level := CurrentLevel();
      var item := NextReceived();
      ClockProducer(o, level);
      if consumer == ReceiveWait && level != 0 {
        consumer, readPtr, received := Taken, (readPtr + 1) % Wrap(depth), received + [item];
      } else if consumer != ReceiveWait {
        consumer := if o.receive then ReceiveWait else Busy;
      }
    }

    /** ... which keeps a channel of a power-of-two depth a FIFO. */
    method ClockFifo(o: Outside)
      requires ElasticChannelProof.Inv(State()) && Allowed(State(), o)
      modifies this
      ensures State() == Step(old(State()), o) && ElasticChannelProof.Inv(State())
    {
      ElasticChannelProof.StepKeeps(State(), o);
      Clock(o);
    }
  }
}
