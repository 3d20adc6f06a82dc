/** The plain Channel: a ready/valid rendezvous between a sender and a receiver that are clocked
together. */
module Rendezvous {

  datatype Phase = Free | Waiting | Finished

  /** At one edge: whether a free sender starts to send, the value of its word, and whether a free
      receiver starts to receive. */
  datatype Outside = Outside(send: bool, word: int, receive: bool)

  datatype Link = Link(ready: bool, valid: bool, data: int, sender: Phase, receiver: Phase, sent: seq<int>,
    received: seq<int>)

  const RESET := Link(false, false, 0, Free, Free, [], [])

  /** The waiting state of `send` holds the word and asserts valid until ready is seen, the state
      after it takes both back. */
  function NextSender(c: Link, o: Outside): Phase {
    if c.sender.Waiting? then (if c.ready then Finished else Waiting) else if o.send then Waiting else Free
  }

  /** The waiting state of `receive` asserts ready until valid is seen, the state after it takes the
      word. */
  function NextReceiver(c: Link, o: Outside): Phase {
    if c.receiver.Waiting? then (if c.valid then Finished else Waiting) else if o.receive then Waiting else Free
  }

  function StepSender(c: Link, next: Phase, word: int): Link {
    match next
    case Free => c.(sender := next)
    case Waiting => c.(sender := next, valid := true, data := word)
    case Finished => c.(sender := next, valid := false, data := 0, sent := c.sent + [c.data])
  }

  /** Both move on the registers before the edge. */
  function Step(c: Link, o: Outside): Link {
    var s, next := StepSender(c, NextSender(c, o), o.word), NextReceiver(c, o);
    match next
    case Free => s.(receiver := next)
    case Waiting => s.(receiver := next, ready := true)
    case Finished => s.(receiver := next, ready := false, received := c.received + [c.data])
  }

  function Run(outside: nat -> Outside, n: nat): Link {
    if n == 0 then RESET else Step(Run(outside, n - 1), outside(n - 1))
  }

  ghost predicate Inv(c: Link) {
    (c.valid <==> c.sender.Waiting?) && (c.ready <==> c.receiver.Waiting?) && c.sent == c.received
  }

  /** In every cycle of every run: valid is 1 exactly while the sender waits, ready exactly while the
      receiver waits, and the received words are the sent ones, in number and order. */
  lemma {:induction false} IsRendezvous(outside: nat -> Outside, n: nat)
    ensures Inv(Run(outside, n))
  {
    if n > 0 { IsRendezvous(outside, n - 1); }
  }

  /** The two sides finish on the same edge, and they do so exactly when both wait before it. */
  lemma FinishTogether(outside: nat -> Outside, n: nat)
    ensures var c, r := Run(outside, n), Run(outside, n + 1);
      && (r.sender.Finished? <==> c.sender.Waiting? && c.receiver.Waiting?)
      && (r.receiver.Finished? <==> c.sender.Waiting? && c.receiver.Waiting?)
      && (r.sender.Finished? ==> r.sent == c.sent + [c.data] && r.received == c.received + [c.data])
      && (!r.sender.Finished? ==> r.sent == c.sent && r.received == c.received)
  {
    IsRendezvous(outside, n);
  }

  /** A waiting side is released in the second edge after the other side starts to wait. */
  lemma WaitsForPartner(outside: nat -> Outside, n: nat)
    requires var c := Run(outside, n);
      || (c.sender.Waiting? && c.receiver.Free? && outside(n).receive)
      || (c.receiver.Waiting? && c.sender.Free? && outside(n).send)
    ensures Run(outside, n + 2).sender.Finished? && Run(outside, n + 2).receiver.Finished?
  {
    IsRendezvous(outside, n);
    FinishTogether(outside, n + 1);
    assert Run(outside, n + 1) == Step(Run(outside, n), outside(n));
  }

  class Channel {
    var ready: bool
    var valid: bool
    var data: int
    var sender: Phase
    var receiver: Phase
    ghost var sent: seq<int>
    ghost var received: seq<int>

    ghost function State(): Link
      reads this
    {
      Link(ready, valid, data, sender, receiver, sent, received)
    }

    constructor ()
      ensures State() == RESET
    {
      ready, valid, data, sender, receiver, sent, received := false, false, 0, Free, Free, [], [];
    }

    /** One clock edge of both workers; `target` is the receiver's scratch register. */
    method Clock(o: Outside) returns (target: int)
      requires Inv(State())
      modifies this
      ensures State() == Step(old(State()), o) && Inv(State())
      ensures receiver.Finished? ==> received == old(received) + [target] && sent == old(sent) + [target]
    {
      target := data;
      var seen := ready;
      if receiver.Waiting? {
        if valid { receiver, ready, received := Finished, false, received + [data]; }
      } else if o.receive {
        receiver, ready := Waiting, true;
      } else {
        receiver := Free;
      }
      if sender.Waiting? {
        if seen {
          sent := sent + [data];
          sender, valid, data := Finished, false, 0;
        } else {
          data := o.word;
        }
      } else if o.send {
        sender, valid, data := Waiting, true, o.word;
      } else {
        sender := Free;
      }
    }
  }
}
