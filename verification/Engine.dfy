/** The part of a noRTL engine the state-graph algorithms work on. */
module Engine {
  import opened Signals
  import opened Selectors
  import opened Cycle

  /** Workers are kept as values in a list; an algorithm that changes the transitions or the
      state list of a worker reassigns its entry. */
  class CoreEngine {
    var workers: seq<Fsm>
    var counters: seq<nat>                // `_state_ctr` of each worker
    var waits: seq<Option<StateId>>       // the state named WAIT of each worker, if there is one
    var pulsing: set<string>
    var inputs: set<string>

    function CurrentDesign(): Design
      reads this
    {
      Design(workers, pulsing, inputs)
    }

    ghost predicate Valid()
      reads this
    {
      && |counters| == |waits| == |workers|
      && CurrentDesign().Valid()
      && forall w, s :: 0 <= w < |workers| && s in workers[w].body ==> s < counters[w]
    }

    constructor ()
      ensures Valid() && CurrentDesign() == Design([Fsm([0], map[0 := NoState], 0, False)], {}, {})
      ensures counters == [1] && waits == [None]
    {
      workers, counters, waits := [Fsm([0], map[0 := NoState], 0, False)], [1], [None];
      pulsing, inputs := {}, {};
    }

    /** A new worker, consisting of its reset state. */
    method CreateWorker() returns (w: nat)
      requires Valid()
      modifies this`workers, this`counters, this`waits
      ensures Valid() && w == old(|workers|)
      ensures workers == old(workers) + [Fsm([0], map[0 := NoState], 0, False)]
      ensures counters == old(counters) + [1] && waits == old(waits) + [None]
    {
      w := |workers|;
      workers := workers + [Fsm([0], map[0 := NoState], 0, False)];
      counters, waits := counters + [1], waits + [None];
    }

    /** A new, empty state at the end of the worker's list. */
    method CreateState(w: nat) returns (s: StateId)
      requires Valid() && w < |workers|
      modifies this`workers, this`counters
      ensures Valid() && s == old(counters[w]) && s !in old(workers[w].body)
      ensures workers == old(workers)[w := old(workers[w]).(states := old(workers[w].states) + [s],
                                                          body := old(workers[w].body)[s := NoState])]
      ensures counters == old(counters)[w := s + 1]
    {
      s := counters[w];
      var f := workers[w];
      var g := f.(states := f.states + [s], body := f.body[s := NoState]);
      assert f.Valid() && s !in f.states;
      assert g.Valid() by {
        assert forall x :: x in g.states <==> x in f.states || x == s;
        assert forall x :: x in g.body && x != s ==> g.body[x] == f.body[x];
      }
      workers := workers[w := g];
      counters := counters[w := s + 1];
    }
  }
}
