/** The compiler of segments: `call_segment`, `push_return_address` and the rendering of segment
bodies, and the proof that they emit well-formed programs. */
module SegmentCompiler {
  import opened Signals
  import opened Selectors
  import opened SegmentModel

  // ----- What one call does to the program -----

  /** `push_return_address` on a state's assignments: a return address that the state restores
      for a call just before is replaced, and the restored value goes to the own backup instead,
      unless it comes from there. */
  function PushAddress(node: Node, f: Impl, id: nat): Node {
    match node.address
    case Some(v) => node.(address := Some(Id(id)), backups := if v == FromBackup(f) then node.backups
      else node.backups[f := v])
    case None => node.(address := Some(Id(id)), backups := node.backups[f := FromAddress])
  }

  /** The states of one call: the calling state, the state after a protective sync for the inputs,
      the copy-out state, the return state. */
  datatype Site = Site(enter: StateId, leave: Option<StateId>, out: Option<StateId>, back: StateId) {
    function Land(): StateId { if out.Some? then out.value else back }

    /** The new states are new. */
    predicate New(p: Program) {
      && enter in p.nodes && back !in p.nodes
      && (leave.Some? ==> leave.value !in p.nodes && leave.value != back)
      && (out.Some? ==> out.value !in p.nodes && out.value != back && out != leave)
    }
  }

  function CallOf(p: Program, at: Site, q: Proc, r: Proc, id: nat): Call
    requires p.RoleOf(at.enter).Body?
  {
    Call(q, r, id, at.enter, at.Land(), at.back, p.RoleOf(at.enter).holds - p.Touch(r))
  }

  function AddJump(node: Node, jump: Jump): Node { node.(jumps := node.jumps + [jump]) }

  const EMPTY := Node(None, map[], [])

  /** The jump to the segment, over a further state if the inputs need a protective sync. */
  function Entering(p: Program, enter: StateId, start: StateId, call: nat, leave: Option<StateId>): Program {
    if leave.Some? then
      p.(nodes := p.nodes[leave.value := EMPTY][enter := AddJump(p.At(enter), Jump(Taken, leave.value))]
                         [leave.value := AddJump(EMPTY, Jump(Taken, start))],
         roles := p.roles[leave.value := Launch(call)])
    else
      p.(nodes := p.nodes[enter := AddJump(p.At(enter), Jump(Taken, start))])
  }

  /** The return from the end state, over a copy-out state if the results need a sync. */
  function Returning(p: Program, end: StateId, id: nat, f: Impl, copying: Role, after: Role, out: Option<StateId>,
      back: StateId): Program {
    if out.Some? then
      p.(nodes := p.nodes[out.value := EMPTY][end := AddJump(p.At(end), Jump(AddressIs(id), out.value))][back := EMPTY]
                         [out.value := AddJump(EMPTY, Jump(Taken, back))]
                         [back := EMPTY.(address := Some(FromBackup(f)))],
         roles := p.roles[out.value := copying][back := after])
    else
      p.(nodes := p.nodes[back := EMPTY][end := AddJump(p.At(end), Jump(AddressIs(id), back))]
                         [back := EMPTY.(address := Some(FromBackup(f)))],
         roles := p.roles[back := after])
  }

  function Called(p: Program, at: Site, q: Proc, r: Proc, id: nat, width: nat): Program
    requires p.RoleOf(at.enter).Body?
  {
    var c, f, call := |p.calls|, p.SegOf(r).impl, CallOf(p, at, q, r, id);
    var pushed := p.(nodes := p.nodes[at.enter := PushAddress(p.At(at.enter), f, id)]);
    var entered := Entering(pushed, at.enter, p.SegOf(r).start, c, at.leave);
    var left := Returning(entered, p.SegOf(r).end, id, f, Leaving(c), Body(q, call.keep + {f}), at.out, at.back);
    p.(nodes := left.nodes, roles := left.roles[at.enter := Launch(c)], width := width, calls := p.calls + [call],
       touch := p.touch[q := p.Touch(q) + {f} + p.Touch(r)])
  }

  // ----- Programs under construction -----

  /** A state of procedure q that may still be extended: q is not finished. */
  ghost predicate Live(p: Program, q: Proc, s: StateId) {
    s in p.nodes && p.RoleOf(s).Body? && p.RoleOf(s).p == q && q !in p.segs
  }

  /** What a caller can look up: t is under construction in the same procedure as s, and every backup register
      that holds the return address at t holds it at s, too. */
  predicate Covered(p: Program, q: Proc, s: StateId, t: StateId) {
    && t in p.nodes && p.RoleOf(t).Body? && p.RoleOf(t).p == q && q !in p.segs
    && p.RoleOf(s).Body? && p.RoleOf(t).holds <= p.RoleOf(s).holds
  }

  /** A finished segment can be called. */
  ghost predicate Finished(p: Program, r: Proc) {
    && r in p.segs && r != MAIN
    && p.segs[r].end in p.nodes && p.RoleOf(p.segs[r].end).Body? && p.RoleOf(p.segs[r].end).p == r
    && Accepts(p, r, {}, p.segs[r].start)
    && p.segs[r].impl !in p.Touch(r)
  }

  /** IDs are given out in order. */
  ghost predicate Counted(p: Program, counts: map<Proc, nat>) {
    && (forall r :: r in p.segs ==> r in counts)
    && (forall c :: 0 <= c < |p.calls| ==> p.calls[c].callee in counts && p.calls[c].id < counts[p.calls[c].callee])
  }

  ghost predicate Buildable(p: Program, counts: map<Proc, nat>) {
    && WellFormed(p) && Counted(p, counts)
    && forall r {:trigger Finished(p, r)} :: r in p.segs ==> Finished(p, r)
  }

  /** What a call from q to r may change. */
  ghost predicate Calling(p: Program, at: Site, q: Proc, r: Proc, id: nat, width: nat) {
    && at.New(p) && Live(p, q, at.enter) && Finished(p, r)
    && p.width <= width && id < Pow2(width)
    && (forall c :: 0 <= c < |p.calls| && p.calls[c].callee == r ==> p.calls[c].id < id)
  }

  // ----- A call keeps the program well-formed -----

  /** States the call does not create keep role and assignments, except the calling state. */
  lemma OldState(p: Program, at: Site, q: Proc, r: Proc, id: nat, width: nat, t: StateId)
    requires Calling(p, at, q, r, id, width) && t in p.nodes && t != at.enter
    ensures var p2 := Called(p, at, q, r, id, width);
      && t in p2.nodes && p2.RoleOf(t) == p.RoleOf(t)
      && p2.At(t).address == p.At(t).address && p2.At(t).backups == p.At(t).backups
      && (t != p.SegOf(r).end ==> p2.At(t) == p.At(t))
      && (t == p.SegOf(r).end ==> p2.At(t).jumps == p.At(t).jumps + [Jump(AddressIs(id), at.Land())])
  {}

  lemma CallingState(p: Program, at: Site, q: Proc, r: Proc, id: nat, width: nat)
    requires Calling(p, at, q, r, id, width)
    ensures var p2 := Called(p, at, q, r, id, width);
      && at.enter in p2.nodes && p2.RoleOf(at.enter) == Launch(|p.calls|)
      && p2.At(at.enter) == AddJump(PushAddress(p.At(at.enter), p.SegOf(r).impl, id),
                                    Jump(Taken, if at.leave.Some? then at.leave.value else p.SegOf(r).start))
  {
    assert at.enter != p.SegOf(r).end;
  }

  lemma NewStates(p: Program, at: Site, q: Proc, r: Proc, id: nat, width: nat)
    requires Calling(p, at, q, r, id, width)
    ensures var p2 := Called(p, at, q, r, id, width);
      && p2.nodes.Keys == p.nodes.Keys + {at.back} + (if at.leave.Some? then {at.leave.value} else {})
        + (if at.out.Some? then {at.out.value} else {})
      && p2.RoleOf(at.back) == Body(q, CallOf(p, at, q, r, id).keep + {p.SegOf(r).impl})
      && p2.At(at.back) == Node(Some(FromBackup(p.SegOf(r).impl)), map[], [])
      && (at.leave.Some? ==> p2.RoleOf(at.leave.value) == Launch(|p.calls|))
      && (at.leave.Some? ==> p2.At(at.leave.value) == Node(None, map[], [Jump(Taken, p.SegOf(r).start)]))
      && (at.out.Some? ==> p2.RoleOf(at.out.value) == Leaving(|p.calls|))
      && (at.out.Some? ==> p2.At(at.out.value) == Node(None, map[], [Jump(Taken, at.back)]))
  {
    var e := p.SegOf(r).end;
    assert e in p.nodes;
  }

  lemma AcceptsStill(p: Program, at: Site, q: Proc, r: Proc, id: nat, width: nat, x: Proc, holds: set<Impl>, t: StateId)
    requires Calling(p, at, q, r, id, width) && Accepts(p, x, holds, t)
    ensures Accepts(Called(p, at, q, r, id, width), x, holds, t)
  {
    hide Entering, Returning, PushAddress;
    var p2 := Called(p, at, q, r, id, width);
    if t == at.enter {
      CallingState(p, at, q, r, id, width);
      EnterAccepts(p, p2, at, q, r, id, x, holds);
    } else {
      OldState(p, at, q, r, id, width, t);
      if p.RoleOf(t).Launch? { }
    }
  }

  /** The calling state is still accepted where it was: what it restored goes to the new backup. */
  lemma EnterAccepts(p: Program, p2: Program, at: Site, q: Proc, r: Proc, id: nat, x: Proc, holds: set<Impl>)
    requires Live(p, q, at.enter) && Accepts(p, x, holds, at.enter)
    requires at.enter in p2.nodes && p2.RoleOf(at.enter) == Launch(|p.calls|)
    requires p2.calls == p.calls + [CallOf(p, at, q, r, id)] && p2.segs == p.segs
    requires var node, pushed := p2.At(at.enter), PushAddress(p.At(at.enter), p.SegOf(r).impl, id);
      node.address == pushed.address && node.backups == pushed.backups
    ensures Accepts(p2, x, holds, at.enter)
  {
    var f := p.SegOf(r).impl;
    var node := p.At(at.enter);
    assert p2.calls[|p.calls|] == CallOf(p, at, q, r, id);
    if node.address == Some(Id(0)) {
      assert p2.At(at.enter).backups == map[f := Id(0)];
    } else if node.address.Some? {
      var g :| g in holds && node.address == Some(FromBackup(g));
      if g != f { assert p2.At(at.enter).backups == map[f := FromBackup(g)]; }
    } else {
      assert p2.At(at.enter).backups == map[f := FromAddress];
    }
  }

  lemma ResumesStill(p: Program, at: Site, q: Proc, r: Proc, id: nat, width: nat, c: nat, t: StateId)
    requires Calling(p, at, q, r, id, width) && c < |p.calls| && Resumes(p, p.calls[c], t)
    ensures var p2 := Called(p, at, q, r, id, width); Resumes(p2, p2.calls[c], t)
  {
    AcceptsStill(p, at, q, r, id, width, p.calls[c].caller, p.Keeps(p.calls[c]), t);
    if t == at.enter { CallingState(p, at, q, r, id, width); } else { OldState(p, at, q, r, id, width, t); }
  }

  lemma OldCallOk(p: Program, at: Site, q: Proc, r: Proc, id: nat, width: nat, c: nat)
    requires WellFormed(p) && Calling(p, at, q, r, id, width) && c < |p.calls|
    ensures CallOk(Called(p, at, q, r, id, width), c)
  {
    hide Entering, Returning, PushAddress;
    var call := p.calls[c];
    assert CallOk(p, c);
    ResumesStill(p, at, q, r, id, width, c, call.back);
    OldState(p, at, q, r, id, width, call.enter);
    if call.land != call.back { OldState(p, at, q, r, id, width, call.land); }
      else { NewStates(p, at, q, r, id, width); }
    PowGrows(p.width, width);
  }

  lemma OldStateOk(p: Program, at: Site, q: Proc, r: Proc, id: nat, width: nat, s: StateId)
    requires WellFormed(p) && Calling(p, at, q, r, id, width) && s in p.nodes && s != at.enter
    ensures StateOk(Called(p, at, q, r, id, width), s)
  {
    hide Entering, Returning, PushAddress;
    var p2, jumps := Called(p, at, q, r, id, width), p.At(s).jumps;
    assert StateOk(p, s);
    OldState(p, at, q, r, id, width, s);
    match p.RoleOf(s)
    case Body(x, holds) =>
      if x in p.segs && p.segs[x].end == s {
        EndStill(p, at, q, r, id, width, x);
      } else {
        assert s != p.SegOf(r).end;
        AcceptsStill(p, at, q, r, id, width, x, holds, s);
        forall i | 0 <= i < |jumps| ensures Accepts(p2, x, holds, jumps[i].target) {
          AcceptsStill(p, at, q, r, id, width, x, holds, jumps[i].target);
        }
      }
    case Launch(c) =>
      var t := jumps[|jumps| - 1].target;
      if t == p.SegOf(p.calls[c].callee).start && Accepts(p, p.calls[c].callee, {}, t) {
        AcceptsStill(p, at, q, r, id, width, p.calls[c].callee, {}, t);
      } else {
        OldState(p, at, q, r, id, width, t);
      }
    case Leaving(c) =>
  }

  lemma EndStill(p: Program, at: Site, q: Proc, r: Proc, id: nat, width: nat, x: Proc)
    requires WellFormed(p) && Calling(p, at, q, r, id, width) && x in p.segs
    requires p.segs[x].end in p.nodes && p.RoleOf(p.segs[x].end).Body? && p.RoleOf(p.segs[x].end).p == x
    requires EndOk(p, x, p.At(p.segs[x].end).jumps)
    ensures var p2 := Called(p, at, q, r, id, width); EndOk(p2, x, p2.At(p.segs[x].end).jumps)
  {
    hide Accepts, CallOk, StateOk, Entering, Returning, PushAddress;
    var p2, s, n := Called(p, at, q, r, id, width), p.segs[x].end, |p.calls|;
    var jumps := p.At(s).jumps;
    OldState(p, at, q, r, id, width, s);
    var jumps2 := p2.At(s).jumps;
    assert p2.calls[n] == CallOf(p, at, q, r, id);
    assert forall i :: 0 <= i < |jumps| ==> jumps2[i] == jumps[i];
    assert |jumps2| == |jumps| + if x == r then 1 else 0;
    forall i | 0 <= i < |jumps2| ensures SomeReturn(p2, x, jumps2[i]) {
      if i < |jumps| {
        assert jumps2[i] == jumps[i];
        assert SomeReturn(p, x, jumps[i]);
        var c: nat :| IsReturn(p, x, c, jumps[i]);
        assert IsReturn(p2, x, c, jumps2[i]);
      } else {
        assert IsReturn(p2, x, n, jumps2[i]);
      }
    }
    forall c | 0 <= c < |p2.calls| && p2.calls[c].callee == x
      ensures Jump(AddressIs(p2.calls[c].id), p2.calls[c].land) in jumps2 {
      if c < n {
        assert p2.calls[c] == p.calls[c];
        var k :| 0 <= k < |jumps| && jumps[k] == Jump(AddressIs(p.calls[c].id), p.calls[c].land);
        assert jumps2[k] == jumps[k];
      } else {
        assert x == r && jumps2[|jumps|] == Jump(AddressIs(p2.calls[c].id), p2.calls[c].land);
      }
    }
    forall i, j | 0 <= i < j < |jumps2| ensures jumps2[i].cond != jumps2[j].cond {
      if j < |jumps| {
        assert jumps2[i] == jumps[i] && jumps2[j] == jumps[j];
      } else {
        assert SomeReturn(p, x, jumps[i]);
        var c: nat :| IsReturn(p, x, c, jumps[i]);
      }
    }
  }

  lemma NewStateOk(p: Program, at: Site, q: Proc, r: Proc, id: nat, width: nat, s: StateId)
    requires Calling(p, at, q, r, id, width)
    requires s == at.enter || s == at.back || Some(s) == at.leave || Some(s) == at.out
    ensures StateOk(Called(p, at, q, r, id, width), s)
  {
    hide Entering, Returning, PushAddress;
    var p2, c, start := Called(p, at, q, r, id, width), |p.calls|, p.SegOf(r).start;
    NewStates(p, at, q, r, id, width);
    CallingState(p, at, q, r, id, width);
    AcceptsStill(p, at, q, r, id, width, r, {}, start);
    assert p2.calls[c] == CallOf(p, at, q, r, id);
    if s == at.back {
      assert Accepts(p2, q, p2.RoleOf(s).holds, s);
    }
  }

  lemma NewCallOk(p: Program, at: Site, q: Proc, r: Proc, id: nat, width: nat)
    requires Calling(p, at, q, r, id, width)
    ensures CallOk(Called(p, at, q, r, id, width), |p.calls|)
  {
    hide Entering, Returning, PushAddress;
    NewStates(p, at, q, r, id, width);
    CallingState(p, at, q, r, id, width);
  }

  /** A call of a finished segment keeps the program well-formed, whatever the protective syncs
      and whether or not it is chained to the call before. */
  lemma CalledWellFormed(p: Program, at: Site, q: Proc, r: Proc, id: nat, width: nat)
    requires WellFormed(p) && Calling(p, at, q, r, id, width)
    ensures WellFormed(Called(p, at, q, r, id, width))
  {
    hide Accepts, Entering, Returning, PushAddress;
    var p2 := Called(p, at, q, r, id, width);
    NewStates(p, at, q, r, id, width);
    AcceptsStill(p, at, q, r, id, width, MAIN, {}, p.reset);
    forall s {:trigger StateOk(p2, s)} | s in p2.nodes ensures StateOk(p2, s) {
      if s in p.nodes && s != at.enter {
        OldStateOk(p, at, q, r, id, width, s);
      } else {
        NewStateOk(p, at, q, r, id, width, s);
      }
    }
    forall c {:trigger CallOk(p2, c)} | 0 <= c < |p2.calls| ensures CallOk(p2, c) {
      if c < |p.calls| { OldCallOk(p, at, q, r, id, width, c); } else { NewCallOk(p, at, q, r, id, width); }
    }
  }

  // ----- Other steps of the compiler -----

  /** A new state, entered from the state s or from nowhere yet. */
  function Grown(p: Program, n: StateId, q: Proc, holds: set<Impl>): Program {
    p.(nodes := p.nodes[n := Node(None, map[], [])], roles := p.roles[n := Body(q, holds)])
  }

  lemma GrownWellFormed(p: Program, counts: map<Proc, nat>, n: StateId, q: Proc, holds: set<Impl>)
    requires Buildable(p, counts) && n !in p.nodes && q !in p.segs
    ensures Buildable(Grown(p, n, q, holds), counts)
    ensures Accepts(Grown(p, n, q, holds), q, holds, n)
  {
    var p2 := Grown(p, n, q, holds);
    forall s {:trigger StateOk(p2, s)} | s in p2.nodes ensures StateOk(p2, s) {
      if s != n {
        assert StateOk(p, s);
        GrownStateOk(p, n, q, holds, s);
      } else {
        assert p2.At(n).jumps == [];
      }
    }
    forall c {:trigger CallOk(p2, c)} | 0 <= c < |p2.calls| ensures CallOk(p2, c) {
      assert CallOk(p, c);
    }
    forall r {:trigger Finished(p2, r)} | r in p2.segs ensures Finished(p2, r) {
      assert Finished(p, r);
    }
  }

  lemma EndSame(p: Program, p2: Program, q: Proc, jumps: seq<Jump>)
    requires EndOk(p, q, jumps) && p2.calls == p.calls
    ensures EndOk(p2, q, jumps)
  {
    forall i | 0 <= i < |jumps| ensures SomeReturn(p2, q, jumps[i]) {
      assert SomeReturn(p, q, jumps[i]);
      var c: nat :| IsReturn(p, q, c, jumps[i]);
      assert IsReturn(p2, q, c, jumps[i]);
    }
  }

  lemma GrownStateOk(p: Program, n: StateId, q: Proc, holds: set<Impl>, s: StateId)
    requires s in p.nodes && n !in p.nodes && StateOk(p, s)
    ensures StateOk(Grown(p, n, q, holds), s)
  {
    var p2, jumps := Grown(p, n, q, holds), p.At(s).jumps;
    match p.RoleOf(s)
    case Body(x, h) =>
      if x in p.segs && p.segs[x].end == s {
        EndSame(p, p2, x, jumps);
      } else {
        forall i | 0 <= i < |jumps| ensures Accepts(p2, x, h, jumps[i].target) { }
      }
    case Launch(c) =>
    case Leaving(_) =>
  }

  /** One more transition of a state under construction. */
  function Jumping(p: Program, s: StateId, jump: Jump): Program {
    p.(nodes := p.nodes[s := AddJump(p.At(s), jump)])
  }

  lemma JumpingAccepts(p: Program, s: StateId, jump: Jump, x: Proc, h: set<Impl>, t: StateId)
    requires s in p.nodes
    ensures Accepts(Jumping(p, s, jump), x, h, t) <==> Accepts(p, x, h, t)
  {}

  lemma JumpingOnlyIf(p: Program, counts: map<Proc, nat>, q: Proc, s: StateId, jump: Jump)
    requires Live(p, q, s) && Buildable(Jumping(p, s, jump), counts)
    ensures Accepts(p, q, p.RoleOf(s).holds, jump.target)
  {
    hide Accepts;
    var p2 := Jumping(p, s, jump);
    assert StateOk(p2, s) && p2.At(s).jumps[|p.At(s).jumps|] == jump;
    JumpingAccepts(p, s, jump, q, p.RoleOf(s).holds, jump.target);
  }

  lemma JumpingStateOk(p: Program, q: Proc, s: StateId, jump: Jump, t: StateId)
    requires Live(p, q, s) && !jump.cond.AddressIs? && Accepts(p, q, p.RoleOf(s).holds, jump.target)
    requires t in p.nodes && StateOk(p, t)
    ensures StateOk(Jumping(p, s, jump), t)
  {
    var p2, jumps := Jumping(p, s, jump), p.At(t).jumps;
    match p.RoleOf(t)
    case Body(x, h) =>
      if x in p.segs && p.segs[x].end == t {
        EndSame(p, p2, x, jumps);
      } else {
        JumpingAccepts(p, s, jump, x, h, t);
        forall i | 0 <= i < |jumps|
          ensures Accepts(p2, x, h, jumps[i].target)
        {
          JumpingAccepts(p, s, jump, x, h, jumps[i].target);
        }
        if t == s { JumpingAccepts(p, s, jump, x, h, jump.target); }
      }
    case Launch(c) =>
      var u := jumps[|jumps| - 1].target;
      if Accepts(p, p.calls[c].callee, {}, u) { JumpingAccepts(p, s, jump, p.calls[c].callee, {}, u); }
    case Leaving(_) =>
  }

  lemma JumpingWellFormed(p: Program, counts: map<Proc, nat>, q: Proc, s: StateId, jump: Jump)
    requires Buildable(p, counts) && Live(p, q, s) && !jump.cond.AddressIs?
    requires Accepts(p, q, p.RoleOf(s).holds, jump.target)
    ensures Buildable(Jumping(p, s, jump), counts)
  {
    hide Accepts;
    var p2 := Jumping(p, s, jump);
    JumpingAccepts(p, s, jump, MAIN, {}, p.reset);
    forall t {:trigger StateOk(p2, t)} | t in p2.nodes ensures StateOk(p2, t) {
      assert StateOk(p, t);
      JumpingStateOk(p, q, s, jump, t);
    }
    forall c {:trigger CallOk(p2, c)} | 0 <= c < |p2.calls| ensures CallOk(p2, c) {
      assert CallOk(p, c);
      JumpingAccepts(p, s, jump, p.calls[c].caller, p.Keeps(p.calls[c]), p.calls[c].back);
    }
    forall r {:trigger Finished(p2, r)} | r in p2.segs ensures Finished(p2, r) {
      assert Finished(p, r);
      JumpingAccepts(p, s, jump, r, {}, p.segs[r].start);
    }
  }

  /** The segment q is rendered. */
  function Rendered(p: Program, q: Proc, seg: Segment): Program { p.(segs := p.segs[q := seg]) }

  ghost predicate Uncalled(p: Program, q: Proc) {
    forall c {:trigger p.calls[c]} :: 0 <= c < |p.calls| ==> p.calls[c].callee != q
  }

  lemma RenderedAccepts(p: Program, q: Proc, seg: Segment, x: Proc, h: set<Impl>, t: StateId)
    requires Uncalled(p, q) && Accepts(p, x, h, t)
    ensures Accepts(Rendered(p, q, seg), x, h, t)
  {
    var p2 := Rendered(p, q, seg);
    if p.RoleOf(t).Launch? { assert p2.ImplOf(p2.calls[p.RoleOf(t).c]) == p.ImplOf(p.calls[p.RoleOf(t).c]); }
  }

  lemma RenderedStateOk(p: Program, q: Proc, seg: Segment, t: StateId)
    requires Uncalled(p, q) && p.At(seg.end).jumps == [] && q !in p.segs
    requires t in p.nodes && StateOk(p, t)
    ensures StateOk(Rendered(p, q, seg), t)
  {
    hide Accepts;
    var p2, jumps := Rendered(p, q, seg), p.At(t).jumps;
    match p.RoleOf(t)
    case Body(x, h) =>
      if x in p.segs && p.segs[x].end == t {
        EndSame(p, p2, x, jumps);
      } else {
        RenderedAccepts(p, q, seg, x, h, t);
        forall i | 0 <= i < |jumps|
          ensures Accepts(p2, x, h, jumps[i].target)
        {
          RenderedAccepts(p, q, seg, x, h, jumps[i].target);
        }
      }
    case Launch(c) =>
      var u := jumps[|jumps| - 1].target;
      if Accepts(p, p.calls[c].callee, {}, u) { RenderedAccepts(p, q, seg, p.calls[c].callee, {}, u); }
    case Leaving(_) =>
  }

  lemma RenderedCallOk(p: Program, q: Proc, seg: Segment, c: nat)
    requires Uncalled(p, q) && c < |p.calls| && CallOk(p, c)
    ensures CallOk(Rendered(p, q, seg), c)
  {
    var p2, call := Rendered(p, q, seg), p.calls[c];
    assert p2.ImplOf(call) == p.ImplOf(call) && p2.Keeps(call) == p.Keeps(call);
    RenderedAccepts(p, q, seg, call.caller, p.Keeps(call), call.back);
  }

  lemma RenderedWellFormed(p: Program, counts: map<Proc, nat>, q: Proc, seg: Segment)
    requires Buildable(p, counts) && q != MAIN && Live(p, q, seg.end) && p.At(seg.end).jumps == []
    requires Accepts(p, q, {}, seg.start) && seg.impl !in p.Touch(q)
    ensures Uncalled(p, q) && Buildable(Rendered(p, q, seg), counts[q := 0])
  {
    hide Accepts;
    var p2 := Rendered(p, q, seg);
    assert Uncalled(p, q) by {
      forall c | 0 <= c < |p.calls| ensures p.calls[c].callee != q { assert CallOk(p, c); }
    }
    forall t {:trigger StateOk(p2, t)} | t in p2.nodes ensures StateOk(p2, t) {
      assert StateOk(p, t);
      RenderedStateOk(p, q, seg, t);
    }
    forall c {:trigger CallOk(p2, c)} | 0 <= c < |p2.calls| ensures CallOk(p2, c) {
      assert CallOk(p, c);
      RenderedCallOk(p, q, seg, c);
    }
    RenderedAccepts(p, q, seg, MAIN, {}, p.reset);
    RenderedAccepts(p, q, seg, q, {}, seg.start);
    forall r {:trigger Finished(p2, r)} | r in p2.segs ensures Finished(p2, r) {
      if r != q {
        assert Finished(p, r);
        RenderedAccepts(p, q, seg, r, {}, p.segs[r].start);
      }
    }
  }

  /** ... and the two conditions are needed. */
  lemma RenderedOnlyIf(p: Program, counts: map<Proc, nat>, q: Proc, seg: Segment)
    requires WellFormed(p) && Live(p, q, seg.end) && Buildable(Rendered(p, q, seg), counts)
    ensures p.At(seg.end).jumps == [] && seg.impl !in p.Touch(q)
  {
    hide Accepts, CallOk;
    var p2, jumps := Rendered(p, q, seg), p.At(seg.end).jumps;
    assert Finished(p2, q) && StateOk(p2, seg.end);
    if jumps != [] {
      assert EndOk(p2, q, p2.At(seg.end).jumps) && SomeReturn(p2, q, jumps[0]);
      var c: nat :| IsReturn(p2, q, c, jumps[0]);
      CalleeRendered(p, c);
    }
  }

  lemma CalleeRendered(p: Program, c: nat)
    requires WellFormed(p) && c < |p.calls|
    ensures p.calls[c].callee in p.segs
  {
    assert CallOk(p, c);
  }

  // ----- The compiler -----

  /** A segment being rendered: where it started, and the state of the surrounding program to
      return to. */
  datatype Rendering = Rendering(proc: Proc, impl: Impl, start: StateId, resume: StateId)

  function Current(levels: seq<Rendering>): Proc { if levels == [] then MAIN else levels[|levels| - 1].proc }

  ghost predicate LevelOk(p: Program, levels: seq<Rendering>, i: nat)
    requires i < |levels|
  {
    && Current(levels[..i]) < levels[i].proc && levels[i].proc !in p.segs
    && Accepts(p, levels[i].proc, {}, levels[i].start)
    && Live(p, Current(levels[..i]), levels[i].resume)
  }

  ghost predicate LevelsOk(p: Program, levels: seq<Rendering>) {
    forall i: nat {:trigger LevelOk(p, levels, i)} :: i < |levels| ==> LevelOk(p, levels, i)
  }

  /** The same without what makes programs well-formed: procedures are nested, and each surrounding one
      has its own state to go on from. */
  ghost predicate LevelsShaped(p: Program, levels: seq<Rendering>) {
    forall i: nat {:trigger LevelShaped(p, levels, i)} :: i < |levels| ==> LevelShaped(p, levels, i)
  }

  ghost predicate LevelShaped(p: Program, levels: seq<Rendering>, i: nat)
    requires i < |levels|
  {
    && Current(levels[..i]) < levels[i].proc && levels[i].proc !in p.segs
    && Live(p, Current(levels[..i]), levels[i].resume)
  }

  ghost predicate Ended(p: Program, counts: map<Proc, nat>, r: Proc) {
    r in p.segs && r in counts && p.segs[r].end in p.nodes && p.RoleOf(p.segs[r].end).Body?
      && p.RoleOf(p.segs[r].end).p == r
  }

  /** All that the compiler itself needs, for programs that need not be well-formed. */
  ghost predicate Shaped(p: Program, counts: map<Proc, nat>, levels: seq<Rendering>, current: StateId,
      nextState: StateId, nextProc: Proc) {
    && Live(p, Current(levels), current) && LevelsShaped(p, levels)
    && Below(p, nextState, nextProc) && Current(levels) < nextProc
    && forall r {:trigger Ended(p, counts, r)} :: r in p.segs ==> Ended(p, counts, r)
  }

  /** No implementation is being rendered twice. */
  ghost predicate OneEach(levels: seq<Rendering>) {
    forall i, j :: 0 <= i < j < |levels| ==> levels[i].impl != levels[j].impl
  }

  ghost predicate Below(p: Program, nextState: StateId, nextProc: Proc) {
    && (forall s :: s in p.nodes ==> s < nextState)
    && (forall q :: q in p.segs ==> q < nextProc)
  }

  /** The width that the IDs of that many calls need, if it is more. */
  function WidthFor(width: nat, minCalls: nat): (w: nat)
    ensures w >= 1 && (w == width || w == 1 || Pow2(w - 1) < minCalls)
  {
    var needed := if CeilLog2(minCalls) < 1 then 1 else CeilLog2(minCalls);
    if width < needed then needed else width
  }

  function First(main: bool): Node { Node(if main then Some(Id(0)) else None, map[], []) }

  class SegmentContext {
    var program: Program
    var counts: map<Proc, nat>            // the number of calls of each rendered segment
    var current: StateId
    var levels: seq<Rendering>                // the segments being rendered, outermost first
    var nextState: StateId
    var nextProc: Proc

    ghost predicate Valid()
      reads this
    {
      && Buildable(program, counts) && LevelsOk(program, levels) && Live(program, Current(levels), current)
      && Below(program, nextState, nextProc) && Current(levels) < nextProc
    }

    ghost predicate Shape()
      reads this
    {
      Shaped(program, counts, levels, current, nextState, nextProc) && OneEach(levels)
    }

    /** The reset state of the main worker holds the reset value of the return address. */
    constructor (main: bool)
      ensures Valid() && Shape() && levels == [] && counts == map[] && current == 0 && nextState == 1 && nextProc == 1
      ensures program == Program(1, map[0 := First(main)], map[0 := Body(MAIN, {})], map[], [], map[], 0)
    {
      program := Program(1, map[0 := First(main)], map[0 := Body(MAIN, {})], map[], [], map[], 0);
      counts, current, levels, nextState, nextProc := map[], 0, [], 1, 1;
    }

    predicate Active(f: Impl)
      reads this
    {
      exists i :: 0 <= i < |levels| && levels[i].impl == f
    }

    /** `get_return_address`: the return address grows to hold the IDs of that many calls. */
    method GetReturnAddress(minCalls: nat) returns (width: nat)
      requires minCalls >= 1
      ensures program.width <= width && minCalls <= Pow2(width)
      ensures width == WidthFor(program.width, minCalls)
    {
      var needed := if CeilLog2(minCalls) < 1 then 1 else CeilLog2(minCalls);
      width := if program.width < needed then needed else program.width;
      PowGrows(CeilLog2(minCalls), width);
    }

    /** `push_return_address` in the current state. */
    method PushReturnAddress(f: Impl, id: nat)
      requires current in program.nodes
      modifies this`program
      ensures program ==
        old(program).(nodes := old(program).nodes[current := PushAddress(old(program).At(current), f, id)])
    {
      var node := program.nodes[current];
      if node.address.Some? {
        var backups := if node.address.value == FromBackup(f) then node.backups
          else node.backups[f := node.address.value];
        node := node.(address := Some(Id(id)), backups := backups);
      } else {
        node := node.(address := Some(Id(id)), backups := node.backups[f := FromAddress]);
      }
      program := program.(nodes := program.nodes[current := node]);
    }

    /** A transition of an existing state. */
    method AddTransition(s: StateId, jump: Jump)
      requires s in program.nodes
      modifies this`program
      ensures program == old(program).(nodes := old(program).nodes[s := AddJump(old(program).At(s), jump)])
    {
      program := program.(nodes := program.nodes[s := AddJump(program.nodes[s], jump)]);
    }

    /** `create_state`. */
    method CreateState(role: Role) returns (s: StateId)
      modifies this`program, this`nextState
      ensures s == old(nextState) && nextState == s + 1
      ensures program ==
        old(program).(nodes := old(program).nodes[s := Node(None, map[], [])], roles := old(program).roles[s := role])
    {
      s := nextState;
      nextState := s + 1;
      program := program.(nodes := program.nodes[s := Node(None, map[], [])], roles := program.roles[s := role]);
    }

    /** `create_state`: a state of the current procedure that nothing leads to yet. */
    method NewState() returns (s: StateId)
      requires Shape()
      modifies this`program, this`nextState
      ensures Shape() && (old(Valid()) ==> Valid())
      ensures program == Grown(old(program), s, Current(levels), {}) && s == old(nextState) && nextState == s + 1
      ensures Live(program, Current(levels), s) && program.RoleOf(current) == old(program).RoleOf(current)
    {
      ghost var p := program;
      s := CreateState(Body(Current(levels), {}));
      GrownShape(p, counts, levels, current, s, nextProc, Current(levels), {});
      if old(Valid()) { GrownValid(p, counts, levels, current, s, nextProc, Current(levels), {}); }
    }

    /** `sync`: an unconditional transition to a new state, which becomes the current one; an error
        if the current state has transitions. */
    method Sync() returns (ok: bool)
      requires Shape()
      modifies this`program, this`current, this`nextState
      ensures Shape() && (old(Valid()) ==> Valid()) && ok == (old(program).At(old(current)).jumps == [])
      ensures !ok ==> program == old(program) && current == old(current) && nextState == old(nextState)
      ensures ok ==> current == old(nextState) && nextState == current + 1
      ensures ok ==>
        program == Jumping(Grown(old(program), current, Current(levels), old(program).RoleOf(old(current)).holds),
          old(current), Jump(Taken, current))
    {
      ok := program.nodes[current].jumps == [];
      if ok {
        ghost var p := program;
        var holds := program.RoleOf(current).holds;
        var s := CreateState(Body(Current(levels), holds));
        GrownShape(p, counts, levels, current, s, nextProc, Current(levels), holds);
        if old(Valid()) { GrownValid(p, counts, levels, current, s, nextProc, Current(levels), holds); }
        ghost var p2 := program;
        AddTransition(current, Jump(Taken, s));
        JumpingShape(p2, counts, levels, current, nextState, nextProc, Jump(Taken, s));
        if old(Valid()) { JumpingValid(p2, counts, levels, current, s, s + 1, nextProc, Jump(Taken, s)); }
        current := s;
      }
    }

    /** `jump_if`, constantly true or on a condition of the program. Nothing checks whether the target may be
        entered from here: going back to the state after a call executes the restore again. Among the states
        of the procedure being rendered a jump is safe if every backup register that holds the return
        address at the target holds it here. */
    method JumpIf(condition: Cond, target: StateId)
      requires Shape() && !condition.AddressIs? && target in program.nodes
      modifies this`program
      ensures program == Jumping(old(program), current, Jump(condition, target)) && Shape()
      ensures old(Valid()) ==>
                (Valid() <==> old(Accepts(program, Current(levels), program.RoleOf(current).holds, target)))
      ensures old(Valid() && Covered(program, Current(levels), current, target)) ==> Valid()
    {
      ghost var p, valid := program, Valid();
      AddTransition(current, Jump(condition, target));
      if valid && Covered(p, Current(levels), current, target) {
        JumpAllowedExactly(p, counts, Current(levels), p.RoleOf(current).holds, target);
      }
      if valid && Accepts(p, Current(levels), p.RoleOf(current).holds, target) {
        JumpingValid(p, counts, levels, current, current, nextState, nextProc, Jump(condition, target));
      }
      JumpingShape(p, counts, levels, current, nextState, nextProc, Jump(condition, target));
      if Valid() { JumpingOnlyIf(p, counts, Current(levels), current, Jump(condition, target)); }
    }

    /** Setting the current state. */
    method Select(s: StateId)
      requires Shape() && Live(program, Current(levels), s)
      modifies this`current
      ensures Shape() && current == s && (old(Valid()) ==> Valid())
    {
      current := s;
    }

    /** The start of `render_segment`, guarded by `select_active_key`: an implementation that is
        being rendered cannot be rendered again. */
    method BeginRender(f: Impl) returns (ok: bool)
      requires Shape()
      modifies this`program, this`current, this`levels, this`nextState, this`nextProc
      ensures Shape() && (old(Valid()) ==> Valid())
      ensures ok <==> forall i :: 0 <= i < |old(levels)| ==> old(levels)[i].impl != f
      ensures !ok ==> program == old(program) && current == old(current) && levels == old(levels)
      ensures ok ==>
        levels == old(levels) + [Rendering(old(nextProc), f, current, old(current))] && current == old(nextState)
      ensures ok ==>
        program == Grown(old(program), current, old(nextProc), {}) && nextState == current + 1
          && nextProc == old(nextProc) + 1
    {
      ok := !Active(f);
      if ok {
        ghost var p, outer := program, levels;
        var s := CreateState(Body(nextProc, {}));
        GrownShape(p, counts, levels, current, s, nextProc, nextProc, {});
        if old(Valid()) { GrownValid(p, counts, levels, current, s, nextProc, nextProc, {}); }
        levels := levels + [Rendering(nextProc, f, s, current)];
        current, nextProc := s, nextProc + 1;
        DeeperShape(program, outer, levels[|outer|]);
        if old(Valid()) { DeeperLevel(program, outer, levels[|outer|]); }
      }
    }

    /** The end of `render_segment`. It does not notice that the body reached its own implementation
        through a segment rendered earlier. */
    method EndRender() returns (r: Proc)
      requires Shape() && levels != []
      modifies this`program, this`counts, this`current, this`levels
      ensures Shape() && nextState == old(nextState) && nextProc == old(nextProc)
      ensures levels == old(levels[..|levels| - 1]) && current == old(levels[|levels| - 1].resume)
        && r == old(Current(levels))
      ensures program ==
        Rendered(old(program), r,
          Segment(old(levels[|levels| - 1].impl), old(levels[|levels| - 1].start), old(current)))
      ensures counts == old(counts)[r := 0]
      ensures old(Valid()) ==>
                (Valid() <==> old(program.At(current).jumps == []
                                  && levels[|levels| - 1].impl !in program.Touch(Current(levels))))
    {
      ghost var before := Valid();
      ghost var valid := before && program.At(current).jumps == [];
      ghost var p, inner, end, counted := program, levels, current, counts;
      var top := levels[|levels| - 1];
      r := top.proc;
      program := program.(segs := program.segs[r := Segment(top.impl, top.start, current)]);
      counts := counts[r := 0];
      current, levels := top.resume, levels[..|levels| - 1];
      if valid && top.impl !in p.Touch(r) { RenderedValid(p, counted, inner, end, nextState, nextProc); }
      RenderedShape(p, counted, inner, end, nextState, nextProc);
      if before && Valid() { RenderedOnlyIf(p, counts, r, Segment(top.impl, top.start, end)); }
    }

    /** The jump to the segment, after a protective sync if the inputs need one. */
    method EnterSegment(start: StateId, call: nat, sync: bool)
      requires current in program.nodes && nextState !in program.nodes
      modifies this`program, this`current, this`nextState
      ensures program == Entering(old(program), old(current), start, call, if sync then Some(old(nextState)) else None)
      ensures current == (if sync then old(nextState) else old(current))
        && nextState == old(nextState) + if sync then 1 else 0
    {
      if sync {
        var leave := CreateState(Launch(call));
        AddTransition(current, Jump(Taken, leave));
        current := leave;
      }
      AddTransition(current, Jump(Taken, start));
    }

    /** The return from the end state, over a copy-out state if the results need a sync. */
    method LeaveSegment(end: StateId, id: nat, f: Impl, copying: Role, after: Role, sync: bool)
      requires end in program.nodes && end < nextState
      modifies this`program, this`current, this`nextState
      ensures program ==
        Returning(old(program), end, id, f, copying, after, if sync then Some(old(nextState)) else None,
          if sync then old(nextState) + 1 else old(nextState))
      ensures current == (if sync then old(nextState) + 1 else old(nextState)) && nextState == current + 1
    {
      var land := CreateState(if sync then copying else after);
      AddTransition(end, Jump(AddressIs(id), land));
      current := land;
      if sync {
        var back := CreateState(after);
        AddTransition(current, Jump(Taken, back));
        current := back;
      }
      program := program.(nodes := program.nodes[current := program.nodes[current].(address := Some(FromBackup(f)))]);
    }

    /** The states, assignments and transitions of one call. */
    method EmitCall(r: Proc, width: nat, syncInputs: bool, syncResults: bool)
      requires r in counts && current in program.nodes && program.RoleOf(current).Body? && nextState !in program.nodes
      requires program.SegOf(r).end in program.nodes && program.SegOf(r).end < nextState
      modifies this`program, this`current, this`nextState, this`counts
      ensures var at := SiteOf(old(current), old(nextState), syncInputs, syncResults);
        && program == Called(old(program), at, Current(levels), r, old(counts)[r], width)
        && current == at.back && nextState == at.back + 1
        && (at.leave.Some? <==> syncInputs) && (at.out.Some? <==> syncResults)
      ensures nextState == old(nextState) + 1 + (if syncInputs then 1 else 0) + if syncResults then 1 else 0
      ensures counts == old(counts)[r := old(counts)[r] + 1]
    {
      hide Called, Returning, PushAddress, AddJump;
      ghost var p, at := program, SiteOf(current, nextState, syncInputs, syncResults);
      var q, enter, keep, call := Current(levels), current, program.RoleOf(current).holds - program.Touch(r),
        |program.calls|;
      var f, start, end, id := program.SegOf(r).impl, program.SegOf(r).start, program.SegOf(r).end, counts[r];
      var calls, touch, touched := program.calls, program.touch, program.Touch(q) + {f} + program.Touch(r);
      PushReturnAddress(f, id);
      EnterSegment(start, call, syncInputs);
      LeaveSegment(end, id, f, Leaving(call), Body(q, keep + {f}), syncResults);
      var newCall := Call(q, r, id, enter, if syncResults then current - 1 else current, current, keep);
      WrittenIsCalled(p, at, q, r, id, width);
      program := program.(roles := program.roles[enter := Launch(call)], width := width, calls := calls + [newCall],
                          touch := touch[q := touched]);
      counts := counts[r := id + 1];
    }

    /** `call_segment`, guarded by `select_active_key`: an active segment cannot be called. The two
        flags say whether the inputs and the results need a protective sync. */
    method CallSegment(r: Proc, syncInputs: bool, syncResults: bool) returns (ok: bool)
      requires Shape() && r in program.segs
      modifies this`program, this`current, this`nextState, this`counts
      ensures Shape() && (old(Valid()) ==> Valid())
      ensures ok <==> forall i :: 0 <= i < |levels| ==> levels[i].impl != old(program).segs[r].impl
      ensures levels == old(levels)
      ensures !ok ==>
        program == old(program) && current == old(current) && counts == old(counts) && nextState == old(nextState)
      ensures ok ==> var at := SiteOf(old(current), old(nextState), syncInputs, syncResults);
        && r in old(counts) && at.New(old(program)) && old(program).SegOf(r).end in old(program).nodes
          && old(program).SegOf(r).end != at.enter
        && program ==
          Called(old(program), at, Current(levels), r, old(counts)[r], WidthFor(old(program).width, old(counts)[r] + 1))
        && current == at.back && nextState == at.back + 1 && counts == old(counts)[r := old(counts)[r] + 1]
        && (at.leave.Some? <==> syncInputs) && (at.out.Some? <==> syncResults)
      ensures ok ==>
        nextState == old(nextState) + 1 + (if syncInputs then 1 else 0) + if syncResults then 1 else 0
    {
      hide WellFormed, Accepts, Buildable, LevelsOk, LevelsShaped, Finished, Calling, Called;
      if Active(program.SegOf(r).impl) { return false; }
      ok := true;
      assert Ended(program, counts, r);
      var width := GetReturnAddress(counts[r] + 1);
      CalledShape(program, counts, levels, current, nextState, nextProc, r, syncInputs, syncResults, width);
      if Valid() {
        CallKeepsValid(program, counts, levels, current, nextState, nextProc, r, syncInputs, syncResults, width);
      }
      EmitCall(r, width, syncInputs, syncResults);
    }
  }

  // ----- Keeping the shape -----

  lemma GrownShape(p: Program, counts: map<Proc, nat>, levels: seq<Rendering>, current: StateId, n: StateId,
      nextProc: Proc, q: Proc, holds: set<Impl>)
    requires Shaped(p, counts, levels, current, n, nextProc) && q !in p.segs
    ensures Shaped(Grown(p, n, q, holds), counts, levels, current, n + 1, nextProc)
    ensures Live(Grown(p, n, q, holds), q, n) && Grown(p, n, q, holds).RoleOf(current) == p.RoleOf(current)
  {
    var p2 := Grown(p, n, q, holds);
    forall i: nat {:trigger LevelShaped(p2, levels, i)} | i < |levels|
      ensures LevelShaped(p2, levels, i)
    {
      assert LevelShaped(p, levels, i);
    }
    forall r {:trigger Ended(p2, counts, r)} | r in p2.segs ensures Ended(p2, counts, r) { assert Ended(p, counts, r); }
  }

  lemma DeeperShape(p: Program, levels: seq<Rendering>, level: Rendering)
    requires LevelsShaped(p, levels) && Current(levels) < level.proc && level.proc !in p.segs
      && Live(p, Current(levels), level.resume)
    ensures LevelsShaped(p, levels + [level])
  {
    var deeper := levels + [level];
    forall i: nat {:trigger LevelShaped(p, deeper, i)} | i < |deeper| ensures LevelShaped(p, deeper, i) {
      if i < |levels| {
        assert LevelShaped(p, levels, i) && deeper[..i] == levels[..i];
      } else {
        assert deeper[..i] == levels;
      }
    }
  }

  lemma JumpingShape(p: Program, counts: map<Proc, nat>, levels: seq<Rendering>, current: StateId, nextState: StateId,
      nextProc: Proc, jump: Jump)
    requires Shaped(p, counts, levels, current, nextState, nextProc)
    ensures Shaped(Jumping(p, current, jump), counts, levels, current, nextState, nextProc)
  {
    var p2 := Jumping(p, current, jump);
    forall i: nat {:trigger LevelShaped(p2, levels, i)} | i < |levels|
      ensures LevelShaped(p2, levels, i)
    {
      assert LevelShaped(p, levels, i);
    }
    forall r {:trigger Ended(p2, counts, r)} | r in p2.segs ensures Ended(p2, counts, r) { assert Ended(p, counts, r); }
  }

  lemma RenderedShape(p: Program, counts: map<Proc, nat>, levels: seq<Rendering>, current: StateId,
      nextState: StateId, nextProc: Proc)
    requires Shaped(p, counts, levels, current, nextState, nextProc) && levels != []
    ensures var top, outer := levels[|levels| - 1], levels[..|levels| - 1];
      Shaped(Rendered(p, top.proc, Segment(top.impl, top.start, current)), counts[top.proc := 0], outer, top.resume,
        nextState, nextProc)
  {
    var top, outer := levels[|levels| - 1], levels[..|levels| - 1];
    var p2 := Rendered(p, top.proc, Segment(top.impl, top.start, current));
    assert LevelShaped(p, levels, |levels| - 1);
    forall i: nat {:trigger LevelShaped(p2, outer, i)} | i < |outer| ensures LevelShaped(p2, outer, i) {
      assert LevelShaped(p, levels, i) && outer[..i] == levels[..i];
      OuterDiffers(p, levels, i + 1);
      assert levels[..i + 1][i] == levels[i];
      OuterDiffers(p, levels, i);
    }
    forall r {:trigger Ended(p2, counts[top.proc := 0], r)} | r in p2.segs ensures Ended(p2, counts[top.proc := 0], r) {
      if r != top.proc { assert Ended(p, counts, r); }
    }
  }

  /** A call touches the roles of its own states only. */
  lemma CalledKeepsRole(p: Program, at: Site, q: Proc, r: Proc, id: nat, width: nat, t: StateId)
    requires p.RoleOf(at.enter).Body? && at.New(p) && t in p.nodes && t != at.enter
    ensures t in Called(p, at, q, r, id, width).nodes && Called(p, at, q, r, id, width).RoleOf(t) == p.RoleOf(t)
  {
    hide PushAddress;
  }

  lemma CalledFrontier(p: Program, at: Site, q: Proc, r: Proc, id: nat, width: nat)
    requires p.RoleOf(at.enter).Body? && at.New(p) && p.SegOf(r).end in p.nodes
    ensures var p2 := Called(p, at, q, r, id, width);
      && p2.segs == p.segs && at.back in p2.nodes && p2.RoleOf(at.back).Body? && p2.RoleOf(at.back).p == q
      && forall t :: t in p2.nodes ==> t in p.nodes || t == at.back || Some(t) == at.leave || Some(t) == at.out
  {
    hide PushAddress;
  }

  lemma CalledShape(p: Program, counts: map<Proc, nat>, levels: seq<Rendering>, enter: StateId, next: StateId,
      nextProc: Proc, r: Proc, syncInputs: bool, syncResults: bool, width: nat)
    requires Shaped(p, counts, levels, enter, next, nextProc) && r in p.segs
    ensures r in counts && p.segs[r].end in p.nodes && p.segs[r].end < next && p.segs[r].end != enter
      && next !in p.nodes
    ensures var at := SiteOf(enter, next, syncInputs, syncResults);
      at.New(p) && Shaped(Called(p, at, Current(levels), r, counts[r], width), counts[r := counts[r] + 1], levels,
        at.back, at.back + 1, nextProc)
  {
    hide Called;
    var at := SiteOf(enter, next, syncInputs, syncResults);
    assert Ended(p, counts, r) && at.New(p);
    var q, id := Current(levels), counts[r];
    var p2, counts2 := Called(p, at, q, r, id, width), counts[r := id + 1];
    CalledFrontier(p, at, q, r, id, width);
    forall i: nat {:trigger LevelShaped(p2, levels, i)} | i < |levels| ensures LevelShaped(p2, levels, i) {
      assert LevelShaped(p, levels, i);
      OuterDiffers(p, levels, i);
      CalledKeepsRole(p, at, q, r, id, width, levels[i].resume);
    }
    forall x {:trigger Ended(p2, counts2, x)} | x in p2.segs ensures Ended(p2, counts2, x) {
      assert Ended(p, counts, x);
      CalledKeepsRole(p, at, q, r, id, width, p.segs[x].end);
    }
  }

  /** Among states under construction of one procedure a jump is allowed exactly if all registers that hold
      the return address at its target hold it where it starts. */
  lemma JumpAllowedExactly(p: Program, counts: map<Proc, nat>, q: Proc, holds: set<Impl>, t: StateId)
    requires Buildable(p, counts) && Live(p, q, t)
    ensures Accepts(p, q, holds, t) <==> p.RoleOf(t).holds <= holds
  {
    assert StateOk(p, t);
  }

  /** What a caller looks up for `jump_if` is whether the target is under construction in the same procedure and may
      be entered. */
  lemma CoveredExactly(p: Program, counts: map<Proc, nat>, q: Proc, s: StateId, t: StateId)
    requires Buildable(p, counts) && Live(p, q, s)
    ensures Covered(p, q, s, t) <==> Live(p, q, t) && Accepts(p, q, p.RoleOf(s).holds, t)
  {
    if Live(p, q, t) { JumpAllowedExactly(p, counts, q, p.RoleOf(s).holds, t); }
  }

  /** The order of the writes does not matter. */
  lemma WrittenIsCalled(p: Program, at: Site, q: Proc, r: Proc, id: nat, width: nat)
    requires p.RoleOf(at.enter).Body?
    ensures var c, f, call := |p.calls|, p.SegOf(r).impl, CallOf(p, at, q, r, id);
      var pushed := p.(nodes := p.nodes[at.enter := PushAddress(p.At(at.enter), f, id)]);
      var left := Returning(Entering(pushed, at.enter, p.SegOf(r).start, c, at.leave), p.SegOf(r).end, id, f,
        Leaving(c), Body(q, call.keep + {f}), at.out, at.back);
      left.(roles := left.roles[at.enter := Launch(c)], width := width, calls := p.calls + [call],
            touch := p.touch[q := p.Touch(q) + {f} + p.Touch(r)]) == Called(p, at, q, r, id, width)
  {}

  /** Everything the compiler relies on holds again after a call. */
  lemma CallKeepsValid(p: Program, counts: map<Proc, nat>, levels: seq<Rendering>, enter: StateId, next: StateId,
      nextProc: Proc, r: Proc, syncInputs: bool, syncResults: bool, width: nat)
    requires Buildable(p, counts) && LevelsOk(p, levels) && Live(p, Current(levels), enter) && Below(p, next, nextProc)
    requires r in p.segs && p.width <= width && counts[r] < Pow2(width)
    ensures p.segs[r].end in p.nodes && p.segs[r].end != enter
    ensures var at, q, id := SiteOf(enter, next, syncInputs, syncResults), Current(levels), counts[r];
      && Calling(p, at, q, r, id, width) && at.New(p)
      && Buildable(Called(p, at, q, r, id, width), counts[r := id + 1])
      && LevelsOk(Called(p, at, q, r, id, width), levels) && Live(Called(p, at, q, r, id, width), q, at.back)
      && Below(Called(p, at, q, r, id, width), at.back + 1, nextProc)
      && Called(p, at, q, r, id, width).segs == p.segs
  {
    hide WellFormed, Accepts, LevelsOk, Entering, Returning, PushAddress;
    var at := SiteOf(enter, next, syncInputs, syncResults);
    FinishedIs(p, r);
    CalledBuildable(p, counts, at, Current(levels), r, counts[r], width);
    CalledLevels(p, levels, at, Current(levels), r, counts[r], width);
    CalledBelow(p, at, Current(levels), r, counts[r], width, at.back + 1, nextProc);
  }

  lemma CalledBelow(p: Program, at: Site, q: Proc, r: Proc, id: nat, width: nat, n: StateId, nextProc: Proc)
    requires Calling(p, at, q, r, id, width) && Below(p, n, nextProc) && at.back < n
    requires (at.leave.Some? ==> at.leave.value < n) && (at.out.Some? ==> at.out.value < n)
    ensures Called(p, at, q, r, id, width).segs == p.segs && Below(Called(p, at, q, r, id, width), n, nextProc)
  {
    hide Entering, Returning, PushAddress;
    NewStates(p, at, q, r, id, width);
  }

  /** The new states get the next free names. */
  function SiteOf(enter: StateId, next: StateId, syncInputs: bool, syncResults: bool): Site {
    var land := if syncInputs then next + 1 else next;
    Site(enter, if syncInputs then Some(next)
      else None, if syncResults then Some(land) else None, if syncResults then land + 1 else land)
  }

  lemma FinishedIs(p: Program, r: Proc)
    requires (forall r {:trigger Finished(p, r)} :: r in p.segs ==> Finished(p, r)) && r in p.segs
    ensures Finished(p, r)
  {}

  lemma CalledBuildable(p: Program, counts: map<Proc, nat>, at: Site, q: Proc, r: Proc, id: nat, width: nat)
    requires Buildable(p, counts) && Calling(p, at, q, r, id, width) && id == counts[r]
    ensures Buildable(Called(p, at, q, r, id, width), counts[r := id + 1])
  {
    hide WellFormed, Accepts, Entering, Returning, PushAddress;
    var p2 := Called(p, at, q, r, id, width);
    CalledWellFormed(p, at, q, r, id, width);
    forall x {:trigger Finished(p2, x)} | x in p2.segs ensures Finished(p2, x) {
      FinishedIs(p, x);
      OldState(p, at, q, r, id, width, p.segs[x].end);
      AcceptsStill(p, at, q, r, id, width, x, {}, p.segs[x].start);
    }
    forall c | 0 <= c < |p2.calls|
      ensures p2.calls[c].callee in counts[r := id + 1] && p2.calls[c].id < counts[r := id + 1][p2.calls[c].callee] {
      if c < |p.calls| { assert p2.calls[c] == p.calls[c]; }
    }
  }

  lemma CalledLevels(p: Program, levels: seq<Rendering>, at: Site, q: Proc, r: Proc, id: nat, width: nat)
    requires Calling(p, at, q, r, id, width) && LevelsOk(p, levels) && q == Current(levels)
    ensures LevelsOk(Called(p, at, q, r, id, width), levels)
    ensures Live(Called(p, at, q, r, id, width), q, at.back)
  {
    hide Accepts, Entering, Returning, PushAddress;
    var p2 := Called(p, at, q, r, id, width);
    NewStates(p, at, q, r, id, width);
    LevelsOkShaped(p, levels);
    forall i: nat {:trigger LevelOk(p2, levels, i)} | i < |levels| ensures LevelOk(p2, levels, i) {
      assert LevelOk(p, levels, i);
      AcceptsStill(p, at, q, r, id, width, levels[i].proc, {}, levels[i].start);
      OuterDiffers(p, levels, i);
      OldState(p, at, q, r, id, width, levels[i].resume);
    }
  }

  /** Surrounding procedures are older. */
  lemma {:induction false} OuterDiffers(p: Program, levels: seq<Rendering>, i: nat)
    requires LevelsShaped(p, levels) && i < |levels|
    ensures Current(levels[..i]) < Current(levels)
    decreases |levels| - i
  {
    assert LevelShaped(p, levels, i);
    if i < |levels| - 1 {
      OuterDiffers(p, levels, i + 1);
      assert levels[..i + 1][i] == levels[i];
    }
  }

  lemma LevelsOkShaped(p: Program, levels: seq<Rendering>)
    requires LevelsOk(p, levels)
    ensures LevelsShaped(p, levels)
  {
    forall i: nat {:trigger LevelShaped(p, levels, i)} | i < |levels|
      ensures LevelShaped(p, levels, i)
    {
      assert LevelOk(p, levels, i);
    }
  }

  lemma GrownValid(p: Program, counts: map<Proc, nat>, levels: seq<Rendering>, current: StateId, n: StateId,
      nextProc: Proc, q: Proc, holds: set<Impl>)
    requires Buildable(p, counts) && LevelsOk(p, levels) && Live(p, Current(levels), current) && Below(p, n, nextProc)
    requires q !in p.segs
    ensures var p2 := Grown(p, n, q, holds);
      && Buildable(p2, counts) && LevelsOk(p2, levels) && Live(p2, Current(levels), current) && Live(p2, q, n)
      && Below(p2, n + 1, nextProc) && Accepts(p2, q, holds, n) && p2.RoleOf(current) == p.RoleOf(current)
  {
    hide WellFormed;
    var p2 := Grown(p, n, q, holds);
    GrownWellFormed(p, counts, n, q, holds);
    forall i: nat {:trigger LevelOk(p2, levels, i)} | i < |levels| ensures LevelOk(p2, levels, i) {
      assert LevelOk(p, levels, i);
    }
  }

  lemma JumpingValid(p: Program, counts: map<Proc, nat>, levels: seq<Rendering>, s: StateId, current: StateId,
      nextState: StateId, nextProc: Proc, jump: Jump)
    requires Buildable(p, counts) && LevelsOk(p, levels) && Live(p, Current(levels), s)
      && Live(p, Current(levels), current)
    requires Below(p, nextState, nextProc) && !jump.cond.AddressIs?
      && Accepts(p, Current(levels), p.RoleOf(s).holds, jump.target)
    ensures var p2 := Jumping(p, s, jump);
      && Buildable(p2, counts) && LevelsOk(p2, levels) && Live(p2, Current(levels), current)
        && Below(p2, nextState, nextProc)
  {
    hide WellFormed;
    var p2 := Jumping(p, s, jump);
    JumpingWellFormed(p, counts, Current(levels), s, jump);
    forall i: nat {:trigger LevelOk(p2, levels, i)} | i < |levels| ensures LevelOk(p2, levels, i) {
      assert LevelOk(p, levels, i);
      JumpingAccepts(p, s, jump, levels[i].proc, {}, levels[i].start);
    }
  }

  lemma DeeperLevel(p: Program, levels: seq<Rendering>, level: Rendering)
    requires LevelsOk(p, levels) && Current(levels) < level.proc && level.proc !in p.segs
    requires Accepts(p, level.proc, {}, level.start) && Live(p, Current(levels), level.resume)
    ensures LevelsOk(p, levels + [level])
  {
    var deeper := levels + [level];
    forall i: nat {:trigger LevelOk(p, deeper, i)} | i < |deeper| ensures LevelOk(p, deeper, i) {
      if i < |levels| {
        assert LevelOk(p, levels, i) && deeper[..i] == levels[..i];
      } else {
        assert deeper[..i] == levels;
      }
    }
  }

  lemma RenderedValid(p: Program, counts: map<Proc, nat>, levels: seq<Rendering>, current: StateId,
      nextState: StateId, nextProc: Proc)
    requires Buildable(p, counts) && LevelsOk(p, levels) && Live(p, Current(levels), current)
      && Below(p, nextState, nextProc)
    requires levels != [] && p.At(current).jumps == [] && Current(levels) < nextProc
    requires levels[|levels| - 1].impl !in p.Touch(Current(levels))
    ensures var top, outer := levels[|levels| - 1], levels[..|levels| - 1];
      var p2 := Rendered(p, top.proc, Segment(top.impl, top.start, current));
      && Buildable(p2, counts[top.proc := 0]) && LevelsOk(p2, outer) && Live(p2, Current(outer), top.resume)
      && Below(p2, nextState, nextProc) && Current(outer) < nextProc
  {
    hide WellFormed;
    var top, outer := levels[|levels| - 1], levels[..|levels| - 1];
    var seg := Segment(top.impl, top.start, current);
    var p2 := Rendered(p, top.proc, seg);
    assert LevelOk(p, levels, |levels| - 1);
    RenderedWellFormed(p, counts, top.proc, seg);
    LevelsOkShaped(p, levels);
    forall i: nat {:trigger LevelOk(p2, outer, i)} | i < |outer| ensures LevelOk(p2, outer, i) {
      assert LevelOk(p, levels, i) && outer[..i] == levels[..i];
      RenderedAccepts(p, top.proc, seg, levels[i].proc, {}, levels[i].start);
      OuterDiffers(p, levels, i + 1);
      assert levels[..i + 1][i] == levels[i];
      OuterDiffers(p, levels, i);
    }
  }
}
