/** The compiled machine refines the call stack. */
module SegmentProof {
  import opened Signals
  import opened Selectors
  import opened SegmentModel

  // ----- The invariant -----

  /** The procedure the newest call runs. */
  ghost function Top(p: Program, stack: seq<nat>): Proc {
    if stack == [] || stack[|stack| - 1] >= |p.calls| then MAIN else p.calls[stack[|stack| - 1]].callee
  }

  /** The return address while the stack is this one. */
  ghost function AddressOf(p: Program, stack: seq<nat>): nat {
    if stack == [] || stack[|stack| - 1] >= |p.calls| then 0 else p.calls[stack[|stack| - 1]].id
  }

  ghost predicate Holds(backup: Backups, holds: set<Impl>, value: nat) {
    forall g :: g in holds ==> backup[g] == value
  }

  /** Outside of all calls the return address is 0 (`zero`), or it may be anything: nothing depends on it. */
  predicate Free(stack: seq<nat>, zero: bool) { stack == [] && !zero }

  /** The stack is a chain of calls, and each unreturned call's backup registers hold the return
      address from before the call. */
  ghost predicate Backed(p: Program, stack: seq<nat>, backup: Backups, zero: bool)
    decreases |stack|
  {
    stack == []
    || (var init, c := stack[..|stack| - 1], stack[|stack| - 1];
        && Backed(p, init, backup, zero) && c < |p.calls| && p.calls[c].caller == Top(p, init)
        && (Free(init, zero) || Holds(backup, p.Keeps(p.calls[c]), AddressOf(p, init))))
  }

  ghost predicate Frames(p: Program, stack: seq<nat>, regs: Regs, zero: bool) {
    Backed(p, stack, regs.backup, zero) && (Free(stack, zero) || regs.address == AddressOf(p, stack))
  }

  ghost predicate Inv(p: Program, m: Machine, stack: seq<nat>, zero: bool) {
    && m.at in p.nodes && Frames(p, stack, m.regs, zero)
    && match p.RoleOf(m.at)
       case Body(q, holds) => q == Top(p, stack) && (Free(stack, zero) || Holds(m.regs.backup, holds, m.regs.address))
       case Launch(c) => stack != [] && stack[|stack| - 1] == c
       case Leaving(c) => stack != [] && stack[|stack| - 1] == c
  }

  ghost predicate CallsOk(p: Program) {
    forall c {:trigger CallOk(p, c)} :: 0 <= c < |p.calls| ==> CallOk(p, c)
  }

  lemma AddressFits(p: Program, stack: seq<nat>, backup: Backups, zero: bool)
    requires CallsOk(p) && Backed(p, stack, backup, zero)
    ensures Cut(AddressOf(p, stack), p.width) == AddressOf(p, stack)
  {
    if stack != [] { assert CallOk(p, stack[|stack| - 1]); }
    SmallMod(AddressOf(p, stack), Pow2(p.width));
  }

  lemma IdFits(p: Program, c: nat)
    requires CallsOk(p) && c < |p.calls|
    ensures Cut(p.calls[c].id, p.width) == p.calls[c].id
  {
    assert CallOk(p, c);
    SmallMod(p.calls[c].id, Pow2(p.width));
  }

  /** A register that may be written while the newest call runs belongs to no frame below. */
  lemma {:induction false} BackedElsewhere(p: Program, stack: seq<nat>, b1: Backups, b2: Backups,
      h: Impl, zero: bool)
    requires CallsOk(p) && Backed(p, stack, b1, zero) && h in p.Touch(Top(p, stack))
    requires forall f: Impl :: f != h ==> b2[f] == b1[f]
    ensures Backed(p, stack, b2, zero)
    decreases |stack|
  {
    if stack != [] {
      var init, c := stack[..|stack| - 1], stack[|stack| - 1];
      assert CallOk(p, c);
      BackedElsewhere(p, init, b1, b2, h, zero);
    }
  }

  lemma BackedPush(p: Program, stack: seq<nat>, backup: Backups, c: nat, zero: bool)
    requires Backed(p, stack, backup, zero) && c < |p.calls| && p.calls[c].caller == Top(p, stack)
    requires Free(stack, zero) || Holds(backup, p.Keeps(p.calls[c]), AddressOf(p, stack))
    ensures Backed(p, stack + [c], backup, zero)
  {
    assert (stack + [c])[..|stack|] == stack;
  }

  // ----- Entering a state -----

  /** The register of f is what the address was, unless that is free. */
  ghost predicate Saves(regs: Regs, r2: Regs, f: Impl, id: nat, free: bool) {
    && r2.address == id && (free || r2.backup[f] == regs.address)
    && forall g: Impl :: g != f ==> r2.backup[g] == regs.backup[g]
  }

  /** Saving the return address for a new call keeps every frame below. */
  lemma SavingKeepsFrames(p: Program, stack: seq<nat>, regs: Regs, c: nat, r2: Regs, zero: bool)
    requires CallsOk(p) && Frames(p, stack, regs, zero) && c < |p.calls| && p.calls[c].caller == Top(p, stack)
    requires Free(stack, zero) || Holds(regs.backup, p.calls[c].keep, regs.address)
    requires Saves(regs, r2, p.ImplOf(p.calls[c]), p.calls[c].id, Free(stack, zero))
    ensures Frames(p, stack + [c], r2, zero)
  {
    hide Cut, Backed, Accepts, Resumes;
    assert CallOk(p, c);
    BackedElsewhere(p, stack, regs.backup, r2.backup, p.ImplOf(p.calls[c]), zero);
    BackedPush(p, stack, r2.backup, c, zero);
  }

  /** The main program runs only while no call is open. */
  lemma MainAtBottom(p: Program, stack: seq<nat>, regs: Regs, zero: bool)
    requires CallsOk(p) && Frames(p, stack, regs, zero)
    ensures stack != [] ==> Top(p, stack) != MAIN
  {
    if stack != [] { assert CallOk(p, stack[|stack| - 1]); }
  }

  /** Entering the call state executes all forms of saving the return address alike. */
  lemma CallStateSaves(p: Program, stack: seq<nat>, regs: Regs, holds: set<Impl>, t: StateId, c: nat, zero: bool)
    requires CallsOk(p) && Frames(p, stack, regs, zero)
    requires Free(stack, zero) || Holds(regs.backup, holds, regs.address)
    requires p.RoleOf(t) == Launch(c) && Accepts(p, Top(p, stack), holds, t)
    ensures Saves(regs, Enter(p.At(t), regs, p.width), p.ImplOf(p.calls[c]), p.calls[c].id, Free(stack, zero))
  {
    hide Cut, Backed, CallsOk, CallOk;
    var node, f := p.At(t), p.ImplOf(p.calls[c]);
    var r2 := Enter(node, regs, p.width);
    AddressFits(p, stack, regs.backup, zero);
    IdFits(p, c);
    MainAtBottom(p, stack, regs, zero);
    forall g: Impl | g != f || !Free(stack, zero)
      ensures r2.backup[g] == if g == f then regs.address else regs.backup[g]
    {
      if g in node.backups { assert r2.backup[g] == Cut(Read(node.backups[g], regs), p.width); }
    }
  }

  /** Entering a body state leaves all registers as they are. */
  lemma BodyStateKeeps(p: Program, stack: seq<nat>, regs: Regs, holds: set<Impl>, t: StateId, zero: bool)
    requires CallsOk(p) && Frames(p, stack, regs, zero) && !Free(stack, zero) && Holds(regs.backup, holds, regs.address)
    requires p.RoleOf(t).Body? && Accepts(p, Top(p, stack), holds, t)
    ensures Enter(p.At(t), regs, p.width) == regs
  {
    hide Cut, Backed, CallsOk, CallOk;
    AddressFits(p, stack, regs.backup, zero);
    MainAtBottom(p, stack, regs, zero);
    assert Enter(p.At(t), regs, p.width).backup == regs.backup;
  }

  lemma NothingOwed(p: Program, regs: Regs)
    ensures Frames(p, [], regs, false)
  {}

  /** Entering a state the body accepts, from a frame whose `holds` registers are good. */
  lemma EnterAccepted(p: Program, stack: seq<nat>, regs: Regs, holds: set<Impl>, t: StateId, zero: bool)
    requires CallsOk(p) && Frames(p, stack, regs, zero)
    requires Free(stack, zero) || Holds(regs.backup, holds, regs.address)
    requires Accepts(p, Top(p, stack), holds, t)
    ensures Inv(p, Machine(t, Enter(p.At(t), regs, p.width)), Pushed(p, stack, t), zero)
  {
    hide Cut, Backed, CallsOk, CallOk, Enter;
    match p.RoleOf(t)
    case Body(_, _) =>
      if Free(stack, zero) {
        NothingOwed(p, Enter(p.At(t), regs, p.width));
      } else {
        BodyStateKeeps(p, stack, regs, holds, t, zero);
      }
    case Launch(c) =>
      CallStateSaves(p, stack, regs, holds, t, c, zero);
      SavingKeepsFrames(p, stack, regs, c, Enter(p.At(t), regs, p.width), zero);
  }

  /** Entering the state after a call: the return address becomes what it was before the call
      (or the ID of a call chained there, the old value going to that segment's backup). */
  lemma EnterAfterCall(p: Program, stack: seq<nat>, regs: Regs, t: StateId, zero: bool)
    requires CallsOk(p) && Frames(p, stack, regs, zero) && stack != []
    requires stack[|stack| - 1] < |p.calls| && Resumes(p, p.calls[stack[|stack| - 1]], t)
    ensures Inv(p, Machine(t, Enter(p.At(t), regs, p.width)), Pushed(p, stack[..|stack| - 1], t), zero)
  {
    hide Cut, Backed, CallsOk, CallOk, Holds, Inv, Pushed, Accepts;
    var init, c := stack[..|stack| - 1], stack[|stack| - 1];
    var before := regs.(address := AddressOf(p, init));
    PopFrames(p, stack, regs, zero);
    AddressUnread(p.At(t), regs, before, p.width);
    EnterAccepted(p, init, before, p.Keeps(p.calls[c]), t, zero);
  }

  lemma PopFrames(p: Program, stack: seq<nat>, regs: Regs, zero: bool)
    requires Frames(p, stack, regs, zero) && stack != []
    ensures var init, c := stack[..|stack| - 1], stack[|stack| - 1];
      && c < |p.calls| && p.calls[c].caller == Top(p, init)
      && Frames(p, init, regs.(address := AddressOf(p, init)), zero)
      && (Free(init, zero) || Holds(regs.backup, p.Keeps(p.calls[c]), AddressOf(p, init)))
  {}

  /** A state that restores the return address does not read its old value. */
  lemma AddressUnread(node: Node, r1: Regs, r2: Regs, width: nat)
    requires r1.backup == r2.backup && node.address.Some? && node.address != Some(FromAddress)
    requires forall f :: f in node.backups ==> node.backups[f] != FromAddress
    ensures Enter(node, r1, width) == Enter(node, r2, width)
  {
    hide Cut;
    assert Enter(node, r1, width).backup == Enter(node, r2, width).backup;
  }

  // ----- One cycle -----

  /** Without conditions on the return address its value does not matter. */
  lemma {:induction false} GotoWithout(jumps: seq<Jump>, s: StateId, a1: nat, a2: nat, other: nat -> bool)
    requires forall i :: 0 <= i < |jumps| ==> !jumps[i].cond.AddressIs?
    ensures Goto(jumps, s, a1, other) == Goto(jumps, s, a2, other)
    ensures Goto(jumps, s, a1, other) == s
      || exists i :: 0 <= i < |jumps| && Goto(jumps, s, a1, other) == jumps[i].target
    decreases |jumps|
  {
    if jumps != [] {
      GotoWithout(jumps[..|jumps| - 1], s, a1, a2, other);
      assert jumps[|jumps| - 1] in jumps;
    }
  }

  /** Exactly one transition of an end state matches: that of the newest call. */
  lemma ReturnIsUnique(p: Program, q: Proc, jumps: seq<Jump>, c: nat, other: nat -> bool) returns (k: nat)
    requires WellFormed(p) && EndOk(p, q, jumps) && c < |p.calls| && p.calls[c].callee == q
    ensures k < |jumps| && jumps[k].target == p.calls[c].land
    ensures forall i :: 0 <= i < |jumps| ==> (Fires(jumps[i].cond, p.calls[c].id, other) <==> i == k)
  {
    var jump := Jump(AddressIs(p.calls[c].id), p.calls[c].land);
    assert jump in jumps;
    k :| 0 <= k < |jumps| && jumps[k] == jump;
    forall i | 0 <= i < |jumps| ensures Fires(jumps[i].cond, p.calls[c].id, other) <==> i == k {
      assert SomeReturn(p, q, jumps[i]);
      var d: nat :| IsReturn(p, q, d, jumps[i]);
    }
  }

  lemma {:induction false} GotoOnly(jumps: seq<Jump>, s: StateId, address: nat, other: nat -> bool, k: nat)
    requires k < |jumps| && forall i :: 0 <= i < |jumps| ==> (Fires(jumps[i].cond, address, other) <==> i == k)
    ensures Goto(jumps, s, address, other) == jumps[k].target
    decreases |jumps|
  {
    if k < |jumps| - 1 { GotoOnly(jumps[..|jumps| - 1], s, address, other, k); }
  }

  lemma EnterPlain(p: Program, t: StateId, regs: Regs)
    requires Neutral(p, t)
    ensures Enter(p.At(t), regs, p.width) == regs
  {
    assert Enter(p.At(t), regs, p.width).backup == regs.backup;
  }

  /** The two machines move alike and stay coupled. */
  ghost predicate Refines(p: Program, m: Machine, stack: seq<nat>, other: nat -> bool, zero: bool) {
    var m2, s2 := Step(p, m, other), StackStep(p, Stacked(m.at, stack), other);
    m2.at == s2.at && Inv(p, m2, s2.stack, zero)
  }

  ghost predicate EndState(p: Program, s: StateId) {
    p.RoleOf(s).Body? && p.RoleOf(s).p in p.segs && p.segs[p.RoleOf(s).p].end == s
  }

  lemma StepInBody(p: Program, m: Machine, stack: seq<nat>, other: nat -> bool, zero: bool)
    requires WellFormed(p) && Inv(p, m, stack, zero) && p.RoleOf(m.at).Body? && !EndState(p, m.at)
    ensures Refines(p, m, stack, other, zero)
  {
    hide Frames, Backed, CallOk, Enter, Accepts, Resumes;
    assert StateOk(p, m.at) && BodyOk(p, p.RoleOf(m.at).p, p.RoleOf(m.at).holds, m.at);
    GotoWithout(p.At(m.at).jumps, m.at, m.regs.address, 0, other);
    var t := Goto(p.At(m.at).jumps, m.at, m.regs.address, other);
    assert !AtEnd(p, Stacked(m.at, stack));
    assert Accepts(p, p.RoleOf(m.at).p, p.RoleOf(m.at).holds, t);
    EnterAccepted(p, stack, m.regs, p.RoleOf(m.at).holds, t, zero);
  }

  lemma TopIsCall(p: Program, stack: seq<nat>, regs: Regs, zero: bool)
    requires Frames(p, stack, regs, zero) && Top(p, stack) != MAIN
    ensures stack != [] && stack[|stack| - 1] < |p.calls|
    ensures var c := stack[|stack| - 1]; p.calls[c].callee == Top(p, stack) && p.calls[c].id == regs.address
  {}

  lemma StepAtEnd(p: Program, m: Machine, stack: seq<nat>, other: nat -> bool, zero: bool)
    requires WellFormed(p) && Inv(p, m, stack, zero) && EndState(p, m.at)
    ensures Refines(p, m, stack, other, zero)
  {
    hide Frames, Backed, Enter, Accepts, Resumes, EndOk;
    var q := p.RoleOf(m.at).p;
    assert StateOk(p, m.at) && EndOk(p, q, p.At(m.at).jumps);
    TopIsCall(p, stack, m.regs, zero);
    var c := stack[|stack| - 1];
    var k := ReturnIsUnique(p, q, p.At(m.at).jumps, c, other);
    GotoOnly(p.At(m.at).jumps, m.at, m.regs.address, other, k);
    assert AtEnd(p, Stacked(m.at, stack)) && CallOk(p, c);
    var t := p.calls[c].land;
    if t == p.calls[c].back {
      EnterAfterCall(p, stack, m.regs, t, zero);
    } else {
      EnterPlain(p, t, m.regs);
    }
  }

  lemma StepLaunching(p: Program, m: Machine, stack: seq<nat>, other: nat -> bool, zero: bool)
    requires WellFormed(p) && Inv(p, m, stack, zero) && p.RoleOf(m.at).Launch?
    ensures Refines(p, m, stack, other, zero)
  {
    hide Frames, Backed, Enter, Accepts, Resumes, CallOk;
    var c, jumps := p.RoleOf(m.at).c, p.At(m.at).jumps;
    assert StateOk(p, m.at) && LaunchOk(p, c, m.at);
    var t := jumps[|jumps| - 1].target;
    if p.RoleOf(t) == Launch(c) && t != p.calls[c].enter && Neutral(p, t) && t in p.nodes {
      EnterPlain(p, t, m.regs);
    } else {
      EnterAccepted(p, stack, m.regs, {}, t, zero);
    }
  }

  lemma StepLeaving(p: Program, m: Machine, stack: seq<nat>, other: nat -> bool, zero: bool)
    requires WellFormed(p) && Inv(p, m, stack, zero) && p.RoleOf(m.at).Leaving?
    ensures Refines(p, m, stack, other, zero)
  {
    hide Frames, Backed, Enter, Accepts, Resumes;
    var c, jumps := p.RoleOf(m.at).c, p.At(m.at).jumps;
    assert StateOk(p, m.at) && CallOk(p, c);
    EnterAfterCall(p, stack, m.regs, p.calls[c].back, zero);
  }

  lemma StepRefines(p: Program, m: Machine, stack: seq<nat>, other: nat -> bool, zero: bool)
    requires WellFormed(p) && Inv(p, m, stack, zero)
    ensures Refines(p, m, stack, other, zero)
  {
    match p.RoleOf(m.at)
    case Body(_, _) =>
      if EndState(p, m.at) {
        StepAtEnd(p, m, stack, other, zero);
      } else {
        StepInBody(p, m, stack, other, zero);
      }
    case Launch(_) => StepLaunching(p, m, stack, other, zero);
    case Leaving(_) => StepLeaving(p, m, stack, other, zero);
  }

  // ----- Every run -----

  lemma StartsRefined(p: Program, regs: Regs, zero: bool)
    requires WellFormed(p) && (zero ==> regs.address == 0)
    ensures Inv(p, Machine(p.reset, Enter(p.At(p.reset), regs, p.width)), Pushed(p, [], p.reset), zero)
  {
    hide Inv, Enter, Pushed, Accepts, StateOk, CallOk;
    EnterAccepted(p, [], regs, {}, p.reset, zero);
  }

  /** After a synchronous reset the registers may hold anything. */
  lemma RestartsRefined(p: Program, regs: Regs)
    requires WellFormed(p) && p.RoleOf(p.reset).Body?
    ensures Inv(p, Machine(p.reset, regs), [], false)
  {}

  /** The compiled machine is, in every cycle of every run, in the state of the machine with the
      call stack, and its return address is the ID of the newest unreturned call. */
  lemma {:induction false} CallsRefineStack(p: Program, backup: Backups, other: nat -> nat -> bool, n: nat)
    requires WellFormed(p)
    ensures Run(p, backup, other, n).at == StackRun(p, other, n).at
    ensures Inv(p, Run(p, backup, other, n), StackRun(p, other, n).stack, true)
    ensures Run(p, backup, other, n).regs.address == AddressOf(p, StackRun(p, other, n).stack)
  {
    hide WellFormed, Backed, Step, StackStep, Holds, AddressOf;
    StartsRefined(p, Regs(0, backup), true);
    if n > 0 {
      CallsRefineStack(p, backup, other, n - 1);
      StepRefines(p, Run(p, backup, other, n - 1), StackRun(p, other, n - 1).stack, other(n - 1), true);
    }
  }

  /** In a run, the end state of a segment has exactly one true transition: the one for the most
      recent unreturned call. */
  lemma ReturnsToNewestCall(p: Program, backup: Backups, other: nat -> nat -> bool, n: nat) returns (k: nat)
    requires WellFormed(p) && EndState(p, Run(p, backup, other, n).at)
    ensures var m, stack := Run(p, backup, other, n), StackRun(p, other, n).stack;
      && stack != [] && stack[|stack| - 1] < |p.calls| && k < |p.At(m.at).jumps|
      && p.At(m.at).jumps[k].target == p.calls[stack[|stack| - 1]].land
      && forall i ::
        0 <= i < |p.At(m.at).jumps| ==> (Fires(p.At(m.at).jumps[i].cond, m.regs.address, other(n)) <==> i == k)
  {
    hide Frames, Backed, Step, StackStep, Run, StackRun;
    CallsRefineStack(p, backup, other, n);
    var m, stack := Run(p, backup, other, n), StackRun(p, other, n).stack;
    TopIsCall(p, stack, m.regs, true);
    assert StateOk(p, m.at);
    k := ReturnIsUnique(p, p.RoleOf(m.at).p, p.At(m.at).jumps, stack[|stack| - 1], other(n));
  }

  // ----- Registers cleared from outside -----

  /** Someone else writes 0 to all registers just before the entered state's own assignments. */
  ghost function Clear(node: Node, entered: Regs): Regs {
    Regs(if node.address.Some? then entered.address else 0,
         imap f: Impl :: if f in node.backups then entered.backup[f] else 0)
  }

  /** Whatever an unreturned call has to find again is 0 anyway, or written in this cycle. */
  ghost predicate KeptSpared(p: Program, stack: seq<nat>, written: set<Impl>)
    decreases |stack|
  {
    stack == []
    || (var init, c := stack[..|stack| - 1], stack[|stack| - 1];
        && KeptSpared(p, init, written) && c < |p.calls|
        && (AddressOf(p, init) == 0 || p.Keeps(p.calls[c]) <= written))
  }

  /** No register that counts loses its value by being cleared when this state is entered. */
  ghost predicate Spared(p: Program, m: Stacked) {
    var node, role := p.At(m.at), p.RoleOf(m.at);
    && (AddressOf(p, m.stack) == 0 || (node.address.Some? && (role.Body? ==> role.holds <= node.backups.Keys)))
    && KeptSpared(p, m.stack, node.backups.Keys)
  }

  lemma {:induction false} BackedCleared(p: Program, stack: seq<nat>, node: Node, regs: Regs, zero: bool)
    requires Backed(p, stack, regs.backup, zero)
    ensures Backed(p, stack, Clear(node, regs).backup, zero) <==> KeptSpared(p, stack, node.backups.Keys)
    decreases |stack|
  {
    if stack != [] {
      var init, c := stack[..|stack| - 1], stack[|stack| - 1];
      BackedCleared(p, init, node, regs, zero);
      HoldsCleared(node, regs, p.Keeps(p.calls[c]), AddressOf(p, init), Free(init, zero));
    }
  }

  lemma HoldsCleared(node: Node, regs: Regs, holds: set<Impl>, value: nat, free: bool)
    requires (free || Holds(regs.backup, holds, value)) && (free ==> value == 0)
    ensures free || Holds(Clear(node, regs).backup, holds, value) <==> value == 0 || holds <= node.backups.Keys
  {}

  /** Clearing the registers does no harm exactly if they are spared. */
  lemma ClearingExactly(p: Program, m: Machine, stack: seq<nat>, zero: bool)
    requires Inv(p, m, stack, zero)
    ensures Inv(p, m.(regs := Clear(p.At(m.at), m.regs)), stack, zero) <==> Spared(p, Stacked(m.at, stack))
  {
    hide Backed, KeptSpared, Holds;
    var node := p.At(m.at);
    BackedCleared(p, stack, node, m.regs, zero);
    if p.RoleOf(m.at).Body? {
      HoldsCleared(node, m.regs, p.RoleOf(m.at).holds, AddressOf(p, stack), Free(stack, zero));
    }
  }

  /** Nothing is lost while no call is open, before or after the cycle. */
  lemma NoCallSpared(p: Program, m: Machine, stack: seq<nat>, other: nat -> bool, zero: bool)
    requires WellFormed(p) && Inv(p, m, stack, zero)
    requires stack == [] || StackStep(p, Stacked(m.at, stack), other).stack == []
    ensures Spared(p, StackStep(p, Stacked(m.at, stack), other))
  {
    hide Enter, CallOk, Resumes;
    var s2 := StackStep(p, Stacked(m.at, stack), other);
    if s2.stack != [] {
      assert StateOk(p, m.at) && BodyOk(p, MAIN, p.RoleOf(m.at).holds, m.at);
      GotoWithout(p.At(m.at).jumps, m.at, m.regs.address, 0, other);
      assert Accepts(p, MAIN, p.RoleOf(m.at).holds, s2.at);
      assert p.RoleOf(s2.at).Launch? && p.At(s2.at).address.Some?;
      assert s2.stack == [p.RoleOf(s2.at).c] && s2.stack[..0] == [];
      assert KeptSpared(p, s2.stack[..0], p.At(s2.at).backups.Keys);
    }
  }
}
