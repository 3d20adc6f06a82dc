/** Segments: subroutines of one worker, compiled to a return address register and one backup
register per segment. `Step` is the compiled machine, `StackStep` a machine with a real call
stack; `WellFormed` describes what the compiler emits. */
module SegmentModel {
  import opened Signals
  import opened Selectors
  import Cycle

  type StateId = Cycle.StateId

  datatype Impl = Impl(zone: nat)  // a decorated function or method; it owns one backup register
  type Proc = nat                  // the main program, or a rendered segment
  const MAIN: Proc := 0

  // ----- The compiled machine -----

  datatype Source = Id(n: nat) | FromAddress | FromBackup(f: Impl)
  datatype Cond = Taken | Other(k: nat) | AddressIs(id: nat)
  datatype Jump = Jump(cond: Cond, target: StateId)

  /** The part of a state that segments are made of: its assignments to the return address and
      to backup registers, and its transitions. */
  datatype Node = Node(address: Option<Source>, backups: map<Impl, Source>, jumps: seq<Jump>)

  type Backups = m: imap<Impl, nat> | forall f: Impl :: f in m
    ghost witness imap f: Impl :: 0

  datatype Regs = Regs(address: nat, backup: Backups)
  datatype Machine = Machine(at: StateId, regs: Regs)

  ghost function Read(v: Source, r: Regs): nat {
    match v
    case Id(n) => n
    case FromAddress => r.address
    case FromBackup(f) => r.backup[f]
  }

  ghost function Cut(n: nat, width: nat): nat { n % Pow2(width) }

  /** Entering a state executes its assignments on the old values; all these registers have the
      width of the return address. */
  ghost function Enter(node: Node, r: Regs, width: nat): Regs {
    Regs(if node.address.Some? then Cut(Read(node.address.value, r), width) else r.address,
         imap f: Impl :: if f in node.backups then Cut(Read(node.backups[f], r), width) else r.backup[f])
  }

  /** `other(k)` is the value of the program's own condition k in this cycle. */
  ghost predicate Fires(c: Cond, address: nat, other: nat -> bool) {
    match c
    case Taken => true
    case Other(k) => other(k)
    case AddressIs(id) => address == id
  }

  /** The last true transition wins; without one the worker stays. */
  ghost function Goto(jumps: seq<Jump>, s: StateId, address: nat, other: nat -> bool): StateId {
    if jumps == [] then s
    else if Fires(jumps[|jumps| - 1].cond, address, other) then jumps[|jumps| - 1].target
    else Goto(jumps[..|jumps| - 1], s, address, other)
  }

  // ----- The program the machine was compiled from -----

  /** `enter` pushes the call ID, `land` is where the end state of the segment jumps to, `back`
      restores the return address. `keep` are the backup registers that still hold the caller's
      return address and survive the call. */
  datatype Call = Call(caller: Proc, callee: Proc, id: nat, enter: StateId, land: StateId, back: StateId,
    keep: set<Impl>)
  datatype Segment = Segment(impl: Impl, start: StateId, end: StateId)

  /** What a state is for. In a body state of p, the registers in `holds` back up the current
      return address. */
  datatype Role = Body(p: Proc, holds: set<Impl>) | Launch(c: nat) | Leaving(c: nat)

  /** `touch` are the segments whose backup register may be written while p runs. */
  datatype Program = Program(width: nat, nodes: map<StateId, Node>, roles: map<StateId, Role>, segs: map<Proc, Segment>,
                             calls: seq<Call>, touch: map<Proc, set<Impl>>, reset: StateId) {
    function At(s: StateId): Node { if s in nodes then nodes[s] else Node(None, map[], []) }

    function RoleOf(s: StateId): Role { if s in roles then roles[s] else Body(MAIN, {}) }

    function SegOf(p: Proc): Segment { if p in segs then segs[p] else Segment(Impl(0), 0, 0) }

    function ImplOf(c: Call): Impl { SegOf(c.callee).impl }

    function Touch(p: Proc): set<Impl> { if p in touch then touch[p] else {} }

    /** The registers that hold the caller's return address during the call. */
    function Keeps(c: Call): set<Impl> { c.keep + {ImplOf(c)} }
  }

  ghost function Step(p: Program, m: Machine, other: nat -> bool): Machine {
    var t := Goto(p.At(m.at).jumps, m.at, m.regs.address, other);
    Machine(t, Enter(p.At(t), m.regs, p.width))
  }

  /** From reset: the assignments of the reset state, on a return address of 0; the backup registers may hold
      anything. */
  ghost function Run(p: Program, backup: Backups, other: nat -> nat -> bool, n: nat): Machine {
    if n == 0 then Machine(p.reset, Enter(p.At(p.reset), Regs(0, backup), p.width))
    else Step(p, Run(p, backup, other, n - 1), other(n - 1))
  }

  // ----- The machine with a call stack -----

  datatype Stacked = Stacked(at: StateId, stack: seq<nat>)

  /** The end state of the segment that the newest call entered. */
  ghost predicate AtEnd(p: Program, m: Stacked) {
    m.stack != [] && var c := m.stack[|m.stack| - 1];
      c < |p.calls| && p.calls[c].callee in p.segs && p.SegOf(p.calls[c].callee).end == m.at
      && p.RoleOf(m.at).Body? && p.RoleOf(m.at).p == p.calls[c].callee
  }

  /** Running off the end of a segment continues at the newest call; every other state's
      transitions do not look at the return address. */
  ghost function StackGoto(p: Program, m: Stacked, other: nat -> bool): StateId {
    if AtEnd(p, m) then p.calls[m.stack[|m.stack| - 1]].land
    else Goto(p.At(m.at).jumps, m.at, 0, other)
  }

  /** Going to the return state pops, entering a call state pushes. */
  ghost predicate Pops(p: Program, m: Stacked, t: StateId) {
    m.stack != [] && var c := m.stack[|m.stack| - 1];
      c < |p.calls| && p.calls[c].back == t && (AtEnd(p, m) || p.RoleOf(m.at) == Leaving(c))
  }

  ghost function Pushed(p: Program, stack: seq<nat>, t: StateId): seq<nat> {
    if p.RoleOf(t).Launch? && p.RoleOf(t).c < |p.calls|
      && p.calls[p.RoleOf(t).c].enter == t then stack + [p.RoleOf(t).c] else stack
  }

  ghost function StackStep(p: Program, m: Stacked, other: nat -> bool): Stacked {
    var t := StackGoto(p, m, other);
    Stacked(t, Pushed(p, if Pops(p, m, t) then m.stack[..|m.stack| - 1] else m.stack, t))
  }

  ghost function StackRun(p: Program, other: nat -> nat -> bool, n: nat): Stacked {
    if n == 0 then Stacked(p.reset, Pushed(p, [], p.reset)) else StackStep(p, StackRun(p, other, n - 1), other(n - 1))
  }

  // ----- What the compiler emits -----

  /** t saves the return address for a call, or nothing. */
  ghost predicate Neutral(p: Program, t: StateId) { p.At(t).address == None && p.At(t).backups == map[] }

  /** t may be entered from the body of q, where the registers in `holds` back up the return address. In the
      main program the address is 0, which the reset state assigns, and a call in the reset state saves. */
  ghost predicate Accepts(p: Program, q: Proc, holds: set<Impl>, t: StateId) {
    var node := p.At(t);
    t in p.nodes && match p.RoleOf(t)
      case Body(q2, holds2) =>
        && q2 == q && holds2 <= holds && node.backups == map[]
        && (|| node.address == None
            || (q == MAIN && node.address == Some(Id(0)))
            || (exists g :: g in holds && node.address == Some(FromBackup(g))))
      case Launch(c) =>
        && c < |p.calls| && p.calls[c].caller == q && p.calls[c].enter == t && p.calls[c].keep <= holds
        && node.address == Some(Id(p.calls[c].id))
        && (|| node.backups == map[p.ImplOf(p.calls[c]) := FromAddress]
            || (q == MAIN && node.backups == map[p.ImplOf(p.calls[c]) := Id(0)])
            || (exists g :: g in holds && node.backups == map[p.ImplOf(p.calls[c]) := FromBackup(g)])
            || (node.backups == map[] && p.ImplOf(p.calls[c]) in holds))
      case Leaving(_) => false
  }

  /** t may follow the call c: it restores the return address, or chains the next call. */
  ghost predicate Resumes(p: Program, c: Call, t: StateId) {
    var node := p.At(t);
    && Accepts(p, c.caller, p.Keeps(c), t) && node.address.Some? && node.address != Some(FromAddress)
    && forall f :: f in node.backups ==> node.backups[f] != FromAddress
  }

  ghost predicate CallOk(p: Program, c: nat)
    requires c < |p.calls|
  {
    var call := p.calls[c];
    && call.callee in p.segs && call.callee != MAIN && call.id < Pow2(p.width)
    && call.enter in p.nodes && p.RoleOf(call.enter) == Launch(c)
    && call.land in p.nodes && call.back in p.nodes && Resumes(p, call, call.back)
    && (call.land == call.back || (p.RoleOf(call.land) == Leaving(c) && Neutral(p, call.land)))
    // the same segment is not called again while a call of it is running
    && p.ImplOf(call) in p.Touch(call.caller) && p.Touch(call.callee) <= p.Touch(call.caller)
    && p.Keeps(call) !! p.Touch(call.callee)
  }

  /** The end state has one transition per call of the segment. */
  ghost predicate EndOk(p: Program, q: Proc, jumps: seq<Jump>) {
    && (forall i :: 0 <= i < |jumps| ==> SomeReturn(p, q, jumps[i]))
    && (forall c ::
      0 <= c < |p.calls| && p.calls[c].callee == q ==> Jump(AddressIs(p.calls[c].id), p.calls[c].land) in jumps)
    && (forall i, j :: 0 <= i < j < |jumps| ==> jumps[i].cond != jumps[j].cond)
  }

  ghost predicate SomeReturn(p: Program, q: Proc, jump: Jump) { exists c: nat :: IsReturn(p, q, c, jump) }

  ghost predicate IsReturn(p: Program, q: Proc, c: nat, jump: Jump) {
    c < |p.calls| && p.calls[c].callee == q && jump == Jump(AddressIs(p.calls[c].id), p.calls[c].land)
  }

  ghost predicate BodyOk(p: Program, q: Proc, holds: set<Impl>, s: StateId) {
    if q in p.segs && p.segs[q].end == s then EndOk(p, q, p.At(s).jumps)
    else
      && (forall i ::
        0 <= i < |p.At(s).jumps| ==> !p.At(s).jumps[i].cond.AddressIs? && Accepts(p, q, holds, p.At(s).jumps[i].target))
      && Accepts(p, q, holds, s)
  }

  /** A launching state goes on to the segment whatever its other transitions say. */
  ghost predicate LaunchOk(p: Program, c: nat, s: StateId) {
    c < |p.calls| && var jumps := p.At(s).jumps;
      jumps != [] && jumps[|jumps| - 1].cond == Taken && var t := jumps[|jumps| - 1].target;
        || (t in p.nodes && p.RoleOf(t) == Launch(c) && t != p.calls[c].enter && Neutral(p, t))
        || (t == p.SegOf(p.calls[c].callee).start && Accepts(p, p.calls[c].callee, {}, t))
  }

  ghost predicate StateOk(p: Program, s: StateId) {
    match p.RoleOf(s)
    case Body(q, holds) => BodyOk(p, q, holds, s)
    case Launch(c) => LaunchOk(p, c, s)
    case Leaving(c) => c < |p.calls| && p.calls[c].land == s && p.At(s).jumps == [Jump(Taken, p.calls[c].back)]
  }

  ghost predicate WellFormed(p: Program) {
    && Accepts(p, MAIN, {}, p.reset) && MAIN !in p.segs
    && (forall s {:trigger StateOk(p, s)} :: s in p.nodes ==> StateOk(p, s))
    && (forall c {:trigger CallOk(p, c)} :: 0 <= c < |p.calls| ==> CallOk(p, c))
    && (forall c, d ::
      0 <= c < d < |p.calls| && p.calls[c].callee == p.calls[d].callee ==> p.calls[c].id != p.calls[d].id)
  }
}
