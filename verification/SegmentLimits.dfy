/** Where the refinement ends: two programs the compiler accepts, and emits step by step here, whose
compiled machine leaves the call stack behind and waits forever in an end state. */
module SegmentLimits {
  import opened Signals
  import opened Selectors
  import opened SegmentModel
  import opened SegmentCompiler

  // ----- Running a machine by hand -----

  ghost predicate Word(p: Program, n: nat) { Cut(n, p.width) == n }

  /** One step with two transitions, exactly one of them true. */
  lemma Chooses(p: Program, m: Machine, other: nat -> bool, k: nat)
    requires |p.At(m.at).jumps| == 2 && k < 2
    requires Fires(p.At(m.at).jumps[k].cond, m.regs.address, other)
      && (k == 0 ==> !Fires(p.At(m.at).jumps[1].cond, m.regs.address, other))
    ensures Step(p, m, other) ==
      Machine(p.At(m.at).jumps[k].target, Enter(p.At(p.At(m.at).jumps[k].target), m.regs, p.width))
  {
    var jumps := p.At(m.at).jumps;
    assert jumps[..1] == [jumps[0]] && [jumps[0]][..0] == [];
    assert Goto(jumps[..1], m.at, m.regs.address, other) ==
      if Fires(jumps[0].cond, m.regs.address, other) then jumps[0].target else m.at;
  }

  /** A state whose only transition waits for another address and whose assignments change nothing
      is never left. */
  ghost predicate Waits(p: Program, m: Machine) {
    && |p.At(m.at).jumps| == 1 && p.At(m.at).jumps[0].cond.AddressIs? && p.At(m.at).jumps[0].cond.id != m.regs.address
    && Enter(p.At(m.at), m.regs, p.width) == m.regs
  }

  lemma WaitsOn(p: Program, m: Machine, other: nat -> bool)
    requires Waits(p, m)
    ensures Step(p, m, other) == m
  {
    var jumps := p.At(m.at).jumps;
    assert jumps[..0] == [];
    assert Goto(jumps, m.at, m.regs.address, other) == m.at;
  }

  lemma {:induction false} Stuck(p: Program, backup: Backups, other: nat -> nat -> bool, n: nat, more: nat)
    requires Waits(p, Run(p, backup, other, n))
    ensures Run(p, backup, other, n + more) == Run(p, backup, other, n)
  {
    hide Waits, Step;
    if more > 0 {
      Stuck(p, backup, other, n, more - 1);
      WaitsOn(p, Run(p, backup, other, n), other(n + more - 1));
    }
  }

  lemma Bit(n: nat)
    requires n <= 1
    ensures Cut(n, 1) == n
  {
    assert Pow2(1) == 2 * Pow2(0) == 2;
  }

  lemma EnterCall(node: Node, r: Regs, f: Impl, id: nat)
    requires node.address == Some(Id(id)) && node.backups == map[f := FromAddress] && id <= 1 && r.address <= 1
    ensures Enter(node, r, 1) == Regs(id, r.backup[f := r.address])
  {
    Bit(id);
    Bit(r.address);
    assert Enter(node, r, 1).backup == r.backup[f := r.address];
  }

  lemma EnterReturn(node: Node, r: Regs, f: Impl)
    requires node.address == Some(FromBackup(f)) && node.backups == map[] && r.backup[f] <= 1
    ensures Enter(node, r, 1) == Regs(r.backup[f], r.backup)
  {
    Bit(r.backup[f]);
    assert Enter(node, r, 1).backup == r.backup;
  }

  lemma EnterBody(node: Node, r: Regs)
    requires node.address == None && node.backups == map[]
    ensures Enter(node, r, 1) == r
  {
    assert Enter(node, r, 1).backup == r.backup;
  }

  /** The k-th transition is the one the machine takes. */
  ghost predicate Picks(p: Program, m: Machine, other: nat -> bool, k: nat) {
    var jumps := p.At(m.at).jumps;
    && k < |jumps| <= 2 && Fires(jumps[k].cond, m.regs.address, other)
    && (k + 1 < |jumps| ==> !Fires(jumps[k + 1].cond, m.regs.address, other))
  }

  lemma Picked(p: Program, m: Machine, other: nat -> bool, k: nat)
    requires Picks(p, m, other, k)
    ensures Goto(p.At(m.at).jumps, m.at, m.regs.address, other) == p.At(m.at).jumps[k].target
  {
    if |p.At(m.at).jumps| == 1 { } else { Chooses(p, m, other, k); }
  }

  /** One cycle of a run into a calling, a return or a body state. */
  lemma ToCall(p: Program, backup: Backups, other: nat -> nat -> bool, n: nat, k: nat, t: StateId, f: Impl, id: nat)
    requires p.width == 1 && id <= 1 && Run(p, backup, other, n).regs.address <= 1
    requires Picks(p, Run(p, backup, other, n), other(n), k) && p.At(Run(p, backup, other, n).at).jumps[k].target == t
    requires p.At(t).address == Some(Id(id)) && p.At(t).backups == map[f := FromAddress]
    ensures var m := Run(p, backup, other, n);
      Run(p, backup, other, n + 1) == Machine(t, Regs(id, m.regs.backup[f := m.regs.address]))
  {
    Picked(p, Run(p, backup, other, n), other(n), k);
    EnterCall(p.At(t), Run(p, backup, other, n).regs, f, id);
  }

  lemma ToReturn(p: Program, backup: Backups, other: nat -> nat -> bool, n: nat, k: nat, t: StateId, f: Impl)
    requires p.width == 1 && Run(p, backup, other, n).regs.backup[f] <= 1
    requires Picks(p, Run(p, backup, other, n), other(n), k) && p.At(Run(p, backup, other, n).at).jumps[k].target == t
    requires p.At(t).address == Some(FromBackup(f)) && p.At(t).backups == map[]
    ensures var m := Run(p, backup, other, n);
      Run(p, backup, other, n + 1) == Machine(t, Regs(m.regs.backup[f], m.regs.backup))
  {
    Picked(p, Run(p, backup, other, n), other(n), k);
    EnterReturn(p.At(t), Run(p, backup, other, n).regs, f);
  }

  lemma ToBody(p: Program, backup: Backups, other: nat -> nat -> bool, n: nat, k: nat, t: StateId)
    requires p.width == 1
    requires Picks(p, Run(p, backup, other, n), other(n), k) && p.At(Run(p, backup, other, n).at).jumps[k].target == t
    requires p.At(t).address == None && p.At(t).backups == map[]
    ensures Run(p, backup, other, n + 1) == Machine(t, Run(p, backup, other, n).regs)
  {
    Picked(p, Run(p, backup, other, n), other(n), k);
    EnterBody(p.At(t), Run(p, backup, other, n).regs);
  }

  // ----- What the compiler's steps do to the states -----

  /** A call without protective syncs. */
  function CalledNode(p: Program, enter: StateId, back: StateId, r: Proc, id: nat, s: StateId): Node {
    var seg := p.SegOf(r);
    if s == enter then AddJump(PushAddress(p.At(enter), seg.impl, id), Jump(Taken, seg.start))
    else if s == back then Node(Some(FromBackup(seg.impl)), map[], [])
    else if s == seg.end then AddJump(p.At(s), Jump(AddressIs(id), back))
    else p.At(s)
  }

  lemma CalledAt(p: Program, enter: StateId, back: StateId, q: Proc, r: Proc, id: nat, width: nat, s: StateId)
    requires p.RoleOf(enter).Body? && enter in p.nodes && back !in p.nodes && p.SegOf(r).end in p.nodes
      && p.SegOf(r).end != enter
    ensures Called(p, Site(enter, None, None, back), q, r, id, width).At(s) == CalledNode(p, enter, back, r, id, s)
  {}

  /** What calling, rendering and jumping leave alone. */
  twostate predicate Onward(ctx: SegmentContext)
    reads ctx
  {
    ctx.Shape() && ctx.program.reset == old(ctx.program.reset)
  }

  method Call(ctx: SegmentContext, r: Proc)
    requires ctx.Shape() && r in ctx.program.segs && !ctx.Active(ctx.program.SegOf(r).impl) && r in ctx.counts
      && ctx.counts[r] <= 1
    requires ctx.program.width == 1
    modifies ctx
    ensures Onward(ctx) && ctx.program.width == 1
    ensures ctx.program.segs == old(ctx.program.segs) && ctx.levels == old(ctx.levels)
      && ctx.nextProc == old(ctx.nextProc)
    ensures ctx.counts == old(ctx.counts)[r := old(ctx.counts)[r] + 1]
    ensures ctx.current == old(ctx.nextState) && ctx.nextState == ctx.current + 1
    ensures Live(ctx.program, Current(ctx.levels), ctx.current)
    ensures old(ctx.program.RoleOf(ctx.current)).Body? && ctx.program.RoleOf(ctx.current).holds
         == old(ctx.program.RoleOf(ctx.current)).holds - old(ctx.program).Touch(r) + {old(ctx.program).SegOf(r).impl}
    ensures old(ctx.current in ctx.program.nodes) && ctx.current in ctx.program.nodes
      && Stay(old(ctx.program), ctx.program, old(ctx.current))
    ensures forall s {:trigger ctx.program.At(s)} ::
      ctx.program.At(s) == CalledNode(old(ctx.program), old(ctx.current), ctx.current, r, old(ctx.counts)[r], s)
  {
    ghost var p, enter, id := ctx.program, ctx.current, ctx.counts[r];
    var ok := ctx.CallSegment(r, false, false);
    OneBit(id + 1);
    forall s {:trigger ctx.program.At(s)} ensures ctx.program.At(s) == CalledNode(p, enter, ctx.current, r, id, s) {
      CalledAt(p, enter, ctx.current, Current(ctx.levels), r, id, 1, s);
    }
    forall s | s in p.nodes && s != enter ensures s in ctx.program.nodes && ctx.program.RoleOf(s) == p.RoleOf(s) {
      CalledKeepsRole(p, Site(enter, None, None, ctx.current), Current(ctx.levels), r, id, 1, s);
    }
  }

  /** States other than the calling one keep their roles. */
  ghost predicate Stay(p: Program, p2: Program, enter: StateId) {
    forall s :: s in p.nodes && s != enter ==> s in p2.nodes && p2.RoleOf(s) == p.RoleOf(s)
  }

  lemma OneBit(calls: nat)
    requires calls <= 2
    ensures WidthFor(1, calls) == 1
  {
    assert CeilLog2(2) == 1 + CeilLog2(1);
  }

  method Render(ctx: SegmentContext, f: Impl)
    requires ctx.Shape() && !ctx.Active(f)
    modifies ctx
    ensures Onward(ctx) && ctx.program.width == old(ctx.program.width)
    ensures ctx.program.segs == old(ctx.program.segs) && ctx.counts == old(ctx.counts)
      && ctx.nextProc == old(ctx.nextProc) + 1
    ensures ctx.levels == old(ctx.levels) + [Rendering(old(ctx.nextProc), f, ctx.current, old(ctx.current))]
    ensures ctx.current == old(ctx.nextState) && ctx.nextState == ctx.current + 1
    ensures ctx.program.RoleOf(ctx.current) == Body(old(ctx.nextProc), {})
    ensures forall s {:trigger ctx.program.At(s)} ::
      ctx.program.At(s) == if s == ctx.current then EMPTY else old(ctx.program).At(s)
  {
    var ok := ctx.BeginRender(f);
  }

  method Finish(ctx: SegmentContext)
    requires ctx.Shape() && ctx.levels != []
    modifies ctx
    ensures Onward(ctx) && ctx.program.width == old(ctx.program.width)
    ensures var top := old(ctx.levels[|ctx.levels| - 1]);
      && ctx.program.segs == old(ctx.program.segs)[top.proc := Segment(top.impl, top.start, old(ctx.current))]
      && ctx.counts == old(ctx.counts)[top.proc := 0] && ctx.current == top.resume
    ensures ctx.levels == old(ctx.levels)[..|old(ctx.levels)| - 1]
    ensures ctx.nextState == old(ctx.nextState) && ctx.nextProc == old(ctx.nextProc)
    ensures forall s {:trigger ctx.program.At(s)} :: ctx.program.At(s) == old(ctx.program).At(s)
  {
    var r := ctx.EndRender();
  }

  function SyncedNode(p: Program, s0: StateId, n: StateId, s: StateId): Node {
    if s == n then EMPTY else if s == s0 then AddJump(p.At(s), Jump(Taken, n)) else p.At(s)
  }

  method Sync(ctx: SegmentContext)
    requires ctx.Shape() && ctx.program.At(ctx.current).jumps == []
    modifies ctx
    ensures Onward(ctx) && ctx.program.width == old(ctx.program.width)
    ensures ctx.program.segs == old(ctx.program.segs) && ctx.levels == old(ctx.levels)
      && ctx.nextProc == old(ctx.nextProc)
    ensures ctx.counts == old(ctx.counts) && ctx.current == old(ctx.nextState) && ctx.nextState == ctx.current + 1
    ensures forall s {:trigger ctx.program.At(s)} ::
      ctx.program.At(s) == SyncedNode(old(ctx.program), old(ctx.current), ctx.current, s)
  {
    var ok := ctx.Sync();
  }

  // ----- Recursion through a segment rendered earlier -----

  const F := Impl(1)
  const H := Impl(2)
  const K := Impl(3)

  /** h() calls f(0); then k() calls f(1), whose body calls h() again. The segment h is rendered already, so
      its call of f is not seen while f(1) is active. */
  function RecursionNode(s: StateId): Node {
    match s
    case 0 => Node(Some(Id(0)), map[], [Jump(Taken, 1)])
    case 1 => Node(Some(Id(0)), map[H := FromAddress], [Jump(Taken, 2)])  // main calls h
    case 2 => Node(Some(Id(0)), map[F := FromAddress], [Jump(Taken, 3)])  // h calls f(0)
    case 3 => Node(None, map[], [Jump(AddressIs(0), 4)])  // f(0)
    case 4 => Node(Some(FromBackup(F)), map[], [Jump(AddressIs(0), 5), Jump(AddressIs(1), 9)])  // the end of h
    case 5 => Node(Some(FromBackup(H)), map[], [Jump(Taken, 6)])
    case 6 => Node(Some(Id(0)), map[K := FromAddress], [Jump(Taken, 7)])  // main calls k
    case 7 => Node(Some(Id(0)), map[F := FromAddress], [Jump(Taken, 8)])  // k calls f(1)
    case 8 => Node(Some(Id(1)), map[H := FromAddress], [Jump(Taken, 2)])  // f(1) calls h
    case 9 => Node(Some(FromBackup(H)), map[], [Jump(AddressIs(0), 10)])  // the end of f(1)
    case 10 => Node(Some(FromBackup(F)), map[], [Jump(AddressIs(0), 11)])  // the end of k
    case _ => Node(Some(FromBackup(K)), map[], [])
  }

  ghost predicate IsHiddenRecursion(p: Program) {
    p.width == 1 && p.reset == 0 && forall s: StateId {:trigger p.At(s)} :: s < 12 ==> p.At(s) == RecursionNode(s)
  }

  /** main: sync, the beginning of h, and f(0). */
  method CompileF() returns (ctx: SegmentContext)
    ensures fresh(ctx) && ctx.Shape() && ctx.levels == [Rendering(1, H, 2, 1)] && ctx.program.width == 1
      && ctx.program.reset == 0
    ensures ctx.current == 2 && ctx.nextState == 4 && ctx.nextProc == 3
    ensures ctx.program.segs == map[2 := Segment(F, 3, 3)] && ctx.counts == map[2 := 0]
    ensures ctx.program.At(0) == RecursionNode(0)
      && ctx.program.At(1) == ctx.program.At(2) == ctx.program.At(3) == EMPTY
  {
    hide Shaped;
    ctx := new SegmentContext(true);
    Sync(ctx);
    Render(ctx, H);
    Render(ctx, F);
    Finish(ctx);
  }

  /** ... the rest of h, and its call. */
  method CompileFirstCall() returns (ctx: SegmentContext)
    ensures fresh(ctx) && ctx.Shape() && ctx.levels == [] && ctx.program.width == 1 && ctx.program.reset == 0
    ensures ctx.current == 5 && ctx.nextState == 6 && ctx.nextProc == 3
    ensures ctx.program.segs == map[1 := Segment(H, 2, 4), 2 := Segment(F, 3, 3)] && ctx.counts == map[1 := 1, 2 := 1]
    ensures forall s: StateId {:trigger ctx.program.At(s)} :: s < 4 ==> ctx.program.At(s) == RecursionNode(s)
    ensures ctx.program.At(4) == Node(Some(FromBackup(F)), map[], [Jump(AddressIs(0), 5)])
    ensures ctx.program.At(5) == Node(Some(FromBackup(H)), map[], [])
  {
    hide Shaped;
    ctx := CompileF();
    Call(ctx, 2);
    Finish(ctx);
    Call(ctx, 1);
  }

  /** ... sync, the beginning of k, and f(1). */
  method CompileSecondF() returns (ctx: SegmentContext)
    ensures fresh(ctx) && ctx.Shape() && ctx.levels == [Rendering(3, K, 7, 6)] && ctx.program.width == 1
      && ctx.program.reset == 0
    ensures ctx.current == 7 && ctx.nextState == 10 && ctx.nextProc == 5
    ensures ctx.program.segs == map[1 := Segment(H, 2, 4), 2 := Segment(F, 3, 3), 4 := Segment(F, 8, 9)]
    ensures ctx.counts == map[1 := 2, 2 := 1, 4 := 0]
    ensures forall s: StateId {:trigger ctx.program.At(s)} :: s < 6 || s == 8 ==> ctx.program.At(s) == RecursionNode(s)
    ensures ctx.program.At(6) == ctx.program.At(7) == EMPTY && ctx.program.At(9) == Node(Some(FromBackup(H)), map[], [])
  {
    hide Shaped;
    ctx := CompileFirstCall();
    Sync(ctx);
    Render(ctx, K);
    Render(ctx, F);
    Call(ctx, 1);
    Finish(ctx);
  }

  /** ... the rest of k, and its call. No step fails, and the program emitted is the one above. */
  method CompileHiddenRecursion() returns (ctx: SegmentContext)
    ensures fresh(ctx) && ctx.Shape() && ctx.levels == [] && IsHiddenRecursion(ctx.program)
  {
    hide Shaped;
    ctx := CompileSecondF();
    Call(ctx, 4);
    Finish(ctx);
    Call(ctx, 3);
  }

  lemma RunStarts(p: Program, backup: Backups, o: nat -> nat -> bool)
    requires p.width == 1 && p.At(p.reset).address == Some(Id(0)) && p.At(p.reset).backups == map[]
    ensures Run(p, backup, o, 0) == Machine(p.reset, Regs(0, backup))
  {
    Bit(0);
    assert Enter(p.At(p.reset), Regs(0, backup), 1).backup == backup;
  }

  lemma FirstCallReturns(p: Program, backup: Backups, o: nat -> nat -> bool)
    requires IsHiddenRecursion(p)
    ensures var m := Run(p, backup, o, 5); m.at == 5 && m.regs.address == 0
  {
    hide Run, Enter, Goto;
    RunStarts(p, backup, o);
    ToCall(p, backup, o, 0, 0, 1, H, 0);
    ToCall(p, backup, o, 1, 0, 2, F, 0);
    ToBody(p, backup, o, 2, 0, 3);
    ToReturn(p, backup, o, 3, 0, 4, F);
    ToReturn(p, backup, o, 4, 0, 5, H);
  }

  lemma SecondCallEnters(p: Program, backup: Backups, o: nat -> nat -> bool)
    requires IsHiddenRecursion(p)
    ensures var m := Run(p, backup, o, 9);
      m.at == 2 && m.regs.address == 0 && m.regs.backup[F] == 1 && m.regs.backup[H] == 0
  {
    hide Run, Enter, Goto;
    FirstCallReturns(p, backup, o);
    ToCall(p, backup, o, 5, 0, 6, K, 0);
    ToCall(p, backup, o, 6, 0, 7, F, 0);
    ToCall(p, backup, o, 7, 0, 8, H, 1);
    ToCall(p, backup, o, 8, 0, 2, F, 0);
  }

  /** The call of f(1) reaches f again. The return from f(1) finds the address that h saved in f's backup
      register: k never returns. */
  lemma HiddenRecursionIsLost(p: Program, backup: Backups, o: nat -> nat -> bool, more: nat)
    requires IsHiddenRecursion(p)
    ensures Run(p, backup, o, 13 + more).at == 10
  {
    hide Run, Enter, Goto;
    SecondCallEnters(p, backup, o);
    ToBody(p, backup, o, 9, 0, 3);
    ToReturn(p, backup, o, 10, 0, 4, F);
    ToReturn(p, backup, o, 11, 1, 9, H);
    ToReturn(p, backup, o, 12, 0, 10, F);
    EnterReturn(p.At(10), Run(p, backup, o, 13).regs, F);
    Stuck(p, backup, o, 13, more);
  }

  // ----- Going back to the state after a call -----

  /** g() calls f(); p() calls f() and then loops, the state after the call being the head of the loop; the
      body calls g(). */
  function LoopNode(s: StateId): Node {
    match s
    case 0 => Node(Some(Id(0)), map[], [Jump(Taken, 1)])
    case 1 => Node(Some(Id(0)), map[H := FromAddress], [Jump(Taken, 2)])  // main calls g
    case 2 => Node(Some(Id(0)), map[F := FromAddress], [Jump(Taken, 3)])  // g calls f
    case 3 => Node(None, map[], [Jump(AddressIs(0), 4), Jump(AddressIs(1), 8)])  // f
    case 4 => Node(Some(FromBackup(F)), map[], [Jump(AddressIs(0), 5), Jump(AddressIs(1), 11)])  // the end of g
    case 5 => Node(Some(FromBackup(H)), map[], [Jump(Taken, 6)])
    case 6 => Node(Some(Id(0)), map[K := FromAddress], [Jump(Taken, 7)])  // main calls p
    case 7 => Node(Some(Id(1)), map[F := FromAddress], [Jump(Taken, 3)])  // p calls f
    case 8 => Node(Some(FromBackup(F)), map[], [Jump(Other(0), 10), Jump(Other(1), 9)])  // after f: the loop
    case 9 => Node(None, map[], [Jump(AddressIs(0), 12)])  // the end of p
    case 10 => Node(Some(Id(1)), map[H := FromAddress], [Jump(Taken, 2)])  // the body calls g
    case 11 => Node(Some(FromBackup(H)), map[], [Jump(Taken, 8)])  // back to the loop head
    case _ => Node(Some(FromBackup(K)), map[], [])
  }

  ghost predicate IsLoopAfterCall(p: Program) {
    p.width == 1 && p.reset == 0 && forall s: StateId {:trigger p.At(s)} :: s < 13 ==> p.At(s) == LoopNode(s)
  }

  method Jumps(ctx: SegmentContext, condition: Cond, target: StateId)
    requires ctx.Shape() && !condition.AddressIs? && target in ctx.program.nodes
    modifies ctx
    ensures Onward(ctx) && ctx.program.width == old(ctx.program.width)
    ensures ctx.program.segs == old(ctx.program.segs) && ctx.levels == old(ctx.levels)
      && ctx.nextProc == old(ctx.nextProc)
    ensures ctx.counts == old(ctx.counts) && ctx.current == old(ctx.current) && ctx.nextState == old(ctx.nextState)
    ensures ctx.program.nodes.Keys == old(ctx.program.nodes.Keys) && ctx.program.roles == old(ctx.program.roles)
    ensures forall s {:trigger ctx.program.At(s)} ::
      ctx.program.At(s) == if s == ctx.current then AddJump(old(ctx.program).At(s), Jump(condition, target))
        else old(ctx.program).At(s)
  {
    ctx.JumpIf(condition, target);
  }

  function WhileNode(p: Program, head: StateId, final: StateId, inside: StateId, s: StateId): Node {
    if s == final || s == inside then EMPTY
    else if s == head then AddJump(AddJump(p.At(s), Jump(Other(0), inside)), Jump(Other(1), final))
    else p.At(s)
  }

  /** The start of a while loop in the current state: its final state, its body, and the two jumps. */
  method BeginWhile(ctx: SegmentContext) returns (final: StateId)
    requires ctx.Shape()
    modifies ctx
    ensures Onward(ctx) && ctx.program.width == old(ctx.program.width)
    ensures ctx.program.segs == old(ctx.program.segs) && ctx.levels == old(ctx.levels)
      && ctx.nextProc == old(ctx.nextProc)
    ensures ctx.counts == old(ctx.counts) && final == old(ctx.nextState) && ctx.current == final + 1
      && ctx.nextState == final + 2
    ensures Live(ctx.program, Current(ctx.levels), final) && old(ctx.current) in ctx.program.nodes
      && ctx.current in ctx.program.nodes
    ensures ctx.program.RoleOf(ctx.current) == Body(Current(ctx.levels), {})
    ensures ctx.program.RoleOf(old(ctx.current)) == old(ctx.program.RoleOf(ctx.current))
    ensures forall s {:trigger ctx.program.At(s)} ::
      ctx.program.At(s) == WhileNode(old(ctx.program), old(ctx.current), final, ctx.current, s)
  {
    final := ctx.NewState();
    var inside := ctx.NewState();
    Jumps(ctx, Other(0), inside);
    Jumps(ctx, Other(1), final);
    ctx.Select(inside);
  }

  /** main: sync, g(), sync, and p() up to the loop. */
  method CompileLoop() returns (ctx: SegmentContext)
    ensures fresh(ctx) && ctx.Shape() && ctx.program.width == 1 && ctx.program.reset == 0
    ensures ctx.current == 10 && ctx.nextState == 11 && ctx.nextProc == 4 && ctx.levels == [Rendering(3, K, 7, 6)]
    ensures ctx.program.segs == map[1 := Segment(H, 2, 4), 2 := Segment(F, 3, 3)] && ctx.counts == map[1 := 1, 2 := 2]
    ensures Live(ctx.program, 3, 9) && Live(ctx.program, 3, 8) && 10 in ctx.program.nodes
    ensures F in ctx.program.RoleOf(8).holds && ctx.program.RoleOf(10) == Body(3, {})
    ensures forall s: StateId {:trigger ctx.program.At(s)} ::
      s < 9 && s != 4 && s != 6 ==> ctx.program.At(s) == LoopNode(s)
    ensures ctx.program.At(4) == Node(Some(FromBackup(F)), map[], [Jump(AddressIs(0), 5)])
    ensures ctx.program.At(6) == ctx.program.At(9) == ctx.program.At(10) == EMPTY
  {
    hide Shaped;
    ctx := CompileFirstCall();
    Sync(ctx);
    Render(ctx, K);
    Call(ctx, 2);
    var final := BeginWhile(ctx);
  }

  /** ... the body of the loop with g(), the end of the loop and of p, and the call of p. No step fails, and
      the program emitted is the one above. Where the loop jumps back, f's backup register does not hold the
      return address. */
  method CompileLoopAfterCall() returns (ctx: SegmentContext)
    ensures fresh(ctx) && ctx.Shape() && ctx.levels == [] && IsLoopAfterCall(ctx.program)
  {
    hide Shaped;
    ctx := CompileLoop();
    Call(ctx, 1);
    assert F in ctx.program.RoleOf(8).holds && F !in ctx.program.RoleOf(ctx.current).holds;
    Jumps(ctx, Taken, 8);
    ctx.Select(9);
    Finish(ctx);
    Call(ctx, 3);
  }

  lemma LoopEntered(p: Program, backup: Backups, o: nat -> nat -> bool)
    requires IsLoopAfterCall(p)
    ensures var m := Run(p, backup, o, 5); m.at == 5 && m.regs.address == 0
  {
    hide Run, Enter, Goto;
    RunStarts(p, backup, o);
    ToCall(p, backup, o, 0, 0, 1, H, 0);
    ToCall(p, backup, o, 1, 0, 2, F, 0);
    ToBody(p, backup, o, 2, 0, 3);
    ToReturn(p, backup, o, 3, 0, 4, F);
    ToReturn(p, backup, o, 4, 0, 5, H);
  }

  lemma LoopReached(p: Program, backup: Backups, o: nat -> nat -> bool)
    requires IsLoopAfterCall(p)
    ensures var m := Run(p, backup, o, 9); m.at == 8 && m.regs.address == 0 && m.regs.backup[F] == 0
  {
    hide Run, Enter, Goto;
    LoopEntered(p, backup, o);
    ToCall(p, backup, o, 5, 0, 6, K, 0);
    ToCall(p, backup, o, 6, 0, 7, F, 1);
    ToBody(p, backup, o, 7, 0, 3);
    ToReturn(p, backup, o, 8, 1, 8, F);
  }

  /** One round of the loop is taken: the condition holds the first time and not the second time. */
  ghost predicate OneRound(o: nat -> nat -> bool) {
    o(9)(0) && !o(9)(1) && !o(15)(0) && o(15)(1)
  }

  lemma LoopBodyCalls(p: Program, backup: Backups, o: nat -> nat -> bool)
    requires IsLoopAfterCall(p) && OneRound(o)
    ensures var m := Run(p, backup, o, 11);
      m.at == 2 && m.regs.address == 0 && m.regs.backup[F] == 1 && m.regs.backup[H] == 0
  {
    hide Run, Enter, Goto;
    LoopReached(p, backup, o);
    ToCall(p, backup, o, 9, 0, 10, H, 1);
    ToCall(p, backup, o, 10, 0, 2, F, 0);
  }

  lemma LoopBodyRuns(p: Program, backup: Backups, o: nat -> nat -> bool)
    requires IsLoopAfterCall(p) && OneRound(o)
    ensures var m := Run(p, backup, o, 14);
      m.at == 11 && m.regs.address == 0 && m.regs.backup[F] == 1
  {
    hide Run, Enter, Goto;
    LoopBodyCalls(p, backup, o);
    ToBody(p, backup, o, 11, 0, 3);
    ToReturn(p, backup, o, 12, 0, 4, F);
    ToReturn(p, backup, o, 13, 1, 11, H);
  }

  /** After one round of the loop the head restores what g's call of f saved, not p's return address: p
      never returns. */
  lemma LoopAfterCallIsLost(p: Program, backup: Backups, o: nat -> nat -> bool, more: nat)
    requires IsLoopAfterCall(p) && OneRound(o)
    ensures Run(p, backup, o, 16 + more).at == 9
  {
    hide Run, Enter, Goto;
    LoopBodyRuns(p, backup, o);
    ToReturn(p, backup, o, 14, 0, 8, F);
    ToBody(p, backup, o, 15, 1, 9);
    EnterBody(p.At(9), Run(p, backup, o, 16).regs);
    Stuck(p, backup, o, 16, more);
  }
}
