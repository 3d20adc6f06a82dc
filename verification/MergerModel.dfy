/** State merging: states of a worker with the same signature become one state. */
module MergerModel {
  import opened Signals
  import opened Selectors
  import opened Cycle

  // ----- Signatures -----

  /** The text of one assignment in the signature: the value, or the cases. The default of a
      selector is not part of the text. */
  datatype Text = ValueText(value: Expr) | CasesText(cases: Selector)

  function EraseDefaults(s: Selector): Selector
    decreases s
  {
    match s
    case NoDefault => NoDefault
    case Default(_) => NoDefault
    case Case(e, Plain(v), rest) => Case(e, Plain(v), EraseDefaults(rest))
    case Case(e, Nested(n), rest) => Case(e, Nested(EraseDefaults(n)), EraseDefaults(rest))
  }

  /** Empty for a selector without cases. */
  function TextOf(a: Assignment): seq<Text> {
    match a
    case Always(_, e) => [ValueText(e)]
    case When(_, s) => if EraseDefaults(s) == NoDefault then [] else [CasesText(EraseDefaults(s))]
  }

  function Texts(assigns: seq<Assignment>, t: Target): seq<Text> {
    if assigns == [] then []
    else (if assigns[0].target == t then TextOf(assigns[0]) else []) + Texts(assigns[1..], t)
  }

  function Targets(assigns: seq<Assignment>): set<Target> {
    set i | 0 <= i < |assigns| :: assigns[i].target
  }

  /** The signature sorts the assignments by target, keeping the order of those to one target:
      two states have equal sorted lists exactly when they agree target by target. */
  datatype Signature = Signature(assigns: map<Target, seq<Text>>, trans: seq<Transition>)

  function SignatureOf(st: State): Signature {
    Signature(map t | t in Targets(st.assigns) && Texts(st.assigns, t) != [] :: Texts(st.assigns, t), st.trans)
  }

  // ----- States that write the same -----

  ghost predicate Alike(x: seq<Assignment>, y: seq<Assignment>, ops: Ops) {
    forall pre: Env, b: Bit :: BitWritten(x, b, ops, pre) == BitWritten(y, b, ops, pre)
  }

  /** The assignments that cover the bit and execute anything; the others have no text. */
  function Touching(x: seq<Assignment>, b: Bit): seq<Assignment>
    decreases |x|
  {
    if x == [] then []
    else
      var last := x[|x| - 1];
      Touching(x[..|x| - 1], b) + if last.target.Covers(b) && TextOf(last) != [] then [last] else []
  }

  // ----- What merging relies on -----

  /** At most one condition holds. */
  ghost predicate Exclusive(trans: seq<Transition>, ops: Ops) {
    forall i, j, env: Env ::
      0 <= i < j < |trans| ==> !(Holds(trans[i].cond, ops, env) && Holds(trans[j].cond, ops, env))
  }

  /** The conditions of a state exclude each other, and two states with the same assignment texts write the
      same bits: defaults and the order of overlapping targets, which the texts leave out, do not matter. */
  ghost predicate Suitable(f: Fsm, ops: Ops) {
    && (forall s {:trigger Exclusive(f.body[s].trans, ops)} :: s in f.body ==> Exclusive(f.body[s].trans, ops))
    && (forall s, t {:trigger Alike(f.body[s].assigns, f.body[t].assigns, ops)} ::
          s in f.body && t in f.body && SignatureOf(f.body[s]).assigns == SignatureOf(f.body[t]).assigns
          ==> Alike(f.body[s].assigns, f.body[t].assigns, ops))
  }

  // ----- Merging one group -----

  /** The kept state stands for the merged ones. */
  function Rep(group: seq<StateId>, s: StateId): StateId
    requires group != []
  {
    if s in group[1..] then group[0] else s
  }

  predicate HasTarget(ts: seq<Transition>, t: StateId) {
    exists i :: 0 <= i < |ts| && ts[i].target == t
  }

  /** `Any(c, condition)` on the transitions to t. */
  function OrInto(ts: seq<Transition>, cond: Expr, t: StateId): (r: seq<Transition>)
    ensures |r| == |ts|
    ensures forall i :: 0 <= i < |ts| ==>
      r[i] == if ts[i].target == t then Transition(Any(ts[i].cond, cond), t) else ts[i]
  {
    if ts == [] then []
    else OrInto(ts[..|ts| - 1], cond, t)
         + [var last := ts[|ts| - 1]; if last.target == t then Transition(Any(last.cond, cond), t) else last]
  }

  function AddTransition(ts: seq<Transition>, cond: Expr, t: StateId): seq<Transition> {
    if HasTarget(ts, t) then OrInto(ts, cond, t) else ts + [Transition(cond, t)]
  }

  function MergedTrans(ts: seq<Transition>, group: seq<StateId>): seq<Transition>
    requires group != []
    decreases |ts|
  {
    if ts == [] then []
    else
      var last := ts[|ts| - 1];
      AddTransition(MergedTrans(ts[..|ts| - 1], group), last.cond, Rep(group, last.target))
  }

  function Remaining(states: seq<StateId>, gone: seq<StateId>): (r: seq<StateId>)
    ensures forall s :: s in r <==> s in states && s !in gone
    ensures |r| <= |states|
  {
    if states == [] then []
    else (if states[0] in gone then [] else [states[0]]) + Remaining(states[1..], gone)
  }

  /** The worker after `_merge_same_signature_states`. */
  function Merged(f: Fsm, group: seq<StateId>): Fsm
    requires group != []
  {
    f.(states := Remaining(f.states, group[1..]),
       body := map s | s in f.body && s !in group[1..] :: f.body[s].(trans := MergedTrans(f.body[s].trans, group)))
  }

  /** Distinct states of f with one signature, the reset state being first if it is among them. */
  ghost predicate Group(f: Fsm, group: seq<StateId>) {
    && group != [] && f.reset !in group[1..]
    && (forall i, j :: 0 <= i < j < |group| ==> group[i] != group[j])
    && (forall s :: s in group ==> s in f.body)
    && (forall s {:trigger SignatureOf(f.At(s))} :: s in group ==> SignatureOf(f.At(s)) == SignatureOf(f.At(group[0])))
  }
}
