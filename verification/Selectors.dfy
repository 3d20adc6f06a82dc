/** Selector assignments (`set_when`): the dictionary the user writes, the list of cases
noRTL keeps, the if / else-if chain the renderer emits, and the flat list of cases. */
module Selectors {
  import opened Signals

  datatype Option<+T> = None | Some(value: T) {
    predicate IsFailure() { None? }

    function PropagateFailure<U>(): Option<U>
      requires None?
    {
      None
    }

    function Extract(): T
      requires Some?
    {
      value
    }
  }

  // ----- The dictionary given to set_when, in insertion order -----

  datatype Key = DefaultKey | On(cond: Expr)
  datatype Item = Level(value: Expr) | Sub(dict: Dict)
  datatype Dict = Empty | Entry(key: Key, item: Item, rest: Dict)

  predicate HasDefault(d: Dict) {
    d.Entry? && (d.key.DefaultKey? || HasDefault(d.rest))
  }

  /** The item of the first constantly true case. */
  function FirstTrue(d: Dict): (r: Option<Item>)
    ensures r.Some? ==> r.value < d
  {
    match d
    case Empty => None
    case Entry(DefaultKey, _, rest) => FirstTrue(rest)
    case Entry(On(c), item, rest) => if c == True then Some(item) else FirstTrue(rest)
  }

  /** What a dictionary means: the value of the first case that holds, else the default, else the signal
      is not written (None). With `short`, a level without a default is cut short by its first
      constantly true case. */
  ghost function Meaning(d: Dict, short: bool, ops: Ops, env: Env): Option<int>
    decreases d, 1
  {
    if short && !HasDefault(d) && FirstTrue(d).Some? then ItemMeaning(FirstTrue(d).value, short, ops, env)
    else Scan(d, DefaultMeaning(d, None, short, ops, env), short, ops, env)
  }

  ghost function DefaultMeaning(d: Dict, found: Option<int>, short: bool, ops: Ops, env: Env): Option<int>
    decreases d, 0
  {
    match d
    case Empty => found
    case Entry(DefaultKey, item, rest) => DefaultMeaning(rest, ItemMeaning(item, short, ops, env), short, ops, env)
    case Entry(On(_), _, rest) => DefaultMeaning(rest, found, short, ops, env)
  }

  ghost function Scan(d: Dict, fallback: Option<int>, short: bool, ops: Ops, env: Env): Option<int>
    decreases d, 0
  {
    match d
    case Empty => fallback
    case Entry(DefaultKey, _, rest) => Scan(rest, fallback, short, ops, env)
    case Entry(On(c), item, rest) =>
      if Holds(c, ops, env) then ItemMeaning(item, short, ops, env) else Scan(rest, fallback, short, ops, env)
  }

  ghost function ItemMeaning(item: Item, short: bool, ops: Ops, env: Env): Option<int>
    decreases item, 2
  {
    match item
    case Level(e) => Some(Eval(e, ops, env))
    case Sub(d) => Meaning(d, short, ops, env)
  }

  // ----- What SelectorAssignment keeps: cases, then the default -----

  datatype Choice = Plain(value: Expr) | Nested(sel: Selector)
  datatype Selector =
    | NoDefault
    | Default(choice: Choice)
    | Case(cond: Expr, choice: Choice, rest: Selector)

  /** First matching case, else the default, else nothing is written. */
  ghost function Pick(sel: Selector, ops: Ops, env: Env): Option<int>
    decreases sel
  {
    match sel
    case NoDefault => None
    case Default(c) => PickChoice(c, ops, env)
    case Case(cond, c, rest) =>
      if Holds(cond, ops, env) then PickChoice(c, ops, env) else Pick(rest, ops, env)
  }

  ghost function PickChoice(c: Choice, ops: Ops, env: Env): Option<int>
    decreases c
  {
    match c
    case Plain(e) => Some(Eval(e, ops, env))
    case Nested(sel) => Pick(sel, ops, env)
  }

  /** The outcome of `_update_cases`; None is its RuntimeError. */
  function Normalise(d: Dict, allowShortCircuit: bool): Option<Selector>
    decreases d, 3
  {
    if HasDefault(d) then
      var dflt :- NormDefault(d, NoDefault, allowShortCircuit);
      NormCases(d, dflt, true, allowShortCircuit)
    else if allowShortCircuit && FirstTrue(d).Some? then
      var c :- NormItem(FirstTrue(d).value, allowShortCircuit);
      Some(Case(True, c, NoDefault))
    else
      NormCases(d, NoDefault, false, allowShortCircuit)
  }

  function NormItem(item: Item, allowShortCircuit: bool): Option<Choice>
    decreases item, 4
  {
    match item
    case Level(e) => Some(Plain(e))
    case Sub(d) =>
      var s :- Normalise(d, allowShortCircuit);
      Some(Nested(s))
  }

  function NormDefault(d: Dict, found: Selector, allowShortCircuit: bool): Option<Selector>
    decreases d, 2
  {
    match d
    case Empty => Some(found)
    case Entry(DefaultKey, item, rest) =>
      var c :- NormItem(item, allowShortCircuit);
      NormDefault(rest, Default(c), allowShortCircuit)
    case Entry(On(_), _, rest) => NormDefault(rest, found, allowShortCircuit)
  }

  /** Constantly false cases vanish; a constantly true one replaces the default of a prioritised
      selector and is an error in another one. */
  function NormCases(d: Dict, dflt: Selector, priority: bool, allowShortCircuit: bool): Option<Selector>
    decreases d, 2
  {
    match d
    case Empty => Some(dflt)
    case Entry(DefaultKey, _, rest) => NormCases(rest, dflt, priority, allowShortCircuit)
    case Entry(On(c), item, rest) =>
      if c == False then NormCases(rest, dflt, priority, allowShortCircuit)
      else if c == True then
        if !priority then None
        else
          var v :- NormItem(item, allowShortCircuit);
          Some(Default(v))
      else
        var v :- NormItem(item, allowShortCircuit);
        var r :- NormCases(rest, dflt, priority, allowShortCircuit);
        Some(Case(c, v, r))
  }

  /** Normalisation keeps the meaning for every valuation; where short circuits are allowed, that is
      the meaning with short circuits. */
  lemma {:induction false} NormaliseMeans(d: Dict, allow: bool, ops: Ops, env: Env)
    requires Normalise(d, allow).Some?
    ensures Pick(Normalise(d, allow).value, ops, env) == Meaning(d, allow, ops, env)
    decreases d, 3
  {
    if HasDefault(d) {
      NormDefaultMeans(d, NoDefault, None, allow, ops, env);
      var dflt := NormDefault(d, NoDefault, allow).value;
      NormCasesMean(d, dflt, DefaultMeaning(d, None, allow, ops, env), true, allow, ops, env);
    } else if allow && FirstTrue(d).Some? {
      NormItemMeans(FirstTrue(d).value, allow, ops, env);
    } else {
      NoDefaultMeaning(d, None, allow, ops, env);
      NormCasesMean(d, NoDefault, None, false, allow, ops, env);
    }
  }

  lemma NoDefaultMeaning(d: Dict, found: Option<int>, short: bool, ops: Ops, env: Env)
    requires !HasDefault(d)
    ensures DefaultMeaning(d, found, short, ops, env) == found
  {}

  lemma {:induction false} NormItemMeans(item: Item, allow: bool, ops: Ops, env: Env)
    requires NormItem(item, allow).Some?
    ensures PickChoice(NormItem(item, allow).value, ops, env) == ItemMeaning(item, allow, ops, env)
    decreases item, 4
  {
    if item.Sub? { NormaliseMeans(item.dict, allow, ops, env); }
  }

  lemma {:induction false} NormDefaultMeans(
      d: Dict, found: Selector, value: Option<int>, allow: bool, ops: Ops, env: Env)
    requires NormDefault(d, found, allow).Some?
    requires Pick(found, ops, env) == value
    ensures Pick(NormDefault(d, found, allow).value, ops, env) == DefaultMeaning(d, value, allow, ops, env)
    decreases d, 2
  {
    match d
    case Empty =>
    case Entry(DefaultKey, item, rest) =>
      NormItemMeans(item, allow, ops, env);
      var c := NormItem(item, allow).value;
      NormDefaultMeans(rest, Default(c), ItemMeaning(item, allow, ops, env), allow, ops, env);
    case Entry(On(_), _, rest) => NormDefaultMeans(rest, found, value, allow, ops, env);
  }

  lemma {:induction false} NormCasesMean(
      d: Dict, dflt: Selector, fallback: Option<int>, priority: bool, allow: bool, ops: Ops, env: Env)
    requires NormCases(d, dflt, priority, allow).Some?
    requires Pick(dflt, ops, env) == fallback
    ensures Pick(NormCases(d, dflt, priority, allow).value, ops, env) == Scan(d, fallback, allow, ops, env)
    decreases d, 2
  {
    match d
    case Empty =>
    case Entry(DefaultKey, _, rest) => NormCasesMean(rest, dflt, fallback, priority, allow, ops, env);
    case Entry(On(c), item, rest) =>
      if c != False { NormItemMeans(item, allow, ops, env); }
      if c != True { NormCasesMean(rest, dflt, fallback, priority, allow, ops, env); }
  }

  // ----- What short circuits change -----

  /** The item of the first case that holds. */
  ghost function FirstHolding(d: Dict, ops: Ops, env: Env): (r: Option<Item>)
    ensures r.Some? ==> r.value < d
  {
    match d
    case Empty => None
    case Entry(DefaultKey, _, rest) => FirstHolding(rest, ops, env)
    case Entry(On(c), item, rest) => if Holds(c, ops, env) then Some(item) else FirstHolding(rest, ops, env)
  }

  function LastDefault(d: Dict): (r: Option<Item>)
    ensures r.Some? ==> r.value < d
    ensures r.Some? <==> HasDefault(d)
  {
    match d
    case Empty => None
    case Entry(DefaultKey, item, rest) => if HasDefault(rest) then LastDefault(rest) else Some(item)
    case Entry(On(_), _, rest) => LastDefault(rest)
  }

  /** A case before the first constantly true one holds. */
  ghost predicate EarlierHolds(d: Dict, ops: Ops, env: Env) {
    match d
    case Empty => false
    case Entry(DefaultKey, _, rest) => EarlierHolds(rest, ops, env)
    case Entry(On(c), _, rest) => c != True && (Holds(c, ops, env) || EarlierHolds(rest, ops, env))
  }

  /** On the way to the value, a level without a default is cut short although an earlier case holds, and
      the value is another one. */
  ghost predicate CutShort(d: Dict, ops: Ops, env: Env)
    decreases d
  {
    var first := FirstHolding(d, ops, env);
    if !HasDefault(d) && FirstTrue(d).Some? && EarlierHolds(d, ops, env) then
      first.Some? && ItemMeaning(first.value, false, ops, env) != ItemMeaning(FirstTrue(d).value, true, ops, env)
    else
      var item := if first.Some? then first else LastDefault(d);
      item.Some? && item.value.Sub? && CutShort(item.value.dict, ops, env)
  }

  lemma {:induction false} ScanIsFirst(d: Dict, fallback: Option<int>, short: bool, ops: Ops, env: Env)
    ensures var first := FirstHolding(d, ops, env);
      Scan(d, fallback, short, ops, env) == if first.Some? then ItemMeaning(first.value, short, ops, env) else fallback
    decreases d
  {
    match d
    case Empty =>
    case Entry(_, _, rest) => ScanIsFirst(rest, fallback, short, ops, env);
  }

  lemma {:induction false} DefaultIsLast(d: Dict, found: Option<int>, short: bool, ops: Ops, env: Env)
    ensures DefaultMeaning(d, found, short, ops, env)
         == if LastDefault(d).Some? then ItemMeaning(LastDefault(d).value, short, ops, env) else found
    decreases d
  {
    match d
    case Empty =>
    case Entry(DefaultKey, item, rest) => DefaultIsLast(rest, ItemMeaning(item, short, ops, env), short, ops, env);
    case Entry(On(_), _, rest) => DefaultIsLast(rest, found, short, ops, env);
  }

  lemma {:induction false} FirstTrueHolds(d: Dict, ops: Ops, env: Env)
    ensures EarlierHolds(d, ops, env) ==> FirstHolding(d, ops, env).Some?
    ensures FirstTrue(d).Some? && !EarlierHolds(d, ops, env) ==> FirstHolding(d, ops, env) == FirstTrue(d)
    decreases d
  {
    match d
    case Empty =>
    case Entry(_, _, rest) => FirstTrueHolds(rest, ops, env);
  }

  /** Short circuits change the meaning for a valuation exactly if a level on the way to the value is cut
      short while an earlier case of it holds with another value. */
  lemma {:induction false} ShortCircuitsExactly(d: Dict, ops: Ops, env: Env)
    ensures Meaning(d, true, ops, env) != Meaning(d, false, ops, env) <==> CutShort(d, ops, env)
    decreases d
  {
    var first := FirstHolding(d, ops, env);
    FirstTrueHolds(d, ops, env);
    ScanIsFirst(d, DefaultMeaning(d, None, true, ops, env), true, ops, env);
    ScanIsFirst(d, DefaultMeaning(d, None, false, ops, env), false, ops, env);
    DefaultIsLast(d, None, true, ops, env);
    DefaultIsLast(d, None, false, ops, env);
    var item := if first.Some? then first else LastDefault(d);
    if item.Some? && item.value.Sub? { ShortCircuitsExactly(item.value.dict, ops, env); }
  }

  /** Normalisation keeps the first-match meaning of a valuation exactly if short circuits are not allowed
      or do not cut anything short that matters. */
  lemma NormaliseKeepsMeaning(d: Dict, allow: bool, ops: Ops, env: Env)
    requires Normalise(d, allow).Some?
    ensures Pick(Normalise(d, allow).value, ops, env) == Meaning(d, false, ops, env) <==>
      !(allow && CutShort(d, ops, env))
  {
    NormaliseMeans(d, allow, ops, env);
    ShortCircuitsExactly(d, ops, env);
  }

  /** No case but a constantly false one before the first constantly true one. */
  predicate NothingEarlier(d: Dict) {
    match d
    case Empty => true
    case Entry(DefaultKey, _, rest) => NothingEarlier(rest)
    case Entry(On(c), _, rest) => c == True || (c == False && NothingEarlier(rest))
  }

  /** Every level has a default, no constantly true case, or no other case before it. */
  predicate NeverCut(d: Dict)
    decreases d, 1
  {
    (HasDefault(d) || FirstTrue(d).None? || NothingEarlier(d)) && SubsNeverCut(d)
  }

  predicate SubsNeverCut(d: Dict)
    decreases d, 0
  {
    match d
    case Empty => true
    case Entry(_, item, rest) => (item.Sub? ==> NeverCut(item.dict)) && SubsNeverCut(rest)
  }

  lemma {:induction false} NothingEarlierHolds(d: Dict, ops: Ops, env: Env)
    requires NothingEarlier(d)
    ensures !EarlierHolds(d, ops, env)
    decreases d
  {
    match d
    case Empty =>
    case Entry(key, _, rest) => if key != On(True) { NothingEarlierHolds(rest, ops, env); }
  }

  lemma {:induction false} SubNeverCut(d: Dict, ops: Ops, env: Env)
    requires SubsNeverCut(d)
    ensures var first, last := FirstHolding(d, ops, env), LastDefault(d);
      && (first.Some? && first.value.Sub? ==> NeverCut(first.value.dict))
      && (last.Some? && last.value.Sub? ==> NeverCut(last.value.dict))
    decreases d
  {
    match d
    case Empty =>
    case Entry(_, _, rest) => SubNeverCut(rest, ops, env);
  }

  /** What can be seen on the dictionary: nothing is cut short for any valuation. */
  lemma {:induction false} NeverCutKeepsMeaning(d: Dict, ops: Ops, env: Env)
    requires NeverCut(d)
    ensures !CutShort(d, ops, env)
    decreases d
  {
    var first := FirstHolding(d, ops, env);
    if NothingEarlier(d) { NothingEarlierHolds(d, ops, env); }
    SubNeverCut(d, ops, env);
    var item := if first.Some? then first else LastDefault(d);
    if item.Some? && item.value.Sub? { NeverCutKeepsMeaning(item.value.dict, ops, env); }
  }

  /** {a: 5, 1: 7} becomes {1: 7}, or an error where short circuits are not allowed. */
  lemma ShortCircuitDropsEarlierCases(a: Expr, ops: Ops, env: Env)
    requires a != True && a != False && Holds(a, ops, env)
    ensures var d := Entry(On(a), Level(Const(5)), Entry(On(True), Level(Const(7)), Empty));
            && Normalise(d, true) == Some(Case(True, Plain(Const(7)), NoDefault))
            && Normalise(d, false) == None
            && CutShort(d, ops, env)
  {
    var d2 := Entry(On(True), Level(Const(7)), Empty);
    var d := Entry(On(a), Level(Const(5)), d2);
    assert FirstTrue(d) == FirstTrue(d2) == Some(Level(Const(7)));
    assert !HasDefault(d2) && !HasDefault(d);
    assert NormCases(d2, NoDefault, false, false) == None;
    assert FirstHolding(d, ops, env) == Some(Level(Const(5)));
    assert NormItem(Level(Const(7)), true) == Some(Plain(Const(7)));
  }

  // ----- The emitted statement -----

  datatype Stmt = Nothing | Assign(value: Expr) | IfElse(cond: Expr, then_: Stmt, else_: Stmt)

  /** The renderer loops over the cases and hangs the default on the last one, so a
      selector whose cases were all filtered away emits nothing. */
  function Emit(sel: Selector): Stmt
    decreases sel, 1
  {
    if sel.Case? then EmitChain(sel) else Nothing
  }

  function EmitChain(sel: Selector): Stmt
    decreases sel, 0
  {
    match sel
    case NoDefault => Nothing
    case Default(c) => EmitChoice(c)
    case Case(cond, c, rest) => IfElse(cond, EmitChoice(c), EmitChain(rest))
  }

  function EmitChoice(c: Choice): Stmt
    decreases c, 0
  {
    match c
    case Plain(e) => Assign(e)
    case Nested(s) => Emit(s)
  }

  ghost function Exec(s: Stmt, ops: Ops, env: Env): Option<int> {
    match s
    case Nothing => None
    case Assign(e) => Some(Eval(e, ops, env))
    case IfElse(c, t, f) => if Holds(c, ops, env) then Exec(t, ops, env) else Exec(f, ops, env)
  }

  /** On the way to the value, a level is reached of which only a default is left, and that default has a
      value: it is lost. */
  ghost predicate DefaultLost(sel: Selector, ops: Ops, env: Env)
    decreases sel, 1
  {
    if sel.Default? then PickChoice(sel.choice, ops, env).Some? else LostInChain(sel, ops, env)
  }

  ghost predicate LostInChain(sel: Selector, ops: Ops, env: Env)
    decreases sel, 0
  {
    match sel
    case NoDefault => false
    case Default(c) => c.Nested? && DefaultLost(c.sel, ops, env)
    case Case(cond, c, rest) =>
      if Holds(cond, ops, env) then c.Nested? && DefaultLost(c.sel, ops, env) else LostInChain(rest, ops, env)
  }

  /** The emitted statement means the same as the selector exactly if no default is lost: one needs a case
      of its level to hang on. */
  lemma {:induction false} EmitExactly(sel: Selector, ops: Ops, env: Env)
    ensures Exec(Emit(sel), ops, env) == Pick(sel, ops, env) <==> !DefaultLost(sel, ops, env)
    decreases sel, 1
  {
    if sel.Case? { EmitChainExactly(sel, ops, env); }
  }

  lemma {:induction false} EmitChainExactly(sel: Selector, ops: Ops, env: Env)
    ensures Exec(EmitChain(sel), ops, env) == Pick(sel, ops, env) <==> !LostInChain(sel, ops, env)
    decreases sel, 0
  {
    match sel
    case NoDefault =>
    case Default(c) => if c.Nested? { EmitExactly(c.sel, ops, env); }
    case Case(_, c, rest) =>
      if c.Nested? { EmitExactly(c.sel, ops, env); }
      EmitChainExactly(rest, ops, env);
  }

  /** Every level keeps at least one case, or has no default to lose. */
  predicate KeepsCase(sel: Selector)
    decreases sel, 1
  {
    !sel.Default? && LevelsKeepCase(sel)
  }

  predicate LevelsKeepCase(sel: Selector)
    decreases sel, 0
  {
    match sel
    case NoDefault => true
    case Default(c) => c.Nested? ==> KeepsCase(c.sel)
    case Case(_, c, rest) => (c.Nested? ==> KeepsCase(c.sel)) && LevelsKeepCase(rest)
  }

  lemma {:induction false} LosesNothing(sel: Selector, ops: Ops, env: Env)
    requires LevelsKeepCase(sel)
    ensures !LostInChain(sel, ops, env)
    decreases sel
  {
    match sel
    case NoDefault =>
    case Default(c) => if c.Nested? { LosesNothing(c.sel, ops, env); }
    case Case(_, c, rest) =>
      if c.Nested? { LosesNothing(c.sel, ops, env); }
      LosesNothing(rest, ops, env);
  }

  /** The emitted chain does what the cases mean when each level keeps a case. */
  lemma EmitKeepsMeaning(sel: Selector, ops: Ops, env: Env)
    requires KeepsCase(sel)
    ensures Exec(Emit(sel), ops, env) == Pick(sel, ops, env)
  {
    LosesNothing(sel, ops, env);
    EmitExactly(sel, ops, env);
  }

  // ----- flatten_cases -----

  /** Reading a flat list of cases first-match, with a fallback. */
  ghost function PickFlat(flat: seq<(Expr, Expr)>, fallback: Option<int>, ops: Ops, env: Env): Option<int> {
    if flat == [] then fallback
    else if Holds(flat[0].0, ops, env) then Some(Eval(flat[0].1, ops, env))
    else PickFlat(flat[1..], fallback, ops, env)
  }

  /** All(cond, sub) for every sub case. */
  function Guarded(cond: Expr, flat: seq<(Expr, Expr)>): (r: seq<(Expr, Expr)>)
    ensures |r| == |flat|
  {
    if flat == [] then [] else [(All(cond, flat[0].0), flat[0].1)] + Guarded(cond, flat[1..])
  }

  function AnyOf(flat: seq<(Expr, Expr)>): Expr
    requires flat != []
  {
    if |flat| == 1 then flat[0].0 else Any(flat[0].0, AnyOf(flat[1..]))
  }

  function OwnDefault(sel: Selector): Option<Choice>
  {
    match sel
    case NoDefault => None
    case Default(c) => Some(c)
    case Case(_, _, rest) => OwnDefault(rest)
  }

  lemma OwnDefaultSmaller(sel: Selector)
    ensures OwnDefault(sel).Some? ==> OwnDefault(sel).value < sel
  {}

  /** `flatten_cases`; None where `Any()` of no arguments raises. The selector's own default
      is not part of the list. */
  function Flatten(sel: Selector): Option<seq<(Expr, Expr)>>
    decreases sel, 0
  {
    match sel
    case NoDefault => Some([])
    case Default(_) => Some([])
    case Case(cond, c, rest) =>
      var here :- FlattenCase(cond, c);
      var later :- Flatten(rest);
      Some(here + later)
  }

  function FlattenCase(cond: Expr, c: Choice): Option<seq<(Expr, Expr)>>
    decreases c, 1
  {
    match c
    case Plain(e) => Some([(cond, e)])
    case Nested(s) =>
      var subs :- Flatten(s);
      if subs == [] then None
      else
        var otherwise := All(cond, Not(AnyOf(subs)));
        OwnDefaultSmaller(s);
        match OwnDefault(s)
        case None => Some(Guarded(cond, subs))
        case Some(Plain(d)) => Some(Guarded(cond, subs) + [(otherwise, d)])
        case Some(Nested(ds)) =>
          var dsubs :- Flatten(ds);
          Some(Guarded(cond, subs) + Guarded(otherwise, dsubs))
  }

  /** Every nested selector has a plain default. */
  predicate PlainDefaults(sel: Selector) {
    match sel
    case NoDefault => true
    case Default(c) => true
    case Case(_, c, rest) =>
      && (c.Nested? ==> OwnDefault(c.sel).Some? && OwnDefault(c.sel).value.Plain? && PlainDefaults(c.sel))
      && PlainDefaults(rest)
  }

  ghost function Fallback(sel: Selector, ops: Ops, env: Env): Option<int> {
    match OwnDefault(sel)
    case None => None
    case Some(c) => PickChoice(c, ops, env)
  }

  lemma {:induction false} PickFlatAppend(a: seq<(Expr, Expr)>, b: seq<(Expr, Expr)>, fb: Option<int>, ops: Ops,
      env: Env)
    ensures PickFlat(a + b, fb, ops, env) == PickFlat(a, PickFlat(b, fb, ops, env), ops, env)
  {
    if a == [] {
      assert a + b == b;
    } else {
      assert (a + b)[1..] == a[1..] + b;
      PickFlatAppend(a[1..], b, fb, ops, env);
    }
  }

  lemma {:induction false} PickGuarded(cond: Expr, flat: seq<(Expr, Expr)>, fb: Option<int>, ops: Ops, env: Env)
    ensures PickFlat(Guarded(cond, flat), fb, ops, env)
         == if Holds(cond, ops, env) then PickFlat(flat, fb, ops, env) else fb
  {
    if flat != [] {
      assert Guarded(cond, flat)[1..] == Guarded(cond, flat[1..]);
      PickGuarded(cond, flat[1..], fb, ops, env);
    }
  }

  /** The list is read past its end exactly when none of its conditions holds. */
  lemma {:induction false} PickFlatFallsThrough(
      flat: seq<(Expr, Expr)>, fb: Option<int>, fb2: Option<int>, ops: Ops, env: Env)
    requires flat != []
    ensures Holds(AnyOf(flat), ops, env) ==> PickFlat(flat, fb, ops, env) == PickFlat(flat, fb2, ops, env)
    ensures !Holds(AnyOf(flat), ops, env) ==> PickFlat(flat, fb, ops, env) == fb
  {
    if |flat| > 1 {
      PickFlatFallsThrough(flat[1..], fb, fb2, ops, env);
    } else {
      assert flat[1..] == [];
      assert AnyOf(flat) == flat[0].0;
    }
  }

  /** How the flat list reads a selector: a level without a matching case and without a default falls through
      to the cases behind it. */
  ghost function FallThrough(sel: Selector, after: Option<int>, ops: Ops, env: Env): Option<int>
    decreases sel, 0
  {
    match sel
    case NoDefault => after
    case Default(_) => after
    case Case(cond, c, rest) =>
      var later := FallThrough(rest, after, ops, env);
      if Holds(cond, ops, env) then ChoiceFallThrough(c, later, ops, env) else later
  }

  ghost function ChoiceFallThrough(c: Choice, after: Option<int>, ops: Ops, env: Env): Option<int>
    decreases c, 1
  {
    match c
    case Plain(e) => Some(Eval(e, ops, env))
    case Nested(s) =>
      OwnDefaultSmaller(s);
      match OwnDefault(s)
      case None => FallThrough(s, after, ops, env)
      case Some(Plain(d)) => FallThrough(s, Some(Eval(d, ops, env)), ops, env)
      case Some(Nested(ds)) => FallThrough(s, FallThrough(ds, after, ops, env), ops, env)
  }

  /** No nested selector is without cases. */
  predicate NoneHollow(sel: Selector)
    decreases sel, 0
  {
    match sel
    case NoDefault => true
    case Default(_) => true
    case Case(_, c, rest) => ChoiceNotHollow(c) && NoneHollow(rest)
  }

  predicate ChoiceNotHollow(c: Choice)
    decreases c, 1
  {
    match c
    case Plain(_) => true
    case Nested(s) =>
      OwnDefaultSmaller(s);
      && s.Case? && NoneHollow(s)
      && match OwnDefault(s)
         case Some(Nested(ds)) => NoneHollow(ds)
         case _ => true
  }

  lemma {:induction false} FlatEmpty(sel: Selector)
    requires Flatten(sel).Some?
    ensures Flatten(sel).value == [] <==> !sel.Case?
    decreases sel, 0
  {
    if sel.Case? { CaseNotEmpty(sel.cond, sel.choice); }
  }

  lemma {:induction false} CaseNotEmpty(cond: Expr, c: Choice)
    requires FlattenCase(cond, c).Some?
    ensures FlattenCase(cond, c).value != []
    decreases c, 1
  {
    if c.Nested? { assert Guarded(cond, Flatten(c.sel).value) != []; }
  }

  /** Flattening raises exactly if some nested selector has no case. */
  lemma {:induction false} FlattensExactly(sel: Selector)
    ensures Flatten(sel).Some? <==> NoneHollow(sel)
    decreases sel, 0
  {
    if sel.Case? {
      CaseFlattensExactly(sel.cond, sel.choice);
      FlattensExactly(sel.rest);
    }
  }

  lemma {:induction false} CaseFlattensExactly(cond: Expr, c: Choice)
    ensures FlattenCase(cond, c).Some? <==> ChoiceNotHollow(c)
    decreases c, 1
  {
    if c.Nested? {
      FlattensExactly(c.sel);
      if Flatten(c.sel).Some? { FlatEmpty(c.sel); }
      OwnDefaultSmaller(c.sel);
      match OwnDefault(c.sel)
      case Some(Nested(ds)) => FlattensExactly(ds);
      case _ =>
    }
  }

  /** The flat list means exactly this, for every selector that can be flattened. */
  lemma {:induction false} FlattenMeans(sel: Selector, after: Option<int>, ops: Ops, env: Env)
    requires Flatten(sel).Some?
    ensures PickFlat(Flatten(sel).value, after, ops, env) == FallThrough(sel, after, ops, env)
    decreases sel, 0
  {
    match sel
    case NoDefault =>
    case Default(_) =>
    case Case(cond, c, rest) =>
      var here, later := FlattenCase(cond, c).value, Flatten(rest).value;
      FlattenMeans(rest, after, ops, env);
      PickFlatAppend(here, later, after, ops, env);
      if c.Nested? {
        FlattenNestedMeans(cond, c.sel, FallThrough(rest, after, ops, env), ops, env);
      } else {
        assert here[1..] == [];
      }
  }

  lemma {:induction false} FlattenNestedMeans(cond: Expr, s: Selector, after: Option<int>, ops: Ops, env: Env)
    requires FlattenCase(cond, Nested(s)).Some?
    ensures PickFlat(FlattenCase(cond, Nested(s)).value, after, ops, env) ==
            if Holds(cond, ops, env) then ChoiceFallThrough(Nested(s), after, ops, env) else after
    decreases s, 1
  {
    var subs := Flatten(s).value;
    var otherwise := All(cond, Not(AnyOf(subs)));
    assert Holds(otherwise, ops, env) <==> Holds(cond, ops, env) && !Holds(AnyOf(subs), ops, env) by {
      assert Eval(Not(AnyOf(subs)), ops, env) == Flag(Eval(AnyOf(subs), ops, env) == 0);
    }
    OwnDefaultSmaller(s);
    match OwnDefault(s)
    case None =>
      FlattenMeans(s, after, ops, env);
      PickGuarded(cond, subs, after, ops, env);
    case Some(Plain(d)) =>
      var last := [(otherwise, d)];
      assert last[1..] == [];
      FlattenMeans(s, Some(Eval(d, ops, env)), ops, env);
      ElseBehind(cond, s, last, after, Some(Eval(d, ops, env)), ops, env);
    case Some(Nested(ds)) =>
      FlattenMeans(ds, after, ops, env);
      FlattenMeans(s, FallThrough(ds, after, ops, env), ops, env);
      PickGuarded(otherwise, Flatten(ds).value, after, ops, env);
      ElseBehind(cond, s, Guarded(otherwise, Flatten(ds).value), after, FallThrough(ds, after, ops, env), ops, env);
  }

  /** What stands behind the cases of s applies where none of them holds. */
  lemma ElseBehind(cond: Expr, s: Selector, last: seq<(Expr, Expr)>, after: Option<int>,
      value: Option<int>, ops: Ops, env: Env)
    requires Flatten(s).Some? && Flatten(s).value != []
    requires PickFlat(Flatten(s).value, value, ops, env) == FallThrough(s, value, ops, env)
    requires PickFlat(last, after, ops, env) ==
             if Holds(cond, ops, env) && !Holds(AnyOf(Flatten(s).value), ops, env) then value else after
    ensures PickFlat(Guarded(cond, Flatten(s).value) + last, after, ops, env) ==
            if Holds(cond, ops, env) then FallThrough(s, value, ops, env) else after
  {
    var subs := Flatten(s).value;
    var behind := PickFlat(last, after, ops, env);
    PickFlatAppend(Guarded(cond, subs), last, after, ops, env);
    PickGuarded(cond, subs, behind, ops, env);
    PickFlatFallsThrough(subs, behind, value, ops, env);
    PickFlatFallsThrough(subs, value, behind, ops, env);
  }

  /** Some case of this level holds. */
  ghost predicate Matches(sel: Selector, ops: Ops, env: Env) {
    match sel
    case NoDefault => false
    case Default(_) => false
    case Case(cond, _, rest) => Holds(cond, ops, env) || Matches(rest, ops, env)
  }

  /** On the way to the value a nested level has nothing to offer: no case of it holds and it has no default, or
      a nested default of which no case holds. */
  ghost predicate Leaks(sel: Selector, ops: Ops, env: Env)
    decreases sel, 0
  {
    match sel
    case NoDefault => false
    case Default(_) => false
    case Case(cond, c, rest) => if Holds(cond, ops, env) then ChoiceLeaks(c, ops, env) else Leaks(rest, ops, env)
  }

  ghost predicate ChoiceLeaks(c: Choice, ops: Ops, env: Env)
    decreases c, 1
  {
    match c
    case Plain(_) => false
    case Nested(s) =>
      OwnDefaultSmaller(s);
      if Matches(s, ops, env) then Leaks(s, ops, env)
      else match OwnDefault(s)
        case None => true
        case Some(Plain(_)) => false
        case Some(Nested(ds)) => !Matches(ds, ops, env) || Leaks(ds, ops, env)
  }

  lemma {:induction false} NoMatch(sel: Selector, after: Option<int>, ops: Ops, env: Env)
    requires !Matches(sel, ops, env)
    ensures FallThrough(sel, after, ops, env) == after && Pick(sel, ops, env) == Fallback(sel, ops, env)
  {
    if sel.Case? { NoMatch(sel.rest, after, ops, env); }
  }

  /** Where nothing leaks, the flat list, with the selector's own default as fallback, means the same as the
      nested cases. */
  lemma {:induction false} FlattenKeepsMeaning(sel: Selector, ops: Ops, env: Env)
    requires Flatten(sel).Some? && !Leaks(sel, ops, env)
    ensures PickFlat(Flatten(sel).value, Fallback(sel, ops, env), ops, env) == Pick(sel, ops, env)
  {
    FlattenMeans(sel, Fallback(sel, ops, env), ops, env);
    if Matches(sel, ops, env) {
      WithoutLeak(sel, Fallback(sel, ops, env), ops, env);
    } else {
      NoMatch(sel, Fallback(sel, ops, env), ops, env);
    }
  }

  lemma {:induction false} WithoutLeak(sel: Selector, after: Option<int>, ops: Ops, env: Env)
    requires Matches(sel, ops, env) && !Leaks(sel, ops, env)
    ensures FallThrough(sel, after, ops, env) == Pick(sel, ops, env)
    decreases sel, 0
  {
    if Holds(sel.cond, ops, env) {
      ChoiceWithoutLeak(sel.choice, FallThrough(sel.rest, after, ops, env), ops, env);
    } else {
      WithoutLeak(sel.rest, after, ops, env);
    }
  }

  lemma {:induction false} ChoiceWithoutLeak(c: Choice, after: Option<int>, ops: Ops, env: Env)
    requires !ChoiceLeaks(c, ops, env)
    ensures ChoiceFallThrough(c, after, ops, env) == PickChoice(c, ops, env)
    decreases c, 1
  {
    match c
    case Plain(_) =>
    case Nested(s) =>
      OwnDefaultSmaller(s);
      var own := OwnDefault(s);
      var behind := if own.None? then after
        else if own.value.Plain? then Some(Eval(own.value.value, ops, env))
        else FallThrough(own.value.sel, after, ops, env);
      if Matches(s, ops, env) {
        WithoutLeak(s, behind, ops, env);
      } else {
        NoMatch(s, behind, ops, env);
        if own.value.Nested? { WithoutLeak(own.value.sel, after, ops, env); }
      }
  }

  /** Plain defaults in all nested selectors never leak. */
  lemma {:induction false} PlainDefaultsKeep(sel: Selector, ops: Ops, env: Env)
    requires PlainDefaults(sel)
    ensures !Leaks(sel, ops, env)
    decreases sel
  {
    if sel.Case? {
      PlainDefaultsKeep(sel.rest, ops, env);
      if sel.choice.Nested? { PlainDefaultsKeep(sel.choice.sel, ops, env); }
    }
  }

  /** {a: {b: 1}, 1: 7} with a and not b: nothing is assigned, but the flat list gives 7. */
  lemma FlattenLeaks(a: Expr, b: Expr, ops: Ops, env: Env)
    requires Holds(a, ops, env) && !Holds(b, ops, env)
    ensures var sel := Case(a, Nested(Case(b, Plain(Const(1)), NoDefault)), Case(True, Plain(Const(7)), NoDefault));
      && Pick(sel, ops, env) == None && Flatten(sel).Some?
      && PickFlat(Flatten(sel).value, None, ops, env) == Some(7)
  {
    var s, rest := Case(b, Plain(Const(1)), NoDefault), Case(True, Plain(Const(7)), NoDefault);
    var sel := Case(a, Nested(s), rest);
    assert [(b, Const(1))] + [] == [(b, Const(1))] && [(True, Const(7))] + [] == [(True, Const(7))];
    assert Flatten(NoDefault) == Some([]);
    assert Flatten(s).Some? && Flatten(s).value != [] && Flatten(rest).Some?;
    assert OwnDefault(NoDefault).None? && OwnDefault(s).None?;
    assert FlattenCase(a, Nested(s)).Some? && Flatten(sel).Some?;
    FlattenMeans(sel, None, ops, env);
    assert FallThrough(rest, None, ops, env) == Some(7);
    assert !Matches(NoDefault, ops, env) && !Matches(s, ops, env);
    NoMatch(s, Some(7), ops, env);
    assert ChoiceFallThrough(Nested(s), Some(7), ops, env) == Some(7);
  }
}
