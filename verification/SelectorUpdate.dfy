/** `SelectorAssignment._update_cases` as it runs: the default is taken out, then the conditions are
processed in order into the list of cases. */
module SelectorUpdate {
  import opened Signals
  import opened Selectors

  function Size(d: Dict): nat {
    match d
    case Empty => 1
    case Entry(_, item, rest) => 1 + ItemSize(item) + Size(rest)
  }

  function ItemSize(item: Item): nat {
    match item
    case Level(_) => 1
    case Sub(d) => 1 + Size(d)
  }

  /** The entries with a condition, in order. */
  function Conditions(d: Dict): (r: seq<(Expr, Item)>)
    ensures forall i :: 0 <= i < |r| ==> ItemSize(r[i].1) < Size(d)
  {
    match d
    case Empty => []
    case Entry(DefaultKey, _, rest) => Conditions(rest)
    case Entry(On(c), item, rest) => [(c, item)] + Conditions(rest)
  }

  /** The cases collected so far, followed by the rest. */
  function Chain(cases: seq<(Expr, Choice)>, tail: Selector): Selector {
    if cases == [] then tail else Case(cases[0].0, cases[0].1, Chain(cases[1..], tail))
  }

  /** Processing the conditions from one position on. */
  function Process(s: seq<(Expr, Item)>, cases: seq<(Expr, Choice)>, dflt: Selector, priority: bool,
      allow: bool): Option<Selector>
    decreases |s|
  {
    if s == [] then Some(Chain(cases, dflt))
    else if s[0].0 == False then Process(s[1..], cases, dflt, priority, allow)
    else if s[0].0 == True && !priority && !allow then None
    else
      var v :- NormItem(s[0].1, allow);
      if s[0].0 != True then Process(s[1..], cases + [(s[0].0, v)], dflt, priority, allow)
      else if priority then Some(Chain(cases, Default(v)))
      else Some(Chain([(True, v)], dflt))
  }

  lemma {:induction false} ChainMore(cases: seq<(Expr, Choice)>, c: Expr, v: Choice, tail: Selector)
    ensures Chain(cases + [(c, v)], tail) == Chain(cases, Case(c, v, tail))
    decreases |cases|
  {
    if cases == [] {
      assert Chain([(c, v)], tail) == Case(c, v, Chain([(c, v)][1..], tail));
    } else {
      assert (cases + [(c, v)])[1..] == cases[1..] + [(c, v)];
      ChainMore(cases[1..], c, v, tail);
    }
  }

  /** Where no short circuit can happen. */
  lemma {:induction false} ProcessIsCases(d: Dict, cases: seq<(Expr, Choice)>, dflt: Selector, priority: bool,
      allow: bool)
    requires priority || !allow || FirstTrue(d).None?
    ensures var r := NormCases(d, dflt, priority, allow);
      Process(Conditions(d), cases, dflt, priority, allow) == if r.Some? then Some(Chain(cases, r.value)) else None
    decreases d
  {
    match d
    case Empty =>
    case Entry(DefaultKey, _, rest) => ProcessIsCases(rest, cases, dflt, priority, allow);
    case Entry(On(c), item, rest) =>
      assert Conditions(d)[1..] == Conditions(rest);
      if c == False {
        ProcessIsCases(rest, cases, dflt, priority, allow);
      } else if c != True && NormItem(item, allow).Some? {
        var v := NormItem(item, allow).value;
        ProcessIsCases(rest, cases + [(c, v)], dflt, priority, allow);
        var r := NormCases(rest, dflt, priority, allow);
        if r.Some? { ChainMore(cases, c, v, r.value); }
      }
  }

  /** With short circuits allowed nothing fails. */
  lemma {:induction false} NeverFails(d: Dict, dflt: Selector, priority: bool)
    ensures !HasDefault(d) && FirstTrue(d).None? ==> NormCases(d, dflt, false, true).Some?
    ensures NormDefault(d, dflt, true).Some? && NormCases(d, dflt, true, true).Some?
    ensures Normalise(d, true).Some?
    decreases d, 1
  {
    NeverFailsHere(d, dflt);
    NeverFailsHere(d, NoDefault);
    if HasDefault(d) {
      NeverFailsHere(d, NormDefault(d, NoDefault, true).value);
    }
  }

  lemma {:induction false} NeverFailsHere(d: Dict, dflt: Selector)
    ensures !HasDefault(d) && FirstTrue(d).None? ==> NormCases(d, dflt, false, true).Some?
    ensures NormDefault(d, dflt, true).Some? && NormCases(d, dflt, true, true).Some?
    ensures FirstTrue(d).Some? ==> NormItem(FirstTrue(d).value, true).Some?
    decreases d, 0
  {
    match d
    case Empty =>
    case Entry(key, item, rest) =>
      ItemNeverFails(item);
      NeverFailsHere(rest, dflt);
      if key == DefaultKey { NeverFailsHere(rest, Default(NormItem(item, true).value)); }
  }

  lemma {:induction false} ItemNeverFails(item: Item)
    ensures NormItem(item, true).Some?
    decreases item, 2
  {
    if item.Sub? { NeverFails(item.dict, NoDefault, false); }
  }

  lemma {:induction false} ProcessShort(d: Dict, cases: seq<(Expr, Choice)>)
    requires !HasDefault(d) && FirstTrue(d).Some?
    ensures NormItem(FirstTrue(d).value, true).Some?
    ensures Process(Conditions(d), cases, NoDefault, false, true) ==
      Some(Case(True, NormItem(FirstTrue(d).value, true).value, NoDefault))
    decreases d
  {
    ItemNeverFails(FirstTrue(d).value);
    match d
    case Entry(On(c), item, rest) =>
      assert Conditions(d)[1..] == Conditions(rest);
      ItemNeverFails(item);
      var v := NormItem(item, true).value;
      if c == True {
        assert Chain([(True, v)], NoDefault) == Case(True, v, Chain([(True, v)][1..], NoDefault));
      } else if c == False {
        ProcessShort(rest, cases);
      } else {
        ProcessShort(rest, cases + [(c, v)]);
      }
  }

  /** The two passes compute the normalised selector. */
  lemma ProcessIsNormalise(d: Dict, allow: bool)
    ensures HasDefault(d) && NormDefault(d, NoDefault, allow).None? ==> Normalise(d, allow) == None
    ensures HasDefault(d) && NormDefault(d, NoDefault, allow).Some? ==>
      Normalise(d, allow) == Process(Conditions(d), [], NormDefault(d, NoDefault, allow).value, true, allow)
    ensures !HasDefault(d) ==> Normalise(d, allow) == Process(Conditions(d), [], NoDefault, false, allow)
  {
    if HasDefault(d) {
      var own := NormDefault(d, NoDefault, allow);
      if own.Some? { ProcessIsCases(d, [], own.value, true, allow); }
    } else if allow && FirstTrue(d).Some? {
      ProcessShort(d, []);
    } else {
      ProcessIsCases(d, [], NoDefault, false, allow);
    }
  }

  /** One value: a nested selector is normalised itself. */
  method UpdateItem(item: Item, allow: bool) returns (r: Option<Choice>)
    ensures r == NormItem(item, allow)
    decreases ItemSize(item), 2
  {
    match item
    case Level(e) => r := Some(Plain(e));
    case Sub(d) =>
      var s := UpdateCases(d, allow);
      r := if s.Some? then Some(Nested(s.value)) else None;
  }

  /** `_update_cases`; None is its RuntimeError. */
  method UpdateCases(d: Dict, allow: bool) returns (r: Option<Selector>)
    ensures r == Normalise(d, allow)
    decreases Size(d), 1
  {
    hide Normalise, Process;
    ProcessIsNormalise(d, allow);
    var dflt: Selector, priority, rest := NoDefault, false, d;
    var selector: seq<(Expr, Item)> := [];
    while rest.Entry?
      invariant Size(rest) <= Size(d) && Conditions(d) == selector + Conditions(rest)
      invariant HasDefault(d) == (priority || HasDefault(rest)) && (!priority ==> dflt == NoDefault)
      invariant NormDefault(d, NoDefault, allow) == NormDefault(rest, dflt, allow)
      decreases rest
    {
      if rest.key.DefaultKey? {
        priority := true;
        var v := UpdateItem(rest.item, allow);
        if v.None? { return None; }
        dflt := Default(v.value);
      } else {
        selector := selector + [(rest.key.cond, rest.item)];
      }
      rest := rest.rest;
    }
    assert selector == Conditions(d);
    r := ProcessAll(selector, dflt, priority, allow, Size(d));
  }

  /** The loop over the conditions. */
  method ProcessAll(selector: seq<(Expr, Item)>, dflt: Selector, priority: bool, allow: bool, ghost bound: nat)
      returns (r: Option<Selector>)
    requires forall i :: 0 <= i < |selector| ==> ItemSize(selector[i].1) < bound
    ensures r == Process(selector, [], dflt, priority, allow)
    decreases bound, 0
  {
    var cases: seq<(Expr, Choice)> := [];
    for i := 0 to |selector|
      invariant Process(selector, [], dflt, priority, allow) == Process(selector[i..], cases, dflt, priority, allow)
    {
      assert selector[i..][1..] == selector[i + 1..];
      if selector[i].0 != False {
        if selector[i].0 == True && !priority && !allow { return None; }
        var v := UpdateItem(selector[i].1, allow);
        if v.None? { return None; }
        if selector[i].0 == True {
          if priority { return Some(Chain(cases, Default(v.value))); }
          return Some(Chain([(True, v.value)], dflt));
        }
        cases := cases + [(selector[i].0, v.value)];
      }
    }
    r := Some(Chain(cases, dflt));
  }
}
