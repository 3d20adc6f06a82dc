/** Registers, inputs and expressions of a noRTL engine.

A signal is a named vector of bits. The environment of one clock cycle gives every
bit of every signal a value; a register write replaces the bits its target covers
and nothing else, so a value wider than the target is cut to the target's width. */
module Signals {

  datatype Bit = Bit(name: string, i: nat)

  /** All bits of all signals during one cycle. */
  type Env = m: imap<Bit, bool> | forall b: Bit :: b in m
    ghost witness imap b: Bit :: false

  /** The meaning of the operators this model does not look into (arithmetic, bit
      operations, comparisons, ...). Every theorem holds for every meaning. */
  type Ops = (string, int, int) -> int

  /** What an assignment may write or an expression may read: a whole signal or a slice. */
  datatype Target = Whole(name: string, width: nat) | Slice(name: string, low: nat, width: nat) {
    function Low(): nat { if Whole? then 0 else low }

    predicate Covers(b: Bit) { b.name == name && Low() <= b.i < Low() + width }
  }

  datatype Expr =
    | Const(n: int)
    | Sig(target: Target)
    | Op(op: string, a: Expr, b: Expr)
    | Eq(a: Expr, b: Expr)
    | Any(a: Expr, b: Expr)
    | All(a: Expr, b: Expr)
    | Not(a: Expr)

  /** The one-bit constants, rendered 1'h1 and 1'h0. */
  const True := Const(1)
  const False := Const(0)

  function Pow2(n: nat): (p: nat)
    ensures p >= 1
  {
    if n == 0 then 1 else 2 * Pow2(n - 1)
  }

  /** The least b with 2^b >= n: `ceil(log2(n))`. */
  function CeilLog2(n: nat): (b: nat)
    ensures n <= Pow2(b) && (b > 0 ==> Pow2(b - 1) < n)
  {
    if n <= 1 then 0 else 1 + CeilLog2((n + 1) / 2)
  }

  /** The unsigned value of `width` bits starting at bit `low`. */
  ghost function BitsValue(env: Env, name: string, low: nat, width: nat): nat
    decreases width
  {
    if width == 0 then 0
    else (if env[Bit(name, low)] then 1 else 0) + 2 * BitsValue(env, name, low + 1, width - 1)
  }

  ghost function Value(env: Env, t: Target): nat {
    BitsValue(env, t.name, t.Low(), t.width)
  }

  function Flag(b: bool): int { if b then 1 else 0 }

  ghost function Eval(e: Expr, ops: Ops, env: Env): int {
    match e
    case Const(n) => n
    case Sig(t) => Value(env, t)
    case Op(op, a, b) => ops(op, Eval(a, ops, env), Eval(b, ops, env))
    case Eq(a, b) => Flag(Eval(a, ops, env) == Eval(b, ops, env))
    case Any(a, b) => Flag(Eval(a, ops, env) != 0 || Eval(b, ops, env) != 0)
    case All(a, b) => Flag(Eval(a, ops, env) != 0 && Eval(b, ops, env) != 0)
    case Not(a) => Flag(Eval(a, ops, env) == 0)
  }

  ghost predicate Holds(e: Expr, ops: Ops, env: Env) { Eval(e, ops, env) != 0 }

  /** Comparisons and logical operators give one bit. */
  lemma TruthValues(a: Expr, b: Expr, ops: Ops, env: Env)
    ensures Eval(Eq(a, b), ops, env) == if Eval(a, ops, env) == Eval(b, ops, env) then 1 else 0
    ensures Eval(Any(a, b), ops, env) == if Eval(a, ops, env) == 0 && Eval(b, ops, env) == 0 then 0 else 1
    ensures Eval(All(a, b), ops, env) == if Eval(a, ops, env) == 0 || Eval(b, ops, env) == 0 then 0 else 1
    ensures Eval(Not(a), ops, env) == if Eval(a, ops, env) == 0 then 1 else 0
  {}

  /** Names of the signals an expression reads. */
  function Reads(e: Expr): set<string> {
    match e
    case Const(_) => {}
    case Sig(t) => {t.name}
    case Op(_, a, b) => Reads(a) + Reads(b)
    case Eq(a, b) => Reads(a) + Reads(b)
    case Any(a, b) => Reads(a) + Reads(b)
    case All(a, b) => Reads(a) + Reads(b)
    case Not(a) => Reads(a)
  }

  /** Bit `k` of a value, two's complement for negative values. */
  ghost predicate BitOf(x: int, k: nat)
    decreases k
  {
    if k == 0 then x % 2 == 1 else BitOf(x / 2, k - 1)
  }

  ghost function Write(env: Env, t: Target, x: int): Env {
    imap b: Bit :: if t.Covers(b) then BitOf(x, b.i - t.Low()) else env[b]
  }

  /** The two environments agree on every bit of the named signals. */
  ghost predicate Agree(e1: Env, e2: Env, names: set<string>) {
    forall b: Bit | b.name in names :: e1[b] == e2[b]
  }

  lemma BitsValueAgrees(e1: Env, e2: Env, name: string, low: nat, width: nat)
    requires forall b: Bit | b.name == name && low <= b.i < low + width :: e1[b] == e2[b]
    ensures BitsValue(e1, name, low, width) == BitsValue(e2, name, low, width)
    decreases width
  {
    if width > 0 {
      assert e1[Bit(name, low)] == e2[Bit(name, low)];
      BitsValueAgrees(e1, e2, name, low + 1, width - 1);
    }
  }

  /** An expression depends only on the signals it reads. */
  lemma {:induction false} EvalAgrees(e: Expr, ops: Ops, e1: Env, e2: Env)
    requires Agree(e1, e2, Reads(e))
    ensures Eval(e, ops, e1) == Eval(e, ops, e2)
  {
    match e
    case Const(_) =>
    case Sig(t) => BitsValueAgrees(e1, e2, t.name, t.Low(), t.width);
    case Not(a) => EvalAgrees(a, ops, e1, e2);
    case Op(_, a, b) => EvalAgrees(a, ops, e1, e2); EvalAgrees(b, ops, e1, e2);
    case Eq(a, b) => EvalAgrees(a, ops, e1, e2); EvalAgrees(b, ops, e1, e2);
    case Any(a, b) => EvalAgrees(a, ops, e1, e2); EvalAgrees(b, ops, e1, e2);
    case All(a, b) => EvalAgrees(a, ops, e1, e2); EvalAgrees(b, ops, e1, e2);
  }

  lemma {:induction false} ValueBit(env: Env, name: string, low: nat, width: nat, k: nat)
    requires k < width
    ensures BitOf(BitsValue(env, name, low, width), k) == env[Bit(name, low + k)]
    decreases width
  {
    if k > 0 { ValueBit(env, name, low + 1, width - 1, k - 1); }
  }

  /** Writing the value a target already holds changes no bit. */
  lemma {:induction false} WriteSame(env: Env, t: Target)
    ensures Write(env, t, Value(env, t)) == env
  {
    forall b: Bit
      ensures Write(env, t, Value(env, t))[b] == env[b]
    {
      if t.Covers(b) { ValueBit(env, t.name, t.Low(), t.width, b.i - t.Low()); }
    }
  }

  lemma HalfMod(x: int, m: nat)
    requires m >= 1
    ensures x % (2 * m) == x % 2 + 2 * ((x / 2) % m)
  {
    var q, r := (x / 2) / m, (x / 2) % m;
    assert x == 2 * (q * m + r) + x % 2;
    assert x == q * (2 * m) + (2 * r + x % 2) by {
      assert 2 * (q * m + r) == q * (2 * m) + 2 * r;
    }
    ModUnique(x, 2 * m, q, 2 * r + x % 2);
  }

  lemma SmallMod(n: nat, m: nat)
    requires n < m
    ensures n % m == n
  {}

  lemma {:induction false} PowGrows(a: nat, b: nat)
    requires a <= b
    ensures Pow2(a) <= Pow2(b)
    decreases b
  {
    if a < b { PowGrows(a, b - 1); }
  }

  lemma {:induction false} ZeroBit(k: nat)
    ensures !BitOf(0, k)
    decreases k
  {
    if k > 0 { ZeroBit(k - 1); }
  }

  lemma MulAtLeast(d: int, m: int)
    requires d >= 1 && m >= 0
    ensures d * m >= m
  {}

  lemma ModUnique(x: int, m: nat, q: int, r: int)
    requires m >= 1 && 0 <= r < m && x == q * m + r
    ensures x % m == r
  {
    var q', r' := x / m, x % m;
    assert x == q' * m + r';
    assert (q - q') * m == r' - r && (q' - q) * m == r - r';
    if q > q' {
      MulAtLeast(q - q', m);
    } else if q < q' {
      MulAtLeast(q' - q, m);
    }
  }

  lemma {:induction false} WrittenBits(env: Env, name: string, low: nat, width: nat, x: int)
    requires forall k: nat | k < width :: env[Bit(name, low + k)] == BitOf(x, k)
    ensures BitsValue(env, name, low, width) == x % Pow2(width)
    decreases width
  {
    if width > 0 {
      forall k: nat | k < width - 1
        ensures env[Bit(name, low + 1 + k)] == BitOf(x / 2, k)
      {
        assert env[Bit(name, low + (k + 1))] == BitOf(x, k + 1);
      }
      WrittenBits(env, name, low + 1, width - 1, x / 2);
      HalfMod(x, Pow2(width - 1));
      assert env[Bit(name, low + 0)] == BitOf(x, 0);
    }
  }

  /** A written target holds the written value, cut to the width of the target. */
  lemma WriteRead(env: Env, t: Target, x: int)
    ensures Value(Write(env, t, x), t) == x % Pow2(t.width)
  {
    forall k: nat | k < t.width
      ensures Write(env, t, x)[Bit(t.name, t.Low() + k)] == BitOf(x, k)
    {
      assert t.Covers(Bit(t.name, t.Low() + k));
    }
    WrittenBits(Write(env, t, x), t.name, t.Low(), t.width, x);
  }
}
