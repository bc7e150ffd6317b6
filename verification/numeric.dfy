/** Python's numeric built-ins on `real`: `round`, `int`, `math.ceil`, `abs`,
    `sum`, and the population mean and variance numpy uses (`np.mean`, `np.var`). */
module Numeric {

  function Abs(x: real): real {
    if x < 0.0 then -x else x
  }

  function Max(a: real, b: real): real {
    if a >= b then a else b
  }

  function Min(a: real, b: real): real {
    if a <= b then a else b
  }

  function MaxInt(a: int, b: int): int {
    if a >= b then a else b
  }

  /** `n` frames of `perFrame` seconds each. */
  function FramesTime(n: nat, perFrame: real): real {
    n as real * perFrame
  }

  lemma FramesTimeAdd(a: nat, b: nat, perFrame: real)
    ensures FramesTime(a + b, perFrame) == FramesTime(a, perFrame) + FramesTime(b, perFrame)
  {
  }

  /** Python's `round(x)` (no digits): the nearest integer, a tie going to the even one. */
  function RoundHalfEven(x: real): (r: int)
    ensures x - 0.5 <= r as real <= x + 0.5
    ensures Abs(x - r as real) == 0.5 ==> r % 2 == 0
  {
    var f := x.Floor;
    var d := x - f as real;
    if d < 0.5 then f
    else if d > 0.5 then f + 1
    else if f % 2 == 0 then f
    else f + 1
  }

  /** The two properties above single out one integer: `RoundHalfEven` is Python's rounding. */
  lemma RoundHalfEvenUnique(x: real, r: int)
    requires x - 0.5 <= r as real <= x + 0.5
    requires Abs(x - r as real) == 0.5 ==> r % 2 == 0
    ensures r == RoundHalfEven(x)
  {
  }

  /** Python's `int(x)` on a float: truncation toward zero. */
  function Trunc(x: real): (r: int)
    ensures 0.0 <= x ==> r as real <= x < r as real + 1.0
    ensures x < 0.0 ==> r as real - 1.0 < x <= r as real
  {
    if x >= 0.0 then x.Floor else -((-x).Floor)
  }

  /** `math.ceil(x)`: the least integer not below `x`. */
  function Ceil(x: real): (r: int)
    ensures r as real - 1.0 < x <= r as real
  {
    -((-x).Floor)
  }

  /** The greatest natural number whose square does not exceed `x`, searched upward from `k`. */
  function FloorSqrtFrom(x: real, k: nat): (r: nat)
    requires (k * k) as real <= x
    ensures k <= r
    ensures (r * r) as real <= x < ((r + 1) * (r + 1)) as real
    decreases x.Floor - k
  {
    if (((k + 1) * (k + 1)) as real) <= x then
      assert k + 1 <= (k + 1) * (k + 1);
      FloorSqrtFrom(x, k + 1)
    else k
  }

  /** `int(math.sqrt(x))` for `x >= 0`, computed without square roots. */
  function FloorSqrt(x: real): (r: nat)
    requires 0.0 <= x
    ensures (r * r) as real <= x < ((r + 1) * (r + 1)) as real
  {
    FloorSqrtFrom(x, 0)
  }

  /** A larger radicand never has a smaller integer square root. */
  lemma FloorSqrtMonotone(x: real, y: real)
    requires 0.0 <= x <= y
    ensures FloorSqrt(x) <= FloorSqrt(y)
  {
    var a := FloorSqrt(x);
    var b := FloorSqrt(y);
    if b < a {
      SquareMonotone(b + 1, a);
      assert false;
    }
  }

  lemma SquareMonotone(p: nat, q: nat)
    requires p <= q
    ensures p * p <= q * q
  {
    assert p * p <= p * q;
    assert p * q <= q * q;
  }

  function Sum(xs: seq<real>): real {
    if |xs| == 0 then 0.0 else Sum(xs[..|xs| - 1]) + xs[|xs| - 1]
  }

  lemma {:induction false} SumAppend(xs: seq<real>, ys: seq<real>)
    ensures Sum(xs + ys) == Sum(xs) + Sum(ys)
    decreases |ys|
  {
    if |ys| == 0 {
      assert xs + ys == xs;
    } else {
      var zs := xs + ys;
      assert zs[..|zs| - 1] == xs + ys[..|ys| - 1];
      SumAppend(xs, ys[..|ys| - 1]);
    }
  }

  function Mean(xs: seq<real>): real
    requires |xs| > 0
  {
    Sum(xs) / |xs| as real
  }

  /** The squared deviations of `xs` from `m`. */
  function SquaredDeviations(xs: seq<real>, m: real): (r: seq<real>)
    ensures |r| == |xs|
    ensures forall i :: 0 <= i < |xs| ==> r[i] == (xs[i] - m) * (xs[i] - m)
  {
    seq(|xs|, i requires 0 <= i < |xs| => (xs[i] - m) * (xs[i] - m))
  }

  lemma SquareNonNegative(x: real)
    ensures 0.0 <= x * x
  {
    if x < 0.0 {
      assert x * x == (-x) * (-x);
    }
  }

  lemma {:induction false} SumNonNegative(xs: seq<real>)
    requires forall i :: 0 <= i < |xs| ==> 0.0 <= xs[i]
    ensures 0.0 <= Sum(xs)
    decreases |xs|
  {
    if |xs| > 0 {
      SumNonNegative(xs[..|xs| - 1]);
    }
  }

  /** Population variance (numpy's default `ddof = 0`); its square root is `np.std`. */
  function Variance(xs: seq<real>): (v: real)
    requires |xs| > 0
    ensures 0.0 <= v
  {
    var m := Mean(xs);
    var d := SquaredDeviations(xs, m);
    forall i | 0 <= i < |d|
      ensures 0.0 <= d[i]
    {
      SquareNonNegative(xs[i] - m);
    }
    SumNonNegative(d);
    Sum(d) / |xs| as real
  }

  /** How many entries of a mask are true (`sum(mask)` in Python). */
  function CountTrue(bs: seq<bool>): (c: nat)
    ensures c <= |bs|
  {
    if |bs| == 0 then 0 else CountTrue(bs[..|bs| - 1]) + (if bs[|bs| - 1] then 1 else 0)
  }

  lemma {:induction false} CountTrueAppend(xs: seq<bool>, ys: seq<bool>)
    ensures CountTrue(xs + ys) == CountTrue(xs) + CountTrue(ys)
    decreases |ys|
  {
    if |ys| == 0 {
      assert xs + ys == xs;
    } else {
      var zs := xs + ys;
      assert zs[..|zs| - 1] == xs + ys[..|ys| - 1];
      CountTrueAppend(xs, ys[..|ys| - 1]);
    }
  }

  /** A mask with no true entry counts zero. */
  lemma {:induction false} CountTrueNone(bs: seq<bool>)
    requires forall i :: 0 <= i < |bs| ==> !bs[i]
    ensures CountTrue(bs) == 0
    decreases |bs|
  {
    if |bs| > 0 {
      CountTrueNone(bs[..|bs| - 1]);
    }
  }

  /** A mask with a true entry counts at least one. */
  lemma {:induction false} CountTrueSome(bs: seq<bool>, k: int)
    requires 0 <= k < |bs| && bs[k]
    ensures CountTrue(bs) > 0
    decreases |bs|
  {
    if k < |bs| - 1 {
      CountTrueSome(bs[..|bs| - 1], k);
    }
  }

  /** No entry of the mask is true. */
  predicate NoneTrue(bs: seq<bool>) {
    forall i :: 0 <= i < |bs| ==> !bs[i]
  }

  /** A mask counts zero exactly when no entry is true. */
  lemma CountTrueZero(bs: seq<bool>)
    ensures CountTrue(bs) == 0 <==> NoneTrue(bs)
  {
    if NoneTrue(bs) {
      CountTrueNone(bs);
    } else {
      var k :| 0 <= k < |bs| && bs[k];
      CountTrueSome(bs, k);
    }
  }

  /** `sum(mask) / len(mask)` style fractions lie in [0, 1]. */
  function Fraction(count: nat, total: nat): (p: real)
    requires count <= total
    ensures 0.0 <= p <= 1.0
    ensures total == 0 ==> p == 0.0
  {
    if total == 0 then 0.0 else count as real / total as real
  }

  lemma FractionWhole(n: nat)
    requires n > 0
    ensures Fraction(n, n) == 1.0
  {
  }

  /** Three counts that make up a whole make up shares summing to one. */
  lemma SharesOfWhole(a: real, b: real, c: real, v: real)
    requires v > 0.0 && a + b + c == v
    ensures a / v + b / v + c / v == 1.0
  {
    DivAdd(a, b, v);
    DivAdd(a + b, c, v);
  }

  lemma DivAdd(a: real, b: real, v: real)
    requires v > 0.0
    ensures a / v + b / v == (a + b) / v
  {
  }
}
