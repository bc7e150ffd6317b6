/** Order statistics over `real` samples: `sorted`, `np.median`, and the linear-interpolation
    percentile written out in tools/01_make_events_and_summary.py. */
module Stats {
  import opened Numeric
  import opened Sorting

  function Id(x: real): real {
    x
  }

  /** `sorted(xs)`. */
  function Ascending(xs: seq<real>): (s: seq<real>)
    ensures |s| == |xs|
    ensures multiset(s) == multiset(xs)
    ensures forall i, j :: 0 <= i < j < |s| ==> s[i] <= s[j]
  {
    SortByKey(xs, Id)
  }

  /** The smallest sample, found by a scan independent of sorting. */
  function SeqMin(xs: seq<real>): (m: real)
    requires |xs| > 0
    ensures m in xs
    ensures forall i :: 0 <= i < |xs| ==> m <= xs[i]
  {
    if |xs| == 1 then xs[0] else Min(SeqMin(xs[..|xs| - 1]), xs[|xs| - 1])
  }

  /** The largest sample, found by a scan independent of sorting. */
  function SeqMax(xs: seq<real>): (m: real)
    requires |xs| > 0
    ensures m in xs
    ensures forall i :: 0 <= i < |xs| ==> xs[i] <= m
  {
    if |xs| == 1 then xs[0] else Max(SeqMax(xs[..|xs| - 1]), xs[|xs| - 1])
  }

  /** The ends of the sorted samples are the minimum and the maximum. */
  lemma AscendingEnds(xs: seq<real>)
    requires |xs| > 0
    ensures Ascending(xs)[0] == SeqMin(xs)
    ensures Ascending(xs)[|xs| - 1] == SeqMax(xs)
  {
    var s := Ascending(xs);
    var lo, hi := SeqMin(xs), SeqMax(xs);
    SameMembers(s, xs, s[0]);
    SameMembers(s, xs, s[|s| - 1]);
    SameMembers(xs, s, lo);
    SameMembers(xs, s, hi);
    var i :| 0 <= i < |s| && s[i] == lo;
    var j :| 0 <= j < |s| && s[j] == hi;
    assert s[0] <= s[i] && s[j] <= s[|s| - 1];
  }

  /** A permutation has the same members. */
  lemma SameMembers(a: seq<real>, b: seq<real>, x: real)
    requires multiset(a) == multiset(b) && x in a
    ensures x in b
  {
    assert x in multiset(a);
  }

  /** `np.median`: the middle sample, or the mean of the two middle samples. */
  function Median(xs: seq<real>): (m: real)
    requires |xs| > 0
    ensures SeqMin(xs) <= m <= SeqMax(xs)
  {
    var s := Ascending(xs);
    var n := |xs|;
    AscendingEnds(xs);
    if n % 2 == 1 then s[n / 2] else (s[n / 2 - 1] + s[n / 2]) / 2.0
  }

  /** Every sample minus `c` (numpy's `cents - k * 1200.0`). */
  function Shift(xs: seq<real>, c: real): (r: seq<real>)
    ensures |r| == |xs|
    ensures forall i :: 0 <= i < |xs| ==> r[i] == xs[i] - c
  {
    seq(|xs|, i requires 0 <= i < |xs| => xs[i] - c)
  }

  lemma IdLeq(a: real, b: real)
    ensures KeyLeq(Id)(a, b) == (a <= b)
  {
    assert KeyLeq(Id)(a, b) == (Id(a) <= Id(b));
  }

  lemma ShiftCons(a: real, u: seq<real>, c: real)
    ensures Shift([a] + u, c) == [a - c] + Shift(u, c)
  {
    var l, r := Shift([a] + u, c), [a - c] + Shift(u, c);
    assert |l| == |r|;
    forall i | 0 <= i < |l|
      ensures l[i] == r[i]
    {
      if i > 0 {
        assert ([a] + u)[i] == u[i - 1];
      }
    }
  }

  lemma InsertStepLe(t: seq<real>, y: real)
    requires |t| > 0 && t[0] <= y
    ensures Insert(t, y, KeyLeq(Id)) == [t[0]] + Insert(t[1..], y, KeyLeq(Id))
  {
    IdLeq(t[0], y);
  }

  lemma InsertStepGt(t: seq<real>, y: real)
    requires |t| > 0 && y < t[0]
    ensures Insert(t, y, KeyLeq(Id)) == [y] + t
  {
    IdLeq(t[0], y);
  }

  lemma {:induction false} InsertShift(s: seq<real>, x: real, c: real)
    ensures Insert(Shift(s, c), x - c, KeyLeq(Id)) == Shift(Insert(s, x, KeyLeq(Id)), c)
    decreases |s|
  {
    var t := Shift(s, c);
    if |s| == 0 {
      assert t == [];
      assert Shift([x], c) == [x - c];
    } else if s[0] <= x {
      var L := KeyLeq(Id);
      InsertStepLe(s, x);
      InsertStepLe(t, x - c);
      ShiftCons(s[0], s[1..], c);
      assert s == [s[0]] + s[1..];
      assert t[1..] == Shift(s[1..], c);
      InsertShift(s[1..], x, c);
      var u := Insert(s[1..], x, L);
      ShiftCons(s[0], u, c);
      assert Insert(t, x - c, L) == [s[0] - c] + Shift(u, c);
      assert Shift(Insert(s, x, L), c) == [s[0] - c] + Shift(u, c);
    } else {
      InsertStepGt(s, x);
      InsertStepGt(t, x - c);
      ShiftCons(x, s, c);
      assert Insert(t, x - c, KeyLeq(Id)) == [x - c] + t;
    }
  }

  lemma {:induction false} SortShift(xs: seq<real>, c: real)
    ensures Sort(Shift(xs, c), KeyLeq(Id)) == Shift(Sort(xs, KeyLeq(Id)), c)
    decreases |xs|
  {
    if |xs| > 0 {
      var init := xs[..|xs| - 1];
      assert Shift(xs, c)[..|xs| - 1] == Shift(init, c);
      SortShift(init, c);
      InsertShift(Sort(init, KeyLeq(Id)), xs[|xs| - 1], c);
    }
  }

  /** Sorting commutes with subtracting a constant from every sample. */
  lemma AscendingShift(xs: seq<real>, c: real)
    ensures Ascending(Shift(xs, c)) == Shift(Ascending(xs), c)
  {
    SortShift(xs, c);
  }

  /** The median of shifted samples is the shifted median. */
  lemma MedianShift(xs: seq<real>, c: real)
    requires |xs| > 0
    ensures Median(Shift(xs, c)) == Median(xs) - c
  {
    AscendingShift(xs, c);
    var s, t := Ascending(xs), Ascending(Shift(xs, c));
    var n := |xs|;
    assert t[n / 2] == s[n / 2] - c;
    if n % 2 == 0 {
      assert t[n / 2 - 1] == s[n / 2 - 1] - c;
    }
  }

  /** Subtracting `c` from every sample subtracts `n * c` from the sum. */
  lemma {:induction false} SumShift(xs: seq<real>, c: real)
    ensures Sum(Shift(xs, c)) == Sum(xs) - FramesTime(|xs|, c)
    decreases |xs|
  {
    if |xs| > 0 {
      var init := xs[..|xs| - 1];
      assert Shift(xs, c)[..|xs| - 1] == Shift(init, c);
      SumShift(init, c);
      FramesTimeAdd(|init|, 1, c);
    }
  }

  /** The mean of shifted samples is the shifted mean. */
  lemma MeanShift(xs: seq<real>, c: real)
    requires |xs| > 0
    ensures Mean(Shift(xs, c)) == Mean(xs) - c
  {
    SumShift(xs, c);
    var n := |xs| as real;
    assert FramesTime(|xs|, c) / n == c;
    assert (Sum(xs) - FramesTime(|xs|, c)) / n == Sum(xs) / n - FramesTime(|xs|, c) / n;
  }

  /** Shifting every sample by the same amount leaves the spread unchanged. */
  lemma VarianceShift(xs: seq<real>, c: real)
    requires |xs| > 0
    ensures Variance(Shift(xs, c)) == Variance(xs)
  {
    MeanShift(xs, c);
    var ys := Shift(xs, c);
    var dy, dx := SquaredDeviations(ys, Mean(ys)), SquaredDeviations(xs, Mean(xs));
    forall i | 0 <= i < |xs|
      ensures dy[i] == dx[i]
    {
      assert ys[i] - Mean(ys) == xs[i] - Mean(xs);
    }
    assert dy == dx;
  }

  lemma MulBounds(d: real, w: real, m: real)
    requires 0.0 <= d && 0.0 <= w <= 1.0 && m == d * w
    ensures 0.0 <= m <= d
  {
    assert d * w <= d * 1.0;
  }

  lemma MulMonotone(d: real, w1: real, w2: real)
    requires 0.0 <= d && w1 <= w2
    ensures d * w1 <= d * w2
  {
    assert d * w2 - d * w1 == d * (w2 - w1);
  }

  /** The point a fraction `w` of the way from `a` to `b`. */
  function Lerp(a: real, b: real, w: real): real {
    a + (b - a) * w
  }

  lemma LerpBetween(a: real, b: real, w: real)
    requires a <= b && 0.0 <= w <= 1.0
    ensures a <= Lerp(a, b, w) <= b
  {
    MulBounds(b - a, w, (b - a) * w);
  }

  lemma LerpMonotone(a: real, b: real, w1: real, w2: real)
    requires a <= b && w1 <= w2
    ensures Lerp(a, b, w1) <= Lerp(a, b, w2)
  {
    MulMonotone(b - a, w1, w2);
  }

  /** The fractional rank `(n - 1) * q` of quantile `q` among `n` samples. */
  function Rank(n: nat, q: real): real {
    (n - 1) as real * q
  }

  lemma RankBound(n: nat, q: real)
    requires n > 0 && 0.0 <= q <= 1.0
    ensures 0.0 <= Rank(n, q) <= (n - 1) as real
    ensures q == 0.0 ==> Rank(n, q) == 0.0
    ensures q == 1.0 ==> Rank(n, q) == (n - 1) as real
  {
    MulBounds((n - 1) as real, q, Rank(n, q));
  }

  lemma RankMonotone(n: nat, q1: real, q2: real)
    requires n > 0 && q1 <= q2
    ensures Rank(n, q1) <= Rank(n, q2)
  {
    MulMonotone((n - 1) as real, q1, q2);
  }

  /** The value at fractional rank `k` of ascending samples `s`: the sample itself
      at an integral rank, else the straight line between its two neighbours. */
  function InterpolateRank(s: seq<real>, k: real): (p: real)
    requires |s| > 0
    requires forall i, j :: 0 <= i < j < |s| ==> s[i] <= s[j]
    requires 0.0 <= k <= (|s| - 1) as real
    ensures s[0] <= p <= s[|s| - 1]
    ensures 0 <= k.Floor <= Ceil(k) < |s| && s[k.Floor] <= p <= s[Ceil(k)]
    ensures k == 0.0 ==> p == s[0]
    ensures k == (|s| - 1) as real ==> p == s[|s| - 1]
  {
    var f := k.Floor;
    var c := Ceil(k);
    assert 0 <= f <= c < |s|;
    if f == c then s[f]
    else
      assert f as real < k < c as real;
      assert s[0] <= s[f] <= s[c] <= s[|s| - 1];
      var w := k - f as real;
      LerpBetween(s[f], s[c], w);
      Lerp(s[f], s[c], w)
  }

  /** Interpolated order statistics grow with the rank. */
  lemma InterpolateMonotone(s: seq<real>, k1: real, k2: real)
    requires |s| > 0
    requires forall i, j :: 0 <= i < j < |s| ==> s[i] <= s[j]
    requires 0.0 <= k1 <= k2 <= (|s| - 1) as real
    ensures InterpolateRank(s, k1) <= InterpolateRank(s, k2)
  {
    var f1, c1, f2, c2 := k1.Floor, Ceil(k1), k2.Floor, Ceil(k2);
    if f1 < f2 {
      assert c1 <= f2;
      assert s[c1] <= s[f2];
    } else if f1 != c1 && f2 != c2 {
      assert f1 == f2 && c1 == c2;
      assert s[f1] <= s[c1];
      LerpMonotone(s[f1], s[c1], k1 - f1 as real, k2 - f1 as real);
    } else if f2 == c2 {
      assert k1 == k2;
    } else {
      assert f1 == c1 == f2;
      assert InterpolateRank(s, k1) == s[f1];
      assert s[f2] <= InterpolateRank(s, k2);
    }
  }

  /** A higher quantile is never below a lower one. */
  lemma PercentileMonotone(xs: seq<real>, q1: real, q2: real)
    requires 0.0 <= q1 <= q2 <= 1.0
    ensures Percentile(xs, q1) <= Percentile(xs, q2)
  {
    if |xs| > 0 {
      var n := |xs|;
      RankBound(n, q1);
      RankBound(n, q2);
      RankMonotone(n, q1, q2);
      InterpolateMonotone(Ascending(xs), Rank(n, q1), Rank(n, q2));
    }
  }

  /** `np.median` is the 50th percentile. */
  lemma MedianIsPercentile(xs: seq<real>)
    requires |xs| > 0
    ensures Median(xs) == Percentile(xs, 0.5)
  {
    var n := |xs|;
    var m := n / 2;
    var k := Rank(n, 0.5);
    var s := Ascending(xs);
    AscendingEnds(xs);
    if n % 2 == 1 {
      assert n - 1 == 2 * m;
      assert k == m as real;
      assert k.Floor == m && Ceil(k) == m;
    } else {
      assert n - 1 == 2 * m - 1;
      assert k == m as real - 0.5;
      assert k.Floor == m - 1 && Ceil(k) == m;
      assert k - (m - 1) as real == 0.5;
      assert Lerp(s[m - 1], s[m], 0.5) == (s[m - 1] + s[m]) / 2.0;
    }
  }

  /** The `percentile(xs, q)` closure of tools/01: linear interpolation between the
      order statistics around rank `(n - 1) * q`; `0.0` for no samples. */
  function Percentile(xs: seq<real>, q: real): (p: real)
    requires 0.0 <= q <= 1.0
    ensures |xs| == 0 ==> p == 0.0
    ensures |xs| > 0 ==> SeqMin(xs) <= p <= SeqMax(xs)
    ensures |xs| > 0 && q == 0.0 ==> p == SeqMin(xs)
    ensures |xs| > 0 && q == 1.0 ==> p == SeqMax(xs)
  {
    if |xs| == 0 then 0.0
    else
      RankBound(|xs|, q);
      AscendingEnds(xs);
      InterpolateRank(Ascending(xs), Rank(|xs|, q))
  }
}
