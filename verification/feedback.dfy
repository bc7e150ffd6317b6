/** The app's pitch-stability feedback: the voiced pitch samples are scored
    by their spread (100 for a perfectly steady pitch, 10 points off per Hz
    of standard deviation, never below 0) and the score picks one of three
    comments. */
module Feedback {
  import opened Wrappers
  import opened Numeric

  /** The score of a steady pitch, and the lower bounds of the two better bands. */
  const FullScore: int := 100
  const SteadyFrom: int := 85
  const FairFrom: int := 60

  /** The comment returned with the score. */
  datatype Remark = NotDetected | Steady | Fair | Wavering

  function RemarkText(r: Remark): string {
    match r
    case NotDetected => "音程が検出できませんでした。録音を確認してください。"
    case Steady => "音程が非常に安定しています！この調子です！"
    case Fair => "少し音程が不安定です。ロングトーンを意識して練習してみましょう。"
    case Wavering => "音程が大きく揺れています。一定の高さを保つトレーニングが効果的です。"
  }

  /** Better comments rank higher. */
  function Rank(r: Remark): int {
    match r
    case NotDetected => 0
    case Wavering => 1
    case Fair => 2
    case Steady => 3
  }

  /** `(comment, score)` as the function returns it. */
  datatype Feedback = Feedback(remark: Remark, score: int)

  /** What one sample contributes: itself when it is a number, nothing for a NaN. */
  function KeptPitch(p: Option<real>): seq<real> {
    if p.Some? then [p.value] else []
  }

  /** The samples with the NaNs (here `None`, the unvoiced frames) removed, in order. */
  function Voiced(pitches: seq<Option<real>>): (xs: seq<real>)
    ensures |xs| <= |pitches|
  {
    if |pitches| == 0 then [] else KeptPitch(pitches[0]) + Voiced(pitches[1..])
  }

  /** `max(0, 100 - int(std * 10))`: for the variance `v`, `int(10 * sqrt(v))`
      is the integer square root of `100 * v`. */
  function StabilityScore(xs: seq<real>): (s: int)
    requires |xs| > 0
    ensures 0 <= s <= FullScore
  {
    MaxInt(0, FullScore - FloorSqrt(100.0 * Variance(xs)))
  }

  /** The comment for a score. */
  function Band(score: int): Remark {
    if score >= SteadyFrom then Steady
    else if score >= FairFrom then Fair
    else Wavering
  }

  /** `generate_feedback(pitch_array)`. */
  function GenerateFeedback(pitches: seq<Option<real>>): (f: Feedback)
    ensures 0 <= f.score <= FullScore
    ensures f.remark == NotDetected <==> |Voiced(pitches)| == 0
    ensures f.remark == NotDetected ==> f.score == 0
    ensures |Voiced(pitches)| > 0 ==> f.score == StabilityScore(Voiced(pitches)) && f.remark == Band(f.score)
  {
    var xs := Voiced(pitches);
    if |xs| == 0 then Feedback(NotDetected, 0)
    else
      var s := StabilityScore(xs);
      Feedback(Band(s), s)
  }

  /** A sample is kept exactly when it is a number in the input. */
  lemma {:induction false} VoicedMembers(pitches: seq<Option<real>>, x: real)
    ensures x in Voiced(pitches) <==> Some(x) in pitches
    decreases |pitches|
  {
    if |pitches| > 0 {
      VoicedMembers(pitches[1..], x);
      assert pitches == [pitches[0]] + pitches[1..];
    }
  }

  lemma {:induction false} VoicedAppend(a: seq<Option<real>>, b: seq<Option<real>>)
    ensures Voiced(a + b) == Voiced(a) + Voiced(b)
    decreases |a|
  {
    if |a| == 0 {
      assert a + b == b;
    } else {
      var ab := a + b;
      assert ab[0] == a[0];
      assert ab[1..] == a[1..] + b;
      VoicedAppend(a[1..], b);
      var k := KeptPitch(a[0]);
      assert Voiced(ab) == k + (Voiced(a[1..]) + Voiced(b));
      assert Voiced(a) == k + Voiced(a[1..]);
    }
  }

  /** Dropping an unvoiced frame from the middle of the input. */
  lemma VoicedSkipsSilence(a: seq<Option<real>>, b: seq<Option<real>>)
    ensures Voiced(a + [None] + b) == Voiced(a + b)
  {
    VoicedAppend(a + [None], b);
    VoicedAppend(a, [None]);
    VoicedAppend(a, b);
    assert Voiced([None]) == [];
    assert Voiced(a) + [] == Voiced(a);
  }

  /** An unvoiced frame anywhere in the input changes neither the score nor the comment. */
  lemma SilenceIgnored(a: seq<Option<real>>, b: seq<Option<real>>)
    ensures GenerateFeedback(a + [None] + b) == GenerateFeedback(a + b)
  {
    VoicedSkipsSilence(a, b);
  }

  /** The score is the truncated standard deviation taken off 100: for any
      `sd >= 0` whose square is the variance, the score is
      `max(0, 100 - int(sd * 10))`. */
  lemma ScoreFromDeviation(xs: seq<real>, sd: real)
    requires |xs| > 0 && 0.0 <= sd && sd * sd == Variance(xs)
    ensures StabilityScore(xs) == MaxInt(0, FullScore - (sd * 10.0).Floor)
  {
    var r := FloorSqrt(100.0 * Variance(xs));
    var t := sd * 10.0;
    assert t * t == 100.0 * Variance(xs);
    RealSquareBelow(r as real, t);
    RealSquareAbove(t, (r + 1) as real);
    assert r as real <= t < (r + 1) as real;
  }

  /** Of two non-negative reals, the one with the smaller square is the smaller. */
  lemma RealSquareBelow(a: real, b: real)
    requires 0.0 <= a && 0.0 <= b && a * a <= b * b
    ensures a <= b
  {
    if b < a {
      SquareStrict(b, a);
      assert false;
    }
  }

  lemma RealSquareAbove(a: real, b: real)
    requires 0.0 <= a && 0.0 <= b && a * a < b * b
    ensures a < b
  {
    if b <= a {
      SquareWeak(b, a);
      assert false;
    }
  }

  lemma SquareStrict(a: real, b: real)
    requires 0.0 <= a < b
    ensures a * a < b * b
  {
    assert (b - a) * b > 0.0;
    calc {
      a * a;
    <= a * b;
    <  { assert b * b - a * b == (b - a) * b; }
      b * b;
    }
  }

  lemma SquareWeak(a: real, b: real)
    requires 0.0 <= a <= b
    ensures a * a <= b * b
  {
    assert a * a <= a * b;
    assert a * b <= b * b;
  }

  /** More spread never earns a higher score. */
  lemma ScoreMonotone(xs: seq<real>, ys: seq<real>)
    requires |xs| > 0 && |ys| > 0 && Variance(xs) <= Variance(ys)
    ensures StabilityScore(ys) <= StabilityScore(xs)
  {
    FloorSqrtMonotone(100.0 * Variance(xs), 100.0 * Variance(ys));
  }

  /** A higher score never earns a worse comment. */
  lemma BandMonotone(s: int, t: int)
    requires s <= t
    ensures Rank(Band(s)) <= Rank(Band(t))
  {
  }

  /** The comments by spread: the best one exactly when the variance is below
      2.56 Hz² (a standard deviation under 1.6 Hz), the middle one exactly
      when it is from 2.56 and below 16.81 Hz² (under 4.1 Hz). */
  lemma BandByVariance(xs: seq<real>)
    requires |xs| > 0
    ensures Band(StabilityScore(xs)) == Steady <==> Variance(xs) < 2.56
    ensures Band(StabilityScore(xs)) == Fair <==> 2.56 <= Variance(xs) < 16.81
  {
    BandOfSpread(Variance(xs));
  }

  /** The comment of a take by the spread of its voiced samples. */
  lemma FeedbackByVariance(pitches: seq<Option<real>>)
    requires |Voiced(pitches)| > 0
    ensures GenerateFeedback(pitches).remark == Steady <==> Variance(Voiced(pitches)) < 2.56
    ensures GenerateFeedback(pitches).remark == Fair <==> 2.56 <= Variance(Voiced(pitches)) < 16.81
    ensures GenerateFeedback(pitches).remark == Wavering <==> 16.81 <= Variance(Voiced(pitches))
  {
    BandByVariance(Voiced(pitches));
  }

  lemma BandOfSpread(v: real)
    requires 0.0 <= v
    ensures Band(MaxInt(0, FullScore - FloorSqrt(100.0 * v))) == Steady <==> v < 2.56
    ensures Band(MaxInt(0, FullScore - FloorSqrt(100.0 * v))) == Fair <==> 2.56 <= v < 16.81
  {
    var x := 100.0 * v;
    var r := FloorSqrt(x);
    BandOfRoot(r);
    RootAtMost(x, 15);
    assert r <= 15 <==> v < 2.56;
    RootAtMost(x, 40);
    assert r <= 40 <==> v < 16.81;
  }

  /** The comment for the score `100 - r` of the root `r`. */
  lemma BandOfRoot(r: nat)
    ensures Band(MaxInt(0, FullScore - r)) == Steady <==> r <= 15
    ensures Band(MaxInt(0, FullScore - r)) == Fair <==> 15 < r <= 40
  {
  }

  /** The integer square root of `x` is at most `k` exactly when `x < (k + 1)²`. */
  lemma RootAtMost(x: real, k: nat)
    requires 0.0 <= x
    ensures FloorSqrt(x) <= k <==> x < ((k + 1) * (k + 1)) as real
  {
    var r := FloorSqrt(x);
    if r <= k {
      SquareMonotone(r + 1, k + 1);
    } else {
      SquareMonotone(k + 1, r);
    }
  }

  /** `n` equal samples sum to `n` times the sample. */
  lemma {:induction false} SumConstant(xs: seq<real>, c: real)
    requires forall i :: 0 <= i < |xs| ==> xs[i] == c
    ensures Sum(xs) == FramesTime(|xs|, c)
    decreases |xs|
  {
    if |xs| > 0 {
      SumConstant(xs[..|xs| - 1], c);
      FramesTimeAdd(|xs| - 1, 1, c);
    }
  }

  /** Equal samples do not spread at all. */
  lemma VarianceConstant(xs: seq<real>, c: real)
    requires |xs| > 0
    requires forall i :: 0 <= i < |xs| ==> xs[i] == c
    ensures Variance(xs) == 0.0
  {
    SumConstant(xs, c);
    var n := |xs|;
    assert FramesTime(n, c) / n as real == c;
    assert Mean(xs) == c;
    var d := SquaredDeviations(xs, c);
    forall i | 0 <= i < |d|
      ensures d[i] == 0.0
    {
      assert xs[i] - c == 0.0;
    }
    SumConstant(d, 0.0);
  }

  /** A pitch held perfectly steady scores 100 and gets the best comment. */
  lemma SteadyPitchFullScore(pitches: seq<Option<real>>, c: real)
    requires |Voiced(pitches)| > 0
    requires forall i :: 0 <= i < |Voiced(pitches)| ==> Voiced(pitches)[i] == c
    ensures GenerateFeedback(pitches) == Feedback(Steady, FullScore)
  {
    VarianceConstant(Voiced(pitches), c);
    RootAtMost(0.0, 0);
  }
}
