/** tools/08_autosync_offset.py: estimate the time offset between the user and
    the reference by cross-correlating their voiced masks over whole-frame lags,
    shift the user's track by it, and compare the shifted track against the
    reference as a reduced form of tools/02. */
module Autosync {
  import opened Wrappers
  import opened Numeric
  import opened Stats
  import opened Frames
  import opened Runs
  import opened Events

  datatype Error =
    | EmptyUserTrack  // numpy indexes an empty user track while aligning
    | ZeroDivision    // a median frame spacing of 0, or `hop == 0`

  const DefaultMaxShiftSec: real := 3.0
  const MinDurationSec: real := 0.20
  const TolCents: real := 40.0
  const DefaultSr: real := 44100.0
  const DefaultHop: real := 256.0
  /** Lags whose overlap is shorter than this many frames are not scored. */
  const MinOverlap: int := 10
  /** The frame spacing assumed for a reference of at most one frame. */
  const SingleFrameDt: real := 0.01

  /** The user pitch file moved by `shift_user_pitch`, with the
      `autosync_shift_sec` key it records. */
  datatype ShiftedPitch = ShiftedPitch(file: PitchFile, autosyncShiftSec: real)

  /** `dt`: the median reference frame spacing, or 0.01 s for a single frame. */
  function FrameSpacing(tR: seq<real>): real {
    if |tR| > 1 then Median(Diff(tR)) else SingleFrameDt
  }

  /** With ascending reference times the spacing is not negative. */
  lemma FrameSpacingNonNegative(tR: seq<real>)
    requires NonDecreasing(tR)
    ensures FrameSpacing(tR) >= 0.0
  {
    if |tR| > 1 {
      var d := Diff(tR);
      assert forall i :: 0 <= i < |d| ==> d[i] >= 0.0 by {
        forall i | 0 <= i < |d|
          ensures d[i] >= 0.0
        {
          assert tR[i] <= tR[i + 1];
        }
      }
      var lo := SeqMin(d);
      var j :| 0 <= j < |d| && d[j] == lo;
    }
  }

  /** How many frames two length-`n` masks share at lag `k`. */
  function OverlapLen(n: nat, k: int): nat {
    var m := if k < 0 then n + k else n - k;
    if m < 0 then 0 else m
  }

  /** The overlapping parts `a` of `mR` and `b` of the aligned user mask at
      lag `k`, sliced as the script slices them. */
  function LagSlices(mR: seq<bool>, mU: seq<bool>, k: int): (ab: (seq<bool>, seq<bool>))
    requires |mU| == |mR|
    ensures |ab.0| == |ab.1| == OverlapLen(|mR|, k)
  {
    var n := |mR|;
    if k < 0 then
      var a := if -k <= n then mR[-k..] else [];
      (a, mU[..|a|])
    else if k > 0 then
      var a := if k <= n then mR[..n - k] else [];
      (a, if |a| == 0 then [] else mU[k..k + |a|])
    else
      (mR, mU)
  }

  /** The frames set in both masks. */
  function Both(a: seq<bool>, b: seq<bool>): (m: seq<bool>)
    requires |a| == |b|
    ensures |m| == |a| && forall i :: 0 <= i < |a| ==> (m[i] <==> a[i] && b[i])
  {
    seq(|a|, i requires 0 <= i < |a| => a[i] && b[i])
  }

  /** `np.dot(a, b)` of two 0/1 masks. */
  function Dot(a: seq<bool>, b: seq<bool>): nat
    requires |a| == |b|
  {
    CountTrue(Both(a, b))
  }

  /** The score of lag `k`. */
  function Score(mR: seq<bool>, mU: seq<bool>, k: int): nat
    requires |mU| == |mR|
  {
    var ab := LagSlices(mR, mU, k);
    Dot(ab.0, ab.1)
  }

  /** Independently of the slicing: lag `k` pairs reference frame `j` with
      aligned user frame `j + k`, and the score counts the pairs voiced in both. */
  function PairedAt(mR: seq<bool>, mU: seq<bool>, k: int): (m: seq<bool>)
    requires |mU| == |mR|
    ensures |m| == |mR|
    ensures forall j :: 0 <= j < |mR| ==> (m[j] <==> mR[j] && 0 <= j + k < |mR| && mU[j + k])
  {
    seq(|mR|, j requires 0 <= j < |mR| => mR[j] && 0 <= j + k < |mR| && mU[j + k])
  }

  lemma ScoreCountsPairs(mR: seq<bool>, mU: seq<bool>, k: int)
    requires |mU| == |mR|
    ensures Score(mR, mU, k) == CountTrue(PairedAt(mR, mU, k))
  {
    if k >= 0 {
      PairsAhead(mR, mU, k);
    } else {
      PairsBehind(mR, mU, k);
    }
  }

  /** At a lag `k >= 0` the slices hold reference frame `j` and user frame `j + k`. */
  lemma AheadSlices(mR: seq<bool>, mU: seq<bool>, k: int)
    requires |mU| == |mR| && k >= 0
    ensures var ab := LagSlices(mR, mU, k);
            forall j :: 0 <= j < |ab.0| ==> ab.0[j] == mR[j] && ab.1[j] == mU[j + k]
  {
  }

  /** At a lag `k < 0` the slices hold reference frame `j - k` and user frame `j`. */
  lemma BehindSlices(mR: seq<bool>, mU: seq<bool>, k: int)
    requires |mU| == |mR| && k < 0
    ensures var ab := LagSlices(mR, mU, k);
            forall j :: 0 <= j < |ab.0| ==> ab.0[j] == mR[j - k] && ab.1[j] == mU[j]
  {
  }

  /** For `k >= 0` the pairs are the first `n - k` reference frames; the rest
      have no partner. */
  lemma PairsAhead(mR: seq<bool>, mU: seq<bool>, k: int)
    requires |mU| == |mR| && k >= 0
    ensures Score(mR, mU, k) == CountTrue(PairedAt(mR, mU, k))
  {
    var ab := LagSlices(mR, mU, k);
    var both := Both(ab.0, ab.1);
    var p := PairedAt(mR, mU, k);
    var m := OverlapLen(|mR|, k);
    AheadSlices(mR, mU, k);
    forall j | 0 <= j < m
      ensures p[j] == both[j]
    {
      assert ab.0[j] == mR[j] && ab.1[j] == mU[j + k];
    }
    CountFront(p, both);
  }

  /** For `k < 0` the pairs are the last `n + k` reference frames. */
  lemma PairsBehind(mR: seq<bool>, mU: seq<bool>, k: int)
    requires |mU| == |mR| && k < 0
    ensures Score(mR, mU, k) == CountTrue(PairedAt(mR, mU, k))
  {
    var n := |mR|;
    var ab := LagSlices(mR, mU, k);
    var both := Both(ab.0, ab.1);
    var p := PairedAt(mR, mU, k);
    var m := OverlapLen(n, k);
    BehindSlices(mR, mU, k);
    var i := n - m;
    assert m > 0 ==> i == -k;
    assert m == 0 ==> i == n;
    forall j | 0 <= j < i
      ensures !p[j]
    {
      assert j + k < 0;
    }
    forall j | 0 <= j < m
      ensures p[i + j] == both[j]
    {
      assert ab.0[j] == mR[j - k] && ab.1[j] == mU[j];
    }
    CountBack(p, i, both);
  }

  /** A mask that is `b` followed by false entries counts as `b`. */
  lemma CountFront(p: seq<bool>, b: seq<bool>)
    requires |b| <= |p|
    requires forall j :: 0 <= j < |b| ==> p[j] == b[j]
    requires forall j :: |b| <= j < |p| ==> !p[j]
    ensures CountTrue(p) == CountTrue(b)
  {
    var rest := p[|b|..];
    forall j | 0 <= j < |rest|
      ensures !rest[j]
    {
      assert rest[j] == p[|b| + j];
    }
    CountTrueNone(rest);
    assert p[..|b|] == b;
    assert p == b + rest;
    CountTrueAppend(b, rest);
  }

  /** A mask that is `i` false entries followed by `b` counts as `b`. */
  lemma CountBack(p: seq<bool>, i: int, b: seq<bool>)
    requires 0 <= i && i + |b| == |p|
    requires forall j :: 0 <= j < i ==> !p[j]
    requires forall j :: 0 <= j < |b| ==> p[i + j] == b[j]
    ensures CountTrue(p) == CountTrue(b)
  {
    var none := p[..i];
    CountTrueNone(none);
    assert p[i..] == b;
    assert p == none + b;
    CountTrueAppend(none, b);
  }

  /** A lag is scored only when its overlap has at least `MinOverlap` frames. */
  predicate Qualifies(n: nat, k: int) {
    OverlapLen(n, k) >= MinOverlap
  }

  /** `(best_k, best_score)` after trying the lags `lo <= j < hi` in order:
      `(0, -1)` when none qualifies, otherwise the first lag of highest score. */
  predicate BestSoFar(mR: seq<bool>, mU: seq<bool>, lo: int, hi: int, k: int, score: int)
    requires |mU| == |mR|
  {
    if forall j :: lo <= j < hi ==> !Qualifies(|mR|, j) then k == 0 && score == -1
    else
      lo <= k < hi && Qualifies(|mR|, k) && score == Score(mR, mU, k)
      && (forall j :: lo <= j < hi && Qualifies(|mR|, j) ==> Score(mR, mU, j) <= score)
      && (forall j :: lo <= j < k && Qualifies(|mR|, j) ==> Score(mR, mU, j) < score)
  }

  /** The search result is determined by the masks and the lag range. */
  lemma BestUnique(mR: seq<bool>, mU: seq<bool>, lo: int, hi: int, k1: int, s1: int, k2: int, s2: int)
    requires |mU| == |mR|
    requires BestSoFar(mR, mU, lo, hi, k1, s1) && BestSoFar(mR, mU, lo, hi, k2, s2)
    ensures k1 == k2 && s1 == s2
  {
    if !forall j :: lo <= j < hi ==> !Qualifies(|mR|, j) {
      assert s1 >= Score(mR, mU, k2) && s2 >= Score(mR, mU, k1);
    }
  }

  /** A reference shorter than `MinOverlap` frames never yields a lag. */
  lemma ShortReferenceNoLag(mR: seq<bool>, mU: seq<bool>, lo: int, hi: int, k: int, score: int)
    requires |mU| == |mR| && |mR| < MinOverlap
    requires BestSoFar(mR, mU, lo, hi, k, score)
    ensures k == 0 && score == -1
  {
    assert forall j :: lo <= j < hi ==> OverlapLen(|mR|, j) <= |mR|;
  }

  /** Trying lag `j` next: a qualifying lag replaces the best only with a
      strictly higher score. */
  lemma BestStep(mR: seq<bool>, mU: seq<bool>, lo: int, j: int, k: int, score: int, k': int, score': int)
    requires |mU| == |mR| && lo <= j
    requires BestSoFar(mR, mU, lo, j, k, score)
    requires Qualifies(|mR|, j) && Score(mR, mU, j) > score ==> k' == j && score' == Score(mR, mU, j)
    requires !(Qualifies(|mR|, j) && Score(mR, mU, j) > score) ==> k' == k && score' == score
    ensures BestSoFar(mR, mU, lo, j + 1, k', score')
  {
    var sj := Score(mR, mU, j);
    if forall i :: lo <= i < j ==> !Qualifies(|mR|, i) {
      assert score == -1;
      if Qualifies(|mR|, j) {
        assert k' == j && score' == sj;
      } else {
        assert forall i :: lo <= i < j + 1 ==> !Qualifies(|mR|, i);
      }
    } else {
      assert score >= 0 && lo <= k < j;
      if Qualifies(|mR|, j) && sj > score {
        assert k' == j && score' == sj;
      } else {
        assert k' == k && score' == score;
      }
    }
  }

  /** The `for k in range(-M, M + 1)` search with a strict `>`. */
  method BestLag(mR: seq<bool>, mU: seq<bool>, m: int) returns (k: int, score: int)
    requires |mU| == |mR|
    ensures BestSoFar(mR, mU, -m, m + 1, k, score)
  {
    k, score := 0, -1;
    var j := -m;
    while j <= m
      invariant -m <= j && (m >= 0 ==> j <= m + 1) && (m < 0 ==> j == -m)
      invariant BestSoFar(mR, mU, -m, j, k, score)
    {
      var k', score' := k, score;
      if Qualifies(|mR|, j) {
        var sc := Score(mR, mU, j);
        if sc > score {
          k', score' := j, sc;
        }
      }
      BestStep(mR, mU, -m, j, k, score, k', score');
      k, score := k', score';
      j := j + 1;
    }
    if m < 0 {
      NothingTried(mR, mU, -m, j, k, score);
      NothingTried(mR, mU, -m, m + 1, k, score);
    }
  }

  /** Over an empty lag range the result is `(0, -1)`. */
  lemma NothingTried(mR: seq<bool>, mU: seq<bool>, lo: int, hi: int, k: int, score: int)
    requires |mU| == |mR| && hi <= lo
    ensures BestSoFar(mR, mU, lo, hi, k, score) <==> k == 0 && score == -1
  {
  }

  /** `max_shift_frames = int(round(max_shift / dt))`. */
  function MaxLag(maxShift: real, dt: real): int
    requires dt != 0.0
  {
    RoundHalfEven(maxShift / dt)
  }

  /** `best_k * dt`: a lag in frames as seconds. */
  function LagSeconds(lag: int, dt: real): real {
    lag as real * dt
  }

  /** The estimate: the best lag in frames, the frame spacing, the shift in
      seconds and the lag's score (-1 when no lag was scored). */
  datatype Offset = Offset(lag: int, dt: real, shiftSec: real, score: int)

  /** `o` is the result of searching lags within `max_shift` seconds: the
      spacing is the reference's, the shift is the lag in seconds, and the lag
      is the first of best score. */
  ghost predicate IsOffsetFor(tR: seq<real>, mR: seq<bool>, tU: seq<real>, mU: seq<bool>, maxShift: real, o: Offset)
    requires |mR| == |tR| && |mU| == |tU| && (|tU| >= 1 || |tR| == 0)
  {
    o.dt == FrameSpacing(tR) && o.dt != 0.0
    && o.shiftSec == LagSeconds(o.lag, o.dt)
    && BestSoFar(mR, MaskOnRef(mU, Choose(tR, tU)), -MaxLag(maxShift, o.dt), MaxLag(maxShift, o.dt) + 1, o.lag, o.score)
  }

  /** `crosscorr_offset(tR, mR, tU, mU, max_shift)`. */
  method CrossCorrOffset(tR: seq<real>, mR: seq<bool>, tU: seq<real>, mU: seq<bool>, maxShift: real)
    returns (r: Result<Offset, Error>)
    requires |mR| == |tR| && |mU| == |tU|
    ensures r == Err(EmptyUserTrack) <==> |tU| == 0 && |tR| > 0
    ensures r == Err(ZeroDivision) <==> (|tU| > 0 || |tR| == 0) && FrameSpacing(tR) == 0.0
    ensures r.Ok? ==> IsOffsetFor(tR, mR, tU, mU, maxShift, r.value)
  {
    if |tU| == 0 && |tR| > 0 {
      return Err(EmptyUserTrack);
    }
    var mOn := MaskOnRef(mU, Choose(tR, tU));
    var dt := FrameSpacing(tR);
    if dt == 0.0 {
      return Err(ZeroDivision);
    }
    var m := MaxLag(maxShift, dt);
    var k, score := BestLag(mR, mOn, m);
    r := Ok(Offset(k, dt, LagSeconds(k, dt), score));
  }

  /** The chosen lag stays inside the search range, so for a positive spacing
      the shift exceeds `max_shift` by at most half a frame. */
  lemma ShiftWithinWindow(mR: seq<bool>, mU: seq<bool>, maxShift: real, dt: real, k: int, score: int)
    requires |mU| == |mR| && dt > 0.0
    requires BestSoFar(mR, mU, -MaxLag(maxShift, dt), MaxLag(maxShift, dt) + 1, k, score)
    ensures Abs(LagSeconds(k, dt)) <= Abs(maxShift) + dt / 2.0
  {
    var q := maxShift / dt;
    var m := MaxLag(maxShift, dt);
    LagInRange(mR, mU, -m, m + 1, k, score);
    LagBound(k, q);
    LagSecondsBound(k, maxShift, dt);
  }

  /** A lag of at most `|max_shift / dt| + 1/2` frames is at most
      `|max_shift| + dt/2` seconds. */
  lemma LagSecondsBound(k: int, maxShift: real, dt: real)
    requires dt > 0.0 && Abs(k as real) <= Abs(maxShift / dt) + 0.5
    ensures Abs(LagSeconds(k, dt)) <= Abs(maxShift) + dt / 2.0
  {
    var q := maxShift / dt;
    SecondsBound(k, q, dt);
    DivScale(maxShift, dt);
    assert Abs(q * dt) == Abs(maxShift);
  }

  /** The search's lag is one it tried, or 0 when none qualified. */
  lemma LagInRange(mR: seq<bool>, mU: seq<bool>, lo: int, hi: int, k: int, score: int)
    requires |mU| == |mR| && BestSoFar(mR, mU, lo, hi, k, score)
    ensures lo <= k < hi || k == 0
  {
  }

  /** A lag within the rounded bound `q` is within `|q| + 1/2`. */
  lemma LagBound(k: int, q: real)
    requires -RoundHalfEven(q) <= k <= RoundHalfEven(q) || k == 0
    ensures Abs(k as real) <= Abs(q) + 0.5
  {
  }

  /** `|k| <= |q| + 1/2` frames of `dt` is at most `|q| dt + dt/2` seconds. */
  lemma SecondsBound(k: int, q: real, dt: real)
    requires dt > 0.0 && Abs(k as real) <= Abs(q) + 0.5
    ensures Abs(LagSeconds(k, dt)) <= Abs(q * dt) + dt / 2.0
  {
    ScaleBound(Abs(k as real), Abs(q) + 0.5, dt);
    AbsScale(k as real, dt);
    AbsScale(q, dt);
    assert (Abs(q) + 0.5) * dt == Abs(q) * dt + 0.5 * dt;
  }

  lemma ScaleBound(a: real, b: real, d: real)
    requires a <= b && d > 0.0
    ensures a * d <= b * d
  {
    MulMonotone(d, a, b);
  }

  lemma AbsScale(x: real, d: real)
    requires d > 0.0
    ensures Abs(x * d) == Abs(x) * d
  {
  }

  lemma DivScale(x: real, d: real)
    requires d > 0.0
    ensures (x / d) * d == x
  {
  }

  /** `shift_user_pitch(dU, shift_sec)`: every frame moves by `shift_sec`, its
      f0 is kept, and the shift is recorded. */
  function ShiftUserPitch(p: PitchFile, shift: real): (q: ShiftedPitch)
    ensures q.file.sr == p.sr && q.file.hop == p.hop && q.autosyncShiftSec == shift
    ensures |q.file.track| == |p.track|
    ensures forall i :: 0 <= i < |p.track| ==> q.file.track[i].t == p.track[i].t + shift && q.file.track[i].f0 == p.track[i].f0
  {
    var tr := seq(|p.track|, i requires 0 <= i < |p.track| => Frame(p.track[i].t + shift, p.track[i].f0));
    ShiftedPitch(p.(track := tr), shift)
  }

  /** Shifting back by the opposite amount restores the track. */
  lemma ShiftUndo(p: PitchFile, shift: real)
    ensures ShiftUserPitch(ShiftUserPitch(p, shift).file, -shift).file == p
  {
    var q := ShiftUserPitch(ShiftUserPitch(p, shift).file, -shift).file;
    assert forall i :: 0 <= i < |p.track| ==> q.track[i] == p.track[i];
  }

  /** Shifting keeps the frame order and the voicing. */
  lemma ShiftKeepsOrder(p: PitchFile, shift: real)
    ensures NonDecreasing(Times(p.track)) <==> NonDecreasing(Times(ShiftUserPitch(p, shift).file.track))
    ensures Freqs(ShiftUserPitch(p, shift).file.track) == Freqs(p.track)
  {
    var q := ShiftUserPitch(p, shift).file;
    assert forall i :: 0 <= i < |p.track| ==> Times(q.track)[i] == Times(p.track)[i] + shift;
  }

  /** `max(1, ceil(min_event_sec * fps))`: the fewest frames, at least one,
      that last `min_event_sec`. */
  function MinFrames(minEventSec: real, fps: real): (m: int)
    ensures m >= 1 && minEventSec * fps <= m as real
    ensures m > 1 ==> (m - 1) as real < minEventSec * fps
  {
    MaxInt(1, Ceil(minEventSec * fps))
  }

  function Sign(x: real): real {
    if x > 0.0 then 1.0 else if x < 0.0 then -1.0 else 0.0
  }

  /** A `pitch_low` / `pitch_high` event of `compare_make_events`: the run's
      first and last reference times, the mean of its cents, and the largest
      magnitude signed like the mean. */
  function PitchEvent(tR: seq<real>, cents: seq<Option<real>>, r: Run, kind: EventKind): (e: Event)
    requires 0 <= r.start < r.end <= |tR| && r.end <= |cents|
    ensures e.start == tR[r.start] && e.end == tR[r.end - 1] && e.kind == kind
    ensures e.avgCents.Some? && e.maxCents.Some?
  {
    var vals := Present(cents[r.start..r.end]);
    Event(tR[r.start], tR[r.end - 1], kind, Some(MeanOrZero(vals)), Some(SignedPeak(vals)))
  }

  /** `nanmax(abs(seg)) * sign(nanmean(seg))`. */
  function SignedPeak(vals: seq<real>): real {
    if |vals| == 0 then 0.0 else Abs(MaxByAbs(vals)) * Sign(MeanOrZero(vals))
  }

  /** Values all below `-tol <= 0`: the signed peak is the minimum. */
  lemma NegativePeak(vals: seq<real>, tol: real)
    requires |vals| > 0 && tol >= 0.0 && forall i :: 0 <= i < |vals| ==> vals[i] < -tol
    ensures SignedPeak(vals) == SeqMin(vals) && MeanOrZero(vals) < -tol
  {
    MeanBelow(vals, -tol);
    MaxByAbsOfNegatives(vals);
    assert Sign(MeanOrZero(vals)) == -1.0;
    assert MaxByAbs(vals) < 0.0;
  }

  /** Values all above `tol >= 0`: the signed peak is the maximum. */
  lemma PositivePeak(vals: seq<real>, tol: real)
    requires |vals| > 0 && tol >= 0.0 && forall i :: 0 <= i < |vals| ==> vals[i] > tol
    ensures SignedPeak(vals) == SeqMax(vals) && MeanOrZero(vals) > tol
  {
    MeanAbove(vals, tol);
    MaxByAbsOfPositives(vals);
    assert Sign(MeanOrZero(vals)) == 1.0;
    assert MaxByAbs(vals) > 0.0;
  }

  function PitchEvents(tR: seq<real>, cents: seq<Option<real>>, runs: seq<Run>, kind: EventKind): (es: seq<Event>)
    requires |cents| <= |tR| && RunsWithin(runs, |cents|)
    ensures |es| == |runs|
    ensures forall k :: 0 <= k < |runs| ==> es[k] == PitchEvent(tR, cents, runs[k], kind)
  {
    seq(|runs|, k requires 0 <= k < |runs| => PitchEvent(tR, cents, runs[k], kind))
  }

  /** In a low run every cent is present and below `-tol <= 0`, so the signed
      peak is the run's minimum and the mean is below `-tol`. */
  lemma LowPeakIsMinimum(tR: seq<real>, cents: seq<Option<real>>, r: Run, tol: real)
    requires 0 <= r.start < r.end <= |tR| && r.end <= |cents| && tol >= 0.0
    requires forall k :: r.start <= k < r.end ==> Below(cents[k], -tol)
    ensures var e := PitchEvent(tR, cents, r, PitchLow);
            var vals := Present(cents[r.start..r.end]);
            |vals| == r.end - r.start
            && e.avgCents.value < -tol
            && e.maxCents == Some(SeqMin(vals))
  {
    var seg := cents[r.start..r.end];
    PresentAll(seg);
    var vals := Present(seg);
    forall i | 0 <= i < |vals|
      ensures vals[i] < -tol
    {
      assert Below(cents[r.start + i], -tol);
    }
    NegativePeak(vals, tol);
  }

  /** In a high run the signed peak is the run's maximum and the mean is above `tol`. */
  lemma HighPeakIsMaximum(tR: seq<real>, cents: seq<Option<real>>, r: Run, tol: real)
    requires 0 <= r.start < r.end <= |tR| && r.end <= |cents| && tol >= 0.0
    requires forall k :: r.start <= k < r.end ==> Above(cents[k], tol)
    ensures var e := PitchEvent(tR, cents, r, PitchHigh);
            var vals := Present(cents[r.start..r.end]);
            |vals| == r.end - r.start
            && e.avgCents.value > tol
            && e.maxCents == Some(SeqMax(vals))
  {
    var seg := cents[r.start..r.end];
    PresentAll(seg);
    var vals := Present(seg);
    forall i | 0 <= i < |vals|
      ensures vals[i] > tol
    {
      assert Above(cents[r.start + i], tol);
    }
    PositivePeak(vals, tol);
  }

  /** `compare_make_events(dR, dU, tol_cents, min_event_sec)`: the reduced
      tools/02 comparison, with its own thresholds, `seg_from_mask` runs and
      signed peaks. */
  method CompareMakeEvents(log2: real -> real, ref: PitchFile, usr: PitchFile, tol: real, minEventSec: real)
    returns (r: Result<seq<Event>, Error>, lowRuns: seq<Run>, highRuns: seq<Run>, missRuns: seq<Run>)
    ensures r == Err(EmptyUserTrack) <==> |usr.track| == 0 && |ref.track| > 0
    ensures r == Err(ZeroDivision) <==> (|usr.track| > 0 || |ref.track| == 0) && ref.hop.GetOr(DefaultHop) == 0.0
    ensures r.Ok? ==> MakesEvents(log2, ref, usr, tol, minEventSec, lowRuns, highRuns, missRuns, r.value)
  {
    lowRuns, highRuns, missRuns := [], [], [];
    var tR, fR, tU := Times(ref.track), Freqs(ref.track), Times(usr.track);
    if |tU| == 0 && |tR| > 0 {
      return Err(EmptyUserTrack), lowRuns, highRuns, missRuns;
    }
    var fOn := AlignedF0(Freqs(usr.track), Choose(tR, tU));
    var cents := CentsOnRef(log2, fOn, fR);
    var hop := ref.hop.GetOr(DefaultHop);
    if hop == 0.0 {
      return Err(ZeroDivision), lowRuns, highRuns, missRuns;
    }
    var minFrames := MinFrames(minEventSec, ref.sr.GetOr(DefaultSr) / hop);
    lowRuns := SegFromMask(BelowMask(cents, -tol), minFrames);
    highRuns := SegFromMask(AboveMask(cents, tol), minFrames);
    missRuns := SegFromMask(MissMask(fR, fOn), minFrames);
    RunListWithin(BelowMask(cents, -tol), minFrames, lowRuns);
    RunListWithin(AboveMask(cents, tol), minFrames, highRuns);
    RunListWithin(MissMask(fR, fOn), minFrames, missRuns);
    var events := EmitSorted(tR, cents, lowRuns, highRuns, missRuns);
    r := Ok(events);
  }

  /** What `compare_make_events(ref, usr, tol, min_event_sec)` gives when it
      succeeds: the three run lists are exactly the maximal runs of the low,
      high and unvoiced-miss masks that last `min_frames`, and `events` are
      their events, sorted by start. */
  ghost predicate MakesEvents(log2: real -> real, ref: PitchFile, usr: PitchFile, tol: real, minEventSec: real,
                              lowRuns: seq<Run>, highRuns: seq<Run>, missRuns: seq<Run>, events: seq<Event>)
    requires |usr.track| > 0 || |ref.track| == 0
    requires ref.hop.GetOr(DefaultHop) != 0.0
  {
    var tR := Times(ref.track);
    var fOn := AlignedF0(Freqs(usr.track), Choose(tR, Times(usr.track)));
    var cents := CentsOnRef(log2, fOn, Freqs(ref.track));
    var minFrames := MinFrames(minEventSec, ref.sr.GetOr(DefaultSr) / ref.hop.GetOr(DefaultHop));
    IsRunList(BelowMask(cents, -tol), minFrames, lowRuns)
    && IsRunList(AboveMask(cents, tol), minFrames, highRuns)
    && IsRunList(MissMask(Freqs(ref.track), fOn), minFrames, missRuns)
    && Emits(tR, cents, lowRuns, highRuns, missRuns, events)
  }

  /** `events` are the low, high and unvoiced-miss events of the runs, sorted
      by start, events of equal start in the order low, high, miss, as they
      were emitted; with ascending reference times none ends before it
      starts. */
  ghost predicate Emits(tR: seq<real>, cents: seq<Option<real>>, lowRuns: seq<Run>, highRuns: seq<Run>, missRuns: seq<Run>, events: seq<Event>)
    requires |cents| <= |tR|
    requires RunsWithin(lowRuns, |cents|) && RunsWithin(highRuns, |cents|) && RunsWithin(missRuns, |tR|)
  {
    multiset(events) == multiset(PitchEvents(tR, cents, lowRuns, PitchLow)
                                 + PitchEvents(tR, cents, highRuns, PitchHigh)
                                 + MissEvents(tR, missRuns))
    && SortedByStart(events)
    && events == SortByStart(PitchEvents(tR, cents, lowRuns, PitchLow)
                             + PitchEvents(tR, cents, highRuns, PitchHigh)
                             + MissEvents(tR, missRuns))
    && (NonDecreasing(tR) ==> Forward(events))
  }

  /** Emit the events of the three run lists and sort them by start. */
  method EmitSorted(tR: seq<real>, cents: seq<Option<real>>, lowRuns: seq<Run>, highRuns: seq<Run>, missRuns: seq<Run>)
    returns (events: seq<Event>)
    requires |cents| <= |tR|
    requires RunsWithin(lowRuns, |cents|) && RunsWithin(highRuns, |cents|) && RunsWithin(missRuns, |tR|)
    ensures Emits(tR, cents, lowRuns, highRuns, missRuns, events)
  {
    var lows := PitchEvents(tR, cents, lowRuns, PitchLow);
    var highs := PitchEvents(tR, cents, highRuns, PitchHigh);
    var misses := MissEvents(tR, missRuns);
    events := SortByStart(lows + highs + misses);
    if NonDecreasing(tR) {
      assert Forward(lows) && Forward(highs) && Forward(misses);
      ForwardAppend(lows, highs);
      ForwardAppend(lows + highs, misses);
      SpansForward(lows + highs + misses, events);
    }
  }

  /** What `main` writes: the estimate, the shifted user pitch file and the events. */
  datatype Outcome = Outcome(offset: Offset, shifted: ShiftedPitch, events: seq<Event>)

  /** `main`: estimate the offset from the voiced masks, shift the user track
      by it, and compare the shifted track with the reference at 40 cents and
      0.2 s. */
  method AutosyncMain(log2: real -> real, ref: PitchFile, usr: PitchFile, maxShift: real)
    returns (r: Result<Outcome, Error>, lowRuns: seq<Run>, highRuns: seq<Run>, missRuns: seq<Run>)
    ensures r == Err(EmptyUserTrack) <==> |usr.track| == 0 && |ref.track| > 0
    ensures r == Err(ZeroDivision) <==>
              (|usr.track| > 0 || |ref.track| == 0) && (FrameSpacing(Times(ref.track)) == 0.0 || ref.hop.GetOr(DefaultHop) == 0.0)
    ensures r.Ok? ==>
              IsOffsetFor(Times(ref.track), VoicedMask(Freqs(ref.track)), Times(usr.track), VoicedMask(Freqs(usr.track)), maxShift, r.value.offset)
              && r.value.shifted == ShiftUserPitch(usr, r.value.offset.shiftSec)
              && MakesEvents(log2, ref, r.value.shifted.file, TolCents, MinDurationSec, lowRuns, highRuns, missRuns, r.value.events)
  {
    lowRuns, highRuns, missRuns := [], [], [];
    var tR, tU := Times(ref.track), Times(usr.track);
    var mR, mU := VoicedMask(Freqs(ref.track)), VoicedMask(Freqs(usr.track));
    var off := CrossCorrOffset(tR, mR, tU, mU, maxShift);
    if off.Err? {
      assert off.error == ZeroDivision <==> (|tU| > 0 || |tR| == 0) && FrameSpacing(tR) == 0.0;
      return Err(off.error), lowRuns, highRuns, missRuns;
    }
    assert FrameSpacing(tR) != 0.0 && (|tU| > 0 || |tR| == 0);
    var shifted := ShiftUserPitch(usr, off.value.shiftSec);
    assert |shifted.file.track| == |usr.track|;
    var evs;
    evs, lowRuns, highRuns, missRuns := CompareMakeEvents(log2, ref, shifted.file, TolCents, MinDurationSec);
    if evs.Err? {
      assert evs.error == ZeroDivision && ref.hop.GetOr(DefaultHop) == 0.0;
      return Err(evs.error), lowRuns, highRuns, missRuns;
    }
    assert ref.hop.GetOr(DefaultHop) != 0.0;
    var events := evs.value;
    assert MakesEvents(log2, ref, shifted.file, TolCents, MinDurationSec, lowRuns, highRuns, missRuns, events);
    r := Ok(Outcome(off.value, shifted, events));
  }
}
