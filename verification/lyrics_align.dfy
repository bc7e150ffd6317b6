/** Giving every lyric line a time span on the reference track
    (`tools/11_align_lyrics.py`): lines that already carry times keep them,
    trimmed so they do not run into the next line; untimed lines are laid over
    the reference's voiced segments, merging or splitting segments until there
    is one per line. */
module LyricsAlign {
  import opened Wrappers
  import opened Numeric
  import opened Sorting
  import opened Runs
  import opened Frames
  import opened Timeline

  /** Every phrase lasts at least 0.40 s (`MIN_DUR`). */
  const MinDur: real := 0.4

  // ---------------------------------------------------------------------------
  // Voiced segments
  // ---------------------------------------------------------------------------

  /** `np.where(mask)[0]` over the indices from `from` on: the true indices,
      ascending. */
  function TrueIndices(mask: seq<bool>, from: nat): (idx: seq<int>)
    requires from <= |mask|
    ensures forall j :: 0 <= j < |idx| ==> from <= idx[j] < |mask| && mask[idx[j]]
    ensures forall a, b :: 0 <= a < b < |idx| ==> idx[a] < idx[b]
    decreases |mask| - from
  {
    if from == |mask| then []
    else (if mask[from] then [from] else []) + TrueIndices(mask, from + 1)
  }

  /** Every true index from `from` on is listed. */
  lemma {:induction false} TrueIndicesComplete(mask: seq<bool>, from: nat, i: int)
    requires from <= i < |mask| && mask[i]
    ensures i in TrueIndices(mask, from)
    decreases |mask| - from
  {
    if from < i {
      TrueIndicesComplete(mask, from + 1, i);
    }
  }

  /** A true index is listed. */
  lemma TrueIndicesListed(mask: seq<bool>, i: int)
    requires 0 <= i < |mask|
    ensures mask[i] ==> i in TrueIndices(mask, 0)
  {
    if mask[i] {
      TrueIndicesComplete(mask, 0, i);
    }
  }

  /** Between two neighbouring true indices every frame is false. */
  lemma FalseBetween(mask: seq<bool>, idx: seq<int>, k: int, i: int)
    requires idx == TrueIndices(mask, 0)
    requires 0 <= k && k + 1 < |idx| && idx[k] < i < idx[k + 1]
    ensures !mask[i]
  {
    TrueIndicesListed(mask, i);
    forall j | 0 <= j < |idx|
      ensures idx[j] != i
    {
      assert j <= k ==> idx[j] <= idx[k];
      assert j >= k + 1 ==> idx[k + 1] <= idx[j];
    }
  }

  /** After the last true index every frame is false. */
  lemma FalseAfter(mask: seq<bool>, idx: seq<int>, i: int)
    requires idx == TrueIndices(mask, 0) && |idx| > 0
    requires idx[|idx| - 1] < i < |mask|
    ensures !mask[i]
  {
    TrueIndicesListed(mask, i);
    forall j | 0 <= j < |idx|
      ensures idx[j] != i
    {
      assert idx[j] <= idx[|idx| - 1];
    }
  }

  /** Before the first true index every frame is false. */
  lemma FalseBefore(mask: seq<bool>, idx: seq<int>, i: int)
    requires idx == TrueIndices(mask, 0) && |idx| > 0
    requires 0 <= i < idx[0]
    ensures !mask[i]
  {
    TrueIndicesListed(mask, i);
    forall j | 0 <= j < |idx|
      ensures idx[j] != i
    {
      assert idx[0] <= idx[j];
    }
  }

  /** A mask with no true index has no run. */
  lemma NoTrueNoRun(mask: seq<bool>, r: Run)
    requires |TrueIndices(mask, 0)| == 0
    ensures !IsMaximalRun(mask, r)
  {
    if IsMaximalRun(mask, r) {
      TrueIndicesComplete(mask, 0, r.start);
    }
  }

  /** A maximal run cannot end inside an all-true stretch. */
  lemma NoEndInside(mask: seq<bool>, s: int, e: int, r: Run)
    requires 0 <= s < e <= |mask| && AllTrue(mask, s, e)
    requires IsMaximalRun(mask, r)
    ensures !(s <= r.end < e)
  {
  }

  /** What `voiced_segments` knows once it has walked the true indices up to
      `upto`: the open run from `s` is all true so far, and every maximal run
      ending before `s` is closed, in order. */
  ghost predicate RunsSoFar(mask: seq<bool>, out: seq<Run>, s: int, upto: int) {
    0 <= s <= upto < |mask| && AllTrue(mask, s, upto + 1) && (s == 0 || !mask[s - 1])
    && Separated(out)
    && (forall a :: 0 <= a < |out| ==> IsMaximalRun(mask, out[a]) && out[a].Len() >= 1)
    && (forall a :: 0 <= a < |out| ==> out[a].end < s)
    && (forall r :: IsMaximalRun(mask, r) && r.Len() >= 1 && r.end < s ==> r in out)
  }

  /** The pair `(a, b)` of neighbouring true indices: a gap ends the open
      run after `a` and opens one at `b`. */
  method VoicedStep(mask: seq<bool>, idx: seq<int>, k: int, out: seq<Run>, s: int) returns (out': seq<Run>, s': int)
    requires idx == TrueIndices(mask, 0) && 0 <= k && k + 1 < |idx|
    requires RunsSoFar(mask, out, s, idx[k])
    ensures RunsSoFar(mask, out', s', idx[k + 1])
  {
    if idx[k + 1] != idx[k] + 1 {
      out' := CloseGap(mask, idx, k, out, s);
      s' := idx[k + 1];
    } else {
      out', s' := out, s;
      ExtendRun(mask, idx, k, out, s);
    }
  }

  /** Without a gap the open run grows by one frame. */
  lemma ExtendRun(mask: seq<bool>, idx: seq<int>, k: int, out: seq<Run>, s: int)
    requires idx == TrueIndices(mask, 0) && 0 <= k && k + 1 < |idx| && idx[k + 1] == idx[k] + 1
    requires RunsSoFar(mask, out, s, idx[k])
    ensures RunsSoFar(mask, out, s, idx[k + 1])
  {
    assert mask[idx[k + 1]];
  }

  /** A gap after `idx[k]` closes the open run there. */
  method CloseGap(mask: seq<bool>, idx: seq<int>, k: int, out: seq<Run>, s: int) returns (out': seq<Run>)
    requires idx == TrueIndices(mask, 0) && 0 <= k && k + 1 < |idx| && idx[k + 1] != idx[k] + 1
    requires RunsSoFar(mask, out, s, idx[k])
    ensures RunsSoFar(mask, out', idx[k + 1], idx[k + 1])
  {
    var a, b := idx[k], idx[k + 1];
    FalseBetween(mask, idx, k, a + 1);
    FalseBetween(mask, idx, k, b - 1);
    forall r | IsMaximalRun(mask, r) && r.Len() >= 1 && r.end < a + 1
      ensures r in out
    {
      NoEndInside(mask, s, a + 1, r);
    }
    out' := CloseRun(mask, 1, out, s, a + 1);
    forall r | IsMaximalRun(mask, r) && r.Len() >= 1 && r.end < b
      ensures r in out'
    {
      if r.end > a + 1 {
        FalseBetween(mask, idx, k, r.end - 1);
      }
    }
  }

  /** The runs `voiced_segments` reads off the true indices: a new run starts
      wherever the next true index is not one past the previous one, and the
      last run ends at the last true index. Runs are half-open, so a run
      `[s, e)` is `voiced_segments`'s `(s, e - 1)`. */
  method VoicedRuns(mask: seq<bool>) returns (runs: seq<Run>)
    ensures IsRunList(mask, 1, runs)
  {
    var idx := TrueIndices(mask, 0);
    if |idx| == 0 {
      forall r
        ensures !IsMaximalRun(mask, r)
      {
        NoTrueNoRun(mask, r);
      }
      return [];
    }
    var out: seq<Run> := [];
    var s := idx[0];
    if s > 0 {
      FalseBefore(mask, idx, s - 1);
    }
    forall r | IsMaximalRun(mask, r) && r.Len() >= 1
      ensures r.end >= s
    {
      if r.end < s {
        FalseBefore(mask, idx, r.end - 1);
      }
    }
    for k := 0 to |idx| - 1
      invariant RunsSoFar(mask, out, s, idx[k])
    {
      out, s := VoicedStep(mask, idx, k, out, s);
    }
    runs := CloseLast(mask, idx, out, s);
  }

  /** The last true index ends the open run. */
  method CloseLast(mask: seq<bool>, idx: seq<int>, out: seq<Run>, s: int) returns (runs: seq<Run>)
    requires idx == TrueIndices(mask, 0) && |idx| > 0
    requires RunsSoFar(mask, out, s, idx[|idx| - 1])
    ensures IsRunList(mask, 1, runs)
  {
    var last := idx[|idx| - 1];
    if last + 1 < |mask| {
      FalseAfter(mask, idx, last + 1);
    }
    forall r | IsMaximalRun(mask, r) && r.Len() >= 1 && r.end < last + 1
      ensures r in out
    {
      NoEndInside(mask, s, last + 1, r);
    }
    runs := CloseRun(mask, 1, out, s, last + 1);
    forall r | IsMaximalRun(mask, r) && r.Len() >= 1
      ensures r in runs
    {
      if r.end > last + 1 {
        FalseAfter(mask, idx, r.end - 1);
      }
    }
  }

  /** A list of all maximal runs is empty exactly when no frame is true. */
  lemma RunsEmptyIffSilent(mask: seq<bool>, runs: seq<Run>)
    requires IsRunList(mask, 1, runs)
    ensures |runs| == 0 <==> forall i :: 0 <= i < |mask| ==> !mask[i]
  {
    if |runs| > 0 {
      assert mask[runs[0].start];
    }
    forall i | 0 <= i < |mask| && mask[i]
      ensures |runs| > 0
    {
      var r := Run(StretchStart(mask, i), StretchEnd(mask, i));
      assert IsMaximalRun(mask, r);
    }
  }

  /** `(~np.isnan(f)) & (f > 0)`. */
  function VoicedMask(track: seq<Frame>): (mask: seq<bool>)
    ensures |mask| == |track| && forall i :: 0 <= i < |track| ==> mask[i] == Voiced(track[i].f0)
  {
    seq(|track|, i requires 0 <= i < |track| => Voiced(track[i].f0))
  }

  /** The end a phrase from `s` to `e` gets once it lasts at least `MinDur`:
      `e`, or `s + MinDur` when `e - s < MinDur`. */
  function MinDurEnd(s: real, e: real): (r: real)
    ensures r == Max(e, s + MinDur)
  {
    if e - s < MinDur then s + MinDur else e
  }

  /** The time span of a run: from its first to its last frame. */
  function RunSpan(track: seq<Frame>, r: Run): Span
    requires 0 <= r.start < r.end <= |track|
  {
    Span(track[r.start].t, track[r.end - 1].t)
  }

  /** The segment of a run: its time span, lengthened to `MinDur`. */
  function RunSegment(track: seq<Frame>, r: Run): Span
    requires 0 <= r.start < r.end <= |track|
  {
    var sp := RunSpan(track, r);
    Span(sp.start, MinDurEnd(sp.start, sp.end))
  }

  /** The voiced segments of a track, one per maximal voiced run, in order. */
  function Segments(track: seq<Frame>): (segs: seq<Span>)
  {
    var runs := MaximalRuns(VoicedMask(track), 0);
    seq(|runs|, k requires 0 <= k < |runs| => RunSegment(track, runs[k]))
  }

  /** `voiced_segments`: one segment per maximal run of voiced frames, in
      order, from the time of its first frame to that of its last, lengthened
      to `MinDur` when shorter. The runs are returned alongside. */
  method VoicedSegments(track: seq<Frame>) returns (runs: seq<Run>, segs: seq<Span>)
    ensures IsRunList(VoicedMask(track), 1, runs)
    ensures |segs| == |runs|
    ensures forall i :: 0 <= i < |runs| ==>
      segs[i].start == RunSpan(track, runs[i]).start &&
      segs[i].end == Max(RunSpan(track, runs[i]).end, segs[i].start + MinDur)
    ensures forall i :: 0 <= i < |segs| ==> segs[i].end - segs[i].start >= MinDur
    ensures segs == Segments(track)
  {
    var mask := VoicedMask(track);
    runs := VoicedRuns(mask);
    segs := [];
    for k := 0 to |runs|
      invariant |segs| == k
      invariant forall i :: 0 <= i < k ==> segs[i] == RunSegment(track, runs[i])
    {
      segs := segs + [RunSegment(track, runs[k])];
    }
    SegmentsOfRuns(track, runs, segs);
  }

  /** Segments made run by run from the run list are the track's segments. */
  lemma SegmentsOfRuns(track: seq<Frame>, runs: seq<Run>, segs: seq<Span>)
    requires IsRunList(VoicedMask(track), 1, runs)
    requires |segs| == |runs| && forall i :: 0 <= i < |runs| ==> segs[i] == RunSegment(track, runs[i])
    ensures segs == Segments(track)
  {
    var mask := VoicedMask(track);
    MaximalRunsList(mask);
    RunListUnique(mask, 1, runs, MaximalRuns(mask, 0));
  }

  /** No segments exactly when no frame is voiced (an empty track included). */
  lemma VoicedSegmentsEmpty(track: seq<Frame>, runs: seq<Run>)
    requires IsRunList(VoicedMask(track), 1, runs)
    ensures |runs| == 0 <==> forall i :: 0 <= i < |track| ==> !Voiced(track[i].f0)
  {
    RunsEmptyIffSilent(VoicedMask(track), runs);
  }

  // ---------------------------------------------------------------------------
  // Matching the number of segments to the number of lines
  // ---------------------------------------------------------------------------

  function Len(sp: Span): real {
    sp.end - sp.start
  }

  /** The lengths of the spans, in order. */
  function Lengths(spans: seq<Span>): (ls: seq<real>)
    ensures |ls| == |spans| && forall i :: 0 <= i < |spans| ==> ls[i] == Len(spans[i])
  {
    seq(|spans|, i requires 0 <= i < |spans| => Len(spans[i]))
  }

  /** `max(range(len(out)), key=lambda i: out[i][1] - out[i][0])`: the first
      of the longest spans. */
  function LongestIndex(out: seq<Span>): (k: nat)
    requires |out| > 0
    ensures k < |out|
    ensures forall j :: 0 <= j < |out| ==> Len(out[j]) <= Len(out[k])
    ensures forall j :: 0 <= j < k ==> Len(out[j]) < Len(out[k])
  {
    if |out| == 1 then 0
    else
      var k := LongestIndex(out[..|out| - 1]);
      assert forall j :: 0 <= j < |out| - 1 ==> out[..|out| - 1][j] == out[j];
      if Len(out[|out| - 1]) > Len(out[k]) then |out| - 1 else k
  }

  /** The span `k` replaced by its two halves, which meet at its midpoint. */
  function Bisect(out: seq<Span>, k: nat): (r: seq<Span>)
    requires k < |out|
    ensures |r| == |out| + 1
    ensures r[..k] == out[..k] && r[k + 2..] == out[k + 1..]
    ensures r[k].start == out[k].start && r[k + 1].end == out[k].end
    ensures r[k].end == r[k + 1].start == (out[k].start + out[k].end) / 2.0
  {
    var m := (out[k].start + out[k].end) / 2.0;
    out[..k] + [Span(out[k].start, m), Span(m, out[k].end)] + out[k + 1..]
  }

  /** Bisecting keeps the total length. */
  lemma BisectLength(out: seq<Span>, k: nat)
    requires k < |out|
    ensures Sum(Lengths(Bisect(out, k))) == Sum(Lengths(out))
  {
    var r := Bisect(out, k);
    var m := (out[k].start + out[k].end) / 2.0;
    assert Lengths(r) == Lengths(out[..k]) + [m - out[k].start, out[k].end - m] + Lengths(out[k + 1..]);
    assert Lengths(out) == Lengths(out[..k]) + [Len(out[k])] + Lengths(out[k + 1..]);
    SumAppend(Lengths(out[..k]) + [m - out[k].start, out[k].end - m], Lengths(out[k + 1..]));
    SumAppend(Lengths(out[..k]), [m - out[k].start, out[k].end - m]);
    SumAppend(Lengths(out[..k]) + [Len(out[k])], Lengths(out[k + 1..]));
    SumAppend(Lengths(out[..k]), [Len(out[k])]);
    assert Sum([m - out[k].start, out[k].end - m]) == Len(out[k]) by {
      assert [m - out[k].start, out[k].end - m][..1] == [m - out[k].start];
      assert Sum([m - out[k].start]) == m - out[k].start by {
        assert [m - out[k].start][..0] == [];
      }
    }
    assert Sum([Len(out[k])]) == Len(out[k]) by {
      assert [Len(out[k])][..0] == [];
    }
  }

  /** Bisecting keeps spans back to back. */
  lemma BisectContiguous(out: seq<Span>, k: nat)
    requires k < |out| && Contiguous(out)
    ensures Contiguous(Bisect(out, k))
  {
    var r := Bisect(out, k);
    forall i | 0 < i < |r|
      ensures r[i - 1].end == r[i].start
    {
      if i < k {
        assert r[i - 1] == out[..k][i - 1] && r[i] == out[..k][i];
      } else if i == k {
        assert r[i - 1] == out[..k][i - 1];
      } else if i == k + 2 {
        assert r[i] == r[k + 2..][0] == out[k + 1];
      } else if i > k + 2 {
        assert r[i - 1] == r[k + 2..][i - 1 - (k + 2)] == out[i - 2];
        assert r[i] == r[k + 2..][i - (k + 2)] == out[i - 1];
      }
    }
  }

  /** The split loop of `split_or_merge`: bisect the first longest span until
      there are `n`. */
  function SplitLongest(out: seq<Span>, n: int): (r: seq<Span>)
    requires |out| > 0
    ensures |out| <= n ==> |r| == n
    ensures |r| >= |out|
    ensures r[0].start == out[0].start && r[|r| - 1].end == out[|out| - 1].end
    decreases n - |out|
  {
    if |out| >= n then out
    else SplitLongest(Bisect(out, LongestIndex(out)), n)
  }

  /** Splitting keeps the total length, and keeps back-to-back spans back to back. */
  lemma {:induction false} SplitLongestKeeps(out: seq<Span>, n: int)
    requires |out| > 0
    ensures Sum(Lengths(SplitLongest(out, n))) == Sum(Lengths(out))
    ensures Contiguous(out) ==> Contiguous(SplitLongest(out, n))
    decreases n - |out|
  {
    if |out| < n {
      var k := LongestIndex(out);
      BisectLength(out, k);
      if Contiguous(out) {
        BisectContiguous(out, k);
      }
      SplitLongestKeeps(Bisect(out, k), n);
    }
  }

  /** A closed bag becomes one span, from the first segment's start to the
      last one's end, lengthened to `MinDur`. */
  function BagSpan(bag: seq<Span>): (sp: Span)
    requires |bag| > 0
    ensures sp.start == bag[0].start && sp.end == Max(bag[|bag| - 1].end, sp.start + MinDur)
  {
    Span(bag[0].start, MinDurEnd(bag[0].start, bag[|bag| - 1].end))
  }

  /** The merge loop of `split_or_merge` from segment `i` on, with `bag` the
      segments collected so far: a bag closes once it holds at least `ratio`
      segments, or at the last segment. (`acc` always equals the bag's size.) */
  function MergeBags(segs: seq<Span>, ratio: real, i: nat, bag: seq<Span>): (out: seq<Span>)
    requires i <= |segs|
    decreases |segs| - i
  {
    if i == |segs| then []
    else
      var bag' := bag + [segs[i]];
      if |bag'| as real >= ratio || i == |segs| - 1 then [BagSpan(bag')] + MergeBags(segs, ratio, i + 1, [])
      else MergeBags(segs, ratio, i + 1, bag')
  }

  /** With `c` the smallest whole number of segments reaching `ratio`, the
      bags closed from segment `i` on number at most the remaining segments
      (the open bag's included) divided by `c`, rounded up. */
  lemma {:induction false} MergeCount(segs: seq<Span>, ratio: real, c: int, i: nat, bag: seq<Span>)
    requires c >= 1 && (c - 1) as real < ratio <= c as real
    requires i <= |segs| && |bag| < c && (i == |segs| ==> |bag| == 0)
    ensures |MergeBags(segs, ratio, i, bag)| * c <= |segs| - i + |bag| + c - 1
    decreases |segs| - i
  {
    if i < |segs| {
      var bag' := bag + [segs[i]];
      if |bag'| as real >= ratio || i == |segs| - 1 {
        var rest := MergeBags(segs, ratio, i + 1, []);
        MergeCount(segs, ratio, c, i + 1, []);
        assert (1 + |rest|) * c == c + |rest| * c;
        assert |bag'| as real >= ratio ==> |bag'| == c;
      } else {
        MergeCount(segs, ratio, c, i + 1, bag');
      }
    }
  }

  /** The first bag starts with the first segment not yet merged. */
  lemma {:induction false} MergeFirst(segs: seq<Span>, ratio: real, i: nat, bag: seq<Span>)
    requires i < |segs|
    ensures |MergeBags(segs, ratio, i, bag)| > 0
    ensures MergeBags(segs, ratio, i, bag)[0].start == (bag + [segs[i]])[0].start
    decreases |segs| - i
  {
    var bag' := bag + [segs[i]];
    if !(|bag'| as real >= ratio || i == |segs| - 1) {
      MergeFirst(segs, ratio, i + 1, bag');
      assert (bag' + [segs[i + 1]])[0] == bag'[0];
    }
  }

  /** `k` bags of `c` segments need `k * c` of them, so fewer than `n` bags
      when `c * n` covers the `m` segments. */
  lemma FewBags(k: int, c: int, m: int, n: int)
    requires c >= 1 && n >= 1 && k >= 0
    requires k * c <= m + c - 1 && m <= c * n
    ensures k <= n
  {
    assert (n + 1) * c == c * n + c;
    if k > n {
      MulAtLeast(n + 1, k, c);
      assert false;
    }
  }

  lemma MulAtLeast(a: int, b: int, c: int)
    requires a <= b && c >= 0
    ensures a * c <= b * c
  {
    assert b * c - a * c == (b - a) * c;
  }

  /** `ratio = m / n` rounded up covers the segments: `c * n >= m`. */
  lemma CeilCovers(m: nat, n: nat, c: int)
    requires n >= 1 && m as real / n as real <= c as real
    ensures c * n >= m
  {
    assert (m as real / n as real) * n as real == m as real;
    assert (c * n) as real == c as real * n as real;
  }

  /** When there are more segments than lines, the bags never outnumber the
      lines: the loop that pops and joins the last two is never entered. */
  lemma MergeAtMost(segs: seq<Span>, n: int)
    requires 1 <= n < |segs|
    ensures |MergeBags(segs, |segs| as real / n as real, 0, [])| <= n
  {
    var ratio := |segs| as real / n as real;
    var c := Ceil(ratio);
    assert ratio > 1.0;
    MergeCount(segs, ratio, c, 0, []);
    CeilCovers(|segs|, n, c);
    FewBags(|MergeBags(segs, ratio, 0, []) |, c, |segs|, n);
  }

  /** `while len(out) > n_lines`: join the last two spans into one. Spans
      beyond the `n`-th are folded into it: it keeps its start and takes the
      end of the last span, and the spans before it stay as they are. */
  function PopMerge(out: seq<Span>, n: int): (r: seq<Span>)
    requires n >= 1
    ensures |r| == if |out| <= n then |out| else n
    ensures |out| <= n ==> r == out
    ensures |out| > n ==> r[..n - 1] == out[..n - 1]
    ensures |out| > n ==> r[n - 1].start == out[n - 1].start && r[n - 1].end == out[|out| - 1].end
    decreases |out|
  {
    if |out| <= n then out
    else
      var a, b := out[|out| - 1], out[|out| - 2];
      var out' := out[..|out| - 2] + [Span(b.start, a.end)];
      assert out'[..n - 1] == out[..n - 1];
      assert out'[n - 1].start == out[n - 1].start;
      PopMerge(out', n)
  }

  /** `while len(out) < n_lines`: split the last span at its midpoint. */
  function HalveLast(out: seq<Span>, n: int): (r: seq<Span>)
    requires |out| > 0
    ensures |out| <= n ==> |r| == n
    ensures |r| >= |out|
    ensures r[0].start == out[0].start && r[|r| - 1].end == out[|out| - 1].end
    decreases n - |out|
  {
    if |out| >= n then out
    else HalveLast(Bisect(out, |out| - 1), n)
  }

  /** The merge branch of `split_or_merge`. */
  function MergeDown(segs: seq<Span>, n: int): (r: seq<Span>)
    requires 1 <= n < |segs|
    ensures |r| == n
    ensures r[0].start == segs[0].start
    ensures r[n - 1].end >= segs[|segs| - 1].end
  {
    var bags := MergeBags(segs, |segs| as real / n as real, 0, []);
    MergeFirst(segs, |segs| as real / n as real, 0, []);
    MergeLast(segs, |segs| as real / n as real, 0, []);
    MergeAtMost(segs, n);
    HalveLast(PopMerge(bags, n), n)
  }

  /** The last bag ends no earlier than the last segment. */
  lemma {:induction false} MergeLast(segs: seq<Span>, ratio: real, i: nat, bag: seq<Span>)
    requires i < |segs|
    ensures var out := MergeBags(segs, ratio, i, bag);
      |out| > 0 && out[|out| - 1].end >= segs[|segs| - 1].end
    decreases |segs| - i
  {
    var bag' := bag + [segs[i]];
    if |bag'| as real >= ratio || i == |segs| - 1 {
      if i < |segs| - 1 {
        MergeLast(segs, ratio, i + 1, []);
      }
    } else {
      MergeLast(segs, ratio, i + 1, bag');
    }
  }

  /** `split_or_merge`: no spans for no lines; equal two-second slices when
      there are no segments; the segments themselves when they match the
      lines; otherwise merged or split to one span per line. */
  function SplitOrMerge(segs: seq<Span>, n: int): (r: seq<Span>)
    ensures n <= 0 ==> |r| == 0
    ensures n > 0 ==> |r| == n
    ensures |segs| == n ==> r == segs
    ensures n > 0 && |segs| > 0 ==> r[0].start == segs[0].start
    ensures n > 0 && |segs| > 0 ==> r[n - 1].end >= segs[|segs| - 1].end
  {
    if n <= 0 then []
    else if |segs| == 0 then EqualSlices(n, Max(MinDur * n as real, SecondsPerLine * n as real))
    else if |segs| == n then segs
    else if |segs| > n then MergeDown(segs, n)
    else SplitLongest(segs, n)[..n]
  }

  /** Without segments the lines get two seconds each, back to back from 0. */
  lemma SplitOrMergeDummy(n: int)
    requires n > 0
    ensures var r := SplitOrMerge([], n);
      Contiguous(r) && r[0].start == 0.0 &&
      forall i :: 0 <= i < n ==> Len(r[i]) == SecondsPerLine
  {
    var total := Max(MinDur * n as real, SecondsPerLine * n as real);
    assert total == SecondsPerLine * n as real;
    assert total / n as real == SecondsPerLine;
  }

  /** Cutting the split spans to `n` keeps them all. */
  lemma SplitCut(segs: seq<Span>, n: int)
    requires 0 < |segs| < n
    ensures SplitOrMerge(segs, n) == SplitLongest(segs, n)
  {
    assert SplitLongest(segs, n)[..n] == SplitLongest(segs, n);
  }

  /** When segments are split, the first start, the last end and the total
      length are kept, and back-to-back segments stay back to back. */
  lemma SplitOrMergeSplits(segs: seq<Span>, n: int)
    requires 0 < |segs| < n
    ensures SplitOrMerge(segs, n)[n - 1].end == segs[|segs| - 1].end
    ensures Sum(Lengths(SplitOrMerge(segs, n))) == Sum(Lengths(segs))
    ensures Contiguous(segs) ==> Contiguous(SplitOrMerge(segs, n))
  {
    SplitCut(segs, n);
    SplitLongestShape(segs, n);
  }

  /** What `SplitOrMergeSplits` states, for the split spans themselves. */
  lemma SplitLongestShape(segs: seq<Span>, n: int)
    requires 0 < |segs| < n
    ensures |SplitLongest(segs, n)| == n
    ensures SplitLongest(segs, n)[n - 1].end == segs[|segs| - 1].end
    ensures Sum(Lengths(SplitLongest(segs, n))) == Sum(Lengths(segs))
    ensures Contiguous(segs) ==> Contiguous(SplitLongest(segs, n))
  {
    var r := SplitLongest(segs, n);
    assert |r| == n;
    assert r[|r| - 1].end == segs[|segs| - 1].end;
    SplitLongestKeeps(segs, n);
  }

  // ---------------------------------------------------------------------------
  // Input rows
  // ---------------------------------------------------------------------------

  /** A row of the input JSON: `text` is absent or the `str()` of its value;
      `start` and `end` are absent, present but not convertible by `float()`
      (`Some(None)`), or present with a value. */
  datatype RawRow = RawRow(text: Option<string>, start: Option<Option<real>>, end: Option<Option<real>>)

  /** The input document: its `"lines"` and `"lyrics"` lists, absent when the
      key is missing or null. */
  datatype RawDoc = RawDoc(lines: Option<seq<RawRow>>, lyrics: Option<seq<RawRow>>)

  /** A normalised row: the text, and the times that converted. */
  datatype InputRow = InputRow(text: string, start: Option<real>, end: Option<real>)

  /** `KeyError`: neither `"lines"` nor `"lyrics"` is there. */
  datatype InputError = NoRowsKey

  /** One row of `detect_input_rows`: the times are copied only when both keys
      are there, `start` first, so a `start` that does not convert leaves
      both out and an `end` that does not convert leaves `start` alone. */
  function NormRow(r: RawRow): (row: InputRow)
    requires r.text.Some?
    ensures row.text == r.text.value
    ensures row.end.Some? ==> row.start.Some?
    ensures row.start.Some? <==> r.start.Some? && r.end.Some? && r.start.value.Some?
    ensures row.start.Some? ==> row.start.value == r.start.value.value
    ensures row.end.Some? <==> row.start.Some? && r.end.value.Some?
    ensures row.end.Some? ==> row.end.value == r.end.value.value
  {
    var t := r.text.value;
    if r.start.Some? && r.end.Some? then
      match r.start.value
      case None => InputRow(t, None, None)
      case Some(s) => InputRow(t, Some(s), r.end.value)
    else InputRow(t, None, None)
  }

  /** The rows that have a text, normalised, in order. */
  function NormRows(rows: seq<RawRow>): (norm: seq<InputRow>)
    ensures |norm| <= |rows|
  {
    if |rows| == 0 then []
    else (if rows[0].text.Some? then [NormRow(rows[0])] else []) + NormRows(rows[1..])
  }

  /** Which rows have a text. */
  function TextMask(rows: seq<RawRow>): (m: seq<bool>)
    ensures |m| == |rows| && forall i :: 0 <= i < |rows| ==> m[i] == rows[i].text.Some?
  {
    seq(|rows|, i requires 0 <= i < |rows| => rows[i].text.Some?)
  }

  /** One row is kept per row with a text. */
  lemma {:induction false} NormRowsCount(rows: seq<RawRow>)
    ensures |NormRows(rows)| == CountTrue(TextMask(rows))
    decreases |rows|
  {
    if |rows| > 0 {
      NormRowsCount(rows[1..]);
      var b := rows[0].text.Some?;
      assert TextMask(rows) == [b] + TextMask(rows[1..]);
      CountTrueAppend([b], TextMask(rows[1..]));
      assert [b][..0] == [];
    }
  }

  /** Every kept row comes from a row with text. */
  lemma {:induction false} NormRowsFrom(rows: seq<RawRow>, row: InputRow)
    requires row in NormRows(rows)
    ensures exists r :: r in rows && r.text.Some? && NormRow(r) == row
    decreases |rows|
  {
    if |rows| > 0 && row !in (if rows[0].text.Some? then [NormRow(rows[0])] else []) {
      NormRowsFrom(rows[1..], row);
      var r :| r in rows[1..] && r.text.Some? && NormRow(r) == row;
      assert r in rows;
    }
  }

  /** `detect_input_rows`: the `"lines"` list when there is one, even empty;
      else the `"lyrics"` list; else `KeyError`. */
  function DetectInputRows(raw: RawDoc): (r: Result<seq<InputRow>, InputError>)
    ensures r.Err? <==> raw.lines.None? && raw.lyrics.None?
    ensures raw.lines.Some? ==> r.Ok? && r.value == NormRows(raw.lines.value)
    ensures raw.lines.None? && raw.lyrics.Some? ==> r.Ok? && r.value == NormRows(raw.lyrics.value)
  {
    if raw.lines.Some? then Ok(NormRows(raw.lines.value))
    else if raw.lyrics.Some? then Ok(NormRows(raw.lyrics.value))
    else Err(NoRowsKey)
  }

  // ---------------------------------------------------------------------------
  // Lines that carry times
  // ---------------------------------------------------------------------------

  function StartOf(r: LyricRow): real {
    r.start
  }

  /** The rows with a start, in input order; a missing end is `start + MinDur`. */
  function Timed(rows: seq<InputRow>): (timed: seq<LyricRow>)
    ensures |timed| <= |rows|
  {
    if |rows| == 0 then []
    else
      var r := rows[0];
      (if r.start.Some? then [LyricRow(r.start.value, if r.end.Some? then r.end.value else r.start.value + MinDur, r.text)] else [])
      + Timed(rows[1..])
  }

  /** Row `i` of the rows sorted by start: its end is cut back to the next
      row's start, then raised to last at least `MinDur`. */
  function TrimmedEnd(sorted: seq<LyricRow>, i: int): real
    requires 0 <= i < |sorted|
  {
    var e := if i + 1 < |sorted| then Min(sorted[i].end, sorted[i + 1].start) else sorted[i].end;
    MinDurEnd(sorted[i].start, e)
  }

  /** `timed.sort(key=start)`: the rows with a start, stably sorted by start. */
  function ByStart(rows: seq<InputRow>): (sorted: seq<LyricRow>)
    ensures |sorted| == |Timed(rows)| && multiset(sorted) == multiset(Timed(rows))
    ensures forall i :: 0 <= i < |sorted| ==> sorted[i] in Timed(rows)
    ensures forall i, j :: 0 <= i < j < |sorted| ==> sorted[i].start <= sorted[j].start
  {
    var sorted := SortByKey(Timed(rows), StartOf);
    forall i | 0 <= i < |sorted|
      ensures sorted[i] in Timed(rows)
    {
      assert sorted[i] in multiset(sorted);
    }
    sorted
  }

  /** The rows of `sorted`, each end trimmed to the next start and raised to
      at least `MinDur`. Row `i` keeps the start and text of `sorted[i]`; its
      end is that row's own end, the next start or `start + MinDur`, never
      later than the own end or `start + MinDur`, and it is exactly the later
      of those two when the own end does not run past the next start. */
  function Trimmed(sorted: seq<LyricRow>): (out: seq<LyricRow>)
    ensures |out| == |sorted|
    ensures forall i :: 0 <= i < |out| ==>
      out[i].start == sorted[i].start && out[i].text == sorted[i].text && TrimmedEndHolds(sorted, i, out[i].end)
  {
    var out := seq(|sorted|, i requires 0 <= i < |sorted| => LyricRow(sorted[i].start, TrimmedEnd(sorted, i), sorted[i].text));
    forall i | 0 <= i < |out|
      ensures out[i].start == sorted[i].start && out[i].text == sorted[i].text && out[i].end == TrimmedEnd(sorted, i)
    {
    }
    forall i | 0 <= i < |out|
      ensures TrimmedEndHolds(sorted, i, out[i].end)
    {
      TrimmedEndFacts(sorted, i);
    }
    out
  }

  /** `assign_from_timed`: the rows with a start, sorted by start, each end
      trimmed to the next start and raised to at least `MinDur`. (Its
      `total_end` argument is not used.) Row `i` keeps the start and text of
      the `i`-th row by start, and its end is as `TrimmedEndHolds` says. */
  function AssignFromTimed(rows: seq<InputRow>): (out: seq<LyricRow>)
    ensures |out| == |Timed(rows)|
    ensures forall i, j :: 0 <= i < j < |out| ==> out[i].start <= out[j].start
    ensures forall i :: 0 <= i < |out| ==> out[i].end - out[i].start >= MinDur
    ensures forall i :: 0 <= i < |out| ==>
      out[i].start == ByStart(rows)[i].start && out[i].text == ByStart(rows)[i].text
    ensures forall i :: 0 <= i < |out| ==> TrimmedEndHolds(ByStart(rows), i, out[i].end)
  {
    Trimmed(ByStart(rows))
  }

  /** The end of each assigned row: the row's own end, the next start or
      `start + MinDur`; never later than the own end or `start + MinDur`; and
      exactly the later of those two when the own end does not run past the
      next start. A row runs into the next one only when lengthened to
      `MinDur`. */
  lemma AssignFromTimedEnds(rows: seq<InputRow>, i: int)
    requires 0 <= i < |AssignFromTimed(rows)|
    ensures var out, sorted := AssignFromTimed(rows), ByStart(rows);
      && (i + 1 < |out| ==> out[i].end <= out[i + 1].start || out[i].end == out[i].start + MinDur)
      && (out[i].end == sorted[i].end || out[i].end == out[i].start + MinDur
          || (i + 1 < |out| && out[i].end == out[i + 1].start))
      && out[i].end <= Max(sorted[i].end, out[i].start + MinDur)
      && (i + 1 == |out| || sorted[i].end <= sorted[i + 1].start ==>
          out[i].end == Max(sorted[i].end, out[i].start + MinDur))
  {
    var out, sorted := AssignFromTimed(rows), ByStart(rows);
    assert TrimmedEndHolds(sorted, i, out[i].end);
    if i + 1 < |out| {
      assert out[i + 1].start == sorted[i + 1].start;
    }
  }

  /** What the trimmed end `e` of row `i` is. */
  predicate TrimmedEndHolds(sorted: seq<LyricRow>, i: int, e: real)
    requires 0 <= i < |sorted|
  {
    var s := sorted[i].start;
    e - s >= MinDur
    && (i + 1 < |sorted| ==> e <= sorted[i + 1].start || e == s + MinDur)
    && (e == sorted[i].end || e == s + MinDur || (i + 1 < |sorted| && e == sorted[i + 1].start))
    && e <= Max(sorted[i].end, s + MinDur)
    && (i + 1 == |sorted| || sorted[i].end <= sorted[i + 1].start ==> e == Max(sorted[i].end, s + MinDur))
  }

  /** The trimmed end is the own end, the next start or `start + MinDur`. */
  lemma TrimmedEndFacts(sorted: seq<LyricRow>, i: int)
    requires 0 <= i < |sorted|
    ensures TrimmedEndHolds(sorted, i, TrimmedEnd(sorted, i))
  {
  }

  /** Rows at least `MinDur` apart do not overlap once assigned. */
  lemma AssignFromTimedApart(rows: seq<InputRow>, i: int)
    requires 0 <= i < |AssignFromTimed(rows)| - 1
    requires AssignFromTimed(rows)[i + 1].start - AssignFromTimed(rows)[i].start >= MinDur
    ensures AssignFromTimed(rows)[i].end <= AssignFromTimed(rows)[i + 1].start
  {
    AssignFromTimedEnds(rows, i);
  }

  /** The start and text of each row. */
  function Keys(rows: seq<LyricRow>): (ks: seq<(real, string)>)
    ensures |ks| == |rows|
  {
    if |rows| == 0 then [] else [(rows[0].start, rows[0].text)] + Keys(rows[1..])
  }

  /** Rows that agree in start and text, row by row, have the same keys. */
  lemma {:induction false} KeysPointwise(u: seq<LyricRow>, v: seq<LyricRow>)
    requires |u| == |v| && forall i :: 0 <= i < |u| ==> u[i].start == v[i].start && u[i].text == v[i].text
    ensures Keys(u) == Keys(v)
    decreases |u|
  {
    if |u| > 0 {
      KeysPointwise(u[1..], v[1..]);
    }
  }

  lemma {:induction false} KeysAppend(u: seq<LyricRow>, v: seq<LyricRow>)
    ensures Keys(u + v) == Keys(u) + Keys(v)
    decreases |u|
  {
    if |u| == 0 {
      assert u + v == v;
    } else {
      assert (u + v)[1..] == u[1..] + v;
      KeysAppend(u[1..], v);
    }
  }

  /** Inserting a row adds its key. */
  lemma {:induction false} KeysInsert(s: seq<LyricRow>, x: LyricRow, leq: (LyricRow, LyricRow) -> bool)
    ensures multiset(Keys(Insert(s, x, leq))) == multiset(Keys(s)) + multiset{(x.start, x.text)}
    decreases |s|
  {
    if |s| == 0 {
      assert Insert(s, x, leq) == [x];
      assert [x][1..] == [];
    } else if leq(s[0], x) {
      var r := Insert(s[1..], x, leq);
      KeysInsert(s[1..], x, leq);
      assert ([s[0]] + r)[1..] == r;
    } else {
      assert ([x] + s)[1..] == s;
    }
  }

  lemma KeysOne(x: LyricRow)
    ensures Keys([x]) == [(x.start, x.text)]
  {
    assert [x][1..] == [];
  }

  /** The keys of rows with one more row at the end. */
  lemma KeysLast(init: seq<LyricRow>, last: LyricRow)
    ensures multiset(Keys(init + [last])) == multiset(Keys(init)) + multiset{(last.start, last.text)}
  {
    KeysAppend(init, [last]);
    KeysOne(last);
  }

  /** The keys of rows are those of all but the last, and the last one's. */
  lemma KeysInitLast(s: seq<LyricRow>)
    requires |s| > 0
    ensures multiset(Keys(s)) == multiset(Keys(s[..|s| - 1])) + multiset{(s[|s| - 1].start, s[|s| - 1].text)}
  {
    var init, last := s[..|s| - 1], s[|s| - 1];
    InitLast(s);
    KeysLast(init, last);
  }

  lemma InitLast<T>(s: seq<T>)
    requires |s| > 0
    ensures s[..|s| - 1] + [s[|s| - 1]] == s
  {
  }

  /** Sorting rows rearranges their keys alike. */
  lemma {:induction false} KeysSort(s: seq<LyricRow>, leq: (LyricRow, LyricRow) -> bool)
    ensures multiset(Keys(Sort(s, leq))) == multiset(Keys(s))
    decreases |s|
  {
    if |s| > 0 {
      var init, last := s[..|s| - 1], s[|s| - 1];
      var sorted := Sort(init, leq);
      assert Sort(s, leq) == Insert(sorted, last, leq);
      KeysSort(init, leq);
      KeysInsert(sorted, last, leq);
      KeysInitLast(s);
    }
  }

  /** The assigned rows are the rows with a start, rearranged, with the same
      starts and texts. */
  lemma AssignFromTimedPermutes(rows: seq<InputRow>)
    ensures multiset(Keys(AssignFromTimed(rows))) == multiset(Keys(Timed(rows)))
  {
    var sorted := ByStart(rows);
    KeysPointwise(AssignFromTimed(rows), sorted);
    KeysSort(Timed(rows), KeyLeq(StartOf));
  }

  // ---------------------------------------------------------------------------
  // The aligner
  // ---------------------------------------------------------------------------

  /** `any("start" in r or "end" in r for r in rows)`. */
  predicate HasTimed(rows: seq<InputRow>) {
    exists i :: 0 <= i < |rows| && (rows[i].start.Some? || rows[i].end.Some?)
  }

  /** A normalised row has an end only with a start, so the rows count as
      timed exactly when one of them has a start. */
  lemma {:induction false} HasTimedIffStarts(raw: seq<RawRow>)
    ensures HasTimed(NormRows(raw)) <==> |Timed(NormRows(raw))| > 0
    decreases |raw|
  {
    if |raw| > 0 {
      HasTimedIffStarts(raw[1..]);
      var rows := NormRows(raw);
      var rest := NormRows(raw[1..]);
      if raw[0].text.Some? {
        var r := NormRow(raw[0]);
        assert rows == [r] + rest;
        assert Timed(rows) == (if r.start.Some? then [LyricRow(r.start.value, if r.end.Some? then r.end.value else r.start.value + MinDur, r.text)] else []) + Timed(rest) by {
          assert rows[1..] == rest;
        }
        assert HasTimed(rows) <==> (r.start.Some? || r.end.Some?) || HasTimed(rest) by {
          assert forall i :: 0 < i < |rows| ==> rows[i] == rest[i - 1];
        }
      } else {
        assert rows == rest;
      }
    }
  }

  /** The texts of the rows, in order. */
  function Texts(rows: seq<InputRow>): (ts: seq<string>)
    ensures |ts| == |rows| && forall i :: 0 <= i < |rows| ==> ts[i] == rows[i].text
  {
    seq(|rows|, i requires 0 <= i < |rows| => rows[i].text)
  }

  /** Each line takes its span, lengthened to at least `MinDur`. */
  function Lengthened(spans: seq<Span>, texts: seq<string>): (rows: seq<LyricRow>)
    requires |spans| == |texts|
    ensures |rows| == |texts|
    ensures forall i :: 0 <= i < |rows| ==>
      rows[i].text == texts[i] && rows[i].start == spans[i].start && rows[i].end == Max(spans[i].end, spans[i].start + MinDur)
  {
    seq(|texts|, i requires 0 <= i < |texts| => LyricRow(spans[i].start, MinDurEnd(spans[i].start, spans[i].end), texts[i]))
  }

  /** The spans `main` lays the lines over when no segment was voiced. */
  function DummySpans(n: nat): (r: seq<Span>)
    ensures |r| == n
  {
    EqualSlices(n, Max(FallbackSeconds, SecondsPerLine * n as real))
  }

  /** The untimed path of `main`: equal slices of `max(180, 2n)` seconds
      stand in for missing segments, the segments are matched to the lines,
      and each line's span is lengthened to `MinDur`. */
  function UntimedRows(segs: seq<Span>, texts: seq<string>): (rows: seq<LyricRow>)
    ensures |rows| == |texts|
    ensures forall i :: 0 <= i < |rows| ==> rows[i].text == texts[i] && rows[i].end - rows[i].start >= MinDur
    ensures |segs| > 0 && |texts| > 0 ==> rows[0].start == segs[0].start
  {
    var base := if |segs| == 0 then DummySpans(|texts|) else segs;
    Lengthened(SplitOrMerge(base, |texts|), texts)
  }

  /** Spans of at least `MinDur` are left as they are. */
  lemma LengthenedKeeps(spans: seq<Span>, texts: seq<string>)
    requires |spans| == |texts|
    requires forall i :: 0 <= i < |spans| ==> spans[i].end - spans[i].start >= MinDur
    ensures RowsOf(spans, texts) == Lengthened(spans, texts)
  {
  }

  /** The dummy slices are each at least `SecondsPerLine` long. */
  lemma DummySpansLong(n: nat)
    requires n > 0
    ensures forall i :: 0 <= i < n ==> DummySpans(n)[i].end - DummySpans(n)[i].start >= SecondsPerLine
  {
    var total := Max(FallbackSeconds, SecondsPerLine * n as real);
    DivAtLeast(total, SecondsPerLine, n);
  }

  /** Without segments the lines take equal back-to-back slices of
      `max(180, 2n)` seconds from 0; `split_or_merge`'s own stand-in for no
      segments is never reached from `main`. */
  lemma UntimedWithoutSegments(texts: seq<string>)
    requires |texts| > 0
    ensures UntimedRows([], texts) == RowsOf(DummySpans(|texts|), texts)
  {
    var n := |texts|;
    var base := DummySpans(n);
    assert SplitOrMerge(base, n) == base;
    DummySpansLong(n);
    LengthenedKeeps(base, texts);
  }

  /** `t >= c * n` gives `t / n >= c`. */
  lemma DivAtLeast(t: real, c: real, n: nat)
    requires n > 0 && t >= c * n as real
    ensures t / n as real >= c
  {
  }

  /** `main`: the voiced segments of the reference track, the input rows,
      and then either the timed rows or the untimed lines laid over the
      segments. */
  method AlignLyrics(track: seq<Frame>, raw: RawDoc) returns (r: Result<seq<LyricRow>, InputError>)
    ensures r.Err? <==> raw.lines.None? && raw.lyrics.None?
    ensures r.Ok? ==> forall i :: 0 <= i < |r.value| ==> r.value[i].end - r.value[i].start >= MinDur
    ensures r.Ok? && HasTimed(DetectInputRows(raw).value) ==> |r.value| == |Timed(DetectInputRows(raw).value)|
    ensures r.Ok? && !HasTimed(DetectInputRows(raw).value) ==>
      |r.value| == |DetectInputRows(raw).value| &&
      forall i :: 0 <= i < |r.value| ==> r.value[i].text == DetectInputRows(raw).value[i].text
    ensures r.Ok? && HasTimed(DetectInputRows(raw).value) ==> r.value == AssignFromTimed(DetectInputRows(raw).value)
    ensures r.Ok? && !HasTimed(DetectInputRows(raw).value) ==>
      r.value == UntimedRows(Segments(track), Texts(DetectInputRows(raw).value))
  {
    var runs, segs := VoicedSegments(track);
    var input := DetectInputRows(raw);
    if input.Err? {
      return Err(input.error);
    }
    var rows := input.value;
    if HasTimed(rows) {
      r := Ok(AssignFromTimed(rows));
    } else {
      r := Ok(UntimedRows(segs, Texts(rows)));
    }
  }
}
