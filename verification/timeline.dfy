/** Lyric rows on the song's time line, and the even layout several scripts
    fall back to when no timing is known: `n` equal, back-to-back slices of a
    total duration starting at 0. */
module Timeline {
  import opened Numeric

  /** When the song's length is unknown, a line gets 2 seconds, and the
      lines together at least 3 minutes where a script asks for that. */
  const SecondsPerLine: real := 2.0
  const FallbackSeconds: real := 180.0

  /** A time span `(start, end)` in seconds. */
  datatype Span = Span(start: real, end: real)

  /** A lyric row `{"start": ..., "end": ..., "text": ...}`. */
  datatype LyricRow = LyricRow(start: real, end: real, text: string)

  /** The spans lie back to back: each starts where the previous one ends. */
  predicate Contiguous(spans: seq<Span>) {
    forall i :: 0 < i < |spans| ==> spans[i - 1].end == spans[i].start
  }

  /** The rows lie back to back. */
  predicate RowsContiguous(rows: seq<LyricRow>) {
    forall i :: 0 < i < |rows| ==> rows[i - 1].end == rows[i].start
  }

  /** `[(i * seg, (i + 1) * seg) for i in range(n)]` with `seg = total / n`. */
  function EqualSlices(n: nat, total: real): (r: seq<Span>)
    ensures |r| == n
    ensures Contiguous(r)
    ensures n > 0 ==> r[0].start == 0.0 && r[n - 1].end == total
    ensures forall i :: 0 <= i < n ==> r[i].end - r[i].start == total / n as real
  {
    if n == 0 then []
    else
      var seg := total / n as real;
      var r := seq(n, i requires 0 <= i < n => Span(FramesTime(i, seg), FramesTime(i + 1, seg)));
      SlicesCover(n, total);
      forall i | 0 <= i < n
        ensures r[i].end - r[i].start == seg
      {
        FramesTimeAdd(i, 1, seg);
      }
      r
  }

  /** Spans that start at 0, lie back to back and share one length are the
      equal slices of their total. */
  lemma {:induction false} EqualSlicesUnique(spans: seq<Span>, total: real)
    requires |spans| > 0 && spans[0].start == 0.0 && Contiguous(spans)
    requires spans[|spans| - 1].end == total
    requires forall i :: 0 <= i < |spans| ==> spans[i].end - spans[i].start == spans[0].end - spans[0].start
    ensures spans == EqualSlices(|spans|, total)
  {
    var n := |spans|;
    var d := spans[0].end - spans[0].start;
    StartsAtMultiples(spans, d, n - 1);
    FramesTimeAdd(n - 1, 1, d);
    SliceOfWhole(n, d);
    var r := EqualSlices(n, total);
    forall i | 0 <= i < n
      ensures spans[i] == r[i]
    {
      StartsAtMultiples(spans, d, i);
      StartsAtMultiples(r, d, i);
    }
  }

  /** `n` slices of `total / n` make up `total`. */
  lemma SlicesCover(n: nat, total: real)
    requires n > 0
    ensures FramesTime(n, total / n as real) == total
  {
  }

  /** A total of `n` slices of length `d` is cut back into slices of length `d`. */
  lemma SliceOfWhole(n: nat, d: real)
    requires n > 0
    ensures FramesTime(n, d) / n as real == d
  {
  }

  /** In back-to-back spans of length `d` from 0, the `k`-th starts at `k * d`. */
  lemma {:induction false} StartsAtMultiples(spans: seq<Span>, d: real, k: nat)
    requires |spans| > 0 && spans[0].start == 0.0 && Contiguous(spans)
    requires forall i :: 0 <= i < |spans| ==> spans[i].end - spans[i].start == d
    requires k < |spans|
    ensures spans[k].start == FramesTime(k, d)
    decreases k
  {
    if k > 0 {
      StartsAtMultiples(spans, d, k - 1);
      FramesTimeAdd(k - 1, 1, d);
    }
  }

  /** Rows that take their times from the spans and their texts from the
      lines, pairwise. */
  function RowsOf(spans: seq<Span>, texts: seq<string>): (rows: seq<LyricRow>)
    requires |spans| == |texts|
    ensures |rows| == |texts|
    ensures forall i :: 0 <= i < |rows| ==> rows[i].start == spans[i].start && rows[i].end == spans[i].end && rows[i].text == texts[i]
  {
    seq(|texts|, i requires 0 <= i < |texts| => LyricRow(spans[i].start, spans[i].end, texts[i]))
  }
}
