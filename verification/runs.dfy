/** Collapsing a boolean frame mask into half-open runs `[start, end)` of true
    frames. Three loops in the scripts do this: `segment_mask` with a `False`
    sentinel (tools/02), `seg_from_mask` closing a run on the last index
    (tools/08), and the nested `while` of `group_events` (tools/01). Each is
    proved to return exactly the maximal runs of at least a minimum length, in
    ascending order; so, by `RunListUnique`, they all return the same list. */
module Runs {

  /** The frames `start <= k < end`. */
  datatype Run = Run(start: int, end: int) {
    function Len(): int {
      end - start
    }
  }

  predicate AllTrue(mask: seq<bool>, s: int, e: int)
    requires 0 <= s <= e <= |mask|
  {
    forall k :: s <= k < e ==> mask[k]
  }

  /** `r` is a non-empty run of true frames that cannot be extended either way. */
  predicate IsMaximalRun(mask: seq<bool>, r: Run) {
    0 <= r.start < r.end <= |mask|
    && AllTrue(mask, r.start, r.end)
    && (r.start == 0 || !mask[r.start - 1])
    && (r.end == |mask| || !mask[r.end])
  }

  /** Each run ends strictly before the next one starts. */
  predicate Separated(runs: seq<Run>) {
    forall a, b :: 0 <= a < b < |runs| ==> runs[a].end < runs[b].start
  }

  /** `runs` lists, in ascending order, exactly the maximal true runs of `mask`
      that are at least `minLen` frames long. */
  ghost predicate IsRunList(mask: seq<bool>, minLen: int, runs: seq<Run>) {
    Separated(runs)
    && (forall i :: 0 <= i < |runs| ==> IsMaximalRun(mask, runs[i]) && runs[i].Len() >= minLen)
    && (forall r :: IsMaximalRun(mask, r) && r.Len() >= minLen ==> r in runs)
  }

  /** A maximal run ending where a known all-true stretch ends starts where that stretch starts. */
  lemma SameEndSameStart(mask: seq<bool>, s: int, e: int, r: Run)
    requires 0 <= s < e <= |mask| && AllTrue(mask, s, e) && (s == 0 || !mask[s - 1])
    requires IsMaximalRun(mask, r) && r.end == e
    ensures r.start == s
  {
    assert s > 0 ==> !mask[s - 1];
    assert r.start > 0 ==> !mask[r.start - 1];
  }

  /** Every run has at least one frame. */
  predicate NonEmptyRuns(runs: seq<Run>) {
    forall i :: 0 <= i < |runs| ==> runs[i].start < runs[i].end
  }

  /** A later element of a separated list is not its head. */
  lemma NotHead(x: seq<Run>, r: Run)
    requires Separated(x) && NonEmptyRuns(x) && |x| > 0
    requires r in x[1..]
    ensures r in x && r != x[0]
  {
    var i :| 0 <= i < |x[1..]| && x[1..][i] == r;
    assert x[i + 1] == r;
    assert x[0].end < x[i + 1].start;
  }

  /** The head of a separated list has the least start. */
  lemma HeadLeast(x: seq<Run>, r: Run)
    requires Separated(x) && NonEmptyRuns(x) && r in x
    ensures x[0].start <= r.start
  {
    var i :| 0 <= i < |x| && x[i] == r;
    assert i == 0 || x[0].end < x[i].start;
  }

  /** In a separated list, a start belongs to one position only. */
  lemma StartDetermines(x: seq<Run>, a: int, b: int)
    requires Separated(x) && NonEmptyRuns(x)
    requires 0 <= a < |x| && 0 <= b < |x| && x[a].start == x[b].start
    ensures a == b
  {
  }

  lemma NotHeadTail(x: seq<Run>, r: Run)
    requires |x| > 0 && r in x && r != x[0]
    ensures r in x[1..]
  {
    var i :| 0 <= i < |x| && x[i] == r;
    assert x[1..][i - 1] == r;
  }

  lemma SeparatedTail(x: seq<Run>)
    requires Separated(x) && NonEmptyRuns(x) && |x| > 0
    ensures Separated(x[1..]) && NonEmptyRuns(x[1..])
  {
    forall a, b | 0 <= a < b < |x[1..]|
      ensures x[1..][a].end < x[1..][b].start
    {
      assert x[1..][a] == x[a + 1] && x[1..][b] == x[b + 1];
    }
    forall a | 0 <= a < |x[1..]|
      ensures x[1..][a].start < x[1..][a].end
    {
      assert x[1..][a] == x[a + 1];
    }
  }

  /** Two ascending run lists with the same members are the same list. */
  lemma {:induction false} SameMembersSameList(x: seq<Run>, y: seq<Run>)
    requires Separated(x) && Separated(y) && NonEmptyRuns(x) && NonEmptyRuns(y)
    requires forall r :: r in x <==> r in y
    ensures x == y
    decreases |x|
  {
    if |x| == 0 {
      forall r
        ensures multiset(y)[r] == 0
      {
        assert r !in y;
      }
      assert multiset(y) == multiset{};
      assert |multiset(y)| == |y|;
    } else {
      assert x[0] in y;
      HeadLeast(x, y[0]);
      HeadLeast(y, x[0]);
      var k :| 0 <= k < |x| && x[k] == y[0];
      StartDetermines(x, 0, k);
      forall r
        ensures r in x[1..] <==> r in y[1..]
      {
        if r in x[1..] {
          NotHead(x, r);
          NotHeadTail(y, r);
        }
        if r in y[1..] {
          NotHead(y, r);
          NotHeadTail(x, r);
        }
      }
      SeparatedTail(x);
      SeparatedTail(y);
      SameMembersSameList(x[1..], y[1..]);
      assert x == [x[0]] + x[1..] && y == [y[0]] + y[1..];
    }
  }

  /** The maximal runs of a given minimum length are determined by the mask. */
  lemma RunListUnique(mask: seq<bool>, minLen: int, x: seq<Run>, y: seq<Run>)
    requires IsRunList(mask, minLen, x) && IsRunList(mask, minLen, y)
    ensures x == y
  {
    forall r
      ensures r in x <==> r in y
    {
      if r in x {
        var i :| 0 <= i < |x| && x[i] == r;
      }
      if r in y {
        var i :| 0 <= i < |y| && y[i] == r;
      }
    }
    SameMembersSameList(x, y);
  }

  /** The start of the all-true stretch holding `i`. */
  function StretchStart(mask: seq<bool>, i: int): (r: int)
    requires 0 <= i < |mask| && mask[i]
    ensures 0 <= r <= i && AllTrue(mask, r, i + 1) && (r == 0 || !mask[r - 1])
    decreases i
  {
    if i == 0 || !mask[i - 1] then i else StretchStart(mask, i - 1)
  }

  /** One past the end of the all-true stretch holding `i`. */
  function StretchEnd(mask: seq<bool>, i: int): (r: int)
    requires 0 <= i < |mask| && mask[i]
    ensures i < r <= |mask| && AllTrue(mask, i, r) && (r == |mask| || !mask[r])
    decreases |mask| - i
  {
    if i == |mask| - 1 || !mask[i + 1] then i + 1 else StretchEnd(mask, i + 1)
  }

  /** The maximal runs of true frames of `mask` from frame `i` on, in
      order: the reference the loops below are measured against. */
  function MaximalRuns(mask: seq<bool>, i: int): (runs: seq<Run>)
    requires 0 <= i <= |mask|
    ensures forall k :: 0 <= k < |runs| ==> i <= runs[k].start < runs[k].end <= |mask|
    decreases |mask| - i
  {
    if i == |mask| then []
    else if !mask[i] then MaximalRuns(mask, i + 1)
    else [Run(i, StretchEnd(mask, i))] + MaximalRuns(mask, StretchEnd(mask, i))
  }

  /** No true stretch crosses from frame `i - 1` into frame `i`. */
  predicate Cut(mask: seq<bool>, i: int)
    requires 0 <= i <= |mask|
  {
    i == 0 || i == |mask| || !mask[i - 1] || !mask[i]
  }

  /** From a cut on, `MaximalRuns` lists exactly the maximal runs that start
      there or later, in ascending order. */
  lemma {:induction false} MaximalRunsFrom(mask: seq<bool>, i: int)
    requires 0 <= i <= |mask| && Cut(mask, i)
    ensures var runs := MaximalRuns(mask, i);
      Separated(runs)
      && (forall k :: 0 <= k < |runs| ==> IsMaximalRun(mask, runs[k]))
      && (forall r :: IsMaximalRun(mask, r) && r.start >= i ==> r in runs)
    decreases |mask| - i
  {
    var runs := MaximalRuns(mask, i);
    if i == |mask| {
      forall r | IsMaximalRun(mask, r)
        ensures r.start < i
      {
      }
    } else if !mask[i] {
      MaximalRunsFrom(mask, i + 1);
      forall r | IsMaximalRun(mask, r) && r.start >= i
        ensures r.start >= i + 1
      {
        assert mask[r.start];
      }
    } else {
      var e := StretchEnd(mask, i);
      var rest := MaximalRuns(mask, e);
      MaximalRunsFrom(mask, e);
      assert runs == [Run(i, e)] + rest;
      assert IsMaximalRun(mask, Run(i, e));
      forall k | 0 <= k < |rest|
        ensures e < rest[k].start
      {
        assert mask[rest[k].start];
      }
      ConsRuns(mask, Run(i, e), rest);
      HeadThenRest(mask, i, e, rest);
    }
  }

  /** A maximal run put before separated maximal runs that start after it
      ends keeps the list separated and maximal. */
  lemma ConsRuns(mask: seq<bool>, x: Run, rest: seq<Run>)
    requires IsMaximalRun(mask, x) && forall k :: 0 <= k < |rest| ==> IsMaximalRun(mask, rest[k]) && x.end < rest[k].start
    requires Separated(rest)
    ensures Separated([x] + rest)
    ensures forall k :: 0 <= k < |[x] + rest| ==> IsMaximalRun(mask, ([x] + rest)[k])
  {
  }

  /** A maximal run from `i` on is the one starting at `i` or, starting
      after the stretch `[i, e)`, one of the runs from `e` on. */
  lemma HeadThenRest(mask: seq<bool>, i: int, e: int, rest: seq<Run>)
    requires 0 <= i < e <= |mask| && IsMaximalRun(mask, Run(i, e))
    requires forall r :: IsMaximalRun(mask, r) && r.start >= e ==> r in rest
    ensures forall r :: IsMaximalRun(mask, r) && r.start >= i ==> r in [Run(i, e)] + rest
  {
    forall r | IsMaximalRun(mask, r) && r.start >= i
      ensures r in [Run(i, e)] + rest
    {
      if r.start == i {
        StartDeterminesEnd(mask, r, Run(i, e));
      } else {
        assert !mask[r.start - 1];
        assert r in rest;
      }
    }
  }

  /** Two maximal runs with the same start are the same run. */
  lemma StartDeterminesEnd(mask: seq<bool>, r: Run, q: Run)
    requires IsMaximalRun(mask, r) && IsMaximalRun(mask, q) && r.start == q.start
    ensures r == q
  {
    assert r.end < |mask| ==> !mask[r.end];
    assert q.end < |mask| ==> !mask[q.end];
  }

  /** `MaximalRuns(mask, 0)` is the run list of `mask`. */
  lemma MaximalRunsList(mask: seq<bool>)
    ensures IsRunList(mask, 1, MaximalRuns(mask, 0))
  {
    MaximalRunsFrom(mask, 0);
  }

  /** `segment_mask` (tools/02): scan the mask followed by one `False` sentinel,
      opening a run at a true frame and closing it at the next false one. */
  method SegmentMask(mask: seq<bool>, minLen: int) returns (out: seq<Run>)
    ensures IsRunList(mask, minLen, out)
  {
    var ext := mask + [false];
    var n := |mask|;
    out := [];
    var open := false;
    var s := 0;
    for i := 0 to |ext|
      invariant open ==> 0 <= s < i <= n && AllTrue(mask, s, i) && (s == 0 || !mask[s - 1])
      invariant !open && 0 < i <= n ==> !mask[i - 1]
      invariant forall a :: 0 <= a < |out| ==> IsMaximalRun(mask, out[a]) && out[a].Len() >= minLen
      invariant forall a :: 0 <= a < |out| ==> out[a].end < i
      invariant open ==> forall a :: 0 <= a < |out| ==> out[a].end < s
      invariant Separated(out)
      invariant forall r :: IsMaximalRun(mask, r) && r.Len() >= minLen && r.end < i ==> r in out
    {
      if ext[i] && !open {
        s := i;
        open := true;
      } else if !ext[i] && open {
        out := CloseRun(mask, minLen, out, s, i);
        open := false;
      }
    }
  }

  /** What `seg_from_mask` knows before index `i`: an open run started at `s`
      is all true so far, and every closed maximal run long enough is listed. */
  ghost predicate SegInvariant(mask: seq<bool>, minLen: int, out: seq<Run>, i: int, open: bool, s: int) {
    var n := |mask|;
    0 <= i <= n
    && (open ==> 0 <= s < i < n && AllTrue(mask, s, i) && (s == 0 || !mask[s - 1]))
    && (!open && 0 < i < n ==> !mask[i - 1])
    && (forall a :: 0 <= a < |out| ==> IsMaximalRun(mask, out[a]) && out[a].Len() >= minLen)
    && (forall a :: 0 <= a < |out| ==> out[a].end <= i)
    && (open ==> forall a :: 0 <= a < |out| ==> out[a].end < s)
    && Separated(out)
    && (forall r :: IsMaximalRun(mask, r) && r.Len() >= minLen && r.end < i ==> r in out)
    && (!open ==> forall r :: IsMaximalRun(mask, r) && r.Len() >= minLen && r.end <= i ==> r in out)
  }

  /** `seg_from_mask` (tools/08): a run is closed at the first false frame, or at
      the last index, where its end is one past that index. */
  method SegFromMask(mask: seq<bool>, minLen: int) returns (out: seq<Run>)
    ensures IsRunList(mask, minLen, out)
  {
    var n := |mask|;
    out := [];
    var open := false;
    var s := 0;
    for i := 0 to n
      invariant SegInvariant(mask, minLen, out, i, open, s)
    {
      out, open, s := SegStep(mask, minLen, out, i, open, s);
    }
  }

  /** One index of `seg_from_mask`: open a run at a true frame; close it at a
      false frame or at the last index. */
  method SegStep(mask: seq<bool>, minLen: int, out: seq<Run>, i: int, open: bool, s: int)
    returns (out': seq<Run>, open': bool, s': int)
    requires i < |mask| && SegInvariant(mask, minLen, out, i, open, s)
    ensures SegInvariant(mask, minLen, out', i + 1, open', s')
  {
    var n := |mask|;
    out', open', s' := out, open, s;
    var flag := mask[i];
    if flag && !open' {
      s' := i;
      open' := true;
    }
    if (!flag || i == n - 1) && open' {
      var e := if !flag then i else i + 1;
      out' := CloseRun(mask, minLen, out', s', e);
      open' := false;
    }
  }

  /** Closing the open run `[s, e)` when every earlier maximal run is already
      listed: the run is maximal, and after appending it when it is long enough,
      every maximal run ending by `e` is listed. */
  method CloseRun(mask: seq<bool>, minLen: int, out: seq<Run>, s: int, e: int) returns (out': seq<Run>)
    requires 0 <= s < e <= |mask| && AllTrue(mask, s, e) && (s == 0 || !mask[s - 1])
    requires e == |mask| || !mask[e]
    requires Separated(out)
    requires forall a :: 0 <= a < |out| ==> IsMaximalRun(mask, out[a]) && out[a].Len() >= minLen
    requires forall a :: 0 <= a < |out| ==> out[a].end < s
    requires forall r :: IsMaximalRun(mask, r) && r.Len() >= minLen && r.end < e ==> r in out
    ensures out' == if e - s >= minLen then out + [Run(s, e)] else out
    ensures Separated(out')
    ensures forall a :: 0 <= a < |out'| ==> IsMaximalRun(mask, out'[a]) && out'[a].Len() >= minLen
    ensures forall a :: 0 <= a < |out'| ==> out'[a].end <= e
    ensures forall r :: IsMaximalRun(mask, r) && r.Len() >= minLen && r.end <= e ==> r in out'
  {
    forall r | IsMaximalRun(mask, r) && r.end == e
      ensures r == Run(s, e)
    {
      SameEndSameStart(mask, s, e, r);
    }
    out' := if e - s >= minLen then out + [Run(s, e)] else out;
  }

  /** The index walk of `group_events` (tools/01): skip false frames, then extend
      `j` over the true ones; every maximal run is reported. */
  method FlagRuns(flags: seq<bool>) returns (out: seq<Run>)
    ensures IsRunList(flags, 1, out)
  {
    var n := |flags|;
    out := [];
    var i := 0;
    while i < n
      invariant 0 <= i <= n
      invariant 0 < i < n && flags[i] ==> !flags[i - 1]
      invariant forall a :: 0 <= a < |out| ==> IsMaximalRun(flags, out[a])
      invariant forall a :: 0 <= a < |out| ==> out[a].end <= i
      invariant Separated(out)
      invariant forall r :: IsMaximalRun(flags, r) && r.end <= i ==> r in out
    {
      if !flags[i] {
        i := i + 1;
        continue;
      }
      var j := i;
      while j < n && flags[j]
        invariant i <= j <= n && AllTrue(flags, i, j)
      {
        j := j + 1;
      }
      forall r | IsMaximalRun(flags, r) && r.end <= j
        ensures r in out + [Run(i, j)]
      {
        assert r.end == n || !flags[r.end];
        if r.end == j {
          SameEndSameStart(flags, i, j, r);
        }
      }
      out := out + [Run(i, j)];
      i := j;
    }
  }
}
