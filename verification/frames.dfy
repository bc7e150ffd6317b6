/** Pitch frames and their alignment: mapping each reference frame time to the
    nearest user frame, voicing, and the cents difference of two frequencies.

    Two implementations of the nearest-frame mapping exist in the scripts: the
    two-index walk of tools/02_compare_with_reference.py and the
    `searchsorted` + `clip` form shared by tools/05, 06 and 08. Both are here,
    each proved to pick a nearest frame, and proved to agree on strictly
    increasing user times. */
module Frames {
  import opened Wrappers
  import opened Numeric

  /** One entry of a pitch track: the frame time in seconds and its f0, absent
      for a JSON null (numpy NaN). */
  datatype Frame = Frame(t: real, f0: Option<real>)

  /** A pitch file: `sr` and `hop`, absent when the key is missing, and the track. */
  datatype PitchFile = PitchFile(sr: Option<real>, hop: Option<real>, track: seq<Frame>)

  function Times(track: seq<Frame>): (ts: seq<real>)
    ensures |ts| == |track| && forall i :: 0 <= i < |track| ==> ts[i] == track[i].t
  {
    seq(|track|, i requires 0 <= i < |track| => track[i].t)
  }

  function Freqs(track: seq<Frame>): (fs: seq<Option<real>>)
    ensures |fs| == |track| && forall i :: 0 <= i < |track| ==> fs[i] == track[i].f0
  {
    seq(|track|, i requires 0 <= i < |track| => track[i].f0)
  }

  /** Frame times in ascending (possibly repeating) order. */
  predicate NonDecreasing(t: seq<real>) {
    forall i, j :: 0 <= i < j < |t| ==> t[i] <= t[j]
  }

  predicate StrictlyIncreasing(t: seq<real>) {
    forall i, j :: 0 <= i < j < |t| ==> t[i] < t[j]
  }

  /** Frame `k` of `t` is as close to `x` as any other frame. */
  predicate IsNearest(t: seq<real>, x: real, k: int) {
    0 <= k < |t| && forall i :: 0 <= i < |t| ==> Abs(t[k] - x) <= Abs(t[i] - x)
  }

  /** Every frame before `k` is strictly farther from `x` than frame `k` (ties go earlier). */
  predicate EarlierAreFarther(t: seq<real>, x: real, k: int)
    requires 0 <= k < |t|
  {
    forall i :: 0 <= i < k ==> Abs(t[k] - x) < Abs(t[i] - x)
  }

  lemma StrictIsNonDecreasing(t: seq<real>)
    requires StrictlyIncreasing(t)
    ensures NonDecreasing(t)
  {
  }

  /** At most one frame is nearest with every earlier frame strictly farther. */
  lemma NearestUnique(t: seq<real>, x: real, a: int, b: int)
    requires IsNearest(t, x, a) && EarlierAreFarther(t, x, a)
    requires IsNearest(t, x, b) && EarlierAreFarther(t, x, b)
    ensures a == b
  {
    assert Abs(t[a] - x) == Abs(t[b] - x);
  }

  // ---------------------------------------------------------------------------
  // The searchsorted + clip form (tools/05, 06, 08)
  // ---------------------------------------------------------------------------

  /** `np.searchsorted(a, x)` (side "left"): the first index whose element is not
      below `x`, or `|a|`. On sorted `a` this is the leftmost insertion point. */
  function SearchSorted(a: seq<real>, x: real): (i: nat)
    ensures i <= |a|
    ensures forall k :: 0 <= k < i ==> a[k] < x
    ensures i < |a| ==> x <= a[i]
  {
    if |a| == 0 then 0
    else if x <= a[0] then 0
    else 1 + SearchSorted(a[1..], x)
  }

  /** `np.clip(i, lo, hi)`, which is `min(max(i, lo), hi)` even when `lo > hi`. */
  function Clip(i: int, lo: int, hi: int): int {
    var m := if i < lo then lo else i;
    if m > hi then hi else m
  }

  /** numpy/Python indexing: a negative index counts from the end. */
  function PyIndex<T>(s: seq<T>, i: int): T
    requires -|s| <= i < |s|
  {
    if i >= 0 then s[i] else s[|s| + i]
  }

  /** The frame a (possibly negative) numpy index denotes. */
  function Resolve(n: nat, i: int): int {
    if i < 0 then n + i else i
  }

  /** `align_on_ref` for one reference time `x`: clip the insertion point into
      `[1, n - 1]`, then take the left neighbour unless the right one is strictly
      closer. With one user frame the clip yields 0 and the answer is index -1,
      which numpy reads as that same frame. The scripts index an empty user track
      out of range; that crash is the precondition. */
  function AlignOnRef(tU: seq<real>, x: real): (r: int)
    requires |tU| >= 1
    ensures -1 <= r < |tU|
    ensures r == -1 <==> |tU| == 1
    ensures NonDecreasing(tU) ==> IsNearest(tU, x, Resolve(|tU|, r))
    ensures StrictlyIncreasing(tU) ==> EarlierAreFarther(tU, x, Resolve(|tU|, r))
  {
    var n := |tU|;
    var idx := Clip(SearchSorted(tU, x), 1, n - 1);
    var r := if Abs(PyIndex(tU, idx - 1) - x) <= Abs(tU[idx] - x) then idx - 1 else idx;
    if n >= 2 then
      SearchSortedNearest(tU, x, idx, r);
      r
    else r
  }

  lemma SearchSortedNearest(t: seq<real>, x: real, idx: int, r: int)
    requires |t| >= 2
    requires idx == Clip(SearchSorted(t, x), 1, |t| - 1)
    requires r == if Abs(t[idx - 1] - x) <= Abs(t[idx] - x) then idx - 1 else idx
    ensures NonDecreasing(t) ==> IsNearest(t, x, r)
    ensures StrictlyIncreasing(t) ==> EarlierAreFarther(t, x, r)
  {
    var n := |t|;
    var ss := SearchSorted(t, x);
    if NonDecreasing(t) {
      forall k | ss <= k < n
        ensures x <= t[k]
      {
        assert x <= t[ss] <= t[k];
      }
      forall i | 0 <= i < n
        ensures Abs(t[r] - x) <= Abs(t[i] - x)
      {
        if i < idx - 1 {
          assert t[i] <= t[idx - 1];
        } else if i > idx {
          assert t[idx] <= t[i];
        }
      }
    }
    if StrictlyIncreasing(t) {
      assert r > 0 ==> 1 <= ss;
      forall i | 0 <= i < r
        ensures Abs(t[r] - x) < Abs(t[i] - x)
      {
        assert t[idx - 1] < x;
        if i < idx - 1 {
          assert t[i] < t[idx - 1];
        }
      }
    }
  }

  // ---------------------------------------------------------------------------
  // The two-index walk (tools/02)
  // ---------------------------------------------------------------------------

  /** With `j` the last user frame at or before `x` (or 0), and the next frame after
      `x`, the two-index choice between `j` and `j + 1` is a nearest frame. */
  lemma BracketNearest(t: seq<real>, x: real, j: int, c: int)
    requires NonDecreasing(t)
    requires 0 <= j < |t|
    requires j + 1 >= |t| || x < t[j + 1]
    requires j == 0 || t[j] <= x
    requires c == if j + 1 < |t| && Abs(t[j + 1] - x) < Abs(t[j] - x) then j + 1 else j
    ensures IsNearest(t, x, c)
    ensures StrictlyIncreasing(t) ==> EarlierAreFarther(t, x, c)
  {
    forall i | 0 <= i < |t|
      ensures Abs(t[c] - x) <= Abs(t[i] - x)
    {
      if i < j {
        assert t[i] <= t[j];
      } else if i > j + 1 {
        assert t[j + 1] <= t[i];
      }
    }
    if StrictlyIncreasing(t) {
      forall i | 0 <= i < c
        ensures Abs(t[c] - x) < Abs(t[i] - x)
      {
        if i < j {
          assert t[i] < t[j];
        }
      }
    }
  }

  /** Once the previous reference time chose `j + 1`, a later reference time that
      has not passed frame `j + 1` chooses it again. */
  lemma StaysRight(tj: real, tj1: real, prev: real, tr: real)
    requires tj <= tj1 && prev <= tr < tj1 && prev < tj1
    requires Abs(tj1 - prev) < Abs(tj - prev)
    ensures Abs(tj1 - tr) < Abs(tj - tr)
  {
  }

  /** The inner `while` of `align_user_to_ref`: move the cursor forward while the
      next user frame is not after `tr`. */
  method AdvanceCursor(t: seq<real>, tr: real, j0: int) returns (j: int)
    requires 0 <= j0 && (j0 < |t| || (|t| == 0 && j0 == 0))
    ensures j0 <= j && (j < |t| || (|t| == 0 && j == 0))
    ensures j + 1 >= |t| || tr < t[j + 1]
    ensures forall k :: j0 < k <= j ==> t[k] <= tr
  {
    j := j0;
    while j + 1 < |t| && t[j + 1] <= tr
      invariant j0 <= j && (j < |t| || (|t| == 0 && j == 0))
      invariant forall k :: j0 < k <= j ==> t[k] <= tr
    {
      j := j + 1;
    }
  }

  /** The cursor's frame, or the next one when that is strictly closer to `tr`. */
  function PickNeighbour(t: seq<real>, tr: real, j: int): int
    requires 0 <= j
  {
    if j + 1 < |t| && Abs(t[j + 1] - tr) < Abs(t[j] - tr) then j + 1 else j
  }

  /** What the walk knows of the previous choice `p` (made for time `prev`): it is
      not ahead of the cursor, or it is the next frame, after `prev` and strictly
      closer to it than the cursor's frame. */
  predicate Trails(t: seq<real>, prev: real, p: int, j: int)
    requires 0 <= j < |t|
  {
    p <= j
    || (p == j + 1 && j + 1 < |t| && prev < t[j + 1] && Abs(t[j + 1] - prev) < Abs(t[j] - prev))
  }

  /** One step of the walk on sorted tracks: the choice is nearest, never behind the
      previous choice, and leaves the walk's knowledge intact for the next step. */
  lemma StepFacts(t: seq<real>, prev: real, tr: real, p: int, j0: int, j: int, c: int)
    requires NonDecreasing(t) && prev <= tr
    requires 0 <= j0 <= j < |t|
    requires j0 == 0 || t[j0] <= prev
    requires Trails(t, prev, p, j0)
    requires j + 1 >= |t| || tr < t[j + 1]
    requires j == j0 || t[j] <= tr
    requires c == PickNeighbour(t, tr, j)
    ensures p <= c
    ensures IsNearest(t, tr, c)
    ensures StrictlyIncreasing(t) ==> EarlierAreFarther(t, tr, c)
    ensures j == 0 || t[j] <= tr
    ensures Trails(t, tr, c, j)
  {
    if j == j0 && j0 > 0 {
      assert t[j0] <= prev <= tr;
    }
    BracketNearest(t, tr, j, c);
    if p == j0 + 1 && j == j0 {
      StaysRight(t[j], t[j + 1], prev, tr);
    }
  }

  /** What the walk of `align_user_to_ref` knows after `i` reference times,
      with the cursor at `j`. */
  ghost predicate WalkInvariant(tRef: seq<real>, tUsr: seq<real>, idx: seq<int>, i: int, j: int) {
    var n := |tUsr|;
    var sorted := NonDecreasing(tRef) && NonDecreasing(tUsr);
    var strict := NonDecreasing(tRef) && StrictlyIncreasing(tUsr);
    0 <= i <= |tRef| && |idx| == i
    && 0 <= j && (j < n || (n == 0 && j == 0))
    && (i == 0 ==> j == 0)
    && (forall k :: 0 <= k < i ==> 0 <= idx[k] && (idx[k] < n || idx[k] == 0))
    && (n == 0 ==> forall k :: 0 <= k < i ==> idx[k] == 0)
    && (sorted && n > 0 && i > 0 ==> (j == 0 || tUsr[j] <= tRef[i - 1]) && Trails(tUsr, tRef[i - 1], idx[i - 1], j))
    && (sorted ==> forall k :: 0 < k < i ==> idx[k - 1] <= idx[k])
    && (sorted && n > 0 ==> forall k :: 0 <= k < i ==> IsNearest(tUsr, tRef[k], idx[k]))
    && (strict && n > 0 ==> forall k :: 0 <= k < i ==> EarlierAreFarther(tUsr, tRef[k], idx[k]))
  }

  /** One reference time of the walk: advance the cursor, choose, append. */
  method WalkStep(tRef: seq<real>, tUsr: seq<real>, idx: seq<int>, i: int, j: int) returns (idx': seq<int>, j': int)
    requires i < |tRef| && WalkInvariant(tRef, tUsr, idx, i, j)
    ensures WalkInvariant(tRef, tUsr, idx', i + 1, j')
  {
    var n := |tUsr|;
    ghost var sorted := NonDecreasing(tRef) && NonDecreasing(tUsr);
    var tr := tRef[i];
    j' := AdvanceCursor(tUsr, tr, j);
    var c := PickNeighbour(tUsr, tr, j');
    assert 0 <= c && (c < n || c == 0);
    if sorted && n > 0 {
      var prev := if i > 0 then tRef[i - 1] else tr;
      var p := if i > 0 then idx[i - 1] else 0;
      StepFacts(tUsr, prev, tr, p, j, j', c);
    }
    idx' := idx + [c];
    WalkExtend(tRef, tUsr, idx, i, j, j', c);
  }

  /** The walk's knowledge after appending the choice `c` for reference time `i`. */
  lemma WalkExtend(tRef: seq<real>, tUsr: seq<real>, idx: seq<int>, i: int, j: int, j': int, c: int)
    requires i < |tRef| && WalkInvariant(tRef, tUsr, idx, i, j)
    requires 0 <= j' && (j' < |tUsr| || (|tUsr| == 0 && j' == 0))
    requires 0 <= c && (c < |tUsr| || c == 0)
    requires |tUsr| == 0 ==> c == 0
    requires NonDecreasing(tRef) && NonDecreasing(tUsr) && |tUsr| > 0 ==>
      (j' == 0 || tUsr[j'] <= tRef[i]) && Trails(tUsr, tRef[i], c, j')
      && (i > 0 ==> idx[i - 1] <= c) && IsNearest(tUsr, tRef[i], c)
    requires NonDecreasing(tRef) && StrictlyIncreasing(tUsr) && |tUsr| > 0 ==> EarlierAreFarther(tUsr, tRef[i], c)
    ensures WalkInvariant(tRef, tUsr, idx + [c], i + 1, j')
  {
    var n := |tUsr|;
    var idx' := idx + [c];
    assert forall k :: 0 <= k < i ==> idx'[k] == idx[k];
    assert idx'[i] == c;
    forall k | 0 <= k < i + 1
      ensures 0 <= idx'[k] && (idx'[k] < n || idx'[k] == 0)
      ensures n == 0 ==> idx'[k] == 0
    {
    }
    if NonDecreasing(tRef) && NonDecreasing(tUsr) {
      forall k | 0 < k < i + 1
        ensures idx'[k - 1] <= idx'[k]
      {
      }
      if n > 0 {
        forall k | 0 <= k < i + 1
          ensures IsNearest(tUsr, tRef[k], idx'[k])
        {
        }
      }
    }
    if NonDecreasing(tRef) && StrictlyIncreasing(tUsr) && n > 0 {
      forall k | 0 <= k < i + 1
        ensures EarlierAreFarther(tUsr, tRef[k], idx'[k])
      {
      }
    }
  }

  /** `align_user_to_ref`: one user-frame index per reference time, by a cursor
      `j` that only moves forward. An empty user track maps everything to 0. */
  method AlignUserToRef(tRef: seq<real>, tUsr: seq<real>) returns (idx: seq<int>)
    ensures |idx| == |tRef|
    ensures forall i :: 0 <= i < |idx| ==> 0 <= idx[i] && (idx[i] < |tUsr| || idx[i] == 0)
    ensures |tUsr| == 0 ==> forall i :: 0 <= i < |idx| ==> idx[i] == 0
    ensures NonDecreasing(tRef) && NonDecreasing(tUsr) ==>
              forall i :: 0 < i < |idx| ==> idx[i - 1] <= idx[i]
    ensures NonDecreasing(tRef) && NonDecreasing(tUsr) && |tUsr| > 0 ==>
              forall i :: 0 <= i < |idx| ==> IsNearest(tUsr, tRef[i], idx[i])
    ensures NonDecreasing(tRef) && StrictlyIncreasing(tUsr) && |tUsr| > 0 ==>
              forall i :: 0 <= i < |idx| ==> EarlierAreFarther(tUsr, tRef[i], idx[i])
    ensures NonDecreasing(tRef) && StrictlyIncreasing(tUsr) && |tUsr| > 0 ==>
              forall i :: 0 <= i < |idx| ==> idx[i] == Resolve(|tUsr|, AlignOnRef(tUsr, tRef[i]))
  {
    idx := [];
    var j := 0;
    var i := 0;
    while i < |tRef|
      invariant WalkInvariant(tRef, tUsr, idx, i, j)
      decreases |tRef| - i
    {
      idx, j := WalkStep(tRef, tUsr, idx, i, j);
      i := i + 1;
    }
    if NonDecreasing(tRef) && StrictlyIncreasing(tUsr) && |tUsr| > 0 {
      StrictIsNonDecreasing(tUsr);
      forall k | 0 <= k < |idx|
        ensures IsNearest(tUsr, tRef[k], idx[k]) && EarlierAreFarther(tUsr, tRef[k], idx[k])
      {
        assert IsNearest(tUsr, tRef[k], idx[k]);
      }
      WalkAgrees(tRef, tUsr, idx);
    }
  }

  /** A nearest choice with ties to the earlier frame is the `searchsorted` choice. */
  lemma WalkAgrees(tRef: seq<real>, tUsr: seq<real>, idx: seq<int>)
    requires StrictlyIncreasing(tUsr) && |tUsr| > 0 && |idx| == |tRef|
    requires forall i :: 0 <= i < |idx| ==>
               IsNearest(tUsr, tRef[i], idx[i]) && EarlierAreFarther(tUsr, tRef[i], idx[i])
    ensures forall i :: 0 <= i < |idx| ==> idx[i] == Resolve(|tUsr|, AlignOnRef(tUsr, tRef[i]))
  {
    forall k | 0 <= k < |idx|
      ensures idx[k] == Resolve(|tUsr|, AlignOnRef(tUsr, tRef[k]))
    {
      NearestUnique(tUsr, tRef[k], idx[k], Resolve(|tUsr|, AlignOnRef(tUsr, tRef[k])));
    }
  }

  // ---------------------------------------------------------------------------
  // Voicing and cents
  // ---------------------------------------------------------------------------

  /** A frame is voiced when its f0 is present (not null / NaN) and positive. */
  predicate Voiced(f: Option<real>) {
    f.Some? && f.value > 0.0
  }

  /** `f_usr[i] if 0 <= i < len(f_usr) else None`. */
  function LookupFrame(f: seq<Option<real>>, i: int): (v: Option<real>)
    ensures !(0 <= i < |f|) ==> v == None
    ensures 0 <= i < |f| ==> v == f[i]
  {
    if 0 <= i < |f| then f[i] else None
  }

  /** `hz_to_cents_ratio`: `1200 * log2(f_usr / f_ref)`, absent when either
      frequency is absent or not positive. `log2` is a parameter of the model. */
  function HzToCentsRatio(log2: real -> real, fUsr: Option<real>, fRef: Option<real>): (c: Option<real>)
    ensures c.None? <==> !Voiced(fUsr) || !Voiced(fRef)
    ensures c.Some? ==> c.value == 1200.0 * log2(fUsr.value / fRef.value)
  {
    if fUsr.None? || fRef.None? || fUsr.value <= 0.0 || fRef.value <= 0.0 then None
    else Some(1200.0 * log2(fUsr.value / fRef.value))
  }

  /** `f_usr_on_ref`: the user f0 at each chosen index, absent outside the track. */
  function AlignedF0(fUsr: seq<Option<real>>, choose: seq<int>): (r: seq<Option<real>>)
    ensures |r| == |choose|
    ensures forall i :: 0 <= i < |choose| ==> r[i] == LookupFrame(fUsr, choose[i])
  {
    seq(|choose|, i requires 0 <= i < |choose| => LookupFrame(fUsr, choose[i]))
  }

  /** An empty user track leaves every reference frame without a user f0. */
  lemma EmptyUserAllAbsent(choose: seq<int>)
    ensures forall i :: 0 <= i < |choose| ==> AlignedF0([], choose)[i] == None
  {
  }

  /** `cents = [hz_to_cents_ratio(u, r) for u, r in zip(f_usr_on_ref, f_ref)]`. */
  function CentsOnRef(log2: real -> real, fOnRef: seq<Option<real>>, fRef: seq<Option<real>>): (c: seq<Option<real>>)
    ensures |c| == if |fOnRef| <= |fRef| then |fOnRef| else |fRef|
    ensures forall i :: 0 <= i < |c| ==> (c[i].Some? <==> Voiced(fOnRef[i]) && Voiced(fRef[i]))
  {
    var n := if |fOnRef| <= |fRef| then |fOnRef| else |fRef|;
    seq(n, i requires 0 <= i < n => HzToCentsRatio(log2, fOnRef[i], fRef[i]))
  }

  /** Present cents strictly below `th` (a NaN compares false). */
  predicate Below(c: Option<real>, th: real) {
    c.Some? && c.value < th
  }

  /** Present cents strictly above `th`. */
  predicate Above(c: Option<real>, th: real) {
    c.Some? && c.value > th
  }

  function BelowMask(cents: seq<Option<real>>, th: real): (m: seq<bool>)
    ensures |m| == |cents| && forall i :: 0 <= i < |cents| ==> (m[i] <==> Below(cents[i], th))
  {
    seq(|cents|, i requires 0 <= i < |cents| => Below(cents[i], th))
  }

  function AboveMask(cents: seq<Option<real>>, th: real): (m: seq<bool>)
    ensures |m| == |cents| && forall i :: 0 <= i < |cents| ==> (m[i] <==> Above(cents[i], th))
  {
    seq(|cents|, i requires 0 <= i < |cents| => Above(cents[i], th))
  }

  /** `unvoiced_miss`: the reference is voiced and the aligned user frame is not. */
  function MissMask(fRef: seq<Option<real>>, fOnRef: seq<Option<real>>): (m: seq<bool>)
    ensures |m| == if |fOnRef| <= |fRef| then |fOnRef| else |fRef|
    ensures forall i :: 0 <= i < |m| ==> (m[i] <==> Voiced(fRef[i]) && !Voiced(fOnRef[i]))
  {
    var n := if |fOnRef| <= |fRef| then |fOnRef| else |fRef|;
    seq(n, i requires 0 <= i < n => Voiced(fRef[i]) && !Voiced(fOnRef[i]))
  }

  /** `voiced_mask(f)`: present and positive f0. */
  function VoicedMask(f: seq<Option<real>>): (m: seq<bool>)
    ensures |m| == |f| && forall i :: 0 <= i < |f| ==> (m[i] <==> Voiced(f[i]))
  {
    seq(|f|, i requires 0 <= i < |f| => Voiced(f[i]))
  }

  /** `align_on_ref` over all reference times, as tools/05, 06 and 08 call it:
      for each, the nearest user frame (numpy's index `-1` resolved to the last
      frame). An empty reference needs no user frame; a non-empty one indexes
      an empty user track out of range. */
  function Choose(tR: seq<real>, tU: seq<real>): (c: seq<int>)
    requires |tU| >= 1 || |tR| == 0
    ensures |c| == |tR|
    ensures forall i :: 0 <= i < |tR| ==> 0 <= c[i] < |tU|
    ensures NonDecreasing(tU) ==> forall i :: 0 <= i < |tR| ==> IsNearest(tU, tR[i], c[i])
  {
    if |tR| == 0 then []
    else seq(|tR|, i requires 0 <= i < |tR| => Resolve(|tU|, AlignOnRef(tU, tR[i])))
  }

  /** `mU[choose]`: the user's voicing carried onto the reference frames. */
  function MaskOnRef(mU: seq<bool>, choose: seq<int>): (m: seq<bool>)
    requires forall i :: 0 <= i < |choose| ==> 0 <= choose[i] < |mU|
    ensures |m| == |choose| && forall i :: 0 <= i < |choose| ==> m[i] == mU[choose[i]]
  {
    seq(|choose|, i requires 0 <= i < |choose| => mU[choose[i]])
  }

  /** `np.diff(t)`: the spacing of consecutive frames, empty for fewer than two. */
  function Diff(t: seq<real>): (d: seq<real>)
    ensures |d| == (if |t| == 0 then 0 else |t| - 1)
    ensures forall i :: 0 <= i < |d| ==> d[i] == t[i + 1] - t[i]
  {
    if |t| == 0 then [] else seq(|t| - 1, i requires 0 <= i < |t| - 1 => t[i + 1] - t[i])
  }

  // ---------------------------------------------------------------------------
  // Frames voiced in both tracks
  // ---------------------------------------------------------------------------

  /** `[c for c in seg if c is not None]`. */
  function Present(cs: seq<Option<real>>): (r: seq<real>)
    ensures |r| <= |cs|
    ensures forall x :: x in r ==> Some(x) in cs
  {
    if |cs| == 0 then []
    else
      var init := Present(cs[..|cs| - 1]);
      assert forall x :: x in init ==> Some(x) in cs by {
        forall x | x in init
          ensures Some(x) in cs
        {
          assert Some(x) in cs[..|cs| - 1];
        }
      }
      match cs[|cs| - 1]
      case Some(v) => init + [v]
      case None => init
  }

  /** With no absent entry, filtering keeps every value in place. */
  lemma {:induction false} PresentAll(cs: seq<Option<real>>)
    requires forall i :: 0 <= i < |cs| ==> cs[i].Some?
    ensures |Present(cs)| == |cs|
    ensures forall i :: 0 <= i < |cs| ==> Present(cs)[i] == cs[i].value
    decreases |cs|
  {
    if |cs| > 0 {
      PresentAll(cs[..|cs| - 1]);
    }
  }

  /** Which entries are present. */
  function PresentMask(cs: seq<Option<real>>): (m: seq<bool>)
    ensures |m| == |cs| && forall i :: 0 <= i < |cs| ==> (m[i] <==> cs[i].Some?)
  {
    seq(|cs|, i requires 0 <= i < |cs| => cs[i].Some?)
  }

  /** Filtering keeps exactly the present entries. */
  lemma {:induction false} PresentCount(cs: seq<Option<real>>)
    ensures |Present(cs)| == CountTrue(PresentMask(cs))
    decreases |cs|
  {
    if |cs| > 0 {
      var init := cs[..|cs| - 1];
      PresentCount(init);
      assert PresentMask(cs) == PresentMask(init) + [cs[|cs| - 1].Some?];
      CountTrueAppend(PresentMask(init), [cs[|cs| - 1].Some?]);
    }
  }

  /** `f_usr[align_on_ref(t_ref, t_usr)]`: the user f0 carried onto every
      reference frame by the `searchsorted` alignment. */
  function UserOnRef(ref: PitchFile, usr: PitchFile): (fOn: seq<Option<real>>)
    requires |usr.track| > 0 || |ref.track| == 0
    ensures |fOn| == |ref.track|
  {
    AlignedF0(Freqs(usr.track), Choose(Times(ref.track), Times(usr.track)))
  }

  /** With ascending user times each reference frame gets the f0 of a nearest user frame. */
  lemma UserOnRefIsNearest(ref: PitchFile, usr: PitchFile)
    requires |usr.track| > 0 || |ref.track| == 0
    requires NonDecreasing(Times(usr.track))
    ensures forall i :: 0 <= i < |ref.track| ==>
              exists k :: IsNearest(Times(usr.track), ref.track[i].t, k) && UserOnRef(ref, usr)[i] == usr.track[k].f0
  {
    var choose := Choose(Times(ref.track), Times(usr.track));
    forall i | 0 <= i < |ref.track|
      ensures exists k :: IsNearest(Times(usr.track), ref.track[i].t, k) && UserOnRef(ref, usr)[i] == usr.track[k].f0
    {
      assert IsNearest(Times(usr.track), Times(ref.track)[i], choose[i]);
    }
  }

  /** `mask = ~isnan(fR) & ~isnan(fU_on_R) & (fR > 0) & (fU_on_R > 0)`. */
  function BothVoicedMask(ref: PitchFile, usr: PitchFile): (m: seq<bool>)
    requires |usr.track| > 0 || |ref.track| == 0
    ensures |m| == |ref.track|
    ensures forall i :: 0 <= i < |m| ==> (m[i] <==> Voiced(UserOnRef(ref, usr)[i]) && Voiced(ref.track[i].f0))
  {
    var fOn := UserOnRef(ref, usr);
    seq(|ref.track|, i requires 0 <= i < |ref.track| => Voiced(fOn[i]) && Voiced(ref.track[i].f0))
  }

  /** `cents = 1200 * log2(fU_on_R[mask] / fR[mask])`: the cents at the
      reference frames voiced in both tracks, in frame order. */
  function VoicedCents(log2: real -> real, ref: PitchFile, usr: PitchFile): (cents: seq<real>)
    requires |usr.track| > 0 || |ref.track| == 0
  {
    Present(CentsOnRef(log2, UserOnRef(ref, usr), Freqs(ref.track)))
  }

  /** One cents value per frame of the mask. */
  lemma FramesAreBothVoiced(log2: real -> real, ref: PitchFile, usr: PitchFile)
    requires |usr.track| > 0 || |ref.track| == 0
    ensures |VoicedCents(log2, ref, usr)| == CountTrue(BothVoicedMask(ref, usr))
  {
    var c := CentsOnRef(log2, UserOnRef(ref, usr), Freqs(ref.track));
    PresentCount(c);
    assert PresentMask(c) == BothVoicedMask(ref, usr);
  }

  /** There are no cents exactly when no reference frame is voiced in both tracks. */
  lemma NoVoicedOverlap(log2: real -> real, ref: PitchFile, usr: PitchFile)
    requires |usr.track| > 0 || |ref.track| == 0
    ensures |VoicedCents(log2, ref, usr)| == 0 <==>
            forall i :: 0 <= i < |ref.track| ==> !(Voiced(UserOnRef(ref, usr)[i]) && Voiced(ref.track[i].f0))
  {
    var m := BothVoicedMask(ref, usr);
    FramesAreBothVoiced(log2, ref, usr);
    CountTrueZero(m);
    MaskNoneIff(ref, usr);
  }

  /** No frame of the mask is set exactly when no reference frame is voiced in both tracks. */
  lemma MaskNoneIff(ref: PitchFile, usr: PitchFile)
    requires |usr.track| > 0 || |ref.track| == 0
    ensures NoneTrue(BothVoicedMask(ref, usr)) <==>
            forall i :: 0 <= i < |ref.track| ==> !(Voiced(UserOnRef(ref, usr)[i]) && Voiced(ref.track[i].f0))
  {
  }

}
