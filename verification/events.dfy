/** The events the comparison scripts emit (`pitch_low`, `pitch_high`,
    `unvoiced_miss`), the statistics they carry, and their stable ordering by
    start time. */
module Events {
  import opened Wrappers
  import opened Numeric
  import opened Sorting
  import opened Stats
  import opened Runs
  import opened Frames

  datatype EventKind = PitchLow | PitchHigh | UnvoicedMiss

  /** An event over `[start, end]` seconds. `avgCents` / `maxCents` are absent
      when the script does not write those keys. */
  datatype Event = Event(start: real, end: real, kind: EventKind, avgCents: Option<real>, maxCents: Option<real>)

  function StartOf(e: Event): real {
    e.start
  }

  /** `events.sort(key=lambda x: x["start"])`: a stable sort by start. */
  function SortByStart(evs: seq<Event>): (r: seq<Event>)
    ensures |r| == |evs| && multiset(r) == multiset(evs)
    ensures SortedByStart(r)
  {
    SortByKey(evs, StartOf)
  }

  predicate SortedByStart(events: seq<Event>) {
    forall i, j :: 0 <= i < j < |events| ==> events[i].start <= events[j].start
  }

  /** Events that start at the same time keep their emission order. */
  lemma SortByStartStable(evs: seq<Event>, c: real)
    ensures WithKey(SortByStart(evs), StartOf, c) == WithKey(evs, StartOf, c)
  {
    SortByKeyStable(evs, StartOf, c);
  }

  /** The position `max(xs, key=abs)` returns: the first entry of largest magnitude. */
  function ArgMaxAbs(xs: seq<real>): (k: nat)
    requires |xs| > 0
    ensures k < |xs|
    ensures forall i :: 0 <= i < |xs| ==> Abs(xs[i]) <= Abs(xs[k])
    ensures forall i :: 0 <= i < k ==> Abs(xs[i]) < Abs(xs[k])
  {
    if |xs| == 1 then 0
    else
      var k := ArgMaxAbs(xs[..|xs| - 1]);
      assert xs[k] == xs[..|xs| - 1][k];
      if Abs(xs[|xs| - 1]) > Abs(xs[k]) then |xs| - 1 else k
  }

  /** `max(xs, key=abs)`. */
  function MaxByAbs(xs: seq<real>): (m: real)
    requires |xs| > 0
    ensures m in xs
    ensures forall i :: 0 <= i < |xs| ==> Abs(xs[i]) <= Abs(m)
  {
    xs[ArgMaxAbs(xs)]
  }

  /** Among negative values the largest magnitude is the minimum. */
  lemma MaxByAbsOfNegatives(xs: seq<real>)
    requires |xs| > 0 && forall i :: 0 <= i < |xs| ==> xs[i] < 0.0
    ensures MaxByAbs(xs) == SeqMin(xs)
  {
    var m := MaxByAbs(xs);
    var lo := SeqMin(xs);
    var i :| 0 <= i < |xs| && xs[i] == lo;
    assert Abs(xs[i]) <= Abs(m);
  }

  /** Among positive values the largest magnitude is the maximum. */
  lemma MaxByAbsOfPositives(xs: seq<real>)
    requires |xs| > 0 && forall i :: 0 <= i < |xs| ==> xs[i] > 0.0
    ensures MaxByAbs(xs) == SeqMax(xs)
  {
    var m := MaxByAbs(xs);
    var hi := SeqMax(xs);
    var i :| 0 <= i < |xs| && xs[i] == hi;
    assert Abs(xs[i]) <= Abs(m);
  }

  /** `sum(xs) / len(xs) if xs else 0.0`. */
  function MeanOrZero(xs: seq<real>): real {
    if |xs| == 0 then 0.0 else Mean(xs)
  }

  /** The sum of values all below `c` is below `|xs| * c`, so their mean is below `c`. */
  lemma {:induction false} SumBelow(xs: seq<real>, c: real)
    requires forall i :: 0 <= i < |xs| ==> xs[i] < c
    ensures |xs| > 0 ==> Sum(xs) < |xs| as real * c
    ensures Sum(xs) <= |xs| as real * c
    decreases |xs|
  {
    if |xs| > 0 {
      SumBelow(xs[..|xs| - 1], c);
    }
  }

  lemma {:induction false} SumAbove(xs: seq<real>, c: real)
    requires forall i :: 0 <= i < |xs| ==> xs[i] > c
    ensures |xs| > 0 ==> Sum(xs) > |xs| as real * c
    ensures Sum(xs) >= |xs| as real * c
    decreases |xs|
  {
    if |xs| > 0 {
      SumAbove(xs[..|xs| - 1], c);
    }
  }

  lemma {:induction false} SumAtLeast(xs: seq<real>, c: real)
    requires forall i :: 0 <= i < |xs| ==> xs[i] >= c
    ensures Sum(xs) >= |xs| as real * c
    decreases |xs|
  {
    if |xs| > 0 {
      SumAtLeast(xs[..|xs| - 1], c);
    }
  }

  lemma {:induction false} SumAtMost(xs: seq<real>, c: real)
    requires forall i :: 0 <= i < |xs| ==> xs[i] <= c
    ensures Sum(xs) <= |xs| as real * c
    decreases |xs|
  {
    if |xs| > 0 {
      SumAtMost(xs[..|xs| - 1], c);
    }
  }

  lemma MeanAtLeast(xs: seq<real>, c: real)
    requires |xs| > 0 && forall i :: 0 <= i < |xs| ==> xs[i] >= c
    ensures Mean(xs) >= c
  {
    SumAtLeast(xs, c);
    var n := |xs| as real;
    assert Sum(xs) / n >= (n * c) / n;
  }

  lemma MeanAtMost(xs: seq<real>, c: real)
    requires |xs| > 0 && forall i :: 0 <= i < |xs| ==> xs[i] <= c
    ensures Mean(xs) <= c
  {
    SumAtMost(xs, c);
    var n := |xs| as real;
    assert Sum(xs) / n <= (n * c) / n;
  }

  /** The mean lies between the minimum and the maximum. */
  lemma MeanBetween(xs: seq<real>)
    requires |xs| > 0
    ensures SeqMin(xs) <= Mean(xs) <= SeqMax(xs)
  {
    MeanAtLeast(xs, SeqMin(xs));
    MeanAtMost(xs, SeqMax(xs));
  }

  lemma MeanBelow(xs: seq<real>, c: real)
    requires |xs| > 0 && forall i :: 0 <= i < |xs| ==> xs[i] < c
    ensures Mean(xs) < c
  {
    SumBelow(xs, c);
    var n := |xs| as real;
    assert Sum(xs) / n < (n * c) / n;
  }

  lemma MeanAbove(xs: seq<real>, c: real)
    requires |xs| > 0 && forall i :: 0 <= i < |xs| ==> xs[i] > c
    ensures Mean(xs) > c
  {
    SumAbove(xs, c);
    var n := |xs| as real;
    assert Sum(xs) / n > (n * c) / n;
  }

  /** Every event's run lies inside a track of `n` frames. */
  predicate RunsWithin(runs: seq<Run>, n: int) {
    forall k :: 0 <= k < |runs| ==> 0 <= runs[k].start < runs[k].end <= n
  }

  /** Run lists produced for a mask of length `n` lie inside it. */
  lemma RunListWithin(mask: seq<bool>, minLen: int, runs: seq<Run>)
    requires IsRunList(mask, minLen, runs)
    ensures RunsWithin(runs, |mask|)
  {
  }

  /** An `unvoiced_miss` event carries no cents statistics. */
  function MissEvent(t: seq<real>, r: Run): (e: Event)
    requires 0 <= r.start < r.end <= |t|
    ensures e.start == t[r.start] && e.end == t[r.end - 1]
    ensures e.kind == UnvoicedMiss && e.avgCents == None && e.maxCents == None
  {
    Event(t[r.start], t[r.end - 1], UnvoicedMiss, None, None)
  }

  function MissEvents(t: seq<real>, runs: seq<Run>): (es: seq<Event>)
    requires RunsWithin(runs, |t|)
    ensures |es| == |runs|
    ensures forall k :: 0 <= k < |runs| ==> es[k] == MissEvent(t, runs[k])
  {
    seq(|runs|, k requires 0 <= k < |runs| => MissEvent(t, runs[k]))
  }

  /** No event ends before it starts. */
  predicate Forward(events: seq<Event>) {
    forall i :: 0 <= i < |events| ==> events[i].start <= events[i].end
  }

  lemma ForwardAppend(a: seq<Event>, b: seq<Event>)
    requires Forward(a) && Forward(b)
    ensures Forward(a + b)
  {
    forall i | 0 <= i < |a + b|
      ensures (a + b)[i].start <= (a + b)[i].end
    {
      if i >= |a| {
        assert (a + b)[i] == b[i - |a|];
      }
    }
  }

  /** With ascending reference times every unvoiced-miss event runs forward. */
  lemma MissEventsForward(t: seq<real>, runs: seq<Run>)
    requires RunsWithin(runs, |t|) && NonDecreasing(t)
    ensures Forward(MissEvents(t, runs))
  {
  }

  /** Reordering keeps every event running forward. */
  lemma SpansForward(emitted: seq<Event>, events: seq<Event>)
    requires Forward(emitted)
    requires multiset(events) == multiset(emitted)
    ensures Forward(events)
  {
    forall i | 0 <= i < |events|
      ensures events[i].start <= events[i].end
    {
      assert events[i] in multiset(emitted);
      var j :| 0 <= j < |emitted| && emitted[j] == events[i];
    }
  }
}
