/** tools/02_compare_with_reference.py: align the user track to the reference
    frames, classify each reference frame as low / high / unvoiced-miss against
    fixed ±35 cent thresholds, collapse each mask into runs of at least
    `min_frames`, and emit the runs as events sorted by start. */
module CompareReference {
  import opened Wrappers
  import opened Numeric
  import opened Frames
  import opened Runs
  import opened Events

  const PitchLowThCents: real := -35.0
  const PitchHighThCents: real := 35.0
  const MinDurationSec: real := 0.20
  /** The frame rate assumed when the reference `hop` is 0. */
  const FallbackFps: real := 172.0

  function Fps(sr: real, hop: real): real {
    if hop != 0.0 then sr / hop else FallbackFps
  }

  /** `max(1, int(round(MIN_DURATION_SEC * fps)))`: the shortest event, in frames. */
  function MinFrames(sr: real, hop: real): (m: int)
    ensures m >= 1
    ensures m > 1 ==> m as real - 0.5 <= MinDurationSec * Fps(sr, hop) <= m as real + 0.5
    ensures MinDurationSec * Fps(sr, hop) < 1.5 ==> m == 1
    ensures MinDurationSec * Fps(sr, hop) >= 1.5 ==> m > 1
  {
    MaxInt(1, RoundHalfEven(MinDurationSec * Fps(sr, hop)))
  }

  /** With no usable hop the minimum is `round(0.2 * 172) = 34` frames. */
  lemma MinFramesWithoutHop(sr: real)
    ensures MinFrames(sr, 0.0) == 34
  {
    assert MinDurationSec * FallbackFps == 34.4;
    RoundHalfEvenUnique(34.4, 34);
  }

  /** No frame is both low and high, and an unvoiced-miss frame is neither. */
  lemma ClassesExclusive(log2: real -> real, fOnRef: seq<Option<real>>, fRef: seq<Option<real>>, i: int)
    requires 0 <= i < |CentsOnRef(log2, fOnRef, fRef)|
    ensures var c := CentsOnRef(log2, fOnRef, fRef);
            !(BelowMask(c, PitchLowThCents)[i] && AboveMask(c, PitchHighThCents)[i])
            && (MissMask(fRef, fOnRef)[i] ==> !BelowMask(c, PitchLowThCents)[i] && !AboveMask(c, PitchHighThCents)[i])
  {
  }

  /** A `pitch_low` / `pitch_high` event for run `r`: the run's first and last
      reference times, the mean of its present cents, and the present cent of
      largest magnitude (0.0 for an all-absent run). */
  function PitchEvent(tRef: seq<real>, cents: seq<Option<real>>, r: Run, kind: EventKind): (e: Event)
    requires 0 <= r.start < r.end <= |tRef| && r.end <= |cents|
    ensures e.start == tRef[r.start] && e.end == tRef[r.end - 1] && e.kind == kind
  {
    var seg := Present(cents[r.start..r.end]);
    Event(tRef[r.start], tRef[r.end - 1], kind, Some(MeanOrZero(seg)),
          Some(if |seg| == 0 then 0.0 else MaxByAbs(seg)))
  }

  function PitchEvents(tRef: seq<real>, cents: seq<Option<real>>, runs: seq<Run>, kind: EventKind): (es: seq<Event>)
    requires |cents| <= |tRef| && RunsWithin(runs, |cents|)
    ensures |es| == |runs|
    ensures forall k :: 0 <= k < |runs| ==> es[k] == PitchEvent(tRef, cents, runs[k], kind)
  {
    seq(|runs|, k requires 0 <= k < |runs| => PitchEvent(tRef, cents, runs[k], kind))
  }

  /** A low run has every cent present and below -35: its event's average is
      below -35 and its `max_cents` is the run's minimum. */
  lemma LowEventStats(tRef: seq<real>, cents: seq<Option<real>>, r: Run)
    requires 0 <= r.start < r.end <= |tRef| && r.end <= |cents|
    requires forall k :: r.start <= k < r.end ==> Below(cents[k], PitchLowThCents)
    ensures var e := PitchEvent(tRef, cents, r, PitchLow);
            var vals := Present(cents[r.start..r.end]);
            |vals| == r.end - r.start
            && e.avgCents.value < PitchLowThCents
            && e.maxCents == Some(Stats.SeqMin(vals))
  {
    var seg := cents[r.start..r.end];
    PresentAll(seg);
    var vals := Present(seg);
    assert forall i :: 0 <= i < |vals| ==> vals[i] < PitchLowThCents by {
      forall i | 0 <= i < |vals|
        ensures vals[i] < PitchLowThCents
      {
        assert Below(cents[r.start + i], PitchLowThCents);
      }
    }
    MeanBelow(vals, PitchLowThCents);
    MaxByAbsOfNegatives(vals);
  }

  /** A high run's event has an average above +35 and `max_cents` the run's maximum. */
  lemma HighEventStats(tRef: seq<real>, cents: seq<Option<real>>, r: Run)
    requires 0 <= r.start < r.end <= |tRef| && r.end <= |cents|
    requires forall k :: r.start <= k < r.end ==> Above(cents[k], PitchHighThCents)
    ensures var e := PitchEvent(tRef, cents, r, PitchHigh);
            var vals := Present(cents[r.start..r.end]);
            |vals| == r.end - r.start
            && e.avgCents.value > PitchHighThCents
            && e.maxCents == Some(Stats.SeqMax(vals))
  {
    var seg := cents[r.start..r.end];
    PresentAll(seg);
    var vals := Present(seg);
    assert forall i :: 0 <= i < |vals| ==> vals[i] > PitchHighThCents by {
      forall i | 0 <= i < |vals|
        ensures vals[i] > PitchHighThCents
      {
        assert Above(cents[r.start + i], PitchHighThCents);
      }
    }
    MeanAbove(vals, PitchHighThCents);
    MaxByAbsOfPositives(vals);
  }

  /** The whole of `main` after loading: align, classify, extract runs, emit
      and sort the events. */
  method CompareWithReference(log2: real -> real, ref: seq<Frame>, usr: seq<Frame>, sr: real, hop: real)
    returns (choose: seq<int>, lowRuns: seq<Run>, highRuns: seq<Run>, missRuns: seq<Run>, events: seq<Event>)
    ensures |choose| == |ref|
    ensures NonDecreasing(Times(ref)) && NonDecreasing(Times(usr)) && |usr| > 0 ==>
              forall i :: 0 <= i < |ref| ==> IsNearest(Times(usr), ref[i].t, choose[i])
    ensures var fOn := AlignedF0(Freqs(usr), choose);
            var cents := CentsOnRef(log2, fOn, Freqs(ref));
            IsRunList(BelowMask(cents, PitchLowThCents), MinFrames(sr, hop), lowRuns)
            && IsRunList(AboveMask(cents, PitchHighThCents), MinFrames(sr, hop), highRuns)
            && IsRunList(MissMask(Freqs(ref), fOn), MinFrames(sr, hop), missRuns)
            && multiset(events) == multiset(PitchEvents(Times(ref), cents, lowRuns, PitchLow)
                                            + PitchEvents(Times(ref), cents, highRuns, PitchHigh)
                                            + MissEvents(Times(ref), missRuns))
            && events == SortByStart(PitchEvents(Times(ref), cents, lowRuns, PitchLow)
                                     + PitchEvents(Times(ref), cents, highRuns, PitchHigh)
                                     + MissEvents(Times(ref), missRuns))
    ensures SortedByStart(events)
    ensures NonDecreasing(Times(ref)) ==> Forward(events)
  {
    var tRef, fRef := Times(ref), Freqs(ref);
    var minFrames := MinFrames(sr, hop);
    choose := AlignUserToRef(tRef, Times(usr));
    var fOn := AlignedF0(Freqs(usr), choose);
    var cents := CentsOnRef(log2, fOn, fRef);
    lowRuns := SegmentMask(BelowMask(cents, PitchLowThCents), minFrames);
    highRuns := SegmentMask(AboveMask(cents, PitchHighThCents), minFrames);
    missRuns := SegmentMask(MissMask(fRef, fOn), minFrames);
    RunListWithin(BelowMask(cents, PitchLowThCents), minFrames, lowRuns);
    RunListWithin(AboveMask(cents, PitchHighThCents), minFrames, highRuns);
    RunListWithin(MissMask(fRef, fOn), minFrames, missRuns);
    events := EmitSorted(tRef, cents, lowRuns, highRuns, missRuns);
  }

  /** With ascending reference times every pitch event runs forward. */
  lemma PitchEventsForward(tRef: seq<real>, cents: seq<Option<real>>, runs: seq<Run>, kind: EventKind)
    requires |cents| <= |tRef| && RunsWithin(runs, |cents|) && NonDecreasing(tRef)
    ensures Forward(PitchEvents(tRef, cents, runs, kind))
  {
  }

  /** Emit the events of the three run lists and sort them by start. */
  method EmitSorted(tRef: seq<real>, cents: seq<Option<real>>, lowRuns: seq<Run>, highRuns: seq<Run>, missRuns: seq<Run>)
    returns (events: seq<Event>)
    requires |cents| <= |tRef|
    requires RunsWithin(lowRuns, |cents|) && RunsWithin(highRuns, |cents|) && RunsWithin(missRuns, |tRef|)
    ensures multiset(events) == multiset(PitchEvents(tRef, cents, lowRuns, PitchLow)
                                         + PitchEvents(tRef, cents, highRuns, PitchHigh)
                                         + MissEvents(tRef, missRuns))
    ensures events == SortByStart(PitchEvents(tRef, cents, lowRuns, PitchLow)
                                  + PitchEvents(tRef, cents, highRuns, PitchHigh)
                                  + MissEvents(tRef, missRuns))
    ensures SortedByStart(events)
    ensures NonDecreasing(tRef) ==> Forward(events)
  {
    var lows := PitchEvents(tRef, cents, lowRuns, PitchLow);
    var highs := PitchEvents(tRef, cents, highRuns, PitchHigh);
    var misses := MissEvents(tRef, missRuns);
    events := SortByStart(lows + highs + misses);
    if NonDecreasing(tRef) {
      PitchEventsForward(tRef, cents, lowRuns, PitchLow);
      PitchEventsForward(tRef, cents, highRuns, PitchHigh);
      MissEventsForward(tRef, missRuns);
      ForwardAppend(lows, highs);
      ForwardAppend(lows + highs, misses);
      SpansForward(lows + highs + misses, events);
    }
  }
}
