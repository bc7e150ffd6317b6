/** tools/01_make_events_and_summary.py: compare the user's f0 with the
    reference frame by frame (no time alignment: frame `i` against frame `i`),
    count the frames within / below / above a cent tolerance, summarise the
    cents, and group consecutive flagged frames into events. */
module EventSummary {
  import opened Wrappers
  import opened Numeric
  import opened Stats
  import opened Frames
  import opened Runs
  import opened Events

  /** The exceptions `main` can stop with. */
  datatype Error =
    | RateMismatch  // the two analyses disagree on `sr` or `hop`
    | MissingRate   // `sr` or `hop` is absent or null
    | ZeroDivision  // `hop / sr` with `sr == 0`, or a reference f0 of 0 Hz
    | MathDomain    // `log2` of a non-positive frequency ratio

  const DefaultTolCents: real := 40.0

  /** `cents(a, b) = 1200 * log2(a / b)`, with Python's exceptions. */
  function Cents(log2: real -> real, a: real, b: real): (r: Result<real, Error>)
    ensures r.Err? <==> b == 0.0 || a / b <= 0.0
    ensures r == Err(ZeroDivision) <==> b == 0.0
    ensures r.Ok? ==> r.value == 1200.0 * log2(a / b)
  {
    if b == 0.0 then Err(ZeroDivision)
    else if a / b <= 0.0 then Err(MathDomain)
    else Ok(1200.0 * log2(a / b))
  }

  /** What the loop records for one frame: a reference note the user did not
      sing, a frame skipped because the reference is silent (or the user sang
      over silence), or a compared frame with its cents. */
  datatype FrameClass = Miss | Skipped | Compared(c: real)

  /** The per-frame branch of the loop. */
  function ClassifyFrame(log2: real -> real, rf: Option<real>, uf: Option<real>): (r: Result<FrameClass, Error>)
    ensures r == Ok(Miss) <==> rf.Some? && uf.None?
    ensures r == Ok(Skipped) <==> rf.None?
    ensures (r.Ok? && r.value.Compared?) <==> rf.Some? && uf.Some? && rf.value != 0.0 && uf.value / rf.value > 0.0
    ensures r.Ok? && r.value.Compared? ==> Cents(log2, uf.value, rf.value) == Ok(r.value.c)
    ensures r.Err? ==> Cents(log2, uf.value, rf.value) == Err(r.error)
  {
    if rf.Some? && uf.None? then Ok(Miss)
    else if rf.None? || uf.None? then Ok(Skipped)
    else
      match Cents(log2, uf.value, rf.value)
      case Ok(c) => Ok(Compared(c))
      case Err(e) => Err(e)
  }

  /** The frame flags the script keeps or counts. */
  datatype Flag = VoicedFrame | Within | Low | High | Missed

  predicate HasFlag(fc: FrameClass, flag: Flag, tol: real) {
    match flag
    case VoicedFrame => fc.Compared?
    case Within => fc.Compared? && Abs(fc.c) <= tol
    case Low => fc.Compared? && fc.c < -tol
    case High => fc.Compared? && fc.c > tol
    case Missed => fc.Miss?
  }

  /** `low_flags`, `high_flags`, `unvoiced_miss_flags` and the frames behind
      the `voiced_frames` and `within` counters. */
  function Flags(cs: seq<FrameClass>, flag: Flag, tol: real): (m: seq<bool>)
    ensures |m| == |cs|
    ensures forall i :: 0 <= i < |cs| ==> m[i] == HasFlag(cs[i], flag, tol)
  {
    seq(|cs|, i requires 0 <= i < |cs| => HasFlag(cs[i], flag, tol))
  }

  function Count(cs: seq<FrameClass>, flag: Flag, tol: real): nat {
    CountTrue(Flags(cs, flag, tol))
  }

  function Indicator(b: bool): nat {
    if b then 1 else 0
  }

  lemma CountLast(cs: seq<FrameClass>, flag: Flag, tol: real)
    requires |cs| > 0
    ensures Count(cs, flag, tol) == Count(cs[..|cs| - 1], flag, tol) + Indicator(HasFlag(cs[|cs| - 1], flag, tol))
  {
    var m := Flags(cs, flag, tol);
    assert m == Flags(cs[..|cs| - 1], flag, tol) + [HasFlag(cs[|cs| - 1], flag, tol)];
    CountTrueAppend(Flags(cs[..|cs| - 1], flag, tol), [HasFlag(cs[|cs| - 1], flag, tol)]);
  }

  /** With a non-negative tolerance every compared frame is exactly one of
      within, low or high. */
  lemma {:induction false} Partition(cs: seq<FrameClass>, tol: real)
    requires tol >= 0.0
    ensures Count(cs, Within, tol) + Count(cs, Low, tol) + Count(cs, High, tol) == Count(cs, VoicedFrame, tol)
    decreases |cs|
  {
    if |cs| > 0 {
      Partition(cs[..|cs| - 1], tol);
      CountLast(cs, Within, tol);
      CountLast(cs, Low, tol);
      CountLast(cs, High, tol);
      CountLast(cs, VoicedFrame, tol);
    }
  }

  /** Within, low and high frames are compared frames, so the ratios over
      `voiced_frames` are at most 1. */
  lemma {:induction false} CountAtMostVoiced(cs: seq<FrameClass>, flag: Flag, tol: real)
    requires flag != Missed
    ensures Count(cs, flag, tol) <= Count(cs, VoicedFrame, tol)
    decreases |cs|
  {
    if |cs| > 0 {
      CountAtMostVoiced(cs[..|cs| - 1], flag, tol);
      CountLast(cs, flag, tol);
      CountLast(cs, VoicedFrame, tol);
    }
  }

  /** `cents_list`: the cents of a compared frame, 0.0 for every other frame. */
  function CentsList(cs: seq<FrameClass>): (r: seq<real>)
    ensures |r| == |cs|
    ensures forall i :: 0 <= i < |cs| ==> r[i] == (if cs[i].Compared? then cs[i].c else 0.0)
  {
    seq(|cs|, i requires 0 <= i < |cs| => if cs[i].Compared? then cs[i].c else 0.0)
  }

  /** `voiced_cents = [c for c in cents_list if c != 0.0]`: a compared frame
      that is exactly in tune drops out here although it counts as voiced. */
  function NonZero(xs: seq<real>): (r: seq<real>)
    ensures |r| <= |xs|
    ensures forall x :: x in r ==> x in xs && x != 0.0
  {
    if |xs| == 0 then []
    else
      var init := NonZero(xs[..|xs| - 1]);
      assert forall x :: x in init ==> x in xs by {
        forall x | x in init
          ensures x in xs
        {
          assert x in xs[..|xs| - 1];
        }
      }
      if xs[|xs| - 1] != 0.0 then init + [xs[|xs| - 1]] else init
  }

  /** A non-zero entry survives the filter. */
  lemma {:induction false} NonZeroKeeps(xs: seq<real>, i: int)
    requires 0 <= i < |xs| && xs[i] != 0.0
    ensures xs[i] in NonZero(xs)
    decreases |xs|
  {
    if i < |xs| - 1 {
      assert xs[..|xs| - 1][i] == xs[i];
      NonZeroKeeps(xs[..|xs| - 1], i);
    }
  }

  /** `voiced_cents` holds exactly the non-zero cents of compared frames. */
  lemma VoicedCentsMembers(cs: seq<FrameClass>, x: real)
    ensures x in NonZero(CentsList(cs)) <==> x != 0.0 && exists i :: 0 <= i < |cs| && cs[i] == Compared(x)
  {
    var xs := CentsList(cs);
    if x in NonZero(xs) {
      var i :| 0 <= i < |xs| && xs[i] == x;
      assert cs[i] == Compared(x);
    }
    if x != 0.0 && exists i :: 0 <= i < |cs| && cs[i] == Compared(x) {
      var i :| 0 <= i < |cs| && cs[i] == Compared(x);
      NonZeroKeeps(xs, i);
    }
  }

  /** `unvoiced_miss_seconds`: the sum of `t1 - t0` over the missed frames,
      where `t1 = t0 + hop / sr`. */
  function MissSeconds(cs: seq<FrameClass>, t0: seq<real>, step: real): real
    requires |t0| == |cs|
  {
    if |cs| == 0 then 0.0
    else
      var last := |cs| - 1;
      MissSeconds(cs[..last], t0[..last], step) + (if cs[last].Miss? then (t0[last] + step) - t0[last] else 0.0)
  }

  /** The missed time is the number of missed frames times one hop. */
  lemma {:induction false} MissSecondsIsCountTimesHop(cs: seq<FrameClass>, t0: seq<real>, step: real, tol: real)
    requires |t0| == |cs|
    ensures MissSeconds(cs, t0, step) == FramesTime(Count(cs, Missed, tol), step)
    decreases |cs|
  {
    if |cs| > 0 {
      var last := |cs| - 1;
      MissSecondsIsCountTimesHop(cs[..last], t0[..last], step, tol);
      CountLast(cs, Missed, tol);
      var one := Indicator(HasFlag(cs[last], Missed, tol));
      assert FramesTime(one, step) == (if cs[last].Miss? then (t0[last] + step) - t0[last] else 0.0);
      FramesTimeAdd(Count(cs[..last], Missed, tol), one, step);
    } else {
      assert Flags(cs, Missed, tol) == [];
    }
  }

  datatype Verdict = MostlyOk | NeedsWork

  /** `round(p, 4) >= 0.85`, with Python's round-half-even at the fourth decimal. */
  function VerdictOf(p: real): Verdict {
    if RoundHalfEven(p * 10000.0) >= 8500 then MostlyOk else NeedsWork
  }

  /** Because of the rounding the effective cutoff is 0.84995, not 0.85. */
  lemma VerdictCutoff(p: real)
    ensures VerdictOf(p) == MostlyOk <==> p >= 0.84995
  {
    var x := p * 10000.0;
    var r := RoundHalfEven(x);
    assert p >= 0.84995 <==> x >= 8499.5;
  }

  /** For any samples: `p10 <= median <= p90`, all within the sample range,
      which also holds the mean. */
  lemma SampleStatsOrdered(vc: seq<real>)
    ensures |vc| > 0 ==> SeqMin(vc) <= Percentile(vc, 0.1) <= Percentile(vc, 0.5) <= Percentile(vc, 0.9) <= SeqMax(vc)
    ensures |vc| > 0 ==> SeqMin(vc) <= Mean(vc) <= SeqMax(vc)
  {
    if |vc| > 0 {
      MeanBetween(vc);
      PercentileMonotone(vc, 0.1, 0.5);
      PercentileMonotone(vc, 0.5, 0.9);
    }
  }

  /** The summary file. `varianceCents` is the square of `std_cents`; output
      rounding to 3 or 4 decimals is not applied except inside the verdict. */
  datatype Summary = Summary(
    tolCents: real,
    frames: nat,
    seconds: real,
    meanCents: real,
    medianCents: real,
    varianceCents: real,
    percentWithinTol: real,
    percentLow: real,
    percentHigh: real,
    p10Cents: real,
    p90Cents: real,
    unvoicedMissSeconds: real,
    verdict: Verdict)

  /** The summary of classified frames starting at times `t0`, each `step` long. */
  function Summarize(cs: seq<FrameClass>, t0: seq<real>, step: real, tol: real): (s: Summary)
    requires |t0| == |cs|
    ensures s.frames == |cs|
    ensures s.seconds == if |cs| == 0 then 0.0 else t0[|cs| - 1] + step
    ensures 0.0 <= s.percentWithinTol <= 1.0 && 0.0 <= s.percentLow <= 1.0 && 0.0 <= s.percentHigh <= 1.0
    ensures var v := Count(cs, VoicedFrame, tol);
            v > 0 ==> s.percentWithinTol == Count(cs, Within, tol) as real / v as real
                      && s.percentLow == Count(cs, Low, tol) as real / v as real
                      && s.percentHigh == Count(cs, High, tol) as real / v as real
    ensures s.unvoicedMissSeconds == FramesTime(Count(cs, Missed, tol), step)
    ensures s.verdict == MostlyOk <==> s.percentWithinTol >= 0.84995
    ensures 0.0 <= s.varianceCents
    ensures var vc := NonZero(CentsList(cs));
            |vc| > 0 ==> SeqMin(vc) <= s.p10Cents <= s.medianCents <= s.p90Cents <= SeqMax(vc)
                         && SeqMin(vc) <= s.meanCents <= SeqMax(vc)
    ensures var vc := NonZero(CentsList(cs));
            |vc| == 0 ==> s.meanCents == 0.0 && s.medianCents == 0.0 && s.varianceCents == 0.0
  {
    var vc := NonZero(CentsList(cs));
    var voiced := Count(cs, VoicedFrame, tol);
    CountAtMostVoiced(cs, Within, tol);
    CountAtMostVoiced(cs, Low, tol);
    CountAtMostVoiced(cs, High, tol);
    MissSecondsIsCountTimesHop(cs, t0, step, tol);
    var within := Fraction(Count(cs, Within, tol), voiced);
    VerdictCutoff(within);
    var mean := if |vc| == 0 then 0.0 else Mean(vc);
    SampleStatsOrdered(vc);
    Summary(
      tol,
      |cs|,
      if |cs| == 0 then 0.0 else t0[|cs| - 1] + step,
      mean,
      Percentile(vc, 0.5),
      if |vc| == 0 then 0.0 else Variance(vc),
      within,
      Fraction(Count(cs, Low, tol), voiced),
      Fraction(Count(cs, High, tol), voiced),
      Percentile(vc, 0.1),
      Percentile(vc, 0.9),
      MissSeconds(cs, t0, step),
      VerdictOf(within))
  }

  /** With a non-negative tolerance and at least one compared frame, the
      within / low / high percentages add up to one. */
  lemma PercentagesAddUp(cs: seq<FrameClass>, t0: seq<real>, step: real, tol: real)
    requires |t0| == |cs| && tol >= 0.0 && Count(cs, VoicedFrame, tol) > 0
    ensures var s := Summarize(cs, t0, step, tol);
            s.percentWithinTol + s.percentLow + s.percentHigh == 1.0
  {
    Partition(cs, tol);
    var v := Count(cs, VoicedFrame, tol) as real;
    var w, l, h := Count(cs, Within, tol) as real, Count(cs, Low, tol) as real, Count(cs, High, tol) as real;
    SharesOfWhole(w, l, h, v);
  }


  /** The event `group_events` writes for run `r` of flagged frames: from the
      first frame's start to the last frame's end, and, when per-frame cents
      are given, their mean and the extreme in the event's direction. */
  function GroupedEvent(t0: seq<real>, step: real, r: Run, kind: EventKind, cv: Option<seq<real>>): (e: Event)
    requires 0 <= r.start < r.end <= |t0|
    requires cv.Some? ==> |cv.value| == |t0|
    ensures e.start == t0[r.start] && e.end == t0[r.end - 1] + step && e.kind == kind
    ensures e.avgCents.Some? <==> cv.Some?
    ensures e.maxCents.Some? <==> cv.Some? && kind != UnvoicedMiss
  {
    var start, end := t0[r.start], t0[r.end - 1] + step;
    match cv
    case None => Event(start, end, kind, None, None)
    case Some(vals) =>
      var seg := vals[r.start..r.end];
      var extreme := match kind
                     case PitchLow => Some(SeqMin(seg))
                     case PitchHigh => Some(SeqMax(seg))
                     case UnvoicedMiss => None;
      Event(start, end, kind, Some(Mean(seg)), extreme)
  }

  function GroupedEvents(t0: seq<real>, step: real, runs: seq<Run>, kind: EventKind, cv: Option<seq<real>>): (es: seq<Event>)
    requires RunsWithin(runs, |t0|) && (cv.Some? ==> |cv.value| == |t0|)
    ensures |es| == |runs|
    ensures forall k :: 0 <= k < |runs| ==> es[k] == GroupedEvent(t0, step, runs[k], kind, cv)
  {
    seq(|runs|, k requires 0 <= k < |runs| => GroupedEvent(t0, step, runs[k], kind, cv))
  }

  /** `group_events(flags, times, kind, cents_values)`: one event per maximal
      run of set flags, in frame order. */
  method GroupEvents(flags: seq<bool>, t0: seq<real>, step: real, kind: EventKind, cv: Option<seq<real>>)
    returns (runs: seq<Run>, events: seq<Event>)
    requires |t0| == |flags| && (cv.Some? ==> |cv.value| == |flags|)
    ensures IsRunList(flags, 1, runs) && RunsWithin(runs, |t0|)
    ensures events == GroupedEvents(t0, step, runs, kind, cv)
  {
    runs := FlagRuns(flags);
    RunListWithin(flags, 1, runs);
    events := GroupedEvents(t0, step, runs, kind, cv);
  }

  /** Every frame of a low run was compared and is more than `tol` flat, so the
      event's average is below `-tol` and its `max_cents`, the run's minimum,
      is at most the average. */
  lemma LowEventBelowTolerance(cs: seq<FrameClass>, t0: seq<real>, step: real, tol: real, r: Run)
    requires |t0| == |cs| && IsMaximalRun(Flags(cs, Low, tol), r)
    ensures var e := GroupedEvent(t0, step, r, PitchLow, Some(CentsList(cs)));
            e.maxCents.value <= e.avgCents.value < -tol
  {
    var seg := CentsList(cs)[r.start..r.end];
    forall i | 0 <= i < |seg|
      ensures seg[i] < -tol
    {
      assert HasFlag(cs[r.start + i], Low, tol);
    }
    MeanBelow(seg, -tol);
    MeanBetween(seg);
  }

  /** Symmetrically, a high run's average is above `tol` and at most its `max_cents`. */
  lemma HighEventAboveTolerance(cs: seq<FrameClass>, t0: seq<real>, step: real, tol: real, r: Run)
    requires |t0| == |cs| && IsMaximalRun(Flags(cs, High, tol), r)
    ensures var e := GroupedEvent(t0, step, r, PitchHigh, Some(CentsList(cs)));
            tol < e.avgCents.value <= e.maxCents.value
  {
    var seg := CentsList(cs)[r.start..r.end];
    forall i | 0 <= i < |seg|
      ensures seg[i] > tol
    {
      assert HasFlag(cs[r.start + i], High, tol);
    }
    MeanAbove(seg, tol);
    MeanBetween(seg);
  }

  /** With ascending frame times an event lasts at least one hop. */
  lemma EventLastsAtLeastOneHop(t0: seq<real>, step: real, r: Run, kind: EventKind, cv: Option<seq<real>>)
    requires NonDecreasing(t0) && 0 <= r.start < r.end <= |t0|
    requires cv.Some? ==> |cv.value| == |t0|
    ensures var e := GroupedEvent(t0, step, r, kind, cv);
            e.end - e.start >= step
  {
    assert t0[r.start] <= t0[r.end - 1];
  }

  datatype Report = Report(summary: Summary, events: seq<Event>)

  /** Both files carry the same, present `sr` and `hop`. */
  predicate RatesAgree(ref: PitchFile, usr: PitchFile) {
    ref.sr == usr.sr && ref.hop == usr.hop && ref.sr.Some? && ref.hop.Some?
  }

  function FrameCount(ref: PitchFile, usr: PitchFile): nat {
    if |ref.track| <= |usr.track| then |ref.track| else |usr.track|
  }

  /** `hop / sr`, the length of one frame; only used when `sr != 0`. */
  function Step(ref: PitchFile): real
    requires ref.sr.Some? && ref.hop.Some?
  {
    if ref.sr.value != 0.0 then ref.hop.value / ref.sr.value else 0.0
  }

  /** The outcome for frame `i`, compared with the user frame of the same index. */
  function FrameResult(log2: real -> real, ref: PitchFile, usr: PitchFile, i: nat): Result<FrameClass, Error>
    requires i < FrameCount(ref, usr)
  {
    ClassifyFrame(log2, ref.track[i].f0, usr.track[i].f0)
  }

  /** `main` after loading the two analyses: check `sr`/`hop`, classify the
      common frames, summarise them and group the flagged runs into events
      (low, then high, then unvoiced-miss). */
  method MakeEventsAndSummary(log2: real -> real, ref: PitchFile, usr: PitchFile, tol: real)
    returns (r: Result<Report, Error>, cs: seq<FrameClass>, lowRuns: seq<Run>, highRuns: seq<Run>, missRuns: seq<Run>)
    ensures ref.sr != usr.sr || ref.hop != usr.hop ==> r == Err(RateMismatch)
    ensures ref.sr == usr.sr && ref.hop == usr.hop && (ref.sr.None? || ref.hop.None?) ==> r == Err(MissingRate)
    ensures RatesAgree(ref, usr) && FrameCount(ref, usr) > 0 && ref.sr.value == 0.0 ==> r == Err(ZeroDivision)
    ensures r.Ok? <==> RatesAgree(ref, usr) && (FrameCount(ref, usr) == 0 || ref.sr.value != 0.0)
                       && forall i :: 0 <= i < FrameCount(ref, usr) ==> FrameResult(log2, ref, usr, i).Ok?
    ensures r.Err? && RatesAgree(ref, usr) && ref.sr.value != 0.0 ==>
              exists i :: 0 <= i < FrameCount(ref, usr) && FrameResult(log2, ref, usr, i) == Err(r.error)
                          && forall k :: 0 <= k < i ==> FrameResult(log2, ref, usr, k).Ok?
    ensures r.Ok? ==>
              var n := FrameCount(ref, usr);
              var t0 := Times(ref.track)[..n];
              var step := Step(ref);
              |cs| == n
              && (forall i :: 0 <= i < n ==> FrameResult(log2, ref, usr, i) == Ok(cs[i]))
              && r.value.summary == Summarize(cs, t0, step, tol)
              && IsRunList(Flags(cs, Low, tol), 1, lowRuns)
              && IsRunList(Flags(cs, High, tol), 1, highRuns)
              && IsRunList(Flags(cs, Missed, tol), 1, missRuns)
              && RunsWithin(lowRuns, n) && RunsWithin(highRuns, n) && RunsWithin(missRuns, n)
              && r.value.events == GroupedEvents(t0, step, lowRuns, PitchLow, Some(CentsList(cs)))
                                   + GroupedEvents(t0, step, highRuns, PitchHigh, Some(CentsList(cs)))
                                   + GroupedEvents(t0, step, missRuns, UnvoicedMiss, None)
  {
    cs, lowRuns, highRuns, missRuns := [], [], [], [];
    if ref.sr != usr.sr || ref.hop != usr.hop {
      return Err(RateMismatch), cs, lowRuns, highRuns, missRuns;
    }
    if ref.sr.None? || ref.hop.None? {
      return Err(MissingRate), cs, lowRuns, highRuns, missRuns;
    }
    var n := FrameCount(ref, usr);
    if n > 0 && ref.sr.value == 0.0 {
      return Err(ZeroDivision), cs, lowRuns, highRuns, missRuns;
    }
    var step := Step(ref);
    var i := 0;
    while i < n
      invariant 0 <= i <= n && |cs| == i
      invariant forall k :: 0 <= k < i ==> FrameResult(log2, ref, usr, k) == Ok(cs[k])
    {
      var fc := FrameResult(log2, ref, usr, i);
      if fc.Err? {
        return Err(fc.error), [], [], [], [];
      }
      cs := cs + [fc.value];
      i := i + 1;
    }
    var t0 := Times(ref.track)[..n];
    var summary := Summarize(cs, t0, step, tol);
    var cents := CentsList(cs);
    var lows, highs, misses;
    lowRuns, lows := GroupEvents(Flags(cs, Low, tol), t0, step, PitchLow, Some(cents));
    highRuns, highs := GroupEvents(Flags(cs, High, tol), t0, step, PitchHigh, Some(cents));
    missRuns, misses := GroupEvents(Flags(cs, Missed, tol), t0, step, UnvoicedMiss, None);
    r := Ok(Report(summary, lows + highs + misses));
  }
}
