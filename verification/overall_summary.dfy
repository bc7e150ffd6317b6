/** tools/05_overall_summary.py: align the user track to the reference, take
    the cents of the frames voiced in both, estimate how many seconds of
    singing they cover, share them out into within / low / high the
    tolerance, add the unvoiced-miss time from an events file when there is
    one, and give one overall verdict. */
module OverallSummary {
  import opened Wrappers
  import opened Numeric
  import opened Stats
  import opened Frames
  import opened Events

  /** The exceptions `main` can stop with. */
  datatype Error =
    | EmptyUserTrack  // numpy indexes an empty user track while aligning
    | ZeroDivision    // `len(t_ref) / fps` with `fps == sr / hop == 0`
    | MissingStart    // an event of the counted type without a `start` key

  const DefaultTolCents: real := 40.0
  const DefaultMinSeconds: real := 15.0
  const DefaultSr: real := 44100.0
  const DefaultHop: real := 256.0
  /** A median offset of this many cents reads as clearly low or high. */
  const BiasCents: real := 20.0
  /** A low-versus-high share difference of this much reads as a lean. */
  const SkewShare: real := 0.15
  /** Below this share within the tolerance the singing is unsteady... */
  const MinWithinShare: real := 0.55
  /** ...and so it is with a spread above this many cents. */
  const MaxStdCents: real := 120.0

  function Sr(p: PitchFile): real {
    p.sr.GetOr(DefaultSr)
  }

  function Hop(p: PitchFile): real {
    p.hop.GetOr(DefaultHop)
  }

  // ---------------------------------------------------------------------------
  // Events read back from an events file
  // ---------------------------------------------------------------------------

  /** One event object as read from JSON: each key may be missing. */
  datatype EventRecord = EventRecord(tag: Option<string>, start: Option<real>, end: Option<real>)

  /** `(evtype is None) or (e.get("type") == evtype)`. */
  predicate Matches(e: EventRecord, evtype: Option<string>) {
    evtype.None? || e.tag == evtype
  }

  /** A counted event whose `e["start"]` raises `KeyError`. */
  predicate LacksStart(e: EventRecord, evtype: Option<string>) {
    Matches(e, evtype) && e.start.None?
  }

  /** `e.get("end", e["start"]) - e["start"]`: an event without `end` lasts 0 s. */
  function Span(e: EventRecord): real
    requires e.start.Some?
  {
    e.end.GetOr(e.start.value) - e.start.value
  }

  /** One turn of the loop of `dur_from_events`. */
  function AddEvent(acc: Result<real, Error>, e: EventRecord, evtype: Option<string>): (r: Result<real, Error>)
    ensures !Matches(e, evtype) ==> r == acc
    ensures r.Err? <==> acc.Err? || LacksStart(e, evtype)
  {
    match acc
    case Err(err) => Err(err)
    case Ok(s) =>
      if !Matches(e, evtype) then Ok(s)
      else if e.start.None? then Err(MissingStart)
      else Ok(s + Span(e))
  }

  /** The loop of `dur_from_events` before the final clamp at zero. */
  function RawDuration(ev: seq<EventRecord>, evtype: Option<string>): (r: Result<real, Error>)
    ensures r.Err? <==> exists i :: 0 <= i < |ev| && LacksStart(ev[i], evtype)
    ensures r.Err? ==> r.error == MissingStart
    decreases |ev|
  {
    if |ev| == 0 then Ok(0.0)
    else
      var init := ev[..|ev| - 1];
      assert forall i :: 0 <= i < |init| ==> init[i] == ev[i];
      AddEvent(RawDuration(init, evtype), ev[|ev| - 1], evtype)
  }

  /** `dur_from_events(ev, evtype)`: the total span of the counted events,
      never negative; no events file counts zero. */
  function DurFromEvents(ev: Option<seq<EventRecord>>, evtype: Option<string>): (r: Result<real, Error>)
    ensures ev.None? ==> r == Ok(0.0)
    ensures r.Ok? ==> r.value >= 0.0
    ensures r.Err? <==> ev.Some? && exists i :: 0 <= i < |ev.value| && LacksStart(ev.value[i], evtype)
    ensures r.Err? ==> r.error == MissingStart
  {
    if ev.None? then Ok(0.0)
    else
      match RawDuration(ev.value, evtype)
      case Err(err) => Err(err)
      case Ok(s) => Ok(Max(0.0, s))
  }

  /** The counted events of `ev`, in order. */
  function Counted(ev: seq<EventRecord>, evtype: Option<string>): (r: seq<EventRecord>)
    ensures forall e :: e in r <==> e in ev && Matches(e, evtype)
    decreases |ev|
  {
    if |ev| == 0 then []
    else
      var init := ev[..|ev| - 1];
      var e := ev[|ev| - 1];
      assert ev == init + [e];
      if Matches(e, evtype) then Counted(init, evtype) + [e] else Counted(init, evtype)
  }

  /** Events of other types, however malformed, change nothing. */
  lemma {:induction false} OtherTypesIgnored(ev: seq<EventRecord>, evtype: Option<string>)
    ensures RawDuration(ev, evtype) == RawDuration(Counted(ev, evtype), evtype)
    decreases |ev|
  {
    if |ev| > 0 {
      var init := ev[..|ev| - 1];
      var e := ev[|ev| - 1];
      OtherTypesIgnored(init, evtype);
      var c := Counted(init, evtype);
      if Matches(e, evtype) {
        var ce := c + [e];
        assert ce[..|ce| - 1] == c && ce[|ce| - 1] == e;
      }
    }
  }

  /** Joining two event lists adds their raw durations. */
  lemma {:induction false} RawDurationAppend(a: seq<EventRecord>, b: seq<EventRecord>, evtype: Option<string>)
    requires RawDuration(a, evtype).Ok? && RawDuration(b, evtype).Ok?
    ensures RawDuration(a + b, evtype) == Ok(RawDuration(a, evtype).value + RawDuration(b, evtype).value)
    decreases |b|
  {
    if |b| == 0 {
      assert a + b == a;
    } else {
      var ab := a + b;
      assert ab[..|ab| - 1] == a + b[..|b| - 1];
      assert ab[|ab| - 1] == b[|b| - 1];
      RawDurationAppend(a, b[..|b| - 1], evtype);
    }
  }

  /** Every counted event has a start and does not end before it. */
  predicate Forward(ev: seq<EventRecord>, evtype: Option<string>) {
    forall i :: 0 <= i < |ev| && Matches(ev[i], evtype) ==>
      ev[i].start.Some? && (ev[i].end.Some? ==> ev[i].start.value <= ev[i].end.value)
  }

  /** On forward events the raw sum is already non-negative. */
  lemma {:induction false} ForwardRawNonNegative(ev: seq<EventRecord>, evtype: Option<string>)
    requires Forward(ev, evtype)
    ensures RawDuration(ev, evtype).Ok? && RawDuration(ev, evtype).value >= 0.0
    decreases |ev|
  {
    if |ev| > 0 {
      var init := ev[..|ev| - 1];
      assert forall i :: 0 <= i < |init| ==> init[i] == ev[i];
      ForwardRawNonNegative(init, evtype);
    }
  }

  /** For forward events the clamp never bites, and the durations of two
      event files add up. */
  lemma DurationsAdd(a: seq<EventRecord>, b: seq<EventRecord>, evtype: Option<string>)
    requires Forward(a, evtype) && Forward(b, evtype)
    ensures DurFromEvents(Some(a + b), evtype).Ok?
    ensures DurFromEvents(Some(a + b), evtype).value
            == DurFromEvents(Some(a), evtype).value + DurFromEvents(Some(b), evtype).value
  {
    ForwardRawNonNegative(a, evtype);
    ForwardRawNonNegative(b, evtype);
    RawDurationAppend(a, b, evtype);
  }

  // ---------------------------------------------------------------------------
  // The voiced cents and the seconds they cover
  // ---------------------------------------------------------------------------

  /** `fps = sr / hop if hop else 1 / median(diff(t_ref))` and
      `seconds = len(t_ref) / fps` for `n` voiced frames. `None` is numpy's NaN
      (the median of no spacings). */
  function DataSeconds(ref: PitchFile, n: nat): (r: Result<Option<real>, Error>)
    ensures r.Err? <==> Hop(ref) != 0.0 && Sr(ref) == 0.0
    ensures r.Err? ==> r.error == ZeroDivision
    ensures Hop(ref) != 0.0 && Sr(ref) != 0.0 ==> r == Ok(Some(FramesTime(n, Hop(ref) / Sr(ref))))
    ensures Hop(ref) == 0.0 && |ref.track| < 2 ==> r == Ok(None)
    ensures Hop(ref) == 0.0 && |ref.track| >= 2 ==> r == Ok(Some(FramesTime(n, Median(Diff(Times(ref.track))))))
  {
    var hop, sr := Hop(ref), Sr(ref);
    if hop != 0.0 then
      var r := SecondsFromRate(n, sr, hop);
      assert sr != 0.0 ==> r == Ok(Some(FramesTime(n, hop / sr)));
      r
    else Ok(SecondsFromSpacing(n, Times(ref.track)))
  }

  /** `fps = sr / hop` is a Python float, so a zero `sr` raises on division;
      otherwise each frame lasts one hop. */
  function SecondsFromRate(n: nat, sr: real, hop: real): (r: Result<Option<real>, Error>)
    requires hop != 0.0
    ensures r.Err? <==> sr == 0.0
    ensures r.Err? ==> r.error == ZeroDivision
    ensures sr != 0.0 ==> r == Ok(Some(FramesTime(n, hop / sr)))
  {
    RateFacts(n as real, sr, hop);
    var fps := sr / hop;
    if fps == 0.0 then Err(ZeroDivision)
    else
      var seconds := n as real / fps;
      assert seconds == FramesTime(n, hop / sr);
      Ok(Some(seconds))
  }

  /** Without a hop each frame lasts the median spacing of the reference
      times. Fewer than two frames have no spacing and numpy's median is NaN;
      a zero median makes numpy's `fps` infinite and the seconds 0. */
  function SecondsFromSpacing(n: nat, t: seq<real>): (r: Option<real>)
    ensures |t| < 2 <==> r.None?
    ensures |t| >= 2 ==> r == Some(FramesTime(n, Median(Diff(t))))
  {
    if |t| < 2 then None
    else
      var md := Median(Diff(t));
      Some(SpacingSeconds(n, md))
  }

  /** `len(t_ref) / (1 / md)`: a zero spacing gives numpy's infinite `fps`,
      and so 0 seconds. */
  function SpacingSeconds(n: nat, md: real): (s: real)
    ensures s == FramesTime(n, md)
  {
    if md == 0.0 then 0.0
    else
      RateFacts(n as real, 1.0, md);
      var seconds := n as real / (1.0 / md);
      assert seconds == n as real * md;
      seconds
  }

  /** A rate `sr / hop` is zero only for a zero `sr`, and dividing by it is
      multiplying by the time per frame. */
  lemma RateFacts(n: real, sr: real, hop: real)
    requires hop != 0.0
    ensures sr / hop == 0.0 <==> sr == 0.0
    ensures sr != 0.0 ==> n / (sr / hop) == n * (hop / sr)
  {
    if sr / hop == 0.0 {
      assert sr == (sr / hop) * hop;
    }
  }

  // ---------------------------------------------------------------------------
  // Shares of the voiced cents
  // ---------------------------------------------------------------------------

  datatype Band = InTol | TooLow | TooHigh

  /** `abs(c) <= tol`, `c < -tol`, `c > tol`. */
  predicate InBand(c: real, band: Band, tol: real) {
    match band
    case InTol => Abs(c) <= tol
    case TooLow => c < -tol
    case TooHigh => c > tol
  }

  /** The masks `within`, `low` and `high`. */
  function BandMask(cents: seq<real>, band: Band, tol: real): (m: seq<bool>)
    ensures |m| == |cents| && forall i :: 0 <= i < |cents| ==> (m[i] <==> InBand(cents[i], band, tol))
  {
    seq(|cents|, i requires 0 <= i < |cents| => InBand(cents[i], band, tol))
  }

  function BandCount(cents: seq<real>, band: Band, tol: real): nat {
    CountTrue(BandMask(cents, band, tol))
  }

  lemma BandCountLast(cents: seq<real>, band: Band, tol: real)
    requires |cents| > 0
    ensures var last := cents[|cents| - 1];
            BandCount(cents, band, tol) == BandCount(cents[..|cents| - 1], band, tol) + (if InBand(last, band, tol) then 1 else 0)
  {
    var init, last := cents[..|cents| - 1], cents[|cents| - 1];
    assert BandMask(cents, band, tol) == BandMask(init, band, tol) + [InBand(last, band, tol)];
    CountTrueAppend(BandMask(init, band, tol), [InBand(last, band, tol)]);
  }

  /** With a non-negative tolerance each cent is in exactly one band. */
  lemma {:induction false} BandPartition(cents: seq<real>, tol: real)
    requires tol >= 0.0
    ensures BandCount(cents, InTol, tol) + BandCount(cents, TooLow, tol) + BandCount(cents, TooHigh, tol) == |cents|
    decreases |cents|
  {
    if |cents| > 0 {
      BandPartition(cents[..|cents| - 1], tol);
      BandCountLast(cents, InTol, tol);
      BandCountLast(cents, TooLow, tol);
      BandCountLast(cents, TooHigh, tol);
    }
  }

  /** A band no cent falls in counts zero. */
  lemma EmptyBand(cents: seq<real>, band: Band, tol: real)
    requires forall i :: 0 <= i < |cents| ==> !InBand(cents[i], band, tol)
    ensures BandCount(cents, band, tol) == 0
  {
    CountTrueNone(BandMask(cents, band, tol));
  }

  /** `np.nanmean(mask)`: the share of voiced frames in a band. */
  function Ratio(cents: seq<real>, band: Band, tol: real): (p: real)
    requires |cents| > 0
    ensures 0.0 <= p <= 1.0
  {
    Fraction(BandCount(cents, band, tol), |cents|)
  }

  /** With a non-negative tolerance the three shares add up to one. */
  lemma RatiosAddUp(cents: seq<real>, tol: real)
    requires |cents| > 0 && tol >= 0.0
    ensures Ratio(cents, InTol, tol) + Ratio(cents, TooLow, tol) + Ratio(cents, TooHigh, tol) == 1.0
  {
    BandPartition(cents, tol);
    SharesOfWhole(BandCount(cents, InTol, tol) as real, BandCount(cents, TooLow, tol) as real,
                  BandCount(cents, TooHigh, tol) as real, |cents| as real);
  }

  // ---------------------------------------------------------------------------
  // The verdict
  // ---------------------------------------------------------------------------

  datatype OverallVerdict = InsufficientData | OverallLow | OverallHigh | Inconsistent | MostlyOk

  /** `seconds >= MIN_SECONDS and cents.size`; a NaN `seconds` compares false. */
  predicate Sufficient(seconds: Option<real>, cents: seq<real>, minSeconds: real) {
    seconds.Some? && seconds.value >= minSeconds && |cents| > 0
  }

  /** `p_high - p_low`: positive when the singing leans sharp. */
  function Skew(cents: seq<real>, tol: real): real
    requires |cents| > 0
  {
    Ratio(cents, TooHigh, tol) - Ratio(cents, TooLow, tol)
  }

  /** `bias <= -20 or diff_ratio <= -0.15`. */
  predicate LeansLow(cents: seq<real>, tol: real)
    requires |cents| > 0
  {
    Median(cents) <= -BiasCents || Skew(cents, tol) <= -SkewShare
  }

  /** `bias >= 20 or diff_ratio >= 0.15`. */
  predicate LeansHigh(cents: seq<real>, tol: real)
    requires |cents| > 0
  {
    Median(cents) >= BiasCents || Skew(cents, tol) >= SkewShare
  }

  /** `p_within < 0.55 or std_c > 120`. */
  predicate Unsteady(cents: seq<real>, tol: real)
    requires |cents| > 0
  {
    Ratio(cents, InTol, tol) < MinWithinShare || Variance(cents) > MaxStdCents * MaxStdCents
  }

  /** The rule cascade. The bias is the median, which is never NaN once there
      are cents, so the script's fall-back to the mean is never taken.
      `std > 120` is compared as `variance > 120 ** 2`. */
  function Judge(seconds: Option<real>, cents: seq<real>, tol: real, minSeconds: real): (v: OverallVerdict)
    ensures v == InsufficientData <==> !Sufficient(seconds, cents, minSeconds)
  {
    if !Sufficient(seconds, cents, minSeconds) then InsufficientData
    else
      if LeansLow(cents, tol) then OverallLow
      else if LeansHigh(cents, tol) then OverallHigh
      else if Unsteady(cents, tol) then Inconsistent
      else MostlyOk
  }

  /** What "mostly ok" guarantees: enough data, a median within 20 cents, no
      lean of 0.15 either way, at least 55% within the tolerance, a spread of at
      most 120 cents, and so at most 45% outside the tolerance. */
  lemma MostlyOkMeaning(seconds: Option<real>, cents: seq<real>, tol: real, minSeconds: real)
    requires Judge(seconds, cents, tol, minSeconds) == MostlyOk
    ensures Sufficient(seconds, cents, minSeconds)
    ensures -BiasCents < Median(cents) < BiasCents
    ensures -SkewShare < Skew(cents, tol) < SkewShare
    ensures Ratio(cents, InTol, tol) >= MinWithinShare
    ensures Variance(cents) <= MaxStdCents * MaxStdCents
    ensures tol >= 0.0 ==> Ratio(cents, TooLow, tol) + Ratio(cents, TooHigh, tol) <= 1.0 - MinWithinShare
  {
    if tol >= 0.0 {
      RatiosAddUp(cents, tol);
    }
  }

  /** Singing flat by 20 cents or more throughout is judged low. */
  lemma FlatThroughoutIsLow(seconds: Option<real>, cents: seq<real>, tol: real, minSeconds: real)
    requires Sufficient(seconds, cents, minSeconds)
    requires forall i :: 0 <= i < |cents| ==> cents[i] <= -BiasCents
    ensures Judge(seconds, cents, tol, minSeconds) == OverallLow
  {
    var hi := SeqMax(cents);
    assert hi <= -BiasCents;
  }

  /** Singing sharp by 20 cents or more throughout is judged high. */
  lemma SharpThroughoutIsHigh(seconds: Option<real>, cents: seq<real>, tol: real, minSeconds: real)
    requires Sufficient(seconds, cents, minSeconds) && tol >= 0.0
    requires forall i :: 0 <= i < |cents| ==> cents[i] >= BiasCents
    ensures Judge(seconds, cents, tol, minSeconds) == OverallHigh
  {
    var lo := SeqMin(cents);
    assert lo >= BiasCents;
    EmptyBand(cents, TooLow, tol);
    assert Ratio(cents, TooLow, tol) == 0.0;
  }

  /** Staying within `b < 20` cents of the reference, with `b` inside the
      tolerance, is judged mostly ok. */
  lemma SteadyAndCentredIsMostlyOk(seconds: Option<real>, cents: seq<real>, tol: real, minSeconds: real, b: real)
    requires Sufficient(seconds, cents, minSeconds)
    requires 0.0 <= b < BiasCents && b <= tol
    requires forall i :: 0 <= i < |cents| ==> Abs(cents[i]) <= b
    ensures Judge(seconds, cents, tol, minSeconds) == MostlyOk
  {
    var lo, hi := SeqMin(cents), SeqMax(cents);
    assert -b <= lo && hi <= b;
    assert -BiasCents < Median(cents) < BiasCents;
    EmptyBand(cents, TooLow, tol);
    EmptyBand(cents, TooHigh, tol);
    assert Skew(cents, tol) == 0.0;
    assert !LeansLow(cents, tol) && !LeansHigh(cents, tol);
    BandPartition(cents, tol);
    assert BandCount(cents, InTol, tol) == |cents|;
    FractionWhole(|cents|);
    SmallSpread(cents, b);
    assert !Unsteady(cents, tol);
  }

  /** Samples within 20 cents of zero have a spread below 120 cents. */
  lemma SmallSpread(xs: seq<real>, b: real)
    requires |xs| > 0 && 0.0 <= b < BiasCents
    requires forall i :: 0 <= i < |xs| ==> Abs(xs[i]) <= b
    ensures Variance(xs) <= MaxStdCents * MaxStdCents
  {
    var w := 2.0 * b;
    VarianceWithin(xs, b);
    assert Variance(xs) <= w * w;
    MulMonotone(w, w, 40.0);
    assert w * w <= w * 40.0;
    assert w * 40.0 <= 1600.0;
    assert Variance(xs) <= 1600.0;
    assert MaxStdCents * MaxStdCents == 14400.0;
  }

  /** Samples within `[-b, b]` have a variance of at most `(2b)^2`. */
  lemma VarianceWithin(xs: seq<real>, b: real)
    requires |xs| > 0
    requires forall i :: 0 <= i < |xs| ==> Abs(xs[i]) <= b
    ensures Variance(xs) <= (2.0 * b) * (2.0 * b)
  {
    var m := Mean(xs);
    MeanAtLeast(xs, -b);
    MeanAtMost(xs, b);
    var d := SquaredDeviations(xs, m);
    var bound := (2.0 * b) * (2.0 * b);
    forall i | 0 <= i < |d|
      ensures d[i] <= bound
    {
      assert Abs(xs[i] - m) <= 2.0 * b;
      SquareBound(xs[i] - m, 2.0 * b);
    }
    SumAtMost(d, bound);
    AverageBound(Sum(d), |xs| as real, bound);
  }

  lemma AverageBound(s: real, n: real, c: real)
    requires n > 0.0 && s <= n * c
    ensures s / n <= c
  {
    assert s / n <= (n * c) / n;
  }

  /** `|x| <= d` bounds `x * x` by `d * d`. */
  lemma SquareBound(x: real, d: real)
    requires Abs(x) <= d
    ensures x * x <= d * d
  {
    var a := Abs(x);
    assert x * x == a * a;
    MulMonotone(a, a, d);
    MulMonotone(d, a, d);
  }

  // ---------------------------------------------------------------------------
  // main
  // ---------------------------------------------------------------------------

  /** The statistics of the voiced cents; `varianceCents` is the square of
      `std_cents`. */
  datatype CentStats = CentStats(
    meanCents: real,
    medianCents: real,
    varianceCents: real,
    percentWithinTol: real,
    percentLow: real,
    percentHigh: real,
    p10Cents: real,
    p90Cents: real)

  /** The summary file. `seconds` is `None` when it is NaN; `stats` is `None`
      when there are no voiced cents, and the script then writes null for each
      of them. Output rounding is not applied. */
  datatype OverallReport = OverallReport(
    tolCents: real,
    frames: nat,
    seconds: Option<real>,
    stats: Option<CentStats>,
    unvoicedMissSeconds: Option<real>,
    verdict: OverallVerdict)

  /** `mean_c`, `med_c`, `std_c`, the three shares and `p10` / `p90`. */
  function Describe(cents: seq<real>, tol: real): (st: CentStats)
    requires |cents| > 0
    ensures st.percentWithinTol == Ratio(cents, InTol, tol)
    ensures st.percentLow == Ratio(cents, TooLow, tol) && st.percentHigh == Ratio(cents, TooHigh, tol)
    ensures st.medianCents == Median(cents)
    ensures SeqMin(cents) <= st.p10Cents <= st.medianCents <= st.p90Cents <= SeqMax(cents)
    ensures SeqMin(cents) <= st.meanCents <= SeqMax(cents)
    ensures 0.0 <= st.varianceCents
  {
    MeanBetween(cents);
    PercentileMonotone(cents, 0.1, 0.5);
    PercentileMonotone(cents, 0.5, 0.9);
    MedianIsPercentile(cents);
    CentStats(
      Mean(cents), Median(cents), Variance(cents),
      Ratio(cents, InTol, tol), Ratio(cents, TooLow, tol), Ratio(cents, TooHigh, tol),
      Percentile(cents, 0.1), Percentile(cents, 0.9))
  }

  /** The report for the voiced cents, the seconds and the miss time. */
  function Report(cents: seq<real>, seconds: Option<real>, tol: real, minSeconds: real, uv: Option<real>): (s: OverallReport)
    ensures s.frames == |cents| && s.seconds == seconds && s.unvoicedMissSeconds == uv
    ensures s.stats.None? <==> |cents| == 0
    ensures s.stats.None? ==> s.verdict == InsufficientData
  {
    OverallReport(tol, |cents|, seconds,
                  if |cents| == 0 then None else Some(Describe(cents, tol)),
                  uv, Judge(seconds, cents, tol, minSeconds))
  }

  /** `uv_sec` as written: the unvoiced-miss seconds when the events file
      exists, parses and is not empty, otherwise null. */
  function MissSeconds(ev: Option<seq<EventRecord>>): (r: Result<Option<real>, Error>)
    ensures r.Ok? && r.value.Some? ==> r.value.value >= 0.0
    ensures r == Ok(None) <==> ev.None? || |ev.value| == 0
    ensures r.Err? <==> ev.Some? && exists i :: 0 <= i < |ev.value| && LacksStart(ev.value[i], Some("unvoiced_miss"))
    ensures r.Err? ==> r.error == MissingStart
  {
    if ev.None? || |ev.value| == 0 then Ok(None)
    else
      match DurFromEvents(ev, Some("unvoiced_miss"))
      case Err(e) => Err(e)
      case Ok(s) => Ok(Some(s))
  }

  /** `main` after loading: `ev` is the parsed events file, absent when it is
      missing or does not parse. */
  function OverallSummaryOf(log2: real -> real, ref: PitchFile, usr: PitchFile, ev: Option<seq<EventRecord>>, tol: real, minSeconds: real)
    : (r: Result<OverallReport, Error>)
    ensures r == Err(EmptyUserTrack) <==> |usr.track| == 0 && |ref.track| > 0
    ensures r == Err(ZeroDivision) <==> (|usr.track| > 0 || |ref.track| == 0) && Hop(ref) != 0.0 && Sr(ref) == 0.0
    ensures r == Err(MissingStart) <==>
              (|usr.track| > 0 || |ref.track| == 0) && !(Hop(ref) != 0.0 && Sr(ref) == 0.0)
              && ev.Some? && exists i :: 0 <= i < |ev.value| && LacksStart(ev.value[i], Some("unvoiced_miss"))
    ensures r.Ok? ==>
              var cents := VoicedCents(log2, ref, usr);
              r.value == Report(cents, DataSeconds(ref, |cents|).value, tol, minSeconds, MissSeconds(ev).value)
  {
    if |usr.track| == 0 && |ref.track| > 0 then Err(EmptyUserTrack)
    else SummaryOfCents(VoicedCents(log2, ref, usr), ref, ev, tol, minSeconds)
  }

  /** The summary once the voiced cents are known: the seconds, then the miss time. */
  function SummaryOfCents(cents: seq<real>, ref: PitchFile, ev: Option<seq<EventRecord>>, tol: real, minSeconds: real)
    : (r: Result<OverallReport, Error>)
    ensures r.Err? ==> r.error == ZeroDivision || r.error == MissingStart
    ensures r.Err? && r.error == ZeroDivision <==> Hop(ref) != 0.0 && Sr(ref) == 0.0
    ensures r.Err? && r.error == MissingStart <==>
              !(Hop(ref) != 0.0 && Sr(ref) == 0.0)
              && ev.Some? && exists i :: 0 <= i < |ev.value| && LacksStart(ev.value[i], Some("unvoiced_miss"))
    ensures r.Ok? ==> DataSeconds(ref, |cents|).Ok? && MissSeconds(ev).Ok?
    ensures r.Ok? ==> r.value == Report(cents, DataSeconds(ref, |cents|).value, tol, minSeconds, MissSeconds(ev).value)
  {
    var ds := DataSeconds(ref, |cents|);
    if ds.Err? then Err(ds.error)
    else
      var ms := MissSeconds(ev);
      if ms.Err? then Err(ms.error)
      else Ok(Report(cents, ds.value, tol, minSeconds, ms.value))
  }
}
