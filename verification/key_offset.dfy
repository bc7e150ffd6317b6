/** tools/06_key_offset_check.py: is the user singing in another key or an
    octave away? The cents between the aligned user f0 and the reference f0
    are summarised by their median; the median rounded to semitones is the
    key offset, rounded to octaves it is `k_oct`, and removing `k_oct`
    octaves gives the "wrapped" cents whose spread and share within 40 cents
    describe how well the user follows once the octave is discounted. */
module KeyOffset {
  import opened Wrappers
  import opened Numeric
  import opened Stats
  import opened Frames
  import opened Text

  const SemitoneCents: real := 100.0
  const OctaveCents: real := 1200.0
  const WithinCents: real := 40.0
  /** How close the median must lie to a whole number of octaves. */
  const OctaveWindowCents: real := 200.0

  datatype Verdict = OctaveShift | KeyShift

  /** `int(round(med / 100.0))`: the median in semitones, ties to even. */
  function SemitoneOffset(med: real): (semi: int)
    ensures Abs(med - semi as real * SemitoneCents) <= 50.0
  {
    var semi := RoundHalfEven(med / SemitoneCents);
    assert med / SemitoneCents - 0.5 <= semi as real <= med / SemitoneCents + 0.5;
    semi
  }

  /** `int(round(med / 1200.0))`: the median in octaves, ties to even. */
  function OctaveK(med: real): (k: int)
    ensures Abs(med - k as real * OctaveCents) <= 600.0
  {
    var k := RoundHalfEven(med / OctaveCents);
    assert med / OctaveCents - 0.5 <= k as real <= med / OctaveCents + 0.5;
    k
  }

  /** How far the median lies from `j` whole octaves. */
  function OctaveDistance(med: real, j: int): real {
    Abs(med - OctaveCents * j as real)
  }

  /** `abs(k_oct) >= 1 and abs(med - 1200 * k_oct) < 200`. */
  predicate LikelyOctave(med: real, k: int) {
    (k >= 1 || k <= -1) && OctaveDistance(med, k) < OctaveWindowCents
  }

  function VerdictOf(med: real): Verdict {
    if LikelyOctave(med, OctaveK(med)) then OctaveShift else KeyShift
  }

  /** A median within 200 cents of a whole, non-zero number of octaves always
      rounds to that number, so the verdict does not depend on the rounding
      rule: it is an octave shift exactly when such a number exists. */
  lemma OctaveVerdictMeaning(med: real)
    ensures VerdictOf(med) == OctaveShift <==> exists j: int :: j != 0 && OctaveDistance(med, j) < OctaveWindowCents
  {
    if exists j: int :: j != 0 && OctaveDistance(med, j) < OctaveWindowCents {
      var j: int :| j != 0 && OctaveDistance(med, j) < OctaveWindowCents;
      NearOctaveRounds(med, j);
    }
  }

  lemma NearOctaveRounds(med: real, j: int)
    requires OctaveDistance(med, j) < OctaveWindowCents
    ensures OctaveK(med) == j
  {
    var x := med / OctaveCents;
    assert med == x * OctaveCents;
    assert x - 0.5 < j as real < x + 0.5;
    RoundHalfEvenUnique(x, j);
  }

  /** Medians between 1000 and 1400 cents from zero are octave shifts; within
      1000 cents they are key shifts. */
  lemma OctaveBands(med: real)
    ensures 1000.0 < Abs(med) < 1400.0 ==> VerdictOf(med) == OctaveShift
    ensures Abs(med) <= 1000.0 ==> VerdictOf(med) == KeyShift
  {
    if 1000.0 < med < 1400.0 {
      NearOctaveRounds(med, 1);
    } else if -1400.0 < med < -1000.0 {
      NearOctaveRounds(med, -1);
    }
    var k := OctaveK(med);
    if k >= 1 {
      assert OctaveCents * k as real >= 1200.0;
    } else if k <= -1 {
      assert OctaveCents * k as real <= -1200.0;
    }
  }

  /** `np.abs(wrapped) <= 40.0`, inclusive. */
  function WithinMask(w: seq<real>): (m: seq<bool>)
    ensures |m| == |w| && forall i :: 0 <= i < |w| ==> (m[i] <==> Abs(w[i]) <= WithinCents)
  {
    seq(|w|, i requires 0 <= i < |w| => Abs(w[i]) <= WithinCents)
  }

  /** `float(np.nanmean(np.abs(wrapped) <= 40.0)) if wrapped.size else nan`. */
  function Within40(w: seq<real>): (p: Option<real>)
    ensures p.None? <==> |w| == 0
    ensures p.Some? ==> 0.0 <= p.value <= 1.0
  {
    if |w| == 0 then None else Some(Fraction(CountTrue(WithinMask(w)), |w|))
  }

  /** Every wrapped value within 40 cents gives a share of one; none gives zero. */
  lemma Within40Extremes(w: seq<real>)
    requires |w| > 0
    ensures (forall i :: 0 <= i < |w| ==> Abs(w[i]) <= WithinCents) ==> Within40(w) == Some(1.0)
    ensures (forall i :: 0 <= i < |w| ==> Abs(w[i]) > WithinCents) ==> Within40(w) == Some(0.0)
  {
    var m := WithinMask(w);
    if forall i :: 0 <= i < |w| ==> Abs(w[i]) <= WithinCents {
      AllTrueCount(m);
      FractionWhole(|w|);
    }
    if forall i :: 0 <= i < |w| ==> Abs(w[i]) > WithinCents {
      CountTrueNone(m);
    }
  }

  /** A mask that is true everywhere counts its length. */
  lemma {:induction false} AllTrueCount(m: seq<bool>)
    requires forall i :: 0 <= i < |m| ==> m[i]
    ensures CountTrue(m) == |m|
    decreases |m|
  {
    if |m| > 0 {
      AllTrueCount(m[..|m| - 1]);
    }
  }

  // ---------------------------------------------------------------------------
  // Japanese wording
  // ---------------------------------------------------------------------------

  const OctaveNote: string := "オクターブ: 同じメロディを“高さが半分/倍”で歌うこと（とても低い/高い）。"
  const SemitoneNote: string := "半音: ピアノの隣の鍵盤1つ分の差。カラオケのキー『±1』が半音1つ。"
  const CentsNote: string := "セント: 半音を100に細かく割ったもの。±20～40くらいならわずかなズレ。"

  function Indicator(b: bool): nat {
    if b then 1 else 0
  }

  /** `glossary_items`: the explanation of each term asked for, in the fixed
      order octave, semitone, cents. */
  function GlossaryItems(useOctave: bool, useSemitone: bool, useCents: bool): (items: seq<string>)
    ensures |items| == Indicator(useOctave) + Indicator(useSemitone) + Indicator(useCents)
    ensures OctaveNote in items <==> useOctave
    ensures SemitoneNote in items <==> useSemitone
    ensures CentsNote in items <==> useCents
  {
    (if useOctave then [OctaveNote] else [])
    + (if useSemitone then [SemitoneNote] else [])
    + (if useCents then [CentsNote] else [])
  }

  /** Each requested note comes before the ones requested after it. */
  lemma GlossaryOrder(useOctave: bool, useSemitone: bool, useCents: bool)
    ensures var items := GlossaryItems(useOctave, useSemitone, useCents);
            (useOctave ==> items[0] == OctaveNote)
            && (useSemitone ==> items[Indicator(useOctave)] == SemitoneNote)
            && (useCents ==> items[|items| - 1] == CentsNote)
  {
  }

  const OctavePrefix: string := "オクターブ"
  const OriginalKey: string := "ほぼ原キー（半音ズレなし）"

  predicate StartsWith(s: string, p: string) {
    |p| <= |s| && s[..|p|] == p
  }

  predicate EndsWith(s: string, p: string) {
    |p| <= |s| && s[|s| - |p|..] == p
  }

  /** The closing words of the key message, by the sign of the shift. */
  const Lower: string := "つ分低い（−）"
  const Higher: string := "つ分高い（＋）"

  /** `ja_verdict(verdict, k_oct, semi)`. */
  function JaVerdict(verdict: Verdict, k: int, semi: int): (msg: string)
    ensures verdict == OctaveShift ==> StartsWith(msg, OctavePrefix + (if k < 0 then "下" else "上"))
    ensures verdict == OctaveShift ==> EndsWith(msg, "（k=" + IntToString(k) + "）")
    ensures verdict == KeyShift && semi == 0 ==> msg == OriginalKey
    ensures verdict == KeyShift && semi != 0 ==>
              StartsWith(msg, "全体として半音" + IntToString(Abs(semi as real).Floor))
    ensures verdict == KeyShift && semi < 0 ==> EndsWith(msg, Lower)
    ensures verdict == KeyShift && semi > 0 ==> EndsWith(msg, Higher)
  {
    if verdict == OctaveShift then
      var direction := if k < 0 then "下" else "上";
      var tail := "（k=" + IntToString(k) + "）";
      var msg := OctavePrefix + direction + "で歌っている可能性が高い" + tail;
      assert msg[..|OctavePrefix + direction|] == OctavePrefix + direction;
      assert msg[|msg| - |tail|..] == tail;
      msg
    else if semi == 0 then OriginalKey
    else
      var lead := "全体として半音" + IntToString(Abs(semi as real).Floor);
      var tail := if semi < 0 then Lower else Higher;
      var msg := lead + tail;
      assert msg[..|lead|] == lead;
      assert msg[|msg| - |tail|..] == tail;
      msg
  }

  /** The three messages are told apart by their opening words: only the
      octave message opens with オクターブ, and only the original-key message
      is the fixed sentence. */
  lemma JaVerdictDistinct(verdict: Verdict, k: int, semi: int)
    ensures StartsWith(JaVerdict(verdict, k, semi), OctavePrefix) <==> verdict == OctaveShift
    ensures JaVerdict(verdict, k, semi) == OriginalKey <==> verdict == KeyShift && semi == 0
  {
    var msg := JaVerdict(verdict, k, semi);
    var direction := if k < 0 then "下" else "上";
    if verdict == OctaveShift {
      assert msg[..|OctavePrefix|] == (OctavePrefix + direction)[..|OctavePrefix|];
      assert msg[0] != OriginalKey[0];
    } else if semi != 0 {
      var lead := "全体として半音" + IntToString(Abs(semi as real).Floor);
      assert msg[..|lead|] == lead;
      assert msg[0] == lead[0] == '全';
      OpensOtherwise(msg, OctavePrefix);
      OpensOtherwise(msg, OriginalKey);
    } else {
      OpensOtherwise(OriginalKey, OctavePrefix);
    }
  }

  /** Texts that open with different characters do not start one with the other. */
  lemma OpensOtherwise(s: string, p: string)
    requires |s| > 0 && |p| > 0 && s[0] != p[0]
    ensures !StartsWith(s, p) && s != p
  {
    if |p| <= |s| {
      assert s[..|p|][0] == s[0];
    }
  }

  // ---------------------------------------------------------------------------
  // The whole check
  // ---------------------------------------------------------------------------

  /** The JSON written for a track pair with voiced overlap. `varianceCents`
      and `wrappedVarianceCents` are the squares of `std_cents` and
      `wrapped_std_cents`; output rounding is not applied. */
  datatype KeyReport = KeyReport(
    frames: nat,
    medianCents: real,
    meanCents: real,
    varianceCents: real,
    semitoneOffset: int,
    semitoneOffsetCents: int,
    octaveK: int,
    wrappedMedianCents: real,
    wrappedVarianceCents: real,
    wrappedWithin40: Option<real>,
    verdict: Verdict,
    verdictJa: string,
    notes: seq<string>)

  /** `{"error": "no_voiced_overlap"}` or the report. */
  datatype KeyOutput = NoOverlap | Report(report: KeyReport)

  /** `np.clip` on an empty user track leaves index -1, and `fU[idx]` raises. */
  datatype Error = EmptyUserTrack

  /** k whole octaves, in cents. */
  function Octaves(k: int): real {
    OctaveCents * k as real
  }

  /** The report for non-empty voiced cents. */
  function Describe(cents: seq<real>): (r: KeyReport)
    requires |cents| > 0
    ensures r.frames == |cents| && r.medianCents == Median(cents)
    ensures r.semitoneOffsetCents == 100 * r.semitoneOffset
    ensures Abs(r.medianCents - r.semitoneOffset as real * SemitoneCents) <= 50.0
    ensures r.wrappedMedianCents == r.medianCents - Octaves(r.octaveK)
    ensures Abs(r.wrappedMedianCents) <= 600.0
    ensures r.wrappedVarianceCents == r.varianceCents
    ensures r.meanCents == Mean(cents) && r.varianceCents == Variance(cents)
    ensures r.wrappedWithin40 == Within40(Shift(cents, Octaves(r.octaveK)))
    ensures r.wrappedWithin40.Some? && 0.0 <= r.wrappedWithin40.value <= 1.0
    ensures r.verdictJa == JaVerdict(r.verdict, r.octaveK, r.semitoneOffset)
    ensures r.verdict == OctaveShift <==> LikelyOctave(r.medianCents, r.octaveK)
    ensures r.notes == GlossaryItems(r.verdict == OctaveShift, r.semitoneOffset != 0, true)
  {
    var med := Median(cents);
    var semi := SemitoneOffset(med);
    var k := OctaveK(med);
    var c := Octaves(k);
    var wrapped := Shift(cents, c);
    MedianShift(cents, c);
    VarianceShift(cents, c);
    var verdict := VerdictOf(med);
    KeyReport(|cents|, med, Mean(cents), Variance(cents), semi, semi * 100, k,
              Median(wrapped), Variance(wrapped), Within40(wrapped),
              verdict, JaVerdict(verdict, k, semi),
              GlossaryItems(verdict == OctaveShift, semi != 0, true))
  }

  /** `main` after loading the two pitch files. */
  function KeyOffsetCheck(log2: real -> real, ref: PitchFile, usr: PitchFile): (r: Result<KeyOutput, Error>)
    ensures r.Err? <==> |usr.track| == 0 && |ref.track| > 0
    ensures r.Ok? ==> (r.value == NoOverlap <==>
                        forall i :: 0 <= i < |ref.track| ==> !(Voiced(UserOnRef(ref, usr)[i]) && Voiced(ref.track[i].f0)))
    ensures r.Ok? && r.value.Report? ==>
              |VoicedCents(log2, ref, usr)| > 0 && r.value.report == Describe(VoicedCents(log2, ref, usr))
  {
    if |usr.track| == 0 && |ref.track| > 0 then Err(EmptyUserTrack)
    else
      var cents := VoicedCents(log2, ref, usr);
      Frames.NoVoicedOverlap(log2, ref, usr);
      if |cents| == 0 then Ok(NoOverlap) else Ok(Report(Describe(cents)))
  }
}
