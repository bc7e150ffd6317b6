/** Timestamps in lyric files: `parse_time` of the two importers
    (tools/14_import_lyrics_v2.py, tools/10_import_lyrics.py) and the SRT and
    LRC timestamps that tools/12_make_subtitles.py writes. */
module LyricsTime {
  import opened Wrappers
  import opened Numeric
  import opened Text

  // ---------------------------------------------------------------------------
  // Reading
  // ---------------------------------------------------------------------------

  /** The `:`-separated fields of a timestamp as seconds: `h:m:s`, `m:s` or
      plain seconds, the hours and minutes read by `int` and the seconds by
      `float`; `None` where either raises. */
  function FieldsSeconds(parts: seq<string>): Option<real>
    requires |parts| >= 1
  {
    if |parts| == 3 then HoursMinutesSeconds(ParseInt(parts[0]), ParseInt(parts[1]), ParseFloat(parts[2]))
    else if |parts| == 2 then HoursMinutesSeconds(Some(0), ParseInt(parts[0]), ParseFloat(parts[1]))
    else ParseFloat(parts[0])
  }

  /** `h*3600 + m*60 + sec` once all three fields have been read. */
  function HoursMinutesSeconds(h: Option<int>, m: Option<int>, sec: Option<real>): Option<real> {
    if h.Some? && m.Some? && sec.Some? then Some((h.value * 3600 + m.value * 60) as real + sec.value) else None
  }

  /** The text of a timestamp once the whitespace and brackets around it are
      gone and a decimal comma is a point. */
  function Cleaned(s: string): (t: string)
    ensures Lacks(t, ',')
  {
    ReplaceChar(StripBrackets(Strip(s)), ',', '.')
  }

  /** `parse_time` of tools/14: strip, strip `[]`, comma to point, split on `:`. */
  function ParseTime(s: string): Option<real> {
    FieldsSeconds(Split(Cleaned(s), ":"))
  }

  /** `parse_time` of tools/10: the comma is replaced only when present. */
  function ParseTimeV1(s: string): Option<real> {
    var t := StripBrackets(Strip(s));
    var t' := if Contains(t, ",") then ReplaceChar(t, ',', '.') else t;
    FieldsSeconds(Split(t', ":"))
  }

  /** The two importers read every timestamp alike: replacing an absent
      comma changes nothing. */
  lemma ParseTimeVersionsAgree(s: string)
    ensures ParseTimeV1(s) == ParseTime(s)
  {
    var t := StripBrackets(Strip(s));
    if !Contains(t, ",") {
      forall i | 0 <= i < |t|
        ensures t[i] != ','
      {
        assert !OccursAt(t, ",", i);
        assert t[i..i + 1] == [t[i]];
      }
      ReplaceAbsent(t, ',', '.');
    }
  }

  // ---------------------------------------------------------------------------
  // Writing
  // ---------------------------------------------------------------------------

  /** The width of the two-digit fields (`:02d`) and of the milliseconds (`:03d`). */
  const Pad: nat := 2
  const MsPad: nat := 3
  /** Milliseconds and hundredths per second. */
  const MsScale: nat := 1000
  const CsScale: nat := 100

  /** Whole seconds and a rounded fraction of a second in `scale` units. */
  datatype Clock = Clock(whole: int, part: int)

  /** `int(sec)` and `int(round((sec - int(sec)) * scale))`. */
  function ClockOf(sec: real, scale: nat): (c: Clock)
    requires scale > 0
    ensures sec >= 0.0 ==> c.whole >= 0 && 0 <= c.part <= scale
    ensures Abs(c.whole as real + c.part as real / scale as real - sec) <= 0.5 / scale as real
  {
    var whole := Trunc(sec);
    var frac := sec - whole as real;
    var part := RoundHalfEven(frac * scale as real);
    ScaledPart(frac, scale, part);
    Clock(whole, part)
  }

  /** A fraction of a second rounded in `scale` units. */
  lemma ScaledPart(frac: real, scale: nat, part: int)
    requires scale > 0
    requires frac * scale as real - 0.5 <= part as real <= frac * scale as real + 0.5
    ensures 0.0 <= frac < 1.0 ==> 0 <= part <= scale
    ensures Abs(part as real / scale as real - frac) <= 0.5 / scale as real
  {
    var k := scale as real;
    ScaledDistance(frac, part as real, k);
    if 0.0 <= frac < 1.0 {
      assert 0.0 <= frac * k < k;
    }
  }

  /** Within half a unit on the scaled line is within half a unit over
      `k` on the unscaled one. */
  lemma ScaledDistance(x: real, y: real, k: real)
    requires k > 0.0 && x * k - 0.5 <= y <= x * k + 0.5
    ensures Abs(y / k - x) <= 0.5 / k
  {
    assert y / k - x == (y - x * k) / k;
  }

  /** The seconds a clock reading stands for. */
  function ClockSeconds(c: Clock, scale: nat): real
    requires scale > 0
  {
    c.whole as real + c.part as real / scale as real
  }

  /** A fraction that rounds up to a whole second moves into the seconds. */
  function Carry(c: Clock, scale: nat): (d: Clock)
    requires scale > 0
    ensures 0 <= d.part < scale
    ensures ClockSeconds(d, scale) == ClockSeconds(c, scale)
  {
    var d := Clock(c.whole + c.part / scale, c.part % scale);
    assert c.part == scale * (c.part / scale) + c.part % scale;
    assert (c.part / scale) as real == (scale * (c.part / scale)) as real / scale as real;
    d
  }

  /** `f"{hh:02d}:{mm:02d}:{ss:02d},{ms:03d}"`. */
  function SrtText(hh: int, mm: int, ss: int, ms: int): string {
    FormatInt(hh, Pad) + ":" + FormatInt(mm, Pad) + ":" + FormatInt(ss, Pad) + "," + FormatInt(ms, MsPad)
  }

  /** An SRT timestamp of a clock reading in milliseconds. */
  function SrtOfClock(c: Clock): string {
    SrtText(c.whole / 3600, (c.whole % 3600) / 60, c.whole % 60, c.part)
  }

  /** `_sec_to_timestamp_srt` as written: the milliseconds are rounded but
      never carried, so 1000 of them are written as `,1000`. */
  function SrtTimestampAsWritten(sec: real): string {
    SrtOfClock(ClockOf(sec, MsScale))
  }

  /** `_sec_to_timestamp_srt` with the rounded milliseconds carried. */
  function SrtTimestamp(sec: real): string {
    SrtOfClock(Carry(ClockOf(sec, MsScale), MsScale))
  }

  /** The time inside an LRC tag, `f"{mm:02d}:{ss:02d}.{xx:02d}"`. */
  function LrcStamp(mm: int, ss: int, xx: int): string {
    FormatInt(mm, Pad) + ":" + FormatInt(ss, Pad) + "." + FormatInt(xx, Pad)
  }

  /** The LRC time of a clock reading in hundredths. */
  function LrcStampOf(c: Clock): string {
    LrcStamp(c.whole / 60, c.whole % 60, c.part)
  }

  /** `_sec_to_timestamp_lrc` as written: hundredths that round to 100 are
      written as `.100`. */
  function LrcTagAsWritten(sec: real): string {
    "[" + LrcStampOf(ClockOf(sec, CsScale)) + "]"
  }

  /** The time inside the tag with the rounded hundredths carried. */
  function LrcTagStamp(sec: real): string {
    LrcStampOf(Carry(ClockOf(sec, CsScale), CsScale))
  }

  /** `_sec_to_timestamp_lrc` with the rounded hundredths carried. */
  function LrcTag(sec: real): string {
    "[" + LrcTagStamp(sec) + "]"
  }

  // ---------------------------------------------------------------------------
  // Reading back what was written
  // ---------------------------------------------------------------------------

  /** The value `float` gives the digits of a non-negative fraction field. */
  function FieldValue(n: nat, w: nat): real {
    var f := FormatInt(n, w);
    FormatIntValue(n, w);
    DigitsValue(f) as real / Pow10(|f|) as real
  }

  /** A fraction field narrower than its width reads as `n / 10^w`. */
  lemma FieldValueFits(n: int, w: nat)
    requires 0 <= n < Pow10(w) && w >= 1
    ensures FieldValue(n, w) == n as real / Pow10(w) as real
  {
    FormatIntWidth(n, w);
    FormatIntValue(n, w);
  }

  /** The seconds `float` reads from the padded fields `ss.ff`. */
  function SecondsValue(ss: nat, f: nat, w: nat): real {
    ss as real + FieldValue(f, w)
  }

  /** `float("ss.ff")` for non-negative padded fields. */
  lemma ParseSecondsField(ss: nat, f: nat, w: nat)
    ensures ParseFloat(FormatInt(ss, Pad) + "." + FormatInt(f, w)) == Some(SecondsValue(ss, f, w))
  {
    var S, F := FormatInt(ss, Pad), FormatInt(f, w);
    FormatIntValue(ss, Pad);
    FormatIntValue(f, w);
    FormatIntChars(ss, Pad);
    ParseFloatDecimal(S, F);
    assert DecimalValue(S, F) == SecondsValue(ss, f, w);
  }

  /** A formatted integer holds neither separator. */
  lemma FieldLacks(n: int, w: nat)
    ensures Lacks(FormatInt(n, w), ':') && Lacks(FormatInt(n, w), ',')
    ensures Lacks(FormatInt(n, w), '[') && Lacks(FormatInt(n, w), ']')
  {
    FormatIntChars(n, w);
  }

  /** Text with nothing to strip at either end is only cleaned of commas. */
  lemma CleanedTrimmed(s: string)
    requires |s| > 0
    requires !IsSpace(s[0]) && !IsSpace(s[|s| - 1])
    requires !Drops(Brackets, s[0]) && !Drops(Brackets, s[|s| - 1])
    ensures Cleaned(s) == ReplaceChar(s, ',', '.')
  {
    StripTrimmed(s, Whitespace);
    StripTrimmed(s, Brackets);
  }

  /** Fields joined by separators they do not contain keep their fields
      apart. */
  lemma CleanedFields(H: string, M: string, S: string, F: string)
    requires |H| > 0 && |F| > 0
    requires !IsSpace(H[0]) && !Drops(Brackets, H[0])
    requires IsDigit(F[|F| - 1])
    requires Lacks(H, ',') && Lacks(M, ',') && Lacks(S, ',') && Lacks(F, ',')
    ensures Cleaned(H + ":" + M + ":" + S + "," + F) == H + ":" + M + ":" + S + "." + F
  {
    var lead := H + ":" + M + ":" + S;
    LacksAppend(H, ":", ',');
    LacksAppend(H + ":", M, ',');
    LacksAppend(H + ":" + M, ":", ',');
    LacksAppend(H + ":" + M + ":", S, ',');
    ReplaceBetween(lead, F, ',', '.');
    var s := lead + "," + F;
    assert s[0] == H[0] && s[|s| - 1] == F[|F| - 1];
    DigitNotSpace(s[|s| - 1]);
    CleanedTrimmed(s);
  }

  /** The SRT timestamp with its comma read as a point. */
  lemma CleanedSrtText(hh: int, mm: int, ss: int, ms: int)
    ensures Cleaned(SrtText(hh, mm, ss, ms))
            == FormatInt(hh, Pad) + ":" + FormatInt(mm, Pad) + ":" + FormatInt(ss, Pad) + "." + FormatInt(ms, MsPad)
  {
    FormatIntChars(hh, Pad);
    FormatIntChars(ms, MsPad);
    FieldLacks(hh, Pad);
    FieldLacks(mm, Pad);
    FieldLacks(ss, Pad);
    FieldLacks(ms, MsPad);
    CleanedFields(FormatInt(hh, Pad), FormatInt(mm, Pad), FormatInt(ss, Pad), FormatInt(ms, MsPad));
  }

  /** `h:m:s.f` splits on `:` into the hours, the minutes and the seconds
      with their fraction. */
  lemma SplitClockText(H: string, M: string, S: string, F: string)
    requires Lacks(H, ':') && Lacks(M, ':') && Lacks(S, ':') && Lacks(F, ':')
    ensures Split(H + ":" + M + ":" + S + "." + F, ":") == [H, M, S + "." + F]
  {
    LacksAppend(S, ".", ':');
    LacksAppend(S + ".", F, ':');
    assert H + ":" + M + ":" + S + "." + F == H + [':'] + M + [':'] + (S + "." + F);
    SplitThree(H, M, S + "." + F, ':');
  }

  /** Each field of an SRT timestamp reads back as the number written. */
  lemma SrtFieldsRead(hh: int, mm: int, ss: int, ms: int)
    requires ss >= 0 && ms >= 0
    ensures ParseInt(FormatInt(hh, Pad)) == Some(hh) && ParseInt(FormatInt(mm, Pad)) == Some(mm)
    ensures ParseFloat(FormatInt(ss, Pad) + "." + FormatInt(ms, MsPad)) == Some(SecondsValue(ss, ms, MsPad))
  {
    ParseSecondsField(ss, ms, MsPad);
    ParseFormatInt(hh, Pad);
    ParseFormatInt(mm, Pad);
  }

  lemma HoursMinutesSecondsValue(h: int, m: int, sec: real)
    ensures HoursMinutesSeconds(Some(h), Some(m), Some(sec)) == Some((h * 3600 + m * 60) as real + sec)
  {
  }

  /** Three fields are read as hours, minutes and seconds. */
  lemma ThreeFields(H: string, M: string, SF: string)
    ensures FieldsSeconds([H, M, SF]) == HoursMinutesSeconds(ParseInt(H), ParseInt(M), ParseFloat(SF))
  {
    var parts := [H, M, SF];
    assert parts[0] == H && parts[1] == M && parts[2] == SF;
  }

  /** Reading an SRT timestamp back: the fields add up, and a millisecond
      field of more than three digits is read as a longer fraction. */
  lemma ReadSrtText(hh: int, mm: int, ss: int, ms: int)
    requires mm >= 0 && ss >= 0 && ms >= 0
    ensures ParseTime(SrtText(hh, mm, ss, ms)).Some?
    ensures ParseTime(SrtText(hh, mm, ss, ms)).value == (hh * 3600 + mm * 60) as real + SecondsValue(ss, ms, MsPad)
  {
    SrtTextFields(hh, mm, ss, ms);
    SrtFieldsValue(hh, mm, ss, ms);
  }

  lemma SrtTextFields(hh: int, mm: nat, ss: nat, ms: nat)
    ensures ParseTime(SrtText(hh, mm, ss, ms))
            == FieldsSeconds([FormatInt(hh, Pad), FormatInt(mm, Pad), FormatInt(ss, Pad) + "." + FormatInt(ms, MsPad)])
  {
    SplitSrtText(hh, mm, ss, ms);
  }

  lemma SrtFieldsValue(hh: int, mm: int, ss: int, ms: int)
    requires mm >= 0 && ss >= 0 && ms >= 0
    ensures FieldsSeconds([FormatInt(hh, Pad), FormatInt(mm, Pad), FormatInt(ss, Pad) + "." + FormatInt(ms, MsPad)]).Some?
    ensures FieldsSeconds([FormatInt(hh, Pad), FormatInt(mm, Pad), FormatInt(ss, Pad) + "." + FormatInt(ms, MsPad)]).value
            == (hh * 3600 + mm * 60) as real + SecondsValue(ss, ms, MsPad)
  {
    SrtFieldsParsed(hh, mm, ss, ms);
    HoursMinutesSecondsValue(hh, mm, SecondsValue(ss, ms, MsPad));
  }

  lemma SrtFieldsParsed(hh: int, mm: int, ss: int, ms: int)
    requires mm >= 0 && ss >= 0 && ms >= 0
    ensures FieldsSeconds([FormatInt(hh, Pad), FormatInt(mm, Pad), FormatInt(ss, Pad) + "." + FormatInt(ms, MsPad)])
            == HoursMinutesSeconds(Some(hh), Some(mm), Some(SecondsValue(ss, ms, MsPad)))
  {
    SrtFieldsRead(hh, mm, ss, ms);
    ThreeFields(FormatInt(hh, Pad), FormatInt(mm, Pad), FormatInt(ss, Pad) + "." + FormatInt(ms, MsPad));
  }

  /** The cleaned SRT timestamp splits into its three fields. */
  lemma SplitSrtText(hh: int, mm: int, ss: int, ms: int)
    ensures Split(Cleaned(SrtText(hh, mm, ss, ms)), ":")
            == [FormatInt(hh, Pad), FormatInt(mm, Pad), FormatInt(ss, Pad) + "." + FormatInt(ms, MsPad)]
  {
    FieldLacks(hh, Pad);
    FieldLacks(mm, Pad);
    FieldLacks(ss, Pad);
    FieldLacks(ms, MsPad);
    SplitClockText(FormatInt(hh, Pad), FormatInt(mm, Pad), FormatInt(ss, Pad), FormatInt(ms, MsPad));
    CleanedSrtText(hh, mm, ss, ms);
  }

  /** Hours, minutes and seconds put back together give the whole seconds. */
  lemma ClockParts(w: int)
    ensures (w / 3600 * 3600 + (w % 3600) / 60 * 60) + w % 60 == w
  {
    var q, r := w / 3600, w % 3600;
    assert w == 3600 * q + r;
    var a, b := r / 60, r % 60;
    assert r == 60 * a + b && 0 <= b < 60;
    assert w == 60 * (60 * q + a) + b;
    assert w % 60 == b;
  }

  /** The seconds an SRT timestamp of a clock reading is read back as. */
  lemma ReadSrtClock(c: Clock)
    requires c.part >= 0
    ensures ParseTime(SrtOfClock(c)).Some?
    ensures ParseTime(SrtOfClock(c)).value == c.whole as real + FieldValue(c.part, MsPad)
  {
    var hh, mm, ss := c.whole / 3600, (c.whole % 3600) / 60, c.whole % 60;
    ClockParts(c.whole);
    var f := FieldValue(c.part, MsPad);
    assert SecondsValue(ss, c.part, MsPad) == ss as real + f;
    assert (hh * 3600 + mm * 60) as real + SecondsValue(ss, c.part, MsPad) == c.whole as real + f;
    ReadSrtText(hh, mm, ss, c.part);
  }

  /** A clock reading whose milliseconds fit in three digits reads back as
      the seconds it stands for. */
  lemma ReadSrtCarried(d: Clock)
    requires 0 <= d.part < MsScale
    ensures ParseTime(SrtOfClock(d)).Some?
    ensures ParseTime(SrtOfClock(d)).value == ClockSeconds(d, MsScale)
  {
    assert Pow10(MsPad) == MsScale;
    FieldValueFits(d.part, MsPad);
    assert d.whole as real + FieldValue(d.part, MsPad) == ClockSeconds(d, MsScale);
    ReadSrtClock(d);
  }

  /** With the carry, every SRT timestamp of a non-negative time reads back
      as the time rounded to the millisecond, within half a millisecond. */
  lemma SrtTimestampRoundTrip(sec: real)
    requires sec >= 0.0
    ensures ParseTime(SrtTimestamp(sec)).Some?
    ensures Abs(ParseTime(SrtTimestamp(sec)).value - sec) <= 0.0005
  {
    var c := ClockOf(sec, MsScale);
    ReadSrtCarried(Carry(c, MsScale));
  }

  /** Times just short of six seconds whose fraction rounds up to a whole
      second: 5.9996 s at millisecond and 5.996 s at hundredth precision. */
  const LateMillis: real := 5.9996
  const LateHundredths: real := 5.996

  /** 5.9996 s has 5 whole seconds and 999.6 milliseconds, rounded to 1000. */
  lemma MillisRoundUp()
    ensures ClockOf(LateMillis, MsScale) == Clock(5, 1000)
  {
    RoundHalfEvenUnique(0.9996 * MsScale as real, 1000);
  }

  /** 5.9996 s as written: the milliseconds round to 1000 and are not
      carried, so the timestamp ends in a four-digit `,1000`, which reads
      back as 5.1 s. */
  lemma SrtCarryCounterexample()
    ensures ClockOf(LateMillis, MsScale) == Clock(5, 1000)
    ensures |FormatInt(1000, MsPad)| == MsPad + 1
    ensures ParseTime(SrtTimestampAsWritten(LateMillis)).Some?
    ensures ParseTime(SrtTimestampAsWritten(LateMillis)).value == 5.1
  {
    MillisRoundUp();
    var c := ClockOf(LateMillis, MsScale);
    assert Pow10(MsPad) == 1000 && Pow10(MsPad + 1) == 10000;
    WideField(c.part, MsPad);
    assert FieldValue(c.part, MsPad) == 0.1;
    ReadSrtClock(c);
  }

  /** With the carry, 5.9996 s is written as six whole seconds and reads
      back as 6 s. */
  lemma SrtCarriedExample()
    ensures Carry(ClockOf(LateMillis, MsScale), MsScale) == Clock(6, 0)
    ensures ParseTime(SrtTimestamp(LateMillis)).Some?
    ensures ParseTime(SrtTimestamp(LateMillis)).value == 6.0
  {
    MillisRoundUp();
    ReadSrtCarried(Clock(6, 0));
  }

  /** A fraction field one digit wider than its width is read as a
      fraction of `10^(w+1)`. */
  lemma WideField(n: int, w: nat)
    requires Pow10(w) <= n < Pow10(w + 1)
    ensures |FormatInt(n, w)| == w + 1
    ensures FieldValue(n, w) == n as real / Pow10(w + 1) as real
  {
    NatDigitsCount(n, w + 1);
    NatDigitsAtLeast(n, w);
    FormatIntValue(n, w);
  }

  // LRC

  /** The LRC time has nothing to strip and no comma. */
  lemma CleanedLrcStamp(mm: int, ss: int, xx: int)
    ensures Cleaned(LrcStamp(mm, ss, xx)) == LrcStamp(mm, ss, xx)
  {
    var M, S, X := FormatInt(mm, Pad), FormatInt(ss, Pad), FormatInt(xx, Pad);
    FormatIntChars(mm, Pad);
    FormatIntChars(xx, Pad);
    FieldLacks(mm, Pad);
    FieldLacks(ss, Pad);
    FieldLacks(xx, Pad);
    LacksAppend(M, ":", ',');
    LacksAppend(M + ":", S, ',');
    LacksAppend(M + ":" + S, ".", ',');
    LacksAppend(M + ":" + S + ".", X, ',');
    var t := M + ":" + S + "." + X;
    assert t[0] == M[0] && t[|t| - 1] == X[|X| - 1];
    DigitNotSpace(t[|t| - 1]);
    CleanedTrimmed(t);
    ReplaceAbsent(t, ',', '.');
  }

  /** `m:s.f` splits on `:` into the minutes and the seconds with their
      fraction. */
  lemma SplitLrcStamp(mm: int, ss: int, xx: int)
    ensures Split(LrcStamp(mm, ss, xx), ":") == [FormatInt(mm, Pad), FormatInt(ss, Pad) + "." + FormatInt(xx, Pad)]
  {
    var M, S, X := FormatInt(mm, Pad), FormatInt(ss, Pad), FormatInt(xx, Pad);
    FieldLacks(mm, Pad);
    FieldLacks(ss, Pad);
    FieldLacks(xx, Pad);
    LacksAppend(S, ".", ':');
    LacksAppend(S + ".", X, ':');
    assert M + ":" + S + "." + X == M + [':'] + (S + "." + X);
    SplitTwo(M, S + "." + X, ':');
  }

  /** Two fields are read as minutes and seconds. */
  lemma TwoFields(M: string, SF: string)
    ensures FieldsSeconds([M, SF]) == HoursMinutesSeconds(Some(0), ParseInt(M), ParseFloat(SF))
  {
    var parts := [M, SF];
    assert parts[0] == M && parts[1] == SF;
  }

  /** Reading the time of an LRC tag back: a hundredths field of more than
      two digits is read as a longer fraction. */
  lemma ReadLrcStamp(mm: int, ss: int, xx: int)
    requires ss >= 0 && xx >= 0
    ensures ParseTime(LrcStamp(mm, ss, xx)).Some?
    ensures ParseTime(LrcStamp(mm, ss, xx)).value == (mm * 60) as real + SecondsValue(ss, xx, Pad)
  {
    LrcStampFields(mm, ss, xx);
    LrcFieldsValue(mm, ss, xx);
  }

  lemma LrcStampFields(mm: int, ss: int, xx: int)
    ensures ParseTime(LrcStamp(mm, ss, xx)) == FieldsSeconds([FormatInt(mm, Pad), FormatInt(ss, Pad) + "." + FormatInt(xx, Pad)])
  {
    CleanedLrcStamp(mm, ss, xx);
    SplitLrcStamp(mm, ss, xx);
  }

  lemma LrcFieldsValue(mm: int, ss: int, xx: int)
    requires ss >= 0 && xx >= 0
    ensures FieldsSeconds([FormatInt(mm, Pad), FormatInt(ss, Pad) + "." + FormatInt(xx, Pad)]).Some?
    ensures FieldsSeconds([FormatInt(mm, Pad), FormatInt(ss, Pad) + "." + FormatInt(xx, Pad)]).value
            == (mm * 60) as real + SecondsValue(ss, xx, Pad)
  {
    LrcFieldsParsed(mm, ss, xx);
    HoursMinutesSecondsValue(0, mm, SecondsValue(ss, xx, Pad));
  }

  lemma LrcFieldsParsed(mm: int, ss: int, xx: int)
    requires ss >= 0 && xx >= 0
    ensures FieldsSeconds([FormatInt(mm, Pad), FormatInt(ss, Pad) + "." + FormatInt(xx, Pad)])
            == HoursMinutesSeconds(Some(0), Some(mm), Some(SecondsValue(ss, xx, Pad)))
  {
    ParseFormatInt(mm, Pad);
    ParseSecondsField(ss, xx, Pad);
    TwoFields(FormatInt(mm, Pad), FormatInt(ss, Pad) + "." + FormatInt(xx, Pad));
  }

  /** The seconds the LRC time of a clock reading is read back as. */
  lemma ReadLrcClock(c: Clock)
    requires c.part >= 0
    ensures ParseTime(LrcStampOf(c)).Some?
    ensures ParseTime(LrcStampOf(c)).value == c.whole as real + FieldValue(c.part, Pad)
  {
    var mm, ss := c.whole / 60, c.whole % 60;
    assert mm * 60 + ss == c.whole;
    var f := FieldValue(c.part, Pad);
    assert (mm * 60) as real + SecondsValue(ss, c.part, Pad) == c.whole as real + f;
    ReadLrcStamp(mm, ss, c.part);
  }

  /** A clock reading whose hundredths fit in two digits reads back as the
      seconds it stands for. */
  lemma ReadLrcCarried(d: Clock)
    requires 0 <= d.part < CsScale
    ensures ParseTime(LrcStampOf(d)).Some?
    ensures ParseTime(LrcStampOf(d)).value == ClockSeconds(d, CsScale)
  {
    assert Pow10(Pad) == CsScale;
    FieldValueFits(d.part, Pad);
    assert d.whole as real + FieldValue(d.part, Pad) == ClockSeconds(d, CsScale);
    ReadLrcClock(d);
  }

  /** With the carry, the time in every LRC tag of a non-negative time reads
      back within half a hundredth of a second of the time written. */
  lemma LrcTagRoundTrip(sec: real)
    requires sec >= 0.0
    ensures LrcTag(sec) == "[" + LrcTagStamp(sec) + "]"
    ensures ParseTime(LrcTagStamp(sec)).Some?
    ensures Abs(ParseTime(LrcTagStamp(sec)).value - sec) <= 0.005
  {
    var c := ClockOf(sec, CsScale);
    ReadLrcCarried(Carry(c, CsScale));
  }

  /** 5.996 s has 5 whole seconds and 99.6 hundredths, rounded to 100. */
  lemma HundredthsRoundUp()
    ensures ClockOf(LateHundredths, CsScale) == Clock(5, 100)
  {
    RoundHalfEvenUnique(0.996 * CsScale as real, 100);
  }

  /** 5.996 s as written: the hundredths round to 100 and are not carried,
      so the tag ends in a three-digit `.100`, which reads back as 5.1 s. */
  lemma LrcCarryCounterexample()
    ensures ClockOf(LateHundredths, CsScale) == Clock(5, 100)
    ensures |FormatInt(100, Pad)| == Pad + 1
    ensures ParseTime(LrcStampOf(ClockOf(LateHundredths, CsScale))).Some?
    ensures ParseTime(LrcStampOf(ClockOf(LateHundredths, CsScale))).value == 5.1
  {
    HundredthsRoundUp();
    var c := ClockOf(LateHundredths, CsScale);
    assert Pow10(Pad) == 100 && Pow10(Pad + 1) == 1000;
    WideField(c.part, Pad);
    assert FieldValue(c.part, Pad) == 0.1;
    ReadLrcClock(c);
  }

  /** With the carry, 5.996 s is tagged as six whole seconds and reads back
      as 6 s. */
  lemma LrcCarriedExample()
    ensures Carry(ClockOf(LateHundredths, CsScale), CsScale) == Clock(6, 0)
    ensures ParseTime(LrcTagStamp(LateHundredths)).Some?
    ensures ParseTime(LrcTagStamp(LateHundredths)).value == 6.0
  {
    HundredthsRoundUp();
    ReadLrcCarried(Clock(6, 0));
  }

  /** The carry changes nothing for a fraction that did not round up to a
      whole second. */
  lemma CarryNone(c: Clock, scale: nat)
    requires scale > 0 && 0 <= c.part < scale
    ensures Carry(c, scale) == c
  {
  }

  /** The timestamps as written are the carried ones whenever the rounded
      fraction stays below a whole second: the two differ only on the
      round-up. */
  lemma AsWrittenAgrees(sec: real)
    requires sec >= 0.0
    ensures ClockOf(sec, MsScale).part < MsScale ==> SrtTimestampAsWritten(sec) == SrtTimestamp(sec)
    ensures ClockOf(sec, CsScale).part < CsScale ==> LrcTagAsWritten(sec) == LrcTag(sec)
  {
    var m := ClockOf(sec, MsScale);
    var c := ClockOf(sec, CsScale);
    if m.part < MsScale {
      CarryNone(m, MsScale);
    }
    if c.part < CsScale {
      CarryNone(c, CsScale);
    }
  }
}
