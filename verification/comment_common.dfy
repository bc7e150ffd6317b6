/** What the two comment scripts, tools/07_event_comment_cards.py and
    tools/03_render_comments_txt.py, share: the events they read and the
    `mm:ss.ss` times they print. `H` (07) and `mmss` (03) are one formula,
    the whole minutes `int(t // 60)` and the seconds past them,
    `t - m*60`, shown to the hundredth. */
module CommentCommon {
  import opened Wrappers
  import opened Numeric
  import opened Text
  import opened LyricsTime

  /** An event as the comment scripts read it from `events.json`: the
      keys they look up, each of which may be missing. */
  datatype RawEvent = RawEvent(start: Option<real>, end: Option<real>, kind: Option<string>)

  /** The length an event without an end is given (`start + 0.2`). */
  const DefaultLength: real := 0.2

  /** `e.get("end", e["start"] + 0.2)`. */
  function EndOr(e: RawEvent): (t: real)
    requires e.start.Some?
    ensures e.end.None? ==> t - e.start.value == DefaultLength
    ensures e.end.Some? ==> t == e.end.value
  {
    if e.end.Some? then e.end.value else e.start.value + DefaultLength
  }

  /** Hundredths of a second in a minute: the seconds field shows at most
      `59.99` once a round-up is carried. */
  const MinuteHundredths: int := 6000

  /** Whole minutes and the seconds past them in hundredths. */
  datatype Reading = Reading(minutes: int, hundredths: int)

  /** The seconds a reading stands for. */
  function ReadingSeconds(c: Reading): real {
    (c.minutes * 60) as real + c.hundredths as real / 100.0
  }

  /** `m = int(t // 60)` (Python's `//` on floats is the floor of the
      quotient) and `s = t - m*60` rounded by `:05.2f` to the hundredth.
      The seconds past the minute lie in [0, 60) for every `t`, negative
      ones included, but the rounding can take them to 60.00. */
  function ReadingAsWritten(t: real): (c: Reading)
    ensures 0 <= c.hundredths <= MinuteHundredths
    ensures Abs(ReadingSeconds(c) - t) <= 0.005
  {
    var m := (t / 60.0).Floor;
    var s := t - (m * 60) as real;
    assert 0.0 <= s < 60.0;
    var h := RoundHalfEven(s * 100.0);
    assert Abs(ReadingSeconds(Reading(m, h)) - t) == Abs(h as real - s * 100.0) / 100.0;
    Reading(m, h)
  }

  /** The reading with a round-up to 60.00 seconds carried into the minutes. */
  function ReadingOf(t: real): (c: Reading)
    ensures 0 <= c.hundredths < MinuteHundredths
    ensures Abs(ReadingSeconds(c) - t) <= 0.005
  {
    var c := ReadingAsWritten(t);
    if c.hundredths == MinuteHundredths then Reading(c.minutes + 1, 0) else c
  }

  /** `f"{m:02d}:{s:05.2f}"`: the seconds are zero-padded to two digits
      before the point, which is the layout of an LRC time. */
  function ReadingText(c: Reading): string {
    LrcStamp(c.minutes, c.hundredths / 100, c.hundredths % 100)
  }

  /** `H(sec)` / `mmss(t)` as written. */
  function TimeTextAsWritten(t: real): string {
    ReadingText(ReadingAsWritten(t))
  }

  /** `H(sec)` / `mmss(t)` with the round-up carried. */
  function TimeText(t: real): string {
    ReadingText(ReadingOf(t))
  }

  /** The two agree whenever the seconds do not round up to 60.00. */
  lemma TimeTextAgrees(t: real)
    ensures ReadingAsWritten(t).hundredths < MinuteHundredths <==> ReadingAsWritten(t) == ReadingOf(t)
    ensures ReadingAsWritten(t).hundredths < MinuteHundredths ==> TimeTextAsWritten(t) == TimeText(t)
  {
  }

  /** A reading whose seconds field fits reads back as the seconds it
      stands for. */
  lemma ReadReading(c: Reading)
    requires 0 <= c.hundredths < MinuteHundredths
    ensures ParseTime(ReadingText(c)).Some?
    ensures ParseTime(ReadingText(c)).value == ReadingSeconds(c)
  {
    var ss, xx := c.hundredths / 100, c.hundredths % 100;
    ReadLrcStamp(c.minutes, ss, xx);
    HundredthsField(xx);
    HundredthsSplit(c.hundredths);
  }

  /** A two-digit fraction field reads as hundredths. */
  lemma HundredthsField(n: int)
    requires 0 <= n < 100
    ensures SecondsValue(0, n, Pad) == n as real / 100.0
  {
    assert Pow10(Pad) == 100;
    FieldValueFits(n, Pad);
  }

  lemma HundredthsSplit(h: int)
    requires h >= 0
    ensures (h / 100) as real + (h % 100) as real / 100.0 == h as real / 100.0
  {
    var q, r := h / 100, h % 100;
    assert h == 100 * q + r;
    assert h as real == 100.0 * q as real + r as real;
  }

  /** A printed time reads back (with the lyric importers' `parse_time`)
      as the time within half a hundredth of a second, and its seconds
      field is below 60. */
  lemma TimeTextRoundTrip(t: real)
    ensures ReadingOf(t).hundredths / 100 < 60
    ensures ParseTime(TimeText(t)).Some?
    ensures Abs(ParseTime(TimeText(t)).value - t) <= 0.005
  {
    ReadReading(ReadingOf(t));
  }

  /** A time a thousandth of a second before the minute. */
  const LateInMinute: real := 59.999

  /** As written, 59.999 s is printed as `00:60.00`: minute 0 and a
      seconds field of 60. */
  lemma MinuteCarryCounterexample()
    ensures ReadingAsWritten(LateInMinute) == Reading(0, MinuteHundredths)
    ensures TimeTextAsWritten(LateInMinute) == LrcStamp(0, 60, 0)
  {
    assert (LateInMinute / 60.0).Floor == 0;
    RoundHalfEvenUnique(LateInMinute * 100.0, MinuteHundredths);
  }

  /** With the carry, 59.999 s is printed as minute 1 and 0 seconds. */
  lemma MinuteCarriedExample()
    ensures ReadingOf(LateInMinute) == Reading(1, 0)
    ensures TimeText(LateInMinute) == LrcStamp(1, 0, 0)
  {
    MinuteCarryCounterexample();
  }

  /** A text made of a head, a middle and a tail opens with the head and
      closes with the tail. */
  lemma Ends<T>(t: seq<T>, mid: seq<T>, a: seq<T>)
    ensures t <= t + mid + a
    ensures (t + mid + a)[..|t|] == t
    ensures (t + mid + a)[|t + mid + a| - |a|..] == a
  {
  }
}
