/** The files tools/12_make_subtitles.py writes from aligned lyric rows (an
    SRT file, an LRC file and a light overlay list), and what the importer of
    tools/14_import_lyrics_v2.py reads back from the first two. */
module Subtitles {
  import opened Wrappers
  import opened Numeric
  import opened Text
  import opened Timeline
  import opened LyricsTime
  import opened LyricsImport

  // ---------------------------------------------------------------------------
  // Loading
  // ---------------------------------------------------------------------------

  /** A list that is missing or empty, which `or` passes over. */
  predicate Empty(rows: Option<seq<LyricRow>>) {
    rows.None? || |rows.value| == 0
  }

  /** `_load_lines`: `d.get("lines") or d.get("lyrics") or []`. */
  function LoadLines(lines: Option<seq<LyricRow>>, lyrics: Option<seq<LyricRow>>): (rows: seq<LyricRow>)
    ensures |rows| == 0 <==> Empty(lines) && Empty(lyrics)
    ensures !Empty(lines) ==> rows == lines.value
    ensures Empty(lines) && !Empty(lyrics) ==> rows == lyrics.value
  {
    if !Empty(lines) then lines.value else if !Empty(lyrics) then lyrics.value else []
  }

  // ---------------------------------------------------------------------------
  // Writing
  // ---------------------------------------------------------------------------

  /** `(r.get("text") or "").strip()`. */
  function CueText(r: LyricRow): string {
    Strip(r.text)
  }

  /** The time line of an SRT entry, `f"{a} --> {b}"`. */
  function SrtTimeLine(r: LyricRow): string {
    SrtTimestamp(r.start) + " --> " + SrtTimestamp(r.end)
  }

  /** The text line of an SRT entry: a blank stands in for a row without text. */
  function SrtTextLine(r: LyricRow): string {
    if |CueText(r)| > 0 then CueText(r) else " "
  }

  /** The lines of one entry: its number, its time line, its text line and
      an empty line. */
  function Entry(idx: string, time: string, text: string): seq<string> {
    [idx, time, text, ""]
  }

  /** The entries made of the `i`-th number, time line and text line. */
  function Entries(idxs: seq<string>, times: seq<string>, texts: seq<string>): (es: seq<seq<string>>)
    requires |idxs| == |times| == |texts|
    ensures |es| == |texts|
    ensures forall i :: 0 <= i < |texts| ==> es[i] == Entry(idxs[i], times[i], texts[i])
  {
    seq(|texts|, i requires 0 <= i < |texts| => Entry(idxs[i], times[i], texts[i]))
  }

  /** The entry numbers `k`, `k + 1`, ... of `n` entries. */
  function IndexLines(n: nat, k: int): (idxs: seq<string>)
    ensures |idxs| == n
    ensures forall i :: 0 <= i < n ==> idxs[i] == IntToString(k + i)
  {
    seq(n, i requires 0 <= i < n => IntToString(k + i))
  }

  function SrtTimeLines(rows: seq<LyricRow>): (times: seq<string>)
    ensures |times| == |rows|
    ensures forall i :: 0 <= i < |rows| ==> times[i] == SrtTimeLine(rows[i])
  {
    seq(|rows|, i requires 0 <= i < |rows| => SrtTimeLine(rows[i]))
  }

  function SrtTextLines(rows: seq<LyricRow>): (texts: seq<string>)
    ensures |texts| == |rows|
    ensures forall i :: 0 <= i < |rows| ==> texts[i] == SrtTextLine(rows[i])
  {
    seq(|rows|, i requires 0 <= i < |rows| => SrtTextLine(rows[i]))
  }

  /** `_write_srt`: the lines of the entries numbered from 1, joined by `\n`. */
  function WriteSrt(rows: seq<LyricRow>): string {
    Join(Flatten(Entries(IndexLines(|rows|, 1), SrtTimeLines(rows), SrtTextLines(rows))), "\n")
  }

  /** The LRC line of a row: the tag of its start, then its text. */
  function LrcLine(r: LyricRow): string {
    LrcTag(r.start) + CueText(r)
  }

  function LrcLines(rows: seq<LyricRow>): (lines: seq<string>)
    ensures |lines| == |rows|
    ensures forall i :: 0 <= i < |rows| ==> lines[i] == LrcLine(rows[i])
  {
    seq(|rows|, i requires 0 <= i < |rows| => LrcLine(rows[i]))
  }

  /** `_write_lrc`: one line per row, each ended by `\n`. */
  function WriteLrc(rows: seq<LyricRow>): string {
    Join(LrcLines(rows), "\n") + "\n"
  }

  // ---------------------------------------------------------------------------
  // The writers as the program runs them
  // ---------------------------------------------------------------------------

  /** Neither time of the row is negative, and neither rounds up to a whole
      second at milliseconds, where `_fmt_srt_ts` would print 1000 ms. */
  predicate SrtExact(r: LyricRow) {
    r.start >= 0.0 && r.end >= 0.0
    && ClockOf(r.start, MsScale).part < MsScale && ClockOf(r.end, MsScale).part < MsScale
  }

  /** The start of the row is not negative and does not round up to a whole
      second at hundredths, where `_fmt_lrc_ts` would print 100 hundredths. */
  predicate LrcExact(r: LyricRow) {
    r.start >= 0.0 && ClockOf(r.start, CsScale).part < CsScale
  }

  /** The time line `_write_srt` prints, fraction and all. */
  function SrtTimeLineAsWritten(r: LyricRow): string {
    SrtTimestampAsWritten(r.start) + " --> " + SrtTimestampAsWritten(r.end)
  }

  function SrtTimeLinesAsWritten(rows: seq<LyricRow>): (times: seq<string>)
    ensures |times| == |rows|
    ensures forall i :: 0 <= i < |rows| && SrtExact(rows[i]) ==> times[i] == SrtTimeLine(rows[i])
  {
    var times := seq(|rows|, i requires 0 <= i < |rows| => SrtTimeLineAsWritten(rows[i]));
    forall i | 0 <= i < |rows| && SrtExact(rows[i])
      ensures times[i] == SrtTimeLine(rows[i])
    {
      AsWrittenAgrees(rows[i].start);
      AsWrittenAgrees(rows[i].end);
    }
    times
  }

  /** `_write_srt` as it runs: the same entries with the printed time lines. */
  function WriteSrtAsWritten(rows: seq<LyricRow>): string {
    Join(Flatten(Entries(IndexLines(|rows|, 1), SrtTimeLinesAsWritten(rows), SrtTextLines(rows))), "\n")
  }

  /** The LRC line `_write_lrc` prints. */
  function LrcLineAsWritten(r: LyricRow): string {
    LrcTagAsWritten(r.start) + CueText(r)
  }

  function LrcLinesAsWritten(rows: seq<LyricRow>): (lines: seq<string>)
    ensures |lines| == |rows|
    ensures forall i :: 0 <= i < |rows| && LrcExact(rows[i]) ==> lines[i] == LrcLine(rows[i])
  {
    var lines := seq(|rows|, i requires 0 <= i < |rows| => LrcLineAsWritten(rows[i]));
    forall i | 0 <= i < |rows| && LrcExact(rows[i])
      ensures lines[i] == LrcLine(rows[i])
    {
      AsWrittenAgrees(rows[i].start);
    }
    lines
  }

  /** `_write_lrc` as it runs. */
  function WriteLrcAsWritten(rows: seq<LyricRow>): string {
    Join(LrcLinesAsWritten(rows), "\n") + "\n"
  }

  /** When no time rounds up, the SRT text the program writes is the one
      with carried timestamps. */
  lemma WriteSrtAgrees(rows: seq<LyricRow>)
    requires forall i :: 0 <= i < |rows| ==> SrtExact(rows[i])
    ensures WriteSrtAsWritten(rows) == WriteSrt(rows)
  {
    assert SrtTimeLinesAsWritten(rows) == SrtTimeLines(rows);
  }

  /** When no start rounds up, the LRC text the program writes is the one
      with carried tags. */
  lemma WriteLrcAgrees(rows: seq<LyricRow>)
    requires forall i :: 0 <= i < |rows| ==> LrcExact(rows[i])
    ensures WriteLrcAsWritten(rows) == WriteLrc(rows)
  {
    assert LrcLinesAsWritten(rows) == LrcLines(rows);
  }

  /** An item of the overlay list, `{"s": start, "e": end, "t": text}`. */
  datatype OverlayItem = OverlayItem(s: real, e: real, t: string)

  /** `_write_overlay_json`: the rows' times and unstripped texts, in order. */
  function Overlay(rows: seq<LyricRow>): (items: seq<OverlayItem>)
    ensures |items| == |rows|
    ensures forall i :: 0 <= i < |rows| ==> items[i].s == rows[i].start && items[i].e == rows[i].end && items[i].t == rows[i].text
  {
    seq(|rows|, i requires 0 <= i < |rows| => OverlayItem(rows[i].start, rows[i].end, rows[i].text))
  }

  /** What `main` writes: the LRC text, the SRT text, the overlay and the
      rows copied under `"lines"`. */
  datatype Outputs = Outputs(lrc: string, srt: string, overlay: seq<OverlayItem>, copy: seq<LyricRow>)

  /** `main` stops with `SystemExit` when there are no rows. */
  datatype SubtitleError = NoRows

  /** `main`. */
  function MakeSubtitles(lines: Option<seq<LyricRow>>, lyrics: Option<seq<LyricRow>>): (r: Result<Outputs, SubtitleError>)
    ensures r.Err? <==> Empty(lines) && Empty(lyrics)
    ensures r.Ok? ==> |r.value.copy| > 0 && |r.value.overlay| == |r.value.copy|
    ensures r.Ok? ==> r.value.copy == LoadLines(lines, lyrics)
    ensures r.Ok? ==> r.value.lrc == WriteLrcAsWritten(r.value.copy) && r.value.srt == WriteSrtAsWritten(r.value.copy)
  {
    var rows := LoadLines(lines, lyrics);
    if |rows| == 0 then Err(NoRows)
    else Ok(Outputs(WriteLrcAsWritten(rows), WriteSrtAsWritten(rows), Overlay(rows), rows))
  }
}
