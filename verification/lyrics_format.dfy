/** The rest of the lyrics importer (`tools/14_import_lyrics_v2.py`, and
    `tools/10_import_lyrics.py` where it differs): plain text spread evenly
    over the song, the guess of a file's format, and the choice of reader. */
module LyricsFormat {
  import opened Wrappers
  import opened Numeric
  import opened Text
  import opened Timeline
  import opened LyricsImport

  // ---------------------------------------------------------------------------
  // Plain text
  // ---------------------------------------------------------------------------

  /** `[ln.strip() for ln in lines if ln.strip()]`. */
  function NonBlankTexts(lines: seq<string>): (texts: seq<string>)
    ensures |texts| <= |lines|
    ensures forall t :: t in texts ==> |t| > 0
  {
    if |lines| == 0 then []
    else (if NonBlank(lines[0]) then [Strip(lines[0])] else []) + NonBlankTexts(lines[1..])
  }

  /** The texts are exactly the stripped non-blank lines. */
  lemma {:induction false} NonBlankTextsMembers(lines: seq<string>, t: string)
    ensures t in NonBlankTexts(lines) <==> exists l :: l in lines && NonBlank(l) && Strip(l) == t
    decreases |lines|
  {
    if |lines| > 0 {
      NonBlankTextsMembers(lines[1..], t);
      assert forall l :: l in lines <==> l == lines[0] || l in lines[1..];
    }
  }

  /** Stripping a text again changes nothing. */
  lemma {:induction false} NonBlankTextsStripped(lines: seq<string>, t: string)
    requires t in NonBlankTexts(lines)
    ensures Strip(t) == t
    decreases |lines|
  {
    if t in NonBlankTexts(lines[1..]) {
      NonBlankTextsStripped(lines[1..], t);
    } else {
      StripIdempotent(lines[0]);
    }
  }

  /** There is no text exactly when every line is blank. */
  lemma {:induction false} NonBlankTextsEmpty(lines: seq<string>)
    ensures |NonBlankTexts(lines)| == 0 <==> forall i :: 0 <= i < |lines| ==> !NonBlank(lines[i])
    decreases |lines|
  {
    if |lines| > 0 {
      NonBlankTextsEmpty(lines[1..]);
      assert forall i :: 0 < i < |lines| ==> lines[i] == lines[1..][i - 1];
    }
  }

  /** The duration the `n` lines share: `tools/14` uses the song's length
      when it is positive and `max(180, 2n)` otherwise; `tools/10` uses
      `max(total, 2n)`. */
  function TxtTotal(v: Version, total: real, n: nat): (d: real)
    requires n > 0
    ensures d > 0.0
    ensures v == V1 ==> d >= SecondsPerLine * n as real && (d == total || d == SecondsPerLine * n as real)
    ensures v == V2 && total > 0.0 ==> d == total
    ensures v == V2 && total <= 0.0 ==> d >= FallbackSeconds && d >= SecondsPerLine * n as real
  {
    var perLines := SecondsPerLine * n as real;
    if v == V1 then Max(total, perLines)
    else if total <= 0.0 then Max(FallbackSeconds, perLines)
    else total
  }

  /** The two versions agree once the song is long enough for 2 seconds a
      line, and differ for a short text of a song of unknown length. */
  lemma TxtTotalAgree(total: real, n: nat)
    requires n > 0
    ensures total >= SecondsPerLine * n as real ==> TxtTotal(V1, total, n) == TxtTotal(V2, total, n)
    ensures total <= 0.0 && n < 90 ==> TxtTotal(V1, total, n) < TxtTotal(V2, total, n)
  {
  }

  /** `read_txt`: one row per non-blank line, in order, cutting the duration
      into equal back-to-back slices from 0. */
  function ReadTxt(v: Version, lines: seq<string>, total: real): (rows: seq<LyricRow>)
    ensures |rows| == |NonBlankTexts(lines)|
    ensures forall i :: 0 <= i < |rows| ==> rows[i].text == NonBlankTexts(lines)[i]
    ensures RowsContiguous(rows)
    ensures |rows| > 0 ==> rows[0].start == 0.0 && rows[|rows| - 1].end == TxtTotal(v, total, |rows|)
    ensures forall i :: 0 <= i < |rows| ==> rows[i].end - rows[i].start == TxtTotal(v, total, |rows|) / |rows| as real
  {
    var texts := NonBlankTexts(lines);
    var n := |texts|;
    if n == 0 then []
    else
      var spans := EqualSlices(n, TxtTotal(v, total, n));
      RowsOf(spans, texts)
  }

  /** The rows' spans are the equal slices of the duration: any rows that
      start at 0, lie back to back, share one length and end at the duration
      have the same times. */
  lemma ReadTxtSpans(v: Version, lines: seq<string>, total: real)
    requires |NonBlankTexts(lines)| > 0
    ensures var rows := ReadTxt(v, lines, total);
      forall i :: 0 <= i < |rows| ==> Span(rows[i].start, rows[i].end) == EqualSlices(|rows|, TxtTotal(v, total, |rows|))[i]
  {
    var rows := ReadTxt(v, lines, total);
    var n := |rows|;
    var d := TxtTotal(v, total, n);
    var spans := seq(n, i requires 0 <= i < n => Span(rows[i].start, rows[i].end));
    assert Contiguous(spans);
    EqualSlicesUnique(spans, d);
  }

  /** A file of blank lines gives no rows; any other gives rows ending at a
      positive time. */
  lemma ReadTxtEmpty(v: Version, lines: seq<string>, total: real)
    ensures |ReadTxt(v, lines, total)| == 0 <==> forall i :: 0 <= i < |lines| ==> !NonBlank(lines[i])
  {
    NonBlankTextsEmpty(lines);
  }

  /** `load_ref_total_sec`: the time of the reference's last frame, or 0 when
      there is no reference or it has no frames. */
  function RefTotal(track: Option<seq<real>>): (total: real)
    ensures track.Some? && |track.value| > 0 ==> total == track.value[|track.value| - 1]
    ensures track.None? || |track.value| == 0 ==> total == 0.0
  {
    if track.Some? && |track.value| > 0 then track.value[|track.value| - 1] else 0.0
  }

  // ---------------------------------------------------------------------------
  // Format
  // ---------------------------------------------------------------------------

  datatype Format = Lrc | Srt | Txt

  /** The format is guessed from the first five lines. */
  const HeadLines: nat := 5

  /** `detect_format` of `tools/14`: a time tag makes LRC, else a `-->` makes
      SRT, else plain text. */
  function DetectFormat(head: string): Format {
    if |Tags(head)| > 0 then Lrc
    else if Contains(head, "-->") then Srt
    else Txt
  }

  /** LRC exactly when the head holds a `[m:ss]` tag, SRT exactly when it
      holds none but has a `-->`. */
  lemma DetectFormatMeans(head: string)
    ensures DetectFormat(head) == Lrc <==> HasTag(head)
    ensures DetectFormat(head) == Srt <==> !HasTag(head) && Contains(head, "-->")
    ensures DetectFormat(head) == Txt <==> !HasTag(head) && !Contains(head, "-->")
  {
    TagsFound(head);
  }

  /** The file name suffixes `tools/10` trusts. */
  function SuffixFormat(ext: string): Option<Format> {
    if ext == ".lrc" then Some(Lrc)
    else if ext == ".srt" then Some(Srt)
    else if ext == ".txt" then Some(Txt)
    else None
  }

  /** `detect_format` of `tools/10`: a known suffix wins; otherwise any `[`
      and `]` make LRC, else a `-->` makes SRT, else plain text. */
  function DetectFormatV1(ext: string, head: string): (f: Format)
    ensures SuffixFormat(ext).Some? ==> f == SuffixFormat(ext).value
  {
    match SuffixFormat(ext)
    case Some(f) => f
    case None =>
      if Contains(head, "[") && Contains(head, "]") then Lrc
      else if Contains(head, "-->") then Srt
      else Txt
  }

  /** A tag holds a `[` and a `]`. */
  lemma TagHasBrackets(head: string)
    requires HasTag(head)
    ensures Contains(head, "[") && Contains(head, "]")
  {
    var i, j :| TagAt(head, i, j);
    assert OccursAt(head, "[", i);
    assert OccursAt(head, "]", j);
  }

  /** Without a trusted suffix, `tools/10` reads as LRC every head `tools/14`
      reads as LRC, and reads as plain text only heads `tools/14` reads as
      plain text; it differs only in taking bracketed lines without a time
      tag for LRC. */
  lemma DetectFormatRefines(ext: string, head: string)
    requires SuffixFormat(ext).None?
    ensures DetectFormat(head) == Lrc ==> DetectFormatV1(ext, head) == Lrc
    ensures DetectFormatV1(ext, head) == Txt ==> DetectFormat(head) == Txt
    ensures DetectFormat(head) != DetectFormatV1(ext, head) ==>
      DetectFormatV1(ext, head) == Lrc && !HasTag(head) && Contains(head, "[") && Contains(head, "]")
  {
    DetectFormatMeans(head);
    if HasTag(head) {
      TagHasBrackets(head);
    }
  }

  /** A head where no `[` is followed by a digit holds no tag. */
  lemma NoDigitAfterBracket(h: string)
    requires forall i :: 0 <= i < |h| - 1 && h[i] == '[' ==> !IsDigit(h[i + 1])
    ensures !HasTag(h)
  {
    forall i, j | 0 <= i < j < |h| && h[i] == '['
      ensures !TagAt(h, i, j)
    {
      TagBodyStart(h[i + 1..j]);
      if i + 1 < j {
        assert h[i + 1..j][0] == h[i + 1];
      }
    }
  }

  /** A bracketed section name without a time tag. */
  const SectionHead: string := "[Chorus]"

  lemma SectionHeadChars()
    ensures Contains(SectionHead, "[") && Contains(SectionHead, "]")
    ensures !Contains(SectionHead, "-->")
  {
    var h := SectionHead;
    assert OccursAt(h, "[", 0);
    assert OccursAt(h, "]", 7);
    assert Lacks(h, '-');
    LacksNotContains(h, "-->");
  }

  lemma SectionHeadNoTag()
    ensures !HasTag(SectionHead)
  {
    var h := SectionHead;
    assert forall i :: 0 < i < |h| ==> h[i] != '[';
    NoDigitAfterBracket(h);
  }

  /** `tools/10` takes a head of section names for LRC, where `tools/14`
      takes it for plain text. */
  lemma SectionHeadDiffers()
    ensures DetectFormatV1("", SectionHead) == Lrc
    ensures DetectFormat(SectionHead) == Txt
  {
    SectionHeadChars();
    SectionHeadNoTag();
    DetectFormatMeans(SectionHead);
  }

  // ---------------------------------------------------------------------------
  // The importer
  // ---------------------------------------------------------------------------

  /** The reader each format selects, over the file's lines. */
  function ReadAs(v: Version, f: Format, lines: seq<string>, total: real): Result<seq<LyricRow>, SrtError> {
    match f
    case Lrc => Ok(ReadLrc(v, lines))
    case Srt => ReadSrt(v, lines)
    case Txt => Ok(ReadTxt(v, lines, total))
  }

  /** `main` of `tools/14`: the format of the first five lines, and the rows
      of the whole file read in that format. */
  function ImportLyrics(content: string, total: real): (Format, Result<seq<LyricRow>, SrtError>) {
    var f := DetectFormat(Head(content, HeadLines));
    (f, ReadAs(V2, f, SplitLines(content), total))
  }

  /** `main` of `tools/10`, for a file of suffix `ext`. */
  function ImportLyricsV1(ext: string, content: string, total: real): (Format, Result<seq<LyricRow>, SrtError>) {
    var f := DetectFormatV1(ext, Head(content, HeadLines));
    (f, ReadAs(V1, f, SplitLines(content), total))
  }

  /** `tools/14` stops with an exception only on a file taken for SRT that
      holds a `-->` line not splitting in two. */
  lemma ImportLyricsFails(content: string, total: real)
    ensures var lines := SplitLines(content);
      ImportLyrics(content, total).1.Err? <==>
        ImportLyrics(content, total).0 == Srt &&
        exists i :: 0 <= i < |lines| && NonBlank(lines[i]) && BadTimeLine(StripNewlines(lines[i]))
  {
    var lines := SplitLines(content);
    var f := DetectFormat(Head(content, HeadLines));
    assert ImportLyrics(content, total) == (f, ReadAs(V2, f, lines, total));
    if f == Srt {
      ReadSrtFails(lines);
    }
  }

  /** Every row `tools/14` writes carries text. */
  lemma ImportLyricsTexts(content: string, total: real)
    ensures ImportLyrics(content, total).1.Ok? ==> forall r :: r in ImportLyrics(content, total).1.value ==> |r.text| > 0
  {
    var lines := SplitLines(content);
    var f := DetectFormat(Head(content, HeadLines));
    match f
    case Lrc => ReadLrcRows(V2, lines);
    case Srt => ReadSrtTexts(V2, lines);
    case Txt =>
      var rows := ReadTxt(V2, lines, total);
      forall r | r in rows
        ensures |r.text| > 0
      {
        var i :| 0 <= i < |rows| && rows[i] == r;
        assert r.text in NonBlankTexts(lines);
      }
  }
}
