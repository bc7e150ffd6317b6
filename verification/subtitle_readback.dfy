/** What the importer of tools/14_import_lyrics_v2.py reads back from the
    SRT and LRC files tools/12_make_subtitles.py writes: every row whose text
    is one readable line comes back with its text, and with its times to the
    millisecond (SRT) or the hundredth of a second (LRC); a row without text
    is dropped. */
module SubtitleReadBack {
  import opened Wrappers
  import opened Numeric
  import opened Text
  import opened Timeline
  import opened LyricsTime
  import opened LyricsImport
  import opened Subtitles

  // ---------------------------------------------------------------------------
  // Timestamp characters
  // ---------------------------------------------------------------------------

  /** The characters of a written time: digits and the separators `:`, `,`
      and `.`, with a digit at each end. */
  predicate StampText(s: string) {
    |s| > 0 && IsDigit(s[0]) && IsDigit(s[|s| - 1]) &&
    forall i :: 0 <= i < |s| ==> IsDigit(s[i]) || s[i] == ':' || s[i] == ',' || s[i] == '.'
  }

  /** A written time has nothing to strip, no line boundary, no `-` and no
      bracket. */
  lemma StampTextLacks(s: string)
    requires StampText(s)
    ensures !IsSpace(s[0]) && !IsSpace(s[|s| - 1])
    ensures NoBreaks(s) && Lacks(s, '-') && Lacks(s, '[') && Lacks(s, ']') && Lacks(s, '\n')
  {
    forall i | 0 <= i < |s|
      ensures !IsLineBreak(s[i])
    {
      if IsDigit(s[i]) {
        DigitNotSpace(s[i]);
      }
    }
  }

  lemma FormatIntStamp(n: int, w: nat)
    requires n >= 0
    ensures StampText(FormatInt(n, w))
  {
    FormatIntChars(n, w);
  }

  /** Two written times joined by a separator. */
  lemma StampJoin(x: string, c: char, y: string)
    requires StampText(x) && StampText(y) && (c == ':' || c == ',' || c == '.')
    ensures StampText(x + [c] + y)
  {
    var s := x + [c] + y;
    assert s[|s| - 1] == y[|y| - 1];
    forall i | 0 <= i < |s|
      ensures IsDigit(s[i]) || s[i] == ':' || s[i] == ',' || s[i] == '.'
    {
      if i > |x| {
        assert s[i] == y[i - |x| - 1];
      }
    }
  }

  /** The SRT timestamp of a non-negative time. */
  lemma SrtTimestampText(sec: real)
    requires sec >= 0.0
    ensures StampText(SrtTimestamp(sec))
  {
    var d := Carry(ClockOf(sec, MsScale), MsScale);
    var hh, mm, ss, ms := d.whole / 3600, (d.whole % 3600) / 60, d.whole % 60, d.part;
    FormatIntStamp(hh, Pad);
    FormatIntStamp(mm, Pad);
    FormatIntStamp(ss, Pad);
    FormatIntStamp(ms, MsPad);
    var H, M, S, F := FormatInt(hh, Pad), FormatInt(mm, Pad), FormatInt(ss, Pad), FormatInt(ms, MsPad);
    StampJoin(H, ':', M);
    StampJoin(H + ":" + M, ':', S);
    StampJoin(H + ":" + M + ":" + S, ',', F);
    assert SrtTimestamp(sec) == H + ":" + M + ":" + S + "," + F;
  }

  /** The time `parse_time` reads back from the SRT timestamp of `sec`. */
  function MsReadBack(sec: real): (x: real)
    requires sec >= 0.0
    ensures ParseTime(SrtTimestamp(sec)).Some? && ParseTime(SrtTimestamp(sec)).value == x
    ensures Abs(x - sec) <= 0.0005
  {
    SrtTimestampRoundTrip(sec);
    ParseTime(SrtTimestamp(sec)).value
  }

  /** The time line splits at its one `-->` into the two timestamps, each
      with a blank that `strip` removes. */
  lemma TimeLineParts(r: LyricRow)
    requires r.start >= 0.0 && r.end >= 0.0
    ensures Contains(SrtTimeLine(r), "-->")
    ensures |Split(SrtTimeLine(r), "-->")| == 2
    ensures Strip(Split(SrtTimeLine(r), "-->")[0]) == SrtTimestamp(r.start)
    ensures Strip(Split(SrtTimeLine(r), "-->")[1]) == SrtTimestamp(r.end)
  {
    var A, B := SrtTimestamp(r.start), SrtTimestamp(r.end);
    SrtTimestampText(r.start);
    SrtTimestampText(r.end);
    StampTextLacks(A);
    StampTextLacks(B);
    ArrowSplit(A, B);
    StripPadded(A);
    StripPadded(B);
  }

  /** `x --> y` splits at the arrow when neither side holds a `-`. */
  lemma ArrowSplit(x: string, y: string)
    requires Lacks(x, '-') && Lacks(y, '-')
    ensures Contains(x + " --> " + y, "-->")
    ensures Split(x + " --> " + y, "-->") == [x + " ", " " + y]
  {
    var line := x + " --> " + y;
    assert line == (x + " ") + "-->" + (" " + y);
    assert line[|x| + 1..|x| + 4] == "-->";
    assert OccursAt(line, "-->", |x| + 1);
    SplitPiece(x + " ", "-->", " " + y);
    SplitWhole(" " + y, "-->");
  }

  /** A line that splits at `-->` into two times that parse sets the block's
      times to them. */
  lemma ScanTimes(s: Scan, line: string, a: real, b: real)
    requires Contains(line, "-->") && |Split(line, "-->")| == 2
    requires ParseTime(Strip(Split(line, "-->")[0])).Some? && ParseTime(Strip(Split(line, "-->")[0])).value == a
    requires ParseTime(Strip(Split(line, "-->")[1])).Some? && ParseTime(Strip(Split(line, "-->")[1])).value == b
    ensures ScanLine(V2, s, line).Ok? && ScanLine(V2, s, line).value == Scan(Some((Some(a), Some(b))), s.texts)
  {
    var parts := Split(line, "-->");
    var x, y := ParseTimeIn(V2, Strip(parts[0])), ParseTimeIn(V2, Strip(parts[1]));
    assert x == Some(a) && y == Some(b);
    assert ScanLine(V2, s, line) == Ok(Scan(Some((x, y)), s.texts));
  }

  /** Text that is not blank and has no newline is a line of a block as it is. */
  lemma BlockLine(x: string)
    requires |x| > 0 && !IsSpace(x[0]) && Lacks(x, '\n')
    ensures NonBlank(x) && StripNewlines(x) == x
  {
    StripEmpty(x);
    StripNewlinesNone(x);
  }

  /** The number line of an entry. */
  lemma IndexLineFacts(k: int)
    requires k >= 0
    ensures NonBlank(IntToString(k)) && StripNewlines(IntToString(k)) == IntToString(k) && NoBreaks(IntToString(k))
  {
    FormatIntStamp(k, 0);
    StampTextLacks(IntToString(k));
    BlockLine(IntToString(k));
  }

  /** The time line of an entry. */
  lemma TimeLineFacts(r: LyricRow)
    requires r.start >= 0.0 && r.end >= 0.0
    ensures NonBlank(SrtTimeLine(r)) && StripNewlines(SrtTimeLine(r)) == SrtTimeLine(r) && NoBreaks(SrtTimeLine(r))
  {
    var A, B := SrtTimestamp(r.start), SrtTimestamp(r.end);
    SrtTimestampText(r.start);
    SrtTimestampText(r.end);
    StampTextLacks(A);
    StampTextLacks(B);
    var arrow := " --> ";
    assert NoBreaks(arrow) && Lacks(arrow, '\n');
    NoBreaksAppend(A, arrow);
    NoBreaksAppend(A + arrow, B);
    var line := A + arrow + B;
    assert line[0] == A[0];
    assert Lacks(line, '\n');
    BlockLine(line);
  }

  /** A non-blank line joins the block being collected. */
  lemma BlocksKeep(x: string, rest: seq<string>, buf: seq<string>)
    requires NonBlank(x)
    ensures Blocks([x] + rest, buf) == Blocks(rest, buf + [StripNewlines(x)])
  {
    assert ([x] + rest)[1..] == rest;
  }

  /** A blank line closes the block being collected. */
  lemma BlocksClose(x: string, rest: seq<string>, buf: seq<string>)
    requires !NonBlank(x)
    ensures Blocks([x] + rest, buf) == (if |buf| > 0 then [buf] else []) + Blocks(rest, [])
  {
    assert ([x] + rest)[1..] == rest;
  }

  lemma BlankLines()
    ensures !NonBlank("") && !NonBlank(" ")
  {
    StripEmpty(" ");
  }

  /** Lines `read_srt` keeps in a block as they are. */
  predicate AllKept(lines: seq<string>) {
    forall k :: 0 <= k < |lines| ==> NonBlank(lines[k]) && StripNewlines(lines[k]) == lines[k]
  }

  lemma KeptThree(a: string, b: string, c: string)
    requires NonBlank(a) && NonBlank(b) && NonBlank(c)
    requires StripNewlines(a) == a && StripNewlines(b) == b && StripNewlines(c) == c
    ensures AllKept([a, b, c])
  {
    var l := [a, b, c];
    forall k | 0 <= k < |l|
      ensures NonBlank(l[k]) && StripNewlines(l[k]) == l[k]
    {
      assert l[k] == a || l[k] == b || l[k] == c;
    }
  }

  lemma KeptTwo(a: string, b: string)
    requires NonBlank(a) && NonBlank(b)
    requires StripNewlines(a) == a && StripNewlines(b) == b
    ensures AllKept([a, b])
  {
  }

  /** Non-blank lines without a trailing newline all join the block. */
  lemma {:induction false} BlocksKeepAll(lines: seq<string>, rest: seq<string>, buf: seq<string>)
    requires AllKept(lines)
    ensures Blocks(lines + rest, buf) == Blocks(rest, buf + lines)
    decreases |lines|
  {
    if |lines| == 0 {
      AppendEmpty(lines, rest, buf);
    } else {
      var x := lines[0];
      MoveHead(lines, rest, buf);
      BlocksKeep(x, lines[1..] + rest, buf);
      BlocksKeepAll(lines[1..], rest, buf + [x]);
    }
  }

  lemma AppendEmpty(lines: seq<string>, rest: seq<string>, buf: seq<string>)
    requires |lines| == 0
    ensures lines + rest == rest && buf + lines == buf
  {
  }

  /** Moving the first line from the front of the input to the end of the buffer. */
  lemma MoveHead(lines: seq<string>, rest: seq<string>, buf: seq<string>)
    requires |lines| > 0
    ensures lines + rest == [lines[0]] + (lines[1..] + rest)
    ensures (buf + [lines[0]]) + lines[1..] == buf + lines
  {
    assert lines == [lines[0]] + lines[1..];
  }


  /** The four lines of an entry, taken apart. */
  lemma EntryParts<T>(a: T, b: T, c: T, d: T, rest: seq<T>)
    ensures [a, b, c, d] + rest == [a, b, c] + ([d] + rest)
    ensures [a, b, c, d] + rest == [a, b] + ([c] + ([d] + rest))
  {
  }

  /** An entry with text is one block of three lines. */
  lemma BlockOfFour(a: string, b: string, c: string, rest: seq<string>)
    requires NonBlank(a) && NonBlank(b) && NonBlank(c)
    requires StripNewlines(a) == a && StripNewlines(b) == b && StripNewlines(c) == c
    ensures Blocks([a, b, c, ""] + rest, []) == [[a, b, c]] + Blocks(rest, [])
  {
    var block := [a, b, c];
    KeptThree(a, b, c);
    EntryParts(a, b, c, "", rest);
    BlocksKeepAll(block, [""] + rest, []);
    NilAppend(block);
    BlankLines();
    BlocksClose("", rest, block);
  }

  lemma NilAppend<T>(x: seq<T>)
    ensures [] + x == x
  {
  }

  /** A blank text line closes the block, and the empty line after it adds
      nothing. */
  lemma BlockOfTwo(a: string, b: string, c: string, rest: seq<string>)
    requires NonBlank(a) && NonBlank(b) && !NonBlank(c)
    requires StripNewlines(a) == a && StripNewlines(b) == b
    ensures Blocks([a, b, c, ""] + rest, []) == [[a, b]] + Blocks(rest, [])
  {
    var block := [a, b];
    KeptTwo(a, b);
    EntryParts(a, b, c, "", rest);
    BlocksKeepAll(block, [c] + ([""] + rest), []);
    NilAppend(block);
    BlankLines();
    BlocksClose(c, [""] + rest, block);
    BlocksClose("", rest, []);
    NilAppend(Blocks(rest, []));
  }

  /** An empty line at the end of the input adds no block. */
  lemma {:induction false} BlocksBlankEnd(lines: seq<string>, buf: seq<string>)
    ensures Blocks(lines + [""], buf) == Blocks(lines, buf)
    decreases |lines|
  {
    BlankLines();
    if |lines| == 0 {
      assert lines + [""] == [""] + [];
      BlocksClose("", [], buf);
    } else {
      MoveHead(lines, [""], []);
      var x := lines[0];
      if NonBlank(x) {
        BlocksKeep(x, lines[1..] + [""], buf);
        BlocksBlankEnd(lines[1..], buf + [StripNewlines(x)]);
      } else {
        BlocksClose(x, lines[1..] + [""], buf);
        BlocksBlankEnd(lines[1..], []);
      }
    }
  }

  // ---------------------------------------------------------------------------
  // Entries as blocks
  // ---------------------------------------------------------------------------

  /** A line `read_srt` keeps in its block as it is. */
  predicate PlainLine(x: string) {
    NonBlank(x) && StripNewlines(x) == x && NoBreaks(x)
  }

  /** The lines of an entry as the writer makes them: a number line and a
      time line that are kept as they are, and a text line that is either
      blank or kept as it is. */
  predicate EntryFields(idx: string, time: string, text: string) {
    PlainLine(idx) && PlainLine(time) && NoBreaks(text) && (NonBlank(text) ==> StripNewlines(text) == text)
  }

  /** The block `read_srt` collects from an entry: the number, the time line,
      and the text line unless it is blank. */
  function EntryBlock(idx: string, time: string, text: string): seq<string> {
    if NonBlank(text) then [idx, time, text] else [idx, time]
  }

  /** An entry is one block, and the empty line after it ends the block. */
  lemma EntryBlocks(idx: string, time: string, text: string, rest: seq<string>)
    requires EntryFields(idx, time, text)
    ensures Blocks(Entry(idx, time, text) + rest, []) == [EntryBlock(idx, time, text)] + Blocks(rest, [])
  {
    if NonBlank(text) {
      BlockOfFour(idx, time, text, rest);
    } else {
      BlockOfTwo(idx, time, text, rest);
    }
  }

  function EntryBlocksOf(idxs: seq<string>, times: seq<string>, texts: seq<string>): (bs: seq<seq<string>>)
    requires |idxs| == |times| == |texts|
    ensures |bs| == |texts|
    ensures forall i :: 0 <= i < |texts| ==> bs[i] == EntryBlock(idxs[i], times[i], texts[i])
  {
    seq(|texts|, i requires 0 <= i < |texts| => EntryBlock(idxs[i], times[i], texts[i]))
  }

  /** Dropping the first entry. */
  lemma EntriesTail(idxs: seq<string>, times: seq<string>, texts: seq<string>)
    requires |idxs| == |times| == |texts| > 0
    ensures Entries(idxs, times, texts)[1..] == Entries(idxs[1..], times[1..], texts[1..])
    ensures EntryBlocksOf(idxs, times, texts)[1..] == EntryBlocksOf(idxs[1..], times[1..], texts[1..])
  {
  }

  /** The written lines fall into one block per entry. */
  lemma {:induction false} EntriesBlocks(idxs: seq<string>, times: seq<string>, texts: seq<string>)
    requires |idxs| == |times| == |texts|
    requires forall i :: 0 <= i < |texts| ==> EntryFields(idxs[i], times[i], texts[i])
    ensures Blocks(Flatten(Entries(idxs, times, texts)), []) == EntryBlocksOf(idxs, times, texts)
    decreases |texts|
  {
    if |texts| > 0 {
      var es := Entries(idxs, times, texts);
      EntriesTail(idxs, times, texts);
      EntriesBlocks(idxs[1..], times[1..], texts[1..]);
      EntryBlocks(idxs[0], times[0], texts[0], Flatten(es[1..]));
      var bs := EntryBlocksOf(idxs, times, texts);
      SplitFirst(bs);
    }
  }

  /** Every line is free of line boundaries. */
  predicate AllNoBreaks(lines: seq<string>) {
    forall k :: 0 <= k < |lines| ==> NoBreaks(lines[k])
  }

  lemma SplitFirst<T>(s: seq<T>)
    requires |s| > 0
    ensures s == [s[0]] + s[1..]
  {
  }

  lemma SplitLast<T>(s: seq<T>)
    requires |s| > 0
    ensures s == s[..|s| - 1] + [s[|s| - 1]]
  {
  }

  lemma AllNoBreaksAppend(a: seq<string>, b: seq<string>)
    requires AllNoBreaks(a) && AllNoBreaks(b)
    ensures AllNoBreaks(a + b)
  {
    forall k | |a| <= k < |a + b|
      ensures NoBreaks((a + b)[k])
    {
      assert (a + b)[k] == b[k - |a|];
    }
  }

  /** Lines without line boundaries, run together. */
  lemma {:induction false} FlattenNoBreaks(es: seq<seq<string>>)
    requires forall i :: 0 <= i < |es| ==> AllNoBreaks(es[i])
    ensures AllNoBreaks(Flatten(es))
    decreases |es|
  {
    if |es| > 0 {
      FlattenNoBreaks(es[1..]);
      AllNoBreaksAppend(es[0], Flatten(es[1..]));
    }
  }

  /** The lines of an entry whose fields have no line boundaries. */
  lemma EntryNoBreaks(idx: string, time: string, text: string)
    requires NoBreaks(idx) && NoBreaks(time) && NoBreaks(text)
    ensures AllNoBreaks(Entry(idx, time, text))
  {
    var e := Entry(idx, time, text);
    assert NoBreaks("");
    assert e[0] == idx && e[1] == time && e[2] == text && e[3] == "";
  }

  /** The lines run together end with the last entry's lines. */
  lemma FlattenEnd(es: seq<seq<string>>)
    requires |es| > 0
    ensures Flatten(es) == Flatten(es[..|es| - 1]) + es[|es| - 1]
  {
    var n := |es|;
    SplitLast(es);
    FlattenAppend(es[..n - 1], [es[n - 1]]);
    assert Flatten([es[n - 1]]) == es[n - 1] + Flatten([]);
  }

  /** The written lines hold no line boundary, and the last is empty. */
  lemma EntriesLines(idxs: seq<string>, times: seq<string>, texts: seq<string>)
    requires |idxs| == |times| == |texts| > 0
    requires forall i :: 0 <= i < |texts| ==> EntryFields(idxs[i], times[i], texts[i])
    ensures var lines := Flatten(Entries(idxs, times, texts));
      |lines| > 1 && lines[|lines| - 1] == "" && AllNoBreaks(lines)
  {
    var es := Entries(idxs, times, texts);
    var n := |es|;
    FlattenEnd(es);
    var e := es[n - 1];
    assert |e| == 4 && e[3] == "";
    forall i | 0 <= i < n
      ensures AllNoBreaks(es[i])
    {
      EntryNoBreaks(idxs[i], times[i], texts[i]);
    }
    FlattenNoBreaks(es);
  }

  /** The file reads back as the lines written, less the empty last one. */
  lemma SrtFileLines(idxs: seq<string>, times: seq<string>, texts: seq<string>)
    requires |idxs| == |times| == |texts| > 0
    requires forall i :: 0 <= i < |texts| ==> EntryFields(idxs[i], times[i], texts[i])
    ensures Blocks(SplitLines(Join(Flatten(Entries(idxs, times, texts)), "\n")), []) == EntryBlocksOf(idxs, times, texts)
  {
    var lines := Flatten(Entries(idxs, times, texts));
    EntriesLines(idxs, times, texts);
    EntriesBlocks(idxs, times, texts);
    LinesBlocksBack(lines);
  }

  /** Lines joined by `\n`, the last one empty, are split back into the
      blocks they make. */
  lemma LinesBlocksBack(lines: seq<string>)
    requires |lines| > 1 && lines[|lines| - 1] == "" && AllNoBreaks(lines)
    ensures Blocks(SplitLines(Join(lines, "\n")), []) == Blocks(lines, [])
  {
    var front := lines[..|lines| - 1];
    SplitLast(lines);
    JoinEmptyLast(front, "\n");
    SplitJoinedLines(front);
    BlocksBlankEnd(front, []);
  }

  // ---------------------------------------------------------------------------
  // Reading the blocks
  // ---------------------------------------------------------------------------

  /** The scan of block `b` succeeds and gives row `o` (or none). */
  predicate Reads(b: seq<string>, o: Option<LyricRow>) {
    ScanLines(V2, Scan(None, []), b).Ok? && BlockRow(V2, ScanLines(V2, Scan(None, []), b).value) == Ok(o)
  }

  /** The rows that are there, in order. */
  function Present(os: seq<Option<LyricRow>>): (rows: seq<LyricRow>)
    ensures |rows| <= |os|
    decreases |os|
  {
    if |os| == 0 then [] else (if os[0].Some? then [os[0].value] else []) + Present(os[1..])
  }

  /** When every block reads, the file gives the rows read, in order. */
  lemma {:induction false} ReadBlocksEach(bs: seq<seq<string>>, os: seq<Option<LyricRow>>)
    requires |bs| == |os|
    requires forall i :: 0 <= i < |bs| ==> Reads(bs[i], os[i])
    ensures ReadBlocks(V2, bs).Ok? && ReadBlocks(V2, bs).value == Present(os)
    decreases |bs|
  {
    if |bs| > 0 {
      ReadBlocksEach(bs[1..], os[1..]);
    }
  }

  /** When every row is there, all of them come out, in order. */
  lemma {:induction false} PresentAll(os: seq<Option<LyricRow>>)
    requires forall i :: 0 <= i < |os| ==> os[i].Some?
    ensures |Present(os)| == |os|
    ensures forall i :: 0 <= i < |os| ==> Present(os)[i] == os[i].value
    decreases |os|
  {
    if |os| > 0 {
      PresentAll(os[1..]);
    }
  }

  /** The rows that are there are exactly the values of the `Some`s. */
  lemma {:induction false} PresentMembers(os: seq<Option<LyricRow>>, r: LyricRow)
    ensures r in Present(os) <==> Some(r) in os
    decreases |os|
  {
    if |os| > 0 {
      PresentMembers(os[1..], r);
      assert os == [os[0]] + os[1..];
    }
  }

  /** Scanning a line that does not fail, then the rest. */
  lemma ScanFirst(s: Scan, x: string, rest: seq<string>)
    requires ScanLine(V2, s, x).Ok?
    ensures ScanLines(V2, s, [x] + rest) == ScanLines(V2, ScanLine(V2, s, x).value, rest)
  {
    assert ([x] + rest)[1..] == rest;
  }

  lemma ScanNone(s: Scan)
    ensures ScanLines(V2, s, []) == Ok(s)
  {
  }

  /** The number line of an entry is skipped. */
  lemma IndexSkipped(s: Scan, idx: string)
    requires IsNumber(Strip(idx)) && !Contains(idx, "-->")
    ensures ScanLine(V2, s, idx) == Ok(s)
  {
  }

  /** The facts the scan of an entry rests on: a number line, a time line
      whose two sides parse to `a` and `b`, and a text line that is blank or
      plain text. */
  predicate EntryScans(idx: string, time: string, text: string, a: real, b: real) {
    IsNumber(Strip(idx)) && !Contains(idx, "-->") &&
    Contains(time, "-->") && |Split(time, "-->")| == 2 &&
    ParseTime(Strip(Split(time, "-->")[0])).Some? && ParseTime(Strip(Split(time, "-->")[0])).value == a &&
    ParseTime(Strip(Split(time, "-->")[1])).Some? && ParseTime(Strip(Split(time, "-->")[1])).value == b &&
    (NonBlank(text) ==> !Contains(text, "-->") && !IsNumber(Strip(text)) && Strip(text) == text)
  }

  lemma Cons1<T>(x: T)
    ensures [x] == [x] + []
  {
  }

  lemma Cons2<T>(x: T, y: T)
    ensures [x, y] == [x] + [y]
  {
  }

  lemma Cons3<T>(x: T, y: T, z: T)
    ensures [x, y, z] == [x] + [y, z]
  {
  }

  /** An entry with text scans to its times and its text. */
  lemma ScanEntryText(idx: string, time: string, text: string, a: real, b: real)
    requires EntryScans(idx, time, text, a, b) && NonBlank(text)
    ensures ScanLines(V2, Scan(None, []), [idx, time, text]) == Ok(Scan(Some((Some(a), Some(b))), [text]))
  {
    var s0, s1 := Scan(None, []), Scan(Some((Some(a), Some(b))), []);
    var s2 := s1.(texts := [text]);
    assert ScanLines(V2, s0, [idx, time, text]) == ScanLines(V2, s0, [time, text]) by {
      IndexSkipped(s0, idx);
      Cons3(idx, time, text);
      ScanFirst(s0, idx, [time, text]);
    }
    assert ScanLines(V2, s0, [time, text]) == ScanLines(V2, s1, [text]) by {
      ScanTimes(s0, time, a, b);
      Cons2(time, text);
      ScanFirst(s0, time, [text]);
    }
    assert ScanLines(V2, s1, [text]) == Ok(s2) by {
      ScanTextLine(V2, s1, text);
      NilAppend([text]);
      Cons1(text);
      ScanFirst(s1, text, []);
      ScanNone(s2);
    }
  }

  /** An entry without text scans to its times alone. */
  lemma ScanEntryBlank(idx: string, time: string, text: string, a: real, b: real)
    requires EntryScans(idx, time, text, a, b)
    ensures ScanLines(V2, Scan(None, []), [idx, time]) == Ok(Scan(Some((Some(a), Some(b))), []))
  {
    var s0, s1 := Scan(None, []), Scan(Some((Some(a), Some(b))), []);
    assert ScanLines(V2, s0, [idx, time]) == ScanLines(V2, s0, [time]) by {
      IndexSkipped(s0, idx);
      Cons2(idx, time);
      ScanFirst(s0, idx, [time]);
    }
    assert ScanLines(V2, s0, [time]) == Ok(s1) by {
      ScanTimes(s0, time, a, b);
      Cons1(time);
      ScanFirst(s0, time, []);
      ScanNone(s1);
    }
  }

  /** The rows that are there, by position. */
  lemma PresentAt(os: seq<Option<LyricRow>>, r: LyricRow)
    ensures r in Present(os) <==> exists i :: 0 <= i < |os| && os[i].Some? && os[i].value == r
  {
    PresentMembers(os, r);
    if Some(r) in os {
      var i :| 0 <= i < |os| && os[i] == Some(r);
    }
  }

  /** The number line is skipped, the time line sets the times, and a text
      line that is not blank is the row's text. */
  lemma EntryReads(idx: string, time: string, text: string, a: real, b: real)
    requires EntryScans(idx, time, text, a, b)
    ensures Reads(EntryBlock(idx, time, text), if NonBlank(text) then Some(LyricRow(a, b, text)) else None)
  {
    if NonBlank(text) {
      ScanEntryText(idx, time, text, a, b);
      assert Join([text], " ") == text;
    } else {
      ScanEntryBlank(idx, time, text, a, b);
    }
  }

  // ---------------------------------------------------------------------------
  // Rows read back from the SRT file
  // ---------------------------------------------------------------------------

  /** No row starts or ends before 0. */
  predicate NonNegative(rows: seq<LyricRow>) {
    forall i :: 0 <= i < |rows| ==> rows[i].start >= 0.0 && rows[i].end >= 0.0
  }

  /** Text the SRT file carries: one line that is neither a `-->` line nor a
      number (which `read_srt` would take for a time line or an entry
      number). */
  predicate SrtReadable(r: LyricRow) {
    NoBreaks(CueText(r)) && !Contains(CueText(r), "-->") && !IsNumber(CueText(r))
  }

  /** What reading an entry back gives: its row with the times to the
      millisecond, or nothing when the row has no text. */
  function SrtReadRow(r: LyricRow): (o: Option<LyricRow>)
    requires r.start >= 0.0 && r.end >= 0.0
    ensures o.Some? <==> |CueText(r)| > 0
    ensures o.Some? ==> o.value.text == CueText(r)
    ensures o.Some? ==> Abs(o.value.start - r.start) <= 0.0005 && Abs(o.value.end - r.end) <= 0.0005
  {
    if |CueText(r)| > 0 then
      var a, b := MsReadBack(r.start), MsReadBack(r.end);
      assert Abs(a - r.start) <= 0.0005 && Abs(b - r.end) <= 0.0005;
      Some(LyricRow(a, b, CueText(r)))
    else None
  }

  function SrtReadOuts(rows: seq<LyricRow>): (os: seq<Option<LyricRow>>)
    requires NonNegative(rows)
    ensures |os| == |rows|
    ensures forall i :: 0 <= i < |rows| ==> os[i] == SrtReadRow(rows[i])
  {
    seq(|rows|, i requires 0 <= i < |rows| => SrtReadRow(rows[i]))
  }

  /** The rows `read_srt` gets back from the SRT file of `rows`. */
  function SrtReadRows(rows: seq<LyricRow>): (back: seq<LyricRow>)
    requires NonNegative(rows)
    ensures |back| <= |rows|
  {
    Present(SrtReadOuts(rows))
  }

  /** The number line of an entry is a plain number. */
  lemma IndexLineScans(k: int)
    requires k >= 0
    ensures PlainLine(IntToString(k)) && IsNumber(Strip(IntToString(k))) && !Contains(IntToString(k), "-->")
  {
    var idx := IntToString(k);
    IndexLineFacts(k);
    FormatIntStamp(k, 0);
    StampTextLacks(idx);
    LacksNotContains(idx, "-->");
    StripTrimmed(idx, Whitespace);
  }

  /** The time line of an entry is kept as it is and parses to the times
      read back. */
  lemma TimeLineScans(r: LyricRow)
    requires r.start >= 0.0 && r.end >= 0.0
    ensures PlainLine(SrtTimeLine(r))
    ensures Contains(SrtTimeLine(r), "-->") && |Split(SrtTimeLine(r), "-->")| == 2
    ensures ParseTime(Strip(Split(SrtTimeLine(r), "-->")[0])).Some?
    ensures ParseTime(Strip(Split(SrtTimeLine(r), "-->")[0])).value == MsReadBack(r.start)
    ensures ParseTime(Strip(Split(SrtTimeLine(r), "-->")[1])).Some?
    ensures ParseTime(Strip(Split(SrtTimeLine(r), "-->")[1])).value == MsReadBack(r.end)
  {
    TimeLineFacts(r);
    TimeLineParts(r);
    var a, b := MsReadBack(r.start), MsReadBack(r.end);
  }

  /** The text line of an entry is blank exactly when the row has no text,
      and otherwise is the text as `read_srt` collects it. */
  lemma TextLineScans(r: LyricRow)
    requires SrtReadable(r)
    ensures NoBreaks(SrtTextLine(r))
    ensures NonBlank(SrtTextLine(r)) <==> |CueText(r)| > 0
    ensures NonBlank(SrtTextLine(r)) ==> SrtTextLine(r) == CueText(r) && StripNewlines(CueText(r)) == CueText(r)
    ensures NonBlank(SrtTextLine(r)) ==> Strip(CueText(r)) == CueText(r)
  {
    var t := CueText(r);
    StripIdempotent(r.text);
    BlankLines();
    if |t| > 0 {
      assert Lacks(t, '\n');
      StripNewlinesNone(t);
    } else {
      assert NoBreaks(" ");
    }
  }

  /** Entry `k` of the file is a block that reads back as `SrtReadRow(r)`. */
  lemma RowEntry(k: int, r: LyricRow)
    requires k >= 0 && r.start >= 0.0 && r.end >= 0.0 && SrtReadable(r)
    ensures EntryFields(IntToString(k), SrtTimeLine(r), SrtTextLine(r))
    ensures Reads(EntryBlock(IntToString(k), SrtTimeLine(r), SrtTextLine(r)), SrtReadRow(r))
  {
    var idx, time, text := IntToString(k), SrtTimeLine(r), SrtTextLine(r);
    IndexLineScans(k);
    TimeLineScans(r);
    TextLineScans(r);
    EntryReads(idx, time, text, MsReadBack(r.start), MsReadBack(r.end));
  }

  lemma RowsEntries(rows: seq<LyricRow>)
    requires NonNegative(rows) && forall i :: 0 <= i < |rows| ==> SrtReadable(rows[i])
    ensures forall i :: 0 <= i < |rows| ==>
      EntryFields(IndexLines(|rows|, 1)[i], SrtTimeLines(rows)[i], SrtTextLines(rows)[i])
    ensures forall i :: 0 <= i < |rows| ==>
      Reads(EntryBlocksOf(IndexLines(|rows|, 1), SrtTimeLines(rows), SrtTextLines(rows))[i], SrtReadOuts(rows)[i])
  {
    forall i | 0 <= i < |rows|
      ensures EntryFields(IndexLines(|rows|, 1)[i], SrtTimeLines(rows)[i], SrtTextLines(rows)[i])
      ensures Reads(EntryBlocksOf(IndexLines(|rows|, 1), SrtTimeLines(rows), SrtTextLines(rows))[i], SrtReadOuts(rows)[i])
    {
      RowEntry(1 + i, rows[i]);
    }
  }

  /** `read_srt` over the lines of the file `_write_srt` makes gives back
      one row per row with text, in order. */
  lemma WriteSrtReadBack(rows: seq<LyricRow>)
    requires |rows| > 0 && NonNegative(rows) && forall i :: 0 <= i < |rows| ==> SrtReadable(rows[i])
    ensures ReadSrt(V2, SplitLines(WriteSrt(rows))).Ok?
    ensures ReadSrt(V2, SplitLines(WriteSrt(rows))).value == SrtReadRows(rows)
  {
    var idxs, times, texts := IndexLines(|rows|, 1), SrtTimeLines(rows), SrtTextLines(rows);
    RowsEntries(rows);
    SrtFileLines(idxs, times, texts);
    ReadBlocksEach(EntryBlocksOf(idxs, times, texts), SrtReadOuts(rows));
  }

  /** When every row has text, all of them come back, in order, with their
      texts, and with their times to the millisecond. */
  lemma SrtReadRowsAll(rows: seq<LyricRow>)
    requires NonNegative(rows) && forall i :: 0 <= i < |rows| ==> |CueText(rows[i])| > 0
    ensures |SrtReadRows(rows)| == |rows|
    ensures forall i :: 0 <= i < |rows| ==> SrtReadRows(rows)[i].text == CueText(rows[i])
    ensures forall i :: 0 <= i < |rows| ==> Abs(SrtReadRows(rows)[i].start - rows[i].start) <= 0.0005
    ensures forall i :: 0 <= i < |rows| ==> Abs(SrtReadRows(rows)[i].end - rows[i].end) <= 0.0005
  {
    PresentAll(SrtReadOuts(rows));
  }

  /** A row read back is the reading of a row that has text: rows without
      text are dropped. */
  lemma SrtReadRowsMembers(rows: seq<LyricRow>, x: LyricRow)
    requires NonNegative(rows)
    ensures x in SrtReadRows(rows) <==> exists i :: 0 <= i < |rows| && |CueText(rows[i])| > 0 && SrtReadRow(rows[i]).value == x
  {
    var os := SrtReadOuts(rows);
    PresentAt(os, x);
    forall i | 0 <= i < |rows|
      ensures (os[i].Some? && os[i].value == x) <==> (|CueText(rows[i])| > 0 && SrtReadRow(rows[i]).value == x)
    {
    }
  }

  // ---------------------------------------------------------------------------
  // Reading the LRC file back
  // ---------------------------------------------------------------------------

  /** The time `parse_time` reads back from the LRC tag of `sec`. */
  function CsReadBack(sec: real): (x: real)
    requires sec >= 0.0
    ensures ParseTime(LrcTagStamp(sec)).Some? && ParseTime(LrcTagStamp(sec)).value == x
    ensures Abs(x - sec) <= 0.005
  {
    LrcTagRoundTrip(sec);
    ParseTime(LrcTagStamp(sec)).value
  }

  /** `mm:ss.xx` with fields that are not negative is the inside of a tag,
      and holds no bracket and no line boundary. */
  lemma LrcStampBody(mm: int, ss: int, xx: int)
    requires mm >= 0 && ss >= 0 && xx >= 0
    ensures IsTagBody(LrcStamp(mm, ss, xx))
    ensures NoBreaks(LrcStamp(mm, ss, xx)) && Lacks(LrcStamp(mm, ss, xx), '[') && Lacks(LrcStamp(mm, ss, xx), ']')
  {
    var M, S, X := FormatInt(mm, Pad), FormatInt(ss, Pad), FormatInt(xx, Pad);
    var t := S + "." + X;
    var s := M + ":" + t;
    assert s == LrcStamp(mm, ss, xx);
    assert t[..|S|] == S && t[|S| + 1..] == X;
    assert PointAt(t, |S|);
    assert s[..|M|] == M && s[|M| + 1..] == t;
    assert TagSplitAt(s, |M|);
    FormatIntStamp(mm, Pad);
    FormatIntStamp(ss, Pad);
    FormatIntStamp(xx, Pad);
    StampJoin(M, ':', S);
    StampJoin(M + ":" + S, '.', X);
    StampTextLacks(s);
  }

  /** The inside of the tag of a non-negative time. */
  lemma LrcTagStampBody(sec: real)
    requires sec >= 0.0
    ensures IsTagBody(LrcTagStamp(sec))
    ensures NoBreaks(LrcTagStamp(sec)) && Lacks(LrcTagStamp(sec), '[') && Lacks(LrcTagStamp(sec), ']')
  {
    var d := Carry(ClockOf(sec, CsScale), CsScale);
    LrcStampBody(d.whole / 60, d.whole % 60, d.part);
  }

  /** Text without `[` holds no tag. */
  lemma {:induction false} TagsNone(t: string)
    requires Lacks(t, '[')
    ensures Tags(t) == []
    decreases |t|
  {
    if |t| > 0 {
      TagsNone(t[1..]);
    }
  }

  /** A line that is a tag and then text without `[` has that one tag. */
  lemma TaggedLineTags(b: string, t: string)
    requires IsTagBody(b) && Lacks(b, ']') && Lacks(t, '[')
    ensures Tags("[" + b + "]" + t) == [b]
  {
    var s := "[" + b + "]" + t;
    var j := |b| + 1;
    assert s[1..j] == b && s[j + 1..] == t;
    assert TagAt(s, 0, j);
    TagEndFinds(s, j);
    TagsNone(t);
  }

  /** The text of a line that is a tag and then text without `[`. */
  lemma TaggedLineText(b: string, t: string)
    requires Lacks(b, ']') && Lacks(b, '\n') && Lacks(t, '[') && Strip(t) == t
    ensures LineText("[" + b + "]" + t) == t
  {
    RemoveBracketsFront(b, t);
    RemoveBracketsNone(t);
  }

  /** The pairs of such a line: one for its tag, if the line has text. */
  lemma TaggedLineCues(b: string, t: string)
    requires IsTagBody(b) && Lacks(b, ']') && Lacks(b, '\n') && Lacks(t, '[') && Strip(t) == t
    ensures LineCues(V2, "[" + b + "]" + t) == TagCue(V2, b, t)
  {
    TaggedLineTags(b, t);
    TaggedLineText(b, t);
    assert TagCues(V2, [b], t) == TagCue(V2, b, t) + TagCues(V2, [], t);
  }

  /** Text the LRC file carries: one line without `[` (which `read_lrc`
      could take for the start of a tag or of a bracketed part). */
  predicate LrcReadable(r: LyricRow) {
    NoBreaks(CueText(r)) && Lacks(CueText(r), '[')
  }

  /** No row starts before 0. */
  predicate StartsNonNegative(rows: seq<LyricRow>) {
    forall i :: 0 <= i < |rows| ==> rows[i].start >= 0.0
  }

  /** The pair reading a row's LRC line gives: its start to the hundredth
      and its text, or nothing when it has no text. */
  function LrcReadCue(r: LyricRow): (cues: seq<Cue>)
    requires r.start >= 0.0
    ensures |cues| == (if |CueText(r)| > 0 then 1 else 0)
    ensures |cues| > 0 ==> cues[0].text == CueText(r) && Abs(cues[0].time - r.start) <= 0.005
  {
    if |CueText(r)| > 0 then [Cue(CsReadBack(r.start), CueText(r))] else []
  }

  /** A tag and then text, each without a line boundary, make one line. */
  lemma TaggedLineNoBreaks(b: string, t: string)
    requires NoBreaks(b) && NoBreaks(t)
    ensures NoBreaks("[" + b + "]" + t)
  {
    assert NoBreaks("[") && NoBreaks("]");
    NoBreaksAppend("[", b);
    NoBreaksAppend("[" + b, "]");
    NoBreaksAppend("[" + b + "]", t);
  }

  /** The pair of a tag that reads as `x`. */
  lemma TagCueReads(b: string, t: string, x: real)
    requires ParseTime(b).Some? && ParseTime(b).value == x
    ensures TagCue(V2, b, t) == if |t| > 0 then [Cue(x, t)] else []
  {
    var p := ParseTimeIn(V2, b);
    assert p.Some? && p.value == x;
  }

  /** The LRC line of a row is one line. */
  lemma LrcLineNoBreaks(r: LyricRow)
    requires r.start >= 0.0 && LrcReadable(r)
    ensures NoBreaks(LrcLine(r))
  {
    var b, t := LrcTagStamp(r.start), CueText(r);
    LrcTagStampBody(r.start);
    TaggedLineNoBreaks(b, t);
  }

  /** The LRC line of a row reads back as `LrcReadCue(r)`. */
  lemma LrcLineReads(r: LyricRow)
    requires r.start >= 0.0 && LrcReadable(r)
    ensures LineCues(V2, LrcLine(r)) == LrcReadCue(r)
  {
    var b, t := LrcTagStamp(r.start), CueText(r);
    var x := CsReadBack(r.start);
    LrcTagStampBody(r.start);
    StripIdempotent(r.text);
    assert Lacks(b, '\n');
    TaggedLineCues(b, t);
    TagCueReads(b, t, x);
  }

  /** The LRC lines of the rows are one line each. */
  lemma LrcLinesNoBreaks(rows: seq<LyricRow>)
    requires StartsNonNegative(rows) && forall i :: 0 <= i < |rows| ==> LrcReadable(rows[i])
    ensures AllNoBreaks(LrcLines(rows))
  {
    forall k | 0 <= k < |rows|
      ensures NoBreaks(LrcLines(rows)[k])
    {
      LrcLineNoBreaks(rows[k]);
    }
  }

  /** The pairs read back from the rows' lines, in order. */
  function LrcReadCues(rows: seq<LyricRow>): (cues: seq<Cue>)
    requires StartsNonNegative(rows)
    ensures |cues| <= |rows|
    decreases |rows|
  {
    if |rows| == 0 then [] else LrcReadCue(rows[0]) + LrcReadCues(rows[1..])
  }

  /** Behind a sequence of one, the rest moves one place on. */
  lemma ConsOne<T>(c: seq<T>, rest: seq<T>)
    requires |c| == 1
    ensures (c + rest)[0] == c[0]
    ensures forall i :: 1 <= i <= |rest| ==> (c + rest)[i] == rest[i - 1]
  {
  }

  lemma LrcLinesTail(rows: seq<LyricRow>)
    requires |rows| > 0
    ensures LrcLines(rows)[1..] == LrcLines(rows[1..])
  {
  }

  /** `read_lrc` collects, line after line, the pair of each row with text. */
  lemma {:induction false} LrcCuesBack(rows: seq<LyricRow>)
    requires StartsNonNegative(rows) && forall i :: 0 <= i < |rows| ==> LrcReadable(rows[i])
    ensures LrcCues(V2, LrcLines(rows)) == LrcReadCues(rows)
    decreases |rows|
  {
    if |rows| > 0 {
      LrcLinesTail(rows);
      LrcCuesBack(rows[1..]);
      LrcLineReads(rows[0]);
    }
  }

  /** `read_lrc` over the lines of the file `_write_lrc` makes collects the
      pair of every row with text, in order, and its rows are those pairs
      sorted. */
  lemma WriteLrcReadBack(rows: seq<LyricRow>)
    requires |rows| > 0 && StartsNonNegative(rows) && forall i :: 0 <= i < |rows| ==> LrcReadable(rows[i])
    ensures LrcCues(V2, SplitLines(WriteLrc(rows))) == LrcReadCues(rows)
    ensures multiset(RowCues(ReadLrc(V2, SplitLines(WriteLrc(rows))))) == multiset(LrcReadCues(rows))
  {
    LrcCuesBack(rows);
    LrcLinesNoBreaks(rows);
    SplitJoinedLines(LrcLines(rows));
  }

  /** The pair `c` carries the text of row `r` and its start to the hundredth. */
  predicate CueNear(c: Cue, r: LyricRow) {
    c.text == CueText(r) && Abs(c.time - r.start) <= 0.005
  }

  lemma LrcReadCueNear(r: LyricRow)
    requires r.start >= 0.0 && |CueText(r)| > 0
    ensures |LrcReadCue(r)| == 1 && CueNear(LrcReadCue(r)[0], r)
  {
  }

  /** When every row has text, every row gives its pair, in order, with its
      text and its start to the hundredth. */
  lemma {:induction false} LrcReadCuesAll(rows: seq<LyricRow>)
    requires StartsNonNegative(rows) && forall i :: 0 <= i < |rows| ==> |CueText(rows[i])| > 0
    ensures |LrcReadCues(rows)| == |rows|
    ensures forall i :: 0 <= i < |rows| ==> CueNear(LrcReadCues(rows)[i], rows[i])
    decreases |rows|
  {
    if |rows| > 0 {
      LrcReadCuesAll(rows[1..]);
      var c, rest := LrcReadCue(rows[0]), LrcReadCues(rows[1..]);
      LrcReadCueNear(rows[0]);
      assert LrcReadCues(rows) == c + rest;
      ConsOne(c, rest);
      forall i | 0 <= i < |rows|
        ensures CueNear(LrcReadCues(rows)[i], rows[i])
      {
        if i > 0 {
          assert rows[1..][i - 1] == rows[i];
        }
      }
    }
  }

  // ---------------------------------------------------------------------------
  // What the program writes, read back
  // ---------------------------------------------------------------------------

  /** Every row has one readable line of text, and no time rounds up to a
      whole second at milliseconds. */
  predicate SrtRoundTrips(rows: seq<LyricRow>) {
    forall i :: 0 <= i < |rows| ==> SrtExact(rows[i]) && SrtReadable(rows[i])
  }

  /** Every row has one readable line of text, and no start rounds up to a
      whole second at hundredths. */
  predicate LrcRoundTrips(rows: seq<LyricRow>) {
    forall i :: 0 <= i < |rows| ==> LrcExact(rows[i]) && LrcReadable(rows[i])
  }

  /** The SRT file `main` writes reads back as its rows when they
      round-trip. */
  lemma MakeSubtitlesSrtReadBack(lines: Option<seq<LyricRow>>, lyrics: Option<seq<LyricRow>>)
    requires !(Empty(lines) && Empty(lyrics)) && SrtRoundTrips(LoadLines(lines, lyrics))
    ensures var r := MakeSubtitles(lines, lyrics);
      r.Ok? && ReadSrt(V2, SplitLines(r.value.srt)) == Ok(SrtReadRows(LoadLines(lines, lyrics)))
  {
    var rows := LoadLines(lines, lyrics);
    WriteSrtAgrees(rows);
    WriteSrtReadBack(rows);
  }

  /** The LRC file `main` writes reads back as the rows' pairs when they
      round-trip. */
  lemma MakeSubtitlesLrcReadBack(lines: Option<seq<LyricRow>>, lyrics: Option<seq<LyricRow>>)
    requires !(Empty(lines) && Empty(lyrics)) && LrcRoundTrips(LoadLines(lines, lyrics))
    ensures var r := MakeSubtitles(lines, lyrics);
      r.Ok? && LrcCues(V2, SplitLines(r.value.lrc)) == LrcReadCues(LoadLines(lines, lyrics))
  {
    var rows := LoadLines(lines, lyrics);
    WriteLrcAgrees(rows);
    WriteLrcReadBack(rows);
  }
}
