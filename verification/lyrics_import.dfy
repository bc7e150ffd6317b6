/** Reading a lyrics file into timed rows (`tools/14_import_lyrics_v2.py`,
    and the earlier `tools/10_import_lyrics.py` where it differs): LRC tags,
    SRT blocks, plain text spread evenly over the song, and the guess of
    which of the three a file is. */
module LyricsImport {
  import opened Wrappers
  import opened Numeric
  import opened Text
  import opened Sorting
  import opened Timeline
  import opened LyricsTime

  /** The two versions of the importer: `tools/10_import_lyrics.py` (`V1`)
      and `tools/14_import_lyrics_v2.py` (`V2`). */
  datatype Version = V1 | V2

  /** The `parse_time` of each version. */
  function ParseTimeIn(v: Version, s: string): Option<real> {
    if v == V1 then ParseTimeV1(s) else ParseTime(s)
  }

  lemma ParseTimeInAgree(s: string)
    ensures ParseTimeIn(V1, s) == ParseTimeIn(V2, s)
  {
    ParseTimeVersionsAgree(s);
  }

  // ---------------------------------------------------------------------------
  // LRC tags
  // ---------------------------------------------------------------------------

  /** `t` is `\d+\.\d+` with the point at `j`. */
  predicate PointAt(t: string, j: int) {
    0 < j < |t| - 1 && t[j] == '.' && IsNumber(t[..j]) && IsNumber(t[j + 1..])
  }

  /** The seconds of a tag, `\d+(?:\.\d+)?`. */
  predicate IsSecondsText(t: string) {
    IsNumber(t) || exists j :: 0 < j < |t| && PointAt(t, j)
  }

  /** `s` is `\d+:` followed by seconds, with the colon at `i`. */
  predicate TagSplitAt(s: string, i: int) {
    0 < i < |s| - 1 && s[i] == ':' && IsNumber(s[..i]) && IsSecondsText(s[i + 1..])
  }

  /** The inside of an LRC tag, `\d+:\d+(?:\.\d+)?`. */
  predicate IsTagBody(s: string) {
    exists i :: 0 < i < |s| && TagSplitAt(s, i)
  }

  /** The characters a tag is made of. */
  predicate IsTagChar(c: char) {
    IsDigit(c) || c == ':' || c == '.'
  }

  /** Seconds are digits and perhaps a point, with a digit at each end. */
  lemma SecondsChars(t: string)
    requires IsSecondsText(t)
    ensures forall k :: 0 <= k < |t| ==> IsDigit(t[k]) || t[k] == '.'
    ensures |t| > 0 && IsDigit(t[0]) && IsDigit(t[|t| - 1])
  {
    if !IsNumber(t) {
      var j :| 0 < j < |t| && PointAt(t, j);
      Around(t, j);
    }
  }

  /** `s` is what comes before position `i`, the character there, and what follows. */
  lemma Around(s: string, i: int)
    requires 0 <= i < |s|
    ensures s == s[..i] + [s[i]] + s[i + 1..]
  {
  }

  lemma NumberLacks(m: string, c: char)
    requires IsNumber(m) && !IsDigit(c)
    ensures Lacks(m, c)
  {
  }

  lemma SecondsLacks(t: string, c: char)
    requires IsSecondsText(t) && !IsDigit(c) && c != '.'
    ensures Lacks(t, c)
  {
    SecondsChars(t);
  }

  /** A tag's inside holds only digits, `:` and `.`, and begins and ends
      with a digit. */
  lemma TagBodyChars(s: string)
    requires IsTagBody(s)
    ensures forall k :: 0 <= k < |s| ==> IsTagChar(s[k])
    ensures IsDigit(s[0]) && IsDigit(s[|s| - 1])
  {
    var i :| 0 < i < |s| && TagSplitAt(s, i);
    SecondsChars(s[i + 1..]);
    Around(s, i);
  }
  /** A tag's inside is not empty and begins with a digit. */
  lemma TagBodyStart(s: string)
    ensures IsTagBody(s) ==> |s| > 0 && IsDigit(s[0])
  {
    if IsTagBody(s) {
      TagBodyChars(s);
    }
  }


  /** Every tag `findall` returns is a time `parse_time` reads, and the time
      is not negative: the `tt is not None` test never drops a tag. */
  lemma TagTime(s: string)
    requires IsTagBody(s)
    ensures ParseTime(s).Some? && ParseTime(s).value >= 0.0
  {
    var i :| 0 < i < |s| && TagSplitAt(s, i);
    TagParts(s, i);
    var parts := Split(Cleaned(s), ":");
    MinutesSeconds(parts);
  }

  /** Cleaning a tag's inside and splitting it on `:` gives its minutes and
      its seconds. */
  lemma TagParts(s: string, i: int)
    requires 0 < i < |s| && TagSplitAt(s, i)
    ensures Split(Cleaned(s), ":") == [s[..i], s[i + 1..]]
  {
    var m, t := s[..i], s[i + 1..];
    Around(s, i);
    NumberLacks(m, ':');
    SecondsLacks(t, ':');
    SplitTwo(m, t, ':');
    TagBodyChars(s);
    TagCleaned(s);
  }

  /** The fields `m` and `ss.xx` of a tag read as a time that is not negative. */
  lemma MinutesSeconds(parts: seq<string>)
    requires |parts| == 2 && IsNumber(parts[0]) && IsSecondsText(parts[1])
    ensures FieldsSeconds(parts).Some? && FieldsSeconds(parts).value >= 0.0
  {
    ParseIntDigits(parts[0]);
    SecondsTextParses(parts[1]);
  }

  /** Cleaning a tag's inside leaves it as it is. */
  lemma TagCleaned(s: string)
    requires |s| > 0 && IsDigit(s[0]) && IsDigit(s[|s| - 1])
    requires forall k :: 0 <= k < |s| ==> IsTagChar(s[k])
    ensures Cleaned(s) == s
  {
    DigitNotSpace(s[0]);
    DigitNotSpace(s[|s| - 1]);
    StripTrimmed(s, Whitespace);
    StripTrimmed(s, Brackets);
    ReplaceAbsent(s, ',', '.');
  }

  /** `float` reads the seconds of a tag as a number that is not negative. */
  lemma SecondsTextParses(t: string)
    requires IsSecondsText(t)
    ensures ParseFloat(t).Some? && ParseFloat(t).value >= 0.0
  {
    if IsNumber(t) {
      WholeSecondsParse(t);
    } else {
      var j :| 0 < j < |t| && PointAt(t, j);
      var w, f := t[..j], t[j + 1..];
      assert t == w + "." + f;
      PointSecondsParse(w, f);
    }
  }

  /** `float` reads `w.f` as a number that is not negative. */
  lemma PointSecondsParse(w: string, f: string)
    requires IsNumber(w) && IsNumber(f)
    ensures ParseFloat(w + "." + f).Some? && ParseFloat(w + "." + f).value >= 0.0
  {
    ParseFloatDecimal(w, f);
    DecimalNonNegative(w, f);
  }

  lemma DecimalNonNegative(w: string, f: string)
    requires AllDigits(w) && AllDigits(f)
    ensures DecimalValue(w, f) >= 0.0
  {
  }

  /** `float` reads a run of digits as its value. */
  lemma WholeSecondsParse(t: string)
    requires IsNumber(t)
    ensures ParseFloat(t).Some? && ParseFloat(t).value == DigitsValue(t) as real
  {
    WholeUnsigned(t);
    WholeNoPoint(t);
    assert DecimalValue(t, "") == DigitsValue(t) as real;
  }

  /** Digits have nothing to strip and no sign. */
  lemma WholeUnsigned(t: string)
    requires IsNumber(t)
    ensures Strip(t) == t && SplitSign(t) == (false, t)
  {
    DigitNotSpace(t[0]);
    DigitNotSpace(t[|t| - 1]);
    StripTrimmed(t, Whitespace);
  }

  /** Digits have no decimal point. */
  lemma WholeNoPoint(t: string)
    requires IsNumber(t)
    ensures SplitPoint(t) == (t, None)
  {
    assert Lacks(t, '.');
  }

  /** `s.find(c)`: where `c` first occurs in `s`, if it does. */
  function Find(s: string, c: char): (k: Option<nat>)
    ensures k.None? <==> Lacks(s, c)
    ensures k.Some? ==> k.value < |s| && s[k.value] == c && Lacks(s[..k.value], c)
    decreases |s|
  {
    if |s| == 0 then None
    else if s[0] == c then Some(0)
    else
      match Find(s[1..], c)
      case None => None
      case Some(k) =>
        assert s[..k + 1] == [s[0]] + s[1..][..k];
        Some(k + 1)
  }

  /** `find` stops at the first occurrence. */
  lemma {:induction false} FindFirst(s: string, c: char, j: int)
    requires 0 <= j < |s| && s[j] == c
    requires forall i :: 0 <= i < j ==> s[i] != c
    ensures Find(s, c) == Some(j)
    decreases j
  {
    if j > 0 {
      assert forall i :: 0 <= i < j - 1 ==> s[1..][i] == s[i + 1];
      FindFirst(s[1..], c, j - 1);
    }
  }

  /** Where a tag `[m:ss.xx]` that opens at the front of `s` closes. */
  function TagEnd(s: string): (e: Option<nat>)
    ensures e.Some? ==> 0 < e.value < |s| && s[0] == '[' && s[e.value] == ']' && IsTagBody(s[1..e.value])
  {
    if |s| > 0 && s[0] == '[' then
      match Find(s[1..], ']')
      case Some(k) => if IsTagBody(s[1..k + 1]) then Some(k + 1) else None
      case None => None
    else None
  }

  /** A tag over `s[i..j + 1]`: `[` at `i`, `]` at `j`, a tag body between. */
  predicate TagAt(s: string, i: int, j: int) {
    0 <= i < j < |s| && s[i] == '[' && s[j] == ']' && IsTagBody(s[i + 1..j])
  }

  /** `re.search(r"\[\d+:\d+(?:\.\d+)?\]", s)` finds something. */
  ghost predicate HasTag(s: string) {
    exists i, j :: TagAt(s, i, j)
  }

  /** A tag at the front is exactly what `TagEnd` finds: its inside holds no
      `]`, so it closes at the first `]`. */
  lemma TagEndFinds(s: string, j: int)
    requires TagAt(s, 0, j)
    ensures TagEnd(s) == Some(j)
  {
    var body := s[1..j];
    TagBodyChars(body);
    assert Lacks(body, ']') by {
      forall k | 0 <= k < |body|
        ensures body[k] != ']'
      {
        assert IsTagChar(body[k]);
      }
    }
    forall i | 0 <= i < j - 1
      ensures s[1..][i] != ']'
    {
      assert s[1..][i] == body[i];
    }
    FindFirst(s[1..], ']', j - 1);
    assert s[1..j] == body;
  }

  /** `re.findall(r"\[(\d+:\d+(?:\.\d+)?)\]", s)`: the insides of the tags,
      scanning left to right and resuming after each tag found. */
  function Tags(s: string): (tags: seq<string>)
    ensures forall t :: t in tags ==> IsTagBody(t)
    decreases |s|
  {
    if |s| == 0 then []
    else
      match TagEnd(s)
      case Some(e) => [s[1..e]] + Tags(s[e + 1..])
      case None => Tags(s[1..])
  }

  /** Without a tag at the front, `s` has a tag exactly when its tail does. */
  lemma HasTagShift(s: string)
    requires |s| > 0 && TagEnd(s).None?
    ensures HasTag(s) <==> HasTag(s[1..])
  {
    var t := s[1..];
    if HasTag(t) {
      var i, j :| TagAt(t, i, j);
      TailSlice(s, i + 1, j);
      assert TagAt(s, i + 1, j + 1);
    }
    if HasTag(s) {
      var i, j :| TagAt(s, i, j);
      if i == 0 {
        TagEndFinds(s, j);
      } else {
        TailSlice(s, i, j - 1);
        assert TagAt(t, i - 1, j - 1);
      }
    }
  }

  /** A slice of the tail is the slice one further on. */
  lemma TailSlice<T>(s: seq<T>, a: int, b: int)
    requires 0 <= a <= b < |s|
    ensures s[1..][a..b] == s[a + 1..b + 1]
  {
  }

  /** `findall` returns something exactly when `search` finds something. */
  lemma {:induction false} TagsFound(s: string)
    ensures |Tags(s)| > 0 <==> HasTag(s)
    decreases |s|
  {
    if |s| > 0 {
      var e := TagEnd(s);
      if e.Some? {
        assert TagAt(s, 0, e.value);
      } else {
        TagsFound(s[1..]);
        HasTagShift(s);
      }
    }
  }

  /** `re.sub(r"\[.*?\]", "", s)`: each `[` that has a `]` after it on the
      same line is removed together with everything up to the first such
      `]`; the scan resumes after it. */
  function RemoveBrackets(s: string): (r: string)
    ensures |r| <= |s|
    decreases |s|
  {
    if |s| == 0 then ""
    else if s[0] == '[' && Find(s[1..], ']').Some? && Lacks(s[1..Find(s[1..], ']').value + 1], '\n') then
      RemoveBrackets(s[Find(s[1..], ']').value + 2..])
    else [s[0]] + RemoveBrackets(s[1..])
  }

  /** Removing bracketed parts never brings in a character. */
  lemma {:induction false} RemoveBracketsLacks(s: string, c: char)
    requires Lacks(s, c)
    ensures Lacks(RemoveBrackets(s), c)
    decreases |s|
  {
    if |s| > 0 {
      var f := Find(s[1..], ']');
      if s[0] == '[' && f.Some? && Lacks(s[1..f.value + 1], '\n') {
        RemoveBracketsLacks(s[f.value + 2..], c);
      } else {
        RemoveBracketsLacks(s[1..], c);
      }
    }
  }

  /** Text without `[` is left as it is. */
  lemma {:induction false} RemoveBracketsNone(s: string)
    requires Lacks(s, '[')
    ensures RemoveBrackets(s) == s
    decreases |s|
  {
    if |s| > 0 {
      RemoveBracketsNone(s[1..]);
      assert s == [s[0]] + s[1..];
    }
  }

  /** A bracketed part at the front goes, whatever follows it. */
  lemma RemoveBracketsFront(b: string, rest: string)
    requires Lacks(b, ']') && Lacks(b, '\n')
    ensures RemoveBrackets("[" + b + "]" + rest) == RemoveBrackets(rest)
  {
    var s := "[" + b + "]" + rest;
    assert s[1..] == b + "]" + rest;
    assert s[1..][|b|] == ']';
    forall i | 0 <= i < |b|
      ensures s[1..][i] != ']'
    {
      assert s[1..][i] == b[i];
    }
    FindFirst(s[1..], ']', |b|);
    var k := |b|;
    assert s[1..k + 1] == b;
    assert s[k + 2..] == rest;
  }

  /** Within one line nothing bracketed is left: no `[` is followed by a `]`. */
  lemma {:induction false} RemoveBracketsLeavesNoPair(s: string)
    requires Lacks(s, '\n')
    ensures forall i, j :: 0 <= i < j < |RemoveBrackets(s)| && RemoveBrackets(s)[i] == '[' ==> RemoveBrackets(s)[j] != ']'
    decreases |s|
  {
    if |s| > 0 {
      var f := Find(s[1..], ']');
      assert Lacks(s[1..], '\n');
      assert f.Some? ==> Lacks(s[1..f.value + 1], '\n');
      if s[0] == '[' && f.Some? && Lacks(s[1..f.value + 1], '\n') {
        assert Lacks(s[f.value + 2..], '\n');
        RemoveBracketsLeavesNoPair(s[f.value + 2..]);
      } else {
        var t := RemoveBrackets(s[1..]);
        RemoveBracketsLeavesNoPair(s[1..]);
        var r := RemoveBrackets(s);
        assert r == [s[0]] + t;
        if s[0] == '[' {
          assert f.None?;
          RemoveBracketsLacks(s[1..], ']');
        }
        forall i, j | 0 <= i < j < |r| && r[i] == '['
          ensures r[j] != ']'
        {
          assert r[j] == t[j - 1];
          if i > 0 {
            assert r[i] == t[i - 1];
          }
        }
      }
    }
  }

  /** The lyric text of an LRC line: the line without its bracketed parts,
      stripped. */
  function LineText(line: string): string {
    Strip(RemoveBrackets(line))
  }

  // ---------------------------------------------------------------------------
  // LRC files
  // ---------------------------------------------------------------------------

  /** One `(time, text)` pair `read_lrc` collects. */
  datatype Cue = Cue(time: real, text: string)

  /** The pairs one line gives: one per tag, in order, whose time `parse_time`
      reads, provided the line has text. */
  function TagCues(v: Version, tags: seq<string>, text: string): (cues: seq<Cue>)
    ensures |cues| <= |tags|
    ensures forall c :: c in cues ==> c.text == text && |text| > 0
  {
    if |tags| == 0 then [] else TagCue(v, tags[0], text) + TagCues(v, tags[1..], text)
  }

  /** The pair one tag gives, if its time parses and the line has text. */
  function TagCue(v: Version, t: string, text: string): (cues: seq<Cue>)
    ensures |cues| <= 1
    ensures forall c :: c in cues <==> |text| > 0 && c.text == text && TagReads(v, t, c.time)
  {
    var p := ParseTimeIn(v, t);
    if p.Some? && |text| > 0 then [Cue(p.value, text)] else []
  }

  /** Tag `t` reads as the time `x`. */
  predicate TagReads(v: Version, t: string, x: real) {
    ParseTimeIn(v, t).Some? && ParseTimeIn(v, t).value == x
  }

  /** A pair comes from a line exactly when the line has text and one of
      its tags reads as the pair's time. */
  lemma {:induction false} TagCuesMembers(v: Version, tags: seq<string>, text: string, c: Cue)
    ensures c in TagCues(v, tags, text) <==> |text| > 0 && c.text == text && exists t :: t in tags && TagReads(v, t, c.time)
  {
    if |tags| > 0 {
      TagCuesMembers(v, tags[1..], text, c);
      if exists t :: t in tags && TagReads(v, t, c.time) {
        var t :| t in tags && TagReads(v, t, c.time);
        if t != tags[0] {
          assert t in tags[1..];
        }
      }
    }
  }

  /** The pairs of one line of an LRC file. */
  function LineCues(v: Version, line: string): seq<Cue> {
    TagCues(v, Tags(line), LineText(line))
  }

  /** The pairs of the whole file, line after line. */
  function LrcCues(v: Version, lines: seq<string>): (cues: seq<Cue>)
    ensures forall c :: c in cues ==> |c.text| > 0
  {
    if |lines| == 0 then [] else LineCues(v, lines[0]) + LrcCues(v, lines[1..])
  }

  /** A pair is in the file's list exactly when some line gives it. */
  lemma {:induction false} LrcCuesMembers(v: Version, lines: seq<string>, c: Cue)
    ensures c in LrcCues(v, lines) <==> exists i :: 0 <= i < |lines| && c in LineCues(v, lines[i])
  {
    if |lines| > 0 {
      LrcCuesMembers(v, lines[1..], c);
      assert forall i :: 0 < i < |lines| ==> lines[1..][i - 1] == lines[i];
      if exists i :: 0 <= i < |lines| && c in LineCues(v, lines[i]) {
        var i :| 0 <= i < |lines| && c in LineCues(v, lines[i]);
        if i > 0 {
          assert c in LineCues(v, lines[1..][i - 1]);
        }
      }
    }
  }

  /** A line gives one pair per tag when it has text, and none otherwise:
      every tag parses. */
  lemma {:induction false} TagCuesCount(tags: seq<string>, text: string)
    requires forall t :: t in tags ==> IsTagBody(t)
    ensures |TagCues(V2, tags, text)| == if |text| > 0 then |tags| else 0
  {
    if |tags| > 0 {
      TagCueCount(tags[0], text);
      TagCuesCount(tags[1..], text);
    }
  }

  lemma TagCueCount(t: string, text: string)
    requires IsTagBody(t)
    ensures |TagCue(V2, t, text)| == if |text| > 0 then 1 else 0
  {
    TagTime(t);
  }

  lemma LineCuesCount(line: string)
    ensures |LineCues(V2, line)| == if |LineText(line)| > 0 then |Tags(line)| else 0
  {
    TagCuesCount(Tags(line), LineText(line));
  }

  /** `a <= b` on Python strings: code point by code point, a prefix first. */
  predicate TextLeq(a: string, b: string)
    decreases |a|
  {
    |a| == 0 || (|b| > 0 && (a[0] < b[0] || (a[0] == b[0] && TextLeq(a[1..], b[1..]))))
  }

  lemma {:induction false} TextLeqTotal(a: string, b: string)
    ensures TextLeq(a, b) || TextLeq(b, a)
    decreases |a|
  {
    if |a| > 0 && |b| > 0 && a[0] == b[0] {
      TextLeqTotal(a[1..], b[1..]);
    }
  }

  /** The order of `res.sort()` on `(time, text)` tuples. */
  predicate CueLeq(a: Cue, b: Cue) {
    a.time < b.time || (a.time == b.time && TextLeq(a.text, b.text))
  }

  lemma CueLeqTotal()
    ensures Total(CueLeq)
  {
    forall a: Cue, b: Cue
      ensures CueLeq(a, b) || CueLeq(b, a)
    {
      TextLeqTotal(a.text, b.text);
    }
  }

  /** How long the last line is shown: `st + 3.0`. */
  const LastCueSeconds: real := 3.0

  /** Row `i` runs from its pair's time to the next pair's time; the last
      row runs for `LastCueSeconds`. */
  function CueRows(cues: seq<Cue>): (rows: seq<LyricRow>)
    ensures |rows| == |cues|
    ensures forall i :: 0 <= i < |rows| ==> rows[i].start == cues[i].time && rows[i].text == cues[i].text
    ensures RowsContiguous(rows)
    ensures |rows| > 0 ==> rows[|rows| - 1].end == rows[|rows| - 1].start + LastCueSeconds
  {
    seq(|cues|, i requires 0 <= i < |cues| =>
      LyricRow(cues[i].time, if i + 1 < |cues| then cues[i + 1].time else cues[i].time + LastCueSeconds, cues[i].text))
  }

  /** The `(start, text)` of each row. */
  function RowCues(rows: seq<LyricRow>): (cues: seq<Cue>)
    ensures |cues| == |rows|
    ensures forall i :: 0 <= i < |rows| ==> cues[i] == Cue(rows[i].start, rows[i].text)
  {
    seq(|rows|, i requires 0 <= i < |rows| => Cue(rows[i].start, rows[i].text))
  }

  /** `read_lrc`: the pairs of every line, sorted by time and then text,
      each row ending where the next begins. */
  function ReadLrc(v: Version, lines: seq<string>): (rows: seq<LyricRow>)
    ensures multiset(RowCues(rows)) == multiset(LrcCues(v, lines))
    ensures forall i :: 0 < i < |rows| ==> CueLeq(RowCues(rows)[i - 1], RowCues(rows)[i])
  {
    var cues := LrcCues(v, lines);
    SortCues(cues);
    CueRowsCues(Sort(cues, CueLeq));
    CueRows(Sort(cues, CueLeq))
  }

  /** The rows of an LRC file follow each other without gaps, and the last
      lasts `LastCueSeconds`. */
  lemma ReadLrcTimeline(v: Version, lines: seq<string>)
    ensures RowsContiguous(ReadLrc(v, lines))
    ensures var rows := ReadLrc(v, lines);
      |rows| > 0 ==> rows[|rows| - 1].end == rows[|rows| - 1].start + LastCueSeconds
  {
    var sorted := Sort(LrcCues(v, lines), CueLeq);
    assert ReadLrc(v, lines) == CueRows(sorted);
  }

  /** The rows of an LRC file start in order, end no earlier than they
      start, and all have text. */
  lemma ReadLrcRows(v: Version, lines: seq<string>)
    ensures forall i :: 0 < i < |ReadLrc(v, lines)| ==> ReadLrc(v, lines)[i - 1].start <= ReadLrc(v, lines)[i].start
    ensures forall r :: r in ReadLrc(v, lines) ==> r.start <= r.end && |r.text| > 0
  {
    var cues := LrcCues(v, lines);
    assert ReadLrc(v, lines) == CueRows(Sort(cues, CueLeq));
    SortedCueRows(cues);
  }

  /** Sorted pairs with text make rows that start in order, end no earlier
      than they start, and have text. */
  lemma SortedCueRows(cues: seq<Cue>)
    requires forall c :: c in cues ==> |c.text| > 0
    ensures forall i :: 0 < i < |CueRows(Sort(cues, CueLeq))| ==> CueRows(Sort(cues, CueLeq))[i - 1].start <= CueRows(Sort(cues, CueLeq))[i].start
    ensures forall r :: r in CueRows(Sort(cues, CueLeq)) ==> r.start <= r.end && |r.text| > 0
  {
    SortCues(cues);
    var sorted := Sort(cues, CueLeq);
    CueRowsOrdered(sorted);
    CueRowsTimeline(sorted);
  }

  /** Rows of ordered pairs start in order. */
  lemma CueRowsOrdered(cues: seq<Cue>)
    requires forall i :: 0 < i < |cues| ==> CueLeq(cues[i - 1], cues[i])
    ensures forall i :: 0 < i < |CueRows(cues)| ==> CueRows(cues)[i - 1].start <= CueRows(cues)[i].start
  {
    var rows := CueRows(cues);
    forall i | 0 < i < |rows|
      ensures rows[i - 1].start <= rows[i].start
    {
      assert CueLeq(cues[i - 1], cues[i]);
    }
  }

  /** Rows of ordered pairs with text end no earlier than they start, and
      have text. */
  lemma CueRowsTimeline(cues: seq<Cue>)
    requires forall i :: 0 < i < |cues| ==> CueLeq(cues[i - 1], cues[i])
    requires forall c :: c in cues ==> |c.text| > 0
    ensures forall r :: r in CueRows(cues) ==> r.start <= r.end && |r.text| > 0
  {
    var rows := CueRows(cues);
    CueRowsCues(cues);
    forall i | 0 <= i < |rows|
      ensures rows[i].start <= rows[i].end && |rows[i].text| > 0
    {
      assert RowCues(rows)[i] == cues[i];
      assert cues[i] in cues;
    }
  }

  /** `res.sort()` keeps the pairs and puts them in order. */
  lemma SortCues(cues: seq<Cue>)
    ensures multiset(Sort(cues, CueLeq)) == multiset(cues)
    ensures forall c :: c in Sort(cues, CueLeq) ==> c in cues
    ensures forall i :: 0 < i < |cues| ==> CueLeq(Sort(cues, CueLeq)[i - 1], Sort(cues, CueLeq)[i])
  {
    SortFacts(cues, CueLeq);
    CueLeqTotal();
    var sorted := Sort(cues, CueLeq);
    forall c | c in sorted
      ensures c in cues
    {
      assert c in multiset(sorted);
    }
  }

  /** The rows of pairs carry the pairs, and a row ends no earlier than it
      starts once the pairs are in order. */
  lemma CueRowsCues(cues: seq<Cue>)
    requires forall i :: 0 < i < |cues| ==> CueLeq(cues[i - 1], cues[i])
    ensures RowCues(CueRows(cues)) == cues
    ensures forall i :: 0 <= i < |cues| ==> CueRows(cues)[i].start <= CueRows(cues)[i].end
  {
    var rows := CueRows(cues);
    assert RowCues(rows) == cues;
    forall i | 0 <= i < |cues|
      ensures rows[i].start <= rows[i].end
    {
      if i + 1 < |cues| {
        assert CueLeq(cues[i], cues[i + 1]);
      }
    }
  }

  lemma {:induction false} TagCuesAgree(tags: seq<string>, text: string)
    ensures TagCues(V1, tags, text) == TagCues(V2, tags, text)
  {
    if |tags| > 0 {
      ParseTimeInAgree(tags[0]);
      TagCuesAgree(tags[1..], text);
    }
  }

  /** The two versions read an LRC file alike. */
  lemma {:induction false} ReadLrcAgree(lines: seq<string>)
    ensures ReadLrc(V1, lines) == ReadLrc(V2, lines)
  {
    LrcCuesAgree(lines);
  }

  lemma {:induction false} LrcCuesAgree(lines: seq<string>)
    ensures LrcCues(V1, lines) == LrcCues(V2, lines)
  {
    if |lines| > 0 {
      TagCuesAgree(Tags(lines[0]), LineText(lines[0]));
      LrcCuesAgree(lines[1..]);
    }
  }

  // ---------------------------------------------------------------------------
  // SRT files
  // ---------------------------------------------------------------------------

  /** `ln.strip()` is not empty. */
  predicate NonBlank(line: string) {
    |Strip(line)| > 0
  }

  /** Removing trailing newlines keeps a line's text. */
  lemma NonBlankStripNewlines(line: string)
    requires NonBlank(line)
    ensures NonBlank(StripNewlines(line))
  {
    StripEmpty(line);
    var k :| 0 <= k < |line| && !IsSpace(line[k]);
    var r := StripNewlines(line);
    assert k < |r| && r[k] == line[k];
    StripEmpty(r);
  }

  /** The blocks of `read_srt`: runs of non-blank lines, each line with its
      trailing `\n` removed; `buf` is the run being collected. */
  function Blocks(lines: seq<string>, buf: seq<string>): (blocks: seq<seq<string>>)
    ensures forall b :: b in blocks ==> |b| > 0
    decreases |lines|
  {
    if |lines| == 0 then (if |buf| > 0 then [buf] else [])
    else if NonBlank(lines[0]) then Blocks(lines[1..], buf + [StripNewlines(lines[0])])
    else (if |buf| > 0 then [buf] else []) + Blocks(lines[1..], [])
  }

  function Flatten(bs: seq<seq<string>>): seq<string> {
    if |bs| == 0 then [] else bs[0] + Flatten(bs[1..])
  }

  lemma {:induction false} FlattenAppend(a: seq<seq<string>>, b: seq<seq<string>>)
    ensures Flatten(a + b) == Flatten(a) + Flatten(b)
  {
    if |a| > 0 {
      assert (a + b)[0] == a[0];
      assert (a + b)[1..] == a[1..] + b;
      FlattenAppend(a[1..], b);
    } else {
      assert a + b == b;
    }
  }

  /** The non-blank lines, trailing newlines removed. */
  function Kept(lines: seq<string>): seq<string> {
    if |lines| == 0 then []
    else (if NonBlank(lines[0]) then [StripNewlines(lines[0])] else []) + Kept(lines[1..])
  }

  /** The blocks hold every non-blank line, in order, and nothing else. */
  lemma {:induction false} BlocksKeepLines(lines: seq<string>, buf: seq<string>)
    ensures Flatten(Blocks(lines, buf)) == buf + Kept(lines)
    decreases |lines|
  {
    if |lines| == 0 {
      if |buf| > 0 {
        assert Flatten([buf]) == buf + Flatten([]);
      }
    } else if NonBlank(lines[0]) {
      BlocksKeepLines(lines[1..], buf + [StripNewlines(lines[0])]);
    } else {
      var front: seq<seq<string>> := if |buf| > 0 then [buf] else [];
      BlocksKeepLines(lines[1..], []);
      FlattenAppend(front, Blocks(lines[1..], []));
      assert Flatten(front) == buf by {
        if |buf| > 0 {
          assert Flatten([buf]) == buf + Flatten([]);
        }
      }
    }
  }

  /** Why `read_srt` stops with an exception: a `-->` line that does not
      split into two parts (`ValueError`), or, in the first version only, a
      block whose times did not parse (`TypeError` from `round(None, 3)`). */
  datatype SrtError = TimeLineParts(line: string) | MissingTime

  /** A `-->` line that `a, b = ln.split("-->")` cannot unpack. */
  predicate BadTimeLine(line: string) {
    Contains(line, "-->") && |Split(line, "-->")| != 2
  }

  /** What the scan of a block has seen: the times of its last `-->` line,
      and its text lines. */
  datatype Scan = Scan(times: Option<(Option<real>, Option<real>)>, texts: seq<string>)

  /** One line of a block: a `-->` line sets the times, a number line is the
      index and is skipped, any other line is text. */
  function ScanLine(v: Version, s: Scan, line: string): Result<Scan, SrtError> {
    if Contains(line, "-->") then
      var parts := Split(line, "-->");
      if |parts| != 2 then Err(TimeLineParts(line))
      else Ok(Scan(Some((ParseTimeIn(v, Strip(parts[0])), ParseTimeIn(v, Strip(parts[1])))), s.texts))
    else if IsNumber(Strip(line)) then Ok(s)
    else Ok(s.(texts := s.texts + [Strip(line)]))
  }

  /** A line fails exactly when it is a bad `-->` line; a text line it
      collects is not empty. */
  lemma ScanLineFacts(v: Version, s: Scan, line: string)
    ensures ScanLine(v, s, line).Err? <==> BadTimeLine(line)
    ensures ScanLine(v, s, line).Ok? && NonBlank(line) && (forall t :: t in s.texts ==> |t| > 0) ==>
      forall t :: t in ScanLine(v, s, line).value.texts ==> |t| > 0
  {
  }

  /** The lines of a block, first to last; the first exception ends it. */
  function ScanLines(v: Version, s: Scan, lines: seq<string>): (r: Result<Scan, SrtError>)
    decreases |lines|
  {
    if |lines| == 0 then Ok(s)
    else
      match ScanLine(v, s, lines[0])
      case Err(e) => Err(e)
      case Ok(s') => ScanLines(v, s', lines[1..])
  }

  /** The scan of a block fails exactly when one of its lines is a bad `-->` line. */
  lemma {:induction false} ScanLinesFails(v: Version, s: Scan, lines: seq<string>)
    ensures ScanLines(v, s, lines).Err? <==> exists l :: l in lines && BadTimeLine(l)
    decreases |lines|
  {
    if |lines| > 0 {
      var r := ScanLine(v, s, lines[0]);
      ScanLineFacts(v, s, lines[0]);
      if r.Ok? {
        ScanLinesFails(v, r.value, lines[1..]);
        assert forall l :: l in lines <==> l == lines[0] || l in lines[1..];
      }
    }
  }

  /** The text lines of a scan of non-blank lines are not empty. */
  lemma {:induction false} ScanLinesTexts(v: Version, s: Scan, lines: seq<string>)
    requires forall l :: l in lines ==> NonBlank(l)
    requires forall t :: t in s.texts ==> |t| > 0
    ensures ScanLines(v, s, lines).Ok? ==> forall t :: t in ScanLines(v, s, lines).value.texts ==> |t| > 0
    decreases |lines|
  {
    if |lines| > 0 {
      var r := ScanLine(v, s, lines[0]);
      ScanLineFacts(v, s, lines[0]);
      if r.Ok? {
        ScanLinesTexts(v, r.value, lines[1..]);
      }
    }
  }

  /** The row a block gives once scanned. `V2` keeps it when both times
      parsed and there is text; `V1` tests only that there was a `-->` line
      and text, and then fails on a time that did not parse. */
  function BlockRow(v: Version, s: Scan): Result<Option<LyricRow>, SrtError> {
    var timed := s.times.Some? && s.times.value.0.Some? && s.times.value.1.Some?;
    if v == V2 then
      if timed && |s.texts| > 0 then Ok(Some(LyricRow(s.times.value.0.value, s.times.value.1.value, Join(s.texts, " "))))
      else Ok(None)
    else
      if s.times.Some? && |s.texts| > 0 then
        if timed then Ok(Some(LyricRow(s.times.value.0.value, s.times.value.1.value, Join(s.texts, " "))))
        else Err(MissingTime)
      else Ok(None)
  }

  /** The rows of the blocks, in order; the first exception ends the read. */
  function ReadBlocks(v: Version, blocks: seq<seq<string>>): Result<seq<LyricRow>, SrtError> {
    if |blocks| == 0 then Ok([])
    else
      match ScanLines(v, Scan(None, []), blocks[0])
      case Err(e) => Err(e)
      case Ok(s) =>
        match BlockRow(v, s)
        case Err(e) => Err(e)
        case Ok(row) =>
          match ReadBlocks(v, blocks[1..])
          case Err(e) => Err(e)
          case Ok(rows) => Ok((if row.Some? then [row.value] else []) + rows)
  }

  /** `read_srt`. */
  function ReadSrt(v: Version, lines: seq<string>): Result<seq<LyricRow>, SrtError> {
    ReadBlocks(v, Blocks(lines, []))
  }

  lemma {:induction false} FlattenMembers(bs: seq<seq<string>>, l: string)
    ensures l in Flatten(bs) <==> exists b :: b in bs && l in b
  {
    if |bs| > 0 {
      FlattenMembers(bs[1..], l);
      assert forall b :: b in bs <==> b == bs[0] || b in bs[1..];
    }
  }

  lemma {:induction false} KeptMembers(lines: seq<string>, l: string)
    ensures l in Kept(lines) <==> exists i :: 0 <= i < |lines| && NonBlank(lines[i]) && l == StripNewlines(lines[i])
  {
    if |lines| > 0 {
      KeptMembers(lines[1..], l);
      assert forall i :: 0 < i < |lines| ==> lines[1..][i - 1] == lines[i];
      if exists i :: 0 <= i < |lines| && NonBlank(lines[i]) && l == StripNewlines(lines[i]) {
        var i :| 0 <= i < |lines| && NonBlank(lines[i]) && l == StripNewlines(lines[i]);
        if i > 0 {
          assert NonBlank(lines[1..][i - 1]) && l == StripNewlines(lines[1..][i - 1]);
        }
      }
    }
  }

  /** The second version fails on the blocks exactly when one of their lines
      is a bad `-->` line. */
  lemma {:induction false} ReadBlocksFails(blocks: seq<seq<string>>)
    ensures ReadBlocks(V2, blocks).Err? <==> exists b, l :: b in blocks && l in b && BadTimeLine(l)
  {
    if |blocks| > 0 {
      ScanLinesFails(V2, Scan(None, []), blocks[0]);
      ReadBlocksFails(blocks[1..]);
      assert forall b :: b in blocks <==> b == blocks[0] || b in blocks[1..];
    }
  }

  /** `read_srt` of `tools/14` raises exactly when a non-blank line holds
      `-->` but does not split into two parts at it. */
  lemma ReadSrtFails(lines: seq<string>)
    ensures ReadSrt(V2, lines).Err? <==> exists i :: 0 <= i < |lines| && NonBlank(lines[i]) && BadTimeLine(StripNewlines(lines[i]))
  {
    var blocks := Blocks(lines, []);
    ReadBlocksFails(blocks);
    BlocksKeepLines(lines, []);
    assert Flatten(blocks) == Kept(lines);
    if exists b, l :: b in blocks && l in b && BadTimeLine(l) {
      var b, l :| b in blocks && l in b && BadTimeLine(l);
      FlattenMembers(blocks, l);
      KeptMembers(lines, l);
    }
    if exists i :: 0 <= i < |lines| && NonBlank(lines[i]) && BadTimeLine(StripNewlines(lines[i])) {
      var i :| 0 <= i < |lines| && NonBlank(lines[i]) && BadTimeLine(StripNewlines(lines[i]));
      var l := StripNewlines(lines[i]);
      KeptMembers(lines, l);
      FlattenMembers(blocks, l);
    }
  }

  lemma {:induction false} ScanLinesAgree(s: Scan, lines: seq<string>)
    ensures ScanLines(V1, s, lines) == ScanLines(V2, s, lines)
    decreases |lines|
  {
    if |lines| > 0 {
      var line := lines[0];
      if Contains(line, "-->") {
        var parts := Split(line, "-->");
        if |parts| == 2 {
          ParseTimeInAgree(Strip(parts[0]));
          ParseTimeInAgree(Strip(parts[1]));
        }
      }
      assert ScanLine(V1, s, line) == ScanLine(V2, s, line);
      if ScanLine(V2, s, line).Ok? {
        ScanLinesAgree(ScanLine(V2, s, line).value, lines[1..]);
      }
    }
  }

  /** Where the first version reads an SRT file, the second reads the same
      rows. */
  lemma {:induction false} ReadBlocksAgree(blocks: seq<seq<string>>)
    requires ReadBlocks(V1, blocks).Ok?
    ensures ReadBlocks(V2, blocks) == ReadBlocks(V1, blocks)
  {
    if |blocks| > 0 {
      ScanLinesAgree(Scan(None, []), blocks[0]);
      ReadBlocksAgree(blocks[1..]);
    }
  }

  lemma ReadSrtAgree(lines: seq<string>)
    requires ReadSrt(V1, lines).Ok?
    ensures ReadSrt(V2, lines) == ReadSrt(V1, lines)
  {
    ReadBlocksAgree(Blocks(lines, []));
  }

  /** A joined list whose first part has text has text. */
  lemma JoinHasText(parts: seq<string>, sep: string)
    requires |parts| > 0 && |parts[0]| > 0
    ensures |Join(parts, sep)| > 0
  {
  }

  /** Every line of every block has text. */
  lemma BlocksNonBlank(lines: seq<string>)
    ensures forall b, l :: b in Blocks(lines, []) && l in b ==> NonBlank(l)
  {
    var blocks := Blocks(lines, []);
    BlocksKeepLines(lines, []);
    forall b, l | b in blocks && l in b
      ensures NonBlank(l)
    {
      FlattenMembers(blocks, l);
      KeptMembers(lines, l);
      var i :| 0 <= i < |lines| && NonBlank(lines[i]) && l == StripNewlines(lines[i]);
      NonBlankStripNewlines(lines[i]);
    }
  }

  lemma {:induction false} ReadBlocksTexts(v: Version, blocks: seq<seq<string>>)
    requires forall b, l :: b in blocks && l in b ==> NonBlank(l)
    ensures ReadBlocks(v, blocks).Ok? ==> forall r :: r in ReadBlocks(v, blocks).value ==> |r.text| > 0
  {
    if |blocks| > 0 {
      var scan := ScanLines(v, Scan(None, []), blocks[0]);
      ScanLinesTexts(v, Scan(None, []), blocks[0]);
      if scan.Ok? && |scan.value.texts| > 0 {
        assert scan.value.texts[0] in scan.value.texts;
        JoinHasText(scan.value.texts, " ");
      }
      ReadBlocksTexts(v, blocks[1..]);
    }
  }

  /** Every row `read_srt` gives has text. */
  lemma ReadSrtTexts(v: Version, lines: seq<string>)
    ensures ReadSrt(v, lines).Ok? ==> forall r :: r in ReadSrt(v, lines).value ==> |r.text| > 0
  {
    BlocksNonBlank(lines);
    ReadBlocksTexts(v, Blocks(lines, []));
  }

  /** Text without a newline keeps its end under `rstrip("\n")`. */
  lemma StripNewlinesNone(s: string)
    requires Lacks(s, '\n')
    ensures StripNewlines(s) == s
  {
  }

  /** Two non-blank lines make one block. */
  lemma TwoLineBlock(x: string, y: string)
    requires NonBlank(x) && NonBlank(y) && Lacks(x, '\n') && Lacks(y, '\n')
    ensures Blocks([x, y], []) == [[x, y]]
  {
    StripNewlinesNone(x);
    StripNewlinesNone(y);
    var lines := [x, y];
    assert lines[1..] == [y];
    assert [y][1..] == [];
    var e: seq<seq<string>> := [];
    assert Blocks(lines, []) == Blocks([y], [] + [x]);
    assert [] + [x] == [x];
    assert Blocks([y], [x]) == Blocks([], [x] + [y]);
    assert [x] + [y] == [x, y];
    assert Blocks([], [x, y]) == [[x, y]];
  }

  /** Scanning continues after a line that does not fail. */
  lemma ScanLinesStep(v: Version, s: Scan, lines: seq<string>)
    requires |lines| > 0 && ScanLine(v, s, lines[0]).Ok?
    ensures ScanLines(v, s, lines) == ScanLines(v, ScanLine(v, s, lines[0]).value, lines[1..])
  {
  }

  /** A `-->` line whose two times do not parse: the scan has seen a `-->`
      line without times. */
  lemma ScanTimelessLine(v: Version, s: Scan, x: string)
    requires Contains(x, "-->") && |Split(x, "-->")| == 2
    requires ParseTimeIn(v, Strip(Split(x, "-->")[0])).None? && ParseTimeIn(v, Strip(Split(x, "-->")[1])).None?
    ensures ScanLine(v, s, x).Ok? && ScanLine(v, s, x).value == Scan(Some((None, None)), s.texts)
  {
  }

  /** A text line is collected. */
  lemma ScanTextLine(v: Version, s: Scan, y: string)
    requires !Contains(y, "-->") && !IsNumber(Strip(y))
    ensures ScanLine(v, s, y).Ok? && ScanLine(v, s, y).value == s.(texts := s.texts + [Strip(y)])
  {
  }

  /** A `-->` line whose two times do not parse, then a text line: the scan
      has seen a `-->` line without times, and the text. */
  lemma ScanTimeless(v: Version, x: string, y: string)
    requires Contains(x, "-->") && |Split(x, "-->")| == 2
    requires ParseTimeIn(v, Strip(Split(x, "-->")[0])).None? && ParseTimeIn(v, Strip(Split(x, "-->")[1])).None?
    requires !Contains(y, "-->") && !IsNumber(Strip(y))
    ensures ScanLines(v, Scan(None, []), [x, y]).Ok?
    ensures ScanLines(v, Scan(None, []), [x, y]).value.times == Some((None, None))
    ensures |ScanLines(v, Scan(None, []), [x, y]).value.texts| == 1
  {
    ScanAfterTimeless(v, x, y);
    ScanOneText(v, Scan(Some((None, None)), []), y);
  }

  lemma ScanAfterTimeless(v: Version, x: string, y: string)
    requires Contains(x, "-->") && |Split(x, "-->")| == 2
    requires ParseTimeIn(v, Strip(Split(x, "-->")[0])).None? && ParseTimeIn(v, Strip(Split(x, "-->")[1])).None?
    ensures ScanLines(v, Scan(None, []), [x, y]) == ScanLines(v, Scan(Some((None, None)), []), [y])
  {
    var s0 := Scan(None, []);
    var lines := [x, y];
    ScanTimelessLine(v, s0, x);
    ScanLinesStep(v, s0, lines);
    assert lines[1..] == [y];
  }

  lemma ScanOneText(v: Version, s: Scan, y: string)
    requires !Contains(y, "-->") && !IsNumber(Strip(y))
    ensures ScanLines(v, s, [y]).Ok?
    ensures ScanLines(v, s, [y]).value.times == s.times
    ensures |ScanLines(v, s, [y]).value.texts| == |s.texts| + 1
  {
    ScanTextLine(v, s, y);
    ScanLinesStep(v, s, [y]);
    assert [y][1..] == [];
  }

  /** A block whose `-->` line has no times, followed by a lyric. */
  const TimelessLine: string := "-->"
  const LyricLine: string := "la"
  const TimelessSrt: seq<string> := [TimelessLine, LyricLine]

  lemma TimelessLineFacts()
    ensures NonBlank(TimelessLine) && Contains(TimelessLine, "-->")
  {
    TimelessLineBlank();
    assert OccursAt(TimelessLine, "-->", 0);
  }

  lemma TimelessLineBlank()
    ensures NonBlank(TimelessLine)
  {
    var a := TimelessLine;
    assert |a| == 3 && a[0] == '-' && a[2] == '>';
    StripTrimmed(a, Whitespace);
  }

  lemma SampleLinesSingle()
    ensures Lacks(TimelessLine, '\n') && Lacks(LyricLine, '\n')
  {
  }

  lemma TimelessLineSplit()
    ensures Split(TimelessLine, "-->") == ["", ""]
  {
    assert Split("", "-->") == [""];
  }

  lemma EmptyTimeNone(v: Version)
    ensures ParseTimeIn(v, Strip("")).None?
  {
    assert Strip("") == "";
    assert Cleaned("") == "";
    assert Split("", ":") == [""];
    assert ParseFloat("").None?;
    ParseTimeInAgree("");
  }

  lemma LyricLineFacts()
    ensures NonBlank(LyricLine)
  {
    var b := LyricLine;
    assert !IsSpace(b[0]) && !IsSpace(b[1]);
    StripTrimmed(b, Whitespace);
  }

  lemma LyricLineStripped()
    ensures Strip(LyricLine) == LyricLine
  {
    var b := LyricLine;
    assert !IsSpace(b[0]) && !IsSpace(b[1]);
    StripTrimmed(b, Whitespace);
  }

  lemma LyricLineText()
    ensures !Contains(LyricLine, "-->") && !IsNumber(LyricLine)
  {
    assert !IsDigit(LyricLine[0]);
  }

  /** A block whose scan has seen a `-->` line without times and one text
      line: the first version fails on it, the second gives no row. */
  lemma ReadTimelessBlock(v: Version, b: seq<string>)
    requires ScanLines(v, Scan(None, []), b).Ok?
    requires ScanLines(v, Scan(None, []), b).value.times == Some((None, None))
    requires |ScanLines(v, Scan(None, []), b).value.texts| == 1
    ensures v == V1 ==> ReadBlocks(v, [b]).Err? && ReadBlocks(v, [b]).error == MissingTime
    ensures v == V2 ==> ReadBlocks(v, [b]).Ok? && ReadBlocks(v, [b]).value == []
  {
    var blocks := [b];
    assert blocks[1..] == [];
  }

  /** `tools/10` fails on `TimelessSrt` with the `TypeError` of `round(None, 3)`,
      where `tools/14` skips the block. */
  lemma ReadSrtV1Counterexample()
    ensures ReadSrt(V1, TimelessSrt).Err? && ReadSrt(V1, TimelessSrt).error == MissingTime
    ensures ReadSrt(V2, TimelessSrt).Ok? && ReadSrt(V2, TimelessSrt).value == []
  {
    TimelessSrtReads(V1);
    TimelessSrtReads(V2);
  }

  /** What each version makes of `TimelessSrt`. */
  lemma TimelessSrtReads(v: Version)
    ensures v == V1 ==> ReadSrt(v, TimelessSrt).Err? && ReadSrt(v, TimelessSrt).error == MissingTime
    ensures v == V2 ==> ReadSrt(v, TimelessSrt).Ok? && ReadSrt(v, TimelessSrt).value == []
  {
    var x, y := TimelessLine, LyricLine;
    TimelessLineFacts();
    TimelessLineSplit();
    LyricLineFacts();
    LyricLineStripped();
    LyricLineText();
    SampleLinesSingle();
    EmptyTimeNone(v);
    ReadTimelessPair(v, x, y);
  }

  /** `read_srt` reads the blocks it splits the file into. */
  lemma ReadSrtOfBlocks(v: Version, lines: seq<string>, bs: seq<seq<string>>)
    requires Blocks(lines, []) == bs
    ensures ReadSrt(v, lines) == ReadBlocks(v, bs)
  {
  }

  /** A two-line file of a `-->` line whose times do not parse and a lyric. */
  lemma ReadTimelessPair(v: Version, x: string, y: string)
    requires NonBlank(x) && NonBlank(y) && Lacks(x, '\n') && Lacks(y, '\n')
    requires Contains(x, "-->") && |Split(x, "-->")| == 2
    requires ParseTimeIn(v, Strip(Split(x, "-->")[0])).None? && ParseTimeIn(v, Strip(Split(x, "-->")[1])).None?
    requires !Contains(y, "-->") && !IsNumber(y) && Strip(y) == y
    ensures v == V1 ==> ReadSrt(v, [x, y]).Err? && ReadSrt(v, [x, y]).error == MissingTime
    ensures v == V2 ==> ReadSrt(v, [x, y]).Ok? && ReadSrt(v, [x, y]).value == []
  {
    ReadTwoLines(v, x, y);
    ScanTimeless(v, x, y);
    ReadTimelessBlock(v, [x, y]);
  }

  /** Two non-blank lines make one block. */
  lemma ReadTwoLines(v: Version, x: string, y: string)
    requires NonBlank(x) && NonBlank(y) && Lacks(x, '\n') && Lacks(y, '\n')
    ensures ReadSrt(v, [x, y]) == ReadBlocks(v, [[x, y]])
  {
    var b := [x, y];
    TwoLineBlock(x, y);
    ReadSrtOfBlocks(v, b, [b]);
  }
}
