/** The string built-ins the lyric and report scripts rely on, over
    `string = seq<char>`: Python's whitespace and `str.strip`, `str.split`,
    `str.splitlines`, `in` on strings, `str(n)` and `f"{n:02d}"`, and the
    subset of `int(s)` / `float(s)` the scripts feed them (an optional sign,
    ASCII digits, and for `float` an optional fraction). */
module Text {
  import opened Wrappers

  // ---------------------------------------------------------------------------
  // Characters
  // ---------------------------------------------------------------------------

  /** `c.isspace()`: the characters `str.strip()`, `str.split()` with no
      argument, `int()` and `float()` treat as whitespace. */
  predicate IsSpace(c: char) {
    c == ' ' || '\t' <= c <= '\r' || '\U{1C}' <= c <= '\U{1F}'
    || c == '\U{85}' || c == '\U{A0}' || c == '\U{1680}'
    || '\U{2000}' <= c <= '\U{200A}' || c == '\U{2028}' || c == '\U{2029}'
    || c == '\U{202F}' || c == '\U{205F}' || c == '\U{3000}'
  }

  /** The line boundaries of `str.splitlines()` (`\r\n` counts as one). */
  predicate IsLineBreak(c: char) {
    c == '\n' || c == '\r' || c == '\U{0B}' || c == '\U{0C}'
    || '\U{1C}' <= c <= '\U{1E}' || c == '\U{85}' || c == '\U{2028}' || c == '\U{2029}'
  }

  predicate IsDigit(c: char) {
    '0' <= c <= '9'
  }

  predicate AllDigits(s: string) {
    forall i :: 0 <= i < |s| ==> IsDigit(s[i])
  }

  lemma DigitNotSpace(c: char)
    requires IsDigit(c)
    ensures !IsSpace(c) && !IsLineBreak(c)
  {
  }

  function DigitValue(c: char): (d: nat)
    requires IsDigit(c)
    ensures d < 10
  {
    c as int - '0' as int
  }

  function DigitChar(d: nat): (c: char)
    requires d < 10
    ensures IsDigit(c) && DigitValue(c) == d
  {
    ('0' as int + d) as char
  }

  // ---------------------------------------------------------------------------
  // Substrings
  // ---------------------------------------------------------------------------

  /** `sub` occurs in `s` starting at `i`. */
  predicate OccursAt(s: string, sub: string, i: int) {
    0 <= i && i + |sub| <= |s| && s[i..i + |sub|] == sub
  }

  /** `sub in s`. */
  predicate Contains(s: string, sub: string) {
    exists i :: 0 <= i <= |s| && OccursAt(s, sub, i)
  }

  /** Text without the first character of `sub` does not contain `sub`. */
  lemma LacksNotContains(s: string, sub: string)
    requires |sub| > 0 && Lacks(s, sub[0])
    ensures !Contains(s, sub)
  {
    forall i | 0 <= i <= |s| && i + |sub| <= |s|
      ensures !OccursAt(s, sub, i)
    {
      assert s[i..i + |sub|][0] == s[i];
    }
  }

  /** `s.split(sep)` for a non-empty separator, scanning from the left: at
      each position either the separator starts there and ends the current
      piece, or the character joins the current piece. */
  function Split(s: string, sep: string): (parts: seq<string>)
    requires |sep| > 0
    ensures |parts| >= 1
    decreases |s|
  {
    if |s| < |sep| then [s]
    else if s[..|sep|] == sep then [""] + Split(s[|sep|..], sep)
    else
      var rest := Split(s[1..], sep);
      [[s[0]] + rest[0]] + rest[1..]
  }

  /** `sep.join(parts)`. */
  function Join(parts: seq<string>, sep: string): string {
    if |parts| == 0 then ""
    else if |parts| == 1 then parts[0]
    else parts[0] + sep + Join(parts[1..], sep)
  }

  /** Splitting and joining again with the same separator restores the string. */
  lemma {:induction false} JoinSplit(s: string, sep: string)
    requires |sep| > 0
    ensures Join(Split(s, sep), sep) == s
    decreases |s|
  {
    if |s| < |sep| {
    } else if s[..|sep|] == sep {
      var rest := s[|sep|..];
      JoinSplit(rest, sep);
      var tail := Split(rest, sep);
      assert ([""] + tail)[1..] == tail;
      assert s == "" + sep + rest;
    } else {
      JoinSplit(s[1..], sep);
      JoinPrepend(s[0], Split(s[1..], sep), sep);
      assert s == [s[0]] + s[1..];
    }
  }

  /** A character put in front of the first piece comes first in the join. */
  lemma JoinPrepend(c: char, parts: seq<string>, sep: string)
    requires |parts| >= 1
    ensures Join([[c] + parts[0]] + parts[1..], sep) == [c] + Join(parts, sep)
  {
    var moved := [[c] + parts[0]] + parts[1..];
    if |parts| > 1 {
      assert moved[1..] == parts[1..];
    }
  }

  /** The string splits into more than one piece exactly when it contains the separator. */
  lemma {:induction false} SplitFindsSeparator(s: string, sep: string)
    requires |sep| > 0
    ensures |Split(s, sep)| > 1 <==> Contains(s, sep)
    decreases |s|
  {
    if |s| < |sep| {
      assert !Contains(s, sep);
    } else if s[..|sep|] == sep {
      assert OccursAt(s, sep, 0);
    } else {
      SplitFindsSeparator(s[1..], sep);
      if Contains(s[1..], sep) {
        var j :| 0 <= j <= |s[1..]| && OccursAt(s[1..], sep, j);
        assert s[1..][j..j + |sep|] == s[j + 1..j + 1 + |sep|];
        assert OccursAt(s, sep, j + 1);
      }
      if Contains(s, sep) {
        var j :| 0 <= j <= |s| && OccursAt(s, sep, j);
        assert j != 0;
        assert s[1..][j - 1..j - 1 + |sep|] == s[j..j + |sep|];
        assert OccursAt(s[1..], sep, j - 1);
      }
    }
  }

  /** `s.replace(a, b)` for single characters. */
  function ReplaceChar(s: string, a: char, b: char): (r: string)
    ensures |r| == |s|
    ensures forall i :: 0 <= i < |s| ==> r[i] == if s[i] == a then b else s[i]
  {
    seq(|s|, i requires 0 <= i < |s| => if s[i] == a then b else s[i])
  }

  // ---------------------------------------------------------------------------
  // Stripping
  // ---------------------------------------------------------------------------

  /** The character sets the scripts strip: whitespace (`strip()`), the
      brackets of `strip("[]")` and the newline of `rstrip("\n")`. */
  datatype Strippable = Whitespace | Brackets | Newline

  predicate Drops(k: Strippable, c: char) {
    match k
    case Whitespace => IsSpace(c)
    case Brackets => c == '[' || c == ']'
    case Newline => c == '\n'
  }

  /** `s.lstrip(chars)`. */
  function StripLeft(s: string, k: Strippable): (r: string)
    ensures |r| <= |s| && r == s[|s| - |r|..]
    ensures |r| > 0 ==> !Drops(k, r[0])
    ensures forall i :: 0 <= i < |s| - |r| ==> Drops(k, s[i])
    decreases |s|
  {
    if |s| > 0 && Drops(k, s[0]) then StripLeft(s[1..], k) else s
  }

  /** `s.rstrip(chars)`. */
  function StripRight(s: string, k: Strippable): (r: string)
    ensures |r| <= |s| && r == s[..|r|]
    ensures |r| > 0 ==> !Drops(k, r[|r| - 1])
    ensures forall i :: |r| <= i < |s| ==> Drops(k, s[i])
    decreases |s|
  {
    if |s| > 0 && Drops(k, s[|s| - 1]) then StripRight(s[..|s| - 1], k) else s
  }

  /** `s.strip(chars)`. */
  function StripSet(s: string, k: Strippable): (r: string)
    ensures |r| <= |s|
    ensures |r| > 0 ==> !Drops(k, r[0]) && !Drops(k, r[|r| - 1])
  {
    var l := StripLeft(s, k);
    var r := StripRight(l, k);
    assert |r| > 0 ==> r[0] == l[0];
    r
  }

  /** `s.strip()`. */
  function Strip(s: string): (r: string)
    ensures |r| <= |s|
    ensures |r| > 0 ==> !IsSpace(r[0]) && !IsSpace(r[|r| - 1])
  {
    StripSet(s, Whitespace)
  }

  /** `s.strip("[]")`. */
  function StripBrackets(s: string): (r: string)
    ensures |r| <= |s|
    ensures |r| > 0 ==> r[0] != '[' && r[0] != ']' && r[|r| - 1] != '[' && r[|r| - 1] != ']'
  {
    StripSet(s, Brackets)
  }

  /** `s.rstrip("\n")`. */
  function StripNewlines(s: string): (r: string)
    ensures |r| <= |s| && r == s[..|r|]
  {
    StripRight(s, Newline)
  }

  /** A string with nothing to strip at either end is its own strip. */
  lemma StripTrimmed(s: string, k: Strippable)
    requires |s| > 0 ==> !Drops(k, s[0]) && !Drops(k, s[|s| - 1])
    ensures StripSet(s, k) == s
  {
  }

  /** Stripping leaves nothing to strip. */
  lemma StripIdempotent(s: string)
    ensures Strip(Strip(s)) == Strip(s)
  {
    StripTrimmed(Strip(s), Whitespace);
  }

  /** One blank on either side of text with nothing to strip goes. */
  lemma StripPadded(x: string)
    requires |x| > 0 && !IsSpace(x[0]) && !IsSpace(x[|x| - 1])
    ensures Strip(x + " ") == x && Strip(" " + x) == x
  {
    var a := x + " ";
    assert StripLeft(a, Whitespace) == a;
    assert a[..|a| - 1] == x;
    assert StripRight(a, Whitespace) == StripRight(x, Whitespace) == x;
    var b := " " + x;
    assert b[1..] == x;
    assert StripLeft(b, Whitespace) == StripLeft(x, Whitespace) == x;
  }

  /** `s.strip()` is empty exactly when every character is whitespace (`not s.strip()`). */
  lemma StripEmpty(s: string)
    ensures |Strip(s)| == 0 <==> forall i :: 0 <= i < |s| ==> IsSpace(s[i])
  {
    var l := StripLeft(s, Whitespace);
    var r := StripRight(l, Whitespace);
    if |r| == 0 {
      assert |l| == 0;
    } else {
      assert !IsSpace(r[0]);
      assert r[0] == l[0] == s[|s| - |l|];
    }
  }


  // ---------------------------------------------------------------------------
  // Lines
  // ---------------------------------------------------------------------------

  /** The first line boundary of `s`, or `|s|`. */
  function FirstBreak(s: string): (k: nat)
    ensures k <= |s|
    ensures forall j :: 0 <= j < k ==> !IsLineBreak(s[j])
    ensures k < |s| ==> IsLineBreak(s[k])
  {
    if |s| == 0 || IsLineBreak(s[0]) then 0 else 1 + FirstBreak(s[1..])
  }

  /** `s.splitlines()`: the lines without their boundaries; a final boundary
      does not start an empty line. */
  function SplitLines(s: string): (lines: seq<string>)
    ensures |s| == 0 <==> |lines| == 0
    ensures forall k, j :: 0 <= k < |lines| && 0 <= j < |lines[k]| ==> !IsLineBreak(lines[k][j])
    decreases |s|
  {
    if |s| == 0 then []
    else
      var k := FirstBreak(s);
      if k == |s| then [s]
      else
        var w := if s[k] == '\r' && k + 1 < |s| && s[k + 1] == '\n' then 2 else 1;
        [s[..k]] + SplitLines(s[k + w..])
  }

  /** Text whose only line boundaries are `\n` (what reading a file in text
      mode produces). */
  predicate UnixLines(s: string) {
    forall i :: 0 <= i < |s| ==> IsLineBreak(s[i]) ==> s[i] == '\n'
  }

  /** Joining the lines with `\n`, and restoring a final `\n`, gives back the text. */
  lemma {:induction false} JoinSplitLines(s: string)
    requires UnixLines(s)
    ensures Join(SplitLines(s), "\n") + Ending(s) == s
    decreases |s|
  {
    if |s| > 0 {
      var k := FirstBreak(s);
      if k == |s| {
        assert SplitLines(s) == [s];
      } else {
        assert s[k] == '\n';
        var rest := s[k + 1..];
        assert s == s[..k] + "\n" + rest;
        assert |rest| > 0 ==> s[|s| - 1] == rest[|rest| - 1];
        UnixLinesSuffix(s, k + 1);
        var tail := SplitLines(rest);
        assert SplitLines(s) == [s[..k]] + tail;
        if |rest| > 0 {
          JoinSplitLines(rest);
          JoinLine(s[..k], tail, rest, s);
        }
      }
    }
  }

  /** Putting one more line in front of joined lines. */
  lemma JoinLine(a: string, tail: seq<string>, rest: string, s: string)
    requires |tail| > 0 && |rest| > 0
    requires Join(tail, "\n") + Ending(rest) == rest
    requires s == a + "\n" + rest
    ensures Join([a] + tail, "\n") + Ending(s) == s
  {
    JoinCons(a, tail, "\n");
    assert Ending(s) == Ending(rest);
    var j := Join(tail, "\n");
    assert (a + "\n" + j) + Ending(rest) == a + "\n" + (j + Ending(rest));
  }

  lemma UnixLinesSuffix(s: string, k: nat)
    requires UnixLines(s) && k <= |s|
    ensures UnixLines(s[k..])
  {
    var rest := s[k..];
    forall i | 0 <= i < |rest| && IsLineBreak(rest[i])
      ensures rest[i] == '\n'
    {
      assert rest[i] == s[k + i];
    }
  }

  /** No line boundary anywhere in `s`. */
  predicate NoBreaks(s: string) {
    forall i :: 0 <= i < |s| ==> !IsLineBreak(s[i])
  }

  lemma NoBreaksAppend(x: string, y: string)
    requires NoBreaks(x) && NoBreaks(y)
    ensures NoBreaks(x + y)
  {
    forall i | |x| <= i < |x + y|
      ensures !IsLineBreak((x + y)[i])
    {
      assert (x + y)[i] == y[i - |x|];
    }
  }

  /** A first boundary right after a piece without one is found there. */
  lemma {:induction false} FirstBreakAfter(x: string, rest: string)
    requires NoBreaks(x) && |rest| > 0 && IsLineBreak(rest[0])
    ensures FirstBreak(x + rest) == |x|
    decreases |x|
  {
    if |x| > 0 {
      assert (x + rest)[1..] == x[1..] + rest;
      FirstBreakAfter(x[1..], rest);
    }
  }

  /** Writing lines without boundaries, each ended by `\n`, and reading them
      with `splitlines` gives the lines back. */
  lemma {:induction false} SplitJoinedLines(lines: seq<string>)
    requires |lines| > 0
    requires forall k :: 0 <= k < |lines| ==> NoBreaks(lines[k])
    ensures SplitLines(Join(lines, "\n") + "\n") == lines
    decreases |lines|
  {
    var x := lines[0];
    if |lines| == 1 {
      assert Join(lines, "\n") == x;
      SplitLinesAfterBreak(x, "");
      assert x + "\n" + "" == x + "\n";
    } else {
      var rest := lines[1..];
      JoinCons(x, rest, "\n");
      assert [x] + rest == lines;
      var tail := Join(rest, "\n") + "\n";
      assert Join(lines, "\n") + "\n" == x + "\n" + tail;
      SplitLinesAfterBreak(x, tail);
      SplitJoinedLines(rest);
    }
  }

  /** A line without boundaries, ended by `\n`, is read off the front. */
  lemma SplitLinesAfterBreak(x: string, tail: string)
    requires NoBreaks(x)
    ensures SplitLines(x + "\n" + tail) == [x] + SplitLines(tail)
  {
    var s := x + "\n" + tail;
    assert s == x + ("\n" + tail);
    FirstBreakAfter(x, "\n" + tail);
    assert s[|x|] == '\n';
    assert s[..|x|] == x;
    assert s[|x| + 1..] == tail;
  }

  /** An empty last part adds one separator. */
  lemma {:induction false} JoinEmptyLast(parts: seq<string>, sep: string)
    requires |parts| > 0
    ensures Join(parts + [""], sep) == Join(parts, sep) + sep
    decreases |parts|
  {
    if |parts| == 1 {
      assert (parts + [""])[1..] == [""];
    } else {
      assert (parts + [""])[1..] == parts[1..] + [""];
      JoinEmptyLast(parts[1..], sep);
    }
  }

  /** The final `\n` that `splitlines` drops. */
  function Ending(s: string): string {
    if |s| > 0 && s[|s| - 1] == '\n' then "\n" else ""
  }

  lemma JoinCons(a: string, tail: seq<string>, sep: string)
    requires |tail| > 0
    ensures Join([a] + tail, sep) == a + sep + Join(tail, sep)
  {
    assert ([a] + tail)[1..] == tail;
  }

  /** `"".join(f.readlines()[:n])`: the text up to and including its `n`-th `\n`. */
  function Head(s: string, n: nat): (h: string)
    ensures |h| <= |s| && h == s[..|h|]
    decreases |s|
  {
    if n == 0 || |s| == 0 then ""
    else if s[0] == '\n' then "\n" + Head(s[1..], n - 1)
    else [s[0]] + Head(s[1..], n)
  }

  // ---------------------------------------------------------------------------
  // Integers as text
  // ---------------------------------------------------------------------------

  /** The value of a run of decimal digits (leading zeros allowed). */
  function DigitsValue(s: string): nat
    requires AllDigits(s)
  {
    if |s| == 0 then 0 else DigitsValue(s[..|s| - 1]) * 10 + DigitValue(s[|s| - 1])
  }

  function Pow10(k: nat): (p: nat)
    ensures p >= 1
  {
    if k == 0 then 1 else 10 * Pow10(k - 1)
  }

  /** Fewer than `k` digits stay below `10^k`. */
  lemma {:induction false} DigitsBelow(s: string)
    requires AllDigits(s)
    ensures DigitsValue(s) < Pow10(|s|)
    decreases |s|
  {
    if |s| > 0 {
      DigitsBelow(s[..|s| - 1]);
    }
  }

  /** `str(n)` for `n >= 0`. */
  function NatToString(n: nat): (s: string)
    ensures |s| >= 1 && AllDigits(s)
    ensures |s| > 1 ==> s[0] != '0'
    decreases n
  {
    if n < 10 then [DigitChar(n)] else NatToString(n / 10) + [DigitChar(n % 10)]
  }

  /** Reading the digits of `str(n)` gives `n` back. */
  lemma {:induction false} NatToStringValue(n: nat)
    ensures DigitsValue(NatToString(n)) == n
    decreases n
  {
    if n >= 10 {
      NatToStringValue(n / 10);
      var s := NatToString(n);
      assert s[..|s| - 1] == NatToString(n / 10);
    }
  }

  /** `n` zeros. */
  function Zeros(n: nat): (z: string)
    ensures |z| == n && AllDigits(z)
    ensures forall i :: 0 <= i < n ==> z[i] == '0'
  {
    seq(n, i => '0')
  }

  /** Leading zeros do not change the value of a digit run. */
  lemma {:induction false} LeadingZeros(n: nat, s: string)
    requires AllDigits(s)
    ensures AllDigits(Zeros(n) + s) && DigitsValue(Zeros(n) + s) == DigitsValue(s)
    decreases |s|
  {
    var z := Zeros(n) + s;
    assert AllDigits(z);
    if |s| == 0 {
      assert z == Zeros(n);
      ZerosValue(n);
    } else {
      assert z[..|z| - 1] == Zeros(n) + s[..|s| - 1];
      LeadingZeros(n, s[..|s| - 1]);
    }
  }

  lemma {:induction false} ZerosValue(n: nat)
    ensures DigitsValue(Zeros(n)) == 0
    decreases n
  {
    if n > 0 {
      assert Zeros(n)[..n - 1] == Zeros(n - 1);
      ZerosValue(n - 1);
    }
  }

  /** Zero padding on the left to at least `w` characters. */
  function PadZeros(s: string, w: nat): (r: string)
    ensures |r| == if |s| >= w then |s| else w
  {
    if |s| >= w then s else Zeros(w - |s|) + s
  }

  /** `f"{n:0{w}d}"`: the sign first, then the digits zero-padded so the whole
      text is at least `w` characters. */
  function FormatInt(n: int, w: nat): (s: string)
    ensures n >= 0 ==> AllDigits(s) && |s| >= w
  {
    if n >= 0 then PadZeros(NatToString(n), w)
    else "-" + PadZeros(NatToString(-n), if w > 0 then w - 1 else 0)
  }

  /** `str(n)`. */
  function IntToString(n: int): string {
    FormatInt(n, 0)
  }

  /** The padded digits of a non-negative number read back as the number. */
  lemma FormatIntValue(n: nat, w: nat)
    ensures AllDigits(FormatInt(n, w)) && DigitsValue(FormatInt(n, w)) == n
  {
    NatToStringValue(n);
    var s := NatToString(n);
    assert FormatInt(n, w) == PadZeros(s, w);
    if |s| < w {
      LeadingZeros(w - |s|, s);
      assert PadZeros(s, w) == Zeros(w - |s|) + s;
    } else {
      assert PadZeros(s, w) == s;
    }
  }

  /** Below `10^w`, the padded text is exactly `w` digits. */
  lemma FormatIntWidth(n: nat, w: nat)
    requires n < Pow10(w) && w >= 1
    ensures |FormatInt(n, w)| == w
  {
    NatDigitsCount(n, w);
  }

  lemma {:induction false} NatDigitsCount(n: nat, w: nat)
    requires n < Pow10(w) && w >= 1
    ensures |NatToString(n)| <= w
    decreases n
  {
    if n >= 10 {
      assert Pow10(1) == 10;
      assert n / 10 < Pow10(w - 1);
      NatDigitsCount(n / 10, w - 1);
    }
  }

  /** A number of at least `10^w` has more than `w` digits. */
  lemma {:induction false} NatDigitsAtLeast(n: nat, w: nat)
    requires n >= Pow10(w)
    ensures |NatToString(n)| > w
    decreases w
  {
    if w > 0 {
      assert n / 10 >= Pow10(w - 1);
      NatDigitsAtLeast(n / 10, w - 1);
    }
  }

  // ---------------------------------------------------------------------------
  // Parsing numbers
  // ---------------------------------------------------------------------------

  /** The optional sign at the front of a number: whether it is a minus,
      and the rest. */
  function SplitSign(s: string): (r: (bool, string))
    ensures |r.1| <= |s|
  {
    if |s| > 0 && s[0] == '-' then (true, s[1..])
    else if |s| > 0 && s[0] == '+' then (false, s[1..])
    else (false, s)
  }

  /** `int(s)` on decimal text: surrounding whitespace, an optional sign and at
      least one ASCII digit; `None` where Python raises `ValueError`. */
  function ParseInt(s: string): Option<int> {
    var (negative, body) := SplitSign(Strip(s));
    if |body| > 0 && AllDigits(body) then
      var v: int := DigitsValue(body);
      Some(if negative then -v else v)
    else None
  }

  /** The digits before and after the first `.` of a decimal literal. */
  function SplitPoint(s: string): (r: (string, Option<string>))
    ensures r.1.None? ==> r.0 == s && forall i :: 0 <= i < |s| ==> s[i] != '.'
    ensures r.1.Some? ==> s == r.0 + "." + r.1.value && forall i :: 0 <= i < |r.0| ==> r.0[i] != '.'
    ensures r.1.Some? ==> |r.0| < |s| && s[|r.0|] == '.'
    decreases |s|
  {
    if |s| == 0 then ("", None)
    else if s[0] == '.' then
      assert s == "" + "." + s[1..];
      ("", Some(s[1..]))
    else
      var (w, f) := SplitPoint(s[1..]);
      assert s == [s[0]] + s[1..];
      ([s[0]] + w, f)
  }

  /** `digits.fraction` as a number. */
  function DecimalValue(whole: string, frac: string): real
    requires AllDigits(whole) && AllDigits(frac)
  {
    DigitsValue(whole) as real + DigitsValue(frac) as real / Pow10(|frac|) as real
  }

  /** A decimal literal: digits, optionally a `.` and more digits, with at
      least one digit in all. */
  predicate IsDecimal(whole: string, frac: Option<string>) {
    AllDigits(whole)
    && (frac.Some? ==> AllDigits(frac.value))
    && (|whole| > 0 || (frac.Some? && |frac.value| > 0))
  }

  /** `float(s)` on plain decimal text (`"12"`, `"-0.5"`, `"3."`, `".25"`);
      `None` where Python raises `ValueError`. */
  function ParseFloat(s: string): Option<real> {
    var (negative, body) := SplitSign(Strip(s));
    var (whole, frac) := SplitPoint(body);
    if IsDecimal(whole, frac) then
      var v := DecimalValue(whole, frac.GetOr(""));
      Some(if negative then -v else v)
    else None
  }

  /** `float` reads `"w.f"` written with digits only as `w + f / 10^|f|`. */
  lemma ParseFloatDecimal(whole: string, frac: string)
    requires AllDigits(whole) && AllDigits(frac) && |whole| > 0
    ensures ParseFloat(whole + "." + frac) == Some(DecimalValue(whole, frac))
  {
    var s := whole + "." + frac;
    DigitNotSpace(s[0]);
    if |frac| > 0 {
      assert s[|s| - 1] == frac[|frac| - 1];
      DigitNotSpace(s[|s| - 1]);
    }
    StripTrimmed(s, Whitespace);
    assert SplitSign(s).1 == s;
    PointUnique(whole, frac);
  }

  /** The first `.` of `w.f` with digit-only `w` is the one after `w`. */
  lemma PointUnique(whole: string, frac: string)
    requires AllDigits(whole)
    ensures SplitPoint(whole + "." + frac) == (whole, Some(frac))
  {
    var s := whole + "." + frac;
    var (w, f) := SplitPoint(s);
    assert s[|whole|] == '.';
    assert forall i :: 0 <= i < |whole| ==> s[i] == whole[i] && IsDigit(s[i]);
    assert forall i :: 0 <= i < |w| ==> s[i] == w[i];
    assert s[|w|] == '.';
    assert |w| == |whole|;
    assert w == s[..|w|] == whole;
    assert f.value == s[|whole| + 1..] == frac;
  }

  /** `int` reads digit-only text as its value. */
  lemma ParseIntDigits(s: string)
    requires AllDigits(s) && |s| > 0
    ensures ParseInt(s) == Some(DigitsValue(s))
  {
    DigitNotSpace(s[0]);
    DigitNotSpace(s[|s| - 1]);
    StripTrimmed(s, Whitespace);
    assert Strip(s) == s;
    assert SplitSign(s) == (false, s);
  }

  /** `re.fullmatch(r"\d+", s)` on ASCII digits. */
  predicate IsNumber(s: string) {
    |s| > 0 && AllDigits(s)
  }

  // ---------------------------------------------------------------------------
  // Reading back what was written
  // ---------------------------------------------------------------------------

  /** `c not in s`. */
  predicate Lacks(s: string, c: char) {
    forall i :: 0 <= i < |s| ==> s[i] != c
  }

  /** A piece without the separator's first character, followed by the
      separator, is split off as the first part. */
  lemma {:induction false} SplitPiece(a: string, sep: string, r: string)
    requires |sep| > 0 && Lacks(a, sep[0])
    ensures Split(a + sep + r, sep) == [a] + Split(r, sep)
    decreases |a|
  {
    var s := a + sep + r;
    if |a| == 0 {
      assert s[..|sep|] == sep && s[|sep|..] == r;
    } else {
      assert s[..|sep|][0] == a[0];
      assert s[1..] == a[1..] + sep + r;
      SplitPiece(a[1..], sep, r);
      assert [a[0]] + a[1..] == a;
    }
  }

  /** Text without the separator's first character is a single part. */
  lemma {:induction false} SplitWhole(a: string, sep: string)
    requires |sep| > 0 && Lacks(a, sep[0])
    ensures Split(a, sep) == [a]
    decreases |a|
  {
    if |a| >= |sep| {
      assert a[..|sep|][0] == a[0];
      SplitWhole(a[1..], sep);
      assert [a[0]] + a[1..] == a;
    }
  }

  /** Replacing a character the text lacks changes nothing. */
  lemma ReplaceAbsent(s: string, a: char, b: char)
    requires Lacks(s, a)
    ensures ReplaceChar(s, a, b) == s
  {
  }

  lemma LacksAppend(x: string, y: string, c: char)
    requires Lacks(x, c) && Lacks(y, c)
    ensures Lacks(x + y, c)
  {
  }

  /** Replacing characters piece by piece is replacing them in the whole. */
  lemma ReplaceAppend(x: string, y: string, a: char, b: char)
    ensures ReplaceChar(x + y, a, b) == ReplaceChar(x, a, b) + ReplaceChar(y, a, b)
  {
  }

  /** The one occurrence of `a` between two pieces free of it is replaced. */
  lemma ReplaceBetween(x: string, y: string, a: char, b: char)
    requires Lacks(x, a) && Lacks(y, a)
    ensures ReplaceChar(x + [a] + y, a, b) == x + [b] + y
  {
    var s := x + [a] + y;
    var r := ReplaceChar(s, a, b);
    var t := x + [b] + y;
    forall i | 0 <= i < |s|
      ensures r[i] == t[i]
    {
      if i < |x| {
        assert s[i] == x[i] && t[i] == x[i];
      } else if i == |x| {
        assert s[i] == a && t[i] == b;
      } else {
        assert s[i] == y[i - |x| - 1] && t[i] == y[i - |x| - 1];
      }
    }
  }

  /** `a:b:c` with separator-free fields splits into the three fields. */
  lemma SplitThree(a: string, b: string, c: string, sep: char)
    requires Lacks(a, sep) && Lacks(b, sep) && Lacks(c, sep)
    ensures Split(a + [sep] + b + [sep] + c, [sep]) == [a, b, c]
  {
    SplitWhole(c, [sep]);
    SplitPiece(b, [sep], c);
    assert a + [sep] + b + [sep] + c == a + [sep] + (b + [sep] + c);
    SplitPiece(a, [sep], b + [sep] + c);
  }

  /** `a:b` with separator-free fields splits into the two fields. */
  lemma SplitTwo(a: string, b: string, sep: char)
    requires Lacks(a, sep) && Lacks(b, sep)
    ensures Split(a + [sep] + b, [sep]) == [a, b]
  {
    SplitWhole(b, [sep]);
    SplitPiece(a, [sep], b);
  }

  /** `str(n)` zero-padded holds only digits and perhaps a leading minus. */
  lemma FormatIntChars(n: int, w: nat)
    ensures |FormatInt(n, w)| > 0
    ensures forall i :: 0 <= i < |FormatInt(n, w)| ==> IsDigit(FormatInt(n, w)[i]) || (i == 0 && FormatInt(n, w)[i] == '-')
    ensures IsDigit(FormatInt(n, w)[|FormatInt(n, w)| - 1])
  {
    var d := NatToString(if n >= 0 then n else -n);
    if n < 0 {
      var p := PadZeros(d, if w > 0 then w - 1 else 0);
      assert FormatInt(n, w) == "-" + p;
    }
  }

  /** `int(f"{n:0{w}d}")` is `n`: formatting an integer and reading it back
      restores it, sign included. */
  lemma ParseFormatInt(n: int, w: nat)
    ensures ParseInt(FormatInt(n, w)) == Some(n)
  {
    if n >= 0 {
      ParsePlainDigits(n, w);
    } else {
      ParseMinusDigits(n, w);
    }
  }

  lemma ParsePlainDigits(n: int, w: nat)
    requires n >= 0
    ensures ParseInt(FormatInt(n, w)).Some? && ParseInt(FormatInt(n, w)).value == n
  {
    var s := FormatInt(n, w);
    FormatIntValue(n, w);
    FormatIntChars(n, w);
    ParseIntDigits(s);
  }

  /** `int("-" + digits)` is the negated value of the digits. */
  lemma ParseMinusDigits(n: int, w: nat)
    requires n < 0
    ensures ParseInt(FormatInt(n, w)).Some? && ParseInt(FormatInt(n, w)).value == n
  {
    var p := MinusText(n, w);
    var s := FormatInt(n, w);
    assert SplitSign(Strip(s)) == (true, p);
  }

  /** A negative number is written as `-` and the digits of its magnitude,
      with nothing to strip. */
  lemma MinusText(n: int, w: nat) returns (p: string)
    requires n < 0
    ensures Strip(FormatInt(n, w)) == FormatInt(n, w)
    ensures SplitSign(FormatInt(n, w)) == (true, p)
    ensures |p| > 0 && AllDigits(p) && DigitsValue(p) == -n
  {
    p := NegativeDigits(n, w);
    MinusDigits(p);
  }

  /** The digits after the `-` of a negative number are those of its magnitude. */
  lemma NegativeDigits(n: int, w: nat) returns (p: string)
    requires n < 0
    ensures FormatInt(n, w) == "-" + p
    ensures |p| > 0 && AllDigits(p) && DigitsValue(p) == -n
  {
    var w' := if w > 0 then w - 1 else 0;
    p := FormatInt(-n, w');
    FormatIntValue(-n, w');
    assert |p| >= |NatToString(-n)| >= 1;
  }

  /** `-` and digits have nothing to strip and read as negative. */
  lemma MinusDigits(p: string)
    requires |p| > 0 && AllDigits(p)
    ensures Strip("-" + p) == "-" + p && SplitSign("-" + p) == (true, p)
  {
    var s := "-" + p;
    assert s[|s| - 1] == p[|p| - 1];
    DigitNotSpace(p[|p| - 1]);
    StripTrimmed(s, Whitespace);
    assert s[1..] == p;
  }


}
