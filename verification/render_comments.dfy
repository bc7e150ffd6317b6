/** tools/03_render_comments_txt.py: a plain-language comment for every
    event, in the order the events come, and a text of at most 200 of
    them under a heading. */
module RenderComments {
  import opened Wrappers
  import opened Numeric
  import opened Text
  import opened LyricsTime
  import opened CommentCommon

  /** The most comments the text shows. */
  const MaxComments: int := 200

  /** The wave dash between the two times of a comment. */
  const Wave: string := "〜"

  /** The heading line of `comments.txt`. */
  const Heading: string := "■ 要所コメント（自動生成）"

  /** The advice a comment gives: one per known type and one for the rest. */
  datatype Tone = Sharp | Flat | Silent | Unsteady

  /** `event_to_comment`'s choice by the event's type. */
  function ToneFor(kind: string): Tone {
    if kind == "pitch_high" then Sharp
    else if kind == "pitch_low" then Flat
    else if kind == "unvoiced_miss" then Silent
    else Unsteady
  }

  /** The type each known template answers to. */
  function ToneName(t: Tone): Option<string> {
    match t
    case Sharp => Some("pitch_high")
    case Flat => Some("pitch_low")
    case Silent => Some("unvoiced_miss")
    case Unsteady => None
  }

  /** The text after the two times. */
  function ToneText(t: Tone): string {
    match t
    case Sharp => "：音が少し高い傾向です。あごを少し下げ、口を縦に開きすぎないで、息を少し弱める意識で歌い直してみましょう。"
    case Flat => "：音が少し低い傾向です。背すじを伸ばして目線をやや上に。口の中を少し広くして、息のスピードを少しだけ速めてみましょう。"
    case Silent => "：声が入っていません。直前で軽く息を吸って、次の言葉を先に口パクで作ってから発声を始めると入りやすいです。"
    case Unsteady => "：タイミングや音程が不安定です。姿勢を整え、浅く短く吸ってから余裕をもって入ってみましょう。"
  }

  /** The choice of template and the names of the known types are
      inverse: a known template is chosen by exactly its own type, the
      fallback by exactly the types that name none. */
  lemma ToneForNames(kind: string, t: Tone)
    ensures ToneFor(kind) == t && t != Unsteady <==> ToneName(t) == Some(kind)
    ensures ToneFor(kind) == Unsteady <==> forall u :: ToneName(u) != Some(kind)
  {
    if ToneFor(kind) != Unsteady {
      assert ToneName(ToneFor(kind)) == Some(kind);
    }
  }

  /** The templates' lengths. */
  function ToneSize(t: Tone): nat {
    match t
    case Sharp => 53
    case Flat => 59
    case Silent => 53
    case Unsteady => 46
  }

  lemma ToneLength(t: Tone)
    ensures |ToneText(t)| == ToneSize(t)
  {
  }

  /** No two templates read alike: all but the first and third differ in
      length, and those two differ in their last but one character. */
  lemma ToneTextsDistinct(a: Tone, b: Tone)
    ensures ToneText(a) == ToneText(b) <==> a == b
  {
    ToneLength(a);
    ToneLength(b);
    SharpNotSilent();
    assert a != b && ToneSize(a) == ToneSize(b) ==> {a, b} == {Sharp, Silent};
  }

  lemma SharpNotSilent()
    ensures ToneText(Sharp) != ToneText(Silent)
  {
    assert ToneText(Sharp)[51] == 'う';
    assert ToneText(Silent)[51] == 'す';
  }

  /** Why `event_to_comment` fails: `ev["start"]` or `ev["type"]` raises
      `KeyError`, the start being looked up first. */
  datatype CommentError = MissingStart | MissingType

  /** `event_to_comment(ev)`. */
  function Comment(e: RawEvent): (r: Result<string, CommentError>)
    ensures r.Err? <==> e.start.None? || e.kind.None?
    ensures r.Err? ==> (r.error == MissingStart <==> e.start.None?)
  {
    if e.start.None? then Err(MissingStart)
    else if e.kind.None? then Err(MissingType)
    else Ok(CommentText(e))
  }

  /** The comment of an event that has both keys. */
  function CommentText(e: RawEvent): string
    requires e.start.Some? && e.kind.Some?
  {
    TimeText(e.start.value) + Wave + TimeText(EndOr(e)) + ToneText(ToneFor(e.kind.value))
  }

  /** A comment begins with the printed start, which reads back to within
      half a hundredth of a second of the event's start, and ends with the
      advice for the event's type. */
  lemma CommentLayout(e: RawEvent)
    requires e.start.Some? && e.kind.Some?
    ensures TimeText(e.start.value) <= CommentText(e)
    ensures ParseTime(CommentText(e)[..|TimeText(e.start.value)|]).Some?
    ensures Abs(ParseTime(CommentText(e)[..|TimeText(e.start.value)|]).value - e.start.value) <= 0.005
    ensures |ToneText(ToneFor(e.kind.value))| <= |CommentText(e)|
    ensures CommentText(e)[|CommentText(e)| - |ToneText(ToneFor(e.kind.value))|..] == ToneText(ToneFor(e.kind.value))
  {
    var t, a := TimeText(e.start.value), ToneText(ToneFor(e.kind.value));
    var mid := Wave + TimeText(EndOr(e));
    assert CommentText(e) == t + mid + a;
    Ends(t, mid, a);
    TimeTextRoundTrip(e.start.value);
  }

  /** `[f(x) for x in xs]` where `f` may raise: every result, in order, or
      the error of the first `x` that has none. */
  function Collect<A, B, E>(f: A -> Result<B, E>, xs: seq<A>): (r: Result<seq<B>, E>)
    ensures r.Ok? ==> |r.value| == |xs|
    decreases |xs|
  {
    if |xs| == 0 then Ok([])
    else
      match f(xs[0])
      case Err(x) => Err(x)
      case Ok(y) =>
        match Collect(f, xs[1..])
        case Err(x) => Err(x)
        case Ok(ys) => Ok([y] + ys)
  }

  /** The collection succeeds exactly when every element does, and then
      holds each result in place. */
  lemma {:induction false} CollectOk<A, B, E>(f: A -> Result<B, E>, xs: seq<A>)
    ensures Collect(f, xs).Ok? <==> forall i :: 0 <= i < |xs| ==> f(xs[i]).Ok?
    ensures Collect(f, xs).Ok? ==> forall i :: 0 <= i < |xs| ==> Collect(f, xs).value[i] == f(xs[i]).value
    decreases |xs|
  {
    if |xs| > 0 {
      var rest := xs[1..];
      CollectOk(f, rest);
      forall i | 1 <= i < |xs|
        ensures xs[i] == rest[i - 1]
      {
      }
    }
  }

  /** A failed collection carries the error of the first element that
      failed. */
  lemma {:induction false} CollectFirstError<A, B, E>(f: A -> Result<B, E>, xs: seq<A>)
    requires Collect(f, xs).Err?
    ensures exists j :: (0 <= j < |xs| && f(xs[j]).Err? && Collect(f, xs).error == f(xs[j]).error
                         && forall i :: 0 <= i < j ==> f(xs[i]).Ok?)
    decreases |xs|
  {
    if f(xs[0]).Ok? {
      var rest := xs[1..];
      CollectFirstError(f, rest);
      var j :| 0 <= j < |rest| && f(rest[j]).Err? && Collect(f, rest).error == f(rest[j]).error
        && forall i :: 0 <= i < j ==> f(rest[i]).Ok?;
      assert xs[j + 1] == rest[j];
      forall i | 0 <= i < j + 1
        ensures f(xs[i]).Ok?
      {
        if i > 0 {
          assert xs[i] == rest[i - 1];
        }
      }
    }
  }

  /** `[event_to_comment(e) for e in ev]`. */
  function Comments(events: seq<RawEvent>): (r: Result<seq<string>, CommentError>) {
    Collect(Comment, events)
  }

  /** `lines[:200]`. */
  function Shown<T>(s: seq<T>): (r: seq<T>)
    ensures |r| == if |s| > MaxComments then MaxComments else |s|
    ensures r <= s
  {
    if |s| > MaxComments then s[..MaxComments] else s
  }

  /** The lines of `comments.txt`: the heading, then `- ` and each of the
      first 200 comments. */
  function Lines(comments: seq<string>): (lines: seq<string>)
    ensures |lines| == |Shown(comments)| + 1
  {
    var shown := Shown(comments);
    [Heading] + seq(|shown|, k requires 0 <= k < |shown| => "- " + shown[k])
  }

  /** `main`: the lines written, or the error that stops the script
      before anything is written. */
  function Render(events: seq<RawEvent>): Result<seq<string>, CommentError> {
    match Comments(events)
    case Err(x) => Err(x)
    case Ok(cs) => Ok(Lines(cs))
  }

  /** The text shows the heading and then the comments of the first 200
      events, in the events' own order. */
  lemma RenderLines(events: seq<RawEvent>)
    requires Render(events).Ok?
    ensures |Render(events).value| == 1 + if |events| > MaxComments then MaxComments else |events|
    ensures Render(events).value[0] == Heading
    ensures forall k :: 0 <= k < |Render(events).value| - 1 ==>
      events[k].start.Some? && events[k].kind.Some? && Render(events).value[k + 1] == "- " + CommentText(events[k])
  {
    CollectOk(Comment, events);
  }

  /** When the script stops, it is for the first event without a start or
      a type, and for the first of those two keys that event lacks. */
  lemma RenderFirstError(events: seq<RawEvent>)
    requires Render(events).Err?
    ensures exists j :: (0 <= j < |events| && (events[j].start.None? || events[j].kind.None?)
                         && (Render(events).error == MissingStart <==> events[j].start.None?)
                         && forall i :: 0 <= i < j ==> events[i].start.Some? && events[i].kind.Some?)
  {
    CollectFirstError(Comment, events);
  }

  /** Every event is commented before the cut: an event without a start or
      a type stops the script even when it lies past the first 200. */
  lemma RenderNeedsAll(events: seq<RawEvent>)
    ensures Render(events).Ok? <==> forall i :: 0 <= i < |events| ==> events[i].start.Some? && events[i].kind.Some?
  {
    CollectOk(Comment, events);
  }

  /** Only the first 200 events show: when the script runs, dropping the
      rest changes nothing in the text. */
  lemma RenderCap(events: seq<RawEvent>)
    requires Render(events).Ok? && |events| > MaxComments
    ensures Render(events[..MaxComments]).Ok?
    ensures Render(events[..MaxComments]) == Render(events)
  {
    var head := events[..MaxComments];
    CollectOk(Comment, events);
    CollectOk(Comment, head);
    var cs, hs := Comments(events).value, Comments(head).value;
    assert Shown(cs) == hs;
  }
}
