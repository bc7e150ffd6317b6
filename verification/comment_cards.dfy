/** tools/07_event_comment_cards.py: one comment card per event, earliest
    first, at most `MAX_ITEMS` of them, each with a message chosen by the
    event's type. */
module CommentCards {
  import opened Wrappers
  import opened Numeric
  import opened Text
  import opened Sorting
  import opened LyricsTime
  import opened CommentCommon

  /** `MAX_ITEMS` when the environment does not set it. */
  const DefaultMaxItems: int := 200

  /** The type an event without one is given. */
  const OtherKind: string := "other"

  /** The dash between the two times of a message. */
  const Dash: string := "–"

  /** The advice a message gives: one per known type and one for the rest. */
  datatype Advice = TooHigh | TooLow | Unvoiced | EarlyEntry | LateEntry | Unsteady

  /** `make_message`'s choice of template by the event's type. */
  function AdviceFor(kind: string): Advice {
    if kind == "pitch_high" then TooHigh
    else if kind == "pitch_low" then TooLow
    else if kind == "unvoiced_miss" then Unvoiced
    else if kind == "early_entry" then EarlyEntry
    else if kind == "late_entry" then LateEntry
    else Unsteady
  }

  /** The advice text after the two times. */
  function AdviceText(a: Advice): string {
    match a
    case TooHigh => " 少し高め。息を急ぎすぎない、口の形を小さくしすぎない。出だしを落ち着いて。"
    case TooLow => " 少し低め。息のスピードを少し上げる、口の中を少し広く。声を前に出す意識。"
    case Unvoiced => " 声が入っていないか弱い。直前で静かに息を準備→はっきり声を置く。"
    case EarlyEntry => " 早入り。伴奏の区切りを数えて“1,2,3”で入る。足で軽く拍を取る。"
    case LateEntry => " 遅入り。入る直前に小さく息を吸い、迷わずあたまの音を置く。"
    case Unsteady => " 音程やタイミングが不安定。肩と首の力を抜き、最初の母音をはっきり。"
  }

  /** The type each known template answers to; the fallback answers to
      every other type. */
  function KindName(a: Advice): Option<string> {
    match a
    case TooHigh => Some("pitch_high")
    case TooLow => Some("pitch_low")
    case Unvoiced => Some("unvoiced_miss")
    case EarlyEntry => Some("early_entry")
    case LateEntry => Some("late_entry")
    case Unsteady => None
  }

  /** The template choice and the names of the known types are inverse:
      every known template is chosen by exactly its own type, and the
      fallback by exactly the types that name no template. */
  lemma AdviceForNames(kind: string, a: Advice)
    ensures AdviceFor(kind) == a && a != Unsteady <==> KindName(a) == Some(kind)
    ensures AdviceFor(kind) == Unsteady <==> forall b :: KindName(b) != Some(kind)
  {
    if AdviceFor(kind) != Unsteady {
      assert KindName(AdviceFor(kind)) == Some(kind);
    }
  }

  /** No two templates read alike. */
  lemma AdviceTextsDistinct(a: Advice, b: Advice)
    ensures AdviceText(a) == AdviceText(b) <==> a == b
  {
    AdviceLength(a);
    AdviceLength(b);
    assert a != b ==> AdviceSize(a) != AdviceSize(b);
  }

  /** The templates all differ in length. */
  function AdviceSize(a: Advice): nat {
    match a
    case TooHigh => 38
    case TooLow => 37
    case Unvoiced => 33
    case EarlyEntry => 35
    case LateEntry => 30
    case Unsteady => 34
  }

  lemma AdviceLength(a: Advice)
    ensures |AdviceText(a)| == AdviceSize(a)
  {
  }

  /** `e.get("type", "other")`. */
  function KindOr(e: RawEvent): string {
    e.kind.GetOr(OtherKind)
  }

  /** `make_message(e)`: the two times, a dash between them, then the
      advice for the event's type. */
  function Message(e: RawEvent): string
    requires e.start.Some?
  {
    TimeText(e.start.value) + Dash + TimeText(EndOr(e)) + AdviceText(AdviceFor(KindOr(e)))
  }

  /** A message begins with the printed start, which reads back to within
      half a hundredth of a second of the event's start, and ends with the
      advice for the event's type. */
  lemma MessageLayout(e: RawEvent)
    requires e.start.Some?
    ensures TimeText(e.start.value) <= Message(e)
    ensures ParseTime(Message(e)[..|TimeText(e.start.value)|]).Some?
    ensures Abs(ParseTime(Message(e)[..|TimeText(e.start.value)|]).value - e.start.value) <= 0.005
    ensures |AdviceText(AdviceFor(KindOr(e)))| <= |Message(e)|
    ensures Message(e)[|Message(e)| - |AdviceText(AdviceFor(KindOr(e)))|..] == AdviceText(AdviceFor(KindOr(e)))
  {
    var t, a := TimeText(e.start.value), AdviceText(AdviceFor(KindOr(e)));
    var mid := Dash + TimeText(EndOr(e));
    assert Message(e) == t + mid + a;
    Ends(t, mid, a);
    TimeTextRoundTrip(e.start.value);
  }

  /** `x.get("start", 0.0)`, the key the events are sorted by. */
  function StartOr0(e: RawEvent): real {
    e.start.GetOr(0.0)
  }

  /** `ev[:MAX_ITEMS]` if `MAX_ITEMS > 0`, every event otherwise. */
  function Limit<T>(s: seq<T>, maxItems: int): (r: seq<T>)
    ensures r <= s
    ensures maxItems > 0 && maxItems < |s| ==> |r| == maxItems
    ensures maxItems <= 0 || maxItems >= |s| ==> r == s
  {
    if maxItems > 0 && maxItems < |s| then s[..maxItems] else s
  }

  /** One entry of `comments.json`. */
  datatype Card = Card(start: real, end: real, kind: string, text: string)

  /** The row `main` makes of a kept event. */
  function CardOf(e: RawEvent): (c: Card)
    requires e.start.Some?
    ensures c.start == e.start.value
  {
    Card(e.start.value, EndOr(e), KindOr(e), Message(e))
  }

  /** The only failure: an event that is kept but has no start (`e["start"]`
      raises `KeyError`). */
  datatype CardsError = MissingStart

  /** The events in the order the cards follow, before the cut. */
  function Ordered(events: seq<RawEvent>): (r: seq<RawEvent>)
    ensures |r| == |events| && multiset(r) == multiset(events)
    ensures forall i, j :: 0 <= i < j < |r| ==> StartOr0(r[i]) <= StartOr0(r[j])
  {
    SortByKey(events, StartOr0)
  }

  /** The events that get a card: the first `MAX_ITEMS` by start. They are
      input events in order of start, and nothing that starts earlier than
      one of them is left out; with no cut, every event is kept. */
  function Kept(events: seq<RawEvent>, maxItems: int): (kept: seq<RawEvent>)
    ensures |kept| == if 0 < maxItems < |events| then maxItems else |events|
    ensures forall j :: 0 <= j < |kept| ==> kept[j] in events
    ensures forall i, j :: 0 <= i < j < |kept| ==> StartOr0(kept[i]) <= StartOr0(kept[j])
    ensures forall i, k :: 0 <= i < |events| && 0 <= k < |kept| && StartOr0(events[i]) < StartOr0(kept[k]) ==> events[i] in kept
    ensures maxItems <= 0 || maxItems >= |events| ==> forall i :: 0 <= i < |events| ==> events[i] in kept
  {
    var r := Ordered(events);
    OrderedMembers(events);
    PrefixFacts(r, maxItems);
    PrefixEarliest(events, r, Limit(r, maxItems));
    Limit(r, maxItems)
  }

  /** A prefix of the sorted events is sorted and holds sorted events only. */
  lemma PrefixFacts(r: seq<RawEvent>, maxItems: int)
    requires forall i, j :: 0 <= i < j < |r| ==> StartOr0(r[i]) <= StartOr0(r[j])
    ensures forall j :: 0 <= j < |Limit(r, maxItems)| ==> Limit(r, maxItems)[j] == r[j]
    ensures forall i, j :: 0 <= i < j < |Limit(r, maxItems)| ==> StartOr0(Limit(r, maxItems)[i]) <= StartOr0(Limit(r, maxItems)[j])
  {
  }

  /** Of events sorted by start, a prefix holds every event that starts
      earlier than one of its members. */
  lemma PrefixEarliest(events: seq<RawEvent>, r: seq<RawEvent>, kept: seq<RawEvent>)
    requires kept <= r
    requires forall i, j :: 0 <= i < j < |r| ==> StartOr0(r[i]) <= StartOr0(r[j])
    requires forall i :: 0 <= i < |events| ==> events[i] in r
    ensures forall i, k :: 0 <= i < |events| && 0 <= k < |kept| && StartOr0(events[i]) < StartOr0(kept[k]) ==> events[i] in kept
  {
    forall i, k | 0 <= i < |events| && 0 <= k < |kept| && StartOr0(events[i]) < StartOr0(kept[k])
      ensures events[i] in kept
    {
      var j :| 0 <= j < |r| && r[j] == events[i];
      assert kept[k] == r[k];
      assert j < k;
      assert kept[j] == events[i];
    }
  }

  /** Every sorted event is one of the input events, and every input event
      is somewhere in the sorted order. */
  lemma OrderedMembers(events: seq<RawEvent>)
    ensures forall j :: 0 <= j < |events| ==> Ordered(events)[j] in events
    ensures forall i :: 0 <= i < |events| ==> events[i] in Ordered(events)
  {
    var r := Ordered(events);
    forall j | 0 <= j < |events|
      ensures r[j] in events
    {
      assert r[j] in multiset(r);
    }
    forall i | 0 <= i < |events|
      ensures events[i] in r
    {
      assert events[i] in multiset(events);
    }
  }

  predicate AllStart(es: seq<RawEvent>) {
    forall i :: 0 <= i < |es| ==> es[i].start.Some?
  }

  /** A card for each kept event, in their order. */
  function CardsOf(kept: seq<RawEvent>): (cards: seq<Card>)
    requires AllStart(kept)
    ensures |cards| == |kept|
    ensures forall k :: 0 <= k < |kept| ==> cards[k] == CardOf(kept[k])
  {
    seq(|kept|, k requires 0 <= k < |kept| => CardOf(kept[k]))
  }

  /** `main`'s rows: sort by start, cut to `MAX_ITEMS`, make a card of each. */
  function Cards(events: seq<RawEvent>, maxItems: int): (r: Result<seq<Card>, CardsError>)
    ensures r.Ok? ==> |r.value| == if 0 < maxItems < |events| then maxItems else |events|
  {
    var kept := Kept(events, maxItems);
    if AllStart(kept) then Ok(CardsOf(kept)) else Err(MissingStart)
  }

  /** The cards are made when every event has a start, and a failure is
      always caused by an event without one; when nothing is cut, that is
      exactly when some event has no start. */
  lemma CardsOk(events: seq<RawEvent>, maxItems: int)
    ensures AllStart(events) ==> Cards(events, maxItems).Ok?
    ensures Cards(events, maxItems).Err? ==> exists i :: 0 <= i < |events| && events[i].start.None?
    ensures maxItems <= 0 || maxItems >= |events| ==> (Cards(events, maxItems).Ok? <==> AllStart(events))
  {
    var kept := Kept(events, maxItems);
    if !AllStart(kept) {
      var j :| 0 <= j < |kept| && kept[j].start.None?;
      assert kept[j] in events;
    }
    if maxItems <= 0 || maxItems >= |events| {
      if AllStart(kept) {
        forall i | 0 <= i < |events|
          ensures events[i].start.Some?
        {
          assert events[i] in kept;
        }
      }
    }
  }

  /** The cards are in order of their starts. */
  lemma CardsSorted(events: seq<RawEvent>, maxItems: int)
    requires Cards(events, maxItems).Ok?
    ensures forall i, j :: 0 <= i < j < |Cards(events, maxItems).value| ==>
      Cards(events, maxItems).value[i].start <= Cards(events, maxItems).value[j].start
  {
    var kept := Kept(events, maxItems);
    var cards := Cards(events, maxItems).value;
    forall i, j | 0 <= i < j < |cards|
      ensures cards[i].start <= cards[j].start
    {
      assert cards[i].start == StartOr0(kept[i]) && cards[j].start == StartOr0(kept[j]);
    }
  }

  /** Every card is the card of one of the events. */
  lemma CardsFromEvents(events: seq<RawEvent>, maxItems: int)
    requires Cards(events, maxItems).Ok?
    ensures forall k :: 0 <= k < |Cards(events, maxItems).value| ==> CardFromEvent(events, Cards(events, maxItems).value[k])
  {
    var kept := Kept(events, maxItems);
    var cards := Cards(events, maxItems).value;
    forall k | 0 <= k < |cards|
      ensures CardFromEvent(events, cards[k])
    {
      EventIndex(events, kept[k]);
      var i :| 0 <= i < |events| && events[i] == kept[k];
      assert kept[k].start.Some?;
      assert 0 <= i < |events| && events[i].start.Some? && cards[k] == CardOf(events[i]);
    }
  }

  /** `c` is the card of one of the events. */
  predicate CardFromEvent(events: seq<RawEvent>, c: Card) {
    exists i :: 0 <= i < |events| && events[i].start.Some? && c == CardOf(events[i])
  }

  lemma EventIndex(events: seq<RawEvent>, e: RawEvent)
    requires e in events
    ensures exists i :: 0 <= i < |events| && events[i] == e
  {
  }

  /** When nothing is cut, every event has its card. */
  lemma CardsCoverEvents(events: seq<RawEvent>, maxItems: int)
    requires Cards(events, maxItems).Ok?
    requires maxItems <= 0 || maxItems >= |events|
    ensures forall i :: 0 <= i < |events| ==> events[i].start.Some? && CardOf(events[i]) in Cards(events, maxItems).value
  {
    var kept := Kept(events, maxItems);
    var cards := Cards(events, maxItems).value;
    forall i | 0 <= i < |events|
      ensures events[i].start.Some? && CardOf(events[i]) in cards
    {
      EventIndex(kept, events[i]);
      var j :| 0 <= j < |kept| && kept[j] == events[i];
      assert cards[j] == CardOf(events[i]);
    }
  }

  /** The cut keeps the earliest events: an event that starts before some
      card has a card of its own. */
  lemma CardsEarliest(events: seq<RawEvent>, maxItems: int)
    requires Cards(events, maxItems).Ok?
    ensures forall i, k ::
      0 <= i < |events| && 0 <= k < |Cards(events, maxItems).value| && StartOr0(events[i]) < Cards(events, maxItems).value[k].start
      ==> events[i].start.Some? && CardOf(events[i]) in Cards(events, maxItems).value
  {
    var kept := Kept(events, maxItems);
    var cards := Cards(events, maxItems).value;
    forall i, k | 0 <= i < |events| && 0 <= k < |cards| && StartOr0(events[i]) < cards[k].start
      ensures events[i].start.Some? && CardOf(events[i]) in cards
    {
      assert cards[k].start == StartOr0(kept[k]);
      var j :| 0 <= j < |kept| && kept[j] == events[i];
      assert cards[j] == CardOf(events[i]);
    }
  }

  /** The heading of `comments.txt`, which names `MAX_ITEMS`. */
  function CardsHeading(maxItems: int): string {
    "■ 要所コメント（最大" + IntToString(maxItems) + "件）"
  }

  /** The lines of `comments.txt`: the heading, then `- ` and each card's
      message. */
  function CardsLines(maxItems: int, cards: seq<Card>): (lines: seq<string>)
    ensures |lines| == |cards| + 1
  {
    [CardsHeading(maxItems)] + seq(|cards|, k requires 0 <= k < |cards| => "- " + cards[k].text)
  }

  /** `comments.txt`: every line ended by a newline. */
  function CardsText(maxItems: int, cards: seq<Card>): string {
    Join(CardsLines(maxItems, cards), "\n") + "\n"
  }

  /** A formatted integer is one line. */
  lemma FormatIntNoBreaks(n: int, w: nat)
    ensures NoBreaks(FormatInt(n, w))
  {
    FormatIntChars(n, w);
  }

  /** A printed time is one line. */
  lemma TimeTextNoBreaks(t: real)
    ensures NoBreaks(TimeText(t))
  {
    var c := ReadingOf(t);
    var M, S, X := FormatInt(c.minutes, Pad), FormatInt(c.hundredths / 100, Pad), FormatInt(c.hundredths % 100, Pad);
    FormatIntNoBreaks(c.minutes, Pad);
    FormatIntNoBreaks(c.hundredths / 100, Pad);
    FormatIntNoBreaks(c.hundredths % 100, Pad);
    assert NoBreaks(":") && NoBreaks(".");
    NoBreaksAppend(M, ":");
    NoBreaksAppend(M + ":", S);
    NoBreaksAppend(M + ":" + S, ".");
    NoBreaksAppend(M + ":" + S + ".", X);
  }

  lemma AdviceNoBreaks(a: Advice)
    ensures NoBreaks(AdviceText(a))
  {
    match a
    case TooHigh => HighAdviceNoBreaks();
    case TooLow => LowAdviceNoBreaks();
    case Unvoiced => UnvoicedAdviceNoBreaks();
    case EarlyEntry => EarlyAdviceNoBreaks();
    case LateEntry => LateAdviceNoBreaks();
    case Unsteady => UnsteadyAdviceNoBreaks();
  }

  lemma HighAdviceNoBreaks() ensures NoBreaks(AdviceText(TooHigh)) {}
  lemma LowAdviceNoBreaks() ensures NoBreaks(AdviceText(TooLow)) {}
  lemma UnvoicedAdviceNoBreaks() ensures NoBreaks(AdviceText(Unvoiced)) {}
  lemma EarlyAdviceNoBreaks() ensures NoBreaks(AdviceText(EarlyEntry)) {}
  lemma LateAdviceNoBreaks() ensures NoBreaks(AdviceText(LateEntry)) {}
  lemma UnsteadyAdviceNoBreaks() ensures NoBreaks(AdviceText(Unsteady)) {}

  /** A message is one line. */
  lemma MessageNoBreaks(e: RawEvent)
    requires e.start.Some?
    ensures NoBreaks(Message(e))
  {
    var t1, t2, a := TimeText(e.start.value), TimeText(EndOr(e)), AdviceText(AdviceFor(KindOr(e)));
    TimeTextNoBreaks(e.start.value);
    TimeTextNoBreaks(EndOr(e));
    AdviceNoBreaks(AdviceFor(KindOr(e)));
    assert NoBreaks(Dash);
    NoBreaksAppend(t1, Dash);
    NoBreaksAppend(t1 + Dash, t2);
    NoBreaksAppend(t1 + Dash + t2, a);
  }

  /** The heading is one line. */
  lemma HeadingNoBreaks(maxItems: int)
    ensures NoBreaks(CardsHeading(maxItems))
  {
    FormatIntNoBreaks(maxItems, 0);
    assert NoBreaks("■ 要所コメント（最大") && NoBreaks("件）");
    NoBreaksAppend("■ 要所コメント（最大", IntToString(maxItems));
    NoBreaksAppend("■ 要所コメント（最大" + IntToString(maxItems), "件）");
  }

  /** Every line of `comments.txt` is one line. */
  lemma CardsLinesNoBreaks(events: seq<RawEvent>, maxItems: int)
    requires Cards(events, maxItems).Ok?
    ensures forall k :: 0 <= k < |CardsLines(maxItems, Cards(events, maxItems).value)| ==>
      NoBreaks(CardsLines(maxItems, Cards(events, maxItems).value)[k])
  {
    var cards := Cards(events, maxItems).value;
    var kept := Kept(events, maxItems);
    var lines := CardsLines(maxItems, cards);
    HeadingNoBreaks(maxItems);
    forall k | 0 <= k < |lines|
      ensures NoBreaks(lines[k])
    {
      if k > 0 {
        MessageNoBreaks(kept[k - 1]);
        assert NoBreaks("- ");
        NoBreaksAppend("- ", cards[k - 1].text);
      }
    }
  }

  /** Read line by line, `comments.txt` gives back the heading and one
      `- ` line per card, in the cards' order. */
  lemma CardsTextLines(events: seq<RawEvent>, maxItems: int)
    requires Cards(events, maxItems).Ok?
    ensures SplitLines(CardsText(maxItems, Cards(events, maxItems).value)) == CardsLines(maxItems, Cards(events, maxItems).value)
  {
    CardsLinesNoBreaks(events, maxItems);
    SplitJoinedLines(CardsLines(maxItems, Cards(events, maxItems).value));
  }
}
