/**
 What a read shows and what is counted of it. A message is rendered whole and
 written in one call; the counter behind the read tool tells the headings from
 the messages by their prefix and by their being exactly one line.
 */
module Handed {
  import opened Basics
  import opened Text
  import C = Codec

  /** One scanned, trimmed line of a payload. A field is None when the envelope lacks it. */
  datatype Line =
    | Blank
    | Junk(text: string)
    | Envelope(from: Option<string>, to: Option<string>, ts: Option<string>, body: Option<string>)

  // ---------------------------------------------------------------- rendering

  function Field(f: Option<string>): string {
    if f.None? then "?" else f.value
  }

  function Header(e: Line): string
    requires e.Envelope?
  {
    Field(e.from) + " -> " + Field(e.to) + "   " + Field(e.ts) + "\n"
  }

  function BodyOf(e: Line): string
    requires e.Envelope?
  {
    if e.body.None? then "" else e.body.value
  }

  function Marked(b: string): (mark: string)
    ensures mark != "" && mark[0] == '+' && ('\n' in mark <==> '\n' in b)
  {
    if b == "" then "+" else "+ " + b
  }

  function BodyLine(b: string): string {
    Marked(b) + "\n"
  }

  function BodyText(lines: seq<string>): string {
    if lines == [] then "" else BodyText(lines[..|lines| - 1]) + BodyLine(lines[|lines| - 1])
  }

  function Shown(l: Line): string {
    match l
    case Blank => ""
    case Junk(text) => UNPARSEABLE + (if |text| > 120 then text[..120] else text) + "\n"
    case Envelope(_, _, _, _) => Header(l) + BodyText(Split(BodyOf(l), '\n')) + "\n"
  }

  const UNPARSEABLE: string := "  [unparseable] "

  function Rendered(payload: seq<Line>): string {
    if payload == [] then "" else Rendered(payload[..|payload| - 1]) + Shown(payload[|payload| - 1])
  }

  method RenderEnvelope(e: Line) returns (out: string)
    requires e.Envelope?
    ensures out == Shown(e)
  {
    var lines, body := Split(BodyOf(e), '\n'), "";
    for i := 0 to |lines|
      invariant body == BodyText(lines[..i])
    {
      BodyTextSnoc(lines, i);
      if lines[i] == "" {
        body := body + "+\n";
      } else {
        body := body + ("+ " + lines[i] + "\n");
      }
    }
    assert lines[..|lines|] == lines;
    out := Header(e) + body + "\n";
  }

  lemma BodyTextSnoc(lines: seq<string>, i: nat)
    requires i < |lines|
    ensures BodyText(lines[..i + 1]) ==
            BodyText(lines[..i]) + if lines[i] == "" then "+\n" else "+ " + lines[i] + "\n"
  {
    assert lines[..i + 1][..i] == lines[..i];
    assert BodyLine("") == "+\n";
  }

  method Render(payload: seq<Line>) returns (out: string)
    ensures out == Rendered(payload)
  {
    out := "";
    for i := 0 to |payload|
      invariant out == Rendered(payload[..i])
    {
      assert payload[..i + 1][..i] == payload[..i];
      var text := "";
      if payload[i].Envelope? {
        text := RenderEnvelope(payload[i]);
      } else if payload[i].Junk? {
        text := Shown(payload[i]);
      }
      out := out + text;
    }
    assert payload[..|payload|] == payload;
  }

  lemma {:induction false} BodyNewlines(lines: seq<string>)
    requires forall b :: b in lines ==> '\n' !in b
    ensures Newlines(BodyText(lines)) == |lines|
  {
    if lines != [] {
      var init, b := lines[..|lines| - 1], lines[|lines| - 1];
      BodyNewlines(init);
      NewlinesConcat(BodyText(init), BodyLine(b));
      NewlinesConcat(Marked(b), "\n");
      NewlinesNone(Marked(b));
      NewlinesOne('\n');
    }
  }

  lemma HeaderNewlines(e: Line)
    requires e.Envelope?
    ensures Newlines(Header(e)) >= 1
  {
    var front := Field(e.from) + " -> " + Field(e.to) + "   " + Field(e.ts);
    NewlinesConcat(front, "\n");
    NewlinesOne('\n');
  }

  /** An envelope is a header, at least one body line and a blank line, whatever its fields hold. */
  lemma EnvelopeIsLong(e: Line)
    requires e.Envelope?
    ensures Newlines(Shown(e)) >= 3 + Newlines(BodyOf(e))
  {
    var lines := Split(BodyOf(e), '\n');
    HeaderNewlines(e);
    SplitCounts(BodyOf(e));
    BodyNewlines(lines);
    NewlinesConcat(Header(e), BodyText(lines));
    NewlinesConcat(Header(e) + BodyText(lines), "\n");
    NewlinesOne('\n');
  }

  /** An unparsable line is shown, not swallowed: its start, under a mark no envelope and no heading begins with. */
  lemma JunkIsShown(text: string)
    ensures "  [unparseable] " + (if |text| <= 120 then text else text[..120]) <= Shown(Junk(text))
    ensures Newlines(Shown(Junk(text))) == 1 + Newlines(if |text| <= 120 then text else text[..120])
  {
    var cut := if |text| > 120 then text[..120] else text;
    NewlinesConcat(UNPARSEABLE + cut, "\n");
    NewlinesConcat(UNPARSEABLE, cut);
    NewlinesNone(UNPARSEABLE);
    NewlinesOne('\n');
  }

  lemma RenderedSnoc(a: seq<Line>, l: Line)
    ensures Rendered(a + [l]) == Rendered(a) + Shown(l)
  {
    assert (a + [l])[..|a|] == a;
  }

  lemma RenderedStep(a: seq<Line>, init: seq<Line>, l: Line, ra: string, ri: string, s: string)
    requires Rendered(a + init) == ra + ri && Rendered(init) == ri && s == Shown(l)
    ensures Rendered(a + init + [l]) == ra + (ri + s) && Rendered(init + [l]) == ri + s
  {
    RenderedSnoc(a + init, l);
    RenderedSnoc(init, l);
    Associates(ra, ri, s);
  }

  /** What is rendered of a payload is rendered line by line, in order. */
  lemma {:induction false} RenderedInOrder(a: seq<Line>, b: seq<Line>)
    ensures Rendered(a + b) == Rendered(a) + Rendered(b)
  {
    if b == [] {
      assert a + b == a;
      assert Rendered(a) + "" == Rendered(a);
    } else {
      var init, l := b[..|b| - 1], b[|b| - 1];
      assert a + b == a + init + [l] && b == init + [l];
      RenderedInOrder(a, init);
      RenderedStep(a, init, l, Rendered(a), Rendered(init), Shown(l));
    }
  }

  lemma Associates(a: string, b: string, c: string)
    ensures a + b + c == a + (b + c)
  {
  }

  /** A word behind a blank. */
  function Word(w: string, rest: string): string {
    w + [' '] + rest
  }

  lemma WordSplits(w: string, rest: string, pieces: seq<string>)
    requires ' ' !in w && Split(rest, ' ') == pieces
    ensures Split(Word(w, rest), ' ') == [w] + pieces
  {
    SplitConcat(w, ' ', rest);
    SplitLine(w, ' ');
  }

  lemma HeaderIsWords(from: string, to: string, ts: string)
    ensures from + " -> " + to + "   " + ts == Word(from, Word("->", Word(to, Word("", Word("", ts)))))
  {
    assert Word("", Word("", ts)) == "  " + ts;
    assert Word(to, "  " + ts) == to + ("   " + ts);
    assert Word("->", to + ("   " + ts)) == "-> " + (to + ("   " + ts));
    assert Word(from, "-> " + (to + ("   " + ts))) == from + (" -> " + (to + ("   " + ts)));
  }

  /** The first line of an envelope, split at its blanks. */
  lemma HeaderSplits(from: string, to: string, ts: string)
    requires ' ' !in from && ' ' !in to && ' ' !in ts
    ensures Split(from + " -> " + to + "   " + ts, ' ') == [from, "->", to, "", "", ts]
  {
    var stamp := Word("", Word("", ts));
    SplitLine(ts, ' ');
    WordSplits("", ts, [ts]);
    WordSplits("", Word("", ts), ["", ts]);
    WordSplits(to, stamp, ["", "", ts]);
    WordSplits("->", Word(to, stamp), [to, "", "", ts]);
    WordSplits(from, Word("->", Word(to, stamp)), ["->", to, "", "", ts]);
    HeaderIsWords(from, to, ts);
  }

  /**
   The header names both ends and the stamp, each in its place: of names and a
   stamp with no blank in them, they are read back from the first line; and a
   field the envelope lacks reads as a question mark.
   */
  lemma HeaderReadBack(e: Line)
    requires e.Envelope?
    requires forall f :: f in [e.from, e.to, e.ts] && f.Some? ==> ' ' !in f.value && '\n' !in f.value
    ensures var line := Split(Shown(e), '\n')[0];
            Split(line, ' ') == [if e.from.Some? then e.from.value else "?", "->",
                                 if e.to.Some? then e.to.value else "?", "", "",
                                 if e.ts.Some? then e.ts.value else "?"]
  {
    var from, to, ts := Field(e.from), Field(e.to), Field(e.ts);
    assert [e.from, e.to, e.ts][0] == e.from && [e.from, e.to, e.ts][1] == e.to && [e.from, e.to, e.ts][2] == e.ts;
    HeaderSplits(from, to, ts);
    var line := from + " -> " + to + "   " + ts;
    var rest := BodyText(Split(BodyOf(e), '\n')) + "\n";
    SplitLine(line, '\n');
    SplitConcat(line, '\n', rest);
    assert Shown(e) == line + ['\n'] + rest;
  }

  /** What a reader does with a body line: drop the mark, and one space where there is one. */
  function Unmarked(line: string): string {
    if |line| >= 2 then line[2..] else ""
  }

  function MarkedAll(lines: seq<string>): (r: seq<string>)
    ensures |r| == |lines| && forall i :: 0 <= i < |r| ==> r[i] == Marked(lines[i])
  {
    seq(|lines|, i requires 0 <= i < |lines| => Marked(lines[i]))
  }

  lemma {:induction false} BodySplits(lines: seq<string>)
    requires forall b :: b in lines ==> '\n' !in b
    ensures Split(BodyText(lines), '\n') == MarkedAll(lines) + [""]
  {
    if lines == [] {
      SplitLine("", '\n');
    } else {
      var init, b := lines[..|lines| - 1], lines[|lines| - 1];
      assert lines == init + [b];
      BodySplits(init);
      BodySplitsSnoc(init, b);
    }
  }

  lemma BodySplitsSnoc(init: seq<string>, b: string)
    requires '\n' !in b && Split(BodyText(init), '\n') == MarkedAll(init) + [""]
    ensures Split(BodyText(init + [b]), '\n') == MarkedAll(init + [b]) + [""]
  {
    BodyEnds(init);
    LineAppended(BodyText(init), MarkedAll(init), Marked(b));
    MarkedAllSnoc(init, b);
    assert (init + [b])[..|init|] == init;
  }

  lemma MarkedAllSnoc(init: seq<string>, b: string)
    ensures MarkedAll(init + [b]) + [""] == MarkedAll(init) + [Marked(b), ""]
  {
  }

  lemma BodyEnds(lines: seq<string>)
    ensures BodyText(lines) == "" || BodyText(lines)[|BodyText(lines)| - 1] == '\n'
  {
  }

  /** One more line after finished ones. */
  lemma LineAppended(text: string, marks: seq<string>, mark: string)
    requires '\n' !in mark && Split(text, '\n') == marks + [""]
    requires text != "" ==> text[|text| - 1] == '\n'
    ensures Split(text + (mark + "\n"), '\n') == marks + [mark, ""]
  {
    OneLineSplits(mark);
    if text == "" {
      assert text + (mark + "\n") == mark + "\n";
      SplitLine("", '\n');
    } else {
      SplitAfter(text, marks, mark + "\n");
    }
  }

  function UnmarkedAll(marks: seq<string>): (r: seq<string>)
    ensures |r| == |marks| && forall i :: 0 <= i < |r| ==> r[i] == Unmarked(marks[i])
  {
    seq(|marks|, i requires 0 <= i < |marks| => Unmarked(marks[i]))
  }

  lemma MarksComeOff(lines: seq<string>)
    ensures UnmarkedAll(MarkedAll(lines)) == lines
  {
  }

  /** Every rendered body line is marked, and the body is read back from the lines exactly. */
  lemma BodyReadBack(body: string)
    ensures var marks := MarkedAll(Split(body, '\n'));
            && Split(BodyText(Split(body, '\n')), '\n') == marks + [""]
            && (forall i :: 0 <= i < |marks| ==> '+' == marks[i][0])
            && UnmarkedAll(marks) != [] && Join(UnmarkedAll(marks), '\n') == body
  {
    var lines := Split(body, '\n');
    BodySplits(lines);
    MarksComeOff(lines);
    JoinSplit(body, '\n');
  }

  // ---------------------------------------------------------------- counting

  const QUEUE_PREFIX: string := "── queue."
  const TOPICS_PREFIX: string := "── topics ──"
  const TOPICS_HEADING: string := TOPICS_PREFIX + "\n"
  /** What the peek's trailer says behind the prefix: anything on one line. */
  type Remark = s: string | '\n' !in s

  function PeekTrailer(remark: Remark): string {
    TOPICS_PREFIX + remark + "\n"
  }

  function QueueHeading(me: string): string {
    QUEUE_PREFIX + me + " ──" + "\n"
  }

  /** Exactly one line: one newline, and it is the last character. */
  predicate OneLine(p: string) {
    Newlines(p) == 1 && p != "" && p[|p| - 1] == '\n'
  }

  /** What the counter takes for a heading. */
  predicate IsHeading(p: string) {
    OneLine(p) && (QUEUE_PREFIX <= p || TOPICS_PREFIX <= p)
  }

  datatype Counter = Counter(inQueue: bool, n: nat)

  function Wrote(c: Counter, p: string): Counter {
    if OneLine(p) && QUEUE_PREFIX <= p then c.(inQueue := true)
    else if OneLine(p) && TOPICS_PREFIX <= p then c.(inQueue := false)
    else if c.inQueue then c.(n := c.n + 1)
    else c
  }

  function WroteAll(c: Counter, ps: seq<string>): Counter {
    if ps == [] then c else Wrote(WroteAll(c, ps[..|ps| - 1]), ps[|ps| - 1])
  }

  lemma {:induction false} WroteConcat(c: Counter, ps: seq<string>, qs: seq<string>)
    ensures WroteAll(c, ps + qs) == WroteAll(WroteAll(c, ps), qs)
  {
    if qs == [] {
      assert ps + qs == ps;
    } else {
      assert (ps + qs)[..|ps + qs| - 1] == ps + qs[..|qs| - 1];
      WroteConcat(c, ps, qs[..|qs| - 1]);
    }
  }

  /** Counts the messages handed over out of the queue and passes everything through. */
  class QueueCount {
    var inQueue: bool
    var n: nat
    var sink: string

    ghost function State(): Counter
      reads this
    {
      Counter(inQueue, n)
    }

    constructor ()
      ensures State() == Counter(false, 0) && sink == ""
    {
      inQueue, n, sink := false, 0, "";
    }

    method Write(p: string)
      modifies this
      ensures State() == Wrote(old(State()), p) && sink == old(sink) + p
    {
      if OneLine(p) && QUEUE_PREFIX <= p {
        inQueue := true;
      } else if OneLine(p) && TOPICS_PREFIX <= p {
        inQueue := false;
      } else if inQueue {
        n := n + 1;
      }
      sink := sink + p;
    }
  }

  /** How a read goes on after the queue: not at all, with the peek's trailer, or with the rooms. */
  datatype Tail = Abandoned | Peeked(remark: Remark) | Rooms(topics: seq<seq<Line>>)

  function Texts(payloads: seq<seq<Line>>): seq<string> {
    seq(|payloads|, i requires 0 <= i < |payloads| => Rendered(payloads[i]))
  }

  function TailTexts(tail: Tail): seq<string> {
    match tail
    case Abandoned => []
    case Peeked(remark) => [PeekTrailer(remark)]
    case Rooms(topics) => [TOPICS_HEADING] + Texts(topics)
  }

  /** Every write of one plain read, one call each. */
  function Writes(me: string, queue: seq<seq<Line>>, tail: Tail): seq<string> {
    [QueueHeading(me)] + Texts(queue) + TailTexts(tail)
  }

  lemma {:induction false} RenderedShape(payload: seq<Line>)
    ensures var out := Rendered(payload); out == "" || out[0] == ' ' || Newlines(out) >= 3
  {
    if payload != [] {
      var init, l := Rendered(payload[..|payload| - 1]), payload[|payload| - 1];
      RenderedShape(payload[..|payload| - 1]);
      NewlinesConcat(init, Shown(l));
      if l.Envelope? {
        EnvelopeIsLong(l);
      }
    }
  }

  /** What is rendered is never taken for a heading, whatever its sender called itself. */
  lemma NeverAHeading(payload: seq<Line>)
    ensures !IsHeading(Rendered(payload))
  {
    RenderedShape(payload);
  }

  /** Messages only ever add to the count, one each, and only behind the queue's heading. */
  lemma {:induction false} MessagesCount(c: Counter, ps: seq<string>)
    requires forall i :: 0 <= i < |ps| ==> !IsHeading(ps[i])
    ensures WroteAll(c, ps) == if c.inQueue then c.(n := c.n + |ps|) else c
  {
    if ps != [] {
      MessagesCount(c, ps[..|ps| - 1]);
    }
  }

  lemma TextsCount(c: Counter, payloads: seq<seq<Line>>)
    ensures WroteAll(c, Texts(payloads)) == if c.inQueue then c.(n := c.n + |payloads|) else c
  {
    forall i | 0 <= i < |payloads|
      ensures !IsHeading(Texts(payloads)[i])
    {
      NeverAHeading(payloads[i]);
    }
    MessagesCount(c, Texts(payloads));
  }

  lemma HeadingShape(me: string)
    ensures OneLine(QueueHeading(me)) <==> '\n' !in me
    ensures QUEUE_PREFIX <= QueueHeading(me) && !(TOPICS_PREFIX <= QueueHeading(me))
  {
    var p := QueueHeading(me);
    NewlinesConcat(QUEUE_PREFIX + me + " ──", "\n");
    NewlinesConcat(QUEUE_PREFIX + me, " ──");
    NewlinesConcat(QUEUE_PREFIX, me);
    NewlinesNone(QUEUE_PREFIX);
    NewlinesNone(" ──");
    NewlinesNone(me);
    NewlinesOne('\n');
    assert p[3] == 'q' && TOPICS_PREFIX[3] == 't';
  }

  lemma FinishedLine(p: string)
    requires '\n' !in p
    ensures OneLine(p + "\n")
  {
    NewlinesNone(p);
    NewlinesConcat(p, "\n");
    NewlinesOne('\n');
  }

  lemma ClosingShape(remark: Remark)
    ensures var p := PeekTrailer(remark); OneLine(p) && TOPICS_PREFIX <= p && !(QUEUE_PREFIX <= p)
  {
    FinishedLine(TOPICS_PREFIX + remark);
    assert PeekTrailer(remark)[3] == TOPICS_PREFIX[3] != QUEUE_PREFIX[3];
  }

  lemma TailCounts(c: Counter, tail: Tail)
    ensures WroteAll(c, TailTexts(tail)).n == c.n
  {
    match tail
    case Abandoned =>
    case Peeked(remark) =>
      ClosingShape(remark);
      assert [PeekTrailer(remark)][..0] == [];
    case Rooms(topics) =>
      ClosingShape("");
      assert TOPICS_HEADING == PeekTrailer("");
      assert [TOPICS_HEADING][..0] == [];
      WroteConcat(c, [TOPICS_HEADING], Texts(topics));
      TextsCount(WroteAll(c, [TOPICS_HEADING]), topics);
  }

  const FRESH := Counter(false, 0)

  /** The count is the number of queue messages shown when the reader's own name is one line, and 0 otherwise. */
  lemma HandedExactly(me: string, queue: seq<seq<Line>>, tail: Tail)
    ensures WroteAll(FRESH, Writes(me, queue, tail)).n == if '\n' in me then 0 else |queue|
  {
    var head, shown, rest := [QueueHeading(me)], Texts(queue), TailTexts(tail);
    HeadingShape(me);
    assert head[..0] == [];
    var opened' := WroteAll(FRESH, head);
    WroteConcat(FRESH, head, shown);
    WroteConcat(FRESH, head + shown, rest);
    TextsCount(opened', queue);
    TailCounts(WroteAll(opened', shown), tail);
  }

  /** So it is right exactly when the reader's name is one line or there was nothing to count. */
  lemma HandedIsShownIff(me: string, queue: seq<seq<Line>>, tail: Tail)
    ensures WroteAll(FRESH, Writes(me, queue, tail)).n == |queue| <==> '\n' !in me || queue == []
  {
    HandedExactly(me, queue, tail);
  }

  /** A server serves valid endpoints only, and for those the count is always right. */
  lemma ServedSeatsAreCountedRight(me: string, queue: seq<seq<Line>>, tail: Tail)
    requires C.ValidEndpoint(me)
    ensures WroteAll(FRESH, Writes(me, queue, tail)).n == |queue|
  {
    var i := C.IndexOf(me, '.');
    assert me == me[..i] + ['.'] + me[i + 1..];
    HandedExactly(me, queue, tail);
  }

  /** A reader whose unvalidated name holds a newline takes a message and is credited with none. */
  lemma TwoLineNameUndercounts()
    ensures WroteAll(FRESH, Writes("a\nb", [[Junk("x")]], Rooms([]))).n == 0
  {
    assert "a\nb"[1] == '\n';
    HandedExactly("a\nb", [[Junk("x")]], Rooms([]));
  }

  /** Renders each message and writes it in one call. */
  method ShowAll(c: QueueCount, payloads: seq<seq<Line>>)
    modifies c
    ensures c.State() == WroteAll(old(c.State()), Texts(payloads))
  {
    ghost var was, texts := c.State(), Texts(payloads);
    for i := 0 to |payloads|
      invariant c.State() == WroteAll(was, texts[..i])
    {
      var text := Render(payloads[i]);
      assert texts[..i + 1][..i] == texts[..i] && text == texts[i];
      c.Write(text);
    }
    assert texts[..|payloads|] == texts;
  }

  /** A read as the counter sees it. */
  method Show(me: string, queue: seq<seq<Line>>, tail: Tail) returns (c: QueueCount)
    ensures c.State() == WroteAll(FRESH, Writes(me, queue, tail))
    ensures c.n == if '\n' in me then 0 else |queue|
  {
    c := new QueueCount();
    c.Write(QueueHeading(me));
    ghost var head, shown, rest := [QueueHeading(me)], Texts(queue), TailTexts(tail);
    assert head[..0] == [];
    ShowAll(c, queue);
    WroteConcat(FRESH, head, shown);
    WroteConcat(FRESH, head + shown, rest);
    HandedExactly(me, queue, tail);
    match tail {
      case Abandoned =>
      case Peeked(remark) =>
        c.Write(PeekTrailer(remark));
        assert rest[..0] == [];
      case Rooms(topics) =>
        c.Write(TOPICS_HEADING);
        ghost var opening := [TOPICS_HEADING];
        assert opening[..0] == [];
        ShowAll(c, topics);
        WroteConcat(WroteAll(FRESH, head + shown), opening, Texts(topics));
    }
  }
}
