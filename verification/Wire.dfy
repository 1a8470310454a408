/** From sentences to bytes and back: what a well-behaved node sends is what the
    handler delivers. */
module Wire {
  import opened Wrappers
  import opened Framing
  import opened LineSpec
  import opened HandlerSpec
  import opened RegistrySpec
  import Nmea
  import TagBlock
  import Text

  /** A sentence a node sends, with or without a tag block in front. */
  datatype Item = Item(sentence: string, tag: Option<TagBlock.Tag>) {
    function Shown(): string {
      if tag.Some? then tag.value.Render(sentence) else sentence
    }

    function SourceId(): Option<string> {
      if tag.Some? then Some(tag.value.id) else None
    }
  }

  /** Accepted, already trimmed, plain ASCII on one line, behind a well-formed tag
      block if any. */
  predicate Sendable(i: Item) {
    && Nmea.Accepted(i.sentence) && Trimmed(i.sentence)
    && Nmea.IsAscii(i.Shown()) && '\n' !in i.Shown()
    && (i.tag.Some? ==> i.tag.value.WellFormed())
  }

  predicate IsLineEnd(c: char) {
    var ends := Text.LineEnd;
    ends.Has(c)
  }

  predicate Trimmed(s: string) {
    s != "" && !IsLineEnd(s[|s| - 1])
  }

  function Encode(s: string): (r: seq<Byte>)
    requires Nmea.IsAscii(s)
    ensures |r| == |s| && forall k :: 0 <= k < |s| ==> r[k] == s[k] as int
  {
    seq(|s|, k requires 0 <= k < |s| => s[k] as int)
  }

  lemma {:induction false} DecodeEncode(s: string)
    requires Nmea.IsAscii(s)
    ensures DecodeAscii(Encode(s)) == s
  {
    if s != "" {
      assert Encode(s)[1..] == Encode(s[1..]);
      DecodeEncode(s[1..]);
    }
  }

  /** The line on the wire up to its newline. */
  function RawLine(i: Item): seq<Byte>
    requires Sendable(i)
  {
    Encode(i.Shown() + "\r")
  }

  function RawLines(items: seq<Item>): (r: seq<seq<Byte>>)
    requires forall i :: i in items ==> Sendable(i)
    ensures |r| == |items|
  {
    if items == [] then [] else [RawLine(items[0])] + RawLines(items[1..])
  }

  /** The items as CRLF lines. */
  function Render(items: seq<Item>): seq<Byte>
    requires forall i :: i in items ==> Sendable(i)
  {
    Rebuild(RawLines(items), [])
  }

  /** The text of the stream: each sentence with its tag block, carriage return, line
      feed. */
  function CrLfText(items: seq<Item>): string {
    if items == [] then "" else items[0].Shown() + "\r\n" + CrLfText(items[1..])
  }

  /** The stream is that text, byte by byte. */
  lemma {:induction false} RenderIsCrLf(items: seq<Item>)
    requires forall i :: i in items ==> Sendable(i)
    ensures Nmea.IsAscii(CrLfText(items)) && Render(items) == Encode(CrLfText(items))
  {
    if items != [] {
      var line, rest := items[0].Shown(), CrLfText(items[1..]);
      assert Sendable(items[0]);
      RenderIsCrLf(items[1..]);
      assert RawLines(items)[1..] == RawLines(items[1..]);
      assert Render(items) == RawLine(items[0]) + [NEWLINE] + Render(items[1..]);
      EncodeLine(line, rest);
    }
  }

  lemma EncodeLine(line: string, rest: string)
    requires Nmea.IsAscii(line) && Nmea.IsAscii(rest)
    ensures Nmea.IsAscii(line + "\r") && Nmea.IsAscii(line + "\r\n" + rest)
    ensures Encode(line + "\r") + [NEWLINE] + Encode(rest) == Encode(line + "\r\n" + rest)
  {
  }

  lemma NoNewlineEncoded(text: string)
    requires Nmea.IsAscii(text) && '\n' !in text
    ensures NEWLINE !in Encode(text + "\r")
  {
    var line := text + "\r";
    forall k | 0 <= k < |line| ensures Encode(line)[k] != NEWLINE {
      assert line[k] == '\r' || line[k] in text;
    }
  }

  lemma StripReturn(s: string)
    requires s != "" && !IsLineEnd(s[0]) && !IsLineEnd(s[|s| - 1])
    ensures Text.Strip(s + "\r", Text.LineEnd) == s
  {
    var t := s + "\r";
    assert Text.FirstKept(t, Text.LineEnd, 0) == 0;
    assert t[0..] == t;
    assert Text.LastKept(t, Text.LineEnd, |t|) == |s|;
  }

  lemma AcceptedStart(s: string)
    requires Nmea.Accepted(s)
    ensures s != "" && s[0] == '!'
  {
  }

  lemma TextEnds(i: Item)
    requires i.sentence != "" && i.sentence[0] == '!' && Trimmed(i.sentence)
    ensures var t := i.Shown(); t != "" && !IsLineEnd(t[0]) && !IsLineEnd(t[|t| - 1])
  {
    var t := i.Shown();
    assert t[|t| - 1] == i.sentence[|i.sentence| - 1];
    assert t[0] == (if i.tag.Some? then '\\' else '!');
  }

  lemma StripItem(i: Item)
    requires i.sentence != "" && i.sentence[0] == '!' && (i.tag.Some? ==> i.tag.value.WellFormed())
    ensures TagBlock.StripTagBlock(i.Shown()) == TagBlock.Stripped(i.sentence, i.SourceId())
  {
    if i.tag.Some? { TagBlock.TagRoundTrip(i.tag.value, i.sentence); }
  }

  lemma RawText(text: string)
    requires Nmea.IsAscii(text) && text != "" && !IsLineEnd(text[0]) && !IsLineEnd(text[|text| - 1])
    ensures LineText(Encode(text + "\r")) == text
  {
    DecodeEncode(text + "\r");
    StripReturn(text);
  }

  lemma OutcomeIs(raw: seq<Byte>, text: string, sentence: string, id: Option<string>, accepted: bool)
    requires LineText(raw) == text != "" && TagBlock.StripTagBlock(text) == TagBlock.Stripped(sentence, id)
    requires accepted == Nmea.Accepted(sentence)
    ensures OutcomeOf(raw) == Line(id, sentence, accepted)
  {
  }

  lemma ShownOutcome(i: Item, accepted: bool)
    requires i.sentence != "" && i.sentence[0] == '!' && Trimmed(i.sentence) && Nmea.IsAscii(i.Shown())
    requires (i.tag.Some? ==> i.tag.value.WellFormed()) && accepted == Nmea.Accepted(i.sentence)
    ensures OutcomeOf(Encode(i.Shown() + "\r")) == Line(i.SourceId(), i.sentence, accepted)
  {
    TextEnds(i);
    RawText(i.Shown());
    StripItem(i);
    OutcomeIs(Encode(i.Shown() + "\r"), i.Shown(), i.sentence, i.SourceId(), accepted);
  }

  lemma ItemOutcome(i: Item)
    requires Sendable(i)
    ensures OutcomeOf(RawLine(i)) == Line(i.SourceId(), i.sentence, true)
  {
    AcceptedStart(i.sentence);
    ShownOutcome(i, true);
  }

  function SentencesOf(items: seq<Item>): seq<string> {
    if items == [] then [] else [items[0].sentence] + SentencesOf(items[1..])
  }

  lemma {:induction false} RawOutcomes(items: seq<Item>)
    requires forall i :: i in items ==> Sendable(i)
    ensures Sentences(Outcomes(RawLines(items))) == SentencesOf(items)
    ensures Rejected(Outcomes(RawLines(items))) == 0
    ensures NoNewlines(RawLines(items))
  {
    if items != [] {
      RawOutcomes(items[1..]);
      ItemOutcome(items[0]);
      NoNewlineEncoded(items[0].Shown());
      assert RawLines(items)[1..] == RawLines(items[1..]);
      SummariesConcat([OutcomeOf(RawLine(items[0]))], Outcomes(RawLines(items[1..])));
      assert Sentences([OutcomeOf(RawLine(items[0]))]) == [items[0].sentence] + Sentences([]);
      assert Rejected([OutcomeOf(RawLine(items[0]))]) == Rejected([]);
    }
  }

  lemma RenderedStream(items: seq<Item>, chunks: seq<Chunk>)
    requires forall i :: i in items ==> Sendable(i)
    requires Received(Datas(chunks)) == Render(items)
    ensures Sentences(StreamOutcomes([], chunks)) == SentencesOf(items) && Rejected(StreamOutcomes([], chunks)) == 0
  {
    RawOutcomes(items);
    FramingIsUnique(RawLines(items), []);
    assert [] + Render(items) == Render(items);
  }

  lemma SaneSession(s: Session, chunks: seq<Chunk>)
    requires Sane(s) && s.delivered == []
    ensures var t, os := AfterStream(s, [], chunks), StreamOutcomes([], chunks);
      && !t.raised && Texts(t.delivered) == Sentences(os)
      && Moved(s.nodes, t.nodes, |Sentences(os)|, Rejected(os), |Received(Datas(chunks))|)
  {
    SaneDeliveries(s, chunks);
    SessionAccounts(s, [], chunks);
  }

  lemma SaneDeliveries(s: Session, chunks: seq<Chunk>)
    requires Sane(s) && s.delivered == []
    ensures var t := AfterStream(s, [], chunks);
      !t.raised && Texts(t.delivered) == Sentences(StreamOutcomes([], chunks))
  {
    SessionDelivers(s, [], chunks);
    EmptyFront(Texts(s.delivered), Sentences(StreamOutcomes([], chunks)));
  }

  lemma EmptyFront(a: seq<string>, b: seq<string>)
    requires a == []
    ensures a + b == b
  {
  }

  /** Whatever the registry holds and however the stream of CRLF lines is cut into
      chunks, the session delivers exactly the sentences sent, in order, and the
      registry's totals grow by their number, by no invalid line, and by every
      byte. */
  lemma WireRoundTrip(items: seq<Item>, chunks: seq<Chunk>, m: Table, peer: string, host: string, now: int)
    requires WellFormed(m) && forall i :: i in items ==> Sendable(i)
    requires Received(Datas(chunks)) == Render(items)
    ensures var s := Opened(m, peer, host, now); var t := AfterStream(s, [], chunks);
      && Sentences(StreamOutcomes([], chunks)) == SentencesOf(items)
      && !t.raised && Texts(t.delivered) == SentencesOf(items)
      && Moved(s.nodes, t.nodes, |items|, 0, |Render(items)|)
  {
    OpenedSane(m, peer, host, now);
    SaneSession(Opened(m, peer, host, now), chunks);
    RenderedStream(items, chunks);
    SentencesCount(items);
  }

  lemma {:induction false} SentencesCount(items: seq<Item>)
    ensures |SentencesOf(items)| == |items|
  {
    if items != [] { SentencesCount(items[1..]); }
  }
}
