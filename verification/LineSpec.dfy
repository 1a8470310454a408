/** What one received line amounts to. */
module LineSpec {
  import opened Wrappers
  import opened Framing
  import Nmea
  import TagBlock
  import Text

  /** `raw.decode("ascii", errors="ignore")`. */
  function DecodeAscii(raw: seq<Byte>): string {
    if raw == [] then [] else (if raw[0] < 128 then [raw[0] as char] else []) + DecodeAscii(raw[1..])
  }

  function LineText(raw: seq<Byte>): string {
    Text.Strip(DecodeAscii(raw), Text.LineEnd)
  }

  /** Nothing, or a sentence that is accepted or not, with the identity in front
      of it. */
  datatype Outcome = Blank | Line(sourceId: Option<string>, sentence: string, accepted: bool)

  function OutcomeOf(raw: seq<Byte>): Outcome {
    var text := LineText(raw);
    if text == "" then Blank else
      var t := TagBlock.StripTagBlock(text);
      Line(t.sourceId, t.sentence, Nmea.Accepted(t.sentence))
  }

  function Map<A, B>(f: A -> B, s: seq<A>): (r: seq<B>)
    ensures |r| == |s|
  {
    if s == [] then [] else [f(s[0])] + Map(f, s[1..])
  }

  lemma {:induction false} MapConcat<A, B>(f: A -> B, a: seq<A>, b: seq<A>)
    ensures Map(f, a + b) == Map(f, a) + Map(f, b)
  {
    if a == [] {
      assert a + b == b;
    } else {
      MapConcat(f, a[1..], b);
      assert (a + b)[1..] == a[1..] + b && (a + b)[0] == a[0];
    }
  }

  function Outcomes(lines: seq<seq<Byte>>): seq<Outcome> {
    Map(OutcomeOf, lines)
  }

  lemma OutcomesConcat(a: seq<seq<Byte>>, b: seq<seq<Byte>>)
    ensures Outcomes(a + b) == Outcomes(a) + Outcomes(b)
  {
    MapConcat(OutcomeOf, a, b);
  }

  // ------------------------------------------------------- what decoding drops

  /** The line without its bytes of 128 and more. */
  function AsciiOnly(raw: seq<Byte>): (r: seq<Byte>) {
    if raw == [] then [] else (if raw[0] < 128 then [raw[0]] else []) + AsciiOnly(raw[1..])
  }

  /** Bytes outside ASCII leave no trace: a line reads the same without them. */
  lemma {:induction false} NonAsciiIgnored(raw: seq<Byte>)
    ensures DecodeAscii(AsciiOnly(raw)) == DecodeAscii(raw) && LineText(AsciiOnly(raw)) == LineText(raw)
    ensures OutcomeOf(AsciiOnly(raw)) == OutcomeOf(raw)
  {
    DecodeAsciiOnly(raw);
  }

  lemma {:induction false} DecodeAsciiOnly(raw: seq<Byte>)
    ensures DecodeAscii(AsciiOnly(raw)) == DecodeAscii(raw)
    ensures |DecodeAscii(raw)| == |AsciiOnly(raw)|
    ensures forall k :: 0 <= k < |AsciiOnly(raw)| ==>
      AsciiOnly(raw)[k] < 128 && DecodeAscii(raw)[k] == AsciiOnly(raw)[k] as char
  {
    if raw != [] {
      DecodeAsciiOnly(raw[1..]);
      var rest := AsciiOnly(raw[1..]);
      if raw[0] < 128 {
        assert AsciiOnly(raw) == [raw[0]] + rest && ([raw[0]] + rest)[1..] == rest;
      } else {
        assert AsciiOnly(raw) == rest;
      }
    }
  }

  /** A single such byte can be put anywhere in a line. */
  lemma {:induction false} ByteDropped(a: seq<Byte>, b: Byte, c: seq<Byte>)
    requires b >= 128
    ensures DecodeAscii(a + [b] + c) == DecodeAscii(a + c) && OutcomeOf(a + [b] + c) == OutcomeOf(a + c)
  {
    DecodeConcat(a + [b], c);
    DecodeConcat(a, [b]);
    DecodeConcat(a, c);
    assert DecodeAscii([b]) == [] + DecodeAscii([]);
  }

  lemma {:induction false} DecodeConcat(a: seq<Byte>, b: seq<Byte>)
    ensures DecodeAscii(a + b) == DecodeAscii(a) + DecodeAscii(b)
  {
    if a == [] {
      assert a + b == b;
    } else {
      DecodeConcat(a[1..], b);
      var first := if a[0] < 128 then [a[0] as char] else [];
      assert (a + b)[1..] == a[1..] + b && (a + b)[0] == a[0];
      Framed(first, DecodeAscii(a[1..]), DecodeAscii(b));
    }
  }

  lemma Framed(a: string, b: string, c: string)
    ensures (a + b) + c == a + (b + c)
  {
  }

  /** A line counts for nothing exactly when, bytes outside ASCII aside, it holds only
      tabs, line feeds, carriage returns and spaces. */
  lemma BlankIff(raw: seq<Byte>)
    ensures OutcomeOf(raw).Blank? <==> forall k :: 0 <= k < |raw| ==> raw[k] >= 128 || raw[k] in {9, 10, 13, 32}
  {
    var text := DecodeAscii(raw);
    BlankText(text);
    if forall k :: 0 <= k < |raw| ==> raw[k] >= 128 || raw[k] in {9, 10, 13, 32} {
      DecodedFrom(raw);
    } else {
      var k :| 0 <= k < |raw| && raw[k] < 128 && raw[k] !in {9, 10, 13, 32};
      DecodedAt(raw, k);
    }
  }

  lemma BlankText(text: string)
    ensures Text.Strip(text, Text.LineEnd) == "" <==> Text.AllOf(text, Text.LineEnd)
  {
    Text.StripCuts(text, Text.LineEnd);
    if Text.AllOf(text, Text.LineEnd) {
      assert text + "" + "" == text;
      Text.StripExactly(text, "", "", Text.LineEnd);
    }
  }

  lemma {:induction false} DecodedFrom(raw: seq<Byte>)
    requires forall k :: 0 <= k < |raw| ==> raw[k] >= 128 || raw[k] in {9, 10, 13, 32}
    ensures Text.AllOf(DecodeAscii(raw), Text.LineEnd)
  {
    if raw != [] { DecodedFrom(raw[1..]); }
  }

  lemma {:induction false} DecodedAt(raw: seq<Byte>, k: nat)
    requires k < |raw| && raw[k] < 128
    ensures raw[k] as char in DecodeAscii(raw)
  {
    if k > 0 { DecodedAt(raw[1..], k - 1); }
  }

  // ------------------------------------------------------------- summaries

  /** The sentences the lines deliver. */
  function Sentences(os: seq<Outcome>): seq<string> {
    if os == [] then [] else Delivered(os[0]) + Sentences(os[1..])
  }

  function Delivered(o: Outcome): seq<string> {
    if o.Line? && o.accepted then [o.sentence] else []
  }

  /** How many lines are neither blank nor accepted. */
  function Rejected(os: seq<Outcome>): nat {
    if os == [] then 0 else (if os[0].Line? && !os[0].accepted then 1 else 0) + Rejected(os[1..])
  }

  lemma {:induction false} SummariesConcat(a: seq<Outcome>, b: seq<Outcome>)
    ensures Sentences(a + b) == Sentences(a) + Sentences(b)
    ensures Rejected(a + b) == Rejected(a) + Rejected(b)
  {
    if a == [] {
      assert a + b == b;
    } else {
      assert Sentences(a + b) == Delivered(a[0]) + Sentences((a + b)[1..]);
      SummariesConcat(a[1..], b);
      assert (a + b)[1..] == a[1..] + b && (a + b)[0] == a[0];
    }
  }
}
