/** NMEA 0183 sentences: the XOR checksum, the canonical form that serves as
    the duplicate key, and the structural parse that decides acceptance. */
module Nmea {
  import opened Wrappers
  import opened Text
  import opened Numbers

  // --------------------------------------------------------------- checksum

  /** `a ^ b` on non-negative integers. */
  function Xor(a: nat, b: nat): nat
    decreases a + b
  {
    if a == 0 && b == 0 then 0 else 2 * Xor(a / 2, b / 2) + (a + b) % 2
  }

  lemma XorBits(a: nat, b: nat)
    ensures Xor(a, b) / 2 == Xor(a / 2, b / 2) && Xor(a, b) % 2 == (a + b) % 2
  {
  }

  lemma HalvesEqual(x: nat, y: nat)
    requires x / 2 == y / 2 && x % 2 == y % 2
    ensures x == y
  {
  }

  lemma ParityUndo(a: nat, b: nat, x: nat)
    requires x % 2 == (a + b) % 2
    ensures (x + b) % 2 == a % 2
  {
  }

  lemma {:induction false} XorUndo(a: nat, b: nat)
    ensures Xor(Xor(a, b), b) == a
    decreases a + b
  {
    if a != 0 || b != 0 {
      XorUndo(a / 2, b / 2);
      XorBits(a, b);
      XorBits(Xor(a, b), b);
      ParityUndo(a, b, Xor(a, b));
      HalvesEqual(Xor(Xor(a, b), b), a);
    }
  }

  lemma {:induction false} XorCommutes(a: nat, b: nat)
    ensures Xor(a, b) == Xor(b, a)
    decreases a + b
  {
    if a != 0 || b != 0 { XorCommutes(a / 2, b / 2); }
  }

  lemma {:induction false} XorBound(a: nat, b: nat, k: nat)
    requires a < Pow2(k) && b < Pow2(k)
    ensures Xor(a, b) < Pow2(k)
    decreases a + b
  {
    if a != 0 || b != 0 { XorBound(a / 2, b / 2, k - 1); }
  }

  lemma ParityShift(a: nat, b: nat, c: nat, x: nat, y: nat)
    requires x % 2 == (a + b) % 2 && y % 2 == (b + c) % 2
    ensures (x + c) % 2 == (a + y) % 2
  {
  }

  lemma {:induction false} XorAssociates(a: nat, b: nat, c: nat)
    ensures Xor(Xor(a, b), c) == Xor(a, Xor(b, c))
    decreases a + b + c
  {
    if a != 0 || b != 0 || c != 0 {
      XorAssociates(a / 2, b / 2, c / 2);
      XorBits(a, b);
      XorBits(b, c);
      XorBits(Xor(a, b), c);
      XorBits(a, Xor(b, c));
      ParityShift(a, b, c, Xor(a, b), Xor(b, c));
      HalvesEqual(Xor(Xor(a, b), c), Xor(a, Xor(b, c)));
    }
  }

  lemma {:induction false} XorZero(a: nat)
    ensures Xor(0, a) == a && Xor(a, 0) == a
  {
    if a != 0 { XorZero(a / 2); }
  }

  /** A number changes another one unless it is zero. */
  lemma XorFixes(p: nat, r: nat)
    ensures Xor(p, r) == r <==> p == 0
  {
    XorZero(r);
    XorUndo(p, r);
    XorUndo(0, r);
  }

  /** Bit k of a number. */
  function BitOf(a: nat, k: nat): nat {
    if k == 0 then a % 2 else BitOf(a / 2, k - 1)
  }

  lemma {:induction false} BitOfPower(a: nat, k: nat)
    ensures BitOf(a, k) == a / Pow2(k) % 2
  {
    if k > 0 {
      BitOfPower(a / 2, k - 1);
      HalfDiv(a, Pow2(k - 1));
    }
  }

  lemma HalfDiv(a: nat, p: int)
    requires p > 0
    ensures a / (2 * p) == a / 2 / p
  {
    var q, r := a / 2 / p, a / 2 % p;
    assert a / 2 == p * q + r;
    var rest := 2 * r + a % 2;
    assert a == 2 * (a / 2) + a % 2;
    Doubles(p, q);
    assert a == q * (2 * p) + rest && 0 <= rest < 2 * p;
    DivMod(q, 2 * p, rest);
  }

  lemma Doubles(p: int, q: int)
    ensures 2 * (p * q) == q * (2 * p)
  {
  }

  /** Bit by bit: set exactly when the bits of the two numbers differ. */
  lemma {:induction false} XorBitwise(a: nat, b: nat, k: nat)
    ensures BitOf(Xor(a, b), k) == if BitOf(a, k) == BitOf(b, k) then 0 else 1
    decreases k
  {
    XorBits(a, b);
    if k > 0 {
      XorBitwise(a / 2, b / 2, k - 1);
      HigherBit(Xor(a, b), Xor(a / 2, b / 2), k);
      HigherBit(a, a / 2, k);
      HigherBit(b, b / 2, k);
    } else {
      LowBit(a, b, Xor(a, b));
    }
  }

  lemma HigherBit(x: nat, half: nat, k: nat)
    requires x / 2 == half && k > 0
    ensures BitOf(x, k) == BitOf(half, k - 1)
  {
  }

  lemma LowBit(a: nat, b: nat, x: nat)
    requires x % 2 == (a + b) % 2
    ensures BitOf(x, 0) == if BitOf(a, 0) == BitOf(b, 0) then 0 else 1
  {
  }

  /** The XOR of all character codes. */
  function XorOf(s: string): nat {
    if s == [] then 0 else Xor(XorOf(s[..|s| - 1]), s[|s| - 1] as int)
  }

  lemma {:induction false} XorOfConcat(a: string, b: string)
    ensures XorOf(a + b) == Xor(XorOf(a), XorOf(b))
  {
    if b == [] {
      assert a + b == a;
      XorZero(XorOf(a));
    } else {
      var n := |b| - 1;
      assert (a + b)[..|a + b| - 1] == a + b[..n];
      XorOfConcat(a, b[..n]);
      XorAssociates(XorOf(a), XorOf(b[..n]), b[n] as int);
    }
  }

  function Take2(s: string): string {
    if |s| <= 2 then s else s[..2]
  }

  /** Whether the two characters after the last `*` spell the XOR of the body. */
  function ChecksumOk(sentence: string): bool {
    match FindLast(sentence, '*')
    case None => false
    case Some(i) => PyInt(Take2(sentence[i + 1..]), 16) == Some(XorOf(DropLeft(sentence[..i], StartMark)))
  }

  method ValidateChecksum(sentence: string) returns (ok: bool)
    ensures ok == ChecksumOk(sentence)
  {
    var star := FindLast(sentence, '*');
    if star.None? {
      return false;
    }
    var cs := XorLoop(DropLeft(sentence[..star.value], StartMark));
    var stated := PyInt(Take2(sentence[star.value + 1..]), 16);
    return stated == Some(cs);
  }

  method XorLoop(body: string) returns (cs: nat)
    ensures cs == XorOf(body)
  {
    cs := 0;
    for i := 0 to |body|
      invariant cs == XorOf(body[..i])
    {
      assert body[..i + 1][..i] == body[..i];
      cs := Xor(cs, body[i] as int);
    }
    assert body[..|body|] == body;
  }

  lemma {:induction false} XorOfInjective(a: string, x: char, y: char, c: string)
    requires XorOf(a + [x] + c) == XorOf(a + [y] + c)
    ensures x == y
  {
    if c == [] {
      var v := XorOf(a);
      assert (a + [x] + c)[..|a|] == a && (a + [y] + c)[..|a|] == a;
      XorCommutes(v, x as int);
      XorCommutes(v, y as int);
      XorUndo(x as int, v);
      XorUndo(y as int, v);
    } else {
      var n := |c| - 1;
      var s, t := a + [x] + c, a + [y] + c;
      assert s[..|s| - 1] == a + [x] + c[..n] && t[..|t| - 1] == a + [y] + c[..n];
      XorUndo(XorOf(a + [x] + c[..n]), c[n] as int);
      XorUndo(XorOf(a + [y] + c[..n]), c[n] as int);
      XorOfInjective(a, x, y, c[..n]);
    }
  }

  // ------------------------------------------------------------------ parse

  datatype Parsed = Parsed(sentenceType: string, fragmentCount: int, fragmentNumber: int,
                           messageId: string, channel: string, payload: string,
                           fillBits: int, checksumOk: bool)

  predicate IsTalker(t: string) {
    t in ["AIVDM", "AIVDO", "BSVDM", "ABVDM", "ANVDM", "ARVDM", "AXVDM"]
  }

  predicate AisPrefix(s: string) {
    |s| >= 7 && s[0] == '!' && IsTalker(s[1..6]) && s[6] == ','
  }

  function Head(s: string): string {
    match Find(s, '*', 0)
    case None => s
    case Some(i) => s[..i]
  }

  function FillBits(field: string): int {
    var n := PyInt(field, 10);
    if IsDigits(field) && n.Some? then n.value else 0
  }

  function Parse(s: string): Option<Parsed> {
    if !AisPrefix(s) then None else
      var parts := Split(Head(s), ',');
      if |parts| < 7 then None else
        var count, number := PyInt(parts[1], 10), PyInt(parts[2], 10);
        if count.None? || number.None? then None else
          Some(Parsed(parts[0], count.value, number.value, parts[3], parts[4], parts[5],
                      FillBits(parts[6]), ChecksumOk(s)))
  }

  /** What `_handle_line` lets through. */
  predicate Accepted(s: string) {
    var p := Parse(s);
    p.Some? && p.value.checksumOk
  }

  // ------------------------------------------------- rendering and its parse

  function HexDigit(v: nat): char
    requires v < 16
  {
    "0123456789ABCDEF"[v]
  }

  function Hex2(v: nat): string
    requires v < 256
  {
    [HexDigit(v / 16), HexDigit(v % 16)]
  }

  lemma Hex2Parses(v: nat)
    requires v < 256
    ensures PyInt(Hex2(v), 16) == Some(v) && Take2(Hex2(v)) == Hex2(v)
  {
    var s := Hex2(v);
    HexDigitValue(v / 16);
    HexDigitValue(v % 16);
    assert Strip(s, IntWhite) == s;
    var cs := Codes(s, 16);
    assert cs[0] == Digit(v / 16) && cs[1] == Digit(v % 16);
    assert ParseCodes(cs[..1], 16) == Some(v / 16);
  }

  lemma HexDigitValue(v: nat)
    requires v < 16
    ensures DigitValue(HexDigit(v), 16) == Some(v)
    ensures !IsSpace(HexDigit(v)) && HexDigit(v) !in "+-_*"
  {
    if v < 10 {
      assert HexDigit(v) == ('0' as int + v) as char;
    } else {
      assert HexDigit(v) == ('A' as int + v - 10) as char;
    }
  }

  predicate IsAscii(s: string) {
    forall i :: 0 <= i < |s| ==> s[i] < 128 as char
  }

  lemma {:induction false} XorOfAscii(s: string)
    requires IsAscii(s)
    ensures XorOf(s) < 128
  {
    if s != [] {
      XorOfAscii(s[..|s| - 1]);
      assert Pow2(7) == 128;
      XorBound(XorOf(s[..|s| - 1]), s[|s| - 1] as int, 7);
    }
  }

  /** A body with its checksum appended. */
  function Sealed(body: string): string
    requires IsAscii(body)
  {
    XorOfAscii(DropLeft(body, StartMark));
    body + "*" + Hex2(XorOf(DropLeft(body, StartMark)))
  }

  lemma SealedIsOk(body: string)
    requires IsAscii(body)
    ensures ChecksumOk(Sealed(body))
  {
    var v := XorOf(DropLeft(body, StartMark));
    XorOfAscii(DropLeft(body, StartMark));
    Hex2Parses(v);
    HexDigitValue(v / 16);
    HexDigitValue(v % 16);
    BodyTail(body, Hex2(v));
    ChecksumParts(Sealed(body));
  }

  predicate PlainField(s: string) {
    IsAscii(s) && ',' !in s && '*' !in s
  }

  function Fields(p: Parsed): seq<string>
    requires p.fragmentCount >= 0 && p.fragmentNumber >= 0 && p.fillBits >= 0
  {
    [p.sentenceType, Decimal(p.fragmentCount), Decimal(p.fragmentNumber), p.messageId, p.channel, p.payload,
     Decimal(p.fillBits)]
  }

  predicate Renderable(p: Parsed) {
    && p.fragmentCount >= 0 && p.fragmentNumber >= 0 && p.fillBits >= 0 && p.checksumOk
    && |p.sentenceType| == 6 && p.sentenceType[0] == '!' && IsTalker(p.sentenceType[1..])
    && PlainField(p.messageId) && PlainField(p.channel) && PlainField(p.payload)
  }

  lemma DigitsArePlain(s: string)
    requires IsDigits(s)
    ensures PlainField(s)
  {
  }

  lemma {:induction false} JoinPlain(parts: seq<string>)
    requires parts != [] && forall p :: p in parts ==> PlainField(p)
    ensures IsAscii(Join(parts, ',')) && '*' !in Join(parts, ',')
  {
    assert PlainField(parts[0]);
    if |parts| > 1 { JoinPlain(parts[1..]); }
  }

  lemma FieldsArePlain(p: Parsed)
    requires Renderable(p)
    ensures forall f :: f in Fields(p) ==> PlainField(f)
  {
    DigitsArePlain(Decimal(p.fragmentCount));
    DigitsArePlain(Decimal(p.fragmentNumber));
    DigitsArePlain(Decimal(p.fillBits));
    var t := p.sentenceType;
    assert t == ['!'] + t[1..];
    TalkerIsPlain(t[1..]);
    assert PlainField(t);
  }

  lemma TalkerIsPlain(t: string)
    requires IsTalker(t)
    ensures PlainField(t)
  {
  }

  /** A sentence rendered from its fields and sealed parses back to them. */
  lemma ParseRendered(p: Parsed)
    requires Renderable(p)
    ensures var body := Join(Fields(p), ','); IsAscii(body) && Parse(Sealed(body)) == Some(p)
  {
    var fields := Fields(p);
    var body := Join(fields, ',');
    FieldsArePlain(p);
    JoinPlain(fields);
    var s := Sealed(body);
    FindIs(s, '*', 0, |body|);
    assert s[..|body|] == body;
    assert Head(s) == body;
    SplitJoin(fields, ',');
    PrefixOfRendered(p, s);
    PyIntOfDecimal(p.fragmentCount);
    PyIntOfDecimal(p.fragmentNumber);
    PyIntOfDecimal(p.fillBits);
    SealedIsOk(body);
  }

  lemma PrefixOfRendered(p: Parsed, s: string)
    requires Renderable(p) && |s| >= |Join(Fields(p), ',')| && s[..|Join(Fields(p), ',')|] == Join(Fields(p), ',')
    ensures AisPrefix(s)
  {
    var body := Join(Fields(p), ',');
    var rest := Join(Fields(p)[1..], ',');
    assert body == p.sentenceType + [','] + rest;
    assert forall i :: 0 <= i < 7 ==> s[i] == body[i];
    assert s[1..6] == p.sentenceType[1..];
  }

  /** The seven sentence types, with the start mark. */
  predicate IsAisType(t: string) {
    t == "!AIVDM" || t == "!AIVDO" || t == "!BSVDM" || t == "!ABVDM" || t == "!ANVDM" || t == "!ARVDM" || t == "!AXVDM"
  }

  lemma TypeIsTalker(t: string)
    ensures IsAisType(t) <==> |t| == 6 && t[0] == '!' && IsTalker(t[1..])
  {
    if |t| == 6 && t[0] == '!' {
      MarkedTalker(t[1..]);
      assert t == "!" + t[1..];
    }
  }

  lemma MarkedTalker(t: string)
    ensures IsTalker(t) <==> IsAisType("!" + t)
  {
    if IsAisType("!" + t) { assert ("!" + t)[1..] == t; }
  }

  /** A sentence is accepted only if one of the seven types stands before its first
      comma, with the start mark in front and nothing before that. */
  lemma AcceptedTypes(s: string)
    ensures AisPrefix(s) <==> |s| >= 7 && IsAisType(s[..6]) && s[6] == ','
    ensures Parse(s).Some? ==> AisPrefix(s)
    ensures Accepted(s) ==> AisPrefix(s)
  {
    if |s| >= 7 {
      TypeIsTalker(s[..6]);
      assert s[..6][1..] == s[1..6];
    }
  }

  /** A sentence of any of the seven types, with plain fields and its checksum, is
      accepted and read back; with any other type in front it is refused. */
  lemma TypeDecides(p: Parsed)
    requires p.fragmentCount >= 0 && p.fragmentNumber >= 0 && p.fillBits >= 0 && p.checksumOk
    requires PlainField(p.sentenceType) && PlainField(p.messageId) && PlainField(p.channel) && PlainField(p.payload)
    ensures var body := Join(Fields(p), ',');
      && IsAscii(body) && (Accepted(Sealed(body)) <==> IsAisType(p.sentenceType))
      && Parse(Sealed(body)) == if IsAisType(p.sentenceType) then Some(p) else None
  {
    var body := Join(Fields(p), ',');
    TypeIsTalker(p.sentenceType);
    if IsAisType(p.sentenceType) {
      ParseRendered(p);
    } else {
      DigitsArePlain(Decimal(p.fragmentCount));
      DigitsArePlain(Decimal(p.fragmentNumber));
      DigitsArePlain(Decimal(p.fillBits));
      JoinPlain(Fields(p));
      OtherTypeRefused(p.sentenceType, Sealed(body));
    }
  }

  lemma OtherTypeRefused(t: string, s: string)
    requires ',' !in t && !IsAisType(t) && |s| > |t| && s[..|t|] == t && s[|t|] == ','
    ensures !AisPrefix(s) && Parse(s).None? && !Accepted(s)
  {
    AcceptedTypes(s);
    if AisPrefix(s) { TypeHasNoComma(s[..6]); }
  }

  lemma TypeHasNoComma(t: string)
    requires IsAisType(t)
    ensures ',' !in t
  {
  }

  predicate OnlyDigits(field: string) {
    field != "" && forall k :: 0 <= k < |field| ==> field[k] in "0123456789"
  }

  /** The fill bits are the number the field spells if it holds nothing but digits, and
      zero otherwise, as for a sign or white space. */
  lemma FillBitsExactly(field: string)
    ensures FillBits(field) == if OnlyDigits(field) then Positional(DigitsIn(Codes(field, 10)), 10) else 0
  {
    if OnlyDigits(field) {
      AllDigits(field);
      PyIntOfDigits(field);
      ParseCodesExactly(Codes(field, 10), 10);
    } else if IsDigits(field) {
      forall k | 0 <= k < |field| ensures field[k] in "0123456789" {
        DigitTable(field[k]);
      }
    }
  }

  lemma AllDigits(field: string)
    requires OnlyDigits(field)
    ensures IsNumeral(Codes(field, 10)) && IsDigits(field)
  {
    forall k | 0 <= k < |field| ensures '0' <= field[k] <= '9' && Codes(field, 10)[k].Digit? {
      DigitTable(field[k]);
    }
  }

  /** What any sentence parses to: its text before the first star, cut at the commas,
      must have seven parts or more, a known type and two numbers. */
  lemma ParseOfParts(parts: seq<string>, tail: string)
    requires parts != [] && forall p :: p in parts ==> ',' !in p && '*' !in p
    requires tail == "" || tail[0] == '*'
    ensures var s := Join(parts, ',') + tail;
      Parse(s)
      == if |parts| >= 7 && IsAisType(parts[0]) && PyInt(parts[1], 10).Some? && PyInt(parts[2], 10).Some?
         then Some(Parsed(parts[0], PyInt(parts[1], 10).value, PyInt(parts[2], 10).value, parts[3], parts[4], parts[5],
                          FillBits(parts[6]), ChecksumOk(s)))
         else None
  {
    var body := Join(parts, ',');
    var s := body + tail;
    StarlessJoin(parts);
    HeadOf(body, tail);
    SplitJoin(parts, ',');
    if |parts| >= 7 { PrefixOfParts(parts, s); }
    ParseByParts(s, parts);
  }

  lemma ParseByParts(s: string, parts: seq<string>)
    requires Split(Head(s), ',') == parts && (|parts| >= 7 ==> (AisPrefix(s) <==> IsAisType(parts[0])))
    ensures Parse(s)
         == if |parts| >= 7 && IsAisType(parts[0]) && PyInt(parts[1], 10).Some? && PyInt(parts[2], 10).Some?
            then Some(Parsed(parts[0], PyInt(parts[1], 10).value, PyInt(parts[2], 10).value, parts[3], parts[4],
                             parts[5], FillBits(parts[6]), ChecksumOk(s)))
            else None
  {
  }

  lemma {:induction false} StarlessJoin(parts: seq<string>)
    requires parts != [] && forall p :: p in parts ==> '*' !in p
    ensures '*' !in Join(parts, ',')
  {
    assert parts[0] in parts;
    if |parts| > 1 { StarlessJoin(parts[1..]); }
  }

  lemma HeadOf(body: string, tail: string)
    requires '*' !in body && (tail == "" || tail[0] == '*')
    ensures Head(body + tail) == body
  {
    var s := body + tail;
    if tail == "" {
      assert s == body;
    } else {
      FindIs(s, '*', 0, |body|);
      assert s[..|body|] == body;
    }
  }

  lemma PrefixOfParts(parts: seq<string>, s: string)
    requires |parts| > 1 && forall p :: p in parts ==> ',' !in p
    requires |s| >= |Join(parts, ',')| && s[..|Join(parts, ',')|] == Join(parts, ',')
    ensures AisPrefix(s) <==> IsAisType(parts[0])
  {
    var t, body := parts[0], Join(parts, ',');
    assert t in parts;
    assert body == t + [','] + Join(parts[1..], ',');
    assert s[..|t|] == body[..|t|] == t && s[|t|] == body[|t|] == ',';
    AcceptedTypes(s);
    if IsAisType(t) {
      assert s[..6] == t;
    } else {
      OtherTypeRefused(t, s);
    }
  }

  lemma HeadSplits(s: string, k: nat)
    requires k + 1 < |Split(Head(s), ',')|
    ensures k < |Split(s, ',')| && Split(s, ',')[k] == Split(Head(s), ',')[k]
  {
    var head := Head(s);
    assert s == head + s[|head|..];
    SplitPrefix(head, s[|head|..], ',', k);
  }

  /** The payload of a parsed sentence is the sixth field of its text. */
  lemma PayloadIsFieldFive(s: string)
    requires Parse(s).Some?
    ensures |Split(s, ',')| > 5 && Split(s, ',')[5] == Parse(s).value.payload
  {
    assert |Split(Head(s), ',')| >= 7;
    HeadSplits(s, 5);
  }

  // --------------------------------------------------------- canonical form

  function Canonicalise(sentence: string): string {
    var s := Strip(sentence, White);
    match FindLast(s, '*')
    case None => s
    case Some(i) => s[..i] + "*" + Upper(Take2(s[i + 1..]))
  }

  /** The second character after the last `*` of the trimmed sentence is white
      space: then trimming the canonical form again cuts it. */
  predicate CutsAgain(sentence: string) {
    var s := Strip(sentence, White);
    var i := FindLast(s, '*');
    i.Some? && |s| > i.value + 2 && IsSpace(s[i.value + 2])
  }

  lemma UpperTwice(s: string)
    ensures Upper(Upper(s)) == Upper(s)
  {
  }

  /** Canonical form of a trimmed sentence body*tail. */
  lemma CanonicalOf(body: string, tail: string)
    requires '*' !in tail
    requires Strip(body + "*" + tail, White) == body + "*" + tail
    ensures Canonicalise(body + "*" + tail) == body + "*" + Upper(Take2(tail))
  {
    var s := body + "*" + tail;
    FindLastIs(s, '*', |body|);
    assert s[..|body|] == body && s[|body| + 1..] == tail;
  }

  lemma UpperKeepsStars(s: string)
    ensures '*' in Upper(s) <==> '*' in s
  {
    if '*' in s {
      var i :| 0 <= i < |s| && s[i] == '*';
      assert Upper(s)[i] == '*';
    }
  }

  lemma StripBounds(c: string)
    ensures |Strip(c, White)| <= |c|
    ensures c != [] && IsSpace(c[|c| - 1]) ==> |Strip(c, White)| < |c|
  {
    var d := DropLeft(c, White);
    var e := DropRight(d, White);
  }

  lemma CanonicalNoLonger(c: string)
    ensures |Canonicalise(c)| <= |Strip(c, White)|
  {
    var at := FindLast(Strip(c, White), '*');
  }

  lemma UpperEnds(tail: string)
    ensures var kept := Upper(Take2(tail));
      |kept| == |Take2(tail)| && (kept != [] ==> (IsSpace(kept[|kept| - 1]) <==> IsSpace(Take2(tail)[|kept| - 1])))
  {
    var t := Take2(tail);
    if t != [] { UpperDigit(t[|t| - 1], 16); }
  }

  /** Canonicalising twice is canonicalising once, unless the white space after
      the checksum digit falls inside the two characters kept. */
  lemma IdempotentIff(sentence: string)
    ensures Canonicalise(Canonicalise(sentence)) == Canonicalise(sentence) <==> !CutsAgain(sentence)
  {
    if CutsAgain(sentence) {
      CutShortens(sentence);
    } else {
      UncutStable(sentence);
    }
  }

  lemma CutShortens(sentence: string)
    requires CutsAgain(sentence)
    ensures |Canonicalise(Canonicalise(sentence))| < |Canonicalise(sentence)|
  {
    var s := Strip(sentence, White);
    var tail := s[FindLast(s, '*').value + 1..];
    var c := Canonicalise(sentence);
    UpperEnds(tail);
    assert c[|c| - 1] == Upper(Take2(tail))[1];
    StripBounds(c);
    CanonicalNoLonger(c);
  }

  lemma UncutStable(sentence: string)
    requires !CutsAgain(sentence)
    ensures Canonicalise(Canonicalise(sentence)) == Canonicalise(sentence)
  {
    var s := Strip(sentence, White);
    var at := FindLast(s, '*');
    assert Strip(s, White) == s;
    if at.Some? { StarStable(s, at.value); }
  }

  lemma StarStable(s: string, i: nat)
    requires FindLast(s, '*') == Some(i) && SolidEnds(s) && !(|s| > i + 2 && IsSpace(s[i + 2]))
    ensures var c := s[..i] + "*" + Upper(Take2(s[i + 1..])); Canonicalise(c) == c
  {
    var body, tail := s[..i], s[i + 1..];
    assert s == body + "*" + tail && '*' !in tail;
    CanonicalStable(body, tail);
  }

  predicate SolidEnds(s: string) {
    s != [] && !IsSpace(s[0]) && !IsSpace(s[|s| - 1])
  }

  lemma KeptSolid(body: string, tail: string)
    requires SolidEnds(body + "*" + tail) && !(|tail| >= 2 && IsSpace(tail[1]))
    ensures SolidEnds(body + "*" + Upper(Take2(tail)))
  {
    UpperEnds(tail);
    var s, c := body + "*" + tail, body + "*" + Upper(Take2(tail));
    assert c[0] == s[0];
    if tail != [] { assert s[|s| - 1] == tail[|tail| - 1]; }
  }

  lemma CanonicalStable(body: string, tail: string)
    requires '*' !in tail && SolidEnds(body + "*" + tail) && !(|tail| >= 2 && IsSpace(tail[1]))
    ensures var c := body + "*" + Upper(Take2(tail)); Canonicalise(c) == c
  {
    KeptSolid(body, tail);
    UpperKeepsStars(Take2(tail));
    UpperTwice(Take2(tail));
    CanonicalOf(body, Upper(Take2(tail)));
  }

  // ------------------------------------------- what the canonical form keeps

  predicate HasStar(s: string) {
    FindLast(s, '*').Some?
  }

  function Body(s: string): string
    requires HasStar(s)
  {
    s[..FindLast(s, '*').value]
  }

  function Tail(s: string): string
    requires HasStar(s)
  {
    s[FindLast(s, '*').value + 1..]
  }

  predicate Verdict(body: string, tail: string) {
    PyInt(Take2(tail), 16) == Some(XorOf(DropLeft(body, StartMark)))
  }

  lemma ChecksumParts(s: string)
    ensures ChecksumOk(s) == (HasStar(s) && Verdict(Body(s), Tail(s)))
  {
  }

  lemma SameTailSameVerdict(body: string, tail: string, tail': string)
    requires PyInt(Take2(tail), 16) == PyInt(Take2(tail'), 16)
    ensures Verdict(body, tail) == Verdict(body, tail')
  {
  }

  lemma Take2Twice(tail: string)
    ensures PyInt(Take2(Upper(Take2(tail))), 16) == PyInt(Take2(tail), 16)
  {
    UpperPyInt(Take2(tail));
  }

  lemma BodyTail(body: string, tail: string)
    requires '*' !in tail
    ensures HasStar(body + "*" + tail) && Body(body + "*" + tail) == body && Tail(body + "*" + tail) == tail
  {
    FindLastIs(body + "*" + tail, '*', |body|);
  }

  /** Trimming a sentence that starts solid keeps its body and cuts its tail. */
  lemma TrimKeepsBody(s: string)
    requires s != [] && !IsSpace(s[0]) && HasStar(s)
    ensures Strip(s, White) == Body(s) + "*" + DropRight(Tail(s), White)
  {
    var i := FindLast(s, '*').value;
    LastKeptTail(s, i + 1, |s|);
    CutAround(s, i, LastKept(s[i + 1..], White, |s| - i - 1));
    assert FirstKept(s, White, 0) == 0;
  }

  lemma CutAround(s: string, i: nat, n: nat)
    requires i < |s| && s[i] == '*' && n <= |s| - i - 1
    ensures s[..i + 1 + n] == s[..i] + "*" + s[i + 1..][..n]
  {
  }

  lemma {:induction false} LastKeptTail(s: string, from: nat, j: nat)
    requires 0 < from <= j <= |s| && !IsSpace(s[from - 1])
    ensures LastKept(s, White, j) == from + LastKept(s[from..], White, j - from)
  {
    if j > from && IsSpace(s[j - 1]) {
      LastKeptTail(s, from, j - 1);
    }
  }

  lemma Take2Prefix(tail: string, k: nat)
    requires 2 <= k <= |tail|
    ensures Take2(tail[..k]) == Take2(tail)
  {
  }

  /** Characters that str.strip takes for white space and int() does not. */
  predicate IsSeparator(c: char) {
    IsSpace(c) && !IsIntSpace(c)
  }

  /** One character stands after the last star, right before one that only
      trimming takes for white space. */
  predicate LoneBeforeSeparator(tail: string) {
    |DropRight(tail, White)| == 1 && |tail| >= 2 && IsSeparator(tail[1])
  }

  lemma Take2OfTrimmed(tail: string)
    requires !LoneBeforeSeparator(tail)
    ensures PyInt(Take2(tail), 16) == PyInt(Take2(DropRight(tail, White)), 16)
  {
    var k := LastKept(tail, White, |tail|);
    if k >= 2 {
      Take2Prefix(tail, k);
    } else if k == 1 {
      LoneStrips(tail);
    } else {
      BlankParses(Take2(tail));
      BlankParses(Take2(tail[..0]));
    }
  }

  lemma LoneStrips(tail: string)
    requires LastKept(tail, White, |tail|) == 1 && !LoneBeforeSeparator(tail)
    ensures PyInt(Take2(tail), 16) == PyInt(Take2(tail[..1]), 16)
  {
    var two := Take2(tail);
    assert tail[..1] == [tail[0]] == Take2(tail[..1]);
    if |tail| == 1 {
      assert two == [tail[0]];
    } else {
      assert two == [tail[0], tail[1]];
      OneStrips(tail[0], tail[1]);
    }
  }

  lemma OneStrips(a: char, b: char)
    requires !IsSpace(a) && IsIntSpace(b)
    ensures Strip([a, b], IntWhite) == Strip([a], IntWhite)
  {
    assert LastKept([a, b], IntWhite, 2) == 1;
    assert [a, b][..1] == [a];
  }

  /** White space alone is no number. */
  lemma BlankParses(s: string)
    requires AllOf(s, White) && |s| <= 2
    ensures PyInt(s, 16).None?
  {
    var t := Strip(s, IntWhite);
    StripCuts(s, IntWhite);
    if t != "" {
      assert t[|t| - 1] in s;
      NoDigitAtEnd(t);
    }
  }

  /** A text that ends in a separator is no number. */
  lemma NoDigitAtEnd(t: string)
    requires t != "" && IsSpace(t[|t| - 1])
    ensures Signed(t, 16).None?
  {
    var u := Unsigned(t);
    if u != "" {
      assert u[|u| - 1] == t[|t| - 1];
      assert Codes(u, 16)[|u| - 1] == Other;
    }
  }

  lemma SeparatorSpoils(tail: string)
    requires LoneBeforeSeparator(tail)
    ensures PyInt(Take2(tail), 16).None? && Take2(DropRight(tail, White)) == tail[..1]
  {
    var two := Take2(tail);
    assert two == [tail[0], tail[1]];
    assert LastKept(two, IntWhite, 2) == 2;
    assert DropRight(two, IntWhite) == two;
    var d := DropLeft(two, IntWhite);
    assert Strip(two, IntWhite) == two;
    NoDigitAtEnd(two);
  }

  /** The canonical form of a sentence with no leading white space has a good
      checksum exactly when the sentence has, unless a good one-digit checksum is
      followed at once by a character 28..31: then only the canonical form has. */
  lemma SolidKeepsVerdict(s: string)
    requires s == [] || !IsSpace(s[0])
    ensures ChecksumOk(Canonicalise(s)) == ChecksumOk(s)
      <==> !(HasStar(s) && LoneBeforeSeparator(Tail(s)) && Verdict(Body(s), Tail(s)[..1]))
    ensures HasStar(s) && !LoneBeforeSeparator(Tail(s)) ==> ChecksumOk(Canonicalise(s)) == ChecksumOk(s)
    ensures HasStar(s) && LoneBeforeSeparator(Tail(s)) ==> ChecksumOk(Canonicalise(s)) == Verdict(Body(s), Tail(s)[..1])
  {
    ChecksumParts(s);
    ChecksumParts(Canonicalise(s));
    if s != [] && HasStar(s) {
      CanonicalParts(s);
      var tail := DropRight(Tail(s), White);
      Take2Twice(tail);
      SameTailSameVerdict(Body(s), tail, Upper(Take2(tail)));
      if LoneBeforeSeparator(Tail(s)) {
        SeparatorSpoils(Tail(s));
        SameTailSameVerdict(Body(s), tail, Tail(s)[..1]);
      } else {
        Take2OfTrimmed(Tail(s));
        SameTailSameVerdict(Body(s), Tail(s), tail);
      }
    } else {
      StarlessTrim(s);
    }
  }

  /** The white space in front of the sentence. */
  function Margin(s: string): string {
    s[..FirstKept(s, White, 0)]
  }

  /** What the checksum covers before trimming and not after: the white space in
      front and the start marks behind it. */
  function Exposed(s: string): string
    requires HasStar(DropLeft(s, White))
  {
    if Margin(s) == "" then "" else
      var body := Body(DropLeft(s, White));
      Margin(s) + body[..FirstKept(body, StartMark, 0)]
  }

  lemma CanonicalSkipsMargin(s: string)
    ensures Canonicalise(s) == Canonicalise(DropLeft(s, White)) && s == Margin(s) + DropLeft(s, White)
  {
    StripTwice(s);
  }

  lemma StripTwice(s: string)
    ensures Strip(s, White) == Strip(DropLeft(s, White), White)
  {
    var d := DropLeft(s, White);
    assert FirstKept(d, White, 0) == 0 && d[0..] == d;
  }

  lemma StarBehindMargin(s: string)
    ensures HasStar(s) <==> HasStar(DropLeft(s, White))
    ensures HasStar(s) ==> Body(s) == Margin(s) + Body(DropLeft(s, White)) && Tail(s) == Tail(DropLeft(s, White))
  {
    var d := DropLeft(s, White);
    var m := |Margin(s)|;
    if HasStar(d) {
      FindLastIs(s, '*', m + FindLast(d, '*').value);
      assert s[..m + FindLast(d, '*').value] == Margin(s) + Body(d);
    } else {
      forall k | 0 <= k < |s| ensures s[k] != '*' {
        if k >= m { assert s[k] == d[k - m]; }
      }
    }
  }

  /** The trimmed characters count in the checksum unless they cancel out. */
  lemma MarginShifts(s: string)
    requires HasStar(DropLeft(s, White))
    ensures var body := Body(DropLeft(s, White));
      XorOf(DropLeft(Margin(s) + body, StartMark)) == XorOf(DropLeft(body, StartMark)) <==> XorOf(Exposed(s)) == 0
  {
    var m, body := Margin(s), Body(DropLeft(s, White));
    if m == "" {
      assert m + body == body;
    } else {
      var i := FirstKept(body, StartMark, 0);
      assert IsSpace(m[0]) && FirstKept(m + body, StartMark, 0) == 0;
      assert DropLeft(m + body, StartMark) == Exposed(s) + body[i..];
      XorOfConcat(Exposed(s), body[i..]);
      XorFixes(XorOf(Exposed(s)), XorOf(body[i..]));
    }
  }

  /** A sentence with a good checksum keeps it in canonical form if and only if the
      white space in front of it and the start marks behind that cancel out, as
      they do where there is no white space in front. */
  lemma GoodStaysGoodIff(s: string)
    requires ChecksumOk(s)
    ensures HasStar(DropLeft(s, White))
    ensures ChecksumOk(Canonicalise(s)) <==> XorOf(Exposed(s)) == 0
  {
    var d := DropLeft(s, White);
    ChecksumParts(s);
    StarBehindMargin(s);
    CanonicalSkipsMargin(s);
    SolidKeepsVerdict(d);
    ChecksumParts(d);
    MarginShifts(s);
    if LoneBeforeSeparator(Tail(d)) { SeparatorSpoils(Tail(d)); }
  }

  /** Over all sentences: the verdict on the canonical form is the same if and only
      if, in a sentence with a star, no good lone digit stands before a character
      28..31, and the trimmed front cancels out or the stated value fits neither
      the body nor the trimmed body. */
  lemma KeepsVerdict(s: string)
    ensures ChecksumOk(Canonicalise(s)) == ChecksumOk(s) <==> !HasStar(s) || VerdictStays(s)
  {
    var d := DropLeft(s, White);
    StarBehindMargin(s);
    CanonicalSkipsMargin(s);
    SolidKeepsVerdict(d);
    ChecksumParts(s);
    ChecksumParts(d);
    if HasStar(s) {
      MarginShifts(s);
      if LoneBeforeSeparator(Tail(d)) { SeparatorSpoils(Tail(d)); }
    } else {
      StarlessTrim(s);
      ChecksumParts(Canonicalise(s));
    }
  }

  predicate VerdictStays(s: string)
    requires HasStar(s)
  {
    var d := DropLeft(s, White);
    HasStar(d) &&
    if LoneBeforeSeparator(Tail(d)) then !Verdict(Body(d), Tail(d)[..1])
    else XorOf(Exposed(s)) == 0 || (!Verdict(Body(s), Tail(s)) && !Verdict(Body(d), Tail(d)))
  }

  /** Such an input: an empty body, its checksum 0 and the character 28. */
  lemma VerdictLost()
    ensures var s := ['*', '0', 28 as char];
      !ChecksumOk(s) && ChecksumOk(Canonicalise(s))
  {
    var s := ['*', '0', 28 as char];
    BodyTail("", ['0', 28 as char]);
    assert s == "" + "*" + ['0', 28 as char];
    assert Tail(s) == ['0', 28 as char] && Body(s) == "";
    LoneDigitParses(0);
    assert [HexDigit(0)] == "0" == Tail(s)[..1] == Take2(Tail(s)[..1]);
    assert LastKept(Tail(s), White, 2) == 1;
    assert XorOf(DropLeft("", StartMark)) == 0;
    SolidKeepsVerdict(s);
    SeparatorSpoils(Tail(s));
    ChecksumParts(s);
  }

  lemma OneSpace(body: string, s: string)
    requires body == " " && s == body + "*" + "20"
    ensures XorOf(body) == 32 && DropLeft(body, StartMark) == body
    ensures Margin(s) == body && HasStar(DropLeft(s, White)) && Exposed(s) == body
  {
    assert body[..0] == "";
    XorZero(32);
    assert FirstKept(s, White, 1) == 1 && s[..1] == body;
    assert DropLeft(s, White) == "" + "*" + "20";
    BodyTail("", "20");
  }

  lemma SpaceIsGood(body: string, s: string)
    requires body == " " && XorOf(DropLeft(body, StartMark)) == 32 && s == body + "*" + "20"
    ensures ChecksumOk(s)
  {
    assert Hex2(32) == "20";
    assert s == Sealed(body);
    SealedIsOk(body);
  }

  /** The other way round: with a space in front, a checksum that covers it is good,
      and no longer after trimming. */
  lemma VerdictLostByTrimming(s: string)
    requires s == " *20"
    ensures ChecksumOk(s) && !ChecksumOk(Canonicalise(s))
  {
    assert s == " " + "*" + "20";
    OneSpace(" ", s);
    SpaceIsGood(" ", s);
    GoodStaysGoodIff(s);
  }

  lemma CanonicalParts(s: string)
    requires s != [] && !IsSpace(s[0]) && HasStar(s)
    ensures var c := Canonicalise(s);
      HasStar(c) && Body(c) == Body(s) && Tail(c) == Upper(Take2(DropRight(Tail(s), White)))
  {
    var body, tail := Body(s), DropRight(Tail(s), White);
    TrimKeepsBody(s);
    BodyTail(body, tail);
    UpperKeepsStars(Take2(tail));
    BodyTail(body, Upper(Take2(tail)));
  }

  lemma StarlessTrim(s: string)
    requires !HasStar(s)
    ensures !HasStar(Strip(s, White))
  {
    var d := DropLeft(s, White);
    forall k | 0 <= k < |d| ensures d[k] != '*' {
      assert d[k] == s[|s| - |d| + k];
    }
  }

  /** Two hexadecimal digits follow the last `*`. */
  predicate TwoHex(s: string) {
    && HasStar(s) && |Tail(s)| >= 2
    && DigitValue(Tail(s)[0], 16).Some? && DigitValue(Tail(s)[1], 16).Some?
  }

  lemma TwoHexCanonical(s: string)
    requires s != [] && !IsSpace(s[0]) && TwoHex(s)
    ensures Canonicalise(s) == Body(s) + "*" + Upper(Tail(s)[..2]) && !CutsAgain(s)
  {
    var tail := Tail(s);
    var k := LastKept(tail, White, |tail|);
    assert !IsSpace(tail[0]) && !IsSpace(tail[1]);
    assert k >= 2;
    TrimKeepsBody(s);
    BodyTail(Body(s), tail[..k]);
    Take2Prefix(tail, k);
    assert Take2(tail) == tail[..2];
  }

  lemma TwoHexVerdict(s: string)
    requires s != [] && !IsSpace(s[0]) && TwoHex(s)
    ensures ChecksumOk(Canonicalise(s)) == ChecksumOk(s)
  {
    var tail := Tail(s);
    assert !IsSpace(tail[1]) && LastKept(tail, White, |tail|) >= 2;
    SolidKeepsVerdict(s);
  }

  function HexValue(t: string): int
    requires |t| == 2 && DigitValue(t[0], 16).Some? && DigitValue(t[1], 16).Some?
  {
    DigitValue(t[0], 16).value * 16 + DigitValue(t[1], 16).value
  }

  lemma HexPairParses(t: string)
    requires |t| == 2 && DigitValue(t[0], 16).Some? && DigitValue(t[1], 16).Some?
    ensures PyInt(t, 16) == Some(HexValue(t))
  {
    assert Strip(t, IntWhite) == t;
    var cs := Codes(t, 16);
    assert ParseCodes(cs[..1], 16) == Some(DigitValue(t[0], 16).value);
  }

  lemma HexPairUnique(t: string, u: string)
    requires |t| == |u| == 2
    requires DigitValue(t[0], 16).Some? && DigitValue(t[1], 16).Some?
    requires DigitValue(u[0], 16).Some? && DigitValue(u[1], 16).Some?
    requires HexValue(t) == HexValue(u)
    ensures Upper(t) == Upper(u)
  {
    assert DigitValue(t[0], 16) == DigitValue(u[0], 16) && DigitValue(t[1], 16) == DigitValue(u[1], 16);
    assert forall i :: 0 <= i < 2 ==> UpperChar(t[i]) == UpperChar(u[i]);
  }

  /** What the later arguments need of an accepted sentence. */
  predicate Sound(s: string) {
    AisPrefix(s) && ChecksumOk(s)
  }

  lemma AcceptedIsSound(s: string)
    requires Accepted(s)
    ensures Sound(s)
  {
  }

  lemma PairOfTail(s: string)
    requires ChecksumOk(s) && TwoHex(s)
    ensures HexValue(Tail(s)[..2]) == XorOf(DropLeft(Body(s), StartMark))
  {
    assert Take2(Tail(s)) == Tail(s)[..2];
    ChecksumParts(s);
    HexPairParses(Tail(s)[..2]);
  }

  lemma SamePair(s: string, t: string)
    requires ChecksumOk(s) && ChecksumOk(t) && TwoHex(s) && TwoHex(t) && Body(s) == Body(t)
    ensures Upper(Tail(s)[..2]) == Upper(Tail(t)[..2])
  {
    PairOfTail(s);
    PairOfTail(t);
    HexPairUnique(Tail(s)[..2], Tail(t)[..2]);
  }

  lemma SameCut(a: string, x: string, c: string, y: string)
    requires |x| == |y| && a + "*" + Upper(x) == c + "*" + Upper(y)
    ensures a == c
  {
    var s, t := a + "*" + Upper(x), c + "*" + Upper(y);
    assert s[..|a|] == a && t[..|c|] == c;
  }

  lemma SolidStart(s: string)
    requires Accepted(s)
    ensures s != [] && !IsSpace(s[0]) && ChecksumOk(s)
  {
    AcceptedIsSound(s);
  }

  lemma EqualKeysTwoHex(s: string, t: string)
    requires s != [] && !IsSpace(s[0]) && HasStar(s) && t != [] && !IsSpace(t[0]) && TwoHex(t)
    requires Canonicalise(s) == Canonicalise(t)
    ensures TwoHex(s)
  {
    CanonicalParts(s);
    CanonicalParts(t);
    TwoHexCanonical(t);
    BodyTail(Body(t), Upper(Tail(t)[..2]));
    var kept := Take2(DropRight(Tail(s), White));
    assert Upper(kept) == Upper(Tail(t)[..2]);
    UpperPairDigits(kept, Tail(t)[..2]);
  }

  lemma UpperPairDigits(x: string, y: string)
    requires |y| == 2 && DigitValue(y[0], 16).Some? && DigitValue(y[1], 16).Some? && Upper(x) == Upper(y)
    ensures |x| == 2 && DigitValue(x[0], 16).Some? && DigitValue(x[1], 16).Some?
  {
    assert |Upper(x)| == |Upper(y)|;
    assert UpperChar(x[0]) == Upper(y)[0] && UpperChar(x[1]) == Upper(y)[1];
    UpperDigit(x[0], 16);
    UpperDigit(x[1], 16);
    UpperDigit(y[0], 16);
    UpperDigit(y[1], 16);
  }

  /** A good copy of a sentence gets the key of the copy that spells its checksum
      with two digits if and only if it spells it with two digits too. */
  lemma CopySharesKeyIff(s: string, t: string)
    requires s != [] && !IsSpace(s[0]) && t != [] && !IsSpace(t[0])
    requires ChecksumOk(s) && ChecksumOk(t) && HasStar(s) && TwoHex(t) && Body(s) == Body(t)
    ensures Canonicalise(s) == Canonicalise(t) <==> TwoHex(s)
  {
    if TwoHex(s) {
      TwoHexCanonical(s);
      TwoHexCanonical(t);
      SamePair(s, t);
    } else if Canonicalise(s) == Canonicalise(t) {
      EqualKeysTwoHex(s, t);
    }
  }

  /** For accepted sentences whose checksum is written with two digits, the
      duplicate key identifies exactly the body, and is stable. */
  lemma SameKeyIffSameBody(s: string, t: string)
    requires Accepted(s) && Accepted(t) && TwoHex(s) && TwoHex(t)
    ensures Canonicalise(s) == Canonicalise(t) <==> Body(s) == Body(t)
    ensures Canonicalise(Canonicalise(s)) == Canonicalise(s) && ChecksumOk(Canonicalise(s))
  {
    SolidStart(s);
    SolidStart(t);
    SameBodyKeys(s, t);
    StableKey(s);
  }

  lemma StableKey(s: string)
    requires s != [] && !IsSpace(s[0]) && TwoHex(s) && ChecksumOk(s)
    ensures Canonicalise(Canonicalise(s)) == Canonicalise(s) && ChecksumOk(Canonicalise(s))
  {
    TwoHexCanonical(s);
    IdempotentIff(s);
    TwoHexVerdict(s);
  }

  lemma SameBodyKeys(s: string, t: string)
    requires s != [] && !IsSpace(s[0]) && t != [] && !IsSpace(t[0])
    requires ChecksumOk(s) && ChecksumOk(t) && TwoHex(s) && TwoHex(t)
    ensures Canonicalise(s) == Canonicalise(t) <==> Body(s) == Body(t)
  {
    if Body(s) == Body(t) {
      CopySharesKeyIff(s, t);
    } else if Canonicalise(s) == Canonicalise(t) {
      TwoHexCanonical(s);
      TwoHexCanonical(t);
      SameCut(Body(s), Tail(s)[..2], Body(t), Tail(t)[..2]);
    }
  }

  /** Whatever a gateway appends behind the two digits leaves the checksum good and
      the key that of the sentence without it. */
  lemma TrailerDropped(body: string, v: nat, trailer: string)
    requires body != [] && !IsSpace(body[0]) && '*' !in trailer
    requires v == XorOf(DropLeft(body, StartMark)) && v < 256
    ensures var s := body + "*" + (Hex2(v) + trailer); ChecksumOk(s) && Canonicalise(s) == body + "*" + Hex2(v)
  {
    var tail := Hex2(v) + trailer;
    HexPairIsUpper(v);
    Hex2Parses(v);
    assert Take2(tail) == Hex2(v) == tail[..2];
    BodyTail(body, tail);
    ChecksumParts(body + "*" + tail);
    TwoHexCanonical(body + "*" + tail);
  }

  lemma HexPairIsUpper(v: nat)
    requires v < 256
    ensures var t := Hex2(v); Upper(t) == t && t[0] != '*' && t[1] != '*'
    ensures DigitValue(Hex2(v)[0], 16).Some? && DigitValue(Hex2(v)[1], 16).Some?
  {
    HexDigitValue(v / 16);
    HexDigitValue(v % 16);
    DigitIsUpper(v / 16);
    DigitIsUpper(v % 16);
  }

  lemma DigitIsUpper(v: nat)
    requires v < 16
    ensures UpperChar(HexDigit(v)) == HexDigit(v)
  {
  }

  lemma LoneDigitParses(v: nat)
    requires v < 16
    ensures PyInt([HexDigit(v)], 16) == Some(v) && DropRight([HexDigit(v)], White) == [HexDigit(v)]
    ensures HexDigit(v) != '*'
  {
    HexDigitValue(v);
    var one := [HexDigit(v)];
    assert Strip(one, IntWhite) == one && Codes(one, 16)[0] == Digit(v);
  }

  /** Such copies exist: a checksum below 16 written with one digit is good, but
      has another key. */
  lemma UnpaddedKeyDiffers(body: string)
    requires IsAscii(body) && body != [] && !IsSpace(body[0]) && XorOf(DropLeft(body, StartMark)) < 16
    ensures var short := body + "*" + [HexDigit(XorOf(DropLeft(body, StartMark)))];
      ChecksumOk(short) && ChecksumOk(Sealed(body)) && Canonicalise(short) != Canonicalise(Sealed(body))
  {
    var v := XorOf(DropLeft(body, StartMark));
    SealedIsOk(body);
    ShortIsOk(body, v);
    ShortTail(body, v);
    SealedTail(body);
  }

  lemma ShortIsOk(body: string, v: nat)
    requires v == XorOf(DropLeft(body, StartMark)) && v < 16
    ensures ChecksumOk(body + "*" + [HexDigit(v)])
  {
    LoneDigitParses(v);
    BodyTail(body, [HexDigit(v)]);
    ChecksumParts(body + "*" + [HexDigit(v)]);
  }

  lemma ShortTail(body: string, v: nat)
    requires body != [] && !IsSpace(body[0]) && v < 16
    ensures var c := Canonicalise(body + "*" + [HexDigit(v)]); HasStar(c) && |Tail(c)| == 1
  {
    LoneDigitParses(v);
    BodyTail(body, [HexDigit(v)]);
    CanonicalParts(body + "*" + [HexDigit(v)]);
  }

  lemma SealedTail(body: string)
    requires IsAscii(body) && body != [] && !IsSpace(body[0])
    ensures var c := Canonicalise(Sealed(body)); HasStar(c) && |Tail(c)| == 2
  {
    var v := XorOf(DropLeft(body, StartMark));
    XorOfAscii(DropLeft(body, StartMark));
    HexDigitValue(v / 16);
    HexDigitValue(v % 16);
    PairTail(body, Hex2(v));
  }

  lemma PairTail(body: string, pair: string)
    requires body != [] && !IsSpace(body[0])
    requires |pair| == 2 && pair[0] != '*' && pair[1] != '*' && !IsSpace(pair[1])
    ensures var c := Canonicalise(body + "*" + pair); HasStar(c) && |Tail(c)| == 2
  {
    BodyTail(body, pair);
    CanonicalParts(body + "*" + pair);
    assert LastKept(pair, White, 2) == 2;
    assert pair[..2] == pair;
  }

  /** The checksum exposes any single altered character: two accepted sentences
      that state the same checksum and differ at most at one place of the body
      have the same body. */
  lemma SingleChangeExposed(s: string, t: string, i: nat)
    requires Accepted(s) && Accepted(t) && HasStar(s) && HasStar(t)
    requires Take2(Tail(s)) == Take2(Tail(t)) && |Body(s)| == |Body(t)| && i < |Body(s)|
    requires forall k :: 0 <= k < |Body(s)| && k != i ==> Body(s)[k] == Body(t)[k]
    ensures Body(s) == Body(t)
  {
    AcceptedIsSound(s);
    AcceptedIsSound(t);
    SoundBody(s);
    SoundBody(t);
    ChecksumParts(s);
    ChecksumParts(t);
    OneChangeSameXor(Body(s), Body(t), i);
  }

  lemma OneChangeSameXor(b: string, d: string, i: nat)
    requires |b| == |d| && i < |b| && b[0] == d[0] && XorOf(b[1..]) == XorOf(d[1..])
    requires forall k :: 0 <= k < |b| && k != i ==> b[k] == d[k]
    ensures b == d
  {
    if i > 0 {
      var head, rest := b[1..i], b[i + 1..];
      assert b[1..] == head + [b[i]] + rest;
      assert d[1..] == head + [d[i]] + rest;
      XorOfInjective(head, b[i], d[i], rest);
    }
  }

  lemma SoundBody(s: string)
    requires Sound(s)
    ensures HasStar(s) && |Body(s)| >= 7 && Body(s)[0] == '!'
    ensures DropLeft(Body(s), StartMark) == Body(s)[1..]
  {
    PrefixIsStarless(s);
    assert Body(s)[1] == s[1];
    assert FirstKept(Body(s), StartMark, 1) == 1;
  }

  lemma PrefixIsStarless(s: string)
    requires AisPrefix(s)
    ensures forall k :: 0 <= k < 7 ==> s[k] != '*'
    ensures s[1] in "AB"
  {
    var t := s[1..6];
    TalkerIsPlain(t);
    TalkerStart(t);
    assert s[1] == t[0] && s[2] == t[1] && s[3] == t[2] && s[4] == t[3] && s[5] == t[4];
  }

  lemma TalkerStart(t: string)
    requires IsTalker(t)
    ensures |t| == 5 && t[0] in "AB"
  {
  }
}
