/** The 6-bit AIS payload: its bit string, the fields read from it, and the UTC
    time of a base-station report. */
module Payload {
  import opened Wrappers
  import opened Calendar
  import opened Numbers

  type Bit = b: nat | b < 2

  function SixBit(c: char): (v: nat)
    ensures v < 64
  {
    var v := c as int - 48;
    (if v > 40 then v - 8 else v) % 64
  }

  /** `format(v, "06b")`. */
  function Format6(v: nat): (r: seq<Bit>)
    requires v < 64
    ensures |r| == 6
  {
    [v / 32, v / 16 % 2, v / 8 % 2, v / 4 % 2, v / 2 % 2, v % 2]
  }

  /** The six bits of every ASCII character, inside the alphabet and outside. */
  lemma SixBitTable(c: char)
    requires c < 128 as char
    ensures SixBit(c) == if c <= '/' then c as int + 16 else if c <= 'X' then c as int - '0' as int
                         else if c <= 'w' then c as int - '8' as int else c as int - 'x' as int
  {
  }

  function BitsOf(payload: string): (r: seq<Bit>)
    ensures |r| == 6 * |payload|
  {
    if payload == [] then [] else BitsOf(payload[..|payload| - 1]) + Format6(SixBit(payload[|payload| - 1]))
  }

  method Bits(payload: string) returns (out: seq<Bit>)
    ensures out == BitsOf(payload)
  {
    out := [];
    for i := 0 to |payload|
      invariant out == BitsOf(payload[..i])
    {
      assert payload[..i + 1][..i] == payload[..i];
      out := out + Format6(SixBit(payload[i]));
    }
    assert payload[..|payload|] == payload;
  }

  /** `int(bits, 2)`. */
  function Value(b: seq<Bit>): nat {
    if b == [] then 0 else 2 * Value(b[..|b| - 1]) + b[|b| - 1]
  }

  /** The payload read as one number in base 64. */
  function Base64Value(payload: string): nat {
    if payload == [] then 0
    else 64 * Base64Value(payload[..|payload| - 1]) + SixBit(payload[|payload| - 1])
  }

  // ----------------------------------------------------- bits as arithmetic

  lemma Doubled(v: nat, p: nat, q: nat)
    requires q == 2 * p
    ensures v * q == 2 * (v * p)
  {
  }

  lemma {:induction false} ValueOfConcat(a: seq<Bit>, b: seq<Bit>)
    ensures Value(a + b) == Value(a) * Pow2(|b|) + Value(b)
  {
    if b == [] {
      assert a + b == a;
    } else {
      var n := |b| - 1;
      ValueOfConcat(a, b[..n]);
      assert (a + b)[..|a + b| - 1] == a + b[..n];
      Doubled(Value(a), Pow2(n), Pow2(|b|));
    }
  }

  lemma {:induction false} ValueBound(b: seq<Bit>)
    ensures Value(b) < Pow2(|b|)
  {
    if b != [] { ValueBound(b[..|b| - 1]); }
  }

  lemma ValueOfSix(f: seq<Bit>)
    requires |f| == 6
    ensures Value(f) == 32 * (f[0] as int) + 16 * (f[1] as int) + 8 * (f[2] as int)
      + 4 * (f[3] as int) + 2 * (f[4] as int) + f[5] as int
  {
    assert f[..5][..4] == f[..4] && f[..4][..3] == f[..3] && f[..3][..2] == f[..2] && f[..2][..1] == f[..1];
    var a: int, b: int, c: int, d: int := f[0], f[1], f[2], f[3];
    assert Value(f[..1]) == a;
    assert Value(f[..2]) == 2 * a + b;
    assert Value(f[..3]) == 4 * a + 2 * b + c;
    assert Value(f[..4]) == 8 * a + 4 * b + 2 * c + d;
  }

  lemma SixBitsSum(v: nat)
    requires v < 64
    ensures 32 * (v / 32) + 16 * (v / 16 % 2) + 8 * (v / 8 % 2) + 4 * (v / 4 % 2) + 2 * (v / 2 % 2) + v % 2 == v
  {
    assert v / 16 == 2 * (v / 32) + v / 16 % 2;
    assert v / 8 == 2 * (v / 16) + v / 8 % 2;
    assert v / 4 == 2 * (v / 8) + v / 4 % 2;
    assert v / 2 == 2 * (v / 4) + v / 2 % 2;
  }

  lemma ValueOfFormat6(v: nat)
    requires v < 64
    ensures Value(Format6(v)) == v
  {
    ValueOfSix(Format6(v));
    SixBitsSum(v);
  }

  lemma {:induction false} ValueOfBits(payload: string)
    ensures Value(BitsOf(payload)) == Base64Value(payload)
  {
    if payload != [] {
      var n := |payload| - 1;
      ValueOfBits(payload[..n]);
      ValueOfFormat6(SixBit(payload[n]));
      ValueOfConcat(BitsOf(payload[..n]), Format6(SixBit(payload[n])));
      assert Pow2(6) == 64;
    }
  }

  lemma SliceValue(b: seq<Bit>, i: nat, j: nat)
    requires i <= j <= |b|
    ensures Value(b[i..j]) == Value(b) / Pow2(|b| - j) % Pow2(j - i)
  {
    var upper, tail := b[..j], b[j..];
    assert b == upper + tail;
    ValueOfConcat(upper, tail);
    ValueBound(tail);
    DivMod(Value(upper), Pow2(|tail|), Value(tail));
    LowSlice(upper, i);
    assert upper[i..] == b[i..j];
  }

  lemma LowSlice(b: seq<Bit>, i: nat)
    requires i <= |b|
    ensures Value(b[i..]) == Value(b) % Pow2(|b| - i)
  {
    assert b == b[..i] + b[i..];
    ValueOfConcat(b[..i], b[i..]);
    ValueBound(b[i..]);
    DivMod(Value(b[..i]), Pow2(|b| - i), Value(b[i..]));
  }

  /** Any slice of the bit string is the payload's base-64 number divided and
      reduced by powers of two. */
  lemma SliceIsDivMod(payload: string, i: nat, j: nat)
    requires i <= j <= 6 * |payload|
    ensures Value(BitsOf(payload)[i..j]) == Base64Value(payload) / Pow2(6 * |payload| - j) % Pow2(j - i)
  {
    ValueOfBits(payload);
    SliceValue(BitsOf(payload), i, j);
  }

  // ------------------------------------------------------------- the fields

  /** Type and MMSI; None when the payload is too short. */
  function MmsiAndType(payload: string): Option<(nat, nat)> {
    var b := BitsOf(payload);
    if |b| < 38 then None else Some((Value(b[8..38]), Value(b[0..6])))
  }

  datatype Utc = Utc(date: Date, hour: int, minute: int, second: int) {
    /** A date from 1970 on that datetime accepts, and a time of day. */
    predicate Valid() {
      date.Valid() && date.year >= 1970 && 0 <= hour < 24 && 0 <= minute < 60 && 0 <= second < 60
    }

    function Unix(): int
      requires Valid()
    {
      UnixTime(date, hour, minute, second)
    }
  }

  /** The instants a report can carry: from the first second of 1970 to the last of
      9999, each on a date that exists. */
  lemma InstantTable(u: Utc)
    ensures u.Valid() <==>
      && 1970 <= u.date.year <= 9999 && 1 <= u.date.month <= 12 && 1 <= u.date.day <= 31
      && (u.date.month in {4, 6, 9, 11} ==> u.date.day != 31)
      && (u.date.month == 2 ==> u.date.day <= 29)
      && (u.date.month == 2 && u.date.day == 29 ==>
            u.date.year % 4 == 0 && (u.date.year % 100 == 0 ==> u.date.year % 400 == 0))
      && 0 <= u.hour <= 23 && 0 <= u.minute <= 59 && 0 <= u.second <= 59
  {
    ValidMonthByMonth(u.date);
  }

  function UtcFields(b: seq<Bit>): Utc
    requires |b| >= 78
  {
    Utc(Date(Value(b[38..52]), Value(b[52..56]), Value(b[56..61])),
        Value(b[61..66]), Value(b[66..72]), Value(b[72..78]))
  }

  /** Range checks first, then datetime's own rejection of impossible dates. */
  function ExtractTimestamp(payload: string): Option<int> {
    var b := BitsOf(payload);
    if |b| < 6 then None else
      var msgType := Value(b[0..6]);
      if msgType !in {4, 11} || |b| < 80 then None else
        var u := UtcFields(b);
        if !(1 <= u.date.month <= 12 && 1 <= u.date.day <= 31 && u.hour < 24 && u.minute < 60
             && u.second < 60 && u.date.year >= 1970) then None
        else if !u.date.Valid() then None
        else Some(UnixTime(u.date, u.hour, u.minute, u.second))
  }

  /** The six UTC fields as one 40-bit number. */
  function UtcCode(payload: string): nat
    requires 6 * |payload| >= 78
  {
    Value(BitsOf(payload)[38..78])
  }

  function Code(u: Utc): int {
    ((((u.date.year * 16 + u.date.month) * 32 + u.date.day) * 32 + u.hour) * 64 + u.minute) * 64 + u.second
  }

  lemma ValueOfTwo(b: seq<Bit>, i: nat, j: nat, k: nat)
    requires i <= j <= k <= |b|
    ensures Value(b[i..k]) == Value(b[i..j]) * Pow2(k - j) + Value(b[j..k])
    ensures Value(b[j..k]) < Pow2(k - j)
  {
    assert b[i..k] == b[i..j] + b[j..k];
    ValueOfConcat(b[i..j], b[j..k]);
    ValueBound(b[j..k]);
  }

  lemma CodeOfFields(b: seq<Bit>)
    requires |b| >= 78
    ensures Value(b[38..78]) == Code(UtcFields(b))
    ensures UtcFields(b).date.month < 16 && UtcFields(b).date.day < 32 && UtcFields(b).hour < 32
  {
    SmallPowers();
    ValueOfTwo(b, 38, 52, 56);
    ValueOfTwo(b, 38, 56, 61);
    ValueOfTwo(b, 38, 61, 66);
    ValueOfTwo(b, 38, 66, 72);
    ValueOfTwo(b, 38, 72, 78);
  }

  /** A payload carries a time exactly when it is a type 4 or 11 report of at
      least fourteen characters whose fields are a real instant since 1970. */
  lemma TimestampExactlyWhen(payload: string)
    ensures ExtractTimestamp(payload).Some? <==>
      |payload| >= 14 && Base64Value(payload[..1]) in {4, 11} && UtcFields(BitsOf(payload)).Valid()
    ensures ExtractTimestamp(payload).Some? ==>
      ExtractTimestamp(payload).value == UtcFields(BitsOf(payload)).Unix() >= 0
  {
    if |payload| >= 14 {
      FirstCharacter(payload);
      CodeOfFields(BitsOf(payload));
      var u := UtcFields(BitsOf(payload));
      if u.Valid() { AfterEpoch(u); }
    }
  }

  /** Bits i..j of a number of the given length. */
  function BitRange(v: nat, bits: nat, i: nat, j: nat): nat
    requires i <= j <= bits
  {
    v / Pow2(bits - j) % Pow2(j - i)
  }

  lemma SliceIsRange(payload: string, i: nat, j: nat)
    requires i <= j <= 6 * |payload|
    ensures Value(BitsOf(payload)[i..j]) == BitRange(Base64Value(payload), 6 * |payload|, i, j)
  {
    SliceIsDivMod(payload, i, j);
  }

  function UtcOfNumber(v: nat, bits: nat): Utc
    requires bits >= 78
  {
    Utc(Date(BitRange(v, bits, 38, 52), BitRange(v, bits, 52, 56), BitRange(v, bits, 56, 61)),
        BitRange(v, bits, 61, 66), BitRange(v, bits, 66, 72), BitRange(v, bits, 72, 78))
  }

  lemma FieldsAreRanges(payload: string)
    requires |payload| >= 14
    ensures UtcFields(BitsOf(payload)) == UtcOfNumber(Base64Value(payload), 6 * |payload|)
    ensures Base64Value(payload[..1]) == BitRange(Base64Value(payload), 6 * |payload|, 0, 6)
  {
    FirstCharacter(payload);
    SliceIsRange(payload, 0, 6);
    SliceIsRange(payload, 38, 52);
    SliceIsRange(payload, 52, 56);
    SliceIsRange(payload, 56, 61);
    SliceIsRange(payload, 61, 66);
    SliceIsRange(payload, 66, 72);
    SliceIsRange(payload, 72, 78);
  }

  /** The time a payload carries, by arithmetic on its base-64 number. */
  lemma TimestampByArithmetic(payload: string)
    ensures |payload| < 14 ==> ExtractTimestamp(payload) == None
    ensures |payload| >= 14 ==>
      var v, bits := Base64Value(payload), 6 * |payload|;
      var u, msgType := UtcOfNumber(v, bits), BitRange(v, bits, 0, 6);
      ExtractTimestamp(payload)
      == if (msgType == 4 || msgType == 11) && u.Valid() then Some(u.Unix()) else None
  {
    if |payload| >= 14 {
      FieldsAreRanges(payload);
      TimestampCases(payload, Base64Value(payload[..1]), UtcFields(BitsOf(payload)));
    }
  }

  lemma TimestampCases(payload: string, msgType: nat, u: Utc)
    requires |payload| >= 14 && msgType == Base64Value(payload[..1]) && u == UtcFields(BitsOf(payload))
    ensures ExtractTimestamp(payload)
         == if (msgType == 4 || msgType == 11) && u.Valid() then Some(u.Unix()) else None
  {
    TimestampExactlyWhen(payload);
  }

  /** Type and MMSI the same way; seven characters are enough. */
  lemma MmsiByArithmetic(payload: string)
    ensures var v, bits := Base64Value(payload), 6 * |payload|;
      MmsiAndType(payload)
      == if |payload| < 7 then None else Some((BitRange(v, bits, 8, 38), BitRange(v, bits, 0, 6)))
  {
    if |payload| >= 7 {
      SliceIsRange(payload, 0, 6);
      SliceIsRange(payload, 8, 38);
    }
  }

  lemma AfterEpoch(u: Utc)
    requires u.Valid()
    ensures u.Unix() >= 0
  {
    SinceEpoch(u.date);
  }

  lemma {:induction false} FirstCharacter(payload: string)
    requires payload != []
    ensures BitsOf(payload)[0..6] == BitsOf(payload[..1])
    ensures Value(BitsOf(payload)[0..6]) == Base64Value(payload[..1])
  {
    if |payload| == 1 {
      assert payload[..1] == payload;
    } else {
      var shorter := payload[..|payload| - 1];
      FirstCharacter(shorter);
      assert shorter[..1] == payload[..1];
      assert BitsOf(payload)[0..6] == BitsOf(shorter)[0..6];
    }
    ValueOfBits(payload[..1]);
  }

  // ------------------------------------------------ time order is bit order

  predicate Earlier(u: Utc, v: Utc) {
    u.date.Before(v.date) ||
    (u.date == v.date && (u.hour < v.hour || (u.hour == v.hour &&
      (u.minute < v.minute || (u.minute == v.minute && u.second < v.second)))))
  }

  lemma EarlierOrLater(u: Utc, v: Utc)
    ensures u == v || Earlier(u, v) || Earlier(v, u)
  {
  }

  lemma EarlierUnix(u: Utc, v: Utc)
    requires u.Valid() && v.Valid() && Earlier(u, v)
    ensures u.Unix() < v.Unix()
  {
    if u.date.Before(v.date) { OrdinalOrder(u.date, v.date); }
  }

  lemma EarlierCode(u: Utc, v: Utc)
    requires u.Valid() && v.Valid() && Earlier(u, v)
    ensures Code(u) < Code(v)
  {
  }

  /** Whenever both payloads carry a time, the Unix times compare exactly as the
      two 40-bit numbers at bits 38..78. */
  lemma TimeOrderIsBitOrder(p: string, q: string)
    requires ExtractTimestamp(p).Some? && ExtractTimestamp(q).Some?
    ensures ExtractTimestamp(p).value < ExtractTimestamp(q).value <==> UtcCode(p) < UtcCode(q)
    ensures ExtractTimestamp(p).value == ExtractTimestamp(q).value <==> UtcCode(p) == UtcCode(q)
  {
    CodeOfFields(BitsOf(p));
    CodeOfFields(BitsOf(q));
    var u, v := UtcFields(BitsOf(p)), UtcFields(BitsOf(q));
    EarlierOrLater(u, v);
    if Earlier(u, v) {
      EarlierUnix(u, v);
      EarlierCode(u, v);
    } else if Earlier(v, u) {
      EarlierUnix(v, u);
      EarlierCode(v, u);
    }
  }

  // ------------------------------------------------------------ round trip

  /** The 6-bit armour of ITU-R M.1371: values 0..39 from '0', 40..63 from '`'. */
  function ArmourChar(v: nat): char
    requires v < 64
  {
    if v < 40 then (v + 48) as char else (v + 56) as char
  }

  predicate InAlphabet(c: char) {
    '0' <= c <= 'W' || '`' <= c <= 'w'
  }

  lemma ArmourInverts(v: nat)
    requires v < 64
    ensures InAlphabet(ArmourChar(v)) && SixBit(ArmourChar(v)) == v
  {
  }

  lemma AlphabetInverts(c: char)
    requires InAlphabet(c)
    ensures ArmourChar(SixBit(c)) == c
  {
  }

  function Armour(b: seq<Bit>): (s: string)
    requires |b| % 6 == 0
    ensures 6 * |s| == |b|
  {
    if b == [] then [] else
      var n := |b| - 6;
      ValueBound(b[n..]);
      SmallPowers();
      Armour(b[..n]) + [ArmourChar(Value(b[n..]))]
  }

  lemma BitsUnique(a: seq<Bit>, b: seq<Bit>)
    requires |a| == |b| && Value(a) == Value(b)
    ensures a == b
  {
    if a != [] {
      var n := |a| - 1;
      var x: int, y: int := a[n], b[n];
      assert 2 * Value(a[..n]) + x == 2 * Value(b[..n]) + y;
      assert x == y;
      BitsUnique(a[..n], b[..n]);
      assert a == a[..n] + [a[n]] && b == b[..n] + [b[n]];
    }
  }

  /** Decoding undoes armouring on every bit string of whole characters. */
  lemma {:induction false} DecodeArmour(b: seq<Bit>)
    requires |b| % 6 == 0
    ensures BitsOf(Armour(b)) == b
  {
    if b != [] {
      var n := |b| - 6;
      ValueBound(b[n..]);
      SmallPowers();
      DecodeArmour(b[..n]);
      var s, v := Armour(b), Value(b[n..]);
      assert s[..|s| - 1] == Armour(b[..n]);
      ArmourInverts(v);
      ValueOfFormat6(v);
      BitsUnique(Format6(v), b[n..]);
    }
  }

  /** And armouring undoes decoding on every text of the alphabet. */
  lemma {:induction false} ArmourDecode(s: string)
    requires forall i :: 0 <= i < |s| ==> InAlphabet(s[i])
    ensures Armour(BitsOf(s)) == s
  {
    if s != [] {
      var n := |s| - 1;
      ArmourDecode(s[..n]);
      var b := BitsOf(s);
      assert b[..6 * n] == BitsOf(s[..n]) && b[6 * n..] == Format6(SixBit(s[n]));
      ValueOfFormat6(SixBit(s[n]));
      AlphabetInverts(s[n]);
    }
  }

  /** v in the given number of bits, most significant first. */
  function Field(v: nat, width: nat): (b: seq<Bit>)
    requires v < Pow2(width)
    ensures |b| == width
  {
    if width == 0 then [] else Field(v / 2, width - 1) + [v % 2]
  }

  lemma {:induction false} FieldValue(v: nat, width: nat)
    requires v < Pow2(width)
    ensures Value(Field(v, width)) == v
  {
    if width > 0 {
      FieldValue(v / 2, width - 1);
      assert Field(v, width)[..width - 1] == Field(v / 2, width - 1);
    }
  }

  /** A base-station report: message 4 or 11, then whatever follows the UTC
      fields (position accuracy, longitude, latitude and so on). */
  datatype Report = Report(msgType: nat, repeat: nat, mmsi: nat, utc: Utc, rest: seq<Bit>) {
    predicate Valid() {
      && (msgType == 4 || msgType == 11) && repeat < 4 && mmsi < Pow2(30)
      && utc.Valid() && |rest| >= 2 && |rest| % 6 == 0
    }
  }

  lemma FieldRoom(r: Report)
    requires r.Valid()
    ensures r.msgType < Pow2(6) && r.repeat < Pow2(2)
    ensures r.utc.date.year < Pow2(14) && r.utc.date.month < Pow2(4) && r.utc.date.day < Pow2(5)
    ensures r.utc.hour < Pow2(5) && r.utc.minute < Pow2(6) && r.utc.second < Pow2(6)
  {
    SmallPowers();
    assert Pow2(14) == 256 * Pow2(6) by {
      assert Pow2(8) == 4 * Pow2(6) && Pow2(10) == 4 * Pow2(8) && Pow2(12) == 4 * Pow2(10) && Pow2(14) == 4 * Pow2(12);
    }
  }

  function PackHeader(r: Report): (b: seq<Bit>)
    requires r.Valid()
    ensures |b| == 38 && Value(b[0..6]) == r.msgType && Value(b[8..38]) == r.mmsi
  {
    FieldRoom(r);
    FieldValue(r.msgType, 6);
    FieldValue(r.mmsi, 30);
    var b := Field(r.msgType, 6) + Field(r.repeat, 2) + Field(r.mmsi, 30);
    assert b[0..6] == Field(r.msgType, 6) && b[8..38] == Field(r.mmsi, 30);
    b
  }

  function PackDate(r: Report): (b: seq<Bit>)
    requires r.Valid()
    ensures |b| == 23 && Value(b[0..14]) == r.utc.date.year && Value(b[14..18]) == r.utc.date.month
    ensures Value(b[18..23]) == r.utc.date.day
  {
    FieldRoom(r);
    FieldValue(r.utc.date.year, 14);
    FieldValue(r.utc.date.month, 4);
    FieldValue(r.utc.date.day, 5);
    var b := Field(r.utc.date.year, 14) + Field(r.utc.date.month, 4) + Field(r.utc.date.day, 5);
    assert b[0..14] == Field(r.utc.date.year, 14) && b[14..18] == Field(r.utc.date.month, 4);
    assert b[18..23] == Field(r.utc.date.day, 5);
    b
  }

  function PackTime(r: Report): (b: seq<Bit>)
    requires r.Valid()
    ensures |b| == 17 && Value(b[0..5]) == r.utc.hour && Value(b[5..11]) == r.utc.minute
    ensures Value(b[11..17]) == r.utc.second
  {
    FieldRoom(r);
    FieldValue(r.utc.hour, 5);
    FieldValue(r.utc.minute, 6);
    FieldValue(r.utc.second, 6);
    var b := Field(r.utc.hour, 5) + Field(r.utc.minute, 6) + Field(r.utc.second, 6);
    assert b[0..5] == Field(r.utc.hour, 5) && b[5..11] == Field(r.utc.minute, 6) && b[11..17] == Field(r.utc.second, 6);
    b
  }

  lemma SliceAt(a: seq<Bit>, m: seq<Bit>, z: seq<Bit>, i: nat, j: nat)
    requires i <= j <= |m|
    ensures (a + m + z)[|a| + i..|a| + j] == m[i..j]
  {
  }

  /** The bit string b carries the report's type, MMSI and UTC fields. */
  ghost predicate Carries(b: seq<Bit>, r: Report) {
    && |b| >= 80 && |b| % 6 == 0 && UtcFields(b) == r.utc
    && Value(b[0..6]) == r.msgType && Value(b[8..38]) == r.mmsi
  }

  lemma HeaderCarried(h: seq<Bit>, rest: seq<Bit>)
    requires |h| == 38
    ensures (h + rest)[0..6] == h[0..6] && (h + rest)[8..38] == h[8..38]
  {
  }

  lemma PartsCarry(h: seq<Bit>, d: seq<Bit>, t: seq<Bit>, rest: seq<Bit>, r: Report)
    requires |h| == 38 && Value(h[0..6]) == r.msgType && Value(h[8..38]) == r.mmsi
    requires |d| == 23 && Date(Value(d[0..14]), Value(d[14..18]), Value(d[18..23])) == r.utc.date
    requires |t| == 17 && Value(t[0..5]) == r.utc.hour && Value(t[5..11]) == r.utc.minute
        && Value(t[11..17]) == r.utc.second
    requires |rest| >= 2 && |rest| % 6 == 0
    ensures Carries(h + d + t + rest, r)
  {
    var b := h + d + t + rest;
    assert b == h + (d + t + rest) && b == h + d + (t + rest) && b == (h + d) + t + rest;
    HeaderCarried(h, d + t + rest);
    SliceAt(h, d, t + rest, 0, 14);
    SliceAt(h, d, t + rest, 14, 18);
    SliceAt(h, d, t + rest, 18, 23);
    SliceAt(h + d, t, rest, 0, 5);
    SliceAt(h + d, t, rest, 5, 11);
    SliceAt(h + d, t, rest, 11, 17);
  }

  function Pack(r: Report): (b: seq<Bit>)
    requires r.Valid()
    ensures |b| % 6 == 0 && Carries(b, r)
  {
    PartsCarry(PackHeader(r), PackDate(r), PackTime(r), r.rest, r);
    PackHeader(r) + PackDate(r) + PackTime(r) + r.rest
  }

  lemma ArmouredReads(b: seq<Bit>, r: Report)
    requires r.Valid() && Carries(b, r)
    ensures ExtractTimestamp(Armour(b)) == Some(r.utc.Unix())
    ensures MmsiAndType(Armour(b)) == Some((r.mmsi, r.msgType))
  {
    DecodeArmour(b);
  }

  /** Every valid report, packed and armoured, decodes to its own instant, type
      and MMSI. */
  lemma ReportRoundTrip(r: Report)
    requires r.Valid()
    ensures ExtractTimestamp(Armour(Pack(r))) == Some(r.utc.Unix())
    ensures MmsiAndType(Armour(Pack(r))) == Some((r.mmsi, r.msgType))
  {
    ArmouredReads(Pack(r), r);
  }
}
