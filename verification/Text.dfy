/** The Python string operations the server uses, on ASCII text. */
module Text {
  import opened Wrappers

  /** str.isspace on ASCII. */
  predicate IsSpace(c: char) {
    '\t' <= c <= '\r' || 28 as char <= c <= ' '
  }

  /** The white space int() skips, which on ASCII is less than str.isspace. */
  predicate IsIntSpace(c: char) {
    '\t' <= c <= '\r' || c == ' '
  }

  /** The character sets the server strips: white space, the white space of int(),
      the ends of a received line ("\r\n\t "), and the start marks of a sentence
      ("!$"). */
  datatype CharClass = White | IntWhite | LineEnd | StartMark {
    predicate Has(c: char) {
      match this
      case White => IsSpace(c)
      case IntWhite => IsIntSpace(c)
      case LineEnd => c == '\r' || c == '\n' || c == '\t' || c == ' '
      case StartMark => c == '!' || c == '$'
    }
  }

  /** The members of each class among the ASCII characters. */
  lemma ClassTable(c: char)
    requires c < 128 as char
    ensures var n := c as int; var white, ends, marks := White, LineEnd, StartMark;
      && (white.Has(c) <==> n in {9, 10, 11, 12, 13, 28, 29, 30, 31, 32})
      && (IsIntSpace(c) <==> n in {9, 10, 11, 12, 13, 32})
      && (ends.Has(c) <==> n in {9, 10, 13, 32})
      && (marks.Has(c) <==> n in {33, 36})
  {
  }

  // -------------------------------------------------------------- stripping

  function FirstKept(s: string, cls: CharClass, i: nat): (r: nat)
    requires i <= |s|
    ensures i <= r <= |s| && (r < |s| ==> !cls.Has(s[r]))
    ensures forall k :: i <= k < r ==> cls.Has(s[k])
    decreases |s| - i
  {
    if i < |s| && cls.Has(s[i]) then FirstKept(s, cls, i + 1) else i
  }

  function LastKept(s: string, cls: CharClass, j: nat): (r: nat)
    requires j <= |s|
    ensures r <= j && (r > 0 ==> !cls.Has(s[r - 1]))
    ensures forall k :: r <= k < j ==> cls.Has(s[k])
  {
    if j > 0 && cls.Has(s[j - 1]) then LastKept(s, cls, j - 1) else j
  }

  /** str.lstrip of a class of characters. */
  function DropLeft(s: string, cls: CharClass): (r: string)
    ensures |r| <= |s| && (r != [] ==> !cls.Has(r[0]))
  {
    s[FirstKept(s, cls, 0)..]
  }

  /** str.rstrip of a class of characters. */
  function DropRight(s: string, cls: CharClass): (r: string)
    ensures |r| <= |s| && (r != [] ==> !cls.Has(r[|r| - 1]))
  {
    s[..LastKept(s, cls, |s|)]
  }

  function Strip(s: string, cls: CharClass): (r: string)
    ensures r != [] ==> !cls.Has(r[0]) && !cls.Has(r[|r| - 1])
    ensures (s == [] || (!cls.Has(s[0]) && !cls.Has(s[|s| - 1]))) ==> r == s
  {
    DropRight(DropLeft(s, cls), cls)
  }

  /** Stripping cuts class characters off both ends and nothing else. */
  lemma StripCuts(s: string, cls: CharClass)
    ensures exists left, right :: s == left + Strip(s, cls) + right && AllOf(left, cls) && AllOf(right, cls)
  {
    var i := FirstKept(s, cls, 0);
    var j := LastKept(s[i..], cls, |s[i..]|);
    CutInThree(s, i, j);
    assert AllOf(s[..i], cls) && AllOf(s[i..][j..], cls);
    assert s == s[..i] + Strip(s, cls) + s[i..][j..];
  }

  lemma CutInThree(s: string, i: nat, j: nat)
    requires i <= |s| && j <= |s| - i
    ensures s == s[..i] + s[i..][..j] + s[i..][j..]
  {
  }

  predicate AllOf(s: string, cls: CharClass) {
    forall k :: 0 <= k < |s| ==> cls.Has(s[k])
  }

  /** And it cuts all of them: whatever way the class characters at the two ends
      are split off, a rest that starts and ends outside the class is the result. */
  lemma StripExactly(left: string, kept: string, right: string, cls: CharClass)
    requires AllOf(left, cls) && AllOf(right, cls)
    requires kept == "" || (!cls.Has(kept[0]) && !cls.Has(kept[|kept| - 1]))
    ensures Strip(left + kept + right, cls) == kept
  {
    var s := left + kept + right;
    if kept == "" {
      forall k | 0 <= k < |s| ensures cls.Has(s[k]) {
        assert s[k] == if k < |left| then left[k] else right[k - |left|];
      }
      assert FirstKept(s, cls, 0) == |s|;
    } else {
      assert s[|left|] == kept[0];
      FirstKeptIs(s, cls, |left|);
      var d := kept + right;
      assert s[|left|..] == d;
      assert d[|kept| - 1] == kept[|kept| - 1];
      LastKeptIs(d, cls, |kept|);
      assert d[..|kept|] == kept;
    }
  }

  lemma FirstKeptIs(s: string, cls: CharClass, i: nat)
    requires i < |s| && !cls.Has(s[i]) && forall k :: 0 <= k < i ==> cls.Has(s[k])
    ensures FirstKept(s, cls, 0) == i
  {
    var r := FirstKept(s, cls, 0);
  }

  lemma LastKeptIs(s: string, cls: CharClass, j: nat)
    requires 0 < j <= |s| && !cls.Has(s[j - 1]) && forall k :: j <= k < |s| ==> cls.Has(s[k])
    ensures LastKept(s, cls, |s|) == j
  {
    var r := LastKept(s, cls, |s|);
  }

  // -------------------------------------------------------------- searching

  /** str.find of one character from a position. */
  function Find(s: string, c: char, from: nat): (r: Option<nat>)
    requires from <= |s|
    ensures r.Some? ==> from <= r.value < |s| && s[r.value] == c
    ensures forall k :: from <= k < (if r.Some? then r.value else |s|) ==> s[k] != c
    decreases |s| - from
  {
    if from == |s| then None
    else if s[from] == c then Some(from)
    else Find(s, c, from + 1)
  }

  /** Where rsplit with maxsplit 1 cuts. */
  function FindLast(s: string, c: char): (r: Option<nat>)
    ensures r.Some? ==> r.value < |s| && s[r.value] == c
    ensures forall k :: (if r.Some? then r.value else -1) < k < |s| ==> s[k] != c
  {
    FindBefore(s, c, |s|)
  }

  function FindBefore(s: string, c: char, j: nat): (r: Option<nat>)
    requires j <= |s|
    ensures r.Some? ==> r.value < j && s[r.value] == c
    ensures forall k :: (if r.Some? then r.value else -1) < k < j ==> s[k] != c
  {
    if j == 0 then None else if s[j - 1] == c then Some(j - 1) else FindBefore(s, c, j - 1)
  }

  lemma FindLastIs(s: string, c: char, i: nat)
    requires i < |s| && s[i] == c && forall k :: i < k < |s| ==> s[k] != c
    ensures FindLast(s, c) == Some(i)
  {
  }

  lemma FindIs(s: string, c: char, from: nat, i: nat)
    requires from <= i < |s| && s[i] == c && forall k :: from <= k < i ==> s[k] != c
    ensures Find(s, c, from) == Some(i)
  {
  }

  // ---------------------------------------------------- splitting and joining

  /** str.split on one character. */
  function Split(s: string, c: char): (parts: seq<string>)
    ensures parts != []
    ensures Join(parts, c) == s
    ensures forall p :: p in parts ==> c !in p
    decreases |s|
  {
    match Find(s, c, 0)
    case None => [s]
    case Some(i) =>
      assert s == s[..i] + [c] + s[i + 1..];
      [s[..i]] + Split(s[i + 1..], c)
  }

  function Join(parts: seq<string>, c: char): string
    requires parts != []
  {
    if |parts| == 1 then parts[0] else parts[0] + [c] + Join(parts[1..], c)
  }

  /** Splitting undoes joining when no part holds the separator. */
  lemma {:induction false} SplitJoin(parts: seq<string>, c: char)
    requires parts != [] && forall p :: p in parts ==> c !in p
    ensures Split(Join(parts, c), c) == parts
  {
    var s := Join(parts, c);
    assert parts[0] in parts;
    forall k | 0 <= k < |parts[0]| ensures s[k] == parts[0][k] != c {
      assert parts[0][k] in parts[0];
    }
    if |parts| > 1 {
      var rest := Join(parts[1..], c);
      FindIs(s, c, 0, |parts[0]|);
      assert s[..|parts[0]|] == parts[0] && s[|parts[0]| + 1..] == rest;
      SplitJoin(parts[1..], c);
    } else {
      assert parts == [s];
    }
  }

  /** Text appended to a line changes its last part at the earliest. */
  lemma {:induction false} SplitPrefix(a: string, b: string, c: char, k: nat)
    requires k + 1 < |Split(a, c)|
    ensures k + 1 < |Split(a + b, c)| && Split(a + b, c)[k] == Split(a, c)[k]
    decreases |a|
  {
    var i := Find(a, c, 0).value;
    FindIs(a + b, c, 0, i);
    assert (a + b)[..i] == a[..i] && (a + b)[i + 1..] == a[i + 1..] + b;
    if k > 0 { SplitPrefix(a[i + 1..], b, c, k - 1); }
  }

  // ---------------------------------------------------------------- numbers

  function DigitValue(c: char, base: nat): Option<nat> {
    var v := if '0' <= c <= '9' then c as int - '0' as int
             else if 'a' <= c <= 'z' then c as int - 'a' as int + 10
             else if 'A' <= c <= 'Z' then c as int - 'A' as int + 10
             else base;
    if 0 <= v < base then Some(v) else None
  }

  /** The digits of the two bases in use. */
  lemma DigitTable(c: char)
    ensures DigitValue(c, 10).Some? <==> c in "0123456789"
    ensures DigitValue(c, 10).Some? ==> "0123456789"[DigitValue(c, 10).value] == c
    ensures DigitValue(c, 16).Some? <==> c in "0123456789abcdefABCDEF"
    ensures DigitValue(c, 16).Some? ==>
      "0123456789abcdef"[DigitValue(c, 16).value] == c || "0123456789ABCDEF"[DigitValue(c, 16).value] == c
  {
  }

  datatype Code = Digit(value: nat) | Underscore | Other

  function CodeOf(c: char, base: nat): Code {
    if c == '_' then Underscore else
      var d := DigitValue(c, base);
      if d.Some? then Digit(d.value) else Other
  }

  function Codes(s: string, base: nat): (r: seq<Code>)
    ensures |r| == |s| && forall i :: 0 <= i < |s| ==> r[i] == CodeOf(s[i], base)
  {
    seq(|s|, i requires 0 <= i < |s| => CodeOf(s[i], base))
  }

  /** One or more digits, single underscores allowed between them. */
  function ParseCodes(cs: seq<Code>, base: nat): Option<nat> {
    if cs == [] || !cs[|cs| - 1].Digit? then None else
      var n := |cs| - 1;
      if n == 0 then Some(cs[0].value) else
        var high := ParseCodes(if cs[n - 1].Underscore? then cs[..n - 1] else cs[..n], base);
        if high.None? then None else Some(high.value * base + cs[n].value)
  }

  /** The digit values, without the underscores. */
  function DigitsIn(cs: seq<Code>): seq<nat> {
    if cs == [] then [] else
      var n := |cs| - 1;
      DigitsIn(cs[..n]) + (if cs[n].Digit? then [cs[n].value] else [])
  }

  function Positional(ds: seq<nat>, base: nat): nat {
    if ds == [] then 0 else Positional(ds[..|ds| - 1], base) * base + ds[|ds| - 1]
  }

  /** Starts and ends with a digit, holds only digits and underscores, and no two
      underscores in a row. */
  predicate IsNumeral(cs: seq<Code>) {
    && cs != [] && cs[0].Digit? && cs[|cs| - 1].Digit?
    && (forall i :: 0 <= i < |cs| ==> !cs[i].Other?)
    && (forall i {:trigger cs[i]} :: 0 < i < |cs| && cs[i].Underscore? ==> cs[i - 1].Digit?)
  }

  /** What counts as a number, and which one it is. */
  lemma {:induction false} ParseCodesExactly(cs: seq<Code>, base: nat)
    ensures ParseCodes(cs, base) == if IsNumeral(cs) then Some(Positional(DigitsIn(cs), base)) else None
  {
    if cs != [] && cs[|cs| - 1].Digit? {
      var n := |cs| - 1;
      LastDigit(cs, base);
      if n == 0 {
        assert cs[..0] == [];
      } else {
        var high := HighCodes(cs);
        ParseCodesExactly(high, base);
        NumeralPrefix(cs);
        HighDigits(cs);
        ParseHigh(cs, base);
      }
    }
  }

  /** What stands before the last digit and the underscore in front of it, if any. */
  function HighCodes(cs: seq<Code>): (high: seq<Code>)
    requires |cs| >= 2
    ensures |high| < |cs|
  {
    var n := |cs| - 1;
    if cs[n - 1].Underscore? then cs[..n - 1] else cs[..n]
  }

  lemma HighDigits(cs: seq<Code>)
    requires |cs| >= 2
    ensures DigitsIn(cs[..|cs| - 1]) == DigitsIn(HighCodes(cs))
  {
    var n := |cs| - 1;
    if cs[n - 1].Underscore? { assert cs[..n][..n - 1] == cs[..n - 1]; }
  }

  lemma ParseHigh(cs: seq<Code>, base: nat)
    requires |cs| >= 2 && cs[|cs| - 1].Digit?
    ensures var high := ParseCodes(HighCodes(cs), base);
      ParseCodes(cs, base) == if high.None? then None else Some(high.value * base + cs[|cs| - 1].value)
  {
  }

  lemma LastDigit(cs: seq<Code>, base: nat)
    requires cs != [] && cs[|cs| - 1].Digit?
    ensures var n := |cs| - 1;
      Positional(DigitsIn(cs), base) == Positional(DigitsIn(cs[..n]), base) * base + cs[n].value
  {
    var n := |cs| - 1;
    assert DigitsIn(cs)[..|DigitsIn(cs[..n])|] == DigitsIn(cs[..n]);
  }

  lemma NumeralPrefix(cs: seq<Code>)
    requires |cs| >= 2 && cs[|cs| - 1].Digit?
    ensures IsNumeral(cs) <==> IsNumeral(HighCodes(cs))
  {
  }

  function ParseDigits(s: string, base: nat): Option<nat> {
    ParseCodes(Codes(s, base), base)
  }

  /** `int(s, base)` on ASCII text without a base prefix (which in base 16 takes at
      least three characters, more than the server passes); None is ValueError. */
  function PyInt(s: string, base: nat): Option<int> {
    Signed(Strip(s, IntWhite), base)
  }

  function Signed(t: string, base: nat): Option<int> {
    var digits := ParseDigits(Unsigned(t), base);
    if digits.None? then None
    else Some(if IsNegative(t) then 0 - digits.value else digits.value)
  }

  /** int() on any text: white space around, at most one sign, and a numeral. */
  lemma PyIntExactly(left: string, t: string, right: string, base: nat)
    requires AllOf(left, IntWhite) && AllOf(right, IntWhite)
    requires t == "" || (!IsIntSpace(t[0]) && !IsIntSpace(t[|t| - 1]))
    ensures var signed := t != "" && (t[0] == '+' || t[0] == '-');
      var codes := Codes(if signed then t[1..] else t, base);
      PyInt(left + t + right, base)
      == if !IsNumeral(codes) then None
         else Some((if t[0] == '-' then -1 else 1) * Positional(DigitsIn(codes), base))
  {
    StripExactly(left, t, right, IntWhite);
    SignedExactly(t, base);
  }

  lemma SignedExactly(t: string, base: nat)
    ensures var codes := Codes(Unsigned(t), base);
      Signed(t, base) == if !IsNumeral(codes) then None
                         else Some((if IsNegative(t) then -1 else 1) * Positional(DigitsIn(codes), base))
  {
    ParseCodesExactly(Codes(Unsigned(t), base), base);
  }

  function Unsigned(t: string): string {
    if t != [] && (t[0] == '+' || t[0] == '-') then t[1..] else t
  }

  predicate IsNegative(t: string) {
    t != [] && t[0] == '-'
  }

  /** str.isdigit on ASCII. */
  predicate IsDigits(s: string) {
    s != [] && forall i :: 0 <= i < |s| ==> '0' <= s[i] <= '9'
  }

  function Decimal(n: nat): (s: string)
    ensures IsDigits(s)
  {
    var last := [('0' as int + n % 10) as char];
    if n < 10 then last else Decimal(n / 10) + last
  }

  lemma {:induction false} DecimalParses(n: nat)
    ensures ParseDigits(Decimal(n), 10) == Some(n)
  {
    if n >= 10 {
      DecimalParses(n / 10);
      var s := Decimal(n);
      assert Codes(s, 10)[..|s| - 1] == Codes(Decimal(n / 10), 10);
    }
  }

  /** Python reads a rendered decimal back. */
  lemma PyIntOfDecimal(n: nat)
    ensures PyInt(Decimal(n), 10) == Some(n)
  {
    DecimalParses(n);
    PyIntOfDigits(Decimal(n));
  }

  lemma PyIntOfDigits(s: string)
    requires IsDigits(s)
    ensures PyInt(s, 10) == ParseDigits(s, 10)
  {
    assert '0' <= s[0] <= '9' && '0' <= s[|s| - 1] <= '9';
    assert Strip(s, IntWhite) == s;
    assert Unsigned(s) == s && !IsNegative(s);
  }

  function UpperChar(c: char): char {
    if 'a' <= c <= 'z' then (c as int - 32) as char else c
  }

  function Upper(s: string): (r: string)
    ensures |r| == |s| && forall i :: 0 <= i < |s| ==> r[i] == UpperChar(s[i])
  {
    seq(|s|, i requires 0 <= i < |s| => UpperChar(s[i]))
  }

  lemma UpperDigit(c: char, base: nat)
    ensures DigitValue(UpperChar(c), base) == DigitValue(c, base)
    ensures UpperChar(c) == '_' <==> c == '_'
    ensures IsSpace(UpperChar(c)) <==> IsSpace(c)
    ensures IsIntSpace(UpperChar(c)) <==> IsIntSpace(c)
    ensures UpperChar(c) in "+-" <==> c in "+-"
  {
  }

  /** Changing case does not change a parsed number. */
  lemma UpperDigits(s: string, base: nat)
    ensures ParseDigits(Upper(s), base) == ParseDigits(s, base)
  {
    forall i | 0 <= i < |s| ensures CodeOf(Upper(s)[i], base) == CodeOf(s[i], base) {
      UpperDigit(s[i], base);
    }
    assert Codes(Upper(s), base) == Codes(s, base);
  }

  lemma {:induction false} UpperFirstKept(s: string, i: nat)
    requires i <= |s|
    ensures FirstKept(Upper(s), IntWhite, i) == FirstKept(s, IntWhite, i)
    decreases |s| - i
  {
    if i < |s| {
      UpperDigit(s[i], 16);
      UpperFirstKept(s, i + 1);
    }
  }

  lemma {:induction false} UpperLastKept(s: string, j: nat)
    requires j <= |s|
    ensures LastKept(Upper(s), IntWhite, j) == LastKept(s, IntWhite, j)
  {
    if j > 0 {
      UpperDigit(s[j - 1], 16);
      UpperLastKept(s, j - 1);
    }
  }

  lemma UpperSlice(s: string, i: nat, j: nat)
    requires i <= j <= |s|
    ensures Upper(s)[i..j] == Upper(s[i..j])
  {
  }

  lemma UpperStrip(s: string)
    ensures Strip(Upper(s), IntWhite) == Upper(Strip(s, IntWhite))
  {
    var i := FirstKept(s, IntWhite, 0);
    UpperFirstKept(s, 0);
    UpperSlice(s, i, |s|);
    var d := s[i..];
    assert Upper(s)[i..] == Upper(s)[i..|s|] && s[i..] == s[i..|s|];
    UpperLastKept(d, |d|);
    UpperSlice(d, 0, LastKept(d, IntWhite, |d|));
    assert Upper(d)[..LastKept(d, IntWhite, |d|)] == Upper(d)[0..LastKept(d, IntWhite, |d|)];
    assert d[..LastKept(d, IntWhite, |d|)] == d[0..LastKept(d, IntWhite, |d|)];
  }

  lemma UpperSign(t: string)
    ensures Unsigned(Upper(t)) == Upper(Unsigned(t)) && IsNegative(Upper(t)) == IsNegative(t)
  {
    if t != [] { UpperDigit(t[0], 16); }
  }

  lemma UpperSigned(t: string)
    ensures Signed(Upper(t), 16) == Signed(t, 16)
  {
    UpperSign(t);
    UpperDigits(Unsigned(t), 16);
    assert ParseDigits(Unsigned(Upper(t)), 16) == ParseDigits(Unsigned(t), 16);
  }

  lemma UpperPyInt(s: string)
    ensures PyInt(Upper(s), 16) == PyInt(s, 16)
  {
    UpperStrip(s);
    UpperSigned(Strip(s, IntWhite));
  }
}
