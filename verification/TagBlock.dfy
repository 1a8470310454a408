/** NMEA 4.10 tag blocks in front of a sentence. */
module TagBlock {
  import opened Wrappers
  import opened Text

  predicate IsSourceField(field: string) {
    |field| >= 2 && field[0] == 's' && field[1] == ':'
  }

  /** `text.strip() or None`. */
  function NonEmpty(text: string): (r: Option<string>)
    ensures r.Some? ==> r.value != ""
  {
    var t := Strip(text, White);
    if t == "" then None else Some(t)
  }

  /** The identity in the first `s:` field from position i on; only that field counts. */
  function FirstSource(fields: seq<string>, i: nat): (r: Option<string>)
    requires i <= |fields|
    ensures r.Some? ==> r.value != ""
    decreases |fields| - i
  {
    if i == |fields| then None
    else if IsSourceField(fields[i]) then NonEmpty(fields[i][2..])
    else FirstSource(fields, i + 1)
  }

  /** The block without its own checksum. */
  function Uncheck(block: string): string {
    match FindLast(block, '*')
    case None => block
    case Some(i) => block[..i]
  }

  datatype Stripped = Stripped(sentence: string, sourceId: Option<string>)

  /** The sentence behind the tag block, and the node identity in it. */
  function AfterBlock(line: string, end: nat): Stripped
    requires 1 <= end < |line|
  {
    Stripped(line[end + 1..], FirstSource(Split(Uncheck(line[1..end]), ','), 0))
  }

  function StripTagBlock(line: string): Stripped {
    if line == [] || line[0] != '\\' then Stripped(line, None) else
      match Find(line, '\\', 1)
      case None => Stripped(line, None)
      case Some(end) => AfterBlock(line, end)
  }

  method StripTag(line: string) returns (sentence: string, sourceId: Option<string>)
    ensures Stripped(sentence, sourceId) == StripTagBlock(line)
  {
    if line == [] || line[0] != '\\' {
      return line, None;
    }
    var end := Find(line, '\\', 1);
    if end.None? {
      return line, None;
    }
    sentence := line[end.value + 1..];
    var fields := Split(Uncheck(line[1..end.value]), ',');
    sourceId := None;
    var i := 0;
    while i < |fields|
      invariant 0 <= i <= |fields| && sourceId == None
      invariant FirstSource(fields, 0) == FirstSource(fields, i)
    {
      if IsSourceField(fields[i]) {
        sourceId := NonEmpty(fields[i][2..]);
        break;
      }
      i := i + 1;
    }
  }

  // ------------------------------------------------------------- round trip

  /** A tag block: fields before the identity, the identity, fields after it, and
      the text behind the block's own `*`, if it has a checksum. */
  datatype Tag = Tag(before: seq<string>, id: string, after: seq<string>, check: Option<string>) {
    function Fields(): seq<string> {
      before + ["s:" + id] + after
    }

    function Block(): string {
      Join(Fields(), ',') + (if check.Some? then "*" + check.value else "")
    }

    predicate WellFormed() {
      && id != "" && Strip(id, White) == id
      && (forall f :: f in Fields() ==> ',' !in f)
      && (forall f :: f in before ==> !IsSourceField(f))
      && '\\' !in Block()
      && (if check.Some? then '*' !in check.value else '*' !in Block())
    }

    function Render(sentence: string): string {
      "\\" + Block() + "\\" + sentence
    }
  }

  lemma UncheckBlock(tag: Tag)
    requires tag.WellFormed()
    ensures Uncheck(tag.Block()) == Join(tag.Fields(), ',')
  {
    var joined := Join(tag.Fields(), ',');
    if tag.check.Some? {
      FindLastIs(tag.Block(), '*', |joined|);
      assert tag.Block()[..|joined|] == joined;
    } else {
      assert tag.Block() == joined;
    }
  }

  lemma {:induction false} FirstSourceAt(fields: seq<string>, i: nat, at: nat)
    requires i <= at < |fields| && IsSourceField(fields[at])
    requires forall k :: i <= k < at ==> !IsSourceField(fields[k])
    ensures FirstSource(fields, i) == NonEmpty(fields[at][2..])
    decreases at - i
  {
    if i < at { FirstSourceAt(fields, i + 1, at); }
  }

  lemma SourceOfTag(tag: Tag)
    requires tag.WellFormed()
    ensures FirstSource(tag.Fields(), 0) == Some(tag.id)
  {
    var fields, at := tag.Fields(), |tag.before|;
    assert fields[at] == "s:" + tag.id && fields[at][2..] == tag.id;
    forall k | 0 <= k < at ensures !IsSourceField(fields[k]) {
      assert fields[k] == tag.before[k] && tag.before[k] in tag.before;
    }
    FirstSourceAt(fields, 0, at);
  }

  lemma CutTag(block: string, sentence: string)
    requires '\\' !in block
    ensures var line := "\\" + block + "\\" + sentence;
      Find(line, '\\', 1) == Some(|block| + 1) && line[1..|block| + 1] == block && line[|block| + 2..] == sentence
  {
    var line := "\\" + block + "\\" + sentence;
    forall k | 1 <= k < |block| + 1 ensures line[k] != '\\' {
      assert line[k] == block[k - 1];
    }
    FindIs(line, '\\', 1, |block| + 1);
  }

  /** Any sentence behind a well-formed tag block comes out unchanged, with the
      identity of the block; a sentence without one passes through. */
  lemma TagRoundTrip(tag: Tag, sentence: string)
    requires tag.WellFormed()
    ensures StripTagBlock(tag.Render(sentence)) == Stripped(sentence, Some(tag.id))
  {
    CutTag(tag.Block(), sentence);
    UncheckBlock(tag);
    SplitJoin(tag.Fields(), ',');
    SourceOfTag(tag);
  }

  /** A line without a backslash in front, or without a second one, passes whole. */
  lemma UntaggedPasses(line: string)
    requires line == "" || line[0] != '\\' || forall k :: 1 <= k < |line| ==> line[k] != '\\'
    ensures StripTagBlock(line) == Stripped(line, None)
  {
  }

  /** Of any block, with or without identities and with or without a checksum, the
      identity is the trimmed rest of the first field that starts with "s:", and none
      if that is blank or there is no such field. */
  lemma BlockIdentity(fields: seq<string>, check: string, sentence: string, at: nat)
    requires fields != [] && at <= |fields|
    requires check == "" || (check[0] == '*' && '*' !in check[1..] && '\\' !in check)
    requires forall f :: f in fields ==> ',' !in f && '*' !in f && '\\' !in f
    requires forall k :: 0 <= k < at ==> !("s:" <= fields[k])
    requires at < |fields| ==> "s:" <= fields[at]
    ensures var id := if at < |fields| then Strip(fields[at][2..], White) else "";
      StripTagBlock("\\" + (Join(fields, ',') + check) + "\\" + sentence)
      == Stripped(sentence, if id == "" then None else Some(id))
  {
    PlainJoin(fields);
    SplitJoin(fields, ',');
    FirstSourceFrom(fields, 0, at);
    UncheckIs(Join(fields, ','), check);
    StripBlock(Join(fields, ',') + check, sentence);
  }

  lemma StripBlock(block: string, sentence: string)
    requires '\\' !in block
    ensures StripTagBlock("\\" + block + "\\" + sentence)
         == Stripped(sentence, FirstSource(Split(Uncheck(block), ','), 0))
  {
    CutTag(block, sentence);
  }

  lemma UncheckIs(block: string, check: string)
    requires '*' !in block && (check == "" || (check[0] == '*' && '*' !in check[1..]))
    ensures Uncheck(block + check) == block
  {
    var s := block + check;
    if check == "" {
      assert s == block;
    } else {
      forall k | |block| < k < |s| ensures s[k] != '*' {
        assert s[k] == check[1..][k - |block| - 1];
      }
      FindLastIs(s, '*', |block|);
      assert s[..|block|] == block;
    }
  }

  lemma {:induction false} PlainJoin(fields: seq<string>)
    requires fields != [] && forall f :: f in fields ==> '*' !in f && '\\' !in f
    ensures '*' !in Join(fields, ',') && '\\' !in Join(fields, ',')
  {
    assert fields[0] in fields;
    if |fields| > 1 { PlainJoin(fields[1..]); }
  }

  lemma {:induction false} FirstSourceFrom(fields: seq<string>, i: nat, at: nat)
    requires i <= at <= |fields| && forall k :: i <= k < at ==> !("s:" <= fields[k])
    requires at < |fields| ==> "s:" <= fields[at]
    ensures FirstSource(fields, i) == if at < |fields| then NonEmpty(fields[at][2..]) else None
    decreases at - i
  {
    if i < |fields| { assert IsSourceField(fields[i]) <==> "s:" <= fields[i]; }
    if i < at { FirstSourceFrom(fields, i + 1, at); }
  }

  /** The original line in front of what was stripped is gone entirely: a stripped
      sentence is the line itself or what follows its second backslash. */
  lemma StrippedIsSuffix(line: string)
    ensures var s := StripTagBlock(line);
      |s.sentence| <= |line| && s.sentence == line[|line| - |s.sentence|..]
      && (s.sourceId.Some? ==> s.sourceId.value != "" && |s.sentence| < |line| && line[0] == '\\')
  {
  }
}
