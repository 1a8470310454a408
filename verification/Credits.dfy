/** Which node a session's sentences are credited to. The handler never rebinds the
    NodeInfo object it got at session start, and compares every identity with that
    object's: a session that has taken an identity of its own and then names another
    known node is never credited to the first one again. */
module Credits {
  import opened Wrappers
  import opened Framing
  import opened LineSpec
  import opened HandlerSpec
  import opened RegistrySpec
  import TagBlock

  function Keys(ds: seq<Delivery>): (r: seq<string>)
    ensures |r| == |ds| && forall i :: 0 <= i < |ds| ==> r[i] == ds[i].key
  {
    seq(|ds|, i requires 0 <= i < |ds| => ds[i].key)
  }

  /** The exact rule for one line, in whatever state other threads have left the
      registry: unless set_source_id raises, a tagged sentence is credited to the
      node it names, except where the start object bears that identity and the
      session has moved to another key. */
  lemma LineCreditIff(s: Session, id: string, sentence: string, now: int)
    requires !s.raised
    ensures var t := Handled(s, Line(Some(id), sentence, true), now);
      if t.raised then t.delivered == s.delivered
      else
        && |t.delivered| == |s.delivered| + 1 && t.delivered[..|s.delivered|] == s.delivered
        && (t.delivered[|s.delivered|].key == id <==> !(SourceAt(s.nodes, s.home) == Some(id) && s.key != id))
  {
    var t := Handled(s, Line(Some(id), sentence, true), now);
    if !t.raised {
      assert t.delivered == s.delivered + [Delivery(sentence, t.key, now)];
    }
  }

  // ------------------------------------------------------------------ cursor

  /** What decides the credit: the handler's key, where the start object sits and
      the identity it bears, and the keys the registry knows. */
  datatype Cursor = Cursor(key: string, home: string, own: Option<string>, known: set<string>)

  function At(s: Session): Cursor {
    Cursor(s.key, s.home, SourceAt(s.nodes, s.home), s.nodes.Keys)
  }

  /** A line names id: nothing happens if the start object bears it; a known node is
      joined; otherwise the session's entry takes the new name. */
  function Named(c: Cursor, id: string): Cursor {
    if c.own == Some(id) then c
    else if id in c.known then c.(key := id)
    else if c.home == c.key then Cursor(id, id, Some(id), c.known - {c.key} + {id})
    else c.(key := id, known := c.known - {c.key} + {id})
  }

  function Past(c: Cursor, o: Outcome): Cursor {
    if o.Line? && o.sourceId.Some? then Named(c, o.sourceId.value) else c
  }

  function CreditOf(o: Outcome, key: string): seq<string> {
    if o.Line? && o.accepted then [key] else []
  }

  function PastAll(c: Cursor, os: seq<Outcome>): Cursor
    decreases |os|
  {
    if os == [] then c else PastAll(Past(c, os[0]), os[1..])
  }

  /** The keys the accepted lines are credited to. */
  function Credited(c: Cursor, os: seq<Outcome>): seq<string>
    decreases |os|
  {
    if os == [] then [] else CreditOf(os[0], Past(c, os[0]).key) + Credited(Past(c, os[0]), os[1..])
  }

  lemma IdentifiedAt(s: Session, id: string, now: int)
    requires Sane(s)
    ensures At(Identified(s, Some(id), now)) == Named(At(s), id)
  {
    var t := Identified(s, Some(id), now);
    if Some(id) != SourceAt(s.nodes, s.home) && id !in s.nodes {
      assert t.nodes.Keys == s.nodes.Keys - {s.key} + {id};
    }
  }

  lemma TouchedAt(m: Table, key: string, nbytes: nat, msg: bool, invalid: bool, now: int, home: string)
    requires key in m
    ensures Touched(m, key, nbytes, msg, invalid, now).Keys == m.Keys
    ensures SourceAt(Touched(m, key, nbytes, msg, invalid, now), home) == SourceAt(m, home)
  {
  }

  lemma HandledAt(s: Session, o: Outcome, now: int)
    requires Sane(s)
    ensures At(Handled(s, o, now)) == Past(At(s), o)
    ensures Keys(Handled(s, o, now).delivered) == Keys(s.delivered) + CreditOf(o, Past(At(s), o).key)
  {
    if o.Line? {
      var u := Identified(s, o.sourceId, now);
      IdentifiedSane(s, o.sourceId, now);
      if o.sourceId.Some? { IdentifiedAt(s, o.sourceId.value, now); }
      TouchedAt(u.nodes, u.key, 0, o.accepted, !o.accepted, now, u.home);
    }
  }

  lemma {:induction false} LinesCredit(s: Session, os: seq<Outcome>, now: int)
    requires Sane(s)
    ensures var t := HandledLines(s, os, now);
      At(t) == PastAll(At(s), os) && Keys(t.delivered) == Keys(s.delivered) + Credited(At(s), os)
    decreases |os|
  {
    if os != [] {
      var t := Handled(s, os[0], now);
      HandledAt(s, os[0], now);
      HandledSane(s, os[0], now);
      LinesCredit(t, os[1..], now);
      Regroup(Keys(s.delivered), CreditOf(os[0], At(t).key), Credited(At(t), os[1..]));
    }
  }

  lemma {:induction false} CreditsConcat(c: Cursor, a: seq<Outcome>, b: seq<Outcome>)
    ensures Credited(c, a + b) == Credited(c, a) + Credited(PastAll(c, a), b)
    ensures PastAll(c, a + b) == PastAll(PastAll(c, a), b)
    decreases |a|
  {
    if a == [] {
      assert a + b == b;
    } else {
      var d := Past(c, a[0]);
      assert (a + b)[1..] == a[1..] + b && (a + b)[0] == a[0];
      CreditsConcat(d, a[1..], b);
      Regroup(CreditOf(a[0], d.key), Credited(d, a[1..]), Credited(PastAll(c, a), b));
    }
  }

  lemma ChunkCredits(s: Session, buf: seq<Byte>, c: Chunk)
    requires Sane(s)
    ensures var t, os := AfterChunk(s, buf, c), Outcomes(Lines(buf + c.data));
      Sane(t) && At(t) == PastAll(At(s), os) && Keys(t.delivered) == Keys(s.delivered) + Credited(At(s), os)
  {
    TouchedAt(s.nodes, s.key, |c.data|, false, false, c.at, s.home);
    LinesCredit(Arrived(s, c), Outcomes(Lines(buf + c.data)), c.at);
    HandledLinesSane(Arrived(s, c), Outcomes(Lines(buf + c.data)), c.at);
  }

  lemma Together(before: seq<string>, c: Cursor, now: seq<Outcome>, rest: seq<Outcome>)
    ensures (before + Credited(c, now)) + Credited(PastAll(c, now), rest) == before + Credited(c, now + rest)
    ensures PastAll(PastAll(c, now), rest) == PastAll(c, now + rest)
  {
    CreditsConcat(c, now, rest);
    Regroup(before, Credited(c, now), Credited(PastAll(c, now), rest));
  }

  /** Whole sessions, with any identities on their lines and in any chunks: the keys
      delivered are those the cursor gives, line by line. */
  lemma {:induction false} SessionCredits(s: Session, buf: seq<Byte>, chunks: seq<Chunk>)
    requires Sane(s) && NEWLINE !in buf
    ensures var t := AfterStream(s, buf, chunks); var os := StreamOutcomes(buf, chunks);
      At(t) == PastAll(At(s), os) && Keys(t.delivered) == Keys(s.delivered) + Credited(At(s), os)
    decreases |chunks|
  {
    if chunks != [] && chunks[0].data != [] {
      var left := Residual(buf + chunks[0].data);
      StreamStep(buf, chunks);
      StreamNext(s, buf, chunks);
      ChunkCredits(s, buf, chunks[0]);
      SessionCredits(AfterChunk(s, buf, chunks[0]), left, chunks[1..]);
      Together(Keys(s.delivered), At(s), Outcomes(Lines(buf + chunks[0].data)), StreamOutcomes(left, chunks[1..]));
    } else {
      StreamEnd(buf, chunks);
    }
  }

  // ------------------------------------------- when every credit is the right one

  /** Every tagged accepted sentence is credited to the node its line names. */
  predicate Faithful(c: Cursor, os: seq<Outcome>)
    decreases |os|
  {
    os == [] || (!Misses(c, os[0]) && Faithful(Past(c, os[0]), os[1..]))
  }

  predicate Misses(c: Cursor, o: Outcome) {
    o.Line? && o.accepted && o.sourceId.Some? && Past(c, o).key != o.sourceId.value
  }

  /** The start object bears an identity, and the session sits elsewhere. */
  predicate Apart(c: Cursor) {
    c.own == Some(c.home) && c.key != c.home
  }

  predicate Tagged(o: Outcome, id: string) {
    o.Line? && o.accepted && o.sourceId == Some(id)
  }

  predicate SomeTagged(os: seq<Outcome>, id: string)
    decreases |os|
  {
    os != [] && (Tagged(os[0], id) || SomeTagged(os[1..], id))
  }

  /** Some line takes the session away from its own identity to another known node,
      and a later one names the own identity again. */
  predicate Strays(c: Cursor, os: seq<Outcome>)
    decreases |os|
  {
    os != [] && var d := Past(c, os[0]);
      if Apart(d) then SomeTagged(os[1..], d.home) else Strays(d, os[1..])
  }

  /** An identity the start object bears is the key it sits under. */
  predicate Regular(c: Cursor) {
    c.own.Some? && c.own.value != "" ==> c.own.value == c.home
  }

  predicate NonEmptyTag(o: Outcome) {
    o.Line? && o.sourceId.Some? ==> o.sourceId.value != ""
  }

  ghost predicate NonEmptyTags(os: seq<Outcome>) {
    forall i :: 0 <= i < |os| ==> NonEmptyTag(os[i])
  }

  /** What takes a session apart: its start object bears an identity and the line
      names another known node. */
  lemma LeavesIff(c: Cursor, id: string)
    requires Regular(c) && !Apart(c) && id != ""
    ensures Regular(Named(c, id))
    ensures Apart(Named(c, id)) <==> c.own == Some(c.home) && id != c.home && id in c.known
    ensures Named(c, id).key == id
  {
  }

  lemma StaysApart(c: Cursor, id: string)
    requires Apart(c)
    ensures var d := Named(c, id); Apart(d) && d.home == c.home
    ensures Named(c, id).key == id <==> id != c.home
  {
  }

  /** Once apart, no sentence is ever credited to the own identity again, whatever
      the lines name. */
  lemma {:induction false} NeverOwnAgain(c: Cursor, os: seq<Outcome>)
    requires Apart(c)
    ensures c.home !in Credited(c, os)
    ensures Faithful(c, os) <==> !SomeTagged(os, c.home)
    decreases |os|
  {
    if os != [] {
      if os[0].Line? && os[0].sourceId.Some? { StaysApart(c, os[0].sourceId.value); }
      NeverOwnAgain(Past(c, os[0]), os[1..]);
    }
  }

  lemma {:induction false} FaithfulIffNotStray(c: Cursor, os: seq<Outcome>)
    requires Regular(c) && !Apart(c) && NonEmptyTags(os)
    ensures Faithful(c, os) <==> !Strays(c, os)
    decreases |os|
  {
    if os != [] {
      var d := Past(c, os[0]);
      assert NonEmptyTag(os[0]);
      if os[0].Line? && os[0].sourceId.Some? { LeavesIff(c, os[0].sourceId.value); }
      if Apart(d) { NeverOwnAgain(d, os[1..]); } else { FaithfulIffNotStray(d, os[1..]); }
    }
  }

  lemma StreamTags(buf: seq<Byte>, chunks: seq<Chunk>)
    ensures NonEmptyTags(StreamOutcomes(buf, chunks))
  {
    LineTags(Lines(buf + Received(Datas(chunks))));
  }

  lemma {:induction false} LineTags(lines: seq<seq<Byte>>)
    ensures NonEmptyTags(Outcomes(lines))
  {
    if lines != [] {
      LineTags(lines[1..]);
      OutcomeTag(lines[0]);
      assert Outcomes(lines) == [OutcomeOf(lines[0])] + Outcomes(lines[1..]);
    }
  }

  lemma OutcomeTag(raw: seq<Byte>)
    ensures NonEmptyTag(OutcomeOf(raw))
  {
    TagBlock.StrippedIsSuffix(LineText(raw));
  }

  lemma OpenedAt(m: Table, peer: string, host: string, now: int)
    requires WellFormed(m) && WellNamed(m)
    ensures var s := Opened(m, peer, host, now);
      Sane(s) && Regular(At(s)) && !Apart(At(s)) && At(s) == Cursor(host, host, SourceAt(m, host), m.Keys + {host})
  {
    OpenedSane(m, peer, host, now);
    OperationsKeepWellNamed(m, peer, host, None, host, "", 0, false, false, 0, now);
  }

  /** A new session on any reachable registry credits every tagged sentence to the
      node it names if and only if it does not stray: take an identity of its own,
      name another node the registry knows, and name its own again. */
  lemma SessionFaithfulIff(m: Table, peer: string, host: string, now: int, chunks: seq<Chunk>)
    requires WellFormed(m) && WellNamed(m)
    ensures var start := Cursor(host, host, SourceAt(m, host), m.Keys + {host}); var os := StreamOutcomes([], chunks);
      && Keys(AfterStream(Opened(m, peer, host, now), [], chunks).delivered) == Credited(start, os)
      && (Faithful(start, os) <==> !Strays(start, os))
  {
    var s := Opened(m, peer, host, now);
    OpenedAt(m, peer, host, now);
    NewSessionCredits(s, chunks);
    StreamTags([], chunks);
    FaithfulIffNotStray(At(s), StreamOutcomes([], chunks));
  }

  lemma NewSessionCredits(s: Session, chunks: seq<Chunk>)
    requires Sane(s) && s.delivered == []
    ensures Keys(AfterStream(s, [], chunks).delivered) == Credited(At(s), StreamOutcomes([], chunks))
  {
    SessionCredits(s, [], chunks);
    assert Keys(s.delivered) == [];
  }

  // ---------------------------------------------------------------- examples

  /** A session on a registry that knows node b sends lines of a, b and a: the second
      sentence of a is credited to b. */
  lemma ReturnIsMiscredited(m: Table, peer: string, host: string, a: string, b: string, x: string, now: int)
    requires WellFormed(m) && WellNamed(m) && host !in m && a !in m && b in m && a != host
    ensures var os := [Line(Some(a), x, true), Line(Some(b), x, true), Line(Some(a), x, true)];
      Keys(HandledLines(Opened(m, peer, host, now), os, now).delivered) == [a, b, b]
  {
    var s := Opened(m, peer, host, now);
    var os := [Line(Some(a), x, true), Line(Some(b), x, true), Line(Some(a), x, true)];
    OpenedAt(m, peer, host, now);
    LinesCredit(s, os, now);
    ReturnAt(At(s), a, b, x);
    assert Keys(s.delivered) == [];
  }

  lemma ReturnAt(c: Cursor, a: string, b: string, x: string)
    requires c.home == c.key && c.own == None && a != b && a !in c.known && b in c.known && b != c.key
    ensures Credited(c, [Line(Some(a), x, true), Line(Some(b), x, true), Line(Some(a), x, true)]) == [a, b, b]
  {
    var la, lb := Line(Some(a), x, true), Line(Some(b), x, true);
    var os := [la, lb, la];
    var d := Past(c, la);
    var e := Past(d, lb);
    assert d == Cursor(a, a, Some(a), c.known - {c.key} + {a}) && e == d.(key := b) && Past(e, la) == e;
    assert os[1..] == [lb, la] && [lb, la][1..] == [la] && [la][1..] == [];
    assert Credited(e, [la]) == [b] && Credited(d, [lb, la]) == [b] + [b];
  }

  // ---------------------------------------------------------------- one node

  predicate Names(o: Outcome, id: string) {
    o.Line? && o.sourceId.Some? ==> o.sourceId.value == id
  }

  /** Every tagged line names the node id. */
  ghost predicate OneName(os: seq<Outcome>, id: string) {
    forall i :: 0 <= i < |os| ==> Names(os[i], id)
  }

  /** The untagged beginning goes to key, everything from the first tagged line on
      to id. */
  function FirstThen(os: seq<Outcome>, key: string, id: string): seq<string>
    decreases |os|
  {
    if os == [] then [] else
      var now := if os[0].Line? && os[0].sourceId.Some? then id else key;
      CreditOf(os[0], now) + FirstThen(os[1..], now, id)
  }

  lemma {:induction false} OneNameCredits(c: Cursor, os: seq<Outcome>, id: string)
    requires OneName(os, id) && (c.own == Some(id) ==> c.key == id)
    ensures Credited(c, os) == FirstThen(os, c.key, id)
    decreases |os|
  {
    if os != [] {
      assert Names(os[0], id);
      OneNameCredits(Past(c, os[0]), os[1..], id);
    }
  }

  /** A new session whose tag blocks all name the same node has exactly its untagged
      beginning credited to its host and everything from the first tagged line on
      to that node, whatever the registry held before. */
  lemma NodeCredits(m: Table, peer: string, host: string, now: int, chunks: seq<Chunk>, id: string)
    requires WellFormed(m) && WellNamed(m) && id != "" && OneName(StreamOutcomes([], chunks), id)
    ensures Keys(AfterStream(Opened(m, peer, host, now), [], chunks).delivered)
            == FirstThen(StreamOutcomes([], chunks), host, id)
  {
    SessionFaithfulIff(m, peer, host, now, chunks);
    OpenedAt(m, peer, host, now);
    OneNameCredits(At(Opened(m, peer, host, now)), StreamOutcomes([], chunks), id);
  }
}
