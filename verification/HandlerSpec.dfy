/** One node session on values: what a handler does to the registry, and which
    sentences it delivers. */
module HandlerSpec {
  import opened Wrappers
  import opened Framing
  import opened LineSpec
  import opened RegistrySpec

  // ---------------------------------------------------------------- session

  /** A call of `on_sentence`. */
  datatype Delivery = Delivery(sentence: string, key: string, at: int)

  /** The registry; the key the handler holds; the key under which the NodeInfo
      object obtained at session start sits now (the handler never rebinds it);
      whether set_source_id has raised; and the calls of `on_sentence` so far. */
  datatype Session = Session(nodes: Table, key: string, home: string, raised: bool, delivered: seq<Delivery>)

  function SourceAt(m: Table, home: string): Option<string> {
    if home in m then m[home].sourceId else None
  }

  /** The upgrade of a session whose line names a new identity. The start object
      moves along exactly when it is the one popped. */
  function Identified(s: Session, id: Option<string>, now: int): Session {
    if id.None? || id == SourceAt(s.nodes, s.home) then s else
      match Upgraded(s.nodes, s.key, id.value, now)
      case None => s.(raised := true)
      case Some(m) => s.(nodes := m, key := id.value, home := if s.home in m then s.home else id.value)
  }

  /** Counting a sentence, or an invalid line, against the session's node. */
  function Judged(s: Session, sentence: string, accepted: bool, now: int): Session {
    if s.raised then s
    else if accepted then
      s.(nodes := Touched(s.nodes, s.key, 0, true, false, now),
         delivered := s.delivered + [Delivery(sentence, s.key, now)])
    else s.(nodes := Touched(s.nodes, s.key, 0, false, true, now))
  }

  /** `_handle_line`. */
  function Handled(s: Session, o: Outcome, now: int): Session {
    match o
    case Blank => s
    case Line(id, sentence, accepted) => Judged(Identified(s, id, now), sentence, accepted, now)
  }

  function HandledLines(s: Session, os: seq<Outcome>, now: int): Session
    decreases |os|
  {
    if os == [] || s.raised then s else HandledLines(Handled(s, os[0], now), os[1..], now)
  }

  /** What recv returned, and the clock when it did. */
  datatype Chunk = Chunk(data: seq<Byte>, at: int)

  function Datas(chunks: seq<Chunk>): (r: seq<seq<Byte>>)
    ensures |r| == |chunks| && forall i :: 0 <= i < |chunks| ==> r[i] == chunks[i].data
  {
    seq(|chunks|, i requires 0 <= i < |chunks| => chunks[i].data)
  }

  function Arrived(s: Session, c: Chunk): Session {
    s.(nodes := Touched(s.nodes, s.key, |c.data|, false, false, c.at))
  }

  function AfterChunk(s: Session, buf: seq<Byte>, c: Chunk): Session {
    HandledLines(Arrived(s, c), Outcomes(Lines(buf + c.data)), c.at)
  }

  /** The receive loop, up to the end of the stream or an exception. */
  function AfterStream(s: Session, buf: seq<Byte>, chunks: seq<Chunk>): Session
    decreases |chunks|
  {
    if chunks == [] || chunks[0].data == [] || s.raised then s
    else AfterStream(AfterChunk(s, buf, chunks[0]), Residual(buf + chunks[0].data), chunks[1..])
  }

  function Opened(m: Table, peer: string, host: string, now: int): Session {
    Session(Started(m, peer, host, None, now), host, host, false, [])
  }

  // -------------------------------------------------- a session left to itself

  /** The session's entry and the start object are both in the registry. */
  ghost predicate Sane(s: Session) {
    WellFormed(s.nodes) && s.key in s.nodes && s.home in s.nodes && !s.raised
  }

  lemma OpenedSane(m: Table, peer: string, host: string, now: int)
    requires WellFormed(m)
    ensures Sane(Opened(m, peer, host, now))
  {
  }

  lemma IdentifiedSane(s: Session, id: Option<string>, now: int)
    requires Sane(s)
    ensures Sane(Identified(s, id, now)) && Identified(s, id, now).delivered == s.delivered
    ensures id.Some? ==> Identified(s, id, now).key == id.value
                         || (Identified(s, id, now) == s && SourceAt(s.nodes, s.home) == id)
  {
    if id.Some? { OperationsKeepWellFormed(s.nodes, "", "", None, s.key, id.value, 0, false, false, 0, now); }
  }

  lemma HandledSane(s: Session, o: Outcome, now: int)
    requires Sane(s)
    ensures Sane(Handled(s, o, now))
    ensures Texts(Handled(s, o, now).delivered) == Texts(s.delivered) + Sentences([o])
  {
    assert Sentences([o]) == Delivered(o) + Sentences([]);
    if o.Line? {
      IdentifiedSane(s, o.sourceId, now);
    }
  }

  function Texts(ds: seq<Delivery>): (r: seq<string>)
    ensures |r| == |ds| && forall i :: 0 <= i < |ds| ==> r[i] == ds[i].sentence
  {
    seq(|ds|, i requires 0 <= i < |ds| => ds[i].sentence)
  }

  lemma {:induction false} HandledLinesSane(s: Session, os: seq<Outcome>, now: int)
    requires Sane(s)
    ensures Sane(HandledLines(s, os, now))
    ensures Texts(HandledLines(s, os, now).delivered) == Texts(s.delivered) + Sentences(os)
    decreases |os|
  {
    if os != [] {
      var t := Handled(s, os[0], now);
      HandledSane(s, os[0], now);
      HandledLinesSane(t, os[1..], now);
      OneMore(os, Texts(s.delivered));
      assert HandledLines(s, os, now) == HandledLines(t, os[1..], now);
    }
  }

  lemma OneMore(os: seq<Outcome>, before: seq<string>)
    requires os != []
    ensures (before + Sentences([os[0]])) + Sentences(os[1..]) == before + Sentences(os)
  {
    var o, rest := os[0], Sentences(os[1..]);
    assert Sentences([o]) == Delivered(o) by { assert [o][1..] == []; }
    Regroup(before, Delivered(o), rest);
  }

  lemma Regroup<T>(a: seq<T>, b: seq<T>, c: seq<T>)
    ensures (a + b) + c == a + (b + c)
  {
  }

  /** What a stream amounts to, on top of what is buffered. */
  function StreamOutcomes(buf: seq<Byte>, chunks: seq<Chunk>): seq<Outcome> {
    Outcomes(Lines(buf + Received(Datas(chunks))))
  }

  lemma StreamStep(buf: seq<Byte>, chunks: seq<Chunk>)
    requires NEWLINE !in buf && chunks != [] && chunks[0].data != []
    ensures NEWLINE !in Residual(buf + chunks[0].data)
    ensures StreamOutcomes(buf, chunks)
            == Outcomes(Lines(buf + chunks[0].data)) + StreamOutcomes(Residual(buf + chunks[0].data), chunks[1..])
    ensures Received(Datas(chunks)) == chunks[0].data + Received(Datas(chunks[1..]))
  {
    var first, rest := buf + chunks[0].data, Received(Datas(chunks[1..]));
    FramingRebuilds(first);
    assert Datas(chunks)[1..] == Datas(chunks[1..]);
    assert buf + Received(Datas(chunks)) == first + rest;
    FramingIsIncremental(first, rest);
    OutcomesConcat(Lines(first), Lines(Residual(first) + rest));
  }

  lemma StreamEnd(buf: seq<Byte>, chunks: seq<Chunk>)
    requires NEWLINE !in buf && (chunks == [] || chunks[0].data == [])
    ensures StreamOutcomes(buf, chunks) == [] && Received(Datas(chunks)) == []
  {
    assert Datas(chunks) == [] || Datas(chunks)[0] == [];
    assert buf + Received(Datas(chunks)) == buf;
  }

  /** The lines of a buffer one at a time. */
  lemma NextLine(s: Session, all: seq<Outcome>, o: Outcome, rest: seq<Outcome>, now: int)
    requires all == [o] + rest && !s.raised
    ensures HandledLines(s, all, now) == HandledLines(Handled(s, o, now), rest, now)
    ensures Sentences(all) == Delivered(o) + Sentences(rest)
  {
    assert all[1..] == rest;
  }

  lemma NoLine(s: Session, buf: seq<Byte>, now: int)
    requires FindNewline(buf, 0).None?
    ensures HandledLines(s, Outcomes(Lines(buf)), now) == s && Sentences(Outcomes(Lines(buf))) == []
        && Residual(buf) == buf
  {
  }

  lemma StreamNext(s: Session, buf: seq<Byte>, chunks: seq<Chunk>)
    requires chunks != [] && chunks[0].data != [] && !s.raised
    ensures var t := AfterChunk(s, buf, chunks[0]);
      && AfterStream(s, buf, chunks) == AfterStream(t, Residual(buf + chunks[0].data), chunks[1..])
      && (t.raised ==> forall b :: AfterStream(t, b, chunks[1..]) == t)
  {
  }

  /** A session no other thread disturbs never raises, on any well-formed registry
      it joins, and delivers exactly the accepted sentences of its stream in
      order, however the stream is cut. */
  lemma {:induction false} SessionDelivers(s: Session, buf: seq<Byte>, chunks: seq<Chunk>)
    requires Sane(s) && NEWLINE !in buf
    ensures Sane(AfterStream(s, buf, chunks))
    ensures Texts(AfterStream(s, buf, chunks).delivered) == Texts(s.delivered) + Sentences(StreamOutcomes(buf, chunks))
    decreases |chunks|
  {
    if chunks != [] && chunks[0].data != [] {
      var os := Outcomes(Lines(buf + chunks[0].data));
      HandledLinesSane(Arrived(s, chunks[0]), os, chunks[0].at);
      StreamStep(buf, chunks);
      var left := Residual(buf + chunks[0].data);
      SessionDelivers(AfterChunk(s, buf, chunks[0]), left, chunks[1..]);
      SummariesConcat(os, StreamOutcomes(left, chunks[1..]));
    } else {
      StreamEnd(buf, chunks);
    }
  }

  // -------------------------------------------------------------- accounting

  /** How far the registry-wide totals of messages, invalid lines and bytes have
      moved. */
  ghost predicate Moved(m: Table, m': Table, messages: int, invalid: int, bytes: int) {
    && Total(m', Messages) == Total(m, Messages) + messages
    && Total(m', Invalid) == Total(m, Invalid) + invalid
    && Total(m', Bytes) == Total(m, Bytes) + bytes
  }

  lemma TouchMoves(m: Table, key: string, nbytes: nat, msg: bool, invalid: bool, now: int)
    requires key in m
    ensures Moved(m, Touched(m, key, nbytes, msg, invalid, now), if msg then 1 else 0, if invalid then 1 else 0, nbytes)
  {
    var n := Touched(m, key, nbytes, msg, invalid, now)[key];
    TotalUpdate(m, key, n, Messages);
    TotalUpdate(m, key, n, Invalid);
    TotalUpdate(m, key, n, Bytes);
  }

  lemma IdentifiedMoves(s: Session, id: Option<string>, now: int)
    ensures Moved(s.nodes, Identified(s, id, now).nodes, 0, 0, 0)
  {
    if id.Some? {
      UpgradeConserves(s.nodes, s.key, id.value, now, Messages);
      UpgradeConserves(s.nodes, s.key, id.value, now, Invalid);
      UpgradeConserves(s.nodes, s.key, id.value, now, Bytes);
    }
  }

  lemma HandledMoves(s: Session, o: Outcome, now: int)
    requires Sane(s)
    ensures Moved(s.nodes, Handled(s, o, now).nodes, |Sentences([o])|, Rejected([o]), 0)
  {
    assert Sentences([o]) == Delivered(o) + Sentences([]);
    if o.Line? {
      IdentifiedSane(s, o.sourceId, now);
      IdentifiedMoves(s, o.sourceId, now);
      var u := Identified(s, o.sourceId, now);
      TouchMoves(u.nodes, u.key, 0, o.accepted, !o.accepted, now);
    }
  }

  lemma {:induction false} HandledLinesMoves(s: Session, os: seq<Outcome>, now: int)
    requires Sane(s)
    ensures Moved(s.nodes, HandledLines(s, os, now).nodes, |Sentences(os)|, Rejected(os), 0)
    decreases |os|
  {
    if os != [] {
      HandledSane(s, os[0], now);
      HandledMoves(s, os[0], now);
      HandledLinesMoves(Handled(s, os[0], now), os[1..], now);
      SummariesConcat([os[0]], os[1..]);
      assert os == [os[0]] + os[1..];
    }
  }

  /** The registry accounts for the whole stream: every received byte, one message
      for each delivered sentence, one invalid count for each other non-blank
      line, whatever identities the lines name. */
  lemma {:induction false} SessionAccounts(s: Session, buf: seq<Byte>, chunks: seq<Chunk>)
    requires Sane(s) && NEWLINE !in buf
    ensures var os := StreamOutcomes(buf, chunks);
      Moved(s.nodes, AfterStream(s, buf, chunks).nodes, |Sentences(os)|, Rejected(os), |Received(Datas(chunks))|)
    decreases |chunks|
  {
    if chunks != [] && chunks[0].data != [] {
      var os := Outcomes(Lines(buf + chunks[0].data));
      var t := Arrived(s, chunks[0]);
      TouchMoves(s.nodes, s.key, |chunks[0].data|, false, false, chunks[0].at);
      HandledLinesSane(t, os, chunks[0].at);
      HandledLinesMoves(t, os, chunks[0].at);
      StreamStep(buf, chunks);
      var left := Residual(buf + chunks[0].data);
      SessionAccounts(AfterChunk(s, buf, chunks[0]), left, chunks[1..]);
      SummariesConcat(os, StreamOutcomes(left, chunks[1..]));
    } else {
      StreamEnd(buf, chunks);
    }
  }

  // ------------------------------------------------------- entry by entry

  /** From s to t the entry under the session's key gained the counts, and nothing
      else in the registry changed but when that entry was last seen. */
  ghost predicate Gained(s: Session, t: Session, messages: nat, invalid: nat, bytes: nat) {
    && t.key == s.key && t.home == s.home && t.nodes.Keys == s.nodes.Keys && s.key in s.nodes
    && (forall k :: k in s.nodes && k != s.key ==> t.nodes[k] == s.nodes[k])
    && var n, u := s.nodes[s.key], t.nodes[s.key];
       && u.bytesRx == n.bytesRx + bytes && u.messages == n.messages + messages && u.invalid == n.invalid + invalid
       && u == n.(bytesRx := u.bytesRx, messages := u.messages, invalid := u.invalid, lastSeen := u.lastSeen)
  }

  /** The bytes of a chunk go to the entry under the handler's key, seen at that
      moment; the session goes on as before. */
  lemma ArrivedEntry(s: Session, c: Chunk)
    ensures s.key in s.nodes ==> Gained(s, Arrived(s, c), 0, 0, |c.data|) && Arrived(s, c).nodes[s.key].lastSeen == c.at
    ensures s.key !in s.nodes ==> Arrived(s, c) == s
    ensures Arrived(s, c).delivered == s.delivered && Arrived(s, c).raised == s.raised
  {
  }

  /** What is delivered for the lines of a chunk comes after what was delivered before,
      and carries the clock of that chunk as its arrival time. */
  lemma {:induction false} DeliveredNow(s: Session, os: seq<Outcome>, now: int)
    ensures var t := HandledLines(s, os, now);
      s.delivered <= t.delivered && forall i :: |s.delivered| <= i < |t.delivered| ==> t.delivered[i].at == now
    decreases |os|
  {
    if os != [] && !s.raised { DeliveredNow(Handled(s, os[0], now), os[1..], now); }
  }

  /** No line names an identity. */
  ghost predicate Untagged(os: seq<Outcome>) {
    forall i :: 0 <= i < |os| ==> os[i].Line? ==> os[i].sourceId.None?
  }

  lemma HandledEntry(s: Session, o: Outcome, now: int)
    requires Sane(s) && (o.Line? ==> o.sourceId.None?)
    ensures Gained(s, Handled(s, o, now), |Sentences([o])|, Rejected([o]), 0)
  {
    assert Sentences([o]) == Delivered(o) + Sentences([]);
    assert Rejected([o]) == (if o.Line? && !o.accepted then 1 else 0) + Rejected([]);
  }

  lemma GainedTwice(s: Session, t: Session, u: Session, a: nat, b: nat, c: nat, x: nat, y: nat, z: nat)
    requires Gained(s, t, a, b, c) && Gained(t, u, x, y, z)
    ensures Gained(s, u, a + x, b + y, c + z)
  {
  }

  lemma {:induction false} HandledLinesEntry(s: Session, os: seq<Outcome>, now: int)
    requires Sane(s) && Untagged(os)
    ensures Gained(s, HandledLines(s, os, now), |Sentences(os)|, Rejected(os), 0)
    decreases |os|
  {
    if os != [] {
      var t, rest := Handled(s, os[0], now), os[1..];
      HandledSane(s, os[0], now);
      HandledEntry(s, os[0], now);
      HandledLinesEntry(t, rest, now);
      SummariesConcat([os[0]], rest);
      assert os == [os[0]] + rest;
      GainedTwice(s, t, HandledLines(t, rest, now), |Sentences([os[0]])|, Rejected([os[0]]), 0, |Sentences(rest)|,
                  Rejected(rest), 0);
    }
  }

  lemma ChunkEntry(s: Session, buf: seq<Byte>, c: Chunk)
    requires Sane(s) && Untagged(Outcomes(Lines(buf + c.data)))
    ensures var os := Outcomes(Lines(buf + c.data));
      Gained(s, AfterChunk(s, buf, c), |Sentences(os)|, Rejected(os), |c.data|)
  {
    var os := Outcomes(Lines(buf + c.data));
    ArrivedEntry(s, c);
    HandledLinesEntry(Arrived(s, c), os, c.at);
    GainedTwice(s, Arrived(s, c), AfterChunk(s, buf, c), 0, 0, |c.data|, |Sentences(os)|, Rejected(os), 0);
  }

  /** A session whose lines name no identity is accounted for under its own key alone:
      all its bytes, its delivered sentences and its rejected lines. */
  lemma {:induction false} UntaggedAccounts(s: Session, buf: seq<Byte>, chunks: seq<Chunk>)
    requires Sane(s) && NEWLINE !in buf && Untagged(StreamOutcomes(buf, chunks))
    ensures var os := StreamOutcomes(buf, chunks);
      Gained(s, AfterStream(s, buf, chunks), |Sentences(os)|, Rejected(os), |Received(Datas(chunks))|)
    decreases |chunks|
  {
    if chunks != [] && chunks[0].data != [] {
      StreamStep(buf, chunks);
      var left := Residual(buf + chunks[0].data);
      var os, rest := Outcomes(Lines(buf + chunks[0].data)), StreamOutcomes(left, chunks[1..]);
      UntaggedParts(os, rest);
      var t := AfterChunk(s, buf, chunks[0]);
      HandledLinesSane(Arrived(s, chunks[0]), os, chunks[0].at);
      ChunkEntry(s, buf, chunks[0]);
      UntaggedAccounts(t, left, chunks[1..]);
      SummariesConcat(os, rest);
      GainedTwice(s, t, AfterStream(t, left, chunks[1..]), |Sentences(os)|, Rejected(os), |chunks[0].data|,
                  |Sentences(rest)|, Rejected(rest), |Received(Datas(chunks[1..]))|);
    } else {
      StreamEnd(buf, chunks);
    }
  }

  lemma UntaggedParts(a: seq<Outcome>, b: seq<Outcome>)
    requires Untagged(a + b)
    ensures Untagged(a) && Untagged(b)
  {
    forall i | 0 <= i < |a| ensures a[i].Line? ==> a[i].sourceId.None? {
      assert (a + b)[i] == a[i];
    }
    forall i | 0 <= i < |b| ensures b[i].Line? ==> b[i].sourceId.None? {
      assert (a + b)[|a| + i] == b[i];
    }
  }
}
