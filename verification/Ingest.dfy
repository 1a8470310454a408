/** The handler of one node session, over the shared registry. Other threads may
    use the registry between any two of its critical sections. */
module Ingest {
  import opened Wrappers
  import opened Framing
  import opened LineSpec
  import opened RegistrySpec
  import opened Registry
  import opened HandlerSpec
  import Nmea
  import TagBlock
  import Text

  /** Decoding, trimming, stripping and parsing one line. */
  method ReadLine(raw: seq<Byte>) returns (o: Outcome)
    ensures o == OutcomeOf(raw)
  {
    var line := Text.Strip(DecodeAscii(raw), Text.LineEnd);
    if line == "" {
      return Blank;
    }
    var sentence, sourceId := TagBlock.StripTag(line);
    var parsed := Nmea.Parse(sentence);
    return Line(sourceId, sentence, parsed.Some? && parsed.value.checksumOk);
  }

  /** The first line of the buffer. */
  method ReadFirst(buf: seq<Byte>, at: nat) returns (o: Outcome)
    requires FindNewline(buf, 0) == Some(at)
    ensures Outcomes(Lines(buf)) == [o] + Outcomes(Lines(buf[at + 1..])) && Residual(buf) == Residual(buf[at + 1..])
  {
    o := ReadLine(buf[..at]);
    assert Lines(buf) == [buf[..at]] + Lines(buf[at + 1..]);
  }

  class ConnectionHandler {
    const registry: NodeRegistry
    const peer: string
    const host: string
    /** Whether no other thread touches the registry during the session. */
    const alone: bool
    /** The calls of `on_sentence`. */
    var delivered: seq<Delivery>

    constructor (registry: NodeRegistry, peer: string, host: string, alone: bool)
      ensures this.registry == registry && this.peer == peer && this.host == host && this.alone == alone
      ensures delivered == []
    {
      this.registry, this.peer, this.host, this.alone, delivered := registry, peer, host, alone, [];
    }

    /** The object obtained at session start still sits in the registry. */
    ghost predicate Homed(info: NodeInfo)
      reads registry, info
    {
      info.key in registry.nodes && registry.nodes[info.key] == info
    }

    ghost function View(info: NodeInfo, key: string, raised: bool): Session
      requires registry.Valid()
      reads this, registry, registry.repr, info
    {
      Session(registry.View(), key, info.key, raised, delivered)
    }

    /** One registry operation of some other session or of the maintenance thread. */
    method Disturb()
      requires registry.Valid()
      modifies registry, registry.repr
      ensures registry.Valid() && old(registry.repr) <= registry.repr && fresh(registry.repr - old(registry.repr))
    {
      var who: string, id: string, now: int, count: nat, msg: bool, invalid: bool := *, *, *, *, *, *;
      if {
        case true => var _ := registry.OnSessionStart(who, id, None, now);
        case true => registry.OnSessionEnd(who);
        case true => var _ := registry.SetSourceId(who, id, now);
        case true => registry.Touch(who, count, msg, invalid, now);
        case true => var _ := registry.PruneInactive(count, now);
      }
    }

    /** Whatever other threads do to the registry in between. */
    method Others()
      requires registry.Valid()
      modifies registry, registry.repr
      ensures registry.Valid() && old(registry.repr) <= registry.repr && fresh(registry.repr - old(registry.repr))
      ensures alone ==> unchanged(registry) && forall o :: o in registry.repr ==> unchanged(o)
    {
      if alone {
        return;
      }
      var steps: nat := *;
      while steps > 0
        invariant registry.Valid() && old(registry.repr) <= registry.repr && fresh(registry.repr - old(registry.repr))
      {
        Disturb();
        steps := steps - 1;
      }
    }

    /** The upgrade of the session's entry, when the line names an identity other
        than the start object's. */
    method Identify(id: Option<string>, info: NodeInfo, key: string, now: int) returns (newKey: string, raised: bool)
      requires registry.Valid() && info in registry.repr && (alone ==> Homed(info))
      modifies registry, registry.repr
      ensures registry.Valid() && old(registry.repr) <= registry.repr && fresh(registry.repr - old(registry.repr))
      ensures alone ==> Homed(info)
      ensures (raised ==> id.Some? && newKey == key) && (newKey != key ==> id == Some(newKey))
      ensures alone ==> View(info, newKey, raised) == Identified(old(View(info, key, false)), id, now)
    {
      newKey, raised := key, false;
      Others();
      if id.Some? && id != info.sourceId {
        Others();
        newKey, raised := Upgrade(id.value, info, key, now);
      }
    }

    /** The call of set_source_id; an undisturbed start object keeps its place or
        moves to the new key. */
    method Upgrade(id: string, info: NodeInfo, key: string, now: int) returns (newKey: string, raised: bool)
      requires registry.Valid() && info in registry.repr
      modifies registry, registry.repr
      ensures registry.Valid() && old(registry.repr) <= registry.repr && fresh(registry.repr - old(registry.repr))
      ensures newKey == if raised then key else id
      ensures old(Homed(info)) ==> Homed(info)
      ensures old(Homed(info)) && Some(id) != old(info.sourceId) ==>
        View(info, newKey, raised) == Identified(old(View(info, key, false)), Some(id), now)
    {
      ghost var nodes, home := registry.nodes, info.key;
      var r := registry.SetSourceId(key, id, now);
      newKey, raised := if r.None? then key else id, r.None?;
      if home in nodes && nodes[home] == info {
        if r.None? || id in nodes {
          assert registry.nodes == nodes && info.key == home;
        } else if r.value == info {
          assert registry.nodes[id] == info && key == home;
        } else {
          assert registry.nodes[home] == info;
        }
      }
    }

    /** Counting the line, and passing an accepted sentence on. */
    method Judge(sentence: string, accepted: bool, info: NodeInfo, key: string, now: int)
      requires registry.Valid() && info in registry.repr && (alone ==> Homed(info))
      modifies this`delivered, registry, registry.repr
      ensures registry.Valid() && old(registry.repr) <= registry.repr && fresh(registry.repr - old(registry.repr))
      ensures alone ==> Homed(info)
      ensures delivered == old(delivered) + (if accepted then [Delivery(sentence, key, now)] else [])
      ensures alone ==> View(info, key, false) == Judged(old(View(info, key, false)), sentence, accepted, now)
    {
      Others();
      registry.Touch(key, 0, accepted, !accepted, now);
      if accepted {
        delivered := delivered + [Delivery(sentence, key, now)];
      }
    }

    /** `_handle_line` once the line is read; raised stands for the KeyError of
        set_source_id. */
    method HandleLine(o: Outcome, info: NodeInfo, key: string, now: int) returns (newKey: string, raised: bool)
      requires registry.Valid() && info in registry.repr && (alone ==> Homed(info))
      modifies this`delivered, registry, registry.repr
      ensures registry.Valid() && old(registry.repr) <= registry.repr && fresh(registry.repr - old(registry.repr))
      ensures alone ==> Homed(info)
      ensures Texts(delivered) == old(Texts(delivered)) + (if raised then [] else Delivered(o))
      ensures alone ==> View(info, newKey, raised) == Handled(old(View(info, key, false)), o, now)
    {
      newKey, raised := key, false;
      if o.Line? {
        newKey, raised := Identify(o.sourceId, info, key, now);
        if !raised {
          Judge(o.sentence, o.accepted, info, newKey, now);
        }
      }
    }

    /** Splitting off the first line of the buffer and handling it. */
    method HandleFirst(buf: seq<Byte>, at: nat, info: NodeInfo, oldKey: string, now: int)
        returns (rest: seq<Byte>, key: string, raised: bool)
      requires FindNewline(buf, 0) == Some(at)
      requires registry.Valid() && info in registry.repr && (alone ==> Homed(info))
      modifies this`delivered, registry, registry.repr
      ensures registry.Valid() && old(registry.repr) <= registry.repr && fresh(registry.repr - old(registry.repr))
      ensures alone ==> Homed(info)
      ensures |rest| < |buf| && Residual(rest) == Residual(buf)
      ensures Owed(Texts(delivered), raised, Sentences(Outcomes(Lines(rest))),
                   old(Texts(delivered)) + Sentences(Outcomes(Lines(buf))))
      ensures alone ==> HandledLines(View(info, key, raised), Outcomes(Lines(rest)), now)
                        == HandledLines(old(View(info, oldKey, false)), Outcomes(Lines(buf)), now)
    {
      ghost var before := View(info, oldKey, false);
      var line := ReadFirst(buf, at);
      rest := buf[at + 1..];
      key, raised := HandleLine(line, info, oldKey, now);
      NextLine(before, Outcomes(Lines(buf)), line, Outcomes(Lines(rest)), now);
      OwedStep(Texts(before.delivered), Delivered(line), raised, Sentences(Outcomes(Lines(rest))),
               Texts(before.delivered) + Sentences(Outcomes(Lines(buf))));
    }

    /** The inner loop: every complete line of the buffer, up to an exception. */
    method HandleBuffer(start: seq<Byte>, info: NodeInfo, oldKey: string, now: int)
        returns (buf: seq<Byte>, key: string, raised: bool)
      requires registry.Valid() && info in registry.repr && (alone ==> Homed(info))
      modifies this`delivered, registry, registry.repr
      ensures registry.Valid() && old(registry.repr) <= registry.repr && fresh(registry.repr - old(registry.repr))
      ensures alone ==> Homed(info)
      ensures !raised ==> buf == Residual(start)
      ensures Owed(Texts(delivered), raised, [], old(Texts(delivered)) + Sentences(Outcomes(Lines(start))))
      ensures alone ==>
        View(info, key, raised) == HandledLines(old(View(info, oldKey, false)), Outcomes(Lines(start)), now)
    {
      buf, key, raised := start, oldKey, false;
      ghost var all := Texts(delivered) + Sentences(Outcomes(Lines(start)));
      ghost var goal := HandledLines(View(info, key, raised), Outcomes(Lines(start)), now);
      while !raised
        invariant registry.Valid() && old(registry.repr) <= registry.repr && fresh(registry.repr - old(registry.repr))
        invariant alone ==> Homed(info)
        invariant !raised ==> Residual(buf) == Residual(start)
        invariant Owed(Texts(delivered), raised, Sentences(Outcomes(Lines(buf))), all)
        invariant alone ==> HandledLines(View(info, key, raised), Outcomes(Lines(buf)), now) == goal
        decreases |buf|
      {
        var at := FindNewline(buf, 0);
        if at.None? {
          NoLine(View(info, key, raised), buf, now);
          break;
        }
        buf, key, raised := HandleFirst(buf, at.value, info, key, now);
      }
    }

    /** Receiving one chunk and handling the lines it completes. */
    method TakeChunk(pending: seq<Byte>, c: Chunk, info: NodeInfo, oldKey: string)
        returns (buf: seq<Byte>, key: string, raised: bool)
      requires registry.Valid() && info in registry.repr && (alone ==> Homed(info))
      modifies this`delivered, registry, registry.repr
      ensures registry.Valid() && old(registry.repr) <= registry.repr && fresh(registry.repr - old(registry.repr))
      ensures alone ==> Homed(info)
      ensures !raised ==> buf == Residual(pending + c.data)
      ensures Owed(Texts(delivered), raised, [], old(Texts(delivered)) + Sentences(Outcomes(Lines(pending + c.data))))
      ensures alone ==> View(info, key, raised) == AfterChunk(old(View(info, oldKey, false)), pending, c)
    {
      Others();
      registry.Touch(oldKey, |c.data|, false, false, c.at);
      buf, key, raised := HandleBuffer(pending + c.data, info, oldKey, c.at);
    }

    /** The same, seen from the whole stream still to come. */
    method TakeFirst(pending: seq<Byte>, chunks: seq<Chunk>, info: NodeInfo, oldKey: string)
        returns (buf: seq<Byte>, key: string, raised: bool)
      requires chunks != [] && chunks[0].data != [] && NEWLINE !in pending
      requires registry.Valid() && info in registry.repr && (alone ==> Homed(info))
      modifies this`delivered, registry, registry.repr
      ensures registry.Valid() && old(registry.repr) <= registry.repr && fresh(registry.repr - old(registry.repr))
      ensures alone ==> Homed(info)
      ensures !raised ==> NEWLINE !in buf
      ensures Owed(Texts(delivered), raised, Sentences(StreamOutcomes(buf, chunks[1..])),
                   old(Texts(delivered)) + Sentences(StreamOutcomes(pending, chunks)))
      ensures alone ==> AfterStream(View(info, key, raised), buf, chunks[1..])
                        == AfterStream(old(View(info, oldKey, false)), pending, chunks)
    {
      ghost var before := View(info, oldKey, false);
      buf, key, raised := TakeChunk(pending, chunks[0], info, oldKey);
      StreamNext(before, pending, chunks);
      StreamStep(pending, chunks);
      OwedJoin(Texts(before.delivered), Texts(delivered), pending, chunks, raised,
               Texts(before.delivered) + Sentences(StreamOutcomes(pending, chunks)));
    }

    /** The receive loop. An exhausted list of chunks is a timeout or a socket
        error. */
    method Serve(chunks: seq<Chunk>, info: NodeInfo) returns (key: string, raised: bool)
      requires registry.Valid() && info in registry.repr && (alone ==> Homed(info)) && delivered == []
      modifies this`delivered, registry, registry.repr
      ensures registry.Valid() && old(registry.repr) <= registry.repr && fresh(registry.repr - old(registry.repr))
      ensures Owed(Texts(delivered), raised, [], Sentences(StreamOutcomes([], chunks)))
      ensures alone ==> View(info, key, raised) == AfterStream(old(View(info, host, false)), [], chunks)
    {
      key, raised := host, false;
      ghost var goal := AfterStream(View(info, key, raised), [], chunks);
      ghost var all := Sentences(StreamOutcomes([], chunks));
      var buf: seq<Byte>, left := [], chunks;
      assert Texts(delivered) + all == all;
      while left != [] && left[0].data != [] && !raised
        invariant registry.Valid() && old(registry.repr) <= registry.repr && fresh(registry.repr - old(registry.repr))
        invariant alone ==> Homed(info)
        invariant !raised ==> NEWLINE !in buf
        invariant Owed(Texts(delivered), raised, Sentences(StreamOutcomes(buf, left)), all)
        invariant alone ==> AfterStream(View(info, key, raised), buf, left) == goal
        decreases |left|
      {
        buf, key, raised := TakeFirst(buf, left, info, key);
        left := left[1..];
      }
      if !raised {
        StreamEnd(buf, left);
      }
    }

    /** `run`: whatever the others do, exactly the accepted sentences of the stream
        are delivered in order, or a prefix of them if set_source_id raises; left
        alone, it never raises and leaves the registry the specification says. */
    method Run(chunks: seq<Chunk>, now: int) returns (raised: bool)
      requires registry.Valid() && delivered == []
      modifies this`delivered, registry, registry.repr
      ensures registry.Valid()
      ensures if raised then Texts(delivered) <= Sentences(StreamOutcomes([], chunks))
              else Texts(delivered) == Sentences(StreamOutcomes([], chunks))
      ensures alone ==>
        var s := AfterStream(Opened(old(registry.View()), peer, host, now), [], chunks);
        !raised && delivered == s.delivered && registry.View() == Ended(s.nodes, s.key)
    {
      Others();
      var info := registry.OnSessionStart(peer, host, None, now);
      assert registry.nodes[host] == info;
      ghost var start := View(info, host, false);
      var key;
      key, raised := Serve(chunks, info);
      if alone {
        NeverRaises(start, chunks);
      }
      Others();
      registry.OnSessionEnd(key);
    }
  }

  lemma NeverRaises(s: Session, chunks: seq<Chunk>)
    requires Sane(s)
    ensures !AfterStream(s, [], chunks).raised
  {
    SessionDelivers(s, [], chunks);
  }

  /** Delivered so far plus still to come make the whole; after an exception what
      was delivered is a prefix of it. */
  ghost predicate Owed(done: seq<string>, raised: bool, rest: seq<string>, whole: seq<string>) {
    if raised then done <= whole else done + rest == whole
  }

  lemma OwedStep(done: seq<string>, now: seq<string>, raised: bool, rest: seq<string>, whole: seq<string>)
    requires Owed(done, false, now + rest, whole)
    ensures Owed(done + (if raised then [] else now), raised, rest, whole)
  {
    Regroup(done, now, rest);
    assert done + [] == done;
  }

  lemma OwedMerge(before: seq<string>, done: seq<string>, now: seq<string>, rest: seq<string>, raised: bool,
      whole: seq<string>)
    requires Owed(before, false, now + rest, whole) && Owed(done, raised, [], before + now)
    ensures Owed(done, raised, rest, whole)
  {
    Regroup(before, now, rest);
    assert done + [] == done;
  }

  lemma OwedJoin(before: seq<string>, done: seq<string>, buf: seq<Byte>, chunks: seq<Chunk>, raised: bool,
      whole: seq<string>)
    requires NEWLINE !in buf && chunks != [] && chunks[0].data != []
    requires Owed(before, false, Sentences(StreamOutcomes(buf, chunks)), whole)
    requires Owed(done, raised, [], before + Sentences(Outcomes(Lines(buf + chunks[0].data))))
    ensures Owed(done, raised, Sentences(StreamOutcomes(Residual(buf + chunks[0].data), chunks[1..])), whole)
  {
    var now, rest := Outcomes(Lines(buf + chunks[0].data)), StreamOutcomes(Residual(buf + chunks[0].data), chunks[1..]);
    StreamStep(buf, chunks);
    SummariesConcat(now, rest);
    OwedMerge(before, done, Sentences(now), Sentences(rest), raised, whole);
  }
}
