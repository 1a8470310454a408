/** The pipeline with the server's own duplicate key and sort key, from sentence
    text to output. */
module EndToEnd {
  import opened Wrappers
  import opened DedupSpec
  import opened ReorderSpec
  import opened ReorderRuns
  import opened PipelineSpec
  import opened PipelineRuns
  import Nmea
  import Payload
  import Numbers
  import Text

  /** Two accepted sentences with the same body (whatever the case of their
      checksums or the white space behind them) that both come out were checked at
      least ttl apart, or a burst came between. */
  lemma SameBodiesApart(es: seq<Step>, cfg: Config, a: nat, b: nat)
    requires Standard(cfg)
    requires a < |Buffered(RunAll(es, cfg), cfg).log| && b < |Buffered(RunAll(es, cfg), cfg).log|
    requires var log := Buffered(RunAll(es, cfg), cfg).log; var x, y := log[a].item.payload, log[b].item.payload;
      && x.origin < y.origin
      && Nmea.Accepted(x.sentence) && Nmea.Accepted(y.sentence) && Nmea.TwoHex(x.sentence) && Nmea.TwoHex(y.sentence)
      && Nmea.Body(x.sentence) == Nmea.Body(y.sentence)
    ensures var s := RunAll(es, cfg); var h := s.history;
      var i, j := Buffered(s, cfg).log[a].item.payload.origin, Buffered(s, cfg).log[b].item.payload.origin;
      && j < |h|
      && (h[j].readAt >= h[i].storedAt + cfg.ttl
          || exists m, n :: i <= m < n < j && h[m].key == h[i].key && BurstAt(h[..j], m, n, cfg.ttl, cfg.maxEntries))
  {
    var log := Buffered(RunAll(es, cfg), cfg).log;
    SameKey(cfg, log[a].item.payload.sentence, log[b].item.payload.sentence);
    DispatchesApart(es, cfg, a, b);
  }

  lemma SameKey(cfg: Config, x: string, y: string)
    requires Standard(cfg)
    requires Nmea.Accepted(x) && Nmea.Accepted(y) && Nmea.TwoHex(x) && Nmea.TwoHex(y) && Nmea.Body(x) == Nmea.Body(y)
    ensures cfg.keyOf(x) == cfg.keyOf(y)
  {
    Nmea.SameKeyIffSameBody(x, y);
  }

  // ----------------------------------------------------------------- sort key

  lemma PayloadOfParsed(sentence: string)
    requires Nmea.Parse(sentence).Some?
    ensures PayloadOf(sentence) == Nmea.Parse(sentence).value.payload
  {
    Nmea.PayloadIsFieldFive(sentence);
  }

  /** A text of any comma-separated parts is stamped with the time in the sixth one,
      and with its effective arrival if there is none. */
  lemma StampOfParts(cfg: Config, parts: seq<string>, effective: int)
    requires Standard(cfg) && parts != [] && forall p :: p in parts ==> ',' !in p
    ensures cfg.Stamp(Text.Join(parts, ','), effective)
         == if |parts| >= 6 && Payload.ExtractTimestamp(parts[5]).Some? then Payload.ExtractTimestamp(parts[5]).value
            else effective
  {
    Text.SplitJoin(parts, ',');
    StampByPayload(cfg, Text.Join(parts, ','), if |parts| > 5 then parts[5] else "", effective);
  }

  lemma StampByPayload(cfg: Config, sentence: string, payload: string, effective: int)
    requires Standard(cfg) && payload == PayloadOf(sentence)
    ensures cfg.Stamp(sentence, effective) == TimeOr(payload, effective)
  {
    Payload.TimestampExactlyWhen("");
    assert cfg.timeOf(sentence) == IntrinsicTime(sentence);
  }

  /** The time a payload carries, or the given one. */
  function TimeOr(payload: string, effective: int): int {
    match Payload.ExtractTimestamp(payload)
    case Some(t) => t
    case None => effective
  }

  /** A sentence that parses is stamped with the time in its payload, and with its
      effective arrival if the payload carries none. */
  lemma StampOfParsed(cfg: Config, sentence: string, effective: int)
    requires Standard(cfg) && Nmea.Parse(sentence).Some?
    ensures cfg.Stamp(sentence, effective) == TimeOr(Nmea.Parse(sentence).value.payload, effective)
  {
    PayloadOfParsed(sentence);
    StampByPayload(cfg, sentence, Nmea.Parse(sentence).value.payload, effective);
  }

  lemma ArmourIsPlain(b: seq<Payload.Bit>)
    requires |b| % 6 == 0
    ensures Nmea.PlainField(Payload.Armour(b))
  {
    if b != [] {
      var n := |b| - 6;
      ArmourIsPlain(b[..n]);
      Payload.ValueBound(b[n..]);
      Numbers.SmallPowers();
      Payload.ArmourInverts(Payload.Value(b[n..]));
    }
  }

  /** A base-station report, packed and armoured into any sentence, is accepted and
      stamped with the report's own instant, whenever it arrives. */
  lemma ReportStamped(cfg: Config, p: Nmea.Parsed, r: Payload.Report, effective: int)
    requires Standard(cfg) && r.Valid() && Nmea.Renderable(p)
    ensures var q := p.(payload := Payload.Armour(Payload.Pack(r))); var body := Text.Join(Nmea.Fields(q), ',');
      && Nmea.IsAscii(body) && Nmea.Accepted(Nmea.Sealed(body))
      && cfg.Stamp(Nmea.Sealed(body), effective) == r.utc.Unix()
  {
    var q := p.(payload := Payload.Armour(Payload.Pack(r)));
    ArmourIsPlain(Payload.Pack(r));
    Payload.ReportRoundTrip(r);
    Nmea.ParseRendered(q);
    StampOfParsed(cfg, Nmea.Sealed(Text.Join(Nmea.Fields(q), ',')), effective);
  }

  // ------------------------------------------------------------------- order

  predicate CarriesTime(sentence: string) {
    PayloadOf(sentence) != "" && Payload.ExtractTimestamp(PayloadOf(sentence)).Some?
  }

  lemma StampIsTime(cfg: Config, sentence: string, effective: int)
    requires Standard(cfg) && CarriesTime(sentence)
    ensures cfg.Stamp(sentence, effective) == Payload.ExtractTimestamp(PayloadOf(sentence)).value
  {
    assert cfg.timeOf(sentence) == IntrinsicTime(sentence);
  }

  /** When nothing is stamped late, the sentences that carry their own UTC time
      come out in the order of those 40 bits. */
  lemma OutputFollowsClocks(es: seq<Step>, cfg: Config, a: nat, b: nat)
    requires Standard(cfg) && NothingStampedLate(RunAll(es, cfg).events)
    requires a < b < |Buffered(RunAll(es, cfg), cfg).log|
    requires var log := Buffered(RunAll(es, cfg), cfg).log;
      CarriesTime(log[a].item.payload.sentence) && CarriesTime(log[b].item.payload.sentence)
    ensures var log := Buffered(RunAll(es, cfg), cfg).log;
      Payload.UtcCode(PayloadOf(log[a].item.payload.sentence))
      <= Payload.UtcCode(PayloadOf(log[b].item.payload.sentence))
  {
    var h, log := RunAll(es, cfg).history, Buffered(RunAll(es, cfg), cfg).log;
    OutputSorted(es, cfg, a, b);
    BitsFollow(cfg, log[a].item, log[b].item, h[log[a].item.payload.origin].effective,
        h[log[b].item.payload.origin].effective);
  }

  lemma BitsFollow(cfg: Config, x: Item<Load>, y: Item<Load>, e: int, f: int)
    requires Standard(cfg) && CarriesTime(x.payload.sentence) && CarriesTime(y.payload.sentence) && Before(x, y)
    requires x.ts == cfg.Stamp(x.payload.sentence, e) && y.ts == cfg.Stamp(y.payload.sentence, f)
    ensures Payload.UtcCode(PayloadOf(x.payload.sentence)) <= Payload.UtcCode(PayloadOf(y.payload.sentence))
  {
    StampIsTime(cfg, x.payload.sentence, e);
    StampIsTime(cfg, y.payload.sentence, f);
    Payload.TimeOrderIsBitOrder(PayloadOf(x.payload.sentence), PayloadOf(y.payload.sentence));
  }
}
