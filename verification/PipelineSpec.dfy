/** The whole in-memory pipeline as a state machine: ingest threads that check,
    draw a ticket and push; one output thread that pops and dispatches. Each step
    is one atomic action of one thread. */
module PipelineSpec {
  import opened Wrappers
  import opened DedupSpec
  import opened ReorderSpec
  import opened ReorderRuns
  import Nmea
  import Payload
  import Text

  /** The settings, the duplicate key of a sentence and the time it carries. The
      server's own choice of the last two is `Standard`; the argument holds for
      any. */
  datatype Config = Config(ttl: int, maxEntries: nat, hold: int, maxQueue: nat,
                           keyOf: string -> Key, timeOf: string -> Option<int>) {
    predicate Valid() { maxEntries >= 1 && maxQueue >= 1 }

    /** The sort key: the sentence's own UTC time if it carries one, and else the
        arrival time of the first copy. */
    function Stamp(sentence: string, effective: int): int {
      var intrinsic := timeOf(sentence);
      if intrinsic.Some? then intrinsic.value else effective
    }
  }

  /** Field 5 of the sentence. */
  function PayloadOf(sentence: string): string {
    var parts := Text.Split(sentence, ',');
    if |parts| > 5 then parts[5] else ""
  }

  function IntrinsicTime(sentence: string): Option<int> {
    var payload := PayloadOf(sentence);
    if payload != "" then Payload.ExtractTimestamp(payload) else None
  }

  ghost predicate Standard(cfg: Config) {
    cfg.Valid() && cfg.keyOf == Nmea.Canonicalise && cfg.timeOf == IntrinsicTime
  }

  /** What is pushed: the sentence, its node, its arrival time, and (to tell equal
      sentences apart) the index of the verdict it comes from. */
  datatype Load = Load(origin: nat, sentence: string, peer: string, arrival: int)

  /** The detector's history and cache; the sentences judged new whose thread has
      no ticket yet, has a ticket, or has pushed; the steps of the jitter buffer;
      and how many released sentences have been dispatched. */
  datatype State = State(history: seq<Verdict>, caches: seq<map<Key, Entry>>, loads: seq<Load>,
                         checked: set<nat>, ticketed: map<nat, nat>, entered: map<nat, Item<Load>>,
                         nextSeq: nat, events: seq<Event<Load>>, dispatched: nat)

  datatype Step =
    | Check(v: Verdict, sentence: string, peer: string, cache: map<Key, Entry>)
    | Draw(origin: nat)
    | Push(origin: nat)
    | PopReady(now: int)
    | Dispatch

  ghost function Buffered(s: State, cfg: Config): Trace<Load>
    requires cfg.Valid()
  {
    Run(s.events, cfg.maxQueue)
  }

  ghost predicate Enabled(s: State, e: Step, cfg: Config)
    requires cfg.Valid()
  {
    match e
    case Check(v, sentence, _, cache) =>
      && |s.caches| == |s.history| + 1
      && v.key == cfg.keyOf(sentence)
      && (s.history != [] ==> s.history[|s.history| - 1].storedAt <= v.readAt)
      && Checked(s.caches[|s.history|], v, cfg.ttl, cfg.maxEntries, cache)
    case Draw(origin) => origin in s.checked
    case Push(origin) => origin in s.ticketed && origin < |s.loads| && origin < |s.history|
    case PopReady(_) => s.dispatched == |Buffered(s, cfg).log|   // the output thread dispatches all it popped first
    case Dispatch => s.dispatched < |Buffered(s, cfg).log|
  }

  function ItemOf(s: State, origin: nat, cfg: Config): Item<Load>
    requires origin in s.ticketed && origin < |s.loads| && origin < |s.history|
  {
    Item(cfg.Stamp(s.loads[origin].sentence, s.history[origin].effective), s.ticketed[origin], s.loads[origin])
  }

  ghost function Effect(s: State, e: Step, cfg: Config): State
    requires cfg.Valid() && Enabled(s, e, cfg)
  {
    match e
    case Check(v, sentence, peer, cache) =>
      var i := |s.history|;
      s.(history := s.history + [v], caches := s.caches + [cache],
         loads := s.loads + [Load(i, sentence, peer, v.arrival)],
         checked := if v.isNew then s.checked + {i} else s.checked)
    case Draw(origin) =>
      s.(checked := s.checked - {origin}, ticketed := s.ticketed[origin := s.nextSeq], nextSeq := s.nextSeq + 1)
    case Push(origin) =>
      var x := ItemOf(s, origin, cfg);
      s.(ticketed := s.ticketed - {origin}, entered := s.entered[origin := x], events := s.events + [Enter(x)])
    case PopReady(now) => s.(events := s.events + [Drain(now - cfg.hold)])
    case Dispatch => s.(dispatched := s.dispatched + 1)
  }

  ghost function After(s: State, e: Step, cfg: Config): State
    requires cfg.Valid()
  {
    if Enabled(s, e, cfg) then Effect(s, e, cfg) else s
  }

  ghost function RunAll(es: seq<Step>, cfg: Config): State
    requires cfg.Valid()
  {
    if es == [] then State([], [map[]], [], {}, map[], map[], 0, [], 0)
    else After(RunAll(es[..|es| - 1], cfg), es[|es| - 1], cfg)
  }

  // -------------------------------------------------------------- invariant

  ghost predicate Keyed(s: State, i: nat, cfg: Config)
    requires i < |s.history| && i < |s.loads|
  {
    s.loads[i].origin == i && s.history[i].key == cfg.keyOf(s.loads[i].sentence)
  }

  ghost predicate DetectorOk(s: State, cfg: Config) {
    && Runs(s.history, s.caches, cfg.ttl, cfg.maxEntries)
    && |s.loads| == |s.history|
    && forall i {:trigger Keyed(s, i, cfg)} :: 0 <= i < |s.history| ==> Keyed(s, i, cfg)
  }

  predicate NewAt(h: seq<Verdict>, i: nat) {
    i < |h| && h[i].isNew
  }

  /** Verdict i is new exactly when it is checked, ticketed or entered, and it is
      only one of them. */
  ghost predicate PlacedAt(s: State, i: nat) {
    && (NewAt(s.history, i) <==> i in s.checked || i in s.ticketed || i in s.entered)
    && !(i in s.checked && i in s.ticketed) && !(i in s.checked && i in s.entered)
        && !(i in s.ticketed && i in s.entered)
  }

  ghost predicate Placed(s: State) {
    forall i: nat {:trigger PlacedAt(s, i)} :: PlacedAt(s, i)
  }

  predicate HasTicket(s: State, i: nat) {
    i in s.ticketed || i in s.entered
  }

  function TicketOf(s: State, i: nat): nat
    requires HasTicket(s, i)
  {
    if i in s.ticketed then s.ticketed[i] else s.entered[i].seqNo
  }

  ghost predicate SameTicket(s: State, i: nat, j: nat) {
    i != j && HasTicket(s, i) && HasTicket(s, j) && TicketOf(s, i) == TicketOf(s, j)
  }

  ghost predicate Tickets(s: State) {
    && (forall i: nat, j: nat {:trigger SameTicket(s, i, j)} :: !SameTicket(s, i, j))
    && (forall i: nat {:trigger HasTicket(s, i)} :: HasTicket(s, i) ==> TicketOf(s, i) < s.nextSeq)
  }

  ghost predicate EnteredAt(s: State, i: nat, cfg: Config)
    requires i in s.entered
  {
    && i < |s.loads| && i < |s.history|
    && s.entered[i].payload == s.loads[i] && s.loads[i].origin == i
    && s.entered[i].ts == cfg.Stamp(s.loads[i].sentence, s.history[i].effective)
    && s.entered[i] in PushedItems(s.events)
  }

  ghost predicate Entries(s: State, cfg: Config) {
    && UniqueTickets(s.events)
    && (forall i {:trigger EnteredAt(s, i, cfg)} :: i in s.entered ==> EnteredAt(s, i, cfg))
    && (forall x :: x in PushedItems(s.events) ==> x.payload.origin in s.entered && s.entered[x.payload.origin] == x)
  }

  ghost predicate Inv(s: State, cfg: Config) {
    && cfg.Valid() && DetectorOk(s, cfg) && Placed(s) && Tickets(s) && Entries(s, cfg)
    && s.dispatched <= |Buffered(s, cfg).log|
  }
}
