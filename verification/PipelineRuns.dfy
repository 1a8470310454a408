/** What every run of the pipeline keeps: where each sentence is, and how far apart
    two copies of it can be dispatched. */
module PipelineRuns {
  import opened DedupSpec
  import opened ReorderSpec
  import opened ReorderRuns
  import opened PipelineSpec

  // --------------------------------------------------- each step keeps the invariant

  lemma CheckKeepsDetector(s: State, e: Step, cfg: Config)
    requires cfg.Valid() && DetectorOk(s, cfg) && e.Check? && Enabled(s, e, cfg)
    ensures DetectorOk(Effect(s, e, cfg), cfg)
  {
    var t := Effect(s, e, cfg);
    RunOneMore(s.history, s.caches, e.v, e.cache, cfg.ttl, cfg.maxEntries);
    forall i: nat | i < |t.history| ensures Keyed(t, i, cfg) {
      if i < |s.history| { assert Keyed(s, i, cfg); }
    }
  }

  lemma CheckKeeps(s: State, e: Step, cfg: Config)
    requires Inv(s, cfg) && e.Check? && Enabled(s, e, cfg)
    ensures Inv(Effect(s, e, cfg), cfg)
  {
    var t := Effect(s, e, cfg);
    CheckKeepsDetector(s, e, cfg);
    forall i: nat ensures PlacedAt(t, i) {
      assert PlacedAt(s, i);
    }
    forall i: nat, j: nat ensures !SameTicket(t, i, j) {
      assert !SameTicket(s, i, j);
    }
    forall i: nat | HasTicket(t, i) ensures TicketOf(t, i) < t.nextSeq {
      assert HasTicket(s, i);
    }
    forall i | i in t.entered ensures EnteredAt(t, i, cfg) {
      assert EnteredAt(s, i, cfg);
    }
  }

  lemma DrawKeeps(s: State, origin: nat, cfg: Config)
    requires Inv(s, cfg) && origin in s.checked
    ensures Inv(Effect(s, Draw(origin), cfg), cfg)
  {
    var t := Effect(s, Draw(origin), cfg);
    assert PlacedAt(s, origin);
    forall i: nat ensures PlacedAt(t, i) {
      assert PlacedAt(s, i);
    }
    forall i: nat | HasTicket(t, i)
      ensures i != origin ==> HasTicket(s, i) && TicketOf(t, i) == TicketOf(s, i)
      ensures TicketOf(t, i) < t.nextSeq
    {
      assert i != origin ==> HasTicket(s, i);
    }
    forall i: nat, j: nat ensures !SameTicket(t, i, j) {
      assert !SameTicket(s, i, j);
    }
    forall i: nat {:trigger Keyed(t, i, cfg)} | i < |t.history| ensures Keyed(t, i, cfg) {
      assert Keyed(s, i, cfg);
    }
    forall i | i in t.entered ensures EnteredAt(t, i, cfg) {
      assert EnteredAt(s, i, cfg);
    }
  }

  lemma PushKeeps(s: State, origin: nat, cfg: Config)
    requires Inv(s, cfg) && Enabled(s, Push(origin), cfg)
    ensures Inv(Effect(s, Push(origin), cfg), cfg)
  {
    var t := Effect(s, Push(origin), cfg);
    var x := ItemOf(s, origin, cfg);
    assert PlacedAt(s, origin) && Keyed(s, origin, cfg) && HasTicket(s, origin);
    forall i: nat ensures PlacedAt(t, i) {
      assert PlacedAt(s, i);
    }
    forall i: nat | HasTicket(t, i) ensures HasTicket(s, i) && TicketOf(t, i) == TicketOf(s, i) {
      assert i != origin ==> HasTicket(s, i);
      assert PlacedAt(s, i);
    }
    forall i: nat, j: nat ensures !SameTicket(t, i, j) {
      assert !SameTicket(s, i, j);
    }
    FreshTicket(s, origin, cfg);
    PushEntries(s, origin, cfg);
    RunAppend(s.events, Enter(x), cfg.maxQueue);
    forall i: nat {:trigger Keyed(t, i, cfg)} | i < |t.history| ensures Keyed(t, i, cfg) {
      assert Keyed(s, i, cfg);
    }
  }

  lemma FreshTicket(s: State, origin: nat, cfg: Config)
    requires Inv(s, cfg) && origin in s.ticketed
    ensures forall x :: x in PushedItems(s.events) ==> x.seqNo != s.ticketed[origin]
    ensures forall i :: 0 <= i < |s.events| && s.events[i].Enter? ==> s.events[i].item.seqNo != s.ticketed[origin]
  {
    forall x | x in PushedItems(s.events) ensures x.seqNo != s.ticketed[origin] {
      var o := x.payload.origin;
      assert HasTicket(s, o) && HasTicket(s, origin) && !SameTicket(s, o, origin) && PlacedAt(s, o);
    }
    forall i | 0 <= i < |s.events| && s.events[i].Enter? ensures s.events[i].item.seqNo != s.ticketed[origin] {
      assert s.events[i].item in PushedItems(s.events);
    }
  }

  lemma PushEntries(s: State, origin: nat, cfg: Config)
    requires Inv(s, cfg) && Enabled(s, Push(origin), cfg)
    requires forall i :: 0 <= i < |s.events| && s.events[i].Enter? ==> s.events[i].item.seqNo != s.ticketed[origin]
    ensures Entries(Effect(s, Push(origin), cfg), cfg)
  {
    assert Keyed(s, origin, cfg) && PlacedAt(s, origin);
    AddEntry(s, Effect(s, Push(origin), cfg), origin, ItemOf(s, origin, cfg), cfg);
  }

  lemma AddEntry(s: State, t: State, origin: nat, x: Item<Load>, cfg: Config)
    requires Entries(s, cfg) && origin !in s.entered && origin < |s.loads| && origin < |s.history|
    requires x.payload == s.loads[origin] && x.payload.origin == origin
    requires x.ts == cfg.Stamp(s.loads[origin].sentence, s.history[origin].effective)
    requires forall i :: 0 <= i < |s.events| && s.events[i].Enter? ==> s.events[i].item.seqNo != x.seqNo
    requires t.events == s.events + [Enter(x)] && t.entered == s.entered[origin := x]
    requires t.loads == s.loads && t.history == s.history
    ensures Entries(t, cfg)
  {
    TicketsAppend(s.events, Enter(x));
    PushedItemsStep(t.events);
    assert t.events[..|s.events|] == s.events;
    forall i | i in t.entered ensures EnteredAt(t, i, cfg) {
      if i != origin { assert EnteredAt(s, i, cfg); }
    }
    forall y | y in PushedItems(t.events) ensures y.payload.origin in t.entered && t.entered[y.payload.origin] == y {
      assert y == x || y in PushedItems(s.events);
    }
  }

  lemma PopKeeps(s: State, now: int, cfg: Config)
    requires Inv(s, cfg) && Enabled(s, PopReady(now), cfg)
    ensures Inv(Effect(s, PopReady(now), cfg), cfg)
  {
    var t := Effect(s, PopReady(now), cfg);
    RunAppend(s.events, Drain(now - cfg.hold), cfg.maxQueue);
    PopEntries(s, t, now - cfg.hold, cfg);
    SameButEvents(s, t, cfg);
  }

  lemma PopEntries(s: State, t: State, cutoff: int, cfg: Config)
    requires Entries(s, cfg) && t == s.(events := s.events + [Drain(cutoff)])
    ensures Entries(t, cfg)
  {
    TicketsAppend(s.events, Drain(cutoff));
    PushedItemsStep(t.events);
    assert t.events[..|s.events|] == s.events;
    forall i | i in t.entered ensures EnteredAt(t, i, cfg) {
      assert EnteredAt(s, i, cfg);
    }
  }

  lemma DispatchKeeps(s: State, cfg: Config)
    requires Inv(s, cfg) && Enabled(s, Dispatch, cfg)
    ensures Inv(Effect(s, Dispatch, cfg), cfg)
  {
    var t := Effect(s, Dispatch, cfg);
    SameButEvents(s, t, cfg);
    forall i | i in t.entered ensures EnteredAt(t, i, cfg) {
      assert EnteredAt(s, i, cfg);
    }
  }

  lemma SameButEvents(s: State, t: State, cfg: Config)
    requires t == s.(events := t.events, dispatched := t.dispatched)
    ensures Placed(s) ==> Placed(t)
    ensures Tickets(s) ==> Tickets(t)
    ensures DetectorOk(s, cfg) ==> DetectorOk(t, cfg)
  {
    forall i: nat ensures PlacedAt(t, i) == PlacedAt(s, i) && HasTicket(t, i) == HasTicket(s, i) {
    }
    forall i: nat, j: nat ensures SameTicket(t, i, j) == SameTicket(s, i, j) {
    }
    forall i: nat | HasTicket(t, i) ensures TicketOf(t, i) == TicketOf(s, i) {
    }
    if DetectorOk(s, cfg) {
      forall i: nat {:trigger Keyed(t, i, cfg)} | i < |t.history| ensures Keyed(t, i, cfg) {
        assert Keyed(s, i, cfg);
      }
    }
  }

  lemma {:induction false} RunKeepsInv(es: seq<Step>, cfg: Config)
    requires cfg.Valid()
    ensures Inv(RunAll(es, cfg), cfg)
  {
    if es != [] {
      var s := RunAll(es[..|es| - 1], cfg);
      var e := es[|es| - 1];
      RunKeepsInv(es[..|es| - 1], cfg);
      if Enabled(s, e, cfg) {
        match e {
          case Check(_, _, _, _) => CheckKeeps(s, e, cfg);
          case Draw(origin) => DrawKeeps(s, origin, cfg);
          case Push(origin) => PushKeeps(s, origin, cfg);
          case PopReady(now) => PopKeeps(s, now, cfg);
          case Dispatch => DispatchKeeps(s, cfg);
        }
      }
    } else {
      StartInv(cfg);
    }
  }

  lemma StartInv(cfg: Config)
    requires cfg.Valid()
    ensures Inv(RunAll([], cfg), cfg)
  {
    var s := RunAll([], cfg);
    assert PushedItems(s.events) == {};
    forall i: nat ensures PlacedAt(s, i) && !HasTicket(s, i) {
    }
    assert Clocked(s.history);
  }

  // ------------------------------------------------------ where a sentence is

  function Here(b: bool): nat {
    if b then 1 else 0
  }

  ghost predicate Among(items: set<Item<Load>>, i: nat) {
    exists x :: x in items && x.payload.origin == i
  }

  ghost predicate AmongReleases(log: seq<Release<Load>>, lo: nat, hi: nat, i: nat)
    requires lo <= hi <= |log|
  {
    exists k :: lo <= k < hi && log[k].item.payload.origin == i
  }

  /** In how many places the sentence of verdict i is: with its ingest thread,
      before or after drawing the ticket, in the jitter buffer, discarded by it,
      popped but not yet dispatched, or dispatched. */
  ghost function Places(s: State, cfg: Config, i: nat): nat
    requires cfg.Valid() && s.dispatched <= |Buffered(s, cfg).log|
  {
    var t := Buffered(s, cfg);
    Here(i in s.checked) + Here(i in s.ticketed) + Here(Among(t.buf.items, i)) + Here(Among(t.lost, i))
    + Here(AmongReleases(t.log, s.dispatched, |t.log|, i)) + Here(AmongReleases(t.log, 0, s.dispatched, i))
  }

  lemma AmongPushed(s: State, items: set<Item<Load>>, i: nat, cfg: Config)
    requires Entries(s, cfg) && forall x :: x in items ==> x in PushedItems(s.events)
    ensures Among(items, i) <==> i in s.entered && s.entered[i] in items
  {
    if i in s.entered { assert EnteredAt(s, i, cfg); }
  }

  lemma ReleasedIsPushed(s: State, cfg: Config, k: nat)
    requires Inv(s, cfg) && k < |Buffered(s, cfg).log|
    ensures var x := Buffered(s, cfg).log[k].item; var i := x.payload.origin;
      x in PushedItems(s.events) && i in s.entered && s.entered[i] == x && EnteredAt(s, i, cfg) && NewAt(s.history, i)
  {
    Conservation(s.events, cfg.maxQueue);
    var x := Buffered(s, cfg).log[k].item;
    assert x in ReleasedSet(Buffered(s, cfg).log);
    assert EnteredAt(s, x.payload.origin, cfg) && PlacedAt(s, x.payload.origin);
  }

  lemma ReleasedWhere(s: State, cfg: Config, i: nat)
    requires Inv(s, cfg)
    ensures var log := Buffered(s, cfg).log;
      Here(AmongReleases(log, s.dispatched, |log|, i)) + Here(AmongReleases(log, 0, s.dispatched, i))
      == Here(i in s.entered && s.entered[i] in ReleasedSet(log))
  {
    var log := Buffered(s, cfg).log;
    Conservation(s.events, cfg.maxQueue);
    forall k | 0 <= k < |log| && log[k].item.payload.origin == i ensures i in s.entered && log[k].item == s.entered[i] {
      ReleasedIsPushed(s, cfg, k);
    }
    if i in s.entered && s.entered[i] in ReleasedSet(log) {
      assert EnteredAt(s, i, cfg);
      var k :| 0 <= k < |log| && log[k].item == s.entered[i];
      assert log[k].item.payload.origin == i;
    }
  }

  /** At every moment of every run, each sentence judged new is in exactly one
      place, a duplicate is nowhere, and the discarded ones are those the buffer's
      `dropped` counts. */
  lemma ExactlyOnePlace(es: seq<Step>, cfg: Config, i: nat)
    requires cfg.Valid()
    ensures var s := RunAll(es, cfg); var t := Buffered(s, cfg);
      && s.dispatched <= |t.log|
      && Places(s, cfg, i) == Here(NewAt(s.history, i))
      && t.buf.dropped == |t.lost|
  {
    var s := RunAll(es, cfg);
    RunKeepsInv(es, cfg);
    var t := Buffered(s, cfg);
    Conservation(s.events, cfg.maxQueue);
    AmongPushed(s, t.buf.items, i, cfg);
    AmongPushed(s, t.lost, i, cfg);
    ReleasedWhere(s, cfg, i);
    assert PlacedAt(s, i);
    if i in s.entered { assert EnteredAt(s, i, cfg); }
  }

  /** No sentence is released, let alone dispatched, twice. */
  lemma ReleasedOnce(es: seq<Step>, cfg: Config, a: nat, b: nat)
    requires cfg.Valid() && a < b < |Buffered(RunAll(es, cfg), cfg).log|
    ensures var log := Buffered(RunAll(es, cfg), cfg).log;
      log[a].item.payload.origin != log[b].item.payload.origin
  {
    var s := RunAll(es, cfg);
    RunKeepsInv(es, cfg);
    Conservation(s.events, cfg.maxQueue);
    ReleasedIsPushed(s, cfg, a);
    ReleasedIsPushed(s, cfg, b);
  }

  /** Two copies of a sentence (same key) that both come out (to be
      dispatched) were checked at least ttl apart on the cache clock, unless a
      burst of maxEntries other new keys came between them. */
  lemma DispatchesApart(es: seq<Step>, cfg: Config, a: nat, b: nat)
    requires cfg.Valid()
    requires a < |Buffered(RunAll(es, cfg), cfg).log| && b < |Buffered(RunAll(es, cfg), cfg).log|
    requires var log := Buffered(RunAll(es, cfg), cfg).log;
      && cfg.keyOf(log[a].item.payload.sentence) == cfg.keyOf(log[b].item.payload.sentence)
      && log[a].item.payload.origin < log[b].item.payload.origin
    ensures var s := RunAll(es, cfg); var h := s.history;
      var i, j := Buffered(s, cfg).log[a].item.payload.origin, Buffered(s, cfg).log[b].item.payload.origin;
      && j < |h|
      && (h[j].readAt >= h[i].storedAt + cfg.ttl
          || exists m, n :: i <= m < n < j && h[m].key == h[i].key && BurstAt(h[..j], m, n, cfg.ttl, cfg.maxEntries))
  {
    var s := RunAll(es, cfg);
    RunKeepsInv(es, cfg);
    ReleasedIsPushed(s, cfg, a);
    ReleasedIsPushed(s, cfg, b);
    var i, j := Buffered(s, cfg).log[a].item.payload.origin, Buffered(s, cfg).log[b].item.payload.origin;
    assert Keyed(s, i, cfg) && Keyed(s, j, cfg);
    NewVerdictsApart(s.history, s.caches, i, j, cfg.ttl, cfg.maxEntries);
  }

  // ----------------------------------------------------------------- balance

  function NewCount(h: seq<Verdict>): nat {
    if h == [] then 0 else NewCount(h[..|h| - 1]) + Here(h[|h| - 1].isNew)
  }

  ghost predicate Counts(s: State) {
    && |s.checked| + |s.ticketed| + |s.entered| == NewCount(s.history)
    && PushCount(s.events) == |s.entered|
  }

  lemma RemoveKey<A, B>(m: map<A, B>, k: A)
    requires k in m
    ensures |m - {k}| == |m| - 1
  {
    assert m == (m - {k})[k := m[k]];
  }

  lemma CheckKeepsCounts(s: State, t: State, v: Verdict)
    requires Counts(s) && |s.history| !in s.checked
    requires t.history == s.history + [v] && t.ticketed == s.ticketed && t.entered == s.entered && t.events == s.events
    requires t.checked == if v.isNew then s.checked + {|s.history|} else s.checked
    ensures Counts(t)
  {
    assert t.history[..|s.history|] == s.history;
  }

  lemma DrawKeepsCounts(s: State, origin: nat, cfg: Config)
    requires Counts(s) && cfg.Valid() && origin in s.checked && origin !in s.ticketed
    ensures Counts(Effect(s, Draw(origin), cfg))
  {
  }

  lemma PushKeepsCounts(s: State, origin: nat, cfg: Config)
    requires Counts(s) && cfg.Valid() && Enabled(s, Push(origin), cfg) && origin !in s.entered
    ensures Counts(Effect(s, Push(origin), cfg))
  {
    RemoveKey(s.ticketed, origin);
    PushCountAppend(s.events, Enter(ItemOf(s, origin, cfg)));
  }

  lemma PushCountAppend(events: seq<Event<Load>>, e: Event<Load>)
    ensures PushCount(events + [e]) == PushCount(events) + Here(e.Enter?)
  {
    assert (events + [e])[..|events|] == events;
  }

  lemma StepKeepsCounts(s: State, e: Step, cfg: Config)
    requires Inv(s, cfg) && Counts(s) && Enabled(s, e, cfg)
    ensures Counts(Effect(s, e, cfg))
  {
    match e {
      case Check(v, _, _, _) =>
        assert PlacedAt(s, |s.history|);
        CheckKeepsCounts(s, Effect(s, e, cfg), v);
      case Draw(origin) =>
        assert PlacedAt(s, origin);
        DrawKeepsCounts(s, origin, cfg);
      case Push(origin) =>
        assert PlacedAt(s, origin);
        PushKeepsCounts(s, origin, cfg);
      case PopReady(now) => PushCountAppend(s.events, Drain(now - cfg.hold));
      case Dispatch =>
    }
  }

  lemma {:induction false} RunKeepsCounts(es: seq<Step>, cfg: Config)
    requires cfg.Valid()
    ensures Counts(RunAll(es, cfg))
  {
    if es != [] {
      var s, e := RunAll(es[..|es| - 1], cfg), es[|es| - 1];
      RunKeepsCounts(es[..|es| - 1], cfg);
      RunKeepsInv(es[..|es| - 1], cfg);
      if Enabled(s, e, cfg) { StepKeepsCounts(s, e, cfg); }
    }
  }

  /** At every moment the sentences judged new are those in flight, buffered,
      dropped by the buffer and released; so once nothing is in flight or buffered
      and all released ones are dispatched, exactly the dropped ones are missing
      from the output. */
  lemma Balance(es: seq<Step>, cfg: Config)
    requires cfg.Valid()
    ensures var s := RunAll(es, cfg); var t := Buffered(s, cfg);
      && NewCount(s.history) == |s.checked| + |s.ticketed| + |t.buf.items| + t.buf.dropped + |t.log|
      && |t.buf.items| <= cfg.maxQueue
  {
    RunKeepsInv(es, cfg);
    RunKeepsCounts(es, cfg);
    Conservation(RunAll(es, cfg).events, cfg.maxQueue);
  }

  // ------------------------------------------------------------------- order

  /** No push is stamped at or below the cutoff of an earlier pop_ready. */
  ghost predicate NothingStampedLate(events: seq<Event<Load>>) {
    forall p, q :: 0 <= p < q < |events| && events[p].Drain? && events[q].Enter? ==>
      events[q].item.ts > events[p].cutoff
  }

  /** When nothing is stamped late, the output is in strict (timestamp, ticket)
      order, and every sentence comes out under its own time or its first arrival. */
  lemma OutputSorted(es: seq<Step>, cfg: Config, a: nat, b: nat)
    requires cfg.Valid() && NothingStampedLate(RunAll(es, cfg).events)
    requires a < b < |Buffered(RunAll(es, cfg), cfg).log|
    ensures var s := RunAll(es, cfg); var log := Buffered(s, cfg).log; var x, y := log[a].item, log[b].item;
      && Before(x, y)
      && x.payload.origin < |s.history| && y.payload.origin < |s.history|
      && x.ts == cfg.Stamp(x.payload.sentence, s.history[x.payload.origin].effective)
      && y.ts == cfg.Stamp(y.payload.sentence, s.history[y.payload.origin].effective)
  {
    var s := RunAll(es, cfg);
    RunKeepsInv(es, cfg);
    var log := Buffered(s, cfg).log;
    FreshPushesSort(s.events, cfg.maxQueue);
    assert Before(Released(log)[a], Released(log)[b]);
    ReleasedIsPushed(s, cfg, a);
    ReleasedIsPushed(s, cfg, b);
  }
}
