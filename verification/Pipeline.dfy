/** The pipeline object as the server runs it: on_sentence glues the detector to
    the jitter buffer, the output loop glues the buffer to the forwarder. A ghost
    state of PipelineSpec moves along by the steps each method stands for. */
module Pipeline {
  import opened Wrappers
  import opened DedupSpec
  import opened ReorderSpec
  import opened ReorderRuns
  import opened PipelineSpec
  import opened PipelineRuns
  import Dedup
  import EndToEnd
  import Nmea
  import Reorder

  class Server {
    const cfg: Config
    const dedup: Dedup.Deduper
    const reorder: Reorder.ReorderBuffer<Load>
    /** The calls of the forwarder's dispatch. */
    var dispatched: seq<string>
    ghost var state: State

    ghost predicate Valid()
      reads this, dedup, dedup.cache, reorder
    {
      && cfg.Valid() && dedup.Valid() && reorder.Valid()
      && dedup.cache.ttl == cfg.ttl && dedup.cache.maxSize == cfg.maxEntries
      && reorder.hold == cfg.hold && reorder.maxQueue == cfg.maxQueue
      && Agrees(state, dedup.history, dedup.states, reorder.events, reorder.nextSeq, dispatched, cfg)
    }

    constructor (cfg: Config)
      requires cfg.Valid()
      ensures Valid() && this.cfg == cfg && state == RunAll([], cfg)
      ensures fresh(dedup) && fresh(dedup.cache) && fresh(reorder)
    {
      this.cfg := cfg;
      dedup := new Dedup.Deduper(cfg.ttl, cfg.maxEntries);
      reorder := new Reorder.ReorderBuffer<Load>(cfg.hold, cfg.maxQueue);
      dispatched, state := [], RunAll([], cfg);
      new;
      RunKeepsInv([], cfg);
    }

    /** The duplicate check. A new sentence is then in the calling thread's hand. */
    method Detect(sentence: string, peer: string, arrival: int, readAt: int, storedAt: int)
        returns (isNew: bool, effective: int, origin: nat)
      requires Valid() && dedup.ClockAt(readAt) && readAt <= storedAt
      modifies this`state, dedup, dedup.cache
      ensures Valid() && dedup.ClockAt(storedAt) && origin == |old(dedup.history)|
      ensures dedup.history == old(dedup.history)
        + [Verdict(cfg.keyOf(sentence), arrival, readAt, storedAt, isNew, effective)]
      ensures isNew ==> InHand(state, Load(origin, sentence, peer, arrival), effective)
    {
      origin := dedup.seen;
      ghost var h, cs := dedup.history, dedup.states;
      isNew, effective := dedup.CheckKey(cfg.keyOf(sentence), arrival, readAt, storedAt);
      ghost var v := Verdict(cfg.keyOf(sentence), arrival, readAt, storedAt, isNew, effective);
      ghost var e := Check(v, sentence, peer, dedup.cache.entries);
      assert dedup.history == h + [v] && dedup.states == cs + [e.cache];
      CheckAgrees(state, h, cs, reorder.events, reorder.nextSeq, dispatched, e, cfg);
      state := Effect(state, e, cfg);
    }

    /** Drawing the ticket and pushing. */
    method Forward(load: Load, effective: int, clock: int)
      requires Valid() && InHand(state, load, effective)
      modifies this`state, reorder
      ensures Valid()
      ensures reorder.events
        == old(reorder.events) + [Enter(Item(cfg.Stamp(load.sentence, effective), old(reorder.nextSeq), load))]
    {
      ghost var es, seqNo := reorder.events, reorder.nextSeq;
      reorder.Push(load, Some(cfg.Stamp(load.sentence, effective)), clock);
      PushAgrees(state, dedup.history, dedup.states, es, seqNo, dispatched, load, effective, cfg);
      state := Pushed(state, load.origin, cfg);
    }

    /** `on_sentence`: a duplicate stops here; a new sentence enters the jitter
        buffer under its own time or its first arrival. */
    method OnSentence(sentence: string, peer: string, arrival: int, readAt: int, storedAt: int, clock: int)
        returns (ghost isNew: bool, ghost effective: int)
      requires Valid() && dedup.ClockAt(readAt) && readAt <= storedAt
      modifies this`state, dedup, dedup.cache, reorder
      ensures Valid() && dedup.ClockAt(storedAt)
      ensures dedup.history == old(dedup.history)
        + [Verdict(cfg.keyOf(sentence), arrival, readAt, storedAt, isNew, effective)]
      ensures reorder.events == old(reorder.events) + (if isNew then
        [Enter(Item(cfg.Stamp(sentence, effective), old(reorder.nextSeq),
            Load(|old(dedup.history)|, sentence, peer, arrival)))]
        else [])
      // with the server's own keys: the time in the payload, or else the effective arrival
      ensures Standard(cfg) && Nmea.Parse(sentence).Some? ==>
        cfg.Stamp(sentence, effective) == EndToEnd.TimeOr(Nmea.Parse(sentence).value.payload, effective)
    {
      var first, earliest, origin := Detect(sentence, peer, arrival, readAt, storedAt);
      isNew, effective := first, earliest;
      OwnStamp(cfg, sentence, earliest);
      if first {
        Forward(Load(origin, sentence, peer, arrival), earliest, clock);
      }
    }

    /** Handing the popped sentences to the forwarder in order. */
    method DispatchAll(ready: seq<Load>)
      modifies this`dispatched
      ensures dispatched == old(dispatched) + SentencesOf(ready)
    {
      var i := 0;
      while i < |ready|
        invariant 0 <= i <= |ready|
        invariant dispatched == old(dispatched) + SentencesOf(ready)[..i]
      {
        dispatched := dispatched + [ready[i].sentence];
        i := i + 1;
      }
    }

    /** One round of the output loop: the due sentences go out in order, the others
        stay. */
    method OutputRound(now: int) returns (ghost taken: seq<Item<Load>>)
      requires Valid()
      modifies this`dispatched, this`state, reorder
      ensures Valid()
      ensures Reorder.Due(taken, old(reorder.Items()), now - reorder.hold) && Reorder.InOrder(taken)
      ensures dispatched == old(dispatched) + TextsOf(taken)
      ensures dispatched == old(dispatched) + SentencesOf(Reorder.Output(old(reorder.Items()), reorder.Cutoff(now)))
      ensures reorder.Items() == old(reorder.Items()) - Ready(old(reorder.Items()), reorder.Cutoff(now))
    {
      ghost var cutoff := reorder.Cutoff(now);
      ghost var out := Reorder.Output(reorder.Items(), cutoff);
      PopAgrees(state, dedup.history, dedup.states, reorder.events, reorder.nextSeq, dispatched, now, cutoff,
                reorder.trace, out, cfg);
      taken := PopAndDispatch(now, out, AfterRound(state, now, |out|, cfg));
    }

    method PopAndDispatch(now: int, ghost out: seq<Load>, ghost next: State) returns (ghost taken: seq<Item<Load>>)
      requires Valid() && out == Reorder.Output(reorder.Items(), reorder.Cutoff(now))
      requires Agrees(next, dedup.history, dedup.states, reorder.events + [Drain(reorder.Cutoff(now))],
                      reorder.nextSeq, dispatched + SentencesOf(out), cfg)
      modifies this`dispatched, this`state, reorder
      ensures Valid() && dispatched == old(dispatched) + SentencesOf(out) && state == next
      ensures Reorder.Due(taken, old(reorder.Items()), now - reorder.hold) && Reorder.InOrder(taken)
      ensures SentencesOf(out) == TextsOf(taken)
      ensures reorder.Items() == old(reorder.Items()) - Ready(old(reorder.Items()), reorder.Cutoff(now))
    {
      var ready;
      ready, taken := reorder.PopReady(now);
      DispatchAll(ready);
      state := next;
    }
  }

  function SentencesOf(loads: seq<Load>): (r: seq<string>)
    ensures |r| == |loads|
  {
    seq(|loads|, i requires 0 <= i < |loads| => loads[i].sentence)
  }

  /** The sentences of items. */
  function TextsOf(items: seq<Item<Load>>): (r: seq<string>)
    ensures |r| == |items| && forall i :: 0 <= i < |r| ==> r[i] == items[i].payload.sentence
  {
    seq(|items|, i requires 0 <= i < |items| => items[i].payload.sentence)
  }

  ghost function LogSentences(log: seq<Release<Load>>): (r: seq<string>)
    ensures |r| == |log|
  {
    seq(|log|, i requires 0 <= i < |log| => log[i].item.payload.sentence)
  }

  /** The object agrees with a state of the machine: same detector history, same
      buffer history, and everything popped has been dispatched. */
  ghost predicate Agrees(s: State, h: seq<Verdict>, cs: seq<map<Key, Entry>>, events: seq<Event<Load>>, nextSeq: nat,
                         dispatched: seq<string>, cfg: Config)
    requires cfg.Valid()
  {
    && Inv(s, cfg)
    && s.history == h && s.caches == cs && s.events == events && s.nextSeq == nextSeq
    && s.dispatched == |Buffered(s, cfg).log|
    && dispatched == LogSentences(Buffered(s, cfg).log)
  }

  /** A thread holds the sentence it has just found new. */
  ghost predicate InHand(s: State, load: Load, effective: int) {
    var i := load.origin;
    i in s.checked && i < |s.loads| && i < |s.history| && s.loads[i] == load && s.history[i].effective == effective
  }

  lemma OwnStamp(cfg: Config, sentence: string, effective: int)
    ensures Standard(cfg) && Nmea.Parse(sentence).Some? ==>
      cfg.Stamp(sentence, effective) == EndToEnd.TimeOr(Nmea.Parse(sentence).value.payload, effective)
  {
    if Standard(cfg) && Nmea.Parse(sentence).Some? {
      EndToEnd.StampOfParsed(cfg, sentence, effective);
    }
  }

  /** A check the detector has made is one the pipeline can make. */
  lemma CheckEnabled(s: State, e: Step, cfg: Config)
    requires cfg.Valid() && e.Check? && e.v.key == cfg.keyOf(e.sentence)
    requires |s.caches| == |s.history| + 1 && Runs(s.history + [e.v], s.caches + [e.cache], cfg.ttl, cfg.maxEntries)
    ensures Enabled(s, e, cfg)
  {
    var h, cs := s.history + [e.v], s.caches + [e.cache];
    assert StepAt(h, cs, |s.history|, cfg.ttl, cfg.maxEntries);
    assert cs[|s.history|] == s.caches[|s.history|] && cs[|s.history| + 1] == e.cache;
    if s.history != [] { assert Later(h, |s.history| - 1, |s.history|); }
  }

  lemma CheckAgrees(s: State, h: seq<Verdict>, cs: seq<map<Key, Entry>>, events: seq<Event<Load>>, nextSeq: nat,
                    dispatched: seq<string>, e: Step, cfg: Config)
    requires cfg.Valid() && Agrees(s, h, cs, events, nextSeq, dispatched, cfg)
    requires e.Check? && e.v.key == cfg.keyOf(e.sentence)
    requires |cs| == |h| + 1 && Runs(h + [e.v], cs + [e.cache], cfg.ttl, cfg.maxEntries)
    ensures Enabled(s, e, cfg)
    ensures Agrees(Effect(s, e, cfg), h + [e.v], cs + [e.cache], events, nextSeq, dispatched, cfg)
    ensures e.v.isNew ==> InHand(Effect(s, e, cfg), Load(|h|, e.sentence, e.peer, e.v.arrival), e.v.effective)
  {
    CheckEnabled(s, e, cfg);
    CheckKeeps(s, e, cfg);
  }

  /** Drawing the ticket and pushing, with nothing in between. */
  ghost function Pushed(s: State, i: nat, cfg: Config): State
    requires cfg.Valid() && i in s.checked && i < |s.loads| && i < |s.history|
  {
    Effect(Effect(s, Draw(i), cfg), Push(i), cfg)
  }

  lemma PushAgrees(s: State, h: seq<Verdict>, cs: seq<map<Key, Entry>>, events: seq<Event<Load>>, nextSeq: nat,
                   dispatched: seq<string>, load: Load, effective: int, cfg: Config)
    requires cfg.Valid() && Agrees(s, h, cs, events, nextSeq, dispatched, cfg) && InHand(s, load, effective)
    ensures Agrees(Pushed(s, load.origin, cfg), h, cs,
                   events + [Enter(Item(cfg.Stamp(load.sentence, effective), nextSeq, load))], nextSeq + 1,
                       dispatched, cfg)
  {
    DrawKeeps(s, load.origin, cfg);
    PushKeeps(Effect(s, Draw(load.origin), cfg), load.origin, cfg);
    RunAppend(events, Enter(Item(cfg.Stamp(load.sentence, effective), nextSeq, load)), cfg.maxQueue);
  }

  // ----------------------------------------------------------------- output

  /** Popping, and dispatching n sentences. */
  ghost function AfterRound(s: State, now: int, n: nat, cfg: Config): State
    requires cfg.Valid() && Enabled(s, PopReady(now), cfg)
  {
    Advanced(Effect(s, PopReady(now), cfg), n)
  }

  function Advanced(s: State, n: nat): State {
    s.(dispatched := s.dispatched + n)
  }

  /** Advanced stands for n dispatch steps. */
  lemma {:induction false} AdvancedKeeps(s: State, n: nat, cfg: Config)
    requires Inv(s, cfg) && s.dispatched + n <= |Buffered(s, cfg).log|
    ensures Inv(Advanced(s, n), cfg)
    ensures n > 0 ==> Enabled(Advanced(s, n - 1), Dispatch, cfg)
                      && Advanced(s, n) == Effect(Advanced(s, n - 1), Dispatch, cfg)
  {
    if n == 0 {
      assert Advanced(s, 0) == s;
    } else {
      AdvancedKeeps(s, n - 1, cfg);
      DispatchKeeps(Advanced(s, n - 1), cfg);
    }
  }

  lemma LogAppend(log: seq<Release<Load>>, out: seq<Item<Load>>, at: nat)
    ensures LogSentences(log + Stamped(out, at)) == LogSentences(log) + SentencesOf(Reorder.Payloads(out))
    ensures |log + Stamped(out, at)| == |log| + |Reorder.Payloads(out)|
  {
    Reorder.PayloadsOf(out);
  }

  lemma PopTrace(events: seq<Event<Load>>, cutoff: int, cap: nat)
    requires cap >= 1
    ensures var t, u := Run(events, cap),
        Run(events + [Drain(cutoff)], cap); var out := Reorder.Output(t.buf.items, cutoff);
      LogSentences(u.log) == LogSentences(t.log) + SentencesOf(out) && |u.log| == |t.log| + |out|
  {
    var t := Run(events, cap);
    RunAppend(events, Drain(cutoff), cap);
    LogAppend(t.log, Sort(Ready(t.buf.items, cutoff)), |events|);
  }

  lemma RoundAgrees(s: State, h: seq<Verdict>, cs: seq<map<Key, Entry>>, events: seq<Event<Load>>, nextSeq: nat,
                    dispatched: seq<string>, now: int, cutoff: int, out: seq<Load>, cfg: Config)
    requires cfg.Valid() && Agrees(s, h, cs, events, nextSeq, dispatched, cfg) && cutoff == now - cfg.hold
    requires var log := Run(events + [Drain(cutoff)], cfg.maxQueue).log;
      LogSentences(log) == dispatched + SentencesOf(out) && |log| == s.dispatched + |out|
    ensures Enabled(s, PopReady(now), cfg)
    ensures Agrees(AfterRound(s, now, |out|, cfg), h, cs, events + [Drain(cutoff)], nextSeq,
        dispatched + SentencesOf(out), cfg)
  {
    var t := Effect(s, PopReady(now), cfg);
    assert t.events == events + [Drain(cutoff)];
    RoundKeeps(s, now, |out|, cfg);
  }

  lemma RoundKeeps(s: State, now: int, n: nat, cfg: Config)
    requires Inv(s, cfg) && Enabled(s, PopReady(now), cfg)
    requires s.dispatched + n <= |Buffered(Effect(s, PopReady(now), cfg), cfg).log|
    ensures Inv(AfterRound(s, now, n, cfg), cfg)
  {
    PopKeeps(s, now, cfg);
    AdvancedKeeps(Effect(s, PopReady(now), cfg), n, cfg);
  }

  lemma PopAgrees(s: State, h: seq<Verdict>, cs: seq<map<Key, Entry>>, events: seq<Event<Load>>, nextSeq: nat,
                  dispatched: seq<string>, now: int, cutoff: int, t: Trace<Load>, out: seq<Load>, cfg: Config)
    requires cfg.Valid() && Agrees(s, h, cs, events, nextSeq, dispatched, cfg)
    requires t == Run(events, cfg.maxQueue) && cutoff == now - cfg.hold && out == Reorder.Output(t.buf.items, cutoff)
    ensures Enabled(s, PopReady(now), cfg)
    ensures Agrees(AfterRound(s, now, |out|, cfg), h, cs, events + [Drain(cutoff)], nextSeq,
        dispatched + SentencesOf(out), cfg)
  {
    PopTrace(events, cutoff, cfg.maxQueue);
    RoundAgrees(s, h, cs, events, nextSeq, dispatched, now, cutoff, out, cfg);
  }
}
