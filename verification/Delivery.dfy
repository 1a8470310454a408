/** The pipeline joined to a fixed set of endpoint workers: from the verdict that a
    sentence is new to its last send. */
module Delivery {
  import opened ReorderSpec
  import opened ReorderRuns
  import opened Ids
  import P = PipelineSpec
  import R = PipelineRuns
  import E = EndToEnd
  import I = Isolation
  import W = WorkerSpec
  import O = WorkerOrder
  import Payload

  /** The pipeline and the workers, and the steps each has taken. */
  datatype World = World(pipe: P.State, sys: I.System, done: seq<P.Step>, fed: seq<I.Event>)

  /** A step of the pipeline's threads, or of a put in progress or a worker's loop. */
  datatype Move = Pipe(step: P.Step) | Feed(event: I.Event)

  ghost function Log(pipe: P.State, cfg: P.Config): seq<Release<P.Load>>
    requires cfg.Valid()
  {
    P.Buffered(pipe, cfg).log
  }

  ghost function SentenceAt(pipe: P.State, cfg: P.Config, i: nat): string
    requires cfg.Valid() && i < |Log(pipe, cfg)|
  {
    Log(pipe, cfg)[i].item.payload.sentence
  }

  /** The output thread pops and dispatches only when its last dispatch is over;
      stopping workers is left to the manager. */
  ghost predicate Enabled(w: World, m: Move, cfg: P.Config)
    requires cfg.Valid()
  {
    match m
    case Pipe(step) => P.Enabled(w.pipe, step, cfg) && (step.Dispatch? || step.PopReady? ==> w.sys.dispatcher.Quiet?)
    case Feed(event) => event.DispatchStep? || (event.WorkerStep? && event.step.LoopStep?)
  }

  ghost function After(w: World, m: Move, cfg: P.Config): World
    requires cfg.Valid() && I.Valid(w.sys)
  {
    if !Enabled(w, m, cfg) then w else
      match m
      case Feed(event) => w.(sys := I.After(w.sys, event), fed := w.fed + [event])
      case Pipe(step) =>
        var next := w.(pipe := P.Effect(w.pipe, step, cfg), done := w.done + [step]);
        if !step.Dispatch? then next else
          var event := I.Dispatch(SentenceAt(w.pipe, cfg, w.pipe.dispatched));
          next.(sys := I.After(w.sys, event), fed := w.fed + [event])
  }

  lemma AfterKeepsSystem(w: World, m: Move, cfg: P.Config)
    requires cfg.Valid() && I.Valid(w.sys)
    ensures I.Valid(After(w, m, cfg).sys) && After(w, m, cfg).sys.order == w.sys.order
    ensures After(w, m, cfg).sys.workers.Keys == w.sys.workers.Keys
  {
    match m {
      case Feed(event) => I.AfterValid(w.sys, event);
      case Pipe(step) =>
        if Enabled(w, m, cfg) && step.Dispatch? {
          I.AfterValid(w.sys, I.Dispatch(SentenceAt(w.pipe, cfg, w.pipe.dispatched)));
        }
    }
  }

  /** All workers new, nothing checked yet. */
  ghost predicate Starting(sys: I.System) {
    && I.Valid(sys) && sys.dispatcher.Quiet?
    && forall i :: i in sys.workers ==> sys.workers[i] == W.Fresh(sys.workers[i].cap) && sys.workers[i].cap >= 1
  }

  ghost function RunAll(sys: I.System, ms: seq<Move>, cfg: P.Config): (w: World)
    requires cfg.Valid() && I.Valid(sys)
    ensures I.Valid(w.sys)
  {
    if ms == [] then World(P.RunAll([], cfg), sys, [], []) else
      var w := RunAll(sys, ms[..|ms| - 1], cfg);
      AfterKeepsSystem(w, ms[|ms| - 1], cfg);
      After(w, ms[|ms| - 1], cfg)
  }

  // ------------------------------------------------------ what the workers got

  /** The worker whose put is in progress. */
  predicate InPut(s: I.System, id: int) {
    s.dispatcher.Serving? && s.dispatcher.todo != [] && s.dispatcher.todo[0] == id && s.dispatcher.started
  }

  /** How many dispatches have reached the worker. */
  function Reached(s: I.System, id: int, dispatched: int): int {
    if s.dispatcher.Serving? && id in s.dispatcher.todo && !InPut(s, id) then dispatched - 1 else dispatched
  }

  /** The worker has been given exactly the sentences dispatched so far, in order. */
  ghost predicate FedAt(pipe: P.State, s: I.System, id: int, cfg: P.Config)
    requires cfg.Valid() && id in s.workers
  {
    var issued := s.workers[id].flow.issued;
    && pipe.dispatched <= |Log(pipe, cfg)|
    && |issued| == Reached(s, id, pipe.dispatched) && |issued| <= |Log(pipe, cfg)|
    && (forall i :: 0 <= i < |issued| ==> issued[i] == W.Token(i, SentenceAt(pipe, cfg, i)))
    && (InPut(s, id) || s.workers[id].producer.Idle?)
    && (s.dispatcher.Serving? ==>
          1 <= pipe.dispatched && s.dispatcher.text == SentenceAt(pipe, cfg, pipe.dispatched - 1))
  }

  lemma LogGrows(pipe: P.State, step: P.Step, cfg: P.Config)
    requires cfg.Valid() && P.Enabled(pipe, step, cfg)
    ensures Log(pipe, cfg) <= Log(P.Effect(pipe, step, cfg), cfg)
  {
    match step {
      case Push(origin) => RunAppend(pipe.events, Enter(P.ItemOf(pipe, origin, cfg)), cfg.maxQueue);
      case PopReady(now) => RunAppend(pipe.events, Drain(now - cfg.hold), cfg.maxQueue);
      case _ =>
    }
  }

  /** The log may grow under the workers. */
  lemma FedKept(pipe: P.State, next: P.State, s: I.System, id: int, cfg: P.Config)
    requires cfg.Valid() && id in s.workers && FedAt(pipe, s, id, cfg)
    requires next.dispatched == pipe.dispatched && Log(pipe, cfg) <= Log(next, cfg)
    ensures FedAt(next, s, id, cfg)
  {
    forall i | 0 <= i < |Log(pipe, cfg)| ensures SentenceAt(next, cfg, i) == SentenceAt(pipe, cfg, i) {
      assert Log(next, cfg)[i] == Log(pipe, cfg)[i];
    }
  }

  lemma DispatchFeeds(pipe: P.State, s: I.System, id: int, cfg: P.Config)
    requires cfg.Valid() && I.Valid(s) && id in s.workers && id in s.order && FedAt(pipe, s, id, cfg)
    requires s.dispatcher.Quiet? && P.Enabled(pipe, P.Dispatch, cfg)
    ensures var event := I.Dispatch(SentenceAt(pipe, cfg, pipe.dispatched));
      id in I.After(s, event).workers && FedAt(P.Effect(pipe, P.Dispatch, cfg), I.After(s, event), id, cfg)
  {
    var next := P.Effect(pipe, P.Dispatch, cfg);
    assert Log(next, cfg) == Log(pipe, cfg);
  }

  /** The first step of its put gives the worker the sentence; the others change
      nothing it was given. */
  lemma OwnPutFeeds(pipe: P.State, s: I.System, id: int, cfg: P.Config)
    requires cfg.Valid() && I.Valid(s) && id in s.workers && FedAt(pipe, s, id, cfg)
    requires s.dispatcher.Serving? && s.dispatcher.todo[0] == id
    ensures var t := I.After(s, I.DispatchStep); id in t.workers && FedAt(pipe, t, id, cfg)
  {
    var d, w := s.dispatcher, s.workers[id];
    if d.started {
      assert W.Next(w, W.PutStep).flow.issued == w.flow.issued;
      DistinctTail(d.todo);
    } else {
      assert W.Next(w, W.StartPut(d.text)).flow.issued == w.flow.issued + [W.Token(|w.flow.issued|, d.text)];
    }
  }

  lemma OtherPutFeeds(pipe: P.State, s: I.System, id: int, cfg: P.Config)
    requires cfg.Valid() && I.Valid(s) && id in s.workers && FedAt(pipe, s, id, cfg)
    requires s.dispatcher.Serving? && s.dispatcher.todo[0] != id
    ensures var t := I.After(s, I.DispatchStep); id in t.workers && FedAt(pipe, t, id, cfg)
  {
    var d := s.dispatcher;
    assert id in d.todo <==> id in d.todo[1..];
  }

  lemma LoopFeeds(pipe: P.State, s: I.System, id: int, i: int, ok: bool, cfg: P.Config)
    requires cfg.Valid() && I.Valid(s) && id in s.workers && FedAt(pipe, s, id, cfg)
    ensures var t := I.After(s, I.WorkerStep(i, W.LoopStep(ok))); id in t.workers && FedAt(pipe, t, id, cfg)
  {
    LoopGivesNothing(s.workers[id], ok);
    FedSame(pipe, s, I.After(s, I.WorkerStep(i, W.LoopStep(ok))), id, cfg);
  }

  lemma LoopGivesNothing(w: W.Worker, ok: bool)
    ensures W.NextLoop(w, ok).flow.issued == w.flow.issued && W.NextLoop(w, ok).producer == w.producer
  {
  }

  lemma FedSame(pipe: P.State, s: I.System, t: I.System, id: int, cfg: P.Config)
    requires cfg.Valid() && id in s.workers && FedAt(pipe, s, id, cfg)
    requires id in t.workers && t.dispatcher == s.dispatcher
    requires t.workers[id].flow.issued == s.workers[id].flow.issued && t.workers[id].producer == s.workers[id].producer
    ensures FedAt(pipe, t, id, cfg)
  {
  }

  lemma MoveFeeds(w: World, m: Move, id: int, cfg: P.Config)
    requires cfg.Valid() && I.Valid(w.sys) && id in w.sys.order && id in w.sys.workers && FedAt(w.pipe, w.sys, id, cfg)
    ensures var v := After(w, m, cfg); id in v.sys.workers && FedAt(v.pipe, v.sys, id, cfg)
  {
    if Enabled(w, m, cfg) {
      match m {
        case Pipe(step) =>
          if step.Dispatch? {
            DispatchFeeds(w.pipe, w.sys, id, cfg);
          } else {
            LogGrows(w.pipe, step, cfg);
            FedKept(w.pipe, P.Effect(w.pipe, step, cfg), w.sys, id, cfg);
          }
        case Feed(event) =>
          match event {
            case DispatchStep =>
              if w.sys.dispatcher.Serving? {
                if w.sys.dispatcher.todo[0] == id {
                  OwnPutFeeds(w.pipe, w.sys, id, cfg);
                } else {
                  OtherPutFeeds(w.pipe, w.sys, id, cfg);
                }
              }
            case WorkerStep(i, step) => LoopFeeds(w.pipe, w.sys, id, i, step.ok, cfg);
            case Dispatch(_) =>
          }
      }
    }
  }

  // --------------------------------------------------------- two runs in one

  lemma {:induction false} EventsSnoc(s: I.System, es: seq<I.Event>, e: I.Event)
    requires I.Valid(s)
    ensures I.Valid(I.RunAll(s, es)) && I.RunAll(s, es + [e]) == I.After(I.RunAll(s, es), e)
    decreases |es|
  {
    if es == [] {
      assert [] + [e] == [e] && [e][1..] == [];
      I.AfterValid(s, e);
    } else {
      I.AfterValid(s, es[0]);
      EventsSnoc(I.After(s, es[0]), es[1..], e);
      assert (es + [e])[1..] == es[1..] + [e] && (es + [e])[0] == es[0];
    }
  }

  ghost predicate TwoRuns(sys: I.System, w: World, cfg: P.Config)
    requires cfg.Valid() && I.Valid(sys)
  {
    w.pipe == P.RunAll(w.done, cfg) && w.sys == I.RunAll(sys, w.fed) && w.sys.order == sys.order
  }

  lemma DoneSnoc(done: seq<P.Step>, step: P.Step, cfg: P.Config)
    requires cfg.Valid() && P.Enabled(P.RunAll(done, cfg), step, cfg)
    ensures P.RunAll(done + [step], cfg) == P.Effect(P.RunAll(done, cfg), step, cfg)
  {
    assert (done + [step])[..|done|] == done;
  }

  lemma MoveKeepsRuns(sys: I.System, w: World, m: Move, cfg: P.Config)
    requires cfg.Valid() && I.Valid(sys) && I.Valid(w.sys) && TwoRuns(sys, w, cfg)
    ensures TwoRuns(sys, After(w, m, cfg), cfg)
  {
    AfterKeepsSystem(w, m, cfg);
    if Enabled(w, m, cfg) {
      match m {
        case Feed(event) => EventsSnoc(sys, w.fed, event);
        case Pipe(step) =>
          DoneSnoc(w.done, step, cfg);
          if step.Dispatch? { EventsSnoc(sys, w.fed, I.Dispatch(SentenceAt(w.pipe, cfg, w.pipe.dispatched))); }
      }
    }
  }

  /** Every run of the whole is a run of the pipeline and a run of the workers, and
      each worker has been given exactly the sentences dispatched so far, in order. */
  lemma {:induction false} WorldRuns(sys: I.System, ms: seq<Move>, id: int, cfg: P.Config)
    requires cfg.Valid() && Starting(sys) && id in sys.order
    ensures var w := RunAll(sys, ms, cfg); TwoRuns(sys, w, cfg) && id in w.sys.workers && FedAt(w.pipe, w.sys, id, cfg)
  {
    if ms == [] {
      assert id in sys.workers;
    } else {
      var n := |ms| - 1;
      WorldRuns(sys, ms[..n], id, cfg);
      MoveKeepsRuns(sys, RunAll(sys, ms[..n], cfg), ms[n], cfg);
      MoveFeeds(RunAll(sys, ms[..n], cfg), ms[n], id, cfg);
    }
  }

  // ----------------------------------------------------------------- delivery

  /** The worker's steps inside the run. */
  function StepsIn(sys: I.System, w: World, id: int): seq<W.Step>
    requires I.Valid(sys)
  {
    I.StepsOf(sys, w.fed, id)
  }

  lemma WorkerIsRun(sys: I.System, ms: seq<Move>, id: int, cfg: P.Config)
    requires cfg.Valid() && Starting(sys) && id in sys.order
    ensures var w := RunAll(sys, ms, cfg);
      id in w.sys.workers && id in sys.workers
      && w.sys.workers[id] == W.Run(W.Fresh(sys.workers[id].cap), StepsIn(sys, w, id))
  {
    WorldRuns(sys, ms, id, cfg);
    assert id in sys.workers;
    I.WorkerRuns(sys, RunAll(sys, ms, cfg).fed, id);
  }

  /** What was sent was issued, once. */
  lemma SentIsIssued(cap: nat, steps: seq<W.Step>, i: nat)
    requires cap >= 1 && i < |W.Run(W.Fresh(cap), steps).flow.sent|
    ensures var f := W.Run(W.Fresh(cap), steps).flow;
      f.sent[i].ticket < |f.issued| && f.issued[f.sent[i].ticket] == f.sent[i]
    ensures var f := W.Run(W.Fresh(cap), steps).flow; W.Count(f.sent, f.sent[i]) == 1
  {
    var w := W.Run(W.Fresh(cap), steps);
    var t := w.flow.sent[i];
    W.RunKeepsInv(W.Fresh(cap), steps);
    W.RunConserves(cap, steps, t);
    assert t in w.flow.sent && W.Count(w.flow.issued, t) >= 1 && t in w.flow.issued;
    var k :| 0 <= k < |w.flow.issued| && w.flow.issued[k] == t;
    W.NumberedOnce(w.flow.issued, k);
  }

  lemma CountTwice(s: seq<W.Token>, i: nat, j: nat)
    requires i < j < |s| && s[i] == s[j]
    ensures W.Count(s, s[i]) >= 2
  {
    assert s == s[..j] + s[j..] && s[..j][i] == s[i] && s[j..][0] == s[i];
    assert multiset(s) == multiset(s[..j]) + multiset(s[j..]);
  }

  lemma SentDiffer(cap: nat, steps: seq<W.Step>, i: nat, j: nat)
    requires cap >= 1 && i < j < |W.Run(W.Fresh(cap), steps).flow.sent|
    ensures var f := W.Run(W.Fresh(cap), steps).flow; f.sent[i].ticket != f.sent[j].ticket
  {
    var f := W.Run(W.Fresh(cap), steps).flow;
    SentIsIssued(cap, steps, i);
    SentIsIssued(cap, steps, j);
    if f.sent[i] == f.sent[j] { CountTwice(f.sent, i, j); }
  }

  /** A sent token is the released sentence of its number. */
  lemma SentIsReleased(sys: I.System, ms: seq<Move>, id: int, cfg: P.Config, i: nat)
    requires cfg.Valid() && Starting(sys) && id in sys.order
    requires id in RunAll(sys, ms, cfg).sys.workers && i < |RunAll(sys, ms, cfg).sys.workers[id].flow.sent|
    ensures var w := RunAll(sys, ms, cfg); var t := w.sys.workers[id].flow.sent[i];
      t.ticket < |Log(w.pipe, cfg)| && t.text == SentenceAt(w.pipe, cfg, t.ticket)
  {
    WorldRuns(sys, ms, id, cfg);
    WorkerIsRun(sys, ms, id, cfg);
    SentIsIssued(sys.workers[id].cap, StepsIn(sys, RunAll(sys, ms, cfg), id), i);
  }

  /** Over the whole path each sentence judged new is issued at most once to each
      worker, and sent by it at most once. */
  lemma SentOnce(sys: I.System, ms: seq<Move>, id: int, cfg: P.Config)
    requires cfg.Valid() && Starting(sys) && id in sys.order
    ensures var w := RunAll(sys, ms, cfg); var log := Log(w.pipe, cfg);
      && id in w.sys.workers
      && var f := w.sys.workers[id].flow;
      && |f.issued| <= |log|
      && (forall i, j :: 0 <= i < j < |f.issued| ==> log[i].item.payload.origin != log[j].item.payload.origin)
      && (forall i :: 0 <= i < |f.issued| ==> f.issued[i] == W.Token(i, log[i].item.payload.sentence))
      && (forall i :: 0 <= i < |f.sent| ==> f.sent[i].ticket < |log|)
      && (forall i, j :: 0 <= i < j < |f.sent| ==>
            log[f.sent[i].ticket].item.payload.origin != log[f.sent[j].ticket].item.payload.origin)
  {
    var w := RunAll(sys, ms, cfg);
    WorldRuns(sys, ms, id, cfg);
    WorkerIsRun(sys, ms, id, cfg);
    var log, f := Log(w.pipe, cfg), w.sys.workers[id].flow;
    forall i: nat, j: nat | i < j < |log| ensures log[i].item.payload.origin != log[j].item.payload.origin {
      R.ReleasedOnce(w.done, cfg, i, j);
    }
    forall i: nat | i < |f.sent| ensures f.sent[i].ticket < |log| {
      SentIsReleased(sys, ms, id, cfg, i);
    }
    forall i: nat, j: nat | i < j < |f.sent|
      ensures log[f.sent[i].ticket].item.payload.origin != log[f.sent[j].ticket].item.payload.origin
    {
      SentDiffer(sys.workers[id].cap, StepsIn(sys, w, id), i, j);
    }
  }

  /** What a worker whose re-queues find nothing to overtake has sent, in order of
      release: also strictly by (timestamp, ticket) when nothing is stamped late. */
  lemma SentSorted(sys: I.System, ms: seq<Move>, id: int, cfg: P.Config, i: nat, j: nat)
    requires cfg.Valid() && Starting(sys) && id in sys.order && id in sys.workers
    requires O.Tame(W.Fresh(sys.workers[id].cap), StepsIn(sys, RunAll(sys, ms, cfg), id))
    requires id in RunAll(sys, ms, cfg).sys.workers && i < j < |RunAll(sys, ms, cfg).sys.workers[id].flow.sent|
    ensures var w := RunAll(sys, ms, cfg); var f := w.sys.workers[id].flow;
      && f.sent[i].ticket < f.sent[j].ticket < |Log(w.pipe, cfg)|
      && (R.NothingStampedLate(w.pipe.events) ==>
            Before(Log(w.pipe, cfg)[f.sent[i].ticket].item, Log(w.pipe, cfg)[f.sent[j].ticket].item))
  {
    var w := RunAll(sys, ms, cfg);
    var wk := w.sys.workers[id];
    WorldRuns(sys, ms, id, cfg);
    WorkerIsRun(sys, ms, id, cfg);
    O.TameRunInOrder(W.Fresh(sys.workers[id].cap), StepsIn(sys, w, id));
    SentUpwards(wk, i, j);
    SentIsReleased(sys, ms, id, cfg, i);
    SentIsReleased(sys, ms, id, cfg, j);
    if R.NothingStampedLate(w.pipe.events) {
      R.OutputSorted(w.done, cfg, wk.flow.sent[i].ticket, wk.flow.sent[j].ticket);
    }
  }

  lemma SentUpwards(w: W.Worker, i: nat, j: nat)
    requires O.Ordered(w) && i < j < |w.flow.sent|
    ensures w.flow.sent[i].ticket < w.flow.sent[j].ticket
  {
    O.PartIncreasing(O.InFlight(w), O.Handed(w));
    assert O.InFlight(w)[i] == w.flow.sent[i] && O.InFlight(w)[j] == w.flow.sent[j];
  }

  /** And by their 40 bits of UTC time, where they carry one. */
  lemma SentFollowsClocks(sys: I.System, ms: seq<Move>, id: int, cfg: P.Config, i: nat, j: nat)
    requires P.Standard(cfg) && Starting(sys) && id in sys.order && id in sys.workers
    requires O.Tame(W.Fresh(sys.workers[id].cap), StepsIn(sys, RunAll(sys, ms, cfg), id))
    requires R.NothingStampedLate(RunAll(sys, ms, cfg).pipe.events)
    requires id in RunAll(sys, ms, cfg).sys.workers && i < j < |RunAll(sys, ms, cfg).sys.workers[id].flow.sent|
    requires var f := RunAll(sys, ms, cfg).sys.workers[id].flow;
      E.CarriesTime(f.sent[i].text) && E.CarriesTime(f.sent[j].text)
    ensures var f := RunAll(sys, ms, cfg).sys.workers[id].flow;
      Payload.UtcCode(P.PayloadOf(f.sent[i].text)) <= Payload.UtcCode(P.PayloadOf(f.sent[j].text))
  {
    var w := RunAll(sys, ms, cfg);
    var f := w.sys.workers[id].flow;
    WorldRuns(sys, ms, id, cfg);
    SentSorted(sys, ms, id, cfg, i, j);
    SentIsReleased(sys, ms, id, cfg, i);
    SentIsReleased(sys, ms, id, cfg, j);
    E.OutputFollowsClocks(w.done, cfg, f.sent[i].ticket, f.sent[j].ticket);
  }
}
