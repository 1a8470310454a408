/** Endpoint isolation: one dispatcher feeding a fixed set of workers. What one
    worker does depends on no other worker's failures, reconnects or full queue. */
module Isolation {
  import opened Ids
  import opened WorkerSpec

  /** The dispatching thread: between sentences, or serving the first worker of
      todo, whose put is started or not. */
  datatype Dispatcher = Quiet | Serving(text: string, todo: seq<int>, started: bool)

  datatype System = System(workers: map<int, Worker>, order: seq<int>, dispatcher: Dispatcher)

  /** Any interleaving of dispatches, steps of the dispatcher's current put, and
      steps of the workers' own threads and stops. */
  datatype Event = Dispatch(text: string) | DispatchStep | WorkerStep(id: int, step: Step)

  predicate OwnStep(step: Step) {
    step.LoopStep? || step.SetStop? || step.WakeStop?
  }

  ghost predicate Known(s: System, ids: seq<int>) {
    forall i :: 0 <= i < |ids| ==> ids[i] in s.workers
  }

  ghost predicate Valid(s: System) {
    && Distinct(s.order) && Known(s, s.order)
    && (s.dispatcher.Serving? ==>
          s.dispatcher.todo != [] && Distinct(s.dispatcher.todo) && Known(s, s.dispatcher.todo))
  }

  function Advance(d: Dispatcher, done: bool): Dispatcher
    requires d.Serving? && d.todo != []
  {
    if !done then d.(started := true)
    else if |d.todo| == 1 then Quiet
    else Serving(d.text, d.todo[1..], false)
  }

  function After(s: System, e: Event): System
    requires Valid(s)
  {
    match e
    case Dispatch(text) =>
      if s.dispatcher.Quiet? && s.order != [] then s.(dispatcher := Serving(text, s.order, false)) else s
    case DispatchStep =>
      if s.dispatcher.Quiet? then s else
        var id := s.dispatcher.todo[0];
        var w := Next(s.workers[id], if s.dispatcher.started then PutStep else StartPut(s.dispatcher.text));
        s.(workers := s.workers[id := w],
           dispatcher := Advance(s.dispatcher, s.dispatcher.started && w.producer.Idle?))
    case WorkerStep(id, step) =>
      if id in s.workers && OwnStep(step)
      then s.(workers := s.workers[id := Next(s.workers[id], step)])
      else s
  }

  lemma AfterValid(s: System, e: Event)
    requires Valid(s)
    ensures Valid(After(s, e)) && After(s, e).workers.Keys == s.workers.Keys && After(s, e).order == s.order
  {
    if s.dispatcher.Serving? { DistinctTail(s.dispatcher.todo); }
  }

  function RunAll(s: System, es: seq<Event>): System
    requires Valid(s)
    decreases |es|
  {
    AfterValid(s, if es == [] then DispatchStep else es[0]);
    if es == [] then s else RunAll(After(s, es[0]), es[1..])
  }

  /** The system with worker id alone, at the same point of its own work. */
  function Only(s: System, id: int): System
    requires id in s.workers
  {
    System(map[id := s.workers[id]], if id in s.order then [id] else [],
           if s.dispatcher.Quiet? || id !in s.dispatcher.todo then Quiet
           else Serving(s.dispatcher.text, [id], s.dispatcher.todo[0] == id && s.dispatcher.started))
  }

  /** Events that concern worker id: the start of a dispatch, steps of its own
      put, its own steps. */
  predicate Concerns(s: System, e: Event, id: int)
    requires Valid(s)
  {
    match e
    case Dispatch(_) => s.dispatcher.Quiet?
    case DispatchStep => s.dispatcher.Serving? && s.dispatcher.todo[0] == id
    case WorkerStep(i, _) => i == id
  }

  /** The run with every step of the other workers erased. */
  function Erase(s: System, es: seq<Event>, id: int): seq<Event>
    requires Valid(s)
    decreases |es|
  {
    AfterValid(s, if es == [] then DispatchStep else es[0]);
    if es == [] then [] else
      (if Concerns(s, es[0], id) then [es[0]] else []) + Erase(After(s, es[0]), es[1..], id)
  }

  lemma OnlyValid(s: System, id: int)
    requires Valid(s) && id in s.workers
    ensures Valid(Only(s, id))
  {
  }

  lemma ServeProjects(s: System, id: int)
    requires Valid(s) && id in s.workers && s.dispatcher.Serving? && s.dispatcher.todo[0] == id
    ensures Valid(Only(s, id)) && Only(After(s, DispatchStep), id) == After(Only(s, id), DispatchStep)
  {
    OnlyValid(s, id);
    var d := s.dispatcher;
    DistinctTail(d.todo);
  }

  lemma ServeOthers(s: System, id: int)
    requires Valid(s) && id in s.workers && s.dispatcher.Serving? && s.dispatcher.todo[0] != id
    ensures Only(After(s, DispatchStep), id) == Only(s, id)
  {
    var d := s.dispatcher;
    assert id in d.todo <==> id in d.todo[1..];
  }

  lemma StepProjects(s: System, e: Event, id: int)
    requires Valid(s) && id in s.workers
    ensures Valid(Only(s, id)) && id in After(s, e).workers
    ensures Only(After(s, e), id) == if Concerns(s, e, id) then After(Only(s, id), e) else Only(s, id)
  {
    OnlyValid(s, id);
    AfterValid(s, e);
    match e {
      case Dispatch(text) =>
      case DispatchStep =>
        if s.dispatcher.Serving? {
          if s.dispatcher.todo[0] == id { ServeProjects(s, id); } else { ServeOthers(s, id); }
        }
      case WorkerStep(i, step) =>
    }
  }

  /** After any interleaving, worker id is in the state it reaches in the run of
      it alone, with all steps of the other workers erased. */
  lemma {:induction false} WorkerIsIsolated(s: System, es: seq<Event>, id: int)
    requires Valid(s) && id in s.workers
    ensures Valid(Only(s, id)) && id in RunAll(s, es).workers && id in RunAll(Only(s, id), Erase(s, es, id)).workers
    ensures RunAll(s, es).workers[id] == RunAll(Only(s, id), Erase(s, es, id)).workers[id]
    decreases |es|
  {
    OnlyValid(s, id);
    if es != [] {
      StepProjects(s, es[0], id);
      AfterValid(s, es[0]);
      var rest := Erase(After(s, es[0]), es[1..], id);
      WorkerIsIsolated(After(s, es[0]), es[1..], id);
      if Concerns(s, es[0], id) {
        assert Erase(s, es, id)[0] == es[0] && Erase(s, es, id)[1..] == rest;
      } else {
        assert Erase(s, es, id) == rest;
      }
    }
  }

  /** The steps worker id takes during a run, in order. */
  function StepsOf(s: System, es: seq<Event>, id: int): seq<Step>
    requires Valid(s)
    decreases |es|
  {
    AfterValid(s, if es == [] then DispatchStep else es[0]);
    if es == [] then [] else StepOf(s, es[0], id) + StepsOf(After(s, es[0]), es[1..], id)
  }

  function StepOf(s: System, e: Event, id: int): seq<Step>
    requires Valid(s)
  {
    match e
    case Dispatch(_) => []
    case DispatchStep =>
      if s.dispatcher.Quiet? || s.dispatcher.todo[0] != id then []
      else [if s.dispatcher.started then PutStep else StartPut(s.dispatcher.text)]
    case WorkerStep(i, step) => if i == id && OwnStep(step) then [step] else []
  }

  lemma StepRuns(s: System, e: Event, id: int)
    requires Valid(s) && id in s.workers
    ensures id in After(s, e).workers && After(s, e).workers[id] == Run(s.workers[id], StepOf(s, e, id))
  {
    var w := s.workers[id];
    forall step ensures Run(w, [step]) == Next(w, step) {
      assert [step][..0] == [];
    }
  }

  /** Inside the system every worker goes through a run of WorkerSpec, so its
      accounting and ordering claims hold for it. */
  lemma {:induction false} WorkerRuns(s: System, es: seq<Event>, id: int)
    requires Valid(s) && id in s.workers
    ensures id in RunAll(s, es).workers && RunAll(s, es).workers[id] == Run(s.workers[id], StepsOf(s, es, id))
    decreases |es|
  {
    if es != [] {
      AfterValid(s, es[0]);
      StepRuns(s, es[0], id);
      WorkerRuns(After(s, es[0]), es[1..], id);
      RunConcat(s.workers[id], StepOf(s, es[0], id), StepsOf(After(s, es[0]), es[1..], id));
    }
  }
}
