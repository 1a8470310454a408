/** The loop of one worker over whole runs: what its socket, its error counter and
    the stop flag do, under every interleaving. */
module WorkerLoop {
  import opened WorkerSpec

  // ------------------------------------------------------------- the socket

  /** The worker is shown as connected exactly while it has a socket, it fetches and
      sends only with one, gives it up before it re-queues or exits, and exits only
      when stopped. */
  ghost predicate Wired(w: Worker) {
    && w.stats.connected == w.hasSock
    && (w.loop.Getting? || w.loop.Sending? ==> w.hasSock)
    && (w.loop.Requeueing? || w.loop.Exited? ==> !w.hasSock)
    && (w.loop.Exited? ==> w.stopping)
  }

  lemma NextWired(w: Worker, step: Step)
    requires Wired(w)
    ensures Wired(Next(w, step))
  {
  }

  lemma {:induction false} RunWired(cap: nat, steps: seq<Step>)
    ensures Wired(Run(Fresh(cap), steps))
  {
    if steps != [] {
      RunWired(cap, steps[..|steps| - 1]);
      NextWired(Run(Fresh(cap), steps[..|steps| - 1]), steps[|steps| - 1]);
    }
  }

  // ------------------------------------------------------------- the errors

  /** A connect or a send that fails. */
  predicate Fails(w: Worker, step: Step) {
    step == LoopStep(false) && (w.loop.Sending? || (w.loop.Top? && !w.stopping && !w.hasSock))
  }

  function Failures(w: Worker, steps: seq<Step>): nat {
    if steps == [] then 0 else
      var before := steps[..|steps| - 1];
      Failures(w, before) + (if Fails(Run(w, before), steps[|steps| - 1]) then 1 else 0)
  }

  lemma NextErrors(w: Worker, step: Step)
    ensures Next(w, step).stats.errors == w.stats.errors + if Fails(w, step) then 1 else 0
  {
  }

  /** The error counter counts the failed connects and the failed sends. */
  lemma {:induction false} ErrorsCounted(w: Worker, steps: seq<Step>)
    ensures Run(w, steps).stats.errors == w.stats.errors + Failures(w, steps)
  {
    if steps != [] {
      ErrorsCounted(w, steps[..|steps| - 1]);
      NextErrors(Run(w, steps[..|steps| - 1]), steps[|steps| - 1]);
    }
  }

  // ----------------------------------------------------------- the stop flag

  /** How many sentences a stopped worker can still send. */
  function Left(w: Worker): nat {
    if w.loop.Getting? || w.loop.Sending? then 1 else 0
  }

  /** How many steps of its loop a stopped worker is away from leaving it. */
  function Distance(w: Worker): nat {
    match w.loop
    case Exited => 0
    case Top => 1
    case Requeueing(_) => 2
    case Sending(_) => 3
    case Getting => 4
  }

  function LoopCount(steps: seq<Step>): nat {
    if steps == [] then 0 else LoopCount(steps[..|steps| - 1]) + (if steps[|steps| - 1].LoopStep? then 1 else 0)
  }

  lemma NextStopped(w: Worker, step: Step)
    requires w.stopping
    ensures var u := Next(w, step);
      && u.stopping && w.flow.sent <= u.flow.sent
      && |u.flow.sent| + Left(u) <= |w.flow.sent| + Left(w)
      && Distance(u) <= Distance(w)
      && (step.LoopStep? && Distance(w) > 0 ==> Distance(u) < Distance(w))
  {
  }

  lemma {:induction false} RunStopped(w: Worker, steps: seq<Step>)
    requires w.stopping
    ensures var u := Run(w, steps);
      && u.stopping && w.flow.sent <= u.flow.sent
      && |u.flow.sent| + Left(u) <= |w.flow.sent| + Left(w)
      && (LoopCount(steps) >= Distance(w) ==> Distance(u) == 0)
      && (LoopCount(steps) < Distance(w) ==> Distance(u) + LoopCount(steps) <= Distance(w))
  {
    if steps != [] {
      RunStopped(w, steps[..|steps| - 1]);
      NextStopped(Run(w, steps[..|steps| - 1]), steps[|steps| - 1]);
    }
  }

  /** Once stopped, a worker sends at most the one sentence it is fetching or
      sending, and is out of its loop after four steps of it, whatever the other
      threads do. */
  ghost predicate WindsDown(w: Worker) {
    forall more :: LeavesSoon(w, Run(w, more), LoopCount(more))
  }

  /** u is a later state of w, after n steps of its loop. */
  predicate LeavesSoon(w: Worker, u: Worker, n: nat) {
    && u.stopping && w.flow.sent <= u.flow.sent
    && |u.flow.sent| <= |w.flow.sent| + (if w.loop.Getting? || w.loop.Sending? then 1 else 0)
    && (n >= 4 ==> u.loop.Exited?)
    && (n >= 1 && w.loop.Top? ==> u.loop.Exited?)
    && (w.loop.Exited? ==> u.loop.Exited?)
  }

  lemma StoppedWindsDown(w: Worker)
    requires w.stopping
    ensures WindsDown(w)
  {
    forall more: seq<Step> ensures LeavesSoon(w, Run(w, more), LoopCount(more)) {
      RunStopped(w, more);
    }
  }

  /** In every run of a worker: once stop has raised the flag it stays up; the worker
      sends at most one sentence more, and none if it stands at the top of its loop
      or has left it; after four more steps of the loop, or one from the top, it has
      left the loop for good, with its socket closed and shown as disconnected. */
  lemma StopTakesEffect(cap: nat, steps: seq<Step>, more: seq<Step>)
    requires Run(Fresh(cap), steps).stopping
    ensures var w, u := Run(Fresh(cap), steps), Run(Fresh(cap), steps + more);
      && u.stopping && w.flow.sent <= u.flow.sent && |u.flow.sent| <= |w.flow.sent| + 1
      && (w.loop.Top? || w.loop.Exited? ==> u.flow.sent == w.flow.sent)
      && (LoopCount(more) >= 4 || (LoopCount(more) >= 1 && w.loop.Top?) || w.loop.Exited? ==>
            u.loop.Exited? && !u.hasSock && !u.stats.connected)
  {
    RunConcat(Fresh(cap), steps, more);
    RunStopped(Run(Fresh(cap), steps), more);
    RunWired(cap, steps + more);
  }

  /** A worker that was not stopped never leaves its loop. */
  lemma ExitsOnlyStopped(cap: nat, steps: seq<Step>)
    requires forall i :: 0 <= i < |steps| ==> !steps[i].SetStop?
    ensures !Run(Fresh(cap), steps).stopping && !Run(Fresh(cap), steps).loop.Exited?
  {
    RunWired(cap, steps);
    NeverStopped(cap, steps);
  }

  lemma {:induction false} NeverStopped(cap: nat, steps: seq<Step>)
    requires forall i :: 0 <= i < |steps| ==> !steps[i].SetStop?
    ensures !Run(Fresh(cap), steps).stopping
  {
    if steps != [] { NeverStopped(cap, steps[..|steps| - 1]); }
  }
}
