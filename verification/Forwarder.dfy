/** An endpoint worker as an object shared by three threads: the dispatcher in
    `put`, the worker in `_run_tcp`, and whoever calls `stop`. Between two atomic
    operations of one thread the others may take any steps, given here as
    arguments; every call is shown to be a run of the WorkerSpec machine. */
module Forwarder {
  import opened Wrappers
  import opened WorkerSpec
  import opened WorkerLoop

  datatype Endpoint = Endpoint(id: int, name: string, protocol: string, host: string, port: int,
                               path: Option<string>, enabled: bool, createdAt: int, updatedAt: int, broadcast: bool)

  /** What the other threads do while `put` runs. */
  predicate OutsidePut(steps: seq<Step>) {
    forall i :: 0 <= i < |steps| ==> !steps[i].StartPut? && !steps[i].PutStep?
  }

  /** What the other threads do while the loop runs. */
  predicate OutsideLoop(steps: seq<Step>) {
    forall i :: 0 <= i < |steps| ==> !steps[i].LoopStep?
  }

  lemma {:induction false} OutsidePutFrame(w: Worker, steps: seq<Step>)
    requires OutsidePut(steps)
    ensures Run(w, steps).producer == w.producer && Run(w, steps).cap == w.cap
  {
    if steps != [] { OutsidePutFrame(w, steps[..|steps| - 1]); }
  }

  lemma {:induction false} OutsideLoopFrame(w: Worker, steps: seq<Step>)
    requires OutsideLoop(steps)
    ensures Run(w, steps).loop == w.loop && Run(w, steps).hasSock == w.hasSock && Run(w, steps).cap == w.cap
  {
    if steps != [] { OutsideLoopFrame(w, steps[..|steps| - 1]); }
  }

  /** The machine steps of one put with the given interference. */
  function PutSteps(w: Worker, text: string, a: seq<Step>, b: seq<Step>): seq<Step> {
    if Full(w) then [StartPut(text), PutStep] + a + [PutStep] + b + [PutStep] else [StartPut(text), PutStep]
  }

  function PutRun(w: Worker, text: string, a: seq<Step>, b: seq<Step>): Worker {
    var tried := NextPut(Next(w, StartPut(text)));
    if Full(w) then NextPut(Run(NextPut(Run(tried, a)), b)) else tried
  }

  lemma RunPut(w: Worker, text: string, a: seq<Step>, b: seq<Step>)
    ensures Run(w, PutSteps(w, text, a, b)) == PutRun(w, text, a, b)
  {
    var s1 := [StartPut(text), PutStep];
    RunTwo(w, StartPut(text), PutStep);
    if Full(w) {
      RunConcat(w, s1, a);
      RunSnoc(w, s1 + a, PutStep);
      RunConcat(w, s1 + a + [PutStep], b);
      RunSnoc(w, s1 + a + [PutStep] + b, PutStep);
    }
  }

  lemma RunTwo(w: Worker, x: Step, y: Step)
    ensures Run(w, [x, y]) == Next(Next(w, x), y)
  {
    RunSnoc(w, [], x);
    RunSnoc(w, [x], y);
    assert [x, y] == [x] + [y] && [] + [x] == [x];
  }

  const STOP_STEPS: seq<Step> := [SetStop, WakeStop]

  /** The worker is stopped, has sent nothing meanwhile, and will send at most one
      sentence more before it leaves its loop. */
  ghost predicate GivenUp(w: Worker, u: Worker) {
    u == Run(w, STOP_STEPS) && u.flow.sent == w.flow.sent && WindsDown(u)
  }

  lemma StoppedForGood(w: Worker)
    ensures GivenUp(w, Run(w, STOP_STEPS))
  {
    StopRun(w);
    StoppedWindsDown(Run(w, STOP_STEPS));
  }

  /** Outcomes and interference of one turn of the loop. */
  datatype Turn = Turn(connects: bool, sends: bool, beforeGet: seq<Step>, beforeSend: seq<Step>,
      beforeRequeue: seq<Step>) {
    predicate Valid() {
      OutsideLoop(beforeGet) && OutsideLoop(beforeSend) && OutsideLoop(beforeRequeue)
    }
  }

  /** The machine steps of one turn of the loop. */
  function TurnSteps(w: Worker, turn: Turn): seq<Step> {
    var w1 := NextLoop(w, turn.connects);
    if !w1.loop.Getting? then [LoopStep(turn.connects)] else
      var w2 := NextLoop(Run(w1, turn.beforeGet), true);
      if !w2.loop.Sending? then [LoopStep(turn.connects)] + turn.beforeGet + [LoopStep(true)] else
        var w3 := NextLoop(Run(w2, turn.beforeSend), turn.sends);
        var s3 := [LoopStep(turn.connects)] + turn.beforeGet + [LoopStep(true)]
          + turn.beforeSend + [LoopStep(turn.sends)];
        if !w3.loop.Requeueing? then s3 else s3 + turn.beforeRequeue + [LoopStep(true)]
  }

  function TurnRun(w: Worker, turn: Turn): Worker {
    var w1 := NextLoop(w, turn.connects);
    if !w1.loop.Getting? then w1 else
      var w2 := NextLoop(Run(w1, turn.beforeGet), true);
      if !w2.loop.Sending? then w2 else
        var w3 := NextLoop(Run(w2, turn.beforeSend), turn.sends);
        if !w3.loop.Requeueing? then w3 else NextLoop(Run(w3, turn.beforeRequeue), true)
  }

  lemma RunGap(w: Worker, steps: seq<Step>, gap: seq<Step>, ok: bool)
    ensures Run(w, steps + gap + [LoopStep(ok)]) == NextLoop(Run(Run(w, steps), gap), ok)
  {
    RunConcat(w, steps, gap);
    RunSnoc(w, steps + gap, LoopStep(ok));
  }

  lemma RunOne(w: Worker, ok: bool)
    ensures Run(w, [LoopStep(ok)]) == NextLoop(w, ok)
  {
    RunSnoc(w, [], LoopStep(ok));
    assert [] + [LoopStep(ok)] == [LoopStep(ok)];
  }

  lemma RunThree(w: Worker, turn: Turn)
    ensures Run(w, [LoopStep(turn.connects)] + turn.beforeGet + [LoopStep(true)])
         == NextLoop(Run(NextLoop(w, turn.connects), turn.beforeGet), true)
  {
    RunOne(w, turn.connects);
    RunGap(w, [LoopStep(turn.connects)], turn.beforeGet, true);
  }

  lemma RunFive(w: Worker, turn: Turn, w2: Worker)
    requires w2 == NextLoop(Run(NextLoop(w, turn.connects), turn.beforeGet), true)
    ensures var s3 := [LoopStep(turn.connects)] + turn.beforeGet + [LoopStep(true)]
      + turn.beforeSend + [LoopStep(turn.sends)];
      var w3 := NextLoop(Run(w2, turn.beforeSend), turn.sends);
      Run(w, s3) == w3
      && Run(w, s3 + turn.beforeRequeue + [LoopStep(true)]) == NextLoop(Run(w3, turn.beforeRequeue), true)
  {
    var s2 := [LoopStep(turn.connects)] + turn.beforeGet + [LoopStep(true)];
    RunThree(w, turn);
    RunGap(w, s2, turn.beforeSend, turn.sends);
    RunGap(w, s2 + turn.beforeSend + [LoopStep(turn.sends)], turn.beforeRequeue, true);
  }

  lemma RunTurn(w: Worker, turn: Turn)
    ensures Run(w, TurnSteps(w, turn)) == TurnRun(w, turn)
  {
    var w1 := NextLoop(w, turn.connects);
    if !w1.loop.Getting? {
      RunOne(w, turn.connects);
    } else {
      var w2 := NextLoop(Run(w1, turn.beforeGet), true);
      if w2.loop.Sending? {
        RunFive(w, turn, w2);
      } else {
        RunThree(w, turn);
      }
    }
  }

  function LoopSteps(w: Worker, turns: seq<Turn>): seq<Step> {
    if turns == [] then [] else
      var before := LoopSteps(w, turns[..|turns| - 1]);
      before + TurnSteps(Run(w, before), turns[|turns| - 1])
  }

  class EndpointWorker {
    const ep: Endpoint
    const cap: nat
    var queue: seq<Token>
    var hasSock: bool
    var stopping: bool
    var stats: Stats
    var producer: Producer               // where the dispatcher stands in put
    var loop: Loop                       // where the worker stands in its loop
    var issued: seq<Token>               // every token so far, and where the ones that left the queue went
    var sent: seq<Token>
    var displaced: seq<Token>
    var lost: seq<Token>
    var skipped: seq<Token>

    function View(): Worker
      reads this
    {
      Worker(cap, Flow(queue, issued, sent, displaced, lost, skipped), producer, loop, hasSock, stopping, stats)
    }

    constructor (ep: Endpoint, queueSize: nat)
      ensures this.ep == ep && View() == Fresh(queueSize)
    {
      this.ep, cap := ep, queueSize;
      queue, producer, loop := [], Idle, Top;
      hasSock, stopping, stats := false, false, Stats(0, 0, 0, false);
      issued, sent, displaced, lost, skipped := [], [], [], [], [];
    }

    /** The other threads, by their specification. */
    method Others(steps: seq<Step>)
      modifies this
      ensures View() == Run(old(View()), steps)
    {
      var w := Run(View(), steps);
      OthersCap(View(), steps);
      var f := w.flow;
      queue, issued, sent, displaced, lost, skipped := f.queue, f.issued, f.sent, f.displaced, f.lost, f.skipped;
      producer, loop, hasSock, stopping, stats := w.producer, w.loop, w.hasSock, w.stopping, w.stats;
    }

    method PutNowait(t: Token) returns (full: bool)
      modifies this`queue
      ensures full == (|old(queue)| >= cap)
      ensures queue == if full then old(queue) else old(queue) + [t]
    {
      full := |queue| >= cap;
      if !full { queue := queue + [t]; }
    }

    method GetNowait() returns (oldest: Option<Token>)
      modifies this`queue
      ensures old(queue) == [] ==> oldest.None? && queue == []
      ensures old(queue) != [] ==> oldest == Some(old(queue)[0]) && queue == old(queue)[1..]
    {
      if queue == [] { return None; }
      oldest, queue := Some(queue[0]), queue[1..];
    }

    /** `put`: try, drop the oldest, try again, count a loss. a and b are what the
        other threads do around the get. */
    method Put(sentence: string, a: seq<Step>, b: seq<Step>)
      requires producer == Idle && OutsidePut(a) && OutsidePut(b)
      modifies this
      ensures View() == Run(old(View()), PutSteps(old(View()), sentence, a, b)) && producer == Idle
    {
      RunPut(View(), sentence, a, b);
      var t := Token(|issued|, sentence);
      issued, producer := issued + [t], First(t);
      var full := PutFirst(t);
      if full {
        OutsidePutFrame(View(), a);
        Others(a);
        DropOldest(t);
        OutsidePutFrame(View(), b);
        Others(b);
        PutLast(t);
      }
    }

    method PutFirst(t: Token) returns (full: bool)
      requires producer == First(t)
      modifies this`queue, this`producer
      ensures View() == NextPut(old(View())) && full == Full(old(View()))
      ensures producer == if full then Displacing(t) else Idle
    {
      full := PutNowait(t);
      producer := if full then Displacing(t) else Idle;
    }

    method DropOldest(t: Token)
      requires producer == Displacing(t)
      modifies this`queue, this`producer, this`displaced
      ensures View() == NextPut(old(View())) && producer == Second(t)
    {
      var oldest := GetNowait();
      if oldest.Some? { displaced := displaced + [oldest.value]; }
      producer := Second(t);
    }

    method PutLast(t: Token)
      requires producer == Second(t)
      modifies this`queue, this`producer, this`stats, this`lost
      ensures View() == NextPut(old(View())) && producer == Idle
    {
      var full := PutNowait(t);
      if full {
        stats := stats.(dropped := stats.dropped + 1);
        lost := lost + [t];
      }
      producer := Idle;
    }

    /** `stop`: raise the flag, then wake the loop with an empty text unless the
        queue is full. */
    method Stop()
      modifies this
      ensures View() == Run(old(View()), STOP_STEPS) && stopping && producer == old(producer)
      ensures GivenUp(old(View()), View())
      ensures queue == if |old(queue)| >= cap then old(queue) else old(queue) + [Token(|old(issued)|, "")]
    {
      StopRun(View());
      StoppedForGood(View());
      stopping := true;
      var t := Token(|issued|, "");
      issued := issued + [t];
      var full := PutNowait(t);
      if full { skipped := skipped + [t]; }
    }

    method CloseSock()
      modifies this`hasSock, this`stats
      ensures !hasSock && stats == if old(hasSock) then old(stats).(connected := false) else old(stats)
    {
      if hasSock {
        hasSock := false;
        stats := stats.(connected := false);
      }
    }

    /** `_run_tcp` over any sequence of outcomes and interference. */
    method RunTcp(turns: seq<Turn>)
      requires loop == Top && forall i :: 0 <= i < |turns| ==> turns[i].Valid()
      modifies this
      ensures View() == Run(old(View()), LoopSteps(old(View()), turns))
      ensures loop == Top || (loop == Exited && stopping && !hasSock)
      // a worker already stopped leaves the loop at once and sends nothing
      ensures old(stopping) && turns != [] ==> loop == Exited && sent == old(sent)
    {
      ghost var w := View();
      for i := 0 to |turns|
        invariant View() == Run(w, LoopSteps(w, turns[..i]))
        invariant loop == Top || (loop == Exited && stopping && !hasSock)
        invariant old(stopping) ==> stopping && sent == old(sent) && (i > 0 ==> loop == Exited)
      {
        assert turns[..i + 1][..i] == turns[..i];
        RunConcat(w, LoopSteps(w, turns[..i]), TurnSteps(View(), turns[i]));
        OneTurn(turns[i]);
      }
      assert turns[..|turns|] == turns;
    }

    /** One turn of the while loop. */
    method OneTurn(turn: Turn)
      requires loop == Top || (loop == Exited && stopping && !hasSock)
      requires turn.Valid()
      modifies this
      ensures View() == Run(old(View()), TurnSteps(old(View()), turn))
      ensures loop == Top || (loop == Exited && stopping && !hasSock)
      ensures old(stopping) ==> stopping && loop == Exited && sent == old(sent)
    {
      RunTurn(View(), turn);
      var ready := Connect(turn.connects);
      if !ready { return; }
      OutsideLoopFrame(View(), turn.beforeGet);
      Others(turn.beforeGet);
      var sentence := Get();
      if sentence.None? { return; }
      OutsideLoopFrame(View(), turn.beforeSend);
      Others(turn.beforeSend);
      var failed := SendAll(sentence.value, turn.sends);
      if !failed { return; }
      OutsideLoopFrame(View(), turn.beforeRequeue);
      Others(turn.beforeRequeue);
      Requeue(sentence.value);
    }

    /** The stop check and, without a socket, the attempt to connect. */
    method Connect(connects: bool) returns (ready: bool)
      requires loop == Top || loop == Exited
      modifies this`loop, this`hasSock, this`stats
      ensures View() == NextLoop(old(View()), connects)
      ensures ready == (loop == Getting) && (!ready ==> loop == Top || loop == Exited)
    {
      if loop == Exited {
        return false;
      }
      if stopping {
        CloseSock();
        loop := Exited;
        return false;
      }
      if !hasSock {
        if !connects {
          stats := stats.(connected := false, errors := stats.errors + 1);
          return false;
        }
        hasSock := true;
        stats := stats.(connected := true);
      }
      loop := Getting;
      return true;
    }

    /** get with its timeout; an empty text is thrown away. */
    method Get() returns (sentence: Option<Token>)
      requires loop == Getting
      modifies this`queue, this`loop, this`skipped
      ensures View() == NextLoop(old(View()), true)
      ensures loop == if sentence.Some? then Sending(sentence.value) else Top
    {
      sentence := GetNowait();
      loop := Top;
      if sentence.Some? {
        if sentence.value.text == "" {
          skipped := skipped + [sentence.value];
          return None;
        }
        loop := Sending(sentence.value);
      }
    }

    method SendAll(sentence: Token, sends: bool) returns (failed: bool)
      requires loop == Sending(sentence)
      modifies this`loop, this`hasSock, this`stats, this`sent
      ensures View() == NextLoop(old(View()), sends)
      ensures failed == !sends && loop == if failed then Requeueing(sentence) else Top
    {
      if sends {
        stats := stats.(sent := stats.sent + 1);
        sent, loop := sent + [sentence], Top;
        return false;
      }
      stats := stats.(connected := false, errors := stats.errors + 1);
      CloseSock();
      loop := Requeueing(sentence);
      return true;
    }

    method Requeue(sentence: Token)
      requires loop == Requeueing(sentence)
      modifies this`queue, this`loop, this`stats, this`lost
      ensures View() == NextLoop(old(View()), true) && loop == Top
    {
      var full := PutNowait(sentence);
      if full {
        stats := stats.(dropped := stats.dropped + 1);
        lost := lost + [sentence];
      }
      loop := Top;
    }
  }

  lemma {:induction false} OthersCap(w: Worker, steps: seq<Step>)
    ensures Run(w, steps).cap == w.cap
  {
    if steps != [] { OthersCap(w, steps[..|steps| - 1]); }
  }

  lemma StopRun(w: Worker)
    ensures Run(w, STOP_STEPS) == w.(stopping := true, flow := Woken(w))
  {
    RunTwo(w, SetStop, WakeStop);
  }

  /** Stop puts an empty text at the end of the queue, unless it is full; either way the
      queue is then not empty, so a loop that waits for it wakes up. Nothing else
      is touched. */
  lemma StopWakes(w: Worker)
    requires w.cap >= 1
    ensures var u := Run(w, STOP_STEPS);
      && u.stopping && u.flow.queue != []
      && u.flow.queue == (if |w.flow.queue| >= w.cap then w.flow.queue
                          else w.flow.queue + [Token(|w.flow.issued|, "")])
      && u.flow.sent == w.flow.sent && u.flow.displaced == w.flow.displaced && u.flow.lost == w.flow.lost
      && u.stats == w.stats
  {
    StopRun(w);
  }

  function Newest(s: seq<Token>, n: nat): seq<Token> {
    if |s| <= n then s else s[|s| - n..]
  }

  /** Nobody disturbs the turn. */
  predicate Undisturbed(turn: Turn) {
    turn.beforeGet == [] && turn.beforeSend == [] && turn.beforeRequeue == []
  }

  /** An undisturbed turn of a worker that is not stopped, from start to end: a failed
      connect is counted and leaves the queue alone; with a socket, the oldest of the
      queue is sent, or goes to its end if the send fails, which closes the socket; an
      empty text is thrown away. */
  lemma UndisturbedTurn(w: Worker, turn: Turn)
    requires w.loop.Top? && !w.stopping && Undisturbed(turn) && 1 <= w.cap && |w.flow.queue| <= w.cap
    ensures var u := Run(w, TurnSteps(w, turn)); var q := w.flow.queue; var online := w.hasSock || turn.connects;
      && u.loop.Top? && !u.stopping && u.flow.lost == w.flow.lost && u.flow.displaced == w.flow.displaced
      && (!online ==> u.flow == w.flow && !u.hasSock && Moved(w.stats, u.stats, 0, 1))
      && (online && q == [] ==> u.flow == w.flow && u.hasSock && Moved(w.stats, u.stats, 0, 0))
      && (online && q != [] && q[0].text == "" ==>
            u.flow.queue == q[1..] && u.flow.sent == w.flow.sent && u.hasSock && Moved(w.stats, u.stats, 0, 0))
      && (online && q != [] && q[0].text != "" && turn.sends ==>
            u.flow.queue == q[1..] && u.flow.sent == w.flow.sent + [q[0]] && u.hasSock && Moved(w.stats, u.stats, 1, 0))
      && (online && q != [] && q[0].text != "" && !turn.sends ==>
            u.flow.queue == q[1..] + [q[0]] && u.flow.sent == w.flow.sent && !u.hasSock
            && Moved(w.stats, u.stats, 0, 1))
  {
    RunTurn(w, turn);
  }

  /** How far the counters have moved, with nothing dropped. */
  predicate Moved(s: Stats, t: Stats, sent: int, errors: int) {
    t.sent == s.sent + sent && t.errors == s.errors + errors && t.dropped == s.dropped
  }

  /** A put that nobody disturbs leaves the newest cap of the queue followed by
      the sentence, displaces at most the oldest, and loses nothing. */
  lemma UndisturbedPut(w: Worker, text: string)
    requires w.producer.Idle? && w.cap >= 1 && |w.flow.queue| <= w.cap
    ensures var u := Run(w, PutSteps(w, text, [], [])); var t := w.flow.NextToken(text);
      && u.flow.queue == Newest(w.flow.queue + [t], w.cap)
      && u.flow.displaced == w.flow.displaced + (if Full(w) then [w.flow.queue[0]] else [])
      && u.stats == w.stats && u.flow.lost == w.flow.lost && u.producer.Idle?
  {
    RunPut(w, text, [], []);
  }
}
