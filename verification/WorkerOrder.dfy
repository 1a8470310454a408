/** Order through one worker: runs with no failed send and no stop deliver in
    put order; a failed send keeps the order exactly when its re-queue finds the
    queue empty or full. */
module WorkerOrder {
  import opened WorkerSpec

  /** The puts that are finished, in order: all issued tokens but the one still
      in the producer's hand. */
  function Handed(w: Worker): seq<Token> {
    if w.producer.Idle? || w.flow.issued == [] then w.flow.issued else w.flow.issued[..|w.flow.issued| - 1]
  }

  /** Sent, then in the worker's hand, then queued. */
  function InFlight(w: Worker): seq<Token> {
    w.flow.sent + (if w.loop.Sending? || w.loop.Requeueing? then [w.loop.token] else []) + w.flow.queue
  }

  // ------------------------------------------------------------ subsequences

  /** a is b with some elements left out. */
  predicate Subsequence<A(==)>(a: seq<A>, b: seq<A>) {
    a == [] ||
    (b != [] &&
     ((a[|a| - 1] == b[|b| - 1] && Subsequence(a[..|a| - 1], b[..|b| - 1])) || Subsequence(a, b[..|b| - 1])))
  }

  lemma SubsequenceSnoc<A>(a: seq<A>, b: seq<A>, x: A)
    requires Subsequence(a, b)
    ensures Subsequence(a + [x], b + [x])
  {
    assert (a + [x])[..|a|] == a && (b + [x])[..|b|] == b;
  }

  lemma {:induction false} SubsequenceDrop<A>(a: seq<A>, x: A, c: seq<A>, b: seq<A>)
    requires Subsequence(a + [x] + c, b)
    ensures Subsequence(a + c, b)
    decreases |b|
  {
    var whole, n := a + [x] + c, |b| - 1;
    if Subsequence(whole, b[..n]) {
      SubsequenceDrop(a, x, c, b[..n]);
    } else if c == [] {
      assert whole[..|whole| - 1] == a == a + c;
      SubsequenceLonger(a, b);
    } else {
      var m := |c| - 1;
      assert whole[..|whole| - 1] == a + [x] + c[..m];
      SubsequenceDrop(a, x, c[..m], b[..n]);
      assert (a + c)[..|a + c| - 1] == a + c[..m];
    }
  }

  lemma SubsequenceLonger<A>(a: seq<A>, b: seq<A>)
    requires b != [] && Subsequence(a, b[..|b| - 1])
    ensures Subsequence(a, b)
  {
  }

  lemma {:induction false} SubsequenceMember<A>(a: seq<A>, b: seq<A>, i: nat) returns (j: nat)
    requires Subsequence(a, b) && i < |a|
    ensures j < |b| && b[j] == a[i]
    decreases |b|
  {
    var n := |b| - 1;
    if Subsequence(a, b[..n]) {
      j := SubsequenceMember(a, b[..n], i);
    } else if i == |a| - 1 {
      j := n;
    } else {
      j := SubsequenceMember(a[..|a| - 1], b[..n], i);
    }
  }

  ghost predicate SortedBy(s: seq<Token>, key: Token -> int) {
    forall i, j :: 0 <= i < j < |s| ==> key(s[i]) <= key(s[j])
  }

  lemma {:induction false} SubsequenceSorted(a: seq<Token>, b: seq<Token>, key: Token -> int)
    requires Subsequence(a, b) && SortedBy(b, key)
    ensures SortedBy(a, key)
    decreases |b|
  {
    if a != [] {
      var m, n := |a| - 1, |b| - 1;
      if Subsequence(a, b[..n]) {
        SubsequenceSorted(a, b[..n], key);
      } else {
        SubsequenceSorted(a[..m], b[..n], key);
        forall i | 0 <= i < m ensures key(a[i]) <= key(a[m]) {
          var j := SubsequenceMember(a[..m], b[..n], i);
          assert b[j] == a[i];
        }
        forall i, j | 0 <= i < j < |a| ensures key(a[i]) <= key(a[j]) {
          if j < m { assert key(a[..m][i]) <= key(a[..m][j]); }
        }
      }
    }
  }

  // ---------------------------------------------------------- delivery order

  /** What is in flight is an in-order part of what was handed over. Sends may
      have failed and sentences may have been lost. */
  ghost predicate Ordered(w: Worker) {
    && w.cap >= 1 && Numbered(w.flow.issued)
    && (!w.producer.Idle? ==> w.flow.issued != [] && w.flow.issued[|w.flow.issued| - 1] == w.producer.token)
    && Subsequence(InFlight(w), Handed(w))
  }

  /** Whether the re-queue of a failed sentence finds the queue empty or full. */
  predicate Unobstructed(w: Worker) {
    w.flow.queue == [] || Full(w)
  }

  lemma LoseOrdered(w: Worker, t: Token)
    requires Ordered(w) && !w.producer.Idle? && t == w.producer.token
    ensures Ordered(w.(producer := Idle, flow := w.flow.Lose(t), stats := Dropped(w.stats)))
  {
    var u := w.(producer := Idle, flow := w.flow.Lose(t), stats := Dropped(w.stats));
    assert Handed(u)[..|Handed(u)| - 1] == Handed(w);
    assert InFlight(u) == InFlight(w);
    SubsequenceLonger(InFlight(w), Handed(u));
  }

  lemma LandOrdered(w: Worker, t: Token)
    requires Ordered(w) && !w.producer.Idle? && t == w.producer.token
    ensures Ordered(w.(producer := Idle, flow := w.flow.Enqueue(t)))
  {
    var u := w.(producer := Idle, flow := w.flow.Enqueue(t));
    assert Handed(u) == Handed(w) + [t];
    assert InFlight(u) == InFlight(w) + [t];
    SubsequenceSnoc(InFlight(w), Handed(w), t);
  }

  lemma FrontOf(front: seq<Token>, x: Token, rest: seq<Token>, queue: seq<Token>)
    requires queue != [] && x == queue[0] && rest == queue[1..]
    ensures front + queue == front + [x] + rest
  {
  }

  /** Leaving out the oldest queued token. */
  lemma TakeOrdered(w: Worker)
    requires Ordered(w) && w.flow.queue != []
    ensures Subsequence(InFlight(w.(flow := w.flow.Take())), Handed(w))
  {
    var x, rest := w.flow.queue[0], w.flow.queue[1..];
    var front := w.flow.sent + (if w.loop.Sending? || w.loop.Requeueing? then [w.loop.token] else []);
    FrontOf(front, x, rest, w.flow.queue);
    SubsequenceDrop(front, x, rest, Handed(w));
  }

  lemma SameHands(w: Worker, v: Worker, u: Worker)
    requires u.producer == w.producer || (w.producer.Displacing? && u.producer == Second(w.producer.token))
    requires u.flow.issued == w.flow.issued && u.flow.queue == v.flow.queue && u.flow.sent == v.flow.sent
        && u.loop == v.loop
    ensures Handed(u) == Handed(w) && InFlight(u) == InFlight(v)
  {
  }

  lemma DisplaceOrdered(w: Worker, t: Token)
    requires Ordered(w) && w.producer == Displacing(t)
    ensures Ordered(NextPut(w))
  {
    var u := NextPut(w);
    if w.flow.queue == [] {
      SameHands(w, w, u);
    } else {
      TakeOrdered(w);
      SameHands(w, w.(flow := w.flow.Take()), u);
    }
  }

  lemma WaitOrdered(w: Worker, t: Token)
    requires Ordered(w) && w.producer == First(t) && Full(w)
    ensures Ordered(NextPut(w))
  {
    assert Handed(NextPut(w)) == Handed(w) && InFlight(NextPut(w)) == InFlight(w);
  }

  lemma PutOrdered(w: Worker)
    requires Ordered(w)
    ensures Ordered(NextPut(w))
  {
    match w.producer {
      case Idle =>
      case First(t) => if Full(w) { WaitOrdered(w, t); } else { LandOrdered(w, t); }
      case Displacing(t) => DisplaceOrdered(w, t);
      case Second(t) => if Full(w) { LoseOrdered(w, t); } else { LandOrdered(w, t); }
    }
  }

  lemma StartOrdered(w: Worker, text: string)
    requires Ordered(w)
    ensures Ordered(Next(w, StartPut(text)))
  {
    if w.producer.Idle? {
      assert Handed(Next(w, StartPut(text))) == Handed(w);
    }
  }

  /** The loop's steps other than the re-queue. */
  lemma LoopOrdered(w: Worker, ok: bool)
    requires Ordered(w) && !w.loop.Requeueing?
    ensures Ordered(NextLoop(w, ok))
  {
    match w.loop {
      case Getting => GetOrdered(w, ok);
      case Sending(_) => SendOrdered(w, ok);
      case _ =>
    }
  }

  lemma SendOrdered(w: Worker, ok: bool)
    requires Ordered(w) && w.loop.Sending?
    ensures Ordered(NextLoop(w, ok))
  {
    assert InFlight(NextLoop(w, ok)) == InFlight(w);
  }

  lemma TakeFlight(w: Worker)
    requires w.loop.Getting? && w.flow.queue != []
    ensures InFlight(w.(loop := Sending(w.flow.queue[0]), flow := w.flow.Take())) == InFlight(w)
  {
  }

  lemma SkipOrdered(w: Worker)
    requires Ordered(w) && w.loop.Getting? && w.flow.queue != []
    ensures Ordered(w.(loop := Top, flow := w.flow.Take().Skip(w.flow.queue[0])))
  {
    TakeOrdered(w);
    assert InFlight(w.(loop := Top, flow := w.flow.Take().Skip(w.flow.queue[0])))
        == InFlight(w.(flow := w.flow.Take()));
  }

  lemma GetOrdered(w: Worker, ok: bool)
    requires Ordered(w) && w.loop.Getting?
    ensures Ordered(NextLoop(w, ok))
  {
    if w.flow.queue != [] {
      if w.flow.queue[0].text == "" { SkipOrdered(w); } else { TakeFlight(w); }
    }
  }

  /** A run without stop in which every re-queue so far found the queue empty or
      full. Any number of sends and connects may fail. */
  predicate Tame(w: Worker, steps: seq<Step>) {
    steps == [] || (Tame(w, steps[..|steps| - 1]) && TameStep(Run(w, steps[..|steps| - 1]), steps[|steps| - 1]))
  }

  predicate TameStep(w: Worker, step: Step) {
    step.StartPut? || step.PutStep? || (step.LoopStep? && (w.loop.Requeueing? ==> Unobstructed(w)))
  }

  lemma TameStepOrdered(w: Worker, step: Step)
    requires Ordered(w) && TameStep(w, step)
    ensures Ordered(Next(w, step))
  {
    match step {
      case StartPut(text) => StartOrdered(w, text);
      case PutStep => PutOrdered(w);
      case LoopStep(ok) =>
        if w.loop.Requeueing? { RequeueKeepsOrderIff(w, ok); } else { LoopOrdered(w, ok); }
    }
  }

  /** Delivery stays in order through any number of failed sends, as long as each
      re-queue finds the queue empty or full. */
  lemma {:induction false} TameRunInOrder(w: Worker, steps: seq<Step>)
    requires Ordered(w) && Tame(w, steps)
    ensures Ordered(Run(w, steps))
  {
    if steps != [] {
      TameRunInOrder(w, steps[..|steps| - 1]);
      TameStepOrdered(Run(w, steps[..|steps| - 1]), steps[|steps| - 1]);
    }
  }

  ghost predicate Increasing(s: seq<Token>) {
    forall i, j :: 0 <= i < j < |s| ==> s[i].ticket < s[j].ticket
  }

  /** Part of a numbered history is numbered upwards. */
  lemma {:induction false} PartIncreasing(a: seq<Token>, b: seq<Token>)
    requires Subsequence(a, b) && Increasing(b)
    ensures Increasing(a)
    decreases |b|
  {
    if a != [] {
      var m, n := |a| - 1, |b| - 1;
      if Subsequence(a, b[..n]) {
        PartIncreasing(a, b[..n]);
      } else {
        PartIncreasing(a[..m], b[..n]);
        forall i | 0 <= i < m ensures a[i].ticket < a[m].ticket {
          var j := SubsequenceMember(a[..m], b[..n], i);
          assert b[j] == a[i];
        }
        forall i, j | 0 <= i < j < |a| ensures a[i].ticket < a[j].ticket {
          if j < m { assert a[..m][i].ticket < a[..m][j].ticket; }
        }
      }
    }
  }

  /** A full queue drops the sentence, which leaves the others in order. */
  lemma DroppedOrdered(w: Worker, ok: bool)
    requires Ordered(w) && w.loop.Requeueing? && Full(w)
    ensures Ordered(NextLoop(w, ok))
  {
    var t, u := w.loop.token, NextLoop(w, ok);
    SubsequenceDrop(w.flow.sent, t, w.flow.queue, Handed(w));
    assert InFlight(u) == w.flow.sent + w.flow.queue;
  }

  lemma AloneOrdered(w: Worker, ok: bool)
    requires Ordered(w) && w.loop.Requeueing? && w.flow.queue == []
    ensures Ordered(NextLoop(w, ok))
  {
    assert InFlight(NextLoop(w, ok)) == InFlight(w);
  }

  /** The re-queue: order survives it if and only if the queue is empty, or full so
      that the sentence is dropped. */
  lemma RequeueKeepsOrderIff(w: Worker, ok: bool)
    requires Ordered(w) && w.loop.Requeueing?
    ensures Ordered(NextLoop(w, ok)) <==> Unobstructed(w)
    ensures Subsequence(InFlight(NextLoop(w, ok)), Handed(NextLoop(w, ok))) <==> Unobstructed(w)
  {
    if Full(w) {
      DroppedOrdered(w, ok);
    } else if w.flow.queue == [] {
      AloneOrdered(w, ok);
    } else {
      Overtaken(w, NextLoop(w, ok), w.loop.token);
    }
  }

  /** Behind a waiting sentence it is out of order. */
  lemma Overtaken(w: Worker, u: Worker, t: Token)
    requires Ordered(w) && w.loop == Requeueing(t) && w.flow.queue != []
    requires u == w.(loop := Top, flow := w.flow.Enqueue(t))
    ensures !Subsequence(InFlight(u), Handed(u))
  {
    assert Handed(u) == Handed(w) && InFlight(u) == w.flow.sent + w.flow.queue + [t];
    var n := |w.flow.sent|;
    PartIncreasing(InFlight(w), Handed(w));
    assert InFlight(w)[n] == t && InFlight(w)[n + 1] == w.flow.queue[0];
    var x := InFlight(u);
    assert x[n] == w.flow.queue[0] && x[|x| - 1] == t;
    assert !Increasing(x);
    if Subsequence(x, Handed(w)) { PartIncreasing(x, Handed(w)); }
  }

  predicate OnlyPuts(steps: seq<Step>) {
    forall i :: 0 <= i < |steps| ==> steps[i].StartPut? || steps[i].PutStep?
  }

  lemma {:induction false} PutsAreTame(w: Worker, steps: seq<Step>)
    requires OnlyPuts(steps)
    ensures Tame(w, steps) && Run(w, steps).loop == w.loop
  {
    if steps != [] { PutsAreTame(w, steps[..|steps| - 1]); }
  }

  /** A failed send, with any steps of `put` before its re-queue: the order
      survives if and only if the queue is then empty or full. */
  lemma FailedSendKeepsOrderIff(w: Worker, gap: seq<Step>, ok: bool)
    requires Ordered(w) && w.loop.Sending? && OnlyPuts(gap)
    ensures var v := Run(NextLoop(w, false), gap); var u := NextLoop(v, ok);
      && v.loop == Requeueing(w.loop.token)
      && (Subsequence(InFlight(u), Handed(u)) <==> v.flow.queue == [] || Full(v))
      && (Full(v) <==> u.stats.dropped == v.stats.dropped + 1)
  {
    SendOrdered(w, false);
    PutsAreTame(NextLoop(w, false), gap);
    TameRunInOrder(NextLoop(w, false), gap);
    RequeueKeepsOrderIff(Run(NextLoop(w, false), gap), ok);
  }

  /** Such a worker delivers a sorted put history sorted, failures or not. */
  lemma TameDelivery(cap: nat, steps: seq<Step>, key: Token -> int)
    requires cap >= 1 && Tame(Fresh(cap), steps)
    ensures var w := Run(Fresh(cap), steps); SortedBy(Handed(w), key) ==> SortedBy(w.flow.sent, key)
  {
    var w := Run(Fresh(cap), steps);
    TameRunInOrder(Fresh(cap), steps);
    if SortedBy(Handed(w), key) { SentSorted(w, key); }
  }

  lemma SentSorted(w: Worker, key: Token -> int)
    requires Subsequence(InFlight(w), Handed(w)) && SortedBy(Handed(w), key)
    ensures SortedBy(w.flow.sent, key)
  {
    SubsequenceSorted(InFlight(w), Handed(w), key);
    forall i, j | 0 <= i < j < |w.flow.sent| ensures key(w.flow.sent[i]) <= key(w.flow.sent[j]) {
      assert InFlight(w)[i] == w.flow.sent[i] && InFlight(w)[j] == w.flow.sent[j];
    }
  }

  /** Nothing waits when the send of "a" fails, but "b" is put before the re-queue. */
  const GAP_RUN: seq<Step> := [StartPut("a"), PutStep, LoopStep(true), LoopStep(true), LoopStep(false),
                              StartPut("b"), PutStep, LoopStep(true)]

  lemma RunCons(w: Worker, steps: seq<Step>)
    requires steps != []
    ensures Run(w, steps) == Run(Next(w, steps[0]), steps[1..])
  {
    RunConcat(w, [steps[0]], steps[1..]);
    assert [steps[0]] + steps[1..] == steps;
    RunSnoc(w, [], steps[0]);
    assert [] + [steps[0]] == [steps[0]];
  }

  lemma FourSteps(w: Worker, steps: seq<Step>)
    requires |steps| == 4
    ensures Run(w, steps) == Next(Next(Next(Next(w, steps[0]), steps[1]), steps[2]), steps[3])
  {
    RunCons(w, steps);
    RunCons(Next(w, steps[0]), steps[1..]);
    RunCons(Next(Next(w, steps[0]), steps[1]), steps[2..]);
    RunCons(Next(Next(Next(w, steps[0]), steps[1]), steps[2]), steps[3..]);
    assert steps[1..][1..] == steps[2..] && steps[2..][1..] == steps[3..] && steps[3..][1..] == [];
  }

  lemma FirstHalf()
    ensures var f := Flow([], [Token(0, "a")], [], [], [], []);
      Run(Fresh(4), GAP_RUN[..4]) == Worker(4, f, Idle, Sending(Token(0, "a")), true, false, Stats(0, 0, 0, true))
  {
    FourSteps(Fresh(4), GAP_RUN[..4]);
    var w2 := Next(Next(Fresh(4), StartPut("a")), PutStep);
    assert w2 == Worker(4, Flow([Token(0, "a")], [Token(0, "a")], [], [], [], []), Idle, Top, false, false,
        Stats(0, 0, 0, false));
  }

  lemma SecondHalf(w: Worker)
    requires w.cap == 4 && w.flow == Flow([], [Token(0, "a")], [], [], [], []) && w.producer == Idle
        && w.loop == Sending(Token(0, "a"))
    ensures var u := Run(w, GAP_RUN[4..]);
      u.flow == Flow([Token(1, "b"), Token(0, "a")], [Token(0, "a"), Token(1, "b")], [], [], [], [])
          && u.producer == Idle && u.loop == Top
  {
    FourSteps(w, GAP_RUN[4..]);
    var w3 := Next(Next(Next(w, LoopStep(false)), StartPut("b")), PutStep);
    assert w3.flow == Flow([Token(1, "b")], [Token(0, "a"), Token(1, "b")], [], [], [], [])
        && w3.loop == Requeueing(Token(0, "a"));
  }

  lemma SwappedIsNoPart(u: Worker, a: Token, b: Token)
    requires u.flow.sent == [] && u.flow.queue == [b, a] && u.flow.issued == [a, b] && u.loop == Top
        && u.producer == Idle
    requires a.ticket < b.ticket
    ensures !Subsequence(InFlight(u), Handed(u))
  {
    var x, y := InFlight(u), Handed(u);
    assert x == [b, a] && Increasing(y);
    assert x[0].ticket > x[1].ticket;
    if Subsequence(x, y) { PartIncreasing(x, y); }
  }

  lemma WholeGapRun(u: Worker)
    requires u == Run(Fresh(4), GAP_RUN)
    ensures u == Run(Run(Fresh(4), GAP_RUN[..4]), GAP_RUN[4..])
  {
    RunConcat(Fresh(4), GAP_RUN[..4], GAP_RUN[4..]);
    assert GAP_RUN[..4] + GAP_RUN[4..] == GAP_RUN;
  }

  /** In that run "b" overtakes "a", although the queue was empty when the send
      failed. */
  lemma OvertakenInTheGap(w: Worker, u: Worker)
    requires w == Run(Fresh(4), GAP_RUN[..4]) && u == Run(Fresh(4), GAP_RUN)
    ensures w.loop == Sending(Token(0, "a")) && w.flow.queue == []
    ensures u.flow.queue == [Token(1, "b"), Token(0, "a")] && !Subsequence(InFlight(u), Handed(u))
  {
    FirstHalf();
    SecondHalf(w);
    WholeGapRun(u);
    SwappedIsNoPart(u, Token(0, "a"), Token(1, "b"));
  }

  // ---------------------------------------------------------------- calm runs

  predicate CalmStep(w: Worker, step: Step) {
    step.StartPut? || step.PutStep? || (step.LoopStep? && (w.loop.Sending? ==> step.ok))
  }

  /** No stop and no failed send; connects may fail. */
  predicate Calm(w: Worker, steps: seq<Step>) {
    steps == [] || (Calm(w, steps[..|steps| - 1]) && CalmStep(Run(w, steps[..|steps| - 1]), steps[|steps| - 1]))
  }

  /** q is the end of s. */
  predicate IsSuffix(q: seq<Token>, s: seq<Token>) {
    |q| <= |s| && q == s[|s| - |q|..]
  }

  /** The queue is the end of what was handed over, and nothing was lost. */
  ghost predicate Suffixed(w: Worker) {
    && |w.flow.queue| <= w.cap && !w.stopping && !w.loop.Requeueing? && w.flow.lost == []
    && (w.producer.Second? ==> !Full(w))
    && IsSuffix(w.flow.queue, Handed(w))
  }

  lemma SuffixSnoc(q: seq<Token>, s: seq<Token>, x: Token)
    requires IsSuffix(q, s)
    ensures IsSuffix(q + [x], s + [x])
  {
  }

  lemma SuffixTail(q: seq<Token>, s: seq<Token>)
    requires IsSuffix(q, s) && q != []
    ensures IsSuffix(q[1..], s)
  {
  }

  lemma LandSuffixed(w: Worker, t: Token)
    requires Ordered(w) && Suffixed(w) && !w.producer.Idle? && !Full(w) && t == w.producer.token
    ensures Suffixed(w.(producer := Idle, flow := w.flow.Enqueue(t)))
  {
    assert Handed(w.(producer := Idle, flow := w.flow.Enqueue(t))) == Handed(w) + [t];
    SuffixSnoc(w.flow.queue, Handed(w), t);
  }

  lemma DisplaceSuffixed(w: Worker, t: Token)
    requires Ordered(w) && Suffixed(w) && w.producer == Displacing(t)
    ensures Suffixed(NextPut(w))
  {
    assert Handed(NextPut(w)) == Handed(w);
    if w.flow.queue != [] { SuffixTail(w.flow.queue, Handed(w)); }
  }

  lemma PutSuffixed(w: Worker)
    requires Ordered(w) && Suffixed(w)
    ensures Suffixed(NextPut(w))
  {
    match w.producer {
      case Idle =>
      case First(t) => if Full(w) { assert Handed(NextPut(w)) == Handed(w); } else { LandSuffixed(w, t); }
      case Displacing(t) => DisplaceSuffixed(w, t);
      case Second(t) => LandSuffixed(w, t);
    }
  }

  lemma StartSuffixed(w: Worker, text: string)
    requires Suffixed(w)
    ensures Suffixed(Next(w, StartPut(text)))
  {
    if w.producer.Idle? { assert Handed(Next(w, StartPut(text))) == Handed(w); }
  }

  lemma LoopSuffixed(w: Worker, ok: bool)
    requires Suffixed(w) && (w.loop.Sending? ==> ok)
    ensures Suffixed(NextLoop(w, ok))
  {
    assert Handed(NextLoop(w, ok)) == Handed(w);
    if w.loop.Getting? && w.flow.queue != [] { SuffixTail(w.flow.queue, Handed(w)); }
  }

  lemma {:induction false} CalmRunInOrder(cap: nat, steps: seq<Step>)
    requires cap >= 1 && Calm(Fresh(cap), steps)
    ensures Tame(Fresh(cap), steps) && Ordered(Run(Fresh(cap), steps)) && Suffixed(Run(Fresh(cap), steps))
  {
    if steps != [] {
      var w, step := Run(Fresh(cap), steps[..|steps| - 1]), steps[|steps| - 1];
      CalmRunInOrder(cap, steps[..|steps| - 1]);
      TameStepOrdered(w, step);
      match step {
        case StartPut(text) => StartSuffixed(w, text);
        case PutStep => PutSuffixed(w);
        case LoopStep(ok) => LoopSuffixed(w, ok);
      }
    }
  }

  /** With no failed send and no stop: the queue is a contiguous end of the put
      history, sent + in hand + queue is an in-order part of it, nothing is lost
      to a full queue, and a sorted put history is delivered sorted. */
  lemma CalmDelivery(cap: nat, steps: seq<Step>, key: Token -> int)
    requires cap >= 1 && Calm(Fresh(cap), steps)
    ensures var w := Run(Fresh(cap), steps);
      && IsSuffix(w.flow.queue, Handed(w)) && |w.flow.queue| <= cap
      && Subsequence(InFlight(w), Handed(w)) && w.stats.dropped == 0
      && (SortedBy(Handed(w), key) ==> SortedBy(w.flow.sent, key))
  {
    CalmRunInOrder(cap, steps);
    RunKeepsInv(Fresh(cap), steps);
    TameDelivery(cap, steps, key);
  }
}
