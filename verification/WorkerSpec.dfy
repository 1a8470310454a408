/** One endpoint worker as a state machine: the three queue operations of `put`,
    the steps of the TCP loop and the wake-up of `stop`, each atomic, taken in any
    interleaving. */
module WorkerSpec {

  /** One attempt to put a text on the queue, numbered by its ticket. */
  datatype Token = Token(ticket: nat, text: string)

  /** The queue, and where every issued token that left it went: sent in order,
      displaced as oldest, lost to a full queue, or, for the empty wake-up text,
      thrown away. */
  datatype Flow = Flow(queue: seq<Token>, issued: seq<Token>, sent: seq<Token>, displaced: seq<Token>,
                       lost: seq<Token>, skipped: seq<Token>) {

    function NextToken(text: string): Token { Token(|issued|, text) }
    function Issue(text: string): Flow { this.(issued := issued + [NextToken(text)]) }
    function Enqueue(t: Token): Flow { this.(queue := queue + [t]) }
    function Send(t: Token): Flow { this.(sent := sent + [t]) }
    function Lose(t: Token): Flow { this.(lost := lost + [t]) }
    function Skip(t: Token): Flow { this.(skipped := skipped + [t]) }
    function Displace(t: Token): Flow { this.(displaced := displaced + [t]) }

    function Take(): Flow
      requires queue != []
    {
      this.(queue := queue[1..])
    }
  }

  /** Where the single producer stands inside `put`. */
  datatype Producer = Idle | First(token: Token) | Displacing(token: Token) | Second(token: Token)

  /** Where the worker stands inside its loop. */
  datatype Loop = Top | Getting | Sending(token: Token) | Requeueing(token: Token) | Exited

  datatype Stats = Stats(sent: nat, dropped: nat, errors: nat, connected: bool)

  datatype Worker = Worker(cap: nat, flow: Flow, producer: Producer, loop: Loop,
                           hasSock: bool, stopping: bool, stats: Stats)

  datatype Step = StartPut(text: string) | PutStep | SetStop | WakeStop | LoopStep(ok: bool)

  function Fresh(cap: nat): Worker {
    Worker(cap, Flow([], [], [], [], [], []), Idle, Top, false, false, Stats(0, 0, 0, false))
  }

  predicate Full(w: Worker) {
    |w.flow.queue| >= w.cap
  }

  function Next(w: Worker, step: Step): Worker {
    match step
    case StartPut(text) =>
      if w.producer.Idle? then w.(producer := First(w.flow.NextToken(text)), flow := w.flow.Issue(text)) else w
    case PutStep => NextPut(w)
    case SetStop => w.(stopping := true)
    case WakeStop => if w.stopping then w.(flow := Woken(w)) else w
    case LoopStep(ok) => NextLoop(w, ok)
  }

  /** put_nowait; on Full get_nowait, then put_nowait again. */
  function NextPut(w: Worker): Worker {
    var f := w.flow;
    match w.producer
    case Idle => w
    case First(t) =>
      if Full(w) then w.(producer := Displacing(t)) else w.(producer := Idle, flow := f.Enqueue(t))
    case Displacing(t) =>
      w.(producer := Second(t), flow := if f.queue == [] then f else f.Take().Displace(f.queue[0]))
    case Second(t) =>
      if Full(w) then w.(producer := Idle, flow := f.Lose(t), stats := Dropped(w.stats))
      else w.(producer := Idle, flow := f.Enqueue(t))
  }

  /** `stop` puts an empty text to wake the loop, unless the queue is full. */
  function Woken(w: Worker): Flow {
    var t := w.flow.NextToken("");
    if Full(w) then w.flow.Issue("").Skip(t) else w.flow.Issue("").Enqueue(t)
  }

  function Dropped(s: Stats): Stats {
    s.(dropped := s.dropped + 1)
  }

  function Errored(s: Stats): Stats {
    s.(connected := false, errors := s.errors + 1)
  }

  /** `_close_sock`. */
  function Closed(w: Worker): Worker {
    if w.hasSock then w.(hasSock := false, stats := w.stats.(connected := false)) else w
  }

  /** One atomic step of `_run_tcp`; ok decides a connect or a send. */
  function NextLoop(w: Worker, ok: bool): Worker {
    var f := w.flow;
    match w.loop
    case Exited => w
    case Top =>
      if w.stopping then Closed(w).(loop := Exited)
      else if w.hasSock then w.(loop := Getting)
      else if ok then w.(loop := Getting, hasSock := true, stats := w.stats.(connected := true))
      else w.(stats := Errored(w.stats))
    case Getting =>
      if f.queue == [] then w.(loop := Top)
      else if f.queue[0].text == "" then w.(loop := Top, flow := f.Take().Skip(f.queue[0]))
      else w.(loop := Sending(f.queue[0]), flow := f.Take())
    case Sending(t) =>
      if ok then w.(loop := Top, flow := f.Send(t), stats := w.stats.(sent := w.stats.sent + 1))
      else Closed(w.(stats := Errored(w.stats))).(loop := Requeueing(t))
    case Requeueing(t) =>
      if Full(w) then w.(loop := Top, flow := f.Lose(t), stats := Dropped(w.stats))
      else w.(loop := Top, flow := f.Enqueue(t))
  }

  function Run(w: Worker, steps: seq<Step>): Worker {
    if steps == [] then w else Next(Run(w, steps[..|steps| - 1]), steps[|steps| - 1])
  }

  lemma {:induction false} RunConcat(w: Worker, a: seq<Step>, b: seq<Step>)
    ensures Run(w, a + b) == Run(Run(w, a), b)
  {
    if b == [] {
      assert a + b == a;
    } else {
      RunConcat(w, a, b[..|b| - 1]);
      assert (a + b)[..|a + b| - 1] == a + b[..|b| - 1];
    }
  }

  lemma RunSnoc(w: Worker, a: seq<Step>, step: Step)
    ensures Run(w, a + [step]) == Next(Run(w, a), step)
  {
    assert (a + [step])[..|a|] == a;
  }

  // ------------------------------------------------------------ conservation

  function Count(s: seq<Token>, t: Token): nat {
    multiset(s)[t]
  }

  function One(x: Token, t: Token): nat {
    if x == t then 1 else 0
  }

  function FlowTotal(f: Flow, t: Token): nat {
    Count(f.queue, t) + Count(f.sent, t) + Count(f.displaced, t) + Count(f.lost, t) + Count(f.skipped, t)
  }

  function InPut(w: Worker, t: Token): nat {
    if w.producer.Idle? then 0 else One(w.producer.token, t)
  }

  function InLoop(w: Worker, t: Token): nat {
    if w.loop.Sending? || w.loop.Requeueing? then One(w.loop.token, t) else 0
  }

  /** How often a token occurs over all places. */
  function Total(w: Worker, t: Token): nat {
    FlowTotal(w.flow, t) + InPut(w, t) + InLoop(w, t)
  }

  lemma AppendTotals(f: Flow, x: Token, t: Token)
    ensures FlowTotal(f.Enqueue(x), t) == FlowTotal(f, t) + One(x, t)
    ensures FlowTotal(f.Send(x), t) == FlowTotal(f, t) + One(x, t)
    ensures FlowTotal(f.Lose(x), t) == FlowTotal(f, t) + One(x, t)
    ensures FlowTotal(f.Skip(x), t) == FlowTotal(f, t) + One(x, t)
    ensures FlowTotal(f.Displace(x), t) == FlowTotal(f, t) + One(x, t)
  {
  }

  lemma TakeTotal(f: Flow, t: Token)
    requires f.queue != []
    ensures FlowTotal(f.Take(), t) + One(f.queue[0], t) == FlowTotal(f, t)
  {
    assert f.queue == [f.queue[0]] + f.queue[1..];
  }

  lemma IssueTotal(f: Flow, text: string, t: Token)
    ensures FlowTotal(f.Issue(text), t) == FlowTotal(f, t)
    ensures Count(f.Issue(text).issued, t) == Count(f.issued, t) + One(f.NextToken(text), t)
  {
  }

  lemma DisplaceTotal(f: Flow, t: Token)
    requires f.queue != []
    ensures FlowTotal(f.Take().Displace(f.queue[0]), t) == FlowTotal(f, t)
  {
    TakeTotal(f, t);
    AppendTotals(f.Take(), f.queue[0], t);
  }

  lemma SkipTotal(f: Flow, t: Token)
    requires f.queue != []
    ensures FlowTotal(f.Take().Skip(f.queue[0]), t) == FlowTotal(f, t)
  {
    TakeTotal(f, t);
    AppendTotals(f.Take(), f.queue[0], t);
  }

  /** A token leaves the producer's hand for the queue or the lost ones. */
  lemma LandTotal(f: Flow, x: Token, g: Flow, t: Token)
    requires g == f.Enqueue(x) || g == f.Lose(x) || g == f.Send(x)
    ensures FlowTotal(g, t) == FlowTotal(f, t) + One(x, t) && g.issued == f.issued
  {
    AppendTotals(f, x, t);
  }

  lemma PutKeepsTotal(w: Worker, t: Token)
    ensures Total(NextPut(w), t) == Total(w, t) && NextPut(w).flow.issued == w.flow.issued
  {
    match w.producer {
      case Idle =>
      case First(x) => if !Full(w) { LandTotal(w.flow, x, NextPut(w).flow, t); }
      case Displacing(x) => if w.flow.queue != [] { DisplaceTotal(w.flow, t); }
      case Second(x) => LandTotal(w.flow, x, NextPut(w).flow, t);
    }
  }

  lemma GetKeepsTotal(w: Worker, ok: bool, t: Token)
    requires w.loop.Getting?
    ensures Total(NextLoop(w, ok), t) == Total(w, t) && NextLoop(w, ok).flow.issued == w.flow.issued
  {
    if w.flow.queue != [] {
      if w.flow.queue[0].text == "" { SkipTotal(w.flow, t); } else { TakeTotal(w.flow, t); }
    }
  }

  lemma LandingKeepsTotal(w: Worker, ok: bool, t: Token)
    requires w.loop.Sending? || w.loop.Requeueing?
    ensures Total(NextLoop(w, ok), t) == Total(w, t) && NextLoop(w, ok).flow.issued == w.flow.issued
  {
    if w.loop.Requeueing? || ok { LandTotal(w.flow, w.loop.token, NextLoop(w, ok).flow, t); }
  }

  lemma LoopKeepsTotal(w: Worker, ok: bool, t: Token)
    ensures Total(NextLoop(w, ok), t) == Total(w, t) && NextLoop(w, ok).flow.issued == w.flow.issued
  {
    match w.loop {
      case Exited =>
      case Top =>
      case Getting => GetKeepsTotal(w, ok, t);
      case Sending(x) => LandingKeepsTotal(w, ok, t);
      case Requeueing(x) => LandingKeepsTotal(w, ok, t);
    }
  }

  lemma WakeTotal(w: Worker, t: Token)
    ensures FlowTotal(Woken(w), t) + Count(w.flow.issued, t) == FlowTotal(w.flow, t) + Count(Woken(w).issued, t)
  {
    IssueTotal(w.flow, "", t);
    AppendTotals(w.flow.Issue(""), w.flow.NextToken(""), t);
  }

  lemma NextTotal(w: Worker, step: Step, t: Token)
    ensures Total(Next(w, step), t) + Count(w.flow.issued, t) == Total(w, t) + Count(Next(w, step).flow.issued, t)
  {
    match step {
      case PutStep => PutKeepsTotal(w, t);
      case LoopStep(ok) => LoopKeepsTotal(w, ok, t);
      case StartPut(text) => IssueTotal(w.flow, text, t);
      case SetStop =>
      case WakeStop => WakeTotal(w, t);
    }
  }

  /** No step makes or destroys a token. */
  lemma {:induction false} RunConserves(cap: nat, steps: seq<Step>, t: Token)
    ensures Total(Run(Fresh(cap), steps), t) == Count(Run(Fresh(cap), steps).flow.issued, t)
  {
    if steps != [] {
      RunConserves(cap, steps[..|steps| - 1], t);
      NextTotal(Run(Fresh(cap), steps[..|steps| - 1]), steps[|steps| - 1], t);
    }
  }

  // --------------------------------------------------- what every step keeps

  ghost predicate Numbered(s: seq<Token>) {
    forall i :: 0 <= i < |s| ==> s[i].ticket == i
  }

  ghost predicate AllBlank(s: seq<Token>) {
    forall i :: 0 <= i < |s| ==> s[i].text == ""
  }

  ghost predicate NoneBlank(s: seq<Token>) {
    forall i :: 0 <= i < |s| ==> s[i].text != ""
  }

  ghost predicate Inv(w: Worker) {
    && w.cap >= 1 && |w.flow.queue| <= w.cap
    && Numbered(w.flow.issued)
    && w.stats.sent == |w.flow.sent| && w.stats.dropped == |w.flow.lost|
    && AllBlank(w.flow.skipped) && NoneBlank(w.flow.sent)
    && (w.loop.Sending? || w.loop.Requeueing? ==> w.loop.token.text != "")
  }

  lemma PutKeepsInv(w: Worker)
    requires Inv(w)
    ensures Inv(NextPut(w)) && NextPut(w).cap == w.cap
  {
  }

  lemma LoopKeepsInv(w: Worker, ok: bool)
    requires Inv(w)
    ensures Inv(NextLoop(w, ok)) && NextLoop(w, ok).cap == w.cap
  {
  }

  lemma NextKeepsInv(w: Worker, step: Step)
    requires Inv(w)
    ensures Inv(Next(w, step)) && Next(w, step).cap == w.cap
  {
    match step {
      case PutStep => PutKeepsInv(w);
      case LoopStep(ok) => LoopKeepsInv(w, ok);
      case _ =>
    }
  }

  lemma {:induction false} RunKeepsInv(w: Worker, steps: seq<Step>)
    requires Inv(w)
    ensures Inv(Run(w, steps)) && Run(w, steps).cap == w.cap
  {
    if steps != [] {
      RunKeepsInv(w, steps[..|steps| - 1]);
      NextKeepsInv(Run(w, steps[..|steps| - 1]), steps[|steps| - 1]);
    }
  }

  lemma CountAbsent(s: seq<Token>, t: Token)
    requires forall i :: 0 <= i < |s| ==> s[i] != t
    ensures Count(s, t) == 0
  {
    assert t !in s;
  }

  lemma NumberedOnce(s: seq<Token>, i: nat)
    requires Numbered(s) && i < |s|
    ensures Count(s, s[i]) == 1
  {
    var a, b := s[..i], s[i + 1..];
    assert s == a + [s[i]] + b;
    CountAbsent(a, s[i]);
    CountAbsent(b, s[i]);
  }

  /** Under every interleaving, each sentence handed to `put` is in exactly one
      place, once: on the queue, in the producer's or the worker's hand, sent,
      displaced, or counted in `dropped`; and the queue never overflows. */
  lemma ExactlyOnePlace(cap: nat, steps: seq<Step>, i: nat)
    requires cap >= 1
    requires i < |Run(Fresh(cap), steps).flow.issued| && Run(Fresh(cap), steps).flow.issued[i].text != ""
    ensures var w := Run(Fresh(cap), steps); var f := w.flow; var t := f.issued[i];
      && Count(f.queue, t) + InPut(w, t) + InLoop(w, t) + Count(f.sent, t) + Count(f.displaced, t)
         + Count(f.lost, t) == 1
      && |f.queue| <= cap && w.stats.sent == |f.sent| && w.stats.dropped == |f.lost|
  {
    var w := Run(Fresh(cap), steps);
    var t := w.flow.issued[i];
    RunKeepsInv(Fresh(cap), steps);
    RunConserves(cap, steps, t);
    NumberedOnce(w.flow.issued, i);
    CountAbsent(w.flow.skipped, t);
  }
}
