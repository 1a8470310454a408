/** Many node sessions feeding one pipeline: from the bytes each node sends to the
    verdicts of the detector. */
module Intake {
  import opened LineSpec
  import opened HandlerSpec
  import opened Framing
  import P = PipelineSpec
  import R = PipelineRuns
  import D = DedupSpec
  import Wire

  /** The pipeline and its steps, how many lines each session has handled, and the
      session each verdict came from. */
  datatype World = World(pipe: P.State, done: seq<P.Step>, taken: map<string, nat>, from: seq<string>)

  /** A session handles its next line (v and cache are the answer of the detector if
      the line delivers a sentence, under the key its handler holds); or the pipeline
      takes another step. A session that ends early takes no more lines. */
  datatype Move = TakeLine(peer: string, key: string, v: D.Verdict, cache: map<D.Key, D.Entry>) | Pipe(step: P.Step)

  /** What each session's stream amounts to, line by line. */
  type Streams = map<string, seq<Outcome>>

  ghost predicate Started(w: World, streams: Streams) {
    forall p :: p in streams ==> p in w.taken && w.taken[p] <= |streams[p]|
  }

  function CheckOf(m: Move, o: Outcome): P.Step
    requires m.TakeLine? && o.Line?
  {
    P.Check(m.v, o.sentence, m.key, m.cache)
  }

  ghost predicate Enabled(w: World, m: Move, streams: Streams, cfg: P.Config)
    requires cfg.Valid()
  {
    match m
    case TakeLine(p, _, _, _) =>
      && p in streams && p in w.taken && w.taken[p] < |streams[p]|
      && var o := streams[p][w.taken[p]];
      Delivered(o) != [] ==> P.Enabled(w.pipe, CheckOf(m, o), cfg)
    case Pipe(step) => !step.Check? && P.Enabled(w.pipe, step, cfg)
  }

  ghost function After(w: World, m: Move, streams: Streams, cfg: P.Config): World
    requires cfg.Valid()
  {
    if !Enabled(w, m, streams, cfg) then w else
      match m
      case Pipe(step) => w.(pipe := P.Effect(w.pipe, step, cfg), done := w.done + [step])
      case TakeLine(p, _, _, _) =>
        var o, next := streams[p][w.taken[p]], w.(taken := w.taken[p := w.taken[p] + 1]);
        if Delivered(o) == [] then next else
          next.(pipe := P.Effect(w.pipe, CheckOf(m, o), cfg), done := w.done + [CheckOf(m, o)], from := w.from + [p])
  }

  ghost function RunAll(ms: seq<Move>, streams: Streams, cfg: P.Config): World
    requires cfg.Valid()
  {
    if ms == [] then World(P.RunAll([], cfg), [], map p | p in streams :: 0, [])
    else After(RunAll(ms[..|ms| - 1], streams, cfg), ms[|ms| - 1], streams, cfg)
  }

  // --------------------------------------------------- what each session fed in

  /** The sentences of the first n verdicts that came from the session. */
  function Fed(loads: seq<P.Load>, from: seq<string>, p: string, n: nat): seq<string>
    requires n <= |loads| && n <= |from|
  {
    if n == 0 then [] else Fed(loads, from, p, n - 1) + (if from[n - 1] == p then [loads[n - 1].sentence] else [])
  }

  lemma {:induction false} FedExtends(loads: seq<P.Load>, from: seq<string>, load: P.Load, q: string, p: string, n: nat)
    requires n <= |loads| && n <= |from|
    ensures Fed(loads + [load], from + [q], p, n) == Fed(loads, from, p, n)
  {
    if n > 0 { FedExtends(loads, from, load, q, p, n - 1); }
  }

  ghost predicate FedAt(w: World, streams: Streams, p: string)
    requires p in streams && p in w.taken && w.taken[p] <= |streams[p]| && |w.from| == |w.pipe.loads|
  {
    Fed(w.pipe.loads, w.from, p, |w.from|) == Sentences(streams[p][..w.taken[p]])
  }

  ghost predicate Consistent(w: World, streams: Streams, cfg: P.Config)
    requires cfg.Valid()
  {
    && Started(w, streams) && w.pipe == P.RunAll(w.done, cfg) && |w.from| == |w.pipe.loads|
    && forall p {:trigger FedAt(w, streams, p)} :: p in streams ==> FedAt(w, streams, p)
  }

  lemma NextSentence(os: seq<Outcome>, n: nat)
    requires n < |os|
    ensures Sentences(os[..n + 1]) == Sentences(os[..n]) + Delivered(os[n])
  {
    assert os[..n + 1] == os[..n] + [os[n]];
    SummariesConcat(os[..n], [os[n]]);
    assert Sentences([os[n]]) == Delivered(os[n]) by { assert [os[n]][1..] == []; }
  }

  lemma DoneSnoc(done: seq<P.Step>, step: P.Step, cfg: P.Config)
    requires cfg.Valid() && P.Enabled(P.RunAll(done, cfg), step, cfg)
    ensures P.RunAll(done + [step], cfg) == P.Effect(P.RunAll(done, cfg), step, cfg)
  {
    assert (done + [step])[..|done|] == done;
  }

  lemma PipeConsistent(w: World, step: P.Step, streams: Streams, cfg: P.Config)
    requires cfg.Valid() && Consistent(w, streams, cfg) && !step.Check? && P.Enabled(w.pipe, step, cfg)
    ensures Consistent(After(w, Pipe(step), streams, cfg), streams, cfg)
  {
    var v := After(w, Pipe(step), streams, cfg);
    DoneSnoc(w.done, step, cfg);
    assert v.pipe.loads == w.pipe.loads;
    forall p | p in streams ensures FedAt(v, streams, p) {
      assert FedAt(w, streams, p);
    }
  }

  /** A line that delivers nothing. */
  lemma SkipConsistent(w: World, m: Move, streams: Streams, cfg: P.Config)
    requires cfg.Valid() && Consistent(w, streams, cfg) && m.TakeLine? && Enabled(w, m, streams, cfg)
    requires Delivered(streams[m.peer][w.taken[m.peer]]) == []
    ensures Consistent(After(w, m, streams, cfg), streams, cfg)
  {
    var v := After(w, m, streams, cfg);
    NextSentence(streams[m.peer], w.taken[m.peer]);
    forall p | p in streams ensures FedAt(v, streams, p) {
      assert FedAt(w, streams, p);
    }
  }

  lemma OneMoreFed(w: World, v: World, streams: Streams, q: string, load: P.Load, p: string)
    requires q in streams && q in w.taken && w.taken[q] < |streams[q]| && |w.from| == |w.pipe.loads|
    requires p in streams && p in w.taken && w.taken[p] <= |streams[p]| && FedAt(w, streams, p)
    requires Delivered(streams[q][w.taken[q]]) == [load.sentence]
    requires v.pipe.loads == w.pipe.loads + [load] && v.from == w.from + [q] && v.taken == w.taken[q := w.taken[q] + 1]
    ensures FedAt(v, streams, p)
  {
    FedExtends(w.pipe.loads, w.from, load, q, p, |w.from|);
    if p == q { NextSentence(streams[q], w.taken[q]); }
  }

  lemma CheckConsistent(w: World, m: Move, streams: Streams, cfg: P.Config)
    requires cfg.Valid() && Consistent(w, streams, cfg) && m.TakeLine? && Enabled(w, m, streams, cfg)
    requires Delivered(streams[m.peer][w.taken[m.peer]]) != []
    ensures Consistent(After(w, m, streams, cfg), streams, cfg)
  {
    var v := After(w, m, streams, cfg);
    var o := streams[m.peer][w.taken[m.peer]];
    var load := P.Load(|w.pipe.history|, o.sentence, m.key, m.v.arrival);
    DoneSnoc(w.done, CheckOf(m, o), cfg);
    assert v.pipe.loads == w.pipe.loads + [load];
    forall p | p in streams ensures FedAt(v, streams, p) {
      assert FedAt(w, streams, p);
      OneMoreFed(w, v, streams, m.peer, load, p);
    }
  }

  lemma StartConsistent(streams: Streams, cfg: P.Config)
    requires cfg.Valid()
    ensures Consistent(RunAll([], streams, cfg), streams, cfg)
  {
    var w := RunAll([], streams, cfg);
    forall p | p in streams ensures FedAt(w, streams, p) {
      assert streams[p][..0] == [];
    }
  }

  /** In every interleaving of sessions and pipeline threads, the verdicts of each
      session are those of exactly the accepted sentences of the lines it has
      handled, in order. */
  lemma {:induction false} EachLineCheckedOnce(ms: seq<Move>, streams: Streams, cfg: P.Config)
    requires cfg.Valid()
    ensures Consistent(RunAll(ms, streams, cfg), streams, cfg)
  {
    if ms == [] {
      StartConsistent(streams, cfg);
    } else {
      var w, m := RunAll(ms[..|ms| - 1], streams, cfg), ms[|ms| - 1];
      EachLineCheckedOnce(ms[..|ms| - 1], streams, cfg);
      if Enabled(w, m, streams, cfg) {
        match m {
          case Pipe(step) => PipeConsistent(w, step, streams, cfg);
          case TakeLine(p, _, _, _) =>
            if Delivered(streams[p][w.taken[p]]) == [] {
              SkipConsistent(w, m, streams, cfg);
            } else {
              CheckConsistent(w, m, streams, cfg);
            }
        }
      }
    }
  }

  /** From bytes to places: a node sends well-formed CRLF lines, in any chunks, next to
      any other sessions. When its lines are handled, each sentence sent has one
      verdict, in the order sent; and every verdict that says new is in exactly one
      place of the pipeline, every duplicate in none. */
  lemma WireToPipeline(ms: seq<Move>, streams: Streams, cfg: P.Config, p: string, items: seq<Wire.Item>,
      chunks: seq<Chunk>, i: nat)
    requires cfg.Valid() && p in streams && (forall x :: x in items ==> Wire.Sendable(x))
    requires Received(Datas(chunks)) == Wire.Render(items) && streams[p] == StreamOutcomes([], chunks)
    requires p in RunAll(ms, streams, cfg).taken && RunAll(ms, streams, cfg).taken[p] == |streams[p]|
    ensures var w := RunAll(ms, streams, cfg);
      && |w.from| == |w.pipe.loads| == |w.pipe.history|
      && Fed(w.pipe.loads, w.from, p, |w.from|) == Wire.SentencesOf(items)
      && w.pipe.dispatched <= |P.Buffered(w.pipe, cfg).log|
      && R.Places(w.pipe, cfg, i) == R.Here(P.NewAt(w.pipe.history, i))
  {
    var w := RunAll(ms, streams, cfg);
    EachLineCheckedOnce(ms, streams, cfg);
    Wire.RenderedStream(items, chunks);
    assert FedAt(w, streams, p);
    assert streams[p][..|streams[p]|] == streams[p];
    R.RunKeepsInv(w.done, cfg);
    R.ExactlyOnePlace(w.done, cfg, i);
  }
}
