/** Whole runs of the jitter buffer: every interleaving of locked pushes (whose
    sequence numbers were drawn earlier, in any order) and pop_ready calls. */
module ReorderRuns {
  import opened ReorderSpec

  datatype Event<+T> = Enter(item: Item<T>) | Drain(cutoff: int)

  /** One released item and the index of the pop_ready event that released it. */
  datatype Release<+T> = Release(item: Item<T>, at: nat)

  datatype Trace<T(==)> = Trace(buf: Buffer<T>, log: seq<Release<T>>, lost: set<Item<T>>)

  /** Every ticket of the shared counter is used by at most one push. */
  ghost predicate UniqueTickets<T>(es: seq<Event<T>>) {
    forall i, j {:trigger SharedTicket(es, i, j)} :: 0 <= i < j < |es| ==> !SharedTicket(es, i, j)
  }

  ghost predicate SharedTicket<T>(es: seq<Event<T>>, i: nat, j: nat)
    requires i < |es| && j < |es|
  {
    es[i].Enter? && es[j].Enter? && es[i].item.seqNo == es[j].item.seqNo
  }

  lemma TicketsPrefix<T>(es: seq<Event<T>>)
    requires UniqueTickets(es) && es != []
    ensures UniqueTickets(es[..|es| - 1])
  {
    var shorter := es[..|es| - 1];
    forall i: nat, j: nat | i < j < |shorter| ensures !SharedTicket(shorter, i, j) {
      assert !SharedTicket(es, i, j);
    }
  }

  lemma TicketsAppend<T>(es: seq<Event<T>>, e: Event<T>)
    requires UniqueTickets(es)
    requires e.Enter? ==> forall i :: 0 <= i < |es| && es[i].Enter? ==> es[i].item.seqNo != e.item.seqNo
    ensures UniqueTickets(es + [e])
  {
    forall i: nat, j: nat | i < j < |es + [e]| ensures !SharedTicket(es + [e], i, j) {
      if j < |es| { assert !SharedTicket(es, i, j); }
    }
  }

  ghost function PushedItems<T>(es: seq<Event<T>>): set<Item<T>> {
    set i | 0 <= i < |es| && es[i].Enter? :: es[i].item
  }

  lemma PushedItemsStep<T>(es: seq<Event<T>>)
    requires es != []
    ensures PushedItems(es) == PushedItems(es[..|es| - 1]) + (if es[|es| - 1].Enter? then {es[|es| - 1].item} else {})
  {
    var n := |es| - 1;
    forall x | x in PushedItems(es[..n]) ensures x in PushedItems(es) {
      var i :| 0 <= i < n && es[..n][i].Enter? && es[..n][i].item == x;
      assert es[i].Enter?;
    }
    forall x | x in PushedItems(es) ensures x in PushedItems(es[..n]) || (es[n].Enter? && x == es[n].item) {
      var i :| 0 <= i < |es| && es[i].Enter? && es[i].item == x;
      if i < n { assert es[..n][i].Enter?; }
    }
    if es[n].Enter? { assert es[n].item in PushedItems(es); }
  }

  lemma PushedItemsUnique<T>(es: seq<Event<T>>)
    requires UniqueTickets(es)
    ensures UniqueSeqs(PushedItems(es))
  {
    forall a, b | a in PushedItems(es) && b in PushedItems(es) ensures !Clash(a, b) {
      var i: nat :| i < |es| && es[i].Enter? && es[i].item == a;
      var j: nat :| j < |es| && es[j].Enter? && es[j].item == b;
      assert (i < j ==> !SharedTicket(es, i, j)) && (j < i ==> !SharedTicket(es, j, i));
    }
  }

  /** The last push uses a ticket no earlier push used. */
  lemma LastIsFresh<T>(es: seq<Event<T>>)
    requires UniqueTickets(es) && es != [] && es[|es| - 1].Enter?
    ensures es[|es| - 1].item !in PushedItems(es[..|es| - 1])
    ensures forall x :: x in PushedItems(es[..|es| - 1]) ==> x.seqNo != es[|es| - 1].item.seqNo
  {
    var n: nat := |es| - 1;
    forall x | x in PushedItems(es[..n]) ensures x.seqNo != es[n].item.seqNo {
      var i: nat :| i < n && es[..n][i].Enter? && es[..n][i].item == x;
      assert !SharedTicket(es, i, n);
    }
  }

  ghost function Stamped<T>(s: seq<Item<T>>, at: nat): (r: seq<Release<T>>)
    ensures |r| == |s| && forall i :: 0 <= i < |s| ==> r[i] == Release(s[i], at)
  {
    seq(|s|, i requires 0 <= i < |s| => Release(s[i], at))
  }

  /** One locked step, the at-th of the run. */
  ghost function AfterPush<T>(t: Trace<T>, x: Item<T>, cap: nat): Trace<T>
    requires cap >= 1
  {
    Trace(Inserted(t.buf, x, cap), t.log,
          if |t.buf.items| >= cap then t.lost + {Least(t.buf.items)} else t.lost)
  }

  ghost function AfterPop<T>(t: Trace<T>, cutoff: int, at: nat): Trace<T> {
    Trace(Popped(t.buf, cutoff), t.log + Stamped(Sort(Ready(t.buf.items, cutoff)), at), t.lost)
  }

  ghost function AfterEvent<T>(t: Trace<T>, e: Event<T>, at: nat, cap: nat): Trace<T>
    requires cap >= 1
  {
    match e
    case Enter(x) => AfterPush(t, x, cap)
    case Drain(c) => AfterPop(t, c, at)
  }

  /** The state after a run from the empty buffer of capacity cap. */
  ghost function Run<T>(es: seq<Event<T>>, cap: nat): Trace<T>
    requires cap >= 1
  {
    if es == [] then Trace(Buffer({}, 0, 0, 0), [], {}) else
      AfterEvent(Run(es[..|es| - 1], cap), es[|es| - 1], |es| - 1, cap)
  }

  lemma {:induction false} RunItems<T>(es: seq<Event<T>>, cap: nat)
    requires cap >= 1 && UniqueTickets(es)
    ensures Run(es, cap).buf.items <= PushedItems(es)
    ensures UniqueSeqs(Run(es, cap).buf.items)
  {
    PushedItemsUnique(es);
    if es != [] {
      TicketsPrefix(es);
      RunItems(es[..|es| - 1], cap);
      PushedItemsStep(es);
    }
  }

  ghost function Released<T>(log: seq<Release<T>>): seq<Item<T>> {
    seq(|log|, i requires 0 <= i < |log| => log[i].item)
  }

  ghost function ReleasedSet<T>(log: seq<Release<T>>): set<Item<T>> {
    set i | 0 <= i < |log| :: log[i].item
  }

  // ---------------------------------------------------------------- accounting

  ghost predicate ThreeParts<A>(whole: set<A>, a: set<A>, b: set<A>, c: set<A>) {
    && (forall x :: x in whole ==> x in a || x in b || x in c)
    && (forall x :: x in a ==> x in whole && x !in b && x !in c)
    && (forall x :: x in b ==> x in whole && x !in c)
    && (forall x :: x in c ==> x in whole)
  }

  /** Each pushed item is in exactly one of: the buffer, the output, the
      discarded ones; and no item is released twice. */
  ghost predicate Partitioned<T>(pushed: set<Item<T>>, t: Trace<T>) {
    && ThreeParts(pushed, t.buf.items, ReleasedSet(t.log), t.lost)
    && NoRepeats(t.log)
  }

  /** The counters count those places, and the buffer stays within capacity. */
  ghost predicate Counted<T>(t: Trace<T>, cap: nat) {
    && t.buf.popped == |t.log|
    && t.buf.dropped == |t.lost|
    && t.buf.pushed == t.buf.popped + t.buf.dropped + |t.buf.items|
    && |t.buf.items| <= cap
  }

  ghost predicate NoRepeats<T>(log: seq<Release<T>>) {
    forall i, j :: 0 <= i < j < |log| ==> log[i].item != log[j].item
  }

  lemma ReleasedSetAppend<T>(log: seq<Release<T>>, out: seq<Item<T>>, items: set<Item<T>>, at: nat)
    requires Lists(out, items)
    ensures ReleasedSet(log + Stamped(out, at)) == ReleasedSet(log) + items
    ensures NoRepeats(log) && ReleasedSet(log) !! items ==> NoRepeats(log + Stamped(out, at))
  {
    var more := log + Stamped(out, at);
    forall x | x in items ensures x in ReleasedSet(more) {
      var i :| 0 <= i < |out| && out[i] == x;
      assert more[|log| + i].item == x;
    }
    forall x | x in ReleasedSet(log) ensures x in ReleasedSet(more) {
      var i :| 0 <= i < |log| && log[i].item == x;
      assert more[i].item == x;
    }
    forall i | 0 <= i < |more|
      ensures if i < |log| then more[i].item in ReleasedSet(log) else more[i].item in items
    {
      if i >= |log| { assert more[i].item == out[i - |log|] && out[i - |log|] in out; }
    }
    if NoRepeats(log) && ReleasedSet(log) !! items {
      forall i, j | 0 <= i < j < |more| ensures more[i].item != more[j].item {
        if |log| <= i { assert Before(out[i - |log|], out[j - |log|]); }
      }
    }
  }

  lemma SplitSize<A>(s: set<A>, part: set<A>)
    requires part <= s
    ensures |s - part| == |s| - |part|
  {
    assert s == (s - part) + part;
  }

  lemma AddSize<A>(s: set<A>, x: A)
    requires x !in s
    ensures |s + {x}| == |s| + 1
  {
  }

  lemma PushPartitioned<T>(pushed: set<Item<T>>, t: Trace<T>, x: Item<T>, cap: nat)
    requires cap >= 1 && UniqueSeqs(t.buf.items) && Partitioned(pushed, t) && x !in pushed
    ensures Partitioned(pushed + {x}, AfterPush(t, x, cap))
  {
  }

  lemma PushCounted<T>(t: Trace<T>, x: Item<T>, cap: nat)
    requires cap >= 1 && UniqueSeqs(t.buf.items) && Counted(t, cap)
    requires x !in t.buf.items && forall y :: y in t.buf.items ==> y !in t.lost
    ensures Counted(AfterPush(t, x, cap), cap)
  {
    if |t.buf.items| >= cap {
      var least := Least(t.buf.items);
      SplitSize(t.buf.items, {least});
      AddSize(t.buf.items - {least}, x);
      AddSize(t.lost, least);
    } else {
      AddSize(t.buf.items, x);
    }
  }

  lemma PopPartitioned<T>(pushed: set<Item<T>>, t: Trace<T>, c: int, at: nat)
    requires UniqueSeqs(t.buf.items) && Partitioned(pushed, t)
    ensures Partitioned(pushed, AfterPop(t, c, at))
  {
    var ready := Ready(t.buf.items, c);
    SortLists(ready);
    ReleasedSetAppend(t.log, Sort(ready), ready, at);
  }

  lemma PopCounted<T>(t: Trace<T>, c: int, at: nat, cap: nat)
    requires UniqueSeqs(t.buf.items) && Counted(t, cap)
    ensures Counted(AfterPop(t, c, at), cap)
  {
    SplitSize(t.buf.items, Ready(t.buf.items, c));
  }

  ghost function PushCount<T>(es: seq<Event<T>>): nat {
    if es == [] then 0 else PushCount(es[..|es| - 1]) + (if es[|es| - 1].Enter? then 1 else 0)
  }

  lemma {:induction false} Conservation<T>(es: seq<Event<T>>, cap: nat)
    requires cap >= 1 && UniqueTickets(es)
    ensures Partitioned(PushedItems(es), Run(es, cap))
    ensures Counted(Run(es, cap), cap)
    ensures Run(es, cap).buf.pushed == PushCount(es)
  {
    if es != [] {
      var n := |es| - 1;
      TicketsPrefix(es);
      Conservation(es[..n], cap);
      RunItems(es[..n], cap);
      PushedItemsStep(es);
      match es[n] {
        case Enter(x) =>
          LastIsFresh(es);
          PushPartitioned(PushedItems(es[..n]), Run(es[..n], cap), x, cap);
          PushCounted(Run(es[..n], cap), x, cap);
        case Drain(c) =>
          PopPartitioned(PushedItems(es[..n]), Run(es[..n], cap), c, n);
          PopCounted(Run(es[..n], cap), c, n, cap);
      }
    }
  }

  // ------------------------------------------------------------- release order

  ghost predicate PushedBetween<T>(es: seq<Event<T>>, x: Item<T>, lo: int, hi: int) {
    exists p :: lo < p < hi && 0 <= p < |es| && es[p] == Enter(x)
  }

  /** Every release happened at a pop_ready whose cutoff covers the item, which
      was pushed before. */
  ghost predicate Sourced<T>(es: seq<Event<T>>, log: seq<Release<T>>) {
    forall i :: 0 <= i < |log| ==>
      && log[i].at < |es| && es[log[i].at].Drain?
      && log[i].item.ts <= es[log[i].at].cutoff
      && PushedBetween(es, log[i].item, -1, log[i].at)
  }

  /** An item still buffered behind a greater released one was pushed after
      that release. */
  ghost predicate BufferLate<T>(es: seq<Event<T>>, t: Trace<T>) {
    forall i, b :: 0 <= i < |t.log| && b in t.buf.items && Before(b, t.log[i].item) ==>
      PushedBetween(es, b, t.log[i].at, |es|)
  }

  /** An item released after a greater one was pushed after that release. */
  ghost predicate LogLate<T>(es: seq<Event<T>>, log: seq<Release<T>>) {
    forall i, j :: 0 <= i < j < |log| && Before(log[j].item, log[i].item) ==>
      PushedBetween(es, log[j].item, log[i].at, log[j].at)
  }

  lemma PushedBetweenExtends<T>(es: seq<Event<T>>, x: Item<T>, lo: int, hi: int)
    requires es != [] && PushedBetween(es[..|es| - 1], x, lo, hi)
    ensures PushedBetween(es, x, lo, hi)
  {
    var p :| lo < p < hi && 0 <= p < |es| - 1 && es[..|es| - 1][p] == Enter(x);
    assert es[p] == Enter(x);
  }

  lemma BufferedWasPushed<T>(es: seq<Event<T>>, cap: nat, x: Item<T>)
    requires cap >= 1 && UniqueTickets(es) && x in Run(es, cap).buf.items
    ensures PushedBetween(es, x, -1, |es|)
  {
    RunItems(es, cap);
    assert x in PushedItems(es);
    var p :| 0 <= p < |es| && es[p].Enter? && es[p].item == x;
    assert es[p] == Enter(x);
  }

  lemma PopLog<T>(t: Trace<T>, c: int, at: nat)
    requires UniqueSeqs(t.buf.items)
    ensures var u := AfterPop(t, c, at);
      && |u.log| >= |t.log| && u.log[..|t.log|] == t.log
      && (forall i :: |t.log| <= i < |u.log| ==>
            u.log[i].at == at && u.log[i].item in t.buf.items && u.log[i].item.ts <= c)
      && (forall i, j :: |t.log| <= i < j < |u.log| ==> Before(u.log[i].item, u.log[j].item))
  {
    var out := Sort(Ready(t.buf.items, c));
    SortLists(Ready(t.buf.items, c));
    forall i | 0 <= i < |out| ensures out[i] in t.buf.items && out[i].ts <= c {
      assert out[i] in out;
    }
  }

  lemma PopSourced<T>(es: seq<Event<T>>, t: Trace<T>, c: int)
    requires UniqueSeqs(t.buf.items) && es != [] && es[|es| - 1] == Drain(c)
    requires Sourced(es[..|es| - 1], t.log)
    requires forall x :: x in t.buf.items ==> PushedBetween(es[..|es| - 1], x, -1, |es| - 1)
    ensures Sourced(es, AfterPop(t, c, |es| - 1).log)
  {
    var n := |es| - 1;
    PopLog(t, c, n);
    var log := AfterPop(t, c, n).log;
    forall i | 0 <= i < |log|
      ensures log[i].at < |es| && es[log[i].at].Drain?
      ensures log[i].item.ts <= es[log[i].at].cutoff && PushedBetween(es, log[i].item, -1, log[i].at)
    {
      assert i < |t.log| ==> log[i] == t.log[i];
      PushedBetweenExtends(es, log[i].item, -1, log[i].at);
    }
  }

  lemma {:induction false} ReleasesSourced<T>(es: seq<Event<T>>, cap: nat)
    requires cap >= 1 && UniqueTickets(es)
    ensures Sourced(es, Run(es, cap).log)
  {
    if es != [] {
      var n := |es| - 1;
      TicketsPrefix(es);
      ReleasesSourced(es[..n], cap);
      RunItems(es[..n], cap);
      match es[n] {
        case Enter(x) => SourcedExtends(es, Run(es[..n], cap).log);
        case Drain(c) =>
          forall x | x in Run(es[..n], cap).buf.items ensures PushedBetween(es[..n], x, -1, n) {
            BufferedWasPushed(es[..n], cap, x);
          }
          PopSourced(es, Run(es[..n], cap), c);
      }
    }
  }

  lemma SourcedExtends<T>(es: seq<Event<T>>, log: seq<Release<T>>)
    requires es != [] && Sourced(es[..|es| - 1], log)
    ensures Sourced(es, log)
  {
    forall i | 0 <= i < |log| ensures PushedBetween(es, log[i].item, -1, log[i].at) {
      PushedBetweenExtends(es, log[i].item, -1, log[i].at);
    }
  }

  lemma PushKeepsLate<T>(es: seq<Event<T>>, t: Trace<T>, x: Item<T>, cap: nat)
    requires cap >= 1 && UniqueSeqs(t.buf.items) && es != [] && es[|es| - 1] == Enter(x)
    requires Sourced(es[..|es| - 1], t.log)
    requires BufferLate(es[..|es| - 1], t) && LogLate(es[..|es| - 1], t.log)
    ensures BufferLate(es, AfterPush(t, x, cap)) && LogLate(es, t.log)
  {
    var n := |es| - 1;
    forall i, b | 0 <= i < |t.log| && b in AfterPush(t, x, cap).buf.items && Before(b, t.log[i].item)
      ensures PushedBetween(es, b, t.log[i].at, |es|)
    {
      if b == x {
        assert es[n] == Enter(b);
      } else {
        PushedBetweenExtends(es, b, t.log[i].at, n);
      }
    }
    LogLateExtends(es, t.log);
  }

  lemma LogLateExtends<T>(es: seq<Event<T>>, log: seq<Release<T>>)
    requires es != [] && LogLate(es[..|es| - 1], log)
    ensures LogLate(es, log)
  {
    forall i, j | 0 <= i < j < |log| && Before(log[j].item, log[i].item)
      ensures PushedBetween(es, log[j].item, log[i].at, log[j].at)
    {
      PushedBetweenExtends(es, log[j].item, log[i].at, log[j].at);
    }
  }

  lemma PopKeepsBufferLate<T>(es: seq<Event<T>>, t: Trace<T>, c: int)
    requires UniqueSeqs(t.buf.items) && es != [] && es[|es| - 1] == Drain(c)
    requires BufferLate(es[..|es| - 1], t)
    ensures BufferLate(es, AfterPop(t, c, |es| - 1))
  {
    var n := |es| - 1;
    PopLog(t, c, n);
    var u := AfterPop(t, c, n);
    forall i, b | 0 <= i < |u.log| && b in u.buf.items && Before(b, u.log[i].item)
      ensures PushedBetween(es, b, u.log[i].at, |es|)
    {
      assert b.ts > c && b in t.buf.items;
      assert u.log[i] == t.log[i];
      PushedBetweenExtends(es, b, t.log[i].at, n);
    }
  }

  lemma PopKeepsLogLate<T>(es: seq<Event<T>>, t: Trace<T>, c: int)
    requires UniqueSeqs(t.buf.items) && es != [] && es[|es| - 1] == Drain(c)
    requires BufferLate(es[..|es| - 1], t) && LogLate(es[..|es| - 1], t.log)
    ensures LogLate(es, AfterPop(t, c, |es| - 1).log)
  {
    var n := |es| - 1;
    PopLog(t, c, n);
    var u := AfterPop(t, c, n);
    LogLateExtends(es, t.log);
    forall i, j | 0 <= i < j < |u.log| && Before(u.log[j].item, u.log[i].item)
      ensures PushedBetween(es, u.log[j].item, u.log[i].at, u.log[j].at)
    {
      assert i < |t.log| && u.log[i] == t.log[i];
      if j < |t.log| {
        assert u.log[j] == t.log[j];
      } else {
        PushedBetweenExtends(es, u.log[j].item, u.log[i].at, n);
      }
    }
  }

  /** The run invariant behind every ordering claim. */
  lemma {:induction false} LateOnlyIfPushedLate<T>(es: seq<Event<T>>, cap: nat)
    requires cap >= 1 && UniqueTickets(es)
    ensures BufferLate(es, Run(es, cap)) && LogLate(es, Run(es, cap).log)
  {
    if es != [] {
      var n := |es| - 1;
      TicketsPrefix(es);
      LateOnlyIfPushedLate(es[..n], cap);
      ReleasesSourced(es[..n], cap);
      RunItems(es[..n], cap);
      match es[n] {
        case Enter(x) => PushKeepsLate(es, Run(es[..n], cap), x, cap);
        case Drain(c) =>
          PopKeepsBufferLate(es, Run(es[..n], cap), c);
          PopKeepsLogLate(es, Run(es[..n], cap), c);
      }
    }
  }

  /** If y comes out after x although y's (ts, seqNo) is smaller, then y was
      pushed after the pop_ready that released x. */
  lemma OutOfOrderMeansPushedLate<T>(es: seq<Event<T>>, cap: nat, i: nat, j: nat)
    requires cap >= 1 && UniqueTickets(es)
    requires i < j < |Run(es, cap).log|
    requires Before(Run(es, cap).log[j].item, Run(es, cap).log[i].item)
    ensures PushedBetween(es, Run(es, cap).log[j].item, Run(es, cap).log[i].at, Run(es, cap).log[j].at)
  {
    LateOnlyIfPushedLate(es, cap);
  }

  /** At the push of every item that is released later, all items released so
      far are smaller: what a caller can check against the last released key. */
  ghost predicate AboveReleased<T>(es: seq<Event<T>>, log: seq<Release<T>>) {
    forall i, j :: 0 <= i < |log| && 0 <= j < |log| && i != j ==>
      PushedBetween(es, log[j].item, log[i].at, |es|) ==> Before(log[i].item, log[j].item)
  }

  lemma ReleaseTimesGrow<T>(es: seq<Event<T>>, cap: nat)
    requires cap >= 1 && UniqueTickets(es)
    ensures forall i, j :: 0 <= i < j < |Run(es, cap).log| ==> Run(es, cap).log[i].at <= Run(es, cap).log[j].at
  {
    if es != [] {
      TicketsPrefix(es);
      ReleaseTimesGrow(es[..|es| - 1], cap);
      ReleasesSourced(es[..|es| - 1], cap);
    }
  }

  lemma PushedOnce<T>(es: seq<Event<T>>, x: Item<T>, lo: int, mid: int)
    requires UniqueTickets(es) && PushedBetween(es, x, lo, |es|) && PushedBetween(es, x, -1, mid)
    ensures lo < mid
  {
    var p: nat :| lo < p < |es| && es[p] == Enter(x);
    var q: nat :| -1 < q < mid && q < |es| && es[q] == Enter(x);
    assert (p < q ==> !SharedTicket(es, p, q)) && (q < p ==> !SharedTicket(es, q, p));
  }

  lemma NothingLateSorts<T>(es: seq<Event<T>>, log: seq<Release<T>>)
    requires Sourced(es, log) && LogLate(es, log) && AboveReleased(es, log)
    requires UniqueSeqs(ReleasedSet(log)) && NoRepeats(log)
    ensures StrictlySorted(Released(log))
  {
    forall i, j | 0 <= i < j < |log| ensures Before(log[i].item, log[j].item) {
      assert log[i].item in ReleasedSet(log) && log[j].item in ReleasedSet(log);
      assert !Clash(log[i].item, log[j].item);
      if Before(log[j].item, log[i].item) {
        WidenPushed(es, log[j].item, log[i].at, log[j].at);
      }
    }
  }

  lemma SortedMeansNothingLate<T>(es: seq<Event<T>>, log: seq<Release<T>>)
    requires UniqueTickets(es) && Sourced(es, log) && StrictlySorted(Released(log))
    requires forall i, j :: 0 <= i < j < |log| ==> log[i].at <= log[j].at
    ensures AboveReleased(es, log)
  {
    forall i, j | 0 <= i < |log| && 0 <= j < |log| && i != j && PushedBetween(es, log[j].item, log[i].at, |es|)
      ensures Before(log[i].item, log[j].item)
    {
      PushedOnce(es, log[j].item, log[i].at, log[j].at);
      assert i < j;
      assert Before(Released(log)[i], Released(log)[j]);
    }
  }

  /** The concatenated output is strictly sorted exactly when no released item
      was pushed behind an item already out. */
  lemma SortedIffNothingLate<T>(es: seq<Event<T>>, cap: nat)
    requires cap >= 1 && UniqueTickets(es)
    ensures StrictlySorted(Released(Run(es, cap).log)) <==> AboveReleased(es, Run(es, cap).log)
  {
    var log := Run(es, cap).log;
    Conservation(es, cap);
    LateOnlyIfPushedLate(es, cap);
    ReleasesSourced(es, cap);
    if AboveReleased(es, log) {
      PushedItemsUnique(es);
      NothingLateSorts(es, log);
    } else if StrictlySorted(Released(log)) {
      ReleaseTimesGrow(es, cap);
      SortedMeansNothingLate(es, log);
    }
  }

  lemma WidenPushed<T>(es: seq<Event<T>>, x: Item<T>, lo: int, hi: int)
    requires PushedBetween(es, x, lo, hi)
    ensures PushedBetween(es, x, lo, |es|)
  {
  }

  /** If every push is stamped above all earlier cutoffs, the whole output of
      the run is strictly sorted. */
  lemma FreshPushesSort<T>(es: seq<Event<T>>, cap: nat)
    requires cap >= 1 && UniqueTickets(es)
    requires forall p, q :: 0 <= p < q < |es| && es[p].Drain? && es[q].Enter? ==> es[q].item.ts > es[p].cutoff
    ensures StrictlySorted(Released(Run(es, cap).log))
  {
    var log := Run(es, cap).log;
    ReleasesSourced(es, cap);
    forall i, j | 0 <= i < |log| && 0 <= j < |log| && i != j
      && PushedBetween(es, log[j].item, log[i].at, |es|)
      ensures Before(log[i].item, log[j].item)
    {
      var p :| log[i].at < p < |es| && es[p] == Enter(log[j].item);
      assert es[log[i].at].Drain?;
    }
    SortedIffNothingLate(es, cap);
  }

  lemma RunAppend<T>(es: seq<Event<T>>, e: Event<T>, cap: nat)
    requires cap >= 1
    ensures Run(es + [e], cap) == AfterEvent(Run(es, cap), e, |es|, cap)
  {
    assert (es + [e])[..|es|] == es;
  }

  lemma PopSingle<T>(t: Trace<T>, x: Item<T>, c: int, at: nat)
    requires t.buf.items == {x} && x.ts <= c
    ensures AfterPop(t, c, at).buf.items == {}
    ensures AfterPop(t, c, at).log == t.log + [Release(x, at)]
  {
    assert Ready(t.buf.items, c) == {x};
    assert Lists([x], {x});
    ListingUnique([x], {x});
    assert Stamped([x], at) == [Release(x, at)];
  }

  lemma PushPop<T>(t: Trace<T>, x: Item<T>, c: int, at: nat)
    requires t.buf.items == {} && x.ts <= c
    ensures var u := AfterPush(t, x, 1);
      && UniqueSeqs(u.buf.items)
      && AfterPop(u, c, at).buf.items == {}
      && AfterPop(u, c, at).log == t.log + [Release(x, at)]
  {
    PopSingle(AfterPush(t, x, 1), x, c, at);
  }

  lemma RunPushPop<T>(es: seq<Event<T>>, x: Item<T>, c: int)
    ensures Run(es, 1).buf.items == {} && x.ts <= c ==>
      && Run(es + [Enter(x)] + [Drain(c)], 1).buf.items == {}
      && Run(es + [Enter(x)] + [Drain(c)], 1).log == Run(es, 1).log + [Release(x, |es| + 1)]
  {
    RunAppend(es + [Enter(x)], Drain(c), 1);
    RunAppend(es, Enter(x), 1);
    if Run(es, 1).buf.items == {} && x.ts <= c {
      PushPop(Run(es, 1), x, c, |es| + 1);
    }
  }

  /** Without that condition the output need not be sorted: a push stamped
      behind a released item comes out behind it. */
  lemma LatePushComesOutLate<T>(es: seq<Event<T>>, x: Item<T>, y: Item<T>, c: int)
    requires es == [Enter(x), Drain(c), Enter(y), Drain(c)]
    requires x.seqNo != y.seqNo && y.ts < x.ts <= c
    ensures UniqueTickets(es) && Released(Run(es, 1).log) == [x, y] && Before(y, x)
  {
    var none: seq<Event<T>> := es[..0];
    var half := none + [Enter(x)] + [Drain(c)];
    assert es == half + [Enter(y)] + [Drain(c)];
    RunPushPop(half, y, c);
    RunPushPop(none, x, c);
    assert Run(es, 1).log == [Release(x, 1), Release(y, 3)];
  }

  // ------------------------------------------------- the order, field by field

  lemma {:induction false} AtIsEarlier<T>(es: seq<Event<T>>, cap: nat, i: nat)
    requires cap >= 1 && i < |Run(es, cap).log|
    ensures Run(es, cap).log[i].at < |es|
  {
    if es != [] && i < |Run(es[..|es| - 1], cap).log| { AtIsEarlier(es[..|es| - 1], cap, i); }
  }

  /** Items that one pop_ready releases come out by timestamp, and those with equal
      timestamps by sequence number, smallest first. */
  lemma {:induction false} BatchOrder<T>(es: seq<Event<T>>, cap: nat, i: nat, j: nat)
    requires cap >= 1 && UniqueTickets(es) && i < j < |Run(es, cap).log|
    requires Run(es, cap).log[i].at == Run(es, cap).log[j].at
    ensures var x, y := Run(es, cap).log[i].item, Run(es, cap).log[j].item;
      x.ts <= y.ts && (x.ts == y.ts ==> x.seqNo < y.seqNo)
  {
    if es != [] {
      var n := |es| - 1;
      var t := Run(es[..n], cap);
      TicketsPrefix(es);
      RunItems(es[..n], cap);
      if es[n].Drain? { PopLog(t, es[n].cutoff, n); }
      if i < |t.log| {
        AtIsEarlier(es[..n], cap, i);
        BatchOrder(es[..n], cap, i, j);
      }
    }
  }

  /** No item has a smaller timestamp, or the same one and a smaller sequence number. */
  ghost predicate Oldest<T>(e: Item<T>, items: set<Item<T>>) {
    forall y :: y in items && y != e ==> e.ts < y.ts || (e.ts == y.ts && e.seqNo < y.seqNo)
  }

  /** A push into a full buffer discards the buffered item with the smallest
      timestamp, of several the one with the smallest sequence number; a push with
      room discards nothing. */
  lemma EvictsOldest<T>(es: seq<Event<T>>, cap: nat, x: Item<T>)
    requires cap >= 1 && UniqueTickets(es)
    ensures var t, u := Run(es, cap), Run(es + [Enter(x)], cap);
      if |t.buf.items| < cap then u.buf.items == t.buf.items + {x} && u.lost == t.lost
      else exists e :: e in t.buf.items && Oldest(e, t.buf.items)
                       && u.lost == t.lost + {e} && u.buf.items == t.buf.items - {e} + {x}
  {
    var t := Run(es, cap);
    RunAppend(es, Enter(x), cap);
    RunItems(es, cap);
    if |t.buf.items| >= cap {
      LeastIsLeast(t.buf.items);
      assert Least(t.buf.items) in t.buf.items;
    }
  }

  lemma PopTwo<T>(t: Trace<T>, x: Item<T>, y: Item<T>, c: int, at: nat)
    requires t.buf.items == {x, y} && t.log == [] && x.ts == y.ts <= c && x.seqNo < y.seqNo
    ensures Released(AfterPop(t, c, at).log) == [x, y]
  {
    assert Ready({x, y}, c) == {x, y};
    assert Lists([x, y], {x, y});
    ListingUnique([x, y], {x, y});
  }

  lemma PushTwo<T>(es: seq<Event<T>>, x: Item<T>, y: Item<T>)
    requires es == [] && x != y
    ensures Run(es + [Enter(x)] + [Enter(y)], 2).buf.items == {x, y}
    ensures Run(es + [Enter(x)] + [Enter(y)], 2).log == []
  {
    RunAppend(es, Enter(x), 2);
    RunAppend(es + [Enter(x)], Enter(y), 2);
    AddSize({}, x);
    assert {} + {x} == {x} && {x} + {y} == {x, y};
  }

  /** Two items with one timestamp come out as they were pushed. */
  lemma TiesInPushOrder<T>(es: seq<Event<T>>, x: Item<T>, y: Item<T>, c: int)
    requires es == [Enter(x), Enter(y), Drain(c)] && x.ts == y.ts <= c && x.seqNo < y.seqNo
    ensures Released(Run(es, 2).log) == [x, y]
  {
    var pushed := es[..0] + [Enter(x)] + [Enter(y)];
    assert es == pushed + [Drain(c)];
    PushTwo(es[..0], x, y);
    RunAppend(pushed, Drain(c), 2);
    PopTwo(Run(pushed, 2), x, y, c, 2);
  }
}
