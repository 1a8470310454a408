/** The reorder buffer itself: a heap list and three counters, updated under one
    lock. A ghost history of the locked steps ties every reachable buffer to a
    run of ReorderRuns. */
module Reorder {
  import opened Wrappers
  import opened ReorderSpec
  import opened ReorderRuns
  import HeapQueue

  ghost function Payloads<T>(s: seq<Item<T>>): seq<T> {
    if s == [] then [] else Payloads(s[..|s| - 1]) + [s[|s| - 1].payload]
  }

  /** What pop_ready returns for a buffer: the ready payloads, sorted. */
  ghost function Output<T>(items: set<Item<T>>, cutoff: int): seq<T> {
    Payloads(Sort(Ready(items, cutoff)))
  }

  class ReorderBuffer<T(==)> {
    const hold: int
    const maxQueue: nat
    var heap: seq<Item<T>>
    var nextSeq: nat
    var pushed: nat
    var popped: nat
    var dropped: nat
    ghost var tickets: set<nat>          // drawn from the counter, not yet used by a push
    ghost var events: seq<Event<T>>      // the locked steps so far
    ghost var trace: Trace<T>            // the state of the run of those steps

    ghost predicate Valid()
      reads this
    {
      && History(events, trace, tickets, nextSeq, maxQueue)
      && Matches(trace.buf)
    }

    ghost function Items(): set<Item<T>>
      reads this
    {
      trace.buf.items
    }

    constructor (hold: int, maxQueue: nat)
      requires maxQueue >= 1
      ensures Valid() && events == [] && tickets == {} && Items() == {} && nextSeq == 0
      ensures this.hold == hold && this.maxQueue == maxQueue
    {
      this.hold, this.maxQueue := hold, maxQueue;
      heap, nextSeq := [], 0;
      pushed, popped, dropped := 0, 0, 0;
      tickets, events := {}, [];
      trace := Trace(Buffer({}, 0, 0, 0), [], {});
    }

    /** `next(self._seq)`, which push evaluates before it takes the lock. */
    method TakeTicket() returns (ticket: nat)
      requires Valid()
      modifies this`nextSeq, this`tickets
      ensures Valid() && ticket == old(nextSeq) && nextSeq == ticket + 1
      ensures ticket !in old(tickets) && tickets == old(tickets) + {ticket}
    {
      ticket := nextSeq;
      nextSeq := nextSeq + 1;
      tickets := tickets + {ticket};
    }

    /** The locked half of push. */
    method Insert(ts: int, ticket: nat, payload: T)
      requires Valid() && ticket in tickets
      modifies this`heap, this`pushed, this`dropped, this`tickets, this`events, this`trace
      ensures Valid() && tickets == old(tickets) - {ticket}
      ensures events == old(events) + [Enter(Item(ts, ticket, payload))]
      ensures trace == AfterPush(old(trace), Item(ts, ticket, payload), maxQueue)
      ensures |old(Items())| < maxQueue ==> Items() == old(Items()) + {Item(ts, ticket, payload)}
      ensures |old(Items())| >= maxQueue ==> exists e :: e in old(Items()) && Oldest(e, old(Items()))
                                                         && Items() == old(Items()) - {e} + {Item(ts, ticket, payload)}
    {
      var item := Item(ts, ticket, payload);
      NewItem(item);
      PushEvicts(events, trace, item, maxQueue);
      PushLocked(item);
      RecordPush(item);
    }

    method PushLocked(item: Item<T>)
      requires maxQueue >= 1 && Matches(trace.buf)
      requires forall y :: y in Items() ==> y.seqNo != item.seqNo
      modifies this`heap, this`pushed, this`dropped
      ensures Matches(Inserted(trace.buf, item, maxQueue))
    {
      HeapSize(heap, Items());
      if |heap| >= maxQueue {
        heap := ReplaceOldest(heap, Items(), item);
        dropped := dropped + 1;
      } else {
        heap := PushItem(heap, Items(), item);
      }
      pushed := pushed + 1;
    }

    lemma NewItem(item: Item<T>)
      requires Valid() && item.seqNo in tickets
      ensures forall y :: y in Items() ==> y.seqNo != item.seqNo
    {
      HistoryEnter(events, trace, tickets, nextSeq, maxQueue, item);
    }

    ghost predicate Matches(buf: Buffer<T>)
      reads this
    {
      && HeapHolds(heap, buf.items)
      && pushed == buf.pushed && popped == buf.popped && dropped == buf.dropped
    }

    /** Appends a finished push to the history. */
    ghost method RecordPush(item: Item<T>)
      requires History(events, trace, tickets, nextSeq, maxQueue) && item.seqNo in tickets
      requires Matches(Inserted(trace.buf, item, maxQueue))
      modifies this`tickets, this`events, this`trace
      ensures Valid() && tickets == old(tickets) - {item.seqNo}
      ensures events == old(events) + [Enter(item)]
      ensures trace == AfterPush(old(trace), item, maxQueue)
    {
      HistoryEnter(events, trace, tickets, nextSeq, maxQueue, item);
      tickets := tickets - {item.seqNo};
      events := events + [Enter(item)];
      trace := AfterPush(trace, item, maxQueue);
    }

    /** Appends a finished pop_ready to the history. */
    ghost method RecordPop(cutoff: int)
      requires History(events, trace, tickets, nextSeq, maxQueue)
      requires Matches(ReorderSpec.Popped(trace.buf, cutoff))
      modifies this`events, this`trace
      ensures Valid()
      ensures events == old(events) + [Drain(cutoff)]
      ensures trace == AfterPop(old(trace), cutoff, |old(events)|)
      ensures Items() == old(Items()) - Ready(old(Items()), cutoff)
    {
      HistoryDrain(events, trace, tickets, nextSeq, maxQueue, cutoff);
      events := events + [Drain(cutoff)];
      trace := AfterPop(trace, cutoff, |events| - 1);
    }

    /** Push as one thread calls it: `ts` defaults to the clock. */
    method Push(payload: T, ts: Option<int>, clock: int)
      requires Valid()
      modifies this`heap, this`nextSeq, this`pushed, this`dropped, this`tickets, this`events, this`trace
      ensures Valid() && tickets == old(tickets) && nextSeq == old(nextSeq) + 1
      ensures events == old(events)
        + [Enter(Item(if ts.Some? then ts.value else clock, old(nextSeq), payload))]
    {
      var ticket := TakeTicket();
      Insert(if ts.Some? then ts.value else clock, ticket, payload);
    }

    /** Items stamped at or before this are due at time `now`. */
    function Cutoff(now: int): int {
      now - hold
    }

    /** Everything at or below now - hold comes out, by timestamp and then by
        sequence number; everything else stays. taken are the items behind out. */
    method PopReady(now: int) returns (out: seq<T>, ghost taken: seq<Item<T>>)
      requires Valid()
      modifies this`heap, this`popped, this`events, this`trace
      ensures Valid()
      ensures Due(taken, old(Items()), now - hold) && InOrder(taken) && PayloadsAre(out, taken)
      ensures Items() == old(Items()) - (set x | x in taken)
      ensures out == Output(old(Items()), Cutoff(now))
      ensures Items() == old(Items()) - Ready(old(Items()), Cutoff(now))
      ensures events == old(events) + [Drain(Cutoff(now))]
    {
      taken := Sort(Ready(Items(), Cutoff(now)));
      TakenInOrder(events, trace, maxQueue, Cutoff(now));
      out := PopLocked(Cutoff(now));
      RecordPop(Cutoff(now));
    }

    method PopLocked(cutoff: int) returns (out: seq<T>)
      requires Matches(trace.buf)
      modifies this`heap, this`popped
      ensures out == Output(trace.buf.items, cutoff)
      ensures Matches(ReorderSpec.Popped(trace.buf, cutoff))
    {
      ghost var taken: seq<Item<T>> := [];
      ghost var items := trace.buf.items;
      ghost var rest := items;
      out := [];
      HeapHead(heap, rest);
      while heap != [] && heap[0].ts <= cutoff
        invariant Draining(items, rest, taken, heap, out, cutoff)
        invariant popped == old(popped) + |taken|
        decreases |rest|
      {
        var item;
        item, heap := PopItem(heap, rest);
        DrainStep(items, rest, taken, heap, out, item, cutoff);
        rest := rest - {item};
        taken := taken + [item];
        out := out + [item.payload];
        popped := popped + 1;
      }
      DrainedAll(items, rest, taken, heap, out, cutoff);
    }

    method QSize() returns (n: nat)
      requires Valid()
      ensures n == |Items()| && n <= maxQueue && pushed == popped + dropped + n
    {
      n := |heap|;
      HeapSize(heap, Items());
      Conservation(events, maxQueue);
    }
  }

  // ------------------------------------------------------ the ghost history

  /** trace is the state of the run es, and the tickets still out are unused. */
  ghost predicate History<T>(es: seq<Event<T>>, trace: Trace<T>, tickets: set<nat>, nextSeq: nat, cap: nat) {
    cap >= 1 && trace == Run(es, cap) && Drawn(es, tickets, nextSeq)
  }

  /** Each push used its own ticket, and the tickets still out are unused. */
  ghost predicate Drawn<T>(es: seq<Event<T>>, tickets: set<nat>, nextSeq: nat) {
    && UniqueTickets(es)
    && (forall i :: 0 <= i < |es| && es[i].Enter? ==> es[i].item.seqNo < nextSeq && es[i].item.seqNo !in tickets)
    && (forall t :: t in tickets ==> t < nextSeq)
  }

  lemma DrawnEnter<T>(es: seq<Event<T>>, tickets: set<nat>, nextSeq: nat, x: Item<T>)
    requires Drawn(es, tickets, nextSeq) && x.seqNo in tickets
    ensures Drawn(es + [Enter(x)], tickets - {x.seqNo}, nextSeq)
    ensures forall y :: y in PushedItems(es) ==> y.seqNo != x.seqNo
  {
    var more := es + [Enter(x)];
    TicketsAppend(es, Enter(x));
    forall i | 0 <= i < |more| && more[i].Enter?
      ensures more[i].item.seqNo < nextSeq && more[i].item.seqNo !in tickets - {x.seqNo}
    {
      assert i < |es| ==> more[i] == es[i];
    }
    assert more[..|es|] == es;
    LastIsFresh(more);
  }

  lemma HistoryEnter<T>(es: seq<Event<T>>, trace: Trace<T>, tickets: set<nat>, nextSeq: nat, cap: nat, x: Item<T>)
    requires History(es, trace, tickets, nextSeq, cap) && x.seqNo in tickets
    ensures UniqueSeqs(trace.buf.items) && forall y :: y in trace.buf.items ==> y.seqNo != x.seqNo
    ensures History(es + [Enter(x)], AfterPush(trace, x, cap), tickets - {x.seqNo}, nextSeq, cap)
  {
    DrawnEnter(es, tickets, nextSeq, x);
    RunAppend(es, Enter(x), cap);
    RunItems(es, cap);
  }

  /** The buffer after the locked half of a push, in a reachable state. */
  lemma PushEvicts<T>(es: seq<Event<T>>, trace: Trace<T>, x: Item<T>, cap: nat)
    requires cap >= 1 && trace == Run(es, cap) && UniqueTickets(es)
    ensures var t, u := trace.buf.items, AfterPush(trace, x, cap).buf.items;
      && (|t| < cap ==> u == t + {x})
      && (|t| >= cap ==> exists e :: e in t && Oldest(e, t) && u == t - {e} + {x})
  {
    RunAppend(es, Enter(x), cap);
    EvictsOldest(es, cap, x);
  }

  /** Exactly the items stamped at or before the cutoff. */
  ghost predicate Due<T>(taken: seq<Item<T>>, items: set<Item<T>>, cutoff: int) {
    && (forall x :: x in taken ==> x in items && x.ts <= cutoff)
    && (forall x :: x in items && x.ts <= cutoff ==> x in taken)
  }

  /** By timestamp, and with equal timestamps by sequence number, smallest first. */
  ghost predicate InOrder<T>(s: seq<Item<T>>) {
    forall i, j {:trigger s[i], s[j]} :: 0 <= i < j < |s| ==>
      s[i].ts <= s[j].ts && (s[i].ts == s[j].ts ==> s[i].seqNo < s[j].seqNo)
  }

  ghost predicate PayloadsAre<T>(out: seq<T>, s: seq<Item<T>>) {
    |out| == |s| && forall i :: 0 <= i < |out| ==> out[i] == s[i].payload
  }

  lemma {:induction false} PayloadsOf<T>(s: seq<Item<T>>)
    ensures |Payloads(s)| == |s| && forall k :: 0 <= k < |s| ==> Payloads(s)[k] == s[k].payload
  {
    if s != [] { PayloadsOf(s[..|s| - 1]); }
  }

  /** What pop_ready takes from a reachable buffer, field by field. */
  lemma TakenInOrder<T>(es: seq<Event<T>>, trace: Trace<T>, cap: nat, cutoff: int)
    requires cap >= 1 && trace == Run(es, cap) && UniqueTickets(es)
    ensures var items := trace.buf.items; var taken, out := Sort(Ready(items, cutoff)), Output(items, cutoff);
      && Due(taken, items, cutoff) && InOrder(taken) && PayloadsAre(out, taken)
      && Ready(items, cutoff) == (set x | x in taken)
  {
    RunItems(es, cap);
    var ready := Ready(trace.buf.items, cutoff);
    SortLists(ready);
    PayloadsOf(Sort(ready));
    forall i, j | 0 <= i < j < |Sort(ready)| ensures Before(Sort(ready)[i], Sort(ready)[j]) {
    }
  }

  lemma HistoryDrain<T>(es: seq<Event<T>>, trace: Trace<T>, tickets: set<nat>, nextSeq: nat, cap: nat, cutoff: int)
    requires History(es, trace, tickets, nextSeq, cap)
    ensures UniqueSeqs(trace.buf.items)
    ensures History(es + [Drain(cutoff)], AfterPop(trace, cutoff, |es|), tickets, nextSeq, cap)
  {
    var more := es + [Drain(cutoff)];
    forall i | 0 <= i < |more| && more[i].Enter? ensures more[i] == es[i] {
    }
    TicketsAppend(es, Drain(cutoff));
    RunAppend(es, Drain(cutoff), cap);
    RunItems(es, cap);
  }

  // ------------------------------------------------- the heap against the set

  ghost predicate HeapHolds<T>(heap: seq<Item<T>>, items: set<Item<T>>) {
    HeapQueue.IsHeap(heap) && multiset(heap) == multiset(items) && UniqueSeqs(items)
  }

  lemma HeapSize<T>(heap: seq<Item<T>>, items: set<Item<T>>)
    requires HeapHolds(heap, items)
    ensures |heap| == |items|
  {
    assert |multiset(heap)| == |heap|;
  }

  /** The root of the heap is the least buffered item. */
  lemma HeapHead<T>(heap: seq<Item<T>>, items: set<Item<T>>)
    requires HeapHolds(heap, items)
    ensures heap != [] ==> IsLeast(heap[0], items)
    ensures heap == [] ==> items == {}
  {
    HeapSize(heap, items);
    if heap != [] {
      assert heap[0] in multiset(heap);
      forall y | y in items && y != heap[0] ensures Before(heap[0], y) {
        assert y in multiset(heap) && !Clash(heap[0], y);
        var i: nat :| i < |heap| && heap[i] == y;
        HeapQueue.RootIsLeast(heap, i);
      }
    }
  }

  lemma AddUnique<T>(items: set<Item<T>>, x: Item<T>)
    requires UniqueSeqs(items) && forall y :: y in items ==> y.seqNo != x.seqNo
    ensures UniqueSeqs(items + {x})
  {
    forall a, b | a in items + {x} && b in items + {x} ensures !Clash(a, b) {
      if a in items && b in items { assert !Clash(a, b); }
    }
  }

  method PopItem<T>(heap0: seq<Item<T>>, ghost items: set<Item<T>>) returns (x: Item<T>, heap: seq<Item<T>>)
    requires HeapHolds(heap0, items) && heap0 != []
    ensures x == heap0[0] && IsLeast(x, items) && HeapHolds(heap, items - {x})
  {
    HeapHead(heap0, items);
    x, heap := HeapQueue.Pop(heap0);
    assert multiset(items - {x}) == multiset(items) - multiset{x};
  }

  method PushItem<T>(heap0: seq<Item<T>>, ghost items: set<Item<T>>, x: Item<T>) returns (heap: seq<Item<T>>)
    requires HeapHolds(heap0, items) && forall y :: y in items ==> y.seqNo != x.seqNo
    ensures HeapHolds(heap, items + {x})
  {
    AddUnique(items, x);
    heap := HeapQueue.Push(heap0, x);
    assert multiset(items + {x}) == multiset(items) + multiset{x};
  }

  /** The overflow branch of push: drop the oldest, then push. */
  method ReplaceOldest<T>(heap0: seq<Item<T>>, ghost items: set<Item<T>>, x: Item<T>) returns (heap: seq<Item<T>>)
    requires HeapHolds(heap0, items) && heap0 != [] && items != {}
    requires forall y :: y in items ==> y.seqNo != x.seqNo
    ensures HeapHolds(heap, items - {Least(items)} + {x})
  {
    LeastIsLeast(items);
    var oldest;
    oldest, heap := PopItem(heap0, items);
    heap := PushItem(heap, items - {oldest}, x);
  }

  /** Half-way through pop_ready: the items taken so far are sorted, ready and
      all before what remains. */
  ghost predicate Drained<T>(items: set<Item<T>>, rest: set<Item<T>>, taken: seq<Item<T>>, cutoff: int) {
    && UniqueSeqs(items) && rest <= items
    && StrictlySorted(taken)
    && (forall x :: x in taken ==> x in items && x !in rest && x.ts <= cutoff)
    && (forall x :: x in items ==> x in rest || x in taken)
    && (forall x, y :: x in taken && y in rest ==> Before(x, y))
  }

  /** The invariant of the pop_ready loop. */
  ghost predicate Draining<T>(items: set<Item<T>>, rest: set<Item<T>>, taken: seq<Item<T>>,
                              heap: seq<Item<T>>, out: seq<T>, cutoff: int) {
    && HeapHolds(heap, rest)
    && (heap != [] ==> IsLeast(heap[0], rest))
    && (heap == [] ==> rest == {})
    && Drained(items, rest, taken, cutoff)
    && out == Payloads(taken)
  }

  lemma DrainStep<T>(items: set<Item<T>>, rest: set<Item<T>>, taken: seq<Item<T>>,
                     heap: seq<Item<T>>, out: seq<T>, x: Item<T>, cutoff: int)
    requires Drained(items, rest, taken, cutoff) && IsLeast(x, rest) && x.ts <= cutoff
    requires HeapHolds(heap, rest - {x}) && out == Payloads(taken)
    ensures Draining(items, rest - {x}, taken + [x], heap, out + [x.payload], cutoff)
    ensures |rest - {x}| < |rest|
  {
    HeapHead(heap, rest - {x});
    DrainOne(items, rest, taken, x, cutoff);
    SplitSize(rest, {x});
    assert (taken + [x])[..|taken|] == taken;
  }

  lemma DrainOne<T>(items: set<Item<T>>, rest: set<Item<T>>, taken: seq<Item<T>>, x: Item<T>, cutoff: int)
    requires Drained(items, rest, taken, cutoff) && IsLeast(x, rest) && x.ts <= cutoff
    ensures Drained(items, rest - {x}, taken + [x], cutoff)
  {
    forall y | y in items ensures y in rest - {x} || y in taken + [x] {
      if y == x { assert (taken + [x])[|taken|] == x; }
    }
  }

  lemma DrainedAll<T>(items: set<Item<T>>, rest: set<Item<T>>, taken: seq<Item<T>>,
                      heap: seq<Item<T>>, out: seq<T>, cutoff: int)
    requires Draining(items, rest, taken, heap, out, cutoff)
    requires heap == [] || heap[0].ts > cutoff
    ensures out == Output(items, cutoff)
    ensures rest == items - Ready(items, cutoff) && |taken| == |Ready(items, cutoff)|
  {
    assert Lists(taken, Ready(items, cutoff));
    ListingUnique(taken, Ready(items, cutoff));
  }
}
