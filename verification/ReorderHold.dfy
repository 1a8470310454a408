/** How long an item stays in the jitter buffer: when it is released, and when the
    hold time bounds its stay. */
module ReorderHold {
  import opened ReorderSpec
  import opened ReorderRuns

  /** Event k is a pop_ready that is due to release items stamped ts. */
  predicate Covers<T>(es: seq<Event<T>>, k: nat, ts: int)
    requires k < |es|
  {
    es[k].Drain? && es[k].cutoff >= ts
  }

  /** Event q is the first such pop_ready after event p. */
  ghost predicate FirstCovering<T>(es: seq<Event<T>>, p: nat, q: nat, ts: int) {
    p < q < |es| && Covers(es, q, ts) && forall k {:trigger Covers(es, k, ts)} :: p < k < q ==> !Covers(es, k, ts)
  }

  /** Until then the item is buffered, unless it was evicted. */
  lemma {:induction false} StaysUntilCovered<T>(es: seq<Event<T>>, cap: nat, p: nat, x: Item<T>, n: nat)
    requires cap >= 1 && p < n <= |es| && es[p] == Enter(x)
    requires forall k {:trigger Covers(es, k, x.ts)} :: p < k < n ==> !Covers(es, k, x.ts)
    ensures x in Run(es[..n], cap).buf.items || x in Run(es[..n], cap).lost
  {
    var before, e := es[..n - 1], es[n - 1];
    assert es[..n] == before + [e];
    RunAppend(before, e, cap);
    if n > p + 1 {
      StaysUntilCovered(es, cap, p, x, n - 1);
      assert !Covers(es, n - 1, x.ts);
    }
  }

  /** What is released or evicted stays so. */
  lemma {:induction false} LogAndLostGrow<T>(es: seq<Event<T>>, cap: nat, n: nat)
    requires cap >= 1 && n <= |es|
    ensures Run(es[..n], cap).log <= Run(es, cap).log && Run(es[..n], cap).lost <= Run(es, cap).lost
    decreases |es|
  {
    if n == |es| {
      assert es[..n] == es;
    } else {
      var m := |es| - 1;
      LogAndLostGrow(es[..m], cap, n);
      assert es[..m][..n] == es[..n] && es == es[..m] + [es[m]];
      RunAppend(es[..m], es[m], cap);
    }
  }

  lemma TicketsUpTo<T>(es: seq<Event<T>>, n: nat)
    requires UniqueTickets(es) && n <= |es|
    ensures UniqueTickets(es[..n])
  {
    forall i: nat, j: nat | i < j < n ensures !SharedTicket(es[..n], i, j) {
      assert !SharedTicket(es, i, j);
    }
  }

  lemma PopReleases<T>(t: Trace<T>, x: Item<T>, cutoff: int, at: nat)
    requires UniqueSeqs(t.buf.items) && x in t.buf.items && x.ts <= cutoff
    ensures Release(x, at) in AfterPop(t, cutoff, at).log
  {
    var ready := Ready(t.buf.items, cutoff);
    SortLists(ready);
    var out := Sort(ready);
    assert x in ready && x in out;
    var i :| 0 <= i < |out| && out[i] == x;
    assert Stamped(out, at)[i] == Release(x, at);
    assert AfterPop(t, cutoff, at).log[|t.log| + i] == Release(x, at);
  }

  /** The pop_ready releases a buffered item it covers. */
  lemma CoveredIsReleased<T>(es: seq<Event<T>>, cap: nat, q: nat, x: Item<T>)
    requires cap >= 1 && UniqueTickets(es) && q < |es| && Covers(es, q, x.ts)
    requires x in Run(es[..q], cap).buf.items
    ensures Release(x, q) in Run(es, cap).log
  {
    var before := es[..q];
    assert es[..q + 1] == before + [Drain(es[q].cutoff)];
    RunAppend(before, Drain(es[q].cutoff), cap);
    TicketsUpTo(es, q);
    RunItems(before, cap);
    PopReleases(Run(before, cap), x, es[q].cutoff, q);
    LogAndLostGrow(es, cap, q + 1);
    InPrefix(Run(es[..q + 1], cap).log, Run(es, cap).log, Release(x, q));
  }

  lemma InPrefix<A>(a: seq<A>, b: seq<A>, x: A)
    requires a <= b && x in a
    ensures x in b
  {
  }

  lemma FirstOne<T>(es: seq<Event<T>>, p: nat, r: nat, ts: int) returns (q: nat)
    requires p < r < |es| && Covers(es, r, ts)
    ensures q <= r && FirstCovering(es, p, q, ts)
  {
    q := p + 1;
    while !Covers(es, q, ts)
      invariant p < q <= r && forall k {:trigger Covers(es, k, ts)} :: p < k < q ==> !Covers(es, k, ts)
      decreases r - q
    {
      q := q + 1;
    }
  }

  /** A released item was never evicted, and is released once. */
  lemma ReleasedOnceOnly<T>(es: seq<Event<T>>, cap: nat, x: Item<T>, q: nat, r: nat)
    requires cap >= 1 && UniqueTickets(es) && Release(x, q) in Run(es, cap).log
    ensures x !in Run(es, cap).lost
    ensures Release(x, r) in Run(es, cap).log ==> r == q
  {
    var log := Run(es, cap).log;
    Conservation(es, cap);
    var i :| 0 <= i < |log| && log[i] == Release(x, q);
    assert x in ReleasedSet(log);
    if Release(x, r) in log {
      var j :| 0 <= j < |log| && log[j] == Release(x, r);
      SamePlace(log, i, j);
    }
  }

  lemma SamePlace<T>(log: seq<Release<T>>, i: nat, j: nat)
    requires NoRepeats(log) && i < |log| && j < |log| && log[i].item == log[j].item
    ensures i == j
  {
  }

  /** The item pushed at p is released by the pop_ready at q if and only if q is the
      first pop_ready after p whose cutoff reaches its stamp, and it was not evicted
      before. */
  lemma ReleasedWhen<T>(es: seq<Event<T>>, cap: nat, p: nat, x: Item<T>, q: nat)
    requires cap >= 1 && UniqueTickets(es) && p < |es| && es[p] == Enter(x)
    ensures Release(x, q) in Run(es, cap).log
      <==> FirstCovering(es, p, q, x.ts) && x !in Run(es[..q], cap).lost
  {
    if Release(x, q) in Run(es, cap).log {
      ReleasedMeansFirst(es, cap, p, x, q);
    } else if FirstCovering(es, p, q, x.ts) && x !in Run(es[..q], cap).lost {
      StaysUntilCovered(es, cap, p, x, q);
      CoveredIsReleased(es, cap, q, x);
    }
  }

  lemma ReleasedMeansFirst<T>(es: seq<Event<T>>, cap: nat, p: nat, x: Item<T>, q: nat)
    requires cap >= 1 && UniqueTickets(es) && p < |es| && es[p] == Enter(x)
    requires Release(x, q) in Run(es, cap).log
    ensures FirstCovering(es, p, q, x.ts) && x !in Run(es[..q], cap).lost
  {
    ReleasesSourced(es, cap);
    ReleasedOnceOnly(es, cap, x, q, q);
    assert PushedBetween(es, x, -1, q) && Covers(es, q, x.ts);
    OnlyPush(es, p, x, q);
    var first := FirstOne(es, p, q, x.ts);
    LogAndLostGrow(es, cap, first);
    StaysUntilCovered(es, cap, p, x, first);
    CoveredIsReleased(es, cap, first, x);
    ReleasedOnceOnly(es, cap, x, q, first);
  }

  lemma OnlyPush<T>(es: seq<Event<T>>, p: nat, x: Item<T>, q: int)
    requires UniqueTickets(es) && p < |es| && es[p] == Enter(x) && PushedBetween(es, x, -1, q)
    ensures p < q
  {
    var i: nat :| i < q && i < |es| && es[i] == Enter(x);
    assert (p < i ==> !SharedTicket(es, p, i)) && (i < p ==> !SharedTicket(es, i, p));
  }

  // ----------------------------------------------------------- the hold time

  /** The clock readings of a run: pop_ready cuts off hold before its own. */
  ghost predicate Timed<T>(es: seq<Event<T>>, times: seq<int>, hold: int) {
    |times| == |es| && forall i :: 0 <= i < |es| && es[i].Drain? ==> es[i].cutoff == times[i] - hold
  }

  /** A pop_ready leaves no item it covers. */
  lemma NothingCoveredStays<T>(es: seq<Event<T>>, cap: nat, cutoff: int, x: Item<T>)
    requires cap >= 1
    ensures x in Run(es + [Drain(cutoff)], cap).buf.items <==> x in Run(es, cap).buf.items && x.ts > cutoff
  {
    RunAppend(es, Drain(cutoff), cap);
  }

  /** However the run goes on, x is out of the buffer after any pop_ready that comes
      at least hold after the clock of its push. */
  ghost predicate HeldAtMostHold<T(!new)>(es: seq<Event<T>>, times: seq<int>, clock: int, hold: int, cap: nat,
      x: Item<T>)
    requires cap >= 1
  {
    forall more: seq<Event<T>>, readings: seq<int>, now: int
      {:trigger PopAt(es, more, now, hold), Timed(es + more, times + readings, hold)} ::
      Timed(es + more, times + readings, hold) && now >= clock + hold
      ==> x !in Run(PopAt(es, more, now, hold), cap).buf.items
  }

  function PopAt<T>(es: seq<Event<T>>, more: seq<Event<T>>, now: int, hold: int): seq<Event<T>> {
    es + more + [Drain(now - hold)]
  }

  /** The hold time bounds the stay of an item pushed last, over all ways the run
      can go on, if and only if its stamp is not after the clock of its push. */
  lemma HoldBoundIff<T(!new)>(es: seq<Event<T>>, times: seq<int>, clock: int, hold: int, cap: nat, x: Item<T>)
    requires cap >= 1 && Timed(es, times, hold) && es != [] && es[|es| - 1] == Enter(x)
    ensures HeldAtMostHold(es, times, clock, hold, cap, x) <==> x.ts <= clock
  {
    if x.ts <= clock {
      forall more: seq<Event<T>>, readings: seq<int>, now: int
        {:trigger PopAt(es, more, now, hold), Timed(es + more, times + readings, hold)}
        | Timed(es + more, times + readings, hold) && now >= clock + hold
        ensures x !in Run(PopAt(es, more, now, hold), cap).buf.items
      {
        NothingCoveredStays(es + more, cap, now - hold, x);
      }
    } else {
      FutureStampStays(es, clock, cap, x);
      var none, noReadings: seq<int> := [], [];
      assert es + none == es && times + noReadings == times;
      assert Timed(es + none, times + noReadings, hold);
      assert x in Run(PopAt(es, none, clock + hold, hold), cap).buf.items;
    }
  }

  /** An item stamped after the clock of its push is still there hold later. */
  lemma FutureStampStays<T>(es: seq<Event<T>>, clock: int, cap: nat, x: Item<T>)
    requires cap >= 1 && es != [] && es[|es| - 1] == Enter(x) && x.ts > clock
    ensures x in Run(es + [Drain(clock)], cap).buf.items
  {
    var n := |es| - 1;
    RunAppend(es[..n], es[n], cap);
    assert es == es[..n] + [es[n]];
    NothingCoveredStays(es, cap, clock, x);
  }

  /** A run with a future stamp: pushed at clock, popped at clock + hold and again at
      its stamp + hold, the item comes out only the second time. */
  lemma FutureStampHeldLonger<T>(es: seq<Event<T>>, times: seq<int>, clock: int, hold: int, x: Item<T>)
    requires x.ts > clock && hold >= 0
    requires es == [Enter(x), Drain(clock), Drain(x.ts)] && times == [clock, clock + hold, x.ts + hold]
    ensures Timed(es, times, hold) && UniqueTickets(es)
    ensures x in Run(es[..2], 1).buf.items && Release(x, 2) in Run(es, 1).log && times[2] - times[0] > hold
  {
    ThreeTickets(es, clock, x);
    assert es[..2] == [Enter(x)] + [Drain(clock)];
    FutureStampStays([Enter(x)], clock, 1, x);
    NothingLostYet(es, clock, x);
    ReleasedWhen(es, 1, 0, x, 2);
  }

  lemma ThreeTickets<T>(es: seq<Event<T>>, clock: int, x: Item<T>)
    requires x.ts > clock && es == [Enter(x), Drain(clock), Drain(x.ts)]
    ensures UniqueTickets(es) && FirstCovering(es, 0, 2, x.ts)
  {
    forall i: nat, j: nat | i < j < 3 ensures !SharedTicket(es, i, j) {
    }
  }

  lemma NothingLostYet<T>(es: seq<Event<T>>, clock: int, x: Item<T>)
    requires |es| >= 2 && es[0] == Enter(x) && es[1] == Drain(clock)
    ensures Run(es[..2], 1).lost == {}
  {
    var none: seq<Event<T>> := [];
    assert es[..2] == none + [Enter(x)] + [Drain(clock)];
    RunAppend(none + [Enter(x)], Drain(clock), 1);
    RunAppend(none, Enter(x), 1);
  }
}
