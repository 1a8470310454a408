/** What the capacity cap keeps: a closed form for a burst of pushes with no
    pop_ready in between. */
module ReorderOverflow {
  import opened ReorderSpec
  import opened ReorderRuns

  function Min(a: nat, b: nat): nat {
    if a < b then a else b
  }

  /** top is the k greatest items, or all of them when there are fewer. */
  ghost predicate Greatest<T>(top: set<Item<T>>, k: nat, items: set<Item<T>>) {
    && top <= items
    && |top| == Min(k, |items|)
    && forall x, y :: x in items && x !in top && y in top ==> Before(x, y)
  }

  /** Dropping the least of {last} + top and calling the rest the new top. */
  lemma GreatestStep<T>(buf: set<Item<T>>, last: Item<T>, cap: nat, earlier: set<Item<T>>)
    requires cap >= 1 && UniqueSeqs(earlier + {last}) && last in buf && last !in earlier
    requires Greatest(buf - {last}, cap - 1, earlier)
    ensures |buf| >= cap ==> Greatest(buf - {Least(buf)}, cap - 1, earlier + {last})
    ensures |buf| < cap ==> Greatest(buf, cap - 1, earlier + {last})
  {
    var top := buf - {last};
    AddSize(earlier, last);
    SplitSize(buf, {last});
    if |buf| < cap {
      SubsetEqual(top, earlier);
    } else {
      LeastIsLeast(buf);
      SplitSize(buf, {Least(buf)});
      GreatestOrder(buf, last, Least(buf), earlier);
    }
  }

  lemma GreatestOrder<T>(buf: set<Item<T>>, last: Item<T>, least: Item<T>, earlier: set<Item<T>>)
    requires IsLeast(least, buf) && last in buf
    requires forall x, y :: x in earlier && x !in buf - {last} && y in buf - {last} ==> Before(x, y)
    ensures forall x, y :: x in earlier + {last} && x !in buf - {least} && y in buf - {least} ==> Before(x, y)
  {
    forall x, y | x in earlier + {last} && x !in buf - {least} && y in buf - {least} ensures Before(x, y) {
      if x != least && y == last {
        assert least in buf - {last} && Before(x, least);
      }
    }
  }

  lemma SubsetEqual<A>(a: set<A>, b: set<A>)
    requires a <= b && |a| == |b|
    ensures a == b
  {
    SplitSize(b, a);
  }

  lemma {:induction false} PushedCount<T>(es: seq<Event<T>>)
    requires UniqueTickets(es) && forall i :: 0 <= i < |es| ==> es[i].Enter?
    ensures |PushedItems(es)| == |es| == PushCount(es)
  {
    if es != [] {
      TicketsPrefix(es);
      PushedCount(es[..|es| - 1]);
      PushedItemsStep(es);
      LastIsFresh(es);
      AddSize(PushedItems(es[..|es| - 1]), es[|es| - 1].item);
    }
  }

  lemma AddRemove<A>(s: set<A>, x: A)
    requires x !in s
    ensures s + {x} - {x} == s
  {
  }

  lemma GreatestAfterPush<T>(b: Buffer<T>, prev: Item<T>, x: Item<T>, cap: nat, earlier: set<Item<T>>)
    requires cap >= 1 && UniqueSeqs(earlier + {prev}) && prev !in earlier && x !in earlier && x != prev
    requires prev in b.items && Greatest(b.items - {prev}, cap - 1, earlier)
    ensures x in Inserted(b, x, cap).items
    ensures Greatest(Inserted(b, x, cap).items - {x}, cap - 1, earlier + {prev})
  {
    GreatestStep(b.items, prev, cap, earlier);
    assert x !in b.items by { assert x !in b.items - {prev}; }
    AddRemove(if |b.items| >= cap then b.items - {Least(b.items)} else b.items, x);
  }

  /** After n >= 1 pushes and no pop_ready the buffer holds the last item pushed
      and the cap - 1 greatest of the earlier ones; the others were dropped. */
  lemma {:induction false} OverflowClosedForm<T>(es: seq<Event<T>>, cap: nat)
    requires cap >= 1 && es != [] && UniqueTickets(es) && forall i :: 0 <= i < |es| ==> es[i].Enter?
    ensures var last := es[|es| - 1].item; var buf := Run(es, cap).buf;
      && last in buf.items
      && Greatest(buf.items - {last}, cap - 1, PushedItems(es[..|es| - 1]))
      && buf.dropped == |es| - Min(|es|, cap)
  {
    OverflowContents(es, cap);
    BufferSize(es, cap);
    Conservation(es, cap);
    PushedCount(es);
    NothingReleased(es, cap);
  }

  lemma {:induction false} NothingReleased<T>(es: seq<Event<T>>, cap: nat)
    requires cap >= 1 && UniqueTickets(es) && forall i :: 0 <= i < |es| ==> es[i].Enter?
    ensures Run(es, cap).log == []
  {
    if es != [] {
      TicketsPrefix(es);
      NothingReleased(es[..|es| - 1], cap);
    }
  }

  ghost predicate LastAndGreatest<T>(es: seq<Event<T>>, items: set<Item<T>>, cap: nat)
    requires cap >= 1 && es != [] && es[|es| - 1].Enter?
  {
    var last := es[|es| - 1].item;
    last in items && Greatest(items - {last}, cap - 1, PushedItems(es[..|es| - 1]))
  }

  lemma OverflowStep<T>(es: seq<Event<T>>, b: Buffer<T>, cap: nat)
    requires cap >= 1 && |es| >= 2 && UniqueTickets(es)
    requires es[|es| - 1].Enter? && es[|es| - 2].Enter?
    requires LastAndGreatest(es[..|es| - 1], b.items, cap)
    ensures LastAndGreatest(es, Inserted(b, es[|es| - 1].item, cap).items, cap)
  {
    var shorter := es[..|es| - 1];
    TicketsPrefix(es);
    PushedItemsStep(shorter);
    PushedItemsUnique(shorter);
    LastIsFresh(es);
    LastIsFresh(shorter);
    GreatestAfterPush(b, es[|es| - 2].item, es[|es| - 1].item, cap, PushedItems(shorter[..|es| - 2]));
  }

  lemma {:induction false} OverflowContents<T>(es: seq<Event<T>>, cap: nat)
    requires cap >= 1 && es != [] && UniqueTickets(es) && forall i :: 0 <= i < |es| ==> es[i].Enter?
    ensures LastAndGreatest(es, Run(es, cap).buf.items, cap)
  {
    var n := |es| - 1;
    if n == 0 {
      assert PushedItems(es[..0]) == {};
      assert Run(es[..0], cap).buf.items == {};
      assert {es[0].item} - {es[0].item} == {};
    } else {
      TicketsPrefix(es);
      OverflowContents(es[..n], cap);
      OverflowStep(es, Run(es[..n], cap).buf, cap);
    }
  }

  lemma InsertedSize<T>(b: Buffer<T>, x: Item<T>, cap: nat)
    requires cap >= 1 && x !in b.items && |b.items| <= cap
    ensures |Inserted(b, x, cap).items| == Min(|b.items| + 1, cap)
  {
    if |b.items| >= cap {
      SplitSize(b.items, {Least(b.items)});
      AddSize(b.items - {Least(b.items)}, x);
    } else {
      AddSize(b.items, x);
    }
  }

  lemma {:induction false} BufferSize<T>(es: seq<Event<T>>, cap: nat)
    requires cap >= 1 && UniqueTickets(es) && forall i :: 0 <= i < |es| ==> es[i].Enter?
    ensures |Run(es, cap).buf.items| == Min(|es|, cap)
  {
    if es != [] {
      var n := |es| - 1;
      TicketsPrefix(es);
      BufferSize(es[..n], cap);
      LastIsFresh(es);
      RunItems(es[..n], cap);
      InsertedSize(Run(es[..n], cap).buf, es[n].item, cap);
    }
  }
}
