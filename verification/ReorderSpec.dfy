/** The jitter buffer on values: items ordered by (ts, seqNo), and what one
    push and one pop_ready do to the set of buffered items. */
module ReorderSpec {

  datatype Item<+T> = Item(ts: int, seqNo: nat, payload: T)

  /** `_HeapItem.__lt__`: timestamp first, sequence number second, payload never. */
  predicate Before<T>(a: Item<T>, b: Item<T>) {
    a.ts < b.ts || (a.ts == b.ts && a.seqNo < b.seqNo)
  }

  ghost predicate Clash<T>(a: Item<T>, b: Item<T>) {
    a != b && a.seqNo == b.seqNo
  }

  ghost predicate UniqueSeqs<T>(items: set<Item<T>>) {
    forall a, b {:trigger Clash(a, b)} :: a in items && b in items ==> !Clash(a, b)
  }

  ghost predicate IsLeast<T>(x: Item<T>, items: set<Item<T>>) {
    x in items && forall y :: y in items && y != x ==> Before(x, y)
  }

  ghost function Pick<A>(s: set<A>): (x: A)
    requires s != {}
    ensures x in s
  {
    var x :| x in s; x
  }

  ghost function Least<T>(items: set<Item<T>>): (x: Item<T>)
    requires items != {}
    ensures x in items
    decreases items
  {
    var x := Pick(items);
    if items == {x} then x else
      var y := Least(items - {x});
      if Before(x, y) then x else y
  }

  lemma {:induction false} LeastIsLeast<T>(items: set<Item<T>>)
    requires items != {} && UniqueSeqs(items)
    ensures IsLeast(Least(items), items)
    decreases items
  {
    var x := Pick(items);
    if items != {x} {
      LeastIsLeast(items - {x});
      assert !Clash(x, Least(items - {x}));
      forall w | w in items && w != Least(items) ensures Before(Least(items), w) {
        assert w == x || w in items - {x};
      }
    }
  }

  ghost predicate StrictlySorted<T>(s: seq<Item<T>>) {
    forall i, j {:trigger Before(s[i], s[j])} :: 0 <= i < j < |s| ==> Before(s[i], s[j])
  }

  /** s lists exactly the given items, in strict (ts, seqNo) order. */
  ghost predicate Lists<T>(s: seq<Item<T>>, items: set<Item<T>>) {
    && StrictlySorted(s)
    && (forall x :: x in s ==> x in items)
    && (forall x :: x in items ==> x in s)
  }

  ghost function Sort<T>(items: set<Item<T>>): (s: seq<Item<T>>)
    ensures |s| == |items|
    decreases items
  {
    if items == {} then [] else
      var x := Least(items);
      [x] + Sort(items - {x})
  }

  lemma {:induction false} SortLists<T>(items: set<Item<T>>)
    requires UniqueSeqs(items)
    ensures Lists(Sort(items), items)
    decreases items
  {
    if items != {} {
      LeastIsLeast(items);
      SortLists(items - {Least(items)});
    }
  }

  lemma ListingTail<T>(s: seq<Item<T>>, items: set<Item<T>>)
    requires Lists(s, items) && s != []
    ensures IsLeast(s[0], items) && Lists(s[1..], items - {s[0]})
  {
    assert s[0] in s;
    forall y | y in items && y != s[0] ensures Before(s[0], y) && y in s[1..] {
      var i :| 0 <= i < |s| && s[i] == y;
      assert s[1..][i - 1] == y;
    }
    forall y | y in s[1..] ensures y in items - {s[0]} {
      var i :| 0 <= i < |s[1..]| && s[1..][i] == y;
      assert y == s[i + 1] && Before(s[0], s[i + 1]);
    }
  }

  /** A set of items has only one strictly sorted listing. */
  lemma {:induction false} ListingUnique<T>(s: seq<Item<T>>, items: set<Item<T>>)
    requires UniqueSeqs(items) && Lists(s, items)
    ensures s == Sort(items)
    decreases items
  {
    if s == [] {
      assert items == {};
    } else {
      ListingTail(s, items);
      LeastIsLeast(items);
      assert Least(items) == s[0];
      ListingUnique(s[1..], items - {s[0]});
    }
  }

  ghost function Ready<T>(items: set<Item<T>>, cutoff: int): set<Item<T>> {
    set x | x in items && x.ts <= cutoff
  }

  /** The buffered items and the three counters. */
  datatype Buffer<T(==)> = Buffer(items: set<Item<T>>, pushed: nat, popped: nat, dropped: nat)

  /** The locked half of `push`. */
  ghost function Inserted<T>(b: Buffer<T>, x: Item<T>, cap: nat): Buffer<T>
    requires cap >= 1
  {
    if |b.items| >= cap
    then Buffer(b.items - {Least(b.items)} + {x}, b.pushed + 1, b.popped, b.dropped + 1)
    else Buffer(b.items + {x}, b.pushed + 1, b.popped, b.dropped)
  }

  ghost function Popped<T>(b: Buffer<T>, cutoff: int): Buffer<T> {
    Buffer(b.items - Ready(b.items, cutoff), b.pushed, b.popped + |Ready(b.items, cutoff)|, b.dropped)
  }
}
