/** The two heap operations of Python's `heapq` on a list of items: sift an
    item towards the root, or pull the smaller children up to a leaf and sift
    the moved item back. */
module HeapQueue {
  import opened ReorderSpec

  function Parent(i: nat): nat
    requires i > 0
  {
    (i - 1) / 2
  }

  ghost predicate EdgeOk<T>(h: seq<Item<T>>, i: nat)
    requires i < |h|
  {
    i > 0 ==> !Before(h[i], h[Parent(i)])
  }

  ghost predicate IsHeap<T>(h: seq<Item<T>>) {
    forall i: nat :: i < |h| ==> EdgeOk(h, i)
  }

  /** Everything is in heap order but the item at p, which may be too small. */
  ghost predicate HeapButUp<T>(h: seq<Item<T>>, p: nat)
    requires p < |h|
  {
    && (forall i: nat :: i < |h| && i != p ==> EdgeOk(h, i))
    && (p > 0 ==> forall i: nat :: 0 < i < |h| && Parent(i) == p ==> !Before(h[i], h[Parent(p)]))
  }

  /** Everything is in heap order but the item at p, which may be too small or
      too large. */
  ghost predicate HeapButHole<T>(h: seq<Item<T>>, p: nat)
    requires p < |h|
  {
    && (forall i: nat :: 0 < i < |h| && i != p && Parent(i) != p ==> EdgeOk(h, i))
    && (p > 0 ==> forall i: nat :: 0 < i < |h| && Parent(i) == p ==> !Before(h[i], h[Parent(p)]))
  }

  lemma {:induction false} RootIsLeast<T>(h: seq<Item<T>>, i: nat)
    requires IsHeap(h) && i < |h|
    ensures !Before(h[i], h[0])
  {
    if i > 0 {
      RootIsLeast(h, Parent(i));
      assert EdgeOk(h, i);
    }
  }

  function Swap<T>(h: seq<Item<T>>, i: nat, j: nat): (r: seq<Item<T>>)
    requires i < |h| && j < |h|
    ensures |r| == |h| && r[i] == h[j] && r[j] == h[i]
    ensures forall k :: 0 <= k < |h| && k != i && k != j ==> r[k] == h[k]
    ensures multiset(r) == multiset(h)
  {
    h[i := h[j]][j := h[i]]
  }

  method SiftUp<T>(h0: seq<Item<T>>, pos: nat) returns (h: seq<Item<T>>)
    requires pos < |h0| && HeapButUp(h0, pos)
    ensures IsHeap(h) && |h| == |h0| && multiset(h) == multiset(h0)
  {
    h := h0;
    var p: nat := pos;
    while p > 0 && Before(h[p], h[Parent(p)])
      invariant p < |h| == |h0| && HeapButUp(h, p)
      invariant multiset(h) == multiset(h0)
    {
      h, p := SwapUp(h, p);
    }
  }

  method SwapUp<T>(h: seq<Item<T>>, p: nat) returns (r: seq<Item<T>>, q: nat)
    requires 0 < p < |h| && HeapButUp(h, p) && Before(h[p], h[Parent(p)])
    ensures q == Parent(p) && |r| == |h| && HeapButUp(r, q) && multiset(r) == multiset(h)
  {
    q := Parent(p);
    r := Swap(h, p, q);
    assert EdgeOk(h, q);
    forall i: nat | i < |r| && i != q ensures EdgeOk(r, i) {
      if i > 0 { assert i == p || EdgeOk(h, i); }
    }
    if q > 0 {
      forall i: nat | 0 < i < |r| && Parent(i) == q ensures !Before(r[i], r[Parent(q)]) {
        assert i == p || EdgeOk(h, i);
      }
    }
  }

  /** One level down: the smaller child of p takes p's place. */
  method SwapDown<T>(h: seq<Item<T>>, p: nat) returns (r: seq<Item<T>>, c: nat)
    requires 2 * p + 1 < |h| && HeapButHole(h, p)
    ensures p < c < |h| == |r| && HeapButHole(r, c) && multiset(r) == multiset(h)
  {
    c := 2 * p + 1;
    if c + 1 < |h| && !Before(h[c], h[c + 1]) {
      c := c + 1;
    }
    assert Parent(c) == p;
    r := Swap(h, p, c);
    forall i: nat | 0 < i < |r| && i != c && Parent(i) != c ensures EdgeOk(r, i) {
      if i != p && Parent(i) != p { assert EdgeOk(h, i); }
    }
    forall i: nat | 0 < i < |r| && Parent(i) == c ensures !Before(r[i], r[p]) {
      assert EdgeOk(h, i);
    }
  }

  method Push<T>(h0: seq<Item<T>>, x: Item<T>) returns (h: seq<Item<T>>)
    requires IsHeap(h0)
    ensures IsHeap(h) && multiset(h) == multiset(h0) + multiset{x}
  {
    h := h0 + [x];
    forall i: nat | i < |h0| ensures EdgeOk(h, i) {
      assert EdgeOk(h0, i);
    }
    h := SiftUp(h, |h0|);
  }

  method Pop<T>(h0: seq<Item<T>>) returns (x: Item<T>, h: seq<Item<T>>)
    requires IsHeap(h0) && h0 != []
    ensures x == h0[0] && (forall y :: y in h0 ==> !Before(y, x))
    ensures IsHeap(h) && multiset(h0) == multiset(h) + multiset{x}
  {
    x := h0[0];
    forall y | y in h0 ensures !Before(y, x) {
      var i: nat :| i < |h0| && h0[i] == y;
      RootIsLeast(h0, i);
    }
    var last := h0[|h0| - 1];
    h := h0[..|h0| - 1];
    assert h0 == h + [last];
    if h != [] {
      h := h[0 := last];
      forall i: nat | 0 < i < |h| && Parent(i) != 0 ensures EdgeOk(h, i) {
        assert EdgeOk(h0, i);
      }
      var p: nat := 0;
      while 2 * p + 1 < |h|
        invariant p < |h| == |h0| - 1 && HeapButHole(h, p)
        invariant multiset(h0) == multiset(h) + multiset{x}
        decreases |h| - p
      {
        h, p := SwapDown(h, p);
      }
      h := SiftUp(h, p);
    }
  }
}
