/** The duplicate detector on values: a bounded time-to-live cache next to the
    full history of verdicts it is meant to summarise. */
module DedupSpec {
  import opened Wrappers

  type Key = string

  /** The value is the arrival time of the first copy; the entry lives for ttl
      from the moment it was stored. */
  datatype Entry = Entry(arrival: int, storedAt: int)

  /** One call of check: its inputs, with the cache clock as read by the look-up
      and by the store, and its answer. */
  datatype Verdict = Verdict(key: Key, arrival: int, readAt: int, storedAt: int, isNew: bool, effective: int)

  predicate Live(storedAt: int, now: int, ttl: int) {
    now < storedAt + ttl
  }

  function Unexpired(c: map<Key, Entry>, now: int, ttl: int): map<Key, Entry> {
    map k | k in c && Live(c[k].storedAt, now, ttl) :: c[k]
  }

  /** Storing a key: expired entries go first, and if the cache is still full one
      live entry of the cache's choice goes too. */
  ghost predicate Stored(c: map<Key, Entry>, key: Key, e: Entry, ttl: int, max: nat, c': map<Key, Entry>) {
    var kept := Unexpired(c, e.storedAt, ttl);
    if |kept| >= max
    then exists victim :: victim in kept && c' == (kept - {victim})[key := e]
    else c' == kept[key := e]
  }

  /** What one check does to the cache. */
  ghost predicate Checked(c: map<Key, Entry>, v: Verdict, ttl: int, max: nat, c': map<Key, Entry>) {
    && v.readAt <= v.storedAt
    && if v.key in c && Live(c[v.key].storedAt, v.readAt, ttl)
       then !v.isNew && v.effective == c[v.key].arrival && c' == c
       else v.isNew && v.effective == v.arrival && Stored(c, v.key, Entry(v.arrival, v.storedAt), ttl, max, c')
  }

  // ------------------------------------------------------------- the history

  ghost predicate Clocked(h: seq<Verdict>) {
    && (forall i :: 0 <= i < |h| ==> h[i].readAt <= h[i].storedAt)
    && (forall i, j {:trigger Later(h, i, j)} :: 0 <= i < j < |h| ==> Later(h, i, j))
  }

  ghost predicate Later(h: seq<Verdict>, i: nat, j: nat)
    requires i < |h| && j < |h|
  {
    h[i].storedAt <= h[j].readAt
  }

  /** The most recent verdict that judged the key new. */
  ghost function LastNew(h: seq<Verdict>, key: Key): (r: Option<nat>)
    ensures r.Some? ==> r.value < |h| && h[r.value].key == key && h[r.value].isNew
    ensures forall i :: 0 <= i < |h| && h[i].key == key && h[i].isNew ==> r.Some? && i <= r.value
  {
    if h == [] then None
    else if h[|h| - 1].key == key && h[|h| - 1].isNew then Some(|h| - 1)
    else LastNew(h[..|h| - 1], key)
  }

  /** Scanning the whole history: the arrival time of the last copy judged new,
      if that was less than ttl ago. */
  ghost function Scan(h: seq<Verdict>, key: Key, now: int, ttl: int): Option<int> {
    var last := LastNew(h, key);
    if last.Some? && Live(h[last.value].storedAt, now, ttl) then Some(h[last.value].arrival) else None
  }

  /** The keys judged new within the ttl window that ends at verdict m. */
  ghost function NewWithin(h: seq<Verdict>, m: nat, ttl: int): set<Key>
    requires m < |h|
  {
    set j | 0 <= j <= m && h[j].isNew && Live(h[j].storedAt, h[m].storedAt, ttl) :: h[j].key
  }

  /** Verdict m found key, judged new at i, still alive, next to at least max
      other distinct keys judged new within the same ttl window. */
  ghost predicate BurstAt(h: seq<Verdict>, i: nat, m: nat, ttl: int, max: nat) {
    && i < m < |h| && h[m].isNew
    && Live(h[i].storedAt, h[m].storedAt, ttl)
    && |NewWithin(h, m, ttl) - {h[i].key}| >= max
  }

  ghost predicate Burst(h: seq<Verdict>, i: nat, ttl: int, max: nat) {
    exists m :: BurstAt(h, i, m, ttl, max)
  }

  // --------------------------------------------------------------- invariant

  /** The cache holds only keys of the history, with their last new verdict; a
      key it has lost is expired or fell to a burst. */
  ghost predicate Summarises(c: map<Key, Entry>, h: seq<Verdict>, ttl: int, max: nat) {
    && |c| <= max
    && (forall k :: k in c ==>
          && LastNew(h, k).Some?
          && c[k] == Entry(h[LastNew(h, k).value].arrival, h[LastNew(h, k).value].storedAt))
    && (forall k :: LastNew(h, k).Some? && k !in c ==> Forgotten(h, LastNew(h, k).value, ttl, max))
  }

  ghost predicate Forgotten(h: seq<Verdict>, i: nat, ttl: int, max: nat)
    requires i < |h|
  {
    !Live(h[i].storedAt, h[|h| - 1].storedAt, ttl) || Burst(h, i, ttl, max)
  }

  lemma LastNewAppend(h: seq<Verdict>, v: Verdict, k: Key)
    ensures LastNew(h + [v], k) == if v.key == k && v.isNew then Some(|h|) else LastNew(h, k)
  {
    assert (h + [v])[..|h|] == h;
  }

  lemma NewWithinAppend(h: seq<Verdict>, v: Verdict, m: nat, ttl: int)
    requires m < |h|
    ensures NewWithin(h + [v], m, ttl) == NewWithin(h, m, ttl)
  {
    forall k | k in NewWithin(h, m, ttl) ensures k in NewWithin(h + [v], m, ttl) {
      var j :| 0 <= j <= m && h[j].isNew && Live(h[j].storedAt, h[m].storedAt, ttl) && h[j].key == k;
      assert (h + [v])[j] == h[j];
    }
    forall k | k in NewWithin(h + [v], m, ttl) ensures k in NewWithin(h, m, ttl) {
      var j :| 0 <= j <= m && (h + [v])[j].isNew
        && Live((h + [v])[j].storedAt, (h + [v])[m].storedAt, ttl) && (h + [v])[j].key == k;
      assert h[j].key == k;
    }
  }

  lemma BurstAppend(h: seq<Verdict>, v: Verdict, i: nat, ttl: int, max: nat)
    requires i < |h| && Burst(h, i, ttl, max)
    ensures Burst(h + [v], i, ttl, max)
  {
    var m :| BurstAt(h, i, m, ttl, max);
    NewWithinAppend(h, v, m, ttl);
    assert BurstAt(h + [v], i, m, ttl, max);
  }

  lemma ForgottenAppend(h: seq<Verdict>, v: Verdict, i: nat, ttl: int, max: nat)
    requires i < |h| && Clocked(h + [v]) && Forgotten(h, i, ttl, max)
    ensures Forgotten(h + [v], i, ttl, max)
  {
    if Burst(h, i, ttl, max) {
      BurstAppend(h, v, i, ttl, max);
    } else {
      var g := h + [v];
      assert Later(g, |h| - 1, |h|);
    }
  }

  lemma KeptIsNewWithin(c: map<Key, Entry>, h: seq<Verdict>, v: Verdict, k: Key, ttl: int, max: nat)
    requires Summarises(c, h, ttl, max) && k in Unexpired(c, v.storedAt, ttl)
    ensures LastNew(h, k).Some? && Live(h[LastNew(h, k).value].storedAt, v.storedAt, ttl)
    ensures k in NewWithin(h + [v], |h|, ttl)
  {
    var j := LastNew(h, k).value;
    assert (h + [v])[j] == h[j] && (h + [v])[|h|] == v;
  }

  lemma SwapSize<A>(s: set<A>, gone: A, come: A)
    requires gone in s && come !in s
    ensures |s - {gone} + {come}| == |s|
  {
    assert s == (s - {gone}) + {gone};
  }

  /** Evicting a live entry is only possible inside a burst. */
  lemma EvictionNeedsBurst(c: map<Key, Entry>, h: seq<Verdict>, v: Verdict, victim: Key, ttl: int, max: nat)
    requires Summarises(c, h, ttl, max) && v.isNew && Clocked(h + [v])
    requires var kept := Unexpired(c, v.storedAt, ttl); |kept| >= max && victim in kept && v.key !in kept
    ensures LastNew(h, victim).Some? && BurstAt(h + [v], LastNew(h, victim).value, |h|, ttl, max)
  {
    var g, m := h + [v], |h|;
    var kept := Unexpired(c, v.storedAt, ttl).Keys;
    KeptIsNewWithin(c, h, v, victim, ttl, max);
    var i := LastNew(h, victim).value;
    assert g[i] == h[i] && g[m] == v;
    assert Later(g, i, m);
    assert v.key in NewWithin(g, m, ttl) by {
      assert g[m].isNew && Live(g[m].storedAt, g[m].storedAt, ttl);
    }
    forall k | k in kept ensures k in NewWithin(g, m, ttl) {
      KeptIsNewWithin(c, h, v, k, ttl, max);
    }
    SwapSize(kept, victim, v.key);
    SubsetSize(kept - {victim} + {v.key}, NewWithin(g, m, ttl) - {victim});
  }

  lemma SubsetSize<A>(a: set<A>, b: set<A>)
    requires a <= b
    ensures |a| <= |b|
  {
    assert b == a + (b - a);
  }

  lemma HitSummarises(c: map<Key, Entry>, h: seq<Verdict>, v: Verdict, ttl: int, max: nat)
    requires Summarises(c, h, ttl, max) && !v.isNew && Clocked(h + [v])
    ensures Summarises(c, h + [v], ttl, max)
  {
    forall k ensures LastNew(h + [v], k) == LastNew(h, k) {
      LastNewAppend(h, v, k);
    }
    forall k | LastNew(h, k).Some? && k !in c ensures Forgotten(h + [v], LastNew(h, k).value, ttl, max) {
      ForgottenAppend(h, v, LastNew(h, k).value, ttl, max);
    }
  }

  /** A key the store pushes out is expired or evicted. */
  lemma LostKeyForgotten(c: map<Key, Entry>, h: seq<Verdict>, v: Verdict, k: Key, ttl: int, max: nat, c': map<Key,
      Entry>)
    requires Summarises(c, h, ttl, max) && v.isNew && Clocked(h + [v]) && LastNew(h, k).Some?
    requires Stored(c, v.key, Entry(v.arrival, v.storedAt), ttl, max, c')
    requires v.key !in Unexpired(c, v.storedAt, ttl) && k != v.key && k !in c'
    ensures Forgotten(h + [v], LastNew(h, k).value, ttl, max)
  {
    var i := LastNew(h, k).value;
    assert (h + [v])[i] == h[i] && (h + [v])[|h|] == v;
    if k !in c {
      ForgottenAppend(h, v, i, ttl, max);
    } else if Live(h[i].storedAt, v.storedAt, ttl) {
      EvictionNeedsBurst(c, h, v, k, ttl, max);
    }
  }

  lemma StoreSummarises(c: map<Key, Entry>, h: seq<Verdict>, v: Verdict, ttl: int, max: nat, c': map<Key, Entry>)
    requires max >= 1 && Summarises(c, h, ttl, max) && v.isNew && Clocked(h + [v])
    requires Stored(c, v.key, Entry(v.arrival, v.storedAt), ttl, max, c')
    requires v.key !in Unexpired(c, v.storedAt, ttl)
    ensures Summarises(c', h + [v], ttl, max)
  {
    var g := h + [v];
    forall k ensures LastNew(g, k) == if v.key == k then Some(|h|) else LastNew(h, k) {
      LastNewAppend(h, v, k);
    }
    StoredSize(c, v.key, Entry(v.arrival, v.storedAt), ttl, max, c');
    forall k | LastNew(g, k).Some? && k !in c' ensures Forgotten(g, LastNew(g, k).value, ttl, max) {
      LostKeyForgotten(c, h, v, k, ttl, max, c');
    }
    forall k | k in c'
      ensures LastNew(g, k).Some?
      ensures c'[k] == Entry(g[LastNew(g, k).value].arrival, g[LastNew(g, k).value].storedAt)
    {
      if k != v.key { assert g[LastNew(h, k).value] == h[LastNew(h, k).value]; }
    }
  }

  lemma CheckSummarises(c: map<Key, Entry>, h: seq<Verdict>, v: Verdict, ttl: int, max: nat, c': map<Key, Entry>)
    requires max >= 1 && Summarises(c, h, ttl, max) && Checked(c, v, ttl, max, c') && Clocked(h + [v])
    ensures Summarises(c', h + [v], ttl, max)
  {
    if v.isNew {
      StoreSummarises(c, h, v, ttl, max, c');
    } else {
      HitSummarises(c, h, v, ttl, max);
    }
  }

  lemma StoredSize(c: map<Key, Entry>, key: Key, e: Entry, ttl: int, max: nat, c': map<Key, Entry>)
    requires max >= 1 && |c| <= max && Stored(c, key, e, ttl, max, c')
    requires key !in Unexpired(c, e.storedAt, ttl)
    ensures |c'| <= max && key in c' && c'[key] == e
    ensures forall k :: k in c' && k != key ==> k in c && c'[k] == c[k]
  {
    var kept := Unexpired(c, e.storedAt, ttl);
    SubsetSize(kept.Keys, c.Keys);
    assert |kept| == |kept.Keys| && |c| == |c.Keys|;
    if |kept| >= max {
      var victim :| victim in kept && c' == (kept - {victim})[key := e];
      assert c'.Keys == kept.Keys - {victim} + {key};
      SwapSize(kept.Keys, victim, key);
    } else {
      assert c'.Keys == kept.Keys + {key};
    }
    assert |c'| == |c'.Keys|;
  }

  /** A single verdict against the scan: a duplicate is one the scan reports,
      with the same arrival time; a new verdict agrees too unless the key fell to
      a burst. */
  lemma VerdictAgainstScan(c: map<Key, Entry>, h: seq<Verdict>, v: Verdict, ttl: int, max: nat, c': map<Key, Entry>)
    requires Summarises(c, h, ttl, max) && Checked(c, v, ttl, max, c') && Clocked(h + [v])
    ensures !v.isNew ==> Scan(h, v.key, v.readAt, ttl) == Some(v.effective)
    ensures v.isNew ==> v.effective == v.arrival
    ensures v.isNew && Scan(h, v.key, v.readAt, ttl).Some? ==> Burst(h, LastNew(h, v.key).value, ttl, max)
  {
    if h != [] {
      var g := h + [v];
      assert Later(g, |h| - 1, |h|);
    }
  }

  // ------------------------------------------------------------------- runs

  /** Any run of checks from the empty cache, with the cache states in between. */
  ghost predicate Runs(h: seq<Verdict>, cs: seq<map<Key, Entry>>, ttl: int, max: nat) {
    && |cs| == |h| + 1 && cs[0] == map[] && Clocked(h)
    && forall i {:trigger StepAt(h, cs, i, ttl, max)} :: 0 <= i < |h| ==> StepAt(h, cs, i, ttl, max)
  }

  ghost predicate StepAt(h: seq<Verdict>, cs: seq<map<Key, Entry>>, i: nat, ttl: int, max: nat)
    requires i < |h| && |cs| == |h| + 1
  {
    Checked(cs[i], h[i], ttl, max, cs[i + 1])
  }

  lemma RunOneMore(h: seq<Verdict>, cs: seq<map<Key, Entry>>, v: Verdict, c: map<Key, Entry>, ttl: int, max: nat)
    requires Runs(h, cs, ttl, max) && Checked(cs[|h|], v, ttl, max, c)
    requires h != [] ==> h[|h| - 1].storedAt <= v.readAt
    ensures Runs(h + [v], cs + [c], ttl, max)
  {
    var g, ds := h + [v], cs + [c];
    forall i: nat | i < |g| ensures StepAt(g, ds, i, ttl, max) {
      if i < |h| { assert StepAt(h, cs, i, ttl, max); }
    }
    forall i: nat, j: nat | i < j < |g| ensures Later(g, i, j) {
      if j < |h| {
        assert Later(h, i, j);
      } else if i < |h| - 1 {
        assert Later(h, i, |h| - 1);
      }
    }
  }

  lemma ClockedPrefix(h: seq<Verdict>, n: nat)
    requires Clocked(h) && n <= |h|
    ensures Clocked(h[..n])
  {
    forall i: nat, j: nat | i < j < n ensures Later(h[..n], i, j) {
      assert Later(h, i, j);
    }
  }

  lemma {:induction false} RunSummarises(h: seq<Verdict>, cs: seq<map<Key, Entry>>, n: nat, ttl: int, max: nat)
    requires max >= 1 && Runs(h, cs, ttl, max) && n <= |h|
    ensures Summarises(cs[n], h[..n], ttl, max)
  {
    if n > 0 {
      RunSummarises(h, cs, n - 1, ttl, max);
      assert h[..n] == h[..n - 1] + [h[n - 1]];
      ClockedPrefix(h, n);
      assert StepAt(h, cs, n - 1, ttl, max);
      CheckSummarises(cs[n - 1], h[..n - 1], h[n - 1], ttl, max, cs[n]);
    }
  }

  /** The bounded cache against a scan of the full history, at every check of
      every run. */
  lemma CacheRefinesScan(h: seq<Verdict>, cs: seq<map<Key, Entry>>, j: nat, ttl: int, max: nat)
    requires max >= 1 && Runs(h, cs, ttl, max) && j < |h|
    ensures !h[j].isNew ==> Scan(h[..j], h[j].key, h[j].readAt, ttl) == Some(h[j].effective)
    ensures h[j].isNew ==> h[j].effective == h[j].arrival
    ensures h[j].isNew && Scan(h[..j], h[j].key, h[j].readAt, ttl).Some? ==>
      Burst(h[..j], LastNew(h[..j], h[j].key).value, ttl, max)
  {
    RunSummarises(h, cs, j, ttl, max);
    assert h[..j + 1] == h[..j] + [h[j]];
    ClockedPrefix(h, j + 1);
    assert StepAt(h, cs, j, ttl, max);
    VerdictAgainstScan(cs[j], h[..j], h[j], ttl, max, cs[j + 1]);
  }

  /** Two copies both judged new are at least ttl apart on the cache clock, or a
      burst came between. */
  lemma NewVerdictsApart(h: seq<Verdict>, cs: seq<map<Key, Entry>>, i: nat, j: nat, ttl: int, max: nat)
    requires max >= 1 && Runs(h, cs, ttl, max) && i < j < |h|
    requires h[i].isNew && h[j].isNew && h[i].key == h[j].key
    ensures h[j].readAt >= h[i].storedAt + ttl
      || exists m, b :: i <= m < b < j && h[m].key == h[i].key && BurstAt(h[..j], m, b, ttl, max)
  {
    CacheRefinesScan(h, cs, j, ttl, max);
    assert h[..j][i] == h[i];
    var m := LastNew(h[..j], h[j].key).value;
    assert i < m ==> Later(h, i, m);
    if Scan(h[..j], h[j].key, h[j].readAt, ttl).Some? {
      var b :| BurstAt(h[..j], m, b, ttl, max);
    }
  }

  /** Verdict i judged the key new less than ttl before now. */
  ghost predicate RecentAt(h: seq<Verdict>, i: nat, key: Key, now: int, ttl: int) {
    i < |h| && h[i].key == key && h[i].isNew && now < h[i].storedAt + ttl
  }

  lemma ScanIsRecent(h: seq<Verdict>, j: nat, key: Key, now: int, ttl: int)
    requires j <= |h| && Scan(h[..j], key, now, ttl).Some?
    ensures var i := LastNew(h[..j], key).value;
      i < j && RecentAt(h, i, key, now, ttl) && Scan(h[..j], key, now, ttl) == Some(h[i].arrival)
  {
  }

  /** Once ttl has passed since every copy judged new, the next copy is new again,
      under its own arrival time. */
  lemma ExpiredIsNew(h: seq<Verdict>, cs: seq<map<Key, Entry>>, j: nat, ttl: int, max: nat)
    requires max >= 1 && Runs(h, cs, ttl, max) && j < |h|
    requires forall i :: 0 <= i < j && h[i].isNew && h[i].key == h[j].key ==> h[j].readAt >= h[i].storedAt + ttl
    ensures h[j].isNew && h[j].effective == h[j].arrival
  {
    CacheRefinesScan(h, cs, j, ttl, max);
    if Scan(h[..j], h[j].key, h[j].readAt, ttl).Some? {
      ScanIsRecent(h, j, h[j].key, h[j].readAt, ttl);
    }
  }

  /** A duplicate has a copy judged new less than ttl before, and gets its arrival
      time. */
  lemma DuplicateIsRecent(h: seq<Verdict>, cs: seq<map<Key, Entry>>, j: nat, ttl: int, max: nat)
    requires max >= 1 && Runs(h, cs, ttl, max) && j < |h| && !h[j].isNew
    ensures exists i: nat :: RecentAt(h, i, h[j].key, h[j].readAt, ttl) && i < j && h[j].effective == h[i].arrival
  {
    CacheRefinesScan(h, cs, j, ttl, max);
    ScanIsRecent(h, j, h[j].key, h[j].readAt, ttl);
  }

  /** While a copy judged new is recent, the scan finds one. */
  lemma RecentIsScanned(h: seq<Verdict>, j: nat, i: nat, key: Key, now: int, ttl: int)
    requires Clocked(h) && i < j <= |h| && RecentAt(h, i, key, now, ttl)
    ensures Scan(h[..j], key, now, ttl).Some?
  {
    assert h[..j][i] == h[i];
    var last := LastNew(h[..j], key).value;
    if i < last { assert Later(h, i, last); }
  }

  lemma UncrowdedAgrees(h: seq<Verdict>, cs: seq<map<Key, Entry>>, j: nat, ttl: int, max: nat)
    requires max >= 1 && Runs(h, cs, ttl, max) && j < |h| && Uncrowded(h[..j], ttl, max)
    ensures h[j].isNew <==> Scan(h[..j], h[j].key, h[j].readAt, ttl).None?
  {
    UncrowdedVerdict(h, cs, j, ttl, max);
  }

  /** In an uncrowded run a copy is a duplicate exactly when some copy was judged new
      less than ttl before. */
  lemma DuplicateIffRecent(h: seq<Verdict>, cs: seq<map<Key, Entry>>, j: nat, ttl: int, max: nat)
    requires max >= 1 && Runs(h, cs, ttl, max) && j < |h| && Uncrowded(h[..j], ttl, max)
    ensures !h[j].isNew <==> exists i: nat :: i < j && RecentAt(h, i, h[j].key, h[j].readAt, ttl)
  {
    UncrowdedAgrees(h, cs, j, ttl, max);
    if i: nat :| i < j && RecentAt(h, i, h[j].key, h[j].readAt, ttl) {
      RecentIsScanned(h, j, i, h[j].key, h[j].readAt, ttl);
    } else if !h[j].isNew {
      DuplicateIsRecent(h, cs, j, ttl, max);
    }
  }

  // ------------------------------------------- the unbounded reference detector

  datatype Input = Input(key: Key, arrival: int, readAt: int, storedAt: int)

  ghost function ScanVerdict(h: seq<Verdict>, x: Input, ttl: int): Verdict {
    var found := Scan(h, x.key, x.readAt, ttl);
    Verdict(x.key, x.arrival, x.readAt, x.storedAt, found.None?, if found.Some? then found.value else x.arrival)
  }

  /** A detector with no cache at all, which scans everything it has answered. */
  ghost function Reference(xs: seq<Input>, ttl: int): (h: seq<Verdict>)
    ensures |h| == |xs|
  {
    if xs == [] then [] else
      var h := Reference(xs[..|xs| - 1], ttl);
      h + [ScanVerdict(h, xs[|xs| - 1], ttl)]
  }

  /** No ttl window ever holds more than max distinct keys judged new. */
  ghost predicate Uncrowded(h: seq<Verdict>, ttl: int, max: nat) {
    forall m :: 0 <= m < |h| && h[m].isNew ==> |NewWithin(h, m, ttl)| <= max
  }

  lemma UncrowdedHasNoBurst(h: seq<Verdict>, i: nat, ttl: int, max: nat)
    requires Uncrowded(h, ttl, max) && i < |h| && h[i].isNew
    ensures !Burst(h, i, ttl, max)
  {
    forall m: nat ensures !BurstAt(h, i, m, ttl, max) {
      if i < m < |h| && h[m].isNew && Live(h[i].storedAt, h[m].storedAt, ttl) {
        assert h[i].key in NewWithin(h, m, ttl);
        RemoveSize(NewWithin(h, m, ttl), h[i].key);
      }
    }
  }

  lemma RemoveSize<A>(s: set<A>, x: A)
    requires x in s
    ensures |s - {x}| == |s| - 1
  {
  }

  lemma UncrowdedPrefix(h: seq<Verdict>, n: nat, ttl: int, max: nat)
    requires Uncrowded(h, ttl, max) && n <= |h|
    ensures Uncrowded(h[..n], ttl, max)
  {
    forall m | 0 <= m < n && h[..n][m].isNew ensures |NewWithin(h[..n], m, ttl)| <= max {
      NewWithinPrefix(h, n, m, ttl);
    }
  }

  lemma NewWithinPrefix(h: seq<Verdict>, n: nat, m: nat, ttl: int)
    requires m < n <= |h|
    ensures NewWithin(h[..n], m, ttl) == NewWithin(h, m, ttl)
  {
    forall j | 0 <= j <= m ensures h[..n][j] == h[j] {
    }
  }

  ghost predicate Answers(h: seq<Verdict>, xs: seq<Input>) {
    && |h| == |xs|
    && forall i :: 0 <= i < |h| ==>
         h[i].key == xs[i].key && h[i].arrival == xs[i].arrival
         && h[i].readAt == xs[i].readAt && h[i].storedAt == xs[i].storedAt
  }

  lemma UncrowdedVerdict(h: seq<Verdict>, cs: seq<map<Key, Entry>>, j: nat, ttl: int, max: nat)
    requires max >= 1 && Runs(h, cs, ttl, max) && j < |h| && Uncrowded(h[..j], ttl, max)
    ensures h[j] == ScanVerdict(h[..j], Input(h[j].key, h[j].arrival, h[j].readAt, h[j].storedAt), ttl)
  {
    CacheRefinesScan(h, cs, j, ttl, max);
    var last := LastNew(h[..j], h[j].key);
    if last.Some? { UncrowdedHasNoBurst(h[..j], last.value, ttl, max); }
  }

  /** When the reference run is uncrowded, every bounded run on the same inputs gives
      exactly its verdicts, whatever the cache chooses to evict. */
  lemma UncrowdedRunsMatchReference(xs: seq<Input>, h: seq<Verdict>, cs: seq<map<Key, Entry>>, ttl: int, max: nat)
    requires max >= 1 && Runs(h, cs, ttl, max) && Answers(h, xs)
    requires Uncrowded(Reference(xs, ttl), ttl, max)
    ensures h == Reference(xs, ttl)
  {
    var ref := Reference(xs, ttl);
    ReferenceScans(xs, ttl);
    MatchUpTo(xs, ref, h, cs, |h|, ttl, max);
    assert h[..|h|] == h && ref[..|h|] == ref;
  }

  ghost predicate ScansAt(ref: seq<Verdict>, xs: seq<Input>, i: nat, ttl: int)
    requires i < |ref| && i < |xs|
  {
    ref[i] == ScanVerdict(ref[..i], xs[i], ttl)
  }

  lemma MatchNext(xs: seq<Input>, ref: seq<Verdict>, h: seq<Verdict>, cs: seq<map<Key, Entry>>, n: nat, ttl: int,
      max: nat)
    requires max >= 1 && Runs(h, cs, ttl, max) && Answers(h, xs) && n < |h| == |ref|
    requires Uncrowded(ref, ttl, max) && ScansAt(ref, xs, n, ttl) && h[..n] == ref[..n]
    ensures h[n] == ref[n]
  {
    UncrowdedPrefix(ref, n, ttl, max);
    UncrowdedVerdict(h, cs, n, ttl, max);
  }

  lemma {:induction false} MatchUpTo(xs: seq<Input>, ref: seq<Verdict>, h: seq<Verdict>, cs: seq<map<Key, Entry>>,
                                     n: nat, ttl: int, max: nat)
    requires max >= 1 && Runs(h, cs, ttl, max) && Answers(h, xs) && n <= |h| == |ref|
    requires Uncrowded(ref, ttl, max)
    requires forall i {:trigger ScansAt(ref, xs, i, ttl)} :: 0 <= i < |ref| ==> ScansAt(ref, xs, i, ttl)
    ensures h[..n] == ref[..n]
  {
    if n > 0 {
      MatchUpTo(xs, ref, h, cs, n - 1, ttl, max);
      MatchNext(xs, ref, h, cs, n - 1, ttl, max);
      TakeNext(h, ref, n - 1);
    }
  }

  lemma TakeNext<A>(s: seq<A>, t: seq<A>, n: nat)
    requires n < |s| && n < |t| && s[..n] == t[..n] && s[n] == t[n]
    ensures s[..n + 1] == t[..n + 1]
  {
    assert s[..n + 1] == s[..n] + [s[n]] && t[..n + 1] == t[..n] + [t[n]];
  }

  lemma {:induction false} ReferenceScans(xs: seq<Input>, ttl: int)
    ensures forall i {:trigger ScansAt(Reference(xs, ttl), xs, i, ttl)} :: 0 <= i < |xs| ==>
      ScansAt(Reference(xs, ttl), xs, i, ttl)
  {
    if xs != [] {
      var m: nat := |xs| - 1;
      ReferenceScans(xs[..m], ttl);
      var ref, shorter := Reference(xs, ttl), Reference(xs[..m], ttl);
      assert ref == shorter + [ScanVerdict(shorter, xs[m], ttl)];
      forall i: nat | i < |xs| ensures ScansAt(ref, xs, i, ttl) {
        if i < m {
          assert ScansAt(shorter, xs[..m], i, ttl);
          assert ref[..i] == shorter[..i];
        } else {
          assert ref[..m] == shorter;
        }
      }
    }
  }

  lemma SwapOnly(a: Key, b: Key, t: int, ttl: int)
    requires a != b && ttl > 0
    ensures Checked(map[a := Entry(t, t)], Verdict(b, t, t, t, true, t), ttl, 1, map[b := Entry(t, t)])
  {
    var c: map<Key, Entry> := map[a := Entry(t, t)];
    assert Unexpired(c, t, ttl) == c && a in c;
    assert (c - {a})[b := Entry(t, t)] == map[b := Entry(t, t)];
  }

  lemma ScanOfTwo(a: Verdict, b: Verdict, now: int, ttl: int)
    requires a.isNew && b.key != a.key && Live(a.storedAt, now, ttl)
    ensures Scan([a, b], a.key, now, ttl) == Some(a.arrival)
  {
    assert [a, b][..1] == [a];
    assert LastNew([a], a.key) == Some(0);
  }

  /** Outside an uncrowded run the bound shows: with room for one entry, a second key
      makes the cache judge the first one new again at once. */
  lemma EvictionRepeats(h: seq<Verdict>, first: Key, second: Key, t: int, ttl: int)
    requires first != second && ttl > 0
    requires h == [Verdict(first, t, t, t, true, t), Verdict(second, t, t, t, true, t),
        Verdict(first, t, t, t, true, t)]
    ensures exists cs :: Runs(h, cs, ttl, 1)
    ensures Scan(h[..2], first, t, ttl) == Some(t)
  {
    var one, two: map<Key, Entry> := map[first := Entry(t, t)], map[second := Entry(t, t)];
    SwapOnly(first, second, t, ttl);
    SwapOnly(second, first, t, ttl);
    ThreeSteps(h, [map[], one, two, one], ttl);
    ScanOfTwo(h[0], h[1], t, ttl);
    assert h[..2] == [h[0], h[1]];
  }

  lemma ThreeSteps(h: seq<Verdict>, cs: seq<map<Key, Entry>>, ttl: int)
    requires |h| == 3 && |cs| == 4 && cs[0] == map[]
    requires forall i :: 0 <= i < 3 ==>
      h[i].readAt == h[i].storedAt == h[0].readAt && h[i].isNew && h[i].effective == h[i].arrival
    requires cs[1] == map[h[0].key := Entry(h[0].arrival, h[0].storedAt)]
    requires Checked(cs[1], h[1], ttl, 1, cs[2]) && Checked(cs[2], h[2], ttl, 1, cs[3])
    ensures Runs(h, cs, ttl, 1)
  {
    assert Unexpired(cs[0], h[0].storedAt, ttl) == map[];
    assert StepAt(h, cs, 0, ttl, 1) && StepAt(h, cs, 1, ttl, 1) && StepAt(h, cs, 2, ttl, 1);
  }
}
