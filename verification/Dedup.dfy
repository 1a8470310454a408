/** The duplicate detector as the server runs it: a cache object, two counters,
    and one locked operation. A ghost history of verdicts ties every reachable
    detector to a run of DedupSpec. */
module Dedup {
  import opened Wrappers
  import opened DedupSpec
  import Nmea

  /** The time-to-live cache, by contract: which live entry a full cache gives up
      is left open. */
  class TtlCache {
    const maxSize: nat
    const ttl: int
    var entries: map<Key, Entry>

    constructor (maxSize: nat, ttl: int)
      ensures this.maxSize == maxSize && this.ttl == ttl && entries == map[]
    {
      this.maxSize, this.ttl := maxSize, ttl;
      entries := map[];
    }

    method Get(key: Key, now: int) returns (r: Option<int>)
      ensures r == if key in entries && Live(entries[key].storedAt, now, ttl)
                   then Some(entries[key].arrival) else None
      ensures r.Some? <==> key in entries && now < entries[key].storedAt + ttl
    {
      if key in entries && Live(entries[key].storedAt, now, ttl) {
        return Some(entries[key].arrival);
      }
      return None;
    }

    method Set(key: Key, value: int, now: int)
      requires maxSize >= 1
      modifies this`entries
      ensures Stored(old(entries), key, Entry(value, now), ttl, maxSize, entries)
      ensures key in entries && entries[key] == Entry(value, now)
      ensures forall k :: k in entries && k != key ==>
        k in old(entries) && entries[k] == old(entries)[k] && now < entries[k].storedAt + ttl
    {
      var kept := Unexpired(entries, now, ttl);
      var e := Entry(value, now);
      if |kept| >= maxSize {
        assert kept.Keys != {};
        var victim :| victim in kept;
        entries := (kept - {victim})[key := e];
      } else {
        entries := kept[key := e];
      }
    }
  }

  /** The duplicates among the first n verdicts. */
  ghost function DuplicateCount(h: seq<Verdict>, n: nat): nat
    requires n <= |h|
  {
    if n == 0 then 0 else DuplicateCount(h, n - 1) + (if h[n - 1].isNew then 0 else 1)
  }

  lemma {:induction false} DuplicateCountAppend(h: seq<Verdict>, v: Verdict, n: nat)
    requires n <= |h|
    ensures DuplicateCount(h + [v], n) == DuplicateCount(h, n)
  {
    if n > 0 { DuplicateCountAppend(h, v, n - 1); }
  }

  class Deduper {
    const cache: TtlCache
    var seen: nat
    var duplicates: nat
    ghost var history: seq<Verdict>
    ghost var states: seq<map<Key, Entry>>

    ghost predicate Valid()
      reads this, cache
    {
      && cache.maxSize >= 1
      && Runs(history, states, cache.ttl, cache.maxSize)
      && cache.entries == states[|history|]
      && seen == |history|
      && duplicates == DuplicateCount(history, |history|)
    }

    /** The latest reading of the cache clock is not after now. */
    ghost predicate ClockAt(now: int)
      reads this
    {
      history != [] ==> history[|history| - 1].storedAt <= now
    }

    constructor (ttl: int, maxEntries: nat)
      requires maxEntries >= 1
      ensures Valid() && history == [] && fresh(cache)
      ensures cache.ttl == ttl && cache.maxSize == maxEntries
    {
      cache := new TtlCache(maxEntries, ttl);
      seen, duplicates := 0, 0;
      history, states := [], [map[]];
    }

    /** The locked half of `check`: the cache clock is read once by the look-up and
        once by the store, and only ever moves forward; arrival times are
        independent of it. */
    method CheckKey(key: Key, arrival: int, readAt: int, storedAt: int) returns (isNew: bool, effective: int)
      requires Valid() && ClockAt(readAt) && readAt <= storedAt
      modifies this, cache
      ensures Valid() && ClockAt(storedAt)
      ensures history == old(history) + [Verdict(key, arrival, readAt, storedAt, isNew, effective)]
      ensures states == old(states) + [cache.entries]
      ensures !isNew ==> Scan(old(history), key, readAt, cache.ttl) == Some(effective)
      ensures isNew ==> effective == arrival
      ensures isNew && Scan(old(history), key, readAt, cache.ttl).Some? ==>
        Burst(old(history), LastNew(old(history), key).value, cache.ttl, cache.maxSize)
      // a copy is new once ttl has passed since every one judged new
      ensures (forall i :: 0 <= i < |old(history)| && old(history)[i].isNew && old(history)[i].key == key ==>
                readAt >= old(history)[i].storedAt + cache.ttl) ==> isNew
      // and a duplicate has one less than ttl before
      ensures !isNew ==> exists i: nat :: RecentAt(old(history), i, key, readAt, cache.ttl)
                                     && effective == old(history)[i].arrival
    {
      seen := seen + 1;
      var existing := cache.Get(key, readAt);
      if existing.None? {
        cache.Set(key, arrival, storedAt);
        isNew, effective := true, arrival;
      } else {
        duplicates := duplicates + 1;
        isNew, effective := false, existing.value;
      }
      ghost var v := Verdict(key, arrival, readAt, storedAt, isNew, effective);
      RunExtends(history, states, v, cache.entries, cache.ttl, cache.maxSize);
      history := history + [v];
      states := states + [cache.entries];
    }

    /** `check`: whether the sentence is new, and the arrival time of its earliest
        copy; the key is its canonical form. */
    method Check(sentence: string, arrival: int, readAt: int, storedAt: int)
      returns (isNew: bool, effective: int)
      requires Valid() && ClockAt(readAt) && readAt <= storedAt
      modifies this, cache
      ensures Valid() && ClockAt(storedAt)
      ensures history == old(history)
        + [Verdict(Nmea.Canonicalise(sentence), arrival, readAt, storedAt, isNew, effective)]
      ensures states == old(states) + [cache.entries]
      ensures !isNew ==>
        Scan(old(history), Nmea.Canonicalise(sentence), readAt, cache.ttl) == Some(effective)
      ensures isNew ==> effective == arrival
      ensures isNew && Scan(old(history), Nmea.Canonicalise(sentence), readAt, cache.ttl).Some? ==>
        Burst(old(history), LastNew(old(history), Nmea.Canonicalise(sentence)).value, cache.ttl, cache.maxSize)
      ensures var key := Nmea.Canonicalise(sentence);
        (forall i :: 0 <= i < |old(history)| && old(history)[i].isNew && old(history)[i].key == key ==>
          readAt >= old(history)[i].storedAt + cache.ttl) ==> isNew
      ensures !isNew ==> exists i: nat :: RecentAt(old(history), i, Nmea.Canonicalise(sentence), readAt, cache.ttl)
                                     && effective == old(history)[i].arrival
    {
      isNew, effective := CheckKey(Nmea.Canonicalise(sentence), arrival, readAt, storedAt);
    }
  }

  lemma RunExtends(h: seq<Verdict>, cs: seq<map<Key, Entry>>, v: Verdict, c: map<Key, Entry>, ttl: int, max: nat)
    requires max >= 1 && Runs(h, cs, ttl, max) && Checked(cs[|h|], v, ttl, max, c)
    requires h != [] ==> h[|h| - 1].storedAt <= v.readAt
    ensures Runs(h + [v], cs + [c], ttl, max)
    ensures !v.isNew ==> Scan(h, v.key, v.readAt, ttl) == Some(v.effective)
    ensures v.isNew && Scan(h, v.key, v.readAt, ttl).Some? ==> Burst(h, LastNew(h, v.key).value, ttl, max)
    ensures (forall i :: 0 <= i < |h| && h[i].isNew && h[i].key == v.key ==> v.readAt >= h[i].storedAt + ttl) ==>
      v.isNew
    ensures !v.isNew ==> exists i: nat :: RecentAt(h, i, v.key, v.readAt, ttl) && v.effective == h[i].arrival
    ensures DuplicateCount(h + [v], |h| + 1) == DuplicateCount(h, |h|) + if v.isNew then 0 else 1
  {
    DuplicateCountAppend(h, v, |h|);
    RunOneMore(h, cs, v, c, ttl, max);
    CacheRefinesScan(h + [v], cs + [c], |h|, ttl, max);
    assert (h + [v])[..|h|] == h;
    if !v.isNew {
      assert h[..|h|] == h;
      ScanIsRecent(h, |h|, v.key, v.readAt, ttl);
    }
  }
}
