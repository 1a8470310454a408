/** The forwarder manager: reconciles the running workers with the configured
    endpoints, and fans sentences out. */
module Manager {
  import opened WorkerSpec
  import opened Forwarder
  import opened Ids

  /** `_endpoint_match`: the settings whose change calls for a restart. */
  predicate Match(a: Endpoint, b: Endpoint) {
    a.protocol == b.protocol && a.host == b.host && a.port == b.port && a.path == b.path
    && a.name == b.name && a.enabled == b.enabled && a.broadcast == b.broadcast
  }

  /** Two endpoints match exactly when they differ at most in their id and dates. */
  lemma MatchSparesDates(a: Endpoint, b: Endpoint)
    ensures Match(a, b) <==> a == b.(id := a.id, createdAt := a.createdAt, updatedAt := a.updatedAt)
  {
  }

  /** `{ep.id: ep for ep in endpoints if ep.enabled}`: the last one wins. */
  function Wanted(endpoints: seq<Endpoint>): map<int, Endpoint> {
    if endpoints == [] then map[] else
      var n := |endpoints| - 1;
      var last := endpoints[n];
      if last.enabled then Wanted(endpoints[..n])[last.id := last] else Wanted(endpoints[..n])
  }

  /** With unique ids the wanted map is exactly the enabled endpoints. */
  lemma {:induction false} WantedIsEnabled(endpoints: seq<Endpoint>)
    requires forall i, j :: 0 <= i < j < |endpoints| ==> endpoints[i].id != endpoints[j].id
    ensures forall i :: 0 <= i < |endpoints| && endpoints[i].enabled ==>
      endpoints[i].id in Wanted(endpoints) && Wanted(endpoints)[endpoints[i].id] == endpoints[i]
    ensures forall id :: id in Wanted(endpoints) ==>
      Wanted(endpoints)[id] in endpoints && Wanted(endpoints)[id].enabled && Wanted(endpoints)[id].id == id
  {
    if endpoints != [] {
      var n := |endpoints| - 1;
      WantedIsEnabled(endpoints[..n]);
      forall i | 0 <= i < |endpoints| && endpoints[i].enabled
        ensures endpoints[i].id in Wanted(endpoints) && Wanted(endpoints)[endpoints[i].id] == endpoints[i]
      {
        if i < n { assert endpoints[..n][i] == endpoints[i]; }
      }
    }
  }

  /** Of several enabled endpoints with one id the last one is wanted. */
  lemma {:induction false} LastIsWanted(endpoints: seq<Endpoint>, k: nat)
    requires k < |endpoints| && endpoints[k].enabled
    requires forall j :: k < j < |endpoints| && endpoints[j].enabled ==> endpoints[j].id != endpoints[k].id
    ensures endpoints[k].id in Wanted(endpoints) && Wanted(endpoints)[endpoints[k].id] == endpoints[k]
  {
    if k < |endpoints| - 1 { LastIsWanted(endpoints[..|endpoints| - 1], k); }
  }

  lemma {:induction false} WantedDomain(endpoints: seq<Endpoint>, id: int)
    ensures id in Wanted(endpoints) <==>
      exists k :: 0 <= k < |endpoints| && endpoints[k].enabled && endpoints[k].id == id
  {
    if endpoints != [] {
      var n := |endpoints| - 1;
      WantedDomain(endpoints[..n], id);
      if exists k :: 0 <= k < n && endpoints[..n][k].enabled && endpoints[..n][k].id == id {
        var k :| 0 <= k < n && endpoints[..n][k].enabled && endpoints[..n][k].id == id;
        assert endpoints[k].enabled && endpoints[k].id == id;
      }
      if exists k :: 0 <= k < |endpoints| && endpoints[k].enabled && endpoints[k].id == id {
        var k :| 0 <= k < |endpoints| && endpoints[k].enabled && endpoints[k].id == id;
        assert k < n ==> endpoints[..n][k].enabled && endpoints[..n][k].id == id;
      }
    }
  }

  /** Whether sync leaves worker i running. */
  ghost predicate Keeps(workers: map<int, EndpointWorker>, wanted: map<int, Endpoint>, i: int) {
    i in workers && i in wanted && Match(wanted[i], workers[i].ep)
  }

  /** The running workers are exactly the wanted ones, with matching settings. */
  ghost predicate InSync(workers: map<int, EndpointWorker>, wanted: map<int, Endpoint>) {
    && (forall i :: i in workers ==> Keeps(workers, wanted, i))
    && (forall i :: i in wanted ==> i in workers)
  }

  class ForwarderManager {
    const queueSize: nat
    var workers: map<int, EndpointWorker>
    var order: seq<int>                  // the keys of workers as the dict lists them

    ghost predicate Valid()
      reads this, workers.Values
    {
      && queueSize >= 1
      && Listed(workers, order)
      && (forall i :: i in workers ==> workers[i].cap == queueSize && !workers[i].stopping)
    }

    constructor (queueSize: nat)
      requires queueSize >= 1
      ensures Valid() && workers == map[] && this.queueSize == queueSize
    {
      this.queueSize, workers, order := queueSize, map[], [];
    }

    /** `sync`: stop what is gone, disabled or changed, then start what is missing. */
    method Sync(endpoints: seq<Endpoint>)
      requires Valid()
      modifies this, workers.Values
      ensures Valid()
      // exactly the enabled endpoints run, each with matching settings
      ensures InSync(workers, Wanted(endpoints))
      ensures forall i :: i in workers <==> i in Wanted(endpoints)
      ensures forall i :: i in workers ==>
        var ep, wanted := workers[i].ep, Wanted(endpoints)[i];
        && ep.host == wanted.host && ep.port == wanted.port && ep.protocol == wanted.protocol && ep.path == wanted.path
        && ep.name == wanted.name && ep.enabled == wanted.enabled && ep.broadcast == wanted.broadcast
      // a matching worker is the same object, untouched
      ensures forall i :: Keeps(old(workers), Wanted(endpoints), i) ==>
        workers[i] == old(workers)[i] && unchanged(workers[i])
      // every other former worker is stopped and gone
      ensures forall i :: i in old(workers) && !Keeps(old(workers), Wanted(endpoints), i) ==>
        GivenUp(old(workers[i].View()), old(workers)[i].View())
      ensures forall i, k :: i in old(workers) && !Keeps(old(workers), Wanted(endpoints), i) && k in workers ==>
        workers[k] != old(workers)[i]
      // and every other running worker is new
      ensures forall i :: i in workers && !Keeps(old(workers), Wanted(endpoints), i) ==>
        fresh(workers[i]) && workers[i].ep == Wanted(endpoints)[i] && workers[i].View() == Fresh(queueSize)
      // so a second sync with the same list changes nothing
      ensures InSync(old(workers), Wanted(endpoints)) ==>
        order == old(order) && forall i :: i in workers <==> i in old(workers)
    {
      var wanted := Wanted(endpoints);
      StopOthers(wanted);
      StartMissing(endpoints, wanted);
    }

    method StopOthers(wanted: map<int, Endpoint>)
      requires Valid()
      modifies this, workers.Values
      ensures Valid()
      ensures forall i :: i in workers <==> Keeps(old(workers), wanted, i)
      ensures forall i :: Keeps(old(workers), wanted, i) ==>
        workers[i] == old(workers)[i] && unchanged(workers[i])
      ensures forall i :: i in old(workers) && !Keeps(old(workers), wanted, i) ==>
        GivenUp(old(workers[i].View()), old(workers)[i].View())
      ensures (forall i :: i in old(workers) ==> Keeps(old(workers), wanted, i)) ==> order == old(order)
    {
      ghost var before := workers;
      var existing := order;
      for k := 0 to |existing|
        invariant forall i :: i in workers <==> (i in before && (i !in existing[..k] || Keeps(before, wanted, i)))
        invariant forall i :: i in workers ==> workers[i] == before[i] && unchanged(workers[i])
        invariant forall i :: i in existing[..k] && !Keeps(before, wanted, i) ==>
          GivenUp(old(workers[i].View()), before[i].View())
      {
        var id := existing[k];
        NextId(existing, k);
        assert id in before && id in workers;
        var w := workers[id];
        if id !in wanted || !Match(wanted[id], w.ep) {
          w.Stop();
          workers := workers - {id};
        }
      }
      assert existing[..|existing|] == existing;
      order := Present(existing, workers);
      PresentLists(existing, workers);
    }

    /** A new worker for an id that has none. */
    method Launch(id: int, ep: Endpoint)
      requires Listed(workers, order) && id !in workers
      modifies this`workers, this`order
      ensures Listed(workers, order) && order == old(order) + [id]
      ensures id in workers && fresh(workers[id]) && workers[id].ep == ep && workers[id].View() == Fresh(queueSize)
      ensures workers == old(workers)[id := workers[id]]
    {
      var w := new EndpointWorker(ep, queueSize);
      AddId(order, id);
      workers, order := workers[id := w], order + [id];
    }

    method StartMissing(endpoints: seq<Endpoint>, wanted: map<int, Endpoint>)
      requires Valid() && wanted == Wanted(endpoints)
      modifies this
      ensures Valid()
      ensures forall i :: i in workers <==> i in old(workers) || i in wanted
      ensures forall i :: i in old(workers) ==> workers[i] == old(workers)[i]
      ensures forall i :: i in workers && i !in old(workers) ==>
        fresh(workers[i]) && workers[i].ep == wanted[i] && workers[i].View() == Fresh(queueSize)
      ensures (forall i :: i in wanted ==> i in old(workers)) ==> order == old(order)
    {
      ghost var before, beforeOrder := workers, order;
      for k := 0 to |endpoints|
        invariant Listed(workers, order)
        invariant forall i :: i in workers ==> i in before || i in wanted
        invariant forall j :: 0 <= j < k && endpoints[j].enabled ==> endpoints[j].id in workers
        invariant forall i :: i in before ==> i in workers && workers[i] == before[i]
        invariant forall i :: i in workers && i !in before ==>
          fresh(workers[i]) && workers[i].ep == wanted[i] && workers[i].View() == Fresh(queueSize)
        invariant (forall i :: i in wanted ==> i in before) ==> order == beforeOrder
      {
        var id := endpoints[k].id;
        WantedDomain(endpoints, id);
        if endpoints[k].enabled && id !in workers {
          Launch(id, wanted[id]);
        }
      }
      forall i | i in wanted ensures i in workers {
        WantedDomain(endpoints, i);
      }
    }

    /** `dispatch`: one put per worker running when it was called. gaps gives the
        other threads' steps around each worker's get. */
    method Dispatch(sentence: string, gaps: map<int, (seq<Step>, seq<Step>)>)
      requires Valid() && forall i :: i in workers ==> i in gaps
      requires forall i :: i in workers ==>
        workers[i].producer == Idle && OutsidePut(gaps[i].0) && OutsidePut(gaps[i].1)
      modifies workers.Values
      ensures forall i :: i in workers ==>
        workers[i].View() == Run(old(workers[i].View()),
            PutSteps(old(workers[i].View()), sentence, gaps[i].0, gaps[i].1))
    {
      for k := 0 to |order|
        invariant forall i :: i in workers && i !in order[..k] ==> unchanged(workers[i])
        invariant forall i :: i in order[..k] ==>
          workers[i].View() == Run(old(workers[i].View()),
              PutSteps(old(workers[i].View()), sentence, gaps[i].0, gaps[i].1))
      {
        var id := order[k];
        NextId(order, k);
        workers[id].Put(sentence, gaps[id].0, gaps[id].1);
      }
      assert order[..|order|] == order;
    }
  }

  lemma NextId(ids: seq<int>, k: nat)
    requires Distinct(ids) && k < |ids|
    ensures ids[..k + 1] == ids[..k] + [ids[k]] && ids[k] !in ids[..k] && ids[k] in ids
    ensures Distinct(ids[..k])
  {
    forall i: nat | i < k ensures ids[..k][i] != ids[k] {
      assert !Twice(ids, i, k);
    }
    forall i: nat, j: nat | i < j < k ensures !Twice(ids[..k], i, j) {
      assert !Twice(ids, i, j);
    }
  }

  lemma AddId(ids: seq<int>, id: int)
    requires Distinct(ids) && id !in ids
    ensures Distinct(ids + [id])
  {
    var more := ids + [id];
    forall i: nat, j: nat | i < j < |more| ensures !Twice(more, i, j) {
      if j < |ids| { assert !Twice(ids, i, j); } else { assert more[i] in ids; }
    }
  }

  /** The listing of a dict after some keys were deleted. */
  function Present(ids: seq<int>, workers: map<int, EndpointWorker>): seq<int> {
    if ids == [] then [] else
      var n := |ids| - 1;
      Present(ids[..n], workers) + (if ids[n] in workers then [ids[n]] else [])
  }

  lemma {:induction false} PresentLists(ids: seq<int>, workers: map<int, EndpointWorker>)
    requires Distinct(ids)
    ensures Distinct(Present(ids, workers))
    ensures forall i :: i in Present(ids, workers) <==> i in ids && i in workers
    ensures (forall i :: i in ids ==> i in workers) ==> Present(ids, workers) == ids
  {
    if ids != [] {
      var n := |ids| - 1;
      NextId(ids, n);
      assert ids == ids[..n] + [ids[n]];
      PresentLists(ids[..n], workers);
      var front := Present(ids[..n], workers);
      if ids[n] in workers {
        AddId(front, ids[n]);
      } else {
        assert front + [] == front;
      }
      if forall i :: i in ids ==> i in workers {
        assert ids[n] in workers;
      }
    }
  }

  /** ids lists the keys, once each, and no two keys share a worker. */
  ghost predicate Listed(workers: map<int, EndpointWorker>, ids: seq<int>) {
    && Distinct(ids)
    && (forall i :: i in workers <==> i in ids)
    && (forall i, j :: i in workers && j in workers && i != j ==> workers[i] != workers[j])
  }
}
