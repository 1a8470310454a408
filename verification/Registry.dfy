/** The node registry as the server runs it: one mutable NodeInfo object for each
    logical node, shared with the session that holds it and moved between keys.
    Every method is one critical section of the registry's lock, and is proved
    against RegistrySpec. */
module Registry {
  import opened Wrappers
  import opened RegistrySpec

  class NodeInfo {
    var key: string
    var host: string
    var sourceId: Option<string>
    var firstSeen: int
    var lastSeen: int
    var connectedAt: int
    var messages: nat
    var invalid: nat
    var bytesRx: nat
    var sessions: nat
    var active: nat
    var lastPeer: string

    constructor (key: string, host: string, sourceId: Option<string>, now: int, connectedAt: int)
      ensures Record() == NewNode(key, host, sourceId, now, connectedAt)
    {
      this.key, this.host, this.sourceId := key, host, sourceId;
      firstSeen, lastSeen, this.connectedAt := now, now, connectedAt;
      messages, invalid, bytesRx, sessions, active, lastPeer := 0, 0, 0, 0, 0, "";
    }

    ghost function Record(): Node
      reads this
    {
      Node(key, host, sourceId, firstSeen, lastSeen, connectedAt, messages, invalid, bytesRx, sessions, active,
          lastPeer)
    }

    method Open(peer: string, host: string, now: int)
      modifies this
      ensures Record() == old(Record()).(lastPeer := peer, host := host, sessions := old(sessions) + 1,
                                         active := old(active) + 1, connectedAt := now, lastSeen := now)
    {
      lastPeer := peer;
      this.host := host;
      sessions := sessions + 1;
      active := active + 1;
      connectedAt := now;
      lastSeen := now;
    }

    method Close()
      requires active > 0
      modifies this
      ensures Record() == old(Record()).(active := old(active) - 1)
    {
      active := active - 1;
    }

    method Rename(id: string)
      modifies this
      ensures Record() == old(Record()).(key := id, sourceId := Some(id))
    {
      key := id;
      sourceId := Some(id);
    }

    method Count(nbytes: nat, msg: bool, invalid: bool, now: int)
      modifies this
      ensures Record() == old(Record()).(lastSeen := now, bytesRx := old(bytesRx) + nbytes,
                                         messages := old(messages) + (if msg then 1 else 0),
                                         invalid := old(this.invalid) + (if invalid then 1 else 0))
    {
      lastSeen := now;
      bytesRx := bytesRx + nbytes;
      if msg {
        messages := messages + 1;
      }
      if invalid {
        this.invalid := this.invalid + 1;
      }
    }
  }

  /** The key an upgrade takes away. */
  function TakenKey(keys: set<string>, oldKey: string, sourceId: string): set<string> {
    if oldKey != sourceId && sourceId !in keys && oldKey in keys then {oldKey} else {}
  }

  lemma StartedIs(m: Table, mid: Table, peer: string, host: string, sourceId: Option<string>, now: int)
    requires var key := SessionKey(host, sourceId); mid == if key in m then m
        else m[key := NewNode(key, host, sourceId, now, now)]
    ensures var key := SessionKey(host, sourceId);
      key in mid && Started(m, peer, host, sourceId, now)
      == mid[key := mid[key].(lastPeer := peer, host := host, sessions := mid[key].sessions + 1,
                              active := mid[key].active + 1, connectedAt := now, lastSeen := now)]
  {
  }

  class NodeRegistry {
    var nodes: map<string, NodeInfo>
    /** Every entry ever handed out, pruned ones included. */
    ghost var repr: set<NodeInfo>

    ghost predicate Valid()
      reads this, repr
    {
      forall k :: k in nodes ==> nodes[k] in repr && nodes[k].key == k && nodes[k].active <= nodes[k].sessions
    }

    ghost function View(): Table
      requires Valid()
      reads this, repr
    {
      map k | k in nodes :: nodes[k].Record()
    }

    lemma ViewIs(m: Table)
      requires Valid() && nodes.Keys == m.Keys && forall k :: k in nodes ==> nodes[k].Record() == m[k]
      ensures View() == m
    {
    }

    constructor ()
      ensures Valid() && View() == map[] && repr == {}
    {
      nodes, repr := map[], {};
    }

    /** The entry under the key, made if there is none. */
    method SetDefault(key: string, host: string, sourceId: Option<string>, now: int,
        connectedAt: int) returns (info: NodeInfo)
      requires Valid()
      modifies this
      ensures Valid() && old(repr) <= repr && fresh(repr - old(repr))
      ensures View() == if key in old(View()) then old(View())
                        else old(View())[key := NewNode(key, host, sourceId, now, connectedAt)]
      ensures nodes == old(nodes)[key := info]
      ensures if key in old(nodes) then nodes == old(nodes) else fresh(info)
    {
      if key in nodes {
        return nodes[key];
      }
      info := new NodeInfo(key, host, sourceId, now, connectedAt);
      ghost var before := View();
      nodes := nodes[key := info];
      repr := repr + {info};
      ViewIs(before[key := info.Record()]);
    }

    method OpenAt(key: string, peer: string, host: string, now: int)
      requires Valid() && key in nodes
      modifies nodes[key]
      ensures Valid()
      ensures var n := old(View())[key];
        View() == old(View())[key := n.(lastPeer := peer, host := host, sessions := n.sessions + 1,
                                        active := n.active + 1, connectedAt := now, lastSeen := now)]
    {
      nodes[key].Open(peer, host, now);
    }

    method OnSessionStart(peer: string, host: string, sourceId: Option<string>, now: int) returns (info: NodeInfo)
      requires Valid()
      modifies this, repr
      ensures Valid() && old(repr) <= repr && fresh(repr - old(repr))
      ensures View() == Started(old(View()), peer, host, sourceId, now)
      ensures nodes == old(nodes)[SessionKey(host, sourceId) := info]
      ensures SessionKey(host, sourceId) in old(nodes) ==> nodes == old(nodes)
      ensures forall o :: o in old(repr) && o != info ==> unchanged(o)
    {
      var key := SessionKey(host, sourceId);
      ghost var before := View();
      info := SetDefault(key, host, sourceId, now, now);
      StartedIs(before, View(), peer, host, sourceId, now);
      OpenAt(key, peer, host, now);
    }

    method OnSessionEnd(key: string)
      requires Valid()
      modifies repr
      ensures Valid() && View() == Ended(old(View()), key)
      ensures forall o :: o in repr && !(key in nodes && o == nodes[key]) ==> unchanged(o)
    {
      if key in nodes && nodes[key].active > 0 {
        nodes[key].Close();
      }
    }

    /** The same object under a new key. */
    method Move(oldKey: string, sourceId: string) returns (info: NodeInfo)
      requires Valid() && oldKey in nodes && sourceId !in nodes
      modifies this`nodes, repr
      ensures Valid() && info == old(nodes)[oldKey] && nodes == (old(nodes) - {oldKey})[sourceId := info]
      ensures View() == (old(View()) - {oldKey})[sourceId := old(View())[oldKey].(key := sourceId,
          sourceId := Some(sourceId))]
      ensures forall o :: o in repr && o != info ==> unchanged(o)
    {
      info := nodes[oldKey];
      nodes := nodes - {oldKey};
      info.Rename(sourceId);
      nodes := nodes[sourceId := info];
    }

    /** None is the KeyError that `_nodes[old_key]` raises. */
    method SetSourceId(oldKey: string, sourceId: string, now: int) returns (r: Option<NodeInfo>)
      requires Valid()
      modifies this, repr
      ensures Valid() && old(repr) <= repr && fresh(repr - old(repr))
      ensures r.None? <==> Upgraded(old(View()), oldKey, sourceId, now).None?
      ensures View() == if r.Some? then Upgraded(old(View()), oldKey, sourceId, now).value else old(View())
      ensures nodes == if r.None? then old(nodes)
          else (old(nodes) - TakenKey(old(nodes).Keys, oldKey, sourceId))[sourceId := r.value]
      ensures sourceId in old(nodes) ==> nodes == old(nodes)
      ensures sourceId !in old(nodes) && oldKey !in old(nodes) && r.Some? ==> fresh(r.value)
      ensures r.Some? && oldKey in TakenKey(old(nodes).Keys, oldKey, sourceId) ==> r.value == old(nodes)[oldKey]
      ensures forall o :: o in old(repr) && (r.None? || o != r.value || sourceId in old(nodes)) ==> unchanged(o)
    {
      if oldKey == sourceId || sourceId in nodes {
        return if sourceId in nodes then Some(nodes[sourceId]) else None;
      }
      var info;
      if oldKey in nodes {
        info := Move(oldKey, sourceId);
      } else {
        info := SetDefault(sourceId, "", Some(sourceId), now, 0);
      }
      return Some(info);
    }

    method Touch(key: string, nbytes: nat, msg: bool, invalid: bool, now: int)
      requires Valid()
      modifies repr
      ensures Valid() && View() == Touched(old(View()), key, nbytes, msg, invalid, now)
      ensures forall o :: o in repr && !(key in nodes && o == nodes[key]) ==> unchanged(o)
      ensures forall o :: o in repr ==> o.sourceId == old(o.sourceId) && o.key == old(o.key)
    {
      if key !in nodes {
        return;
      }
      nodes[key].Count(nbytes, msg, invalid, now);
    }

    method PruneInactive(maxAge: int, now: int) returns (removed: nat)
      requires Valid()
      modifies this`nodes
      ensures Valid() && View() == Pruned(old(View()), maxAge, now)
      ensures removed == |old(nodes)| - |nodes|
    {
      removed := 0;
      if maxAge <= 0 {
        return;
      }
      ghost var before := View();
      var todo := nodes.Keys;
      while todo != {}
        invariant todo <= nodes.Keys <= old(nodes).Keys
        invariant forall k :: k in nodes ==> nodes[k] == old(nodes)[k]
        invariant forall k :: k in before && k !in nodes ==> Stale(before[k], maxAge, now)
        invariant forall k :: k in nodes && k !in todo ==> !Stale(before[k], maxAge, now)
        invariant removed == |old(nodes)| - |nodes|
        decreases todo
      {
        var key :| key in todo;
        todo := todo - {key};
        var n := nodes[key];
        assert before[key] == n.Record();
        if n.active == 0 && now - n.lastSeen > maxAge {
          nodes := nodes - {key};
          removed := removed + 1;
        }
      }
      ViewIs(Pruned(before, maxAge, now));
    }
  }
}
