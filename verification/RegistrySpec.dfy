/** The node registry on values: what each locked operation does to the table of
    logical nodes, and the registry-wide totals. */
module RegistrySpec {
  import opened Wrappers

  datatype Node = Node(key: string, host: string, sourceId: Option<string>, firstSeen: int, lastSeen: int,
                       connectedAt: int, messages: nat, invalid: nat, bytesRx: nat, sessions: nat, active: nat,
                       lastPeer: string)

  type Table = map<string, Node>

  function NewNode(key: string, host: string, sourceId: Option<string>, now: int, connectedAt: int): Node {
    Node(key, host, sourceId, now, now, connectedAt, 0, 0, 0, 0, 0, "")
  }

  /** `source_id or host`. */
  function SessionKey(host: string, sourceId: Option<string>): string {
    if sourceId.Some? && sourceId.value != "" then sourceId.value else host
  }

  function Started(m: Table, peer: string, host: string, sourceId: Option<string>, now: int): Table {
    var key := SessionKey(host, sourceId);
    var n := if key in m then m[key] else NewNode(key, host, sourceId, now, now);
    m[key := n.(lastPeer := peer, host := host, sessions := n.sessions + 1, active := n.active + 1,
                connectedAt := now, lastSeen := now)]
  }

  function Ended(m: Table, key: string): Table {
    if key in m && m[key].active > 0 then m[key := m[key].(active := m[key].active - 1)] else m
  }

  /** `set_source_id`; None is the KeyError of `self._nodes[old_key]`. */
  function Upgraded(m: Table, oldKey: string, sourceId: string, now: int): Option<Table> {
    if oldKey == sourceId || sourceId in m then
      if sourceId in m then Some(m) else None
    else if oldKey in m then
      Some((m - {oldKey})[sourceId := m[oldKey].(key := sourceId, sourceId := Some(sourceId))])
    else
      Some(m[sourceId := NewNode(sourceId, "", Some(sourceId), now, 0)])
  }

  function Touched(m: Table, key: string, nbytes: nat, msg: bool, invalid: bool, now: int): Table {
    if key !in m then m else
      var n := m[key];
      m[key := n.(lastSeen := now, bytesRx := n.bytesRx + nbytes,
                  messages := n.messages + (if msg then 1 else 0), invalid := n.invalid + (if invalid then 1 else 0))]
  }

  predicate Stale(n: Node, maxAge: int, now: int) {
    n.active == 0 && now - n.lastSeen > maxAge
  }

  function Pruned(m: Table, maxAge: int, now: int): Table {
    if maxAge <= 0 then m else map k | k in m && !Stale(m[k], maxAge, now) :: m[k]
  }

  // ----------------------------------------------------- entry by entry

  /** Pruning removes an entry exactly when it has no open session and was last seen
      more than a positive age limit ago; every other entry stays as it is. */
  lemma PrunedExactly(m: Table, maxAge: int, now: int, k: string)
    requires k in m
    ensures k in Pruned(m, maxAge, now) <==> maxAge <= 0 || m[k].active > 0 || now - m[k].lastSeen <= maxAge
    ensures k in Pruned(m, maxAge, now) ==> Pruned(m, maxAge, now)[k] == m[k]
    ensures Pruned(m, maxAge, now).Keys <= m.Keys
  {
  }

  /** An entry is there as before, or missing as before. */
  predicate Untouched(m: Table, u: Table, k: string) {
    (k in m <==> k in u) && (k in m ==> u[k] == m[k])
  }

  /** No operation touches an entry other than those it names. */
  lemma OperationsAreLocal(m: Table, peer: string, host: string, sourceId: Option<string>, key: string, other: string,
                           nbytes: nat, msg: bool, invalid: bool, now: int, k: string)
    ensures k != SessionKey(host, sourceId) ==> Untouched(m, Started(m, peer, host, sourceId, now), k)
    ensures k != key ==> Untouched(m, Ended(m, key), k)
    ensures k != key ==> Untouched(m, Touched(m, key, nbytes, msg, invalid, now), k)
    ensures k != key && k != other && Upgraded(m, key, other, now).Some? ==>
      Untouched(m, Upgraded(m, key, other, now).value, k)
  {
  }

  /** The counters of an entry, or zeros. */
  function Counts(m: Table, k: string, c: Counter): nat {
    if k in m then Get(m[k], c) else 0
  }

  /** A session starts under its source id, or its host without one: one session and
      one active session more there, no other count, and seen now. */
  lemma StartedEntry(m: Table, peer: string, host: string, sourceId: Option<string>, now: int, c: Counter)
    ensures var k := SessionKey(host, sourceId); var u := Started(m, peer, host, sourceId, now);
      && (sourceId == None || sourceId == Some("") ==> k == host)
      && (sourceId != None && sourceId != Some("") ==> sourceId == Some(k))
      && k in u && u[k].lastSeen == u[k].connectedAt == now && u[k].lastPeer == peer && u[k].host == host
      && Counts(u, k, c) == Counts(m, k, c) + (if c == Sessions || c == Active then 1 else 0)
      && (if k in m then u[k].firstSeen == m[k].firstSeen && u[k].sourceId == m[k].sourceId
          else u[k].firstSeen == now && u[k].sourceId == sourceId)
  {
  }

  /** Counting goes to the entry of the key if there is one, and nowhere else. */
  lemma TouchedEntry(m: Table, key: string, nbytes: nat, msg: bool, invalid: bool, now: int, c: Counter)
    ensures key !in m ==> Touched(m, key, nbytes, msg, invalid, now) == m
    ensures key in m ==>
      var u := Touched(m, key, nbytes, msg, invalid, now);
      && key in u && u[key].lastSeen == now && u[key].firstSeen == m[key].firstSeen
      && u[key].sourceId == m[key].sourceId
      && Get(u[key], c) == Get(m[key], c) + (match c
                                             case Bytes => nbytes
                                             case Messages => if msg then 1 else 0
                                             case Invalid => if invalid then 1 else 0
                                             case _ => 0)
  {
  }

  /** An upgrade to a new id moves the entry with all its counts, or makes an empty
      one; an upgrade to a known id leaves the table alone. */
  lemma UpgradedEntry(m: Table, oldKey: string, id: string, now: int, c: Counter)
    ensures id in m ==> Upgraded(m, oldKey, id, now) == Some(m)
    ensures id !in m && oldKey != id ==>
      Upgraded(m, oldKey, id, now).Some? &&
      var u := Upgraded(m, oldKey, id, now).value;
      && oldKey !in u && id in u && u[id].key == id && u[id].sourceId == Some(id)
      && Get(u[id], c) == Counts(m, oldKey, c)
      && (if oldKey in m then u[id].firstSeen == m[oldKey].firstSeen && u[id].lastSeen == m[oldKey].lastSeen
                              && u[id].connectedAt == m[oldKey].connectedAt && u[id].host == m[oldKey].host
                              && u[id].lastPeer == m[oldKey].lastPeer
          else u[id].firstSeen == u[id].lastSeen == now && u[id].host == "" && u[id].connectedAt == 0)
  {
  }

  /** Ending a session takes one active session from the entry of the key, if it has
      one, and changes nothing else in it. */
  lemma EndedEntry(m: Table, key: string, c: Counter)
    ensures var u := Ended(m, key);
      && u.Keys == m.Keys
      && (key in m ==>
            && Get(u[key], c) == (if c == Active && m[key].active > 0 then m[key].active - 1 else Get(m[key], c))
            && u[key].lastSeen == m[key].lastSeen && u[key].firstSeen == m[key].firstSeen
            && u[key].host == m[key].host && u[key].sourceId == m[key].sourceId)
  {
  }

  // ------------------------------------------------------------- invariants

  /** Every entry sits under its own key, and counts no more open sessions than
      it ever had. */
  ghost predicate WellFormed(m: Table) {
    forall k :: k in m ==> m[k].key == k && m[k].active <= m[k].sessions
  }

  /** An entry with a source id sits under that id. */
  ghost predicate WellNamed(m: Table) {
    forall k :: k in m && m[k].sourceId.Some? && m[k].sourceId.value != "" ==> m[k].sourceId.value == k
  }

  lemma OperationsKeepWellFormed(m: Table, peer: string, host: string, sourceId: Option<string>, key: string,
                                 other: string, nbytes: nat, msg: bool, invalid: bool, maxAge: int, now: int)
    requires WellFormed(m)
    ensures WellFormed(Started(m, peer, host, sourceId, now))
    ensures WellFormed(Ended(m, key))
    ensures Upgraded(m, key, other, now).Some? ==> WellFormed(Upgraded(m, key, other, now).value)
    ensures WellFormed(Touched(m, key, nbytes, msg, invalid, now))
    ensures WellFormed(Pruned(m, maxAge, now))
  {
  }

  lemma OperationsKeepWellNamed(m: Table, peer: string, host: string, sourceId: Option<string>, key: string,
                                other: string, nbytes: nat, msg: bool, invalid: bool, maxAge: int, now: int)
    requires WellNamed(m)
    ensures WellNamed(Started(m, peer, host, sourceId, now))
    ensures WellNamed(Ended(m, key))
    ensures Upgraded(m, key, other, now).Some? ==> WellNamed(Upgraded(m, key, other, now).value)
    ensures WellNamed(Touched(m, key, nbytes, msg, invalid, now))
    ensures WellNamed(Pruned(m, maxAge, now))
  {
  }

  // ----------------------------------------------------------------- totals

  datatype Counter = Messages | Invalid | Bytes | Sessions | Active

  function Get(n: Node, c: Counter): nat {
    match c
    case Messages => n.messages
    case Invalid => n.invalid
    case Bytes => n.bytesRx
    case Sessions => n.sessions
    case Active => n.active
  }

  ghost function AnyKey(m: Table): (k: string)
    requires m != map[]
    ensures k in m
  {
    var k :| k in m; k
  }

  ghost function Total(m: Table, c: Counter): nat
    decreases m.Keys
  {
    if m == map[] then 0 else
      var k := AnyKey(m);
      Get(m[k], c) + Total(m - {k}, c)
  }

  lemma {:induction false} TotalWithout(m: Table, k: string, c: Counter)
    requires k in m
    ensures Total(m, c) == Get(m[k], c) + Total(m - {k}, c)
    decreases m.Keys
  {
    var x := AnyKey(m);
    if x != k {
      TotalWithout(m - {x}, k, c);
      TotalWithout(m - {k}, x, c);
      assert m - {x} - {k} == m - {k} - {x};
    }
  }

  lemma TotalUpdate(m: Table, k: string, n: Node, c: Counter)
    ensures Total(m[k := n], c) == Total(m, c) + Get(n, c) - (if k in m then Get(m[k], c) else 0)
  {
    TotalWithout(m[k := n], k, c);
    if k in m {
      TotalWithout(m, k, c);
      assert m[k := n] - {k} == m - {k};
    } else {
      assert m[k := n] - {k} == m;
    }
  }

  /** set_source_id conserves every registry-wide total whenever it returns, and
      it fails to return exactly when the session already sits under that id and
      the entry is gone. */
  lemma UpgradeConserves(m: Table, oldKey: string, sourceId: string, now: int, c: Counter)
    ensures Upgraded(m, oldKey, sourceId, now).None? <==> oldKey == sourceId && sourceId !in m
    ensures Upgraded(m, oldKey, sourceId, now).Some? ==>
      Total(Upgraded(m, oldKey, sourceId, now).value, c) == Total(m, c)
      && sourceId in Upgraded(m, oldKey, sourceId, now).value
  {
    if oldKey != sourceId && sourceId !in m {
      if oldKey in m {
        var n := m[oldKey].(key := sourceId, sourceId := Some(sourceId));
        TotalWithout(m, oldKey, c);
        TotalUpdate(m - {oldKey}, sourceId, n, c);
      } else {
        TotalUpdate(m, sourceId, NewNode(sourceId, "", Some(sourceId), now, 0), c);
      }
    }
  }

  /** Starting and ending a session move the active total by at most one. */
  lemma SessionTotals(m: Table, peer: string, host: string, sourceId: Option<string>, key: string, now: int)
    ensures Total(Started(m, peer, host, sourceId, now), Active) == Total(m, Active) + 1
    ensures Total(m, Active) - 1 <= Total(Ended(m, key), Active) <= Total(m, Active)
  {
    var k := SessionKey(host, sourceId);
    TotalUpdate(m, k, Started(m, peer, host, sourceId, now)[k], Active);
    if key in m && m[key].active > 0 {
      TotalUpdate(m, key, m[key].(active := m[key].active - 1), Active);
    }
  }

  lemma {:induction false} TotalKept(m: Table, p: Table, c: Counter)
    requires forall k :: k in p ==> k in m && p[k] == m[k]
    requires forall k :: k in m && k !in p ==> Get(m[k], c) == 0
    ensures Total(p, c) == Total(m, c)
    decreases m.Keys
  {
    if m == map[] {
      assert p == map[];
    } else {
      var k := AnyKey(m);
      TotalKept(m - {k}, p - {k}, c);
      if k in p {
        TotalWithout(p, k, c);
      } else {
        assert p - {k} == p;
      }
    }
  }

  /** Pruning never touches a node with an open session, so the active total
      stays; touching does not change it either. */
  lemma MaintenanceTotals(m: Table, key: string, nbytes: nat, msg: bool, invalid: bool, maxAge: int, now: int)
    ensures Total(Pruned(m, maxAge, now), Active) == Total(m, Active)
    ensures Total(Touched(m, key, nbytes, msg, invalid, now), Active) == Total(m, Active)
  {
    TotalKept(m, Pruned(m, maxAge, now), Active);
    if key in m { TotalUpdate(m, key, Touched(m, key, nbytes, msg, invalid, now)[key], Active); }
  }
}
