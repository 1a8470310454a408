/** Whole runs of concurrent sessions over one registry. */
module SessionRuns {
  import opened Wrappers
  import opened RegistrySpec

  /** The registry, and for each open session the key its handler holds. */
  datatype State = State(nodes: Table, open: map<string, string>)

  /** One locked registry operation of some session or of the maintenance thread;
      a session is named by its "ip:port" peer. */
  datatype Event =
    | Start(peer: string, host: string, now: int)
    | End(peer: string)
    | Upgrade(peer: string, sourceId: string, now: int)
    | Touch(key: string, nbytes: nat, msg: bool, invalid: bool, now: int)
    | Prune(maxAge: int, now: int)

  function After(s: State, e: Event): State {
    match e
    case Start(peer, host, now) =>
      if peer in s.open then s else State(Started(s.nodes, peer, host, None, now), s.open[peer := host])
    case End(peer) => if peer in s.open then Closed(s, peer) else s
    case Upgrade(peer, sourceId, now) =>
      if peer !in s.open then s else
        var m := Upgraded(s.nodes, s.open[peer], sourceId, now);
        if m.None? then Closed(s, peer)       // the KeyError ends the handler
        else State(m.value, s.open[peer := sourceId])
    case Touch(key, nbytes, msg, invalid, now) => s.(nodes := Touched(s.nodes, key, nbytes, msg, invalid, now))
    case Prune(maxAge, now) => s.(nodes := Pruned(s.nodes, maxAge, now))
  }

  /** The handler's `finally`. */
  function Closed(s: State, peer: string): State
    requires peer in s.open
  {
    State(Ended(s.nodes, s.open[peer]), s.open - {peer})
  }

  function RunAll(es: seq<Event>): State {
    if es == [] then State(map[], map[]) else After(RunAll(es[..|es| - 1]), es[|es| - 1])
  }

  // ------------------------------------------- the active total, in every run

  /** The session's handler ends: the connection closes, or set_source_id raises. */
  predicate Closes(s: State, e: Event) {
    match e
    case End(peer) => peer in s.open
    case Upgrade(peer, sourceId, now) => peer in s.open && Upgraded(s.nodes, s.open[peer], sourceId, now).None?
    case _ => false
  }

  /** A session that ends under a key with no active count left takes none away. */
  function LostBy(s: State, e: Event): nat {
    if Closes(s, e) && ActiveAt(s.nodes, s.open[e.peer]) == 0 then 1 else 0
  }

  function LostEnds(es: seq<Event>): nat {
    if es == [] then 0 else LostEnds(es[..|es| - 1]) + LostBy(RunAll(es[..|es| - 1]), es[|es| - 1])
  }

  /** By how much the registry's active total exceeds the open sessions. */
  ghost function Excess(s: State): int {
    Total(s.nodes, Active) - |s.open|
  }

  lemma RemoveOpen(open: map<string, string>, peer: string)
    requires peer in open
    ensures |open - {peer}| == |open| - 1
  {
    assert open == (open - {peer})[peer := open[peer]];
  }

  lemma ClosedExcess(s: State, peer: string)
    requires peer in s.open
    ensures Excess(Closed(s, peer)) == Excess(s) + (if ActiveAt(s.nodes, s.open[peer]) == 0 then 1 else 0)
  {
    var key := s.open[peer];
    RemoveOpen(s.open, peer);
    if ActiveAt(s.nodes, key) > 0 {
      TotalUpdate(s.nodes, key, s.nodes[key].(active := s.nodes[key].active - 1), Active);
    }
  }

  lemma StartExcess(s: State, peer: string, host: string, now: int)
    requires peer !in s.open
    ensures Excess(After(s, Start(peer, host, now))) == Excess(s)
  {
    SessionTotals(s.nodes, peer, host, None, host, now);
  }

  lemma UpgradeExcess(s: State, peer: string, sourceId: string, now: int)
    requires peer in s.open
    ensures Excess(After(s, Upgrade(peer, sourceId, now))) == Excess(s) + LostBy(s, Upgrade(peer, sourceId, now))
  {
    UpgradeConserves(s.nodes, s.open[peer], sourceId, now, Active);
    if Upgraded(s.nodes, s.open[peer], sourceId, now).None? {
      ClosedExcess(s, peer);
    } else {
      assert |s.open[peer := sourceId]| == |s.open| by { assert s.open[peer := sourceId].Keys == s.open.Keys; }
    }
  }

  lemma TouchExcess(s: State, key: string, nbytes: nat, msg: bool, invalid: bool, now: int)
    ensures Excess(After(s, Touch(key, nbytes, msg, invalid, now))) == Excess(s)
  {
    MaintenanceTotals(s.nodes, key, nbytes, msg, invalid, 0, now);
  }

  lemma PruneExcess(s: State, maxAge: int, now: int)
    ensures Excess(After(s, Prune(maxAge, now))) == Excess(s)
  {
    MaintenanceTotals(s.nodes, "", 0, false, false, maxAge, now);
  }

  lemma AfterExcess(s: State, e: Event)
    ensures Excess(After(s, e)) == Excess(s) + LostBy(s, e)
  {
    match e {
      case Start(peer, host, now) => if peer !in s.open { StartExcess(s, peer, host, now); }
      case End(peer) => if peer in s.open { ClosedExcess(s, peer); }
      case Upgrade(peer, sourceId, now) => if peer in s.open { UpgradeExcess(s, peer, sourceId, now); }
      case Touch(key, nbytes, msg, invalid, now) => TouchExcess(s, key, nbytes, msg, invalid, now);
      case Prune(maxAge, now) => PruneExcess(s, maxAge, now);
    }
  }

  /** In every run the active total is the number of open sessions plus the number
      of sessions that ended under a key with no active count left. */
  lemma {:induction false} ActiveTotal(es: seq<Event>)
    ensures Total(RunAll(es).nodes, Active) == |RunAll(es).open| + LostEnds(es)
  {
    if es == [] {
      assert Total(map[], Active) == 0;
    } else {
      ActiveTotal(es[..|es| - 1]);
      AfterExcess(RunAll(es[..|es| - 1]), es[|es| - 1]);
    }
  }

  /** What is counted too much once stays counted, however the run goes on. */
  lemma {:induction false} ExcessStays(es: seq<Event>, more: seq<Event>)
    ensures LostEnds(es) <= LostEnds(es + more)
  {
    if more == [] {
      assert es + more == es;
    } else {
      var n := |more| - 1;
      ExcessStays(es, more[..n]);
      assert (es + more)[..|es + more| - 1] == es + more[..n];
    }
  }

  lemma AfterWellFormed(s: State, e: Event)
    requires WellFormed(s.nodes)
    ensures WellFormed(After(s, e).nodes)
  {
    match e {
      case Start(peer, host, now) => OperationsKeepWellFormed(s.nodes, peer, host, None, "", "", 0, false, false, 0,
          now);
      case End(peer) =>
      case Upgrade(peer, sourceId, now) =>
        if peer in s.open {
          OperationsKeepWellFormed(s.nodes, peer, "", None, s.open[peer], sourceId, 0, false, false, 0, now);
        }
      case Touch(key, nbytes, msg, invalid, now) =>
        OperationsKeepWellFormed(s.nodes, "", "", None, key, "", nbytes, msg, invalid, 0, now);
      case Prune(maxAge, now) => OperationsKeepWellFormed(s.nodes, "", "", None, "", "", 0, false, false, maxAge, now);
    }
  }

  lemma {:induction false} RegistriesAreWellFormed(es: seq<Event>)
    ensures WellFormed(RunAll(es).nodes)
  {
    if es != [] {
      RegistriesAreWellFormed(es[..|es| - 1]);
      AfterWellFormed(RunAll(es[..|es| - 1]), es[|es| - 1]);
    }
  }

  /** So in every run the registry counts at least as many active sessions as are
      open, and every reachable registry is well formed. */
  lemma ActiveCoversOpen(es: seq<Event>)
    ensures WellFormed(RunAll(es).nodes)
    ensures Total(RunAll(es).nodes, Active) >= |RunAll(es).open|
  {
    RegistriesAreWellFormed(es);
    ActiveTotal(es);
  }

  /** In every reachable registry an entry with a source id sits under that id. */
  lemma {:induction false} RegistriesAreWellNamed(es: seq<Event>)
    ensures WellNamed(RunAll(es).nodes)
  {
    if es != [] {
      var s := RunAll(es[..|es| - 1]);
      RegistriesAreWellNamed(es[..|es| - 1]);
      match es[|es| - 1] {
        case Start(peer, host, now) => OperationsKeepWellNamed(s.nodes, peer, host, None, "", "", 0, false, false, 0,
            now);
        case End(peer) =>
        case Upgrade(peer, sourceId, now) =>
          if peer in s.open {
            OperationsKeepWellNamed(s.nodes, "", "", None, s.open[peer], sourceId, 0, false, false, 0, now);
          }
        case Touch(key, nbytes, msg, invalid, now) =>
          OperationsKeepWellNamed(s.nodes, "", "", None, key, "", nbytes, msg, invalid, 0, now);
        case Prune(maxAge, now) => OperationsKeepWellNamed(s.nodes, "", "", None, "", "", 0, false, false, maxAge, now);
      }
    }
  }

  // ------------------------------------------------------------------ clocks

  /** The clock an operation reads; ending a session reads none. */
  function ClockOf(e: Event, before: int): int {
    if e.End? then before else e.now
  }

  function LastClock(es: seq<Event>, start: int): int {
    if es == [] then start else ClockOf(es[|es| - 1], LastClock(es[..|es| - 1], start))
  }

  /** The clock never goes back. */
  ghost predicate Ticking(es: seq<Event>, start: int) {
    es == [] ||
    (Ticking(es[..|es| - 1], start) && LastClock(es[..|es| - 1], start) <= LastClock(es, start))
  }

  ghost predicate SeenBy(m: Table, now: int) {
    forall k :: k in m ==> m[k].firstSeen <= m[k].lastSeen <= now
  }

  lemma AfterSeen(s: State, e: Event, before: int)
    requires SeenBy(s.nodes, before) && before <= ClockOf(e, before)
    ensures SeenBy(After(s, e).nodes, ClockOf(e, before))
  {
    match e {
      case Start(_, _, _) =>
      case End(_) =>
      case Upgrade(_, _, _) =>
      case Touch(_, _, _, _, _) =>
      case Prune(_, _) =>
    }
  }

  /** In every run on a clock that does not go back, each entry was first seen no
      later than last seen, and neither lies ahead of the clock. */
  lemma {:induction false} SeenInOrder(es: seq<Event>, start: int)
    requires Ticking(es, start)
    ensures SeenBy(RunAll(es).nodes, LastClock(es, start))
  {
    if es != [] {
      SeenInOrder(es[..|es| - 1], start);
      AfterSeen(RunAll(es[..|es| - 1]), es[|es| - 1], LastClock(es[..|es| - 1], start));
    }
  }

  /** In any run a prune keeps an entry, unchanged, exactly when it has an open session
      or was seen within the limit. */
  lemma PrunedInRun(es: seq<Event>, maxAge: int, now: int, k: string)
    requires k in RunAll(es).nodes
    ensures var n := RunAll(es).nodes[k]; var u := RunAll(es + [Prune(maxAge, now)]).nodes;
      && (k in u <==> maxAge <= 0 || n.active > 0 || now - n.lastSeen <= maxAge)
      && (k in u ==> u[k] == n)
  {
    assert (es + [Prune(maxAge, now)])[..|es|] == es;
    PrunedExactly(RunAll(es).nodes, maxAge, now, k);
  }

  // ------------------------------------------------------------ exact counts

  /** The open sessions whose handler holds the key. */
  ghost function Holders(open: map<string, string>, key: string): set<string> {
    set p | p in open && open[p] == key
  }

  function ActiveAt(m: Table, key: string): nat {
    if key in m then m[key].active else 0
  }

  /** Each entry counts exactly the open sessions keyed to it. */
  ghost predicate Exact(s: State) {
    forall k {:trigger ActiveAt(s.nodes, k)} :: ActiveAt(s.nodes, k) == |Holders(s.open, k)|
  }

  /** An upgrade that stays on its key, or goes to a fresh id while no other open
      session holds the old key. */
  ghost predicate Clean(s: State, e: Event) {
    e.Upgrade? && e.peer in s.open ==>
      var key := s.open[e.peer];
      key == e.sourceId || (e.sourceId !in s.nodes && Holders(s.open, key) == {e.peer})
  }

  lemma HoldersAdd(open: map<string, string>, peer: string, key: string, k: string)
    requires peer !in open
    ensures Holders(open[peer := key], k) == if k == key then Holders(open, k) + {peer} else Holders(open, k)
    ensures peer !in Holders(open, k)
  {
  }

  lemma HoldersRemove(open: map<string, string>, peer: string, k: string)
    requires peer in open
    ensures Holders(open - {peer}, k) == Holders(open, k) - {peer}
    ensures peer in Holders(open, k) <==> open[peer] == k
  {
  }

  lemma HoldersMove(open: map<string, string>, peer: string, key: string, k: string)
    requires peer in open
    ensures Holders(open[peer := key], k) == if k == key then Holders(open, k) + {peer} else Holders(open, k) - {peer}
    ensures peer in Holders(open, k) <==> open[peer] == k
  {
  }

  lemma StartExact(s: State, peer: string, host: string, now: int)
    requires Exact(s) && peer !in s.open
    ensures Exact(After(s, Start(peer, host, now)))
  {
    var t := After(s, Start(peer, host, now));
    forall k ensures ActiveAt(t.nodes, k) == |Holders(t.open, k)| {
      HoldersAdd(s.open, peer, host, k);
      assert ActiveAt(s.nodes, k) == |Holders(s.open, k)|;
    }
  }

  lemma ClosedExact(s: State, peer: string)
    requires Exact(s) && peer in s.open
    ensures Exact(Closed(s, peer))
  {
    var t := Closed(s, peer);
    forall k ensures ActiveAt(t.nodes, k) == |Holders(t.open, k)| {
      HoldersRemove(s.open, peer, k);
      assert ActiveAt(s.nodes, k) == |Holders(s.open, k)|;
    }
  }

  lemma FreshUpgradeExact(s: State, peer: string, sourceId: string, now: int)
    requires Exact(s) && peer in s.open && s.open[peer] != sourceId
    requires sourceId !in s.nodes && Holders(s.open, s.open[peer]) == {peer}
    ensures Exact(After(s, Upgrade(peer, sourceId, now)))
  {
    var t := After(s, Upgrade(peer, sourceId, now));
    assert ActiveAt(s.nodes, s.open[peer]) == 1;
    forall k ensures ActiveAt(t.nodes, k) == |Holders(t.open, k)| {
      HoldersMove(s.open, peer, sourceId, k);
      assert ActiveAt(s.nodes, k) == |Holders(s.open, k)|;
    }
  }

  /** With exact counts the session's own entry is there, so a repeated id cannot
      raise and changes nothing. */
  lemma SameUpgradeExact(s: State, peer: string, now: int)
    requires Exact(s) && peer in s.open
    ensures s.open[peer] in s.nodes && After(s, Upgrade(peer, s.open[peer], now)) == s
  {
    assert ActiveAt(s.nodes, s.open[peer]) == |Holders(s.open, s.open[peer])|;
    assert peer in Holders(s.open, s.open[peer]);
    assert s.open[peer := s.open[peer]] == s.open;
  }

  lemma MaintenanceExact(s: State, e: Event)
    requires Exact(s) && (e.Touch? || e.Prune?)
    ensures Exact(After(s, e))
  {
    var t := After(s, e);
    forall k ensures ActiveAt(t.nodes, k) == |Holders(t.open, k)| {
      assert ActiveAt(s.nodes, k) == |Holders(s.open, k)|;
    }
  }

  lemma CleanStepExact(s: State, e: Event)
    requires Exact(s) && Clean(s, e)
    ensures Exact(After(s, e))
  {
    match e {
      case Start(peer, host, now) => if peer !in s.open { StartExact(s, peer, host, now); }
      case End(peer) => if peer in s.open { ClosedExact(s, peer); }
      case Upgrade(peer, sourceId, now) =>
        if peer in s.open {
          if s.open[peer] == sourceId {
            SameUpgradeExact(s, peer, now);
          } else {
            FreshUpgradeExact(s, peer, sourceId, now);
          }
        }
      case Touch(_, _, _, _, _) => MaintenanceExact(s, e);
      case Prune(_, _) => MaintenanceExact(s, e);
    }
  }

  ghost predicate CleanRun(es: seq<Event>) {
    es == [] || (CleanRun(es[..|es| - 1]) && Clean(RunAll(es[..|es| - 1]), es[|es| - 1]))
  }

  /** In runs of clean upgrades every entry counts exactly its open sessions. */
  lemma {:induction false} CleanRunsAreExact(es: seq<Event>)
    requires CleanRun(es)
    ensures Exact(RunAll(es))
  {
    if es == [] {
      forall k ensures ActiveAt(RunAll(es).nodes, k) == |Holders(RunAll(es).open, k)| {
        assert Holders(map[], k) == {};
      }
    } else {
      CleanRunsAreExact(es[..|es| - 1]);
      CleanStepExact(RunAll(es[..|es| - 1]), es[|es| - 1]);
    }
  }

  /** And one step away: from exact counts, an upgrade leaves them exact exactly
      when it is clean. A known id, or a shared host key, makes them drift. */
  lemma UpgradeExactIffClean(s: State, peer: string, sourceId: string, now: int)
    requires Exact(s) && peer in s.open
    ensures Exact(After(s, Upgrade(peer, sourceId, now))) <==> Clean(s, Upgrade(peer, sourceId, now))
  {
    var e := Upgrade(peer, sourceId, now);
    if Clean(s, e) {
      CleanStepExact(s, e);
    } else {
      UncleanDrifts(s, peer, sourceId, now);
    }
  }

  lemma UncleanDrifts(s: State, peer: string, sourceId: string, now: int)
    requires Exact(s) && peer in s.open && !Clean(s, Upgrade(peer, sourceId, now))
    ensures !Exact(After(s, Upgrade(peer, sourceId, now)))
  {
    var t := After(s, Upgrade(peer, sourceId, now));
    var key := s.open[peer];
    assert ActiveAt(s.nodes, key) == |Holders(s.open, key)|
        && ActiveAt(s.nodes, sourceId) == |Holders(s.open, sourceId)|;
    HoldersMove(s.open, peer, sourceId, key);
    HoldersMove(s.open, peer, sourceId, sourceId);
    if sourceId in s.nodes {
      assert ActiveAt(t.nodes, sourceId) != |Holders(t.open, sourceId)|;
    } else {
      var other :| other in Holders(s.open, key) && other != peer;
      assert other in Holders(t.open, key);
      assert ActiveAt(t.nodes, key) != |Holders(t.open, key)|;
    }
  }
}
