/** What the handlers of sessions do to the registry, as runs of SessionRuns, and
    two runs from the empty registry in which its counts go wrong. */
module SessionExamples {
  import opened Wrappers
  import opened RegistrySpec
  import opened SessionRuns
  import opened LineSpec
  import opened HandlerSpec

  lemma RunSnoc(es: seq<Event>, e: Event)
    ensures RunAll(es + [e]) == After(RunAll(es), e)
  {
    assert (es + [e])[..|es|] == es;
  }

  function RunFrom(st: State, es: seq<Event>): State {
    if es == [] then st else After(RunFrom(st, es[..|es| - 1]), es[|es| - 1])
  }

  lemma {:induction false} RunConcat(es: seq<Event>, more: seq<Event>)
    ensures RunAll(es + more) == RunFrom(RunAll(es), more)
  {
    if more == [] {
      assert es + more == es;
    } else {
      var n := |more| - 1;
      RunConcat(es, more[..n]);
      assert es + more == (es + more[..n]) + [more[n]];
      RunSnoc(es + more[..n], more[n]);
    }
  }

  lemma {:induction false} FromCons(st: State, e: Event, more: seq<Event>)
    ensures RunFrom(st, [e] + more) == RunFrom(After(st, e), more)
    decreases |more|
  {
    var all := [e] + more;
    if more == [] {
      assert all == [e];
      assert RunFrom(st, [e]) == After(RunFrom(st, []), e) by { assert [e][..0] == []; }
    } else {
      var n := |more| - 1;
      FromCons(st, e, more[..n]);
      assert all[..n + 1] == [e] + more[..n] && all[n + 1] == more[n];
      assert RunFrom(st, all) == After(RunFrom(st, all[..n + 1]), more[n]);
    }
  }

  // -------------------------------------------------- the handler's operations

  /** The registry operations of one line: the upgrade only if the line names an
      identity other than the start object's, then the count. */
  function LineEvents(s: Session, peer: string, o: Outcome, now: int): seq<Event> {
    match o
    case Blank => []
    case Line(id, _, accepted) =>
      if id.None? || id == SourceAt(s.nodes, s.home) then [Touch(s.key, 0, accepted, !accepted, now)]
      else if Identified(s, id, now).raised then [Upgrade(peer, id.value, now)]
      else [Upgrade(peer, id.value, now), Touch(id.value, 0, accepted, !accepted, now)]
  }

  /** The registry's run agrees with a session: same table, same key. */
  predicate Follows(st: State, s: Session, peer: string) {
    st.nodes == s.nodes && peer in st.open && st.open[peer] == s.key
  }

  lemma OneEvent(st: State, e: Event)
    ensures RunFrom(st, [e]) == After(st, e)
  {
    FromCons(st, e, []);
    assert [e] + [] == [e];
  }

  lemma TwoEvents(st: State, e: Event, f: Event)
    ensures RunFrom(st, [e, f]) == After(After(st, e), f)
  {
    FromCons(st, e, [f]);
    assert [e] + [f] == [e, f];
    OneEvent(After(st, e), f);
  }

  /** Handling a line is a run of the registry's locked operations; the KeyError
      closes the session. */
  lemma LineIsRun(st: State, s: Session, peer: string, o: Outcome, now: int)
    requires Follows(st, s, peer) && !s.raised
    ensures var t, u := Handled(s, o, now), RunFrom(st, LineEvents(s, peer, o, now));
      if t.raised then u == Closed(st, peer) else Follows(u, t, peer) && u.open.Keys == st.open.Keys
  {
    match o {
      case Blank =>
      case Line(id, _, accepted) =>
        if id.None? || id == SourceAt(s.nodes, s.home) {
          OneEvent(st, Touch(s.key, 0, accepted, !accepted, now));
        } else if Identified(s, id, now).raised {
          OneEvent(st, Upgrade(peer, id.value, now));
        } else {
          TwoEvents(st, Upgrade(peer, id.value, now), Touch(id.value, 0, accepted, !accepted, now));
        }
    }
  }

  // ---------------------------------------------------------------- a visit

  /** A session that sends one accepted line tagged id and ends. */
  function Visit(peer: string, host: string, id: string, nbytes: nat, now: int): seq<Event> {
    [Start(peer, host, now), Touch(host, nbytes, false, false, now), Upgrade(peer, id, now),
     Touch(id, 0, true, false, now), End(peer)]
  }

  function AfterVisit(st: State, peer: string, host: string, id: string, nbytes: nat, now: int): State {
    var a := After(After(st, Start(peer, host, now)), Touch(host, nbytes, false, false, now));
    After(After(After(a, Upgrade(peer, id, now)), Touch(id, 0, true, false, now)), End(peer))
  }

  lemma VisitRuns(st: State, peer: string, host: string, id: string, nbytes: nat, now: int)
    ensures RunFrom(st, Visit(peer, host, id, nbytes, now)) == AfterVisit(st, peer, host, id, nbytes, now)
  {
    var v := Visit(peer, host, id, nbytes, now);
    TwoEvents(st, v[0], v[1]);
    var a := RunFrom(st, [v[0], v[1]]);
    FromCons(st, v[0], v[1..]);
    FromCons(After(st, v[0]), v[1], v[2..]);
    FromCons(a, v[2], v[3..]);
    TwoEvents(After(a, v[2]), v[3], v[4]);
    assert v == [v[0]] + v[1..] && v[1..] == [v[1]] + v[2..] && v[2..] == [v[2]] + v[3..] && v[3..] == [v[3], v[4]];
  }

  /** The handler takes exactly these steps: its line is not the start object's own
      identity, so the guard lets the upgrade through. */
  lemma VisitIsHandled(m: Table, peer: string, host: string, id: string, x: string, c: Chunk)
    requires id != host && (host in m ==> m[host].sourceId.None?)
    ensures var s := Arrived(Opened(m, peer, host, c.at), c);
      [Start(peer, host, c.at), Touch(host, |c.data|, false, false, c.at)]
      + LineEvents(s, peer, Line(Some(id), x, true), c.at) + [End(peer)] == Visit(peer, host, id, |c.data|, c.at)
  {
    var s := Arrived(Opened(m, peer, host, c.at), c);
    assert SourceAt(s.nodes, s.home).None?;
  }

  // -------------------------------------------------------------- reconnecting

  /** A visit to a registry that does not know the id leaves its entry, closed. */
  lemma FirstVisit(st: State, peer: string, host: string, id: string, nbytes: nat, now: int)
    requires st == State(map[], map[]) && id != host
    ensures var u := AfterVisit(st, peer, host, id, nbytes, now);
      && u.open == map[] && u.nodes.Keys == {id} && u.nodes[id].active == 0 && u.nodes[id].lastSeen == now
  {
  }

  /** A visit to a registry that knows the id leaves one more active session on the
      host's entry, although the session is over. */
  lemma Revisit(st: State, peer: string, host: string, id: string, nbytes: nat, now: int)
    requires peer !in st.open && id in st.nodes && id != host && st.nodes[id].active == 0
    ensures var u := AfterVisit(st, peer, host, id, nbytes, now);
      && u.open == st.open && ActiveAt(u.nodes, host) == ActiveAt(st.nodes, host) + 1
  {
    var u := AfterVisit(st, peer, host, id, nbytes, now);
    assert u.open == st.open;
  }

  /** The same node connects twice: no session is open any more, and its host is
      still counted as active, so the counts are not exact, and no pruning removes
      that entry. */
  lemma ReconnectDrifts(first: string, second: string, host: string, id: string, nbytes: nat, now: int, later: int)
    requires id != host
    ensures var st := RunAll(Visit(first, host, id, nbytes, now) + Visit(second, host, id, nbytes, later));
      && st.open == map[] && ActiveAt(st.nodes, host) == 1 && !Exact(st)
      && forall maxAge: int, when: int :: ActiveAt(Pruned(st.nodes, maxAge, when), host) == 1
  {
    var a, b := Visit(first, host, id, nbytes, now), Visit(second, host, id, nbytes, later);
    var none: seq<Event> := [];
    RunConcat(none, a);
    assert none + a == a;
    RunConcat(a, b);
    VisitRuns(RunAll(none), first, host, id, nbytes, now);
    VisitRuns(RunAll(a), second, host, id, nbytes, later);
    FirstVisit(RunAll(none), first, host, id, nbytes, now);
    Revisit(RunAll(a), second, host, id, nbytes, later);
    var st := RunAll(a + b);
    assert Holders(st.open, host) == {};
  }

  /** And however the run goes on, the registry counts one active session too many:
      under the host, or under the identity a later session of the host takes. */
  lemma ReconnectStaysCounted(first: string, second: string, host: string, id: string, nbytes: nat, now: int,
      later: int,
                              more: seq<Event>)
    requires id != host
    ensures var st := RunAll(Visit(first, host, id, nbytes, now) + Visit(second, host, id, nbytes, later) + more);
      Total(st.nodes, Active) > |st.open|
  {
    var es := Visit(first, host, id, nbytes, now) + Visit(second, host, id, nbytes, later);
    ReconnectDrifts(first, second, host, id, nbytes, now, later);
    TotalWithout(RunAll(es).nodes, host, Active);
    ActiveTotal(es);
    ExcessStays(es, more);
    ActiveTotal(es + more);
  }

  // ------------------------------------------------------------ a stale entry

  /** The second session's steps, with the maintenance thread between the upgrade and
      the count of the same line: the entry of the id is pruned under the session,
      which then names it again. */
  function StaleSteps(peer: string, host: string, id: string, nbytes: nat, maxAge: int, now: int): seq<Event> {
    [Start(peer, host, now), Touch(host, nbytes, false, false, now), Upgrade(peer, id, now), Prune(maxAge, now),
     Touch(id, 0, true, false, now), Touch(id, nbytes, false, false, now), Upgrade(peer, id, now)]
  }

  function AfterStale(st: State, peer: string, host: string, id: string, nbytes: nat, maxAge: int, now: int): State {
    var a := After(After(st, Start(peer, host, now)), Touch(host, nbytes, false, false, now));
    var b := After(After(a, Upgrade(peer, id, now)), Prune(maxAge, now));
    After(After(After(b, Touch(id, 0, true, false, now)), Touch(id, nbytes, false, false, now)), Upgrade(peer, id, now))
  }

  lemma StaleRuns(st: State, peer: string, host: string, id: string, nbytes: nat, maxAge: int, now: int)
    ensures RunFrom(st, StaleSteps(peer, host, id, nbytes, maxAge, now))
        == AfterStale(st, peer, host, id, nbytes, maxAge, now)
  {
    var v := StaleSteps(peer, host, id, nbytes, maxAge, now);
    var a := After(After(st, v[0]), v[1]);
    var b := After(After(a, v[2]), v[3]);
    assert v == [v[0]] + v[1..] && v[1..] == [v[1]] + v[2..] && v[2..] == [v[2]] + v[3..];
    assert v[3..] == [v[3]] + v[4..] && v[4..] == [v[4]] + v[5..] && v[5..] == [v[5], v[6]];
    FromCons(st, v[0], v[1..]);
    FromCons(After(st, v[0]), v[1], v[2..]);
    FromCons(a, v[2], v[3..]);
    FromCons(After(a, v[2]), v[3], v[4..]);
    FromCons(b, v[4], v[5..]);
    TwoEvents(After(b, v[4]), v[5], v[6]);
  }

  /** The handler's own view of those steps: the first line's upgrade joins the known
      id, the pruning comes before its count, and at the second line set_source_id
      raises. */
  lemma StaleIsHandled(m: Table, peer: string, host: string, id: string, x: string, y: string, maxAge: int, c: Chunk)
    requires id != host && id in m && host !in m && maxAge > 0 && Stale(m[id], maxAge, c.at)
    ensures var s := Identified(Arrived(Opened(m, peer, host, c.at), c), Some(id), c.at);
      var pruned := s.(nodes := Pruned(s.nodes, maxAge, c.at));
      var t := Judged(pruned, x, true, c.at);
      && t.delivered == [Delivery(x, id, c.at)]
      && Handled(Arrived(t, c), Line(Some(id), y, true), c.at).raised
      && LineEvents(Arrived(t, c), peer, Line(Some(id), y, true), c.at) == [Upgrade(peer, id, c.at)]
  {
    var s0 := Arrived(Opened(m, peer, host, c.at), c);
    assert SourceAt(s0.nodes, s0.home).None?;
    var s := Identified(s0, Some(id), c.at);
    assert s.nodes == s0.nodes && s.key == id && s.home == host;
    var pruned := s.(nodes := Pruned(s.nodes, maxAge, c.at));
    assert id !in pruned.nodes && host in pruned.nodes && pruned.nodes[host].sourceId.None?;
  }

  lemma StaleEnds(st: State, peer: string, host: string, id: string, nbytes: nat, maxAge: int, now: int)
    requires st.open == map[] && id != host && st.nodes.Keys == {id} && maxAge > 0 && Stale(st.nodes[id], maxAge, now)
    ensures var u := AfterStale(st, peer, host, id, nbytes, maxAge, now);
      u.open == map[] && id !in u.nodes && ActiveAt(u.nodes, host) == 1
  {
    var u := AfterStale(st, peer, host, id, nbytes, maxAge, now);
    assert u.open == map[];
  }

  /** A run from the empty registry that ends a session by a KeyError: a node visits,
      more than maxAge later a session of another host (or the same) names its id,
      and the maintenance thread prunes the entry between that line's upgrade and its
      count. The session is closed and its host stays counted as active. */
  lemma StaleRunEndsSession(first: string, second: string, host: string, other: string, id: string, nbytes: nat,
                            maxAge: int, now: int, later: int)
    requires id != host && id != other && maxAge > 0 && later - now > maxAge
    ensures var st := RunAll(Visit(first, host, id, nbytes, now) + StaleSteps(second, other, id, nbytes, maxAge,
        later));
      st.open == map[] && id !in st.nodes && ActiveAt(st.nodes, other) == 1 && !Exact(st)
  {
    var a, b := Visit(first, host, id, nbytes, now), StaleSteps(second, other, id, nbytes, maxAge, later);
    var none: seq<Event> := [];
    RunConcat(none, a);
    assert none + a == a;
    RunConcat(a, b);
    VisitRuns(RunAll(none), first, host, id, nbytes, now);
    StaleRuns(RunAll(a), second, other, id, nbytes, maxAge, later);
    FirstVisit(RunAll(none), first, host, id, nbytes, now);
    StaleEnds(RunAll(a), second, other, id, nbytes, maxAge, later);
    var st := RunAll(a + b);
    assert Holders(st.open, other) == {};
  }
}
