/**
 Why tokens must be handled before the next Update: a run in which Updates and handlings never overlap,
 every context stays live, and still a notification is lost
 (healthmanager/blockchain_health_manager.go:121-129).

 The chain comes up and everybody learns so; a client takes its token.  The chain goes down, and the
 client reads that.  The chain comes up again before the worker looks: the worker finds nothing changed.
 */
module HealthLateHandling {
  import opened Wrappers
  import opened ProvidersHealth
  import opened BlockchainHealth

  ghost predicate Reaches(s: System, t: System) {
    exists states, events :: SystemRun(states, events) && states[0] == s && states[|events|] == t
  }

  lemma Stay(s: System)
    ensures Reaches(s, s)
  {
    assert SystemRun([s], []);
  }

  lemma Continue(s: System, t: System, e: Event)
    requires Reaches(s, t) && Possible(t, e)
    ensures Reaches(s, Step(t, e))
  {
    var states, events :| SystemRun(states, events) && states[0] == s && states[|events|] == t;
    var longer, more := states + [Step(t, e)], events + [e];
    forall i | 0 <= i < |more|
      ensures Possible(longer[i], more[i]) && longer[i + 1] == Step(longer[i], more[i])
    {
      if i < |events| { assert longer[i] == states[i] && longer[i + 1] == states[i + 1]; }
    }
    assert SystemRun(longer, more);
  }

  lemma ChainMove(s: System, t: System, m: Manager, a: Action)
    requires Reaches(s, t) && t.chains == map[0 := m] && PlainAction(a) && Enabled(m, a)
    requires a.Begin? ==> m.phase.Idle? && t.handler.Free?
    ensures Reaches(s, t.(chains := map[0 := Next(m, a)]))
  {
    Continue(s, t, OnChain(0, a));
    assert t.chains[0 := Next(m, a)] == map[0 := Next(m, a)];
  }

  /** A manager with one provider that answered last with the given status. */
  function Chain(provider: Status, last: Status, worker: Subscriber): Manager {
    Manager(map["a" := provider], Some(last), map[WORKER := worker], Idle)
  }

  function Code(served: bool): Status { if served then Up else Down }

  lemma BeginIs(m: Manager, served: bool)
    requires m.phase.Idle? && m.last != Some(Code(served)) && m.statuses.Keys <= {"a"}
    ensures Next(m, Begin([CallStatus("a", served)])) == m.(statuses := map["a" := Code(served)], phase := Computed(Code(served)))
  {
    var batch := [CallStatus("a", served)];
    assert batch[..0] == [];
    assert Fed(m.statuses, batch) == m.statuses["a" := Code(served)] == map["a" := Code(served)];
    SingleStatus("a", Code(served));
  }

  lemma SingleStatus<K>(k: K, status: Status)
    ensures Aggregate(map[k := status]) == status
  {
    var m := map[k := status];
    assert k in m && m[k] == status;
    assert status in m.Values;
    assert m.Values == {status};
  }

  lemma PushIs(m: Manager)
    requires m.phase.Emitting? && m.phase.served == {} && WORKER in m.subs && m.subs.Keys == {WORKER}
    ensures Next(m, Push(WORKER)) ==
              m.(subs := map[WORKER := m.subs[WORKER].(token := true)], phase := Emitting(m.phase.status, {WORKER}))
  {
    assert m.subs[WORKER := m.subs[WORKER].(token := true)] == map[WORKER := m.subs[WORKER].(token := true)];
    assert {} + {WORKER} == {WORKER};
  }

  /** A whole Update that changes the chain's status. */
  lemma WholeUpdate(s: System, t: System, m: Manager, served: bool)
    requires Reaches(s, t) && t.chains == map[0 := m] && t.handler.Free? && m.phase.Idle?
    requires WORKER in m.subs && m.subs.Keys == {WORKER}
    requires m.last != Some(Code(served)) && m.statuses.Keys <= {"a"}
    ensures Reaches(s, t.(chains := map[0 := Chain(Code(served), Code(served), m.subs[WORKER].(token := true))]))
  {
    BeginIs(m, served);
    ChainMove(s, t, m, Begin([CallStatus("a", served)]));
    var m1 := m.(statuses := map["a" := Code(served)], phase := Computed(Code(served)));
    Notify(s, t.(chains := map[0 := m1]), m1);
  }

  /** The rest of an Update once the new status is known. */
  lemma Notify(s: System, t: System, m: Manager)
    requires Reaches(s, t) && t.chains == map[0 := m] && m.phase.Computed? && WORKER in m.subs && m.subs.Keys == {WORKER}
    ensures Reaches(s, t.(chains := map[0 := Manager(m.statuses, Some(m.phase.status), map[WORKER := m.subs[WORKER].(token := true)], Idle)]))
  {
    ChainMove(s, t, m, Lock);
    var m2 := m.(phase := Emitting(m.phase.status, {}));
    PushIs(m2);
    ChainMove(s, t.(chains := map[0 := m2]), m2, Push(WORKER));
    var m3 := m2.(subs := map[WORKER := m.subs[WORKER].(token := true)], phase := Emitting(m.phase.status, {WORKER}));
    ChainMove(s, t.(chains := map[0 := m3]), m3, Unlock);
    var m4 := m3.(phase := Notified(m.phase.status));
    ChainMove(s, t.(chains := map[0 := m4]), m4, Finish);
  }

  /** The worker takes its token. */
  lemma WorkerTakes(s: System, t: System, status: Status, w: Subscriber)
    requires Reaches(s, t) && t.chains == map[0 := Chain(status, status, w)] && w.token
    ensures Reaches(s, t.(chains := map[0 := Chain(status, status, w.(token := false, owes := true))]))
  {
    var m := Chain(status, status, w);
    ChainMove(s, t, m, Take(WORKER));
    assert Next(m, Take(WORKER)) == Chain(status, status, w.(token := false, owes := true));
  }

  lemma GatheredIs(status: Status, w: Subscriber)
    ensures Gathered(Chain(status, status, w), true) == Chain(status, status, w.(read := Some(status), owes := false))
  {
    SingleStatus("a", status);
    var sub := w.(read := Some(status), owes := false);
    assert (map[WORKER := w])[WORKER := sub] == map[WORKER := sub];
  }

  /** What a gathering finds. */
  lemma HandleIs(t: System, status: Status, w: Subscriber)
    requires t.chains == map[0 := Chain(status, status, w)] && t.aggregator.Keys <= {0}
    ensures var found := BlockchainStatus(status, map[0 := status]);
            AfterHandle(t, 0) ==
              t.(chains := map[0 := Chain(status, status, w.(read := Some(status), owes := false))],
                 aggregator := map[0 := status], handler := if t.last == Some(found) then Free else Changed(found))
  {
    var m := Chain(status, status, w);
    SingleStatus("a", status);
    SingleStatus(0, status);
    assert t.PerChain() == map[0 := status];
    assert t.aggregator + map[0 := status] == map[0 := status];
    GatheredIs(status, w);
    assert AllGathered(t.chains, 0) == map[0 := Gathered(m, true)];
  }

  lemma WorkerHandles(s: System, t: System, m: Manager)
    requires Reaches(s, t) && t.chains == map[0 := m] && m.phase.Idle? && WORKER in m.subs && m.subs[WORKER].owes && t.handler.Free?
    ensures Reaches(s, AfterHandle(t, 0))
  {
    Continue(s, t, Handle(0));
  }

  lemma Stores(s: System, t: System)
    requires Reaches(s, t) && t.handler.Changed?
    ensures Reaches(s, t.(last := Some(t.handler.status), handler := Stored(t.handler.status)))
  {
    Continue(s, t, Store);
  }

  lemma Starts(s: System, t: System)
    requires Reaches(s, t) && t.handler.Stored?
    ensures Reaches(s, t.(handler := Publishing(t.handler.status, {})))
  {
    Continue(s, t, StartEmit);
  }

  lemma Offers(s: System, t: System, c: Client)
    requires Reaches(s, t) && t.handler.Publishing? && t.handler.served == {} && t.clients == map[1 := c]
    ensures Reaches(s, t.(handler := Publishing(t.handler.status, {1}), clients := map[1 := c.(token := true)]))
  {
    Continue(s, t, Offer(1));
    assert {} + {1} == {1};
    assert t.clients[1 := c.(token := true)] == map[1 := c.(token := true)];
  }

  lemma Ends(s: System, t: System, c: Client)
    requires Reaches(s, t) && t.handler.Publishing? && t.handler.served == {1} && t.clients == map[1 := c]
    ensures Reaches(s, t.(handler := Free))
  {
    Continue(s, t, EndEmit);
  }

  lemma ClientTakes(s: System, t: System, c: Client)
    requires Reaches(s, t) && t.clients == map[1 := c] && c.token
    ensures Reaches(s, t.(clients := map[1 := c.(token := false, owes := true)]))
  {
    Continue(s, t, TakeToken(1));
    assert t.clients[1 := c.(token := false, owes := true)] == map[1 := c.(token := false, owes := true)];
  }

  lemma ClientReads(s: System, t: System, c: Client, seen: BlockchainStatus)
    requires Reaches(s, t) && t.clients == map[1 := c] && c.owes && seen == t.Readable()
    ensures Reaches(s, t.(clients := map[1 := c.(owes := false, read := Some(seen))]))
  {
    Continue(s, t, ReadStatus(1));
    assert t.clients[1 := c.(owes := false, read := Some(seen))] == map[1 := c.(owes := false, read := Some(seen))];
  }

  lemma ClientJoins(s: System, t: System)
    requires Reaches(s, t) && t.clients == map[] && t.last.None? && t.handler.Free?
    ensures Reaches(s, t.(clients := map[1 := Client(false, false, None, true)]))
  {
    Continue(s, t, Join(1));
    assert t.clients[1 := Client(false, false, None, true)] == map[1 := Client(false, false, None, true)];
  }

  /** A changed status is stored and published to the only client. */
  lemma Publishes(s: System, t: System, c: Client)
    requires Reaches(s, t) && t.handler.Changed? && t.clients == map[1 := c]
    ensures Reaches(s, t.(last := Some(t.handler.status), handler := Free, clients := map[1 := c.(token := true)]))
  {
    var status := t.handler.status;
    Stores(s, t);
    var t1 := t.(last := Some(status), handler := Stored(status));
    Starts(s, t1);
    var t2 := t1.(handler := Publishing(status, {}));
    Offers(s, t2, c);
    var t3 := t2.(handler := Publishing(status, {1}), clients := map[1 := c.(token := true)]);
    Ends(s, t3, c.(token := true));
  }

  /** The situation between Updates: the chain's status, the worker, what was stored last, and the client. */
  function Rest(status: Status, w: Subscriber, last: Status, c: Client): System {
    System(map[0 := Chain(status, status, w)], map[0 := last], Some(BlockchainStatus(last, map[0 := last])), Free, map[1 := c])
  }

  const SEEN_UP := Subscriber(false, false, Some(Up), true)

  lemma RestChanges(s: System, status: Status, w: Subscriber, last: Status, c: Client, served: bool)
    requires Reaches(s, Rest(status, w, last, c)) && status != Code(served)
    ensures Reaches(s, Rest(Code(served), w.(token := true), last, c))
  {
    var m := Chain(status, status, w);
    assert m.subs.Keys == {WORKER};
    WholeUpdate(s, Rest(status, w, last, c), m, served);
  }

  /** The client joins, the chain comes up, and the client takes its token. */
  lemma FirstPart()
    ensures Reaches(Initial({0}), Rest(Up, SEEN_UP, Up, Client(false, true, None, true)))
  {
    var s := Initial({0});
    Stay(s);
    assert s.chains == map[0 := Fresh()];
    ClientJoins(s, s);
    var c := Client(false, false, None, true);
    var s1 := System(map[0 := Fresh()], map[], None, Free, map[1 := c]);
    WholeUpdate(s, s1, Fresh(), true);
    var w := Subscriber(true, false, None, true);
    WorkerTakes(s, s1.(chains := map[0 := Chain(Up, Up, w)]), Up, w);
    var s2 := s1.(chains := map[0 := Chain(Up, Up, Subscriber(false, true, None, true))]);
    WorkerHandles(s, s2, s2.chains[0]);
    HandleIs(s2, Up, Subscriber(false, true, None, true));
    Publishes(s, AfterHandle(s2, 0), c);
    ClientTakes(s, Rest(Up, SEEN_UP, Up, c.(token := true)), c.(token := true));
  }

  /** The chain goes down and the client reads it; the worker takes its token after the chain came up again. */
  lemma SecondPart(c: Client, seen: BlockchainStatus)
    requires seen == BlockchainStatus(Up, map[0 := Down]) && c == Client(false, false, Some(seen), true)
    ensures Reaches(Initial({0}), Rest(Up, SEEN_UP.(owes := true), Up, c))
  {
    var s := Initial({0});
    FirstPart();
    RestChanges(s, Up, SEEN_UP, Up, Client(false, true, None, true), false);
    var s2 := Rest(Down, SEEN_UP.(token := true), Up, Client(false, true, None, true));
    SingleStatus(0, Up);
    SingleStatus("a", Down);
    assert s2.PerChain() == map[0 := Down];
    ClientReads(s, s2, Client(false, true, None, true), seen);
    RestChanges(s, Down, SEEN_UP.(token := true), Up, c, true);
    WorkerTakes(s, Rest(Up, SEEN_UP.(token := true), Up, c), Up, SEEN_UP.(token := true));
  }

  /** At the end nothing is in transit, and the client still believes the chain to be down. */
  lemma LateHandlingLosesNotification() returns (t: System)
    ensures Reaches(Initial({0}), t) && !NoLostNotification(t)
  {
    var seen := BlockchainStatus(Up, map[0 := Down]);
    var c := Client(false, false, Some(seen), true);
    SecondPart(c, seen);
    var s5 := Rest(Up, SEEN_UP.(owes := true), Up, c);
    WorkerHandles(Initial({0}), s5, s5.chains[0]);
    HandleIs(s5, Up, SEEN_UP.(owes := true));
    t := Rest(Up, SEEN_UP, Up, c);
    StillDown(t, c);
  }

  lemma StillDown(t: System, c: Client)
    requires c.read == Some(BlockchainStatus(Up, map[0 := Down])) && !c.token && !c.owes && t == Rest(Up, SEEN_UP, Up, c)
    ensures !NoLostNotification(t)
  {
    SingleStatus("a", Up);
    assert t.PerChain()[0] == Up;
    assert (map[0 := Down])[0] == Down;
    assert 0 in t.chains && t.chains[0].last.Some?;
    assert 1 in t.clients && TrackedClient(t.clients[1]) && !InformedClient(t.clients[1], t.Readable());
  }
}
