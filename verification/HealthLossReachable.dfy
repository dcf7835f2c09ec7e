/**
 From a state with a misled client a notification can be lost without any further reading, and from one
 without it cannot (healthmanager/blockchain_health_manager.go:121-129).
 */
module HealthLossReachable {
  import opened Wrappers
  import opened ProvidersHealth
  import opened BlockchainHealth
  import opened HealthStaleReads

  /** A run without stale reads leads from s to t. */
  ghost predicate Continues(s: System, t: System) {
    exists states, events ::
      && SystemRun(states, events) && states[0] == s && states[|events|] == t
      && forall i :: 0 <= i < |events| ==> !StaleRead(states[i], events[i])
  }

  lemma Stay(s: System)
    ensures Continues(s, s)
  {
    assert SystemRun([s], []);
  }

  lemma Extend(s: System, t: System, e: Event)
    requires Continues(s, t) && Possible(t, e) && !StaleRead(t, e)
    ensures Continues(s, Step(t, e))
  {
    var states, events :|
      && SystemRun(states, events) && states[0] == s && states[|events|] == t
      && forall i :: 0 <= i < |events| ==> !StaleRead(states[i], events[i]);
    var longer, more := states + [Step(t, e)], events + [e];
    forall i | 0 <= i < |more|
      ensures Possible(longer[i], more[i]) && longer[i + 1] == Step(longer[i], more[i]) && !StaleRead(longer[i], more[i])
    {
      if i < |events| { assert longer[i] == states[i] && longer[i + 1] == states[i + 1]; }
    }
    assert SystemRun(longer, more);
  }

  lemma {:induction false} RunKeepsCore(states: seq<System>, events: seq<Event>, n: nat)
    requires SystemRun(states, events) && Core(states[0]) && n <= |events|
    ensures Core(states[n])
  {
    if n > 0 {
      RunKeepsCore(states, events, n - 1);
      StepKeepsCore(states[n - 1], events[n - 1]);
    }
  }

  lemma ContinuesKeepsCore(s: System, t: System)
    requires Continues(s, t) && Core(s)
    ensures Core(t)
  {
    var states, events :| SystemRun(states, events) && states[0] == s && states[|events|] == t;
    RunKeepsCore(states, events, |events|);
  }

  /** A continuation in which nothing is published: clients and stored status stay. */
  ghost predicate Drifts(s: System, t: System) {
    Continues(s, t) && t.clients == s.clients && t.last == s.last && t.handler.Free? && t.chains.Keys == s.chains.Keys
  }

  lemma DriftOn(s: System, t: System, e: Event)
    requires Drifts(s, t) && Possible(t, e) && (e.OnChain? || e.Handle?) && Step(t, e).handler.Free?
    ensures Drifts(s, Step(t, e))
  {
    Extend(s, t, e);
    StepKeepsChainIds(t, e);
  }

  // ---------------------------------------------------------------------------
  // One chain
  // ---------------------------------------------------------------------------

  /** Only chain k differs. */
  predicate Only(t: System, t': System, k: ChainId) {
    k in t.chains && t'.chains.Keys == t.chains.Keys && forall j :: j in t.chains && j != k ==> t'.chains[j] == t.chains[j]
  }

  lemma ChainMove(s: System, t: System, k: ChainId, a: Action) returns (t': System)
    requires Drifts(s, t) && k in t.chains && PlainAction(a) && Enabled(t.chains[k], a) && (a.Begin? ==> t.NoUpdate())
    ensures Drifts(s, t') && Only(t, t', k) && t'.chains[k] == Next(t.chains[k], a)
  {
    t' := Step(t, OnChain(k, a));
    DriftOn(s, t, OnChain(k, a));
  }

  lemma Pushes(s: System, t: System, k: ChainId) returns (t': System)
    requires Drifts(s, t) && k in t.chains && t.chains[k].phase.Emitting?
    ensures Drifts(s, t') && Only(t, t', k)
    ensures var m, n := t.chains[k], t'.chains[k];
            n.phase.Emitting? && n.subs.Keys <= n.phase.served && n.statuses == m.statuses
    decreases t.chains[k].subs.Keys - t.chains[k].phase.served
  {
    var m := t.chains[k];
    if m.subs.Keys <= m.phase.served {
      t' := t;
    } else {
      var ch :| ch in m.subs.Keys && ch !in m.phase.served;
      var t1 := ChainMove(s, t, k, Push(ch));
      assert t1.chains[k].subs.Keys == m.subs.Keys && ch !in t1.chains[k].subs.Keys - t1.chains[k].phase.served;
      t' := Pushes(s, t1, k);
    }
  }

  /** From an emission on, an Update comes to its end. */
  lemma FinishesEmission(s: System, t: System, k: ChainId) returns (t': System)
    requires Drifts(s, t) && k in t.chains && t.chains[k].phase.Emitting?
    ensures Drifts(s, t') && Only(t, t', k)
    ensures var m, n := t.chains[k], t'.chains[k]; n.phase.Idle? && n.statuses == m.statuses && n.last.Some?
  {
    var t1 := Pushes(s, t, k);
    var t2 := ChainMove(s, t1, k, Unlock);
    t' := ChainMove(s, t2, k, Finish);
  }

  /** An Update in flight comes to its end. */
  lemma Finishes(s: System, t: System, k: ChainId) returns (t': System)
    requires Drifts(s, t) && k in t.chains
    ensures Drifts(s, t') && Only(t, t', k)
    ensures var m, n := t.chains[k], t'.chains[k];
            n.phase.Idle? && n.statuses == m.statuses && (!m.phase.Idle? || m.last.Some? ==> n.last.Some?)
  {
    match t.chains[k].phase
    case Idle => t' := t;
    case Computed(_) =>
      var t1 := ChainMove(s, t, k, Lock);
      t' := FinishesEmission(s, t1, k);
    case Emitting(_, _) => t' := FinishesEmission(s, t, k);
    case Notified(_) => t' := ChainMove(s, t, k, Finish);
  }

  // ---------------------------------------------------------------------------
  // Bringing a chain to a status
  // ---------------------------------------------------------------------------

  predicate AllFailed(batch: seq<CallStatus>) { forall i :: 0 <= i < |batch| ==> !batch[i].served }

  function Names(batch: seq<CallStatus>): set<string> { set i | 0 <= i < |batch| :: batch[i].name }

  lemma {:induction false} FailingBatch(names: set<string>) returns (batch: seq<CallStatus>)
    ensures AllFailed(batch) && names <= Names(batch)
  {
    if names == {} {
      batch := [];
    } else {
      var x :| x in names;
      var shorter := FailingBatch(names - {x});
      batch := shorter + [CallStatus(x, false)];
      assert batch[|shorter|].name == x;
      forall y | y in names - {x} ensures y in Names(batch) {
        var i :| 0 <= i < |shorter| && shorter[i].name == y;
        assert batch[i].name == y;
      }
    }
  }

  lemma {:induction false} FailedAreDown(statuses: map<string, Status>, batch: seq<CallStatus>)
    requires AllFailed(batch)
    ensures Fed(statuses, batch).Keys == statuses.Keys + Names(batch)
    ensures forall x :: x in Names(batch) ==> Fed(statuses, batch)[x] == Down
  {
    if batch != [] {
      var n := |batch| - 1;
      var init := batch[..n];
      FailedAreDown(statuses, init);
      assert Names(batch) == Names(init) + {batch[n].name} by {
        forall i | 0 <= i < |batch| ensures batch[i].name in Names(init) + {batch[n].name} {
          if i < n { assert init[i] == batch[i]; }
        }
        forall i | 0 <= i < n ensures init[i].name in Names(batch) { assert init[i] == batch[i]; }
        assert batch[n].name in Names(batch);
      }
    }
  }

  /** Some batch of calls brings a chain up, and some brings it down. */
  lemma BatchFor(statuses: map<string, Status>, target: Status) returns (batch: seq<CallStatus>)
    requires target != Unknown
    ensures Aggregate(Fed(statuses, batch)) == target
  {
    if target == Up {
      batch := [CallStatus("", true)];
      FedIsLastCall(statuses, batch, 0);
      assert Fed(statuses, batch)[""] in Fed(statuses, batch).Values;
    } else {
      batch := FailingBatch(statuses.Keys);
      FailedAreDown(statuses, batch);
      assert forall x :: x in Fed(statuses, batch) ==> Fed(statuses, batch)[x] == Down;
    }
  }

  /** A whole Update that ends with the chain at the given status. */
  lemma UpdatesTo(s: System, t: System, k: ChainId, target: Status) returns (t': System)
    requires Drifts(s, t) && k in t.chains && t.NoUpdate() && target != Unknown
    ensures Drifts(s, t') && Only(t, t', k) && t'.NoUpdate()
    ensures t'.chains[k].Current() == target && t'.chains[k].last.Some?
  {
    var m := t.chains[k];
    var batch := BatchFor(m.statuses, target);
    var t1 := ChainMove(s, t, k, Begin(batch));
    t' := Finishes(s, t1, k);
  }

  // ---------------------------------------------------------------------------
  // All chains
  // ---------------------------------------------------------------------------

  lemma {:induction false} FinishAll(s: System, t: System, todo: set<ChainId>) returns (t': System)
    requires Drifts(s, t) && forall k :: k in t.chains && k !in todo ==> t.chains[k].phase.Idle?
    ensures Drifts(s, t') && t'.NoUpdate()
    decreases todo
  {
    if todo == {} {
      t' := t;
    } else {
      var k :| k in todo;
      var t1 := t;
      if k in t.chains { t1 := Finishes(s, t, k); }
      t' := FinishAll(s, t1, todo - {k});
    }
  }

  /** Chain k has been updated and is at the status stored last. */
  predicate Restored(t: System, k: ChainId) {
    t.last.Some? && k in t.chains && k in t.last.value.perChain
    && t.chains[k].Current() == t.last.value.perChain[k] && t.chains[k].last.Some?
  }

  /** The status stored last names every chain, and none as unknown. */
  predicate StoredKnown(s: System) {
    && s.last.Some? && s.last.value.perChain.Keys == s.chains.Keys
    && forall k :: k in s.chains ==> s.last.value.perChain[k] != Unknown
  }

  lemma CoreStoresKnown(s: System)
    requires Core(s) && s.handler.Free? && s.last.Some?
    ensures StoredKnown(s)
  {
    forall k | k in s.chains ensures s.last.value.perChain[k] != Unknown {
      assert Seen(s.chains[k]) == Some(s.last.value.perChain[k]);
    }
  }

  predicate AllRestored(t: System) { t.NoUpdate() && forall k :: k in t.chains ==> Restored(t, k) }

  lemma {:induction false} RestoreAll(s: System, t: System, todo: set<ChainId>) returns (t': System)
    requires StoredKnown(s) && Drifts(s, t) && t.NoUpdate() && todo <= t.chains.Keys
    requires forall k :: k in t.chains && k !in todo ==> Restored(t, k)
    ensures Drifts(s, t') && AllRestored(t')
    decreases todo
  {
    if todo == {} {
      t' := t;
    } else {
      var k :| k in todo;
      var t1 := UpdatesTo(s, t, k, s.last.value.perChain[k]);
      forall j | j in t1.chains && j !in todo - {k} ensures Restored(t1, j) {
        if j != k { assert t1.chains[j] == t.chains[j] && Restored(t, j); }
      }
      t' := RestoreAll(s, t1, todo - {k});
    }
  }

  // ---------------------------------------------------------------------------
  // Handling the tokens in vain
  // ---------------------------------------------------------------------------

  lemma NothingChanged(t: System, k: ChainId)
    requires Core(t) && t.handler.Free? && t.last.Some? && AllRestored(t)
    ensures AfterHandle(t, k) == t.(chains := AllGathered(t.chains, k)) && t.Readable() == t.last.value
  {
    CoreStoresKnown(t);
    assert HandlerOk(Strip(t));
    assert t.PerChain() == t.last.value.perChain == t.aggregator;
    AfterHandleIs(t, k, t.PerChain());
  }

  /** What a gathering leaves of the chains. */
  lemma GatheredStays(t: System, own: ChainId, t': System)
    requires t' == t.(chains := AllGathered(t.chains, own)) && AllRestored(t)
    ensures t'.chains.Keys == t.chains.Keys && AllRestored(t')
    ensures forall k :: k in t.chains && k != own ==> (Pending(t'.chains[k]) <==> Pending(t.chains[k]))
    ensures own in t.chains && WORKER in t.chains[own].subs && !t.chains[own].subs[WORKER].token ==> !Pending(t'.chains[own])
  {
    forall k | k in t.chains ensures t'.chains[k].phase.Idle? && Restored(t', k) {
      assert Restored(t, k) && t'.chains[k] == Gathered(t.chains[k], k == own);
    }
  }

  /** Worker k takes its token, if it has one, and handles it without finding a change. */
  lemma HandlesInVain(s: System, t: System, k: ChainId) returns (t': System)
    requires Core(s) && Drifts(s, t) && t.last.Some? && AllRestored(t) && k in t.chains && Pending(t.chains[k])
    ensures Drifts(s, t') && AllRestored(t') && !Pending(t'.chains[k])
    ensures forall j :: j in t.chains && j != k ==> (Pending(t'.chains[j]) <==> Pending(t.chains[j]))
  {
    var t1 := TakesToken(s, t, k);
    ContinuesKeepsCore(s, t1);
    NothingChanged(t1, k);
    t' := AfterHandle(t1, k);
    DriftOn(s, t1, Handle(k));
    GatheredStays(t1, k, t');
  }

  lemma TakesToken(s: System, t: System, k: ChainId) returns (t': System)
    requires Drifts(s, t) && t.last.Some? && AllRestored(t) && k in t.chains && Pending(t.chains[k])
    ensures Drifts(s, t') && AllRestored(t') && Only(t, t', k)
    ensures WORKER in t'.chains[k].subs && t'.chains[k].subs[WORKER].owes && !t'.chains[k].subs[WORKER].token
  {
    if t.chains[k].subs[WORKER].token {
      t' := ChainMove(s, t, k, Take(WORKER));
      forall j | j in t'.chains ensures t'.chains[j].phase.Idle? && Restored(t', j) {
        assert Restored(t, j);
      }
    } else {
      t' := t;
    }
  }

  lemma {:induction false} DrainAll(s: System, t: System, todo: set<ChainId>) returns (t': System)
    requires Core(s) && Drifts(s, t) && t.last.Some? && AllRestored(t)
    requires forall k :: k in t.chains && k !in todo ==> !Pending(t.chains[k])
    ensures Drifts(s, t') && AllRestored(t') && !t'.WorkerPending()
    decreases todo
  {
    if todo == {} {
      t' := t;
    } else {
      var k :| k in todo;
      var t1 := t;
      if k in t.chains && Pending(t.chains[k]) { t1 := HandlesInVain(s, t, k); }
      t' := DrainAll(s, t1, todo - {k});
    }
  }

  // ---------------------------------------------------------------------------
  // The exact condition
  // ---------------------------------------------------------------------------

  lemma LostAtRest(s: System, t: System, ch: Channel)
    requires Misled(s, ch) && t.clients == s.clients && t.last == s.last && t.handler.Free? && AllRestored(t)
    requires t.chains.Keys != {} && !t.WorkerPending() && t.Readable() == t.last.value
    ensures !NoLostNotification(t)
  {
    var k :| k in t.chains;
    assert Restored(t, k);
    assert ch in t.clients && TrackedClient(t.clients[ch]) && !InformedClient(t.clients[ch], t.Readable());
  }

  /** From every state with a misled client, some continuation loses its notification: it never reads again and is never told. */
  lemma MisledCanLose(s: System, ch: Channel) returns (t: System)
    requires Core(s) && s.handler.Free? && s.chains.Keys != {} && Misled(s, ch)
    ensures Continues(s, t) && !NoLostNotification(t)
  {
    Stay(s);
    CoreStoresKnown(s);
    var t1 := FinishAll(s, s, s.chains.Keys);
    var t2 := RestoreAll(s, t1, t1.chains.Keys);
    t := DrainAll(s, t2, t2.chains.Keys);
    ContinuesKeepsCore(s, t);
    var k :| k in t.chains;
    NothingChanged(t, k);
    LostAtRest(s, t, ch);
  }

  lemma BriefedIsCalm(s: System)
    requires Core(s) && s.handler.Free? && Briefed(s)
    ensures Calm(s)
  {
    assert Strip(s).Readable() == s.Readable();
  }

  /** From a state without a misled client no such run loses anything. */
  lemma NobodyMisled(s: System, t: System)
    requires Core(s) && s.handler.Free? && (forall ch :: !Misled(s, ch)) && Continues(s, t)
    ensures NoLostNotification(t)
  {
    assert Briefed(s) by {
      forall ch | s.last.Some? && ch in s.clients && TrackedClient(s.clients[ch]) ensures InformedClient(s.clients[ch], s.last.value) {
        assert !Misled(s, ch);
      }
    }
    BriefedIsCalm(s);
    var states, events :|
      && SystemRun(states, events) && states[0] == s && states[|events|] == t
      && forall i :: 0 <= i < |events| ==> !StaleRead(states[i], events[i]);
    CalmRunLosesNothing(states, events, |events|);
  }

  /**
   For every reachable state between handlings: a notification can be lost in a run without stale reads if
   and only if some client is misled already.
   */
  lemma LossReachableExactly(s: System)
    requires Core(s) && s.handler.Free? && s.last.Some? && s.chains.Keys != {}
    ensures (exists t :: Continues(s, t) && !NoLostNotification(t)) <==> exists ch :: Misled(s, ch)
  {
    if ch :| Misled(s, ch) {
      var t := MisledCanLose(s, ch);
    } else {
      forall t | Continues(s, t) ensures NoLostNotification(t) { NobodyMisled(s, t); }
    }
  }

  /** A stale read by a client that is left without a token misleads it, so that its notification can be lost. */
  lemma StaleReadCanLose(s: System, e: Event) returns (t: System)
    requires Core(s) && Possible(s, e) && StaleRead(s, e) && s.chains.Keys != {}
    requires !s.clients[e.ch].token && (e.GlanceAt? ==> !s.clients[e.ch].owes)
    ensures Misled(Step(s, e), e.ch) && Continues(Step(s, e), t) && !NoLostNotification(t)
  {
    StepKeepsCore(s, e);
    StepKeepsChainIds(s, e);
    t := MisledCanLose(Step(s, e), e.ch);
  }
}
