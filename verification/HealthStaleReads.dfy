/**
 Which states of the health protocol can still lose a notification, exactly
 (healthmanager/blockchain_health_manager.go:73-129, 208-228).

 A client is misled when it is uninformed of the status stored last: it read a status that no handling had
 stored.  If the chains then return to the stored status before a worker looks, the worker finds nothing
 changed, and the client is never told.
 */
module HealthStaleReads {
  import opened Wrappers
  import opened ProvidersHealth
  import opened BlockchainHealth

  predicate Misled(s: System, ch: Channel) {
    s.last.Some? && ch in s.clients && TrackedClient(s.clients[ch]) && !InformedClient(s.clients[ch], s.last.value)
  }

  // ---------------------------------------------------------------------------
  // What holds of every reachable state, whatever the clients do
  // ---------------------------------------------------------------------------

  /** Calls are served or fail, so a status is never unknown. */
  predicate Known(m: Manager) { Unknown !in m.statuses.Values && Seen(m) != Some(Unknown) }

  function Strip(s: System): System { s.(clients := map[]) }

  /** The invariant of the system without its clients. */
  predicate Core(s: System) { SystemOk(Strip(s)) && forall k :: k in s.chains ==> Known(s.chains[k]) }

  lemma {:induction false} FedIsKnown(statuses: map<string, Status>, batch: seq<CallStatus>)
    requires Unknown !in statuses.Values
    ensures Unknown !in Fed(statuses, batch).Values
  {
    if batch != [] { FedIsKnown(statuses, batch[..|batch| - 1]); }
  }

  lemma KnownCurrent(m: Manager)
    requires Known(m)
    ensures m.Current() != Unknown
  {
  }

  lemma KnownStep(m: Manager, a: Action)
    requires Known(m) && PlainAction(a) && Enabled(m, a)
    ensures Known(Next(m, a))
  {
    if a.Begin? { FedIsKnown(m.statuses, a.batch); }
  }

  lemma ChainKeepsCore(s: System, k: ChainId, a: Action)
    requires Core(s) && Possible(s, OnChain(k, a))
    ensures Core(Step(s, OnChain(k, a)))
  {
    OnChainKeeps(Strip(s), k, a);
    KnownStep(s.chains[k], a);
  }

  lemma HandleKeepsCore(s: System, own: ChainId)
    requires Core(s) && s.NoUpdate() && s.handler.Free?
    ensures Core(AfterHandle(s, own))
  {
    HandleKeeps(Strip(s), own);
    assert AfterHandle(Strip(s), own) == Strip(AfterHandle(s, own));
    forall k | k in s.chains ensures Known(Gathered(s.chains[k], k == own)) { KnownCurrent(s.chains[k]); }
  }

  lemma OtherKeepsShared(s: System, e: Event)
    requires SharedOk(Strip(s)) && Possible(s, e) && !e.OnChain? && !e.Handle?
    ensures Step(s, e).chains == s.chains && SharedOk(Strip(Step(s, e)))
  {
    assert Strip(Step(s, e)).Readable() == Strip(s).Readable();
  }

  lemma StepKeepsCore(s: System, e: Event)
    requires Core(s) && Possible(s, e)
    ensures Core(Step(s, e))
  {
    match e
    case OnChain(k, a) => ChainKeepsCore(s, k, a);
    case Handle(k) => HandleKeepsCore(s, k);
    case _ => OtherKeepsShared(s, e);
  }

  lemma StepKeepsChainIds(s: System, e: Event)
    requires Possible(s, e)
    ensures Step(s, e).chains.Keys == s.chains.Keys
  {
  }

  lemma InitialIsCore(ids: set<ChainId>)
    ensures Core(Initial(ids)) && Initial(ids).chains.Keys == ids
  {
    InitialIsOk(ids);
    assert Strip(Initial(ids)) == Initial(ids);
  }

  /** Every state of every run has it. */
  lemma {:induction false} ReachableIsCore(states: seq<System>, events: seq<Event>, ids: set<ChainId>, n: nat)
    requires SystemRun(states, events) && states[0] == Initial(ids) && n <= |events|
    ensures Core(states[n]) && states[n].chains.Keys == ids
  {
    if n == 0 {
      InitialIsCore(ids);
    } else {
      ReachableIsCore(states, events, ids, n - 1);
      StepKeepsCore(states[n - 1], events[n - 1]);
      StepKeepsChainIds(states[n - 1], events[n - 1]);
    }
  }
}
