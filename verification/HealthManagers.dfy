/**
 The objects of the health manager, one call at a time: subscriptions, a chain's manager and the
 blockchain manager's gathering (healthmanager/subscription_manager.go:19-52,
 healthmanager/providers_health_manager.go:32-97, healthmanager/blockchain_health_manager.go:121-222).
 */
module HealthManagers {
  import opened Wrappers
  import opened ProvidersHealth
  import opened BlockchainHealth

  /** A one-slot channel of tokens. */
  class TokenChannel {
    var full: bool
    var closed: bool
    constructor () ensures !full && !closed { full, closed := false, false; }
  }

  class SubscriptionManager {
    var subscribers: set<TokenChannel>

    /** No registered channel is closed, so a send never meets a closed channel. */
    ghost predicate Valid() reads this, subscribers { forall ch :: ch in subscribers ==> !ch.closed }

    constructor ()
      ensures Valid() && subscribers == {}
    {
      subscribers := {};
    }

    method Subscribe() returns (ch: TokenChannel)
      requires Valid()
      modifies this
      ensures Valid() && fresh(ch) && !ch.full && subscribers == old(subscribers) + {ch}
    {
      ch := new TokenChannel();
      subscribers := subscribers + {ch};
    }

    /** Closes a registered channel, and never a second time. */
    method Unsubscribe(ch: TokenChannel)
      requires Valid()
      modifies this, ch
      ensures Valid() && subscribers == old(subscribers) - {ch} && ch.full == old(ch.full)
      ensures ch.closed == (old(ch.closed) || ch in old(subscribers))
    {
      if ch !in subscribers {
        return;
      }
      subscribers := subscribers - {ch};
      assert !ch.closed;
      ch.closed := true;
    }

    /** done(i): the i-th select finds the context done and takes that case. */
    method Emit(done: nat -> bool)
      requires Valid()
      modifies subscribers
      ensures Valid()
      ensures forall ch :: ch in subscribers ==> ch.closed == old(ch.closed) && (old(ch.full) ==> ch.full)
      ensures (forall i: nat :: !done(i)) ==> forall ch :: ch in subscribers ==> ch.full
    {
      var left := subscribers;
      ghost var served := {};
      var i := 0;
      while left != {}
        invariant left <= subscribers && served == subscribers - left
        invariant forall ch :: ch in subscribers ==> ch.closed == old(ch.closed) && (old(ch.full) ==> ch.full)
        invariant forall ch :: ch in served ==> ch.full
        decreases left
      {
        var ch :| ch in left;
        left := left - {ch};
        served := served + {ch};
        if done(i) {
          return;
        }
        if !ch.full {
          ch.full := true;
        }
        i := i + 1;
      }
    }
  }

  class ProvidersHealthManager {
    var statuses: map<string, Status>
    var lastStatus: Option<Status>
    const subscriptions: SubscriptionManager

    constructor ()
      ensures statuses == map[] && lastStatus == None && fresh(subscriptions) && subscriptions.Valid() && subscriptions.subscribers == {}
    {
      statuses, lastStatus := map[], None;
      subscriptions := new SubscriptionManager();
    }

    function Status(): ProvidersHealth.Status
      reads this
    {
      Aggregate(statuses)
    }

    method DoUpdate(batch: seq<CallStatus>) returns (shouldEmit: bool, status: ProvidersHealth.Status)
      modifies this
      ensures statuses == Fed(old(statuses), batch) && lastStatus == old(lastStatus)
      ensures status == Status() && shouldEmit == (lastStatus != Some(status))
    {
      for i := 0 to |batch|
        invariant statuses == Fed(old(statuses), batch[..i]) && lastStatus == old(lastStatus)
      {
        assert batch[..i + 1][..i] == batch[..i];
        statuses := statuses[batch[i].name := if batch[i].served then Up else Down];
      }
      assert batch[..|batch|] == batch;
      status := Aggregate(statuses);
      shouldEmit := lastStatus.None? || lastStatus.value != status;
    }

    /** Stores the batch; tells every subscriber, and remembers the new status, exactly when it differs. */
    method Update(done: nat -> bool, batch: seq<CallStatus>)
      requires subscriptions.Valid()
      modifies this, subscriptions.subscribers
      ensures subscriptions.Valid()
      ensures statuses == Fed(old(statuses), batch) && lastStatus == Some(Status())
      ensures old(lastStatus) == Some(Status()) ==> forall ch :: ch in subscriptions.subscribers ==> ch.full == old(ch.full)
      ensures old(lastStatus) != Some(Status()) && (forall i: nat :: !done(i)) ==>
                forall ch :: ch in subscriptions.subscribers ==> ch.full
      ensures forall ch :: ch in subscriptions.subscribers ==> old(ch.full) ==> ch.full
    {
      var shouldEmit, status := DoUpdate(batch);
      if !shouldEmit {
        return;
      }
      subscriptions.Emit(done);
      lastStatus := Some(status);
    }

    method Reset()
      modifies this
      ensures statuses == map[] && lastStatus == None && Status() == Down
    {
      statuses, lastStatus := map[], None;
    }
  }

  /** Compares overall status, number of chains and the status of each chain: together, equality. */
  method CompareShortStatus(a: BlockchainStatus, b: BlockchainStatus) returns (same: bool)
    ensures same == (a == b)
  {
    if a.status != b.status {
      return false;
    }
    if |a.perChain| != |b.perChain| {
      return false;
    }
    var left := a.perChain.Keys;
    while left != {}
      invariant left <= a.perChain.Keys
      invariant forall k :: k in a.perChain && k !in left ==> k in b.perChain && b.perChain[k] == a.perChain[k]
      decreases left
    {
      var k :| k in left;
      left := left - {k};
      if k !in b.perChain || a.perChain[k] != b.perChain[k] {
        return false;
      }
    }
    SameKeys(a.perChain.Keys, b.perChain.Keys);
    assert a.perChain == b.perChain;
    return true;
  }

  lemma SameKeys<K>(a: set<K>, b: set<K>)
    requires a <= b && |a| == |b|
    ensures a == b
  {
    assert b == a + (b - a);
    assert |b| == |a| + |b - a|;
  }

  class BlockchainHealthManager {
    const providers: map<ChainId, ProvidersHealthManager>
    var aggregator: map<ChainId, Status>
    var lastStatus: Option<BlockchainStatus>
    const subscriptions: SubscriptionManager

    constructor (providers: map<ChainId, ProvidersHealthManager>)
      ensures this.providers == providers && aggregator == map[] && lastStatus == None
      ensures fresh(subscriptions) && subscriptions.Valid() && subscriptions.subscribers == {}
    {
      this.providers, aggregator, lastStatus := providers, map[], None;
      subscriptions := new SubscriptionManager();
    }

    function PerChain(): map<ChainId, Status>
      reads providers.Values
    {
      map k | k in providers :: providers[k].Status()
    }

    /** Asks every chain's manager for its status. */
    method StatusPerChain() returns (perChain: map<ChainId, Status>)
      ensures perChain == PerChain()
    {
      var left := providers.Keys;
      perChain := map[];
      while left != {}
        invariant left <= providers.Keys && perChain.Keys == providers.Keys - left
        invariant forall k :: k in perChain ==> perChain[k] == providers[k].Status()
        decreases left
      {
        var k :| k in left;
        left := left - {k};
        perChain := perChain[k := providers[k].Status()];
      }
    }

    /** Feeds the current status of every chain to the aggregator. */
    method AggregateStatus() returns (status: BlockchainStatus)
      modifies this
      ensures aggregator == old(aggregator + PerChain()) && lastStatus == old(lastStatus)
      ensures status == BlockchainStatus(Aggregate(aggregator), old(PerChain()))
    {
      var perChain := StatusPerChain();
      aggregator := aggregator + perChain;
      status := BlockchainStatus(Aggregate(aggregator), perChain);
    }

    /** Remembers what is current; tells every client exactly when it differs from what was remembered. */
    method AggregateAndUpdateStatus(done: nat -> bool)
      requires subscriptions.Valid()
      modifies this, subscriptions.subscribers
      ensures subscriptions.Valid() && aggregator == old(aggregator + PerChain())
      ensures lastStatus == Some(BlockchainStatus(Aggregate(aggregator), old(PerChain())))
      ensures lastStatus == old(lastStatus) ==> forall ch :: ch in subscriptions.subscribers ==> ch.full == old(ch.full)
      ensures lastStatus != old(lastStatus) && (forall i: nat :: !done(i)) ==> forall ch :: ch in subscriptions.subscribers ==> ch.full
    {
      var status := AggregateStatus();
      var same := false;
      if lastStatus.Some? {
        same := CompareShortStatus(status, lastStatus.value);
      }
      if !same {
        lastStatus := Some(status);
        subscriptions.Emit(done);
      }
    }
  }
}
