/**
 The blockchain health manager on top of the chains' managers, as a protocol
 (healthmanager/blockchain_health_manager.go:73-129, 131-186, 208-228).

 One worker per chain subscribes to that chain's manager before its first Update.  A worker that took a
 token gathers all statuses, compares them with the last ones, and notifies the clients if they differ.
 An Update and the handling of a token never overlap, and neither do two handlings; clients take tokens
 and read the status at any time.
 */
module BlockchainHealth {
  import opened Wrappers
  import opened ProvidersHealth

  type ChainId = nat

  /** The channel of the worker among a chain manager's subscribers. */
  const WORKER: Channel := 0

  datatype BlockchainStatus = BlockchainStatus(status: Status, perChain: map<ChainId, Status>)

  datatype Client = Client(token: bool, owes: bool, read: Option<BlockchainStatus>, early: bool)

  /** Where the handling of a token is. */
  datatype Handler =
    | Free
    | Changed(status: BlockchainStatus)
    | Stored(status: BlockchainStatus)
    | Publishing(status: BlockchainStatus, served: set<Channel>)

  datatype System = System(
    chains: map<ChainId, Manager>,
    aggregator: map<ChainId, Status>,
    last: Option<BlockchainStatus>,
    handler: Handler,
    clients: map<Channel, Client>)
  {
    /** The current status of every chain. */
    function PerChain(): map<ChainId, Status> { map k | k in chains :: chains[k].Current() }

    /** What GetStatusPerChain returns: fresh chain statuses, but the overall status of the last gathering. */
    function Readable(): BlockchainStatus { BlockchainStatus(Aggregate(aggregator), PerChain()) }

    /** No Update is in flight. */
    predicate NoUpdate() { forall k :: k in chains ==> chains[k].phase.Idle? }

    /** Some worker has a token, or took one that it has not handled yet. */
    predicate WorkerPending() { exists k :: k in chains && Pending(chains[k]) }
  }

  predicate Pending(m: Manager) {
    WORKER in m.subs && (m.subs[WORKER].token || m.subs[WORKER].owes)
  }

  datatype Event =
    | OnChain(chain: ChainId, action: Action) // a step of a chain's manager
    | Handle(chain: ChainId)                  // a worker gathers the statuses and compares them
    | Store                                   // updateStatus
    | StartEmit
    | Offer(ch: Channel)                      // Emit offers a token to one client
    | EndEmit
    | Join(ch: Channel)
    | Leave(ch: Channel)
    | TakeToken(ch: Channel)
    | ReadStatus(ch: Channel)
    | GlanceAt(ch: Channel)

  /** The steps of a chain's manager that do not belong to handling, with live contexts and no Reset. */
  predicate PlainAction(a: Action) {
    a != Cancel && a != Reset && a != Read(WORKER) && a != Glance(WORKER) && a != Unsubscribe(WORKER)
  }

  predicate Possible(s: System, e: Event) {
    match e
    case OnChain(k, a) =>
      && k in s.chains && PlainAction(a) && Enabled(s.chains[k], a)
      && (a.Begin? ==> s.NoUpdate() && s.handler.Free?)
    case Handle(k) =>
      && k in s.chains && s.NoUpdate() && s.handler.Free?
      && WORKER in s.chains[k].subs && s.chains[k].subs[WORKER].owes
    case Store => s.handler.Changed?
    case StartEmit => s.handler.Stored?
    case Offer(ch) => s.handler.Publishing? && ch in s.clients && ch !in s.handler.served
    case EndEmit => s.handler.Publishing? && s.clients.Keys <= s.handler.served
    case Join(ch) => !s.handler.Publishing? && ch !in s.clients
    case Leave(ch) => !s.handler.Publishing? && ch in s.clients
    case TakeToken(ch) => ch in s.clients && s.clients[ch].token
    case ReadStatus(ch) => ch in s.clients && s.clients[ch].owes
    case GlanceAt(ch) => ch in s.clients
  }

  /** The manager after its status was read for a gathering, by its own worker or another one. */
  function Gathered(m: Manager, own: bool): Manager {
    if WORKER !in m.subs then m
    else m.(subs := m.subs[WORKER := m.subs[WORKER].(read := Some(m.Current()), owes := m.subs[WORKER].owes && !own)])
  }

  function AllGathered(chains: map<ChainId, Manager>, own: ChainId): map<ChainId, Manager> {
    map k | k in chains :: Gathered(chains[k], k == own)
  }

  /** The system after a worker gathered the statuses; overall holds the aggregator's entries by chain. */
  function AfterHandle(s: System, own: ChainId): System {
    var perChain := s.PerChain();
    var aggregator := s.aggregator + perChain;
    var status := BlockchainStatus(Aggregate(aggregator), perChain);
    s.(chains := AllGathered(s.chains, own), aggregator := aggregator,
       handler := if s.last == Some(status) then Free else Changed(status))
  }

  function Step(s: System, e: Event): System
    requires Possible(s, e)
  {
    match e
    case OnChain(k, a) => s.(chains := s.chains[k := Next(s.chains[k], a)])
    case Handle(k) => AfterHandle(s, k)
    case Store => s.(last := Some(s.handler.status), handler := Stored(s.handler.status))
    case StartEmit => s.(handler := Publishing(s.handler.status, {}))
    case Offer(ch) =>
      s.(clients := s.clients[ch := s.clients[ch].(token := true)], handler := Publishing(s.handler.status, s.handler.served + {ch}))
    case EndEmit => s.(handler := Free)
    case Join(ch) => s.(clients := s.clients[ch := Client(false, false, None, s.last.None? && s.handler.Free?)])
    case Leave(ch) => s.(clients := s.clients - {ch})
    case TakeToken(ch) => s.(clients := s.clients[ch := s.clients[ch].(token := false, owes := true)])
    case ReadStatus(ch) => s.(clients := s.clients[ch := s.clients[ch].(owes := false, read := Some(s.Readable()))])
    case GlanceAt(ch) => s.(clients := s.clients[ch := s.clients[ch].(read := Some(s.Readable()))])
  }

  ghost predicate SystemRun(states: seq<System>, events: seq<Event>) {
    && |states| == |events| + 1
    && forall i :: 0 <= i < |events| ==> Possible(states[i], events[i]) && states[i + 1] == Step(states[i], events[i])
  }

  /** Every token is handled before the next Update begins. */
  predicate Prompt(s: System, e: Event) { e.OnChain? && e.action.Begin? ==> !s.WorkerPending() }

  /** A client reads a status that was not stored yet, and that no handling is about to publish. */
  predicate StaleRead(s: System, e: Event) {
    (e.ReadStatus? || e.GlanceAt?) && s.handler.Free? && s.last.Some? && s.Readable() != s.last.value
  }

  /** Every chain starts with its worker subscribed and nothing else. */
  function Fresh(): Manager { START.(subs := map[WORKER := Subscriber(false, false, None, true)]) }

  function Initial(ids: set<ChainId>): System {
    System(map k | k in ids :: Fresh(), map[], None, Free, map[])
  }

  // ---------------------------------------------------------------------------
  // The invariant
  // ---------------------------------------------------------------------------

  predicate TrackedClient(c: Client) { c.early || c.read.Some? }

  predicate InformedClient(c: Client, status: BlockchainStatus) { c.token || c.owes || c.read == Some(status) }

  /**
   With no Update in flight and no token being handled, once some chain was updated: a worker still has
   a token to handle, or every tracked client is informed of what can be read now.
   */
  predicate NoLostNotification(s: System) {
    (s.NoUpdate() && s.handler.Free? && exists k :: k in s.chains && s.chains[k].last.Some?) ==>
      s.WorkerPending() || forall ch :: ch in s.clients && TrackedClient(s.clients[ch]) ==> InformedClient(s.clients[ch], s.Readable())
  }

  /** Every tracked client is informed of the status stored last. */
  predicate Briefed(s: System) {
    s.last.Some? ==> forall ch :: ch in s.clients && TrackedClient(s.clients[ch]) ==> InformedClient(s.clients[ch], s.last.value)
  }

  /** An Update begins only when everybody is briefed. */
  predicate Admitted(s: System, e: Event) { e.OnChain? && e.action.Begin? ==> Briefed(s) }

  /** One chain's manager: its own invariant, and the worker's place in it. */
  predicate ChainOk(m: Manager) {
    && Invariant(m) && WORKER in m.subs && m.subs[WORKER].early
    && (m.last.None? ==> m.subs[WORKER].read.None? || m.subs[WORKER].read.value == Down)
    && (m.last.None? && m.phase.Idle? ==> m.statuses == map[])
  }

  /** What the worker read last, on any worker's gathering. */
  function Seen(m: Manager): Option<Status> { if WORKER in m.subs then m.subs[WORKER].read else None }

  /** The statuses stored last are those the workers saw last. */
  predicate Recorded(chains: map<ChainId, Manager>, last: Option<BlockchainStatus>) {
    match last
    case None => forall k :: k in chains ==> Seen(chains[k]) == None
    case Some(v) => v.perChain.Keys == chains.Keys && forall k :: k in chains ==> Seen(chains[k]) == Some(v.perChain[k])
  }

  predicate ClientsOk(s: System) {
    match s.handler
    case Free => s.last.Some? ==>
      forall ch :: ch in s.clients && TrackedClient(s.clients[ch]) ==>
        InformedClient(s.clients[ch], s.last.value) || s.clients[ch].read == Some(s.Readable())
    case Changed(status) => true
    case Stored(status) => true
    case Publishing(status, served) =>
      forall ch :: ch in s.clients && ch in served && TrackedClient(s.clients[ch]) ==> InformedClient(s.clients[ch], status)
  }

  /** While a changed status is being stored and published, it is what can be read. */
  predicate Fixed(s: System, status: BlockchainStatus) {
    s.NoUpdate() && status == s.Readable() && s.aggregator == status.perChain && Recorded(s.chains, Some(status))
  }

  predicate HandlerOk(s: System) {
    match s.handler
    case Free =>
      Recorded(s.chains, s.last) && (s.last.Some? ==> s.aggregator == s.last.value.perChain && s.last.value.status == Aggregate(s.aggregator))
    case Changed(status) => Fixed(s, status)
    case Stored(status) => Fixed(s, status) && s.last == Some(status)
    case Publishing(status, _) => Fixed(s, status) && s.last == Some(status)
  }

  /** The part of the invariant that is not about single chains. */
  predicate SharedOk(s: System) { s.aggregator.Keys <= s.chains.Keys && HandlerOk(s) && ClientsOk(s) }

  predicate SystemOk(s: System) {
    (forall k :: k in s.chains ==> ChainOk(s.chains[k])) && SharedOk(s)
  }

  // ---------------------------------------------------------------------------
  // Steps of one chain
  // ---------------------------------------------------------------------------

  lemma ChainStepKeeps(m: Manager, a: Action)
    requires ChainOk(m) && PlainAction(a) && Enabled(m, a)
    ensures var n := Next(m, a);
            && ChainOk(n) && Seen(n) == Seen(m)
            && (!a.Begin? ==> n.Current() == m.Current() && (m.phase.Idle? ==> n.phase.Idle?))
  {
    StepKeepsInvariant(m, a);
  }

  lemma GatheredKeeps(m: Manager, own: bool)
    requires ChainOk(m) && m.phase.Idle?
    ensures var n := Gathered(m, own); ChainOk(n) && Seen(n) == Some(m.Current()) && n.Current() == m.Current() && n.phase.Idle?
  {
  }

  /** A chain without a pending token is recorded with its current status. */
  lemma SettledIsRecorded(m: Manager)
    requires ChainOk(m) && m.phase.Idle? && !Pending(m)
    ensures m.last.Some? ==> Seen(m) == Some(m.Current())
    ensures Seen(m).Some? ==> Seen(m) == Some(m.Current())
  {
    if m.last.Some? {
      assert Tracked(m.subs[WORKER]) && Informed(m.subs[WORKER], m.Current());
    }
  }

  /** When nothing is in transit, what was stored last is what can be read. */
  lemma SettledIsReadable(s: System)
    requires SystemOk(s) && s.NoUpdate() && s.handler.Free? && !s.WorkerPending() && s.last.Some?
    ensures s.Readable() == s.last.value
  {
    forall k | k in s.chains
      ensures s.last.value.perChain[k] == s.chains[k].Current()
    {
      SettledIsRecorded(s.chains[k]);
    }
    assert s.PerChain() == s.last.value.perChain;
  }

  // ---------------------------------------------------------------------------
  // Steps of the system
  // ---------------------------------------------------------------------------

  /** Replacing one chain's manager by one in which the worker saw the same. */
  lemma ReplaceKeepsRecorded(chains: map<ChainId, Manager>, k: ChainId, n: Manager, last: Option<BlockchainStatus>)
    requires k in chains && Seen(n) == Seen(chains[k])
    ensures Recorded(chains[k := n], last) <==> Recorded(chains, last)
  {
    var next := chains[k := n];
    assert next.Keys == chains.Keys;
    assert forall j :: j in chains ==> Seen(next[j]) == Seen(chains[j]);
  }

  lemma ReplaceKeepsReadable(s: System, k: ChainId, n: Manager)
    requires k in s.chains && n.Current() == s.chains[k].Current()
    ensures s.(chains := s.chains[k := n]).Readable() == s.Readable()
  {
    assert s.(chains := s.chains[k := n]).PerChain() == s.PerChain();
  }

  lemma ReplaceKeeps(s: System, k: ChainId, n: Manager, same: bool)
    requires SharedOk(s) && k in s.chains && Seen(n) == Seen(s.chains[k])
    requires same ==> n.Current() == s.chains[k].Current() && (s.chains[k].phase.Idle? ==> n.phase.Idle?)
    requires !same ==> s.handler.Free? && Briefed(s)
    ensures SharedOk(s.(chains := s.chains[k := n]))
  {
    var t := s.(chains := s.chains[k := n]);
    ReplaceKeepsRecorded(s.chains, k, n, if s.handler.Free? then s.last else Some(s.handler.status));
    if same { ReplaceKeepsReadable(s, k, n); }
    assert t.chains.Keys == s.chains.Keys;
    assert ClientsOk(t);
  }

  lemma OnChainKeeps(s: System, k: ChainId, a: Action)
    requires SystemOk(s) && Possible(s, OnChain(k, a)) && Admitted(s, OnChain(k, a))
    ensures SystemOk(Step(s, OnChain(k, a)))
  {
    ChainStepKeeps(s.chains[k], a);
    ReplaceKeeps(s, k, Next(s.chains[k], a), !a.Begin?);
  }

  lemma AllGatheredOk(chains: map<ChainId, Manager>, own: ChainId, k: ChainId)
    requires k in chains && ChainOk(chains[k]) && chains[k].phase.Idle?
    ensures k in AllGathered(chains, own)
    ensures var n := AllGathered(chains, own)[k];
            ChainOk(n) && n.phase.Idle? && Seen(n) == Some(chains[k].Current()) && n.Current() == chains[k].Current()
  {
    GatheredKeeps(chains[k], k == own);
  }

  /** What AfterHandle leaves, given the gathered chains. */
  lemma AfterHandleIs(s: System, own: ChainId, perChain: map<ChainId, Status>)
    requires s.aggregator.Keys <= s.chains.Keys && perChain == s.PerChain()
    ensures var status := BlockchainStatus(Aggregate(perChain), perChain);
            AfterHandle(s, own) ==
              s.(chains := AllGathered(s.chains, own), aggregator := perChain,
                 handler := if s.last == Some(status) then Free else Changed(status))
  {
    assert s.aggregator + perChain == perChain;
  }

  lemma HandleKeeps(s: System, own: ChainId)
    requires SystemOk(s) && s.NoUpdate() && s.handler.Free?
    ensures SystemOk(AfterHandle(s, own))
  {
    var perChain := s.PerChain();
    var chains := AllGathered(s.chains, own);
    forall k | k in s.chains
      ensures k in chains && ChainOk(chains[k]) && chains[k].phase.Idle?
      ensures Seen(chains[k]) == Some(perChain[k]) && chains[k].Current() == perChain[k]
    {
      AllGatheredOk(s.chains, own, k);
    }
    AfterHandleIs(s, own, perChain);
    GatheringKeeps(s, chains, BlockchainStatus(Aggregate(perChain), perChain));
  }

  /** The step of a gathering, given what it did to the chains. */
  lemma GatheringKeeps(s: System, chains: map<ChainId, Manager>, status: BlockchainStatus)
    requires SharedOk(s) && s.handler.Free?
    requires status.perChain == s.PerChain() && status.status == Aggregate(status.perChain)
    requires chains.Keys == s.chains.Keys == status.perChain.Keys
    requires forall k :: k in chains ==>
               chains[k].phase.Idle? && Seen(chains[k]) == Some(status.perChain[k]) && chains[k].Current() == status.perChain[k]
    ensures SharedOk(s.(chains := chains, aggregator := status.perChain,
                        handler := if s.last == Some(status) then Free else Changed(status)))
  {
    var t := s.(chains := chains, aggregator := status.perChain, handler := if s.last == Some(status) then Free else Changed(status));
    assert t.PerChain() == status.perChain;
    assert Recorded(chains, Some(status));
  }

  lemma HandlingKeeps(s: System, e: Event)
    requires SharedOk(s) && Possible(s, e) && (e.Store? || e.StartEmit? || e.Offer? || e.EndEmit?)
    ensures Step(s, e).chains == s.chains && SharedOk(Step(s, e))
  {
    assert Step(s, e).Readable() == s.Readable();
  }

  lemma ClientKeeps(s: System, e: Event)
    requires SharedOk(s) && Possible(s, e)
    requires e.Join? || e.Leave? || e.TakeToken? || e.ReadStatus? || e.GlanceAt?
    ensures Step(s, e).chains == s.chains && SharedOk(Step(s, e))
  {
    assert Step(s, e).Readable() == s.Readable();
  }

  lemma SystemStepKeeps(s: System, e: Event)
    requires SystemOk(s) && Possible(s, e) && Admitted(s, e)
    ensures SystemOk(Step(s, e))
  {
    match e
    case OnChain(k, a) => OnChainKeeps(s, k, a);
    case Handle(k) => HandleKeeps(s, k);
    case Store => HandlingKeeps(s, e);
    case StartEmit => HandlingKeeps(s, e);
    case Offer(_) => HandlingKeeps(s, e);
    case EndEmit => HandlingKeeps(s, e);
    case Join(_) => ClientKeeps(s, e);
    case Leave(_) => ClientKeeps(s, e);
    case TakeToken(_) => ClientKeeps(s, e);
    case ReadStatus(_) => ClientKeeps(s, e);
    case GlanceAt(_) => ClientKeeps(s, e);
  }

  lemma OkLosesNothing(s: System)
    requires SystemOk(s)
    ensures NoLostNotification(s)
  {
    if s.NoUpdate() && s.handler.Free? && !s.WorkerPending() {
      forall k | k in s.chains && s.chains[k].last.Some?
        ensures s.last.Some?
      {
        SettledIsRecorded(s.chains[k]);
      }
      if s.last.Some? { SettledIsReadable(s); }
    }
  }

  lemma InitialIsOk(ids: set<ChainId>)
    ensures SystemOk(Initial(ids)) && Briefed(Initial(ids))
  {
  }

  /** A token handled before the next Update: then everybody is briefed when the Update begins. */
  lemma PromptIsAdmitted(s: System, e: Event)
    requires SystemOk(s) && Possible(s, e) && Prompt(s, e)
    ensures Admitted(s, e)
  {
    if e.OnChain? && e.action.Begin? && s.last.Some? { SettledIsReadable(s); }
  }

  /** In every run where each token is handled before the next Update begins, no notification is lost. */
  lemma {:induction false} RunLosesNoNotification(states: seq<System>, events: seq<Event>, ids: set<ChainId>, n: nat)
    requires SystemRun(states, events) && states[0] == Initial(ids) && n <= |events|
    requires forall i :: 0 <= i < |events| ==> Prompt(states[i], events[i])
    ensures SystemOk(states[n]) && NoLostNotification(states[n])
  {
    if n > 0 {
      RunLosesNoNotification(states, events, ids, n - 1);
      PromptIsAdmitted(states[n - 1], events[n - 1]);
      SystemStepKeeps(states[n - 1], events[n - 1]);
    } else {
      InitialIsOk(ids);
    }
    OkLosesNothing(states[n]);
  }

  // ---------------------------------------------------------------------------
  // Runs without stale reads
  // ---------------------------------------------------------------------------

  /** Between handlings everybody is briefed. */
  predicate Calm(s: System) { SystemOk(s) && (s.handler.Free? ==> Briefed(s)) }

  lemma StepKeepsBriefed(s: System, e: Event)
    requires Calm(s) && Possible(s, e) && !StaleRead(s, e)
    ensures Step(s, e).handler.Free? ==> Briefed(Step(s, e))
  {
  }

  lemma CalmStepKeeps(s: System, e: Event)
    requires Calm(s) && Possible(s, e) && !StaleRead(s, e)
    ensures Calm(Step(s, e))
  {
    assert Admitted(s, e);
    SystemStepKeeps(s, e);
    StepKeepsBriefed(s, e);
  }

  /** However late the tokens are handled: in every run without a stale read no notification is lost. */
  lemma {:induction false} CalmRunLosesNothing(states: seq<System>, events: seq<Event>, n: nat)
    requires SystemRun(states, events) && Calm(states[0]) && n <= |events|
    requires forall i :: 0 <= i < |events| ==> !StaleRead(states[i], events[i])
    ensures Calm(states[n]) && NoLostNotification(states[n])
  {
    if n > 0 {
      CalmRunLosesNothing(states, events, n - 1);
      CalmStepKeeps(states[n - 1], events[n - 1]);
    }
    OkLosesNothing(states[n]);
  }
}
