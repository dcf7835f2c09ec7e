/**
 One chain's health manager and its subscribers, as a protocol
 (healthmanager/providers_health_manager.go:32-97, healthmanager/subscription_manager.go:19-52).

 Updates of one manager come one after another, as their callers serialize them, but subscribers come,
 go, take their tokens and read the status between any two steps of an Update.
 */
module ProvidersHealth {
  import opened Wrappers

  datatype Status = Unknown | Up | Down

  /** Up if anything is up, else unknown if anything is unknown, else down. */
  function Aggregate<K>(statuses: map<K, Status>): Status {
    if Up in statuses.Values then Up else if Unknown in statuses.Values then Unknown else Down
  }

  /** The outcome of one call to a provider: served, or failed in a way that counts. */
  datatype CallStatus = CallStatus(name: string, served: bool)

  /** The stored statuses after a batch of calls. */
  function Fed(statuses: map<string, Status>, batch: seq<CallStatus>): map<string, Status> {
    if batch == [] then statuses
    else Fed(statuses, batch[..|batch| - 1])[batch[|batch| - 1].name := if batch[|batch| - 1].served then Up else Down]
  }

  /** The last call of a provider in the batch decides its status. */
  lemma {:induction false} FedIsLastCall(statuses: map<string, Status>, batch: seq<CallStatus>, i: nat)
    requires i < |batch| && forall j :: i < j < |batch| ==> batch[j].name != batch[i].name
    ensures batch[i].name in Fed(statuses, batch)
    ensures Fed(statuses, batch)[batch[i].name] == if batch[i].served then Up else Down
  {
    if i < |batch| - 1 {
      var shorter := batch[..|batch| - 1];
      assert shorter[i] == batch[i];
      FedIsLastCall(statuses, shorter, i);
    }
  }

  /** Providers that the batch does not name keep their status. */
  lemma {:induction false} FedKeepsOthers(statuses: map<string, Status>, batch: seq<CallStatus>, name: string)
    requires forall i | 0 <= i < |batch| :: batch[i].name != name
    ensures name in Fed(statuses, batch) <==> name in statuses
    ensures name in statuses ==> Fed(statuses, batch)[name] == statuses[name]
  {
    if batch != [] { FedKeepsOthers(statuses, batch[..|batch| - 1], name); }
  }

  /** Up exactly when something is up, down exactly when everything is down. */
  lemma AggregateMeaning<K>(statuses: map<K, Status>)
    ensures Aggregate(statuses) == Up <==> exists k :: k in statuses && statuses[k] == Up
    ensures Aggregate(statuses) == Down <==> forall k :: k in statuses ==> statuses[k] == Down
  {
    if exists k :: k in statuses && statuses[k] == Up {
      var k :| k in statuses && statuses[k] == Up;
      assert statuses[k] in statuses.Values;
    }
    if Aggregate(statuses) == Down {
      forall k | k in statuses ensures statuses[k] == Down { assert statuses[k] in statuses.Values; }
    }
  }

  type Channel = nat

  /**
   A subscriber: a token in its one-slot channel, a token taken but not yet followed by a read, what it
   read last, and whether it was there before the first Update.
   */
  datatype Subscriber = Subscriber(token: bool, owes: bool, read: Option<Status>, early: bool)

  /** Where the Update in flight is; Emitting holds the subscription lock for reading. */
  datatype Phase =
    | Idle
    | Computed(status: Status)
    | Emitting(status: Status, served: set<Channel>)
    | Notified(status: Status)

  datatype Manager = Manager(statuses: map<string, Status>, last: Option<Status>, subs: map<Channel, Subscriber>, phase: Phase) {
    function Current(): Status { Aggregate(statuses) }
  }

  datatype Action =
    | Begin(batch: seq<CallStatus>) // doUpdate
    | Lock                          // Emit takes the read lock
    | Push(ch: Channel)             // Emit offers a token to one channel
    | Unlock                        // every channel was served
    | Cancel                        // Emit returns early: the context is done
    | Finish                        // Update stores the new status
    | Subscribe(ch: Channel)
    | Unsubscribe(ch: Channel)
    | Take(ch: Channel)             // a subscriber receives its token
    | Read(ch: Channel)             // and reads the status it was told about
    | Glance(ch: Channel)           // or reads the status on its own account
    | Reset

  predicate Enabled(s: Manager, a: Action) {
    match a
    case Begin(_) => s.phase.Idle?
    case Lock => s.phase.Computed?
    case Push(ch) => s.phase.Emitting? && ch in s.subs && ch !in s.phase.served
    case Unlock => s.phase.Emitting? && s.subs.Keys <= s.phase.served
    case Cancel => s.phase.Emitting?
    case Finish => s.phase.Notified?
    case Subscribe(ch) => !s.phase.Emitting? && ch !in s.subs
    case Unsubscribe(ch) => !s.phase.Emitting? && ch in s.subs
    case Take(ch) => ch in s.subs && s.subs[ch].token
    case Read(ch) => ch in s.subs && s.subs[ch].owes
    case Glance(ch) => ch in s.subs
    case Reset => s.phase.Idle?
  }

  function Next(s: Manager, a: Action): Manager
    requires Enabled(s, a)
  {
    match a
    case Begin(batch) =>
      var statuses := Fed(s.statuses, batch);
      var status := Aggregate(statuses);
      s.(statuses := statuses, phase := if s.last == Some(status) then Idle else Computed(status))
    case Lock => s.(phase := Emitting(s.phase.status, {}))
    case Push(ch) =>
      s.(subs := s.subs[ch := s.subs[ch].(token := true)], phase := Emitting(s.phase.status, s.phase.served + {ch}))
    case Unlock => s.(phase := Notified(s.phase.status))
    case Cancel => s.(phase := Notified(s.phase.status))
    case Finish => s.(last := Some(s.phase.status), phase := Idle)
    case Subscribe(ch) => s.(subs := s.subs[ch := Subscriber(false, false, None, s.last.None? && s.phase.Idle?)])
    case Unsubscribe(ch) => s.(subs := s.subs - {ch})
    case Take(ch) => s.(subs := s.subs[ch := s.subs[ch].(token := false, owes := true)])
    case Read(ch) => s.(subs := s.subs[ch := s.subs[ch].(owes := false, read := Some(s.Current()))])
    case Glance(ch) => s.(subs := s.subs[ch := s.subs[ch].(read := Some(s.Current()))])
    case Reset => s.(statuses := map[], last := None)
  }

  /** A run: the states passed through, and the action leading from each to the next. */
  ghost predicate Run(states: seq<Manager>, actions: seq<Action>) {
    && |states| == |actions| + 1
    && forall i :: 0 <= i < |actions| ==> Enabled(states[i], actions[i]) && states[i + 1] == Next(states[i], actions[i])
  }

  const START := Manager(map[], None, map[], Idle)

  /** Knows of the status: told, about to look, or has seen it. */
  predicate Informed(sub: Subscriber, status: Status) { sub.token || sub.owes || sub.read == Some(status) }

  /** A subscriber from before the first Update, or one that has read the status since it came. */
  predicate Tracked(sub: Subscriber) { sub.early || sub.read.Some? }

  /** No wake-up is lost: with no Update in flight, every tracked subscriber is informed of the current status. */
  predicate NoLostWakeUp(s: Manager) {
    s.phase.Idle? && s.last.Some? ==> forall ch :: ch in s.subs && Tracked(s.subs[ch]) ==> Informed(s.subs[ch], s.Current())
  }

  /** What holds between any two steps. */
  predicate Invariant(s: Manager) {
    match s.phase
    case Idle => (s.last.Some? ==> s.last.value == s.Current()) && NoLostWakeUp(s)
    case Computed(status) => status == s.Current()
    case Emitting(status, served) =>
      status == s.Current() && forall ch :: ch in served && ch in s.subs && Tracked(s.subs[ch]) ==> Informed(s.subs[ch], status)
    case Notified(status) =>
      status == s.Current() && forall ch :: ch in s.subs && Tracked(s.subs[ch]) ==> Informed(s.subs[ch], status)
  }

  lemma StepKeepsInvariant(s: Manager, a: Action)
    requires Invariant(s) && Enabled(s, a) && a != Cancel
    ensures Invariant(Next(s, a))
  {
  }

  /** In every run whose contexts stay live no wake-up is lost. */
  lemma {:induction false} RunLosesNoWakeUp(states: seq<Manager>, actions: seq<Action>, n: nat)
    requires Run(states, actions) && states[0] == START && Cancel !in actions && n <= |actions|
    ensures Invariant(states[n]) && NoLostWakeUp(states[n])
  {
    if n > 0 {
      RunLosesNoWakeUp(states, actions, n - 1);
      assert actions[n - 1] in actions;
      StepKeepsInvariant(states[n - 1], actions[n - 1]);
    }
  }

  /** The state when an Update whose context ended during Emit has stored the new status. */
  function AfterCancel(s: Manager): Manager
    requires s.phase.Emitting?
  {
    Next(Next(s, Cancel), Finish)
  }

  /** A cancelled Emit loses no wake-up exactly when everyone it did not serve knew already. */
  lemma CancelExact(s: Manager)
    requires Invariant(s) && s.phase.Emitting?
    ensures NoLostWakeUp(AfterCancel(s)) <==>
              forall ch :: ch in s.subs.Keys - s.phase.served && Tracked(s.subs[ch]) ==> Informed(s.subs[ch], s.phase.status)
  {
    var t := AfterCancel(s);
    assert t.subs == s.subs && t.Current() == s.phase.status;
    if NoLostWakeUp(t) {
      forall ch | ch in s.subs.Keys - s.phase.served && Tracked(s.subs[ch])
        ensures Informed(s.subs[ch], s.phase.status)
      {
        assert ch in t.subs;
      }
    }
  }

  /** A run where it does: the context ends before the only subscriber is served. */
  lemma CancelLosesWakeUp() returns (states: seq<Manager>, actions: seq<Action>)
    ensures Run(states, actions) && states[0] == START && !NoLostWakeUp(states[|actions|])
  {
    actions := [Subscribe(0), Begin([CallStatus("a", true)]), Lock, Cancel, Finish];
    var s1 := Next(START, actions[0]);
    var s2 := Next(s1, actions[1]);
    var s3 := Next(s2, actions[2]);
    var s4 := Next(s3, actions[3]);
    var s5 := Next(s4, actions[4]);
    states := [START, s1, s2, s3, s4, s5];
    assert 0 in s5.subs && Tracked(s5.subs[0]) && !Informed(s5.subs[0], s5.Current());
  }

  /** A Reset changes the status silently; only the next Update tells the subscribers. */
  lemma ResetIsSilent(s: Manager)
    requires Enabled(s, Reset)
    ensures var t := Next(s, Reset); t.subs == s.subs && t.Current() == Down && t.last == None
    ensures forall batch :: Next(Next(s, Reset), Begin(batch)).phase.Computed?
  {
  }
}
