/**
 The downloader's progress, and what happens to a Get that comes too late (ipfs/ipfs.go:77-113, 159-189).
 */
module IpfsProgress {
  import opened Wrappers
  import opened IpfsDownloader

  // ---------------------------------------------------------------------------
  // Every run without new Gets comes to an end, and ends with every Get answered
  // ---------------------------------------------------------------------------

  /** The steps a Get has left, not counting those of its request before the reply. */
  function Weight(g: Get): nat {
    match g.pc
    case Entered => 9
    case Counted => 8
    case Sent => 3
    case Received(_) => 2
    case Closed(_) => 1
    case _ => 0
  }

  function RoutineLeft(r: Routine): nat { if r.Gone? then 0 else 1 }

  function StopLeft(p: StopPhase): nat {
    match p
    case Running => 5
    case Quit => 4
    case Cancelled => 3
    case Waited => 2
    case InputClosed => 1
    case Stopped => 0
  }

  /** The steps of the queues and of Stop that are left. */
  function MachineryLeft(s: State): nat {
    4 * |s.input| + 3 * |Held(s.dispatcher)| + 2 * |s.rate| + |Held(s.worker)|
    + RoutineLeft(s.dispatcher) + RoutineLeft(s.worker) + StopLeft(s.stop)
  }

  function StepsLeft(s: State): nat { Total(s.gets, Weight) + MachineryLeft(s) }

  /** The step of one Get. */
  predicate GetStep(e: Event) { e.Leave? || e.Count? || e.Send? || e.Receive? || e.CloseReply? || e.Finish? }

  lemma GetStepCounts(s: State, e: Event)
    requires Enabled(s, e) && GetStep(e) && !Next(s, e).panicked
    ensures StepsLeft(Next(s, e)) < StepsLeft(s)
  {
    var t := Next(s, e);
    assert t.gets == s.gets[e.id := t.gets[e.id]];
    TotalUpdate(s.gets, Weight, e.id, t.gets[e.id]);
  }

  lemma ReplyCounts(s: State, e: Event)
    requires Enabled(s, e) && e.Reply? && !Next(s, e).panicked
    ensures StepsLeft(Next(s, e)) < StepsLeft(s)
  {
    var t, id := Next(s, e), s.worker.request.id;
    assert t.gets == s.gets[id := t.gets[id]];
    TotalUpdate(s.gets, Weight, id, t.gets[id]);
  }

  lemma StepCounts(s: State, e: Event)
    requires Enabled(s, e) && !e.Enter? && !Next(s, e).panicked
    ensures StepsLeft(Next(s, e)) < StepsLeft(s)
  {
    if GetStep(e) {
      GetStepCounts(s, e);
    } else if e.Reply? {
      ReplyCounts(s, e);
    }
  }

  /** Without new Gets a run is at most as long as the steps left at its start. */
  lemma {:induction false} RunEnds(states: seq<State>, events: seq<Event>, n: nat)
    requires Run(states, events) && n <= |events| && Invariant(states[0])
    requires forall i :: 0 <= i < |events| ==> Timely(states[i], events[i]) && !events[i].Enter?
    ensures Invariant(states[n]) && n + StepsLeft(states[n]) <= StepsLeft(states[0])
  {
    if n > 0 {
      RunEnds(states, events, n - 1);
      StepKeeps(states[n - 1], events[n - 1]);
      StepCounts(states[n - 1], events[n - 1]);
    }
  }

  /** A step that serves a Get under way. */
  predicate Serves(e: Event) {
    e.Send? || e.Receive? || e.CloseReply? || e.Finish? || e.Dispatch? || e.Forward? || e.Pick? || e.Reply?
  }

  /** While a request is on its way, some goroutine can move it on. */
  lemma LineMoves(s: State) returns (e: Event)
    requires Invariant(s) && s.Pipeline() != []
    ensures Enabled(s, e) && Serves(e)
  {
    if s.worker.Holding? {
      e := Reply([], false);
      ReplyNeverBlocks(s, [], false);
    } else if s.rate != [] {
      e := Pick;
    } else if s.dispatcher.Holding? {
      e := Forward;
    } else {
      e := Dispatch;
    }
  }

  /** No deadlock: while a Get is under way, some step serves it or one before it. */
  lemma Progress(s: State, id: GetId) returns (e: Event)
    requires Invariant(s) && At(s, id) && s.gets[id].InFlight()
    ensures Enabled(s, e) && Serves(e)
  {
    match s.gets[id].pc
    case Received(_) => e := CloseReply(id);
    case Closed(_) => e := Finish(id);
    case Counted =>
      if |s.input| < INPUT_CAP { e := Send(id); } else { e := LineMoves(s); }
    case Sent =>
      if s.gets[id].slot.Some? {
        e := Receive(id);
      } else {
        PlaceInLine(s, s.Pipeline(), id);
        e := LineMoves(s);
      }
  }

  /**
   When nothing but a Get's first steps is possible, every Get that was counted has returned, both
   goroutines are gone and Stop is through.
   */
  lemma StuckMeansDone(s: State)
    requires Invariant(s) && forall e :: Enabled(s, e) ==> e.Enter? || e.Leave? || e.Count?
    ensures s.stop.Stopped? && s.dispatcher.Gone? && s.worker.Gone? && s.wg == 0 && s.Pipeline() == []
    ensures forall id: nat :: At(s, id) ==> s.gets[id].pc.Entered? || s.gets[id].pc.Left? || s.gets[id].pc.Returned?
  {
    forall id: nat | At(s, id)
      ensures !s.gets[id].InFlight()
    {
      if s.gets[id].InFlight() { var e := Progress(s, id); }
    }
    NoneInFlight(s.gets);
    NothingOnTheWay(s, s.Pipeline());
    assert !Enabled(s, StopMove);
    assert !Enabled(s, DispatcherExit);
    assert !Enabled(s, WorkerExit);
    LineIsEmpty(s);
  }

  lemma LineIsEmpty(s: State)
    requires s.Pipeline() == []
    ensures !s.worker.Holding? && !s.dispatcher.Holding? && s.rate == [] && s.input == []
  {
    assert |s.Pipeline()| == |Held(s.worker)| + |s.rate| + |Held(s.dispatcher)| + |s.input|;
  }

  lemma {:induction false} NoneInFlight(gets: seq<Get>)
    requires forall i :: 0 <= i < |gets| ==> !gets[i].InFlight()
    ensures Total(gets, OneInFlight) == 0
  {
    if gets != [] { NoneInFlight(gets[..|gets| - 1]); }
  }

  // ---------------------------------------------------------------------------
  // Late Gets
  // ---------------------------------------------------------------------------

  /** Whenever a Get joins the wait group after the wait is over, its send can meet a closed queue. */
  lemma LateGetCanPanic(s: State, id: GetId) returns (states: seq<State>, events: seq<Event>)
    requires !s.panicked && s.WaitOver() && At(s, id) && s.gets[id].pc.Entered?
    ensures Run(states, events) && states[0] == s && states[|events|].panicked
    ensures events[0] == Count(id) && !Timely(s, events[0]) && forall i :: 0 <= i < |events| ==> !events[i].Enter?
  {
    var s1 := Next(s, Count(id));
    if s.stop.Waited? {
      var s2 := Next(s1, StopMove);
      states := [s, s1, s2, Next(s2, Send(id))];
      events := [Count(id), StopMove, Send(id)];
    } else {
      states := [s, s1, Next(s1, Send(id))];
      events := [Count(id), Send(id)];
    }
  }

  lemma JoinRuns(first: seq<State>, before: seq<Event>, second: seq<State>, after: seq<Event>)
    requires Run(first, before) && Run(second, after) && first[|before|] == second[0]
    ensures Run(first + second[1..], before + after) && (first + second[1..])[|before| + |after|] == second[|after|]
  {
    var states, events := first + second[1..], before + after;
    forall i | 0 <= i < |events| ensures Enabled(states[i], events[i]) && states[i + 1] == Next(states[i], events[i]) {
      if i < |before| {
        assert states[i] == first[i] && states[i + 1] == first[i + 1];
      } else {
        var j := i - |before|;
        assert states[i] == second[j] && states[i + 1] == second[j + 1] && events[i] == after[j];
      }
    }
  }

  /** A Get enters, and Stop's wait ends while it is still looking into the cache. */
  lemma EnteredBeforeStop() returns (states: seq<State>, events: seq<Event>)
    ensures Run(states, events) && |events| > 0 && states[0] == START && events[0].Enter? && forall i :: 0 < i < |events| ==> !events[i].Enter?
    ensures var s := states[|events|]; !s.panicked && s.WaitOver() && At(s, 0) && s.gets[0].pc.Entered?
  {
    var s1 := START.(gets := [Get("cid", true, Entered, None)]);
    states := [START, s1, s1.(stop := Quit), s1.(stop := Cancelled), s1.(stop := Waited)];
    events := [Enter("cid", true), StopMove, StopMove, StopMove];
    assert START.gets + s1.gets == s1.gets;
  }

  /** It is not enough that the Get started before Stop: it may still be looking into the cache. */
  lemma StartedBeforeStop() returns (states: seq<State>, events: seq<Event>)
    ensures Run(states, events) && states[0] == START && states[|events|].panicked
    ensures |events| > 0 && events[0].Enter? && forall i :: 0 < i < |events| ==> !events[i].Enter?
  {
    var first, before := EnteredBeforeStop();
    var second, after := LateGetCanPanic(first[|before|], 0);
    JoinRuns(first, before, second, after);
    states, events := first + second[1..], before + after;
  }
}
