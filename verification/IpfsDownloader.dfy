/**
 The rate-limited downloader as a protocol (ipfs/ipfs.go:77-113, 159-189): callers of Get hand requests to
 a queue, a dispatcher moves them at its own pace to a small queue, a worker downloads and replies on
 the caller's one-slot channel, a wait group counts the Gets under way, and Stop closes the queues.
 */
module IpfsDownloader {
  import opened Wrappers

  const INPUT_CAP := 1000
  const RATE_CAP := 3

  type GetId = nat

  datatype Request = Request(id: GetId, cid: string, download: bool)

  /** What the download of a cid gave. */
  datatype Response = Response(cid: string, download: bool, body: seq<int>, failed: bool)

  /** Where a Get is. */
  datatype Pc =
    | Entered                     // decodes the hash and looks into the cache
    | Left                        // bad hash, or found in the cache
    | Counted                     // added to the wait group
    | Sent                        // waits for its reply
    | Received(response: Response)
    | Closed(response: Response)  // closed its reply channel
    | Returned(response: Response)

  /** A call of Get, with the content of its reply channel. */
  datatype Get = Get(cid: string, download: bool, pc: Pc, slot: Option<Response>) {
    predicate InFlight() { pc.Counted? || pc.Sent? || pc.Received? || pc.Closed? }
    predicate ChannelClosed() { pc.Closed? || pc.Returned? }
  }

  /** A goroutine that handles one request at a time. */
  datatype Routine = Free | Holding(request: Request) | Gone

  datatype StopPhase = Running | Quit | Cancelled | Waited | InputClosed | Stopped

  /** sent and replied record the requests that entered the input queue and those that were answered. */
  datatype State = State(
    gets: seq<Get>,
    input: seq<Request>,
    dispatcher: Routine,
    rate: seq<Request>,
    worker: Routine,
    wg: nat,
    stop: StopPhase,
    panicked: bool,
    sent: seq<Request>,
    replied: seq<Request>)
  {
    /** The requests on their way, oldest first. */
    function Pipeline(): seq<Request> { Held(worker) + rate + Held(dispatcher) + input }
    predicate WaitOver() { stop.Waited? || stop.InputClosed? || stop.Stopped? }
    predicate InputShut() { stop.InputClosed? || stop.Stopped? }
  }

  function Held(r: Routine): seq<Request> { if r.Holding? then [r.request] else [] }

  datatype Event =
    | Enter(cid: string, download: bool)
    | Leave(id: GetId)
    | Count(id: GetId)
    | Send(id: GetId)
    | Receive(id: GetId)
    | CloseReply(id: GetId)
    | Finish(id: GetId)
    | Dispatch
    | Forward
    | DispatcherExit
    | Pick
    | Reply(body: seq<int>, failed: bool)
    | WorkerExit
    | StopMove

  predicate At(s: State, id: GetId) { id < |s.gets| }

  /** A full channel blocks its sender and an empty one its receiver; a closed one does not block a sender: it panics. */
  predicate Enabled(s: State, e: Event) {
    && !s.panicked
    && match e
       case Enter(_, _) => true
       case Leave(id) => At(s, id) && s.gets[id].pc.Entered?
       case Count(id) => At(s, id) && s.gets[id].pc.Entered?
       case Send(id) => At(s, id) && s.gets[id].pc.Counted? && (s.InputShut() || |s.input| < INPUT_CAP)
       case Receive(id) => At(s, id) && s.gets[id].pc.Sent? && s.gets[id].slot.Some?
       case CloseReply(id) => At(s, id) && s.gets[id].pc.Received?
       case Finish(id) => At(s, id) && s.gets[id].pc.Closed?
       case Dispatch => s.dispatcher.Free? && s.input != []
       case Forward => s.dispatcher.Holding? && (s.stop.Stopped? || |s.rate| < RATE_CAP)
       case DispatcherExit => s.dispatcher.Free? && s.input == [] && s.InputShut()
       case Pick => s.worker.Free? && s.rate != []
       case Reply(_, _) => s.worker.Holding? && At(s, s.worker.request.id)
                           && (s.gets[s.worker.request.id].ChannelClosed() || s.gets[s.worker.request.id].slot.None?)
       case WorkerExit => s.worker.Free? && s.rate == [] && s.stop.Stopped?
       case StopMove => !s.stop.Stopped? && (s.stop.Cancelled? ==> s.wg == 0)
  }

  function WithPc(s: State, id: GetId, pc: Pc): State
    requires At(s, id)
  {
    s.(gets := s.gets[id := s.gets[id].(pc := pc)])
  }

  function Answered(s: State, r: Request, body: seq<int>, failed: bool): State
    requires At(s, r.id)
  {
    if s.gets[r.id].ChannelClosed() then s.(panicked := true)
    else
      s.(gets := s.gets[r.id := s.gets[r.id].(slot := Some(Response(r.cid, r.download, body, failed)))],
         worker := Free, replied := s.replied + [r])
  }

  function Next(s: State, e: Event): State
    requires Enabled(s, e)
  {
    match e
    case Enter(cid, download) => s.(gets := s.gets + [Get(cid, download, Entered, None)])
    case Leave(id) => WithPc(s, id, Left)
    case Count(id) => WithPc(s, id, Counted).(wg := s.wg + 1)
    case Send(id) =>
      if s.InputShut() then s.(panicked := true)
      else
        var r := Request(id, s.gets[id].cid, s.gets[id].download);
        WithPc(s, id, Sent).(input := s.input + [r], sent := s.sent + [r])
    case Receive(id) => s.(gets := s.gets[id := s.gets[id].(pc := Received(s.gets[id].slot.value), slot := None)])
    case CloseReply(id) => WithPc(s, id, Closed(s.gets[id].pc.response))
    case Finish(id) =>
      if s.wg == 0 then s.(panicked := true) else WithPc(s, id, Returned(s.gets[id].pc.response)).(wg := s.wg - 1)
    case Dispatch => s.(dispatcher := Holding(s.input[0]), input := s.input[1..])
    case Forward =>
      if s.stop.Stopped? then s.(panicked := true)
      else s.(dispatcher := Free, rate := s.rate + [s.dispatcher.request])
    case DispatcherExit => s.(dispatcher := Gone)
    case Pick => s.(worker := Holding(s.rate[0]), rate := s.rate[1..])
    case Reply(body, failed) => Answered(s, s.worker.request, body, failed)
    case WorkerExit => s.(worker := Gone)
    case StopMove =>
      s.(stop := match s.stop
                 case Running => Quit
                 case Quit => Cancelled
                 case Cancelled => Waited
                 case Waited => InputClosed
                 case _ => Stopped)
  }

  ghost predicate Run(states: seq<State>, events: seq<Event>) {
    && |states| == |events| + 1
    && forall i :: 0 <= i < |events| ==> Enabled(states[i], events[i]) && states[i + 1] == Next(states[i], events[i])
  }

  const START := State([], [], Free, [], Free, 0, Running, false, [], [])

  /** No Get joins the wait group after Stop's wait is over. */
  predicate Timely(s: State, e: Event) { e.Count? ==> !s.WaitOver() }

  // ---------------------------------------------------------------------------
  // Totals over the Gets
  // ---------------------------------------------------------------------------

  function Total(gets: seq<Get>, weight: Get -> nat): nat {
    if gets == [] then 0 else Total(gets[..|gets| - 1], weight) + weight(gets[|gets| - 1])
  }

  lemma {:induction false} TotalUpdate(gets: seq<Get>, weight: Get -> nat, i: nat, g: Get)
    requires i < |gets|
    ensures Total(gets[i := g], weight) + weight(gets[i]) == Total(gets, weight) + weight(g)
  {
    var last := |gets| - 1;
    var next := gets[i := g];
    if i == last {
      assert next[..last] == gets[..last];
    } else {
      assert next[..last] == gets[..last][i := g];
      TotalUpdate(gets[..last], weight, i, g);
    }
  }

  lemma {:induction false} TotalAtLeast(gets: seq<Get>, weight: Get -> nat, i: nat)
    requires i < |gets|
    ensures Total(gets, weight) >= weight(gets[i])
  {
    if i < |gets| - 1 { TotalAtLeast(gets[..|gets| - 1], weight, i); }
  }

  function OneInFlight(g: Get): nat { if g.InFlight() then 1 else 0 }

  // ---------------------------------------------------------------------------
  // The invariant
  // ---------------------------------------------------------------------------

  predicate Answers(response: Response, g: Get) { response.cid == g.cid && response.download == g.download }

  /** Replies are for the Get's own cid, and a channel is empty unless its Get still waits. */
  predicate GetOk(g: Get) {
    && (g.slot.Some? ==> g.pc.Sent? && Answers(g.slot.value, g))
    && (g.pc.Received? || g.pc.Closed? || g.pc.Returned? ==> Answers(g.pc.response, g))
  }

  predicate WasSent(g: Get) { !g.pc.Entered? && !g.pc.Left? && !g.pc.Counted? }

  /** Waits, and has no reply yet. */
  predicate Unanswered(g: Get) { g.pc.Sent? && g.slot.None? }

  /** A request sent belongs to its Get. */
  predicate Owned(gets: seq<Get>, r: Request) {
    r.id < |gets| && r == Request(r.id, gets[r.id].cid, gets[r.id].download) && WasSent(gets[r.id])
  }

  predicate Distinct(q: seq<Request>) { forall i, j :: 0 <= i < j < |q| ==> q[i].id != q[j].id }

  /** Every request sent was sent once; it is unanswered exactly while it is on its way. */
  predicate RequestsOk(gets: seq<Get>, replied: seq<Request>, onTheWay: seq<Request>) {
    && Distinct(replied + onTheWay)
    && (forall i :: 0 <= i < |gets| && WasSent(gets[i]) ==> Request(i, gets[i].cid, gets[i].download) in replied + onTheWay)
    && (forall r :: r in replied ==> Owned(gets, r) && !Unanswered(gets[r.id]))
    && (forall r :: r in onTheWay ==> Owned(gets, r) && Unanswered(gets[r.id]))
  }

  /** The invariant, given the line of requests on their way. */
  predicate InvariantWith(s: State, way: seq<Request>) {
    && !s.panicked
    && s.sent == s.replied + way
    && RequestsOk(s.gets, s.replied, way)
    && (forall i :: 0 <= i < |s.gets| ==> GetOk(s.gets[i]))
    && s.wg == Total(s.gets, OneInFlight)
    && RoutinesOk(s)
  }

  predicate RoutinesOk(s: State) {
    && |s.input| <= INPUT_CAP && |s.rate| <= RATE_CAP
    && (s.WaitOver() ==> s.wg == 0)
    && (s.dispatcher.Gone? ==> s.InputShut() && s.input == [])
    && (s.worker.Gone? ==> s.stop.Stopped? && s.rate == [])
  }

  predicate Invariant(s: State) { InvariantWith(s, s.Pipeline()) }

  // ---------------------------------------------------------------------------
  // Requests and their Gets
  // ---------------------------------------------------------------------------

  /** A Get that moves on without touching its request. */
  lemma GetMoves(gets: seq<Get>, i: nat, g: Get, replied: seq<Request>, way: seq<Request>)
    requires RequestsOk(gets, replied, way) && i < |gets| && g.cid == gets[i].cid && g.download == gets[i].download
    requires WasSent(g) == WasSent(gets[i]) && Unanswered(g) == Unanswered(gets[i])
    ensures RequestsOk(gets[i := g], replied, way)
  {
    var next := gets[i := g];
    assert forall r :: Owned(gets, r) ==> Owned(next, r) && Unanswered(next[r.id]) == Unanswered(gets[r.id]);
  }

  lemma GetEnters(gets: seq<Get>, g: Get, replied: seq<Request>, way: seq<Request>)
    requires RequestsOk(gets, replied, way) && !WasSent(g)
    ensures RequestsOk(gets + [g], replied, way)
  {
    var next := gets + [g];
    assert forall r :: Owned(gets, r) ==> Owned(next, r) && next[r.id] == gets[r.id];
  }

  lemma GetSends(gets: seq<Get>, i: nat, g: Get, replied: seq<Request>, way: seq<Request>)
    requires RequestsOk(gets, replied, way) && i < |gets| && g == gets[i].(pc := Sent) && gets[i].pc.Counted? && g.slot.None?
    ensures RequestsOk(gets[i := g], replied, way + [Request(i, g.cid, g.download)])
  {
    var next, r := gets[i := g], Request(i, g.cid, g.download);
    var all := replied + way;
    assert replied + (way + [r]) == all + [r];
    forall k | 0 <= k < |all|
      ensures all[k].id != i
    {
      assert all[k] in replied || all[k] in way;
    }
    assert forall q :: Owned(gets, q) ==> Owned(next, q) && next[q.id] == gets[q.id];
  }

  lemma GetAnswered(gets: seq<Get>, g: Get, replied: seq<Request>, r: Request, way: seq<Request>)
    requires RequestsOk(gets, replied, [r] + way) && r.id < |gets|
    requires g.cid == gets[r.id].cid && g.download == gets[r.id].download && g.pc.Sent? && g.slot.Some?
    ensures RequestsOk(gets[r.id := g], replied + [r], way)
  {
    var next := gets[r.id := g];
    var all := replied + ([r] + way);
    assert all == replied + [r] + way;
    assert all[|replied|] == r;
    forall q | q in way
      ensures q.id != r.id
    {
      var k :| 0 <= k < |way| && way[k] == q;
      assert all[|replied| + 1 + k] == q;
    }
    forall q | Owned(gets, q)
      ensures Owned(next, q) && (q.id != r.id ==> next[q.id] == gets[q.id])
    {
    }
    assert r in [r] + way;
    assert forall q :: q in way ==> q in [r] + way;
  }

  /** The worker's request is unanswered: its reply neither blocks nor meets a closed channel. */
  lemma ReplyNeverBlocks(s: State, body: seq<int>, failed: bool)
    requires Invariant(s) && s.worker.Holding?
    ensures Enabled(s, Reply(body, failed)) && !Next(s, Reply(body, failed)).panicked
  {
    assert s.Pipeline()[0] == s.worker.request;
    assert s.worker.request in s.Pipeline();
  }

  lemma WayIsInFlight(s: State, way: seq<Request>)
    requires InvariantWith(s, way) && way != []
    ensures s.wg > 0
  {
    assert way[0] in way;
    TotalAtLeast(s.gets, OneInFlight, way[0].id);
  }

  /** Once the wait group is at zero no Get is under way and no request on its way. */
  lemma NothingOnTheWay(s: State, way: seq<Request>)
    requires InvariantWith(s, way) && s.wg == 0
    ensures way == [] && forall i :: 0 <= i < |s.gets| ==> !s.gets[i].InFlight()
  {
    forall i | 0 <= i < |s.gets|
      ensures !s.gets[i].InFlight()
    {
      TotalAtLeast(s.gets, OneInFlight, i);
    }
    if way != [] { WayIsInFlight(s, way); }
  }

  // ---------------------------------------------------------------------------
  // Steps
  // ---------------------------------------------------------------------------

  /** The steps that only move one Get on. */
  lemma MoveKeeps(s: State, way: seq<Request>, i: nat, g: Get, wg: nat)
    requires InvariantWith(s, way) && i < |s.gets| && g.cid == s.gets[i].cid && g.download == s.gets[i].download && GetOk(g)
    requires WasSent(g) == WasSent(s.gets[i]) && Unanswered(g) == Unanswered(s.gets[i])
    requires wg + OneInFlight(s.gets[i]) == s.wg + OneInFlight(g) && (s.WaitOver() ==> wg == 0)
    ensures InvariantWith(s.(gets := s.gets[i := g], wg := wg), way)
  {
    GetMoves(s.gets, i, g, s.replied, way);
    TotalUpdate(s.gets, OneInFlight, i, g);
  }

  lemma GetStepKeeps(s: State, e: Event, way: seq<Request>)
    requires InvariantWith(s, way) && Enabled(s, e) && Timely(s, e)
    requires e.Leave? || e.Count? || e.Receive? || e.CloseReply? || e.Finish?
    ensures InvariantWith(Next(s, e), way)
  {
    TotalAtLeast(s.gets, OneInFlight, e.id);
    var t := Next(s, e);
    MoveKeeps(s, way, e.id, t.gets[e.id], t.wg);
  }

  lemma EnterKeeps(s: State, cid: string, download: bool, way: seq<Request>)
    requires InvariantWith(s, way)
    ensures InvariantWith(Next(s, Enter(cid, download)), way)
  {
    var g := Get(cid, download, Entered, None);
    GetEnters(s.gets, g, s.replied, way);
    assert (s.gets + [g])[..|s.gets|] == s.gets;
  }

  lemma SendKeeps(s: State, id: GetId, way: seq<Request>)
    requires InvariantWith(s, way) && Enabled(s, Send(id))
    ensures InvariantWith(Next(s, Send(id)), way + [Request(id, s.gets[id].cid, s.gets[id].download)])
  {
    TotalAtLeast(s.gets, OneInFlight, id);
    var g := s.gets[id].(pc := Sent);
    var r := Request(id, g.cid, g.download);
    GetSends(s.gets, id, g, s.replied, way);
    TotalUpdate(s.gets, OneInFlight, id, g);
    assert s.replied + way + [r] == s.replied + (way + [r]);
  }

  lemma ReplyKeeps(s: State, body: seq<int>, failed: bool, r: Request, rest: seq<Request>)
    requires InvariantWith(s, [r] + rest) && s.worker == Holding(r)
    ensures Enabled(s, Reply(body, failed)) && InvariantWith(Next(s, Reply(body, failed)), rest)
  {
    assert r in [r] + rest;
    var g := s.gets[r.id].(slot := Some(Response(r.cid, r.download, body, failed)));
    GetAnswered(s.gets, g, s.replied, r, rest);
    TotalUpdate(s.gets, OneInFlight, r.id, g);
    assert s.replied + ([r] + rest) == s.replied + [r] + rest;
  }

  /** The steps of the goroutines and of Stop that neither add nor answer a request. */
  predicate QueueStep(e: Event) {
    e.Dispatch? || e.Forward? || e.Pick? || e.DispatcherExit? || e.WorkerExit? || e.StopMove?
  }

  lemma QueueStepKeeps(s: State, e: Event, way: seq<Request>)
    requires InvariantWith(s, way) && Enabled(s, e) && QueueStep(e) && (s.dispatcher.Holding? ==> way != [])
    ensures InvariantWith(Next(s, e), way)
  {
    if s.WaitOver() { NothingOnTheWay(s, way); }
  }

  /** The line of requests is first in, first out: a send joins at the end, a reply takes the first. */
  function WayAfter(s: State, e: Event, way: seq<Request>): seq<Request> {
    if e.Send? && At(s, e.id) then way + [Request(e.id, s.gets[e.id].cid, s.gets[e.id].download)]
    else if e.Reply? && way != [] then way[1..]
    else way
  }

  lemma LineStep(s: State, e: Event)
    requires Enabled(s, e) && !Next(s, e).panicked
    ensures Next(s, e).Pipeline() == WayAfter(s, e, s.Pipeline())
  {
    if e.Send? || e.Reply? {
      SendOrReplyLine(s, e);
    }
  }

  lemma SendOrReplyLine(s: State, e: Event)
    requires Enabled(s, e) && !Next(s, e).panicked && (e.Send? || e.Reply?)
    ensures Next(s, e).Pipeline() == WayAfter(s, e, s.Pipeline())
  {
  }

  lemma StepKeepsWith(s: State, e: Event, way: seq<Request>)
    requires InvariantWith(s, way) && Enabled(s, e) && Timely(s, e)
    requires s.dispatcher.Holding? ==> way != []
    requires s.worker.Holding? ==> way != [] && way[0] == s.worker.request
    ensures InvariantWith(Next(s, e), WayAfter(s, e, way))
  {
    if e.Enter? {
      EnterKeeps(s, e.cid, e.download, way);
    } else if e.Send? {
      SendKeeps(s, e.id, way);
    } else if e.Reply? {
      assert way == [s.worker.request] + way[1..];
      ReplyKeeps(s, e.body, e.failed, s.worker.request, way[1..]);
    } else if QueueStep(e) {
      QueueStepKeeps(s, e, way);
    } else {
      GetStepKeeps(s, e, way);
    }
  }

  lemma StepKeeps(s: State, e: Event)
    requires Invariant(s) && Enabled(s, e) && Timely(s, e)
    ensures Invariant(Next(s, e))
  {
    StepKeepsWith(s, e, s.Pipeline());
    LineStep(s, e);
  }

  /** In every run where no Get joins the wait group after the wait is over, nothing panics and the invariant holds. */
  lemma {:induction false} RunIsSafe(states: seq<State>, events: seq<Event>, n: nat)
    requires Run(states, events) && states[0] == START && n <= |events|
    requires forall i :: 0 <= i < |events| ==> Timely(states[i], events[i])
    ensures Invariant(states[n]) && !states[n].panicked
  {
    if n > 0 {
      RunIsSafe(states, events, n - 1);
      StepKeeps(states[n - 1], events[n - 1]);
    }
  }

  // ---------------------------------------------------------------------------
  // What the invariant says about one Get
  // ---------------------------------------------------------------------------

  predicate AtIndex(q: seq<Request>, k: nat, id: GetId) { k < |q| && q[k].id == id }

  /**
   A Get under way is in exactly one place: with its caller, at one position of the line of requests
   (worker, small queue, dispatcher, input queue), or answered in its reply channel.
   */
  lemma OnePlace(s: State, id: GetId)
    requires Invariant(s) && At(s, id) && s.gets[id].InFlight()
    ensures var g := s.gets[id]; var caller := g.pc.Counted? || g.pc.Received? || g.pc.Closed?;
            var onWay := exists k: nat :: AtIndex(s.Pipeline(), k, id);
            (caller && !onWay && g.slot.None?) || (!caller && onWay && g.slot.None?) || (!caller && !onWay && g.slot.Some?)
    ensures forall j: nat, k: nat :: AtIndex(s.Pipeline(), j, id) && AtIndex(s.Pipeline(), k, id) ==> j == k
  {
    PlaceInLine(s, s.Pipeline(), id);
  }

  lemma PlaceInLine(s: State, way: seq<Request>, id: GetId)
    requires InvariantWith(s, way) && At(s, id)
    ensures (exists k: nat :: AtIndex(way, k, id)) <==> Unanswered(s.gets[id])
    ensures forall j: nat, k: nat :: AtIndex(way, j, id) && AtIndex(way, k, id) ==> j == k
    ensures GetOk(s.gets[id])
  {
    var r := Request(id, s.gets[id].cid, s.gets[id].download);
    forall k: nat | AtIndex(way, k, id)
      ensures Unanswered(s.gets[id])
    {
      assert way[k] in way;
    }
    if Unanswered(s.gets[id]) {
      assert r in s.replied + way;
      var k: nat :| k < |way| && way[k] == r;
      assert AtIndex(way, k, id);
    }
    forall j: nat, k: nat | AtIndex(way, j, id) && AtIndex(way, k, id)
      ensures j == k
    {
      assert (s.replied + way)[|s.replied| + j] == way[j] && (s.replied + way)[|s.replied| + k] == way[k];
    }
  }

  /** A Get that returned was answered exactly once, for its own cid, and requests are answered in the order sent. */
  lemma OneReply(s: State, id: GetId)
    requires Invariant(s) && At(s, id) && s.gets[id].pc.Returned?
    ensures Answers(s.gets[id].pc.response, s.gets[id])
    ensures exists k: nat :: AtIndex(s.replied, k, id) && forall j: nat :: AtIndex(s.replied, j, id) ==> j == k
    ensures s.replied <= s.sent
  {
    ReplyInLine(s, s.Pipeline(), id);
  }

  lemma ReplyInLine(s: State, way: seq<Request>, id: GetId)
    requires InvariantWith(s, way) && At(s, id) && s.gets[id].pc.Returned?
    ensures GetOk(s.gets[id]) && s.replied <= s.sent
    ensures exists k: nat :: AtIndex(s.replied, k, id) && forall j: nat :: AtIndex(s.replied, j, id) ==> j == k
  {
    var r := Request(id, s.gets[id].cid, s.gets[id].download);
    assert r in s.replied + way;
    var k: nat :| k < |s.replied| && s.replied[k] == r;
    assert AtIndex(s.replied, k, id);
    forall j: nat | AtIndex(s.replied, j, id)
      ensures j == k
    {
      assert (s.replied + way)[j] == s.replied[j] && (s.replied + way)[k] == s.replied[k];
    }
  }
}
