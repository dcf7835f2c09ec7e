/**
 What a Get is told, over whole runs: the bytes and the error of its own download
 (ipfs/ipfs.go:88-97, 173-189).
 */
module IpfsReplies {
  import opened Wrappers
  import opened IpfsDownloader

  /** The i-th event is the worker's reply to the request of Get id. */
  ghost predicate RepliesTo(states: seq<State>, events: seq<Event>, i: nat, id: GetId)
    requires |states| == |events| + 1
  {
    i < |events| && events[i].Reply? && states[i].worker.Holding? && states[i].worker.request.id == id
  }

  /** The response a Get has in its channel, or has taken out of it. */
  function Answer(g: Get): Option<Response> {
    match g.pc
    case Received(response) => Some(response)
    case Closed(response) => Some(response)
    case Returned(response) => Some(response)
    case _ => g.slot
  }

  /** The response carries what the download gave, under the cid and mode the Get asked for. */
  predicate Carries(response: Response, g: Get, e: Event)
    requires e.Reply?
  {
    response == Response(g.cid, g.download, e.body, e.failed)
  }

  /** Before event n: an answered Get was replied to once, with exactly that content; any other was not. */
  ghost predicate History(states: seq<State>, events: seq<Event>, n: nat, id: GetId)
    requires |states| == |events| + 1 && n <= |events|
  {
    if At(states[n], id) && Answer(states[n].gets[id]).Some?
    then exists i: nat ::
           && i < n && RepliesTo(states, events, i, id)
           && Carries(Answer(states[n].gets[id]).value, states[n].gets[id], events[i])
           && forall j: nat :: j < n && RepliesTo(states, events, j, id) ==> j == i
    else forall i: nat :: i < n ==> !RepliesTo(states, events, i, id)
  }

  /** The Get of the worker's request has no answer yet. */
  lemma WorkerAnswersNew(s: State)
    requires Invariant(s) && s.worker.Holding?
    ensures var r := s.worker.request;
            At(s, r.id) && Answer(s.gets[r.id]).None? && r == Request(r.id, s.gets[r.id].cid, s.gets[r.id].download)
  {
    assert s.Pipeline()[0] == s.worker.request;
    assert s.worker.request in s.Pipeline();
  }

  /** A reply fills the channel of its Get with the downloaded content. */
  lemma ReplyStep(s: State, e: Event)
    requires Invariant(s) && Enabled(s, e) && e.Reply?
    ensures var id := s.worker.request.id; var t := Next(s, e);
            && At(s, id) && At(t, id) && Answer(s.gets[id]).None?
            && Answer(t.gets[id]).Some? && Carries(Answer(t.gets[id]).value, t.gets[id], e)
  {
    WorkerAnswersNew(s);
    ReplyNeverBlocks(s, e.body, e.failed);
  }

  /** Every other step leaves the answer of a Get as it is; a Get that enters has none. */
  lemma OtherStep(s: State, e: Event, id: GetId)
    requires Invariant(s) && Enabled(s, e) && !(e.Reply? && s.worker.request.id == id)
    ensures var t := Next(s, e);
            && (At(s, id) ==>
                  At(t, id) && Answer(t.gets[id]) == Answer(s.gets[id])
                  && t.gets[id].cid == s.gets[id].cid && t.gets[id].download == s.gets[id].download)
            && (!At(s, id) && At(t, id) ==> Answer(t.gets[id]).None?)
  {
  }

  /** The history of every Get in every run where no Get joins the wait group too late. */
  lemma {:induction false} RunHasHistory(states: seq<State>, events: seq<Event>, n: nat, id: GetId)
    requires Run(states, events) && states[0] == START && n <= |events|
    requires forall i :: 0 <= i < |events| ==> Timely(states[i], events[i])
    ensures History(states, events, n, id)
  {
    if n > 0 {
      RunHasHistory(states, events, n - 1, id);
      RunIsSafe(states, events, n - 1);
      HistoryStep(states, events, n - 1, id);
    }
  }

  lemma HistoryStep(states: seq<State>, events: seq<Event>, n: nat, id: GetId)
    requires Run(states, events) && n < |events| && Invariant(states[n]) && History(states, events, n, id)
    ensures History(states, events, n + 1, id)
  {
    var s, e := states[n], events[n];
    if e.Reply? && s.worker.request.id == id {
      ReplyStep(s, e);
      HistoryBegins(states, events, n, id);
    } else {
      OtherStep(s, e, id);
      HistoryGoesOn(states, events, n, id);
    }
  }

  /** Event n is the reply: it is the first one, and it is what the Get has. */
  lemma HistoryBegins(states: seq<State>, events: seq<Event>, n: nat, id: GetId)
    requires |states| == |events| + 1 && n < |events| && History(states, events, n, id)
    requires RepliesTo(states, events, n, id) && At(states[n], id) && Answer(states[n].gets[id]).None?
    requires At(states[n + 1], id) && Answer(states[n + 1].gets[id]).Some?
    requires Carries(Answer(states[n + 1].gets[id]).value, states[n + 1].gets[id], events[n])
    ensures History(states, events, n + 1, id)
  {
    assert forall j: nat :: j < n + 1 && RepliesTo(states, events, j, id) ==> j == n;
  }

  /** Event n is no reply to the Get, and leaves its answer alone. */
  lemma HistoryGoesOn(states: seq<State>, events: seq<Event>, n: nat, id: GetId)
    requires |states| == |events| + 1 && n < |events| && History(states, events, n, id) && !RepliesTo(states, events, n, id)
    requires At(states[n], id) ==>
               && At(states[n + 1], id) && Answer(states[n + 1].gets[id]) == Answer(states[n].gets[id])
               && states[n + 1].gets[id].cid == states[n].gets[id].cid
               && states[n + 1].gets[id].download == states[n].gets[id].download
    requires !At(states[n], id) && At(states[n + 1], id) ==> Answer(states[n + 1].gets[id]).None?
    ensures History(states, events, n + 1, id)
  {
    if At(states[n], id) && Answer(states[n].gets[id]).Some? {
      var i: nat :|
        && i < n && RepliesTo(states, events, i, id)
        && Carries(Answer(states[n].gets[id]).value, states[n].gets[id], events[i])
        && forall j: nat :: j < n && RepliesTo(states, events, j, id) ==> j == i;
      assert Carries(Answer(states[n + 1].gets[id]).value, states[n + 1].gets[id], events[i]);
    }
  }

  /** A Get that returned was replied to exactly once, and returned the bytes and the error of that reply, for its own cid. */
  lemma ReturnsTheDownload(states: seq<State>, events: seq<Event>, n: nat, id: GetId) returns (i: nat)
    requires Run(states, events) && states[0] == START && n <= |events|
    requires forall i :: 0 <= i < |events| ==> Timely(states[i], events[i])
    requires At(states[n], id) && states[n].gets[id].pc.Returned?
    ensures i < n && RepliesTo(states, events, i, id) && forall j: nat :: j < n && RepliesTo(states, events, j, id) ==> j == i
    ensures var response := states[n].gets[id].pc.response;
            && response.body == events[i].body && response.failed == events[i].failed
            && response.cid == states[n].gets[id].cid && response.download == states[n].gets[id].download
  {
    RunHasHistory(states, events, n, id);
    i :| && i < n && RepliesTo(states, events, i, id)
         && Carries(Answer(states[n].gets[id]).value, states[n].gets[id], events[i])
         && forall j: nat :: j < n && RepliesTo(states, events, j, id) ==> j == i;
  }
}
