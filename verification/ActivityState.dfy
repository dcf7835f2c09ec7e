/**
 The statements that change the activity center (protocol/activity_center_persistence.go:49-230,
 762-1303, 1346-1412) as functions on the notifications table and the single states row, and what
 every run of them keeps.
 */
module ActivityState {
  import opened Wrappers
  import opened ActivityCursor
  import opened ActivityQuery

  const NEW_PRIVATE_GROUP_CHAT := 2
  const CONTACT_REQUEST := 5
  const COMMUNITY_REQUEST := 7
  const COMMUNITY_KICKED := 9
  const COMMUNITY_BANNED := 21
  const COMMUNITY_UNBANNED := 22

  datatype State = State(table: Table, hasSeen: bool, seenAt: Uint64)

  type Chats = map<string, string>

  datatype Op =
    | DeleteByID(id: Id)
    | DeleteForMessage(chatID: string, messageID: string)
    | Save(id: Id, row: Row, updateState: bool)
    | DismissAll
    | DismissFromUser(author: string)
    | MarkDeleted(ids: seq<Id>)
    | Dismiss(ids: seq<Id>)
    | DismissByCommunity(communityID: string)
    | DismissFromCommunity(communityID: string)
    | DismissFromChat(chatID: string)
    | AcceptAll
    | Accept(ids: seq<Id>)
    | AcceptInvites(author: string)
    | MarkAllRead
    | MarkRead(ids: seq<Id>)
    | MarkUnread(ids: seq<Id>)
    | DeleteContactRequests(chatID: string)
    | SetState(hasSeen: bool)
    | RecomputeState

  // ---------------------------------------------------------------------------
  // Statements
  // ---------------------------------------------------------------------------

  function ChatsOf(chats: Chats, communityID: string): set<string> {
    set c | c in chats && chats[c] == communityID
  }

  /** The rows the operation's UPDATE touches. */
  predicate Touched(op: Op, chats: Chats, id: Id, row: Row) {
    !row.deleted &&
    match op
    case DeleteByID(i) => id == i
    case DeleteForMessage(chatID, messageID) =>
      Satisfies(NO_PARAMS.(chatID := chatID), id, row) && row.message == Some(messageID)
    case Save(_, _, _) => false
    case DismissAll => !row.dismissed && !row.accepted
    case DismissFromUser(author) => row.author == author && !row.dismissed && !row.accepted
    case MarkDeleted(ids) => id in ids
    case Dismiss(ids) => id in ids
    case DismissByCommunity(communityID) =>
      row.communityID == communityID &&
      row.kind in {COMMUNITY_REQUEST, COMMUNITY_KICKED, COMMUNITY_BANNED, COMMUNITY_UNBANNED}
    case DismissFromCommunity(communityID) => row.chatID in ChatsOf(chats, communityID)
    case DismissFromChat(chatID) => row.chatID == chatID && !row.accepted && row.kind != CONTACT_REQUEST
    case AcceptAll => !row.dismissed && !row.accepted
    case Accept(ids) => id in ids
    case AcceptInvites(author) =>
      row.author == author && !row.dismissed && !row.accepted && row.kind == NEW_PRIVATE_GROUP_CHAT
    case MarkAllRead => !row.read
    case MarkRead(ids) => id in ids
    case MarkUnread(ids) => id in ids
    case DeleteContactRequests(chatID) => row.chatID == chatID && row.kind == CONTACT_REQUEST
    case SetState(_) => false
    case RecomputeState => false
  }

  /** The SET list of the operation's UPDATE. */
  function Change(op: Op, row: Row, now: Uint64): Row {
    match op
    case DeleteByID(_) => row.(deleted := true, updatedAt := now)
    case DeleteForMessage(_, _) => row.(read := true, dismissed := true, deleted := true, updatedAt := now)
    case DismissAll => row.(read := true, dismissed := true, updatedAt := now)
    case DismissFromUser(_) => row.(read := true, dismissed := true, updatedAt := now)
    case MarkDeleted(_) => row.(deleted := true, updatedAt := now)
    case Dismiss(_) => row.(read := true, dismissed := true, updatedAt := now)
    case DismissByCommunity(_) => row.(read := true, dismissed := true, updatedAt := now)
    case DismissFromCommunity(_) => row.(read := true, dismissed := true, updatedAt := now)
    case DismissFromChat(_) => row.(read := true, dismissed := true, updatedAt := now)
    case AcceptAll => row.(read := true, accepted := true, updatedAt := now)
    case Accept(_) => row.(read := true, accepted := true, updatedAt := now)
    case AcceptInvites(_) => row.(read := true, accepted := true, updatedAt := now)
    case MarkAllRead => row.(read := true, updatedAt := now)
    case MarkRead(_) => row.(read := true, updatedAt := now)
    case MarkUnread(_) => row.(read := false, updatedAt := now)
    case DeleteContactRequests(_) => row.(deleted := true, updatedAt := now)
    case _ => row
  }

  function Updated(op: Op, chats: Chats, t: Table, now: Uint64): Table {
    map id | id in t :: if Touched(op, chats, id, t[id]) then Change(op, t[id], now) else t[id]
  }

  predicate Unread(row: Row) {
    !row.read && !row.deleted
  }

  function UnreadIds(t: Table): set<Id> {
    set id | id in t && Unread(t[id])
  }

  /** updateActivityCenterState: everything is seen when nothing live is unread. */
  function Recomputed(s: State, now: Uint64): State {
    s.(hasSeen := UnreadIds(s.table) == {}, seenAt := now)
  }

  function TouchedIds(op: Op, chats: Chats, t: Table): set<Id> {
    set id | id in t && Touched(op, chats, id, t[id])
  }

  predicate ValidNotification(id: Id, row: Row) {
    id != [] && row.kind != 0 && row.timestamp != 0
  }

  /** How an operation ends: what it does to the states row after its UPDATE. */
  function Apply(op: Op, chats: Chats, s: State, now: Uint64): State {
    var changed := s.(table := Updated(op, chats, s.table, now));
    match op
    case Save(id, row, updateState) =>
      if !ValidNotification(id, row) then s
      else
        var saved := s.(table := s.table[id := row]);
        if updateState && !row.read then saved.(hasSeen := false, seenAt := row.updatedAt) else saved
    case MarkAllRead => changed.(hasSeen := true, seenAt := now)
    case MarkUnread(ids) =>
      if TouchedIds(op, chats, s.table) == {} then s else changed.(hasSeen := false, seenAt := now)
    case DismissFromUser(_) => Recomputed(changed, now)
    case MarkDeleted(ids) => if ids == [] then s else Recomputed(changed, now)
    case Dismiss(ids) => if ids == [] then s else Recomputed(changed, now)
    case DismissByCommunity(_) => Recomputed(changed, now)
    case DismissFromCommunity(communityID) =>
      if ChatsOf(chats, communityID) == {} then s else Recomputed(changed, now)
    case DismissFromChat(_) => Recomputed(changed, now)
    case Accept(ids) => if ids == [] then s else Recomputed(changed, now)
    case AcceptInvites(_) => Recomputed(changed, now)
    case MarkRead(ids) => if ids == [] then s else Recomputed(changed, now)
    case SetState(hasSeen) => s.(hasSeen := hasSeen, seenAt := now)
    case RecomputeState => Recomputed(s, now)
    case _ => changed
  }

  // ---------------------------------------------------------------------------
  // What a caller is told
  // ---------------------------------------------------------------------------

  /** A notification read with the plain column list, which leaves out the installation id. */
  datatype Notification = Notification(id: Id, row: Row)

  function Selected(id: Id, row: Row): Notification {
    Notification(id, row.(installationID := ""))
  }

  function IdSet(ns: seq<Notification>): set<Id> {
    set i | 0 <= i < |ns| :: ns[i].id
  }

  ghost predicate DistinctIds(ns: seq<Notification>) {
    forall i, j | 0 <= i < j < |ns| :: ns[i].id != ns[j].id
  }

  /** The returned notifications are the touched rows, once each, as they read after the update. */
  ghost predicate Agrees(ns: seq<Notification>, touched: set<Id>, after: Table) {
    && DistinctIds(ns) && IdSet(ns) == touched
    && (forall i | 0 <= i < |ns| :: ns[i].id in after && ns[i] == Selected(ns[i].id, after[ns[i].id]))
  }

  /** The same for the joined query, which does read the installation id. */
  ghost predicate AgreesFully(ns: seq<Notification>, touched: set<Id>, after: Table) {
    && DistinctIds(ns) && IdSet(ns) == touched
    && (forall i | 0 <= i < |ns| :: ns[i].id in after && ns[i].row == after[ns[i].id])
  }

  // ---------------------------------------------------------------------------
  // Runs
  // ---------------------------------------------------------------------------

  /** An operation, the chats at that moment, and its clock. */
  datatype Event = Event(op: Op, chats: Chats, now: Uint64)

  function Replay(events: seq<Event>, s: State): State {
    if events == [] then s
    else
      var last := events[|events| - 1];
      Apply(last.op, last.chats, Replay(events[..|events| - 1], s), last.now)
  }

  ghost predicate SeenInvariant(s: State) {
    s.hasSeen ==> forall id | id in s.table :: !Unread(s.table[id])
  }

  lemma RecomputedIsSeen(s: State, now: Uint64)
    ensures SeenInvariant(Recomputed(s, now))
  {
    if Recomputed(s, now).hasSeen {
      forall id | id in s.table ensures !Unread(s.table[id]) { assert id !in UnreadIds(s.table); }
    }
  }

  /** What a caller must not do: set the flag by hand, or save an unread row without touching the flag. */
  predicate KeepsSeen(op: Op) {
    match op
    case SetState(_) => false
    case Save(_, row, updateState) => updateState || row.read || row.deleted
    case _ => true
  }

  lemma StepKeepsSeen(op: Op, chats: Chats, s: State, now: Uint64)
    requires SeenInvariant(s) && KeepsSeen(op)
    ensures SeenInvariant(Apply(op, chats, s, now))
  {
    var changed := s.(table := Updated(op, chats, s.table, now));
    assert !op.MarkUnread? ==> SeenInvariant(changed);
    RecomputedIsSeen(changed, now);
    RecomputedIsSeen(s, now);
    if op.MarkAllRead? {
      forall id | id in changed.table ensures !Unread(changed.table[id]) {}
    }
  }

  /** The seen flag over whole runs. */
  lemma {:induction false} RunKeepsSeen(events: seq<Event>, s: State)
    requires SeenInvariant(s) && forall i | 0 <= i < |events| :: KeepsSeen(events[i].op)
    ensures SeenInvariant(Replay(events, s))
  {
    if events != [] {
      var n := |events| - 1;
      RunKeepsSeen(events[..n], s);
      StepKeepsSeen(events[n].op, events[n].chats, Replay(events[..n], s), events[n].now);
    }
  }

  /** Exactly when a save breaks the flag, and exactly when setting it by hand does. */
  lemma SaveKeepsSeenExactly(id: Id, row: Row, updateState: bool, chats: Chats, s: State, now: Uint64)
    requires SeenInvariant(s) && ValidNotification(id, row)
    ensures SeenInvariant(Apply(Save(id, row, updateState), chats, s, now)) <==>
              !s.hasSeen || KeepsSeen(Save(id, row, updateState))
  {
    var s' := Apply(Save(id, row, updateState), chats, s, now);
    assert id in s'.table && s'.table[id] == row;
    forall other | other in s'.table && other != id ensures s'.table[other] == s.table[other] {}
  }

  lemma SetStateKeepsSeenExactly(hasSeen: bool, chats: Chats, s: State, now: Uint64)
    ensures SeenInvariant(Apply(SetState(hasSeen), chats, s, now)) <==> !hasSeen || UnreadIds(s.table) == {}
  {
    if hasSeen && SeenInvariant(Apply(SetState(hasSeen), chats, s, now)) {
      forall id | id in s.table ensures id !in UnreadIds(s.table) {}
    }
    if UnreadIds(s.table) == {} {
      forall id | id in s.table ensures !Unread(s.table[id]) { assert id !in UnreadIds(s.table); }
    }
  }

  /** A live, unread notification. */
  const UNREAD_ROW := Row(1, 1, "", "", "", None, false, false, false, false, 0, "", "")

  /** From a seen, empty center: saving an unread row silently, or setting the flag over one, breaks the invariant. */
  lemma SeenCanBreak(chats: Chats, now: Uint64)
    ensures var s := State(map[], true, 0); SeenInvariant(s) && !SeenInvariant(Apply(Save([1], UNREAD_ROW, false), chats, s, now))
    ensures var s := State(map[[1] := UNREAD_ROW], false, 0); SeenInvariant(s) && !SeenInvariant(Apply(SetState(true), chats, s, now))
  {
    var t: Table := map[[1] := UNREAD_ROW];
    assert [1] in t && Unread(t[[1]]);
    SaveKeepsSeenExactly([1], UNREAD_ROW, false, chats, State(map[], true, 0), now);
  }

  // ---------------------------------------------------------------------------
  // Tombstones
  // ---------------------------------------------------------------------------

  ghost predicate Frozen(t: Table, t': Table) {
    t'.Keys == t.Keys && forall id | id in t && t[id].deleted :: t'[id] == t[id]
  }

  /** One operation other than a save leaves the ids and every deleted row as they are. */
  lemma StepKeepsTombstones(op: Op, chats: Chats, s: State, now: Uint64)
    requires !op.Save?
    ensures Frozen(s.table, Apply(op, chats, s, now).table)
  {
    assert Frozen(s.table, Updated(op, chats, s.table, now));
  }

  /** Tombstones are frozen: without saves the ids stay and no deleted row changes in any column. */
  lemma {:induction false} RunKeepsTombstones(events: seq<Event>, s: State)
    requires forall i | 0 <= i < |events| :: !events[i].op.Save?
    ensures Frozen(s.table, Replay(events, s).table)
  {
    if events != [] {
      var n := |events| - 1;
      RunKeepsTombstones(events[..n], s);
      StepKeepsTombstones(events[n].op, events[n].chats, Replay(events[..n], s), events[n].now);
    }
  }
}
