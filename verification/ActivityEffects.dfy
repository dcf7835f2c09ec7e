/**
 What every operation of the activity center does to the columns of the table and to the seen flag, spelled
 out row by row (protocol/activity_center_persistence.go:49-230, 762-1303, 1346-1412).
 */
module ActivityEffects {
  import opened Wrappers
  import opened ActivityCursor
  import opened ActivityQuery
  import opened ActivityState

  /** A flag that an UPDATE leaves alone or sets. */
  datatype Flag = Kept | On | Off

  function After(flag: Flag, before: bool): bool {
    match flag
    case Kept => before
    case On => true
    case Off => false
  }

  /** The rows `hit` picks get the given flags and the new time; nothing else changes in any row. */
  ghost predicate RowsChange(t: Table, t': Table, hit: (Id, Row) -> bool, now: Uint64,
                             read: Flag, accepted: Flag, dismissed: Flag, deleted: Flag)
  {
    && t'.Keys == t.Keys
    && forall id | id in t ::
         t'[id] == if hit(id, t[id])
                   then t[id].(read := After(read, t[id].read), accepted := After(accepted, t[id].accepted),
                               dismissed := After(dismissed, t[id].dismissed), deleted := After(deleted, t[id].deleted),
                               updatedAt := now)
                   else t[id]
  }

  /** The flag is set anew: everything live is read. */
  ghost predicate SeenAnew(s: State, now: Uint64) {
    s.seenAt == now && (s.hasSeen <==> forall id | id in s.table :: s.table[id].read || s.table[id].deleted)
  }

  ghost predicate SeenKept(s: State, s': State) {
    s'.hasSeen == s.hasSeen && s'.seenAt == s.seenAt
  }

  lemma RecomputedIsAnew(s: State, now: Uint64)
    ensures SeenAnew(Recomputed(s, now), now)
  {
    if UnreadIds(s.table) == {} {
      forall id | id in s.table ensures s.table[id].read || s.table[id].deleted { assert id !in UnreadIds(s.table); }
    }
  }

  /** The operations that only run one UPDATE. */
  lemma PlainUpdate(op: Op, chats: Chats, s: State, now: Uint64, hit: (Id, Row) -> bool,
                    read: Flag, accepted: Flag, dismissed: Flag, deleted: Flag)
    requires forall id | id in s.table :: hit(id, s.table[id]) <==> Touched(op, chats, id, s.table[id])
    requires forall id | id in s.table && hit(id, s.table[id]) ::
               Change(op, s.table[id], now) ==
                 s.table[id].(read := After(read, s.table[id].read), accepted := After(accepted, s.table[id].accepted),
                              dismissed := After(dismissed, s.table[id].dismissed), deleted := After(deleted, s.table[id].deleted),
                              updatedAt := now)
    ensures RowsChange(s.table, Updated(op, chats, s.table, now), hit, now, read, accepted, dismissed, deleted)
  {
  }

  // ---------------------------------------------------------------------------
  // Operation by operation
  // ---------------------------------------------------------------------------

  /** Deletes the row with the id. */
  lemma DeleteByIDEffect(i: Id, chats: Chats, s: State, now: Uint64)
    ensures var s' := Apply(DeleteByID(i), chats, s, now);
            var hit := (id: Id, r: Row) => !r.deleted && id == i;
            && RowsChange(s.table, s'.table, hit, now, Kept, Kept, Kept, On)
            && SeenKept(s, s')
  {
    var op := DeleteByID(i);
    var hit := (id: Id, r: Row) => !r.deleted && id == i;
    PlainUpdate(op, chats, s, now, hit, Kept, Kept, Kept, On);
  }

  /** Deletes, dismisses and marks read the unaccepted rows of the chat that carry the message. */
  lemma DeleteForMessageEffect(chatID: string, messageID: string, chats: Chats, s: State, now: Uint64)
    ensures var s' := Apply(DeleteForMessage(chatID, messageID), chats, s, now);
            var hit := (id: Id, r: Row) => !r.deleted && !r.accepted && (chatID == "" || r.chatID == chatID) && r.message == Some(messageID);
            && RowsChange(s.table, s'.table, hit, now, On, Kept, On, On)
            && SeenKept(s, s')
  {
    var op := DeleteForMessage(chatID, messageID);
    var hit := (id: Id, r: Row) => !r.deleted && !r.accepted && (chatID == "" || r.chatID == chatID) && r.message == Some(messageID);
    PlainUpdate(op, chats, s, now, hit, On, Kept, On, On);
  }

  /** Dismisses and marks read the undecided rows. */
  lemma DismissAllEffect(chats: Chats, s: State, now: Uint64)
    ensures var s' := Apply(DismissAll, chats, s, now);
            var hit := (id: Id, r: Row) => !r.deleted && !r.dismissed && !r.accepted;
            && RowsChange(s.table, s'.table, hit, now, On, Kept, On, Kept)
            && SeenKept(s, s')
  {
    var op := DismissAll;
    var hit := (id: Id, r: Row) => !r.deleted && !r.dismissed && !r.accepted;
    PlainUpdate(op, chats, s, now, hit, On, Kept, On, Kept);
  }

  /** The same for one author. */
  lemma DismissFromUserEffect(author: string, chats: Chats, s: State, now: Uint64)
    ensures var s' := Apply(DismissFromUser(author), chats, s, now);
            var hit := (id: Id, r: Row) => !r.deleted && !r.dismissed && !r.accepted && r.author == author;
            && RowsChange(s.table, s'.table, hit, now, On, Kept, On, Kept)
            && SeenAnew(s', now)
  {
    var op := DismissFromUser(author);
    var hit := (id: Id, r: Row) => !r.deleted && !r.dismissed && !r.accepted && r.author == author;
    PlainUpdate(op, chats, s, now, hit, On, Kept, On, Kept);
    RecomputedIsAnew(s.(table := Updated(op, chats, s.table, now)), now);
  }

  /** Deletes the rows with the ids and touches no other flag. */
  lemma MarkDeletedEffect(ids: seq<Id>, chats: Chats, s: State, now: Uint64)
    ensures var s' := Apply(MarkDeleted(ids), chats, s, now);
            var hit := (id: Id, r: Row) => !r.deleted && id in ids;
            && RowsChange(s.table, s'.table, hit, now, Kept, Kept, Kept, On)
            && (if ids == [] then SeenKept(s, s') else SeenAnew(s', now))
  {
    var op := MarkDeleted(ids);
    var hit := (id: Id, r: Row) => !r.deleted && id in ids;
    PlainUpdate(op, chats, s, now, hit, Kept, Kept, Kept, On);
    RecomputedIsAnew(s.(table := Updated(op, chats, s.table, now)), now);
  }

  /** Dismisses and marks read the rows with the ids, decided or not. */
  lemma DismissEffect(ids: seq<Id>, chats: Chats, s: State, now: Uint64)
    ensures var s' := Apply(Dismiss(ids), chats, s, now);
            var hit := (id: Id, r: Row) => !r.deleted && id in ids;
            && RowsChange(s.table, s'.table, hit, now, On, Kept, On, Kept)
            && (if ids == [] then SeenKept(s, s') else SeenAnew(s', now))
  {
    var op := Dismiss(ids);
    var hit := (id: Id, r: Row) => !r.deleted && id in ids;
    PlainUpdate(op, chats, s, now, hit, On, Kept, On, Kept);
    RecomputedIsAnew(s.(table := Updated(op, chats, s.table, now)), now);
  }

  /** Dismisses and marks read the community's request, kick, ban and unban rows. */
  lemma DismissByCommunityEffect(communityID: string, chats: Chats, s: State, now: Uint64)
    ensures var s' := Apply(DismissByCommunity(communityID), chats, s, now);
            var hit := (id: Id, r: Row) => !r.deleted && r.communityID == communityID && (r.kind == 7 || r.kind == 9 || r.kind == 21 || r.kind == 22);
            && RowsChange(s.table, s'.table, hit, now, On, Kept, On, Kept)
            && SeenAnew(s', now)
  {
    var op := DismissByCommunity(communityID);
    var hit := (id: Id, r: Row) => !r.deleted && r.communityID == communityID && (r.kind == 7 || r.kind == 9 || r.kind == 21 || r.kind == 22);
    PlainUpdate(op, chats, s, now, hit, On, Kept, On, Kept);
    RecomputedIsAnew(s.(table := Updated(op, chats, s.table, now)), now);
  }

  /** Dismisses and marks read every row of the community's chats. */
  lemma DismissFromCommunityEffect(communityID: string, chats: Chats, s: State, now: Uint64)
    ensures var s' := Apply(DismissFromCommunity(communityID), chats, s, now);
            var hit := (id: Id, r: Row) => !r.deleted && r.chatID in chats && chats[r.chatID] == communityID;
            && RowsChange(s.table, s'.table, hit, now, On, Kept, On, Kept)
            && (if (exists c :: c in chats && chats[c] == communityID) then SeenAnew(s', now) else SeenKept(s, s'))
  {
    var op := DismissFromCommunity(communityID);
    var hit := (id: Id, r: Row) => !r.deleted && r.chatID in chats && chats[r.chatID] == communityID;
    PlainUpdate(op, chats, s, now, hit, On, Kept, On, Kept);
    RecomputedIsAnew(s.(table := Updated(op, chats, s.table, now)), now);
    assert ChatsOf(chats, communityID) == {} <==> !exists c :: c in chats && chats[c] == communityID by {
      if c :| c in chats && chats[c] == communityID { assert c in ChatsOf(chats, communityID); }
    }
  }

  /** Dismisses and marks read the unaccepted rows of the chat other than contact requests. */
  lemma DismissFromChatEffect(chatID: string, chats: Chats, s: State, now: Uint64)
    ensures var s' := Apply(DismissFromChat(chatID), chats, s, now);
            var hit := (id: Id, r: Row) => !r.deleted && !r.accepted && r.chatID == chatID && r.kind != 5;
            && RowsChange(s.table, s'.table, hit, now, On, Kept, On, Kept)
            && SeenAnew(s', now)
  {
    var op := DismissFromChat(chatID);
    var hit := (id: Id, r: Row) => !r.deleted && !r.accepted && r.chatID == chatID && r.kind != 5;
    PlainUpdate(op, chats, s, now, hit, On, Kept, On, Kept);
    RecomputedIsAnew(s.(table := Updated(op, chats, s.table, now)), now);
  }

  /** Accepts and marks read the undecided rows. */
  lemma AcceptAllEffect(chats: Chats, s: State, now: Uint64)
    ensures var s' := Apply(AcceptAll, chats, s, now);
            var hit := (id: Id, r: Row) => !r.deleted && !r.dismissed && !r.accepted;
            && RowsChange(s.table, s'.table, hit, now, On, On, Kept, Kept)
            && SeenKept(s, s')
  {
    var op := AcceptAll;
    var hit := (id: Id, r: Row) => !r.deleted && !r.dismissed && !r.accepted;
    PlainUpdate(op, chats, s, now, hit, On, On, Kept, Kept);
  }

  /** Accepts and marks read the rows with the ids, decided or not. */
  lemma AcceptEffect(ids: seq<Id>, chats: Chats, s: State, now: Uint64)
    ensures var s' := Apply(Accept(ids), chats, s, now);
            var hit := (id: Id, r: Row) => !r.deleted && id in ids;
            && RowsChange(s.table, s'.table, hit, now, On, On, Kept, Kept)
            && (if ids == [] then SeenKept(s, s') else SeenAnew(s', now))
  {
    var op := Accept(ids);
    var hit := (id: Id, r: Row) => !r.deleted && id in ids;
    PlainUpdate(op, chats, s, now, hit, On, On, Kept, Kept);
    RecomputedIsAnew(s.(table := Updated(op, chats, s.table, now)), now);
  }

  /** Accepts and marks read the author's undecided group invitations. */
  lemma AcceptInvitesEffect(author: string, chats: Chats, s: State, now: Uint64)
    ensures var s' := Apply(AcceptInvites(author), chats, s, now);
            var hit := (id: Id, r: Row) => !r.deleted && !r.dismissed && !r.accepted && r.author == author && r.kind == 2;
            && RowsChange(s.table, s'.table, hit, now, On, On, Kept, Kept)
            && SeenAnew(s', now)
  {
    var op := AcceptInvites(author);
    var hit := (id: Id, r: Row) => !r.deleted && !r.dismissed && !r.accepted && r.author == author && r.kind == 2;
    PlainUpdate(op, chats, s, now, hit, On, On, Kept, Kept);
    RecomputedIsAnew(s.(table := Updated(op, chats, s.table, now)), now);
  }

  /** Marks everything read, and seen. */
  lemma MarkAllReadEffect(chats: Chats, s: State, now: Uint64)
    ensures var s' := Apply(MarkAllRead, chats, s, now);
            var hit := (id: Id, r: Row) => !r.deleted && !r.read;
            && RowsChange(s.table, s'.table, hit, now, On, Kept, Kept, Kept)
            && s'.hasSeen && s'.seenAt == now
  {
    var op := MarkAllRead;
    var hit := (id: Id, r: Row) => !r.deleted && !r.read;
    PlainUpdate(op, chats, s, now, hit, On, Kept, Kept, Kept);
  }

  /** Marks the rows with the ids read. */
  lemma MarkReadEffect(ids: seq<Id>, chats: Chats, s: State, now: Uint64)
    ensures var s' := Apply(MarkRead(ids), chats, s, now);
            var hit := (id: Id, r: Row) => !r.deleted && id in ids;
            && RowsChange(s.table, s'.table, hit, now, On, Kept, Kept, Kept)
            && (if ids == [] then SeenKept(s, s') else SeenAnew(s', now))
  {
    var op := MarkRead(ids);
    var hit := (id: Id, r: Row) => !r.deleted && id in ids;
    PlainUpdate(op, chats, s, now, hit, On, Kept, Kept, Kept);
    RecomputedIsAnew(s.(table := Updated(op, chats, s.table, now)), now);
  }

  /** Marks the rows with the ids unread; something is unseen then, unless no row was found. */
  lemma MarkUnreadEffect(ids: seq<Id>, chats: Chats, s: State, now: Uint64)
    ensures var s' := Apply(MarkUnread(ids), chats, s, now);
            var hit := (id: Id, r: Row) => !r.deleted && id in ids;
            && RowsChange(s.table, s'.table, hit, now, Off, Kept, Kept, Kept)
            && (if (exists id :: id in s.table && hit(id, s.table[id])) then !s'.hasSeen && s'.seenAt == now else SeenKept(s, s'))
  {
    var op := MarkUnread(ids);
    var hit := (id: Id, r: Row) => !r.deleted && id in ids;
    PlainUpdate(op, chats, s, now, hit, Off, Kept, Kept, Kept);
    if id :| id in s.table && hit(id, s.table[id]) { assert id in TouchedIds(op, chats, s.table); }
  }

  /** Deletes the contact requests of the chat. */
  lemma DeleteContactRequestsEffect(chatID: string, chats: Chats, s: State, now: Uint64)
    ensures var s' := Apply(DeleteContactRequests(chatID), chats, s, now);
            var hit := (id: Id, r: Row) => !r.deleted && r.chatID == chatID && r.kind == 5;
            && RowsChange(s.table, s'.table, hit, now, Kept, Kept, Kept, On)
            && SeenKept(s, s')
  {
    var op := DeleteContactRequests(chatID);
    var hit := (id: Id, r: Row) => !r.deleted && r.chatID == chatID && r.kind == 5;
    PlainUpdate(op, chats, s, now, hit, Kept, Kept, Kept, On);
  }

  /** Replaces the row when the notification is valid; an unread one makes the center unseen if the caller asks for it. */
  lemma SaveEffect(id: Id, row: Row, updateState: bool, chats: Chats, s: State, now: Uint64)
    ensures var s' := Apply(Save(id, row, updateState), chats, s, now);
            var valid := id != [] && row.kind != 0 && row.timestamp != 0;
            && s'.table == (if valid then s.table[id := row] else s.table)
            && (if valid && updateState && !row.read then !s'.hasSeen && s'.seenAt == row.updatedAt else SeenKept(s, s'))
  {
  }

  lemma StateEffect(hasSeen: bool, chats: Chats, s: State, now: Uint64)
    ensures Apply(SetState(hasSeen), chats, s, now) == State(s.table, hasSeen, now)
    ensures Apply(RecomputeState, chats, s, now).table == s.table && SeenAnew(Apply(RecomputeState, chats, s, now), now)
  {
    RecomputedIsAnew(s, now);
  }

  // ---------------------------------------------------------------------------
  // Decisions are final
  // ---------------------------------------------------------------------------

  predicate Accepts(op: Op) { op.AcceptAll? || op.Accept? || op.AcceptInvites? }

  predicate Dismisses(op: Op) {
    || op.DismissAll? || op.DismissFromUser? || op.Dismiss? || op.DismissByCommunity? || op.DismissFromCommunity?
    || op.DismissFromChat? || op.DeleteForMessage?
  }

  predicate Removes(op: Op) { op.DeleteByID? || op.DeleteForMessage? || op.MarkDeleted? || op.DeleteContactRequests? }

  /** Accepted, dismissed and deleted are never taken back, and each is set by its own operations only. */
  predicate DecisionsKept(op: Op, row: Row, row': Row) {
    && (row.accepted ==> row'.accepted) && (row.dismissed ==> row'.dismissed) && (row.deleted ==> row'.deleted)
    && (row'.accepted && !row.accepted ==> Accepts(op))
    && (row'.dismissed && !row.dismissed ==> Dismisses(op))
    && (row'.deleted && !row.deleted ==> Removes(op))
    && (row.read && !row'.read ==> op.MarkUnread?)
  }

  lemma StepKeepsDecisions(op: Op, chats: Chats, s: State, now: Uint64, id: Id)
    requires !op.Save? && id in s.table
    ensures id in Apply(op, chats, s, now).table && DecisionsKept(op, s.table[id], Apply(op, chats, s, now).table[id])
  {
    StepKeepsTombstones(op, chats, s, now);
    assert Apply(op, chats, s, now).table[id] in {s.table[id], Change(op, s.table[id], now)};
  }

  /** Over every run without saves a decision, once taken, stands, and somebody took it. */
  lemma {:induction false} RunKeepsDecisions(events: seq<Event>, s: State, id: Id)
    requires (forall i | 0 <= i < |events| :: !events[i].op.Save?) && id in s.table
    ensures id in Replay(events, s).table
    ensures var row, row' := s.table[id], Replay(events, s).table[id];
            && (row.accepted ==> row'.accepted) && (row.dismissed ==> row'.dismissed) && (row.deleted ==> row'.deleted)
            && (row'.accepted && !row.accepted ==> exists i :: 0 <= i < |events| && Accepts(events[i].op))
            && (row'.dismissed && !row.dismissed ==> exists i :: 0 <= i < |events| && Dismisses(events[i].op))
            && (row'.deleted && !row.deleted ==> exists i :: 0 <= i < |events| && Removes(events[i].op))
  {
    if events != [] {
      var n := |events| - 1;
      var init := events[..n];
      RunKeepsDecisions(init, s, id);
      StepKeepsDecisions(events[n].op, events[n].chats, Replay(init, s), events[n].now, id);
      assert forall i | 0 <= i < n :: init[i] == events[i];
    }
  }

  // ---------------------------------------------------------------------------
  // What a caller is told, and what a filter lets through
  // ---------------------------------------------------------------------------

  /** Returned notifications are the touched rows as stored afterwards, in every column but the installation id. */
  lemma AgreeingRows(ns: seq<Notification>, touched: set<Id>, after: Table, i: nat)
    requires Agrees(ns, touched, after) && i < |ns|
    ensures ns[i].id in touched && ns[i].id in after
    ensures ns[i].row.(installationID := after[ns[i].id].installationID) == after[ns[i].id]
  {
  }

  /** The read filter splits the rows into read and unread ones; without it both come. */
  lemma ReadFilter(p: Params, id: Id, row: Row)
    ensures Satisfies(p.(read := 1), id, row) <==> Satisfies(p.(read := 0), id, row) && row.read
    ensures Satisfies(p.(read := 2), id, row) <==> Satisfies(p.(read := 0), id, row) && !row.read
    ensures p.read > 2 ==> (Satisfies(p, id, row) <==> Satisfies(p.(read := 0), id, row))
  {
  }

  /** Every other filter narrows to the rows it names; asking for accepted rows adds them. */
  lemma OtherFilters(p: Params, id: Id, row: Row)
    ensures Satisfies(p.(accepted := false), id, row) <==> Satisfies(p.(accepted := true), id, row) && !row.accepted
    ensures p.chatID != "" ==> (Satisfies(p, id, row) <==> Satisfies(p.(chatID := ""), id, row) && row.chatID == p.chatID)
    ensures p.author != "" ==> (Satisfies(p, id, row) <==> Satisfies(p.(author := ""), id, row) && row.author == p.author)
    ensures p.ids != [] ==> (Satisfies(p, id, row) <==> Satisfies(p.(ids := []), id, row) && id in p.ids)
    ensures p.kinds != [] ==> (Satisfies(p, id, row) <==> Satisfies(p.(kinds := []), id, row) && row.kind in p.kinds)
    ensures Satisfies(NO_PARAMS.(accepted := true), id, row) <==> !row.deleted
  {
  }
}
