/**
 The activity-center operations of sqlitePersistence, statement by statement.  Each one is proved to
 change the stored state as `ActivityState.Apply` says; the operations that select rows before updating
 them are also proved to return what they updated.
 */
module ActivityStore {
  import opened Wrappers
  import opened ActivityCursor
  import opened ActivityQuery
  import opened ActivityPages
  import opened ActivityState
  import Order = DescendingOrder

  ghost predicate Distinct<T>(q: seq<T>) {
    forall i, j | 0 <= i < j < |q| :: q[i] != q[j]
  }

  /** The rows of a SELECT: the given ids, once each, in whatever order. */
  ghost predicate RowsOf(ids: seq<Id>, selected: set<Id>) {
    Distinct(ids) && Order.Elements(ids) == selected
  }

  function Picked(t: Table, where: (Id, Row) -> bool): set<Id> {
    set id | id in t && where(id, t[id])
  }

  lemma ElementsAppend<T>(q: seq<T>, x: T)
    ensures Order.Elements(q + [x]) == Order.Elements(q) + {x}
  {
    var r := q + [x];
    forall i | 0 <= i < |q| ensures q[i] in Order.Elements(r) { assert r[i] == q[i]; }
    assert r[|q|] == x;
  }

  lemma IdSetAppend(ns: seq<Notification>, n: Notification)
    ensures IdSet(ns + [n]) == IdSet(ns) + {n.id}
  {
    var r := ns + [n];
    forall i | 0 <= i < |ns| ensures ns[i].id in IdSet(r) { assert r[i] == ns[i]; }
    assert r[|ns|] == n;
  }

  /** Structs read for the given rows name exactly those rows. */
  lemma ParsedIds(ids: seq<Id>, selected: set<Id>, ns: seq<Notification>)
    requires RowsOf(ids, selected) && |ns| == |ids| && forall i | 0 <= i < |ids| :: ns[i].id == ids[i]
    ensures DistinctIds(ns) && IdSet(ns) == selected
  {
    forall id | id in selected ensures id in IdSet(ns) {
      var i :| 0 <= i < |ids| && ids[i] == id;
      assert ns[i].id == id;
    }
    forall i | 0 <= i < |ns| ensures ns[i].id in selected { assert ids[i] in Order.Elements(ids); }
  }

  /** UPDATE ... SET ... WHERE */
  function UpdateWhere(t: Table, where: (Id, Row) -> bool, change: Row -> Row): Table {
    map id | id in t :: if where(id, t[id]) then change(t[id]) else t[id]
  }

  lemma UpdateIs(op: Op, chats: Chats, t: Table, now: Uint64, where: (Id, Row) -> bool, change: Row -> Row)
    requires forall id: Id | id in t :: where(id, t[id]) <==> Touched(op, chats, id, t[id])
    requires forall row: Row :: change(row) == Change(op, row, now)
    ensures UpdateWhere(t, where, change) == Updated(op, chats, t, now)
  {
  }

  lemma PickedIsTouched(op: Op, chats: Chats, t: Table, where: (Id, Row) -> bool)
    requires forall id: Id, row: Row :: where(id, row) <==> Touched(op, chats, id, row)
    ensures Picked(t, where) == TouchedIds(op, chats, t)
  {
  }

  /** Applying the SET list to the scanned structs gives the stored rows after the UPDATE. */
  lemma ParsedRowsAgree(op: Op, chats: Chats, t: Table, now: Uint64, ids: seq<Id>, ns: seq<Notification>)
    requires RowsOf(ids, TouchedIds(op, chats, t)) && |ns| == |ids|
    requires forall i | 0 <= i < |ids| ::
               ids[i] in t && ns[i] == Notification(ids[i], Change(op, Selected(ids[i], t[ids[i]]).row, now))
    ensures Agrees(ns, TouchedIds(op, chats, t), Updated(op, chats, t, now))
  {
    ParsedIds(ids, TouchedIds(op, chats, t), ns);
    forall i | 0 <= i < |ns| ensures ns[i] == Selected(ids[i], Updated(op, chats, t, now)[ids[i]]) {
      assert ids[i] in Order.Elements(ids);
    }
  }

  class SqlitePersistence {
    var table: Table
    var hasSeen: bool
    var seenAt: Uint64
    const chats: Chats

    constructor (table: Table, hasSeen: bool, seenAt: Uint64, chats: Chats)
      ensures Stored() == State(table, hasSeen, seenAt) && this.chats == chats
    {
      this.table, this.hasSeen, this.seenAt, this.chats := table, hasSeen, seenAt, chats;
    }

    ghost function Stored(): State
      reads this
    {
      State(table, hasSeen, seenAt)
    }

    // -------------------------------------------------------------------------
    // Statements
    // -------------------------------------------------------------------------

    method Select(where: (Id, Row) -> bool) returns (ids: seq<Id>)
      ensures RowsOf(ids, Picked(table, where))
      ensures forall i | 0 <= i < |ids| :: ids[i] in table
    {
      var todo := Picked(table, where);
      ghost var selected := todo;
      ids := [];
      while todo != {}
        invariant todo <= selected && RowsOf(ids, selected - todo)
        invariant forall i | 0 <= i < |ids| :: ids[i] in table
        decreases todo
      {
        var id :| id in todo;
        ElementsAppend(ids, id);
        assert forall i | 0 <= i < |ids| :: ids[i] in Order.Elements(ids);
        ids := ids + [id];
        assert selected - (todo - {id}) == selected - todo + {id};
        todo := todo - {id};
      }
      assert selected - todo == selected;
    }

    /** parseRowFromTableActivityCenterNotification: scan each row and hand it to the callback. */
    method ParseRows(ids: seq<Id>, withNotification: Row -> Row) returns (ns: seq<Notification>)
      requires forall i | 0 <= i < |ids| :: ids[i] in table
      ensures |ns| == |ids|
      ensures forall i | 0 <= i < |ids| :: ns[i] == Notification(ids[i], withNotification(Selected(ids[i], table[ids[i]]).row))
    {
      ns := [];
      for k := 0 to |ids|
        invariant |ns| == k
        invariant forall i | 0 <= i < k :: ns[i] == Notification(ids[i], withNotification(Selected(ids[i], table[ids[i]]).row))
      {
        var n := Selected(ids[k], table[ids[k]]);
        n := n.(row := withNotification(n.row));
        ns := ns + [n];
      }
    }

    method Update(where: (Id, Row) -> bool, change: Row -> Row)
      modifies this`table
      ensures table == UpdateWhere(old(table), where, change)
    {
      table := UpdateWhere(table, where, change);
    }

    /** updateActivityCenterState */
    method UpdateState(now: Uint64)
      modifies this`hasSeen, this`seenAt
      ensures Stored() == Recomputed(old(Stored()), now)
    {
      var unread := |set id | id in table && Unread(table[id])|;
      hasSeen := unread == 0;
      seenAt := now;
      assert (set id | id in table && Unread(table[id])) == UnreadIds(table);
    }

    // -------------------------------------------------------------------------
    // Select, then update
    // -------------------------------------------------------------------------

    /** DismissAllActivityCenterNotificationsFromUser */
    method DismissAllFromUser(author: string, now: Uint64) returns (ns: seq<Notification>)
      modifies this
      ensures Stored() == Apply(DismissFromUser(author), chats, old(Stored()), now)
      ensures Agrees(ns, TouchedIds(DismissFromUser(author), chats, old(table)), table)
    {
      ghost var op := DismissFromUser(author);
      var where := (id: Id, r: Row) => r.author == author && !r.deleted && !r.dismissed && !r.accepted;
      var ids := Select(where);
      PickedIsTouched(op, chats, table, where);
      ns := ParseRows(ids, (r: Row) => r.(read := true, dismissed := true, updatedAt := now));
      ParsedRowsAgree(op, chats, table, now, ids, ns);
      var updated := (id: Id, r: Row) => r.author == author && !r.deleted && !r.dismissed && !r.accepted;
      var change := (r: Row) => r.(read := true, dismissed := true, updatedAt := now);
      UpdateIs(op, chats, table, now, updated, change);
      Update(updated, change);
      UpdateState(now);
    }

    /** MarkActivityCenterNotificationsDeleted */
    method MarkNotificationsDeleted(ids: seq<Id>, now: Uint64) returns (ns: seq<Notification>)
      modifies this
      ensures Stored() == Apply(MarkDeleted(ids), chats, old(Stored()), now)
      ensures Agrees(ns, TouchedIds(MarkDeleted(ids), chats, old(table)), table)
    {
      if ids == [] { return []; }
      ghost var op := MarkDeleted(ids);
      var where := (id: Id, r: Row) => id in ids && !r.deleted;
      var rows := Select(where);
      PickedIsTouched(op, chats, table, where);
      ns := ParseRows(rows, (r: Row) => r.(deleted := true, updatedAt := now));
      ParsedRowsAgree(op, chats, table, now, rows, ns);
      var updated := (id: Id, r: Row) => id in ids && !r.deleted;
      var change := (r: Row) => r.(deleted := true, updatedAt := now);
      UpdateIs(op, chats, table, now, updated, change);
      Update(updated, change);
      UpdateState(now);
    }

    /** DismissAllActivityCenterNotificationsFromCommunity: nothing happens for a community without chats. */
    method DismissAllFromCommunity(communityID: string, now: Uint64) returns (ns: seq<Notification>)
      modifies this
      ensures Stored() == Apply(DismissFromCommunity(communityID), chats, old(Stored()), now)
      ensures Agrees(ns, TouchedIds(DismissFromCommunity(communityID), chats, old(table)), table)
    {
      ghost var op := DismissFromCommunity(communityID);
      var chatIDs := set c | c in chats && chats[c] == communityID;
      assert chatIDs == ChatsOf(chats, communityID);
      if chatIDs == {} { return []; }
      var where := (id: Id, r: Row) => r.chatID in chatIDs && !r.deleted;
      var ids := Select(where);
      PickedIsTouched(op, chats, table, where);
      ns := ParseRows(ids, (r: Row) => r.(read := true, dismissed := true, updatedAt := now));
      ParsedRowsAgree(op, chats, table, now, ids, ns);
      var updated := (id: Id, r: Row) => r.chatID in chatIDs && !r.deleted;
      var change := (r: Row) => r.(read := true, dismissed := true, updatedAt := now);
      UpdateIs(op, chats, table, now, updated, change);
      Update(updated, change);
      UpdateState(now);
    }

    /** DismissAllActivityCenterNotificationsFromChatID: contact requests stay. */
    method DismissAllFromChatID(chatID: string, now: Uint64) returns (ns: seq<Notification>)
      modifies this
      ensures Stored() == Apply(DismissFromChat(chatID), chats, old(Stored()), now)
      ensures Agrees(ns, TouchedIds(DismissFromChat(chatID), chats, old(table)), table)
    {
      ghost var op := DismissFromChat(chatID);
      var where := (id: Id, r: Row) => r.chatID == chatID && !r.deleted && !r.accepted && r.kind != CONTACT_REQUEST;
      var ids := Select(where);
      PickedIsTouched(op, chats, table, where);
      ns := ParseRows(ids, (r: Row) => r.(read := true, dismissed := true, updatedAt := now));
      ParsedRowsAgree(op, chats, table, now, ids, ns);
      var updated := (id: Id, r: Row) => r.chatID == chatID && !r.deleted && !r.accepted && r.kind != CONTACT_REQUEST;
      var change := (r: Row) => r.(read := true, dismissed := true, updatedAt := now);
      UpdateIs(op, chats, table, now, updated, change);
      Update(updated, change);
      UpdateState(now);
    }

    /** AcceptActivityCenterNotificationsForInvitesFromUser */
    method AcceptInvitesFromUser(author: string, now: Uint64) returns (ns: seq<Notification>)
      modifies this
      ensures Stored() == Apply(AcceptInvites(author), chats, old(Stored()), now)
      ensures Agrees(ns, TouchedIds(AcceptInvites(author), chats, old(table)), table)
    {
      ghost var op := AcceptInvites(author);
      var where := (id: Id, r: Row) =>
        r.author == author && !r.deleted && !r.dismissed && !r.accepted && r.kind == NEW_PRIVATE_GROUP_CHAT;
      var ids := Select(where);
      PickedIsTouched(op, chats, table, where);
      ns := ParseRows(ids, (r: Row) => r.(read := true, accepted := true, updatedAt := now));
      ParsedRowsAgree(op, chats, table, now, ids, ns);
      var updated := (id: Id, r: Row) => r.author == author && !r.deleted && !r.dismissed && !r.accepted && r.kind == NEW_PRIVATE_GROUP_CHAT;
      var change := (r: Row) => r.(read := true, accepted := true, updatedAt := now);
      UpdateIs(op, chats, table, now, updated, change);
      Update(updated, change);
      UpdateState(now);
    }

    /** MarkActivityCenterNotificationsUnread */
    method MarkNotificationsUnread(ids: seq<Id>, now: Uint64) returns (ns: seq<Notification>)
      modifies this
      ensures Stored() == Apply(MarkUnread(ids), chats, old(Stored()), now)
      ensures Agrees(ns, TouchedIds(MarkUnread(ids), chats, old(table)), table)
    {
      ghost var op := MarkUnread(ids);
      if ids == [] {
        assert TouchedIds(op, chats, table) == {};
        return [];
      }
      var where := (id: Id, r: Row) => id in ids && !r.deleted;
      var rows := Select(where);
      PickedIsTouched(op, chats, table, where);
      ns := ParseRows(rows, (r: Row) => r.(read := false, updatedAt := now));
      ParsedRowsAgree(op, chats, table, now, rows, ns);
      if ns == [] {
        assert IdSet(ns) == {};
        return;
      }
      assert ns[0].id in IdSet(ns);
      var updated := (id: Id, r: Row) => id in ids && !r.deleted;
      var change := (r: Row) => r.(read := false, updatedAt := now);
      UpdateIs(op, chats, table, now, updated, change);
      Update(updated, change);
      hasSeen, seenAt := false, now;
    }

    /** DeleteChatContactRequestActivityCenterNotifications: the states row is left alone. */
    method DeleteChatContactRequests(chatID: string, now: Uint64) returns (ns: seq<Notification>)
      modifies this`table
      ensures Stored() == Apply(DeleteContactRequests(chatID), chats, old(Stored()), now)
      ensures Agrees(ns, TouchedIds(DeleteContactRequests(chatID), chats, old(table)), table)
    {
      ghost var op := DeleteContactRequests(chatID);
      var where := (id: Id, r: Row) => r.chatID == chatID && !r.deleted && r.kind == CONTACT_REQUEST;
      var ids := Select(where);
      PickedIsTouched(op, chats, table, where);
      ns := ParseRows(ids, (r: Row) => r.(deleted := true, updatedAt := now));
      ParsedRowsAgree(op, chats, table, now, ids, ns);
      var updated := (id: Id, r: Row) => r.chatID == chatID && !r.deleted && r.kind == CONTACT_REQUEST;
      var change := (r: Row) => r.(deleted := true, updatedAt := now);
      UpdateIs(op, chats, table, now, updated, change);
      Update(updated, change);
    }

    // -------------------------------------------------------------------------
    // Query, then update
    // -------------------------------------------------------------------------

    method ReadRows(rows: seq<Id>) returns (ns: seq<Notification>)
      requires forall i | 0 <= i < |rows| :: rows[i] in table
      ensures |ns| == |rows| && forall i | 0 <= i < |rows| :: ns[i] == Notification(rows[i], table[rows[i]])
    {
      ns := [];
      for k := 0 to |rows|
        invariant |ns| == k
        invariant forall i | 0 <= i < k :: ns[i] == Notification(rows[i], table[rows[i]])
      {
        ns := ns + [Notification(rows[k], table[rows[k]])];
      }
    }

    lemma FetchedAreStored(p: Params, rows: seq<Id>)
      requires rows == Fetched(table, p)
      ensures forall i | 0 <= i < |rows| :: rows[i] in table
    {
      forall i | 0 <= i < |rows| ensures rows[i] in table { ListingElement(table, p, i); }
    }

    /** The rows of the joined query as structs. */
    method Load(p: Params) returns (ns: seq<Notification>)
      ensures |ns| == |Fetched(table, p)|
      ensures forall i | 0 <= i < |ns| :: Fetched(table, p)[i] in table && ns[i] == Notification(Fetched(table, p)[i], table[Fetched(table, p)[i]])
    {
      var _, rows := BuildQuery(table, p);
      FetchedAreStored(p, rows);
      ns := ReadRows(rows);
    }

    /** The unlimited query lists every satisfying row once. */
    lemma LoadedRows(p: Params, ns: seq<Notification>)
      requires p.limit == 0 && |ns| == |Fetched(table, p)|
      requires forall i | 0 <= i < |ns| :: Fetched(table, p)[i] in table && ns[i] == Notification(Fetched(table, p)[i], table[Fetched(table, p)[i]])
      ensures AgreesFully(ns, Matching(table, p), table)
    {
      ListingFacts(table, p);
      var q := Listing(table, p);
      assert Distinct(q) by {
        forall i, j | 0 <= i < j < |q| ensures q[i] != q[j] {
          assert ByCursor(table)(q[j], q[i]);
          TextIrreflexive(Cur(table, q[j]));
        }
      }
      ParsedIds(q, Matching(table, p), ns);
    }

    /** The loop over the loaded notifications: those of the message, marked read, dismissed and deleted. */
    method MatchMessage(ns: seq<Notification>, messageID: string, now: Uint64, ghost t: Table)
      returns (ids: set<Id>, matched: seq<Notification>)
      requires DistinctIds(ns) && forall k | 0 <= k < |ns| :: ns[k].id in t && ns[k].row == t[ns[k].id]
      ensures DistinctIds(matched) && IdSet(matched) == ids
      ensures ids == set k | 0 <= k < |ns| && ns[k].row.message == Some(messageID) :: ns[k].id
      ensures forall i | 0 <= i < |matched| :: matched[i].id in t &&
                matched[i].row == t[matched[i].id].(read := true, dismissed := true, deleted := true, updatedAt := now)
    {
      ids, matched := {}, [];
      for k := 0 to |ns|
        invariant DistinctIds(matched) && IdSet(matched) == ids
        invariant ids == set m | 0 <= m < k && ns[m].row.message == Some(messageID) :: ns[m].id
        invariant forall i | 0 <= i < |matched| :: matched[i].id in t &&
                    matched[i].row == t[matched[i].id].(read := true, dismissed := true, deleted := true, updatedAt := now)
      {
        if ns[k].row.message == Some(messageID) {
          var n := ns[k].(row := ns[k].row.(read := true, dismissed := true, deleted := true, updatedAt := now));
          IdSetAppend(matched, n);
          assert forall i | 0 <= i < |matched| :: matched[i].id in ids;
          ids := ids + {n.id};
          matched := matched + [n];
        }
      }
    }

    /**
     DeleteActivityCenterNotificationForMessage: the UPDATE goes by id alone; that no deleted row is hit
     follows from the earlier query.
     */
    method DeleteNotificationForMessage(chatID: string, messageID: string, now: Uint64) returns (matched: seq<Notification>)
      modifies this`table
      ensures Stored() == Apply(DeleteForMessage(chatID, messageID), chats, old(Stored()), now)
      ensures AgreesFully(matched, TouchedIds(DeleteForMessage(chatID, messageID), chats, old(table)), table)
    {
      ghost var op := DeleteForMessage(chatID, messageID);
      var p := NO_PARAMS.(chatID := chatID);
      var ns := Load(p);
      LoadedRows(p, ns);
      var ids;
      ids, matched := MatchMessage(ns, messageID, now, table);
      MatchedIds(op, p, ns, ids);
      var updated := (id: Id, r: Row) => id in ids;
      var change := (r: Row) => r.(read := true, dismissed := true, deleted := true, updatedAt := now);
      assert forall id | id in table :: id in ids <==> Touched(op, chats, id, table[id]);
      UpdateIs(op, chats, table, now, updated, change);
      if ids != {} {
        Update(updated, change);
      } else {
        assert UpdateWhere(table, updated, change) == table;
      }
      forall i | 0 <= i < |matched| ensures matched[i].id in table && matched[i].row == table[matched[i].id] {
        assert matched[i].id in IdSet(matched);
      }
    }

    lemma MatchedIds(op: Op, p: Params, ns: seq<Notification>, ids: set<Id>)
      requires op.DeleteForMessage? && p == NO_PARAMS.(chatID := op.chatID)
      requires AgreesFully(ns, Matching(table, p), table)
      requires ids == set k | 0 <= k < |ns| && ns[k].row.message == Some(op.messageID) :: ns[k].id
      ensures ids == TouchedIds(op, chats, table)
    {
      forall k | 0 <= k < |ns| ensures ns[k].id in Matching(table, p) { assert ns[k].id in IdSet(ns); }
      forall id | id in TouchedIds(op, chats, table) ensures id in ids {
        assert id in Matching(table, p);
        var k :| 0 <= k < |ns| && ns[k].id == id;
        assert ns[k].row == table[id];
      }
    }

    /** The loop of AcceptActivityCenterNotifications. */
    method MarkAccepted(loaded: seq<Notification>, now: Uint64) returns (ns: seq<Notification>)
      ensures |ns| == |loaded|
      ensures forall i | 0 <= i < |ns| ::
                ns[i] == Notification(loaded[i].id, loaded[i].row.(read := true, accepted := true, updatedAt := now))
    {
      ns := [];
      for k := 0 to |loaded|
        invariant |ns| == k
        invariant forall i | 0 <= i < k ::
                    ns[i] == Notification(loaded[i].id, loaded[i].row.(read := true, accepted := true, updatedAt := now))
      {
        var n := loaded[k].(row := loaded[k].row.(read := true, accepted := true, updatedAt := now));
        ns := ns + [n];
      }
    }

    static lemma AcceptedAgree(ids: seq<Id>, chats: Chats, t: Table, now: Uint64, loaded: seq<Notification>, ns: seq<Notification>)
      requires ids != []
      requires AgreesFully(loaded, Matching(t, NO_PARAMS.(ids := ids)), t)
      requires |ns| == |loaded|
      requires forall i | 0 <= i < |ns| ::
                ns[i] == Notification(loaded[i].id, loaded[i].row.(read := true, accepted := true, updatedAt := now))
      ensures AgreesFully(ns, Matching(t, NO_PARAMS.(ids := ids)), Updated(Accept(ids), chats, t, now))
    {
      assert IdSet(ns) == IdSet(loaded) by {
        forall i | 0 <= i < |ns| ensures ns[i].id in IdSet(loaded) { assert loaded[i].id == ns[i].id; }
        forall i | 0 <= i < |ns| ensures loaded[i].id in IdSet(ns) { assert loaded[i].id == ns[i].id; }
      }
      forall i | 0 <= i < |ns| ensures ns[i].row == Updated(Accept(ids), chats, t, now)[ns[i].id] {
        assert loaded[i].id in IdSet(loaded);
      }
    }

    method LoadAccepted(ids: seq<Id>, now: Uint64) returns (ns: seq<Notification>)
      requires ids != []
      ensures AgreesFully(ns, Matching(table, NO_PARAMS.(ids := ids)), Updated(Accept(ids), chats, table, now))
    {
      var p := NO_PARAMS.(ids := ids);
      var loaded := Load(p);
      LoadedRows(p, loaded);
      ns := MarkAccepted(loaded, now);
      AcceptedAgree(ids, chats, table, now, loaded, ns);
    }

    /** AcceptActivityCenterNotifications: the query skips accepted rows, the UPDATE does not. */
    method AcceptNotifications(ids: seq<Id>, now: Uint64) returns (ns: seq<Notification>)
      modifies this
      ensures Stored() == Apply(Accept(ids), chats, old(Stored()), now)
      ensures ids == [] ==> ns == []
      ensures ids != [] ==> AgreesFully(ns, Matching(old(table), NO_PARAMS.(ids := ids)), table)
    {
      if ids == [] { return []; }
      ns := LoadAccepted(ids, now);
      var updated := (id: Id, r: Row) => id in ids && !r.deleted;
      var change := (r: Row) => r.(read := true, accepted := true, updatedAt := now);
      UpdateIs(Accept(ids), chats, table, now, updated, change);
      Update(updated, change);
      UpdateState(now);
    }

    /** DismissActivityCenterNotificationsByCommunity: returns every live unaccepted row, as updated. */
    method DismissNotificationsByCommunity(communityID: string, now: Uint64) returns (ns: seq<Notification>)
      modifies this
      ensures Stored() == Apply(DismissByCommunity(communityID), chats, old(Stored()), now)
      ensures AgreesFully(ns, Matching(table, NO_PARAMS), table)
    {
      var updated := (id: Id, r: Row) => r.communityID == communityID && !r.deleted && r.kind in {COMMUNITY_REQUEST, COMMUNITY_KICKED, COMMUNITY_BANNED, COMMUNITY_UNBANNED};
      var change := (r: Row) => r.(read := true, dismissed := true, updatedAt := now);
      UpdateIs(DismissByCommunity(communityID), chats, table, now, updated, change);
      Update(updated, change);
      ns := Load(NO_PARAMS);
      LoadedRows(NO_PARAMS, ns);
      UpdateState(now);
    }

    /** AcceptAllActivityCenterNotifications: returns the rows as they were before the update. */
    method AcceptAllNotifications(now: Uint64) returns (ns: seq<Notification>)
      modifies this`table
      ensures Stored() == Apply(AcceptAll, chats, old(Stored()), now)
      ensures AgreesFully(ns, Matching(old(table), NO_PARAMS), old(table))
    {
      ns := Load(NO_PARAMS);
      LoadedRows(NO_PARAMS, ns);
      var updated := (id: Id, r: Row) => !r.dismissed && !r.accepted && !r.deleted;
      var change := (r: Row) => r.(read := true, accepted := true, updatedAt := now);
      UpdateIs(AcceptAll, chats, table, now, updated, change);
      Update(updated, change);
    }

    // -------------------------------------------------------------------------
    // Plain updates
    // -------------------------------------------------------------------------

    /** DeleteActivityCenterNotificationByID */
    method DeleteNotificationByID(id: Id, now: Uint64)
      modifies this`table
      ensures Stored() == Apply(DeleteByID(id), chats, old(Stored()), now)
    {
      var updated := (i: Id, r: Row) => i == id && !r.deleted;
      var change := (r: Row) => r.(deleted := true, updatedAt := now);
      UpdateIs(DeleteByID(id), chats, table, now, updated, change);
      Update(updated, change);
    }

    /** SaveActivityCenterNotification */
    method SaveNotification(id: Id, row: Row, updateState: bool) returns (r: Result<nat, ()>)
      modifies this
      ensures r.Ok? <==> ValidNotification(id, row)
      ensures forall now: Uint64 :: Stored() == Apply(Save(id, row, updateState), chats, old(Stored()), now)
    {
      if !ValidNotification(id, row) { return Err(()); }
      table := table[id := row];
      var n := 1;
      if updateState && n > 0 && !row.read {
        hasSeen, seenAt := false, row.updatedAt;
      }
      return Ok(n);
    }

    /** DismissAllActivityCenterNotifications */
    method DismissAllNotifications(now: Uint64)
      modifies this`table
      ensures Stored() == Apply(DismissAll, chats, old(Stored()), now)
    {
      var updated := (id: Id, r: Row) => !r.dismissed && !r.accepted && !r.deleted;
      var change := (r: Row) => r.(read := true, dismissed := true, updatedAt := now);
      UpdateIs(DismissAll, chats, table, now, updated, change);
      Update(updated, change);
    }

    /** DismissActivityCenterNotifications */
    method DismissNotifications(ids: seq<Id>, now: Uint64)
      modifies this
      ensures Stored() == Apply(Dismiss(ids), chats, old(Stored()), now)
    {
      if ids == [] { return; }
      var updated := (id: Id, r: Row) => id in ids && !r.deleted;
      var change := (r: Row) => r.(read := true, dismissed := true, updatedAt := now);
      UpdateIs(Dismiss(ids), chats, table, now, updated, change);
      Update(updated, change);
      UpdateState(now);
    }

    /** MarkAllActivityCenterNotificationsRead */
    method MarkAllNotificationsRead(now: Uint64)
      modifies this
      ensures Stored() == Apply(MarkAllRead, chats, old(Stored()), now)
    {
      var updated := (id: Id, r: Row) => !r.read && !r.deleted;
      var change := (r: Row) => r.(read := true, updatedAt := now);
      UpdateIs(MarkAllRead, chats, table, now, updated, change);
      Update(updated, change);
      hasSeen, seenAt := true, now;
    }

    /** MarkActivityCenterNotificationsRead */
    method MarkNotificationsRead(ids: seq<Id>, now: Uint64)
      modifies this
      ensures Stored() == Apply(MarkRead(ids), chats, old(Stored()), now)
    {
      if ids == [] { return; }
      var updated := (id: Id, r: Row) => id in ids && !r.deleted;
      var change := (r: Row) => r.(read := true, updatedAt := now);
      UpdateIs(MarkRead(ids), chats, table, now, updated, change);
      Update(updated, change);
      UpdateState(now);
    }

    /** UpdateActivityCenterNotificationState */
    method SetNotificationState(seen: bool, now: Uint64)
      modifies this`hasSeen, this`seenAt
      ensures Stored() == Apply(SetState(seen), chats, old(Stored()), now)
    {
      hasSeen, seenAt := seen, now;
    }

    /** UpdateActivityCenterState */
    method UpdateActivityCenterState(now: Uint64) returns (seen: bool)
      modifies this`hasSeen, this`seenAt
      ensures Stored() == Apply(RecomputeState, chats, old(Stored()), now)
      ensures seen == hasSeen && (seen <==> UnreadIds(table) == {})
    {
      UpdateState(now);
      seen := hasSeen;
    }
  }

  // ---------------------------------------------------------------------------
  // Accepting by id
  // ---------------------------------------------------------------------------

  /** What AcceptNotifications returns is what it updated exactly when no live id was accepted before. */
  lemma AcceptAgreesExactly(ids: seq<Id>, chats: Chats, t: Table)
    requires ids != []
    ensures Matching(t, NO_PARAMS.(ids := ids)) == TouchedIds(Accept(ids), chats, t) <==>
              forall id | id in ids && id in t && !t[id].deleted :: !t[id].accepted
  {
    var returned, touched := Matching(t, NO_PARAMS.(ids := ids)), TouchedIds(Accept(ids), chats, t);
    forall id | id in t ensures id in returned <==> id in touched && !t[id].accepted {}
    if returned == touched {
      forall id | id in ids && id in t && !t[id].deleted ensures !t[id].accepted { assert id in touched; }
    }
  }

  /** Accepting one id that was accepted before: the row is updated again, and nothing is returned. */
  lemma AcceptCanReturnLess(chats: Chats)
    ensures var t: Table := map[[1] := UNREAD_ROW.(accepted := true)];
            Matching(t, NO_PARAMS.(ids := [[1]])) == {} && TouchedIds(Accept([[1]]), chats, t) == {[1]}
  {
    var t: Table := map[[1] := UNREAD_ROW.(accepted := true)];
    assert [1] in [[1]] by { assert [[1]][0] == [1]; }
    assert Touched(Accept([[1]]), chats, [1], t[[1]]);
  }

  // ---------------------------------------------------------------------------
  // Accepting everything, and dismissing by community
  // ---------------------------------------------------------------------------

  /** AcceptAllNotifications returns exactly the rows it updates when no live, unaccepted row was dismissed before. */
  lemma AcceptAllAgreesExactly(chats: Chats, t: Table)
    ensures Matching(t, NO_PARAMS) == TouchedIds(AcceptAll, chats, t) <==>
              forall id | id in t && !t[id].deleted && !t[id].accepted :: !t[id].dismissed
  {
    forall id | id in t ensures id in TouchedIds(AcceptAll, chats, t) <==> id in Matching(t, NO_PARAMS) && !t[id].dismissed {}
    if Matching(t, NO_PARAMS) == TouchedIds(AcceptAll, chats, t) {
      forall id | id in t && !t[id].deleted && !t[id].accepted ensures !t[id].dismissed { assert id in Matching(t, NO_PARAMS); }
    }
  }

  /** It returns them as they were, so what it returns is what is stored afterwards only when it updates nothing. */
  lemma AcceptAllReturnsOldExactly(chats: Chats, t: Table, now: Uint64)
    ensures (forall id | id in Matching(t, NO_PARAMS) :: Updated(AcceptAll, chats, t, now)[id] == t[id]) <==>
              TouchedIds(AcceptAll, chats, t) == {}
  {
    if id :| id in TouchedIds(AcceptAll, chats, t) {
      assert id in Matching(t, NO_PARAMS) && Updated(AcceptAll, chats, t, now)[id].accepted;
    } else {
      forall id | id in Matching(t, NO_PARAMS) ensures Updated(AcceptAll, chats, t, now)[id] == t[id] {
        assert id !in TouchedIds(AcceptAll, chats, t);
      }
    }
  }

  /** DismissNotificationsByCommunity returns exactly the rows it updates when those are the live rows not accepted. */
  lemma CommunityAgreesExactly(communityID: string, chats: Chats, t: Table, now: Uint64)
    ensures var op := DismissByCommunity(communityID);
            Matching(Updated(op, chats, t, now), NO_PARAMS) == TouchedIds(op, chats, t) <==>
              forall id | id in t && !t[id].deleted :: Touched(op, chats, id, t[id]) <==> !t[id].accepted
  {
    var op := DismissByCommunity(communityID);
    var returned, touched := Matching(Updated(op, chats, t, now), NO_PARAMS), TouchedIds(op, chats, t);
    forall id | id in t ensures id in returned <==> !t[id].deleted && !t[id].accepted {}
    if returned == touched {
      forall id | id in t && !t[id].deleted ensures Touched(op, chats, id, t[id]) <==> !t[id].accepted {
        assert id in touched <==> id in returned;
      }
    }
  }

  /** A dismissed row is returned by AcceptAll and not updated; a row of no community is returned by a dismissal and not updated. */
  lemma OthersAreReturned(chats: Chats, now: Uint64)
    ensures var t: Table := map[[1] := UNREAD_ROW.(dismissed := true)];
            Matching(t, NO_PARAMS) == {[1]} && TouchedIds(AcceptAll, chats, t) == {}
    ensures var t: Table := map[[1] := UNREAD_ROW]; var op := DismissByCommunity("c");
            Matching(Updated(op, chats, t, now), NO_PARAMS) == {[1]} && TouchedIds(op, chats, t) == {}
  {
    var t: Table := map[[1] := UNREAD_ROW.(dismissed := true)];
    assert Satisfies(NO_PARAMS, [1], t[[1]]) && Satisfies(NO_PARAMS, [1], UNREAD_ROW);
  }
}
