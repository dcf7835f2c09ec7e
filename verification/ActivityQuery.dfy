/**
 The dynamic query of the activity center: building the condition list with its positional arguments
 (protocol/activity_center_persistence.go:502-596) and what the database selects with it.
 */
module ActivityQuery {
  import opened Wrappers
  import opened ActivityCursor

  /** A row of activity_center_notifications; `rest` stands for the columns no statement looks at. */
  datatype Row = Row(
    timestamp: Uint64, kind: int, chatID: string, communityID: string, author: string,
    message: Option<string>, read: bool, accepted: bool, dismissed: bool, deleted: bool,
    updatedAt: Uint64, installationID: string, rest: string)

  type Table = map<Id, Row>

  /** activityCenterQueryParams; read is 1 for read, 2 for unread, anything else for all. */
  datatype Params = Params(
    cursor: string, limit: nat, ids: seq<Id>, chatID: string, author: string,
    read: nat, accepted: bool, kinds: seq<int>)

  const NO_PARAMS := Params("", 0, [], "", "", 0, false, [])

  const READ_READ := 1
  const READ_UNREAD := 2

  function CursorOf(id: Id, row: Row): string {
    Cursor(row.timestamp, id)
  }

  // ---------------------------------------------------------------------------
  // Conditions with placeholders
  // ---------------------------------------------------------------------------

  datatype Cond =
    | CursorAtMost
    | IdIn(n: nat)
    | IsRead
    | NotRead
    | NotAccepted
    | ChatIs
    | AuthorIs
    | KindIn(n: nat)
    | NotDeleted

  datatype Arg = Text(text: string) | Blob(id: Id) | Kind(kind: int) | Number(n: nat)

  /** How many placeholders the condition holds. */
  function Arity(c: Cond): nat {
    match c
    case CursorAtMost => 1
    case ChatIs => 1
    case AuthorIs => 1
    case IdIn(n) => n
    case KindIn(n) => n
    case _ => 0
  }

  function TotalArity(cs: seq<Cond>): nat {
    if cs == [] then 0 else Arity(cs[0]) + TotalArity(cs[1..])
  }

  /** What a condition says of a row once its placeholders are filled with `args`, in order. */
  predicate Holds(c: Cond, args: seq<Arg>, id: Id, row: Row)
    requires |args| == Arity(c)
  {
    match c
    case CursorAtMost => args[0].Text? && !TextLess(args[0].text, CursorOf(id, row))
    case IdIn(n) => Blob(id) in args
    case IsRead => row.read
    case NotRead => !row.read
    case NotAccepted => !row.accepted
    case ChatIs => args[0] == Text(row.chatID)
    case AuthorIs => args[0] == Text(row.author)
    case KindIn(n) => Kind(row.kind) in args
    case NotDeleted => !row.deleted
  }

  /** The WHERE clause: arguments are consumed from left to right; too few or too many is an error. */
  function Evaluate(cs: seq<Cond>, args: seq<Arg>, id: Id, row: Row): Option<bool> {
    if cs == [] then (if args == [] then Some(true) else None)
    else if |args| < Arity(cs[0]) then None
    else
      var rest := Evaluate(cs[1..], args[Arity(cs[0])..], id, row);
      if rest.None? then None else Some(Holds(cs[0], args[..Arity(cs[0])], id, row) && rest.value)
  }

  // ---------------------------------------------------------------------------
  // The text of the conditions
  // ---------------------------------------------------------------------------

  function Repeat(s: string, n: nat): string {
    if n == 0 then "" else Repeat(s, n - 1) + s
  }

  /** strings.Repeat("?, ", n-1) + "?" */
  function InVector(n: nat): string
    requires n > 0
  {
    Repeat("?, ", n - 1) + "?"
  }

  function ConditionText(c: Cond): string {
    match c
    case CursorAtMost => "cursor <= ?"
    case IdIn(n) => if n == 0 then "a.id IN ()" else "a.id IN (" + InVector(n) + ")"
    case IsRead => "a.read = 1"
    case NotRead => "NOT a.read"
    case NotAccepted => "NOT a.accepted"
    case ChatIs => "a.chat_id = ?"
    case AuthorIs => "a.author = ?"
    case KindIn(n) => if n == 0 then "a.notification_type IN ()" else "a.notification_type IN (" + InVector(n) + ")"
    case NotDeleted => "NOT a.deleted"
  }

  function Join(cs: seq<Cond>): string {
    if cs == [] then "" else if |cs| == 1 then ConditionText(cs[0]) else ConditionText(cs[0]) + " AND " + Join(cs[1..])
  }

  function Placeholders(s: string): nat {
    if s == [] then 0 else (if s[0] == '?' then 1 else 0) + Placeholders(s[1..])
  }

  lemma {:induction false} PlaceholdersConcat(a: string, b: string)
    ensures Placeholders(a + b) == Placeholders(a) + Placeholders(b)
  {
    if a == [] {
      assert a + b == b;
    } else {
      assert (a + b)[1..] == a[1..] + b;
      PlaceholdersConcat(a[1..], b);
    }
  }

  lemma {:induction false} RepeatPlaceholders(n: nat)
    ensures Placeholders(Repeat("?, ", n)) == n
  {
    if n > 0 {
      RepeatPlaceholders(n - 1);
      PlaceholdersConcat(Repeat("?, ", n - 1), "?, ");
      assert Placeholders("?, ") == 1 by {
        assert "?, "[1..] == ", " && ", "[1..] == " ";
      }
    }
  }

  lemma NoPlaceholders(s: string)
    requires '?' !in s
    ensures Placeholders(s) == 0
  {
  }

  lemma OnePlaceholder(s: string)
    requires '?' !in s
    ensures Placeholders(s + "?") == 1
  {
    NoPlaceholders(s);
    PlaceholdersConcat(s, "?");
  }

  lemma ListPlaceholders(head: string, n: nat)
    requires '?' !in head && n > 0
    ensures Placeholders(head + InVector(n) + ")") == n
  {
    NoPlaceholders(head);
    RepeatPlaceholders(n - 1);
    PlaceholdersConcat(Repeat("?, ", n - 1), "?");
    PlaceholdersConcat(head, InVector(n));
    PlaceholdersConcat(head + InVector(n), ")");
  }

  lemma TextArity(c: Cond)
    ensures Placeholders(ConditionText(c)) == Arity(c)
  {
    match c
    case CursorAtMost => OnePlaceholder("cursor <= "); assert "cursor <= " + "?" == "cursor <= ?";
    case IdIn(n) => if n == 0 { NoPlaceholders("a.id IN ()"); } else { ListPlaceholders("a.id IN (", n); }
    case ChatIs => OnePlaceholder("a.chat_id = "); assert "a.chat_id = " + "?" == "a.chat_id = ?";
    case AuthorIs => OnePlaceholder("a.author = "); assert "a.author = " + "?" == "a.author = ?";
    case KindIn(n) =>
      if n == 0 { NoPlaceholders("a.notification_type IN ()"); } else { ListPlaceholders("a.notification_type IN (", n); }
    case _ => NoPlaceholders(ConditionText(c));
  }

  /** The generated text holds one placeholder per counted argument. */
  lemma {:induction false} JoinArity(cs: seq<Cond>)
    ensures Placeholders(Join(cs)) == TotalArity(cs)
  {
    if cs != [] {
      TextArity(cs[0]);
      if |cs| > 1 {
        JoinArity(cs[1..]);
        PlaceholdersConcat(ConditionText(cs[0]), " AND ");
        NoPlaceholders(" AND ");
        PlaceholdersConcat(ConditionText(cs[0]) + " AND ", Join(cs[1..]));
      } else {
        assert cs[1..] == [];
      }
    }
  }

  // ---------------------------------------------------------------------------
  // Meaning of the parameters
  // ---------------------------------------------------------------------------

  /** The rows the caller asks for, read off the parameter record. */
  predicate Satisfies(p: Params, id: Id, row: Row) {
    && (p.cursor != "" ==> !TextLess(p.cursor, CursorOf(id, row)))
    && (p.ids != [] ==> id in p.ids)
    && (p.read == READ_READ ==> row.read)
    && (p.read == READ_UNREAD ==> !row.read)
    && (!p.accepted ==> !row.accepted)
    && (p.chatID != "" ==> row.chatID == p.chatID)
    && (p.author != "" ==> row.author == p.author)
    && (p.kinds != [] ==> row.kind in p.kinds)
    && !row.deleted
  }

  // ---------------------------------------------------------------------------
  // Building the query
  // ---------------------------------------------------------------------------

  /** A condition together with the arguments pushed for it. */
  datatype Clause = Clause(cond: Cond, args: seq<Arg>)

  function Conditions(cls: seq<Clause>): seq<Cond> {
    if cls == [] then [] else Conditions(cls[..|cls| - 1]) + [cls[|cls| - 1].cond]
  }

  function Arguments(cls: seq<Clause>): seq<Arg> {
    if cls == [] then [] else Arguments(cls[..|cls| - 1]) + cls[|cls| - 1].args
  }

  predicate WellFormed(cls: seq<Clause>) {
    forall i | 0 <= i < |cls| :: |cls[i].args| == Arity(cls[i].cond)
  }

  predicate AllHold(cls: seq<Clause>, id: Id, row: Row) {
    forall i | 0 <= i < |cls| :: |cls[i].args| == Arity(cls[i].cond) && Holds(cls[i].cond, cls[i].args, id, row)
  }

  lemma {:induction false} EvaluateAppend(cs: seq<Cond>, args: seq<Arg>, c: Cond, more: seq<Arg>, id: Id, row: Row)
    requires Evaluate(cs, args, id, row).Some? && |more| == Arity(c)
    ensures Evaluate(cs + [c], args + more, id, row) == Some(Evaluate(cs, args, id, row).value && Holds(c, more, id, row))
  {
    if cs == [] {
      assert cs + [c] == [c] && args + more == more;
      assert more[Arity(c)..] == [] && more[..Arity(c)] == more && [c][1..] == [];
    } else {
      var k := Arity(cs[0]);
      assert (cs + [c])[0] == cs[0] && (cs + [c])[1..] == cs[1..] + [c];
      assert (args + more)[..k] == args[..k] && (args + more)[k..] == args[k..] + more;
      EvaluateAppend(cs[1..], args[k..], c, more, id, row);
    }
  }

  lemma {:induction false} TotalArityAppend(cs: seq<Cond>, c: Cond)
    ensures TotalArity(cs + [c]) == TotalArity(cs) + Arity(c)
  {
    if cs != [] {
      assert (cs + [c])[0] == cs[0] && (cs + [c])[1..] == cs[1..] + [c];
      TotalArityAppend(cs[1..], c);
    }
  }

  /** Consuming the arguments from left to right gives every condition its own. */
  lemma {:induction false} EvaluateClauses(cls: seq<Clause>, id: Id, row: Row)
    requires WellFormed(cls)
    ensures TotalArity(Conditions(cls)) == |Arguments(cls)|
    ensures Evaluate(Conditions(cls), Arguments(cls), id, row) == Some(AllHold(cls, id, row))
  {
    if cls != [] {
      var init, last := cls[..|cls| - 1], cls[|cls| - 1];
      EvaluateClauses(init, id, row);
      TotalArityAppend(Conditions(init), last.cond);
      EvaluateAppend(Conditions(init), Arguments(init), last.cond, last.args, id, row);
      assert AllHold(cls, id, row) <==> AllHold(init, id, row) && Holds(last.cond, last.args, id, row);
    }
  }

  function Blobs(ids: seq<Id>): seq<Arg> {
    seq(|ids|, i requires 0 <= i < |ids| => Blob(ids[i]))
  }

  function Kinds(kinds: seq<int>): seq<Arg> {
    seq(|kinds|, i requires 0 <= i < |kinds| => Kind(kinds[i]))
  }

  function When(b: bool, c: Cond, args: seq<Arg>): seq<Clause> {
    if b then [Clause(c, args)] else []
  }

  function HeadClauses(p: Params): seq<Clause> {
    When(p.cursor != "", CursorAtMost, [Text(p.cursor)]) + When(p.ids != [], IdIn(|p.ids|), Blobs(p.ids))
  }

  function FlagClauses(p: Params): seq<Clause> {
    HeadClauses(p) + When(p.read == READ_READ, IsRead, []) + When(p.read == READ_UNREAD, NotRead, []) +
    When(!p.accepted, NotAccepted, [])
  }

  function TextClauses(p: Params): seq<Clause> {
    FlagClauses(p) + When(p.chatID != "", ChatIs, [Text(p.chatID)]) + When(p.author != "", AuthorIs, [Text(p.author)])
  }

  function Clauses(p: Params): seq<Clause> {
    TextClauses(p) + When(p.kinds != [], KindIn(|p.kinds|), Kinds(p.kinds)) + [Clause(NotDeleted, [])]
  }

  lemma ConcatHold(a: seq<Clause>, b: seq<Clause>, id: Id, row: Row)
    requires WellFormed(a) && WellFormed(b)
    ensures WellFormed(a + b) && (AllHold(a + b, id, row) <==> AllHold(a, id, row) && AllHold(b, id, row))
  {
    if AllHold(a + b, id, row) {
      forall i | 0 <= i < |a| ensures Holds(a[i].cond, a[i].args, id, row) { assert (a + b)[i] == a[i]; }
      forall i | 0 <= i < |b| ensures Holds(b[i].cond, b[i].args, id, row) { assert (a + b)[|a| + i] == b[i]; }
    }
  }

  lemma WhenHold(b: bool, c: Cond, args: seq<Arg>, id: Id, row: Row)
    requires |args| == Arity(c)
    ensures WellFormed(When(b, c, args))
    ensures AllHold(When(b, c, args), id, row) <==> (b ==> Holds(c, args, id, row))
  {
    if b { assert When(b, c, args)[0] == Clause(c, args); }
  }

  lemma MembershipArgs(p: Params, id: Id, kind: int)
    ensures Blob(id) in Blobs(p.ids) <==> id in p.ids
    ensures Kind(kind) in Kinds(p.kinds) <==> kind in p.kinds
  {
    if id in p.ids { var j :| 0 <= j < |p.ids| && p.ids[j] == id; assert Blobs(p.ids)[j] == Blob(id); }
    if kind in p.kinds { var j :| 0 <= j < |p.kinds| && p.kinds[j] == kind; assert Kinds(p.kinds)[j] == Kind(kind); }
  }

  lemma HeadClausesMean(p: Params, id: Id, row: Row)
    ensures WellFormed(HeadClauses(p))
    ensures AllHold(HeadClauses(p), id, row) <==>
              (p.cursor != "" ==> !TextLess(p.cursor, CursorOf(id, row))) && (p.ids != [] ==> id in p.ids)
  {
    MembershipArgs(p, id, row.kind);
    var c, i := When(p.cursor != "", CursorAtMost, [Text(p.cursor)]), When(p.ids != [], IdIn(|p.ids|), Blobs(p.ids));
    WhenHold(p.cursor != "", CursorAtMost, [Text(p.cursor)], id, row);
    WhenHold(p.ids != [], IdIn(|p.ids|), Blobs(p.ids), id, row);
    ConcatHold(c, i, id, row);
  }

  lemma FlagClausesMean(p: Params, id: Id, row: Row)
    ensures WellFormed(FlagClauses(p))
    ensures AllHold(FlagClauses(p), id, row) <==>
              && AllHold(HeadClauses(p), id, row)
              && (p.read == READ_READ ==> row.read) && (p.read == READ_UNREAD ==> !row.read)
              && (!p.accepted ==> !row.accepted)
  {
    HeadClausesMean(p, id, row);
    var r, u, n := When(p.read == READ_READ, IsRead, []), When(p.read == READ_UNREAD, NotRead, []), When(!p.accepted, NotAccepted, []);
    WhenHold(p.read == READ_READ, IsRead, [], id, row);
    WhenHold(p.read == READ_UNREAD, NotRead, [], id, row);
    WhenHold(!p.accepted, NotAccepted, [], id, row);
    ConcatHold(HeadClauses(p), r, id, row);
    ConcatHold(HeadClauses(p) + r, u, id, row);
    ConcatHold(HeadClauses(p) + r + u, n, id, row);
  }

  lemma TextClausesMean(p: Params, id: Id, row: Row)
    ensures WellFormed(TextClauses(p))
    ensures AllHold(TextClauses(p), id, row) <==>
              && AllHold(FlagClauses(p), id, row)
              && (p.chatID != "" ==> row.chatID == p.chatID) && (p.author != "" ==> row.author == p.author)
  {
    FlagClausesMean(p, id, row);
    var c, a := When(p.chatID != "", ChatIs, [Text(p.chatID)]), When(p.author != "", AuthorIs, [Text(p.author)]);
    WhenHold(p.chatID != "", ChatIs, [Text(p.chatID)], id, row);
    WhenHold(p.author != "", AuthorIs, [Text(p.author)], id, row);
    ConcatHold(FlagClauses(p), c, id, row);
    ConcatHold(FlagClauses(p) + c, a, id, row);
  }

  lemma ClausesMean(p: Params, id: Id, row: Row)
    ensures WellFormed(Clauses(p))
    ensures AllHold(Clauses(p), id, row) <==> Satisfies(p, id, row)
  {
    HeadClausesMean(p, id, row);
    FlagClausesMean(p, id, row);
    TextClausesMean(p, id, row);
    MembershipArgs(p, id, row.kind);
    var k, d := When(p.kinds != [], KindIn(|p.kinds|), Kinds(p.kinds)), [Clause(NotDeleted, [])];
    WhenHold(p.kinds != [], KindIn(|p.kinds|), Kinds(p.kinds), id, row);
    WhenHold(true, NotDeleted, [], id, row);
    ConcatHold(TextClauses(p), k, id, row);
    ConcatHold(TextClauses(p) + k, d, id, row);
  }

  /** The query compiled for p: one placeholder per argument, and exactly the rows p asks for. */
  lemma CompiledQuery(p: Params, id: Id, row: Row)
    ensures var cs, args := Conditions(Clauses(p)), Arguments(Clauses(p));
            && Placeholders(Join(cs)) == TotalArity(cs) == |args|
            && Evaluate(cs, args, id, row) == Some(Satisfies(p, id, row))
  {
    ClausesMean(p, id, row);
    EvaluateClauses(Clauses(p), id, row);
    JoinArity(Conditions(Clauses(p)));
  }

  ghost predicate Built(cls: seq<Clause>, conditions: seq<Cond>, args: seq<Arg>) {
    conditions == Conditions(cls) && args == Arguments(cls)
  }

  lemma BuiltMore(cls: seq<Clause>, conditions: seq<Cond>, args: seq<Arg>, c: Cond, more: seq<Arg>)
    requires Built(cls, conditions, args)
    ensures Built(cls + [Clause(c, more)], conditions + [c], args + more)
  {
    assert (cls + [Clause(c, more)])[..|cls|] == cls;
  }

  lemma BuiltWhen(cls: seq<Clause>, conditions: seq<Cond>, args: seq<Arg>, b: bool, c: Cond, more: seq<Arg>)
    requires Built(cls, conditions, args)
    ensures Built(cls + When(b, c, more), if b then conditions + [c] else conditions, if b then args + more else args)
  {
    if b { BuiltMore(cls, conditions, args, c, more); } else { assert cls + [] == cls; }
  }

  method PushIds(before: seq<Arg>, ids: seq<Id>) returns (args: seq<Arg>)
    ensures args == before + Blobs(ids)
  {
    args := before;
    for i := 0 to |ids|
      invariant args == before + Blobs(ids)[..i]
    {
      args := args + [Blob(ids[i])];
    }
  }

  method PushKinds(before: seq<Arg>, kinds: seq<int>) returns (args: seq<Arg>)
    ensures args == before + Kinds(kinds)
  {
    args := before;
    for i := 0 to |kinds|
      invariant args == before + Kinds(kinds)[..i]
    {
      args := args + [Kind(kinds[i])];
    }
  }

  /** The cursor and id conditions. */
  method PrepareHead(p: Params) returns (conditions: seq<Cond>, args: seq<Arg>)
    ensures Built(HeadClauses(p), conditions, args)
  {
    conditions, args := [], [];
    BuiltWhen([], conditions, args, p.cursor != "", CursorAtMost, [Text(p.cursor)]);
    if p.cursor != "" {
      conditions, args := conditions + [CursorAtMost], args + [Text(p.cursor)];
    }
    assert [] + When(p.cursor != "", CursorAtMost, [Text(p.cursor)]) == When(p.cursor != "", CursorAtMost, [Text(p.cursor)]);
    BuiltWhen(When(p.cursor != "", CursorAtMost, [Text(p.cursor)]), conditions, args, p.ids != [], IdIn(|p.ids|), Blobs(p.ids));
    if p.ids != [] {
      conditions := conditions + [IdIn(|p.ids|)];
      args := PushIds(args, p.ids);
    }
  }

  /** The read and accepted conditions take no arguments. */
  method PrepareFlags(p: Params) returns (conditions: seq<Cond>, args: seq<Arg>)
    ensures Built(FlagClauses(p), conditions, args)
  {
    conditions, args := PrepareHead(p);
    ghost var cls := HeadClauses(p);
    assert args + [] == args;
    BuiltWhen(cls, conditions, args, p.read == READ_READ, IsRead, []);
    if p.read == READ_READ {
      conditions := conditions + [IsRead];
    }
    cls := cls + When(p.read == READ_READ, IsRead, []);
    BuiltWhen(cls, conditions, args, p.read == READ_UNREAD, NotRead, []);
    if p.read == READ_UNREAD {
      conditions := conditions + [NotRead];
    }
    cls := cls + When(p.read == READ_UNREAD, NotRead, []);
    BuiltWhen(cls, conditions, args, !p.accepted, NotAccepted, []);
    if !p.accepted {
      conditions := conditions + [NotAccepted];
    }
  }

  /** prepareQueryConditionsAndArgs */
  method PrepareConditionsAndArgs(p: Params) returns (conditions: seq<Cond>, args: seq<Arg>)
    ensures Placeholders(Join(conditions)) == TotalArity(conditions) == |args|
    ensures forall id: Id, row: Row :: Evaluate(conditions, args, id, row) == Some(Satisfies(p, id, row))
  {
    conditions, args := PrepareFlags(p);
    ghost var cls := FlagClauses(p);
    BuiltWhen(cls, conditions, args, p.chatID != "", ChatIs, [Text(p.chatID)]);
    if p.chatID != "" {
      conditions, args := conditions + [ChatIs], args + [Text(p.chatID)];
    }
    cls := cls + When(p.chatID != "", ChatIs, [Text(p.chatID)]);
    BuiltWhen(cls, conditions, args, p.author != "", AuthorIs, [Text(p.author)]);
    if p.author != "" {
      conditions, args := conditions + [AuthorIs], args + [Text(p.author)];
    }
    cls := cls + When(p.author != "", AuthorIs, [Text(p.author)]);
    BuiltWhen(cls, conditions, args, p.kinds != [], KindIn(|p.kinds|), Kinds(p.kinds));
    if p.kinds != [] {
      conditions := conditions + [KindIn(|p.kinds|)];
      args := PushKinds(args, p.kinds);
    }
    cls := cls + When(p.kinds != [], KindIn(|p.kinds|), Kinds(p.kinds));
    BuiltMore(cls, conditions, args, NotDeleted, []);
    conditions := conditions + [NotDeleted];
    assert args + [] == args && cls + [Clause(NotDeleted, [])] == Clauses(p);
    BuiltQuery(p, conditions, args);
  }

  lemma BuiltQuery(p: Params, conditions: seq<Cond>, args: seq<Arg>)
    requires Built(Clauses(p), conditions, args)
    ensures Placeholders(Join(conditions)) == TotalArity(conditions) == |args|
    ensures forall id: Id, row: Row :: Evaluate(conditions, args, id, row) == Some(Satisfies(p, id, row))
  {
    forall id: Id, row: Row ensures Evaluate(conditions, args, id, row) == Some(Satisfies(p, id, row)) {
      CompiledQuery(p, id, row);
    }
    var row := Row(0, 0, "", "", "", None, false, false, false, false, 0, "", "");
    CompiledQuery(p, [], row);
  }
}
