/**
 The whole SELECT of the activity center: conditions, order and LIMIT, with one list of positional
 arguments for all of it (protocol/activity_center_persistence.go:567-596).
 */
module ActivityStatement {
  import opened Wrappers
  import opened ActivityCursor
  import opened ActivityQuery

  /** What a statement says after its list of columns; LIMIT, if present, takes one more argument. */
  datatype Statement = Statement(conditions: seq<Cond>, limited: bool)

  function WhereText(cs: seq<Cond>): string { if cs == [] then "" else " WHERE " + Join(cs) }

  /** The fixed parts of the text: what comes before the conditions, after them, and the limit. */
  datatype Frame = Frame(columns: string, order: string, limit: string) {
    predicate Valid() { '?' !in columns && '?' !in order && Placeholders(limit) == 1 }
  }

  /** The text of the statement. */
  function StatementText(frame: Frame, stmt: Statement): string {
    frame.columns + WhereText(stmt.conditions) + frame.order + (if stmt.limited then frame.limit else "")
  }

  function StatementArity(stmt: Statement): nat { TotalArity(stmt.conditions) + (if stmt.limited then 1 else 0) }

  lemma WherePlaceholders(cs: seq<Cond>)
    ensures Placeholders(WhereText(cs)) == TotalArity(cs)
  {
    JoinArity(cs);
    NoPlaceholders(" WHERE ");
    PlaceholdersConcat(" WHERE ", Join(cs));
  }

  lemma FourTexts(a: string, b: string, c: string, d: string)
    ensures Placeholders(a + b + c + d) == Placeholders(a) + Placeholders(b) + Placeholders(c) + Placeholders(d)
  {
    PlaceholdersConcat(a, b);
    PlaceholdersConcat(a + b, c);
    PlaceholdersConcat(a + b + c, d);
  }

  lemma StatementPlaceholders(frame: Frame, stmt: Statement)
    requires frame.Valid()
    ensures Placeholders(StatementText(frame, stmt)) == StatementArity(stmt)
  {
    NoPlaceholders(frame.columns);
    WherePlaceholders(stmt.conditions);
    NoPlaceholders(frame.order);
    FourTexts(frame.columns, WhereText(stmt.conditions), frame.order, if stmt.limited then frame.limit else "");
  }

  /** The list of columns is cut short here; it holds no placeholder. */
  const SELECT_FRAME := Frame("SELECT *", " ORDER BY cursor DESC", " LIMIT " + "?")

  lemma SelectFrameValid()
    ensures SELECT_FRAME.Valid()
  {
    OnePlaceholder(" LIMIT ");
  }

  // ---------------------------------------------------------------------------
  // Running a statement
  // ---------------------------------------------------------------------------

  /** The conditions take their arguments from the left; what they say of the row, and the arguments left over. */
  function Consume(cs: seq<Cond>, args: seq<Arg>, id: Id, row: Row): Option<(bool, seq<Arg>)> {
    if cs == [] then Some((true, args))
    else if |args| < Arity(cs[0]) then None
    else
      var rest := Consume(cs[1..], args[Arity(cs[0])..], id, row);
      if rest.None? then None else Some((Holds(cs[0], args[..Arity(cs[0])], id, row) && rest.value.0, rest.value.1))
  }

  /** Conditions that consume their own arguments exactly leave any further ones untouched. */
  lemma {:induction false} ConsumeLeaves(cs: seq<Cond>, args: seq<Arg>, more: seq<Arg>, id: Id, row: Row)
    requires Evaluate(cs, args, id, row).Some?
    ensures Consume(cs, args + more, id, row) == Some((Evaluate(cs, args, id, row).value, more))
  {
    if cs == [] {
      assert args + more == more;
    } else {
      var k := Arity(cs[0]);
      assert (args + more)[..k] == args[..k] && (args + more)[k..] == args[k..] + more;
      ConsumeLeaves(cs[1..], args[k..], more, id, row);
    }
  }

  /** The argument LIMIT is left with, for a parameter record. */
  function LimitArgs(p: Params): seq<Arg> { if p.limit == 0 then [] else [Number(p.limit)] }

  /** The statement and arguments compiled for p. */
  function Compiled(p: Params): Statement { Statement(Conditions(Clauses(p)), p.limit != 0) }
  function CompiledArgs(p: Params): seq<Arg> { Arguments(Clauses(p)) + LimitArgs(p) }

  /**
   For every parameter record: one placeholder per argument, and consuming the arguments from left to right
   selects exactly the rows asked for and leaves exactly the limit for LIMIT.
   */
  lemma CompiledStatement(frame: Frame, p: Params, id: Id, row: Row)
    requires frame.Valid()
    ensures Placeholders(StatementText(frame, Compiled(p))) == |CompiledArgs(p)|
    ensures Consume(Compiled(p).conditions, CompiledArgs(p), id, row) == Some((Satisfies(p, id, row), LimitArgs(p)))
  {
    StatementPlaceholders(frame, Compiled(p));
    CompiledQuery(p, id, row);
    ConsumeLeaves(Conditions(Clauses(p)), Arguments(Clauses(p)), LimitArgs(p), id, row);
  }

  /** The statement part of buildActivityCenterQuery. */
  method BuildStatement(frame: Frame, p: Params) returns (query: string, stmt: Statement, args: seq<Arg>)
    requires frame.Valid()
    ensures query == StatementText(frame, stmt) && stmt.limited == (p.limit != 0)
    ensures Placeholders(query) == |args|
    ensures forall id: Id, row: Row :: Consume(stmt.conditions, args, id, row) == Some((Satisfies(p, id, row), LimitArgs(p)))
  {
    var conditions, where := PrepareConditionsAndArgs(p);
    args := where;
    var limited := false;
    query := frame.columns + WhereText(conditions) + frame.order;
    if p.limit != 0 {
      args := args + [Number(p.limit)];
      query := query + frame.limit;
      limited := true;
    } else {
      assert query + "" == query && args + [] == args;
    }
    stmt := Statement(conditions, limited);
    StatementPlaceholders(frame, stmt);
    forall id: Id, row: Row
      ensures Consume(conditions, args, id, row) == Some((Satisfies(p, id, row), LimitArgs(p)))
    {
      ConsumeLeaves(conditions, where, LimitArgs(p), id, row);
    }
  }

  /** The conditions take the same arguments whatever the row. */
  lemma {:induction false} LeftIsConsumed(cs: seq<Cond>, args: seq<Arg>, id: Id, row: Row)
    requires Consume(cs, args, id, row).Some?
    ensures TotalArity(cs) <= |args| && Consume(cs, args, id, row).value.1 == args[TotalArity(cs)..]
  {
    if cs != [] {
      LeftIsConsumed(cs[1..], args[Arity(cs[0])..], id, row);
    }
  }
}
