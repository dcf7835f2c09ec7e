/** Listing a finite set from the largest element down, for any strict total order. */
module DescendingOrder {
  ghost predicate StrictTotal<T(!new)>(less: (T, T) -> bool, ids: set<T>) {
    && (forall a | a in ids :: !less(a, a))
    && (forall a, b | a in ids && b in ids && a != b :: less(a, b) || less(b, a))
    && (forall a, b, c | a in ids && b in ids && c in ids && less(a, b) && less(b, c) :: less(a, c))
  }

  predicate IsTop<T(==)>(less: (T, T) -> bool, ids: set<T>, a: T) {
    a in ids && forall b | b in ids && b != a :: less(b, a)
  }

  ghost predicate Sorted<T>(less: (T, T) -> bool, q: seq<T>) {
    forall i, j | 0 <= i < j < |q| :: less(q[j], q[i])
  }

  function Elements<T>(q: seq<T>): set<T> {
    set i | 0 <= i < |q| :: q[i]
  }

  lemma {:induction false} TopExists<T(!new)>(less: (T, T) -> bool, ids: set<T>)
    requires StrictTotal(less, ids) && ids != {}
    ensures exists a :: a in ids && IsTop(less, ids, a)
  {
    var x :| x in ids;
    var rest := ids - {x};
    if rest == {} {
      assert ids == {x};
      assert IsTop(less, ids, x);
    } else {
      TopExists(less, rest);
      var a :| a in rest && IsTop(less, rest, a);
      if less(x, a) {
        assert IsTop(less, ids, a);
      } else {
        assert IsTop(less, ids, x);
      }
    }
  }

  lemma TopUnique<T(!new)>(less: (T, T) -> bool, ids: set<T>, a: T, b: T)
    requires StrictTotal(less, ids) && IsTop(less, ids, a) && IsTop(less, ids, b)
    ensures a == b
  {
  }

  ghost function Descending<T(!new)>(less: (T, T) -> bool, ids: set<T>): seq<T>
    decreases |ids|
  {
    if exists a :: IsTop(less, ids, a) then
      var a :| IsTop(less, ids, a);
      [a] + Descending(less, ids - {a})
    else []
  }

  lemma DescendingStep<T(!new)>(less: (T, T) -> bool, ids: set<T>, a: T)
    requires StrictTotal(less, ids) && IsTop(less, ids, a)
    ensures Descending(less, ids) == [a] + Descending(less, ids - {a})
  {
    var b :| IsTop(less, ids, b) && Descending(less, ids) == [b] + Descending(less, ids - {b});
    TopUnique(less, ids, a, b);
  }

  lemma PrependTop<T(!new)>(less: (T, T) -> bool, ids: set<T>, a: T, tail: seq<T>)
    requires IsTop(less, ids, a) && Sorted(less, tail) && Elements(tail) == ids - {a}
    ensures Sorted(less, [a] + tail) && Elements([a] + tail) == ids
  {
    var q := [a] + tail;
    forall i | 0 <= i < |tail| ensures tail[i] in ids && tail[i] != a && tail[i] in Elements(q) {
      assert tail[i] in Elements(tail) && q[i + 1] == tail[i];
    }
    assert q[0] == a;
    forall b | b in ids ensures b in Elements(q) {
      if b != a { assert b in Elements(tail); var i :| 0 <= i < |tail| && tail[i] == b; }
    }
  }

  lemma {:induction false} DescendingSorted<T(!new)>(less: (T, T) -> bool, ids: set<T>)
    requires StrictTotal(less, ids)
    ensures Sorted(less, Descending(less, ids)) && Elements(Descending(less, ids)) == ids
    ensures |Descending(less, ids)| == |ids|
    decreases |ids|
  {
    if ids != {} {
      TopExists(less, ids);
      var a :| IsTop(less, ids, a);
      DescendingStep(less, ids, a);
      DescendingSorted(less, ids - {a});
      PrependTop(less, ids, a, Descending(less, ids - {a}));
    }
  }

  /** A descending sequence is determined by its elements. */
  lemma {:induction false} SortedIsDescending<T(!new)>(less: (T, T) -> bool, q: seq<T>)
    requires StrictTotal(less, Elements(q)) && Sorted(less, q)
    ensures q == Descending(less, Elements(q))
  {
    if q != [] {
      var ids, tail := Elements(q), q[1..];
      forall i | 0 <= i < |tail| ensures tail[i] in ids && tail[i] != q[0] { assert tail[i] == q[i + 1]; }
      forall b | b in ids && b != q[0] ensures b in Elements(tail) && less(b, q[0]) {
        var i :| 0 <= i < |q| && q[i] == b;
        assert tail[i - 1] == b;
      }
      assert Elements(tail) == ids - {q[0]};
      SortedIsDescending(less, tail);
      assert IsTop(less, ids, q[0]);
      DescendingStep(less, ids, q[0]);
    }
  }

  /** The elements not above x. */
  function Below<T(==)>(less: (T, T) -> bool, ids: set<T>, x: T): set<T> {
    set y | y in ids && !less(x, y)
  }

  /** From position k on: exactly the elements not above the one at position k. */
  lemma SuffixFrom<T(!new)>(less: (T, T) -> bool, ids: set<T>, k: nat)
    requires StrictTotal(less, ids) && k < |Descending(less, ids)|
    ensures Descending(less, Below(less, ids, Descending(less, ids)[k])) == Descending(less, ids)[k..]
  {
    DescendingSorted(less, ids);
    var q := Descending(less, ids);
    var below := Below(less, ids, q[k]);
    var tail := q[k..];
    assert q[k] in Elements(q);
    forall x | x in below ensures x in Elements(tail) {
      var i :| 0 <= i < |q| && q[i] == x;
      assert tail[i - k] == x;
    }
    forall i | 0 <= i < |tail| ensures tail[i] in below {
      assert tail[i] == q[k + i] && q[k + i] in Elements(q);
      assert i > 0 ==> less(q[k + i], q[k]);
    }
    assert Elements(tail) == below;
    SortedIsDescending(less, tail);
  }

  /** The first `limit` elements, all of them when limit is 0. */
  ghost function First<T>(q: seq<T>, limit: nat): seq<T> {
    if limit == 0 || |q| <= limit then q else q[..limit]
  }

  /** Picks the largest remaining element until the limit is reached. */
  method PickTop<T(==,!new)>(less: (T, T) -> bool, ids: set<T>, limit: nat) returns (rows: seq<T>)
    requires StrictTotal(less, ids)
    ensures rows == First(Descending(less, ids), limit)
  {
    var todo := ids;
    ghost var q := Descending(less, ids);
    rows := [];
    while todo != {} && (limit == 0 || |rows| < limit)
      invariant todo <= ids && (limit != 0 ==> |rows| <= limit)
      invariant q == rows + Descending(less, todo)
      decreases todo
    {
      TopExists(less, todo);
      var a :| a in todo && IsTop(less, todo, a);
      DescendingStep(less, todo, a);
      assert rows + ([a] + Descending(less, todo - {a})) == rows + [a] + Descending(less, todo - {a});
      rows := rows + [a];
      todo := todo - {a};
    }
    if todo == {} { assert rows + [] == rows; } else { NotEmpty(less, todo); }
  }

  lemma NotEmpty<T(!new)>(less: (T, T) -> bool, ids: set<T>)
    requires StrictTotal(less, ids) && ids != {}
    ensures Descending(less, ids) != []
  {
    TopExists(less, ids);
    var a :| IsTop(less, ids, a);
    DescendingStep(less, ids, a);
  }
}
