/** `ORDER BY`: rows in the order a query asks for. */
module Sorting {
  ghost predicate InOrder<T(!new)>(rows: seq<T>, before: (T, T) -> bool) {
    forall i, j :: 0 <= i < j < |rows| ==> before(rows[i], rows[j])
  }

  /** Any two rows are ordered one way or the other, and the order is transitive. */
  ghost predicate Ordering<T(!new)>(rows: seq<T>, before: (T, T) -> bool) {
    && (forall i, j :: 0 <= i < j < |rows| ==> before(rows[i], rows[j]) || before(rows[j], rows[i]))
    && (forall x, y, z :: before(x, y) && before(y, z) ==> before(x, z))
  }

  function Insert<T>(sorted: seq<T>, row: T, before: (T, T) -> bool): seq<T> {
    if sorted == [] || before(row, sorted[0]) then [row] + sorted
    else [sorted[0]] + Insert(sorted[1..], row, before)
  }

  function Sorted<T>(rows: seq<T>, before: (T, T) -> bool): seq<T> {
    if rows == [] then [] else Insert(Sorted(rows[..|rows| - 1], before), rows[|rows| - 1], before)
  }

  lemma {:induction false} InsertKeepsRows<T(!new)>(sorted: seq<T>, row: T, before: (T, T) -> bool)
    ensures |Insert(sorted, row, before)| == |sorted| + 1
    ensures forall x :: x in Insert(sorted, row, before) <==> x in sorted || x == row
  {
    if sorted != [] && !before(row, sorted[0]) {
      InsertKeepsRows(sorted[1..], row, before);
      assert sorted == [sorted[0]] + sorted[1..];
    }
  }

  lemma {:induction false} InsertKeepsOrder<T(!new)>(sorted: seq<T>, row: T, before: (T, T) -> bool)
    requires InOrder(sorted, before)
    requires forall x :: x in sorted ==> before(x, row) || before(row, x)
    requires forall x, y, z :: before(x, y) && before(y, z) ==> before(x, z)
    ensures InOrder(Insert(sorted, row, before), before)
  {
    if sorted == [] {
    } else if before(row, sorted[0]) {
      forall j | 0 <= j < |sorted| ensures before(row, sorted[j]) {
        assert j > 0 ==> before(sorted[0], sorted[j]);
      }
    } else {
      var rest := Insert(sorted[1..], row, before);
      InsertKeepsOrder(sorted[1..], row, before);
      InsertKeepsRows(sorted[1..], row, before);
      forall j | 0 <= j < |rest| ensures before(sorted[0], rest[j]) {
        assert rest[j] in sorted[1..] || rest[j] == row;
      }
    }
  }

  lemma {:induction false} SortedKeepsRows<T(!new)>(rows: seq<T>, before: (T, T) -> bool)
    ensures |Sorted(rows, before)| == |rows|
    ensures forall x :: x in Sorted(rows, before) <==> x in rows
  {
    if rows != [] {
      var front, last := rows[..|rows| - 1], rows[|rows| - 1];
      SortedKeepsRows(front, before);
      InsertKeepsRows(Sorted(front, before), last, before);
      assert rows == front + [last];
    }
  }

  lemma {:induction false} SortedIsInOrder<T(!new)>(rows: seq<T>, before: (T, T) -> bool)
    requires Ordering(rows, before)
    ensures InOrder(Sorted(rows, before), before)
  {
    if rows != [] {
      var front, last := rows[..|rows| - 1], rows[|rows| - 1];
      SortedIsInOrder(front, before);
      SortedKeepsRows(front, before);
      forall x | x in Sorted(front, before) ensures before(x, last) || before(last, x) {
        assert x in front;
        var i :| 0 <= i < |front| && front[i] == x;
        assert rows[i] == x && rows[|rows| - 1] == last;
      }
      InsertKeepsOrder(Sorted(front, before), last, before);
    }
  }

  lemma {:induction false} InsertLast<T(!new)>(sorted: seq<T>, row: T, before: (T, T) -> bool)
    requires forall i :: 0 <= i < |sorted| ==> before(sorted[i], row) && !before(row, sorted[i])
    ensures Insert(sorted, row, before) == sorted + [row]
  {
    if sorted != [] {
      InsertLast(sorted[1..], row, before);
      assert sorted == [sorted[0]] + sorted[1..];
    }
  }

  /** Rows come back as they were exactly when they were in order already. */
  lemma {:induction false} SortedLeavesOrder<T(!new)>(rows: seq<T>, before: (T, T) -> bool)
    requires InOrder(rows, before)
    requires forall x, y :: before(x, y) ==> !before(y, x)
    ensures Sorted(rows, before) == rows
  {
    if rows != [] {
      var front, last := rows[..|rows| - 1], rows[|rows| - 1];
      SortedLeavesOrder(front, before);
      InsertLast(front, last, before);
      assert rows == front + [last];
    }
  }

  /** There is one way to put rows in order. */
  lemma {:induction false} OrderIsDetermined<T(!new)>(a: seq<T>, b: seq<T>, before: (T, T) -> bool)
    requires InOrder(a, before) && InOrder(b, before) && forall x :: x in a <==> x in b
    requires forall x, y :: before(x, y) ==> !before(y, x)
    ensures a == b
  {
    if a == [] {
      assert forall i :: 0 <= i < |b| ==> b[i] in a;
    } else {
      assert a[0] in b;
      assert b[0] in a;
      assert a[0] == b[0];
      forall x ensures x in a[1..] <==> x in b[1..] {
        if x in a[1..] { assert x in a && before(a[0], x); }
        if x in b[1..] { assert x in b && before(b[0], x); }
      }
      OrderIsDetermined(a[1..], b[1..], before);
    }
  }

  lemma {:induction false} InsertIsAPermutation<T>(sorted: seq<T>, row: T, before: (T, T) -> bool)
    ensures multiset(Insert(sorted, row, before)) == multiset(sorted) + multiset{row}
  {
    if sorted != [] && !before(row, sorted[0]) {
      InsertIsAPermutation(sorted[1..], row, before);
      assert sorted == [sorted[0]] + sorted[1..];
    }
  }

  lemma {:induction false} SortedIsAPermutation<T>(rows: seq<T>, before: (T, T) -> bool)
    ensures multiset(Sorted(rows, before)) == multiset(rows)
  {
    if rows != [] {
      var front, last := rows[..|rows| - 1], rows[|rows| - 1];
      SortedIsAPermutation(front, before);
      InsertIsAPermutation(Sorted(front, before), last, before);
      assert rows == front + [last];
    }
  }

  /** Rows that tie stand in some order; all others stand as the query asks. */
  lemma {:induction false} SortedIsWeaklyInOrder<T(!new)>(rows: seq<T>, before: (T, T) -> bool, le: (T, T) -> bool)
    requires forall x, y {:trigger before(x, y)} :: if before(x, y) then le(x, y) else le(y, x)
    requires forall x, y, z {:trigger le(x, y), le(y, z)} :: le(x, y) && le(y, z) ==> le(x, z)
    ensures InOrder(Sorted(rows, before), le)
  {
    if rows != [] {
      var front, last := rows[..|rows| - 1], rows[|rows| - 1];
      SortedIsWeaklyInOrder(front, before, le);
      InsertKeepsWeakOrder(Sorted(front, before), last, before, le);
    }
  }

  lemma {:induction false} InsertKeepsWeakOrder<T(!new)>(sorted: seq<T>, row: T, before: (T, T) -> bool,
                                                         le: (T, T) -> bool)
    requires InOrder(sorted, le)
    requires forall x, y {:trigger before(x, y)} :: if before(x, y) then le(x, y) else le(y, x)
    requires forall x, y, z {:trigger le(x, y), le(y, z)} :: le(x, y) && le(y, z) ==> le(x, z)
    ensures InOrder(Insert(sorted, row, before), le)
  {
    if sorted == [] {
    } else if before(row, sorted[0]) {
      forall j | 0 <= j < |sorted| ensures le(row, sorted[j]) {
        assert j > 0 ==> le(sorted[0], sorted[j]);
      }
    } else {
      var rest := Insert(sorted[1..], row, before);
      InsertKeepsWeakOrder(sorted[1..], row, before, le);
      InsertKeepsRows(sorted[1..], row, before);
      forall j | 0 <= j < |rest| ensures le(sorted[0], rest[j]) {
        assert rest[j] in sorted[1..] || rest[j] == row;
      }
    }
  }
}
