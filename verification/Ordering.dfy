/** The ORDER BY of a query. */
module Ordering {

  function InsertBy<T>(key: T -> nat, rows: seq<T>, x: T): seq<T> {
    if rows == [] || key(rows[|rows| - 1]) <= key(x) then rows + [x]
    else InsertBy(key, rows[..|rows| - 1], x) + [rows[|rows| - 1]]
  }

  function SortBy<T>(key: T -> nat, rows: seq<T>): seq<T> {
    if rows == [] then [] else InsertBy(key, SortBy(key, rows[..|rows| - 1]), rows[|rows| - 1])
  }

  ghost predicate SortedBy<T>(key: T -> nat, rows: seq<T>) {
    forall i, j :: 0 <= i < j < |rows| ==> key(rows[i]) <= key(rows[j])
  }

  lemma {:induction false} InsertByBounded<T>(key: T -> nat, rows: seq<T>, x: T, max: nat)
    requires key(x) <= max && forall i :: 0 <= i < |rows| ==> key(rows[i]) <= max
    ensures forall i :: 0 <= i < |InsertBy(key, rows, x)| ==> key(InsertBy(key, rows, x)[i]) <= max
  {
    if rows != [] { InsertByBounded(key, rows[..|rows| - 1], x, max); }
  }

  lemma {:induction false} InsertBySorts<T>(key: T -> nat, rows: seq<T>, x: T)
    requires SortedBy(key, rows)
    ensures SortedBy(key, InsertBy(key, rows, x))
  {
    if rows != [] && key(x) < key(rows[|rows| - 1]) {
      InsertBySorts(key, rows[..|rows| - 1], x);
      InsertByBounded(key, rows[..|rows| - 1], x, key(rows[|rows| - 1]));
    }
  }

  lemma {:induction false} InsertByPermutes<T>(key: T -> nat, rows: seq<T>, x: T)
    ensures multiset(InsertBy(key, rows, x)) == multiset(rows) + multiset{x}
  {
    if rows != [] && key(x) < key(rows[|rows| - 1]) {
      InsertByPermutes(key, rows[..|rows| - 1], x);
      assert rows == rows[..|rows| - 1] + [rows[|rows| - 1]];
    }
  }

  /** Sorting orders the rows and keeps each of them. */
  lemma {:induction false} SortBySorts<T>(key: T -> nat, rows: seq<T>)
    ensures SortedBy(key, SortBy(key, rows)) && multiset(SortBy(key, rows)) == multiset(rows)
  {
    if rows != [] {
      var before, last := rows[..|rows| - 1], rows[|rows| - 1];
      SortBySorts(key, before);
      hide InsertBy, SortedBy;
      InsertBySorts(key, SortBy(key, before), last);
      InsertByPermutes(key, SortBy(key, before), last);
      assert rows == before + [last];
    }
  }

  /** Rows already in order keep it. */
  lemma {:induction false} SortByKeeps<T>(key: T -> nat, rows: seq<T>)
    requires SortedBy(key, rows)
    ensures SortBy(key, rows) == rows
  {
    if rows != [] {
      SortByKeeps(key, rows[..|rows| - 1]);
      assert rows == rows[..|rows| - 1] + [rows[|rows| - 1]];
    }
  }

  lemma PermutationLength<T>(a: seq<T>, b: seq<T>)
    requires multiset(a) == multiset(b)
    ensures |a| == |b|
  {
    assert |multiset(a)| == |a| && |multiset(b)| == |b|;
  }
}
