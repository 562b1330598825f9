// Boolean indexing of a data frame (`df[mask]`, `df.loc[mask]`): the rows
// that pass a test, in frame order. Both the preprocessor's drop steps and the
// auto-coder's selections are written with it.
module Frames {

  /** The rows that satisfy `p`, in frame order; exactly the rows that pass the test. */
  function Where<T(!new)>(rows: seq<T>, p: T -> bool): (r: seq<T>)
    ensures |r| <= |rows|
    ensures forall x :: x in r <==> x in rows && p(x)
  {
    if rows == [] then []
    else
      assert rows == [rows[0]] + rows[1..];
      (if p(rows[0]) then [rows[0]] else []) + Where(rows[1..], p)
  }

  lemma {:induction false} WhereConcat<T(!new)>(a: seq<T>, b: seq<T>, p: T -> bool)
    ensures Where(a + b, p) == Where(a, p) + Where(b, p)
  {
    if a != [] {
      WhereConcat(a[1..], b, p);
      assert (a + b)[1..] == a[1..] + b;
    } else {
      assert a + b == b;
    }
  }

  /** Two selections in a row are one selection by both tests. */
  lemma {:induction false} WhereWhere<T(!new)>(rows: seq<T>, p: T -> bool, q: T -> bool, pq: T -> bool)
    requires forall x :: pq(x) == (p(x) && q(x))
    ensures Where(Where(rows, p), q) == Where(rows, pq)
  {
    if rows != [] {
      WhereWhere(rows[1..], p, q, pq);
      var head := if p(rows[0]) then [rows[0]] else [];
      WhereConcat(head, Where(rows[1..], p), q);
      if p(rows[0]) {
        assert Where(head, q) == (if q(rows[0]) then [rows[0]] else []) + Where([], q);
      }
    }
  }

  /** Equivalent tests select the same rows. */
  lemma {:induction false} WhereSame<T(!new)>(rows: seq<T>, p: T -> bool, q: T -> bool)
    requires forall x :: p(x) == q(x)
    ensures Where(rows, p) == Where(rows, q)
  {
    if rows != [] {
      WhereSame(rows[1..], p, q);
    }
  }

  /** A test every row passes keeps the frame. */
  lemma {:induction false} WhereAll<T(!new)>(rows: seq<T>, p: T -> bool)
    requires forall x :: p(x)
    ensures Where(rows, p) == rows
  {
    if rows != [] {
      WhereAll(rows[1..], p);
      assert [rows[0]] + rows[1..] == rows;
    }
  }
}
