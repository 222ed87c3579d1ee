/** Queries over tables held as sequences of rows: filters, inner joins and left joins. */
module Relations {
  import opened Options

  function Filter<T(!new)>(rows: seq<T>, p: T -> bool): (s: seq<T>)
    ensures forall r :: r in s <==> r in rows && p(r)
    ensures |s| <= |rows|
  {
    if rows == [] then []
    else if p(rows[0]) then [rows[0]] + Filter(rows[1..], p)
    else Filter(rows[1..], p)
  }

  function Map<T, U>(rows: seq<T>, f: T -> U): (s: seq<U>)
    ensures |s| == |rows|
    ensures forall i :: 0 <= i < |rows| ==> s[i] == f(rows[i])
  {
    if rows == [] then [] else [f(rows[0])] + Map(rows[1..], f)
  }

  /** The rows of `right` that match one row. */
  function Matches<A, B(!new)>(a: A, right: seq<B>, on: (A, B) -> bool): (s: seq<B>)
    ensures forall b :: b in s <==> b in right && on(a, b)
  {
    if right == [] then []
    else if on(a, right[0]) then [right[0]] + Matches(a, right[1..], on)
    else Matches(a, right[1..], on)
  }

  function PairWith<A, B>(a: A, bs: seq<B>): (s: seq<(A, B)>)
    ensures |s| == |bs| && forall i :: 0 <= i < |bs| ==> s[i] == (a, bs[i])
  {
    if bs == [] then [] else [(a, bs[0])] + PairWith(a, bs[1..])
  }

  function PairWithSome<A, B>(a: A, bs: seq<B>): (s: seq<(A, Option<B>)>)
    ensures |s| == |bs| && forall i :: 0 <= i < |bs| ==> s[i] == (a, Some(bs[i]))
  {
    if bs == [] then [] else [(a, Some(bs[0]))] + PairWithSome(a, bs[1..])
  }

  /** `left` JOIN `right` ON `on`. */
  function Join<A, B(!new)>(left: seq<A>, right: seq<B>, on: (A, B) -> bool): seq<(A, B)> {
    if left == [] then []
    else PairWith(left[0], Matches(left[0], right, on)) + Join(left[1..], right, on)
  }

  /** The rows a LEFT OUTER JOIN makes of one row: without a match it is paired with NULLs. */
  function Padded<A, B(!new)>(a: A, right: seq<B>, on: (A, B) -> bool): seq<(A, Option<B>)> {
    if Matches(a, right, on) == [] then [(a, None)] else PairWithSome(a, Matches(a, right, on))
  }

  /** `left` LEFT OUTER JOIN `right` ON `on`. */
  function LeftJoin<A, B(!new)>(left: seq<A>, right: seq<B>, on: (A, B) -> bool): seq<(A, Option<B>)> {
    if left == [] then [] else Padded(left[0], right, on) + LeftJoin(left[1..], right, on)
  }

  lemma {:induction false} FilterConcat<T(!new)>(a: seq<T>, b: seq<T>, p: T -> bool)
    ensures Filter(a + b, p) == Filter(a, p) + Filter(b, p)
  {
    if a == [] {
      assert a + b == b;
    } else {
      assert (a + b)[1..] == a[1..] + b;
      FilterConcat(a[1..], b, p);
    }
  }

  lemma {:induction false} FilterNone<T(!new)>(rows: seq<T>, p: T -> bool)
    requires forall r :: r in rows ==> !p(r)
    ensures Filter(rows, p) == []
  {
    if rows != [] {
      FilterNone(rows[1..], p);
    }
  }

  lemma {:induction false} NoMatch<A, B(!new)>(a: A, right: seq<B>, on: (A, B) -> bool)
    requires forall b :: b in right ==> !on(a, b)
    ensures Matches(a, right, on) == []
  {
    if right != [] {
      NoMatch(a, right[1..], on);
    }
  }

  /** A row that matches uniquely is the only match. */
  lemma {:induction false} OneMatch<A, B(!new)>(a: A, right: seq<B>, on: (A, B) -> bool, b: B)
    requires b in right && on(a, b)
    requires forall i, j :: 0 <= i < j < |right| ==> !(on(a, right[i]) && on(a, right[j]))
    ensures Matches(a, right, on) == [b]
  {
    if right[0] == b {
      forall x | x in right[1..]
        ensures !on(a, x)
      {
        var j :| 0 <= j < |right| - 1 && right[1..][j] == x;
        assert right[j + 1] == x && on(a, right[0]);
      }
      NoMatch(a, right[1..], on);
    } else {
      var i :| 1 <= i < |right| && right[i] == b;
      assert right[1..][i - 1] == b && on(a, right[i]);
      OneMatch(a, right[1..], on, b);
    }
  }

  lemma {:induction false} LeftJoinConcat<A, B(!new)>(x: seq<A>, y: seq<A>, right: seq<B>, on: (A, B) -> bool)
    ensures LeftJoin(x + y, right, on) == LeftJoin(x, right, on) + LeftJoin(y, right, on)
  {
    if x == [] {
      assert x + y == y;
    } else {
      assert (x + y)[1..] == x[1..] + y;
      LeftJoinConcat(x[1..], y, right, on);
    }
  }
}
