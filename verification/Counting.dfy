/** Counting rows by their positions. */
module Counting {
  /** A set that gains at most one position. */
  lemma OneMore(a: set<nat>, b: set<nat>, n: nat)
    requires n !in a && a <= b <= a + {n}
    ensures |b| == |a| + if n in b then 1 else 0
  {
    assert b == if n in b then a + {n} else a;
  }
}
