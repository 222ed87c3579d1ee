/**
 * Which candidates the allocator treats as the greedy pass would, in every order the query can
 * return them for some priorities: the exact condition for a given window.
 */
module AllocatorOrders {
  import opened Options
  import opened TaskTable
  import opened SlotAllocator

  /** What the selection is meant to be: a prefix of the greedy pass, empty only if nothing fits. */
  predicate Faithful(dags: Dags, c: Counters, names: seq<string>, order: seq<TaskInstance>, maxTis: nat)
    requires forall n :: n in names ==> n in c.pools
  {
    var sel := Allocate(dags, c, names, order, maxTis).selected;
    sel <= Greedy(dags, c, order) && (sel == [] <==> NoneAdmitted(dags, c, order))
  }

  /** How a row that the first query returns can be turned down; a row of a full pool is not returned. */
  const TURNED_DOWN: set<Verdict> := {NoSuchPool, LargerThanPool, NoRoom, DagFull, MissingDag, TaskFull}

  /**
   * Nothing that fits can be hidden: nothing fits at all; or the rows turned down do not fill a window;
   * or no task is shadowed and the rows of missing DAGs do not fill a window.
   */
  predicate Unhidden(dags: Dags, c: Counters, rows: seq<TaskInstance>, window: nat) {
    || NoneAdmitted(dags, c, rows)
    || HowMany(dags, c, TURNED_DOWN, rows) < window
    || (NoShadow(dags, c, rows) && HowMany(dags, c, MISSING, rows) < window)
  }

  // ----- Priorities -----

  function Weightless(rows: seq<TaskInstance>): (s: seq<TaskInstance>)
    ensures |s| == |rows| && forall i :: 0 <= i < |rows| ==> s[i] == rows[i].(priorityWeight := 0)
  {
    if rows == [] then [] else [rows[0].(priorityWeight := 0)] + Weightless(rows[1..])
  }

  /** Priorities that make a sequence of rows the query's result. */
  function Descending(rows: seq<TaskInstance>, top: int): (s: seq<TaskInstance>)
    ensures |s| == |rows| && forall i :: 0 <= i < |rows| ==> s[i] == rows[i].(priorityWeight := top - i)
  {
    if rows == [] then [] else [rows[0].(priorityWeight := top)] + Descending(rows[1..], top - 1)
  }

  /** An order in which the query returns the candidates, if their priorities are right. */
  predicate Returnable(cands: seq<TaskInstance>, order: seq<TaskInstance>) {
    Ordered(order) && multiset(Weightless(order)) == multiset(Weightless(cands))
  }

  lemma {:induction false} DescendingIsOrdered(rows: seq<TaskInstance>, top: int)
    ensures Ordered(Descending(rows, top))
  {
    if rows != [] {
      var s := Descending(rows, top);
      DescendingIsOrdered(rows[1..], top - 1);
      assert s[1..] == Descending(rows[1..], top - 1);
      forall x | x in s[1..]
        ensures Precedes(s[0], x)
      {
        var i :| 0 <= i < |rows| - 1 && s[1..][i] == x;
        assert s[i + 1].priorityWeight == top - (i + 1);
      }
    }
  }

  /** Any order of the weightless candidates is returned for some priorities. */
  lemma DescendingIsReturnable(cands: seq<TaskInstance>, order: seq<TaskInstance>)
    requires multiset(order) == multiset(Weightless(cands))
    ensures Returnable(cands, Descending(order, 0))
  {
    DescendingIsOrdered(order, 0);
    SameRows(order, Weightless(cands));
    forall i | 0 <= i < |order|
      ensures order[i].priorityWeight == 0
    {
      assert order[i] in Weightless(cands);
    }
    assert Weightless(Descending(order, 0)) == order;
  }

  // ----- The condition depends on neither order nor priorities -----

  lemma ExamineIgnoresWeight(dags: Dags, c: Counters, r: TaskInstance, weight: int)
    ensures Examine(dags, c, r.(priorityWeight := weight)) == Examine(dags, c, r)
    ensures TaskOf(r.(priorityWeight := weight)) == TaskOf(r)
  {
  }

  lemma SameVerdict(dags: Dags, c: Counters, r: TaskInstance, r': TaskInstance)
    requires r.(priorityWeight := 0) == r'.(priorityWeight := 0)
    ensures Examine(dags, c, r) == Examine(dags, c, r') && TaskOf(r) == TaskOf(r')
  {
    ExamineIgnoresWeight(dags, c, r, 0);
    ExamineIgnoresWeight(dags, c, r', 0);
  }

  lemma {:induction false} HowManyIgnoresWeight(dags: Dags, c: Counters, vs: set<Verdict>, rows: seq<TaskInstance>)
    ensures HowMany(dags, c, vs, Weightless(rows)) == HowMany(dags, c, vs, rows)
  {
    if rows != [] {
      HowManyIgnoresWeight(dags, c, vs, rows[1..]);
      ExamineIgnoresWeight(dags, c, rows[0], 0);
      assert Weightless(rows)[1..] == Weightless(rows[1..]);
    }
  }

  lemma {:induction false} HowManyConcat(dags: Dags, c: Counters, vs: set<Verdict>, a: seq<TaskInstance>, b: seq<TaskInstance>)
    ensures HowMany(dags, c, vs, a + b) == HowMany(dags, c, vs, a) + HowMany(dags, c, vs, b)
    decreases |a|
  {
    if a == [] {
      assert a + b == b;
    } else {
      assert (a + b)[1..] == a[1..] + b;
      HowManyConcat(dags, c, vs, a[1..], b);
    }
  }

  lemma {:induction false} HowManyOfPermutation(dags: Dags, c: Counters, vs: set<Verdict>, a: seq<TaskInstance>, b: seq<TaskInstance>)
    requires multiset(a) == multiset(b)
    ensures HowMany(dags, c, vs, a) == HowMany(dags, c, vs, b)
    decreases |a|
  {
    if a == [] {
      assert |multiset(b)| == 0;
    } else {
      var i := TakeOut(a, b);
      HowManyOfPermutation(dags, c, vs, a[1..], b[..i] + b[i + 1..]);
      HowManyConcat(dags, c, vs, b[..i], [b[i]] + b[i + 1..]);
      HowManyConcat(dags, c, vs, b[..i], b[i + 1..]);
      assert b[..i] + ([b[i]] + b[i + 1..]) == b;
    }
  }

  lemma TakeOut(a: seq<TaskInstance>, b: seq<TaskInstance>) returns (i: nat)
    requires a != [] && multiset(a) == multiset(b)
    ensures i < |b| && b[i] == a[0] && multiset(a[1..]) == multiset(b[..i] + b[i + 1..])
  {
    assert a[0] in multiset(b);
    i :| 0 <= i < |b| && b[i] == a[0];
    assert b == b[..i] + [b[i]] + b[i + 1..];
    assert a == [a[0]] + a[1..];
    assert multiset(a[1..]) == multiset(a) - multiset{a[0]};
  }

  lemma NoneAdmittedIgnoresWeight(dags: Dags, c: Counters, rows: seq<TaskInstance>)
    ensures NoneAdmitted(dags, c, Weightless(rows)) <==> NoneAdmitted(dags, c, rows)
  {
    var u := Weightless(rows);
    forall i | 0 <= i < |rows|
      ensures Admits(dags, c, u[i]) == Admits(dags, c, rows[i])
    {
      ExamineIgnoresWeight(dags, c, rows[i], 0);
    }
    if r :| r in rows && Admits(dags, c, r) {
      var i :| 0 <= i < |rows| && rows[i] == r;
      assert u[i] in u;
    }
    if x :| x in u && Admits(dags, c, x) {
      var i :| 0 <= i < |u| && u[i] == x;
      assert rows[i] in rows;
    }
  }

  /** A row that fits next to one of its task that does not. */
  predicate Shadows(dags: Dags, c: Counters, s: TaskInstance, r: TaskInstance) {
    TaskOf(r) == TaskOf(s) && DoesNotFit(Examine(dags, c, s)) && Admits(dags, c, r)
  }

  lemma ShadowIgnoresWeight(dags: Dags, c: Counters, s: TaskInstance, s': TaskInstance, r: TaskInstance, r': TaskInstance)
    requires s.(priorityWeight := 0) == s'.(priorityWeight := 0) && r.(priorityWeight := 0) == r'.(priorityWeight := 0)
    ensures Shadows(dags, c, s, r) == Shadows(dags, c, s', r')
  {
    SameVerdict(dags, c, s, s');
    SameVerdict(dags, c, r, r');
  }

  lemma ShadowCarriesOver(dags: Dags, c: Counters, a: seq<TaskInstance>, b: seq<TaskInstance>)
    requires |a| == |b| && forall i :: 0 <= i < |a| ==> a[i].(priorityWeight := 0) == b[i].(priorityWeight := 0)
    requires !NoShadow(dags, c, a)
    ensures !NoShadow(dags, c, b)
  {
    var r, s :| r in a && s in a && Shadows(dags, c, s, r);
    var j :| 0 <= j < |a| && a[j] == r;
    var i :| 0 <= i < |a| && a[i] == s;
    ShadowIgnoresWeight(dags, c, s, b[i], r, b[j]);
  }

  lemma NoShadowIgnoresWeight(dags: Dags, c: Counters, rows: seq<TaskInstance>)
    ensures NoShadow(dags, c, Weightless(rows)) <==> NoShadow(dags, c, rows)
  {
    if !NoShadow(dags, c, rows) {
      ShadowCarriesOver(dags, c, rows, Weightless(rows));
    } else if !NoShadow(dags, c, Weightless(rows)) {
      ShadowCarriesOver(dags, c, Weightless(rows), rows);
    }
  }

  lemma UnhiddenIgnoresWeight(dags: Dags, c: Counters, rows: seq<TaskInstance>, window: nat)
    ensures Unhidden(dags, c, Weightless(rows), window) <==> Unhidden(dags, c, rows, window)
  {
    NoneAdmittedIgnoresWeight(dags, c, rows);
    NoShadowIgnoresWeight(dags, c, rows);
    HowManyIgnoresWeight(dags, c, TURNED_DOWN, rows);
    HowManyIgnoresWeight(dags, c, MISSING, rows);
  }

  lemma UnhiddenIgnoresOrder(dags: Dags, c: Counters, a: seq<TaskInstance>, b: seq<TaskInstance>, window: nat)
    requires multiset(a) == multiset(b)
    ensures Unhidden(dags, c, a, window) <==> Unhidden(dags, c, b, window)
  {
    SameRows(a, b);
    HowManyOfPermutation(dags, c, TURNED_DOWN, a, b);
    HowManyOfPermutation(dags, c, MISSING, a, b);
  }

  // ----- The condition is enough -----

  lemma FullWindowHasRoomFor(dags: Dags, c: Counters, cands: seq<TaskInstance>, window: nat)
    requires HowMany(dags, c, TURNED_DOWN, cands) < window == |Window(Start(c), cands, window)|
    ensures Greedy(dags, c, Window(Start(c), cands, window)) != []
  {
    var f := Barred(Start(c));
    var all, w := UnstarvedRows(f, cands), Window(Start(c), cands, window);
    if Greedy(dags, c, w) == [] {
      GreedyEmptyIff(dags, c, w);
      forall r | r in all[..window]
        ensures Examine(dags, c, r) in TURNED_DOWN
      {
        assert r in w && r in all;
      }
      HowManyOfPrefix(dags, c, TURNED_DOWN, all, window);
      HowManyUnstarved(dags, c, TURNED_DOWN, f, cands);
    }
  }

  /** When the rows turned down do not fill a window, the first pass is the only one. */
  lemma OnePass(dags: Dags, c: Counters, cands: seq<TaskInstance>, window: nat)
    requires HowMany(dags, c, TURNED_DOWN, cands) < window
    ensures Passes(dags, cands, window, Start(c)).selected == Greedy(dags, c, Window(Start(c), cands, window))
  {
    var p := Start(c);
    var w := Window(p, cands, window);
    PassIsGreedy(dags, p, w);
    assert [] + Greedy(dags, c, w) == Greedy(dags, c, w);
    if |w| >= window {
      FullWindowHasRoomFor(dags, c, cands, window);
    }
  }

  lemma OnePassIsFaithful(dags: Dags, c: Counters, names: seq<string>, order: seq<TaskInstance>, maxTis: nat)
    requires Lists(names, c)
    requires HowMany(dags, c, TURNED_DOWN, order) < Min(maxTis, FreeSlots(c.pools, names))
    ensures Faithful(dags, c, names, order, maxTis)
  {
    var window := Min(maxTis, FreeSlots(c.pools, names));
    var f := Barred(Start(c));
    var w := Window(Start(c), order, window);
    OnePass(dags, c, order, window);
    StartIsSound(dags, c, order);
    var n := WindowIsPrefix(f, order, |w|);
    assert w == UnstarvedRows(f, order)[..|w|];
    GreedyIgnoresRejected(dags, c, c, f, order[..n]);
    GreedyOfPrefix(dags, c, order, n);
    GreedyEmptyIff(dags, c, order);
    if Greedy(dags, c, w) == [] {
      if |w| >= window {
        FullWindowHasRoomFor(dags, c, order, window);
      }
      assert order[..n] == order;
    }
  }

  lemma UnhiddenIsFaithful(dags: Dags, c: Counters, names: seq<string>, order: seq<TaskInstance>, maxTis: nat)
    requires Lists(names, c)
    requires Unhidden(dags, c, order, Min(maxTis, FreeSlots(c.pools, names)))
    ensures Faithful(dags, c, names, order, maxTis)
  {
    if NoneAdmitted(dags, c, order) {
      SelectionIsGreedyPrefix(dags, c, names, order, maxTis);
      GreedyEmptyIff(dags, c, order);
    } else if HowMany(dags, c, TURNED_DOWN, order) < Min(maxTis, FreeSlots(c.pools, names)) {
      OnePassIsFaithful(dags, c, names, order, maxTis);
    } else {
      SelectionIsGreedyPrefix(dags, c, names, order, maxTis);
      WorkConservation(dags, c, names, order, maxTis);
    }
  }

  // ----- The condition is needed -----

  lemma {:induction false} SelectionIsUnstarved(dags: Dags, cands: seq<TaskInstance>, maxTis: nat, p: Progress)
    requires p.selected == []
    ensures forall r :: r in Passes(dags, cands, maxTis, p).selected ==> Unstarved(p.starved, r)
    decreases |UnstarvedRows(Barred(p), cands)|
  {
    var w := Window(p, cands, maxTis);
    var q := ExamineAll(dags, p, w);
    if w != [] && GoesOn(p, q, w, maxTis) {
      PassShrinks(dags, cands, maxTis, p);
      ExamineAllMonotone(dags, p, w);
      SelectionIsUnstarved(dags, cands, maxTis, q);
      assert forall r :: Unstarved(q.starved, r) ==> Unstarved(p.starved, r);
    } else if w != [] {
      PassIsGreedy(dags, p, w);
      GreedySelects(dags, p.counters, w);
      forall r | r in q.selected
        ensures Unstarved(p.starved, r)
      {
        assert r in w;
        assert r in UnstarvedRows(Barred(p), cands);
      }
    }
  }

  /** A row that does not fit starves its task, in a pass that selects nothing. */
  lemma {:induction false} NoFitStarvesTask(dags: Dags, p: Progress, w: seq<TaskInstance>, i: nat)
    requires i < |w| && DoesNotFit(Examine(dags, p.counters, w[i]))
    requires NoneAdmitted(dags, p.counters, w)
    ensures TaskOf(w[i]) in ExamineAll(dags, p, w).starved.tasks
    decreases |w|
  {
    var q := Advance(dags, p, w[0]);
    assert w[0] in w;
    if i == 0 {
      ExamineAllMonotone(dags, q, w[1..]);
    } else {
      NoFitStarvesTask(dags, q, w[1..], i - 1);
    }
  }

  /** A first window of rows turned down, one of them casting a shadow, makes the loop go on without the task. */
  lemma ShadowedWindow(dags: Dags, c: Counters, order: seq<TaskInstance>, window: nat, i: nat)
    requires i < window <= |order| && AllIn(dags, c, TURNED_DOWN, order[..window])
    requires DoesNotFit(Examine(dags, c, order[i]))
    ensures forall r :: r in Passes(dags, order, window, Start(c)).selected ==> TaskOf(r) != TaskOf(order[i])
  {
    var p := Start(c);
    var w := order[..window];
    forall r | r in w
      ensures Unstarved(Barred(p), r) && !Admits(dags, c, r)
    {
      assert Examine(dags, c, r) in TURNED_DOWN;
    }
    AllUnstarved(Barred(p), order, window);
    assert Window(p, order, window) == w;
    var q := ExamineAll(dags, p, w);
    PassIsGreedy(dags, p, w);
    GreedyEmptyIff(dags, c, w);
    NoFitStarvesTask(dags, p, w, i);
    assert w[i] == order[i];
    PassShrinks(dags, order, window, p);
    SelectionIsUnstarved(dags, order, window, q);
  }

  /** The greedy pass takes the first row that fits, and takes it first. */
  lemma FirstThatFits(dags: Dags, c: Counters, order: seq<TaskInstance>, k: nat)
    requires k < |order| && NoneAdmitted(dags, c, order[..k]) && Admits(dags, c, order[k])
    ensures Greedy(dags, c, order) != [] && Greedy(dags, c, order)[0] == order[k]
  {
    GreedyEmptyIff(dags, c, order[..k]);
    GreedyConcat(dags, c, order[..k], order[k..]);
    assert order[..k] + order[k..] == order;
    assert [] + Greedy(dags, c, order[k..]) == Greedy(dags, c, order[k..]);
  }

  lemma ShadowedIsUnfaithful(dags: Dags, c: Counters, names: seq<string>, order: seq<TaskInstance>, maxTis: nat, i: nat)
    requires Lists(names, c)
    requires var window := Min(maxTis, FreeSlots(c.pools, names));
      && i < window < |order| && AllIn(dags, c, TURNED_DOWN, order[..window])
      && Shadows(dags, c, order[i], order[window])
    ensures !Faithful(dags, c, names, order, maxTis)
  {
    var window := Min(maxTis, FreeSlots(c.pools, names));
    ShadowedWindow(dags, c, order, window, i);
    forall r | r in order[..window]
      ensures !Admits(dags, c, r)
    {
      assert Examine(dags, c, r) in TURNED_DOWN;
    }
    FirstThatFits(dags, c, order, window);
    assert order[window] in order;
  }

  lemma MissingIsUnfaithful(dags: Dags, c: Counters, names: seq<string>, order: seq<TaskInstance>, maxTis: nat)
    requires Lists(names, c) && !NoneAdmitted(dags, c, order)
    requires var window := Min(maxTis, FreeSlots(c.pools, names));
      0 < window <= |order| && AllIn(dags, c, MISSING, order[..window])
    ensures !Faithful(dags, c, names, order, maxTis)
  {
    MissingRowsFirst(dags, c, order, Min(maxTis, FreeSlots(c.pools, names)));
  }

  // ----- An order that hides a row -----

  function RowsIn(dags: Dags, c: Counters, vs: set<Verdict>, rows: seq<TaskInstance>): (s: seq<TaskInstance>)
    ensures |s| == HowMany(dags, c, vs, rows)
  {
    if rows == [] then []
    else if Examine(dags, c, rows[0]) in vs then [rows[0]] + RowsIn(dags, c, vs, rows[1..])
    else RowsIn(dags, c, vs, rows[1..])
  }

  function RowsOut(dags: Dags, c: Counters, vs: set<Verdict>, rows: seq<TaskInstance>): seq<TaskInstance> {
    if rows == [] then []
    else if Examine(dags, c, rows[0]) in vs then RowsOut(dags, c, vs, rows[1..])
    else [rows[0]] + RowsOut(dags, c, vs, rows[1..])
  }

  lemma {:induction false} InAndOut(dags: Dags, c: Counters, vs: set<Verdict>, rows: seq<TaskInstance>)
    ensures multiset(RowsIn(dags, c, vs, rows)) + multiset(RowsOut(dags, c, vs, rows)) == multiset(rows)
  {
    if rows != [] {
      InAndOut(dags, c, vs, rows[1..]);
      assert rows == [rows[0]] + rows[1..];
    }
  }

  lemma {:induction false} InAndOutHold(dags: Dags, c: Counters, vs: set<Verdict>, rows: seq<TaskInstance>, r: TaskInstance)
    ensures r in RowsIn(dags, c, vs, rows) <==> r in rows && Examine(dags, c, r) in vs
    ensures r in RowsOut(dags, c, vs, rows) <==> r in rows && Examine(dags, c, r) !in vs
  {
    if rows != [] {
      InAndOutHold(dags, c, vs, rows[1..], r);
      assert r in rows <==> r == rows[0] || r in rows[1..];
    }
  }

  lemma MoveToFront(rows: seq<TaskInstance>, x: TaskInstance) returns (rest: seq<TaskInstance>)
    requires x in rows
    ensures multiset{x} + multiset(rest) == multiset(rows) && |rest| == |rows| - 1
    ensures forall y :: y in rest ==> y in rows
  {
    var i :| 0 <= i < |rows| && rows[i] == x;
    rest := rows[..i] + rows[i + 1..];
    assert rows == rows[..i] + [x] + rows[i + 1..];
  }

  lemma JoinedUp(s: TaskInstance, t: seq<TaskInstance>, r: TaskInstance, o: seq<TaskInstance>, k: nat)
    requires k <= |t|
    ensures multiset(([s] + t[..k]) + ([r] + (t[k..] + o))) == (multiset{s} + multiset(t)) + (multiset{r} + multiset(o))
  {
    assert t == t[..k] + t[k..];
  }

  /** The shadowing row, other rows turned down up to a window, then the shadowed row. */
  lemma HidingOrder(dags: Dags, c: Counters, u: seq<TaskInstance>, window: nat, s: TaskInstance, r: TaskInstance)
    returns (order: seq<TaskInstance>)
    requires 0 < window <= HowMany(dags, c, TURNED_DOWN, u)
    requires s in u && r in u && Shadows(dags, c, s, r)
    ensures multiset(order) == multiset(u) && window < |order|
    ensures order[0] == s && order[window] == r && AllIn(dags, c, TURNED_DOWN, order[..window])
  {
    var turned, others := RowsIn(dags, c, TURNED_DOWN, u), RowsOut(dags, c, TURNED_DOWN, u);
    InAndOutHold(dags, c, TURNED_DOWN, u, s);
    InAndOutHold(dags, c, TURNED_DOWN, u, r);
    InAndOut(dags, c, TURNED_DOWN, u);
    var t := MoveToFront(turned, s);
    var o := MoveToFront(others, r);
    order := Assembled(s, t, r, o, window);
    TurnedRows(dags, c, u, order[..window]);
  }

  lemma Assembled(s: TaskInstance, t: seq<TaskInstance>, r: TaskInstance, o: seq<TaskInstance>, window: nat)
    returns (order: seq<TaskInstance>)
    requires 0 < window <= |t| + 1
    ensures multiset(order) == (multiset{s} + multiset(t)) + (multiset{r} + multiset(o))
    ensures window < |order| && order[0] == s && order[window] == r
    ensures forall x :: x in order[..window] ==> x == s || x in t
  {
    var front := [s] + t[..window - 1];
    order := front + ([r] + (t[window - 1..] + o));
    JoinedUp(s, t, r, o, window - 1);
    assert order[..window] == front;
  }

  lemma TurnedRows(dags: Dags, c: Counters, u: seq<TaskInstance>, front: seq<TaskInstance>)
    requires forall x :: x in front ==> x in RowsIn(dags, c, TURNED_DOWN, u)
    ensures AllIn(dags, c, TURNED_DOWN, front)
  {
    forall x | x in front
      ensures Examine(dags, c, x) in TURNED_DOWN
    {
      InAndOutHold(dags, c, TURNED_DOWN, u, x);
    }
  }

  lemma MissingFirst(dags: Dags, c: Counters, u: seq<TaskInstance>, window: nat) returns (order: seq<TaskInstance>)
    requires window <= HowMany(dags, c, MISSING, u)
    ensures multiset(order) == multiset(u) && window <= |order|
    ensures AllIn(dags, c, MISSING, order[..window])
  {
    var m := RowsIn(dags, c, MISSING, u);
    order := m + RowsOut(dags, c, MISSING, u);
    InAndOut(dags, c, MISSING, u);
    forall x | x in order[..window]
      ensures Examine(dags, c, x) in MISSING
    {
      assert x in m;
      InAndOutHold(dags, c, MISSING, u, x);
    }
  }

  lemma DescendingVerdict(dags: Dags, c: Counters, rows: seq<TaskInstance>, i: nat)
    requires i < |rows|
    ensures Examine(dags, c, Descending(rows, 0)[i]) == Examine(dags, c, rows[i])
  {
    SameVerdict(dags, c, Descending(rows, 0)[i], rows[i]);
  }

  lemma DescendingKeepsVerdicts(dags: Dags, c: Counters, vs: set<Verdict>, rows: seq<TaskInstance>, k: nat)
    requires k <= |rows| && AllIn(dags, c, vs, rows[..k])
    ensures AllIn(dags, c, vs, Descending(rows, 0)[..k])
  {
    var s := Descending(rows, 0);
    forall x | x in s[..k]
      ensures Examine(dags, c, x) in vs
    {
      var i :| 0 <= i < k && s[..k][i] == x;
      assert rows[..k][i] in rows[..k];
      DescendingVerdict(dags, c, rows, i);
    }
  }

  lemma MissingHides(dags: Dags, c: Counters, names: seq<string>, cands: seq<TaskInstance>, maxTis: nat)
    returns (order: seq<TaskInstance>)
    requires Lists(names, c) && !NoneAdmitted(dags, c, Weightless(cands))
    requires 0 < Min(maxTis, FreeSlots(c.pools, names)) <= HowMany(dags, c, MISSING, Weightless(cands))
    ensures Returnable(cands, order) && !Faithful(dags, c, names, order, maxTis)
  {
    var window := Min(maxTis, FreeSlots(c.pools, names));
    var m := MissingFirst(dags, c, Weightless(cands), window);
    order := Descending(m, 0);
    StillAdmitted(dags, c, Weightless(cands), m);
    DescendingIsReturnable(cands, m);
    DescendingKeepsVerdicts(dags, c, MISSING, m, window);
    MissingIsUnfaithful(dags, c, names, order, maxTis);
  }

  lemma SomeShadow(dags: Dags, c: Counters, rows: seq<TaskInstance>) returns (s: TaskInstance, r: TaskInstance)
    requires !NoShadow(dags, c, rows)
    ensures s in rows && r in rows && Shadows(dags, c, s, r)
  {
    r, s :| r in rows && s in rows && Shadows(dags, c, s, r);
  }

  /** The order with descending priorities put on it. */
  lemma ShadowBehindWindow(dags: Dags, c: Counters, names: seq<string>, h: seq<TaskInstance>, maxTis: nat)
    requires Lists(names, c)
    requires var window := Min(maxTis, FreeSlots(c.pools, names));
      && 0 < window < |h| && AllIn(dags, c, TURNED_DOWN, h[..window])
      && Shadows(dags, c, h[0], h[window])
    ensures !Faithful(dags, c, names, Descending(h, 0), maxTis)
  {
    var window := Min(maxTis, FreeSlots(c.pools, names));
    var order := Descending(h, 0);
    DescendingKeepsVerdicts(dags, c, TURNED_DOWN, h, window);
    ShadowIgnoresWeight(dags, c, h[0], order[0], h[window], order[window]);
    ShadowedIsUnfaithful(dags, c, names, order, maxTis, 0);
  }

  lemma ShadowHides(dags: Dags, c: Counters, names: seq<string>, cands: seq<TaskInstance>, maxTis: nat)
    returns (order: seq<TaskInstance>)
    requires Lists(names, c) && !NoShadow(dags, c, Weightless(cands))
    requires 0 < Min(maxTis, FreeSlots(c.pools, names)) <= HowMany(dags, c, TURNED_DOWN, Weightless(cands))
    ensures Returnable(cands, order) && !Faithful(dags, c, names, order, maxTis)
  {
    var window := Min(maxTis, FreeSlots(c.pools, names));
    var u := Weightless(cands);
    var s, r := SomeShadow(dags, c, u);
    var h := HidingOrder(dags, c, u, window, s, r);
    order := Descending(h, 0);
    DescendingIsReturnable(cands, h);
    ShadowBehindWindow(dags, c, names, h, maxTis);
  }

  lemma SomeOrderIsUnfaithful(dags: Dags, c: Counters, names: seq<string>, cands: seq<TaskInstance>, maxTis: nat)
    returns (order: seq<TaskInstance>)
    requires Lists(names, c) && !Unhidden(dags, c, cands, Min(maxTis, FreeSlots(c.pools, names)))
    ensures Returnable(cands, order) && !Faithful(dags, c, names, order, maxTis)
  {
    var window := Min(maxTis, FreeSlots(c.pools, names));
    var u := Weightless(cands);
    UnhiddenIgnoresWeight(dags, c, cands, window);
    if window == 0 {
      order := Descending(u, 0);
      StillAdmitted(dags, c, u, u);
      DescendingIsReturnable(cands, u);
    } else if HowMany(dags, c, MISSING, u) >= window {
      order := MissingHides(dags, c, names, cands, maxTis);
    } else {
      order := ShadowHides(dags, c, names, cands, maxTis);
    }
  }

  lemma StillAdmitted(dags: Dags, c: Counters, u: seq<TaskInstance>, order: seq<TaskInstance>)
    requires !NoneAdmitted(dags, c, u) && multiset(order) == multiset(u)
    ensures !NoneAdmitted(dags, c, Descending(order, 0))
  {
    var r := SomeAdmitted(dags, c, u);
    assert r in multiset(order);
    var i :| 0 <= i < |order| && order[i] == r;
    DescendingVerdict(dags, c, order, i);
    AdmittedIsThere(dags, c, Descending(order, 0), i);
  }

  lemma SomeAdmitted(dags: Dags, c: Counters, rows: seq<TaskInstance>) returns (r: TaskInstance)
    requires !NoneAdmitted(dags, c, rows)
    ensures r in rows && Admits(dags, c, r)
  {
    r :| r in rows && Admits(dags, c, r);
  }

  lemma AdmittedIsThere(dags: Dags, c: Counters, rows: seq<TaskInstance>, i: nat)
    requires i < |rows| && Admits(dags, c, rows[i])
    ensures !NoneAdmitted(dags, c, rows)
  {
    assert rows[i] in rows;
  }

  // ----- The exact conditions -----

  /**
   * Exactly which candidates a call treats faithfully, in every order that the query can return them
   * for some priorities, at the call's own window.
   */
  lemma FaithfulForEveryOrderIff(dags: Dags, c: Counters, names: seq<string>, cands: seq<TaskInstance>, maxTis: nat)
    requires Lists(names, c)
    ensures (forall order :: Returnable(cands, order) ==> Faithful(dags, c, names, order, maxTis))
       <==> Unhidden(dags, c, cands, Min(maxTis, FreeSlots(c.pools, names)))
  {
    var window := Min(maxTis, FreeSlots(c.pools, names));
    if Unhidden(dags, c, cands, window) {
      forall order | Returnable(cands, order)
        ensures Faithful(dags, c, names, order, maxTis)
      {
        UnhiddenIgnoresWeight(dags, c, cands, window);
        UnhiddenIgnoresOrder(dags, c, Weightless(cands), Weightless(order), window);
        UnhiddenIgnoresWeight(dags, c, order, window);
        UnhiddenIsFaithful(dags, c, names, order, maxTis);
      }
    } else {
      var order := SomeOrderIsUnfaithful(dags, c, names, cands, maxTis);
    }
  }

  /** And at every window: nothing fits at all, or no task is shadowed and no candidate meets a missing DAG. */
  lemma FaithfulForEveryWindowIff(dags: Dags, c: Counters, names: seq<string>, cands: seq<TaskInstance>)
    requires Lists(names, c)
    ensures (forall order, maxTis: nat :: Returnable(cands, order) && maxTis > 0 ==> Faithful(dags, c, names, order, maxTis))
       <==> NoneAdmitted(dags, c, cands) || (NoShadow(dags, c, cands) && HowMany(dags, c, MISSING, cands) == 0)
  {
    if NoneAdmitted(dags, c, cands) || (NoShadow(dags, c, cands) && HowMany(dags, c, MISSING, cands) == 0) {
      forall order, maxTis: nat | Returnable(cands, order) && maxTis > 0
        ensures Faithful(dags, c, names, order, maxTis)
      {
        if r :| r in cands && Admits(dags, c, r) {
          FitNeedsFreeSlot(dags, c, names, r);
        }
        FaithfulForEveryOrderIff(dags, c, names, cands, maxTis);
      }
    } else {
      NoneTurnedDown(dags, c, cands);
      var order := SomeOrderIsUnfaithful(dags, c, names, cands, 1);
    }
  }

  lemma NoneTurnedDown(dags: Dags, c: Counters, rows: seq<TaskInstance>)
    ensures HowMany(dags, c, TURNED_DOWN, rows) == 0 ==> NoShadow(dags, c, rows) && HowMany(dags, c, MISSING, rows) == 0
  {
    if HowMany(dags, c, TURNED_DOWN, rows) == 0 {
      forall r | r in rows
        ensures Examine(dags, c, r) !in TURNED_DOWN
      {
        InAndOutHold(dags, c, TURNED_DOWN, rows, r);
      }
      var m := RowsIn(dags, c, MISSING, rows);
      if m != [] {
        InAndOutHold(dags, c, MISSING, rows, m[0]);
      }
    }
  }

  /** Without shadows, work is conserved in every such order exactly when missing DAGs do not fill the window. */
  lemma WorkConservationForEveryOrder(dags: Dags, c: Counters, names: seq<string>, cands: seq<TaskInstance>, maxTis: nat)
    requires Lists(names, c) && NoShadow(dags, c, cands)
    ensures (forall order :: Returnable(cands, order) ==>
               (Allocate(dags, c, names, order, maxTis).selected == [] <==> NoneAdmitted(dags, c, order)))
       <==> (HowMany(dags, c, MISSING, cands) < Min(maxTis, FreeSlots(c.pools, names)) || NoneAdmitted(dags, c, cands))
  {
    forall order | Returnable(cands, order)
      ensures Allocate(dags, c, names, order, maxTis).selected <= Greedy(dags, c, order)
    {
      NoShadowIgnoresWeight(dags, c, cands);
      SameRows(Weightless(order), Weightless(cands));
      NoShadowIgnoresWeight(dags, c, order);
      SelectionIsGreedyPrefix(dags, c, names, order, maxTis);
    }
    FewerMissingThanTurnedDown(dags, c, cands);
    FaithfulForEveryOrderIff(dags, c, names, cands, maxTis);
    assert (forall order :: Returnable(cands, order) ==> Faithful(dags, c, names, order, maxTis)) <==>
      (forall order :: Returnable(cands, order) ==>
         (Allocate(dags, c, names, order, maxTis).selected == [] <==> NoneAdmitted(dags, c, order)));
  }

  lemma {:induction false} FewerMissingThanTurnedDown(dags: Dags, c: Counters, rows: seq<TaskInstance>)
    ensures HowMany(dags, c, MISSING, rows) <= HowMany(dags, c, TURNED_DOWN, rows)
  {
    if rows != [] {
      FewerMissingThanTurnedDown(dags, c, rows[1..]);
    }
  }
}
