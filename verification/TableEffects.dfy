/** What one critical section does to the task_instance table, and what that costs each limit. */
module TableEffects {
  import opened Counting
  import opened RunStates
  import opened TaskTable
  import opened SlotAllocator
  import opened AllocatorLimits

  /** SCHEDULED rows of a swept DAG become FAILED. */
  function FailSwept(rows: seq<TaskInstance>, swept: set<string>): (s: seq<TaskInstance>)
    ensures |s| == |rows|
    ensures forall i :: 0 <= i < |rows| ==> s[i] == FailIfSwept(rows[i], swept)
  {
    if rows == [] then [] else [FailIfSwept(rows[0], swept)] + FailSwept(rows[1..], swept)
  }

  function FailIfSwept(r: TaskInstance, swept: set<string>): TaskInstance {
    if r.key.dag in swept && r.state == Scheduled then r.(state := Failed) else r
  }

  function KeysOf(rows: seq<TaskInstance>): set<Key> {
    set r | r in rows :: r.key
  }

  /** UPDATE ... SET state WHERE primary key IN keys. */
  function WithState(rows: seq<TaskInstance>, keys: set<Key>, st: TaskState): (s: seq<TaskInstance>)
    ensures |s| == |rows|
    ensures forall i :: 0 <= i < |rows| ==> s[i] == (if rows[i].key in keys then rows[i].(state := st) else rows[i])
  {
    if rows == [] then []
    else [if rows[0].key in keys then rows[0].(state := st) else rows[0]] + WithState(rows[1..], keys, st)
  }

  type RunId = (string, string)

  function RunOf(k: Key): RunId {
    (k.dag, k.run)
  }

  function Settle(r: TaskInstance, keys: set<Key>, swept: set<string>, finished: set<RunId>): TaskInstance {
    if r.key in keys then r.(state := if RunOf(r.key) in finished then NoStatus else Queued)
    else FailIfSwept(r, swept)
  }

  /** The table after the call: selected rows queued (or reset, if their run has finished), swept rows failed. */
  function Settled(rows: seq<TaskInstance>, keys: set<Key>, swept: set<string>, finished: set<RunId>): (s: seq<TaskInstance>)
    ensures |s| == |rows|
    ensures forall i :: 0 <= i < |rows| ==> s[i] == Settle(rows[i], keys, swept, finished)
  {
    if rows == [] then [] else [Settle(rows[0], keys, swept, finished)] + Settled(rows[1..], keys, swept, finished)
  }

  // ----- The query of a later pass -----

  lemma {:induction false} EligibleAfterSweep(dags: Dags, locked: set<Key>, rows: seq<TaskInstance>, swept: set<string>)
    ensures EligibleRows(dags, locked, FailSwept(rows, swept))
         == UnstarvedRows(Starved({}, swept, {}), EligibleRows(dags, locked, rows))
  {
    if rows != [] {
      EligibleAfterSweep(dags, locked, rows[1..], swept);
      assert FailSwept(rows, swept)[1..] == FailSwept(rows[1..], swept);
      var e := EligibleRows(dags, locked, rows[1..]);
      assert ([rows[0]] + e)[1..] == e;
    }
  }

  lemma {:induction false} FilterTwice(f: Starved, g: Starved, rows: seq<TaskInstance>)
    ensures UnstarvedRows(f, UnstarvedRows(g, rows))
         == UnstarvedRows(Starved(f.pools + g.pools, f.dags + g.dags, f.tasks + g.tasks), rows)
  {
    if rows != [] {
      FilterTwice(f, g, rows[1..]);
      var u := UnstarvedRows(g, rows[1..]);
      assert ([rows[0]] + u)[1..] == u;
    }
  }

  function Candidates(dags: Dags, locked: set<Key>, rows: seq<TaskInstance>): seq<TaskInstance> {
    OrderBy(EligibleRows(dags, locked, rows))
  }

  /** A later pass's query, on the table as swept so far, returns the next window of the initial candidates. */
  lemma QueryIsWindow(dags: Dags, locked: set<Key>, rows: seq<TaskInstance>, p: Progress, maxTis: nat)
    ensures Limit(OrderBy(UnstarvedRows(p.starved, EligibleRows(dags, locked, FailSwept(rows, p.swept)))), maxTis)
         == Window(p, Candidates(dags, locked, rows), maxTis)
  {
    EligibleAfterSweep(dags, locked, rows, p.swept);
    var g := Starved({}, p.swept, {});
    FilterTwice(p.starved, g, EligibleRows(dags, locked, rows));
    assert p.starved.pools + g.pools == p.starved.pools && p.starved.tasks + g.tasks == p.starved.tasks;
    FilterCommutesWithOrderBy(Barred(p), EligibleRows(dags, locked, rows));
  }

  // ----- Occupancy -----

  function ActiveRows(rows: seq<TaskInstance>): seq<TaskInstance> {
    if rows == [] then []
    else if Active(rows[0]) then [rows[0]] + ActiveRows(rows[1..])
    else ActiveRows(rows[1..])
  }

  /** Slots or running-and-queued task instances that count against a limit. */
  function Occupied(rows: seq<TaskInstance>, res: Resource): nat {
    if rows == [] then 0
    else (if Active(rows[0]) then Cost(rows[0], res) else 0) + Occupied(rows[1..], res)
  }

  /** The slots of a pool in use: the k-th of each queued or running row of it that asks for more than k. */
  ghost function SlotsInUse(rows: seq<TaskInstance>, pool: string): set<(nat, nat)> {
    set i: nat, k: nat | i < |rows| && InUse(rows[i]) && rows[i].pool == pool && k < rows[i].poolSlots :: (i, k)
  }

  predicate InUse(r: TaskInstance) {
    r.state == Queued || r.state == Running
  }

  /** The queued and running rows of a DAG, and of a task. */
  ghost function RowsInUse(rows: seq<TaskInstance>, dag: string): set<nat> {
    set i: nat | i < |rows| && InUse(rows[i]) && rows[i].key.dag == dag
  }

  ghost function InstancesInUse(rows: seq<TaskInstance>, t: TaskId): set<nat> {
    set i: nat | i < |rows| && InUse(rows[i]) && rows[i].key.dag == t.0 && rows[i].key.task == t.1
  }

  lemma {:induction false} OccupiedConcat(a: seq<TaskInstance>, b: seq<TaskInstance>, res: Resource)
    ensures Occupied(a + b, res) == Occupied(a, res) + Occupied(b, res)
    decreases |a|
  {
    if a == [] {
      assert a + b == b;
    } else {
      assert (a + b)[1..] == a[1..] + b;
      OccupiedConcat(a[1..], b, res);
    }
  }

  lemma OccupiedByLast(rows: seq<TaskInstance>, res: Resource)
    requires rows != []
    ensures var n := |rows| - 1;
      Occupied(rows, res) == Occupied(rows[..n], res) + if InUse(rows[n]) then Cost(rows[n], res) else 0
  {
    var n := |rows| - 1;
    assert rows == rows[..n] + [rows[n]];
    OccupiedConcat(rows[..n], [rows[n]], res);
    assert Occupied([rows[n]][1..], res) == 0;
  }

  lemma {:induction false} RowsInUseCount(rows: seq<TaskInstance>, dag: string)
    ensures Occupied(rows, DagTasks(dag)) == |RowsInUse(rows, dag)|
    decreases |rows|
  {
    if rows != [] {
      var n := |rows| - 1;
      OccupiedByLast(rows, DagTasks(dag));
      RowsInUseCount(rows[..n], dag);
      OneMore(RowsInUse(rows[..n], dag), RowsInUse(rows, dag), n);
    }
  }

  lemma {:induction false} InstancesInUseCount(rows: seq<TaskInstance>, t: TaskId)
    ensures Occupied(rows, TaskRuns(t)) == |InstancesInUse(rows, t)|
    decreases |rows|
  {
    if rows != [] {
      var n := |rows| - 1;
      OccupiedByLast(rows, TaskRuns(t));
      InstancesInUseCount(rows[..n], t);
      OneMore(InstancesInUse(rows[..n], t), InstancesInUse(rows, t), n);
    }
  }

  ghost function SlotsOfRow(i: nat, slots: nat): set<(nat, nat)> {
    set k: nat | k < slots :: (i, k)
  }

  lemma {:induction false} SlotsOfRowCount(i: nat, slots: nat)
    ensures |SlotsOfRow(i, slots)| == slots
  {
    if slots > 0 {
      SlotsOfRowCount(i, slots - 1);
      assert SlotsOfRow(i, slots) == SlotsOfRow(i, slots - 1) + {(i, slots - 1)};
    }
  }

  lemma {:induction false} SlotsInUseCount(rows: seq<TaskInstance>, pool: string)
    ensures Occupied(rows, PoolSlots(pool)) == |SlotsInUse(rows, pool)|
    decreases |rows|
  {
    if rows != [] {
      var n := |rows| - 1;
      OccupiedByLast(rows, PoolSlots(pool));
      SlotsInUseCount(rows[..n], pool);
      if InUse(rows[n]) && rows[n].pool == pool {
        SlotsOfRowCount(n, rows[n].poolSlots);
        assert SlotsInUse(rows, pool) == SlotsInUse(rows[..n], pool) + SlotsOfRow(n, rows[n].poolSlots);
        assert SlotsInUse(rows[..n], pool) !! SlotsOfRow(n, rows[n].poolSlots);
      } else {
        assert SlotsInUse(rows, pool) == SlotsInUse(rows[..n], pool);
      }
    }
  }

  /** What is occupied of a limit is the number of slots, rows or instances that the queued and running rows use. */
  lemma OccupiedCounts(rows: seq<TaskInstance>, pool: string, dag: string, t: TaskId)
    ensures Occupied(rows, PoolSlots(pool)) == |SlotsInUse(rows, pool)|
    ensures Occupied(rows, DagTasks(dag)) == |RowsInUse(rows, dag)|
    ensures Occupied(rows, TaskRuns(t)) == |InstancesInUse(rows, t)|
  {
    SlotsInUseCount(rows, pool);
    RowsInUseCount(rows, dag);
    InstancesInUseCount(rows, t);
  }

  lemma {:induction false} OccupiedIsUseOfActive(rows: seq<TaskInstance>, res: Resource)
    ensures Occupied(rows, res) == Use(ActiveRows(rows), res)
  {
    if rows != [] {
      OccupiedIsUseOfActive(rows[1..], res);
      var a := ActiveRows(rows[1..]);
      assert ([rows[0]] + a)[1..] == a;
    }
  }

  function Matching(rows: seq<TaskInstance>, keys: set<Key>): (s: seq<TaskInstance>)
    ensures forall r :: r in s <==> r in rows && r.key in keys
  {
    if rows == [] then []
    else if rows[0].key in keys then [rows[0]] + Matching(rows[1..], keys)
    else Matching(rows[1..], keys)
  }

  lemma {:induction false} SettlingAddsMatching(
    rows: seq<TaskInstance>, keys: set<Key>, swept: set<string>, finished: set<RunId>, res: Resource)
    ensures Occupied(Settled(rows, keys, swept, finished), res) <= Occupied(rows, res) + Use(Matching(rows, keys), res)
  {
    if rows != [] {
      SettlingAddsMatching(rows[1..], keys, swept, finished, res);
      assert Settled(rows, keys, swept, finished)[1..] == Settled(rows[1..], keys, swept, finished);
      var m := Matching(rows[1..], keys);
      assert ([rows[0]] + m)[1..] == m;
    }
  }

  /** The selected rows are still there, asking for the same slots of the same pool. */
  predicate SameDemand(rows: seq<TaskInstance>, sel: seq<TaskInstance>) {
    forall r, s :: r in rows && s in sel && r.key == s.key ==> r.pool == s.pool && r.poolSlots == s.poolSlots
  }

  lemma {:induction false} UseConcat(a: seq<TaskInstance>, b: seq<TaskInstance>, res: Resource)
    ensures Use(a + b, res) == Use(a, res) + Use(b, res)
    decreases |a|
  {
    if a == [] {
      assert a + b == b;
    } else {
      assert (a + b)[1..] == a[1..] + b;
      UseConcat(a[1..], b, res);
    }
  }

  lemma {:induction false} MatchingWithout(rows: seq<TaskInstance>, keys: set<Key>, k: Key)
    requires forall r :: r in rows ==> r.key != k
    ensures Matching(rows, keys) == Matching(rows, keys - {k})
  {
    if rows != [] {
      assert rows[0] in rows;
      MatchingWithout(rows[1..], keys, k);
    }
  }

  function Without(sel: seq<TaskInstance>, i: nat): seq<TaskInstance>
    requires i < |sel|
  {
    sel[..i] + sel[i + 1..]
  }

  /** Taking one selected row out, over a table that no longer holds its key. */
  lemma WithoutOne(rows: seq<TaskInstance>, sel: seq<TaskInstance>, i: nat, res: Resource)
    requires i < |sel| && forall r :: r in rows ==> r.key != sel[i].key
    ensures forall x :: x in Without(sel, i) ==> x in sel
    ensures multiset(sel) == multiset(Without(sel, i)) + multiset{sel[i]}
    ensures Use(sel, res) == Cost(sel[i], res) + Use(Without(sel, i), res)
    ensures Matching(rows, KeysOf(sel)) == Matching(rows, KeysOf(Without(sel, i)))
  {
    var rest := Without(sel, i);
    var k := sel[i].key;
    assert sel == sel[..i] + ([sel[i]] + sel[i + 1..]);
    UseConcat(sel[..i], [sel[i]] + sel[i + 1..], res);
    UseConcat(sel[..i], sel[i + 1..], res);
    assert ([sel[i]] + sel[i + 1..])[1..] == sel[i + 1..];
    forall x | x in sel
      ensures x == sel[i] || x in rest
    {
      var j :| 0 <= j < |sel| && sel[j] == x;
      assert j == i || x == (if j < i then rest[j] else rest[j - 1]);
    }
    MatchingWithout(rows, KeysOf(sel), k);
    MatchingWithout(rows, KeysOf(rest), k);
    assert KeysOf(sel) - {k} == KeysOf(rest) - {k};
  }

  /** At most one row per key, so the rows updated cost no more than the rows selected. */
  lemma {:induction false} MatchingCostsNoMore(rows: seq<TaskInstance>, sel: seq<TaskInstance>, res: Resource)
    requires UniqueKeys(rows) && SameDemand(rows, sel)
    ensures Use(Matching(rows, KeysOf(sel)), res) <= Use(sel, res)
    decreases |rows|
  {
    if rows != [] {
      var r := rows[0];
      if r.key in KeysOf(sel) {
        var i :| 0 <= i < |sel| && sel[i].key == r.key;
        WithoutOne(rows[1..], sel, i, res);
        MatchingCostsNoMore(rows[1..], Without(sel, i), res);
        var m := Matching(rows[1..], KeysOf(sel));
        assert ([r] + m)[1..] == m;
        assert r in rows && sel[i] in sel;
      } else {
        MatchingCostsNoMore(rows[1..], sel, res);
      }
    }
  }

  lemma SettlingWithinSelection(
    rows: seq<TaskInstance>, sel: seq<TaskInstance>, swept: set<string>, finished: set<RunId>, res: Resource)
    requires UniqueKeys(rows) && SameDemand(rows, sel)
    ensures Occupied(Settled(rows, KeysOf(sel), swept, finished), res) <= Occupied(rows, res) + Use(sel, res)
  {
    SettlingAddsMatching(rows, KeysOf(sel), swept, finished, res);
    MatchingCostsNoMore(rows, sel, res);
  }

  /** The returned number is the number of rows the call queued or reset. */
  lemma {:induction false} SelectedRowsAreUpdated(rows: seq<TaskInstance>, sel: seq<TaskInstance>)
    requires UniqueKeys(rows) && multiset(sel) <= multiset(rows)
    ensures |Matching(rows, KeysOf(sel))| == |sel|
    decreases |rows|
  {
    if rows == [] {
      SubmultisetIsSmaller(multiset(sel), multiset(rows));
    } else {
      var r := rows[0];
      assert rows == [r] + rows[1..];
      if r in sel {
        var i :| 0 <= i < |sel| && sel[i] == r;
        DropFromBoth(rows, sel, i);
        SelectedRowsAreUpdated(rows[1..], Without(sel, i));
        assert r.key in KeysOf(sel);
      } else {
        InTail(rows, sel);
        SelectedRowsAreUpdated(rows[1..], sel);
      }
    }
  }

  lemma DropFromBoth(rows: seq<TaskInstance>, sel: seq<TaskInstance>, i: nat)
    requires rows != [] && i < |sel| && sel[i] == rows[0] && UniqueKeys(rows) && multiset(sel) <= multiset(rows)
    ensures multiset(Without(sel, i)) <= multiset(rows[1..])
    ensures Matching(rows[1..], KeysOf(sel)) == Matching(rows[1..], KeysOf(Without(sel, i)))
  {
    WithoutOne(rows[1..], sel, i, DagTasks(""));
    assert rows == [rows[0]] + rows[1..];
    Cancel(multiset(Without(sel, i)), multiset(rows[1..]), rows[0]);
  }

  lemma Cancel(a: multiset<TaskInstance>, b: multiset<TaskInstance>, x: TaskInstance)
    requires a + multiset{x} <= b + multiset{x}
    ensures a <= b
  {
    assert a == (a + multiset{x}) - multiset{x};
    assert b == (b + multiset{x}) - multiset{x};
  }

  lemma InTail(rows: seq<TaskInstance>, sel: seq<TaskInstance>)
    requires rows != [] && UniqueKeys(rows) && multiset(sel) <= multiset(rows) && rows[0] !in sel
    ensures multiset(sel) <= multiset(rows[1..]) && rows[0].key !in KeysOf(sel)
  {
    assert rows == [rows[0]] + rows[1..];
    forall x | x in sel
      ensures x in rows[1..]
    {
      assert x in multiset(sel) && x in multiset(rows);
    }
  }

  // ----- From candidates back to table rows -----

  lemma {:induction false} EligibleIsSubsequence(dags: Dags, locked: set<Key>, rows: seq<TaskInstance>)
    ensures multiset(EligibleRows(dags, locked, rows)) <= multiset(rows)
  {
    if rows != [] {
      EligibleIsSubsequence(dags, locked, rows[1..]);
      assert rows == [rows[0]] + rows[1..];
    }
  }

  lemma CandidatesAreRows(dags: Dags, locked: set<Key>, rows: seq<TaskInstance>)
    ensures multiset(Candidates(dags, locked, rows)) <= multiset(rows)
    ensures Ordered(Candidates(dags, locked, rows))
    ensures forall r :: r in Candidates(dags, locked, rows) <==> r in rows && Eligible(dags, locked, r)
    ensures forall r :: r in Candidates(dags, locked, rows) <==>
      && r in rows && r.state == Scheduled && r.runState == RunRunning && r.runType != BackfillRun
      && r.key.dag in dags && !dags[r.key.dag].isPaused && r.key !in locked
  {
    EligibleIsSubsequence(dags, locked, rows);
    OrderByOrders(EligibleRows(dags, locked, rows));
    SameRows(EligibleRows(dags, locked, rows), Candidates(dags, locked, rows));
  }

  /** The number the critical section returns is the number of rows it queued or reset. */
  lemma ReportedRowsAreUpdated(
    dags: Dags, c: Counters, names: seq<string>, locked: set<Key>, rows: seq<TaskInstance>, maxTis: nat)
    requires UniqueKeys(rows) && forall n :: n in names ==> n in c.pools
    ensures var q := Allocate(dags, c, names, Candidates(dags, locked, rows), maxTis);
      |Matching(rows, KeysOf(q.selected))| == |q.selected|
  {
    SelectionIsBounded(dags, c, names, Candidates(dags, locked, rows), maxTis);
    CandidatesAreRows(dags, locked, rows);
    SelectedRowsAreUpdated(rows, Allocate(dags, c, names, Candidates(dags, locked, rows), maxTis).selected);
  }

  lemma {:induction false} OrderedPairwise(s: seq<TaskInstance>, i: nat, j: nat)
    requires Ordered(s) && i < j < |s|
    ensures Precedes(s[i], s[j])
  {
    if i == 0 {
      assert s[j] in s[1..];
    } else {
      OrderedPairwise(s[1..], i - 1, j - 1);
    }
  }

  lemma {:induction false} UniqueRowsOccurOnce(rows: seq<TaskInstance>, r: TaskInstance)
    requires UniqueKeys(rows)
    ensures multiset(rows)[r] <= 1
  {
    if rows != [] {
      assert rows == [rows[0]] + rows[1..];
      UniqueRowsOccurOnce(rows[1..], r);
      if r == rows[0] {
        assert r !in rows[1..];
      }
    }
  }

  lemma RepeatedRowsCountTwice(s: seq<TaskInstance>, i: nat, j: nat)
    requires i < j < |s| && s[i] == s[j]
    ensures multiset(s)[s[i]] >= 2
  {
    assert s == s[..i] + [s[i]] + s[i + 1..j] + [s[j]] + s[j + 1..];
  }

  lemma CandidatesAreDistinct(dags: Dags, locked: set<Key>, rows: seq<TaskInstance>)
    requires UniqueKeys(rows)
    ensures Distinct(Candidates(dags, locked, rows))
  {
    var cands := Candidates(dags, locked, rows);
    CandidatesAreRows(dags, locked, rows);
    forall i, j | 0 <= i < j < |cands|
      ensures cands[i] != cands[j]
    {
      if cands[i] == cands[j] {
        RepeatedRowsCountTwice(cands, i, j);
        UniqueRowsOccurOnce(rows, cands[i]);
      }
    }
  }

  /** The query returns the higher priority_weight first and, of equal ones, the earlier run. */
  lemma HigherPriorityFirst(dags: Dags, locked: set<Key>, rows: seq<TaskInstance>, i: nat, j: nat)
    requires i < j < |Candidates(dags, locked, rows)|
    ensures var a, b := Candidates(dags, locked, rows)[i], Candidates(dags, locked, rows)[j];
      a.priorityWeight > b.priorityWeight || (a.priorityWeight == b.priorityWeight && a.executionDate <= b.executionDate)
  {
    CandidatesAreRows(dags, locked, rows);
    OrderedPairwise(Candidates(dags, locked, rows), i, j);
  }

  /** More urgent: of higher priority, or of equal priority and an earlier run. */
  predicate MoreUrgent(r: TaskInstance, s: TaskInstance) {
    r.priorityWeight > s.priorityWeight || (r.priorityWeight == s.priorityWeight && r.executionDate < s.executionDate)
  }

  /**
   * Priority is respected: a SCHEDULED row of a running, not backfilled run of an unpaused DAG, not locked
   * elsewhere, that is more urgent than a selected one was selected too, or does not fit on top of the selection.
   */
  lemma PriorityIsRespected(
    dags: Dags, c: Counters, names: seq<string>, locked: set<Key>, rows: seq<TaskInstance>, maxTis: nat,
    r: TaskInstance, s: TaskInstance)
    requires UniqueKeys(rows) && NoShadow(dags, c, Candidates(dags, locked, rows))
    requires forall n :: n in names ==> n in c.pools
    requires r in rows && r.state == Scheduled && r.runState == RunRunning && r.runType != BackfillRun
    requires r.key.dag in dags && !dags[r.key.dag].isPaused && r.key !in locked
    requires MoreUrgent(r, s)
    requires var sel := Allocate(dags, c, names, Candidates(dags, locked, rows), maxTis).selected; s in sel && r !in sel
    ensures var sel := Allocate(dags, c, names, Candidates(dags, locked, rows), maxTis).selected;
      (forall x :: x in sel ==> x.pool in c.pools) && !Admits(dags, After(c, sel), r)
  {
    var cands := Candidates(dags, locked, rows);
    SelectionIsBounded(dags, c, names, cands, maxTis);
    assert s in multiset(cands);
    var i, j := InQueryOrder(dags, locked, rows, r, s);
    CandidatesAreDistinct(dags, locked, rows);
    NoUnjustifiedOvertaking(dags, c, names, cands, maxTis, i, j);
  }

  lemma InQueryOrder(dags: Dags, locked: set<Key>, rows: seq<TaskInstance>, r: TaskInstance, s: TaskInstance)
    returns (i: nat, j: nat)
    requires r in rows && Eligible(dags, locked, r) && s in Candidates(dags, locked, rows) && MoreUrgent(r, s)
    ensures i < j < |Candidates(dags, locked, rows)|
    ensures Candidates(dags, locked, rows)[i] == r && Candidates(dags, locked, rows)[j] == s
  {
    var cands := Candidates(dags, locked, rows);
    CandidatesAreRows(dags, locked, rows);
    i :| 0 <= i < |cands| && cands[i] == r;
    j :| 0 <= j < |cands| && cands[j] == s;
    if j < i {
      HigherPriorityFirst(dags, locked, rows, j, i);
    }
  }
}
