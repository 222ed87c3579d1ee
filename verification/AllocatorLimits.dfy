/** What the allocator's selection costs each limit: conservation, maximality, bounds and priority. */
module AllocatorLimits {
  import opened Options
  import opened TaskTable
  import opened SlotAllocator

  /** What a limit is about. */
  datatype Resource = PoolSlots(pool: string) | DagTasks(dag: string) | TaskRuns(task: TaskId)

  function Cost(r: TaskInstance, res: Resource): nat {
    match res
    case PoolSlots(n) => if r.pool == n then r.poolSlots else 0
    case DagTasks(d) => if r.key.dag == d then 1 else 0
    case TaskRuns(t) => if TaskOf(r) == t then 1 else 0
  }

  function Use(rows: seq<TaskInstance>, res: Resource): nat {
    if rows == [] then 0 else Cost(rows[0], res) + Use(rows[1..], res)
  }

  /** How much more of a resource the counters allow; nothing is said of an unlimited one. */
  function Headroom(dags: Dags, c: Counters, res: Resource): Option<int> {
    match res
    case PoolSlots(n) => if n in c.pools then Some(c.pools[n].open) else None
    case DagTasks(d) => Some(DagCap(dags, d) - Count(c.dagActive, d))
    case TaskRuns(t) =>
      match TaskCap(dags, t)
      case Some(cap) => Some(cap - Count(c.taskActive, t))
      case None => None
  }

  /** A row is selected exactly when its pool exists and can ever hold it, its DAG is there, and every limit has room. */
  lemma AdmitsIffEveryLimitHasRoom(dags: Dags, c: Counters, r: TaskInstance)
    ensures Admits(dags, c, r) <==>
      && r.pool in c.pools && r.poolSlots <= c.pools[r.pool].total
      && !Missing(dags, r.key.dag)
      && (forall res :: Cost(r, res) > 0 && Headroom(dags, c, res).Some? ==> Cost(r, res) <= Headroom(dags, c, res).value)
  {
    var a, b, d := PoolSlots(r.pool), DagTasks(r.key.dag), TaskRuns(TaskOf(r));
    assert Cost(r, a) == r.poolSlots && Cost(r, b) == 1 && Cost(r, d) == 1;
    assert forall res :: Cost(r, res) > 0 ==> res == a || res == b || res == d;
    if r.pool in c.pools && (forall res :: Cost(r, res) > 0 && Headroom(dags, c, res).Some? ==> Cost(r, res) <= Headroom(dags, c, res).value) {
      assert Cost(r, a) <= Headroom(dags, c, a).value;
      assert Cost(r, b) <= Headroom(dags, c, b).value;
      assert TaskCap(dags, TaskOf(r)).Some? ==> Cost(r, d) <= Headroom(dags, c, d).value;
    }
  }

  /** What a counter says of a resource: a pool's open slots, or what is active of a DAG or a task, capped or not. */
  function Reading(c: Counters, res: Resource): int {
    match res
    case PoolSlots(n) => if n in c.pools then c.pools[n].open else 0
    case DagTasks(d) => Count(c.dagActive, d)
    case TaskRuns(t) => Count(c.taskActive, t)
  }

  /** The reading once rows that use `used` of the resource have been charged. */
  function Moved(reading: int, res: Resource, used: nat): int {
    if res.PoolSlots? then reading - used else reading + used
  }

  /** Conservation: each of the three dictionaries moves by exactly what was selected, for every pool, DAG and task. */
  lemma {:induction false} CountersAccountForSelection(c: Counters, sel: seq<TaskInstance>, res: Resource)
    requires forall r :: r in sel ==> r.pool in c.pools
    ensures After(c, sel).pools.Keys == c.pools.Keys
    ensures forall n :: n in c.pools ==> After(c, sel).pools[n].total == c.pools[n].total
    ensures Reading(After(c, sel), res) == Moved(Reading(c, res), res, Use(sel, res))
    decreases |sel|
  {
    if sel != [] {
      CountersAccountForSelection(Charge(c, sel[0]), sel[1..], res);
    }
  }

  /** So the room left of each limit is the initial room less what the selection uses. */
  lemma RoomAfterSelection(dags: Dags, c: Counters, sel: seq<TaskInstance>, res: Resource)
    requires forall r :: r in sel ==> r.pool in c.pools
    ensures Headroom(dags, After(c, sel), res) == match Headroom(dags, c, res)
                                                  case Some(room) => Some(room - Use(sel, res))
                                                  case None => None
  {
    CountersAccountForSelection(c, sel, res);
    RoomFromReading(dags, c, After(c, sel), res, Use(sel, res));
  }

  lemma RoomFromReading(dags: Dags, c: Counters, d: Counters, res: Resource, used: nat)
    requires d.pools.Keys == c.pools.Keys && Reading(d, res) == Moved(Reading(c, res), res, used)
    ensures Headroom(dags, d, res) == match Headroom(dags, c, res)
                                      case Some(room) => Some(room - used)
                                      case None => None
  {
  }

  /** Whatever is selected fits: no limit it draws on is overrun. */
  lemma {:induction false} SelectionWithinHeadroom(dags: Dags, c: Counters, rows: seq<TaskInstance>, res: Resource)
    requires Use(Greedy(dags, c, rows), res) > 0 && Headroom(dags, c, res).Some?
    ensures Use(Greedy(dags, c, rows), res) <= Headroom(dags, c, res).value
    decreases |rows|
  {
    if Admits(dags, c, rows[0]) {
      var d := Charge(c, rows[0]);
      var rest := Greedy(dags, d, rows[1..]);
      assert ([rows[0]] + rest)[1..] == rest;
      if Use(rest, res) > 0 {
        SelectionWithinHeadroom(dags, d, rows[1..], res);
      }
    } else {
      SelectionWithinHeadroom(dags, c, rows[1..], res);
    }
  }

  /** Maximality: a row that a pass turned down still does not fit on top of the final selection. */
  lemma {:induction false} RejectedRowsStayRejected(dags: Dags, c: Counters, rows: seq<TaskInstance>, r: TaskInstance)
    requires r in rows && r !in Greedy(dags, c, rows)
    requires forall x :: x in Greedy(dags, c, rows) ==> x.pool in c.pools
    ensures !Admits(dags, After(c, Greedy(dags, c, rows)), r)
    decreases |rows|
  {
    var d := if Admits(dags, c, rows[0]) then Charge(c, rows[0]) else c;
    var rest := Greedy(dags, d, rows[1..]);
    GreedySelects(dags, d, rows[1..]);
    if Admits(dags, c, rows[0]) {
      assert ([rows[0]] + rest)[1..] == rest;
    }
    if r in rows[1..] {
      RejectedRowsStayRejected(dags, d, rows[1..], r);
    } else if Admits(dags, After(d, rest), r) {
      ChargingTightens(d, rest);
      RejectionIsFinal(dags, d, After(d, rest), r);
    }
  }

  /** Every row is chosen in query order, once, and only rows that were candidates. */
  lemma {:induction false} GreedyIsSubsequence(dags: Dags, c: Counters, rows: seq<TaskInstance>)
    ensures multiset(Greedy(dags, c, rows)) <= multiset(rows)
    decreases |rows|
  {
    if rows != [] {
      assert rows == [rows[0]] + rows[1..];
      GreedyIsSubsequence(dags, if Admits(dags, c, rows[0]) then Charge(c, rows[0]) else c, rows[1..]);
    }
  }

  /** The whole loop's selection comes from one window, whose pass started from the initial counters. */
  lemma {:induction false} SelectionComesFromOneWindow(dags: Dags, cands: seq<TaskInstance>, maxTis: nat, p: Progress)
    returns (w: seq<TaskInstance>)
    requires p.selected == [] && forall d :: d in p.swept ==> Missing(dags, d)
    ensures |w| <= maxTis && multiset(w) <= multiset(cands)
    ensures var q := Passes(dags, cands, maxTis, p); var g := Greedy(dags, p.counters, w);
      && q.selected == g
      && (forall r :: r in g ==> r.pool in p.counters.pools)
      && q.counters == After(p.counters, g)
      && (forall d :: d in q.swept ==> Missing(dags, d))
    decreases |UnstarvedRows(Barred(p), cands)|
  {
    w := Window(p, cands, maxTis);
    var q := ExamineAll(dags, p, w);
    PassIsGreedy(dags, p, w);
    SweptAreMissing(dags, p, w);
    if w != [] && GoesOn(p, q, w, maxTis) {
      PassShrinks(dags, cands, maxTis, p);
      w := SelectionComesFromOneWindow(dags, cands, maxTis, q);
    } else {
      WindowIsSubsequence(Barred(p), cands, maxTis);
    }
  }

  lemma WindowIsSubsequence(f: Starved, cands: seq<TaskInstance>, maxTis: nat)
    ensures var w := Limit(UnstarvedRows(f, cands), maxTis); |w| <= maxTis && multiset(w) <= multiset(cands)
  {
    UnstarvedIsSubsequence(f, cands);
    LimitIsSubsequence(UnstarvedRows(f, cands), maxTis);
  }

  lemma LimitIsSubsequence(rows: seq<TaskInstance>, n: nat)
    ensures |Limit(rows, n)| <= n && multiset(Limit(rows, n)) <= multiset(rows)
  {
    if |rows| > n {
      assert rows == rows[..n] + rows[n..];
    }
  }

  lemma {:induction false} UnstarvedIsSubsequence(f: Starved, rows: seq<TaskInstance>)
    ensures multiset(UnstarvedRows(f, rows)) <= multiset(rows)
  {
    if rows != [] {
      assert rows == [rows[0]] + rows[1..];
      UnstarvedIsSubsequence(f, rows[1..]);
    }
  }

  lemma {:induction false} SweptAreMissing(dags: Dags, p: Progress, w: seq<TaskInstance>)
    requires forall d :: d in p.swept ==> Missing(dags, d)
    ensures forall d :: d in ExamineAll(dags, p, w).swept ==> Missing(dags, d)
    decreases |w|
  {
    if w != [] {
      SweptAreMissing(dags, Advance(dags, p, w[0]), w[1..]);
    }
  }

  lemma {:induction false} SelectedAreFound(dags: Dags, c: Counters, rows: seq<TaskInstance>)
    ensures forall r :: r in Greedy(dags, c, rows) ==> !Missing(dags, r.key.dag)
    decreases |rows|
  {
    if rows != [] {
      SelectedAreFound(dags, if Admits(dags, c, rows[0]) then Charge(c, rows[0]) else c, rows[1..]);
    }
  }

  // ----- How many rows a call may take -----

  /** The open slots themselves, one by one: the k-th of each pool that has more than k. */
  ghost function OpenSlots(pools: map<string, PoolStats>): set<(string, int)> {
    set n, k | n in pools && 0 <= k < pools[n].open :: (n, k)
  }

  predicate DistinctNames(names: seq<string>) {
    forall i, j :: 0 <= i < j < |names| ==> names[i] != names[j]
  }

  ghost function SlotsOf(n: string, open: int): set<(string, int)> {
    set k | 0 <= k < open :: (n, k)
  }

  lemma {:induction false} CountSlots(n: string, open: int)
    ensures |SlotsOf(n, open)| == if open > 0 then open else 0
    decreases if open > 0 then open else 0
  {
    if open > 0 {
      CountSlots(n, open - 1);
      assert SlotsOf(n, open) == SlotsOf(n, open - 1) + {(n, open - 1)};
    } else {
      assert SlotsOf(n, open) == {};
    }
  }

  ghost function SlotsIn(pools: map<string, PoolStats>, names: seq<string>): set<(string, int)>
    requires forall n :: n in names ==> n in pools
  {
    if names == [] then {} else SlotsOf(names[0], pools[names[0]].open) + SlotsIn(pools, names[1..])
  }

  lemma {:induction false} SlotsInHolds(pools: map<string, PoolStats>, names: seq<string>, x: (string, int))
    requires forall n :: n in names ==> n in pools
    ensures x in SlotsIn(pools, names) <==> x.0 in names && 0 <= x.1 < pools[x.0].open
  {
    if names != [] {
      SlotsInHolds(pools, names[1..], x);
    }
  }

  lemma {:induction false} FreeSlotsCount(pools: map<string, PoolStats>, names: seq<string>)
    requires (forall n :: n in names ==> n in pools) && DistinctNames(names)
    ensures FreeSlots(pools, names) == |SlotsIn(pools, names)|
  {
    if names != [] {
      FreeSlotsCount(pools, names[1..]);
      var a, b := SlotsOf(names[0], pools[names[0]].open), SlotsIn(pools, names[1..]);
      CountSlots(names[0], pools[names[0]].open);
      forall x | x in a
        ensures x !in b
      {
        SlotsInHolds(pools, names[1..], x);
      }
      assert a !! b;
    }
  }

  /** The sum over the pools is the number of open slots. */
  lemma FreeSlotsAreOpenSlots(c: Counters, names: seq<string>)
    requires Lists(names, c) && DistinctNames(names)
    ensures FreeSlots(c.pools, names) == |OpenSlots(c.pools)|
  {
    FreeSlotsCount(c.pools, names);
    forall x
      ensures x in SlotsIn(c.pools, names) <==> x in OpenSlots(c.pools)
    {
      SlotsInHolds(c.pools, names, x);
    }
    assert SlotsIn(c.pools, names) == OpenSlots(c.pools);
  }

  /** Size bound, no row twice, and no DAG both failed and selected from. */
  lemma SelectionIsBounded(dags: Dags, c: Counters, names: seq<string>, cands: seq<TaskInstance>, maxTis: nat)
    requires forall n :: n in names ==> n in c.pools
    ensures var q := Allocate(dags, c, names, cands, maxTis);
      && |q.selected| <= maxTis && |q.selected| <= FreeSlots(c.pools, names)
      && multiset(q.selected) <= multiset(cands)
      && (forall r :: r in q.selected ==> r.pool in c.pools && r.key.dag !in q.swept)
      && (forall d :: d in q.swept ==> Missing(dags, d))
    ensures Lists(names, c) && DistinctNames(names) ==>
      |Allocate(dags, c, names, cands, maxTis).selected| <= |OpenSlots(c.pools)|
  {
    var free := FreeSlots(c.pools, names);
    if free != 0 {
      var w := SelectionComesFromOneWindow(dags, cands, Min(maxTis, free), Start(c));
      GreedyIsSubsequence(dags, c, w);
      SubmultisetIsSmaller(multiset(Greedy(dags, c, w)), multiset(w));
      SelectedAreFound(dags, c, w);
    }
    if Lists(names, c) && DistinctNames(names) {
      FreeSlotsAreOpenSlots(c, names);
    }
  }

  /** The first of the candidates whose pool is not full, as many as max_tis and the open slots allow. */
  ghost function FirstWindow(c: Counters, cands: seq<TaskInstance>, maxTis: nat): seq<TaskInstance> {
    Limit(UnstarvedRows(Starved(set n | n in c.pools && c.pools[n].open <= 0, {}, {}), cands), Min(maxTis, |OpenSlots(c.pools)|))
  }

  /** If any of those fits, the call takes what the greedy pass over them takes: no row more, and none less. */
  lemma FirstWindowDecides(dags: Dags, c: Counters, names: seq<string>, cands: seq<TaskInstance>, maxTis: nat)
    requires Lists(names, c) && DistinctNames(names)
    requires !NoneAdmitted(dags, c, FirstWindow(c, cands, maxTis))
    ensures Allocate(dags, c, names, cands, maxTis).selected == Greedy(dags, c, FirstWindow(c, cands, maxTis))
  {
    var p, w := Start(c), FirstWindow(c, cands, maxTis);
    FreeSlotsAreOpenSlots(c, names);
    GreedyEmptyIff(dags, c, w);
    PassIsGreedy(dags, p, w);
    assert [] + Greedy(dags, c, w) == Greedy(dags, c, w);
    assert Barred(p) == p.starved;
  }

  /** A window as large as the candidates shows them all in the first pass. */
  lemma WideWindow(dags: Dags, c: Counters, cands: seq<TaskInstance>, window: nat)
    requires |cands| <= window
    ensures Passes(dags, cands, window, Start(c)).selected == Greedy(dags, c, cands)
  {
    var p := Start(c);
    var w := Window(p, cands, window);
    assert w == UnstarvedRows(Barred(p), cands);
    StartIsSound(dags, c, cands);
    GreedyIgnoresRejected(dags, c, c, Barred(p), cands);
    PassIsGreedy(dags, p, w);
    assert [] + Greedy(dags, c, w) == Greedy(dags, c, w);
    if w != [] && GoesOn(p, ExamineAll(dags, p, w), w, window) {
      GreedyEmptyIff(dags, c, cands);
      SelectionIsGreedyOfSome(dags, c, cands, window);
    }
  }

  lemma SelectionIsGreedyOfSome(dags: Dags, c: Counters, cands: seq<TaskInstance>, window: nat)
    requires NoneAdmitted(dags, c, cands)
    ensures Passes(dags, cands, window, Start(c)).selected == []
  {
    var w := SelectionComesFromOneWindow(dags, cands, window, Start(c));
    forall r | r in w
      ensures !Admits(dags, c, r)
    {
      assert r in multiset(w) && r in multiset(cands);
    }
    GreedyEmptyIff(dags, c, w);
  }

  /**
   * A call takes everything the greedy pass over all candidates takes, when max_tis and the open slots
   * are no fewer than the candidates; shadows and missing DAGs do no harm then.
   */
  lemma SmallCallTakesAll(dags: Dags, c: Counters, names: seq<string>, cands: seq<TaskInstance>, maxTis: nat)
    requires Lists(names, c) && DistinctNames(names)
    requires |cands| <= maxTis && |cands| <= |OpenSlots(c.pools)|
    ensures Allocate(dags, c, names, cands, maxTis).selected == Greedy(dags, c, cands)
  {
    FreeSlotsAreOpenSlots(c, names);
    if FreeSlots(c.pools, names) != 0 {
      WideWindow(dags, c, cands, Min(maxTis, FreeSlots(c.pools, names)));
    }
  }

  /**
   * From counters c to counters d exactly the selection was charged: every pool, DAG and task reads what it
   * read before less (or plus) what was selected, so does the room of every limit, and no limit drawn on is overrun.
   */
  predicate Accounted(dags: Dags, c: Counters, d: Counters, sel: seq<TaskInstance>, res: Resource) {
    && Reading(d, res) == Moved(Reading(c, res), res, Use(sel, res))
    && (Headroom(dags, c, res).Some? ==>
          && Headroom(dags, d, res) == Some(Headroom(dags, c, res).value - Use(sel, res))
          && (Use(sel, res) > 0 ==> Headroom(dags, d, res).value >= 0))
  }

  lemma AccountedIf(dags: Dags, c: Counters, d: Counters, sel: seq<TaskInstance>, res: Resource)
    requires d.pools.Keys == c.pools.Keys && Reading(d, res) == Moved(Reading(c, res), res, Use(sel, res))
    requires Headroom(dags, c, res).Some? && Use(sel, res) > 0 ==> Use(sel, res) <= Headroom(dags, c, res).value
    ensures Accounted(dags, c, d, sel, res)
  {
    RoomFromReading(dags, c, d, res, Use(sel, res));
  }

  lemma GreedyIsAccounted(dags: Dags, c: Counters, w: seq<TaskInstance>, res: Resource)
    ensures var g := Greedy(dags, c, w);
      (forall r :: r in g ==> r.pool in c.pools) && Accounted(dags, c, After(c, g), g, res)
  {
    var g := Greedy(dags, c, w);
    GreedySelects(dags, c, w);
    CountersAccountForSelection(c, g, res);
    if Headroom(dags, c, res).Some? && Use(g, res) > 0 {
      SelectionWithinHeadroom(dags, c, w, res);
    }
    AccountedIf(dags, c, After(c, g), g, res);
  }

  /** Accounting for the whole loop, over all three dictionaries. */
  lemma AllocationIsAccounted(dags: Dags, c: Counters, names: seq<string>, cands: seq<TaskInstance>, maxTis: nat, res: Resource)
    requires forall n :: n in names ==> n in c.pools
    ensures var q := Allocate(dags, c, names, cands, maxTis); Accounted(dags, c, q.counters, q.selected, res)
  {
    var free := FreeSlots(c.pools, names);
    if free != 0 {
      var w := SelectionComesFromOneWindow(dags, cands, Min(maxTis, free), Start(c));
      GreedyIsAccounted(dags, c, w, res);
    }
  }

  lemma SubmultisetIsSmaller(a: multiset<TaskInstance>, b: multiset<TaskInstance>)
    requires a <= b
    ensures |a| <= |b|
  {
    assert b == a + (b - a);
  }

  predicate Distinct(rows: seq<TaskInstance>) {
    forall i, j :: 0 <= i < j < |rows| ==> rows[i] != rows[j]
  }

  /**
   * No unjustified overtaking: a candidate that comes before a selected one in priority order and was
   * not selected itself does not fit on top of the selection.
   */
  lemma NoUnjustifiedOvertaking(
    dags: Dags, c: Counters, names: seq<string>, cands: seq<TaskInstance>, maxTis: nat, i: nat, j: nat)
    requires forall n :: n in names ==> n in c.pools
    requires NoShadow(dags, c, cands) && Distinct(cands)
    requires i < j < |cands|
    requires var sel := Allocate(dags, c, names, cands, maxTis).selected; cands[j] in sel && cands[i] !in sel
    ensures var sel := Allocate(dags, c, names, cands, maxTis).selected;
      (forall r :: r in sel ==> r.pool in c.pools) && !Admits(dags, After(c, sel), cands[i])
  {
    var free := FreeSlots(c.pools, names);
    StartIsSound(dags, c, cands);
    var n := PassesRefineGreedy(dags, c, cands, Min(maxTis, free), Start(c));
    GreedySelects(dags, c, cands[..n]);
    assert cands[j] in cands[..n];
    assert j < n;
    RejectedRowsStayRejected(dags, c, cands[..n], cands[i]);
  }
}
