/** The scheduler's critical section as it runs: loops over local dictionaries and an updated table. */
module CriticalSection {
  import opened Options
  import opened TaskTable
  import opened SlotAllocator
  import opened AllocatorLimits
  import opened TableEffects

  datatype Pool = Pool(name: string, total: int)

  function Names(pools: seq<Pool>): (names: seq<string>)
    ensures |names| == |pools|
    ensures forall i :: 0 <= i < |pools| ==> names[i] == pools[i].name
  {
    if pools == [] then [] else [pools[0].name] + Names(pools[1..])
  }

  /** Pool.slots_stats: open = total - running - queued. */
  function SlotsStats(pools: seq<Pool>, rows: seq<TaskInstance>): map<string, PoolStats> {
    if pools == [] then map[]
    else
      var p := pools[0];
      SlotsStats(pools[1..], rows)[p.name := PoolStats(p.total, p.total - Occupied(rows, PoolSlots(p.name)))]
  }

  lemma {:induction false} SlotsStatsListsPools(pools: seq<Pool>, rows: seq<TaskInstance>, n: string)
    ensures n in Names(pools) <==> n in SlotsStats(pools, rows)
    ensures n in SlotsStats(pools, rows) ==>
              SlotsStats(pools, rows)[n].open == SlotsStats(pools, rows)[n].total - Occupied(rows, PoolSlots(n))
  {
    if pools != [] {
      SlotsStatsListsPools(pools[1..], rows, n);
    }
  }

  lemma StatsHaveNames(pools: seq<Pool>, rows: seq<TaskInstance>)
    ensures forall n :: n in Names(pools) <==> n in SlotsStats(pools, rows)
  {
    forall n
      ensures n in Names(pools) <==> n in SlotsStats(pools, rows)
    {
      SlotsStatsListsPools(pools, rows, n);
    }
  }

  // ----- SELECT task_id, dag_id, count(*) ... GROUP BY task_id, dag_id -----

  datatype Group = Group(task: string, dag: string, count: nat)

  function AddToGroups(groups: seq<Group>, t: TaskId): seq<Group> {
    if groups == [] then [Group(t.1, t.0, 1)]
    else if (groups[0].dag, groups[0].task) == t then [groups[0].(count := groups[0].count + 1)] + groups[1..]
    else [groups[0]] + AddToGroups(groups[1..], t)
  }

  function GroupBy(rows: seq<TaskInstance>): seq<Group> {
    if rows == [] then [] else AddToGroups(GroupBy(rows[1..]), TaskOf(rows[0]))
  }

  predicate DistinctGroups(groups: seq<Group>) {
    forall i, j :: 0 <= i < j < |groups| ==> (groups[i].dag, groups[i].task) != (groups[j].dag, groups[j].task)
  }

  predicate Mentions(groups: seq<Group>, t: TaskId) {
    exists g :: g in groups && (g.dag, g.task) == t
  }

  predicate Counts(g: Group, res: Resource) {
    match res
    case PoolSlots(_) => false
    case DagTasks(d) => g.dag == d
    case TaskRuns(t) => (g.dag, g.task) == t
  }

  function Total(groups: seq<Group>, res: Resource): nat {
    if groups == [] then 0 else (if Counts(groups[0], res) then groups[0].count else 0) + Total(groups[1..], res)
  }

  lemma {:induction false} AddToGroupsAddsOne(groups: seq<Group>, r: TaskInstance, res: Resource)
    requires !res.PoolSlots?
    ensures Total(AddToGroups(groups, TaskOf(r)), res) == Total(groups, res) + Cost(r, res)
  {
    if groups != [] && (groups[0].dag, groups[0].task) != TaskOf(r) {
      AddToGroupsAddsOne(groups[1..], r, res);
      var t := AddToGroups(groups[1..], TaskOf(r));
      assert ([groups[0]] + t)[1..] == t;
    }
  }

  lemma {:induction false} AddToGroupsKeys(groups: seq<Group>, t: TaskId)
    requires DistinctGroups(groups) && forall g :: g in groups ==> g.count > 0
    ensures DistinctGroups(AddToGroups(groups, t)) && forall g :: g in AddToGroups(groups, t) ==> g.count > 0
    ensures forall x :: Mentions(AddToGroups(groups, t), x) <==> x == t || Mentions(groups, x)
  {
    if groups == [] {
    } else if (groups[0].dag, groups[0].task) == t {
      var h := groups[0].(count := groups[0].count + 1);
      forall x
        ensures Mentions([h] + groups[1..], x) <==> x == t || Mentions(groups, x)
      {
        MentionsCons(h, groups[1..], x);
        MentionsCons(groups[0], groups[1..], x);
        assert groups == [groups[0]] + groups[1..];
      }
    } else {
      AddToGroupsKeys(groups[1..], t);
      var a := AddToGroups(groups[1..], t);
      var k := (groups[0].dag, groups[0].task);
      assert !Mentions(groups[1..], k);
      assert !Mentions(a, k);
      forall x
        ensures Mentions([groups[0]] + a, x) <==> x == t || Mentions(groups, x)
      {
        MentionsCons(groups[0], a, x);
        MentionsCons(groups[0], groups[1..], x);
        assert groups == [groups[0]] + groups[1..];
      }
      forall j | 0 <= j < |a|
        ensures k != (a[j].dag, a[j].task)
      {
        assert a[j] in a;
      }
    }
  }

  lemma MentionsCons(g: Group, groups: seq<Group>, t: TaskId)
    ensures Mentions([g] + groups, t) <==> (g.dag, g.task) == t || Mentions(groups, t)
  {
    assert g in [g] + groups;
    assert forall h :: h in groups ==> h in [g] + groups;
  }

  /** The grouped counts of the active rows are their totals per DAG and per task. */
  lemma {:induction false} GroupByCounts(rows: seq<TaskInstance>, res: Resource)
    requires !res.PoolSlots?
    ensures DistinctGroups(GroupBy(rows)) && forall g :: g in GroupBy(rows) ==> g.count > 0
    ensures Total(GroupBy(rows), res) == Use(rows, res)
  {
    if rows != [] {
      GroupByCounts(rows[1..], res);
      AddToGroupsKeys(GroupBy(rows[1..]), TaskOf(rows[0]));
      AddToGroupsAddsOne(GroupBy(rows[1..]), rows[0], res);
    }
  }

  function DagMap(groups: seq<Group>): map<string, int>
    decreases |groups|
  {
    if groups == [] then map[]
    else
      var m, g := DagMap(groups[..|groups| - 1]), groups[|groups| - 1];
      m[g.dag := Count(m, g.dag) + g.count]
  }

  function TaskMap(groups: seq<Group>): map<TaskId, int>
    decreases |groups|
  {
    if groups == [] then map[]
    else
      var g := groups[|groups| - 1];
      TaskMap(groups[..|groups| - 1])[(g.dag, g.task) := g.count]
  }

  lemma {:induction false} TotalOfLast(groups: seq<Group>, res: Resource)
    requires groups != []
    ensures var g := groups[|groups| - 1];
      Total(groups, res) == Total(groups[..|groups| - 1], res) + (if Counts(g, res) then g.count else 0)
    decreases |groups|
  {
    if |groups| > 1 {
      TotalOfLast(groups[1..], res);
      assert groups[1..][..|groups| - 2] == groups[..|groups| - 1][1..];
    }
  }

  lemma {:induction false} MapsHoldTotals(groups: seq<Group>, d: string, t: TaskId)
    requires DistinctGroups(groups)
    ensures Count(DagMap(groups), d) == Total(groups, DagTasks(d))
    ensures Count(TaskMap(groups), t) == Total(groups, TaskRuns(t))
    ensures Mentions(groups, t) || Total(groups, TaskRuns(t)) == 0
    decreases |groups|
  {
    if groups != [] {
      var init := groups[..|groups| - 1];
      MapsHoldTotals(init, d, t);
      TotalOfLast(groups, DagTasks(d));
      TotalOfLast(groups, TaskRuns(t));
      assert groups[|groups| - 1] in groups;
      assert forall g :: g in init ==> g in groups;
    }
  }

  /** The counters at the start of the selection. */
  function Snapshot(pools: seq<Pool>, rows: seq<TaskInstance>): (c: Counters)
    ensures Lists(Names(pools), c)
  {
    StatsHaveNames(pools, rows);
    var groups := GroupBy(ActiveRows(rows));
    Counters(SlotsStats(pools, rows), DagMap(groups), TaskMap(groups))
  }

  function PoolTotals(pools: seq<Pool>): map<string, int> {
    if pools == [] then map[] else PoolTotals(pools[1..])[pools[0].name := pools[0].total]
  }

  /** The limits: the total of a pool, the max_active_tasks of a DAG, the cap of a task that has one. */
  function LimitOf(dags: Dags, pools: seq<Pool>, res: Resource): Option<int> {
    match res
    case PoolSlots(n) => var t := PoolTotals(pools); if n in t then Some(t[n]) else None
    case DagTasks(d) => Some(DagCap(dags, d))
    case TaskRuns(t) => TaskCap(dags, t)
  }

  lemma {:induction false} StatsShowTotals(pools: seq<Pool>, rows: seq<TaskInstance>, n: string)
    ensures n in SlotsStats(pools, rows) <==> n in PoolTotals(pools)
    ensures n in PoolTotals(pools) ==> SlotsStats(pools, rows)[n].total == PoolTotals(pools)[n]
  {
    if pools != [] {
      StatsShowTotals(pools[1..], rows, n);
    }
  }

  lemma ActiveMapsCount(rows: seq<TaskInstance>, d: string, t: TaskId)
    ensures Count(DagMap(GroupBy(ActiveRows(rows))), d) == Occupied(rows, DagTasks(d))
    ensures Count(TaskMap(GroupBy(ActiveRows(rows))), t) == Occupied(rows, TaskRuns(t))
  {
    GroupByCounts(ActiveRows(rows), DagTasks(d));
    GroupByCounts(ActiveRows(rows), TaskRuns(t));
    MapsHoldTotals(GroupBy(ActiveRows(rows)), d, t);
    OccupiedIsUseOfActive(rows, DagTasks(d));
    OccupiedIsUseOfActive(rows, TaskRuns(t));
  }

  /** The counters start at what the table says: room left is cap less running and queued. */
  predicate MeasuresRoom(c: Counters, rows: seq<TaskInstance>, res: Resource) {
    match res
    case PoolSlots(n) => n in c.pools ==> c.pools[n].open == c.pools[n].total - Occupied(rows, res)
    case DagTasks(d) => Count(c.dagActive, d) == Occupied(rows, res)
    case TaskRuns(t) => Count(c.taskActive, t) == Occupied(rows, res)
  }

  lemma SnapshotMeasuresRoom(pools: seq<Pool>, rows: seq<TaskInstance>, res: Resource)
    ensures MeasuresRoom(Snapshot(pools, rows), rows, res)
  {
    match res {
      case PoolSlots(n) => SlotsStatsListsPools(pools, rows, n);
      case DagTasks(d) => ActiveMapsCount(rows, d, ("", ""));
      case TaskRuns(t) => ActiveMapsCount(rows, "", t);
    }
  }

  /**
   * The counters in rows: a pool's open slots are its total less the slots its queued and running rows use,
   * a DAG's count is the number of its queued and running rows, a task's that of its own.
   */
  lemma SnapshotCounts(pools: seq<Pool>, rows: seq<TaskInstance>, p: nat, dag: string, t: TaskId)
    requires p < |pools| && forall a, b :: 0 <= a < b < |pools| ==> pools[a].name != pools[b].name
    ensures var c := Snapshot(pools, rows);
      && pools[p].name in c.pools
      && c.pools[pools[p].name] == PoolStats(pools[p].total, pools[p].total - |SlotsInUse(rows, pools[p].name)|)
      && Count(c.dagActive, dag) == |RowsInUse(rows, dag)|
      && Count(c.taskActive, t) == |InstancesInUse(rows, t)|
  {
    OccupiedCounts(rows, pools[p].name, dag, t);
    SnapshotMeasuresRoom(pools, rows, PoolSlots(pools[p].name));
    SnapshotMeasuresRoom(pools, rows, DagTasks(dag));
    SnapshotMeasuresRoom(pools, rows, TaskRuns(t));
    SnapshotShowsTotal(pools, rows, pools[p].name);
    TotalOfPool(pools, p);
  }

  lemma {:induction false} TotalOfPool(pools: seq<Pool>, i: nat)
    requires i < |pools| && forall j, k :: 0 <= j < k < |pools| ==> pools[j].name != pools[k].name
    ensures pools[i].name in PoolTotals(pools) && PoolTotals(pools)[pools[i].name] == pools[i].total
  {
    if i > 0 {
      assert pools[1..][i - 1] == pools[i];
      TotalOfPool(pools[1..], i - 1);
    }
  }

  /** Counters that show a pool's total. */
  predicate ShowsTotal(c: Counters, pools: seq<Pool>, n: string) {
    && (n in c.pools <==> n in PoolTotals(pools))
    && (n in c.pools ==> c.pools[n].total == PoolTotals(pools)[n])
  }

  lemma SnapshotShowsTotal(pools: seq<Pool>, rows: seq<TaskInstance>, n: string)
    ensures ShowsTotal(Snapshot(pools, rows), pools, n)
  {
    StatsShowTotals(pools, rows, n);
  }

  lemma RoomIfMeasured(dags: Dags, pools: seq<Pool>, c: Counters, rows: seq<TaskInstance>, res: Resource)
    requires MeasuresRoom(c, rows, res) && (res.PoolSlots? ==> ShowsTotal(c, pools, res.pool))
    ensures Headroom(dags, c, res) == match LimitOf(dags, pools, res)
                                      case Some(limit) => Some(limit - Occupied(rows, res))
                                      case None => None
  {
  }

  /** The room the allocator starts with is, for each limit there is, the limit less what the table's rows occupy. */
  lemma RoomLeft(dags: Dags, pools: seq<Pool>, rows: seq<TaskInstance>, res: Resource)
    ensures Headroom(dags, Snapshot(pools, rows), res) == match LimitOf(dags, pools, res)
                                                          case Some(limit) => Some(limit - Occupied(rows, res))
                                                          case None => None
  {
    SnapshotMeasuresRoom(pools, rows, res);
    if res.PoolSlots? {
      SnapshotShowsTotal(pools, rows, res.pool);
    }
    RoomIfMeasured(dags, pools, Snapshot(pools, rows), rows, res);
  }

  // ----- The methods -----

  /**
   * What a call changes, column by column: nothing but states. A selected row is QUEUED, or has no state if
   * its run has finished; another is FAILED if it was SCHEDULED in a swept DAG; else it is as it was.
   */
  predicate OnlyStatesMove(
    before: seq<TaskInstance>, after: seq<TaskInstance>, selected: set<Key>, swept: set<string>, finished: set<RunId>)
  {
    && |after| == |before|
    && forall i :: 0 <= i < |before| ==>
         && after[i] == before[i].(state := after[i].state)
         && after[i].state ==
            if before[i].key in selected then
              (if (before[i].key.dag, before[i].key.run) in finished then NoStatus else Queued)
            else if before[i].state == Scheduled && before[i].key.dag in swept then Failed
            else before[i].state
  }

  lemma SettledMovesStates(rows: seq<TaskInstance>, keys: set<Key>, swept: set<string>, finished: set<RunId>)
    ensures OnlyStatesMove(rows, Settled(rows, keys, swept, finished), keys, swept, finished)
  {
  }

  lemma AtMost(dags: Dags, c: Counters, names: seq<string>, cands: seq<TaskInstance>, maxTis: nat)
    requires forall n :: n in names ==> n in c.pools
    ensures |Allocate(dags, c, names, cands, maxTis).selected| <= maxTis
  {
    SelectionIsBounded(dags, c, names, cands, maxTis);
  }

  class MetadataDb {
    var taskInstances: seq<TaskInstance>
    var pools: seq<Pool>
    const dags: Dags

    constructor (taskInstances: seq<TaskInstance>, pools: seq<Pool>, dags: Dags)
      ensures this.taskInstances == taskInstances && this.pools == pools && this.dags == dags
    {
      this.taskInstances := taskInstances;
      this.pools := pools;
      this.dags := dags;
    }

    method GetConcurrencyMaps() returns (dagMap: map<string, int>, taskMap: map<TaskId, int>)
      ensures dagMap == Snapshot(pools, taskInstances).dagActive
      ensures taskMap == Snapshot(pools, taskInstances).taskActive
    {
      var groups := GroupBy(ActiveRows(taskInstances));
      dagMap, taskMap := map[], map[];
      for i := 0 to |groups|
        invariant dagMap == DagMap(groups[..i]) && taskMap == TaskMap(groups[..i])
      {
        var g := groups[i];
        assert groups[..i + 1][..i] == groups[..i];
        dagMap := dagMap[g.dag := Count(dagMap, g.dag) + g.count];
        taskMap := taskMap[(g.dag, g.task) := g.count];
      }
      assert groups[..|groups|] == groups;
    }

    /** The body of the inner loop: check one row against the counters, and update them if it fits. */
    method ExamineRow(ti: TaskInstance, ghost rows: seq<TaskInstance>, stats: map<string, PoolStats>,
                      dagMap: map<string, int>, taskMap: map<TaskId, int>, starved: Starved,
                      executable: seq<TaskInstance>, ghost swept: set<string>)
      returns (stats': map<string, PoolStats>, dagMap': map<string, int>, taskMap': map<TaskId, int>,
               starved': Starved, executable': seq<TaskInstance>, ghost swept': set<string>)
      requires taskInstances == FailSwept(rows, swept)
      modifies this`taskInstances
      ensures Advance(dags, Progress(Counters(stats, dagMap, taskMap), starved, swept, executable), ti)
           == Progress(Counters(stats', dagMap', taskMap'), starved', swept', executable')
      ensures taskInstances == FailSwept(rows, swept')
    {
      stats', dagMap', taskMap', starved', executable', swept' := stats, dagMap, taskMap, starved, executable, swept;
      var dag := ti.key.dag;
      if ti.pool !in stats {
        starved' := starved.(pools := starved.pools + {ti.pool});
        return;
      }
      var total, open := stats[ti.pool].total, stats[ti.pool].open;
      if open <= 0 {
        starved' := starved.(pools := starved.pools + {ti.pool});
        return;
      }
      if ti.poolSlots > total {
        starved' := starved.(tasks := starved.tasks + {TaskOf(ti)});
        return;
      }
      if ti.poolSlots > open {
        starved' := starved.(tasks := starved.tasks + {TaskOf(ti)});
        return;
      }
      if Count(dagMap, dag) >= DagCap(dags, dag) {
        starved' := starved.(dags := starved.dags + {dag});
        return;
      }
      if dag in dags && dags[dag].hasTaskLimits {
        if dags[dag].serialized.None? {
          taskInstances := FailSwept(taskInstances, {dag});
          swept' := swept + {dag};
          return;
        }
        var cap := TaskCap(dags, TaskOf(ti));
        if cap.Some? && Count(taskMap, TaskOf(ti)) >= cap.value {
          starved' := starved.(tasks := starved.tasks + {TaskOf(ti)});
          return;
        }
      }
      executable' := executable + [ti];
      dagMap' := dagMap[dag := Count(dagMap, dag) + 1];
      taskMap' := taskMap[TaskOf(ti) := Count(taskMap, TaskOf(ti)) + 1];
      stats' := stats[ti.pool := PoolStats(total, open - ti.poolSlots)];
    }

    /** The loop over queries. It ends because every pass but the last leaves fewer candidates. */
    method RunPasses(limit: nat, locked: set<Key>, stats: map<string, PoolStats>,
                     dagActive: map<string, int>, taskActive: map<TaskId, int>)
      returns (executable: seq<TaskInstance>, ghost swept: set<string>)
      modifies this`taskInstances
      ensures var rows := old(taskInstances);
        var q := Passes(dags, Candidates(dags, locked, rows), limit, Start(Counters(stats, dagActive, taskActive)));
        executable == q.selected && swept == q.swept && taskInstances == FailSwept(rows, swept)
    {
      ghost var rows := taskInstances;
      ghost var cands := Candidates(dags, locked, rows);
      var poolStats, dagMap, taskMap := stats, dagActive, taskActive;
      var starved := Starved(set n | n in stats && stats[n].open <= 0, {}, {});
      executable, swept := [], {};
      ghost var first := Start(Counters(stats, dagActive, taskActive));
      ghost var p := first;
      while true
        invariant p == Progress(Counters(poolStats, dagMap, taskMap), starved, swept, executable)
        invariant executable == []
        invariant taskInstances == FailSwept(rows, swept)
        invariant Passes(dags, cands, limit, p) == Passes(dags, cands, limit, first)
        decreases |UnstarvedRows(Barred(p), cands)|
      {
        ghost var before := p;
        var numPools, numDags, numTasks := |starved.pools|, |starved.dags|, |starved.tasks|;
        var toExamine := Limit(OrderBy(UnstarvedRows(starved, EligibleRows(dags, locked, taskInstances))), limit);
        QueryIsWindow(dags, locked, rows, p, limit);
        if |toExamine| == 0 {
          break;
        }
        for i := 0 to |toExamine|
          invariant p == Progress(Counters(poolStats, dagMap, taskMap), starved, swept, executable)
          invariant taskInstances == FailSwept(rows, swept)
          invariant ExamineAll(dags, before, toExamine) == ExamineAll(dags, p, toExamine[i..])
        {
          assert toExamine[i..][1..] == toExamine[i + 1..];
          poolStats, dagMap, taskMap, starved, executable, swept :=
            ExamineRow(toExamine[i], rows, poolStats, dagMap, taskMap, starved, executable, swept);
          p := Advance(dags, p, toExamine[i]);
        }
        var isDone := executable != [] || |toExamine| < limit;
        var foundNewFilters :=
          |starved.pools| > numPools || |starved.dags| > numDags || |starved.tasks| > numTasks;
        if isDone || !foundNewFilters {
          break;
        }
        PassShrinks(dags, cands, limit, before);
      }
    }

    /**
     * One selection. `lockAcquired` is the outcome of the try-lock; when it fails nothing happens and
     * the caller sees an error. `swept` is a ghost: the DAGs whose rows were failed on the way.
     */
    method ExecutableTaskInstancesToQueued(maxTis: nat, locked: set<Key>, lockAcquired: bool)
      returns (ok: bool, executable: seq<TaskInstance>, ghost swept: set<string>)
      modifies this`taskInstances
      ensures ok == lockAcquired
      ensures !ok ==> executable == [] && taskInstances == old(taskInstances)
      ensures ok ==>
        var rows := old(taskInstances);
        var q := Allocate(dags, Snapshot(pools, rows), Names(pools), Candidates(dags, locked, rows), maxTis);
        && executable == q.selected && swept == q.swept
        && taskInstances == WithState(FailSwept(rows, swept), KeysOf(executable), Queued)
      ensures ok && DistinctNames(Names(pools)) ==>
        var open := |OpenSlots(SlotsStats(pools, old(taskInstances)))|;
        var cands := Candidates(dags, locked, old(taskInstances));
        && |executable| <= Min(maxTis, open)
        && (|cands| <= Min(maxTis, open) ==> executable == Greedy(dags, Snapshot(pools, old(taskInstances)), cands))
    {
      swept := {};
      executable := [];
      ok := lockAcquired;
      HowManyATableYields(dags, pools, taskInstances, locked, maxTis);
      if ok {
        NothingUpdated(taskInstances);
        StatsHaveNames(pools, taskInstances);
        var poolStats := SlotsStats(pools, taskInstances);
        var free := FreeSlots(poolStats, Names(pools));
        if free != 0 {
          var dagMap, taskMap := GetConcurrencyMaps();
          executable, swept := RunPasses(Min(maxTis, free), locked, poolStats, dagMap, taskMap);
          if |executable| > 0 {
            taskInstances := WithState(taskInstances, KeysOf(executable), Queued);
          } else {
            NothingUpdated(taskInstances);
          }
        }
      }
    }

    /** Hand the selected rows to the executor; a row whose run has finished meanwhile is reset. */
    method EnqueueTaskInstancesWithQueuedState(tis: seq<TaskInstance>, finished: set<RunId>)
      modifies this`taskInstances
      ensures taskInstances == WithState(old(taskInstances), (set k | k in KeysOf(tis) && RunOf(k) in finished), NoStatus)
    {
      NothingUpdated(taskInstances);
      ghost var done: set<Key> := {};
      for i := 0 to |tis|
        invariant done == set k | k in KeysOf(tis[..i]) && RunOf(k) in finished
        invariant taskInstances == WithState(old(taskInstances), done, NoStatus)
      {
        var key := tis[i].key;
        assert KeysOf(tis[..i + 1]) == KeysOf(tis[..i]) + {key} by {
          assert tis[..i + 1] == tis[..i] + [tis[i]];
        }
        if RunOf(key) in finished {
          done := done + {key};
          taskInstances := WithState(taskInstances, {key}, NoStatus);
          assert taskInstances == WithState(old(taskInstances), done, NoStatus);
        }
      }
      assert tis[..|tis|] == tis;
    }

    /** The critical section: its whole effect on the table, and the number it returns. */
    method CriticalSectionEnqueueTaskInstances(
      maxTisPerQuery: nat, slotsAvailable: nat, locked: set<Key>, lockAcquired: bool, finished: set<RunId>)
      returns (ok: bool, num: nat)
      modifies this`taskInstances
      ensures ok == lockAcquired
      ensures !ok ==> num == 0 && taskInstances == old(taskInstances)
      ensures num <= slotsAvailable && (maxTisPerQuery != 0 ==> num <= maxTisPerQuery)
      ensures ok ==>
        var rows := old(taskInstances);
        var maxTis := if maxTisPerQuery == 0 then slotsAvailable else Min(maxTisPerQuery, slotsAvailable);
        var q := Allocate(dags, Snapshot(pools, rows), Names(pools), Candidates(dags, locked, rows), maxTis);
        && num == |q.selected|
        && taskInstances == Settled(rows, KeysOf(q.selected), q.swept, finished)
        && OnlyStatesMove(rows, taskInstances, KeysOf(q.selected), q.swept, finished)
    {
      var maxTis := if maxTisPerQuery == 0 then slotsAvailable else Min(maxTisPerQuery, slotsAvailable);
      ghost var rows := taskInstances;
      var executable: seq<TaskInstance>;
      ghost var swept: set<string>;
      ok, executable, swept := ExecutableTaskInstancesToQueued(maxTis, locked, lockAcquired);
      if !ok {
        return false, 0;
      }
      EnqueueTaskInstancesWithQueuedState(executable, finished);
      num := |executable|;
      SettledInTwoSteps(rows, KeysOf(executable), swept, finished);
      SettledMovesStates(rows, KeysOf(executable), swept, finished);
      AtMost(dags, Snapshot(pools, rows), Names(pools), Candidates(dags, locked, rows), maxTis);
    }
  }

  lemma SettledInTwoSteps(rows: seq<TaskInstance>, keys: set<Key>, swept: set<string>, finished: set<RunId>)
    ensures WithState(WithState(FailSwept(rows, swept), keys, Queued), (set k | k in keys && RunOf(k) in finished), NoStatus)
         == Settled(rows, keys, swept, finished)
  {
  }

  lemma HowManyATableYields(dags: Dags, pools: seq<Pool>, rows: seq<TaskInstance>, locked: set<Key>, maxTis: nat)
    ensures DistinctNames(Names(pools)) ==>
      var c, cands := Snapshot(pools, rows), Candidates(dags, locked, rows);
      var open := |OpenSlots(SlotsStats(pools, rows))|;
      var sel := Allocate(dags, c, Names(pools), cands, maxTis).selected;
      && |sel| <= Min(maxTis, open) && (|cands| <= Min(maxTis, open) ==> sel == Greedy(dags, c, cands))
  {
    if DistinctNames(Names(pools)) {
      var c, cands := Snapshot(pools, rows), Candidates(dags, locked, rows);
      SelectionIsBounded(dags, c, Names(pools), cands, maxTis);
      if |cands| <= Min(maxTis, |OpenSlots(c.pools)|) {
        SmallCallTakesAll(dags, c, Names(pools), cands, maxTis);
      }
    }
  }

  lemma NothingUpdated(rows: seq<TaskInstance>)
    ensures WithState(rows, {}, Queued) == rows && WithState(rows, {}, NoStatus) == rows
    ensures KeysOf([]) == {}
  {
  }

}
