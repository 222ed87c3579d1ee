/** The safety of the cluster's runs in rows and columns, and who may write. */
module ClusterSafety {
  import opened Options
  import opened TaskTable
  import opened SlotAllocator
  import opened AllocatorLimits
  import opened TableEffects
  import opened CriticalSection
  import opened SchedulerCluster

  /** The lock is exclusive: while one scheduler holds it no other gets it, and only the holder's commit writes its selection. */
  lemma LockIsExclusive(cfg: Config, s: Cluster, step: Step, s': Cluster)
    requires Next(cfg, s, step, s') && s.holder.Some?
    ensures s'.holder.Some? ==> s'.holder.value.scheduler == s.holder.value.scheduler
    ensures step.TryLock? ==> s' == s
    ensures s'.rows != s.rows ==> step.Outside? || (step.Commit? && s'.holder.None?)
    ensures step.Rollback? ==> s' == Cluster(s.rows, None)
  {
  }

  /** Nobody enters without the lock. */
  lemma OnlyTheHolderActs(cfg: Config, s: Cluster, step: Step, s': Cluster)
    requires Next(cfg, s, step, s') && s.holder.None?
    ensures step.TryLock? || step.Outside?
    ensures step.TryLock? ==> s'.rows == s.rows && s'.holder == Some(Holder(step.scheduler, Locked))
  {
  }

  function Max(a: int, b: int): int {
    if a < b then b else a
  }

  /**
   * The same in rows and columns, between any two moments i and j of a run: the slots in use of a pool are
   * at most its total or what they were; so are the queued and running rows of a DAG and its
   * max_active_tasks; and those of a task that has a limit and the limit.
   */
  lemma RunsAreSafeInRows(cfg: Config, states: seq<Cluster>, steps: seq<Step>, i: nat, j: nat, p: nat, dag: string, task: string)
    requires Run(cfg, states, steps) && i <= j < |states|
    requires p < |cfg.pools| && forall a, b :: 0 <= a < b < |cfg.pools| ==> cfg.pools[a].name != cfg.pools[b].name
    requires dag in cfg.dags
    ensures |SlotsInUse(states[j].rows, cfg.pools[p].name)| <= Max(|SlotsInUse(states[i].rows, cfg.pools[p].name)|, cfg.pools[p].total)
    ensures |RowsInUse(states[j].rows, dag)| <= Max(|RowsInUse(states[i].rows, dag)|, cfg.dags[dag].maxActiveTasks)
    ensures var model := cfg.dags[dag];
      model.hasTaskLimits && model.serialized.Some? && task in model.serialized.value && model.serialized.value[task].Some? ==>
        |InstancesInUse(states[j].rows, (dag, task))|
        <= Max(|InstancesInUse(states[i].rows, (dag, task))|, model.serialized.value[task].value)
  {
    var pool := cfg.pools[p].name;
    TotalOfPool(cfg.pools, p);
    RunsAreSafe(cfg, states, steps, i, j, PoolSlots(pool));
    RunsAreSafe(cfg, states, steps, i, j, DagTasks(dag));
    RunsAreSafe(cfg, states, steps, i, j, TaskRuns((dag, task)));
    OccupiedCounts(states[i].rows, pool, dag, (dag, task));
    OccupiedCounts(states[j].rows, pool, dag, (dag, task));
  }
}
