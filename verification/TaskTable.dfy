/** The metadata rows the scheduler's critical section reads, and the queries it issues on them. */
module TaskTable {
  import opened Options
  import opened RunStates

  datatype TaskState =
    | NoStatus | Scheduled | Queued | Running | Success | Failed | Skipped | UpstreamFailed
    | UpForRetry | UpForReschedule | Deferred | Restarting | Shutdown | Removed

  datatype RunType = ScheduledRun | ManualRun | BackfillRun | DatasetRun

  /** Primary key of a task instance. */
  datatype Key = Key(dag: string, task: string, run: string, mapIndex: int)

  type Slots = n: nat | 1 <= n witness 1

  /** A task instance row together with the columns of its dag_run row. */
  datatype TaskInstance = TaskInstance(
    key: Key, pool: string, poolSlots: Slots, priorityWeight: int, state: TaskState,
    executionDate: int, runType: RunType, runState: RunState)

  /** A dag_model row, with the serialized DAG: absent, or each task's max_active_tis_per_dag. */
  datatype DagModel = DagModel(
    isPaused: bool, maxActiveTasks: int, hasTaskLimits: bool,
    serialized: Option<map<string, Option<int>>>)

  type Dags = map<string, DagModel>

  type TaskId = (string, string)

  function TaskOf(r: TaskInstance): TaskId {
    (r.key.dag, r.key.task)
  }

  /** max_active_tasks of the row's DAG; a row with no dag_model is dropped by the inner join. */
  function DagCap(dags: Dags, dag: string): int {
    if dag in dags then dags[dag].maxActiveTasks else 0
  }

  /** The serialized DAG is loaded, and absent. */
  predicate Missing(dags: Dags, dag: string) {
    dag in dags && dags[dag].hasTaskLimits && dags[dag].serialized.None?
  }

  function TaskCap(dags: Dags, t: TaskId): Option<int> {
    if t.0 in dags && dags[t.0].hasTaskLimits && dags[t.0].serialized.Some?
       && t.1 in dags[t.0].serialized.value
    then dags[t.0].serialized.value[t.1]
    else None
  }

  predicate UniqueKeys(rows: seq<TaskInstance>) {
    forall i, j :: 0 <= i < j < |rows| ==> rows[i].key != rows[j].key
  }

  /** EXECUTION_STATES. */
  predicate Active(r: TaskInstance) {
    r.state == Queued || r.state == Running
  }

  /** The constant part of the candidate query: joins and filters, minus rows locked elsewhere. */
  predicate Eligible(dags: Dags, locked: set<Key>, r: TaskInstance) {
    && r.runType != BackfillRun
    && r.runState == RunRunning
    && r.key.dag in dags && !dags[r.key.dag].isPaused
    && r.state == Scheduled
    && r.key !in locked
  }

  function EligibleRows(dags: Dags, locked: set<Key>, rows: seq<TaskInstance>): (s: seq<TaskInstance>)
    ensures forall r :: r in s <==> r in rows && Eligible(dags, locked, r)
  {
    if rows == [] then []
    else if Eligible(dags, locked, rows[0]) then [rows[0]] + EligibleRows(dags, locked, rows[1..])
    else EligibleRows(dags, locked, rows[1..])
  }

  /** The sets that later passes filter out. */
  datatype Starved = Starved(pools: set<string>, dags: set<string>, tasks: set<TaskId>)

  predicate Unstarved(f: Starved, r: TaskInstance) {
    r.pool !in f.pools && r.key.dag !in f.dags && TaskOf(r) !in f.tasks
  }

  function UnstarvedRows(f: Starved, rows: seq<TaskInstance>): (s: seq<TaskInstance>)
    ensures |s| <= |rows|
    ensures forall r :: r in s <==> r in rows && Unstarved(f, r)
  {
    if rows == [] then []
    else if Unstarved(f, rows[0]) then [rows[0]] + UnstarvedRows(f, rows[1..])
    else UnstarvedRows(f, rows[1..])
  }

  /** ORDER BY -priority_weight, execution_date. */
  predicate Precedes(a: TaskInstance, b: TaskInstance) {
    a.priorityWeight > b.priorityWeight
    || (a.priorityWeight == b.priorityWeight && a.executionDate <= b.executionDate)
  }

  predicate Ordered(s: seq<TaskInstance>) {
    s == [] || ((forall x :: x in s[1..] ==> Precedes(s[0], x)) && Ordered(s[1..]))
  }

  function Insert(r: TaskInstance, s: seq<TaskInstance>): (t: seq<TaskInstance>) {
    if s == [] then [r]
    else if Precedes(r, s[0]) then [r] + s
    else [s[0]] + Insert(r, s[1..])
  }

  /** The rows in query order; rows that compare equal keep their table order. */
  function OrderBy(rows: seq<TaskInstance>): seq<TaskInstance> {
    if rows == [] then [] else Insert(rows[0], OrderBy(rows[1..]))
  }

  function Limit(rows: seq<TaskInstance>, n: nat): seq<TaskInstance> {
    if |rows| <= n then rows else rows[..n]
  }

  lemma {:induction false} InsertKeepsRows(r: TaskInstance, s: seq<TaskInstance>)
    ensures multiset(Insert(r, s)) == multiset{r} + multiset(s)
    ensures forall x :: x in Insert(r, s) ==> x == r || x in s
  {
    if s != [] {
      assert s == [s[0]] + s[1..];
      if !Precedes(r, s[0]) {
        InsertKeepsRows(r, s[1..]);
      }
    }
  }

  lemma {:induction false} InsertKeepsOrder(r: TaskInstance, s: seq<TaskInstance>)
    requires Ordered(s)
    ensures Ordered(Insert(r, s))
  {
    if s != [] {
      if Precedes(r, s[0]) {
        assert ([r] + s)[1..] == s;
        assert forall x :: x in s ==> x == s[0] || x in s[1..];
      } else {
        InsertKeepsOrder(r, s[1..]);
        InsertKeepsRows(r, s[1..]);
        var t := Insert(r, s[1..]);
        assert ([s[0]] + t)[1..] == t;
      }
    }
  }

  /** The query result is a permutation of the rows, highest priority first, oldest run first. */
  lemma {:induction false} OrderByOrders(rows: seq<TaskInstance>)
    ensures Ordered(OrderBy(rows)) && multiset(OrderBy(rows)) == multiset(rows)
  {
    if rows != [] {
      OrderByOrders(rows[1..]);
      InsertKeepsOrder(rows[0], OrderBy(rows[1..]));
      InsertKeepsRows(rows[0], OrderBy(rows[1..]));
      assert rows == [rows[0]] + rows[1..];
    }
  }

  lemma {:induction false} InsertThenFilter(f: Starved, r: TaskInstance, s: seq<TaskInstance>)
    requires Ordered(s)
    ensures UnstarvedRows(f, Insert(r, s))
         == if Unstarved(f, r) then Insert(r, UnstarvedRows(f, s)) else UnstarvedRows(f, s)
  {
    if s == [] {
    } else if Precedes(r, s[0]) {
      assert ([r] + s)[1..] == s;
      InsertAtFront(r, UnstarvedRows(f, s), s);
    } else {
      InsertThenFilter(f, r, s[1..]);
      var t := Insert(r, s[1..]);
      assert ([s[0]] + t)[1..] == t;
      var u := UnstarvedRows(f, s[1..]);
      assert ([s[0]] + u)[1..] == u;
    }
  }

  lemma InsertAtFront(r: TaskInstance, t: seq<TaskInstance>, s: seq<TaskInstance>)
    requires s != [] && Ordered(s) && Precedes(r, s[0])
    requires forall x :: x in t ==> x in s
    ensures Insert(r, t) == [r] + t
  {
    if t != [] {
      assert t[0] in s;
      assert t[0] == s[0] || t[0] in s[1..];
    }
  }

  /** Filtering before or after the ORDER BY is the same. */
  lemma {:induction false} FilterCommutesWithOrderBy(f: Starved, rows: seq<TaskInstance>)
    ensures UnstarvedRows(f, OrderBy(rows)) == OrderBy(UnstarvedRows(f, rows))
  {
    if rows != [] {
      FilterCommutesWithOrderBy(f, rows[1..]);
      OrderByOrders(rows[1..]);
      InsertThenFilter(f, rows[0], OrderBy(rows[1..]));
      var u := UnstarvedRows(f, rows[1..]);
      assert ([rows[0]] + u)[1..] == u;
    }
  }
}
