/**
 * Any number of schedulers and workers on one database: every interleaving of the critical section's
 * steps with steps of the outside world that never start a task themselves.
 */
module SchedulerCluster {
  import opened Options
  import opened TaskTable
  import opened SlotAllocator
  import opened AllocatorLimits
  import opened TableEffects
  import opened CriticalSection

  datatype Config = Config(dags: Dags, pools: seq<Pool>)

  /** How far the lock holder has got. What it has written is invisible until it commits. */
  datatype Phase =
    | Locked
    | PoolsRead(stats: map<string, PoolStats>)
    | CountsRead(counters: Counters)
    | Written(selected: seq<TaskInstance>, swept: set<string>)

  datatype Holder = Holder(scheduler: nat, phase: Phase)

  /** Committed task_instance rows, and who is inside the critical section. */
  datatype Cluster = Cluster(rows: seq<TaskInstance>, holder: Option<Holder>)

  datatype Step =
    | TryLock(scheduler: nat)
    | ReadPools
    | ReadCounts
    | SelectFrom(window: seq<TaskInstance>, swept: set<string>)
    | Commit(finished: set<RunId>)
    | Rollback
    | Outside(rows: seq<TaskInstance>)

  /** Rows the lock holder has locked by selecting them. */
  function LockedRows(s: Cluster): set<Key> {
    if s.holder.Some? && s.holder.value.phase.Written? then KeysOf(s.holder.value.phase.selected) else {}
  }

  predicate SameSlots(r: TaskInstance, r': TaskInstance) {
    r'.pool == r.pool && r'.poolSlots == r.poolSlots
  }

  /**
   * Workers finish, fail or retry tasks, runs create new rows; nobody else makes a row QUEUED or
   * RUNNING, and rows that are active or locked keep their pool and slots.
   */
  predicate OutsideStep(locked: set<Key>, rows: seq<TaskInstance>, rows': seq<TaskInstance>) {
    && |rows| <= |rows'| && UniqueKeys(rows')
    && (forall i :: 0 <= i < |rows| ==>
          && rows'[i].key == rows[i].key
          && (Active(rows'[i]) ==> Active(rows[i]) && SameSlots(rows[i], rows'[i]))
          && (rows[i].key in locked ==> SameSlots(rows[i], rows'[i])))
    && (forall i :: |rows| <= i < |rows'| ==> !Active(rows'[i]) && rows'[i].key !in locked)
  }

  function InPhase(s: Cluster, ph: Phase): Cluster
    requires s.holder.Some?
  {
    s.(holder := Some(s.holder.value.(phase := ph)))
  }

  ghost predicate Next(cfg: Config, s: Cluster, step: Step, s': Cluster) {
    match step
    case TryLock(n) => s' == if s.holder.None? then s.(holder := Some(Holder(n, Locked))) else s
    case ReadPools =>
      s.holder.Some? && s.holder.value.phase.Locked?
      && s' == InPhase(s, PoolsRead(SlotsStats(cfg.pools, s.rows)))
    case ReadCounts =>
      s.holder.Some? && s.holder.value.phase.PoolsRead?
      && var now := Snapshot(cfg.pools, s.rows);
         s' == InPhase(s, CountsRead(Counters(s.holder.value.phase.stats, now.dagActive, now.taskActive)))
    case SelectFrom(window, swept) =>
      s.holder.Some? && s.holder.value.phase.CountsRead?
      && (forall r :: r in window ==> r in s.rows)
      && s' == InPhase(s, Written(Greedy(cfg.dags, s.holder.value.phase.counters, window), swept))
    case Commit(finished) =>
      s.holder.Some? && s.holder.value.phase.Written?
      && var ph := s.holder.value.phase;
         s' == Cluster(Settled(s.rows, KeysOf(ph.selected), ph.swept, finished), None)
    case Rollback => s.holder.Some? && s' == s.(holder := None)
    case Outside(rows) => OutsideStep(LockedRows(s), s.rows, rows) && s' == s.(rows := rows)
  }

  // ----- Invariant -----

  /** What was read is, by now, an overestimate of what is occupied. */
  ghost predicate Covers(cfg: Config, c: Counters, rows: seq<TaskInstance>, res: Resource) {
    LimitOf(cfg.dags, cfg.pools, res).Some? ==>
      Headroom(cfg.dags, c, res).Some?
      && Headroom(cfg.dags, c, res).value <= LimitOf(cfg.dags, cfg.pools, res).value - Occupied(rows, res)
  }

  /** Committing the selection would respect every limit it draws on. */
  ghost predicate Affordable(cfg: Config, sel: seq<TaskInstance>, rows: seq<TaskInstance>, res: Resource) {
    LimitOf(cfg.dags, cfg.pools, res).Some? && Use(sel, res) > 0 ==> Occupied(rows, res) + Use(sel, res) <= LimitOf(cfg.dags, cfg.pools, res).value
  }

  ghost predicate Inv(cfg: Config, s: Cluster) {
    && UniqueKeys(s.rows)
    && (s.holder.Some? ==>
          match s.holder.value.phase
          case Locked => true
          case PoolsRead(stats) => forall n :: Covers(cfg, Counters(stats, map[], map[]), s.rows, PoolSlots(n))
          case CountsRead(c) => forall res :: Covers(cfg, c, s.rows, res)
          case Written(sel, _) =>
            SameDemand(s.rows, sel) && forall res :: Affordable(cfg, sel, s.rows, res))
  }

  /** Outside steps only ever free capacity. */
  lemma {:induction false} OutsideFreesCapacity(locked: set<Key>, rows: seq<TaskInstance>, rows': seq<TaskInstance>, res: Resource)
    requires OutsideStep(locked, rows, rows')
    ensures Occupied(rows', res) <= Occupied(rows, res)
    decreases |rows'|
  {
    if rows == [] {
      if rows' != [] {
        OutsideFreesCapacity(locked, [], rows'[1..], res);
      }
    } else {
      assert OutsideStep(locked, rows[1..], rows'[1..]) by {
        forall i | 0 <= i < |rows| - 1
          ensures rows'[1..][i] == rows'[i + 1] && rows[1..][i] == rows[i + 1]
        {
        }
      }
      OutsideFreesCapacity(locked, rows[1..], rows'[1..], res);
      assert Active(rows'[0]) ==> Cost(rows'[0], res) == Cost(rows[0], res);
    }
  }

  lemma SettledKeysUnique(rows: seq<TaskInstance>, keys: set<Key>, swept: set<string>, finished: set<RunId>)
    requires UniqueKeys(rows)
    ensures UniqueKeys(Settled(rows, keys, swept, finished))
  {
    var s := Settled(rows, keys, swept, finished);
    assert forall i :: 0 <= i < |rows| ==> s[i].key == rows[i].key;
  }

  ghost predicate NeverWorse(cfg: Config, before: seq<TaskInstance>, after: seq<TaskInstance>, res: Resource) {
    LimitOf(cfg.dags, cfg.pools, res).Some? ==>
      Occupied(after, res) <= Occupied(before, res) || Occupied(after, res) <= LimitOf(cfg.dags, cfg.pools, res).value
  }

  lemma ReadPoolsCovers(cfg: Config, rows: seq<TaskInstance>, n: string)
    ensures Covers(cfg, Counters(SlotsStats(cfg.pools, rows), map[], map[]), rows, PoolSlots(n))
  {
    StatsShowTotals(cfg.pools, rows, n);
    SlotsStatsListsPools(cfg.pools, rows, n);
  }

  lemma ReadCountsCovers(cfg: Config, stats: map<string, PoolStats>, rows: seq<TaskInstance>, res: Resource)
    requires forall n :: Covers(cfg, Counters(stats, map[], map[]), rows, PoolSlots(n))
    ensures var now := Snapshot(cfg.pools, rows);
      Covers(cfg, Counters(stats, now.dagActive, now.taskActive), rows, res)
  {
    if res.PoolSlots? {
      assert Covers(cfg, Counters(stats, map[], map[]), rows, PoolSlots(res.pool));
    } else {
      RoomLeft(cfg.dags, cfg.pools, rows, res);
    }
  }

  lemma SelectionIsAffordable(cfg: Config, c: Counters, window: seq<TaskInstance>, rows: seq<TaskInstance>, res: Resource)
    requires Covers(cfg, c, rows, res)
    ensures Affordable(cfg, Greedy(cfg.dags, c, window), rows, res)
  {
    var sel := Greedy(cfg.dags, c, window);
    if LimitOf(cfg.dags, cfg.pools, res).Some? && Use(sel, res) > 0 {
      SelectionWithinHeadroom(cfg.dags, c, window, res);
    }
  }

  /** Every step keeps the invariant and overruns no limit; whoever is over a limit does not grow. */
  lemma StepIsSafe(cfg: Config, s: Cluster, step: Step, s': Cluster, res: Resource)
    requires Inv(cfg, s) && Next(cfg, s, step, s')
    ensures NeverWorse(cfg, s.rows, s'.rows, res)
  {
    match step {
      case Commit(finished) =>
        var ph := s.holder.value.phase;
        SettlingWithinSelection(s.rows, ph.selected, ph.swept, finished, res);
        assert Affordable(cfg, ph.selected, s.rows, res);
      case Outside(rows) =>
        OutsideFreesCapacity(LockedRows(s), s.rows, rows, res);
      case _ =>
    }
  }

  lemma StepKeepsInv(cfg: Config, s: Cluster, step: Step, s': Cluster)
    requires Inv(cfg, s) && Next(cfg, s, step, s')
    ensures Inv(cfg, s')
  {
    match step {
      case TryLock(_) =>
      case Rollback =>
      case ReadPools =>
        forall n
          ensures Covers(cfg, Counters(s'.holder.value.phase.stats, map[], map[]), s.rows, PoolSlots(n))
        {
          ReadPoolsCovers(cfg, s.rows, n);
        }
      case ReadCounts =>
        forall res
          ensures Covers(cfg, s'.holder.value.phase.counters, s.rows, res)
        {
          ReadCountsCovers(cfg, s.holder.value.phase.stats, s.rows, res);
        }
      case SelectFrom(window, swept) =>
        SelectKeepsInv(cfg, s, window, swept, s');
      case Commit(finished) =>
        SettledKeysUnique(s.rows, KeysOf(s.holder.value.phase.selected), s.holder.value.phase.swept, finished);
      case Outside(rows) =>
        OutsideKeepsInv(cfg, s, rows, s');
    }
  }

  lemma SelectKeepsInv(cfg: Config, s: Cluster, window: seq<TaskInstance>, swept: set<string>, s': Cluster)
    requires Inv(cfg, s) && Next(cfg, s, SelectFrom(window, swept), s')
    ensures Inv(cfg, s')
  {
    var c := s.holder.value.phase.counters;
    var sel := Greedy(cfg.dags, c, window);
    forall res
      ensures Affordable(cfg, sel, s.rows, res)
    {
      SelectionIsAffordable(cfg, c, window, s.rows, res);
    }
    GreedySelects(cfg.dags, c, window);
    forall r, x | r in s.rows && x in sel && r.key == x.key
      ensures r.pool == x.pool && r.poolSlots == x.poolSlots
    {
      assert x in s.rows;
    }
  }

  lemma OutsideKeepsInv(cfg: Config, s: Cluster, rows: seq<TaskInstance>, s': Cluster)
    requires Inv(cfg, s) && Next(cfg, s, Outside(rows), s')
    ensures Inv(cfg, s')
  {
    forall res
      ensures Occupied(rows, res) <= Occupied(s.rows, res)
    {
      OutsideFreesCapacity(LockedRows(s), s.rows, rows, res);
    }
    if s.holder.Some? {
      match s.holder.value.phase {
        case Locked =>
        case PoolsRead(stats) =>
          forall n
            ensures Covers(cfg, Counters(stats, map[], map[]), rows, PoolSlots(n))
          {
            assert Covers(cfg, Counters(stats, map[], map[]), s.rows, PoolSlots(n));
          }
        case CountsRead(c) =>
          forall res
            ensures Covers(cfg, c, rows, res)
          {
            assert Covers(cfg, c, s.rows, res);
          }
        case Written(sel, _) =>
          forall res
            ensures Affordable(cfg, sel, rows, res)
          {
            assert Affordable(cfg, sel, s.rows, res);
          }
      }
    }
  }

  // ----- Runs -----

  ghost predicate NextAt(cfg: Config, states: seq<Cluster>, steps: seq<Step>, i: nat)
    requires |states| == |steps| + 1 && i < |steps|
  {
    Next(cfg, states[i], steps[i], states[i + 1])
  }

  ghost predicate Run(cfg: Config, states: seq<Cluster>, steps: seq<Step>) {
    && |states| == |steps| + 1
    && UniqueKeys(states[0].rows) && states[0].holder.None?
    && forall i :: 0 <= i < |steps| ==> NextAt(cfg, states, steps, i)
  }

  lemma {:induction false} RunKeepsInv(cfg: Config, states: seq<Cluster>, steps: seq<Step>, i: nat)
    requires Run(cfg, states, steps) && i < |states|
    ensures Inv(cfg, states[i])
  {
    if i > 0 {
      RunKeepsInv(cfg, states, steps, i - 1);
      assert NextAt(cfg, states, steps, i - 1);
      StepKeepsInv(cfg, states[i - 1], steps[i - 1], states[i]);
    }
  }

  lemma RunStepIsSafe(cfg: Config, states: seq<Cluster>, steps: seq<Step>, i: nat, res: Resource)
    requires Run(cfg, states, steps) && i < |steps|
    ensures NeverWorse(cfg, states[i].rows, states[i + 1].rows, res)
  {
    RunKeepsInv(cfg, states, steps, i);
    assert NextAt(cfg, states, steps, i);
    StepIsSafe(cfg, states[i], steps[i], states[i + 1], res);
  }

  /**
   * Safety over every run: between any two moments, no pool, DAG or limited task ends above both its
   * limit and what it already occupied.
   */
  lemma {:induction false} RunsAreSafe(cfg: Config, states: seq<Cluster>, steps: seq<Step>, i: nat, j: nat, res: Resource)
    requires Run(cfg, states, steps) && i <= j < |states|
    ensures NeverWorse(cfg, states[i].rows, states[j].rows, res)
    decreases j
  {
    if i < j {
      RunsAreSafe(cfg, states, steps, i, j - 1, res);
      RunStepIsSafe(cfg, states, steps, j - 1, res);
    }
  }

  /** An uninterrupted critical section, as the class performs it, is one of these runs. */
  lemma CallIsARun(
    cfg: Config, rows: seq<TaskInstance>, maxTis: nat, locked: set<Key>, finished: set<RunId>, scheduler: nat)
    returns (states: seq<Cluster>, steps: seq<Step>)
    requires UniqueKeys(rows)
    ensures Run(cfg, states, steps) && states[0] == Cluster(rows, None)
    ensures var q := Allocate(cfg.dags, Snapshot(cfg.pools, rows), Names(cfg.pools), Candidates(cfg.dags, locked, rows), maxTis);
      states[|states| - 1] == Cluster(Settled(rows, KeysOf(q.selected), q.swept, finished), None)
  {
    var c := Snapshot(cfg.pools, rows);
    var cands := Candidates(cfg.dags, locked, rows);
    var q := Allocate(cfg.dags, c, Names(cfg.pools), cands, maxTis);
    var w := WindowOfCall(cfg, rows, maxTis, locked);
    var s0 := Cluster(rows, None);
    var s1 := Cluster(rows, Some(Holder(scheduler, Locked)));
    var s2 := InPhase(s1, PoolsRead(SlotsStats(cfg.pools, rows)));
    var s3 := InPhase(s1, CountsRead(c));
    var s4 := InPhase(s1, Written(Greedy(cfg.dags, c, w), q.swept));
    var s5 := Cluster(Settled(rows, KeysOf(q.selected), q.swept, finished), None);
    states := [s0, s1, s2, s3, s4, s5];
    steps := [TryLock(scheduler), ReadPools, ReadCounts, SelectFrom(w, q.swept), Commit(finished)];
  }

  lemma WindowOfCall(cfg: Config, rows: seq<TaskInstance>, maxTis: nat, locked: set<Key>) returns (w: seq<TaskInstance>)
    ensures forall r :: r in w ==> r in rows
    ensures Greedy(cfg.dags, Snapshot(cfg.pools, rows), w)
         == Allocate(cfg.dags, Snapshot(cfg.pools, rows), Names(cfg.pools), Candidates(cfg.dags, locked, rows), maxTis).selected
  {
    var c := Snapshot(cfg.pools, rows);
    var cands := Candidates(cfg.dags, locked, rows);
    var free := FreeSlots(c.pools, Names(cfg.pools));
    if free == 0 {
      w := [];
    } else {
      w := SelectionComesFromOneWindow(cfg.dags, cands, Min(maxTis, free), Start(c));
      OrderByOrders(EligibleRows(cfg.dags, locked, rows));
      forall r | r in w
        ensures r in rows
      {
        assert r in multiset(w) && r in multiset(cands);
        assert r in multiset(EligibleRows(cfg.dags, locked, rows));
      }
    }
  }
}
