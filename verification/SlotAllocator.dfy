/**
 * The slot allocator as a function of the counters and of the ordered candidate rows: the passes of
 * `_executable_task_instances_to_queued`, next to the single greedy pass they are meant to compute.
 */
module SlotAllocator {
  import opened Options
  import opened TaskTable

  datatype PoolStats = PoolStats(total: int, open: int)

  /** The three dictionaries the loop updates. */
  datatype Counters = Counters(
    pools: map<string, PoolStats>, dagActive: map<string, int>, taskActive: map<TaskId, int>)

  /** defaultdict(int) lookup. */
  function Count<K(==)>(m: map<K, int>, k: K): int {
    if k in m then m[k] else 0
  }

  datatype Verdict =
    | NoSuchPool | PoolFull | LargerThanPool | NoRoom | DagFull | MissingDag | TaskFull | Selected

  function Examine(dags: Dags, c: Counters, r: TaskInstance): Verdict {
    if r.pool !in c.pools then NoSuchPool
    else if c.pools[r.pool].open <= 0 then PoolFull
    else if r.poolSlots > c.pools[r.pool].total then LargerThanPool
    else if r.poolSlots > c.pools[r.pool].open then NoRoom
    else if Count(c.dagActive, r.key.dag) >= DagCap(dags, r.key.dag) then DagFull
    else if Missing(dags, r.key.dag) then MissingDag
    else match TaskCap(dags, TaskOf(r))
      case Some(cap) => if Count(c.taskActive, TaskOf(r)) >= cap then TaskFull else Selected
      case None => Selected
  }

  predicate Admits(dags: Dags, c: Counters, r: TaskInstance) {
    Examine(dags, c, r) == Selected
  }

  function Charge(c: Counters, r: TaskInstance): Counters
    requires r.pool in c.pools
  {
    var s := c.pools[r.pool];
    Counters(
      c.pools[r.pool := PoolStats(s.total, s.open - r.poolSlots)],
      c.dagActive[r.key.dag := Count(c.dagActive, r.key.dag) + 1],
      c.taskActive[TaskOf(r) := Count(c.taskActive, TaskOf(r)) + 1])
  }

  // ----- One pass, and the loop of passes -----

  /** State of the loop: counters, filter sets, DAGs whose rows were failed, rows selected. */
  datatype Progress = Progress(
    counters: Counters, starved: Starved, swept: set<string>, selected: seq<TaskInstance>)

  function Advance(dags: Dags, p: Progress, r: TaskInstance): Progress {
    var f := p.starved;
    match Examine(dags, p.counters, r)
    case NoSuchPool | PoolFull => p.(starved := f.(pools := f.pools + {r.pool}))
    case LargerThanPool | NoRoom | TaskFull => p.(starved := f.(tasks := f.tasks + {TaskOf(r)}))
    case DagFull => p.(starved := f.(dags := f.dags + {r.key.dag}))
    case MissingDag => p.(swept := p.swept + {r.key.dag})
    case Selected => p.(counters := Charge(p.counters, r), selected := p.selected + [r])
  }

  function ExamineAll(dags: Dags, p: Progress, window: seq<TaskInstance>): Progress
    decreases |window|
  {
    if window == [] then p else ExamineAll(dags, Advance(dags, p, window[0]), window[1..])
  }

  /** What the next query leaves out: starved rows, and rows that are no longer SCHEDULED. */
  function Barred(p: Progress): Starved {
    Starved(p.starved.pools, p.starved.dags + p.swept, p.starved.tasks)
  }

  function Window(p: Progress, cands: seq<TaskInstance>, maxTis: nat): seq<TaskInstance> {
    Limit(UnstarvedRows(Barred(p), cands), maxTis)
  }

  /** found_new_filters: some starved set has more members than before the pass. */
  predicate Grew(f: Starved, g: Starved) {
    |g.pools| > |f.pools| || |g.dags| > |f.dags| || |g.tasks| > |f.tasks|
  }

  predicate Within(f: Starved, g: Starved) {
    f.pools <= g.pools && f.dags <= g.dags && f.tasks <= g.tasks
  }

  /** The loop goes on: nothing selected, the window was full, and a filter is new. */
  predicate GoesOn(p: Progress, next: Progress, window: seq<TaskInstance>, maxTis: nat) {
    next.selected == [] && |window| >= maxTis && Grew(p.starved, next.starved)
  }

  function Passes(dags: Dags, cands: seq<TaskInstance>, maxTis: nat, p: Progress): Progress
    decreases |UnstarvedRows(Barred(p), cands)|
  {
    var window := Window(p, cands, maxTis);
    if window == [] then p
    else
      var next := ExamineAll(dags, p, window);
      if GoesOn(p, next, window, maxTis) then
        PassShrinks(dags, cands, maxTis, p);
        Passes(dags, cands, maxTis, next)
      else next
  }

  function PassCount(dags: Dags, cands: seq<TaskInstance>, maxTis: nat, p: Progress): nat
    decreases |UnstarvedRows(Barred(p), cands)|
  {
    var window := Window(p, cands, maxTis);
    if window == [] then 1
    else
      var next := ExamineAll(dags, p, window);
      if GoesOn(p, next, window, maxTis) then
        PassShrinks(dags, cands, maxTis, p);
        1 + PassCount(dags, cands, maxTis, next)
      else 1
  }

  function Start(c: Counters): Progress {
    Progress(c, Starved(set n | n in c.pools && c.pools[n].open <= 0, {}, {}), {}, [])
  }

  function FreeSlots(pools: map<string, PoolStats>, names: seq<string>): (free: nat)
    requires forall n :: n in names ==> n in pools
    ensures free == 0 <==> forall n :: n in names ==> pools[n].open <= 0
  {
    if names == [] then 0
    else (if pools[names[0]].open > 0 then pools[names[0]].open else 0) + FreeSlots(pools, names[1..])
  }

  function Min(a: nat, b: nat): nat {
    if a <= b then a else b
  }

  /** The whole selection, with the early exit when no pool has a free slot. */
  function Allocate(dags: Dags, c: Counters, names: seq<string>, cands: seq<TaskInstance>, maxTis: nat): Progress
    requires forall n :: n in names ==> n in c.pools
  {
    var free := FreeSlots(c.pools, names);
    if free == 0 then Start(c) else Passes(dags, cands, Min(maxTis, free), Start(c))
  }

  // ----- What admits a row, and what a rejected one bars -----

  /** The pool has run out, or does not exist. */
  predicate PoolIsOut(c: Counters, r: TaskInstance) {
    r.pool !in c.pools || c.pools[r.pool].open <= 0
  }

  /** The row asks for more slots than its pool has, in all or open. */
  predicate AsksTooMuch(c: Counters, r: TaskInstance)
    requires r.pool in c.pools
  {
    r.poolSlots > c.pools[r.pool].total || r.poolSlots > c.pools[r.pool].open
  }

  /** The DAG has as many queued and running tasks as it may. */
  predicate DagIsFull(dags: Dags, c: Counters, r: TaskInstance)
    requires r.key.dag in dags
  {
    (if r.key.dag in c.dagActive then c.dagActive[r.key.dag] else 0) >= dags[r.key.dag].maxActiveTasks
  }

  /** The DAG has task limits, so its serialized form is needed, and is not there. */
  predicate DagIsMissing(dags: Dags, r: TaskInstance)
    requires r.key.dag in dags
  {
    dags[r.key.dag].hasTaskLimits && dags[r.key.dag].serialized == None
  }

  /** The task has a limit, and as many queued and running instances. */
  predicate TaskIsFull(dags: Dags, c: Counters, r: TaskInstance)
    requires r.key.dag in dags
  {
    && dags[r.key.dag].hasTaskLimits && dags[r.key.dag].serialized.Some?
    && r.key.task in dags[r.key.dag].serialized.value && dags[r.key.dag].serialized.value[r.key.task].Some?
    && var t := (r.key.dag, r.key.task);
       (if t in c.taskActive then c.taskActive[t] else 0) >= dags[r.key.dag].serialized.value[r.key.task].value
  }

  /** A row of a known DAG is admitted exactly if none of the five holds. */
  lemma AdmitsExactly(dags: Dags, c: Counters, r: TaskInstance)
    requires r.key.dag in dags
    ensures Admits(dags, c, r) <==>
      !PoolIsOut(c, r) && !AsksTooMuch(c, r) && !DagIsFull(dags, c, r) && !DagIsMissing(dags, r) && !TaskIsFull(dags, c, r)
  {
  }

  /**
   * Which rows a rejected row bars from the next queries: those of its pool, if that is out; those of its
   * DAG, if that is full or missing; else those of its task in its DAG.
   */
  predicate Bars(dags: Dags, c: Counters, r: TaskInstance, x: TaskInstance)
    requires r.key.dag in dags
  {
    if PoolIsOut(c, r) then x.pool == r.pool
    else if AsksTooMuch(c, r) then x.key.dag == r.key.dag && x.key.task == r.key.task
    else if DagIsFull(dags, c, r) || DagIsMissing(dags, r) then x.key.dag == r.key.dag
    else x.key.dag == r.key.dag && x.key.task == r.key.task
  }

  predicate BarredBySome(dags: Dags, c: Counters, w: seq<TaskInstance>, x: TaskInstance)
    requires forall r :: r in w ==> r.key.dag in dags
  {
    exists r :: r in w && Bars(dags, c, r, x)
  }

  lemma OneRowBars(dags: Dags, p: Progress, r: TaskInstance, x: TaskInstance)
    requires r.key.dag in dags && !Admits(dags, p.counters, r)
    ensures var q := Advance(dags, p, r);
      && q.counters == p.counters && q.selected == p.selected
      && (Unstarved(Barred(q), x) <==> Unstarved(Barred(p), x) && !Bars(dags, p.counters, r, x))
  {
  }

  /** After a pass that selects nothing, the next query leaves out exactly what it left out before and what a row of the window bars. */
  lemma {:induction false} WhatAPassBars(dags: Dags, p: Progress, w: seq<TaskInstance>, x: TaskInstance)
    requires (forall r :: r in w ==> r.key.dag in dags) && forall r :: r in w ==> !Admits(dags, p.counters, r)
    ensures Unstarved(Barred(ExamineAll(dags, p, w)), x)
       <==> Unstarved(Barred(p), x) && !BarredBySome(dags, p.counters, w, x)
    decreases |w|
  {
    if w != [] {
      assert w[0] in w;
      OneRowBars(dags, p, w[0], x);
      WhatAPassBars(dags, Advance(dags, p, w[0]), w[1..], x);
      assert forall r :: r in w <==> r == w[0] || r in w[1..];
    }
  }

  // ----- Termination -----

  lemma {:induction false} ExamineAllMonotone(dags: Dags, p: Progress, window: seq<TaskInstance>)
    ensures var q := ExamineAll(dags, p, window);
      Within(p.starved, q.starved) && p.swept <= q.swept && p.selected <= q.selected
    decreases |window|
  {
    if window != [] {
      ExamineAllMonotone(dags, Advance(dags, p, window[0]), window[1..]);
    }
  }

  /** A filter that a pass adds comes from a row of its window. */
  lemma {:induction false} NewFilterHitsWindow(dags: Dags, p: Progress, window: seq<TaskInstance>) returns (r: TaskInstance)
    requires ExamineAll(dags, p, window).starved != p.starved
    ensures r in window && !Unstarved(ExamineAll(dags, p, window).starved, r)
    decreases |window|
  {
    var q := Advance(dags, p, window[0]);
    if q.starved != p.starved {
      r := window[0];
      ExamineAllMonotone(dags, q, window[1..]);
    } else {
      r := NewFilterHitsWindow(dags, q, window[1..]);
    }
  }

  lemma Smaller<T>(a: set<T>, b: set<T>)
    requires a <= b
    ensures |a| <= |b| && (|a| < |b| <==> a != b)
  {
    assert b == a + (b - a);
    assert |b| == |a| + |b - a|;
  }

  /** Comparing sizes, as the source does, is the same as comparing the sets. */
  lemma GrewIffChanged(f: Starved, g: Starved)
    requires Within(f, g)
    ensures Grew(f, g) <==> f != g
  {
    Smaller(f.pools, g.pools);
    Smaller(f.dags, g.dags);
    Smaller(f.tasks, g.tasks);
  }

  lemma {:induction false} TighterFilterKeepsFewer(f: Starved, g: Starved, rows: seq<TaskInstance>)
    requires Within(f, g)
    ensures |UnstarvedRows(g, rows)| <= |UnstarvedRows(f, rows)|
    ensures (exists r :: r in rows && Unstarved(f, r) && !Unstarved(g, r)) ==>
              |UnstarvedRows(g, rows)| < |UnstarvedRows(f, rows)|
  {
    if rows != [] {
      TighterFilterKeepsFewer(f, g, rows[1..]);
      if r :| r in rows && Unstarved(f, r) && !Unstarved(g, r) {
        assert r == rows[0] || r in rows[1..];
      }
    }
  }

  /** Every pass but the last leaves strictly fewer candidates for the next one. */
  lemma PassShrinks(dags: Dags, cands: seq<TaskInstance>, maxTis: nat, p: Progress)
    requires var w := Window(p, cands, maxTis); GoesOn(p, ExamineAll(dags, p, w), w, maxTis)
    ensures var q := ExamineAll(dags, p, Window(p, cands, maxTis));
      |UnstarvedRows(Barred(q), cands)| < |UnstarvedRows(Barred(p), cands)|
  {
    var w := Window(p, cands, maxTis);
    var q := ExamineAll(dags, p, w);
    ExamineAllMonotone(dags, p, w);
    GrewIffChanged(p.starved, q.starved);
    var r := NewFilterHitsWindow(dags, p, w);
    assert r in UnstarvedRows(Barred(p), cands);
    TighterFilterKeepsFewer(Barred(p), Barred(q), cands);
  }

  function PoolsOf(rows: seq<TaskInstance>): set<string> { set r | r in rows :: r.pool }
  function DagsOf(rows: seq<TaskInstance>): set<string> { set r | r in rows :: r.key.dag }
  function TasksOf(rows: seq<TaskInstance>): set<TaskId> { set r | r in rows :: TaskOf(r) }

  /** Names among the candidates that no filter mentions yet. */
  function Unmentioned(cands: seq<TaskInstance>, f: Starved): nat {
    |PoolsOf(cands) - f.pools| + |DagsOf(cands) - f.dags| + |TasksOf(cands) - f.tasks|
  }

  lemma PassMentionsMore(dags: Dags, cands: seq<TaskInstance>, maxTis: nat, p: Progress)
    requires var w := Window(p, cands, maxTis); GoesOn(p, ExamineAll(dags, p, w), w, maxTis)
    ensures Unmentioned(cands, ExamineAll(dags, p, Window(p, cands, maxTis)).starved) < Unmentioned(cands, p.starved)
  {
    var w := Window(p, cands, maxTis);
    var q := ExamineAll(dags, p, w);
    ExamineAllMonotone(dags, p, w);
    GrewIffChanged(p.starved, q.starved);
    var r := NewFilterHitsWindow(dags, p, w);
    assert r in UnstarvedRows(Barred(p), cands) && r in cands;
    Smaller(PoolsOf(cands) - q.starved.pools, PoolsOf(cands) - p.starved.pools);
    Smaller(DagsOf(cands) - q.starved.dags, DagsOf(cands) - p.starved.dags);
    Smaller(TasksOf(cands) - q.starved.tasks, TasksOf(cands) - p.starved.tasks);
    assert r.pool in PoolsOf(cands) && r.key.dag in DagsOf(cands) && TaskOf(r) in TasksOf(cands);
  }

  /** The unbounded outer loop makes at most one pass more than there are names to filter on. */
  lemma {:induction false} PassBound(dags: Dags, cands: seq<TaskInstance>, maxTis: nat, p: Progress)
    ensures PassCount(dags, cands, maxTis, p) <= 1 + Unmentioned(cands, p.starved)
    ensures Unmentioned(cands, p.starved) <= |PoolsOf(cands)| + |DagsOf(cands)| + |TasksOf(cands)|
    decreases |UnstarvedRows(Barred(p), cands)|
  {
    var w := Window(p, cands, maxTis);
    var q := ExamineAll(dags, p, w);
    if w != [] && GoesOn(p, q, w, maxTis) {
      PassShrinks(dags, cands, maxTis, p);
      PassMentionsMore(dags, cands, maxTis, p);
      PassBound(dags, cands, maxTis, q);
    }
    Smaller(PoolsOf(cands) - p.starved.pools, PoolsOf(cands));
    Smaller(DagsOf(cands) - p.starved.dags, DagsOf(cands));
    Smaller(TasksOf(cands) - p.starved.tasks, TasksOf(cands));
  }

  // ----- The reference: one greedy pass over all candidates -----

  function Greedy(dags: Dags, c: Counters, rows: seq<TaskInstance>): seq<TaskInstance>
    decreases |rows|
  {
    if rows == [] then []
    else if Admits(dags, c, rows[0]) then [rows[0]] + Greedy(dags, Charge(c, rows[0]), rows[1..])
    else Greedy(dags, c, rows[1..])
  }

  /** The counters once the rows of `sel` have been charged. */
  function After(c: Counters, sel: seq<TaskInstance>): Counters
    requires forall r :: r in sel ==> r.pool in c.pools
    decreases |sel|
  {
    if sel == [] then c else After(Charge(c, sel[0]), sel[1..])
  }

  ghost predicate Tighter(c: Counters, d: Counters) {
    && c.pools.Keys == d.pools.Keys
    && (forall n :: n in c.pools ==> c.pools[n].total == d.pools[n].total && d.pools[n].open <= c.pools[n].open)
    && (forall x :: Count(c.dagActive, x) <= Count(d.dagActive, x))
    && (forall x :: Count(c.taskActive, x) <= Count(d.taskActive, x))
  }

  /** A row that is turned down stays turned down as the counters fill up. */
  lemma RejectionIsFinal(dags: Dags, c: Counters, d: Counters, r: TaskInstance)
    requires Tighter(c, d) && Admits(dags, d, r)
    ensures Admits(dags, c, r)
  {
  }

  lemma {:induction false} GreedySelects(dags: Dags, c: Counters, rows: seq<TaskInstance>)
    ensures forall r :: r in Greedy(dags, c, rows) ==> r in rows && r.pool in c.pools
    decreases |rows|
  {
    if rows != [] {
      GreedySelects(dags, if Admits(dags, c, rows[0]) then Charge(c, rows[0]) else c, rows[1..]);
    }
  }

  lemma {:induction false} ChargingTightens(c: Counters, sel: seq<TaskInstance>)
    requires forall r :: r in sel ==> r.pool in c.pools
    ensures Tighter(c, After(c, sel))
    decreases |sel|
  {
    if sel != [] {
      ChargingTightens(Charge(c, sel[0]), sel[1..]);
    }
  }

  /** A pass selects what the greedy pass over its window selects, and leaves its counters. */
  lemma {:induction false} PassIsGreedy(dags: Dags, p: Progress, window: seq<TaskInstance>)
    ensures var g := Greedy(dags, p.counters, window); var q := ExamineAll(dags, p, window);
      && q.selected == p.selected + g
      && (forall r :: r in g ==> r.pool in p.counters.pools)
      && q.counters == After(p.counters, g)
    decreases |window|
  {
    if window != [] {
      PassIsGreedy(dags, Advance(dags, p, window[0]), window[1..]);
      if Admits(dags, p.counters, window[0]) {
        var rest := Greedy(dags, Charge(p.counters, window[0]), window[1..]);
        assert ([window[0]] + rest)[1..] == rest;
      }
    }
  }

  lemma {:induction false} GreedyConcat(dags: Dags, c: Counters, a: seq<TaskInstance>, b: seq<TaskInstance>)
    ensures forall r :: r in Greedy(dags, c, a) ==> r.pool in c.pools
    ensures Greedy(dags, c, a + b) == Greedy(dags, c, a) + Greedy(dags, After(c, Greedy(dags, c, a)), b)
    decreases |a|
  {
    if a == [] {
      assert a + b == b;
    } else {
      assert (a + b)[1..] == a[1..] + b;
      var d := if Admits(dags, c, a[0]) then Charge(c, a[0]) else c;
      GreedyConcat(dags, d, a[1..], b);
      var rest := Greedy(dags, d, a[1..]);
      assert ([a[0]] + rest)[1..] == rest;
    }
  }

  /** Dropping rows that are turned down at the start changes nothing. */
  lemma {:induction false} GreedyIgnoresRejected(dags: Dags, c0: Counters, c: Counters, f: Starved, rows: seq<TaskInstance>)
    requires Tighter(c0, c)
    requires forall r :: r in rows && !Unstarved(f, r) ==> !Admits(dags, c0, r)
    ensures Greedy(dags, c, rows) == Greedy(dags, c, UnstarvedRows(f, rows))
    decreases |rows|
  {
    if rows != [] {
      var u := UnstarvedRows(f, rows[1..]);
      assert ([rows[0]] + u)[1..] == u;
      if Admits(dags, c, rows[0]) {
        RejectionIsFinal(dags, c0, c, rows[0]);
        GreedyIgnoresRejected(dags, c0, Charge(c, rows[0]), f, rows[1..]);
      } else {
        GreedyIgnoresRejected(dags, c0, c, f, rows[1..]);
      }
    }
  }

  lemma {:induction false} GreedyEmptyIff(dags: Dags, c: Counters, rows: seq<TaskInstance>)
    ensures Greedy(dags, c, rows) == [] <==> forall r :: r in rows ==> !Admits(dags, c, r)
    decreases |rows|
  {
    if rows != [] && !Admits(dags, c, rows[0]) {
      GreedyEmptyIff(dags, c, rows[1..]);
    }
  }

  // ----- Refinement -----

  predicate DoesNotFit(v: Verdict) {
    v == LargerThanPool || v == NoRoom
  }

  /**
   * No candidate that could run shares its (dag, task) with one that does not fit its pool.
   * Only then do the filter sets, keyed by (dag, task), leave out nothing that could run.
   */
  predicate NoShadow(dags: Dags, c: Counters, cands: seq<TaskInstance>) {
    forall r, s :: r in cands && s in cands && TaskOf(r) == TaskOf(s) && DoesNotFit(Examine(dags, c, s))
                   ==> !Admits(dags, c, r)
  }

  /** In particular when all rows of one task ask for the same slots of the same pool. */
  lemma UniformTasksCastNoShadow(dags: Dags, c: Counters, cands: seq<TaskInstance>)
    requires forall r, s :: r in cands && s in cands && TaskOf(r) == TaskOf(s)
                            ==> r.pool == s.pool && r.poolSlots == s.poolSlots
    ensures NoShadow(dags, c, cands)
  {
  }

  /** Between passes: nothing selected yet, and the filters only leave out rows that cannot run. */
  predicate Sound(dags: Dags, c0: Counters, cands: seq<TaskInstance>, p: Progress) {
    && p.counters == c0 && p.selected == []
    && (forall r :: r in cands && !Unstarved(Barred(p), r) ==> !Admits(dags, c0, r))
  }

  lemma StartIsSound(dags: Dags, c: Counters, cands: seq<TaskInstance>)
    ensures Sound(dags, c, cands, Start(c))
  {
  }

  lemma {:induction false} PassKeepsSound(dags: Dags, c0: Counters, cands: seq<TaskInstance>, p: Progress, w: seq<TaskInstance>)
    requires NoShadow(dags, c0, cands) && Sound(dags, c0, cands, p)
    requires forall r :: r in w ==> r in cands
    requires ExamineAll(dags, p, w).selected == []
    ensures Sound(dags, c0, cands, ExamineAll(dags, p, w))
    decreases |w|
  {
    if w != [] {
      var q := Advance(dags, p, w[0]);
      ExamineAllMonotone(dags, q, w[1..]);
      assert w[0] in cands;
      assert Sound(dags, c0, cands, q);
      PassKeepsSound(dags, c0, cands, q, w[1..]);
    }
  }

  /** A window is the unstarved part of some prefix of the candidates. */
  lemma {:induction false} WindowIsPrefix(f: Starved, cands: seq<TaskInstance>, k: nat) returns (n: nat)
    requires k <= |UnstarvedRows(f, cands)|
    ensures n <= |cands| && UnstarvedRows(f, cands[..n]) == UnstarvedRows(f, cands)[..k]
    ensures k == |UnstarvedRows(f, cands)| ==> n == |cands|
    decreases |cands|
  {
    if k == |UnstarvedRows(f, cands)| {
      n := |cands|;
      assert cands[..n] == cands;
    } else if k == 0 {
      n := 0;
    } else {
      var m := WindowIsPrefix(f, cands[1..], if Unstarved(f, cands[0]) then k - 1 else k);
      n := m + 1;
      assert cands[..n][1..] == cands[1..][..m];
    }
  }

  const MISSING: set<Verdict> := {MissingDag}

  predicate AllIn(dags: Dags, c: Counters, vs: set<Verdict>, rows: seq<TaskInstance>) {
    forall r :: r in rows ==> Examine(dags, c, r) in vs
  }

  /** A pass that selects nothing and finds no new filter met missing DAGs only. */
  lemma {:induction false} StuckPassIsAllMissing(dags: Dags, p: Progress, w: seq<TaskInstance>)
    requires p.selected == [] && ExamineAll(dags, p, w).selected == []
    requires ExamineAll(dags, p, w).starved == p.starved
    requires forall r :: r in w ==> Unstarved(p.starved, r)
    ensures AllIn(dags, p.counters, MISSING, w)
    decreases |w|
  {
    if w != [] {
      var q := Advance(dags, p, w[0]);
      ExamineAllMonotone(dags, q, w[1..]);
      assert Unstarved(p.starved, w[0]);
      StuckPassIsAllMissing(dags, q, w[1..]);
    }
  }

  /** How many rows get one of the verdicts under the initial counters. */
  function HowMany(dags: Dags, c: Counters, vs: set<Verdict>, rows: seq<TaskInstance>): nat {
    if rows == [] then 0
    else (if Examine(dags, c, rows[0]) in vs then 1 else 0) + HowMany(dags, c, vs, rows[1..])
  }

  lemma {:induction false} HowManyUnstarved(dags: Dags, c: Counters, vs: set<Verdict>, f: Starved, cands: seq<TaskInstance>)
    ensures HowMany(dags, c, vs, UnstarvedRows(f, cands)) <= HowMany(dags, c, vs, cands)
  {
    if cands != [] {
      HowManyUnstarved(dags, c, vs, f, cands[1..]);
      var u := UnstarvedRows(f, cands[1..]);
      assert ([cands[0]] + u)[1..] == u;
    }
  }

  lemma {:induction false} HowManyOfPrefix(dags: Dags, c: Counters, vs: set<Verdict>, rows: seq<TaskInstance>, k: nat)
    requires k <= |rows| && AllIn(dags, c, vs, rows[..k])
    ensures k <= HowMany(dags, c, vs, rows)
    decreases k
  {
    if k > 0 {
      assert rows[..k][0] == rows[0];
      assert rows[1..][..k - 1] == rows[..k][1..];
      HowManyOfPrefix(dags, c, vs, rows[1..], k - 1);
    }
  }

  /**
   * The multi-pass loop computes the greedy pass over a prefix of the candidates; when it comes back
   * empty that prefix is everything, unless a full window of missing-DAG rows stopped it.
   */
  lemma {:induction false} PassesRefineGreedy(dags: Dags, c0: Counters, cands: seq<TaskInstance>, maxTis: nat, p: Progress)
    returns (n: nat)
    requires NoShadow(dags, c0, cands) && Sound(dags, c0, cands, p)
    ensures n <= |cands| && Passes(dags, cands, maxTis, p).selected == Greedy(dags, c0, cands[..n])
    ensures (Passes(dags, cands, maxTis, p).selected == [] && HowMany(dags, c0, MISSING, cands) < maxTis) ==> n == |cands|
    decreases |UnstarvedRows(Barred(p), cands)|
  {
    var all := UnstarvedRows(Barred(p), cands);
    var w := Window(p, cands, maxTis);
    var q := ExamineAll(dags, p, w);
    if w == [] {
      n := if maxTis == 0 then 0 else |cands|;
      assert cands[..|cands|] == cands;
      GreedyIgnoresRejected(dags, c0, c0, Barred(p), cands);
    } else if GoesOn(p, q, w, maxTis) {
      PassShrinks(dags, cands, maxTis, p);
      PassKeepsSound(dags, c0, cands, p, w);
      n := PassesRefineGreedy(dags, c0, cands, maxTis, q);
    } else {
      n := WindowIsPrefix(Barred(p), cands, |w|);
      assert w == all[..|w|];
      PassIsGreedy(dags, p, w);
      GreedyIgnoresRejected(dags, c0, c0, Barred(p), cands[..n]);
      if q.selected == [] && |w| >= maxTis {
        ExamineAllMonotone(dags, p, w);
        GrewIffChanged(p.starved, q.starved);
        StuckPassIsAllMissing(dags, p, w);
        HowManyOfPrefix(dags, c0, MISSING, all, |w|);
        HowManyUnstarved(dags, c0, MISSING, Barred(p), cands);
      }
    }
  }

  /** The list returned is a prefix of what one greedy pass over all candidates selects. */
  lemma SelectionIsGreedyPrefix(dags: Dags, c: Counters, names: seq<string>, cands: seq<TaskInstance>, maxTis: nat)
    requires forall n :: n in names ==> n in c.pools
    requires NoShadow(dags, c, cands)
    ensures Allocate(dags, c, names, cands, maxTis).selected <= Greedy(dags, c, cands)
  {
    var free := FreeSlots(c.pools, names);
    if free != 0 {
      StartIsSound(dags, c, cands);
      var n := PassesRefineGreedy(dags, c, cands, Min(maxTis, free), Start(c));
      GreedyOfPrefix(dags, c, cands, n);
    }
  }

  lemma GreedyOfPrefix(dags: Dags, c: Counters, rows: seq<TaskInstance>, n: nat)
    requires n <= |rows|
    ensures Greedy(dags, c, rows[..n]) <= Greedy(dags, c, rows)
  {
    GreedyConcat(dags, c, rows[..n], rows[n..]);
    assert rows[..n] + rows[n..] == rows;
  }

  predicate NoneAdmitted(dags: Dags, c: Counters, cands: seq<TaskInstance>) {
    forall r :: r in cands ==> !Admits(dags, c, r)
  }

  /** `names` lists the pools. */
  ghost predicate Lists(names: seq<string>, c: Counters) {
    forall n :: n in names <==> n in c.pools
  }

  lemma FitNeedsFreeSlot(dags: Dags, c: Counters, names: seq<string>, r: TaskInstance)
    requires forall n :: n in names ==> n in c.pools
    requires r.pool in names && Admits(dags, c, r)
    ensures FreeSlots(c.pools, names) > 0
  {
  }

  /** The passes alone: an empty selection means that nothing fits. */
  lemma PassesConserveWork(dags: Dags, c: Counters, cands: seq<TaskInstance>, maxTis: nat)
    requires NoShadow(dags, c, cands) && HowMany(dags, c, MISSING, cands) < maxTis
    ensures Passes(dags, cands, maxTis, Start(c)).selected == [] <==> NoneAdmitted(dags, c, cands)
  {
    StartIsSound(dags, c, cands);
    var n := PassesRefineGreedy(dags, c, cands, maxTis, Start(c));
    GreedyOfPrefix(dags, c, cands, n);
    GreedyEmptyIff(dags, c, cands);
    if n == |cands| {
      assert cands[..n] == cands;
    }
  }

  /**
   * Work conservation: with fewer missing-DAG rows than the window holds, the allocator comes back
   * empty exactly when no candidate fits the initial counters.
   */
  lemma WorkConservation(dags: Dags, c: Counters, names: seq<string>, cands: seq<TaskInstance>, maxTis: nat)
    requires Lists(names, c) && NoShadow(dags, c, cands)
    requires HowMany(dags, c, MISSING, cands) < maxTis
    requires FreeSlots(c.pools, names) == 0 || HowMany(dags, c, MISSING, cands) < FreeSlots(c.pools, names)
    ensures Allocate(dags, c, names, cands, maxTis).selected == [] <==> NoneAdmitted(dags, c, cands)
  {
    var free := FreeSlots(c.pools, names);
    if free == 0 {
      forall r | r in cands
        ensures !Admits(dags, c, r)
      {
        if Admits(dags, c, r) {
          FitNeedsFreeSlot(dags, c, names, r);
        }
      }
    } else {
      PassesConserveWork(dags, c, cands, Min(maxTis, free));
    }
  }

  lemma {:induction false} NothingMissing(dags: Dags, c: Counters, cands: seq<TaskInstance>)
    requires forall r :: r in cands ==> !Missing(dags, r.key.dag)
    ensures HowMany(dags, c, MISSING, cands) == 0
  {
    if cands != [] {
      NothingMissing(dags, c, cands[1..]);
    }
  }

  lemma {:induction false} AllUnstarved(f: Starved, rows: seq<TaskInstance>, k: nat)
    requires k <= |rows| && forall r :: r in rows[..k] ==> Unstarved(f, r)
    ensures UnstarvedRows(f, rows)[..Min(k, |UnstarvedRows(f, rows)|)] == rows[..k]
    decreases k
  {
    if k > 0 {
      assert rows[..k] == [rows[0]] + rows[1..][..k - 1];
      assert rows[0] in rows[..k];
      AllUnstarved(f, rows[1..], k - 1);
    }
  }

  lemma {:induction false} MissingPassSelectsNothing(dags: Dags, p: Progress, w: seq<TaskInstance>)
    requires AllIn(dags, p.counters, MISSING, w)
    ensures ExamineAll(dags, p, w).selected == p.selected && ExamineAll(dags, p, w).starved == p.starved
    decreases |w|
  {
    if w != [] {
      assert w[0] in w;
      MissingPassSelectsNothing(dags, Advance(dags, p, w[0]), w[1..]);
    }
  }

  /** With a window's worth of missing-DAG rows in front, the loop stops in its first pass. */
  lemma MissingRowsFirst(dags: Dags, c: Counters, cands: seq<TaskInstance>, maxTis: nat)
    requires 0 < maxTis <= |cands| && AllIn(dags, c, MISSING, cands[..maxTis])
    ensures Passes(dags, cands, maxTis, Start(c)).selected == []
  {
    forall r | r in cands[..maxTis]
      ensures Unstarved(Barred(Start(c)), r)
    {
      assert Examine(dags, c, r) == MissingDag;
    }
    AllUnstarved(Barred(Start(c)), cands, maxTis);
    var w := Window(Start(c), cands, maxTis);
    assert w == cands[..maxTis];
    MissingPassSelectsNothing(dags, Start(c), w);
  }

  lemma SameRows(a: seq<TaskInstance>, b: seq<TaskInstance>)
    requires multiset(a) == multiset(b)
    ensures forall r :: r in a <==> r in b
  {
    assert forall r :: r in a <==> r in multiset(a);
    assert forall r :: r in b <==> r in multiset(b);
  }
}
