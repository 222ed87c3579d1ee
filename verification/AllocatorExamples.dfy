/** Inputs on which the allocator does not do what the single greedy pass would. */
module AllocatorExamples {
  import opened Options
  import opened RunStates
  import opened TaskTable
  import opened SlotAllocator

  function SampleRow(dag: string, task: string, run: string, slots: Slots): TaskInstance {
    TaskInstance(Key(dag, task, run, -1), "pool", slots, 1, Scheduled, 0, ScheduledRun, RunRunning)
  }

  /** One row of a missing DAG ahead, window of one: the loop stops, and a row that fits is never examined. */
  lemma MissingDagHidesWork() returns (dags: Dags, c: Counters, cands: seq<TaskInstance>)
    ensures Lists(["pool"], c) && NoShadow(dags, c, cands)
    ensures cands == [SampleRow("gone", "a", "r", 1), SampleRow("here", "b", "r", 1)]
    ensures Admits(dags, c, cands[1]) && Allocate(dags, c, ["pool"], cands, 1).selected == []
  {
    dags := map["gone" := DagModel(false, 16, true, None), "here" := DagModel(false, 16, false, None)];
    c := Counters(map["pool" := PoolStats(8, 8)], map[], map[]);
    cands := [SampleRow("gone", "a", "r", 1), SampleRow("here", "b", "r", 1)];
    assert cands[..1] == [cands[0]];
    assert FreeSlots(c.pools, ["pool"]) == 8;
    MissingRowsFirst(dags, c, cands, 1);
  }

  /**
   * Two rows of one task that ask for different slots, with a window of one: the row that does not fit
   * starves the task, so the row that fits is passed over for a later one.
   */
  lemma ShadowedRowIsPassedOver(dags: Dags, p: Progress, x: TaskInstance, y: TaskInstance, z: TaskInstance)
    requires p.selected == [] && p.swept == {}
    requires Unstarved(p.starved, x) && Unstarved(p.starved, y) && Unstarved(p.starved, z)
    requires TaskOf(x) == TaskOf(y) != TaskOf(z)
    requires DoesNotFit(Examine(dags, p.counters, x)) && Admits(dags, p.counters, y) && Admits(dags, p.counters, z)
    ensures Passes(dags, [x, y, z], 1, p).selected == [z]
    ensures Greedy(dags, p.counters, [x, y, z]) != [] && Greedy(dags, p.counters, [x, y, z])[0] == y
  {
    var cands := [x, y, z];
    assert cands[1..] == [y, z];
    var q := Advance(dags, p, x);
    FirstStarvesTask(dags, p, cands);
    LastOneLeft(dags, q, x, y, z);
  }

  lemma FirstStarvesTask(dags: Dags, p: Progress, cands: seq<TaskInstance>)
    requires p.selected == [] && cands != [] && Unstarved(Barred(p), cands[0])
    requires DoesNotFit(Examine(dags, p.counters, cands[0]))
    ensures Passes(dags, cands, 1, p) == Passes(dags, cands, 1, Advance(dags, p, cands[0]))
  {
    var x := cands[0];
    var q := Advance(dags, p, x);
    assert Window(p, cands, 1) == [x];
    assert ExamineAll(dags, p, [x]) == q;
    assert TaskOf(x) in q.starved.tasks && TaskOf(x) !in p.starved.tasks;
    GrewIffChanged(p.starved, q.starved);
    PassShrinks(dags, cands, 1, p);
  }

  lemma LastOneLeft(dags: Dags, q: Progress, x: TaskInstance, y: TaskInstance, z: TaskInstance)
    requires !Unstarved(Barred(q), x) && !Unstarved(Barred(q), y) && Unstarved(Barred(q), z)
    requires q.selected == [] && Admits(dags, q.counters, z)
    ensures Passes(dags, [x, y, z], 1, q).selected == [z]
  {
    var cands := [x, y, z];
    assert cands[1..] == [y, z] && [y, z][1..] == [z];
    assert UnstarvedRows(Barred(q), [z]) == [z];
    assert UnstarvedRows(Barred(q), [y, z]) == [z];
    assert Window(q, cands, 1) == [z];
    assert ExamineAll(dags, q, [z]) == Advance(dags, q, z);
  }

  lemma ShadowBreaksRefinement() returns (dags: Dags, c: Counters, cands: seq<TaskInstance>)
    ensures Lists(["pool"], c) && HowMany(dags, c, MISSING, cands) == 0
    ensures cands == [SampleRow("d", "a", "r1", 3), SampleRow("d", "a", "r2", 1), SampleRow("d", "b", "r1", 1)]
    ensures !(Allocate(dags, c, ["pool"], cands, 1).selected <= Greedy(dags, c, cands))
  {
    dags := map["d" := DagModel(false, 16, false, None)];
    c := Counters(map["pool" := PoolStats(4, 2)], map[], map[]);
    var x, y, z := SampleRow("d", "a", "r1", 3), SampleRow("d", "a", "r2", 1), SampleRow("d", "b", "r1", 1);
    cands := [x, y, z];
    assert FreeSlots(c.pools, ["pool"]) == 2;
    assert x.key.task != z.key.task;
    ShadowedRowIsPassedOver(dags, Start(c), x, y, z);
    NothingMissing(dags, c, cands);
    assert TaskOf(y) != TaskOf(z);
  }
}
