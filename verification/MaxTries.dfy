/** Migration 0023: the batched rewrite of max_tries and try_number, and its undoing. */
module MaxTries {
  import opened Options

  datatype Row = Row(dag: string, task: string, maxTries: int, tryNumber: int)

  datatype Direction = Up | Down

  /** task.retries of the tasks the DAG bag knows. */
  type Retries = map<(string, string), int>

  const BATCH_SIZE := 5000

  function Find(bag: Retries, r: Row): Option<int> {
    if (r.dag, r.task) in bag then Some(bag[(r.dag, r.task)]) else None
  }

  /** What the loop's query counts and selects. */
  predicate Pending(dir: Direction, r: Row) {
    if dir == Up then r.maxTries == -1 else r.maxTries != -1
  }

  function Upgraded(bag: Retries, r: Row): Row {
    match Find(bag, r)
    case None => r.(maxTries := r.tryNumber)
    case Some(retries) => if retries != 0 then r.(maxTries := retries) else r.(maxTries := r.tryNumber)
  }

  function Max(a: int, b: int): int {
    if a < b then b else a
  }

  function Downgraded(bag: Retries, r: Row): Row {
    match Find(bag, r)
    case None => r.(tryNumber := 0, maxTries := -1)
    case Some(retries) => r.(tryNumber := Max(0, retries - (r.maxTries - r.tryNumber)), maxTries := -1)
  }

  function Rewritten(dir: Direction, bag: Retries, r: Row): Row {
    if dir == Up then Upgraded(bag, r) else Downgraded(bag, r)
  }

  /** A row the query selects again after its rewrite. */
  predicate Stubborn(dir: Direction, bag: Retries, r: Row) {
    Pending(dir, r) && Pending(dir, Rewritten(dir, bag, r))
  }

  /** No row is selected again after its rewrite. */
  predicate Yields(dir: Direction, bag: Retries, rows: seq<Row>) {
    forall p :: 0 <= p < |rows| ==> !Stubborn(dir, bag, rows[p])
  }

  function Todo(dir: Direction, rows: seq<Row>): set<nat> {
    set p: nat | p < |rows| && Pending(dir, rows[p])
  }

  function BatchesFor(n: nat): nat {
    (n + BATCH_SIZE - 1) / BATCH_SIZE
  }

  /** The table after the loop: each pending row rewritten once, the others as they were. */
  predicate Settled(dir: Direction, bag: Retries, before: seq<Row>, after: seq<Row>) {
    && |after| == |before|
    && forall p :: 0 <= p < |before| ==>
         after[p] == if Pending(dir, before[p]) then Rewritten(dir, bag, before[p]) else before[p]
  }

  // ----- The loop as a sequence of passes -----

  /** One pass rewrites some LIMIT of the pending rows: the query gives no order. */
  predicate Pass(dir: Direction, bag: Retries, before: seq<Row>, after: seq<Row>, batch: set<nat>) {
    && batch <= Todo(dir, before)
    && |batch| == (if |Todo(dir, before)| < BATCH_SIZE then |Todo(dir, before)| else BATCH_SIZE)
    && |after| == |before|
    && forall p: nat :: p < |before| ==>
         after[p] == if p in batch then Rewritten(dir, bag, before[p]) else before[p]
  }

  /** `h[k]` is the table after k passes, `batches[k]` the rows that pass k takes. */
  predicate Passes(dir: Direction, bag: Retries, h: seq<seq<Row>>, batches: seq<set<nat>>) {
    && |h| == |batches| + 1
    && forall k :: 0 <= k < |batches| ==> Pass(dir, bag, h[k], h[k + 1], batches[k])
  }

  lemma PassTakesItsBatch(dir: Direction, bag: Retries, before: seq<Row>, after: seq<Row>, batch: set<nat>)
    requires Pass(dir, bag, before, after, batch)
    requires Yields(dir, bag, before)
    ensures Todo(dir, after) == Todo(dir, before) - batch
    ensures |Todo(dir, after)| == |Todo(dir, before)| - |batch|
    ensures Yields(dir, bag, after)
  {
  }

  /** A stubborn row is pending after every pass. */
  lemma {:induction false} StubbornRowStays(
      dir: Direction, bag: Retries, h: seq<seq<Row>>, batches: seq<set<nat>>, k: nat, p: nat)
    requires Passes(dir, bag, h, batches) && k < |h|
    requires p < |h[0]| && Stubborn(dir, bag, h[0][p])
    ensures p < |h[k]| && Stubborn(dir, bag, h[k][p]) && p in Todo(dir, h[k])
  {
    if k > 0 {
      StubbornRowStays(dir, bag, h, batches, k - 1, p);
      assert Pass(dir, bag, h[k - 1], h[k], batches[k - 1]);
    }
  }

  /** Without stubborn rows each pass brings the work down by a whole batch, and the rows end up settled. */
  lemma {:induction false} EachPassTakesABatch(
      dir: Direction, bag: Retries, h: seq<seq<Row>>, batches: seq<set<nat>>, k: nat)
    requires Passes(dir, bag, h, batches) && k < |h|
    requires Yields(dir, bag, h[0])
    ensures |Todo(dir, h[k])| == Max(0, |Todo(dir, h[0])| - k * BATCH_SIZE)
    ensures Yields(dir, bag, h[k])
    ensures |h[k]| == |h[0]|
    ensures forall p :: 0 <= p < |h[0]| ==>
      h[k][p] == h[0][p] || (Pending(dir, h[0][p]) && h[k][p] == Rewritten(dir, bag, h[0][p]))
  {
    if k > 0 {
      EachPassTakesABatch(dir, bag, h, batches, k - 1);
      assert Pass(dir, bag, h[k - 1], h[k], batches[k - 1]);
      PassTakesItsBatch(dir, bag, h[k - 1], h[k], batches[k - 1]);
    }
  }

  /**
   * Whatever rows LIMIT picks: the query comes back empty after k passes exactly when no row is stubborn
   * and k covers the pending rows. So the loop ends only then, after BatchesFor(n) passes, and settled.
   */
  lemma LoopEndsIff(dir: Direction, bag: Retries, h: seq<seq<Row>>, batches: seq<set<nat>>, k: nat)
    requires Passes(dir, bag, h, batches) && k < |h|
    ensures Todo(dir, h[k]) == {}
       <==> k >= BatchesFor(|Todo(dir, h[0])|) && Yields(dir, bag, h[0])
    ensures Todo(dir, h[k]) == {} ==> Settled(dir, bag, h[0], h[k])
  {
    if p: nat :| p < |h[0]| && Stubborn(dir, bag, h[0][p]) {
      StubbornRowStays(dir, bag, h, batches, k, p);
    } else {
      EachPassTakesABatch(dir, bag, h, batches, k);
      if Todo(dir, h[k]) == {} {
        forall p: nat | p < |h[0]|
          ensures h[k][p] == if Pending(dir, h[0][p]) then Rewritten(dir, bag, h[0][p]) else h[0][p]
        {
          assert p !in Todo(dir, h[k]);
        }
      }
    }
  }

  /** Stubborn rows in terms of the data: none on the way down; on the way up, a -1 in the value copied. */
  lemma StubbornMeansMinusOne(dir: Direction, bag: Retries, r: Row)
    ensures Stubborn(dir, bag, r) <==>
      dir == Up && r.maxTries == -1
      && match Find(bag, r)
         case Some(retries) => retries == -1 || (retries == 0 && r.tryNumber == -1)
         case None => r.tryNumber == -1
  {
    match Find(bag, r) {
      case Some(retries) => assert Stubborn(Up, bag, r) <==> r.maxTries == -1 && Upgraded(bag, r).maxTries == -1;
      case None =>
    }
  }

  /** A concrete table on which the loop does not end: one task whose retries are -1. */
  lemma MinusOneRetriesNeverEnd(h: seq<seq<Row>>, batches: seq<set<nat>>, k: nat)
    requires Passes(Up, map[("d", "t") := -1], h, batches) && k < |h|
    requires h[0] == [Row("d", "t", -1, 0)]
    ensures 0 in Todo(Up, h[k])
  {
    StubbornRowStays(Up, map[("d", "t") := -1], h, batches, k, 0);
  }

  /** The upgraded max_tries: retries, of a known task that has any; else as many tries as were made. */
  lemma UpgradedMaxTries(bag: Retries, r: Row)
    ensures Upgraded(bag, r).tryNumber == r.tryNumber && Upgraded(bag, r).dag == r.dag && Upgraded(bag, r).task == r.task
    ensures Upgraded(bag, r).maxTries ==
      if (r.dag, r.task) in bag && bag[(r.dag, r.task)] != 0 then bag[(r.dag, r.task)] else r.tryNumber
  {
  }

  /**
   * Downgrading a known task keeps the tries it has left (max_tries less try_number), of its retries as they
   * are now; one with more left than it has retries starts from 0, and so does an unknown one.
   */
  lemma TriesLeftAreKept(bag: Retries, r: Row)
    ensures var d := Downgraded(bag, r); var left := r.maxTries - r.tryNumber;
      && d.maxTries == -1 && d.dag == r.dag && d.task == r.task
      && ((r.dag, r.task) in bag && left <= bag[(r.dag, r.task)] ==> bag[(r.dag, r.task)] - d.tryNumber == left)
      && ((r.dag, r.task) in bag && left > bag[(r.dag, r.task)] ==> d.tryNumber == 0)
      && ((r.dag, r.task) !in bag ==> d.tryNumber == 0)
  {
  }

  // ----- Upgrade, then downgrade -----

  /** The table once the column is added. */
  function Defaulted(rows: seq<Row>): (s: seq<Row>)
    ensures |s| == |rows| && Fresh(s)
    ensures forall p :: 0 <= p < |rows| ==> s[p] == rows[p].(maxTries := -1)
  {
    if rows == [] then [] else [rows[0].(maxTries := -1)] + Defaulted(rows[1..])
  }

  predicate Fresh(rows: seq<Row>) {
    forall p :: 0 <= p < |rows| ==> rows[p].maxTries == -1
  }

  /** The try_number that survives the round trip. */
  function Survivor(bag: Retries, r: Row): int {
    match Find(bag, r)
    case Some(retries) => if retries != 0 then Max(0, r.tryNumber) else 0
    case None => 0
  }

  /** Down after up gives back every row, but for try_number. */
  lemma UpgradeThenDowngrade(bag: Retries, before: seq<Row>, mid: seq<Row>, after: seq<Row>)
    requires Fresh(before) && Settled(Up, bag, before, mid) && Settled(Down, bag, mid, after)
    requires Todo(Up, mid) == {}
    ensures |after| == |before|
    ensures forall p :: 0 <= p < |before| ==> after[p] == before[p].(tryNumber := Survivor(bag, before[p]))
  {
    forall p: nat | p < |before|
      ensures after[p] == before[p].(tryNumber := Survivor(bag, before[p]))
    {
      assert p !in Todo(Up, mid);
    }
  }

  /** Exactly when nothing is lost: a try_number is 0, or not negative on a known task that retries. */
  lemma RestoredIff(bag: Retries, before: seq<Row>, mid: seq<Row>, after: seq<Row>)
    requires Fresh(before) && Settled(Up, bag, before, mid) && Settled(Down, bag, mid, after)
    requires Todo(Up, mid) == {}
    ensures after == before <==>
      forall p :: 0 <= p < |before| ==>
        || before[p].tryNumber == 0
        || (before[p].tryNumber > 0 && Find(bag, before[p]).Some? && Find(bag, before[p]).value != 0)
  {
    UpgradeThenDowngrade(bag, before, mid, after);
    assert forall p :: 0 <= p < |before| ==>
      (after[p] == before[p] <==> Survivor(bag, before[p]) == before[p].tryNumber);
    if after == before {
      forall p | 0 <= p < |before|
        ensures Survivor(bag, before[p]) == before[p].tryNumber
      {
        assert after[p] == before[p];
      }
    }
  }

  // ----- The loops -----

  class TaskInstanceTable {
    var rows: seq<Row>

    constructor (rows: seq<Row>)
      ensures this.rows == rows
    {
      this.rows := rows;
    }

    /** SELECT ... WHERE <pending> LIMIT 5000, as positions in table order. */
    method SelectBatch(dir: Direction) returns (tis: seq<nat>)
      ensures forall k :: 0 <= k < |tis| ==> tis[k] in Todo(dir, rows)
      ensures forall j, k :: 0 <= j < k < |tis| ==> tis[j] < tis[k]
      ensures |tis| == (if |Todo(dir, rows)| < BATCH_SIZE then |Todo(dir, rows)| else BATCH_SIZE)
    {
      tis := [];
      var p := 0;
      while p < |rows| && |tis| < BATCH_SIZE
        invariant 0 <= p <= |rows| && |tis| <= BATCH_SIZE
        invariant forall k :: 0 <= k < |tis| ==> tis[k] in Todo(dir, rows) && tis[k] < p
        invariant forall q :: q in Todo(dir, rows) && q < p ==> q in tis
        invariant forall j, k :: 0 <= j < k < |tis| ==> tis[j] < tis[k]
      {
        if Pending(dir, rows[p]) {
          tis := tis + [p];
        }
        p := p + 1;
      }
      CountAscending(tis, Todo(dir, rows));
    }

    /** The body of the loop: one batch, row by row. */
    method RewriteBatch(dir: Direction, bag: Retries) returns (ghost batch: set<nat>)
      modifies this
      ensures Pass(dir, bag, old(rows), rows, batch)
    {
      var tis := SelectBatch(dir);
      batch := set t | t in tis;
      CountAscending(tis, batch);
      for i := 0 to |tis|
        invariant |rows| == |old(rows)|
        invariant forall p: nat :: p < |rows| ==>
          rows[p] == if p in tis[..i] then Rewritten(dir, bag, old(rows)[p]) else old(rows)[p]
      {
        assert tis[i] !in tis[..i];
        assert tis[..i + 1] == tis[..i] + [tis[i]];
        rows := rows[tis[i] := Rewritten(dir, bag, rows[tis[i]])];
      }
      assert tis[..|tis|] == tis;
    }

    /**
     * The `while query.scalar()` loop, watched for `limit` passes: `done` says that it has ended by then.
     * The ghosts tell its history.
     */
    method Rewrite(dir: Direction, bag: Retries, limit: nat)
      returns (passes: nat, done: bool, ghost h: seq<seq<Row>>, ghost batches: seq<set<nat>>)
      modifies this
      ensures Passes(dir, bag, h, batches) && |batches| == passes <= limit
      ensures h[0] == old(rows) && h[passes] == rows
      ensures done <==> Todo(dir, rows) == {}
      ensures done <==> BatchesFor(|Todo(dir, old(rows))|) <= limit && Yields(dir, bag, old(rows))
      ensures done ==> Settled(dir, bag, old(rows), rows) && passes == BatchesFor(|Todo(dir, old(rows))|)
      ensures !done ==> passes == limit
    {
      passes := 0;
      h, batches := [rows], [];
      while Todo(dir, rows) != {} && passes < limit
        invariant Passes(dir, bag, h, batches)
        invariant h[0] == old(rows) && h[|h| - 1] == rows && |batches| == passes <= limit
        invariant passes > 0 ==> Todo(dir, h[passes - 1]) != {}
      {
        ghost var batch := RewriteBatch(dir, bag);
        PassesExtend(dir, bag, h, batches, rows, batch);
        h, batches := h + [rows], batches + [batch];
        passes := passes + 1;
      }
      done := Todo(dir, rows) == {};
      LoopEndsIff(dir, bag, h, batches, passes);
      if passes > 0 {
        LoopEndsIff(dir, bag, h, batches, passes - 1);
      }
    }

    /** Adds max_tries with its default, then fills it; an empty table is left at once. */
    method Upgrade(bag: Retries, limit: nat) returns (passes: nat, done: bool)
      modifies this
      ensures |rows| == |old(rows)|
      ensures done <==> BatchesFor(|rows|) <= limit && Yields(Up, bag, Defaulted(old(rows)))
      ensures done ==> passes == (|rows| + 4999) / 5000
      ensures done ==> forall p :: 0 <= p < |rows| ==>
        rows[p] == Upgraded(bag, Defaulted(old(rows))[p]) && rows[p].maxTries != -1
    {
      rows := Defaulted(rows);
      AllPending(rows);
      if rows == [] {
        return 0, true;
      }
      ghost var h, batches;
      passes, done, h, batches := Rewrite(Up, bag, limit);
      EachPassKeepsLength(Up, bag, h, batches, passes);
    }

    /** Recovers try_number; every max_tries is -1 afterwards. This loop always ends. */
    method Downgrade(bag: Retries) returns (passes: nat)
      modifies this
      ensures Settled(Down, bag, old(rows), rows) && Fresh(rows)
      ensures passes == (|Todo(Down, old(rows))| + 4999) / 5000
    {
      ghost var h, batches;
      var done;
      TodoIsBounded(Down, rows);
      passes, done, h, batches := Rewrite(Down, bag, |rows|);
    }
  }

  lemma TodoIsBounded(dir: Direction, rows: seq<Row>)
    ensures |Todo(dir, rows)| <= |rows| && BatchesFor(|Todo(dir, rows)|) <= |rows|
  {
    Below(Todo(dir, rows), |rows|);
  }

  lemma {:induction false} Below(s: set<nat>, n: nat)
    requires forall p :: p in s ==> p < n
    ensures |s| <= n
    ensures (forall p: nat :: p < n ==> p in s) ==> |s| == n
  {
    if n == 0 {
      assert s == {};
    } else {
      Below(s - {n - 1}, n - 1);
      if n - 1 in s {
        assert s == (s - {n - 1}) + {n - 1};
      } else {
        assert s == s - {n - 1};
      }
    }
  }

  lemma {:induction false} EachPassKeepsLength(
      dir: Direction, bag: Retries, h: seq<seq<Row>>, batches: seq<set<nat>>, k: nat)
    requires Passes(dir, bag, h, batches) && k < |h|
    ensures |h[k]| == |h[0]|
  {
    if k > 0 {
      EachPassKeepsLength(dir, bag, h, batches, k - 1);
      assert Pass(dir, bag, h[k - 1], h[k], batches[k - 1]);
    }
  }

  lemma {:induction false} CountAscending(tis: seq<nat>, s: set<nat>)
    requires forall j, k :: 0 <= j < k < |tis| ==> tis[j] < tis[k]
    requires forall k :: 0 <= k < |tis| ==> tis[k] in s
    ensures |tis| <= |s|
    ensures (forall q :: q in s ==> q in tis) ==> |tis| == |s|
  {
    if tis == [] {
      assert (forall q :: q in s ==> q in tis) ==> s == {};
    } else {
      CountAscending(tis[1..], s - {tis[0]});
    }
  }

  lemma AllPending(rows: seq<Row>)
    requires Fresh(rows)
    ensures |Todo(Up, rows)| == |rows|
  {
    Below(Todo(Up, rows), |rows|);
  }

  lemma PassesExtend(dir: Direction, bag: Retries, h: seq<seq<Row>>, batches: seq<set<nat>>, rows: seq<Row>, batch: set<nat>)
    requires Passes(dir, bag, h, batches) && Pass(dir, bag, h[|h| - 1], rows, batch)
    ensures Passes(dir, bag, h + [rows], batches + [batch])
  {
  }
}
