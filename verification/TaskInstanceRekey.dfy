/** Migration 0093: task_instance and task_reschedule from execution_date to run_id, and back. */
module TaskInstanceRekey {
  import opened Options
  import opened Relations
  import opened RunKeys

  /** A row of task_instance or task_reschedule; only the latter has an id. */
  datatype Row = Row(id: int, dag: string, task: string, date: Option<int>, run: Option<string>, payload: string)

  datatype Column = RunId | ExecutionDate

  datatype Dialect = Sqlite | Postgres | OtherDialect

  /** The condition of the update: dag_id, and whichever key column is not being filled. */
  predicate Matches(col: Column, r: Row, dr: RunKey) {
    r.dag == dr.dag && if col == RunId then SqlEq(Some(dr.date), r.date) else SqlEq(Some(dr.run), r.run)
  }

  function Filled(col: Column, r: Row, dr: RunKey): Row {
    if col == RunId then r.(run := Some(dr.run)) else r.(date := Some(dr.date))
  }

  function Nulled(col: Column, r: Row): Row {
    if col == RunId then r.(run := None) else r.(date := None)
  }

  predicate IsNull(col: Column, r: Row) {
    if col == RunId then r.run.None? else r.date.None?
  }

  function FirstMatch(col: Column, r: Row, runs: seq<RunKey>): (dr: Option<RunKey>)
    ensures dr.Some? ==> dr.value in runs && Matches(col, r, dr.value)
    ensures dr.None? ==> forall d :: d in runs ==> !Matches(col, r, d)
  {
    if runs == [] then None else if Matches(col, r, runs[0]) then Some(runs[0]) else FirstMatch(col, r, runs[1..])
  }

  /** SET col = (SELECT col FROM dag_run WHERE condition): NULL where nothing matches. */
  function CorrelatedUpdate(col: Column, rows: seq<Row>, runs: seq<RunKey>): (s: seq<Row>)
    ensures |s| == |rows|
    ensures forall i :: 0 <= i < |rows| ==>
      s[i] == match FirstMatch(col, rows[i], runs) case Some(dr) => Filled(col, rows[i], dr) case None => Nulled(col, rows[i])
  {
    if rows == [] then []
    else
      [match FirstMatch(col, rows[0], runs) case Some(dr) => Filled(col, rows[0], dr) case None => Nulled(col, rows[0])]
      + CorrelatedUpdate(col, rows[1..], runs)
  }

  /**
   * UPDATE target, dag_run SET target.col = dag_run.col WHERE condition: rows without a match stay, a
   * row with a match takes the value of some matching run.
   */
  predicate MultiTableUpdate(col: Column, rows: seq<Row>, runs: seq<RunKey>, s: seq<Row>) {
    && |s| == |rows|
    && forall i :: 0 <= i < |rows| ==>
         if FirstMatch(col, rows[i], runs).None? then s[i] == rows[i]
         else exists dr :: dr in runs && Matches(col, rows[i], dr) && s[i] == Filled(col, rows[i], dr)
  }

  lemma OnlyMatch(col: Column, r: Row, runs: seq<RunKey>, dr: RunKey)
    requires UniqueRuns(runs) && dr in runs && Matches(col, r, dr)
    ensures FirstMatch(col, r, runs) == Some(dr)
  {
    SameRun(dr, FirstMatch(col, r, runs).value, runs);
  }

  /** Exactly when the two dialect forms give the same table: when every row without a match is NULL already. */
  lemma DialectsAgreeIff(col: Column, rows: seq<Row>, runs: seq<RunKey>, s: seq<Row>)
    requires UniqueRuns(runs) && MultiTableUpdate(col, rows, runs, s)
    ensures s == CorrelatedUpdate(col, rows, runs)
       <==> forall i :: 0 <= i < |rows| && FirstMatch(col, rows[i], runs).None? ==> IsNull(col, rows[i])
  {
    var t := CorrelatedUpdate(col, rows, runs);
    forall i | 0 <= i < |rows|
      ensures s[i] == t[i] <==> (FirstMatch(col, rows[i], runs).None? ==> IsNull(col, rows[i]))
    {
      if FirstMatch(col, rows[i], runs).Some? {
        var dr :| dr in runs && Matches(col, rows[i], dr) && s[i] == Filled(col, rows[i], dr);
        OnlyMatch(col, rows[i], runs, dr);
      }
    }
    if s == t {
      forall i | 0 <= i < |rows| && FirstMatch(col, rows[i], runs).None?
        ensures IsNull(col, rows[i])
      {
        assert s[i] == t[i];
      }
    }
  }

  // ----- PostgreSQL: CREATE TABLE ... AS SELECT ... INNER JOIN dag_run -----

  predicate OnDate(r: Row, dr: RunKey) {
    Matches(RunId, r, dr)
  }

  function Selected(x: (Row, RunKey)): Row {
    Filled(RunId, x.0, x.1)
  }

  function CreateAsJoin(rows: seq<Row>, runs: seq<RunKey>): seq<Row> {
    Map(Join(rows, runs, OnDate), Selected)
  }

  function MatchedRows(rows: seq<Row>, runs: seq<RunKey>): (s: seq<Row>)
    ensures |s| <= |rows|
    ensures |s| == |rows| <==> forall r :: r in rows ==> FirstMatch(RunId, r, runs).Some?
    ensures |s| == |rows| ==> s == rows
  {
    assert forall r :: r in rows <==> rows != [] && (r == rows[0] || r in rows[1..]);
    if rows == [] then []
    else if FirstMatch(RunId, rows[0], runs).Some? then [rows[0]] + MatchedRows(rows[1..], runs)
    else MatchedRows(rows[1..], runs)
  }

  /** The join fills run_id like the update, on the rows that have a run, and drops the others. */
  lemma {:induction false} JoinIsUpdateOfMatchedRows(rows: seq<Row>, runs: seq<RunKey>)
    requires UniqueRuns(runs)
    ensures CreateAsJoin(rows, runs) == CorrelatedUpdate(RunId, MatchedRows(rows, runs), runs)
  {
    if rows != [] {
      JoinIsUpdateOfMatchedRows(rows[1..], runs);
      var r := rows[0];
      var head := PairWith(r, Relations.Matches(r, runs, OnDate));
      var k := MatchedRows(rows[1..], runs);
      assert ([r] + k)[1..] == k;
      match FirstMatch(RunId, r, runs) {
        case Some(dr) =>
          OneMatch(r, runs, OnDate, dr);
          assert head == [(r, dr)];
          assert Map(head, Selected) == [Filled(RunId, r, dr)];
        case None =>
          NoMatch(r, runs, OnDate);
          assert head == [];
          assert CreateAsJoin(rows, runs) == CreateAsJoin(rows[1..], runs);
      }
    }
  }

  /** Exactly when the PostgreSQL form gives the same table as the update: when no row dangles. */
  lemma PostgresAgreesIff(rows: seq<Row>, runs: seq<RunKey>)
    requires UniqueRuns(runs)
    ensures CreateAsJoin(rows, runs) == CorrelatedUpdate(RunId, rows, runs)
       <==> forall r :: r in rows ==> FirstMatch(RunId, r, runs).Some?
  {
    JoinIsUpdateOfMatchedRows(rows, runs);
  }

  // ----- Upgrade and downgrade -----

  function WithNull(col: Column, rows: seq<Row>): (s: seq<Row>)
    ensures |s| == |rows| && forall i :: 0 <= i < |rows| ==> s[i] == Nulled(col, rows[i])
  {
    if rows == [] then [] else [Nulled(col, rows[0])] + WithNull(col, rows[1..])
  }

  /** The update statement a dialect runs; where several runs match it takes the first. */
  function Update(dialect: Dialect, col: Column, rows: seq<Row>, runs: seq<RunKey>): (s: seq<Row>)
    ensures |s| == |rows|
    ensures dialect == Sqlite ==> s == CorrelatedUpdate(col, rows, runs)
    ensures dialect != Sqlite ==> MultiTableUpdate(col, rows, runs, s)
  {
    if dialect == Sqlite then CorrelatedUpdate(col, rows, runs)
    else if rows == [] then []
    else
      [match FirstMatch(col, rows[0], runs) case Some(dr) => Filled(col, rows[0], dr) case None => rows[0]]
      + Update(dialect, col, rows[1..], runs)
  }

  predicate NotNull(col: Column, rows: seq<Row>) {
    forall r :: r in rows ==> !IsNull(col, r)
  }

  /** The primary key of task_instance, by date or by run. */
  predicate UniqueKey(col: Column, rows: seq<Row>) {
    forall i, j :: 0 <= i < j < |rows| && rows[i].dag == rows[j].dag && rows[i].task == rows[j].task ==>
      if col == RunId then rows[i].run != rows[j].run else rows[i].date != rows[j].date
  }

  /** The foreign key to task_instance, by date or by run, and the one to dag_run. */
  predicate NamesInstance(col: Column, r: Row, tis: seq<Row>) {
    exists ti :: ti in tis && ti.dag == r.dag && ti.task == r.task
                 && if col == RunId then SqlEq(ti.run, r.run) else SqlEq(ti.date, r.date)
  }

  predicate NamesRun(r: Row, runs: seq<RunKey>) {
    exists dr :: dr in runs && dr.dag == r.dag && SqlEq(Some(dr.run), r.run)
  }

  /** NOT NULL, primary and foreign keys of both tables when they are keyed by date. */
  predicate DateKeysHold(tis: seq<Row>, trs: seq<Row>) {
    && NotNull(ExecutionDate, tis) && NotNull(ExecutionDate, trs)
    && UniqueKey(ExecutionDate, tis)
    && forall r :: r in trs ==> NamesInstance(ExecutionDate, r, tis)
  }

  /** The same when they are keyed by run. */
  predicate RunKeysHold(tis: seq<Row>, trs: seq<Row>, runs: seq<RunKey>) {
    && NotNull(RunId, tis) && NotNull(RunId, trs)
    && UniqueKey(RunId, tis)
    && (forall r :: r in tis ==> NamesRun(r, runs))
    && (forall r :: r in trs ==> NamesRun(r, runs) && NamesInstance(RunId, r, tis))
  }

  /** Every row has a date and a run on it; its run_id is still to come. */
  predicate Ready(rows: seq<Row>, runs: seq<RunKey>) {
    forall r :: r in rows ==> r.run.None? && FirstMatch(RunId, r, runs).Some?
  }

  /** The re-keyed table: the run of each row's date in place of the date. */
  function Rekeyed(rows: seq<Row>, runs: seq<RunKey>): seq<Row> {
    WithNull(ExecutionDate, CorrelatedUpdate(RunId, rows, runs))
  }

  /** On a fresh column every dialect's update is the correlated one. */
  lemma FreshColumnUpdates(dialect: Dialect, col: Column, rows: seq<Row>, runs: seq<RunKey>)
    requires UniqueRuns(runs) && forall r :: r in rows ==> IsNull(col, r)
    ensures Update(dialect, col, rows, runs) == CorrelatedUpdate(col, rows, runs)
  {
    if dialect != Sqlite {
      DialectsAgreeIff(col, rows, runs, Update(dialect, col, rows, runs));
    }
  }

  predicate Fresh(rows: seq<Row>) {
    forall r :: r in rows ==> r.run.None?
  }

  predicate AllMatched(rows: seq<Row>, runs: seq<RunKey>) {
    forall r :: r in rows ==> FirstMatch(RunId, r, runs).Some?
  }

  /** Re-keying and back: in every dialect, each row's execution_date is restored and nothing else changes. */
  lemma RekeyRoundTrip(dialect: Dialect, rows: seq<Row>, runs: seq<RunKey>)
    requires UniqueRuns(runs) && Ready(rows, runs)
    ensures NotNull(RunId, Rekeyed(rows, runs))
    ensures WithNull(RunId, Update(dialect, ExecutionDate, Rekeyed(rows, runs), runs)) == rows
  {
    forall i | 0 <= i < |rows|
      ensures !IsNull(RunId, Rekeyed(rows, runs)[i])
    {
      assert rows[i] in rows;
    }
    RoundTripIff(dialect, rows, runs);
    if dialect == Postgres {
      JoinIsUpdateOfMatchedRows(rows, runs);
    }
  }

  /** The rows that the upgrade keeps of task_instance: PostgreSQL's join drops those without a run. */
  function Kept(dialect: Dialect, rows: seq<Row>, runs: seq<RunKey>): seq<Row> {
    if dialect == Postgres then MatchedRows(rows, runs) else rows
  }

  /** The row of a table that comes back. */
  lemma RoundTripOfRow(dialect: Dialect, rows: seq<Row>, runs: seq<RunKey>, i: nat)
    requires UniqueRuns(runs) && Fresh(rows) && i < |rows|
    ensures WithNull(RunId, Update(dialect, ExecutionDate, Rekeyed(rows, runs), runs))[i] == rows[i]
       <==> FirstMatch(RunId, rows[i], runs).Some? || rows[i].date.None?
  {
    var mid := Rekeyed(rows, runs);
    FreshColumnUpdates(dialect, ExecutionDate, mid, runs);
    assert rows[i] in rows;
    match FirstMatch(RunId, rows[i], runs) {
      case Some(dr) => OnlyMatch(ExecutionDate, mid[i], runs, dr);
      case None =>
    }
  }

  /**
   * Exactly when upgrade and downgrade give a table back: when no row dangles; but for PostgreSQL's join
   * on task_instance, a dangling row without a date does no harm.
   */
  lemma RoundTripIff(dialect: Dialect, rows: seq<Row>, runs: seq<RunKey>)
    requires UniqueRuns(runs) && Fresh(rows)
    ensures WithNull(RunId, Update(dialect, ExecutionDate, Rekeyed(rows, runs), runs)) == rows
       <==> forall r :: r in rows ==> FirstMatch(RunId, r, runs).Some? || r.date.None?
  {
    var back := WithNull(RunId, Update(dialect, ExecutionDate, Rekeyed(rows, runs), runs));
    forall i | 0 <= i < |rows|
      ensures back[i] == rows[i] <==> FirstMatch(RunId, rows[i], runs).Some? || rows[i].date.None?
    {
      RoundTripOfRow(dialect, rows, runs, i);
    }
    if back == rows {
      forall r | r in rows
        ensures FirstMatch(RunId, r, runs).Some? || r.date.None?
      {
        var i :| 0 <= i < |rows| && rows[i] == r;
        assert back[i] == rows[i];
      }
    }
  }

  lemma InstancesRoundTripIff(dialect: Dialect, rows: seq<Row>, runs: seq<RunKey>)
    requires UniqueRuns(runs) && Fresh(rows)
    ensures WithNull(RunId, Update(dialect, ExecutionDate, Rekeyed(Kept(dialect, rows, runs), runs), runs)) == rows
       <==> forall r :: r in rows ==> FirstMatch(RunId, r, runs).Some? || (dialect != Postgres && r.date.None?)
  {
    MatchedAre(rows, runs);
    RoundTripIff(dialect, Kept(dialect, rows, runs), runs);
  }

  lemma AllMatchedAreKept(dialect: Dialect, rows: seq<Row>, runs: seq<RunKey>)
    requires AllMatched(rows, runs)
    ensures Kept(dialect, rows, runs) == rows
  {
  }

  lemma {:induction false} MatchedAre(rows: seq<Row>, runs: seq<RunKey>)
    ensures forall r :: r in MatchedRows(rows, runs) <==> r in rows && FirstMatch(RunId, r, runs).Some?
  {
    if rows != [] {
      MatchedAre(rows[1..], runs);
    }
  }

  // ----- The keys -----

  lemma RekeyedRow(rows: seq<Row>, runs: seq<RunKey>, i: nat)
    requires i < |rows|
    ensures var m := FirstMatch(RunId, rows[i], runs); var s := Rekeyed(rows, runs);
      |s| == |rows| && s[i] == rows[i].(date := None, run := if m.Some? then Some(m.value.run) else None)
  {
  }

  /**
   * The re-keyed row in columns: its run_id is that of the run with its dag_id and execution_date, or NULL
   * where there is none; its execution_date is gone; all else is as it was.
   */
  lemma RekeyedInColumns(rows: seq<Row>, runs: seq<RunKey>, i: nat, k: RunKey)
    requires UniqueRuns(runs) && i < |rows| && k in runs
    ensures var r, r' := rows[i], Rekeyed(rows, runs)[i];
      && r' == r.(run := r'.run, date := None)
      && (r'.run.Some? <==> exists dr :: dr in runs && dr.dag == r.dag && Some(dr.date) == r.date)
      && (k.dag == r.dag ==> (r'.run == Some(k.run) <==> r.date == Some(k.date)))
  {
    RekeyedRow(rows, runs, i);
    var m := FirstMatch(RunId, rows[i], runs);
    if m.Some? && k.dag == rows[i].dag {
      if m.value.run == k.run || m.value.date == k.date {
        SameRun(m.value, k, runs);
      }
    }
    if dr :| dr in runs && dr.dag == rows[i].dag && Some(dr.date) == rows[i].date {
      assert Matches(RunId, rows[i], dr);
    }
  }

  /** Of two rows of one DAG, each with a run: the runs agree exactly if the dates do. */
  lemma SameRunIffSameDate(a: Row, b: Row, runs: seq<RunKey>)
    requires UniqueRuns(runs) && a.dag == b.dag
    requires FirstMatch(RunId, a, runs).Some? && FirstMatch(RunId, b, runs).Some?
    ensures FirstMatch(RunId, a, runs).value.run == FirstMatch(RunId, b, runs).value.run <==> a.date == b.date
  {
    var x, y := FirstMatch(RunId, a, runs).value, FirstMatch(RunId, b, runs).value;
    if x.run == y.run || a.date == b.date {
      SameRun(x, y, runs);
    }
  }

  lemma MatchedIffNotNull(rows: seq<Row>, runs: seq<RunKey>)
    ensures NotNull(RunId, Rekeyed(rows, runs)) <==> AllMatched(rows, runs)
    ensures AllMatched(rows, runs) ==> NotNull(ExecutionDate, rows) && forall r :: r in Rekeyed(rows, runs) ==> NamesRun(r, runs)
  {
    var s := Rekeyed(rows, runs);
    forall i | 0 <= i < |rows|
      ensures !IsNull(RunId, s[i]) <==> FirstMatch(RunId, rows[i], runs).Some?
      ensures !IsNull(RunId, s[i]) ==> NamesRun(s[i], runs)
    {
      RekeyedRow(rows, runs, i);
    }
    if NotNull(RunId, s) {
      forall r | r in rows
        ensures FirstMatch(RunId, r, runs).Some?
      {
        var i :| 0 <= i < |rows| && rows[i] == r;
        assert s[i] in s;
      }
    }
    if AllMatched(rows, runs) {
      forall i | 0 <= i < |s|
        ensures !IsNull(RunId, s[i])
      {
        assert rows[i] in rows;
      }
    }
  }

  /** The new primary key (dag_id, task_id, run_id) holds exactly if the old one held. */
  lemma RekeyKeepsKeyUnique(rows: seq<Row>, runs: seq<RunKey>)
    requires UniqueRuns(runs) && AllMatched(rows, runs)
    ensures UniqueKey(RunId, Rekeyed(rows, runs)) <==> UniqueKey(ExecutionDate, rows)
  {
    var mid := Rekeyed(rows, runs);
    forall i, j | 0 <= i < j < |rows| && rows[i].dag == rows[j].dag
      ensures mid[i].run == mid[j].run <==> rows[i].date == rows[j].date
    {
      assert rows[i] in rows && rows[j] in rows;
      RekeyedRow(rows, runs, i);
      RekeyedRow(rows, runs, j);
      SameRunIffSameDate(rows[i], rows[j], runs);
    }
  }

  /** The i-th task instance is named by run exactly if it is named by date. */
  lemma RekeyKeepsNaming(tis: seq<Row>, trs: seq<Row>, runs: seq<RunKey>, k: nat, i: nat)
    requires UniqueRuns(runs) && AllMatched(tis, runs) && AllMatched(trs, runs) && k < |trs| && i < |tis|
    requires tis[i].dag == trs[k].dag
    ensures SqlEq(Rekeyed(tis, runs)[i].run, Rekeyed(trs, runs)[k].run) <==> SqlEq(tis[i].date, trs[k].date)
  {
    assert trs[k] in trs && tis[i] in tis;
    RekeyedRow(trs, runs, k);
    RekeyedRow(tis, runs, i);
    SameRunIffSameDate(tis[i], trs[k], runs);
  }

  lemma NamedAt(col: Column, r: Row, tis: seq<Row>, i: nat)
    requires i < |tis| && tis[i].dag == r.dag && tis[i].task == r.task
    requires if col == RunId then SqlEq(tis[i].run, r.run) else SqlEq(tis[i].date, r.date)
    ensures NamesInstance(col, r, tis)
  {
    assert tis[i] in tis;
  }

  lemma WhereNamed(col: Column, r: Row, tis: seq<Row>) returns (i: nat)
    requires NamesInstance(col, r, tis)
    ensures i < |tis| && tis[i].dag == r.dag && tis[i].task == r.task
    ensures if col == RunId then SqlEq(tis[i].run, r.run) else SqlEq(tis[i].date, r.date)
  {
    var ti :| ti in tis && ti.dag == r.dag && ti.task == r.task
              && if col == RunId then SqlEq(ti.run, r.run) else SqlEq(ti.date, r.date);
    i :| 0 <= i < |tis| && tis[i] == ti;
  }

  lemma RekeyKeepsReference(tis: seq<Row>, trs: seq<Row>, runs: seq<RunKey>, k: nat)
    requires UniqueRuns(runs) && AllMatched(tis, runs) && AllMatched(trs, runs) && k < |trs|
    ensures NamesInstance(RunId, Rekeyed(trs, runs)[k], Rekeyed(tis, runs)) <==> NamesInstance(ExecutionDate, trs[k], tis)
  {
    var mid, r := Rekeyed(tis, runs), Rekeyed(trs, runs)[k];
    RekeyedRow(trs, runs, k);
    if NamesInstance(ExecutionDate, trs[k], tis) {
      var i := WhereNamed(ExecutionDate, trs[k], tis);
      RekeyedRow(tis, runs, i);
      RekeyKeepsNaming(tis, trs, runs, k, i);
      NamedAt(RunId, r, mid, i);
    } else if NamesInstance(RunId, r, mid) {
      var i := WhereNamed(RunId, r, mid);
      RekeyedRow(tis, runs, i);
      RekeyKeepsNaming(tis, trs, runs, k, i);
      NamedAt(ExecutionDate, trs[k], tis, i);
    }
  }

  lemma ReferencesAgree(tis: seq<Row>, trs: seq<Row>, runs: seq<RunKey>)
    requires UniqueRuns(runs) && AllMatched(tis, runs) && AllMatched(trs, runs)
    ensures (forall r :: r in Rekeyed(trs, runs) ==> NamesInstance(RunId, r, Rekeyed(tis, runs)))
       <==> (forall r :: r in trs ==> NamesInstance(ExecutionDate, r, tis))
  {
    var s, mid := Rekeyed(trs, runs), Rekeyed(tis, runs);
    forall k | 0 <= k < |trs|
      ensures NamesInstance(RunId, s[k], mid) <==> NamesInstance(ExecutionDate, trs[k], tis)
    {
      RekeyKeepsReference(tis, trs, runs, k);
    }
    if forall r :: r in s ==> NamesInstance(RunId, r, mid) {
      forall r | r in trs
        ensures NamesInstance(ExecutionDate, r, tis)
      {
        var k :| 0 <= k < |trs| && trs[k] == r;
        assert s[k] in s;
      }
    }
  }

  /** Exactly when all keys the upgrade adds hold: when the old keys held and no row dangles. */
  lemma UpgradeSucceedsIff(tis: seq<Row>, trs: seq<Row>, runs: seq<RunKey>)
    requires UniqueRuns(runs)
    ensures RunKeysHold(Rekeyed(tis, runs), Rekeyed(trs, runs), runs)
       <==> DateKeysHold(tis, trs) && AllMatched(tis, runs) && AllMatched(trs, runs)
  {
    MatchedIffNotNull(tis, runs);
    MatchedIffNotNull(trs, runs);
    if AllMatched(tis, runs) && AllMatched(trs, runs) {
      RekeyKeepsKeyUnique(tis, runs);
      ReferencesAgree(tis, trs, runs);
    }
  }

  class TaskTables {
    var taskInstance: seq<Row>
    var taskReschedule: seq<Row>
    const runs: seq<RunKey>

    constructor (taskInstance: seq<Row>, taskReschedule: seq<Row>, runs: seq<RunKey>)
      ensures this.taskInstance == taskInstance && this.taskReschedule == taskReschedule && this.runs == runs
    {
      this.taskInstance, this.taskReschedule, this.runs := taskInstance, taskReschedule, runs;
    }

    /** `ok`: the NOT NULL, primary and foreign key constraints it adds hold; if not, the migration fails. */
    method Upgrade(dialect: Dialect) returns (ok: bool)
      requires UniqueRuns(runs)
      modifies this
      ensures var tis := WithNull(RunId, old(taskInstance)); var trs := WithNull(RunId, old(taskReschedule));
        && taskReschedule == Rekeyed(trs, runs)
        && taskInstance == Rekeyed(Kept(dialect, tis, runs), runs)
      ensures ok <==> RunKeysHold(taskInstance, taskReschedule, runs)
    {
      taskInstance := WithNull(RunId, taskInstance);
      taskReschedule := WithNull(RunId, taskReschedule);
      FreshColumnUpdates(dialect, RunId, taskReschedule, runs);
      taskReschedule := Update(dialect, RunId, taskReschedule, runs);
      if dialect == Postgres {
        JoinIsUpdateOfMatchedRows(taskInstance, runs);
        taskInstance := CreateAsJoin(taskInstance, runs);
      } else {
        FreshColumnUpdates(dialect, RunId, taskInstance, runs);
        taskInstance := Update(dialect, RunId, taskInstance, runs);
      }
      taskInstance := WithNull(ExecutionDate, taskInstance);
      taskReschedule := WithNull(ExecutionDate, taskReschedule);
      ok := RunKeysHold(taskInstance, taskReschedule, runs);
    }

    /** `ok`: the dates it restores are there for every row, and the old primary and foreign keys hold. */
    method Downgrade(dialect: Dialect) returns (ok: bool)
      modifies this
      ensures taskInstance == WithNull(RunId, Update(dialect, ExecutionDate, WithNull(ExecutionDate, old(taskInstance)), runs))
      ensures taskReschedule == WithNull(RunId, Update(dialect, ExecutionDate, WithNull(ExecutionDate, old(taskReschedule)), runs))
      ensures ok <==> DateKeysHold(taskInstance, taskReschedule)
    {
      taskInstance := WithNull(ExecutionDate, taskInstance);
      taskReschedule := WithNull(ExecutionDate, taskReschedule);
      taskInstance := Update(dialect, ExecutionDate, taskInstance, runs);
      taskReschedule := Update(dialect, ExecutionDate, taskReschedule, runs);
      taskInstance := WithNull(RunId, taskInstance);
      taskReschedule := WithNull(RunId, taskReschedule);
      ok := DateKeysHold(taskInstance, taskReschedule);
    }
  }
}
