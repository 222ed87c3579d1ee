/** check_bad_references: the loop over the five tables, and what a second run does. */
module ReferenceCheck {
  import opened Options
  import opened DanglingRows

  datatype Name = TaskInstance | TaskReschedule | RenderedFields | TaskFail | XCom

  /** models_list, in order. Only task_instance itself is checked against dag_run alone. */
  const MODELS: seq<Name> := [TaskInstance, TaskReschedule, RenderedFields, TaskFail, XCom]

  /**
   * `tables` holds the tables that exist; `side` the side tables of dangling rows; `migrated` the
   * tables that have their run_id column already. `cascades`: the foreign key from task_reschedule to
   * task_instance on (task_id, dag_id, execution_date) is there and enforced; its rule is ON DELETE CASCADE.
   */
  datatype Db = Db(
    tables: map<Name, seq<Row>>, side: map<Name, seq<Row>>, migrated: set<Name>, runs: Option<seq<NullableRun>>,
    cascades: bool)

  function ContextOf(db: Db, n: Name): Context
    requires db.runs.Some? && TaskInstance in db.tables
  {
    Context(n != TaskInstance, db.runs.value, db.tables[TaskInstance], TaskInstance in db.migrated)
  }

  predicate KeyTablesExist(db: Db) {
    db.runs.Some? && TaskInstance in db.tables
  }

  predicate Checked(db: Db, n: Name) {
    n in db.tables && n !in db.migrated
  }

  function Parked(db: Db, n: Name): seq<Row>
    requires KeyTablesExist(db) && n in db.tables
  {
    BadRows(ContextOf(db, n), db.tables[n])
  }

  // ----- The cascade -----

  predicate NamesInstance(r: Row, ti: Row) {
    SqlEq(r.task, ti.task) && SqlEq(r.dag, ti.dag) && SqlEq(r.date, ti.date)
  }

  predicate NamesOneOf(r: Row, tis: seq<Row>) {
    exists ti :: ti in tis && NamesInstance(r, ti)
  }

  /** The rows that name (or do not name) one of the deleted task instances. */
  function Naming(rows: seq<Row>, gone: seq<Row>, names: bool): (s: seq<Row>)
    ensures forall r :: r in s <==> r in rows && NamesOneOf(r, gone) == names
  {
    if rows == [] then []
    else if NamesOneOf(rows[0], gone) == names then [rows[0]] + Naming(rows[1..], gone, names)
    else Naming(rows[1..], gone, names)
  }

  /** What deleting rows from a table does to the others. */
  function AfterCascade(db: Db, n: Name, gone: seq<Row>): map<Name, seq<Row>> {
    if n == TaskInstance && db.cascades && TaskReschedule in db.tables
    then db.tables[TaskReschedule := Naming(db.tables[TaskReschedule], gone, false)]
    else db.tables
  }

  /** CREATE TABLE ... AS; drop it if it is empty, else delete its rows from the source table. */
  function Move(db: Db, n: Name): Db
    requires KeyTablesExist(db) && n in db.tables
  {
    var parked := Parked(db, n);
    if parked == [] then db
    else
      db.(tables := AfterCascade(db, n, parked)[n := DeleteByKeys(db.tables[n], Pks(parked))],
          side := db.side[n := parked])
  }

  /** One round of the loop: the database, and whether an error is reported for the table. */
  function CheckOne(db: Db, n: Name): (Db, bool)
    requires KeyTablesExist(db)
  {
    if !Checked(db, n) then (db, false)
    else if n in db.side then (db, Parked(db, n) != [])
    else (Move(db, n), false)
  }

  function CheckAll(db: Db, names: seq<Name>): (r: (Db, seq<Name>))
    requires KeyTablesExist(db)
    ensures KeyTablesExist(r.0)
    decreases |names|
  {
    if names == [] then (db, [])
    else
      var n := names[|names| - 1];
      var (u, errors) := CheckAll(db, names[..|names| - 1]);
      var (v, err) := CheckOne(u, n);
      (v, if err then errors + [n] else errors)
  }

  /** The database obeys its own keys. */
  predicate Keyed(db: Db) {
    && KeyTablesExist(db) && UniqueDates(db.runs.value)
    && forall n :: n in db.tables ==> UniquePk(db.tables[n])
  }

  /** Nothing dangles in the table. */
  predicate Clean(db: Db, n: Name)
    requires KeyTablesExist(db)
  {
    Checked(db, n) ==> Parked(db, n) == []
  }

  lemma {:induction false} SelectKeepsKeys(c: Context, rows: seq<Row>, refers: bool)
    requires UniquePk(rows)
    ensures UniquePk(Select(c, rows, refers))
  {
    if rows != [] {
      SelectKeepsKeys(c, rows[1..], refers);
      var s := Select(c, rows[1..], refers);
      forall j | 0 <= j < |s|
        ensures rows[0].pk != s[j].pk
      {
        assert s[j] in s;
        var k :| 0 <= k < |rows| - 1 && rows[1..][k] == s[j];
        assert rows[k + 1] == s[j];
      }
    }
  }

  /**
   * One move: the table keeps exactly the rows that refer to something, the side table gets exactly the
   * others. No other table changes, but for task_reschedule under the cascade of task_instance.
   */
  lemma MoveSplits(db: Db, n: Name)
    requires Keyed(db) && n in db.tables
    ensures var bad := Select(ContextOf(db, n), db.tables[n], false); var v := Move(db, n);
      && v.tables == AfterCascade(db, n, bad)[n := Select(ContextOf(db, n), db.tables[n], true)]
      && v.side == (if bad == [] then db.side else db.side[n := bad])
      && multiset(v.tables[n]) + multiset(bad) == multiset(db.tables[n])
  {
    MoveSplitsTable(ContextOf(db, n), db.tables[n]);
    if Select(ContextOf(db, n), db.tables[n], false) == [] {
      DeleteNothing(db.tables[n]);
      NothingCascades(db, n);
    }
  }

  lemma MoveKeepsKeys(db: Db, n: Name)
    requires Keyed(db) && n in db.tables
    ensures Keyed(Move(db, n))
  {
    MoveSplits(db, n);
    SelectKeepsKeys(ContextOf(db, n), db.tables[n], true);
    if TaskReschedule in db.tables {
      NamingKeepsKeys(db.tables[TaskReschedule], Select(ContextOf(db, n), db.tables[n], false), false);
    }
  }

  lemma NothingCascades(db: Db, n: Name)
    ensures AfterCascade(db, n, []) == db.tables
  {
    if TaskReschedule in db.tables {
      NothingNamed(db.tables[TaskReschedule]);
    }
  }

  lemma {:induction false} NothingNamed(rows: seq<Row>)
    ensures Naming(rows, [], false) == rows
  {
    if rows != [] {
      NothingNamed(rows[1..]);
    }
  }

  lemma {:induction false} NamingKeepsKeys(rows: seq<Row>, gone: seq<Row>, names: bool)
    requires UniquePk(rows)
    ensures UniquePk(Naming(rows, gone, names))
  {
    if rows != [] {
      NamingKeepsKeys(rows[1..], gone, names);
      var s := Naming(rows[1..], gone, names);
      forall j | 0 <= j < |s|
        ensures rows[0].pk != s[j].pk
      {
        assert s[j] in s;
        var k :| 0 <= k < |rows| - 1 && rows[1..][k] == s[j];
        assert rows[k + 1] == s[j];
      }
    }
  }

  lemma {:induction false} NamingSplits(rows: seq<Row>, gone: seq<Row>)
    ensures multiset(Naming(rows, gone, false)) + multiset(Naming(rows, gone, true)) == multiset(rows)
  {
    if rows != [] {
      NamingSplits(rows[1..], gone);
      assert rows == [rows[0]] + rows[1..];
    }
  }

  lemma {:induction false} DeleteNothing(rows: seq<Row>)
    ensures DeleteByKeys(rows, Pks([])) == rows
  {
    if rows != [] {
      DeleteNothing(rows[1..]);
    }
  }

  /** The same database, but for rows that have moved. */
  predicate SameShape(db: Db, v: Db) {
    && v.runs == db.runs && v.migrated == db.migrated && v.cascades == db.cascades
    && v.tables.Keys == db.tables.Keys
  }

  lemma RoundKeepsKeys(db: Db, n: Name)
    requires Keyed(db)
    ensures Keyed(CheckOne(db, n).0) && SameShape(db, CheckOne(db, n).0)
  {
    if Checked(db, n) && n !in db.side {
      MoveSplits(db, n);
      MoveKeepsKeys(db, n);
    }
  }

  lemma {:induction false} CheckAllKeepsKeys(db: Db, names: seq<Name>)
    requires Keyed(db)
    ensures Keyed(CheckAll(db, names).0) && SameShape(db, CheckAll(db, names).0)
    decreases |names|
  {
    if names != [] {
      CheckAllKeepsKeys(db, names[..|names| - 1]);
      RoundKeepsKeys(CheckAll(db, names[..|names| - 1]).0, names[|names| - 1]);
    }
  }

  /** Rows of a table that a run has parked in a side table it made. */
  function NewlyParked(before: Db, after: Db, n: Name): seq<Row> {
    if n in before.side || n !in after.side then [] else after.side[n]
  }

  /** The cascade reaches from one table to the other. */
  predicate Reaches(db: Db, m: Name, n: Name) {
    m == TaskInstance && n == TaskReschedule && db.cascades
  }

  /** A round on one table leaves the side table of every other alone, and its rows unless the cascade reaches them. */
  lemma RoundSparesOthers(db: Db, m: Name, n: Name)
    requires Keyed(db) && m != n && n in db.tables
    ensures var v := CheckOne(db, m).0;
      && n in v.tables && (!Reaches(db, m, n) ==> v.tables[n] == db.tables[n])
      && (n in v.side <==> n in db.side) && (n in db.side ==> v.side[n] == db.side[n])
  {
    if Checked(db, m) && m !in db.side {
      MoveSplits(db, m);
    }
  }

  lemma RoundLosesNothing(db: Db, n: Name)
    requires Keyed(db) && n in db.tables
    ensures var v := CheckOne(db, n).0;
      && n in v.tables
      && multiset(v.tables[n]) + multiset(NewlyParked(db, v, n)) == multiset(db.tables[n])
      && (n in db.side ==> v == db)
  {
    if Checked(db, n) && n !in db.side {
      MoveSplits(db, n);
    }
  }

  lemma {:induction false} RunSparesUnvisited(db: Db, names: seq<Name>, n: Name)
    requires Keyed(db) && n in db.tables && n !in names
    ensures var v := CheckAll(db, names).0;
      && n in v.tables && (TaskInstance !in names || !Reaches(db, TaskInstance, n) ==> v.tables[n] == db.tables[n])
      && (n in v.side <==> n in db.side) && (n in db.side ==> v.side[n] == db.side[n])
    decreases |names|
  {
    if names != [] {
      var init, m := names[..|names| - 1], names[|names| - 1];
      assert names == init + [m];
      RunSparesUnvisited(db, init, n);
      CheckAllKeepsKeys(db, init);
      RoundSparesOthers(CheckAll(db, init).0, m, n);
    }
  }

  /** The task instances that a run moves out of their table. */
  function Gone(db: Db): seq<Row>
    requires KeyTablesExist(db)
  {
    if Checked(db, TaskInstance) && TaskInstance !in db.side then Parked(db, TaskInstance) else []
  }

  /** The rows that a run takes from a table without parking them. */
  function Lost(db: Db, n: Name): seq<Row>
    requires KeyTablesExist(db) && n in db.tables
  {
    if Reaches(db, TaskInstance, n) then Naming(db.tables[n], Gone(db), true) else []
  }

  /** The rows that the cascade leaves. */
  function Left(db: Db, n: Name): seq<Row>
    requires KeyTablesExist(db) && n in db.tables
  {
    if Reaches(db, TaskInstance, n) then Naming(db.tables[n], Gone(db), false) else db.tables[n]
  }

  lemma LeftAndLost(db: Db, n: Name)
    requires KeyTablesExist(db) && n in db.tables
    ensures multiset(Left(db, n)) + multiset(Lost(db, n)) == multiset(db.tables[n])
  {
    NamingSplits(db.tables[n], Gone(db));
  }

  /** The round on task_instance, as the other tables see it. */
  lemma RoundOnInstances(db: Db, n: Name)
    requires Keyed(db) && n in db.tables && n != TaskInstance
    ensures n in CheckOne(db, TaskInstance).0.tables && CheckOne(db, TaskInstance).0.tables[n] == Left(db, n)
  {
    if Checked(db, TaskInstance) && TaskInstance !in db.side {
      MoveSplits(db, TaskInstance);
      MoveSplitsTable(ContextOf(db, TaskInstance), db.tables[TaskInstance]);
    } else {
      NothingNamed(db.tables[n]);
    }
  }

  lemma LastRound(db: Db, names: seq<Name>, n: Name)
    requires Keyed(db) && n in db.tables && names != []
    requires n != names[|names| - 1] && names[|names| - 1] != TaskInstance
    ensures var u, v := CheckAll(db, names[..|names| - 1]).0, CheckAll(db, names).0;
      && n in u.tables && n in v.tables && v.tables[n] == u.tables[n] && NewlyParked(db, v, n) == NewlyParked(db, u, n)
  {
    CheckAllKeepsKeys(db, names[..|names| - 1]);
    RoundSparesOthers(CheckAll(db, names[..|names| - 1]).0, names[|names| - 1], n);
  }

  /** A run that visits task_instance first has applied the cascade, and no more, to a table it has yet to visit. */
  lemma {:induction false} UnvisitedAfterInstances(db: Db, names: seq<Name>, n: Name)
    requires Keyed(db) && n in db.tables && n !in names && GoodOrder(names) && TaskInstance in names
    ensures n in CheckAll(db, names).0.tables && CheckAll(db, names).0.tables[n] == Left(db, n)
    decreases |names|
  {
    if names[|names| - 1] == TaskInstance {
      RoundOnInstances(db, n);
    } else {
      UnvisitedAfterInstances(db, names[..|names| - 1], n);
      LastRound(db, names, n);
    }
  }

  /**
   * Over a whole run each table's rows are kept, newly parked, or taken by the cascade: none else is
   * lost and none is invented.
   */
  lemma {:induction false} CheckAllAccountsForRows(db: Db, names: seq<Name>, n: Name)
    requires Keyed(db) && n in db.tables && GoodOrder(names) && TaskInstance in names
    ensures var v := CheckAll(db, names).0;
      && n in v.tables
      && multiset(v.tables[n]) + multiset(NewlyParked(db, v, n)) + multiset(Lost(db, n)) == multiset(db.tables[n])
    decreases |names|
  {
    if n in names {
      if names[|names| - 1] == TaskInstance {
        RoundLosesNothing(db, n);
      } else if names[|names| - 1] == n {
        LastRoundAccounts(db, names, n);
      } else {
        CheckAllAccountsForRows(db, names[..|names| - 1], n);
        LastRound(db, names, n);
      }
    } else {
      RunSparesUnvisited(db, names, n);
      UnvisitedAfterInstances(db, names, n);
      LeftAndLost(db, n);
    }
  }

  lemma LastRoundAccounts(db: Db, names: seq<Name>, n: Name)
    requires Keyed(db) && n in db.tables && GoodOrder(names) && TaskInstance in names
    requires n != TaskInstance && n == names[|names| - 1]
    ensures var v := CheckAll(db, names).0;
      && n in v.tables
      && multiset(v.tables[n]) + multiset(NewlyParked(db, v, n)) + multiset(Lost(db, n)) == multiset(db.tables[n])
  {
    var init := names[..|names| - 1];
    assert names == init + [n];
    CheckAllKeepsKeys(db, init);
    RunSparesUnvisited(db, init, n);
    UnvisitedAfterInstances(db, init, n);
    LeftAndLost(db, n);
    RoundLosesNothing(CheckAll(db, init).0, n);
  }

  // ----- Which rows a run leaves -----

  /** The task instances a run leaves. */
  function InstancesLeft(db: Db): seq<Row>
    requires KeyTablesExist(db)
  {
    if Checked(db, TaskInstance) && TaskInstance !in db.side
    then Select(ContextOf(db, TaskInstance), db.tables[TaskInstance], true)
    else db.tables[TaskInstance]
  }

  lemma RoundLeavesInstances(db: Db)
    requires Keyed(db)
    ensures var v := CheckOne(db, TaskInstance).0;
      TaskInstance in v.tables && v.tables[TaskInstance] == InstancesLeft(db)
  {
    if Checked(db, TaskInstance) && TaskInstance !in db.side {
      MoveSplits(db, TaskInstance);
    }
  }

  lemma {:induction false} InstancesAfter(db: Db, names: seq<Name>)
    requires Keyed(db) && GoodOrder(names) && TaskInstance in names
    ensures TaskInstance in CheckAll(db, names).0.tables && CheckAll(db, names).0.tables[TaskInstance] == InstancesLeft(db)
    decreases |names|
  {
    var init, m := names[..|names| - 1], names[|names| - 1];
    assert names == init + [m];
    if m == TaskInstance {
      assert init == [];
      RoundLeavesInstances(db);
    } else {
      InstancesAfter(db, init);
      LastRound(db, names, TaskInstance);
    }
  }

  /** A row refers to a run and an instance exactly if it does once the instances without a run are gone. */
  lemma ReferenceSurvives(db: Db, u: Db, n: Name, r: Row)
    requires Keyed(db) && KeyTablesExist(u) && n != TaskInstance
    requires u.runs == db.runs && u.migrated == db.migrated && u.tables[TaskInstance] == InstancesLeft(db)
    ensures Refers(ContextOf(u, n), r) <==> Refers(ContextOf(db, n), r)
    ensures Refers(ContextOf(db, n), r) ==> !NamesOneOf(r, Gone(db))
  {
    var c := ContextOf(db, n);
    if Checked(db, TaskInstance) && TaskInstance !in db.side {
      MoveSplitsTable(ContextOf(db, TaskInstance), db.tables[TaskInstance]);
      if Refers(c, r) {
        var dr, ti :| dr in c.runs && ti in c.tis && RunMatches(r, dr) && InstanceOn(false)((r, Some(dr)), ti);
        assert RunMatches(ti, dr);
        assert ti in InstancesLeft(db);
        NotNamedIfItHasARun(r, dr, c.runs, Gone(db));
      }
    }
  }

  lemma NotNamedIfItHasARun(r: Row, dr: NullableRun, runs: seq<NullableRun>, gone: seq<Row>)
    requires dr in runs && RunMatches(r, dr) && forall ti :: ti in gone ==> !HasRun(ti, runs)
    ensures !NamesOneOf(r, gone)
  {
    if ti :| ti in gone && NamesInstance(r, ti) {
      assert RunMatches(ti, dr);
    }
  }

  lemma {:induction false} SelectAgrees(c: Context, d: Context, rows: seq<Row>, refers: bool)
    requires forall r :: r in rows ==> (Refers(c, r) <==> Refers(d, r))
    ensures Select(c, rows, refers) == Select(d, rows, refers)
  {
    if rows != [] {
      assert rows[0] in rows;
      SelectAgrees(c, d, rows[1..], refers);
    }
  }

  lemma {:induction false} SelectOfUnnamed(c: Context, rows: seq<Row>, gone: seq<Row>)
    requires forall r :: r in rows && Refers(c, r) ==> !NamesOneOf(r, gone)
    ensures Select(c, Naming(rows, gone, false), true) == Select(c, rows, true)
  {
    if rows != [] {
      assert rows[0] in rows;
      SelectOfUnnamed(c, rows[1..], gone);
      var k := Naming(rows[1..], gone, false);
      assert ([rows[0]] + k)[1..] == k;
    }
  }

  /** What the round on a table leaves, when task_instance has been visited. */
  lemma RoundLeavesReferring(db: Db, u: Db, n: Name)
    requires Keyed(db) && Keyed(u) && SameShape(db, u) && n != TaskInstance && Checked(db, n) && n !in u.side
    requires u.tables[TaskInstance] == InstancesLeft(db) && u.tables[n] == Left(db, n)
    ensures var v := CheckOne(u, n).0;
      n in v.tables && v.tables[n] == Select(ContextOf(db, n), db.tables[n], true)
  {
    var c, d := ContextOf(db, n), ContextOf(u, n);
    MoveSplits(u, n);
    forall r
      ensures Refers(d, r) <==> Refers(c, r)
      ensures Refers(c, r) ==> !NamesOneOf(r, Gone(db))
    {
      ReferenceSurvives(db, u, n, r);
    }
    SelectAgrees(d, c, u.tables[n], true);
    if Reaches(db, TaskInstance, n) {
      SelectOfUnnamed(c, db.tables[n], Gone(db));
    }
  }

  /**
   * Whatever is parked or cascades on the way, a run leaves of each table it checks and can park exactly
   * the rows that referred to something in the database as it was.
   */
  lemma {:induction false} RunLeavesReferring(db: Db, names: seq<Name>, n: Name)
    requires Keyed(db) && GoodOrder(names) && TaskInstance in names && n in names
    requires Checked(db, n) && n !in db.side
    ensures var v := CheckAll(db, names).0;
      n in v.tables && v.tables[n] == Select(ContextOf(db, n), db.tables[n], true)
    decreases |names|
  {
    var init, m := names[..|names| - 1], names[|names| - 1];
    assert names == init + [m];
    if n == TaskInstance {
      InstancesAfter(db, names);
    } else if m == n {
      CheckAllKeepsKeys(db, init);
      InstancesAfter(db, init);
      UnvisitedAfterInstances(db, init, n);
      RunSparesUnvisited(db, init, n);
      RoundLeavesReferring(db, CheckAll(db, init).0, n);
    } else {
      assert m != TaskInstance;
      RunLeavesReferring(db, init, n);
      LastRound(db, names, n);
    }
  }

  /** The task instance is of the row's task in that run, told by run_id or by execution_date. */
  predicate IsInstanceOf(ti: Row, r: Row, dr: NullableRun, byRunId: bool) {
    && SqlEq(dr.dag, ti.dag) && SqlEq(r.task, ti.task)
    && if byRunId then SqlEq(dr.run, ti.run) else SqlEq(dr.date, ti.date)
  }

  /** Some run has the row's dag_id and execution_date and, but for task_instance itself, an instance of its task. */
  predicate HasAnchor(db: Db, n: Name, r: Row)
    requires KeyTablesExist(db)
  {
    exists dr :: dr in db.runs.value && SqlEq(r.dag, dr.dag) && SqlEq(r.date, dr.date)
                 && (n == TaskInstance || HasInstanceIn(db, r, dr))
  }

  predicate HasInstanceIn(db: Db, r: Row, dr: NullableRun)
    requires KeyTablesExist(db)
  {
    exists ti :: ti in db.tables[TaskInstance] && IsInstanceOf(ti, r, dr, TaskInstance in db.migrated)
  }

  /**
   * The same in columns, of the database as it was: a row stays if and only if some run has its dag_id and
   * execution_date and (but in task_instance) some task instance has that run's dag_id, the row's task_id,
   * and that run's run_id if task_instance has that column already, else that run's execution_date.
   */
  lemma RowStaysIff(db: Db, n: Name, r: Row)
    requires Keyed(db) && Checked(db, n) && n !in db.side && r in db.tables[n]
    ensures n in CheckAll(db, MODELS).0.tables
    ensures r in CheckAll(db, MODELS).0.tables[n] <==> HasAnchor(db, n, r)
  {
    RunLeavesReferring(db, MODELS, n);
    RefersIffAnchored(db, n, r);
  }

  lemma RefersIffAnchored(db: Db, n: Name, r: Row)
    requires KeyTablesExist(db)
    ensures Refers(ContextOf(db, n), r) <==> HasAnchor(db, n, r)
  {
    var c := ContextOf(db, n);
    if Refers(c, r) && n != TaskInstance {
      var dr, ti :| dr in c.runs && ti in c.tis && RunMatches(r, dr) && InstanceOn(c.byRunId)((r, Some(dr)), ti);
      assert IsInstanceOf(ti, r, dr, c.byRunId) && HasInstanceIn(db, r, dr);
    }
    if HasAnchor(db, n, r) {
      var dr :| dr in db.runs.value && SqlEq(r.dag, dr.dag) && SqlEq(r.date, dr.date)
                && (n == TaskInstance || HasInstanceIn(db, r, dr));
      assert RunMatches(r, dr);
      if n != TaskInstance {
        var ti :| ti in db.tables[TaskInstance] && IsInstanceOf(ti, r, dr, TaskInstance in db.migrated);
        assert InstanceOn(c.byRunId)((r, Some(dr)), ti);
      }
    }
  }

  /** Nothing of a table is lost in a run: its rows are all kept or newly parked. */
  predicate LosesNothing(db: Db, n: Name)
    requires Keyed(db) && n in db.tables
  {
    CheckAllKeepsKeys(db, MODELS);
    var v := CheckAll(db, MODELS).0;
    multiset(v.tables[n]) + multiset(NewlyParked(db, v, n)) == multiset(db.tables[n])
  }

  /**
   * Exactly when a run loses nothing of a table: for task_reschedule under the cascade, when task_instance
   * is not moved or none of its rows names a task instance that is; for any other table, always.
   */
  lemma LosesNothingIff(db: Db, n: Name)
    requires Keyed(db) && n in db.tables
    ensures LosesNothing(db, n) <==>
      (Reaches(db, TaskInstance, n) && Checked(db, TaskInstance) && TaskInstance !in db.side ==>
         forall r, ti :: r in db.tables[n] && ti in Parked(db, TaskInstance) ==> !NamesInstance(r, ti))
  {
    CheckAllKeepsKeys(db, MODELS);
    CheckAllAccountsForRows(db, MODELS, n);
    var lost := Lost(db, n);
    NothingExtra(multiset(CheckAll(db, MODELS).0.tables[n]) + multiset(NewlyParked(db, CheckAll(db, MODELS).0, n)),
                 multiset(lost), multiset(db.tables[n]));
    if lost != [] {
      assert lost[0] in lost && lost[0] in multiset(lost);
      assert NamesOneOf(lost[0], Gone(db));
    } else if Reaches(db, TaskInstance, n) {
      forall r, ti | r in db.tables[n] && ti in Gone(db)
        ensures !NamesInstance(r, ti)
      {
        assert r !in Naming(db.tables[n], Gone(db), true);
      }
    }
  }

  lemma NothingExtra(a: multiset<Row>, b: multiset<Row>, all: multiset<Row>)
    requires a + b == all
    ensures a == all <==> b == multiset{}
  {
    assert |all| == |a| + |b|;
  }

  /** The foreign key holds: every task_reschedule row names a task instance. */
  predicate ReschedulesNameInstances(db: Db)
    requires KeyTablesExist(db)
  {
    TaskReschedule in db.tables ==> forall r :: r in db.tables[TaskReschedule] ==> NamesOneOf(r, db.tables[TaskInstance])
  }

  /** A reschedule row that names a task instance dangles exactly if the task instance does. */
  lemma DanglesWithItsInstance(c: Context, r: Row, ti: Row)
    requires c.againstInstances && !c.byRunId && ti in c.tis && NamesInstance(r, ti)
    ensures Refers(c, r) <==> HasRun(ti, c.runs)
  {
    if dr :| dr in c.runs && RunMatches(ti, dr) {
      assert RunMatches(r, dr) && InstanceOn(false)((r, Some(dr)), ti);
    }
  }

  lemma {:induction false} SameSelection(c: Context, rows: seq<Row>, gone: seq<Row>, names: bool)
    requires forall r :: r in rows ==> (NamesOneOf(r, gone) <==> !Refers(c, r))
    ensures Naming(rows, gone, names) == Select(c, rows, !names)
  {
    if rows != [] {
      assert rows[0] in rows;
      SameSelection(c, rows[1..], gone, names);
    }
  }

  /**
   * Which rows those are, where the foreign key holds and task_instance is moved: exactly the dangling
   * ones, which the check is there to park. It parks none of them.
   */
  lemma CascadeTakesTheDangling(db: Db)
    requires Keyed(db) && db.cascades && TaskReschedule in db.tables && ReschedulesNameInstances(db)
    requires Checked(db, TaskInstance) && TaskInstance !in db.side && Checked(db, TaskReschedule)
    ensures var c := ContextOf(db, TaskReschedule); var v := CheckAll(db, MODELS).0;
      && Lost(db, TaskReschedule) == Select(c, db.tables[TaskReschedule], false)
      && TaskReschedule in v.tables && v.tables[TaskReschedule] == Select(c, db.tables[TaskReschedule], true)
      && (TaskReschedule in v.side <==> TaskReschedule in db.side)
  {
    var rows, c := db.tables[TaskReschedule], ContextOf(db, TaskReschedule);
    AllNamedOrDangling(db);
    SameSelection(c, rows, Gone(db), true);
    SameSelection(c, rows, Gone(db), false);
    RunAfterCascade(db, MODELS);
  }

  /** A concrete database: a task instance without a run is parked, and the row that names it is nowhere afterwards. */
  lemma CascadeLosesARow() returns (db: Db, ti: Row, r: Row)
    ensures ti == Row(("d", "t", 0, ""), Some("d"), Some("t"), Some(0), None, "")
    ensures r == Row(("", "", 1, ""), Some("d"), Some("t"), Some(0), None, "")
    ensures db == Db(map[TaskInstance := [ti], TaskReschedule := [r]], map[], {}, Some([]), true) && Keyed(db)
    ensures var v := CheckAll(db, MODELS).0;
      && TaskReschedule in v.tables && v.tables[TaskReschedule] == [] && TaskReschedule !in v.side
      && !LosesNothing(db, TaskReschedule)
  {
    ti := Row(("d", "t", 0, ""), Some("d"), Some("t"), Some(0), None, "");
    r := Row(("", "", 1, ""), Some("d"), Some("t"), Some(0), None, "");
    db := Db(map[TaskInstance := [ti], TaskReschedule := [r]], map[], {}, Some([]), true);
    assert [r][1..] == [];
    assert ti in db.tables[TaskInstance] && NamesInstance(r, ti);
    var c := ContextOf(db, TaskReschedule);
    assert !Refers(c, r);
    CascadeTakesTheDangling(db);
    assert Select(c, [r], true) == [];
    assert Select(c, [r], false) == [r];
    LostIsLost(db, TaskReschedule);
  }

  lemma LostIsLost(db: Db, n: Name)
    requires Keyed(db) && n in db.tables && Lost(db, n) != []
    ensures !LosesNothing(db, n)
  {
    LosesNothingIff(db, n);
    assert Lost(db, n)[0] in Lost(db, n);
  }

  lemma AllNamedOrDangling(db: Db)
    requires Keyed(db) && TaskReschedule in db.tables && ReschedulesNameInstances(db)
    requires Checked(db, TaskInstance) && TaskInstance !in db.side
    ensures forall r :: r in db.tables[TaskReschedule] ==>
      (NamesOneOf(r, Gone(db)) <==> !Refers(ContextOf(db, TaskReschedule), r))
  {
    forall r | r in db.tables[TaskReschedule]
      ensures NamesOneOf(r, Gone(db)) <==> !Refers(ContextOf(db, TaskReschedule), r)
    {
      NamedOrDangling(db, r);
    }
  }

  lemma NamedOrDangling(db: Db, r: Row)
    requires Keyed(db) && NamesOneOf(r, db.tables[TaskInstance])
    requires Checked(db, TaskInstance) && TaskInstance !in db.side
    ensures NamesOneOf(r, Gone(db)) <==> !Refers(ContextOf(db, TaskReschedule), r)
  {
    var c := ContextOf(db, TaskReschedule);
    MoveSplitsTable(ContextOf(db, TaskInstance), db.tables[TaskInstance]);
    if ti :| ti in Gone(db) && NamesInstance(r, ti) {
      DanglesWithItsInstance(c, r, ti);
    } else {
      var ti :| ti in db.tables[TaskInstance] && NamesInstance(r, ti);
      assert ti !in Gone(db);
      DanglesWithItsInstance(c, r, ti);
    }
  }

  /** Once the cascade has been, every task_reschedule row left refers to a run and a task instance. */
  lemma NothingDanglesAfterCascade(db: Db)
    requires Keyed(db) && db.cascades && TaskReschedule in db.tables && ReschedulesNameInstances(db)
    requires Checked(db, TaskInstance) && TaskInstance !in db.side && Checked(db, TaskReschedule)
    ensures var u := CheckOne(db, TaskInstance).0;
      TaskReschedule in u.tables && Parked(u, TaskReschedule) == []
  {
    var u := CheckOne(db, TaskInstance).0;
    RoundOnInstances(db, TaskReschedule);
    MoveSplits(db, TaskInstance);
    MoveKeepsKeys(db, TaskInstance);
    MoveSplitsTable(ContextOf(db, TaskInstance), db.tables[TaskInstance]);
    var c := ContextOf(u, TaskReschedule);
    QueryFindsDangling(c, u.tables[TaskReschedule]);
    forall r | r in u.tables[TaskReschedule]
      ensures Refers(c, r)
    {
      var ti :| ti in db.tables[TaskInstance] && NamesInstance(r, ti);
      assert ti !in Gone(db);
      DanglesWithItsInstance(c, r, ti);
    }
    NoneSelected(c, u.tables[TaskReschedule]);
  }

  lemma {:induction false} NoneSelected(c: Context, rows: seq<Row>)
    requires forall r :: r in rows ==> Refers(c, r)
    ensures Select(c, rows, false) == []
  {
    if rows != [] {
      assert rows[0] in rows;
      NoneSelected(c, rows[1..]);
    }
  }

  lemma {:induction false} RunAfterCascade(db: Db, names: seq<Name>)
    requires Keyed(db) && db.cascades && TaskReschedule in db.tables && ReschedulesNameInstances(db)
    requires Checked(db, TaskInstance) && TaskInstance !in db.side && Checked(db, TaskReschedule)
    requires GoodOrder(names) && |names| >= 2 && names[0] == TaskInstance && names[1] == TaskReschedule
    ensures var v := CheckAll(db, names).0;
      && TaskReschedule in v.tables
      && v.tables[TaskReschedule] == Naming(db.tables[TaskReschedule], Gone(db), false)
      && (TaskReschedule in v.side <==> TaskReschedule in db.side)
    decreases |names|
  {
    var init, m := names[..|names| - 1], names[|names| - 1];
    CheckAllKeepsKeys(db, init);
    if |names| == 2 {
      FirstTwoRounds(db, names);
    } else {
      RunAfterCascade(db, init);
      RoundSparesOthers(CheckAll(db, init).0, m, TaskReschedule);
    }
  }

  lemma FirstTwoRounds(db: Db, names: seq<Name>)
    requires Keyed(db) && db.cascades && TaskReschedule in db.tables && ReschedulesNameInstances(db)
    requires Checked(db, TaskInstance) && TaskInstance !in db.side && Checked(db, TaskReschedule)
    requires names == [TaskInstance, TaskReschedule]
    ensures CheckAll(db, names).0 == CheckOne(db, TaskInstance).0
    ensures var v := CheckAll(db, names).0;
      && TaskReschedule in v.tables
      && v.tables[TaskReschedule] == Naming(db.tables[TaskReschedule], Gone(db), false)
      && (TaskReschedule in v.side <==> TaskReschedule in db.side)
  {
    var u := CheckOne(db, TaskInstance).0;
    assert names[..1] == [TaskInstance] && [TaskInstance][..0] == [];
    assert CheckAll(db, []) == (db, []);
    assert CheckAll(db, names[..1]).0 == u;
    NothingDanglesAfterCascade(db);
    assert CheckOne(u, TaskReschedule).0 == u;
    RoundOnInstances(db, TaskReschedule);
    RoundSparesOthers(db, TaskInstance, TaskReschedule);
  }

  /** A round on another table than task_instance leaves what is clean clean. */
  lemma RoundKeepsOthersClean(db: Db, n: Name, m: Name)
    requires Keyed(db) && n != TaskInstance && n != m && Clean(db, m)
    ensures Clean(CheckOne(db, n).0, m)
  {
    if Checked(db, n) {
      MoveSplits(db, n);
    }
  }

  /** A round without an error leaves its own table clean. */
  lemma RoundCleansItsTable(db: Db, n: Name)
    requires Keyed(db) && !CheckOne(db, n).1
    ensures Clean(CheckOne(db, n).0, n)
  {
    if Checked(db, n) && n !in db.side {
      var c := ContextOf(db, n);
      MoveSplits(db, n);
      var v := Move(db, n);
      KeptRowsStay(c, db.tables[n]);
      QueryFindsDangling(ContextOf(v, n), v.tables[n]);
      if n == TaskInstance {
        SelectAgainstRunsOnly(c, ContextOf(v, n), v.tables[n]);
      }
    }
  }

  /** Checking against dag_run does not look at task_instance. */
  lemma {:induction false} SelectAgainstRunsOnly(c: Context, d: Context, rows: seq<Row>)
    requires !c.againstInstances && !d.againstInstances && c.runs == d.runs
    ensures Select(c, rows, false) == Select(d, rows, false)
  {
    if rows != [] {
      SelectAgainstRunsOnly(c, d, rows[1..]);
    }
  }

  /** Rounds in an order that visits task_instance first, each table once. */
  predicate GoodOrder(names: seq<Name>) {
    && (forall i, j :: 0 <= i < j < |names| ==> names[i] != names[j])
    && (forall i :: 0 < i < |names| ==> names[i] != TaskInstance)
  }

  /** After a run, every table it visited is clean or reported. */
  lemma {:induction false} VisitedTablesAreCleanOrReported(db: Db, names: seq<Name>, n: Name)
    requires Keyed(db) && GoodOrder(names) && n in names
    ensures Clean(CheckAll(db, names).0, n) || n in CheckAll(db, names).1
    decreases |names|
  {
    var init, m := names[..|names| - 1], names[|names| - 1];
    var u := CheckAll(db, init).0;
    CheckAllKeepsKeys(db, init);
    if n == m {
      if !CheckOne(u, m).1 {
        RoundCleansItsTable(u, m);
      }
    } else {
      assert names == init + [m];
      assert n in init && m != TaskInstance;
      VisitedTablesAreCleanOrReported(db, init, n);
      if Clean(u, n) {
        RoundKeepsOthersClean(u, m, n);
      }
    }
  }

  /** A run on clean tables changes nothing and reports nothing, whichever side tables were kept or dropped. */
  lemma {:induction false} CleanDatabaseIsUntouched(db: Db, names: seq<Name>)
    requires Keyed(db) && forall n :: n in names ==> Clean(db, n)
    ensures CheckAll(db, names) == (db, [])
    decreases |names|
  {
    if names != [] {
      var init, n := names[..|names| - 1], names[|names| - 1];
      assert forall m :: m in init ==> m in names;
      CleanDatabaseIsUntouched(db, init);
      assert n in names;
    }
  }

  /**
   * Idempotence: after a run that reported nothing, a second run changes nothing and reports nothing,
   * even if the operator has dropped side tables (or made others) in between.
   */
  lemma SecondRunChangesNothing(db: Db, side: map<Name, seq<Row>>)
    requires Keyed(db) && CheckAll(db, MODELS).1 == []
    ensures var v := CheckAll(db, MODELS).0.(side := side); CheckAll(v, MODELS) == (v, [])
  {
    var u := CheckAll(db, MODELS).0;
    var v := u.(side := side);
    CheckAllKeepsKeys(db, MODELS);
    forall n | n in MODELS
      ensures Clean(v, n)
    {
      VisitedTablesAreCleanOrReported(db, MODELS, n);
      assert Clean(u, n) && ContextOf(v, n) == ContextOf(u, n);
    }
    CleanDatabaseIsUntouched(v, MODELS);
  }

  // ----- The method -----

  class AirflowDb {
    var db: Db

    constructor (db: Db)
      ensures this.db == db
    {
      this.db := db;
    }

    method MoveDanglingDataToNewTable(n: Name, parked: seq<Row>)
      requires KeyTablesExist(db) && n in db.tables && n !in db.side && parked == Parked(db, n)
      modifies this
      ensures db == Move(old(db), n)
    {
      db := db.(side := db.side[n := parked]);
      if |parked| == 0 {
        db := db.(side := db.side - {n});
        assert db.side == old(db).side;
      } else {
        db := db.(tables := AfterCascade(db, n, parked)[n := DeleteByKeys(db.tables[n], Pks(parked))]);
      }
    }

    method CheckTable(n: Name, existing: set<Name>) returns (error: bool)
      requires KeyTablesExist(db) && (n in existing <==> n in db.side)
      modifies this
      ensures (db, error) == CheckOne(old(db), n)
    {
      error := false;
      if n !in db.tables || n in db.migrated {
        return;
      }
      var bad := Parked(db, n);
      if n in existing {
        error := |bad| > 0;
      } else {
        MoveDanglingDataToNewTable(n, bad);
      }
    }

    /** The loop; the names of existing side tables are read once, before it. */
    method CheckTables(names: seq<Name>) returns (errors: seq<Name>)
      requires KeyTablesExist(db) && forall i, j :: 0 <= i < j < |names| ==> names[i] != names[j]
      modifies this
      ensures (db, errors) == CheckAll(old(db), names)
    {
      errors := [];
      var existing := db.side.Keys;
      for i := 0 to |names|
        invariant KeyTablesExist(db) && (db, errors) == CheckAll(old(db), names[..i])
        invariant forall j :: i <= j < |names| ==> (names[j] in existing <==> names[j] in db.side)
      {
        assert names[..i + 1][..i] == names[..i];
        var error := CheckTable(names[i], existing);
        if error {
          errors := errors + [names[i]];
        }
      }
      assert names[..|names|] == names;
    }

    method CheckBadReferences() returns (errors: seq<Name>)
      modifies this
      ensures if KeyTablesExist(old(db)) then (db, errors) == CheckAll(old(db), MODELS)
              else errors == [] && db == old(db)
    {
      if db.runs.None? || TaskInstance !in db.tables {
        return [];
      }
      errors := CheckTables(MODELS);
    }
  }
}
