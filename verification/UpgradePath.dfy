/**
 * A database from before 2.2 on its way up: the reference check, then the re-keying of task_instance
 * and task_reschedule (0093), then map_index (0100), then the re-keying of xcom (0102).
 */
module UpgradePath {
  import opened Options
  import opened Relations
  import opened RunKeys
  import Dangling = DanglingRows
  import Check = ReferenceCheck
  import Rekey = TaskInstanceRekey
  import XCom = XComRekey

  /** The tables that the migrations re-key, with their own columns. */
  datatype Tables = Tables(tis: seq<Rekey.Row>, trs: seq<Rekey.Row>, xcoms: seq<XCom.OldXCom>, runs: seq<RunKey>)

  // ----- The same rows as the reference check sees them -----

  function AsInstance(r: Rekey.Row): Dangling.Row {
    Dangling.Row((r.dag, r.task, if r.date.Some? then r.date.value else 0, ""), Some(r.dag), Some(r.task), r.date, None, r.payload)
  }

  function AsReschedule(r: Rekey.Row): Dangling.Row {
    Dangling.Row(("", "", r.id, ""), Some(r.dag), Some(r.task), r.date, None, r.payload)
  }

  predicate Represents(db: Check.Db, t: Tables) {
    && Check.TaskInstance in db.tables && db.tables[Check.TaskInstance] == Map(t.tis, AsInstance)
    && Check.TaskReschedule in db.tables && db.tables[Check.TaskReschedule] == Map(t.trs, AsReschedule)
    && Check.XCom in db.tables && db.tables[Check.XCom] == Map(t.xcoms, XCom.AsRow)
    && db.runs == Some(XCom.AsRuns(t.runs))
    && Check.TaskInstance !in db.migrated && Check.TaskReschedule !in db.migrated && Check.XCom !in db.migrated
  }

  /** What the columns themselves promise before 2.2: dates are NOT NULL, and there are no run ids yet. */
  predicate BeforeRunIds(t: Tables) {
    && UniqueRuns(t.runs)
    && (forall r :: r in t.tis ==> r.date.Some? && r.run.None?)
    && (forall r :: r in t.trs ==> r.date.Some? && r.run.None?)
  }

  // ----- What clean tables mean for the migrations -----

  lemma FromMap<T, U>(rows: seq<T>, f: T -> U, u: U) returns (r: T)
    requires u in Map(rows, f)
    ensures r in rows && u == f(r)
  {
    var i :| 0 <= i < |rows| && Map(rows, f)[i] == u;
    r := rows[i];
  }

  lemma FromRuns(runs: seq<RunKey>, dr: Dangling.NullableRun) returns (k: RunKey)
    requires dr in XCom.AsRuns(runs)
    ensures k in runs && dr == Dangling.NullableRun(Some(k.dag), Some(k.run), Some(k.date))
  {
    var i :| 0 <= i < |runs| && XCom.AsRuns(runs)[i] == dr;
    k := runs[i];
  }

  lemma RowsRefer(db: Check.Db, n: Check.Name, r: Dangling.Row)
    requires Check.Keyed(db) && Check.Checked(db, n) && Check.Clean(db, n) && r in db.tables[n]
    ensures Dangling.Refers(Check.ContextOf(db, n), r)
  {
    var c := Check.ContextOf(db, n);
    Dangling.QueryFindsDangling(c, db.tables[n]);
    assert r !in Dangling.Select(c, db.tables[n], false);
  }

  lemma RunFound(r: Rekey.Row, runs: seq<RunKey>, x: Dangling.Row, dr: Dangling.NullableRun)
    requires UniqueRuns(runs) && dr in XCom.AsRuns(runs) && Dangling.RunMatches(x, dr)
    requires x.dag == Some(r.dag) && x.date == r.date
    ensures Rekey.FirstMatch(Rekey.RunId, r, runs).Some?
    ensures r.date == Some(Rekey.FirstMatch(Rekey.RunId, r, runs).value.date)
    ensures dr.date == r.date && dr.dag == Some(r.dag)
  {
    var k := FromRuns(runs, dr);
    Rekey.OnlyMatch(Rekey.RunId, r, runs, k);
  }

  lemma InstancesMatched(db: Check.Db, t: Tables)
    requires Check.Keyed(db) && Represents(db, t) && BeforeRunIds(t) && Check.Clean(db, Check.TaskInstance)
    ensures Rekey.AllMatched(t.tis, t.runs)
  {
    forall r | r in t.tis
      ensures Rekey.FirstMatch(Rekey.RunId, r, t.runs).Some?
    {
      RowsRefer(db, Check.TaskInstance, AsInstance(r));
      var dr :| dr in XCom.AsRuns(t.runs) && Dangling.RunMatches(AsInstance(r), dr);
      RunFound(r, t.runs, AsInstance(r), dr);
    }
  }

  lemma RescheduleNames(db: Check.Db, t: Tables, r: Rekey.Row)
    requires Check.Keyed(db) && Represents(db, t) && BeforeRunIds(t) && Check.Clean(db, Check.TaskReschedule)
    requires r in t.trs
    ensures Rekey.FirstMatch(Rekey.RunId, r, t.runs).Some? && Rekey.NamesInstance(Rekey.ExecutionDate, r, t.tis)
  {
    var x := AsReschedule(r);
    RowsRefer(db, Check.TaskReschedule, x);
    var dr, i :| dr in XCom.AsRuns(t.runs) && i in Map(t.tis, AsInstance) && Dangling.RunMatches(x, dr)
                 && Dangling.InstanceOn(false)((x, Some(dr)), i);
    RunFound(r, t.runs, x, dr);
    var ti := FromMap(t.tis, AsInstance, i);
    assert ti.dag == r.dag && ti.task == r.task && SqlEq(ti.date, r.date);
  }

  lemma ReschedulesName(db: Check.Db, t: Tables)
    requires Check.Keyed(db) && Represents(db, t) && BeforeRunIds(t) && Check.Clean(db, Check.TaskReschedule)
    ensures Rekey.AllMatched(t.trs, t.runs)
    ensures forall r :: r in t.trs ==> Rekey.NamesInstance(Rekey.ExecutionDate, r, t.tis)
  {
    forall r | r in t.trs
      ensures Rekey.FirstMatch(Rekey.RunId, r, t.runs).Some? && Rekey.NamesInstance(Rekey.ExecutionDate, r, t.tis)
    {
      RescheduleNames(db, t, r);
    }
  }

  lemma InstanceKeysUnique(db: Check.Db, t: Tables)
    requires Check.Keyed(db) && Represents(db, t) && BeforeRunIds(t)
    ensures Rekey.UniqueKey(Rekey.ExecutionDate, t.tis)
  {
    var rows := Map(t.tis, AsInstance);
    forall i, j | 0 <= i < j < |t.tis| && t.tis[i].dag == t.tis[j].dag && t.tis[i].task == t.tis[j].task
      ensures t.tis[i].date != t.tis[j].date
    {
      assert rows[i].pk != rows[j].pk;
    }
  }

  /** 0093 meets every key it adds, and the dialect's form of it drops no row. */
  predicate RekeysRuns(t: Tables, dialect: Rekey.Dialect) {
    && Rekey.Kept(dialect, t.tis, t.runs) == t.tis
    && Rekey.RunKeysHold(Rekey.Rekeyed(t.tis, t.runs), Rekey.Rekeyed(t.trs, t.runs), t.runs)
  }

  /** 0093 on checked tables meets every key it adds, and no dialect's form of it drops a row. */
  lemma RunKeysHoldOnClean(db: Check.Db, t: Tables, dialect: Rekey.Dialect)
    requires Check.Keyed(db) && Represents(db, t) && BeforeRunIds(t)
    requires Check.Clean(db, Check.TaskInstance) && Check.Clean(db, Check.TaskReschedule)
    ensures RekeysRuns(t, dialect)
  {
    InstancesMatched(db, t);
    InstanceKeysUnique(db, t);
    ReschedulesName(db, t);
    Rekey.AllMatchedAreKept(dialect, t.tis, t.runs);
    Rekey.UpgradeSucceedsIff(t.tis, t.trs, t.runs);
  }

  // ----- Then xcom -----

  /** The task instances after 0093 and 0100. */
  function Instances(rows: seq<Rekey.Row>): (s: seq<XCom.Instance>)
    ensures forall r :: r in rows && r.run.Some? ==> XCom.Instance(r.dag, r.task, r.run.value, -1) in s
  {
    if rows == [] then []
    else if rows[0].run.Some? then [XCom.Instance(rows[0].dag, rows[0].task, rows[0].run.value, -1)] + Instances(rows[1..])
    else Instances(rows[1..])
  }

  lemma XComHasInstance(db: Check.Db, t: Tables, x: XCom.OldXCom)
    requires Check.Keyed(db) && Represents(db, t) && BeforeRunIds(t) && Check.Clean(db, Check.XCom)
    requires x in t.xcoms
    ensures XCom.Dated(x, t.runs)
    ensures XCom.HasUnmappedInstance(x, t.runs, Instances(Rekey.Rekeyed(t.tis, t.runs)))
  {
    RowsRefer(db, Check.XCom, XCom.AsRow(x));
    var dr, i :| dr in XCom.AsRuns(t.runs) && i in Map(t.tis, AsInstance) && Dangling.RunMatches(XCom.AsRow(x), dr)
                 && Dangling.InstanceOn(false)((XCom.AsRow(x), Some(dr)), i);
    var k := FromRuns(t.runs, dr);
    XCom.SameRunByDate(x, k, t.runs);
    var ti := FromMap(t.tis, AsInstance, i);
    InstanceRekeyed(t.tis, t.runs, ti, k);
  }

  lemma InstanceRekeyed(tis: seq<Rekey.Row>, runs: seq<RunKey>, ti: Rekey.Row, k: RunKey)
    requires UniqueRuns(runs) && ti in tis && k in runs && ti.dag == k.dag && ti.date == Some(k.date)
    ensures XCom.Instance(ti.dag, ti.task, k.run, -1) in Instances(Rekey.Rekeyed(tis, runs))
  {
    Rekey.OnlyMatch(Rekey.RunId, ti, runs, k);
    var j :| 0 <= j < |tis| && tis[j] == ti;
    Rekey.RekeyedRow(tis, runs, j);
    assert Rekey.Rekeyed(tis, runs)[j] in Rekey.Rekeyed(tis, runs);
  }

  /** 0102 after it drops no row and meets every key it adds. */
  predicate RekeysXCom(t: Tables) {
    var up := XCom.UpgradeRows(t.xcoms, t.runs);
    && |up| == |t.xcoms| && XCom.UniqueNew(up)
    && XCom.ForeignKeyHolds(up, Instances(Rekey.Rekeyed(t.tis, t.runs)))
  }

  /** 0102 on checked tables keeps every row and meets both keys it adds. */
  lemma XComKeysHoldOnClean(db: Check.Db, t: Tables)
    requires Check.Keyed(db) && Represents(db, t) && BeforeRunIds(t) && Check.Clean(db, Check.XCom)
    ensures RekeysXCom(t)
  {
    forall x | x in t.xcoms
      ensures XCom.Dated(x, t.runs)
      ensures XCom.HasUnmappedInstance(x, t.runs, Instances(Rekey.Rekeyed(t.tis, t.runs)))
    {
      XComHasInstance(db, t, x);
    }
    XCom.AllHaveRun(t.xcoms, t.runs);
    XCom.UpgradeThenDowngrade(t.xcoms, t.runs);
    XCom.UpgradeKeepsKeyUnique(t.xcoms, t.runs);
    XCom.ForeignKeyHoldsIff(t.xcoms, t.runs, Instances(Rekey.Rekeyed(t.tis, t.runs)));
  }

  // ----- The check leaves rows of the same tables -----

  lemma {:induction false} SelectOfMap<T>(c: Dangling.Context, rows: seq<T>, f: T -> Dangling.Row, refers: bool)
    returns (s: seq<T>)
    ensures Dangling.Select(c, Map(rows, f), refers) == Map(s, f)
    ensures forall r :: r in s ==> r in rows
  {
    if rows == [] {
      s := [];
    } else {
      assert Map(rows, f)[1..] == Map(rows[1..], f);
      s := SelectOfMap(c, rows[1..], f, refers);
      if Dangling.Refers(c, f(rows[0])) == refers {
        assert ([rows[0]] + s)[1..] == s;
        s := [rows[0]] + s;
      }
    }
  }

  lemma {:induction false} NamingOfMap<T>(rows: seq<T>, f: T -> Dangling.Row, gone: seq<Dangling.Row>, names: bool)
    returns (s: seq<T>)
    ensures Check.Naming(Map(rows, f), gone, names) == Map(s, f)
    ensures forall r :: r in s ==> r in rows
  {
    if rows == [] {
      s := [];
    } else {
      assert Map(rows, f)[1..] == Map(rows[1..], f);
      s := NamingOfMap(rows[1..], f, gone, names);
      if Check.NamesOneOf(f(rows[0]), gone) == names {
        assert ([rows[0]] + s)[1..] == s;
        s := [rows[0]] + s;
      }
    }
  }

  lemma RoundKeepsRows<T>(db: Check.Db, m: Check.Name, n: Check.Name, rows: seq<T>, f: T -> Dangling.Row)
    returns (s: seq<T>)
    requires Check.Keyed(db) && n in db.tables && db.tables[n] == Map(rows, f)
    ensures n in Check.CheckOne(db, m).0.tables && Check.CheckOne(db, m).0.tables[n] == Map(s, f)
    ensures forall r :: r in s ==> r in rows
  {
    s := rows;
    if Check.Checked(db, m) && m !in db.side {
      Check.MoveSplits(db, m);
      var c := Check.ContextOf(db, m);
      if m == n {
        s := SelectOfMap(c, rows, f, true);
      } else if Check.Reaches(db, m, n) {
        s := NamingOfMap(rows, f, Dangling.Select(c, db.tables[m], false), false);
      }
    }
  }

  lemma {:induction false} CheckKeepsRows<T>(db: Check.Db, names: seq<Check.Name>, n: Check.Name, rows: seq<T>, f: T -> Dangling.Row)
    returns (s: seq<T>)
    requires Check.Keyed(db) && n in db.tables && db.tables[n] == Map(rows, f)
    ensures n in Check.CheckAll(db, names).0.tables && Check.CheckAll(db, names).0.tables[n] == Map(s, f)
    ensures forall r :: r in s ==> r in rows
    decreases |names|
  {
    if names == [] {
      s := rows;
    } else {
      var init := names[..|names| - 1];
      Check.CheckAllKeepsKeys(db, init);
      s := CheckKeepsRows(db, init, n, rows, f);
      s := RoundKeepsRows(Check.CheckAll(db, init).0, names[|names| - 1], n, s, f);
    }
  }

  lemma CheckedTables(db: Check.Db, t: Tables) returns (kept: Tables)
    requires Check.Keyed(db) && Represents(db, t) && BeforeRunIds(t)
    ensures Check.Keyed(Check.CheckAll(db, Check.MODELS).0)
    ensures Represents(Check.CheckAll(db, Check.MODELS).0, kept) && BeforeRunIds(kept) && kept.runs == t.runs
    ensures (forall r :: r in kept.tis ==> r in t.tis) && (forall r :: r in kept.trs ==> r in t.trs)
    ensures forall x :: x in kept.xcoms ==> x in t.xcoms
  {
    Check.CheckAllKeepsKeys(db, Check.MODELS);
    var tis := CheckKeepsRows(db, Check.MODELS, Check.TaskInstance, t.tis, AsInstance);
    var trs := CheckKeepsRows(db, Check.MODELS, Check.TaskReschedule, t.trs, AsReschedule);
    var xcoms := CheckKeepsRows(db, Check.MODELS, Check.XCom, t.xcoms, XCom.AsRow);
    kept := Tables(tis, trs, xcoms, t.runs);
  }

  /**
   * The whole way: if the reference check reports nothing, then in every dialect 0093 drops no row the
   * check has kept and meets its NOT NULL, primary and foreign keys, and so does 0102 after it.
   */
  lemma CheckedDatabaseUpgrades(db: Check.Db, t: Tables, dialect: Rekey.Dialect) returns (kept: Tables)
    requires Check.Keyed(db) && Represents(db, t) && BeforeRunIds(t)
    requires Check.CheckAll(db, Check.MODELS).1 == []
    ensures Represents(Check.CheckAll(db, Check.MODELS).0, kept) && kept.runs == t.runs
    ensures RekeysRuns(kept, dialect) && RekeysXCom(kept)
  {
    kept := CheckedTables(db, t);
    var v := Check.CheckAll(db, Check.MODELS).0;
    Check.VisitedTablesAreCleanOrReported(db, Check.MODELS, Check.TaskInstance);
    Check.VisitedTablesAreCleanOrReported(db, Check.MODELS, Check.TaskReschedule);
    Check.VisitedTablesAreCleanOrReported(db, Check.MODELS, Check.XCom);
    RunKeysHoldOnClean(v, kept, dialect);
    XComKeysHoldOnClean(v, kept);
  }

  // ----- From 2.2 -----

  /** The same row in columns: its run, and an instance of its task in that run. */
  predicate HasInstanceOfRun(x: XCom.OldXCom, runs: seq<RunKey>, tis: seq<Dangling.Row>) {
    exists k, ti :: k in runs && ti in tis && k.dag == x.dag && k.date == x.date
                    && ti.dag == Some(x.dag) && ti.task == Some(x.task) && ti.run == Some(k.run)
  }

  lemma AnchoredIff(x: XCom.OldXCom, runs: seq<RunKey>, tis: seq<Dangling.Row>)
    ensures XCom.Anchored(x, runs, tis, true) <==> HasInstanceOfRun(x, runs, tis)
  {
    var s := XCom.AsRuns(runs);
    if XCom.Anchored(x, runs, tis, true) {
      var dr, ti :| dr in s && ti in tis && Dangling.RunMatches(XCom.AsRow(x), dr)
                    && Dangling.InstanceOn(true)((XCom.AsRow(x), Some(dr)), ti);
      var k := FromRuns(runs, dr);
    }
    if k, ti :| k in runs && ti in tis && k.dag == x.dag && k.date == x.date
                && ti.dag == Some(x.dag) && ti.task == Some(x.task) && ti.run == Some(k.run) {
      var i :| 0 <= i < |runs| && runs[i] == k;
      assert Dangling.RunMatches(XCom.AsRow(x), s[i]) && s[i] in s;
      assert Dangling.InstanceOn(true)((XCom.AsRow(x), Some(s[i])), ti);
    }
  }

  /**
   * From 2.2, where task_instance has its run_id: the reference check leaves of xcom exactly the rows with
   * a run and an instance of their task in that run, and 0102, after 0100 has given every task instance
   * map_index -1, drops none of them and meets both keys it adds.
   */
  lemma CheckedXComUpgrades(db: Check.Db, xcoms: seq<XCom.OldXCom>, runs: seq<RunKey>) returns (kept: seq<XCom.OldXCom>)
    requires Check.Keyed(db) && db.runs == Some(XCom.AsRuns(runs)) && UniqueRuns(runs)
    requires Check.TaskInstance in db.migrated
    requires Check.Checked(db, Check.XCom) && Check.XCom !in db.side
    requires db.tables[Check.XCom] == Map(xcoms, XCom.AsRow)
    ensures forall x :: x in kept <==> x in xcoms && HasInstanceOfRun(x, runs, db.tables[Check.TaskInstance])
    ensures var v := Check.CheckAll(db, Check.MODELS).0;
      Check.XCom in v.tables && v.tables[Check.XCom] == Map(kept, XCom.AsRow)
    ensures var up := XCom.UpgradeRows(kept, runs);
      && |up| == |kept| && XCom.UniqueNew(up)
      && XCom.ForeignKeyHolds(up, XCom.Indexed(db.tables[Check.TaskInstance]))
  {
    var tis := db.tables[Check.TaskInstance];
    kept := XCom.Cleaned(xcoms, runs, tis, true);
    forall x
      ensures XCom.Anchored(x, runs, tis, true) <==> HasInstanceOfRun(x, runs, tis)
    {
      AnchoredIff(x, runs, tis);
    }
    Check.RunLeavesReferring(db, Check.MODELS, Check.XCom);
    XCom.CleanedIsSelected(xcoms, runs, tis, true);
    XComRowsUnique(db, xcoms);
    XCom.RekeyPreservesData(xcoms, runs, tis, true);
    XCom.UpgradeSucceedsOnCleaned(xcoms, runs, tis);
  }

  lemma XComRowsUnique(db: Check.Db, xcoms: seq<XCom.OldXCom>)
    requires Check.Keyed(db) && Check.XCom in db.tables && db.tables[Check.XCom] == Map(xcoms, XCom.AsRow)
    ensures XCom.UniqueOld(xcoms)
  {
    var rows := Map(xcoms, XCom.AsRow);
    forall i, j | 0 <= i < j < |xcoms|
      ensures (xcoms[i].dag, xcoms[i].task, xcoms[i].date, xcoms[i].key) != (xcoms[j].dag, xcoms[j].task, xcoms[j].date, xcoms[j].key)
    {
      assert rows[i].pk != rows[j].pk;
    }
  }
}
