/** Migration 0102: the xcom table re-keyed from execution_date to run_id, and back. */
module XComRekey {
  import opened Options
  import opened Relations
  import opened RunKeys
  import DanglingRows

  datatype OldXCom = OldXCom(
    key: string, value: Option<string>, timestamp: int, task: string, dag: string, date: int)

  datatype NewXCom = NewXCom(
    dagRunId: int, task: string, key: string, value: Option<string>, timestamp: int, dag: string, run: string, mapIndex: int)

  /** The primary key of task_instance, once it has a map_index. */
  datatype Instance = Instance(dag: string, task: string, run: string, mapIndex: int)

  // ----- The two queries -----

  predicate OnDate(x: OldXCom, dr: RunKey) {
    x.dag == dr.dag && x.date == dr.date
  }

  function ToNew(p: (OldXCom, RunKey)): NewXCom {
    NewXCom(p.1.id, p.0.task, p.0.key, p.0.value, p.0.timestamp, p.0.dag, p.1.run, -1)
  }

  function UpgradeRows(rows: seq<OldXCom>, runs: seq<RunKey>): seq<NewXCom> {
    Map(Join(rows, runs, OnDate), ToNew)
  }

  predicate OnRun(x: NewXCom, dr: RunKey) {
    x.dag == dr.dag && x.run == dr.run
  }

  function ToOld(p: (NewXCom, RunKey)): OldXCom {
    OldXCom(p.0.key, p.0.value, p.0.timestamp, p.0.task, p.0.dag, p.1.date)
  }

  predicate Unmapped(x: NewXCom) {
    x.mapIndex == -1
  }

  /** Entries of mapped task instances are deleted first. */
  function DowngradeRows(rows: seq<NewXCom>, runs: seq<RunKey>): seq<OldXCom> {
    Map(Join(Filter(rows, Unmapped), runs, OnRun), ToOld)
  }

  // ----- Keys -----

  predicate UniqueOld(rows: seq<OldXCom>) {
    forall i, j :: 0 <= i < j < |rows| ==>
      (rows[i].dag, rows[i].task, rows[i].date, rows[i].key) != (rows[j].dag, rows[j].task, rows[j].date, rows[j].key)
  }

  /** The new primary key. */
  predicate UniqueNew(rows: seq<NewXCom>) {
    forall i, j :: 0 <= i < j < |rows| ==>
      (rows[i].dagRunId, rows[i].task, rows[i].mapIndex, rows[i].key)
      != (rows[j].dagRunId, rows[j].task, rows[j].mapIndex, rows[j].key)
  }

  // ----- Each row finds at most one run -----

  /** The run of a row by its date, and by its run id. */
  function RunByDate(x: OldXCom, runs: seq<RunKey>): (dr: Option<RunKey>)
    ensures dr.Some? ==> dr.value in runs && OnDate(x, dr.value)
    ensures dr.None? ==> forall d :: d in runs ==> !OnDate(x, d)
  {
    if runs == [] then None else if OnDate(x, runs[0]) then Some(runs[0]) else RunByDate(x, runs[1..])
  }

  function RunById(x: NewXCom, runs: seq<RunKey>): (dr: Option<RunKey>)
    ensures dr.Some? ==> dr.value in runs && OnRun(x, dr.value)
    ensures dr.None? ==> forall d :: d in runs ==> !OnRun(x, d)
  {
    if runs == [] then None else if OnRun(x, runs[0]) then Some(runs[0]) else RunById(x, runs[1..])
  }

  /** The upgrade of one row. */
  function UpgradeOne(x: OldXCom, runs: seq<RunKey>): seq<NewXCom> {
    match RunByDate(x, runs)
    case Some(dr) => [ToNew((x, dr))]
    case None => []
  }

  function DowngradeOne(y: NewXCom, runs: seq<RunKey>): seq<OldXCom> {
    match RunById(y, runs)
    case Some(dr) => if Unmapped(y) then [ToOld((y, dr))] else []
    case None => []
  }

  lemma {:induction false} UpgradeRowByRow(rows: seq<OldXCom>, runs: seq<RunKey>)
    requires UniqueRuns(runs) && rows != []
    ensures UpgradeRows(rows, runs) == UpgradeOne(rows[0], runs) + UpgradeRows(rows[1..], runs)
  {
    var x := rows[0];
    var head := PairWith(x, Matches(x, runs, OnDate));
    match RunByDate(x, runs) {
      case Some(dr) =>
        OneMatch(x, runs, OnDate, dr);
        assert head == [(x, dr)];
        assert Map(head, ToNew) == [ToNew((x, dr))];
      case None =>
        NoMatch(x, runs, OnDate);
        assert head == [];
    }
  }

  lemma {:induction false} DowngradeRowByRow(rows: seq<NewXCom>, runs: seq<RunKey>)
    requires UniqueRuns(runs) && rows != []
    ensures DowngradeRows(rows, runs) == DowngradeOne(rows[0], runs) + DowngradeRows(rows[1..], runs)
  {
    var y := rows[0];
    var rest := Filter(rows[1..], Unmapped);
    if Unmapped(y) {
      assert ([y] + rest)[1..] == rest;
      var head := PairWith(y, Matches(y, runs, OnRun));
      match RunById(y, runs) {
        case Some(dr) =>
          OneMatch(y, runs, OnRun, dr);
          assert head == [(y, dr)];
          assert Map(head, ToOld) == [ToOld((y, dr))];
        case None =>
          NoMatch(y, runs, OnRun);
          assert head == [];
      }
    }
  }

  predicate Dated(x: OldXCom, runs: seq<RunKey>) {
    RunByDate(x, runs).Some?
  }

  function DatedRows(rows: seq<OldXCom>, runs: seq<RunKey>): (s: seq<OldXCom>)
    ensures forall x :: x in s <==> x in rows && Dated(x, runs)
  {
    if rows == [] then []
    else if Dated(rows[0], runs) then [rows[0]] + DatedRows(rows[1..], runs)
    else DatedRows(rows[1..], runs)
  }

  // ----- Round trips -----

  /** Upgrade, then downgrade: exactly the rows that had a run come back, as they were. */
  lemma {:induction false} UpgradeThenDowngrade(rows: seq<OldXCom>, runs: seq<RunKey>)
    requires UniqueRuns(runs)
    ensures DowngradeRows(UpgradeRows(rows, runs), runs) == DatedRows(rows, runs)
    ensures |UpgradeRows(rows, runs)| == |DatedRows(rows, runs)|
  {
    if rows != [] {
      var x := rows[0];
      UpgradeThenDowngrade(rows[1..], runs);
      UpgradeRowByRow(rows, runs);
      if Dated(x, runs) {
        var dr := RunByDate(x, runs).value;
        var y := ToNew((x, dr));
        var up := UpgradeRows(rows, runs);
        assert up[1..] == UpgradeRows(rows[1..], runs) && up[0] == y;
        DowngradeRowByRow(up, runs);
        assert ToOld((y, dr)) == x;
      } else {
        assert UpgradeRows(rows, runs) == UpgradeRows(rows[1..], runs);
      }
    }
  }

  lemma SameRunByDate(x: OldXCom, dr: RunKey, runs: seq<RunKey>)
    requires UniqueRuns(runs) && dr in runs && OnDate(x, dr)
    ensures RunByDate(x, runs) == Some(dr)
  {
    SameRun(dr, RunByDate(x, runs).value, runs);
  }

  /** A new row names its run by id and by (dag_id, run_id) alike. */
  predicate NamesItsRun(y: NewXCom, runs: seq<RunKey>) {
    exists dr :: dr in runs && OnRun(y, dr) && y.dagRunId == dr.id
  }

  /** Downgrade, then upgrade: exactly the entries of unmapped task instances come back. */
  lemma {:induction false} DowngradeThenUpgrade(rows: seq<NewXCom>, runs: seq<RunKey>)
    requires UniqueRuns(runs) && forall y :: y in rows ==> NamesItsRun(y, runs)
    ensures UpgradeRows(DowngradeRows(rows, runs), runs) == Filter(rows, Unmapped)
  {
    if rows != [] {
      var y := rows[0];
      assert y in rows;
      DowngradeThenUpgrade(rows[1..], runs);
      DowngradeRowByRow(rows, runs);
      var dr :| dr in runs && OnRun(y, dr) && y.dagRunId == dr.id;
      if Unmapped(y) {
        var x := ToOld((y, dr));
        var down := DowngradeRows(rows, runs);
        assert down[1..] == DowngradeRows(rows[1..], runs) && down[0] == x;
        UpgradeRowByRow(down, runs);
        SameRunByDate(x, dr, runs);
      }
    }
  }

  // ----- The new primary key -----

  /** Every upgraded row comes from a row of the table and its run. */
  lemma {:induction false} UpgradedFrom(rows: seq<OldXCom>, runs: seq<RunKey>, k: nat) returns (i: nat)
    requires UniqueRuns(runs) && k < |UpgradeRows(rows, runs)|
    ensures i < |rows| && Dated(rows[i], runs)
    ensures UpgradeRows(rows, runs)[k] == ToNew((rows[i], RunByDate(rows[i], runs).value))
  {
    UpgradeRowByRow(rows, runs);
    var h := |UpgradeOne(rows[0], runs)|;
    if k < h {
      i := 0;
    } else {
      i := UpgradedFrom(rows[1..], runs, k - h);
      i := i + 1;
    }
  }

  /** The upgraded row of an old row and its run, column by column. */
  function InNewColumns(x: OldXCom, dr: RunKey): NewXCom {
    NewXCom(dr.id, x.task, x.key, x.value, x.timestamp, x.dag, dr.run, -1)
  }

  /** Exactly which rows the upgraded table holds. */
  lemma UpgradeHoldsIff(rows: seq<OldXCom>, runs: seq<RunKey>, y: NewXCom)
    requires UniqueRuns(runs)
    ensures y in UpgradeRows(rows, runs) <==>
      exists x, dr :: x in rows && dr in runs && x.dag == dr.dag && x.date == dr.date && y == InNewColumns(x, dr)
  {
    var up := UpgradeRows(rows, runs);
    if y in up {
      var k :| 0 <= k < |up| && up[k] == y;
      var i := UpgradedFrom(rows, runs, k);
      assert rows[i] in rows && y == InNewColumns(rows[i], RunByDate(rows[i], runs).value);
    }
    if x, dr :| x in rows && dr in runs && x.dag == dr.dag && x.date == dr.date && y == InNewColumns(x, dr) {
      var i :| 0 <= i < |rows| && rows[i] == x;
      SameRunByDate(x, dr, runs);
      var k := UpgradedTo(rows, runs, i);
      assert up[k] in up;
    }
  }

  /** The downgraded row of an entry and its run, column by column. */
  function InOldColumns(y: NewXCom, dr: RunKey): OldXCom {
    OldXCom(y.key, y.value, y.timestamp, y.task, y.dag, dr.date)
  }

  /** Exactly which rows the downgraded table holds: those of unmapped task instances only. */
  lemma {:induction false} DowngradeHoldsIff(rows: seq<NewXCom>, runs: seq<RunKey>, x: OldXCom)
    requires UniqueRuns(runs)
    ensures x in DowngradeRows(rows, runs) <==>
      exists y, dr :: y in rows && dr in runs && y.mapIndex == -1 && y.dag == dr.dag && y.run == dr.run && x == InOldColumns(y, dr)
  {
    if rows != [] {
      DowngradeHoldsIff(rows[1..], runs, x);
      DowngradeRowByRow(rows, runs);
      assert forall y :: y in rows <==> y == rows[0] || y in rows[1..];
      if dr :| dr in runs && rows[0].mapIndex == -1 && rows[0].dag == dr.dag && rows[0].run == dr.run && x == InOldColumns(rows[0], dr) {
        SameRun(dr, RunById(rows[0], runs).value, runs);
      }
      if x in DowngradeOne(rows[0], runs) {
        assert x == InOldColumns(rows[0], RunById(rows[0], runs).value);
      }
    }
  }

  /** Uniqueness of the old key carries over to (dag_run_id, task_id, map_index, key). */
  lemma {:induction false} UpgradeKeepsKeyUnique(rows: seq<OldXCom>, runs: seq<RunKey>)
    requires UniqueRuns(runs) && UniqueOld(rows)
    ensures UniqueNew(UpgradeRows(rows, runs))
  {
    if rows != [] {
      UpgradeKeepsKeyUnique(rows[1..], runs);
      UpgradeRowByRow(rows, runs);
      if Dated(rows[0], runs) {
        var rest := UpgradeRows(rows[1..], runs);
        forall k | 0 <= k < |rest|
          ensures (rest[k].dagRunId, rest[k].task, rest[k].mapIndex, rest[k].key)
               != (RunByDate(rows[0], runs).value.id, rows[0].task, -1, rows[0].key)
        {
          var i := UpgradedFrom(rows[1..], runs, k);
          assert rows[1..][i] == rows[1 + i];
          if RunByDate(rows[0], runs).value.id == rest[k].dagRunId {
            SameRun(RunByDate(rows[0], runs).value, RunByDate(rows[1 + i], runs).value, runs);
          }
        }
      } else {
        assert UpgradeRows(rows, runs) == UpgradeRows(rows[1..], runs);
      }
    }
  }

  // ----- After the dangling rows were parked -----

  /** The same rows as the reference check sees them. */
  function AsRow(x: OldXCom): DanglingRows.Row {
    DanglingRows.Row((x.dag, x.task, x.date, x.key), Some(x.dag), Some(x.task), Some(x.date), None, x.key)
  }

  function AsRuns(runs: seq<RunKey>): (s: seq<DanglingRows.NullableRun>)
    ensures |s| == |runs|
    ensures forall i :: 0 <= i < |runs| ==> s[i] == DanglingRows.NullableRun(Some(runs[i].dag), Some(runs[i].run), Some(runs[i].date))
  {
    if runs == [] then []
    else [DanglingRows.NullableRun(Some(runs[0].dag), Some(runs[0].run), Some(runs[0].date))] + AsRuns(runs[1..])
  }

  /** The row has a dag run and a task instance of it. */
  predicate Anchored(x: OldXCom, runs: seq<RunKey>, tis: seq<DanglingRows.Row>, byRunId: bool) {
    DanglingRows.HasInstance(AsRow(x), AsRuns(runs), tis, byRunId)
  }

  /** What parking leaves of the table. */
  function Cleaned(rows: seq<OldXCom>, runs: seq<RunKey>, tis: seq<DanglingRows.Row>, byRunId: bool): (s: seq<OldXCom>)
    ensures forall x :: x in s <==> x in rows && Anchored(x, runs, tis, byRunId)
  {
    if rows == [] then []
    else if Anchored(rows[0], runs, tis, byRunId) then [rows[0]] + Cleaned(rows[1..], runs, tis, byRunId)
    else Cleaned(rows[1..], runs, tis, byRunId)
  }

  function CheckContext(runs: seq<RunKey>, tis: seq<DanglingRows.Row>, byRunId: bool): DanglingRows.Context {
    DanglingRows.Context(true, AsRuns(runs), tis, byRunId)
  }

  lemma {:induction false} CleanedIsSelected(rows: seq<OldXCom>, runs: seq<RunKey>, tis: seq<DanglingRows.Row>, byRunId: bool)
    ensures Map(Cleaned(rows, runs, tis, byRunId), AsRow)
         == DanglingRows.Select(CheckContext(runs, tis, byRunId), Map(rows, AsRow), true)
  {
    if rows != [] {
      CleanedIsSelected(rows[1..], runs, tis, byRunId);
      assert Map(rows, AsRow)[1..] == Map(rows[1..], AsRow);
      var k := Cleaned(rows[1..], runs, tis, byRunId);
      assert ([rows[0]] + k)[1..] == k;
    }
  }

  /** It is what the reference check's query and delete leave, as its keys are those of the tables. */
  lemma CleanedIsWhatParkingLeaves(rows: seq<OldXCom>, runs: seq<RunKey>, tis: seq<DanglingRows.Row>, byRunId: bool)
    requires UniqueOld(rows) && UniqueRuns(runs)
    ensures var t := Map(rows, AsRow);
      DanglingRows.DeleteByKeys(t, DanglingRows.Pks(DanglingRows.BadRows(CheckContext(runs, tis, byRunId), t)))
      == Map(Cleaned(rows, runs, tis, byRunId), AsRow)
  {
    CleanedIsSelected(rows, runs, tis, byRunId);
    DanglingRows.MoveSplitsTable(CheckContext(runs, tis, byRunId), Map(rows, AsRow));
  }

  lemma AnchoredHasRun(x: OldXCom, runs: seq<RunKey>, tis: seq<DanglingRows.Row>, byRunId: bool)
    requires Anchored(x, runs, tis, byRunId)
    ensures Dated(x, runs)
  {
    var s := AsRuns(runs);
    var dr, ti :| dr in s && ti in tis && DanglingRows.RunMatches(AsRow(x), dr)
                  && DanglingRows.InstanceOn(byRunId)((AsRow(x), Some(dr)), ti);
    var i :| 0 <= i < |s| && s[i] == dr;
    assert OnDate(x, runs[i]) && runs[i] in runs;
  }

  lemma {:induction false} AllHaveRun(rows: seq<OldXCom>, runs: seq<RunKey>)
    requires forall x :: x in rows ==> Dated(x, runs)
    ensures DatedRows(rows, runs) == rows
  {
    if rows != [] {
      assert rows[0] in rows;
      AllHaveRun(rows[1..], runs);
    }
  }

  /**
   * End to end: parking, then the upgrade, then the downgrade give back exactly the rows that had a run
   * and a task instance; the upgrade drops none of them, and its rows satisfy the new primary key.
   */
  lemma RekeyPreservesData(rows: seq<OldXCom>, runs: seq<RunKey>, tis: seq<DanglingRows.Row>, byRunId: bool)
    requires UniqueRuns(runs) && UniqueOld(rows)
    ensures var kept := Cleaned(rows, runs, tis, byRunId);
      && DowngradeRows(UpgradeRows(kept, runs), runs) == kept
      && |UpgradeRows(kept, runs)| == |kept|
      && UniqueNew(UpgradeRows(kept, runs))
  {
    var kept := Cleaned(rows, runs, tis, byRunId);
    forall x | x in kept
      ensures Dated(x, runs)
    {
      AnchoredHasRun(x, runs, tis, byRunId);
    }
    AllHaveRun(kept, runs);
    UpgradeThenDowngrade(kept, runs);
    CleanedKeepsKeyUnique(rows, runs, tis, byRunId);
    UpgradeKeepsKeyUnique(kept, runs);
  }

  lemma {:induction false} CleanedKeepsKeyUnique(rows: seq<OldXCom>, runs: seq<RunKey>, tis: seq<DanglingRows.Row>, byRunId: bool)
    requires UniqueOld(rows)
    ensures UniqueOld(Cleaned(rows, runs, tis, byRunId))
  {
    if rows != [] {
      CleanedKeepsKeyUnique(rows[1..], runs, tis, byRunId);
      var k := Cleaned(rows[1..], runs, tis, byRunId);
      forall j | 0 <= j < |k|
        ensures (rows[0].dag, rows[0].task, rows[0].date, rows[0].key) != (k[j].dag, k[j].task, k[j].date, k[j].key)
      {
        assert k[j] in k;
        var i :| 0 <= i < |rows| - 1 && rows[1..][i] == k[j];
        assert rows[i + 1] == k[j];
      }
    }
  }

  /** The foreign key the upgrade adds: (dag_id, task_id, run_id, map_index) of a task instance. */
  predicate HasTaskInstance(y: NewXCom, tis: seq<Instance>) {
    Instance(y.dag, y.task, y.run, y.mapIndex) in tis
  }

  predicate ForeignKeyHolds(rows: seq<NewXCom>, tis: seq<Instance>) {
    forall y :: y in rows ==> HasTaskInstance(y, tis)
  }

  /** The row's run has an unmapped instance of the row's task. */
  predicate HasUnmappedInstance(x: OldXCom, runs: seq<RunKey>, tis: seq<Instance>)
    requires Dated(x, runs)
  {
    Instance(x.dag, x.task, RunByDate(x, runs).value.run, -1) in tis
  }

  /** Where the upgraded rows of the tail are in the whole table. */
  lemma UpgradedAfter(rows: seq<OldXCom>, runs: seq<RunKey>, j: nat) returns (k: nat)
    requires UniqueRuns(runs) && rows != [] && j < |UpgradeRows(rows[1..], runs)|
    ensures k < |UpgradeRows(rows, runs)| && UpgradeRows(rows, runs)[k] == UpgradeRows(rows[1..], runs)[j]
  {
    UpgradeRowByRow(rows, runs);
    k := |UpgradeOne(rows[0], runs)| + j;
  }

  lemma UpgradedFirst(rows: seq<OldXCom>, runs: seq<RunKey>)
    requires UniqueRuns(runs) && rows != [] && Dated(rows[0], runs)
    ensures |UpgradeRows(rows, runs)| > 0
    ensures UpgradeRows(rows, runs)[0] == ToNew((rows[0], RunByDate(rows[0], runs).value))
  {
    UpgradeRowByRow(rows, runs);
  }

  lemma {:induction false} UpgradedTo(rows: seq<OldXCom>, runs: seq<RunKey>, i: nat) returns (k: nat)
    requires UniqueRuns(runs) && i < |rows| && Dated(rows[i], runs)
    ensures k < |UpgradeRows(rows, runs)|
    ensures UpgradeRows(rows, runs)[k] == ToNew((rows[i], RunByDate(rows[i], runs).value))
  {
    if i == 0 {
      UpgradedFirst(rows, runs);
      k := 0;
    } else {
      assert rows[1..][i - 1] == rows[i];
      var j := UpgradedTo(rows[1..], runs, i - 1);
      k := UpgradedAfter(rows, runs, j);
    }
  }

  /** Exactly when the upgraded rows meet the foreign key, whatever else there is in task_instance. */
  lemma ForeignKeyHoldsIff(rows: seq<OldXCom>, runs: seq<RunKey>, tis: seq<Instance>)
    requires UniqueRuns(runs)
    ensures ForeignKeyHolds(UpgradeRows(rows, runs), tis)
       <==> forall x :: x in rows && Dated(x, runs) ==> HasUnmappedInstance(x, runs, tis)
  {
    var up := UpgradeRows(rows, runs);
    forall x | x in rows && Dated(x, runs)
      ensures ForeignKeyHolds(up, tis) ==> HasUnmappedInstance(x, runs, tis)
    {
      var i :| 0 <= i < |rows| && rows[i] == x;
      var k := UpgradedTo(rows, runs, i);
      assert up[k] in up;
    }
    forall y | y in up
      ensures (forall x :: x in rows && Dated(x, runs) ==> HasUnmappedInstance(x, runs, tis)) ==> HasTaskInstance(y, tis)
    {
      var k :| 0 <= k < |up| && up[k] == y;
      var i := UpgradedFrom(rows, runs, k);
      assert rows[i] in rows;
    }
  }

  /** Migration 0100 gives every task instance the map_index -1. */
  function Indexed(tis: seq<DanglingRows.Row>): (s: seq<Instance>)
    ensures forall ti :: ti in tis && ti.dag.Some? && ti.task.Some? && ti.run.Some? ==>
      Instance(ti.dag.value, ti.task.value, ti.run.value, -1) in s
  {
    if tis == [] then []
    else
      var ti, rest := tis[0], Indexed(tis[1..]);
      if ti.dag.Some? && ti.task.Some? && ti.run.Some? then [Instance(ti.dag.value, ti.task.value, ti.run.value, -1)] + rest
      else rest
  }

  /** With task instances keyed by run id, a cleaned row has an unmapped one. */
  lemma CleanedHasInstance(x: OldXCom, runs: seq<RunKey>, tis: seq<DanglingRows.Row>)
    requires UniqueRuns(runs) && Anchored(x, runs, tis, true)
    ensures Dated(x, runs) && HasUnmappedInstance(x, runs, Indexed(tis))
  {
    AnchoredHasRun(x, runs, tis, true);
    var s := AsRuns(runs);
    var dr, ti :| dr in s && ti in tis && DanglingRows.RunMatches(AsRow(x), dr)
                  && DanglingRows.InstanceOn(true)((AsRow(x), Some(dr)), ti);
    var j :| 0 <= j < |s| && s[j] == dr;
    SameRunByDate(x, runs[j], runs);
  }

  /** So on the cleaned table of a 2.2 database both constraints the upgrade adds hold. */
  lemma UpgradeSucceedsOnCleaned(rows: seq<OldXCom>, runs: seq<RunKey>, tis: seq<DanglingRows.Row>)
    requires UniqueRuns(runs) && UniqueOld(rows)
    ensures var up := UpgradeRows(Cleaned(rows, runs, tis, true), runs);
      UniqueNew(up) && ForeignKeyHolds(up, Indexed(tis))
  {
    var kept := Cleaned(rows, runs, tis, true);
    RekeyPreservesData(rows, runs, tis, true);
    forall x | x in kept && Dated(x, runs)
      ensures HasUnmappedInstance(x, runs, Indexed(tis))
    {
      CleanedHasInstance(x, runs, tis);
    }
    ForeignKeyHoldsIff(kept, runs, Indexed(tis));
  }

  // ----- The migration steps -----

  datatype Table = ByDate(byDate: seq<OldXCom>) | ByRun(byRun: seq<NewXCom>)

  class XComMigration {
    var xcom: Option<Table>
    var tmp: Option<Table>
    const runs: seq<RunKey>
    const taskInstances: seq<Instance>

    constructor (rows: seq<OldXCom>, runs: seq<RunKey>, taskInstances: seq<Instance>)
      ensures xcom == Some(ByDate(rows)) && tmp == None && this.runs == runs && this.taskInstances == taskInstances
    {
      xcom, tmp := Some(ByDate(rows)), None;
      this.runs, this.taskInstances := runs, taskInstances;
    }

    /** Fill a temporary table, put it in place of xcom, then add the keys; `ok` says whether they hold. */
    method Upgrade() returns (ok: bool)
      requires xcom.Some? && xcom.value.ByDate? && tmp.None?
      modifies this
      ensures var rows := UpgradeRows(old(xcom).value.byDate, runs);
        && xcom == Some(ByRun(rows)) && tmp == None
        && (ok <==> UniqueNew(rows) && ForeignKeyHolds(rows, taskInstances))
    {
      tmp := Some(ByRun([]));
      tmp := Some(ByRun(tmp.value.byRun + UpgradeRows(xcom.value.byDate, runs)));
      assert tmp.value.byRun == UpgradeRows(xcom.value.byDate, runs);
      xcom := None;
      xcom, tmp := tmp, None;
      var rows := xcom.value.byRun;
      ok := UniqueNew(rows) && ForeignKeyHolds(rows, taskInstances);
    }

    /** Deletes the entries of mapped task instances, then does the inverse. */
    method Downgrade()
      requires xcom.Some? && xcom.value.ByRun? && tmp.None?
      modifies this
      ensures xcom == Some(ByDate(DowngradeRows(old(xcom).value.byRun, runs))) && tmp == None
    {
      tmp := Some(ByDate([]));
      xcom := Some(ByRun(Filter(xcom.value.byRun, Unmapped)));
      tmp := Some(ByDate(tmp.value.byDate + Map(Join(xcom.value.byRun, runs, OnRun), ToOld)));
      assert tmp.value.byDate == Map(Join(xcom.value.byRun, runs, OnRun), ToOld);
      xcom := None;
      xcom, tmp := tmp, None;
    }
  }
}
