/** Parking rows that refer to no dag run or no task instance, before the re-keying migrations. */
module DanglingRows {
  import opened Options
  import opened Relations

  /** The values of a primary key's columns. */
  type Pk = (string, string, int, string)

  /** A row of a table to be checked. task_instance rows have a run id only once that migration was applied. */
  datatype Row = Row(
    pk: Pk, dag: Option<string>, task: Option<string>, date: Option<int>, run: Option<string>, payload: string)

  /** The key columns of a dag_run row, which may be NULL before they are constrained. */
  datatype NullableRun = NullableRun(dag: Option<string>, run: Option<string>, date: Option<int>)

  predicate RunMatches(r: Row, dr: NullableRun) {
    SqlEq(r.dag, dr.dag) && SqlEq(r.date, dr.date)
  }

  type WithRun = (Row, Option<NullableRun>)

  /** ON condition of the second outer join before task_instance has its run_id column, and after. */
  predicate InstanceMatchesByDate(x: WithRun, ti: Row) {
    x.1.Some? && SqlEq(x.1.value.dag, ti.dag) && SqlEq(x.1.value.date, ti.date) && SqlEq(x.0.task, ti.task)
  }

  predicate InstanceMatchesByRun(x: WithRun, ti: Row) {
    x.1.Some? && SqlEq(x.1.value.dag, ti.dag) && SqlEq(x.1.value.run, ti.run) && SqlEq(x.0.task, ti.task)
  }

  function InstanceOn(byRunId: bool): (WithRun, Row) -> bool {
    if byRunId then InstanceMatchesByRun else InstanceMatchesByDate
  }

  // ----- The queries -----

  predicate NoRun(x: WithRun) {
    x.1.None? || x.1.value.dag.None?
  }

  function SourceOfRunJoin(x: WithRun): Row {
    x.0
  }

  /** _dangling_against_dag_run. */
  function DanglingAgainstDagRun(rows: seq<Row>, runs: seq<NullableRun>): seq<Row> {
    Map(Filter(LeftJoin(rows, runs, RunMatches), NoRun), SourceOfRunJoin)
  }

  predicate NoRunOrInstance(x: (WithRun, Option<Row>)) {
    x.1.None? || x.1.value.dag.None? || NoRun(x.0)
  }

  function SourceOfBothJoins(x: (WithRun, Option<Row>)): Row {
    x.0.0
  }

  /** _dangling_against_task_instance: `byRunId` says that task_instance has its run_id column already. */
  function DanglingAgainstTaskInstance(rows: seq<Row>, runs: seq<NullableRun>, tis: seq<Row>, byRunId: bool): seq<Row> {
    Map(Filter(LeftJoin(LeftJoin(rows, runs, RunMatches), tis, InstanceOn(byRunId)), NoRunOrInstance), SourceOfBothJoins)
  }

  /** What a table's rows are checked against. */
  datatype Context = Context(againstInstances: bool, runs: seq<NullableRun>, tis: seq<Row>, byRunId: bool)

  function BadRows(c: Context, rows: seq<Row>): seq<Row> {
    if c.againstInstances then DanglingAgainstTaskInstance(rows, c.runs, c.tis, c.byRunId)
    else DanglingAgainstDagRun(rows, c.runs)
  }

  // ----- What they are meant to find -----

  predicate HasRun(r: Row, runs: seq<NullableRun>) {
    exists dr :: dr in runs && RunMatches(r, dr)
  }

  predicate HasInstance(r: Row, runs: seq<NullableRun>, tis: seq<Row>, byRunId: bool) {
    exists dr, ti :: dr in runs && ti in tis && RunMatches(r, dr) && InstanceOn(byRunId)((r, Some(dr)), ti)
  }

  /** The row refers to a run that exists and, where that is asked, to a task instance of it. */
  predicate Refers(c: Context, r: Row) {
    if c.againstInstances then HasInstance(r, c.runs, c.tis, c.byRunId) else HasRun(r, c.runs)
  }

  /** The rows that do (or do not) refer to something, in table order. */
  function Select(c: Context, rows: seq<Row>, refers: bool): (s: seq<Row>)
    ensures forall r :: r in s <==> r in rows && Refers(c, r) == refers
  {
    if rows == [] then []
    else if Refers(c, rows[0]) == refers then [rows[0]] + Select(c, rows[1..], refers)
    else Select(c, rows[1..], refers)
  }

  /** dag_run is unique on (dag_id, execution_date), among non-NULL values. */
  predicate UniqueDates(runs: seq<NullableRun>) {
    forall i, j :: 0 <= i < j < |runs| ==> !(SqlEq(runs[i].dag, runs[j].dag) && SqlEq(runs[i].date, runs[j].date))
  }

  /** The query returns exactly the rows that refer to nothing, each once. */
  lemma {:induction false} QueryFindsDangling(c: Context, rows: seq<Row>)
    requires UniqueDates(c.runs)
    ensures BadRows(c, rows) == Select(c, rows, false)
  {
    if rows != [] {
      QueryFindsDangling(c, rows[1..]);
      if c.againstInstances {
        InstanceQueryOnHead(rows, c.runs, c.tis, c.byRunId);
      } else {
        RunQueryOnHead(rows, c.runs);
      }
    }
  }

  lemma RunQueryOnHead(rows: seq<Row>, runs: seq<NullableRun>)
    requires rows != []
    ensures DanglingAgainstDagRun(rows, runs)
         == (if HasRun(rows[0], runs) then [] else [rows[0]]) + DanglingAgainstDagRun(rows[1..], runs)
  {
    var head, rest := Padded(rows[0], runs, RunMatches), LeftJoin(rows[1..], runs, RunMatches);
    FilterConcat(head, rest, NoRun);
    PaddedRun(rows[0], runs);
  }

  lemma PaddedRun(r: Row, runs: seq<NullableRun>)
    ensures Map(Filter(Padded(r, runs, RunMatches), NoRun), SourceOfRunJoin) == if HasRun(r, runs) then [] else [r]
  {
    var matches := Matches(r, runs, RunMatches);
    var head := Padded(r, runs, RunMatches);
    if matches == [] {
      assert head == [(r, None)] && head[1..] == [];
      assert Filter(head, NoRun) == [(r, None)];
      assert HasRun(r, runs) ==> exists dr :: dr in matches;
    } else {
      assert matches[0] in matches;
      forall x | x in head
        ensures !NoRun(x)
      {
        var i :| 0 <= i < |head| && head[i] == x;
        assert matches[i] in matches;
      }
      FilterNone(head, NoRun);
    }
  }

  lemma PaddedInstance(x: WithRun, tis: seq<Row>, byRunId: bool)
    ensures Map(Filter(Padded(x, tis, InstanceOn(byRunId)), NoRunOrInstance), SourceOfBothJoins)
         == if exists ti :: ti in tis && InstanceOn(byRunId)(x, ti) then [] else [x.0]
  {
    var on := InstanceOn(byRunId);
    var matches, head := Matches(x, tis, on), Padded(x, tis, on);
    if matches == [] {
      assert head == [(x, None)] && head[1..] == [];
      assert Filter(head, NoRunOrInstance) == [(x, None)];
      assert (exists ti :: ti in tis && on(x, ti)) ==> exists ti :: ti in matches;
    } else {
      assert matches[0] in matches;
      forall y | y in head
        ensures !NoRunOrInstance(y)
      {
        var i :| 0 <= i < |head| && head[i] == y;
        assert matches[i] in matches;
        assert on(x, matches[i]);
      }
      FilterNone(head, NoRunOrInstance);
    }
  }

  /** With unique runs, a row is joined to its run or to NULL, and to nothing else. */
  lemma OneRunPerRow(r: Row, runs: seq<NullableRun>) returns (dr: Option<NullableRun>)
    requires UniqueDates(runs)
    ensures Padded(r, runs, RunMatches) == [(r, dr)]
    ensures dr.None? ==> !HasRun(r, runs)
    ensures dr.Some? ==> dr.value in runs && RunMatches(r, dr.value)
    ensures forall d :: d in runs && RunMatches(r, d) ==> dr == Some(d)
  {
    if d :| d in runs && RunMatches(r, d) {
      OneMatch(r, runs, RunMatches, d);
      dr := Some(d);
      assert forall e :: e in runs && RunMatches(r, e) ==> e in Matches(r, runs, RunMatches);
    } else {
      NoMatch(r, runs, RunMatches);
      dr := None;
    }
  }

  lemma InstanceQueryOnHead(rows: seq<Row>, runs: seq<NullableRun>, tis: seq<Row>, byRunId: bool)
    requires rows != [] && UniqueDates(runs)
    ensures DanglingAgainstTaskInstance(rows, runs, tis, byRunId)
         == (if HasInstance(rows[0], runs, tis, byRunId) then [] else [rows[0]])
            + DanglingAgainstTaskInstance(rows[1..], runs, tis, byRunId)
  {
    var on := InstanceOn(byRunId);
    var r := rows[0];
    var dr := OneRunPerRow(r, runs);
    var x: WithRun := (r, dr);
    var withRest := LeftJoin(rows[1..], runs, RunMatches);
    LeftJoinConcat([x], withRest, tis, on);
    var head, rest := Padded(x, tis, on), LeftJoin(withRest, tis, on);
    FilterConcat(head, rest, NoRunOrInstance);
    PaddedInstance(x, tis, byRunId);
    assert (exists ti :: ti in tis && on(x, ti)) <==> HasInstance(r, runs, tis, byRunId);
  }

  // ----- Moving them out -----

  predicate UniquePk(rows: seq<Row>) {
    forall i, j :: 0 <= i < j < |rows| ==> rows[i].pk != rows[j].pk
  }

  /** DELETE ... WHERE primary key IN (SELECT primary key FROM parked), the SQLite form. */
  function DeleteByKeys(rows: seq<Row>, keys: set<Pk>): seq<Row> {
    if rows == [] then []
    else if rows[0].pk in keys then DeleteByKeys(rows[1..], keys)
    else [rows[0]] + DeleteByKeys(rows[1..], keys)
  }

  /** DELETE ... USING parked WHERE the primary keys are equal, the form of the other dialects. */
  function DeleteByJoin(rows: seq<Row>, parked: seq<Row>): seq<Row> {
    if rows == [] then []
    else if exists p :: p in parked && p.pk == rows[0].pk then DeleteByJoin(rows[1..], parked)
    else [rows[0]] + DeleteByJoin(rows[1..], parked)
  }

  function Pks(rows: seq<Row>): set<Pk> {
    set r | r in rows :: r.pk
  }

  lemma {:induction false} DeletesAgree(rows: seq<Row>, parked: seq<Row>)
    ensures DeleteByKeys(rows, Pks(parked)) == DeleteByJoin(rows, parked)
  {
    if rows != [] {
      DeletesAgree(rows[1..], parked);
    }
  }

  /** Moving splits the table exactly: the rows that refer to something stay, the others are parked. */
  lemma MoveSplitsTable(c: Context, rows: seq<Row>)
    requires UniquePk(rows) && UniqueDates(c.runs)
    ensures var parked := BadRows(c, rows); var kept := DeleteByKeys(rows, Pks(parked));
      && kept == Select(c, rows, true) && parked == Select(c, rows, false)
      && multiset(kept) + multiset(parked) == multiset(rows)
  {
    QueryFindsDangling(c, rows);
    var parked := BadRows(c, rows);
    forall r | r in rows
      ensures r.pk in Pks(parked) <==> !Refers(c, r)
    {
      if r.pk in Pks(parked) {
        var b :| b in parked && b.pk == r.pk;
        var i :| 0 <= i < |rows| && rows[i] == r;
        var j :| 0 <= j < |rows| && rows[j] == b;
      }
    }
    DeleteLeavesReferring(c, rows, Pks(parked));
    SelectSplits(c, rows);
  }

  lemma {:induction false} DeleteLeavesReferring(c: Context, rows: seq<Row>, keys: set<Pk>)
    requires forall r :: r in rows ==> (r.pk in keys <==> !Refers(c, r))
    ensures DeleteByKeys(rows, keys) == Select(c, rows, true)
  {
    if rows != [] {
      assert rows[0] in rows;
      DeleteLeavesReferring(c, rows[1..], keys);
    }
  }

  lemma {:induction false} SelectSplits(c: Context, rows: seq<Row>)
    ensures multiset(Select(c, rows, true)) + multiset(Select(c, rows, false)) == multiset(rows)
  {
    if rows != [] {
      SelectSplits(c, rows[1..]);
      assert rows == [rows[0]] + rows[1..];
    }
  }

  /** Nothing is found in what was kept. */
  lemma {:induction false} KeptRowsStay(c: Context, rows: seq<Row>)
    ensures Select(c, Select(c, rows, true), false) == []
    ensures Select(c, Select(c, rows, true), true) == Select(c, rows, true)
  {
    if rows != [] {
      KeptRowsStay(c, rows[1..]);
      var k := Select(c, rows[1..], true);
      assert ([rows[0]] + k)[1..] == k;
    }
  }
}
