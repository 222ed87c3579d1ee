/** The columns of dag_run that the re-keying migrations join with, once they are all NOT NULL. */
module RunKeys {
  datatype RunKey = RunKey(id: int, dag: string, run: string, date: int)

  /** dag_run is unique on (dag_id, execution_date), on (dag_id, run_id), and on its id. */
  predicate UniqueRuns(runs: seq<RunKey>) {
    forall i, j :: 0 <= i < j < |runs| ==>
      && !(runs[i].dag == runs[j].dag && runs[i].date == runs[j].date)
      && !(runs[i].dag == runs[j].dag && runs[i].run == runs[j].run)
      && runs[i].id != runs[j].id
  }

  /** Two rows that agree on one of the keys are the same. */
  lemma SameRun(a: RunKey, b: RunKey, runs: seq<RunKey>)
    requires UniqueRuns(runs) && a in runs && b in runs
    requires (a.dag == b.dag && (a.date == b.date || a.run == b.run)) || a.id == b.id
    ensures a == b
  {
    var i :| 0 <= i < |runs| && runs[i] == a;
    var j :| 0 <= j < |runs| && runs[j] == b;
  }
}
