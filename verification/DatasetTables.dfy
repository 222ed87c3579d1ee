/** The creation loop for dataset-triggered DAGs, on the tables it updates. */
module DatasetTables {
  import opened DatasetRuns

  /** Dataset-triggered dag_run rows by DAG, and DatasetDagRunQueue rows (dataset, target DAG). */
  datatype Tables = Tables(runs: map<string, seq<Run>>, queue: set<(string, string)>)

  /** One DAG: a trigger step, and its queue rows go if it got a new run. */
  function TriggerOne(refs: map<string, set<string>>, events: seq<Event>, t: Tables, d: string, date: int): Tables
    requires d in refs && d in t.runs
  {
    if HasDate(t.runs[d], date) then t
    else Tables(t.runs[d := Triggered(refs[d], events, t.runs[d], date)], set q | q in t.queue && q.1 != d)
  }

  predicate Known(ids: seq<string>, refs: map<string, set<string>>, t: Tables, dates: map<string, int>) {
    t.runs.Keys == refs.Keys && forall d :: d in ids ==> d in refs && d in dates
  }

  function TriggerAll(refs: map<string, set<string>>, events: seq<Event>, t: Tables, ids: seq<string>,
                      dates: map<string, int>, scheduled: set<string>): (t': Tables)
    requires Known(ids, refs, t, dates)
    ensures t'.runs.Keys == t.runs.Keys
    decreases |ids|
  {
    if ids == [] then t
    else
      var d := ids[|ids| - 1];
      var u := TriggerAll(refs, events, t, ids[..|ids| - 1], dates, scheduled);
      if d in scheduled then TriggerOne(refs, events, u, d, dates[d]) else u
  }

  /** Every DAG of the batch takes exactly one trigger step, and only queue rows of DAGs that got a run go. */
  lemma {:induction false} BatchTriggersEachOnce(
    refs: map<string, set<string>>, events: seq<Event>, t: Tables, ids: seq<string>, dates: map<string, int>,
    scheduled: set<string>, e: string)
    requires Known(ids, refs, t, dates) && e in refs
    requires forall i, j :: 0 <= i < j < |ids| ==> ids[i] != ids[j]
    ensures var t' := TriggerAll(refs, events, t, ids, dates, scheduled);
      && t'.runs[e] == (if e in ids && e in scheduled then Triggered(refs[e], events, t.runs[e], dates[e]) else t.runs[e])
      && (forall q :: q in t'.queue && q.1 == e <==> q in t.queue && q.1 == e && t'.runs[e] == t.runs[e])
    decreases |ids|
  {
    if ids != [] {
      var init, d := ids[..|ids| - 1], ids[|ids| - 1];
      BatchTriggersEachOnce(refs, events, t, init, dates, scheduled, e);
      assert ids == init + [d];
      if d == e {
        assert e !in init;
      }
    }
  }

  class DatasetStore {
    var events: seq<Event>
    var runs: map<string, seq<Run>>
    var queue: set<(string, string)>
    /** DagScheduleDatasetReference: the datasets each DAG is scheduled on. */
    const refs: map<string, set<string>>

    constructor (refs: map<string, set<string>>)
      ensures this.refs == refs && events == [] && queue == {} && runs == map d | d in refs :: []
    {
      this.refs := refs;
      events, queue := [], {};
      runs := map d | d in refs :: [];
    }

    function State(): Tables
      reads this
    {
      Tables(runs, queue)
    }

    /** Bulk query: which of the runs exist already. */
    function ExistingRuns(ids: seq<string>, execDates: map<string, int>): set<(string, int)>
      reads this
      requires Known(ids, refs, State(), execDates)
    {
      set d | d in ids && HasDate(runs[d], execDates[d]) :: (d, execDates[d])
    }

    /** Creates the run for one DAG and clears its queue rows. */
    method CreateRun(d: string, date: int)
      requires d in refs && d in runs && !HasDate(runs[d], date)
      modifies this`runs, this`queue
      ensures State() == TriggerOne(refs, events, old(State()), d, date)
      ensures d in runs && |runs[d]| == |old(runs)[d]| + 1 && runs[d][..|old(runs)[d]|] == old(runs)[d]
      ensures var last := runs[d][|old(runs)[d]|];
        && last.date == date
        && forall i: nat :: i in last.consumed <==>
             i < |events| && events[i].dataset in refs[d] && events[i].hasSource && events[i].timestamp <= date
             && forall r :: r in old(runs)[d] && r.date < date ==> r.date < events[i].timestamp
      ensures forall q :: q in queue <==> q in old(queue) && q.1 != d
    {
      var previous := PreviousDate(runs[d], date);
      var consumed := EventsFor(refs[d], events, previous, date);
      runs := runs[d := runs[d] + [Run(date, consumed)]];
      queue := set q | q in queue && q.1 != d;
    }

    method CreateDagRunsDatasetTriggered(
      ids: seq<string>, execDates: map<string, int>, found: set<string>, datasetScheduled: set<string>)
      requires Known(ids, refs, State(), execDates)
      requires forall i, j :: 0 <= i < j < |ids| ==> ids[i] != ids[j]
      modifies this`runs, this`queue
      ensures State() == TriggerAll(refs, events, old(State()), ids, execDates, found * datasetScheduled)
    {
      var existing := ExistingRuns(ids, execDates);
      ghost var before := State();
      for i := 0 to |ids|
        invariant State() == TriggerAll(refs, events, before, ids[..i], execDates, found * datasetScheduled)
      {
        var d := ids[i];
        assert ids[..i + 1][..i] == ids[..i];
        NotYetTriggered(before, ids, execDates, found * datasetScheduled, i);
        if d !in found {
          continue;
        }
        if d !in datasetScheduled {
          continue;
        }
        if (d, execDates[d]) !in existing {
          CreateRun(d, execDates[d]);
        }
      }
      assert ids[..|ids|] == ids;
    }

    lemma NotYetTriggered(before: Tables, ids: seq<string>, dates: map<string, int>, scheduled: set<string>, i: nat)
      requires Known(ids, refs, before, dates) && i < |ids|
      requires forall i, j :: 0 <= i < j < |ids| ==> ids[i] != ids[j]
      ensures TriggerAll(refs, events, before, ids[..i], dates, scheduled).runs[ids[i]] == before.runs[ids[i]]
    {
      BatchTriggersEachOnce(refs, events, before, ids[..i], dates, scheduled, ids[i]);
      assert ids[i] !in ids[..i];
    }
  }
}
