/** The dag_run and dag tables as the scheduler updates them in place. */
module DagRunTables {
  import opened RunStates
  import opened DagRunLifecycle

  /** What was fetched before the loop still holds for the DAGs not yet visited. */
  predicate Fetched(t: Tables, ids: seq<string>, i: nat, existing: set<(string, nat)>, active: map<string, nat>) {
    forall j :: i <= j < |ids| ==>
      && ids[j] in active && ids[j] in t.models
      && active[ids[j]] == ActiveRuns(t.runs, ids[j])
      && ((ids[j], t.models[ids[j]].next) in existing <==> HasRunOn(t.runs, ids[j], t.models[ids[j]].next))
  }

  /** Bulk query: which of the DAGs' next runs exist already. */
  function ExistingRuns(t: Tables, ids: seq<string>): set<(string, nat)>
    requires forall i :: 0 <= i < |ids| ==> ids[i] in t.models
  {
    set d | d in ids && HasRunOn(t.runs, d, t.models[d].next) :: (d, t.models[d].next)
  }

  /** Bulk query: active runs of each DAG. */
  function ActiveRunsOfDags(runs: seq<DagRun>, ds: set<string>): map<string, nat> {
    map d | d in ds :: ActiveRuns(runs, d)
  }

  /** The same query with only_running. */
  function RunningRunsOfDags(runs: seq<DagRun>, ds: set<string>): map<string, nat> {
    map d | d in ds :: RunningRuns(runs, d)
  }

  lemma OthersUnaffected(runs: seq<DagRun>, r: DagRun, e: string, k: nat)
    requires e != r.dag
    ensures ActiveRuns(runs + [r], e) == ActiveRuns(runs, e)
    ensures HasRunOn(runs + [r], e, k) <==> HasRunOn(runs, e, k)
  {
    Append(runs, r, e);
    HasRunOnIffDated(runs + [r], e, k);
    HasRunOnIffDated(runs, e, k);
  }

  /** Creating for one DAG leaves what was fetched for the others valid, and counts its own new run. */
  lemma CreateKeepsFetched(caps: Caps, found: set<string>, t: Tables, ids: seq<string>, i: nat,
                           existing: set<(string, nat)>, active: map<string, nat>, active': map<string, nat>)
    requires forall a, b :: 0 <= a < b < |ids| ==> ids[a] != ids[b]
    requires i < |ids| && ids[i] in found && ids[i] in caps && ids[i] in t.models
    requires Fetched(t, ids, i, existing, active)
    requires active' == if (ids[i], t.models[ids[i]].next) in existing then active
                        else active[ids[i] := active[ids[i]] + 1]
    ensures var t' := CreateFor(caps, found, t, ids[i]);
      Fetched(t', ids, i + 1, existing, active') && active'[ids[i]] == ActiveRuns(t'.runs, ids[i])
  {
    var d, next := ids[i], t.models[ids[i]].next;
    var r := DagRun(d, next, RunQueued);
    Append(t.runs, r, d);
    forall j | i < j < |ids|
      ensures ActiveRuns(t.runs + [r], ids[j]) == ActiveRuns(t.runs, ids[j])
      ensures HasRunOn(t.runs + [r], ids[j], t.models[ids[j]].next) <==> HasRunOn(t.runs, ids[j], t.models[ids[j]].next)
    {
      if ids[j] in t.models {
        OthersUnaffected(t.runs, r, ids[j], t.models[ids[j]].next);
      }
    }
  }

  predicate CountsRunning(active: map<string, nat>, runs: seq<DagRun>) {
    forall d :: d in active ==> active[d] == RunningRuns(runs, d)
  }

  lemma StartKeepsCounts(active: map<string, nat>, runs: seq<DagRun>, i: nat)
    requires CountsRunning(active, runs) && i < |runs| && runs[i].state == RunQueued && runs[i].dag in active
    ensures CountsRunning(active[runs[i].dag := active[runs[i].dag] + 1], runs[i := runs[i].(state := RunRunning)])
  {
    forall d | d in active
      ensures RunningRuns(runs[i := runs[i].(state := RunRunning)], d) == RunningRuns(runs, d) + if d == runs[i].dag then 1 else 0
    {
      ChangeState(runs, i, RunRunning, d);
    }
  }

  function DagsOf(runs: seq<DagRun>, examined: seq<nat>): set<string>
    requires forall k :: 0 <= k < |examined| ==> examined[k] < |runs|
  {
    set k | 0 <= k < |examined| :: runs[examined[k]].dag
  }

  lemma NextExamined(caps: Caps, found: set<string>, t: Tables, examined: seq<nat>, k: nat)
    requires DistinctQueued(t.runs, examined) && k < |examined|
    ensures var u := StartAll(caps, found, t, examined[..k]);
      && u.runs[examined[k]] == t.runs[examined[k]]
      && t.runs[examined[k]].dag in DagsOf(t.runs, examined)
      && StartAll(caps, found, t, examined[..k + 1]) == StartOne(caps, found, u, examined[k])
  {
    StartsExactly(caps, found, t, examined[..k], t.runs[examined[k]].dag);
    assert examined[k] !in examined[..k];
    assert examined[..k + 1][..k] == examined[..k];
  }

  class DagRunStore {
    var runs: seq<DagRun>
    var models: map<string, DagModel>
    const caps: Caps

    constructor (runs: seq<DagRun>, models: map<string, DagModel>, caps: Caps)
      ensures this.runs == runs && this.models == models && this.caps == caps
    {
      this.runs := runs;
      this.models := models;
      this.caps := caps;
    }

    function State(): Tables
      reads this
    {
      Tables(runs, models)
    }

    /** Turns creation off when the DAG is at its cap; says whether the date fields should move on. */
    method ShouldUpdateDagNextDagruns(d: string, totalActiveRuns: nat) returns (update: bool)
      requires d in caps && d in models
      modifies this`models
      ensures update == (totalActiveRuns < caps[d])
      ensures models == if update then old(models) else old(models)[d := old(models)[d].(creating := false)]
    {
      if totalActiveRuns >= caps[d] {
        models := models[d := models[d].(creating := false)];
        return false;
      }
      return true;
    }

    method CalculateDagrunDateFields(d: string, date: nat)
      modifies this`models
      ensures models == old(models)[d := DagModel(date + 1, true)]
    {
      models := models[d := DagModel(date + 1, true)];
    }

    /** The body of the creation loop, for one DAG that is in the dagbag. */
    method CreateDagRun(ids: seq<string>, i: nat, found: set<string>, existing: set<(string, nat)>, active: map<string, nat>)
      returns (active': map<string, nat>)
      requires forall a, b :: 0 <= a < b < |ids| ==> ids[a] != ids[b]
      requires i < |ids| && ids[i] in found && ids[i] in caps && ids[i] in models
      requires Fetched(State(), ids, i, existing, active)
      modifies this
      ensures State() == CreateFor(caps, found, old(State()), ids[i])
      ensures Fetched(State(), ids, i + 1, existing, active')
    {
      var d, next := ids[i], models[ids[i]].next;
      active' := active;
      if (d, next) !in existing {
        runs := runs + [DagRun(d, next, RunQueued)];
        active' := active[d := active[d] + 1];
      }
      CreateKeepsFetched(caps, found, old(State()), ids, i, existing, active, active');
      var update := ShouldUpdateDagNextDagruns(d, active'[d]);
      if update {
        CalculateDagrunDateFields(d, next);
      }
    }

    /**
     * Creation for a batch of DAGs, with the existing runs and the active counts fetched once, before
     * the loop: the same as creating for each of them in turn.
     */
    method CreateDagRuns(ids: seq<string>, found: set<string>)
      requires forall i, j :: 0 <= i < j < |ids| ==> ids[i] != ids[j]
      requires forall i :: 0 <= i < |ids| ==> ids[i] in models && (ids[i] in found ==> ids[i] in caps)
      modifies this
      ensures State() == CreateAll(caps, found, old(State()), ids)
    {
      var existing := ExistingRuns(State(), ids);
      var active := ActiveRunsOfDags(runs, set d | d in ids);
      for i := 0 to |ids|
        invariant State() == CreateAll(caps, found, old(State()), ids[..i])
        invariant models.Keys == old(models).Keys
        invariant Fetched(State(), ids, i, existing, active)
      {
        assert ids[..i + 1][..i] == ids[..i] && ids[..i + 1][i] == ids[i];
        if ids[i] in found {
          active := CreateDagRun(ids, i, found, existing, active);
        }
      }
      assert ids[..|ids|] == ids;
    }

    /** Start queued runs while their DAG has room, counting as it goes. */
    method StartQueuedDagruns(examined: seq<nat>, found: set<string>)
      requires DistinctQueued(runs, examined)
      requires forall k :: 0 <= k < |examined| && runs[examined[k]].dag in found ==> runs[examined[k]].dag in caps
      modifies this`runs
      ensures State() == StartAll(caps, found, old(State()), examined)
    {
      var active := RunningRunsOfDags(runs, DagsOf(runs, examined));
      ghost var t0 := State();
      for k := 0 to |examined|
        invariant State() == StartAll(caps, found, t0, examined[..k])
        invariant active.Keys == DagsOf(t0.runs, examined)
        invariant CountsRunning(active, runs)
      {
        var i := examined[k];
        NextExamined(caps, found, t0, examined, k);
        var d := runs[i].dag;
        if d in found && !(caps[d] != 0 && active[d] >= caps[d]) {
          StartKeepsCounts(active, runs, i);
          active := active[d := active[d] + 1];
          runs := runs[i := runs[i].(state := RunRunning)];
        }
      }
      assert examined[..|examined|] == examined;
    }

    /** Scheduling decisions for one running run; `arrives` is what update_state would make of it. */
    method ScheduleDagRun(i: nat, found: set<string>, timedOut: bool, inFuture: bool, arrives: RunState)
      requires i < |runs| && (runs[i].dag in found ==> runs[i].dag in caps && runs[i].dag in models)
      modifies this
      ensures State() == ScheduleOne(caps, found, old(State()), i,
                                     if timedOut then TimedOut else if inFuture then InFuture else Arrives(arrives))
      ensures runs == if old(runs)[i].dag !in found || (inFuture && !timedOut) then old(runs)
                      else WithRunState(old(runs), i, if timedOut then RunFailed else arrives)
      ensures old(runs)[i].dag !in found || (inFuture && !timedOut) ==> models == old(models)
    {
      var d, date := runs[i].dag, runs[i].date;
      if d !in found {
        return;
      }
      if timedOut {
        runs := runs[i := runs[i].(state := RunFailed)];
        var update := ShouldUpdateDagNextDagruns(d, ActiveRuns(runs, d));
        if update {
          CalculateDagrunDateFields(d, date);
        }
        return;
      }
      if inFuture {
        return;
      }
      runs := runs[i := runs[i].(state := arrives)];
      if arrives == RunSuccess || arrives == RunFailed {
        var update := ShouldUpdateDagNextDagruns(d, ActiveRuns(runs, d));
        if update {
          CalculateDagrunDateFields(d, date);
        }
      }
    }
  }
}
