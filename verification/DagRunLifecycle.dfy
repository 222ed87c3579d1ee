/**
 * The life of scheduled DAG runs: creation, start, finish, time-out. Dates are positions in the DAG's
 * timetable, whose successor function is +1.
 */
module DagRunLifecycle {
  import opened Counting
  import opened RunStates

  datatype DagRun = DagRun(dag: string, date: nat, state: RunState)

  /** `creating`: next_dagrun_create_after is set (not None). */
  datatype DagModel = DagModel(next: nat, creating: bool)

  datatype Tables = Tables(runs: seq<DagRun>, models: map<string, DagModel>)

  /** max_active_runs of each DAG. */
  type Caps = map<string, nat>

  predicate IsActive(r: DagRun) {
    r.state == RunQueued || r.state == RunRunning
  }

  function ActiveRuns(runs: seq<DagRun>, d: string): nat {
    if runs == [] then 0
    else (if runs[0].dag == d && IsActive(runs[0]) then 1 else 0) + ActiveRuns(runs[1..], d)
  }

  function RunningRuns(runs: seq<DagRun>, d: string): nat {
    if runs == [] then 0
    else (if runs[0].dag == d && runs[0].state == RunRunning then 1 else 0) + RunningRuns(runs[1..], d)
  }

  predicate HasRunOn(runs: seq<DagRun>, d: string, date: nat) {
    exists r :: r in runs && r.dag == d && r.date == date
  }

  /** The execution dates of a DAG's runs, in the order of their creation. */
  function Dates(runs: seq<DagRun>, d: string): seq<nat> {
    if runs == [] then []
    else if runs[0].dag == d then [runs[0].date] + Dates(runs[1..], d)
    else Dates(runs[1..], d)
  }

  // ----- Steps -----

  /** _should_update_dag_next_dagruns, and the caller's update of the date fields after `date`. */
  function UpdateNext(models: map<string, DagModel>, d: string, cap: nat, active: nat, date: nat): map<string, DagModel>
    requires d in models
  {
    if active >= cap then models[d := models[d].(creating := false)]
    else models[d := DagModel(date + 1, true)]
  }

  function CreateFor(caps: Caps, found: set<string>, t: Tables, d: string): Tables {
    if d !in found || d !in caps || d !in t.models then t
    else
      var next := t.models[d].next;
      var runs := if HasRunOn(t.runs, d, next) then t.runs else t.runs + [DagRun(d, next, RunQueued)];
      Tables(runs, UpdateNext(t.models, d, caps[d], ActiveRuns(runs, d), next))
  }

  function CreateAll(caps: Caps, found: set<string>, t: Tables, ids: seq<string>): Tables
    decreases |ids|
  {
    if ids == [] then t
    else CreateFor(caps, found, CreateAll(caps, found, t, ids[..|ids| - 1]), ids[|ids| - 1])
  }

  function StartOne(caps: Caps, found: set<string>, t: Tables, i: nat): Tables
    requires i < |t.runs|
  {
    var d := t.runs[i].dag;
    if d !in found || d !in caps || (caps[d] != 0 && RunningRuns(t.runs, d) >= caps[d]) then t
    else t.(runs := t.runs[i := t.runs[i].(state := RunRunning)])
  }

  function StartAll(caps: Caps, found: set<string>, t: Tables, examined: seq<nat>): (t': Tables)
    requires forall k :: 0 <= k < |examined| ==> examined[k] < |t.runs|
    ensures |t'.runs| == |t.runs|
    decreases |examined|
  {
    if examined == [] then t
    else StartOne(caps, found, StartAll(caps, found, t, examined[..|examined| - 1]), examined[|examined| - 1])
  }

  /** What _schedule_dag_run finds: a time-out, a date in the future, or the state update_state arrives at. */
  datatype Outcome = TimedOut | InFuture | Arrives(state: RunState)

  function ScheduleOne(caps: Caps, found: set<string>, t: Tables, i: nat, o: Outcome): Tables
    requires i < |t.runs|
  {
    var r := t.runs[i];
    if r.dag !in found || r.dag !in caps || r.dag !in t.models || o.InFuture? then t
    else
      var state := if o.TimedOut? then RunFailed else o.state;
      var runs := t.runs[i := r.(state := state)];
      if state == RunSuccess || state == RunFailed then
        Tables(runs, UpdateNext(t.models, r.dag, caps[r.dag], ActiveRuns(runs, r.dag), r.date))
      else t.(runs := runs)
  }

  // ----- Invariant -----

  predicate GapFree(t: Tables, d: string) {
    forall k :: 0 <= k < |Dates(t.runs, d)| ==> Dates(t.runs, d)[k] == k
  }

  predicate Good(caps: Caps, t: Tables, d: string) {
    && d in caps && d in t.models
    && GapFree(t, d)
    && t.models[d].next <= |Dates(t.runs, d)|
    && ActiveRuns(t.runs, d) <= caps[d]
    && (t.models[d].creating <==> ActiveRuns(t.runs, d) < caps[d])
  }

  // ----- Tables under change -----

  lemma {:induction false} Append(runs: seq<DagRun>, r: DagRun, d: string)
    ensures Dates(runs + [r], d) == Dates(runs, d) + (if r.dag == d then [r.date] else [])
    ensures ActiveRuns(runs + [r], d) == ActiveRuns(runs, d) + if r.dag == d && IsActive(r) then 1 else 0
    ensures RunningRuns(runs + [r], d) == RunningRuns(runs, d) + if r.dag == d && r.state == RunRunning then 1 else 0
  {
    if runs == [] {
      assert runs + [r] == [r];
    } else {
      Append(runs[1..], r, d);
      assert (runs + [r])[1..] == runs[1..] + [r];
    }
  }

  lemma {:induction false} ChangeState(runs: seq<DagRun>, i: nat, s: RunState, d: string)
    requires i < |runs|
    ensures var r := runs[i]; var runs' := runs[i := r.(state := s)];
      && Dates(runs', d) == Dates(runs, d)
      && (r.dag != d ==> ActiveRuns(runs', d) == ActiveRuns(runs, d) && RunningRuns(runs', d) == RunningRuns(runs, d))
      && (r.dag == d ==>
            && ActiveRuns(runs', d) == ActiveRuns(runs, d) - (if IsActive(r) then 1 else 0) + (if s == RunQueued || s == RunRunning then 1 else 0)
            && RunningRuns(runs', d) == RunningRuns(runs, d) - (if r.state == RunRunning then 1 else 0) + (if s == RunRunning then 1 else 0))
  {
    var runs' := runs[i := runs[i].(state := s)];
    if i == 0 {
      assert runs'[1..] == runs[1..];
    } else {
      ChangeState(runs[1..], i - 1, s, d);
      assert runs'[1..] == runs[1..][i - 1 := runs[i].(state := s)];
    }
  }

  lemma {:induction false} HasRunOnIffDated(runs: seq<DagRun>, d: string, date: nat)
    ensures HasRunOn(runs, d, date) <==> date in Dates(runs, d)
  {
    if runs != [] {
      HasRunOnIffDated(runs[1..], d, date);
      if HasRunOn(runs, d, date) {
        var r :| r in runs && r.dag == d && r.date == date;
        assert r == runs[0] || r in runs[1..];
      } else {
        assert !HasRunOn(runs[1..], d, date) by {
          assert forall r :: r in runs[1..] ==> r in runs;
        }
      }
    }
  }

  // ----- Each step keeps it -----

  lemma CreateKeepsGood(caps: Caps, found: set<string>, t: Tables, d: string, e: string)
    requires Good(caps, t, e) && (d == e ==> t.models[d].creating)
    ensures Good(caps, CreateFor(caps, found, t, d), e)
  {
    if d in found && d in caps && d in t.models {
      var next := t.models[d].next;
      HasRunOnIffDated(t.runs, d, next);
      Append(t.runs, DagRun(d, next, RunQueued), e);
      if d == e {
        // A date below the first missing one exists already; the first missing one is created.
        assert next in Dates(t.runs, d) <==> next < |Dates(t.runs, d)|
        by {
          if next < |Dates(t.runs, d)| {
            assert Dates(t.runs, d)[next] == next;
          }
        }
      }
    }
  }

  lemma StartKeepsGood(caps: Caps, found: set<string>, t: Tables, i: nat, e: string)
    requires i < |t.runs| && t.runs[i].state == RunQueued && Good(caps, t, e)
    ensures Good(caps, StartOne(caps, found, t, i), e)
  {
    ChangeState(t.runs, i, RunRunning, e);
  }

  lemma ScheduleKeepsGood(caps: Caps, found: set<string>, t: Tables, i: nat, o: Outcome, e: string)
    requires i < |t.runs| && t.runs[i].state == RunRunning && Good(caps, t, e)
    requires o.Arrives? ==> o.state != RunQueued
    ensures Good(caps, ScheduleOne(caps, found, t, i, o), e)
  {
    var r := t.runs[i];
    if r.dag in found && r.dag in caps && r.dag in t.models && !o.InFuture? {
      ChangeState(t.runs, i, if o.TimedOut? then RunFailed else o.state, e);
      if r.dag == e {
        HasRunOnIffDated(t.runs, e, r.date);
        assert r in t.runs;
      }
    }
  }

  // ----- What each step does to the tables -----

  /** The runs with one of them in another state. */
  function WithRunState(runs: seq<DagRun>, i: nat, s: RunState): (runs': seq<DagRun>)
    requires i < |runs|
    ensures |runs'| == |runs| && runs'[i].state == s && runs'[i].dag == runs[i].dag && runs'[i].date == runs[i].date
    ensures forall k :: 0 <= k < |runs| && k != i ==> runs'[k] == runs[k]
  {
    runs[i := runs[i].(state := s)]
  }

  /** The DAG of a run is in the dagbag, with its cap, and has its dag row. */
  predicate Known(caps: Caps, found: set<string>, t: Tables, d: string) {
    d in found && d in caps && d in t.models
  }

  /**
   * The state a scheduled run ends in: FAILED when it has timed out, whatever its tasks say; else the one
   * update_state arrives at; and nothing at all changes for a date in the future or a DAG that is not found.
   */
  lemma ScheduledRunEndsAs(caps: Caps, found: set<string>, t: Tables, i: nat, o: Outcome, t': Tables)
    requires Next(caps, t, Schedule(found, i, o), t')
    ensures Known(caps, found, t, t.runs[i].dag) && o.TimedOut? ==> t'.runs == WithRunState(t.runs, i, RunFailed)
    ensures Known(caps, found, t, t.runs[i].dag) && o.Arrives? ==> t'.runs == WithRunState(t.runs, i, o.state)
    ensures !Known(caps, found, t, t.runs[i].dag) || o.InFuture? ==> t' == t
  {
  }

  /**
   * And what becomes of creation: when the run has ended, creation goes off with next_dagrun as it was if
   * the DAG still has as many active runs as it may, and else on, from the date after the run's; while the
   * run goes on, and for every other DAG, nothing changes.
   */
  lemma ScheduledRunMovesCreation(caps: Caps, found: set<string>, t: Tables, i: nat, o: Outcome, t': Tables, e: string)
    requires Next(caps, t, Schedule(found, i, o), t') && Known(caps, found, t, t.runs[i].dag)
    ensures var d := t.runs[i].dag; var ended := o == TimedOut || o == Arrives(RunSuccess) || o == Arrives(RunFailed);
      && t'.models.Keys == t.models.Keys
      && (ended && ActiveRuns(t'.runs, d) >= caps[d] ==> t'.models[d] == DagModel(t.models[d].next, false))
      && (ended && ActiveRuns(t'.runs, d) < caps[d] ==> t'.models[d] == DagModel(t.runs[i].date + 1, true))
      && (!ended || e != d ==> (e in t.models ==> t'.models[e] == t.models[e]))
  {
  }

  /** A created run is queued, on next_dagrun, the newest row; there is at most one a step, and none on a date that is taken. */
  lemma CreatedRunIsQueued(caps: Caps, found: set<string>, t: Tables, d: string, t': Tables)
    requires Next(caps, t, Create(found, d), t')
    ensures !Known(caps, found, t, d) ==> t' == t
    ensures Known(caps, found, t, d) ==>
      var next := t.models[d].next;
      var taken := exists k :: 0 <= k < |t.runs| && t.runs[k].dag == d && t.runs[k].date == next;
      && t'.runs == (if taken then t.runs else t.runs + [DagRun(d, next, RunQueued)])
      && t'.models == t.models[d := if ActiveRuns(t'.runs, d) >= caps[d] then DagModel(next, false) else DagModel(next + 1, true)]
  {
    if d in t.models {
      var next := t.models[d].next;
      if HasRunOn(t.runs, d, next) {
        var r :| r in t.runs && r.dag == d && r.date == next;
        var k :| 0 <= k < |t.runs| && t.runs[k] == r;
      }
    }
  }

  /** A started run is running, and stays so for its DAG's room; a run that is not started is left alone. */
  lemma StartedRunIsRunning(caps: Caps, found: set<string>, t: Tables, i: nat, t': Tables)
    requires Next(caps, t, Start(found, i), t')
    ensures var d := t.runs[i].dag;
      var room := d in found && d in caps && (caps[d] == 0 || RunningRuns(t.runs, d) < caps[d]);
      t' == if room then t.(runs := WithRunState(t.runs, i, RunRunning)) else t
  {
  }

  // ----- Counting -----

  ghost function ActiveRows(runs: seq<DagRun>, d: string): set<nat> {
    set k: nat | k < |runs| && runs[k].dag == d && (runs[k].state == RunQueued || runs[k].state == RunRunning)
  }

  ghost function RunningRows(runs: seq<DagRun>, d: string): set<nat> {
    set k: nat | k < |runs| && runs[k].dag == d && runs[k].state == RunRunning
  }

  ghost function RowsOf(runs: seq<DagRun>, d: string): set<nat> {
    set k: nat | k < |runs| && runs[k].dag == d
  }

  lemma {:induction false} ActiveRunsCount(runs: seq<DagRun>, d: string)
    ensures ActiveRuns(runs, d) == |ActiveRows(runs, d)|
    decreases |runs|
  {
    if runs != [] {
      var init, n := runs[..|runs| - 1], |runs| - 1;
      ActiveRunsCount(init, d);
      Append(init, runs[n], d);
      assert runs == init + [runs[n]];
      OneMore(ActiveRows(init, d), ActiveRows(runs, d), n);
    }
  }

  lemma {:induction false} RunningRunsCount(runs: seq<DagRun>, d: string)
    ensures RunningRuns(runs, d) == |RunningRows(runs, d)|
    decreases |runs|
  {
    if runs != [] {
      var init, n := runs[..|runs| - 1], |runs| - 1;
      RunningRunsCount(init, d);
      Append(init, runs[n], d);
      assert runs == init + [runs[n]];
      OneMore(RunningRows(init, d), RunningRows(runs, d), n);
    }
  }

  lemma {:induction false} DatesCount(runs: seq<DagRun>, d: string)
    ensures |Dates(runs, d)| == |RowsOf(runs, d)|
    decreases |runs|
  {
    if runs != [] {
      var init, n := runs[..|runs| - 1], |runs| - 1;
      DatesCount(init, d);
      Append(init, runs[n], d);
      assert runs == init + [runs[n]];
      OneMore(RowsOf(init, d), RowsOf(runs, d), n);
    }
  }

  /** The counts are those of the queued and running rows, of the running rows, and of all rows. */
  lemma CountsAreOfRows(runs: seq<DagRun>, d: string)
    ensures ActiveRuns(runs, d) == |ActiveRows(runs, d)|
    ensures RunningRuns(runs, d) == |RunningRows(runs, d)|
    ensures |Dates(runs, d)| == |RowsOf(runs, d)|
  {
    ActiveRunsCount(runs, d);
    RunningRunsCount(runs, d);
    DatesCount(runs, d);
  }

  // ----- Runs of the whole system -----

  datatype Step =
    | Create(found: set<string>, dag: string)
    | Start(found: set<string>, run: nat)
    | Schedule(found: set<string>, run: nat, outcome: Outcome)
    | PausedFinish(run: nat, state: RunState)

  /**
   * One step of any scheduler. Only DAGs whose creation is on are looked at for creation; only queued
   * runs are started, only running runs are scheduled.
   */
  predicate Next(caps: Caps, t: Tables, s: Step, t': Tables) {
    match s
    case Create(found, d) => d in t.models && t.models[d].creating && t' == CreateFor(caps, found, t, d)
    case Start(found, i) => i < |t.runs| && t.runs[i].state == RunQueued && t' == StartOne(caps, found, t, i)
    case Schedule(found, i, o) =>
      && i < |t.runs| && t.runs[i].state == RunRunning && (o.Arrives? ==> o.state != RunQueued)
      && t' == ScheduleOne(caps, found, t, i, o)
    case PausedFinish(i, st) =>
      && i < |t.runs| && t.runs[i].state == RunRunning && (st == RunSuccess || st == RunFailed)
      && t' == t.(runs := t.runs[i := t.runs[i].(state := st)])
  }

  predicate Behaviour(caps: Caps, states: seq<Tables>, steps: seq<Step>) {
    && |states| == |steps| + 1
    && forall i :: 0 <= i < |steps| ==> Next(caps, states[i], steps[i], states[i + 1])
  }

  /** A DAG that has no runs yet. */
  lemma FreshDagIsGood(caps: Caps, t: Tables, d: string)
    requires d in caps && caps[d] >= 1 && d in t.models
    requires t.models[d] == DagModel(0, true) && forall r :: r in t.runs ==> r.dag != d
    ensures Good(caps, t, d)
  {
    NoRunsNoDates(t.runs, d);
  }

  lemma {:induction false} NoRunsNoDates(runs: seq<DagRun>, d: string)
    requires forall r :: r in runs ==> r.dag != d
    ensures Dates(runs, d) == [] && ActiveRuns(runs, d) == 0
  {
    if runs != [] {
      assert runs[0] in runs;
      NoRunsNoDates(runs[1..], d);
    }
  }

  /**
   * Over every behaviour of the scheduling loop: the runs of a DAG were created for dates 0, 1, 2, ...
   * in that order, each once; next_dagrun never points past the first missing date; active runs never
   * exceed the cap; and creation is off exactly when they have reached it, so never with none outstanding.
   */
  lemma {:induction false} BehavioursAreGood(caps: Caps, states: seq<Tables>, steps: seq<Step>, d: string, i: nat)
    requires Behaviour(caps, states, steps) && i < |states|
    requires Good(caps, states[0], d) && caps[d] >= 1
    requires forall k :: 0 <= k < |steps| ==> !steps[k].PausedFinish?
    ensures Good(caps, states[i], d)
    ensures !states[i].models[d].creating ==> ActiveRuns(states[i].runs, d) > 0
  {
    if i > 0 {
      BehavioursAreGood(caps, states, steps, d, i - 1);
      var t := states[i - 1];
      match steps[i - 1] {
        case Create(found, e) => CreateKeepsGood(caps, found, t, e, d);
        case Start(found, k) => StartKeepsGood(caps, found, t, k, d);
        case Schedule(found, k, o) => ScheduleKeepsGood(caps, found, t, k, o, d);
      }
    }
  }

  /** Two runs of one DAG never share a date. */
  lemma {:induction false} DatesAreDistinct(t: Tables, d: string, i: nat, j: nat)
    requires GapFree(t, d) && i < j < |t.runs| && t.runs[i].dag == d && t.runs[j].dag == d
    ensures t.runs[i].date < t.runs[j].date
  {
    var a, b := t.runs[..j], t.runs[j..];
    assert t.runs == a + b && b[0] == t.runs[j];
    DatesConcat(a, b, d);
    HasRunOnIffDated(a, d, t.runs[i].date);
    assert a[i] == t.runs[i] && a[i] in a;
    assert Dates(b, d)[0] == t.runs[j].date;
    assert Dates(t.runs, d)[|Dates(a, d)|] == t.runs[j].date == |Dates(a, d)|;
    var k :| 0 <= k < |Dates(a, d)| && Dates(a, d)[k] == t.runs[i].date;
    assert Dates(t.runs, d)[k] == k;
  }

  lemma {:induction false} DatesConcat(a: seq<DagRun>, b: seq<DagRun>, d: string)
    ensures Dates(a + b, d) == Dates(a, d) + Dates(b, d)
  {
    if a == [] {
      assert a + b == b;
    } else {
      assert (a + b)[1..] == a[1..] + b;
      DatesConcat(a[1..], b, d);
    }
  }

  /**
   * The same in terms of rows and columns, over every behaviour: with n rows, a DAG has exactly one run on
   * each of the dates 0 to n - 1 and on no other; of these no more are queued or running than its cap; and
   * creation is on exactly if fewer are.
   */
  lemma BehavioursInRows(caps: Caps, states: seq<Tables>, steps: seq<Step>, d: string, i: nat, date: nat)
    requires Behaviour(caps, states, steps) && i < |states|
    requires Good(caps, states[0], d) && caps[d] >= 1
    requires forall k :: 0 <= k < |steps| ==> !steps[k].PausedFinish?
    ensures var runs := states[i].runs;
      && ((exists k :: 0 <= k < |runs| && runs[k].dag == d && runs[k].date == date) <==> date < |RowsOf(runs, d)|)
      && (forall j, k :: 0 <= j < k < |runs| && runs[j].dag == runs[k].dag == d ==> runs[j].date < runs[k].date)
      && |ActiveRows(runs, d)| <= caps[d]
      && d in states[i].models && (states[i].models[d].creating <==> |ActiveRows(runs, d)| < caps[d])
      && states[i].models[d].next <= |RowsOf(runs, d)|
  {
    BehavioursAreGood(caps, states, steps, d, i);
    var t := states[i];
    CountsAreOfRows(t.runs, d);
    DatedIff(t, d, date);
    forall j, k | 0 <= j < k < |t.runs| && t.runs[j].dag == t.runs[k].dag == d
      ensures t.runs[j].date < t.runs[k].date
    {
      DatesAreDistinct(t, d, j, k);
    }
  }

  lemma DatedIff(t: Tables, d: string, date: nat)
    requires GapFree(t, d)
    ensures (exists k :: 0 <= k < |t.runs| && t.runs[k].dag == d && t.runs[k].date == date) <==> date < |Dates(t.runs, d)|
  {
    HasRunOnIffDated(t.runs, d, date);
    if HasRunOn(t.runs, d, date) {
      var r :| r in t.runs && r.dag == d && r.date == date;
      var k :| 0 <= k < |t.runs| && t.runs[k] == r;
    }
    if date < |Dates(t.runs, d)| {
      assert Dates(t.runs, d)[date] == date;
    }
  }

  function CreateTimes(caps: Caps, found: set<string>, t: Tables, d: string, n: nat): Tables
    decreases n
  {
    if n == 0 then t else CreateTimes(caps, found, CreateFor(caps, found, t, d), d, n - 1)
  }

  /**
   * Progress: however far a late finish has set next_dagrun back, creation steps over the dates that
   * exist and then creates the first missing one.
   */
  lemma {:induction false} CreationCatchesUp(caps: Caps, found: set<string>, t: Tables, d: string)
    requires Good(caps, t, d) && d in found && t.models[d].creating
    ensures var n := |Dates(t.runs, d)|; var behind := n - t.models[d].next;
      Dates(CreateTimes(caps, found, t, d, behind + 1).runs, d) == Dates(t.runs, d) + [n]
    decreases |Dates(t.runs, d)| - t.models[d].next
  {
    var next, n := t.models[d].next, |Dates(t.runs, d)|;
    var t' := CreateFor(caps, found, t, d);
    HasRunOnIffDated(t.runs, d, next);
    Append(t.runs, DagRun(d, next, RunQueued), d);
    if next < n {
      assert Dates(t.runs, d)[next] == next;
      CreateKeepsGood(caps, found, t, d, d);
      CreationCatchesUp(caps, found, t', d);
    } else {
      assert CreateTimes(caps, found, t, d, 1) == CreateTimes(caps, found, t', d, 0);
    }
  }

  /** A run that finishes or times out, and whose successor lies before next_dagrun. */
  predicate EndsLate(t: Tables, s: Step, d: string)
    requires d in t.models
  {
    && s.Schedule? && s.run < |t.runs| && t.runs[s.run].dag == d && d in s.found
    && (s.outcome == TimedOut || s.outcome == Arrives(RunSuccess) || s.outcome == Arrives(RunFailed))
    && t.runs[s.run].date + 1 < t.models[d].next
  }

  /** Exactly which steps set next_dagrun back, paused DAGs included. */
  lemma NextGoesBackIff(caps: Caps, t: Tables, s: Step, t': Tables, d: string)
    requires Weak(caps, t, d) && Next(caps, t, s, t')
    ensures d in t'.models
    ensures t'.models[d].next < t.models[d].next <==> EndsLate(t, s, d)
  {
    if s.Schedule? && !s.outcome.InFuture? {
      ChangeState(t.runs, s.run, if s.outcome.TimedOut? then RunFailed else s.outcome.state, d);
    }
  }

  /** next_dagrun is not monotone: the late finish of an old run sets it back. */
  lemma LateFinishSetsNextBack() returns (caps: Caps, t: Tables)
    ensures Good(caps, t, "d") && t.models["d"].next == 2
    ensures ScheduleOne(caps, {"d"}, t, 0, Arrives(RunSuccess)).models["d"].next == 1
  {
    caps := map["d" := 3];
    t := Tables([DagRun("d", 0, RunRunning), DagRun("d", 1, RunRunning)], map["d" := DagModel(2, true)]);
    assert t.runs[1..] == [DagRun("d", 1, RunRunning)];
    assert Dates(t.runs, "d") == [0, 1];
    ChangeState(t.runs, 0, RunSuccess, "d");
  }

  // ----- Batches -----

  lemma {:induction false} CreateAllSparesOthers(caps: Caps, found: set<string>, t: Tables, ids: seq<string>, e: string)
    requires e !in ids && e in t.models
    ensures var u := CreateAll(caps, found, t, ids); e in u.models && u.models[e] == t.models[e]
    decreases |ids|
  {
    if ids != [] {
      CreateAllSparesOthers(caps, found, t, ids[..|ids| - 1], e);
    }
  }

  /** A batch of creations, as one scheduler makes it, keeps every DAG good. */
  lemma {:induction false} CreateAllKeepsGood(caps: Caps, found: set<string>, t: Tables, ids: seq<string>, e: string)
    requires forall i, j :: 0 <= i < j < |ids| ==> ids[i] != ids[j]
    requires Good(caps, t, e) && (e in ids ==> t.models[e].creating)
    ensures Good(caps, CreateAll(caps, found, t, ids), e)
    decreases |ids|
  {
    if ids != [] {
      var init, d := ids[..|ids| - 1], ids[|ids| - 1];
      CreateAllKeepsGood(caps, found, t, init, e);
      if d == e {
        assert e !in init;
        CreateAllSparesOthers(caps, found, t, init, e);
      }
      CreateKeepsGood(caps, found, CreateAll(caps, found, t, init), d, e);
    }
  }

  /** So does a batch of starts. */
  lemma {:induction false} StartAllKeepsGood(caps: Caps, found: set<string>, t: Tables, examined: seq<nat>, e: string)
    requires DistinctQueued(t.runs, examined) && Good(caps, t, e)
    ensures Good(caps, StartAll(caps, found, t, examined), e)
    decreases |examined|
  {
    if examined != [] {
      var init, i := examined[..|examined| - 1], examined[|examined| - 1];
      StartAllKeepsGood(caps, found, t, init, e);
      StartsExactly(caps, found, t, init, e);
      assert i !in init;
      StartKeepsGood(caps, found, StartAll(caps, found, t, init), i, e);
    }
  }

  // ----- Runs of paused DAGs -----

  /** What is left when runs of paused DAGs are finished without touching the date fields. */
  predicate Weak(caps: Caps, t: Tables, d: string) {
    && d in caps && d in t.models
    && GapFree(t, d)
    && t.models[d].next <= |Dates(t.runs, d)|
    && ActiveRuns(t.runs, d) <= caps[d]
    && (t.models[d].creating ==> ActiveRuns(t.runs, d) < caps[d])
  }

  /** With those steps added, dates stay gap-free and the cap holds, over every behaviour. */
  lemma {:induction false} BehavioursAreWeak(caps: Caps, states: seq<Tables>, steps: seq<Step>, d: string, i: nat)
    requires Behaviour(caps, states, steps) && i < |states| && Weak(caps, states[0], d)
    ensures Weak(caps, states[i], d)
  {
    if i > 0 {
      BehavioursAreWeak(caps, states, steps, d, i - 1);
      WeakStep(caps, states[i - 1], steps[i - 1], states[i], d);
    }
  }

  lemma CreateKeepsWeak(caps: Caps, found: set<string>, t: Tables, d: string, e: string)
    requires Weak(caps, t, e) && (d == e ==> t.models[d].creating)
    ensures Weak(caps, CreateFor(caps, found, t, d), e)
  {
    if d == e {
      assert Good(caps, t, e);
      CreateKeepsGood(caps, found, t, d, e);
    } else if d in found && d in caps && d in t.models {
      Append(t.runs, DagRun(d, t.models[d].next, RunQueued), e);
    }
  }

  lemma WeakStep(caps: Caps, t: Tables, s: Step, t': Tables, d: string)
    requires Weak(caps, t, d) && Next(caps, t, s, t')
    ensures Weak(caps, t', d)
  {
    match s {
      case Create(found, e) => CreateKeepsWeak(caps, found, t, e, d);
      case Start(_, i) => ChangeState(t.runs, i, RunRunning, d);
      case Schedule(_, i, o) =>
        if !o.InFuture? {
          ChangeState(t.runs, i, if o.TimedOut? then RunFailed else o.state, d);
          HasRunOnIffDated(t.runs, d, t.runs[i].date);
          assert t.runs[i] in t.runs;
        }
      case PausedFinish(i, st) => ChangeState(t.runs, i, st, d);
    }
  }

  /**
   * Exactly when a paused DAG's finish keeps "creation is off if and only if the cap is reached": when
   * creation was on. Otherwise the DAG is below its cap with creation off.
   */
  lemma PausedFinishKeepsGoodIff(caps: Caps, t: Tables, i: nat, st: RunState, t': Tables)
    requires i < |t.runs| && Good(caps, t, t.runs[i].dag) && Next(caps, t, PausedFinish(i, st), t')
    ensures Good(caps, t', t.runs[i].dag) <==> t.models[t.runs[i].dag].creating
  {
    ChangeState(t.runs, i, st, t.runs[i].dag);
  }

  /** With one run allowed, such a finish leaves creation off and nothing outstanding. */
  lemma PausedFinishStopsADag() returns (caps: Caps, t: Tables, t': Tables)
    ensures Good(caps, t, "d") && caps["d"] >= 1 && Next(caps, t, PausedFinish(0, RunSuccess), t')
    ensures !t'.models["d"].creating && ActiveRuns(t'.runs, "d") == 0
  {
    caps := map["d" := 1];
    t := Tables([DagRun("d", 0, RunRunning)], map["d" := DagModel(0, false)]);
    assert Dates(t.runs, "d") == [0];
    t' := t.(runs := t.runs[0 := DagRun("d", 0, RunSuccess)]);
    ChangeState(t.runs, 0, RunSuccess, "d");
  }

  // ----- Starting queued runs -----

  /** How many of the examined runs belong to a DAG. */
  function Examined(runs: seq<DagRun>, examined: seq<nat>, d: string): nat
    requires forall k :: 0 <= k < |examined| ==> examined[k] < |runs|
    decreases |examined|
  {
    if examined == [] then 0
    else Examined(runs, examined[..|examined| - 1], d) + if runs[examined[|examined| - 1]].dag == d then 1 else 0
  }

  predicate DistinctQueued(runs: seq<DagRun>, examined: seq<nat>) {
    && (forall k :: 0 <= k < |examined| ==> examined[k] < |runs| && runs[examined[k]].state == RunQueued)
    && (forall j, k :: 0 <= j < k < |examined| ==> examined[j] != examined[k])
  }

  /** How many of a DAG's `n` examined runs there is room to start. */
  function Startable(caps: Caps, found: set<string>, d: string, running: nat, n: nat): nat {
    if d !in found || d !in caps then 0
    else if caps[d] == 0 then n
    else if caps[d] <= running then 0
    else if n <= caps[d] - running then n
    else caps[d] - running
  }

  /** The loop starts min(examined, room) runs of each DAG, and touches no run it did not examine. */
  lemma {:induction false} StartsExactly(caps: Caps, found: set<string>, t: Tables, examined: seq<nat>, d: string)
    requires DistinctQueued(t.runs, examined)
    ensures var t' := StartAll(caps, found, t, examined);
      && RunningRuns(t'.runs, d) == RunningRuns(t.runs, d)
                                    + Startable(caps, found, d, RunningRuns(t.runs, d), Examined(t.runs, examined, d))
      && t'.models == t.models
      && (forall i :: 0 <= i < |t.runs| && i !in examined ==> t'.runs[i] == t.runs[i])
      && (forall i :: 0 <= i < |t.runs| ==> t'.runs[i].dag == t.runs[i].dag)
    decreases |examined|
  {
    if examined != [] {
      var init, i := examined[..|examined| - 1], examined[|examined| - 1];
      StartsExactly(caps, found, t, init, d);
      var u := StartAll(caps, found, t, init);
      assert i !in init;
      assert u.runs[i] == t.runs[i];
      ChangeState(u.runs, i, RunRunning, d);
      forall k | 0 <= k < |t.runs| && k !in examined
        ensures StartAll(caps, found, t, examined).runs[k] == t.runs[k]
      {
        assert k !in init && k != i;
      }
      if t.runs[i].dag != d {
        assert Examined(t.runs, examined, d) == Examined(t.runs, init, d);
      }
    }
  }

  predicate HasRoom(caps: Caps, found: set<string>, d: string, running: nat, n: nat) {
    d in found && d in caps && (caps[d] == 0 || running + n <= caps[d])
  }

  lemma LastStartsIf(caps: Caps, found: set<string>, t: Tables, init: seq<nat>, i: nat)
    requires DistinctQueued(t.runs, init) && i < |t.runs| && t.runs[i].state == RunQueued && i !in init
    ensures var d := t.runs[i].dag;
      (StartOne(caps, found, StartAll(caps, found, t, init), i).runs[i].state == RunRunning)
      == HasRoom(caps, found, d, RunningRuns(t.runs, d), Examined(t.runs, init, d) + 1)
  {
    var d := t.runs[i].dag;
    StartsExactly(caps, found, t, init, d);
    var u := StartAll(caps, found, t, init);
    assert u.runs[i] == t.runs[i];
    var running, before := RunningRuns(t.runs, d), Examined(t.runs, init, d);
    assert RunningRuns(u.runs, d) == running + Startable(caps, found, d, running, before);
  }

  /** There is room for the k-th examined run after the earlier ones of its DAG. */
  predicate RoomAt(caps: Caps, found: set<string>, t: Tables, examined: seq<nat>, k: nat)
    requires DistinctQueued(t.runs, examined) && k < |examined|
  {
    var d := t.runs[examined[k]].dag;
    HasRoom(caps, found, d, RunningRuns(t.runs, d), Examined(t.runs, examined[..k], d) + 1)
  }

  lemma RoomAtPrefix(caps: Caps, found: set<string>, t: Tables, examined: seq<nat>, k: nat)
    requires DistinctQueued(t.runs, examined) && k < |examined| - 1
    ensures DistinctQueued(t.runs, examined[..|examined| - 1])
    ensures RoomAt(caps, found, t, examined, k) == RoomAt(caps, found, t, examined[..|examined| - 1], k)
  {
    assert examined[..|examined| - 1][..k] == examined[..k];
  }

  /** They are the first ones: the k-th examined run starts if and only if its DAG still has room after the earlier ones. */
  lemma {:induction false} StartsAPrefix(caps: Caps, found: set<string>, t: Tables, examined: seq<nat>, k: nat)
    requires DistinctQueued(t.runs, examined) && k < |examined|
    ensures (StartAll(caps, found, t, examined).runs[examined[k]].state == RunRunning) == RoomAt(caps, found, t, examined, k)
    decreases |examined|
  {
    var init := examined[..|examined| - 1];
    if k == |init| {
      LastStartsIf(caps, found, t, init, examined[k]);
    } else {
      RoomAtPrefix(caps, found, t, examined, k);
      StartsAPrefix(caps, found, t, init, k);
    }
  }

}
