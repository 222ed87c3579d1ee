/** Dataset-triggered runs of one DAG: which run consumes which event, over any history. */
module DatasetRuns {
  import opened Options

  /** `hasSource`: the event's source_dag_run row exists, as the inner join demands. */
  datatype Event = Event(dataset: string, timestamp: int, hasSource: bool)

  /** Events are identified by their position in the event table. */
  datatype Run = Run(date: int, consumed: set<nat>)

  predicate HasDate(runs: seq<Run>, date: int) {
    exists r :: r in runs && r.date == date
  }

  /** The latest run strictly before a date. */
  function PreviousDate(runs: seq<Run>, date: int): (p: Option<int>)
    ensures p.Some? ==> p.value < date && HasDate(runs, p.value)
    ensures forall r :: r in runs && r.date < date ==> p.Some? && r.date <= p.value
  {
    if runs == [] then None
    else
      var p := PreviousDate(runs[1..], date);
      if runs[0].date < date && (p.None? || p.value < runs[0].date) then
        assert runs[0] in runs;
        Some(runs[0].date)
      else
        assert p.Some? ==> exists r :: r in runs[1..] && r.date == p.value && r in runs;
        p
  }

  predicate Relevant(refs: set<string>, e: Event) {
    e.dataset in refs && e.hasSource
  }

  /** The event filters of the query. */
  predicate Consumes(refs: set<string>, e: Event, previous: Option<int>, date: int) {
    Relevant(refs, e) && e.timestamp <= date && (previous.Some? ==> e.timestamp > previous.value)
  }

  function EventsFor(refs: set<string>, events: seq<Event>, previous: Option<int>, date: int): set<nat> {
    set i: nat | i < |events| && Consumes(refs, events[i], previous, date)
  }

  /** Create the run for a date, unless it exists. */
  function Triggered(refs: set<string>, events: seq<Event>, runs: seq<Run>, date: int): seq<Run> {
    if HasDate(runs, date) then runs
    else runs + [Run(date, EventsFor(refs, events, PreviousDate(runs, date), date))]
  }

  // ----- Histories -----

  datatype Step = Arrive(event: Event) | Trigger(date: int)

  /** `arrivals[i]`: how many runs there were when event i arrived. */
  datatype State = State(events: seq<Event>, runs: seq<Run>, arrivals: seq<nat>)

  function Apply(refs: set<string>, s: State, step: Step): State {
    match step
    case Arrive(e) => State(s.events + [e], s.runs, s.arrivals + [|s.runs|])
    case Trigger(date) => s.(runs := Triggered(refs, s.events, s.runs, date))
  }

  function Exec(refs: set<string>, h: seq<Step>): (s: State)
    ensures |s.arrivals| == |s.events|
    decreases |h|
  {
    if h == [] then State([], [], []) else Apply(refs, Exec(refs, h[..|h| - 1]), h[|h| - 1])
  }

  /** The date is that of an existing run, or after all of them. */
  predicate NotBehind(runs: seq<Run>, date: int) {
    HasDate(runs, date) || forall r :: r in runs ==> r.date < date
  }

  /** No run is created behind one that exists. */
  predicate Ascending(refs: set<string>, h: seq<Step>) {
    forall k :: 0 <= k < |h| ==> CreatesAhead(refs, h, k)
  }

  predicate CreatesAhead(refs: set<string>, h: seq<Step>, k: nat)
    requires k < |h|
  {
    h[k].Trigger? ==> NotBehind(Exec(refs, h[..k]).runs, h[k].date)
  }

  predicate Increasing(runs: seq<Run>) {
    forall j, k :: 0 <= j < k < |runs| ==> runs[j].date < runs[k].date
  }

  lemma AscendingPrefix(refs: set<string>, h: seq<Step>)
    requires Ascending(refs, h) && h != []
    ensures Ascending(refs, h[..|h| - 1])
  {
    var init := h[..|h| - 1];
    forall k | 0 <= k < |init|
      ensures CreatesAhead(refs, init, k)
    {
      assert init[..k] == h[..k] && CreatesAhead(refs, h, k);
    }
  }

  lemma {:induction false} AscendingRunsIncrease(refs: set<string>, h: seq<Step>)
    requires Ascending(refs, h)
    ensures Increasing(Exec(refs, h).runs)
    decreases |h|
  {
    if h != [] {
      AscendingPrefix(refs, h);
      AscendingRunsIncrease(refs, h[..|h| - 1]);
      var s := Exec(refs, h[..|h| - 1]);
      assert CreatesAhead(refs, h, |h| - 1);
      if h[|h| - 1].Trigger? && !HasDate(s.runs, h[|h| - 1].date) {
        forall j | 0 <= j < |s.runs|
          ensures s.runs[j].date < h[|h| - 1].date
        {
          assert s.runs[j] in s.runs;
        }
      }
    }
  }

  /** The interval of timestamps between a run and the one before it. */
  predicate InWindow(runs: seq<Run>, k: nat, ts: int)
    requires k < |runs|
  {
    ts <= runs[k].date && (k == 0 || runs[k - 1].date < ts)
  }

  /**
   * What each run consumes, exactly: the events of the datasets the DAG is scheduled on, with a source
   * run, whose timestamp lies in its own interval and that had arrived by the time it was created.
   */
  lemma {:induction false} ConsumedExactly(refs: set<string>, h: seq<Step>, k: nat, i: nat)
    requires Ascending(refs, h)
    requires var s := Exec(refs, h); k < |s.runs| && i < |s.events|
    ensures var s := Exec(refs, h);
      i in s.runs[k].consumed
      <==> s.events[i].dataset in refs && s.events[i].hasSource
           && InWindow(s.runs, k, s.events[i].timestamp) && s.arrivals[i] <= k
    decreases |h|
  {
    AscendingPrefix(refs, h);
    var init, last := h[..|h| - 1], h[|h| - 1];
    var s := Exec(refs, init);
    if i < |s.events| {
      ArrivalBounded(refs, init, i);
    }
    match last {
      case Arrive(e) =>
        if i < |s.events| {
          ConsumedExactly(refs, init, k, i);
        } else {
          ConsumedHaveArrived(refs, init, k);
        }
      case Trigger(date) =>
        if k < |s.runs| {
          ConsumedExactly(refs, init, k, i);
        } else {
          AscendingRunsIncrease(refs, h);
          NewestIsPrevious(s.runs, date, Exec(refs, h).runs);
        }
    }
  }

  lemma NewestIsPrevious(runs: seq<Run>, date: int, runs': seq<Run>)
    requires Increasing(runs') && |runs'| == |runs| + 1 && runs'[..|runs|] == runs && runs'[|runs|].date == date
    ensures PreviousDate(runs, date) == if runs == [] then None else Some(runs[|runs| - 1].date)
  {
    if runs != [] {
      var last := runs[|runs| - 1];
      assert last == runs'[|runs| - 1] && last in runs;
      var p := PreviousDate(runs, date);
      var r :| r in runs && r.date == p.value;
      var j :| 0 <= j < |runs| && runs[j] == r;
      assert runs'[j] == r;
    }
  }

  lemma {:induction false} ArrivalBounded(refs: set<string>, h: seq<Step>, i: nat)
    requires i < |Exec(refs, h).arrivals|
    ensures Exec(refs, h).arrivals[i] <= |Exec(refs, h).runs|
    decreases |h|
  {
    var s := Exec(refs, h[..|h| - 1]);
    if i < |s.arrivals| {
      ArrivalBounded(refs, h[..|h| - 1], i);
    }
  }

  lemma {:induction false} ConsumedHaveArrived(refs: set<string>, h: seq<Step>, k: nat)
    requires k < |Exec(refs, h).runs|
    ensures forall i :: i in Exec(refs, h).runs[k].consumed ==> i < |Exec(refs, h).events|
    decreases |h|
  {
    if h != [] {
      var s := Exec(refs, h[..|h| - 1]);
      if k < |s.runs| {
        ConsumedHaveArrived(refs, h[..|h| - 1], k);
      }
    }
  }

  /**
   * In any history, dates ascending or not: a run consumes only events of its own DAG's datasets, with a
   * source run, and none after its date.
   */
  lemma {:induction false} ConsumesOnlyOwn(refs: set<string>, h: seq<Step>, k: nat, i: nat)
    requires k < |Exec(refs, h).runs| && i in Exec(refs, h).runs[k].consumed
    ensures var s := Exec(refs, h);
      i < |s.events| && s.events[i].dataset in refs && s.events[i].hasSource && s.events[i].timestamp <= s.runs[k].date
    decreases |h|
  {
    var s := Exec(refs, h[..|h| - 1]);
    if k < |s.runs| {
      ConsumesOnlyOwn(refs, h[..|h| - 1], k, i);
    }
  }

  /** At most once: no event is consumed by two runs, late or not. */
  lemma ConsumedAtMostOnce(refs: set<string>, h: seq<Step>, j: nat, k: nat)
    requires Ascending(refs, h) && j < k < |Exec(refs, h).runs|
    ensures Exec(refs, h).runs[j].consumed !! Exec(refs, h).runs[k].consumed
  {
    var s := Exec(refs, h);
    AscendingRunsIncrease(refs, h);
    ConsumedHaveArrived(refs, h, j);
    forall i | i in s.runs[j].consumed
      ensures i !in s.runs[k].consumed
    {
      ConsumedExactly(refs, h, j, i);
      ConsumedExactly(refs, h, k, i);
      TwoWindows(s.runs, j, k, s.events[i].timestamp);
    }
  }

  lemma TwoWindows(runs: seq<Run>, j: nat, k: nat, ts: int)
    requires Increasing(runs) && j < k < |runs| && InWindow(runs, j, ts)
    ensures !InWindow(runs, k, ts)
  {
  }

  /** An event is late if a run at or after its timestamp existed when it arrived. */
  predicate Late(runs: seq<Run>, arrived: nat, ts: int) {
    0 < arrived <= |runs| && ts <= runs[arrived - 1].date
  }

  /** The first run at or after a timestamp. */
  function FirstAtOrAfter(runs: seq<Run>, ts: int): (k: nat)
    requires runs != [] && ts <= runs[|runs| - 1].date
    ensures k < |runs| && InWindow(runs, k, ts)
  {
    if |runs| == 1 || runs[|runs| - 2].date < ts then |runs| - 1
    else FirstAtOrAfter(runs[..|runs| - 1], ts)
  }

  lemma NotLateIsConsumed(refs: set<string>, h: seq<Step>, i: nat) returns (k: nat)
    requires Ascending(refs, h)
    requires var s := Exec(refs, h);
      && i < |s.events| && s.arrivals[i] <= |s.runs| && Relevant(refs, s.events[i])
      && s.runs != [] && s.events[i].timestamp <= s.runs[|s.runs| - 1].date && !Late(s.runs, s.arrivals[i], s.events[i].timestamp)
    ensures k < |Exec(refs, h).runs| && i in Exec(refs, h).runs[k].consumed
  {
    var s := Exec(refs, h);
    AscendingRunsIncrease(refs, h);
    k := FirstAtOrAfter(s.runs, s.events[i].timestamp);
    ConsumedExactly(refs, h, k, i);
  }

  /** Some run consumes event i. */
  predicate Consumed(s: State, i: nat) {
    exists k :: 0 <= k < |s.runs| && i in s.runs[k].consumed
  }

  lemma WindowOfHistoryNotLate(refs: set<string>, h: seq<Step>, k: nat, ts: int, a: nat)
    requires Ascending(refs, h) && a <= k < |Exec(refs, h).runs| && InWindow(Exec(refs, h).runs, k, ts)
    ensures var runs := Exec(refs, h).runs; ts <= runs[|runs| - 1].date && !Late(runs, a, ts)
  {
    AscendingRunsIncrease(refs, h);
  }

  /** The newest run reaches the event's timestamp, and the event was there in time. */
  predicate InTime(s: State, i: nat)
    requires i < |s.events| == |s.arrivals|
  {
    s.runs != [] && s.events[i].timestamp <= s.runs[|s.runs| - 1].date
    && !Late(s.runs, s.arrivals[i], s.events[i].timestamp)
  }

  lemma ConsumedInTime(refs: set<string>, h: seq<Step>, i: nat, k: nat)
    requires Ascending(refs, h)
    requires i < |Exec(refs, h).events| && k < |Exec(refs, h).runs| && i in Exec(refs, h).runs[k].consumed
    ensures InTime(Exec(refs, h), i)
  {
    var s := Exec(refs, h);
    ConsumedExactly(refs, h, k, i);
    WindowOfHistoryNotLate(refs, h, k, s.events[i].timestamp, s.arrivals[i]);
  }

  /**
   * Exactly once, and exactly when: a relevant event is consumed by some run if and only if the newest
   * run reaches its timestamp and it was not late. (By at most one: see ConsumedAtMostOnce.)
   */
  lemma ConsumedIffInTime(refs: set<string>, h: seq<Step>, i: nat)
    requires Ascending(refs, h) && i < |Exec(refs, h).events|
    requires Relevant(refs, Exec(refs, h).events[i])
    ensures Consumed(Exec(refs, h), i) <==> InTime(Exec(refs, h), i)
  {
    if Consumed(Exec(refs, h), i) {
      var k :| 0 <= k < |Exec(refs, h).runs| && i in Exec(refs, h).runs[k].consumed;
      ConsumedInTime(refs, h, i, k);
    } else if InTime(Exec(refs, h), i) {
      ArrivalBounded(refs, h, i);
      var k := NotLateIsConsumed(refs, h, i);
    }
  }

  // ----- Dates out of order -----

  predicate NoEventTwice(runs: seq<Run>) {
    forall j, k :: 0 <= j < k < |runs| ==> runs[j].consumed !! runs[k].consumed
  }

  /** One more event at the start changes no run's date. */
  lemma {:induction false} DatesIgnoreEvents(refs: set<string>, e: Event, h: seq<Step>)
    ensures var a, b := Exec(refs, h).runs, Exec(refs, [Arrive(e)] + h).runs;
      |a| == |b| && forall k :: 0 <= k < |a| ==> a[k].date == b[k].date
    decreases |h|
  {
    if h == [] {
    } else {
      var init := h[..|h| - 1];
      DatesIgnoreEvents(refs, e, init);
      OneStep(refs, e, h);
      var a, b := Exec(refs, init).runs, Exec(refs, [Arrive(e)] + init).runs;
      if h[|h| - 1].Trigger? {
        SameDates(a, b, h[|h| - 1].date);
      }
    }
  }

  lemma OneStep(refs: set<string>, e: Event, h: seq<Step>)
    requires h != []
    ensures Exec(refs, [Arrive(e)] + h) == Apply(refs, Exec(refs, [Arrive(e)] + h[..|h| - 1]), h[|h| - 1])
  {
    var g := [Arrive(e)] + h;
    assert g[..|g| - 1] == [Arrive(e)] + h[..|h| - 1] && g[|g| - 1] == h[|h| - 1];
  }

  lemma SameDates(a: seq<Run>, b: seq<Run>, date: int)
    requires |a| == |b| && forall k :: 0 <= k < |a| ==> a[k].date == b[k].date
    ensures HasDate(a, date) <==> HasDate(b, date)
    ensures (forall r :: r in a ==> r.date < date) <==> (forall r :: r in b ==> r.date < date)
  {
    assert HasDate(a, date) <==> exists k :: 0 <= k < |a| && a[k].date == date;
    assert HasDate(b, date) <==> exists k :: 0 <= k < |b| && b[k].date == date;
    assert (forall r :: r in a ==> r.date < date) <==> (forall k :: 0 <= k < |a| ==> a[k].date < date);
    assert (forall r :: r in b ==> r.date < date) <==> (forall k :: 0 <= k < |b| ==> b[k].date < date);
  }

  lemma AscendingIgnoresEvents(refs: set<string>, e: Event, h: seq<Step>)
    requires Ascending(refs, h)
    ensures Ascending(refs, [Arrive(e)] + h)
  {
    var g := [Arrive(e)] + h;
    forall k | 0 <= k < |g|
      ensures CreatesAhead(refs, g, k)
    {
      if k > 0 && g[k].Trigger? {
        assert g[..k] == [Arrive(e)] + h[..k - 1] && g[k] == h[k - 1];
        assert CreatesAhead(refs, h, k - 1);
        DatesIgnoreEvents(refs, e, h[..k - 1]);
        SameDates(Exec(refs, h[..k - 1]).runs, Exec(refs, g[..k]).runs, g[k].date);
      }
    }
  }

  /** Runs are only ever added. */
  lemma {:induction false} RunsGrow(refs: set<string>, h: seq<Step>, k: nat)
    requires k <= |h|
    ensures Exec(refs, h[..k]).runs <= Exec(refs, h).runs
    decreases |h|
  {
    if k < |h| {
      RunsGrow(refs, h[..|h| - 1], k);
      assert h[..|h| - 1][..k] == h[..k];
    } else {
      assert h[..k] == h;
    }
  }

  /** Event 0 is in the table first, before any run. */
  lemma {:induction false} FirstEventStays(refs: set<string>, e: Event, h: seq<Step>)
    ensures var s := Exec(refs, [Arrive(e)] + h); |s.events| > 0 && s.events[0] == e
    decreases |h|
  {
    if h == [] {
    } else {
      FirstEventStays(refs, e, h[..|h| - 1]);
      OneStep(refs, e, h);
    }
  }

  /** If runs lie after the event's timestamp but none at it, the first created of them took the event. */
  lemma {:induction false} FirstPastTakesIt(refs: set<string>, e: Event, h: seq<Step>) returns (j: nat)
    requires Relevant(refs, e)
    requires var runs := Exec(refs, [Arrive(e)] + h).runs;
      !HasDate(runs, e.timestamp) && exists r :: r in runs && r.date > e.timestamp
    ensures var runs := Exec(refs, [Arrive(e)] + h).runs; j < |runs| && 0 in runs[j].consumed
    decreases |h|
  {
    if h == [] {
      assert false;
    } else {
      OneStep(refs, e, h);
      FirstEventStays(refs, e, h[..|h| - 1]);
      var s := Exec(refs, [Arrive(e)] + h[..|h| - 1]);
      var runs := Exec(refs, [Arrive(e)] + h).runs;
      assert forall r :: r in s.runs ==> r in runs;
      if exists r :: r in s.runs && r.date > e.timestamp {
        j := FirstPastTakesIt(refs, e, h[..|h| - 1]);
      } else {
        j := |s.runs|;
      }
    }
  }

  /**
   * Exactly when no event is consumed twice, whatever event was in the table from the start: when no
   * run is created behind an existing one.
   */
  lemma NoEventTwiceIffAscending(refs: set<string>, dataset: string, h: seq<Step>)
    requires dataset in refs
    ensures (forall e: Event :: NoEventTwice(Exec(refs, [Arrive(e)] + h).runs)) <==> Ascending(refs, h)
  {
    if Ascending(refs, h) {
      forall e: Event
        ensures NoEventTwice(Exec(refs, [Arrive(e)] + h).runs)
      {
        AscendingIgnoresEvents(refs, e, h);
        var g := [Arrive(e)] + h;
        forall j, k | 0 <= j < k < |Exec(refs, g).runs|
          ensures Exec(refs, g).runs[j].consumed !! Exec(refs, g).runs[k].consumed
        {
          ConsumedAtMostOnce(refs, g, j, k);
        }
      }
    } else {
      var e := TakenTwice(refs, dataset, h);
    }
  }

  /** A trigger behind an existing run takes an event that a later-dated run has taken. */
  lemma TriggerBehindTakesAgain(refs: set<string>, e: Event, h: seq<Step>) returns (j: nat)
    requires Relevant(refs, e) && !NotBehind(Exec(refs, h).runs, e.timestamp)
    ensures var runs := Exec(refs, [Arrive(e)] + (h + [Trigger(e.timestamp)])).runs;
      0 < |runs| && j < |runs| - 1 && 0 in runs[j].consumed && 0 in runs[|runs| - 1].consumed
  {
    var s := Exec(refs, [Arrive(e)] + h);
    DatesIgnoreEvents(refs, e, h);
    SameDates(Exec(refs, h).runs, s.runs, e.timestamp);
    assert exists r :: r in s.runs && r.date > e.timestamp by {
      var r :| r in s.runs && r.date >= e.timestamp;
    }
    j := FirstPastTakesIt(refs, e, h);
    FirstEventStays(refs, e, h);
    var g := h + [Trigger(e.timestamp)];
    assert g[..|g| - 1] == h;
    OneStep(refs, e, g);
  }

  lemma TakenTwice(refs: set<string>, dataset: string, h: seq<Step>) returns (e: Event)
    requires dataset in refs && !Ascending(refs, h)
    ensures !NoEventTwice(Exec(refs, [Arrive(e)] + h).runs)
  {
    var k :| 0 <= k < |h| && !CreatesAhead(refs, h, k);
    e := Event(dataset, h[k].date, true);
    var j := TriggerBehindTakesAgain(refs, e, h[..k]);
    var g := [Arrive(e)] + h;
    assert g[..k + 2] == [Arrive(e)] + (h[..k] + [Trigger(e.timestamp)]);
    RunsGrow(refs, g, k + 2);
    var runs := Exec(refs, g[..k + 2]).runs;
    assert Exec(refs, g).runs[j] == runs[j] && Exec(refs, g).runs[|runs| - 1] == runs[|runs| - 1];
  }
}
