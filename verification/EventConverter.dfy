/** The conversion of a row change in the metadata database into an event. */
module EventConverter {
  import opened Options

  datatype Value = Null | Flag(b: bool) | Number(n: int) | Text(s: string)

  type Row = map<string, Value>

  datatype Kind =
    | TaskInstanceUnknown | TaskInstanceQueued | TaskInstanceFailed | TaskInstanceUpstreamFailed
    | TaskInstanceSuccess | TaskInstanceSkipped | TaskInstanceRunning | TaskInstanceRestarting
    | TaskInstanceShutdown | TaskInstanceScheduled
    | DagUpdated
    | DagRunSuccess | DagRunFailed | DagRunRunning | DagRunQueued

  datatype FieldType = StringField | IntField | BoolField

  /** The values of an event's fields, in the order of FieldsOf its kind. */
  datatype Event = Event(kind: Kind, values: seq<Value>)

  datatype Error = KeyError(key: string) | UnknownState(state: Value) | NotConvertible | ValidationError(field: string)

  datatype Result<T> = Ok(value: T) | Err(error: Error)

  /** The validation of one field by the event class: the value it stores, or a refusal. */
  type Validator = (FieldType, Value) -> Option<Value>

  /** The fields each event class demands, in the order the converter reads them. */
  function FieldsOf(kind: Kind): seq<(string, FieldType)> {
    match kind
    case TaskInstanceQueued =>
      [("dag_id", StringField), ("run_id", StringField), ("task_id", StringField), ("map_index", IntField),
       ("pool", StringField), ("queue", StringField), ("try_number", IntField), ("queued_dttm", StringField)]
    case TaskInstanceFailed | TaskInstanceSuccess =>
      [("dag_id", StringField), ("run_id", StringField), ("task_id", StringField), ("map_index", IntField),
       ("try_number", IntField)]
    case TaskInstanceUpstreamFailed | TaskInstanceSkipped =>
      [("dag_id", StringField), ("run_id", StringField), ("task_id", StringField), ("try_number", IntField)]
    case TaskInstanceUnknown | TaskInstanceRunning | TaskInstanceRestarting | TaskInstanceShutdown
       | TaskInstanceScheduled =>
      [("dag_id", StringField), ("run_id", StringField), ("task_id", StringField)]
    case DagUpdated => [("dag_id", StringField), ("is_active", BoolField), ("is_paused", BoolField)]
    case DagRunSuccess | DagRunFailed | DagRunRunning | DagRunQueued =>
      [("dag_id", StringField), ("dag_hash", StringField), ("run_id", StringField), ("run_type", StringField)]
  }

  const TASK_INSTANCE := "task_instance"
  const DAG := "dag"
  const DAG_RUN := "dag_run"

  /** What a row without a table name must hold to pass for a row of a table. */
  const TASK_INSTANCE_COLUMNS: seq<string> :=
    ["task_id", "dag_id", "run_id", "operator", "max_tries", "queue", "pool", "try_number", "map_index"]
  const DAG_COLUMNS: seq<string> := ["dag_id", "is_paused", "is_active"]
  const DAG_RUN_COLUMNS: seq<string> := ["dag_id", "dag_hash", "run_id", "run_type", "queued_at", "execution_date"]

  predicate HasAll(row: Row, columns: seq<string>) {
    forall c :: c in columns ==> c in row
  }

  predicate IsOf(row: Row, hint: Value, table: string, columns: seq<string>) {
    if hint == Text(table) then true
    else if hint != Null then false
    else HasAll(row, columns)
  }

  function TaskKind(state: Value): Option<Kind> {
    if state == Null then Some(TaskInstanceUnknown)
    else if state == Text("queued") then Some(TaskInstanceQueued)
    else if state == Text("failed") then Some(TaskInstanceFailed)
    else if state == Text("upstream_failed") then Some(TaskInstanceUpstreamFailed)
    else if state == Text("success") then Some(TaskInstanceSuccess)
    else if state == Text("skipped") then Some(TaskInstanceSkipped)
    else if state == Text("running") then Some(TaskInstanceRunning)
    else if state == Text("restarting") then Some(TaskInstanceRestarting)
    else if state == Text("shutdown") then Some(TaskInstanceShutdown)
    else if state == Text("scheduled") then Some(TaskInstanceScheduled)
    else None
  }

  function DagRunKind(state: Value): Option<Kind> {
    if state == Text("success") then Some(DagRunSuccess)
    else if state == Text("failed") then Some(DagRunFailed)
    else if state == Text("running") then Some(DagRunRunning)
    else if state == Text("queued") then Some(DagRunQueued)
    else None
  }

  /** The first of the fields the row does not have. */
  function FirstMissing(row: Row, fields: seq<(string, FieldType)>): (f: Option<string>)
    ensures f.None? <==> forall x :: x in fields ==> x.0 in row
    ensures f.Some? ==> f.value !in row
  {
    if fields == [] then None
    else if fields[0].0 !in row then Some(fields[0].0)
    else FirstMissing(row, fields[1..])
  }

  function FirstRefused(row: Row, fields: seq<(string, FieldType)>, v: Validator): (f: Option<string>)
    requires forall x :: x in fields ==> x.0 in row
    ensures f.None? <==> forall x :: x in fields ==> v(x.1, row[x.0]).Some?
  {
    if fields == [] then None
    else if v(fields[0].1, row[fields[0].0]).None? then Some(fields[0].0)
    else FirstRefused(row, fields[1..], v)
  }

  function Stored(row: Row, fields: seq<(string, FieldType)>, v: Validator): (s: seq<Value>)
    requires forall x :: x in fields ==> x.0 in row && v(x.1, row[x.0]).Some?
    ensures |s| == |fields| && forall i :: 0 <= i < |s| ==> Some(s[i]) == v(fields[i].1, row[fields[i].0])
  {
    if fields == [] then [] else [v(fields[0].1, row[fields[0].0]).value] + Stored(row, fields[1..], v)
  }

  /** The constructor call: all keys are read before any value is validated. */
  function Build(row: Row, kind: Kind, v: Validator): Result<Event> {
    match FirstMissing(row, FieldsOf(kind))
    case Some(f) => Err(KeyError(f))
    case None =>
      match FirstRefused(row, FieldsOf(kind), v)
      case Some(f) => Err(ValidationError(f))
      case None => Ok(Event(kind, Stored(row, FieldsOf(kind), v)))
  }

  function ConvertTaskInstance(row: Row, v: Validator): Result<Event> {
    if "state" !in row then Build(row, TaskInstanceUnknown, v)
    else
      match TaskKind(row["state"])
      case Some(kind) => Build(row, kind, v)
      case None => Err(UnknownState(row["state"]))
  }

  function ConvertDagRun(row: Row, v: Validator): Result<Event> {
    if "state" !in row then Err(KeyError("state"))
    else
      match DagRunKind(row["state"])
      case Some(kind) => Build(row, kind, v)
      case None => Err(UnknownState(row["state"]))
  }

  function Convert(row: Row, hint: Value, v: Validator): Result<Event> {
    if IsOf(row, hint, TASK_INSTANCE, TASK_INSTANCE_COLUMNS) then ConvertTaskInstance(row, v)
    else if IsOf(row, hint, DAG, DAG_COLUMNS) then Build(row, DagUpdated, v)
    else if IsOf(row, hint, DAG_RUN, DAG_RUN_COLUMNS) then ConvertDagRun(row, v)
    else Err(NotConvertible)
  }

  // ----- The domain -----

  /** The state column, NULL where it is missing. */
  function StateOf(row: Row): Value {
    if "state" in row then row["state"] else Null
  }

  /** The table a row change belongs to: the one named, or else the first whose columns it has. */
  function TableOf(row: Row, hint: Value): Option<string> {
    if hint != Null then (if hint in {Text(TASK_INSTANCE), Text(DAG), Text(DAG_RUN)} then Some(hint.s) else None)
    else if HasAll(row, TASK_INSTANCE_COLUMNS) then Some(TASK_INSTANCE)
    else if HasAll(row, DAG_COLUMNS) then Some(DAG)
    else if HasAll(row, DAG_RUN_COLUMNS) then Some(DAG_RUN)
    else None
  }

  const TASK_STATES := {"queued", "failed", "upstream_failed", "success", "skipped", "running", "restarting", "shutdown", "scheduled"}
  const DAG_RUN_STATES := {"success", "failed", "running", "queued"}

  predicate StateKnown(row: Row, table: string) {
    if table == TASK_INSTANCE then "state" in row ==> row["state"] == Null || (row["state"].Text? && row["state"].s in TASK_STATES)
    else table == DAG_RUN ==> "state" in row && row["state"].Text? && row["state"].s in DAG_RUN_STATES
  }

  predicate Accepted(row: Row, field: string, t: FieldType, v: Validator) {
    field in row && v(t, row[field]).Some?
  }

  /** What every event of a table needs. */
  predicate Identified(row: Row, table: string, v: Validator) {
    && Accepted(row, "dag_id", StringField, v)
    && (table != DAG ==> Accepted(row, "run_id", StringField, v))
    && (table == TASK_INSTANCE ==> Accepted(row, "task_id", StringField, v))
    && (table == DAG ==> Accepted(row, "is_active", BoolField, v) && Accepted(row, "is_paused", BoolField, v))
    && (table == DAG_RUN ==> Accepted(row, "dag_hash", StringField, v) && Accepted(row, "run_type", StringField, v))
  }

  predicate InState(row: Row, states: set<string>) {
    "state" in row && row["state"].Text? && row["state"].s in states
  }

  /** What the state of a task instance needs on top. */
  predicate Detailed(row: Row, v: Validator) {
    && (InState(row, {"queued", "failed", "success", "upstream_failed", "skipped"}) ==> Accepted(row, "try_number", IntField, v))
    && (InState(row, {"queued", "failed", "success"}) ==> Accepted(row, "map_index", IntField, v))
    && (InState(row, {"queued"}) ==>
          && Accepted(row, "pool", StringField, v) && Accepted(row, "queue", StringField, v)
          && Accepted(row, "queued_dttm", StringField, v))
  }

  /** The converter's domain, column by column. */
  predicate Convertible(row: Row, hint: Value, v: Validator) {
    var table := TableOf(row, hint);
    && table.Some? && StateKnown(row, table.value) && Identified(row, table.value, v)
    && (table.value == TASK_INSTANCE ==> Detailed(row, v))
  }

  predicate AllAccepted(row: Row, fields: seq<(string, FieldType)>, v: Validator) {
    forall i :: 0 <= i < |fields| ==> Accepted(row, fields[i].0, fields[i].1, v)
  }

  lemma BuildsIff(row: Row, kind: Kind, v: Validator)
    ensures Build(row, kind, v).Ok? <==> AllAccepted(row, FieldsOf(kind), v)
  {
    var fs := FieldsOf(kind);
    assert AllAccepted(row, fs, v) <==> forall x :: x in fs ==> Accepted(row, x.0, x.1, v);
  }

  lemma QueuedFields(row: Row, v: Validator)
    ensures AllAccepted(row, FieldsOf(TaskInstanceQueued), v) <==>
      && Identified(row, TASK_INSTANCE, v)
      && Accepted(row, "try_number", IntField, v) && Accepted(row, "map_index", IntField, v)
      && Accepted(row, "pool", StringField, v) && Accepted(row, "queue", StringField, v)
      && Accepted(row, "queued_dttm", StringField, v)
  {
    var fs := FieldsOf(TaskInstanceQueued);
    assert fs[0].0 == "dag_id" && fs[1].0 == "run_id" && fs[2].0 == "task_id" && fs[3].0 == "map_index";
    assert fs[4].0 == "pool" && fs[5].0 == "queue" && fs[6].0 == "try_number" && fs[7].0 == "queued_dttm";
  }

  lemma OtherTaskFields(row: Row, kind: Kind, v: Validator)
    requires !kind.TaskInstanceQueued? && !kind.DagUpdated?
    requires !kind.DagRunSuccess? && !kind.DagRunFailed? && !kind.DagRunRunning? && !kind.DagRunQueued?
    ensures AllAccepted(row, FieldsOf(kind), v) <==>
      && Identified(row, TASK_INSTANCE, v)
      && (kind in {TaskInstanceFailed, TaskInstanceSuccess, TaskInstanceUpstreamFailed, TaskInstanceSkipped} ==>
            Accepted(row, "try_number", IntField, v))
      && (kind in {TaskInstanceFailed, TaskInstanceSuccess} ==> Accepted(row, "map_index", IntField, v))
  {
    var fs := FieldsOf(kind);
    assert fs[0].0 == "dag_id" && fs[1].0 == "run_id" && fs[2].0 == "task_id";
    assert |fs| == 4 ==> fs[3].0 == "try_number";
    assert |fs| == 5 ==> fs[3].0 == "map_index" && fs[4].0 == "try_number";
  }

  lemma DagFields(row: Row, kind: Kind, v: Validator)
    ensures kind.DagUpdated? ==> (AllAccepted(row, FieldsOf(kind), v) <==> Identified(row, DAG, v))
    ensures kind in {DagRunSuccess, DagRunFailed, DagRunRunning, DagRunQueued} ==>
      (AllAccepted(row, FieldsOf(kind), v) <==> Identified(row, DAG_RUN, v))
  {
    var fs := FieldsOf(kind);
    assert kind.DagUpdated? ==> fs[0].0 == "dag_id" && fs[1].0 == "is_active" && fs[2].0 == "is_paused";
    assert kind in {DagRunSuccess, DagRunFailed, DagRunRunning, DagRunQueued} ==>
      fs[0].0 == "dag_id" && fs[1].0 == "dag_hash" && fs[2].0 == "run_id" && fs[3].0 == "run_type";
  }

  lemma TaskStateKnownIff(row: Row)
    ensures StateKnown(row, TASK_INSTANCE) <==> TaskKind(StateOf(row)).Some?
  {
  }

  lemma DetailedIff(row: Row, kind: Kind, v: Validator)
    requires TaskKind(StateOf(row)) == Some(kind)
    ensures Detailed(row, v) <==>
      && (kind in {TaskInstanceQueued, TaskInstanceFailed, TaskInstanceSuccess, TaskInstanceUpstreamFailed, TaskInstanceSkipped} ==>
            Accepted(row, "try_number", IntField, v))
      && (kind in {TaskInstanceQueued, TaskInstanceFailed, TaskInstanceSuccess} ==> Accepted(row, "map_index", IntField, v))
      && (kind.TaskInstanceQueued? ==>
            && Accepted(row, "pool", StringField, v) && Accepted(row, "queue", StringField, v)
            && Accepted(row, "queued_dttm", StringField, v))
  {
  }

  lemma TaskKindIsTask(state: Value)
    ensures TaskKind(state).Some? ==>
      var kind := TaskKind(state).value;
      !kind.DagUpdated? && !kind.DagRunSuccess? && !kind.DagRunFailed? && !kind.DagRunRunning? && !kind.DagRunQueued?
  {
  }

  lemma TaskInstanceConvertsIff(row: Row, v: Validator)
    ensures ConvertTaskInstance(row, v).Ok?
       <==> StateKnown(row, TASK_INSTANCE) && Identified(row, TASK_INSTANCE, v) && Detailed(row, v)
  {
    TaskStateKnownIff(row);
    if TaskKind(StateOf(row)).Some? {
      var kind := TaskKind(StateOf(row)).value;
      TaskKindIsTask(StateOf(row));
      BuildsIff(row, kind, v);
      DetailedIff(row, kind, v);
      if kind.TaskInstanceQueued? {
        QueuedFields(row, v);
      } else {
        OtherTaskFields(row, kind, v);
      }
    }
  }

  lemma DagRunConvertsIff(row: Row, v: Validator)
    ensures ConvertDagRun(row, v).Ok? <==> StateKnown(row, DAG_RUN) && Identified(row, DAG_RUN, v)
  {
    if "state" in row && DagRunKind(row["state"]).Some? {
      var kind := DagRunKind(row["state"]).value;
      BuildsIff(row, kind, v);
      DagFields(row, kind, v);
    }
  }

  /** The converter gives an event exactly for the rows of its domain. */
  lemma ConvertsIff(row: Row, hint: Value, v: Validator)
    ensures Convert(row, hint, v).Ok? <==> Convertible(row, hint, v)
  {
    TableDecides(row, hint);
    if TableOf(row, hint) == Some(TASK_INSTANCE) {
      TaskInstanceConvertsIff(row, v);
    } else if TableOf(row, hint) == Some(DAG_RUN) {
      DagRunConvertsIff(row, v);
    } else if TableOf(row, hint) == Some(DAG) {
      BuildsIff(row, DagUpdated, v);
      DagFields(row, DagUpdated, v);
    }
  }

  /** The classifiers, tried in turn, find the table. */
  lemma TableDecides(row: Row, hint: Value)
    ensures IsOf(row, hint, TASK_INSTANCE, TASK_INSTANCE_COLUMNS) <==> TableOf(row, hint) == Some(TASK_INSTANCE)
    ensures !IsOf(row, hint, TASK_INSTANCE, TASK_INSTANCE_COLUMNS) ==>
      (IsOf(row, hint, DAG, DAG_COLUMNS) <==> TableOf(row, hint) == Some(DAG))
    ensures !IsOf(row, hint, TASK_INSTANCE, TASK_INSTANCE_COLUMNS) && !IsOf(row, hint, DAG, DAG_COLUMNS) ==>
      (IsOf(row, hint, DAG_RUN, DAG_RUN_COLUMNS) <==> TableOf(row, hint) == Some(DAG_RUN))
    ensures TableOf(row, hint).Some? ==> TableOf(row, hint).value in {TASK_INSTANCE, DAG, DAG_RUN}
  {
  }

  // ----- The event -----

  /** Which event a row of a table is, kind by kind. */
  predicate IsEventOf(kind: Kind, table: string, state: Value) {
    && (kind.TaskInstanceUnknown? <==> table == TASK_INSTANCE && state == Null)
    && (kind.TaskInstanceQueued? <==> table == TASK_INSTANCE && state == Text("queued"))
    && (kind.TaskInstanceFailed? <==> table == TASK_INSTANCE && state == Text("failed"))
    && (kind.TaskInstanceUpstreamFailed? <==> table == TASK_INSTANCE && state == Text("upstream_failed"))
    && (kind.TaskInstanceSuccess? <==> table == TASK_INSTANCE && state == Text("success"))
    && (kind.TaskInstanceSkipped? <==> table == TASK_INSTANCE && state == Text("skipped"))
    && (kind.TaskInstanceRunning? <==> table == TASK_INSTANCE && state == Text("running"))
    && (kind.TaskInstanceRestarting? <==> table == TASK_INSTANCE && state == Text("restarting"))
    && (kind.TaskInstanceShutdown? <==> table == TASK_INSTANCE && state == Text("shutdown"))
    && (kind.TaskInstanceScheduled? <==> table == TASK_INSTANCE && state == Text("scheduled"))
    && (kind.DagUpdated? <==> table == DAG)
    && (kind.DagRunSuccess? <==> table == DAG_RUN && state == Text("success"))
    && (kind.DagRunFailed? <==> table == DAG_RUN && state == Text("failed"))
    && (kind.DagRunRunning? <==> table == DAG_RUN && state == Text("running"))
    && (kind.DagRunQueued? <==> table == DAG_RUN && state == Text("queued"))
  }

  /** The event's kind tells the table and the state of the row it came from, both ways. */
  lemma EventTellsTableAndState(row: Row, hint: Value, v: Validator)
    ensures Convert(row, hint, v).Ok? ==>
      TableOf(row, hint).Some? && IsEventOf(Convert(row, hint, v).value.kind, TableOf(row, hint).value, StateOf(row))
  {
    TableDecides(row, hint);
    if Convert(row, hint, v).Err? {
    } else if IsOf(row, hint, TASK_INSTANCE, TASK_INSTANCE_COLUMNS) {
      TaskInstanceBuilds(row, v);
      BuildGivesKind(row, TaskKind(StateOf(row)).value, v);
      TaskKindTells(StateOf(row));
    } else if IsOf(row, hint, DAG, DAG_COLUMNS) {
      BuildGivesKind(row, DagUpdated, v);
    } else {
      DagRunBuilds(row, v);
      BuildGivesKind(row, DagRunKind(StateOf(row)).value, v);
      DagRunKindTells(StateOf(row));
    }
  }

  lemma TaskKindTells(state: Value)
    ensures TaskKind(state).Some? ==> IsEventOf(TaskKind(state).value, TASK_INSTANCE, state)
  {
  }

  lemma DagRunKindTells(state: Value)
    ensures DagRunKind(state).Some? ==> IsEventOf(DagRunKind(state).value, DAG_RUN, state)
  {
  }

  /** What the constructor call raises: the first missing column before any refused value. */
  lemma BuildRaises(row: Row, kind: Kind, v: Validator)
    ensures Build(row, kind, v).Err? ==>
      var e, fs := Build(row, kind, v).error, FieldsOf(kind);
      && (e.KeyError? <==> exists i :: 0 <= i < |fs| && fs[i].0 !in row)
      && (e.KeyError? ==> exists i :: FirstAt(row, fs, i) && e.key == fs[i].0)
      && (e.ValidationError? <==> forall i :: 0 <= i < |fs| ==> fs[i].0 in row)
      && (e.ValidationError? ==> exists i :: 0 <= i < |fs| && fs[i].0 == e.field && v(fs[i].1, row[fs[i].0]).None?)
  {
    var fs := FieldsOf(kind);
    assert FirstMissing(row, fs).None? <==> forall i :: 0 <= i < |fs| ==> fs[i].0 in row;
    if FirstMissing(row, fs).Some? {
      var i := MissingAt(row, fs);
    } else if FirstRefused(row, fs, v).Some? {
      var i := RefusedAt(row, fs, v);
    }
  }

  /** The i-th field is the first the row does not have. */
  predicate FirstAt(row: Row, fields: seq<(string, FieldType)>, i: int) {
    0 <= i < |fields| && fields[i].0 !in row && forall j :: 0 <= j < i ==> fields[j].0 in row
  }

  lemma {:induction false} MissingAt(row: Row, fields: seq<(string, FieldType)>) returns (i: nat)
    requires FirstMissing(row, fields).Some?
    ensures FirstAt(row, fields, i) && FirstMissing(row, fields).value == fields[i].0
  {
    if fields[0].0 !in row {
      i := 0;
    } else {
      i := MissingAt(row, fields[1..]);
      i := i + 1;
      assert forall j :: 1 <= j < |fields| ==> fields[j] == fields[1..][j - 1];
    }
  }

  lemma {:induction false} RefusedAt(row: Row, fields: seq<(string, FieldType)>, v: Validator) returns (i: nat)
    requires (forall x :: x in fields ==> x.0 in row) && FirstRefused(row, fields, v).Some?
    ensures i < |fields| && fields[i].0 in row && v(fields[i].1, row[fields[i].0]).None?
    ensures FirstRefused(row, fields, v).value == fields[i].0
  {
    if v(fields[0].1, row[fields[0].0]).None? {
      i := 0;
    } else {
      i := RefusedAt(row, fields[1..], v);
      i := i + 1;
    }
  }

  /** What the converter raises for a row that belongs to no table, or whose state has no event. */
  lemma ConvertRaises(row: Row, hint: Value, v: Validator)
    requires Convert(row, hint, v).Err?
    ensures var e, table := Convert(row, hint, v).error, TableOf(row, hint);
      && (e == NotConvertible <==> table.None?)
      && (e.UnknownState? <==>
            table.Some? && table != Some(DAG) && "state" in row && !StateKnown(row, table.value))
      && (e.UnknownState? ==> e.state == row["state"])
      && (table == Some(DAG_RUN) && "state" !in row ==> e == KeyError("state"))
  {
    TableDecides(row, hint);
    if TableOf(row, hint) == Some(TASK_INSTANCE) {
      TaskStateKnownIff(row);
    }
  }

  /** The names of the columns an event of a kind holds. */
  function NamesOf(kind: Kind): (names: seq<string>)
    ensures |names| == |FieldsOf(kind)| && forall i :: 0 <= i < |names| ==> names[i] == FieldsOf(kind)[i].0
  {
    var fs := FieldsOf(kind);
    seq(|fs|, i requires 0 <= i < |fs| => fs[i].0)
  }

  /** Each value the event stores is the validated value of the column of that name. */
  lemma EventHoldsColumns(row: Row, hint: Value, v: Validator)
    ensures Convert(row, hint, v).Ok? ==>
      var e := Convert(row, hint, v).value;
      && |e.values| == |NamesOf(e.kind)| == |FieldsOf(e.kind)|
      && forall i :: 0 <= i < |e.values| ==>
           NamesOf(e.kind)[i] in row && Some(e.values[i]) == v(FieldsOf(e.kind)[i].1, row[NamesOf(e.kind)[i]])
  {
    if Convert(row, hint, v).Ok? {
      ConvertBuilds(row, hint, v);
      BuildHoldsColumns(row, Convert(row, hint, v).value.kind, v);
    }
  }

  lemma BuildGivesKind(row: Row, kind: Kind, v: Validator)
    ensures Build(row, kind, v).Ok? ==> Build(row, kind, v).value.kind == kind
  {
  }

  lemma TaskInstanceBuilds(row: Row, v: Validator)
    ensures ConvertTaskInstance(row, v).Ok? ==>
      TaskKind(StateOf(row)).Some? && ConvertTaskInstance(row, v) == Build(row, TaskKind(StateOf(row)).value, v)
  {
  }

  lemma DagRunBuilds(row: Row, v: Validator)
    ensures ConvertDagRun(row, v).Ok? ==>
      DagRunKind(StateOf(row)).Some? && ConvertDagRun(row, v) == Build(row, DagRunKind(StateOf(row)).value, v)
  {
  }

  lemma ConvertBuilds(row: Row, hint: Value, v: Validator)
    ensures Convert(row, hint, v).Ok? ==>
      Build(row, Convert(row, hint, v).value.kind, v) == Convert(row, hint, v)
  {
    if Convert(row, hint, v).Err? {
    } else if IsOf(row, hint, TASK_INSTANCE, TASK_INSTANCE_COLUMNS) {
      TaskInstanceBuilds(row, v);
      BuildGivesKind(row, TaskKind(StateOf(row)).value, v);
    } else if IsOf(row, hint, DAG, DAG_COLUMNS) {
      BuildGivesKind(row, DagUpdated, v);
    } else {
      DagRunBuilds(row, v);
      BuildGivesKind(row, DagRunKind(StateOf(row)).value, v);
    }
  }

  lemma BuildHoldsColumns(row: Row, kind: Kind, v: Validator)
    ensures Build(row, kind, v).Ok? ==>
      var e := Build(row, kind, v).value; var fs := FieldsOf(kind);
      && e.kind == kind && |e.values| == |fs|
      && forall i :: 0 <= i < |fs| ==> fs[i].0 in row && Some(e.values[i]) == v(fs[i].1, row[fs[i].0])
  {
  }

  /** The columns each kind of event holds, and no other. */
  lemma ColumnsHeld(kind: Kind)
    ensures var names := NamesOf(kind);
      && (names == ["dag_id", "run_id", "task_id", "map_index", "pool", "queue", "try_number", "queued_dttm"]
          <==> kind.TaskInstanceQueued?)
      && (names == ["dag_id", "run_id", "task_id", "map_index", "try_number"]
          <==> kind.TaskInstanceFailed? || kind.TaskInstanceSuccess?)
      && (names == ["dag_id", "run_id", "task_id", "try_number"]
          <==> kind.TaskInstanceUpstreamFailed? || kind.TaskInstanceSkipped?)
      && (names == ["dag_id", "run_id", "task_id"]
          <==> kind.TaskInstanceUnknown? || kind.TaskInstanceRunning? || kind.TaskInstanceRestarting?
               || kind.TaskInstanceShutdown? || kind.TaskInstanceScheduled?)
      && (names == ["dag_id", "is_active", "is_paused"] <==> kind.DagUpdated?)
      && (names == ["dag_id", "dag_hash", "run_id", "run_type"]
          <==> kind.DagRunSuccess? || kind.DagRunFailed? || kind.DagRunRunning? || kind.DagRunQueued?)
  {
    var names := NamesOf(kind);
    var fs := FieldsOf(kind);
    assert |names| >= 3 && names[0] == fs[0].0 && names[1] == fs[1].0 && names[2] == fs[2].0;
    assert |names| >= 4 ==> names[3] == fs[3].0;
    assert |names| >= 5 ==> names[4] == fs[4].0;
  }

  /** up_for_retry is a state of the scheduler's task instances, and no branch takes it. */
  lemma UpForRetryIsNotConvertible(row: Row, v: Validator)
    requires "state" in row && row["state"] == Text("up_for_retry")
    ensures Convert(row, Text(TASK_INSTANCE), v) == Err(UnknownState(Text("up_for_retry")))
  {
  }

  /** Without a table name a row converts as it would with the name TableOf finds for it. */
  lemma NameMakesNoDifference(row: Row, v: Validator)
    requires TableOf(row, Null).Some?
    ensures Convert(row, Null, v) == Convert(row, Text(TableOf(row, Null).value), v)
  {
  }
}
