/** The change-data-capture forwarder: a batch of records in, one publication out, failures reported by id. */
module CdcForwarder {
  import opened Options
  import opened Relations
  import opened EventConverter

  datatype Record = Record(eventId: string, data: Option<Row>, metadata: Option<Row>)

  /** The publication's entry for one event. */
  datatype Entry = Entry(event: Event, busname: string)

  /** The bus's answer for one entry. */
  datatype Answer = Sent | Failed(errorCode: string)

  function LowerChar(c: char): char {
    if 'A' <= c <= 'Z' then c + ('a' - 'A') else c
  }

  function Lower(s: string): (r: string)
    ensures |r| == |s| && forall i :: 0 <= i < |s| ==> r[i] == LowerChar(s[i])
  {
    if s == [] then [] else [LowerChar(s[0])] + Lower(s[1..])
  }

  predicate IsNullWord(s: string) {
    Lower(s) in {"none", "nonetype", "none_type", "null", "nil"}
  }

  /** The value a text stands for. */
  function Decoded(v: Value): Value {
    if v == Text("f") then Flag(false)
    else if v == Text("t") then Flag(true)
    else if v.Text? && IsNullWord(v.s) then Null
    else v
  }

  function Prepared(row: Row): Row {
    map k | k in row :: Decoded(row[k])
  }

  /** The characters of a word, in either case. */
  predicate SameIgnoringCase(s: string, word: string) {
    |s| == |word| && forall i :: 0 <= i < |s| ==> s[i] == word[i] || ('a' <= word[i] <= 'z' && s[i] == word[i] - ('a' - 'A'))
  }

  lemma LowerIs(s: string, word: string)
    requires forall i :: 0 <= i < |word| ==> !('A' <= word[i] <= 'Z')
    ensures Lower(s) == word <==> SameIgnoringCase(s, word)
  {
    assert |s| == |word| ==> forall i :: 0 <= i < |s| ==>
      (LowerChar(s[i]) == word[i] <==> s[i] == word[i] || ('a' <= word[i] <= 'z' && s[i] == word[i] - ('a' - 'A')));
    if Lower(s) == word {
      forall i | 0 <= i < |s|
        ensures LowerChar(s[i]) == word[i]
      {
        assert Lower(s)[i] == word[i];
      }
    }
  }

  /** One of the five words for NULL, in any case. */
  predicate SpellsNull(s: string) {
    || SameIgnoringCase(s, "none") || SameIgnoringCase(s, "nonetype") || SameIgnoringCase(s, "none_type")
    || SameIgnoringCase(s, "null") || SameIgnoringCase(s, "nil")
  }

  /** What each text stands for: "f" false, "t" true, one of five words in any case NULL; all else stands for itself. */
  lemma DecodedMeans(v: Value)
    ensures Decoded(v) == Flag(false) <==> v == Text("f") || v == Flag(false)
    ensures Decoded(v) == Flag(true) <==> v == Text("t") || v == Flag(true)
    ensures Decoded(v) == Null <==> v == Null || (v.Text? && SpellsNull(v.s))
    ensures !Decoded(v).Flag? && !Decoded(v).Null? ==> Decoded(v) == v
  {
    if v.Text? {
      LowerIs(v.s, "none");
      LowerIs(v.s, "nonetype");
      LowerIs(v.s, "none_type");
      LowerIs(v.s, "null");
      LowerIs(v.s, "nil");
    }
  }

  /** Preparing keeps the columns, undoes only the codes, and has nothing to do a second time. */
  lemma PreparingIsIdempotent(row: Row)
    ensures Prepared(row).Keys == row.Keys
    ensures Prepared(Prepared(row)) == Prepared(row)
    ensures Prepared(row) == row <==>
      forall k :: k in row && row[k].Text? ==> row[k].s != "f" && row[k].s != "t" && !IsNullWord(row[k].s)
  {
    forall k | k in row
      ensures Decoded(row[k]) == row[k] <==>
        (row[k].Text? ==> row[k].s != "f" && row[k].s != "t" && !IsNullWord(row[k].s))
    {
    }
    if Prepared(row) == row {
      forall k | k in row
        ensures Decoded(row[k]) == row[k]
      {
        assert Prepared(row)[k] == row[k];
      }
    }
  }

  // ----- What becomes of one record -----

  /** A record with both parts that is not a deletion. */
  predicate IsKept(r: Record) {
    && r.data.Some? && r.metadata.Some?
    && !("operation" in r.metadata.value && r.metadata.value["operation"] == Text("delete"))
  }

  function EventOf(r: Record, v: Validator): Result<Event>
    requires IsKept(r)
  {
    if "table-name" !in r.metadata.value then Err(KeyError("table-name"))
    else Convert(Prepared(r.data.value), r.metadata.value["table-name"], v)
  }

  /** A kept record is in the domain when it names its table and its prepared row converts. */
  predicate InDomain(r: Record, v: Validator) {
    IsKept(r) ==>
      "table-name" in r.metadata.value && Convertible(Prepared(r.data.value), r.metadata.value["table-name"], v)
  }

  function Kept(records: seq<Record>): seq<Record> {
    Filter(records, IsKept)
  }

  predicate AllInDomain(records: seq<Record>, v: Validator) {
    forall r :: r in records ==> InDomain(r, v)
  }

  /** The first record whose conversion raises. */
  predicate FirstRaising(records: seq<Record>, v: Validator, i: nat, e: Error) {
    && i < |records| && IsKept(records[i]) && EventOf(records[i], v) == Err(e)
    && forall j :: 0 <= j < i ==> InDomain(records[j], v)
  }

  lemma DomainIsExact(r: Record, v: Validator)
    ensures InDomain(r, v) <==> (IsKept(r) ==> EventOf(r, v).Ok?)
  {
    if IsKept(r) && "table-name" in r.metadata.value {
      ConvertsIff(Prepared(r.data.value), r.metadata.value["table-name"], v);
    }
  }

  // ----- The answer -----

  /** zip(answers, kept), then the ids of the pairs whose answer has an error code. */
  function FailedIds(answers: seq<Answer>, kept: seq<Record>): (ids: seq<string>)
    ensures |ids| <= |kept|
  {
    if answers == [] || kept == [] then []
    else if answers[0].Failed? then [kept[0].eventId] + FailedIds(answers[1..], kept[1..])
    else FailedIds(answers[1..], kept[1..])
  }

  predicate DistinctIds(records: seq<Record>) {
    forall i, j :: 0 <= i < j < |records| ==> records[i].eventId != records[j].eventId
  }

  lemma {:induction false} ReportedIff(answers: seq<Answer>, kept: seq<Record>, id: string)
    ensures id in FailedIds(answers, kept)
       <==> exists i :: 0 <= i < |answers| && i < |kept| && answers[i].Failed? && kept[i].eventId == id
  {
    if answers != [] && kept != [] {
      ReportedIff(answers[1..], kept[1..], id);
      if i :| 0 < i < |answers| && i < |kept| && answers[i].Failed? && kept[i].eventId == id {
        assert answers[1..][i - 1] == answers[i] && kept[1..][i - 1] == kept[i];
      }
      if id in FailedIds(answers[1..], kept[1..]) {
        var i :| 0 <= i < |answers| - 1 && i < |kept| - 1 && answers[1..][i].Failed? && kept[1..][i].eventId == id;
        assert answers[i + 1].Failed? && kept[i + 1].eventId == id;
      }
    }
  }

  /** Record by record: with distinct ids, the k-th kept record is reported exactly when its entry failed. */
  lemma ReportedExactlyTheFailed(answers: seq<Answer>, kept: seq<Record>, k: nat)
    requires DistinctIds(kept) && |answers| == |kept| && k < |kept|
    ensures kept[k].eventId in FailedIds(answers, kept) <==> answers[k].Failed?
  {
    ReportedIff(answers, kept, kept[k].eventId);
  }

  lemma {:induction false} KeptIdsAreDistinct(records: seq<Record>)
    requires DistinctIds(records)
    ensures DistinctIds(Kept(records))
  {
    if records != [] {
      assert forall i :: 0 <= i < |records| - 1 ==> records[1..][i] == records[i + 1];
      KeptIdsAreDistinct(records[1..]);
      forall r | r in Kept(records[1..])
        ensures r.eventId != records[0].eventId
      {
        assert r in records[1..];
      }
    }
  }

  /** A record that was skipped is never reported as a failure. */
  lemma SkippedIsNeverReported(records: seq<Record>, answers: seq<Answer>, i: nat)
    requires DistinctIds(records) && i < |records| && !IsKept(records[i])
    ensures records[i].eventId !in FailedIds(answers, Kept(records))
  {
    ReportedIff(answers, Kept(records), records[i].eventId);
    forall r | r in Kept(records)
      ensures r.eventId != records[i].eventId
    {
      var j :| 0 <= j < |records| && records[j] == r;
      assert j < i || i < j;
    }
  }

  /** One null word in a column that an event needs stops the whole batch, where no field takes a null. */
  lemma NullWordStopsTheBatch(records: seq<Record>, v: Validator, r: Record, column: string)
    requires forall t :: v(t, Null).None?
    requires r in records && IsKept(r) && "table-name" in r.metadata.value
    requires r.metadata.value["table-name"] in {Text(TASK_INSTANCE), Text(DAG), Text(DAG_RUN)}
    requires column == "dag_id" || (column == "run_id" && r.metadata.value["table-name"] != Text(DAG))
    requires column in r.data.value && r.data.value[column].Text? && IsNullWord(r.data.value[column].s)
    ensures !AllInDomain(records, v)
  {
    assert Prepared(r.data.value)[column] == Null;
    assert !Identified(Prepared(r.data.value), r.metadata.value["table-name"].s, v);
    assert !InDomain(r, v);
  }

  // ----- The handler -----

  /** The parsed fields of one row, as the loop over its items leaves them. */
  method PrepareInput(event: Row) returns (copied: Row)
    ensures copied == Prepared(event)
  {
    copied := map[];
    var items := event.Keys;
    while items != {}
      invariant items <= event.Keys
      invariant copied.Keys == event.Keys - items
      invariant forall k :: k in copied ==> copied[k] == Decoded(event[k])
      decreases |items|
    {
      var key :| key in items;
      var value := event[key];
      items := items - {key};
      if value == Text("f") {
        copied := copied[key := Flag(false)];
        continue;
      }
      if value == Text("t") {
        copied := copied[key := Flag(true)];
        continue;
      }
      if value.Text? && IsNullWord(value.s) {
        copied := copied[key := Null];
        continue;
      }
      copied := copied[key := value];
    }
  }

  method ToEventBridgeEvent(r: Record, v: Validator) returns (res: Result<Option<Event>>)
    ensures res == if !IsKept(r) then Ok(None)
                   else match EventOf(r, v) case Ok(e) => Ok(Some(e)) case Err(e) => Err(e)
    ensures res == Ok(None) <==>
      r.data.None? || r.metadata.None? || ("operation" in r.metadata.value && r.metadata.value["operation"] == Text("delete"))
  {
    if r.data.None? || r.metadata.None? {
      return Ok(None);
    }
    if "operation" in r.metadata.value && r.metadata.value["operation"] == Text("delete") {
      return Ok(None);
    }
    var input := PrepareInput(r.data.value);
    if "table-name" !in r.metadata.value {
      return Err(KeyError("table-name"));
    }
    match Convert(input, r.metadata.value["table-name"], v) {
      case Ok(e) => return Ok(Some(e));
      case Err(e) => return Err(e);
    }
  }

  /** The entries published for the kept records: one each, in order. */
  predicate EntriesFor(entries: seq<Entry>, kept: seq<Record>, busname: string, v: Validator) {
    && |entries| == |kept|
    && forall i :: 0 <= i < |kept| ==>
         IsKept(kept[i]) && entries[i].busname == busname && EventOf(kept[i], v) == Ok(entries[i].event)
  }

  /** The comprehensions before the call: the first record that raises ends them. */
  method Transform(records: seq<Record>, busname: string, v: Validator)
    returns (res: Result<(seq<Entry>, seq<Record>)>)
    ensures res.Ok? ==>
      AllInDomain(records, v) && res.value.1 == Kept(records) && EntriesFor(res.value.0, Kept(records), busname, v)
    ensures res.Err? ==> exists i :: FirstRaising(records, v, i, res.error)
  {
    var entries, filtered := [], [];
    assert records[..0] == [];
    for i := 0 to |records|
      invariant filtered == Kept(records[..i])
      invariant EntriesFor(entries, filtered, busname, v)
      invariant forall j :: 0 <= j < i ==> InDomain(records[j], v)
    {
      DomainIsExact(records[i], v);
      var one := ToEventBridgeEvent(records[i], v);
      if one.Err? {
        assert FirstRaising(records, v, i, one.error);
        return Err(one.error);
      }
      assert records[..i + 1] == records[..i] + [records[i]];
      KeptConcat(records[..i], records[i]);
      if one.value.Some? {
        entries := AddEntry(entries, filtered, records[i], one.value.value, busname, v);
        filtered := filtered + [records[i]];
      }
    }
    assert records[..|records|] == records;
    return Ok((entries, filtered));
  }

  function AddEntry(entries: seq<Entry>, kept: seq<Record>, r: Record, e: Event, busname: string, v: Validator): (s: seq<Entry>)
    ensures EntriesFor(entries, kept, busname, v) && IsKept(r) && EventOf(r, v) == Ok(e)
            ==> EntriesFor(s, kept + [r], busname, v)
  {
    entries + [Entry(e, busname)]
  }

  lemma RaisingIsOutside(records: seq<Record>, v: Validator, i: nat, e: Error)
    ensures FirstRaising(records, v, i, e) ==> !AllInDomain(records, v)
  {
    if FirstRaising(records, v, i, e) {
      DomainIsExact(records[i], v);
      assert records[i] in records;
    }
  }

  /** The event names the row's table and state, and holds the validated values of the row's columns. */
  predicate Tells(e: Event, r: Record, v: Validator) {
    && r.data.Some? && r.metadata.Some? && "table-name" in r.metadata.value
    && var row, table := Prepared(r.data.value), TableOf(Prepared(r.data.value), r.metadata.value["table-name"]);
       && table.Some? && IsEventOf(e.kind, table.value, StateOf(row))
       && |e.values| == |FieldsOf(e.kind)|
       && forall i :: 0 <= i < |e.values| ==>
            NamesOf(e.kind)[i] in row && Some(e.values[i]) == v(FieldsOf(e.kind)[i].1, row[NamesOf(e.kind)[i]])
  }

  lemma EventTells(r: Record, v: Validator)
    requires IsKept(r)
    ensures EventOf(r, v).Ok? ==> Tells(EventOf(r, v).value, r, v)
  {
    if EventOf(r, v).Ok? {
      var row, hint := Prepared(r.data.value), r.metadata.value["table-name"];
      EventTellsTableAndState(row, hint, v);
      EventHoldsColumns(row, hint, v);
    }
  }

  lemma EntriesTell(entries: seq<Entry>, kept: seq<Record>, busname: string, v: Validator)
    requires EntriesFor(entries, kept, busname, v)
    ensures forall i :: 0 <= i < |kept| ==> Tells(entries[i].event, kept[i], v)
  {
    forall i | 0 <= i < |kept|
      ensures Tells(entries[i].event, kept[i], v)
    {
      EventTells(kept[i], v);
    }
  }

  class EventBus {
    /** Every call of put_events so far. */
    var calls: seq<seq<Entry>>

    constructor ()
      ensures calls == []
    {
      calls := [];
    }

    /**
     * A batch with a kept record outside the domain raises that record's error and publishes nothing.
     * Any other is published in one call, one entry a kept record, unless none is kept.
     */
    method HandleRecords(records: seq<Record>, busname: string, v: Validator, answer: seq<Entry> -> seq<Answer>)
      returns (res: Result<seq<string>>)
      modifies this
      ensures res.Ok? <==> AllInDomain(records, v)
      ensures res.Err? ==> calls == old(calls) && exists i :: FirstRaising(records, v, i, res.error)
      ensures res.Ok? && Kept(records) == [] ==> calls == old(calls) && res.value == []
      ensures res.Ok? && Kept(records) != [] ==>
        && |calls| == |old(calls)| + 1 && calls[..|old(calls)|] == old(calls)
        && EntriesFor(calls[|calls| - 1], Kept(records), busname, v)
        && res.value == FailedIds(answer(calls[|calls| - 1]), Kept(records))
      ensures res.Ok? && Kept(records) != [] ==>
        var sent, kept := calls[|calls| - 1], Kept(records);
        |sent| == |kept| && forall i :: 0 <= i < |kept| ==> sent[i].busname == busname && Tells(sent[i].event, kept[i], v)
    {
      var transformed := Transform(records, busname, v);
      if transformed.Err? {
        ghost var i :| FirstRaising(records, v, i, transformed.error);
        RaisingIsOutside(records, v, i, transformed.error);
        return Err(transformed.error);
      }
      var (entries, filtered) := transformed.value;
      if |filtered| == 0 {
        return Ok([]);
      }
      EntriesTell(entries, filtered, busname, v);
      calls := calls + [entries];
      return Ok(FailedIds(answer(entries), filtered));
    }
  }

  lemma KeptConcat(records: seq<Record>, r: Record)
    ensures Kept(records + [r]) == Kept(records) + if IsKept(r) then [r] else []
  {
    FilterConcat(records, [r], IsKept);
    assert Filter([r], IsKept) == if IsKept(r) then [r] else [];
  }
}
