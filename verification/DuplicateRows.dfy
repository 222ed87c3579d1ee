/** Parking duplicate rows before a uniqueness constraint is added. */
module DuplicateRows {
  import opened Options
  import opened Relations

  /** The values of the uniqueness columns. */
  type Key = seq<Option<string>>

  datatype Row = Row(rowid: nat, key: Key, payload: string)

  predicate NonNull(k: Key) {
    forall i :: 0 <= i < |k| ==> k[i].Some?
  }

  /** Equality of all uniqueness columns, as SQL's = sees it. */
  predicate KeysEqual(a: Key, b: Key) {
    |a| == |b| && forall i :: 0 <= i < |a| ==> SqlEq(a[i], b[i])
  }

  lemma KeysEqualIff(a: Key, b: Key)
    ensures KeysEqual(a, b) <==> a == b && NonNull(a)
  {
    if KeysEqual(a, b) {
      assert forall i :: 0 <= i < |a| ==> SqlEq(a[i], b[i]) && a[i] == b[i];
    }
  }

  /** Rows of one group; GROUP BY puts NULLs together. */
  function Count(rows: seq<Row>, k: Key): nat {
    if rows == [] then 0 else (if rows[0].key == k then 1 else 0) + Count(rows[1..], k)
  }

  /** GROUP BY the key: each key once. */
  function Groups(rows: seq<Row>): (ks: seq<Key>)
    ensures forall k :: k in ks <==> exists r :: r in rows && r.key == k
    ensures forall i, j :: 0 <= i < j < |ks| ==> ks[i] != ks[j]
  {
    if rows == [] then []
    else
      var ks := Groups(rows[1..]);
      assert forall r :: r in rows <==> r == rows[0] || r in rows[1..];
      if rows[0].key in ks then ks else [rows[0].key] + ks
  }

  /** The groups HAVING count(*) > 1. */
  function Repeated(rows: seq<Row>, ks: seq<Key>): (s: seq<Key>)
    ensures forall k :: k in s <==> k in ks && Count(rows, k) > 1
    ensures (forall i, j :: 0 <= i < j < |ks| ==> ks[i] != ks[j]) ==> forall i, j :: 0 <= i < j < |s| ==> s[i] != s[j]
  {
    if ks == [] then []
    else if Count(rows, ks[0]) > 1 then
      var s := Repeated(rows, ks[1..]);
      assert forall j :: 0 <= j < |s| ==> s[j] in ks[1..];
      assert forall k :: k in ks[1..] ==> exists j :: 1 <= j < |ks| && ks[j] == k;
      [ks[0]] + s
    else Repeated(rows, ks[1..])
  }

  function DuplicateKeys(rows: seq<Row>): seq<Key> {
    Repeated(rows, Groups(rows))
  }

  predicate OnKey(r: Row, k: Key) {
    KeysEqual(r.key, k)
  }

  function RowOf(x: (Row, Key)): Row {
    x.0
  }

  /** The rows of the source table JOINed with the subquery of repeated keys. */
  function DuplicateQuery(rows: seq<Row>, ks: seq<Key>): seq<Row> {
    Map(Join(rows, ks, OnKey), RowOf)
  }

  /** The rows that are meant: the key has no NULL and occurs more than once. */
  predicate IsDuplicate(all: seq<Row>, r: Row) {
    NonNull(r.key) && Count(all, r.key) > 1
  }

  function Select(all: seq<Row>, rows: seq<Row>, duplicates: bool): (s: seq<Row>)
    ensures forall r :: r in s <==> r in rows && IsDuplicate(all, r) == duplicates
  {
    if rows == [] then []
    else if IsDuplicate(all, rows[0]) == duplicates then [rows[0]] + Select(all, rows[1..], duplicates)
    else Select(all, rows[1..], duplicates)
  }

  lemma {:induction false} JoinFindsDuplicates(all: seq<Row>, rows: seq<Row>)
    requires forall r :: r in rows ==> r in all
    ensures DuplicateQuery(rows, DuplicateKeys(all)) == Select(all, rows, true)
  {
    if rows != [] {
      var ks, r := DuplicateKeys(all), rows[0];
      assert r in rows && r in all;
      JoinFindsDuplicates(all, rows[1..]);
      var head := PairWith(r, Matches(r, ks, OnKey));
      forall k | k in ks
        ensures OnKey(r, k) <==> k == r.key && NonNull(r.key)
      {
        KeysEqualIff(r.key, k);
      }
      if IsDuplicate(all, r) {
        assert r.key in Groups(all) && r.key in ks;
        OneMatch(r, ks, OnKey, r.key);
        assert head == [(r, r.key)];
        assert Map(head, RowOf) == [r];
      } else {
        NoMatch(r, ks, OnKey);
        assert head == [];
      }
    }
  }

  // ----- Deleting them -----

  predicate UniqueRowids(rows: seq<Row>) {
    forall i, j :: 0 <= i < j < |rows| ==> rows[i].rowid != rows[j].rowid
  }

  /** DELETE ... WHERE ROWID IN (...), for SQLite. */
  function DeleteByRowid(rows: seq<Row>, ids: set<nat>): seq<Row> {
    if rows == [] then []
    else if rows[0].rowid in ids then DeleteByRowid(rows[1..], ids)
    else [rows[0]] + DeleteByRowid(rows[1..], ids)
  }

  /** DELETE ... joined to the side table on the uniqueness columns, for the other dialects. */
  function DeleteByJoin(rows: seq<Row>, side: seq<Row>): seq<Row> {
    if rows == [] then []
    else if exists s :: s in side && KeysEqual(rows[0].key, s.key) then DeleteByJoin(rows[1..], side)
    else [rows[0]] + DeleteByJoin(rows[1..], side)
  }

  function Rowids(rows: seq<Row>): set<nat> {
    set r | r in rows :: r.rowid
  }

  lemma {:induction false} RowidDeleteLeavesOthers(all: seq<Row>, rows: seq<Row>, ids: set<nat>)
    requires forall r :: r in rows ==> (r.rowid in ids <==> IsDuplicate(all, r))
    ensures DeleteByRowid(rows, ids) == Select(all, rows, false)
  {
    if rows != [] {
      assert rows[0] in rows;
      RowidDeleteLeavesOthers(all, rows[1..], ids);
    }
  }

  lemma {:induction false} JoinDeleteLeavesOthers(all: seq<Row>, rows: seq<Row>)
    requires forall r :: r in rows ==> r in all
    ensures DeleteByJoin(rows, Select(all, all, true)) == Select(all, rows, false)
  {
    if rows != [] {
      var r, side := rows[0], Select(all, all, true);
      assert r in rows && r in all;
      JoinDeleteLeavesOthers(all, rows[1..]);
      assert (exists s :: s in side && KeysEqual(r.key, s.key)) <==> IsDuplicate(all, r) by {
        if s :| s in side && KeysEqual(r.key, s.key) {
          KeysEqualIff(r.key, s.key);
        }
        if IsDuplicate(all, r) {
          assert r in side;
          KeysEqualIff(r.key, r.key);
        }
      }
    }
  }

  /** The ROWID delete and the join delete leave the same table: the rows that are no duplicates. */
  lemma DeletesAgree(rows: seq<Row>)
    requires UniqueRowids(rows)
    ensures var side := DuplicateQuery(rows, DuplicateKeys(rows));
      && side == Select(rows, rows, true)
      && DeleteByRowid(rows, Rowids(side)) == Select(rows, rows, false)
      && DeleteByJoin(rows, side) == Select(rows, rows, false)
  {
    JoinFindsDuplicates(rows, rows);
    var side := Select(rows, rows, true);
    forall r | r in rows
      ensures r.rowid in Rowids(side) <==> IsDuplicate(rows, r)
    {
      if r.rowid in Rowids(side) {
        var s :| s in side && s.rowid == r.rowid;
        var i :| 0 <= i < |rows| && rows[i] == r;
        var j :| 0 <= j < |rows| && rows[j] == s;
      }
    }
    RowidDeleteLeavesOthers(rows, rows, Rowids(side));
    JoinDeleteLeavesOthers(rows, rows);
  }

  /** Kept and parked rows are together the original table. */
  lemma {:induction false} NothingLost(all: seq<Row>, rows: seq<Row>)
    ensures multiset(Select(all, rows, false)) + multiset(Select(all, rows, true)) == multiset(rows)
  {
    if rows != [] {
      NothingLost(all, rows[1..]);
      assert rows == [rows[0]] + rows[1..];
    }
  }

  lemma {:induction false} CountAtLeastTwo(rows: seq<Row>, i: nat, j: nat)
    requires i < j < |rows| && rows[i].key == rows[j].key
    ensures Count(rows, rows[i].key) > 1
  {
    if i == 0 {
      CountAtLeastOne(rows[1..], j - 1);
      assert rows[1..][j - 1] == rows[j];
    } else {
      assert rows[1..][i - 1] == rows[i] && rows[1..][j - 1] == rows[j];
      CountAtLeastTwo(rows[1..], i - 1, j - 1);
    }
  }

  lemma {:induction false} CountAtLeastOne(rows: seq<Row>, i: nat)
    requires i < |rows|
    ensures Count(rows, rows[i].key) >= 1
  {
    if i > 0 {
      assert rows[1..][i - 1] == rows[i];
      CountAtLeastOne(rows[1..], i - 1);
    }
  }

  /** Keeping the rows of whole groups keeps their counts. */
  lemma {:induction false} CountAmongKept(all: seq<Row>, rows: seq<Row>, k: Key)
    ensures Count(Select(all, rows, false), k) == if NonNull(k) && Count(all, k) > 1 then 0 else Count(rows, k)
  {
    if rows != [] {
      CountAmongKept(all, rows[1..], k);
      var s := Select(all, rows[1..], false);
      assert ([rows[0]] + s)[1..] == s;
    }
  }

  /** What stays satisfies the uniqueness constraint: no two rows with equal, non-NULL keys. */
  lemma KeptRowsAreUnique(rows: seq<Row>, i: nat, j: nat)
    requires i < j < |Select(rows, rows, false)|
    ensures var s := Select(rows, rows, false); !KeysEqual(s[i].key, s[j].key)
  {
    var s := Select(rows, rows, false);
    KeysEqualIff(s[i].key, s[j].key);
    if KeysEqual(s[i].key, s[j].key) {
      CountAtLeastTwo(s, i, j);
      CountAmongKept(rows, rows, s[i].key);
    }
  }

  lemma RepeatedAfterwards(rows: seq<Row>, k: Key)
    ensures k in DuplicateKeys(Select(rows, rows, false)) <==> k in DuplicateKeys(rows) && !NonNull(k)
  {
    var kept := Select(rows, rows, false);
    CountAmongKept(rows, rows, k);
    if k in DuplicateKeys(rows) && !NonNull(k) {
      var r :| r in rows && r.key == k;
      assert r in kept;
    }
  }

  /** Exactly when no repeated group is left: when every repeated group has a key without NULL. */
  lemma NoGroupLeftIffNonNull(rows: seq<Row>)
    ensures DuplicateKeys(Select(rows, rows, false)) == [] <==> forall k :: k in DuplicateKeys(rows) ==> NonNull(k)
  {
    var after := DuplicateKeys(Select(rows, rows, false));
    forall k
      ensures k in after <==> k in DuplicateKeys(rows) && !NonNull(k)
    {
      RepeatedAfterwards(rows, k);
    }
    assert after != [] ==> after[0] in after;
  }

  /** A row is parked exactly if another row has the same key, and the key holds no NULL; else it is kept. */
  lemma ParkedIffRepeated(rows: seq<Row>, i: nat)
    requires UniqueRowids(rows) && i < |rows|
    ensures rows[i] in Select(rows, rows, true) <==>
      exists j :: 0 <= j < |rows| && j != i && KeysEqual(rows[i].key, rows[j].key)
    ensures rows[i] in Select(rows, rows, false) <==> rows[i] !in Select(rows, rows, true)
  {
    assert rows[i] in rows;
    if j :| 0 <= j < |rows| && j != i && KeysEqual(rows[i].key, rows[j].key) {
      KeysEqualIff(rows[i].key, rows[j].key);
      CountAtLeastTwo(rows, if i < j then i else j, if i < j then j else i);
    } else if rows[i] in Select(rows, rows, true) {
      var j := AnotherOfKey(rows, i);
      KeysEqualIff(rows[i].key, rows[j].key);
    }
  }

  lemma {:induction false} SomeOfKey(rows: seq<Row>, k: Key) returns (j: nat)
    requires Count(rows, k) > 0
    ensures j < |rows| && rows[j].key == k
  {
    if rows[0].key == k {
      j := 0;
    } else {
      j := SomeOfKey(rows[1..], k);
      j := j + 1;
    }
  }

  lemma {:induction false} AnotherOfKey(rows: seq<Row>, i: nat) returns (j: nat)
    requires i < |rows| && Count(rows, rows[i].key) > 1
    ensures j < |rows| && j != i && rows[j].key == rows[i].key
  {
    if i == 0 {
      j := SomeOfKey(rows[1..], rows[0].key);
      j := j + 1;
    } else if rows[0].key == rows[i].key {
      j := 0;
    } else {
      assert rows[1..][i - 1] == rows[i];
      j := AnotherOfKey(rows[1..], i - 1);
      j := j + 1;
    }
  }

  /** Exactly when the side table stays empty: when every repeated group has a NULL in its key. */
  lemma NothingMovedIff(rows: seq<Row>)
    ensures Select(rows, rows, true) == [] <==> forall k :: k in DuplicateKeys(rows) ==> !NonNull(k)
  {
    var parked := Select(rows, rows, true);
    if k :| k in DuplicateKeys(rows) && NonNull(k) {
      var r :| r in rows && r.key == k;
      assert r in parked;
    } else if parked != [] {
      assert parked[0] in parked;
    }
  }

  /** A concrete table: two rows with the key NULL are a repeated group, none is moved, an empty side table is left. */
  lemma NullKeysAreNotMoved() returns (rows: seq<Row>)
    ensures rows == [Row(0, [None], "a"), Row(1, [None], "b")]
    ensures DuplicateKeys(rows) == [[None]]
    ensures Select(rows, rows, true) == [] && Select(rows, rows, false) == rows
  {
    var a, b := Row(0, [None], "a"), Row(1, [None], "b");
    rows := [a, b];
    assert rows[1..] == [b] && [b][1..] == [];
    assert Count([b], [None]) == 1 && Count(rows, [None]) == 2;
    assert Groups([b]) == [[None]] && Groups(rows) == [[None]];
    assert Repeated(rows, [[None]][1..]) == [];
    assert a.key[0].None? && !NonNull(a.key);
    assert Select(rows, [b], false) == [b];
    NothingMovedIff(rows);
  }

  // ----- The check -----

  class DuplicateCheck {
    /** The table, if it exists, and the side table, if it does. */
    var table: Option<seq<Row>>
    var side: Option<seq<Row>>

    constructor (table: Option<seq<Row>>, side: Option<seq<Row>>)
      ensures this.table == table && this.side == side
    {
      this.table, this.side := table, side;
    }

    /** CREATE TABLE fails when the side table exists; then the caller rolls back. */
    method MoveDuplicateDataToNewTable(ks: seq<Key>, sqlite: bool) returns (ok: bool)
      requires table.Some? && UniqueRowids(table.value) && ks == DuplicateKeys(table.value)
      modifies this
      ensures ok == old(side).None?
      ensures !ok ==> table == old(table) && side == old(side)
      ensures ok ==> var rows := old(table).value;
        side == Some(Select(rows, rows, true)) && table == Some(Select(rows, rows, false))
    {
      if side.Some? {
        return false;
      }
      var rows := table.value;
      var parked := DuplicateQuery(rows, ks);
      side := Some(parked);
      DeletesAgree(rows);
      if sqlite {
        table := Some(DeleteByRowid(rows, Rowids(parked)));
      } else {
        table := Some(DeleteByJoin(rows, parked));
      }
      ok := true;
    }

    method CheckTableForDuplicates(sqlite: bool)
      requires table.Some? ==> UniqueRowids(table.value)
      modifies this
      ensures table.None? == old(table).None?
      ensures old(table).None? || old(side).Some? || DuplicateKeys(old(table).value) == []
              ==> table == old(table) && side == old(side)
      ensures old(table).Some? && old(side).None? && DuplicateKeys(old(table).value) != [] ==>
        var rows := old(table).value;
        side == Some(Select(rows, rows, true)) && table == Some(Select(rows, rows, false))
    {
      if table.None? {
        return;
      }
      var ks := DuplicateKeys(table.value);
      if |ks| == 0 {
        return;
      }
      var ok := MoveDuplicateDataToNewTable(ks, sqlite);
    }
  }
}
