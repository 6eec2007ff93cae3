/**
 * Secondary index maintenance (backend/actions/index.cc, backend/common/indexing.cc,
 * backend/common/rows.cc), through the write queue of backend/transaction/read_write_transaction.cc.
 */
module Indexes {
  import opened Collections
  import opened Keys

  type ColumnId = nat

  type KeyValues = seq<Value>

  /** A row by column; a missing column is NULL. */
  type Row = map<ColumnId, Value>

  type Base = map<KeyValues, Row>

  type IndexData = map<KeyValues, seq<Value>>

  datatype Error = IndexKeyTooLarge | MissingBaseRow | PendingCommitTimestamp

  /**
   * Columns are named by the base column they come from: `dataKey` the primary key of
   * the index data table, whose first `keyColumns` are the index's own, `columns` all
   * its columns. `fits` is the key size limit.
   */
  datatype Index = Index(
    pk: seq<ColumnId>,
    dataKey: seq<ColumnId>,
    keyColumns: nat,
    columns: seq<ColumnId>,
    nullFiltered: bool,
    nullFilteredColumns: seq<ColumnId>,
    fits: KeyValues -> bool)
  {
    /** The index data key holds the whole base key, and the columns hold everything the index looks at. */
    ghost predicate Valid() {
      && columns != [] && keyColumns <= |dataKey|
      && (forall i :: 0 <= i < |pk| ==> pk[i] in dataKey)
      && (forall i :: 0 <= i < |dataKey| ==> dataKey[i] in columns)
      && (forall i :: 0 <= i < |nullFilteredColumns| ==> nullFilteredColumns[i] in columns)
    }
  }

  function GetColumnValueOrNull(row: Row, c: ColumnId): Value {
    if c in row then row[c] else Null
  }

  function Project(row: Row, columns: seq<ColumnId>): seq<Value> {
    seq(|columns|, i requires 0 <= i < |columns| => GetColumnValueOrNull(row, columns[i]))
  }

  // ---------------------------------------------------------------------------
  // Rows, index keys and values
  // ---------------------------------------------------------------------------

  /** Of repeated columns the first counts. */
  function FirstWins(columns: seq<ColumnId>, values: seq<Value>): Row
    requires |columns| == |values|
    decreases |columns|
  {
    if columns == [] then map[]
    else
      var row, c := FirstWins(columns[..|columns| - 1], values[..|values| - 1]), columns[|columns| - 1];
      if c in row then row else row[c := values[|values| - 1]]
  }

  /** Of repeated columns the last counts. */
  function Patch(row: Row, columns: seq<ColumnId>, values: seq<Value>): Row
    requires |columns| == |values|
    decreases |columns|
  {
    if columns == [] then row
    else Patch(row, columns[..|columns| - 1], values[..|values| - 1])[columns[|columns| - 1] := values[|values| - 1]]
  }

  method MakeRow(columns: seq<ColumnId>, values: seq<Value>) returns (row: Row)
    requires |columns| == |values|
    ensures row == FirstWins(columns, values)
  {
    row := map[];
    for i := 0 to |columns|
      invariant row == FirstWins(columns[..i], values[..i])
    {
      assert columns[..i + 1][..i] == columns[..i] && values[..i + 1][..i] == values[..i];
      if columns[i] !in row {
        row := row[columns[i] := values[i]];
      }
    }
    assert columns[..|columns|] == columns && values[..|values|] == values;
  }

  method ComputeIndexKey(row: Row, index: Index) returns (r: Result<KeyValues, Error>)
    ensures r == if index.fits(Project(row, index.dataKey)) then Ok(Project(row, index.dataKey))
            else Err(IndexKeyTooLarge)
  {
    var key := [];
    for i := 0 to |index.dataKey|
      invariant key == Project(row, index.dataKey[..i])
    {
      key := key + [GetColumnValueOrNull(row, index.dataKey[i])];
    }
    assert index.dataKey[..|index.dataKey|] == index.dataKey;
    r := if index.fits(key) then Ok(key) else Err(IndexKeyTooLarge);
  }

  method ComputeIndexValues(row: Row, index: Index) returns (values: seq<Value>)
    ensures values == Project(row, index.columns)
  {
    values := [];
    for i := 0 to |index.columns|
      invariant values == Project(row, index.columns[..i])
    {
      values := values + [GetColumnValueOrNull(row, index.columns[i])];
    }
    assert index.columns[..|index.columns|] == index.columns;
  }

  /** The row has no entry: a NULL in a key column of a NULL_FILTERED index, or else in a null filtered column. */
  predicate Filtered(index: Index, row: Row)
    requires index.keyColumns <= |index.dataKey|
  {
    if index.nullFiltered
    then exists i :: 0 <= i < index.keyColumns && GetColumnValueOrNull(row, index.dataKey[i]) == Null
    else exists i ::
      0 <= i < |index.nullFilteredColumns| && GetColumnValueOrNull(row, index.nullFilteredColumns[i]) == Null
  }

  method ShouldFilterIndexKeyOrValue(index: Index, key: KeyValues, row: Row) returns (filter: bool)
    requires index.keyColumns <= |index.dataKey| && key == Project(row, index.dataKey)
    ensures filter <==> Filtered(index, row)
  {
    if index.nullFiltered {
      for i := 0 to index.keyColumns
        invariant forall j :: 0 <= j < i ==> GetColumnValueOrNull(row, index.dataKey[j]) != Null
      {
        if key[i] == Null {
          return true;
        }
      }
    } else {
      for i := 0 to |index.nullFilteredColumns|
        invariant forall j :: 0 <= j < i ==> GetColumnValueOrNull(row, index.nullFilteredColumns[j]) != Null
      {
        if GetColumnValueOrNull(row, index.nullFilteredColumns[i]) == Null {
          return true;
        }
      }
    }
    return false;
  }

  // ---------------------------------------------------------------------------
  // Effects
  // ---------------------------------------------------------------------------

  datatype Op =
    | Insert(key: KeyValues, columns: seq<ColumnId>, values: seq<Value>)
    | Update(key: KeyValues, columns: seq<ColumnId>, values: seq<Value>)
    | Delete(key: KeyValues)

  datatype IndexOp = InsertEntry(key: KeyValues, values: seq<Value>) | DeleteEntry(key: KeyValues)

  /** The part of a row the index reads. */
  function Seen(index: Index, row: Row): Row {
    map c | c in index.columns :: GetColumnValueOrNull(row, c)
  }

  /** The entry of a row, unless it is filtered. */
  function EntryOf(index: Index, row: Row): seq<IndexOp>
    requires index.keyColumns <= |index.dataKey|
  {
    if Filtered(index, row) then [] else [InsertEntry(Project(row, index.dataKey), Project(row, index.columns))]
  }

  function RemovalOf(index: Index, row: Row): seq<IndexOp>
    requires index.keyColumns <= |index.dataKey|
  {
    if Filtered(index, row) then [] else [DeleteEntry(Project(row, index.dataKey))]
  }

  /** An own key column whose value changes is pending: its commit timestamp is not known yet. */
  predicate ChangesPending(index: Index, before: Row, after: Row, pending: set<ColumnId>)
    requires index.keyColumns <= |index.dataKey|
  {
    exists i :: 0 <= i < index.keyColumns &&
      var c := index.dataKey[i]; c in before && c in after && before[c] != after[c] && c in pending
  }

  function Effects(index: Index, base: Base, op: Op, pending: set<ColumnId>): Result<seq<IndexOp>, Error>
    requires index.keyColumns <= |index.dataKey| && (!op.Delete? ==> |op.columns| == |op.values|)
  {
    match op
    case Insert(_, columns, values) =>
      var row := FirstWins(columns, values);
      if !index.fits(Project(row, index.dataKey)) then Err(IndexKeyTooLarge) else Ok(EntryOf(index, row))
    case Update(key, columns, values) =>
      if key !in base then Err(MissingBaseRow)
      else
        var before := Seen(index, base[key]);
        var after := Patch(before, columns, values);
        if !index.fits(Project(before, index.dataKey)) then Err(IndexKeyTooLarge)
        else if ChangesPending(index, before, after, pending) then Err(PendingCommitTimestamp)
        else if !index.fits(Project(after, index.dataKey)) then Err(IndexKeyTooLarge)
        else Ok(RemovalOf(index, before) + EntryOf(index, after))
    case Delete(key) =>
      if key !in base then Ok([])
      else
        var before := Seen(index, base[key]);
        if exists i :: 0 <= i < index.keyColumns && index.dataKey[i] in pending then Err(PendingCommitTimestamp)
        else if !index.fits(Project(before, index.dataKey)) then Err(IndexKeyTooLarge)
        else Ok(RemovalOf(index, before))
  }

  method EffectInsert(index: Index, op: Op, queue: seq<IndexOp>) returns (r: Result<seq<IndexOp>, Error>)
    requires index.Valid() && op.Insert? && |op.columns| == |op.values|
    ensures r == match Effects(index, map[], op, {}) case Ok(es) => Ok(queue + es) case Err(e) => Err(e)
  {
    var row := MakeRow(op.columns, op.values);
    var key := ComputeIndexKey(row, index);
    if key.Err? {
      return Err(key.error);
    }
    var values := ComputeIndexValues(row, index);
    var filter := ShouldFilterIndexKeyOrValue(index, key.value, row);
    if filter {
      assert queue + [] == queue;
      return Ok(queue);
    }
    r := Ok(queue + [InsertEntry(key.value, values)]);
  }

  /** The base row as the index sees it; empty if there is none. */
  method ReadBaseTableRow(index: Index, base: Base, key: KeyValues) returns (row: Row)
    requires index.Valid()
    ensures row == if key in base then Seen(index, base[key]) else map[]
    ensures row == map[] <==> key !in base
  {
    row := map[];
    if key in base {
      for i := 0 to |index.columns|
        invariant row == map c | c in index.columns[..i] :: GetColumnValueOrNull(base[key], c)
      {
        row := row[index.columns[i] := GetColumnValueOrNull(base[key], index.columns[i])];
      }
      assert index.columns[..|index.columns|] == index.columns;
      assert index.columns[0] in row;
    }
  }

  method EffectUpdate(index: Index, base: Base, op: Op, pending: set<ColumnId>, queue: seq<IndexOp>)
    returns (r: Result<seq<IndexOp>, Error>)
    requires index.Valid() && op.Update? && |op.columns| == |op.values|
    ensures r == match Effects(index, base, op, pending) case Ok(es) => Ok(queue + es) case Err(e) => Err(e)
  {
    var before := ReadBaseTableRow(index, base, op.key);
    if before == map[] {
      return Err(MissingBaseRow);
    }
    var effects := queue;
    var oldKey := ComputeIndexKey(before, index);
    if oldKey.Err? {
      return Err(oldKey.error);
    }
    var filter := ShouldFilterIndexKeyOrValue(index, oldKey.value, before);
    if !filter {
      effects := effects + [DeleteEntry(oldKey.value)];
    }
    var after := before;
    for i := 0 to |op.columns|
      invariant after == Patch(before, op.columns[..i], op.values[..i])
    {
      assert op.columns[..i + 1][..i] == op.columns[..i] && op.values[..i + 1][..i] == op.values[..i];
      after := after[op.columns[i] := op.values[i]];
    }
    assert op.columns[..|op.columns|] == op.columns && op.values[..|op.values|] == op.values;
    for i := 0 to index.keyColumns
      invariant forall j :: 0 <= j < i ==>
        var c := index.dataKey[j]; !(c in before && c in after && before[c] != after[c] && c in pending)
    {
      var c := index.dataKey[i];
      if c in before && c in after && before[c] != after[c] && c in pending {
        return Err(PendingCommitTimestamp);
      }
    }
    var newKey := ComputeIndexKey(after, index);
    if newKey.Err? {
      return Err(newKey.error);
    }
    var values := ComputeIndexValues(after, index);
    filter := ShouldFilterIndexKeyOrValue(index, newKey.value, after);
    if !filter {
      effects := effects + [InsertEntry(newKey.value, values)];
    }
    assert effects == queue + (RemovalOf(index, before) + EntryOf(index, after));
    r := Ok(effects);
  }

  method EffectDelete(index: Index, base: Base, op: Op, pending: set<ColumnId>, queue: seq<IndexOp>)
    returns (r: Result<seq<IndexOp>, Error>)
    requires index.Valid() && op.Delete?
    ensures r == match Effects(index, base, op, pending) case Ok(es) => Ok(queue + es) case Err(e) => Err(e)
  {
    assert queue + [] == queue;
    var before := ReadBaseTableRow(index, base, op.key);
    if before == map[] {
      return Ok(queue);
    }
    for i := 0 to index.keyColumns
      invariant forall j :: 0 <= j < i ==> index.dataKey[j] !in pending
    {
      if index.dataKey[i] in pending {
        return Err(PendingCommitTimestamp);
      }
    }
    var key := ComputeIndexKey(before, index);
    if key.Err? {
      return Err(key.error);
    }
    var filter := ShouldFilterIndexKeyOrValue(index, key.value, before);
    if filter {
      return Ok(queue);
    }
    r := Ok(queue + [DeleteEntry(key.value)]);
  }

  // ---------------------------------------------------------------------------
  // The effects, place by place
  // ---------------------------------------------------------------------------

  /** The last value given for a column is the one it has afterwards. */
  lemma {:induction false} PatchGiven(row: Row, columns: seq<ColumnId>, values: seq<Value>, k: nat)
    requires |columns| == |values| && k < |columns| && forall j :: k < j < |columns| ==> columns[j] != columns[k]
    ensures columns[k] in Patch(row, columns, values) && Patch(row, columns, values)[columns[k]] == values[k]
    decreases |columns|
  {
    var n := |columns| - 1;
    if k < n {
      PatchGiven(row, columns[..n], values[..n], k);
    }
  }

  /** Other columns are as they were. */
  lemma {:induction false} PatchOther(row: Row, columns: seq<ColumnId>, values: seq<Value>, c: ColumnId)
    requires |columns| == |values| && forall j :: 0 <= j < |columns| ==> columns[j] != c
    ensures c in Patch(row, columns, values) <==> c in row
    ensures c in row ==> Patch(row, columns, values)[c] == row[c]
    decreases |columns|
  {
    if columns != [] {
      PatchOther(row, columns[..|columns| - 1], values[..|values| - 1], c);
    }
  }

  /** The first value given for a column is the one it has. */
  lemma {:induction false} FirstMeaning(columns: seq<ColumnId>, values: seq<Value>, c: ColumnId)
    requires |columns| == |values|
    ensures c in FirstWins(columns, values) <==> c in columns
    ensures forall k :: 0 <= k < |columns| && columns[k] == c && c !in columns[..k] ==>
              c in FirstWins(columns, values) && FirstWins(columns, values)[c] == values[k]
    decreases |columns|
  {
    if columns != [] {
      var n := |columns| - 1;
      FirstMeaning(columns[..n], values[..n], c);
      assert columns == columns[..n] + [columns[n]];
      forall k | 0 <= k < n && c !in columns[..k] ensures c !in columns[..n][..k] {
        assert columns[..n][..k] == columns[..k];
      }
    }
  }

  /** What an entry made from `value`, column by column, is. */
  ghost predicate EntryFrom(index: Index, value: ColumnId -> Value, key: KeyValues, values: seq<Value>) {
    && |key| == |index.dataKey| && (forall i :: 0 <= i < |key| ==> key[i] == value(index.dataKey[i]))
    && |values| == |index.columns| && (forall i :: 0 <= i < |values| ==> values[i] == value(index.columns[i]))
  }

  /**
   * The index has no entry for these values: a NULL_FILTERED index looks at its own key columns,
   * another at the columns it names.
   */
  ghost predicate LeftOut(index: Index, value: ColumnId -> Value)
    requires index.keyColumns <= |index.dataKey|
  {
    || (index.nullFiltered && exists i :: 0 <= i < index.keyColumns && value(index.dataKey[i]) == Null)
    || (!index.nullFiltered && exists c :: c in index.nullFilteredColumns && value(c) == Null)
  }

  lemma EntryMeaning(index: Index, row: Row, value: ColumnId -> Value)
    requires index.Valid()
    requires forall c :: c in index.columns ==> value(c) == if c in row then row[c] else Null
    ensures EntryFrom(index, value, Project(row, index.dataKey), Project(row, index.columns))
    ensures Filtered(index, row) <==> LeftOut(index, value)
  {
    forall i | 0 <= i < |index.dataKey| ensures Project(row, index.dataKey)[i] == value(index.dataKey[i]) {
      assert index.dataKey[i] in index.columns;
    }
    forall i | 0 <= i < |index.columns| ensures Project(row, index.columns)[i] == value(index.columns[i]) {
      assert index.columns[i] in index.columns;
    }
    if LeftOut(index, value) && !index.nullFiltered {
      var c :| c in index.nullFilteredColumns && value(c) == Null;
      var i :| 0 <= i < |index.nullFilteredColumns| && index.nullFilteredColumns[i] == c;
      assert GetColumnValueOrNull(row, index.nullFilteredColumns[i]) == Null;
    }
  }

  /** An insert of a row adds its entry: for each column the value given, or NULL. */
  lemma InsertEffects(index: Index, base: Base, op: Op, pending: set<ColumnId>, value: ColumnId -> Value)
    returns (key: KeyValues, values: seq<Value>)
    requires index.Valid() && op.Insert? && |op.columns| == |op.values| && Distinct(op.columns)
    requires forall k :: 0 <= k < |op.columns| ==> value(op.columns[k]) == op.values[k]
    requires forall c :: c !in op.columns ==> value(c) == Null
    ensures EntryFrom(index, value, key, values)
    ensures Effects(index, base, op, pending) ==
            if !index.fits(key) then Err(IndexKeyTooLarge)
            else if LeftOut(index, value) then Ok([]) else Ok([InsertEntry(key, values)])
  {
    hide Filtered, LeftOut, FirstWins;
    var row := FirstWins(op.columns, op.values);
    forall c ensures value(c) == if c in row then row[c] else Null {
      FirstMeaning(op.columns, op.values, c);
      if c in op.columns {
        var k :| 0 <= k < |op.columns| && op.columns[k] == c;
        assert c !in op.columns[..k];
      }
    }
    EntryMeaning(index, row, value);
    key, values := Project(row, index.dataKey), Project(row, index.columns);
  }

  /**
   * An update of a row deletes the entry of the stored values and inserts that of the new
   * ones: the value given where the column is updated, the stored value elsewhere.
   */
  lemma UpdateEffects(index: Index, base: Base, op: Op, pending: set<ColumnId>, was: ColumnId -> Value,
                      value: ColumnId -> Value)
    returns (oldKey: KeyValues, key: KeyValues, values: seq<Value>)
    requires index.Valid() && op.Update? && |op.columns| == |op.values| && Distinct(op.columns)
    requires forall c :: was(c) == if op.key in base && c in base[op.key] then base[op.key][c] else Null
    requires forall k :: 0 <= k < |op.columns| ==> value(op.columns[k]) == op.values[k]
    requires forall c :: c !in op.columns ==> value(c) == was(c)
    ensures |oldKey| == |index.dataKey| && forall i :: 0 <= i < |oldKey| ==> oldKey[i] == was(index.dataKey[i])
    ensures EntryFrom(index, value, key, values)
    ensures Effects(index, base, op, pending) ==
            if op.key !in base then Err(MissingBaseRow)
            else if !index.fits(oldKey) then Err(IndexKeyTooLarge)
            else if exists i :: 0 <= i < index.keyColumns && oldKey[i] != key[i] && index.dataKey[i] in pending
            then Err(PendingCommitTimestamp)
            else if !index.fits(key) then Err(IndexKeyTooLarge)
            else Ok((if LeftOut(index, was) then [] else [DeleteEntry(oldKey)]) +
                    (if LeftOut(index, value) then [] else [InsertEntry(key, values)]))
  {
    hide Filtered, LeftOut, Patch, ChangesPending, Project;
    var row := if op.key in base then base[op.key] else map[];
    var before := Seen(index, row);
    var after := Patch(before, op.columns, op.values);
    forall c | c in index.columns ensures c in after && value(c) == after[c] {
      if k :| 0 <= k < |op.columns| && op.columns[k] == c {
        PatchGiven(before, op.columns, op.values, k);
      } else {
        PatchOther(before, op.columns, op.values, c);
      }
    }
    EntryMeaning(index, before, was);
    EntryMeaning(index, after, value);
    oldKey := Project(before, index.dataKey);
    key, values := Project(after, index.dataKey), Project(after, index.columns);
    PendingMeaning(index, before, after, pending);
  }

  lemma PendingMeaning(index: Index, before: Row, after: Row, pending: set<ColumnId>)
    requires index.Valid() && forall c :: c in index.columns ==> c in before && c in after
    ensures ChangesPending(index, before, after, pending) <==>
            exists i :: 0 <= i < index.keyColumns && index.dataKey[i] in pending &&
                        Project(before, index.dataKey)[i] != Project(after, index.dataKey)[i]
  {
    forall i | 0 <= i < index.keyColumns ensures index.dataKey[i] in before && index.dataKey[i] in after {
      assert index.dataKey[i] in index.columns;
    }
  }

  /** A delete removes the entry of the stored values. */
  lemma DeleteEffects(index: Index, base: Base, op: Op, pending: set<ColumnId>, was: ColumnId -> Value)
    returns (oldKey: KeyValues)
    requires index.Valid() && op.Delete?
    requires forall c :: was(c) == if op.key in base && c in base[op.key] then base[op.key][c] else Null
    ensures |oldKey| == |index.dataKey| && forall i :: 0 <= i < |oldKey| ==> oldKey[i] == was(index.dataKey[i])
    ensures Effects(index, base, op, pending) ==
            if op.key !in base then Ok([])
            else if exists i :: 0 <= i < index.keyColumns && index.dataKey[i] in pending
              then Err(PendingCommitTimestamp)
            else if !index.fits(oldKey) then Err(IndexKeyTooLarge)
            else if LeftOut(index, was) then Ok([]) else Ok([DeleteEntry(oldKey)])
  {
    hide Filtered, LeftOut;
    var row := if op.key in base then base[op.key] else map[];
    var before := Seen(index, row);
    EntryMeaning(index, before, was);
    oldKey := Project(before, index.dataKey);
  }

  // ---------------------------------------------------------------------------
  // The index is the image of the base table
  // ---------------------------------------------------------------------------

  function ApplyEntry(data: IndexData, op: IndexOp): IndexData {
    match op
    case InsertEntry(key, values) => data[key := values]
    case DeleteEntry(key) => data - {key}
  }

  function ApplyEntries(data: IndexData, ops: seq<IndexOp>): IndexData {
    if ops == [] then data else ApplyEntry(ApplyEntries(data, ops[..|ops| - 1]), ops[|ops| - 1])
  }

  lemma {:induction false} ApplyEntriesSplit(data: IndexData, a: seq<IndexOp>, b: seq<IndexOp>)
    ensures ApplyEntries(data, a + b) == ApplyEntries(ApplyEntries(data, a), b)
    decreases |b|
  {
    if b == [] {
      assert a + b == a;
    } else {
      assert (a + b)[..|a + b| - 1] == a + b[..|b| - 1];
      ApplyEntriesSplit(data, a, b[..|b| - 1]);
    }
  }

  /** What a write does to the base table. */
  function ApplyBase(base: Base, op: Op): Base
    requires !op.Delete? ==> |op.columns| == |op.values|
  {
    match op
    case Insert(key, columns, values) => base[key := Patch(map[], columns, values)]
    case Update(key, columns, values) => if key in base then base[key := Patch(base[key], columns, values)] else base
    case Delete(key) => base - {key}
  }

  /** The key of every row is the values of its key columns. */
  ghost predicate BaseOk(index: Index, base: Base) {
    forall k :: k in base ==> Project(base[k], index.pk) == k
  }

  /** What the validators let through: inserts of new rows, updates of existing ones that keep the key. */
  ghost predicate Accepted(index: Index, base: Base, op: Op) {
    && (!op.Delete? ==> |op.columns| == |op.values| && Distinct(op.columns))
    && (op.Insert? ==> op.key !in base && Project(Patch(map[], op.columns, op.values), index.pk) == op.key)
    && (op.Update? ==> op.key in base && Project(Patch(base[op.key], op.columns, op.values), index.pk) == op.key)
  }

  /** Exactly the unfiltered rows of the base table have an entry, under their index key and with their index values. */
  ghost predicate Refines(index: Index, data: IndexData, base: Base)
    requires index.keyColumns <= |index.dataKey|
  {
    && (forall k :: k in base && !Filtered(index, base[k]) ==>
          Project(base[k], index.dataKey) in data &&
          data[Project(base[k], index.dataKey)] == Project(base[k], index.columns))
    && (forall e :: e in data ==> HasRow(index, base, e))
  }

  ghost predicate HasRow(index: Index, base: Base, entry: KeyValues)
    requires index.keyColumns <= |index.dataKey|
  {
    exists k :: k in base && !Filtered(index, base[k]) && Project(base[k], index.dataKey) == entry
  }

  /** Rows with the same index key have the same base key. */
  lemma IndexKeyDetermines(index: Index, a: Row, b: Row)
    requires index.Valid() && Project(a, index.dataKey) == Project(b, index.dataKey)
    ensures Project(a, index.pk) == Project(b, index.pk)
  {
    forall i | 0 <= i < |index.pk|
      ensures GetColumnValueOrNull(a, index.pk[i]) == GetColumnValueOrNull(b, index.pk[i])
    {
      var j :| 0 <= j < |index.dataKey| && index.dataKey[j] == index.pk[i];
      assert Project(a, index.dataKey)[j] == Project(b, index.dataKey)[j];
    }
  }

  ghost predicate SameSeen(index: Index, a: Row, b: Row) {
    forall c :: c in index.columns ==> GetColumnValueOrNull(a, c) == GetColumnValueOrNull(b, c)
  }

  /** Rows the index cannot tell apart have the same entry. */
  lemma SameSeenSameEntry(index: Index, a: Row, b: Row)
    requires index.Valid() && SameSeen(index, a, b)
    ensures Project(a, index.dataKey) == Project(b, index.dataKey) &&
            Project(a, index.columns) == Project(b, index.columns)
    ensures Filtered(index, a) == Filtered(index, b)
  {
    forall i | 0 <= i < |index.columns|
      ensures GetColumnValueOrNull(a, index.columns[i]) == GetColumnValueOrNull(b, index.columns[i])
    {
      assert index.columns[i] in index.columns;
    }
  }

  lemma {:induction false} PatchSeen(index: Index, a: Row, b: Row, columns: seq<ColumnId>, values: seq<Value>)
    requires SameSeen(index, a, b) && |columns| == |values|
    ensures SameSeen(index, Patch(a, columns, values), Patch(b, columns, values))
    decreases |columns|
  {
    if columns != [] {
      PatchSeen(index, a, b, columns[..|columns| - 1], values[..|values| - 1]);
    }
  }

  lemma {:induction false} PatchKeys(row: Row, columns: seq<ColumnId>, values: seq<Value>)
    requires |columns| == |values|
    ensures forall c :: c in Patch(row, columns, values) <==> c in row || c in columns
    decreases |columns|
  {
    if columns != [] {
      PatchKeys(row, columns[..|columns| - 1], values[..|values| - 1]);
      assert columns == columns[..|columns| - 1] + [columns[|columns| - 1]];
    }
  }

  /** Without repeated columns, the first and the last value of a column are the same. */
  lemma {:induction false} FirstIsLast(columns: seq<ColumnId>, values: seq<Value>)
    requires |columns| == |values| && Distinct(columns)
    ensures FirstWins(columns, values) == Patch(map[], columns, values)
    decreases |columns|
  {
    if columns != [] {
      var front := columns[..|columns| - 1];
      FirstIsLast(front, values[..|values| - 1]);
      PatchKeys(map[], front, values[..|values| - 1]);
      assert columns[|columns| - 1] !in front;
    }
  }

  /** Entering a row under a new base key. */
  lemma RefinesInsert(index: Index, data: IndexData, base: Base, key: KeyValues, row: Row)
    requires index.Valid() && Refines(index, data, base) && BaseOk(index, base)
    requires key !in base && Project(row, index.pk) == key
    ensures Refines(index, ApplyEntries(data, EntryOf(index, row)), base[key := row]) && BaseOk(index, base[key := row])
  {
    var base', data' := base[key := row], ApplyEntries(data, EntryOf(index, row));
    OneEntry(data, EntryOf(index, row));
    forall k | k in base' && !Filtered(index, base'[k])
      ensures Project(base'[k], index.dataKey) in data' &&
              data'[Project(base'[k], index.dataKey)] == Project(base'[k], index.columns)
    {
      if k != key && Project(base[k], index.dataKey) == Project(row, index.dataKey) {
        IndexKeyDetermines(index, base[k], row);
      }
    }
    forall e | e in data' ensures HasRow(index, base', e) {
      if e in data {
        var k :| k in base && !Filtered(index, base[k]) && Project(base[k], index.dataKey) == e;
        assert base'[k] == base[k];
      } else {
        assert base'[key] == row;
      }
    }
  }

  lemma OneEntry(data: IndexData, ops: seq<IndexOp>)
    requires |ops| <= 1
    ensures ApplyEntries(data, ops) == if ops == [] then data else ApplyEntry(data, ops[0])
  {
    if ops != [] {
      assert ops[..|ops| - 1] == [];
    }
  }

  /** Removing a row. */
  lemma RefinesDelete(index: Index, data: IndexData, base: Base, key: KeyValues)
    requires index.Valid() && Refines(index, data, base) && BaseOk(index, base) && key in base
    ensures Refines(index, ApplyEntries(data, RemovalOf(index, base[key])), base - {key}) && BaseOk(index, base - {key})
  {
    var row := base[key];
    var base', data' := base - {key}, ApplyEntries(data, RemovalOf(index, row));
    OneEntry(data, RemovalOf(index, row));
    forall k | k in base' && !Filtered(index, base'[k])
      ensures Project(base'[k], index.dataKey) in data' &&
              data'[Project(base'[k], index.dataKey)] == Project(base'[k], index.columns)
    {
      if Project(base[k], index.dataKey) == Project(row, index.dataKey) {
        IndexKeyDetermines(index, base[k], row);
      }
    }
    forall e | e in data' ensures HasRow(index, base', e) {
      var k :| k in base && !Filtered(index, base[k]) && Project(base[k], index.dataKey) == e;
      assert k in base' && base'[k] == base[k];
    }
  }

  lemma SeenSame(index: Index, row: Row)
    ensures SameSeen(index, Seen(index, row), row)
  {
  }

  /** The effects of an accepted write keep the index the image of the base table. */
  lemma EffectsRefine(index: Index, data: IndexData, base: Base, op: Op, pending: set<ColumnId>)
    requires index.Valid() && Refines(index, data, base) && BaseOk(index, base) && Accepted(index, base, op)
    requires Effects(index, base, op, pending).Ok?
    ensures Refines(index, ApplyEntries(data, Effects(index, base, op, pending).value), ApplyBase(base, op))
    ensures BaseOk(index, ApplyBase(base, op))
  {
    hide Refines, BaseOk, ApplyEntries, Patch, FirstWins, Filtered, Project, Seen;
    match op
    case Insert(key, columns, values) =>
      FirstIsLast(columns, values);
      RefinesInsert(index, data, base, key, Patch(map[], columns, values));
    case Update(key, columns, values) =>
      var row := base[key];
      var before, after, full := Seen(index, row), Patch(Seen(index, row), columns, values),
          Patch(row, columns, values);
      SeenSame(index, row);
      SameSeenSameEntry(index, before, row);
      PatchSeen(index, before, row, columns, values);
      SameSeenSameEntry(index, after, full);
      RefinesDelete(index, data, base, key);
      RefinesInsert(index, ApplyEntries(data, RemovalOf(index, row)), base - {key}, key, full);
      ApplyEntriesSplit(data, RemovalOf(index, row), EntryOf(index, full));
      assert (base - {key})[key := full] == base[key := full];
    case Delete(key) =>
      if key in base {
        SeenSame(index, base[key]);
        SameSeenSameEntry(index, Seen(index, base[key]), base[key]);
        RefinesDelete(index, data, base, key);
      } else {
        OneEntry(data, []);
        assert base - {key} == base;
      }
  }

  // ---------------------------------------------------------------------------
  // The write queue
  // ---------------------------------------------------------------------------

  /** A write waiting in the queue: to the base table, or an effect on the index data table. */
  datatype Queued = ToBase(op: Op) | ToIndex(entry: IndexOp)

  datatype State = State(base: Base, data: IndexData, queue: seq<Queued>)

  function Pending(queue: seq<Queued>): seq<IndexOp> {
    if queue == [] then []
    else if queue[0].ToIndex? then [queue[0].entry] + Pending(queue[1..])
    else Pending(queue[1..])
  }

  function AsQueued(entries: seq<IndexOp>): seq<Queued> {
    seq(|entries|, i requires 0 <= i < |entries| => ToIndex(entries[i]))
  }

  /** The caller, or another effector, adds a write; or the first write of the queue is processed. */
  datatype Action = Push(op: Op) | Process(pending: set<ColumnId>)

  ghost predicate Enabled(index: Index, s: State, a: Action)
    requires index.Valid()
  {
    match a
    case Push(op) => !op.Delete? ==> |op.columns| == |op.values|
    case Process(pending) =>
      s.queue != [] &&
      (s.queue[0].ToBase? ==>
       Accepted(index, s.base, s.queue[0].op) && Effects(index, s.base, s.queue[0].op, pending).Ok?)
  }

  /** Effects are computed from the base table as it is before the write, and go to the end of the queue. */
  ghost function Do(index: Index, s: State, a: Action): State
    requires index.Valid() && Enabled(index, s, a)
  {
    match a
    case Push(op) => s.(queue := s.queue + [ToBase(op)])
    case Process(pending) =>
      match s.queue[0]
      case ToBase(op) =>
        State(ApplyBase(s.base, op), s.data, s.queue[1..] + AsQueued(Effects(index, s.base, op, pending).value))
      case ToIndex(entry) => State(s.base, ApplyEntry(s.data, entry), s.queue[1..])
  }

  /** The index data table, once the effects still queued have been applied, is the image of the base table. */
  ghost predicate Inv(index: Index, s: State)
    requires index.Valid()
  {
    BaseOk(index, s.base) && Refines(index, ApplyEntries(s.data, Pending(s.queue)), s.base)
  }

  lemma {:induction false} PendingAppend(queue: seq<Queued>, more: seq<Queued>)
    ensures Pending(queue + more) == Pending(queue) + Pending(more)
    decreases |queue|
  {
    if queue == [] {
      assert queue + more == more;
    } else {
      assert (queue + more)[1..] == queue[1..] + more;
      PendingAppend(queue[1..], more);
    }
  }

  lemma {:induction false} PendingEntries(entries: seq<IndexOp>)
    ensures Pending(AsQueued(entries)) == entries
    decreases |entries|
  {
    if entries != [] {
      assert AsQueued(entries)[1..] == AsQueued(entries[1..]);
      PendingEntries(entries[1..]);
    }
  }

  lemma StepKeeps(index: Index, s: State, a: Action)
    requires index.Valid() && Inv(index, s) && Enabled(index, s, a)
    ensures Inv(index, Do(index, s, a))
  {
    hide Refines, BaseOk, Effects, ApplyEntry, ApplyBase;
    match a
    case Push(op) =>
      PendingAppend(s.queue, [ToBase(op)]);
      assert Pending([ToBase(op)]) == [];
      assert Pending(s.queue) + [] == Pending(s.queue);
    case Process(pending) =>
      var head, rest := s.queue[0], s.queue[1..];
      match head
      case ToBase(op) =>
        var effects := Effects(index, s.base, op, pending).value;
        EffectsRefine(index, ApplyEntries(s.data, Pending(s.queue)), s.base, op, pending);
        PendingAppend(rest, AsQueued(effects));
        PendingEntries(effects);
        ApplyEntriesSplit(s.data, Pending(rest), effects);
      case ToIndex(entry) =>
        assert Pending(s.queue) == [entry] + Pending(rest);
        ApplyEntriesSplit(s.data, [entry], Pending(rest));
        OneEntry(s.data, [entry]);
  }

  ghost predicate Legal(index: Index, s: State, run: seq<Action>)
    requires index.Valid()
    decreases |run|
  {
    run != [] ==> Enabled(index, s, run[0]) && Legal(index, Do(index, s, run[0]), run[1..])
  }

  ghost function After(index: Index, s: State, run: seq<Action>): State
    requires index.Valid() && Legal(index, s, run)
    decreases |run|
  {
    if run == [] then s else After(index, Do(index, s, run[0]), run[1..])
  }

  /**
   * From a base table and its index, over every run of accepted writes, in whatever
   * order they and their effects stand in the queue: whenever no effect is waiting,
   * the index is exactly the image of the unfiltered base rows.
   */
  lemma {:induction false} IndexRefinesBase(index: Index, s: State, run: seq<Action>)
    requires index.Valid() && Inv(index, s) && Legal(index, s, run)
    ensures Inv(index, After(index, s, run))
    ensures Pending(After(index, s, run).queue) == [] ==>
            Refines(index, After(index, s, run).data, After(index, s, run).base)
    decreases |run|
  {
    hide Refines, BaseOk, Enabled, Do;
    if run != [] {
      StepKeeps(index, s, run[0]);
      IndexRefinesBase(index, Do(index, s, run[0]), run[1..]);
    }
  }

  /** The image determines the index data: there is only one. */
  lemma RefinementIsUnique(index: Index, a: IndexData, b: IndexData, base: Base)
    requires index.Valid() && Refines(index, a, base) && Refines(index, b, base)
    ensures a == b
  {
    forall e ensures e in a <==> e in b {
      if e in a {
        assert HasRow(index, base, e);
      }
      if e in b {
        assert HasRow(index, base, e);
      }
    }
    forall e | e in a ensures a[e] == b[e] {
      assert HasRow(index, base, e);
    }
  }

  lemma EmptyIndex(index: Index)
    requires index.Valid()
    ensures Inv(index, State(map[], map[], []))
  {
  }
}
