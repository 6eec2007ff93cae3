/** Grouping a transaction's writes into change stream records (backend/actions/change_stream.cc). */
module ChangeStreams {
  import opened Collections
  import opened Keys

  type ColumnId = nat

  type TableId = nat

  type KeyValues = seq<Value>

  datatype Table = Table(columns: seq<ColumnId>, pk: seq<ColumnId>)

  type Schema = map<TableId, Table>

  /** OLD_AND_NEW_VALUES, the default; NEW_ROW; NEW_VALUES; NEW_ROW_AND_OLD_VALUES. */
  datatype Capture = OldAndNewValues | NewRow | NewValues | NewRowAndOldValues

  /** `tracked` lists, for each table the stream watches, the columns that know the stream. */
  datatype Stream = Stream(
    tracked: map<TableId, set<ColumnId>>,
    capture: Capture,
    excludeInsert: bool,
    excludeUpdate: bool,
    excludeDelete: bool,
    allowTxnExclusion: bool)

  datatype Op =
    | Insert(table: TableId, key: KeyValues, columns: seq<ColumnId>, values: seq<Value>)
    | Update(table: TableId, key: KeyValues, columns: seq<ColumnId>, values: seq<Value>)
    | Delete(table: TableId, key: KeyValues)

  datatype ModType = INSERT | UPDATE | DELETE

  /** The committed row a key had, which old and unmodified values are read from. */
  type Committed = (TableId, KeyValues) -> map<ColumnId, Value>

  datatype Old = NotRecorded | Was(value: Value)

  datatype Mod = Mod(keys: KeyValues, columns: seq<ColumnId>, newValues: seq<Value>, oldValues: seq<Old>)

  datatype ModGroup = ModGroup(table: TableId, modType: ModType, columns: set<ColumnId>, mods: seq<Mod>)

  datatype Record = Record(
    sequence: nat,
    isLast: bool,
    table: TableId,
    modType: ModType,
    columns: set<ColumnId>,
    mods: seq<Mod>,
    count: int)

  /** What resolution has checked: known tables, no column twice, one value per column. */
  ghost predicate OpOk(schema: Schema, op: Op) {
    op.table in schema && Distinct(schema[op.table].columns) &&
    (!op.Delete? ==> |op.columns| == |op.values| && Distinct(op.columns))
  }

  function TypeOf(op: Op): ModType {
    match op
    case Insert(_, _, _, _) => INSERT
    case Update(_, _, _, _) => UPDATE
    case Delete(_, _) => DELETE
  }

  /** The columns of the table that know the stream. */
  function Known(stream: Stream, table: TableId): set<ColumnId> {
    if table in stream.tracked then stream.tracked[table] else {}
  }

  /** The columns of `columns` that are in `keep`, in order. */
  function Filter(columns: seq<ColumnId>, keep: set<ColumnId>): (r: seq<ColumnId>)
    ensures forall c :: c in r <==> c in columns && c in keep
    ensures Distinct(columns) ==> Distinct(r)
  {
    if columns == [] then []
    else
      var front, c := Filter(columns[..|columns| - 1], keep), columns[|columns| - 1];
      assert columns == columns[..|columns| - 1] + [c];
      if c in keep then front + [c] else front
  }

  /**
   * GetColumnsForDataChangeRecord over GetTrackedColumnsAndValues: the columns a write records, key
   * columns included.
   */
  function Recorded(schema: Schema, stream: Stream, op: Op): seq<ColumnId>
    requires op.table in schema
  {
    var table := schema[op.table];
    var all :=
      if op.Update? && (stream.capture.OldAndNewValues? || stream.capture.NewValues?) then op.columns
      else table.columns;
    Filter(all, Known(stream, op.table) + set c | c in table.pk)
  }

  function NonKey(schema: Schema, stream: Stream, op: Op): seq<ColumnId>
    requires op.table in schema
  {
    var recorded := Recorded(schema, stream, op);
    Filter(recorded, set c | c in recorded && c !in schema[op.table].pk)
  }

  function NonKeySet(schema: Schema, stream: Stream, op: Op): set<ColumnId>
    requires op.table in schema
  {
    set c | c in NonKey(schema, stream, op)
  }

  function ValueOf(columns: seq<ColumnId>, values: seq<Value>, c: ColumnId, missing: Value): Value
    requires |columns| == |values|
    decreases |columns|
  {
    if columns == [] then missing
    else if columns[|columns| - 1] == c then values[|values| - 1]
    else ValueOf(columns[..|columns| - 1], values[..|values| - 1], c, missing)
  }

  function Read(row: map<ColumnId, Value>, c: ColumnId): Value {
    if c in row then row[c] else Null
  }

  function NewValue(op: Op, row: map<ColumnId, Value>, c: ColumnId): Value
    requires !op.Delete? ==> |op.columns| == |op.values|
  {
    match op
    case Insert(_, _, columns, values) => ValueOf(columns, values, c, Null)
    case Update(_, _, columns, values) => ValueOf(columns, values, c, Read(row, c))
    case Delete(_, _) => Null
  }

  function OldValue(stream: Stream, op: Op, row: map<ColumnId, Value>, c: ColumnId): Old {
    if stream.capture.NewRowAndOldValues? && op.Update? && c !in op.columns then NotRecorded else Was(Read(row, c))
  }

  function ModOf(schema: Schema, stream: Stream, committed: Committed, op: Op): Mod
    requires op.table in schema && (!op.Delete? ==> |op.columns| == |op.values|)
  {
    var columns, row := NonKey(schema, stream, op), committed(op.table, op.key);
    var recordsOld := (stream.capture.OldAndNewValues? || stream.capture.NewRowAndOldValues?) && !op.Insert?;
    Mod(op.key, columns,
        if op.Delete? then [] else seq(|columns|, i requires 0 <= i < |columns| => NewValue(op, row, columns[i])),
        if recordsOld then seq(|columns|, i requires 0 <= i < |columns| => OldValue(stream, op, row, columns[i]))
        else [])
  }

  lemma {:induction false} ValueOfColumn(columns: seq<ColumnId>, values: seq<Value>, c: ColumnId, missing: Value)
    requires |columns| == |values| && Distinct(columns)
    ensures forall k :: 0 <= k < |columns| && columns[k] == c ==> ValueOf(columns, values, c, missing) == values[k]
    ensures c !in columns ==> ValueOf(columns, values, c, missing) == missing
    decreases |columns|
  {
    if columns != [] {
      ValueOfColumn(columns[..|columns| - 1], values[..|values| - 1], c, missing);
      assert columns == columns[..|columns| - 1] + [columns[|columns| - 1]];
    }
  }

  /** `c` stands before `d`. */
  ghost predicate Before(columns: seq<ColumnId>, c: ColumnId, d: ColumnId) {
    exists a, b :: 0 <= a < b < |columns| && columns[a] == c && columns[b] == d
  }

  /** The columns kept stand in the order they had. */
  lemma {:induction false} FilterOrder(columns: seq<ColumnId>, keep: set<ColumnId>, i: nat, j: nat)
    requires i < j < |Filter(columns, keep)|
    ensures Before(columns, Filter(columns, keep)[i], Filter(columns, keep)[j])
    decreases |columns|
  {
    var n := |columns| - 1;
    var front := Filter(columns[..n], keep);
    if j < |front| {
      FilterOrder(columns[..n], keep, i, j);
      var a, b :| 0 <= a < b < n && columns[..n][a] == front[i] && columns[..n][b] == front[j];
      assert columns[a] == front[i] && columns[b] == front[j];
    } else {
      assert front[i] in columns[..n];
      var a :| 0 <= a < n && columns[..n][a] == front[i];
      assert columns[a] == front[i] && columns[n] == Filter(columns, keep)[j];
    }
  }

  lemma BeforeKept(columns: seq<ColumnId>, keep: set<ColumnId>, c: ColumnId, d: ColumnId)
    requires Before(Filter(columns, keep), c, d)
    ensures Before(columns, c, d)
  {
    var kept := Filter(columns, keep);
    var a, b :| 0 <= a < b < |kept| && kept[a] == c && kept[b] == d;
    FilterOrder(columns, keep, a, b);
  }

  /** The columns a capture type looks at: of an update, where values are captured and not rows, those it sets. */
  function Considered(schema: Schema, stream: Stream, op: Op): seq<ColumnId>
    requires op.table in schema
  {
    if op.Update? && stream.capture != NewRow && stream.capture != NewRowAndOldValues then op.columns
    else schema[op.table].columns
  }

  /** The recorded non-key columns are the tracked ones among them, in their order. */
  lemma RecordedColumns(schema: Schema, stream: Stream, op: Op)
    requires OpOk(schema, op)
    ensures var of, recorded := Considered(schema, stream, op), NonKey(schema, stream, op);
      && Distinct(recorded)
      && (forall c :: c in recorded <==>
            c in of && c !in schema[op.table].pk && op.table in stream.tracked && c in stream.tracked[op.table])
      && (forall i, j :: 0 <= i < j < |recorded| ==> Before(of, recorded[i], recorded[j]))
  {
    hide Before;
    var pk, of := schema[op.table].pk, Considered(schema, stream, op);
    var keep := Known(stream, op.table) + set c | c in pk;
    var all := Filter(of, keep);
    assert Recorded(schema, stream, op) == all;
    var nonKey := set c | c in all && c !in pk;
    var recorded := Filter(all, nonKey);
    assert recorded == NonKey(schema, stream, op);
    forall i, j | 0 <= i < j < |recorded| ensures Before(of, recorded[i], recorded[j]) {
      FilterOrder(all, nonKey, i, j);
      BeforeKept(of, keep, recorded[i], recorded[j]);
    }
  }

  /**
   * An insert or update records, for each recorded non-key column, the value it wrote; where it
   * wrote none, NULL or the committed value.
   */
  lemma ModRecordsWrite(schema: Schema, stream: Stream, committed: Committed, op: Op, i: nat, k: nat)
    requires OpOk(schema, op) && !op.Delete? && i < |NonKey(schema, stream, op)|
    ensures var mod, c := ModOf(schema, stream, committed, op), NonKey(schema, stream, op)[i];
      var row := committed(op.table, op.key);
      && |mod.newValues| == |mod.columns| && mod.columns[i] == c && mod.keys == op.key
      && (k < |op.columns| && op.columns[k] == c ==> mod.newValues[i] == op.values[k])
      && (c !in op.columns ==> mod.newValues[i] == if op.Update? && c in row then row[c] else Null)
  {
    var c, row := NonKey(schema, stream, op)[i], committed(op.table, op.key);
    ValueOfColumn(op.columns, op.values, c, if op.Insert? then Null else Read(row, c));
  }

  /**
   * Old values are recorded of updates and deletes where old values are captured: the
   * committed ones, but where the new row is captured too only of the columns an update sets.
   */
  lemma ModRecordsOld(schema: Schema, stream: Stream, committed: Committed, op: Op)
    requires OpOk(schema, op)
    ensures var mod, row := ModOf(schema, stream, committed, op), committed(op.table, op.key);
      && mod.keys == op.key && mod.columns == NonKey(schema, stream, op) && (op.Delete? ==> mod.newValues == [])
      && (op.Insert? || stream.capture == NewRow || stream.capture == NewValues ==> mod.oldValues == [])
      && (!op.Insert? && (stream.capture == OldAndNewValues || stream.capture == NewRowAndOldValues) ==>
            && |mod.oldValues| == |mod.columns|
            && forall i :: 0 <= i < |mod.columns| ==>
                 mod.oldValues[i] ==
                 if stream.capture == NewRowAndOldValues && op.Update? && mod.columns[i] !in op.columns
                 then NotRecorded
                 else Was(if mod.columns[i] in row then row[mod.columns[i]] else Null))
  {
  }

  // ---------------------------------------------------------------------------
  // Grouping
  // ---------------------------------------------------------------------------

  datatype StreamState = StreamState(records: seq<Record>, open: bool, group: ModGroup)

  const NO_GROUP := ModGroup(0, INSERT, {}, [])

  const START := StreamState([], false, NO_GROUP)

  predicate Excluded(stream: Stream, op: Op) {
    match op
    case Insert(_, _, _, _) => stream.excludeInsert
    case Update(_, _, _, _) => stream.excludeUpdate
    case Delete(_, _) => stream.excludeDelete
  }

  /** CheckIfNonKeyColumnsRemainSame. */
  predicate SameColumns(stream: Stream, table: TableId, recorded: seq<ColumnId>, columns: set<ColumnId>) {
    var known := Filter(recorded, Known(stream, table));
    |known| == |columns| && forall i :: 0 <= i < |known| ==> known[i] in columns
  }

  predicate Joins(schema: Schema, stream: Stream, group: ModGroup, op: Op)
    requires op.table in schema
  {
    group.modType == TypeOf(op) && group.table == op.table &&
    SameColumns(stream, op.table, Recorded(schema, stream, op), group.columns)
  }

  /** BuildDataChangeRecord. */
  function RecordOf(group: ModGroup, sequence: nat): Record {
    Record(sequence, false, group.table, group.modType, group.columns, group.mods, -1)
  }

  /** The write leaves something to record. */
  predicate Leaves(schema: Schema, stream: Stream, op: Op)
    requires op.table in schema
  {
    NonKey(schema, stream, op) != [] || !op.Update?
  }

  method CheckIfNonKeyColumnsRemainSame(stream: Stream, table: TableId, recorded: seq<ColumnId>, columns: set<ColumnId>)
    returns (same: bool)
    ensures same <==> SameColumns(stream, table, recorded, columns)
  {
    var known := [];
    for i := 0 to |recorded|
      invariant known == Filter(recorded[..i], Known(stream, table))
    {
      assert recorded[..i + 1][..i] == recorded[..i];
      if recorded[i] in Known(stream, table) {
        known := known + [recorded[i]];
      }
    }
    assert recorded[..|recorded|] == recorded;
    if |known| != |columns| {
      return false;
    }
    for i := 0 to |known|
      invariant forall j :: 0 <= j < i ==> known[j] in columns
    {
      if known[i] !in columns {
        return false;
      }
    }
    return true;
  }

  /** The group is turned into a record if the write does not join it. */
  function Flushed(schema: Schema, stream: Stream, st: StreamState, op: Op): StreamState
    requires op.table in schema
  {
    if st.open && !Joins(schema, stream, st.group, op)
    then StreamState(st.records + [RecordOf(st.group, |st.records|)], false, NO_GROUP)
    else st
  }

  function Grouped(schema: Schema, stream: Stream, committed: Committed, st: StreamState, op: Op): StreamState
    requires op.table in schema && (!op.Delete? ==> |op.columns| == |op.values|)
  {
    if !Leaves(schema, stream, op) then st
    else
      var mods := if st.open then st.group.mods else [];
      var columns := NonKeySet(schema, stream, op);
      st.(open := true,
          group := ModGroup(op.table, if st.open then st.group.modType else TypeOf(op), columns,
                            mods + [ModOf(schema, stream, committed, op)]))
  }

  function Log(schema: Schema, stream: Stream, committed: Committed, st: StreamState, op: Op): StreamState
    requires op.table in schema && (!op.Delete? ==> |op.columns| == |op.values|)
  {
    if Excluded(stream, op) then st
    else Grouped(schema, stream, committed, Flushed(schema, stream, st, op), op)
  }

  /** The stream sees the write at all. */
  predicate Watches(stream: Stream, op: Op, excludeTxn: bool) {
    op.table in stream.tracked && !(excludeTxn && stream.allowTxnExclusion)
  }

  ghost predicate OpsOk(schema: Schema, ops: seq<Op>) {
    forall i :: 0 <= i < |ops| ==> OpOk(schema, ops[i])
  }

  function LogAll(schema: Schema, stream: Stream, committed: Committed, ops: seq<Op>, excludeTxn: bool): StreamState
    requires OpsOk(schema, ops)
  {
    if ops == [] then START
    else
      var st, op := LogAll(schema, stream, committed, ops[..|ops| - 1], excludeTxn), ops[|ops| - 1];
      if Watches(stream, op, excludeTxn) then Log(schema, stream, committed, st, op) else st
  }

  /** BuildMutation: the group left open becomes a record; the last record is flagged and every one counted. */
  function Finished(st: StreamState): seq<Record> {
    var records := if st.open then st.records + [RecordOf(st.group, |st.records|)] else st.records;
    seq(|records|, i requires 0 <= i < |records| =>
        records[i].(isLast := records[i].isLast || i == |records| - 1, count := |records|))
  }

  // ---------------------------------------------------------------------------
  // Conservation
  // ---------------------------------------------------------------------------

  /** A recorded modification, with what its record says about it. */
  datatype Entry = Entry(table: TableId, modType: ModType, columns: set<ColumnId>, mod: Mod)

  function EntriesOf(table: TableId, modType: ModType, columns: set<ColumnId>, mods: seq<Mod>): seq<Entry> {
    seq(|mods|, i requires 0 <= i < |mods| => Entry(table, modType, columns, mods[i]))
  }

  function Flatten(records: seq<Record>): seq<Entry> {
    if records == [] then []
    else
      var r := records[|records| - 1];
      Flatten(records[..|records| - 1]) + EntriesOf(r.table, r.modType, r.columns, r.mods)
  }

  /** The stream watches the table, and neither the transaction nor writes of this kind are excluded from it. */
  predicate Captures(stream: Stream, op: Op, excludeTxn: bool) {
    && op.table in stream.tracked && (excludeTxn ==> !stream.allowTxnExclusion)
    && (op.Insert? ==> !stream.excludeInsert) && (op.Update? ==> !stream.excludeUpdate)
    && (op.Delete? ==> !stream.excludeDelete)
  }

  /** What one write should put in the stream: nothing, or one modification under its own table, type and columns. */
  function Expected(schema: Schema, stream: Stream, committed: Committed, op: Op, excludeTxn: bool): seq<Entry>
    requires OpOk(schema, op)
  {
    if Captures(stream, op, excludeTxn) && (op.Update? ==> NonKey(schema, stream, op) != [])
    then [Entry(op.table, if op.Insert? then INSERT else if op.Update? then UPDATE else DELETE,
                NonKeySet(schema, stream, op), ModOf(schema, stream, committed, op))]
    else []
  }

  function ExpectedAll(schema: Schema, stream: Stream, committed: Committed, ops: seq<Op>, excludeTxn: bool): seq<Entry>
    requires OpsOk(schema, ops)
  {
    if ops == [] then []
    else ExpectedAll(schema, stream, committed, ops[..|ops| - 1], excludeTxn) +
         Expected(schema, stream, committed, ops[|ops| - 1], excludeTxn)
  }

  /** Everything recorded or waiting in the open group. */
  function Contents(st: StreamState): seq<Entry> {
    Flatten(st.records) +
    if st.open then EntriesOf(st.group.table, st.group.modType, st.group.columns, st.group.mods) else []
  }

  ghost predicate StateOk(schema: Schema, st: StreamState) {
    && (forall i :: 0 <= i < |st.records| ==>
        st.records[i].sequence == i && !st.records[i].isLast && st.records[i].mods != [])
    && (st.open ==> st.group.mods != [] && st.group.table in schema &&
                    (st.group.modType == UPDATE ==> st.group.columns != {}) &&
                    forall c :: c in st.group.columns ==> c !in schema[st.group.table].pk)
  }

  /** Distinct columns within a set of the same size fill it. */
  lemma {:induction false} DistinctFill(s: seq<ColumnId>, t: set<ColumnId>)
    requires Distinct(s) && |s| == |t| && forall i :: 0 <= i < |s| ==> s[i] in t
    ensures forall c :: c in t ==> c in s
    decreases |s|
  {
    if s == [] {
      assert t == {};
    } else {
      var last, front := s[|s| - 1], s[..|s| - 1];
      DistinctFill(front, t - {last});
      assert s == front + [last];
    }
  }

  /** A write joins a group only if it records exactly the group's columns. */
  lemma JoinsSameColumns(schema: Schema, stream: Stream, group: ModGroup, op: Op)
    requires OpOk(schema, op) && Joins(schema, stream, group, op)
    requires forall c :: c in group.columns ==> c !in schema[op.table].pk
    ensures NonKeySet(schema, stream, op) == group.columns
  {
    var recorded, known := Recorded(schema, stream, op), Known(stream, op.table);
    DistinctFill(Filter(recorded, known), group.columns);
    forall c ensures c in NonKey(schema, stream, op) <==> c in group.columns {
      if c in NonKey(schema, stream, op) {
        assert c in Filter(recorded, known);
      }
      if c in group.columns {
        assert c in Filter(recorded, known);
      }
    }
  }

  lemma FlattenNext(records: seq<Record>, r: Record)
    ensures Flatten(records + [r]) == Flatten(records) + EntriesOf(r.table, r.modType, r.columns, r.mods)
  {
    assert (records + [r])[..|records|] == records;
  }

  lemma EntriesNext(table: TableId, modType: ModType, columns: set<ColumnId>, mods: seq<Mod>, mod: Mod)
    ensures EntriesOf(table, modType, columns, mods + [mod]) ==
            EntriesOf(table, modType, columns, mods) + [Entry(table, modType, columns, mod)]
  {
  }

  /** Flushing moves the open group, and nothing else. */
  lemma FlushKeeps(schema: Schema, stream: Stream, st: StreamState, op: Op)
    requires OpOk(schema, op) && StateOk(schema, st)
    ensures var st' := Flushed(schema, stream, st, op);
      && StateOk(schema, st') && Contents(st') == Contents(st)
      && (st'.open ==> Joins(schema, stream, st'.group, op))
  {
    hide Joins;
    if st.open && !Joins(schema, stream, st.group, op) {
      FlattenNext(st.records, RecordOf(st.group, |st.records|));
    }
  }

  /** Each write adds exactly what is expected of it, at the end. */
  lemma LogAdds(schema: Schema, stream: Stream, committed: Committed, st: StreamState, op: Op, excludeTxn: bool)
    requires OpOk(schema, op) && StateOk(schema, st) && Watches(stream, op, excludeTxn)
    ensures StateOk(schema, Log(schema, stream, committed, st, op))
    ensures Contents(Log(schema, stream, committed, st, op)) ==
            Contents(st) + Expected(schema, stream, committed, op, excludeTxn)
  {
    hide Flatten, ModOf, NonKey, SameColumns, Flushed;
    if !Excluded(stream, op) && Leaves(schema, stream, op) {
      var flushed := Flushed(schema, stream, st, op);
      FlushKeeps(schema, stream, st, op);
      var mod := ModOf(schema, stream, committed, op);
      assert op.Update? ==> NonKey(schema, stream, op)[0] in NonKeySet(schema, stream, op);
      if flushed.open {
        JoinsSameColumns(schema, stream, flushed.group, op);
        EntriesNext(op.table, TypeOf(op), flushed.group.columns, flushed.group.mods, mod);
      } else {
        EntriesNext(op.table, TypeOf(op), NonKeySet(schema, stream, op), [], mod);
        NonKeyIsNotKey(schema, stream, op);
      }
    } else if !Excluded(stream, op) {
      FlushKeeps(schema, stream, st, op);
    }
  }

  /** A write joins a group exactly if it has its table, type and non-key columns, and records no tracked key column. */
  lemma JoinsExactly(schema: Schema, stream: Stream, group: ModGroup, op: Op)
    requires OpOk(schema, op) &&
             (group.table == op.table ==> forall c :: c in group.columns ==> c !in schema[op.table].pk)
    ensures Joins(schema, stream, group, op) <==>
            && group.table == op.table
            && group.modType == (if op.Insert? then INSERT else if op.Update? then UPDATE else DELETE)
            && group.columns == NonKeySet(schema, stream, op)
            && forall c :: c in schema[op.table].pk && c in Considered(schema, stream, op) ==>
                 c !in Known(stream, op.table)
  {
    var pk, of := schema[op.table].pk, Considered(schema, stream, op);
    var recorded, known := Recorded(schema, stream, op), Known(stream, op.table);
    assert forall c :: c in recorded <==> c in of && (c in known || c in pk);
    var tracked := Filter(recorded, known);
    if Joins(schema, stream, group, op) {
      JoinsSameColumns(schema, stream, group, op);
      forall c | c in pk && c in of ensures c !in known {
        assert c in known ==> c in tracked;
      }
    } else if group.columns == NonKeySet(schema, stream, op) && (forall c :: c in pk && c in of ==> c !in known) {
      forall c ensures c in tracked <==> c in group.columns {
        assert c in group.columns <==> c in NonKey(schema, stream, op);
      }
      DistinctCount(tracked, group.columns);
    }
  }

  lemma {:induction false} DistinctCount(s: seq<ColumnId>, t: set<ColumnId>)
    requires Distinct(s) && forall c :: c in s <==> c in t
    ensures |s| == |t|
    decreases |s|
  {
    if s == [] {
      assert t == {};
    } else {
      var last, front := s[|s| - 1], s[..|s| - 1];
      assert s == front + [last];
      forall c ensures c in front <==> c in t - {last} {
        assert c in front ==> c in s;
      }
      DistinctCount(front, t - {last});
      assert last in t;
    }
  }

  /**
   * Which writes share a record: one that leaves something joins the open group exactly if
   * it has the group's table, type and non-key columns and records no tracked key column;
   * otherwise the group is closed, and it opens another. A write that leaves nothing
   * closes the group.
   */
  lemma LogGroups(schema: Schema, stream: Stream, committed: Committed, st: StreamState, op: Op, excludeTxn: bool)
    requires OpOk(schema, op) && StateOk(schema, st) && Captures(stream, op, excludeTxn)
    ensures var r := Log(schema, stream, committed, st, op);
      var columns, mod := NonKeySet(schema, stream, op), ModOf(schema, stream, committed, op);
      var modType := if op.Insert? then INSERT else if op.Update? then UPDATE else DELETE;
      var leaves := op.Update? ==> NonKey(schema, stream, op) != [];
      var joins := st.open && st.group.table == op.table && st.group.modType == modType &&
          st.group.columns == columns &&
                   forall c :: c in schema[op.table].pk && c in Considered(schema, stream, op) ==>
                     c !in Known(stream, op.table);
      && (joins ==> leaves && r == st.(group := st.group.(mods := st.group.mods + [mod])))
      && (!joins ==> r.records == if st.open then st.records + [RecordOf(st.group, |st.records|)] else st.records)
      && (!joins ==> (r.open <==> leaves) && (leaves ==> r.group == ModGroup(op.table, modType, columns, [mod])))
  {
    hide ModOf, Joins, Recorded, Considered, Known;
    if st.open {
      JoinsExactly(schema, stream, st.group, op);
      if op.Update? && NonKey(schema, stream, op) == [] {
        assert NonKeySet(schema, stream, op) == {};
      }
    }
  }

  lemma NonKeyIsNotKey(schema: Schema, stream: Stream, op: Op)
    requires op.table in schema
    ensures forall c :: c in NonKeySet(schema, stream, op) ==> c !in schema[op.table].pk
  {
  }

  lemma {:induction false} LogAllContents(schema: Schema, stream: Stream, committed: Committed, ops: seq<Op>,
                                          excludeTxn: bool)
    requires OpsOk(schema, ops)
    ensures var st := LogAll(schema, stream, committed, ops, excludeTxn);
      StateOk(schema, st) && Contents(st) == ExpectedAll(schema, stream, committed, ops, excludeTxn)
    decreases |ops|
  {
    hide Log, Contents, Expected, Watches, StateOk;
    if ops == [] {
      StartIsEmpty(schema);
    } else {
      var front, op := ops[..|ops| - 1], ops[|ops| - 1];
      LogAllContents(schema, stream, committed, front, excludeTxn);
      var st := LogAll(schema, stream, committed, front, excludeTxn);
      if Watches(stream, op, excludeTxn) {
        LogAdds(schema, stream, committed, st, op, excludeTxn);
      } else {
        NothingExpected(schema, stream, committed, op, excludeTxn);
      }
    }
  }

  lemma StartIsEmpty(schema: Schema)
    ensures StateOk(schema, START) && Contents(START) == []
  {
  }

  lemma NothingExpected(schema: Schema, stream: Stream, committed: Committed, op: Op, excludeTxn: bool)
    requires OpOk(schema, op) && !Watches(stream, op, excludeTxn)
    ensures Expected(schema, stream, committed, op, excludeTxn) == []
  {
  }

  /** Counting and flagging leave the recorded modifications alone. */
  lemma {:induction false} FlattenSame(a: seq<Record>, b: seq<Record>)
    requires |a| == |b|
    requires forall i :: 0 <= i < |a| ==>
               a[i].table == b[i].table && a[i].modType == b[i].modType && a[i].columns == b[i].columns &&
               a[i].mods == b[i].mods
    ensures Flatten(a) == Flatten(b)
    decreases |a|
  {
    if a != [] {
      FlattenSame(a[..|a| - 1], b[..|b| - 1]);
    }
  }

  /**
   * For each stream: the modifications of its records, in sequence order, are exactly
   * those of the watched, non-excluded writes in their order, without updates that
   * record no non-key column, and each stands in a record of its own table, type and
   * non-key columns. Records are numbered from 0, none is empty, each carries their
   * number, and only the last is flagged.
   */
  lemma RecordsConserveWrites(schema: Schema, stream: Stream, committed: Committed, ops: seq<Op>, excludeTxn: bool)
    requires OpsOk(schema, ops)
    ensures var records := Finished(LogAll(schema, stream, committed, ops, excludeTxn));
      && Flatten(records) == ExpectedAll(schema, stream, committed, ops, excludeTxn)
      && (forall i :: 0 <= i < |records| ==>
            records[i].sequence == i && records[i].count == |records| && records[i].mods != [] &&
            (records[i].isLast <==> i == |records| - 1))
  {
    hide LogAll, ExpectedAll;
    var st := LogAll(schema, stream, committed, ops, excludeTxn);
    LogAllContents(schema, stream, committed, ops, excludeTxn);
    var records := if st.open then st.records + [RecordOf(st.group, |st.records|)] else st.records;
    if st.open {
      FlattenNext(st.records, RecordOf(st.group, |st.records|));
    }
    FlattenSame(Finished(st), records);
  }

  // ---------------------------------------------------------------------------
  // One write, and the end of the transaction
  // ---------------------------------------------------------------------------

  method LogTableMod(schema: Schema, stream: Stream, committed: Committed, st: StreamState, op: Op)
    returns (r: StreamState)
    requires OpOk(schema, op)
    ensures r == Log(schema, stream, committed, st, op)
    ensures op.Insert? && stream.excludeInsert ==> r == st
    ensures op.Update? && stream.excludeUpdate ==> r == st
    ensures op.Delete? && stream.excludeDelete ==> r == st
  {
    r := st;
    if Excluded(stream, op) {
      return;
    }
    var recorded := Recorded(schema, stream, op);
    if r.open {
      var same := CheckIfNonKeyColumnsRemainSame(stream, op.table, recorded, r.group.columns);
      if r.group.modType != TypeOf(op) || r.group.table != op.table || !same {
        var record := RecordOf(r.group, |r.records|);
        r := StreamState(r.records + [record], false, NO_GROUP);
      }
    }
    var nonKey := NonKey(schema, stream, op);
    if nonKey != [] || !op.Update? {
      if !r.open {
        r := r.(open := true, group := ModGroup(op.table, TypeOf(op), {}, []));
      }
      r := r.(group := r.group.(table := op.table, columns := set c | c in nonKey));
      r := r.(group := r.group.(mods := r.group.mods + [ModOf(schema, stream, committed, op)]));
    }
  }

  /** BuildMutation for one stream. */
  method BuildMutation(st: StreamState) returns (records: seq<Record>)
    ensures records == Finished(st)
  {
    var built := st.records;
    if st.open {
      built := built + [RecordOf(st.group, |built|)];
    }
    var n := |built|;
    if n > 0 {
      built := built[n - 1 := built[n - 1].(isLast := true)];
    }
    records := [];
    for i := 0 to n
      invariant |records| == i
      invariant forall k :: 0 <= k < i ==> records[k] == built[k].(count := n)
    {
      records := records + [built[i].(count := n)];
    }
  }

  // ---------------------------------------------------------------------------
  // The write operations of all streams
  // ---------------------------------------------------------------------------

  datatype StreamWrite = StreamWrite(stream: nat, record: Record)

  function WritesOf(stream: nat, records: seq<Record>): seq<StreamWrite> {
    seq(|records|, k requires 0 <= k < |records| => StreamWrite(stream, records[k]))
  }

  /** The records of the streams, stream by stream in the order given. */
  function InOrder(order: seq<nat>, records: seq<seq<Record>>): seq<StreamWrite>
    requires forall k :: 0 <= k < |order| ==> order[k] < |records|
  {
    if order == [] then []
    else
      var last := order[|order| - 1];
      InOrder(order[..|order| - 1], records) + WritesOf(last, records[last])
  }

  /** The records written for one stream. */
  function RecordsFor(writes: seq<StreamWrite>, stream: nat): seq<Record> {
    if writes == [] then []
    else
      var front, w := RecordsFor(writes[..|writes| - 1], stream), writes[|writes| - 1];
      if w.stream == stream then front + [w.record] else front
  }

  /** An order in which a map over the streams may be walked. */
  ghost predicate WalksAll(order: seq<nat>, n: nat) {
    && Distinct(order) && (forall k :: 0 <= k < |order| ==> order[k] < n)
    && (forall i: nat :: i < n ==> i in order)
  }

  function Built(schema: Schema, streams: seq<Stream>, committed: Committed, ops: seq<Op>, excludeTxn: bool)
    : seq<seq<Record>>
    requires OpsOk(schema, ops)
  {
    seq(|streams|, i requires 0 <= i < |streams| => Finished(LogAll(schema, streams[i], committed, ops, excludeTxn)))
  }

  lemma RecordsForNext(writes: seq<StreamWrite>, w: StreamWrite, i: nat)
    ensures RecordsFor(writes + [w], i) == if w.stream == i then RecordsFor(writes, i) + [w.record]
            else RecordsFor(writes, i)
  {
    assert (writes + [w])[..|writes|] == writes;
  }

  lemma {:induction false} RecordsForMore(writes: seq<StreamWrite>, stream: nat, records: seq<Record>, i: nat)
    ensures RecordsFor(writes + WritesOf(stream, records), i) ==
            RecordsFor(writes, i) + if stream == i then records else []
    decreases |records|
  {
    hide RecordsFor;
    if records == [] {
      assert writes + WritesOf(stream, records) == writes;
    } else {
      var front, last := records[..|records| - 1], StreamWrite(stream, records[|records| - 1]);
      RecordsForMore(writes, stream, front, i);
      RecordsForNext(writes + WritesOf(stream, front), last, i);
      assert writes + WritesOf(stream, records) == writes + WritesOf(stream, front) + [last];
      assert records == front + [last.record];
    }
  }

  /** Whatever the order, a stream's records are written once if it comes up, and else not at all. */
  lemma {:induction false} OrderedRecords(order: seq<nat>, records: seq<seq<Record>>, i: nat)
    requires Distinct(order) && i < |records| && forall k :: 0 <= k < |order| ==> order[k] < |records|
    ensures RecordsFor(InOrder(order, records), i) == if i in order then records[i] else []
    decreases |order|
  {
    if order != [] {
      var front, last := order[..|order| - 1], order[|order| - 1];
      OrderedRecords(front, records, i);
      RecordsForMore(InOrder(front, records), last, records[last], i);
      assert order == front + [last];
    }
  }

  /** `order` is the order in which the hash map of the streams is walked at the end. */
  method BuildChangeStreamWriteOps(
    schema: Schema, streams: seq<Stream>, order: seq<nat>, committed: Committed, ops: seq<Op>, excludeTxn: bool)
    returns (writes: seq<StreamWrite>)
    requires OpsOk(schema, ops) && WalksAll(order, |streams|)
    ensures writes == InOrder(order, Built(schema, streams, committed, ops, excludeTxn))
    ensures forall i: nat :: i < |streams| ==>
              RecordsFor(writes, i) == Finished(LogAll(schema, streams[i], committed, ops, excludeTxn))
  {
    hide Log, Finished;
    var states := seq(|streams|, i => START);
    for n := 0 to |ops|
      invariant |states| == |streams|
      invariant forall i :: 0 <= i < |streams| ==>
                  states[i] == LogAll(schema, streams[i], committed, ops[..n], excludeTxn)
    {
      assert ops[..n + 1][..n] == ops[..n];
      for k := 0 to |streams|
        invariant |states| == |streams|
        invariant forall i :: 0 <= i < k ==>
                    states[i] == LogAll(schema, streams[i], committed, ops[..n + 1], excludeTxn)
        invariant forall i :: k <= i < |streams| ==>
                    states[i] == LogAll(schema, streams[i], committed, ops[..n], excludeTxn)
      {
        if Watches(streams[k], ops[n], excludeTxn) {
          var st := LogTableMod(schema, streams[k], committed, states[k], ops[n]);
          states := states[k := st];
        }
      }
    }
    assert ops[..|ops|] == ops;
    ghost var built := Built(schema, streams, committed, ops, excludeTxn);
    writes := [];
    for k := 0 to |order|
      invariant writes == InOrder(order[..k], built)
    {
      assert order[..k + 1][..k] == order[..k];
      var records := BuildMutation(states[order[k]]);
      writes := writes + WritesOf(order[k], records);
    }
    assert order[..|order|] == order;
    forall i: nat | i < |streams|
      ensures RecordsFor(writes, i) == Finished(LogAll(schema, streams[i], committed, ops, excludeTxn))
    {
      OrderedRecords(order, built, i);
    }
  }
}
