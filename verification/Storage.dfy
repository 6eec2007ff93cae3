/**
 * The multi-version store (backend/storage/storage.h, backend/storage/in_memory_storage.cc):
 * table, row key and column lead to a cell, a time-ordered list of versions.
 */
module Storage {
  import opened Collections
  import opened Keys
  import opened KeyRanges

  type Time = int       // microseconds
  type TableId = nat
  type ColumnId = nat

  datatype Loc = Loc(table: TableId, key: Key)

  // ---------------------------------------------------------------------------
  // Cells
  // ---------------------------------------------------------------------------

  datatype Version<T> = Version(time: Time, value: T)

  type Cell<T> = seq<Version<T>>

  predicate Ordered<T>(cell: Cell<T>) {
    forall i, j :: 0 <= i < j < |cell| ==> cell[i].time < cell[j].time
  }

  /** No version is later than `t`. */
  predicate Until<T>(cell: Cell<T>, t: Time) {
    forall i :: 0 <= i < |cell| ==> cell[i].time <= t
  }

  /** GetCellValueAtTimestamp: the newest version at or before `t`. */
  function ValueAt<T>(cell: Cell<T>, t: Time): Option<T> {
    if cell == [] then None
    else if cell[|cell| - 1].time <= t then Some(cell[|cell| - 1].value)
    else ValueAt(cell[..|cell| - 1], t)
  }

  /** `cell[t] = v` on a map ordered by time. */
  function Put<T>(cell: Cell<T>, t: Time, v: T): Cell<T> {
    if cell == [] || cell[|cell| - 1].time < t then cell + [Version(t, v)]
    else if cell[|cell| - 1].time == t then cell[..|cell| - 1] + [Version(t, v)]
    else Put(cell[..|cell| - 1], t, v) + [cell[|cell| - 1]]
  }

  /** RemoveExpiredVersions: drops every version that a newer one at or before the horizon replaces. */
  function Expire<T>(cell: Cell<T>, horizon: Time): Cell<T>
    decreases |cell|
  {
    if |cell| >= 2 && cell[1].time <= horizon then Expire(cell[1..], horizon) else cell
  }

  function Stamp<T>(cell: Cell<T>, t: Time, v: T, retention: nat): Cell<T> {
    Expire(Put(cell, t, v), t - retention)
  }

  /**
   * RemoveExpiredVersions as it walks the cell, erasing from the front: what is left is
   * the end of the cell, and a version is erased exactly if its successor is at or before
   * the horizon, so the first one kept is the latest at or before it, if there is any.
   */
  method RemoveExpiredVersions<T>(cell: Cell<T>, horizon: Time) returns (kept: Cell<T>)
    requires Ordered(cell)
    ensures |kept| <= |cell| && kept == cell[|cell| - |kept|..]
    ensures cell != [] ==> kept != []
    ensures forall i :: 0 < i < |cell| ==> (i <= |cell| - |kept| <==> cell[i].time <= horizon)
    ensures kept == Expire(cell, horizon)
  {
    kept := cell;
    while |kept| >= 1 && kept[0].time <= horizon
      invariant |kept| <= |cell| && kept == cell[|cell| - |kept|..]
      invariant forall i :: 0 < i <= |cell| - |kept| ==> i < |cell| && cell[i].time <= horizon
      invariant Expire(kept, horizon) == Expire(cell, horizon)
      decreases |kept|
    {
      if |kept| == 1 || kept[1].time > horizon {
        break;
      }
      kept := kept[1..];
    }
    forall i | 0 < i < |cell| && i > |cell| - |kept| ensures cell[i].time > horizon {
      assert cell[i] == kept[i - (|cell| - |kept|)];
    }
  }

  /** A cell's value at a time is that of its latest version at or before it. */
  lemma {:induction false} ValueAtMeaning<T>(cell: Cell<T>, t: Time)
    requires Ordered(cell)
    ensures ValueAt(cell, t) == None <==> forall i :: 0 <= i < |cell| ==> cell[i].time > t
    ensures forall i :: 0 <= i < |cell| && cell[i].time <= t && (i + 1 < |cell| ==> cell[i + 1].time > t) ==>
              ValueAt(cell, t) == Some(cell[i].value)
  {
    if cell != [] && cell[|cell| - 1].time > t {
      ValueAtMeaning(cell[..|cell| - 1], t);
    }
  }

  /** Putting a version at a time replaces the one there, and keeps all others, in order. */
  lemma {:induction false} PutMeaning<T>(cell: Cell<T>, t: Time, v: T, x: Version<T>)
    requires Ordered(cell)
    ensures Ordered(Put(cell, t, v))
    ensures x in Put(cell, t, v) <==> if x.time == t then x.value == v else x in cell
  {
    if cell != [] {
      var front, last := cell[..|cell| - 1], cell[|cell| - 1];
      assert cell == front + [last];
      if last.time > t {
        PutMeaning(front, t, v, x);
        forall i | 0 <= i < |Put(front, t, v)| ensures Put(front, t, v)[i].time < last.time {
          PutMeaning(front, t, v, Put(front, t, v)[i]);
        }
      }
    }
  }

  lemma {:induction false} ValueAtUntil<T>(cell: Cell<T>, t: Time)
    requires Until(cell, t)
    ensures ValueAt(cell, t) == if cell == [] then None else Some(cell[|cell| - 1].value)
  {
  }

  lemma {:induction false} PutAtEnd<T>(cell: Cell<T>, t: Time, v: T)
    requires Ordered(cell) && Until(cell, t)
    ensures var c := Put(cell, t, v);
            Ordered(c) && Until(c, t) && c != [] && c[|c| - 1] == Version(t, v)
    ensures forall s :: s < t ==> ValueAt(Put(cell, t, v), s) == ValueAt(cell, s)
  {
    var c := Put(cell, t, v);
    forall s | s < t ensures ValueAt(c, s) == ValueAt(cell, s) {
      assert ValueAt(c, s) == ValueAt(c[..|c| - 1], s);
      if cell == [] || cell[|cell| - 1].time < t {
        assert c[..|c| - 1] == cell;
      } else {
        assert c[..|c| - 1] == cell[..|cell| - 1];
      }
    }
  }

  /** Expiry keeps the newest version, and every reading from the horizon on. */
  lemma {:induction false} ExpireKeeps<T>(cell: Cell<T>, horizon: Time)
    requires Ordered(cell)
    ensures Ordered(Expire(cell, horizon)) && |Expire(cell, horizon)| <= |cell|
    ensures forall t :: Until(cell, t) ==> Until(Expire(cell, horizon), t)
    ensures cell != [] ==> Expire(cell, horizon) != [] &&
                           Expire(cell, horizon)[|Expire(cell, horizon)| - 1] == cell[|cell| - 1]
    ensures forall t :: t >= horizon ==> ValueAt(Expire(cell, horizon), t) == ValueAt(cell, t)
    decreases |cell|
  {
    if |cell| >= 2 && cell[1].time <= horizon {
      ExpireKeeps(cell[1..], horizon);
      forall t | Until(cell, t) ensures Until(Expire(cell, horizon), t) {
        assert Until(cell[1..], t);
      }
      forall t | t >= horizon ensures ValueAt(Expire(cell, horizon), t) == ValueAt(cell, t) {
        DropFirst(cell, t);
      }
    }
  }

  lemma {:induction false} DropFirst<T>(cell: Cell<T>, t: Time)
    requires |cell| >= 2 && cell[1].time <= t
    ensures ValueAt(cell[1..], t) == ValueAt(cell, t)
  {
    var n := |cell| - 1;
    if cell[n].time > t {
      assert cell[1..][..n - 1] == cell[..n][1..];
      DropFirst(cell[..n], t);
    }
  }

  /** What a stamped cell reads, at every time its history still covers. */
  lemma StampReads<T>(cell: Cell<T>, t: Time, v: T, retention: nat)
    requires Ordered(cell) && Until(cell, t)
    ensures var c := Stamp(cell, t, v, retention);
            Ordered(c) && Until(c, t) && c != [] && c[|c| - 1] == Version(t, v)
    ensures forall s :: s >= t ==> ValueAt(Stamp(cell, t, v, retention), s) == Some(v)
    ensures forall s :: t - retention <= s < t ==> ValueAt(Stamp(cell, t, v, retention), s) == ValueAt(cell, s)
  {
    PutAtEnd(cell, t, v);
    ExpireKeeps(Put(cell, t, v), t - retention);
  }

  // ---------------------------------------------------------------------------
  // Rows
  // ---------------------------------------------------------------------------

  /** A stored column value; a delete leaves an invalid one behind. */
  datatype CellValue = Invalid | Valid(value: Value)

  datatype Row = Row(exists_: Cell<bool>, columns: map<ColumnId, Cell<CellValue>>)

  /** What a row holds for a reader: its valid columns. */
  type Data = map<ColumnId, Value>

  const NO_ROW := Row([], map[])

  predicate Exists(row: Row, t: Time) {
    ValueAt(row.exists_, t) == Some(true)
  }

  function Column(row: Row, c: ColumnId): Cell<CellValue> {
    if c in row.columns then row.columns[c] else []
  }

  function ColumnsAt(row: Row, t: Time): Data {
    map c | c in row.columns && ValueAt(row.columns[c], t).Some? && ValueAt(row.columns[c], t).value.Valid?
      :: ValueAt(row.columns[c], t).value.value
  }

  function RowAt(row: Row, t: Time): Option<Data> {
    if Exists(row, t) then Some(ColumnsAt(row, t)) else None
  }

  predicate CellChangedAfter<T>(cell: Cell<T>, t: Time) {
    cell != [] && cell[|cell| - 1].time > t
  }

  /** Some cell of the row has a version strictly after `t`. */
  predicate ChangedAfter(row: Row, t: Time) {
    CellChangedAfter(row.exists_, t) || exists c :: c in row.columns && CellChangedAfter(row.columns[c], t)
  }

  /** Every version is at or before `t`, and a row that does not exist has no valid column left. */
  ghost predicate RowOk(row: Row, t: Time) {
    && Ordered(row.exists_) && Until(row.exists_, t)
    && ColumnsOk(row, t)
    && (!Exists(row, t) ==> ColumnsAt(row, t) == map[])
  }

  datatype ColumnWrite = ColumnWrite(column: ColumnId, value: Value)

  /** One flushed write: an insert or update, a delete, or the mark of a cancelled write. */
  datatype Op = Write(columns: seq<ColumnWrite>) | Delete | Mark

  /** The columns after writing `cols` in order; the last write of a column wins. */
  function Written(data: Data, cols: seq<ColumnWrite>): Data
    decreases |cols|
  {
    if cols == [] then data else Written(data[cols[0].column := cols[0].value], cols[1..])
  }

  /** What one write does to a row, version histories aside. */
  function ApplyOp(d: Option<Data>, op: Op): Option<Data> {
    match op
    case Write(cols) => Some(Written(if d.Some? then d.value else map[], cols))
    case Delete => None
    case Mark => d
  }

  /** A write of this kind to a row in this state leaves a version behind. */
  predicate LeavesVersion(d: Option<Data>, op: Op) {
    op.Delete? ==> d.Some?
  }

  function StampColumns(row: Row, t: Time, cols: seq<ColumnWrite>, retention: nat): Row
    decreases |cols|
  {
    if cols == [] then row
    else
      var c := cols[0].column;
      StampColumns(row.(columns := row.columns[c := Stamp(Column(row, c), t, Valid(cols[0].value), retention)]),
                   t, cols[1..], retention)
  }

  function WriteRow(row: Row, t: Time, cols: seq<ColumnWrite>, retention: nat): Row {
    StampColumns(if !Exists(row, t) || cols == [] then row.(exists_ := Stamp(row.exists_, t, true, retention)) else row,
                 t, cols, retention)
  }

  function DeleteRow(row: Row, t: Time, retention: nat): Row {
    if !Exists(row, t) then row
    else Row(Stamp(row.exists_, t, false, retention),
             map c | c in row.columns :: Stamp(row.columns[c], t, Invalid, retention))
  }

  function MarkRow(row: Row, t: Time, retention: nat): Row {
    row.(exists_ := Stamp(row.exists_, t, Exists(row, t), retention))
  }

  function StampRow(row: Row, t: Time, op: Op, retention: nat): Row {
    match op
    case Write(cols) => WriteRow(row, t, cols, retention)
    case Delete => DeleteRow(row, t, retention)
    case Mark => MarkRow(row, t, retention)
  }

  ghost predicate ColumnsOk(row: Row, t: Time) {
    forall c :: c in row.columns ==> Ordered(row.columns[c]) && Until(row.columns[c], t)
  }

  /** One column stamped. */
  lemma StampColumnReads(row: Row, t: Time, w: ColumnWrite, retention: nat)
    requires ColumnsOk(row, t)
    ensures var next := StampColumns(row, t, [w], retention);
      && next.exists_ == row.exists_
      && ColumnsOk(next, t)
      && ColumnsAt(next, t) == ColumnsAt(row, t)[w.column := w.value]
      && (forall s :: t - retention <= s < t ==> ColumnsAt(next, s) == ColumnsAt(row, s))
      && (forall s :: ChangedAfter(next, s) <==> ChangedAfter(row, s) || t > s)
  {
    hide Stamp, ChangedAfter, ColumnsAt, Ordered, Until, ValueAt;
    var cell := Column(row, w.column);
    var stamped := Stamp(cell, t, Valid(w.value), retention);
    EmptyCell(t);
    StampReads(cell, t, Valid(w.value), retention);
    var next := row.(columns := row.columns[w.column := stamped]);
    assert StampColumns(row, t, [w], retention) == next;
    assert ColumnsAt(next, t) == ColumnsAt(row, t)[w.column := w.value] by {
      ColumnReplaced(row, w.column, stamped, t);
    }
    forall s | t - retention <= s < t ensures ColumnsAt(next, s) == ColumnsAt(row, s) {
      ColumnReplaced(row, w.column, stamped, s);
    }
    forall s ensures ChangedAfter(next, s) <==> ChangedAfter(row, s) || t > s {
      StampedColumnChanged(row, w.column, stamped, t, s);
    }
  }

  lemma EmptyCell(t: Time)
    ensures Ordered<CellValue>([]) && Until<CellValue>([], t)
  {
  }

  /** Another cell for one column shows in that column alone. */
  lemma ColumnReplaced(row: Row, c: ColumnId, cell: Cell<CellValue>, s: Time)
    ensures var next := row.(columns := row.columns[c := cell]); var v := ValueAt(cell, s);
      && (v == ValueAt(Column(row, c), s) ==> ColumnsAt(next, s) == ColumnsAt(row, s))
      && (v.Some? && v.value.Valid? ==> ColumnsAt(next, s) == ColumnsAt(row, s)[c := v.value.value])
  {
  }

  lemma {:induction false} StampColumnsReads(row: Row, t: Time, cols: seq<ColumnWrite>, retention: nat)
    requires ColumnsOk(row, t)
    ensures var r := StampColumns(row, t, cols, retention);
      && r.exists_ == row.exists_
      && ColumnsOk(r, t)
      && (forall s :: s >= t ==> ColumnsAt(r, s) == Written(ColumnsAt(row, t), cols))
      && (forall s :: t - retention <= s < t ==> ColumnsAt(r, s) == ColumnsAt(row, s))
      && (forall s :: ChangedAfter(r, s) <==> ChangedAfter(row, s) || (cols != [] && t > s))
    decreases |cols|
  {
    hide ColumnsAt, ColumnsOk, ChangedAfter, Stamp;
    if cols == [] {
      forall s | s >= t ensures ColumnsAt(row, s) == ColumnsAt(row, t) {
        LatestColumns(row, t, s);
      }
    } else {
      StampColumnReads(row, t, cols[0], retention);
      var next := StampColumns(row, t, [cols[0]], retention);
      StampColumnsReads(next, t, cols[1..], retention);
    }
  }

  lemma LatestColumns(row: Row, t: Time, s: Time)
    requires ColumnsOk(row, t)
    requires s >= t
    ensures ColumnsAt(row, s) == ColumnsAt(row, t)
  {
    forall c | c in row.columns ensures ValueAt(row.columns[c], s) == ValueAt(row.columns[c], t) {
    }
  }

  lemma StampedColumnChanged(row: Row, c: ColumnId, stamped: Cell<CellValue>, t: Time, s: Time)
    requires c in row.columns ==> Until(row.columns[c], t)
    requires stamped != [] && stamped[|stamped| - 1].time == t
    ensures var next := row.(columns := row.columns[c := stamped]);
            ChangedAfter(next, s) <==> ChangedAfter(row, s) || t > s
  {
    var next := row.(columns := row.columns[c := stamped]);
    if t > s {
      assert c in next.columns && CellChangedAfter(next.columns[c], s);
    } else if ChangedAfter(row, s) && !CellChangedAfter(row.exists_, s) {
      var d :| d in row.columns && CellChangedAfter(row.columns[d], s);
      assert d in next.columns && CellChangedAfter(next.columns[d], s);
    }
  }

  /**
   * One flushed write, as every reader sees it: from its time on the row is the
   * old row with the write applied, inside the retention period nothing before
   * that time moves, and the row counts as changed exactly if a version was left.
   */
  lemma StampRowReads(row: Row, t: Time, op: Op, retention: nat)
    requires RowOk(row, t)
    ensures var r := StampRow(row, t, op, retention);
      && RowOk(r, t)
      && (forall s :: s >= t ==> RowAt(r, s) == ApplyOp(RowAt(row, t), op))
      && (forall s :: t - retention <= s < t ==> RowAt(r, s) == RowAt(row, s))
      && (forall s :: ChangedAfter(r, s) <==> ChangedAfter(row, s) || (t > s && LeavesVersion(RowAt(row, t), op)))
  {
    match op
    case Write(cols) => WriteRowReads(row, t, cols, retention);
    case Delete => DeleteRowReads(row, t, retention);
    case Mark =>
      StampReads(row.exists_, t, Exists(row, t), retention);
      var r := MarkRow(row, t, retention);
      forall s ensures ColumnsAt(r, s) == ColumnsAt(row, s) {}
      forall s | s >= t ensures RowAt(r, s) == RowAt(row, t) { LatestColumns(row, t, s); }
      forall s ensures ChangedAfter(r, s) <==> ChangedAfter(row, s) || t > s { ExistsChanged(row, r, t, s); }
  }

  lemma ExistsChanged(row: Row, r: Row, t: Time, s: Time)
    requires Until(row.exists_, t) && r.columns == row.columns
    requires r.exists_ != [] && r.exists_[|r.exists_| - 1].time == t
    ensures ChangedAfter(r, s) <==> ChangedAfter(row, s) || t > s
  {
  }

  lemma WriteRowReads(row: Row, t: Time, cols: seq<ColumnWrite>, retention: nat)
    requires RowOk(row, t)
    ensures var r := WriteRow(row, t, cols, retention);
      && RowOk(r, t)
      && (forall s :: s >= t ==> RowAt(r, s) == ApplyOp(RowAt(row, t), Write(cols)))
      && (forall s :: t - retention <= s < t ==> RowAt(r, s) == RowAt(row, s))
      && (forall s :: ChangedAfter(r, s) <==> ChangedAfter(row, s) || t > s)
  {
    var base := if !Exists(row, t) || cols == [] then row.(exists_ := Stamp(row.exists_, t, true, retention)) else row;
    StampReads(row.exists_, t, true, retention);
    StampColumnsReads(base, t, cols, retention);
    forall s ensures ColumnsAt(base, s) == ColumnsAt(row, s) {}
    forall s | s >= t ensures Exists(base, s) { ValueAtUntil(row.exists_, t); ValueAtUntil(row.exists_, s); }
    if base != row {
      forall s ensures ChangedAfter(base, s) <==> ChangedAfter(row, s) || t > s { ExistsChanged(row, base, t, s); }
    }
  }

  lemma DeleteRowReads(row: Row, t: Time, retention: nat)
    requires RowOk(row, t)
    ensures var r := DeleteRow(row, t, retention);
      && RowOk(r, t)
      && (forall s :: s >= t ==> RowAt(r, s) == None)
      && (forall s :: t - retention <= s < t ==> RowAt(r, s) == RowAt(row, s))
      && (forall s :: ChangedAfter(r, s) <==> ChangedAfter(row, s) || (t > s && RowAt(row, t).Some?))
  {
    var r := DeleteRow(row, t, retention);
    if !Exists(row, t) {
      forall s | s >= t ensures !Exists(row, s) { ValueAtUntil(row.exists_, t); ValueAtUntil(row.exists_, s); }
    } else {
      StampReads(row.exists_, t, false, retention);
      forall c | c in row.columns
        ensures Ordered(r.columns[c]) && Until(r.columns[c], t)
        ensures forall s :: s >= t ==> ValueAt(r.columns[c], s) == Some(Invalid)
        ensures forall s :: t - retention <= s < t ==> ValueAt(r.columns[c], s) == ValueAt(row.columns[c], s)
        ensures r.columns[c] != [] && r.columns[c][|r.columns[c]| - 1].time == t
      {
        StampReads(row.columns[c], t, Invalid, retention);
      }
      forall s | t - retention <= s < t ensures ColumnsAt(r, s) == ColumnsAt(row, s) {}
      forall s ensures ChangedAfter(r, s) <==> ChangedAfter(row, s) || t > s {
        if ChangedAfter(row, s) && !CellChangedAfter(row.exists_, s) {
          var c :| c in row.columns && CellChangedAfter(row.columns[c], s);
          assert row.columns[c][|row.columns[c]| - 1].time <= t;
        }
      }
    }
  }

  /** A row with no version after `s` reads the same at every later time. */
  lemma UnchangedReads(row: Row, s: Time, t: Time)
    requires !ChangedAfter(row, s) && s <= t
    ensures RowAt(row, s) == RowAt(row, t)
  {
    forall c | c in row.columns ensures ValueAt(row.columns[c], s) == ValueAt(row.columns[c], t) {
      assert !CellChangedAfter(row.columns[c], s);
    }
    assert ColumnsAt(row, s) == ColumnsAt(row, t);
  }

  // ---------------------------------------------------------------------------
  // The store
  // ---------------------------------------------------------------------------

  type Store = map<Loc, Row>

  function Stored(store: Store, loc: Loc): Row {
    if loc in store then store[loc] else NO_ROW
  }

  function ReadAt(store: Store, loc: Loc, t: Time): Option<Data> {
    RowAt(Stored(store, loc), t)
  }

  /** A write at one row; a delete of a row never written adds nothing. */
  function FlushOp(store: Store, t: Time, loc: Loc, op: Op, retention: nat): Store {
    if op.Delete? && loc !in store then store else store[loc := StampRow(Stored(store, loc), t, op, retention)]
  }

  /** The rows visible in a range at a time. */
  function Scan(store: Store, t: Time, table: TableId, range: KeyRange): map<Loc, Data> {
    map loc | loc in store && loc.table == table && range.Spans(loc.key) && RowAt(store[loc], t).Some?
      :: RowAt(store[loc], t).value
  }

  /** The documented meaning of HasVersionsAfter. */
  ghost predicate VersionsAfter(store: Store, t: Time, table: TableId, range: KeyRange) {
    exists loc :: loc in store && loc.table == table && range.Spans(loc.key) && ChangedAfter(store[loc], t)
  }

  ghost predicate StoreOk(store: Store, t: Time) {
    forall loc :: loc in store ==> RowOk(store[loc], t)
  }

  lemma FlushReads(store: Store, t: Time, loc: Loc, op: Op, retention: nat, at: Loc)
    requires StoreOk(store, t)
    ensures var store' := FlushOp(store, t, loc, op, retention);
      && StoreOk(store', t)
      && (at != loc ==> Stored(store', at) == Stored(store, at))
      && (forall s :: s >= t ==> ReadAt(store', loc, s) == ApplyOp(ReadAt(store, loc, t), op))
      && (forall s :: t - retention <= s < t ==> ReadAt(store', loc, s) == ReadAt(store, loc, s))
      && (forall s :: ChangedAfter(Stored(store', loc), s) <==>
                      ChangedAfter(Stored(store, loc), s) || (t > s && LeavesVersion(ReadAt(store, loc, t), op)))
      && (!LeavesVersion(ReadAt(store, loc, t), op) ==> Stored(store', loc) == Stored(store, loc))
  {
    StampRowReads(Stored(store, loc), t, op, retention);
  }

  /** Columns not written are as they were. */
  lemma {:induction false} WrittenOther(data: Data, cols: seq<ColumnWrite>, c: ColumnId)
    requires forall j :: 0 <= j < |cols| ==> cols[j].column != c
    ensures c in Written(data, cols) <==> c in data
    ensures c in data ==> Written(data, cols)[c] == data[c]
    decreases |cols|
  {
    if cols != [] {
      WrittenOther(data[cols[0].column := cols[0].value], cols[1..], c);
    }
  }

  /** Of the writes of a column the last one counts. */
  lemma {:induction false} WrittenLast(data: Data, cols: seq<ColumnWrite>, k: nat)
    requires k < |cols| && forall j :: k < j < |cols| ==> cols[j].column != cols[k].column
    ensures cols[k].column in Written(data, cols) && Written(data, cols)[cols[k].column] == cols[k].value
    decreases |cols|
  {
    var next := data[cols[0].column := cols[0].value];
    if k == 0 {
      WrittenOther(next, cols[1..], cols[0].column);
    } else {
      WrittenLast(next, cols[1..], k - 1);
    }
  }

  /** From its time on a delete makes the row read as nothing, and a mark changes nothing. */
  lemma FlushedDelete(store: Store, t: Time, loc: Loc, retention: nat, s: Time)
    requires StoreOk(store, t) && s >= t
    ensures ReadAt(FlushOp(store, t, loc, Op.Delete, retention), loc, s) == None
    ensures ReadAt(FlushOp(store, t, loc, Op.Mark, retention), loc, s) == ReadAt(store, loc, t)
  {
    hide FlushOp, ReadAt, StoreOk;
    FlushReads(store, t, loc, Op.Delete, retention, loc);
    FlushReads(store, t, loc, Op.Mark, retention, loc);
  }

  /** From its time on a write makes the row exist, with the value written last in column `k`'s column. */
  lemma FlushedGiven(store: Store, t: Time, loc: Loc, cols: seq<ColumnWrite>, retention: nat, s: Time, k: nat)
    requires StoreOk(store, t) && s >= t
    requires k < |cols| && forall j :: k < j < |cols| ==> cols[j].column != cols[k].column
    ensures var now := ReadAt(FlushOp(store, t, loc, Write(cols), retention), loc, s);
      now.Some? && cols[k].column in now.value && now.value[cols[k].column] == cols[k].value
  {
    hide FlushOp, ReadAt, StoreOk, Written;
    FlushReads(store, t, loc, Write(cols), retention, loc);
    var was := ReadAt(store, loc, t);
    WrittenLast(if was.Some? then was.value else map[], cols, k);
  }

  /** And with its other columns as they were. */
  lemma FlushedOther(store: Store, t: Time, loc: Loc, cols: seq<ColumnWrite>, retention: nat, s: Time, c: ColumnId)
    requires StoreOk(store, t) && s >= t && forall j :: 0 <= j < |cols| ==> cols[j].column != c
    ensures var was, now := ReadAt(store, loc, t), ReadAt(FlushOp(store, t, loc, Write(cols), retention), loc, s);
      && now.Some? && (c in now.value <==> was.Some? && c in was.value)
      && (c in now.value ==> now.value[c] == was.value[c])
  {
    hide FlushOp, ReadAt, StoreOk, Written;
    FlushReads(store, t, loc, Write(cols), retention, loc);
    var was := ReadAt(store, loc, t);
    WrittenOther(if was.Some? then was.value else map[], cols, c);
  }

  /** A range delete makes exactly the rows of the range read as nothing from its time on. */
  lemma TombstonedReads(rows: Store, t: Time, retention: nat, table: TableId, range: KeyRange, loc: Loc, s: Time)
    requires StoreOk(rows, t) && s >= t
    ensures ReadAt(Tombstoned(rows, t, retention, InRange(rows, table, range)), loc, s) ==
            if loc.table == table && range.Spans(loc.key) then None else ReadAt(rows, loc, s)
  {
    hide KeyRange.Spans, DeleteRow, RowAt;
    if loc in rows {
      assert RowOk(rows[loc], t);
      DeleteRowReads(rows[loc], t, retention);
    }
    NoRowReads(s);
  }

  lemma NoRowReads(s: Time)
    ensures RowAt(NO_ROW, s) == None
  {
  }

  // ---------------------------------------------------------------------------
  // InMemoryStorage
  // ---------------------------------------------------------------------------

  ghost predicate CellBounded<T>(cell: Cell<T>, t: Time) {
    Ordered(cell) && Until(cell, t)
  }

  ghost predicate RowBounded(row: Row, t: Time) {
    CellBounded(row.exists_, t) && forall c :: c in row.columns ==> CellBounded(row.columns[c], t)
  }

  function Later(a: Time, b: Time): Time {
    if a < b then b else a
  }

  lemma {:induction false} PutBounded<T>(cell: Cell<T>, t: Time, v: T, u: Time)
    requires CellBounded(cell, u)
    ensures CellBounded(Put(cell, t, v), Later(t, u))
  {
    if cell != [] && cell[|cell| - 1].time > t {
      var front, last := cell[..|cell| - 1], cell[|cell| - 1];
      assert CellBounded(front, last.time - 1);
      PutBounded(front, t, v, last.time - 1);
    }
  }

  lemma StampBounded<T>(cell: Cell<T>, t: Time, v: T, retention: nat, u: Time)
    requires CellBounded(cell, u)
    ensures CellBounded(Stamp(cell, t, v, retention), Later(t, u))
  {
    PutBounded(cell, t, v, u);
    ExpireKeeps(Put(cell, t, v), t - retention);
  }

  lemma {:induction false} StampColumnsBounded(row: Row, t: Time, cols: seq<ColumnWrite>, retention: nat, u: Time)
    requires RowBounded(row, u) && t <= u
    ensures RowBounded(StampColumns(row, t, cols, retention), u)
    decreases |cols|
  {
    if cols != [] {
      var c := cols[0].column;
      StampBounded(Column(row, c), t, Valid(cols[0].value), retention, u);
      StampColumnsBounded(row.(columns := row.columns[c := Stamp(Column(row, c), t, Valid(cols[0].value), retention)]),
                          t, cols[1..], retention, u);
    }
  }

  lemma StampRowBounded(row: Row, t: Time, op: Op, retention: nat, u: Time)
    requires RowBounded(row, u) && t <= u
    ensures RowBounded(StampRow(row, t, op, retention), u)
  {
    match op
    case Write(cols) =>
      StampBounded(row.exists_, t, true, retention, u);
      StampColumnsBounded(if !Exists(row, t) || cols == [] then row.(exists_ := Stamp(row.exists_, t, true, retention))
                          else row,
                          t, cols, retention, u);
    case Delete =>
      StampBounded(row.exists_, t, false, retention, u);
      forall c | c in row.columns ensures CellBounded(Stamp(row.columns[c], t, Invalid, retention), u) {
        StampBounded(row.columns[c], t, Invalid, retention, u);
      }
    case Mark =>
      StampBounded(row.exists_, t, Exists(row, t), retention, u);
  }

  /** The rows of a copy taken at `t`: one version each, of the columns the schema lists. */
  function CopiedRow(row: Row, t: Time, columns: set<ColumnId>): Row {
    var data := ColumnsAt(row, t);
    Row([Version(t, true)], map c | c in data && c in columns :: [Version(t, Valid(data[c]))])
  }

  function Copied(store: Store, t: Time, columns: map<TableId, set<ColumnId>>): Store {
    map loc | loc in store && loc.table in columns && Exists(store[loc], t)
      :: CopiedRow(store[loc], t, columns[loc.table])
  }

  function OnlyColumns(data: Data, columns: set<ColumnId>): Data {
    map c | c in data && c in columns :: data[c]
  }

  lemma CopiedRowReads(row: Row, t: Time, columns: set<ColumnId>, s: Time)
    requires Exists(row, t) && s >= t
    ensures RowAt(CopiedRow(row, t, columns), s) == Some(OnlyColumns(ColumnsAt(row, t), columns))
  {
    var copy := CopiedRow(row, t, columns);
    forall c | c in copy.columns ensures ValueAt(copy.columns[c], s) == Some(Valid(ColumnsAt(row, t)[c])) {}
    assert ColumnsAt(copy, s) == OnlyColumns(ColumnsAt(row, t), columns);
  }

  /** A copy reads, at every time from `t` on, as the original reads at `t`. */
  lemma CopyReads(store: Store, t: Time, columns: map<TableId, set<ColumnId>>, loc: Loc, s: Time)
    requires s >= t
    ensures ReadAt(Copied(store, t, columns), loc, s) ==
            if loc.table in columns && ReadAt(store, loc, t).Some?
            then Some(OnlyColumns(ReadAt(store, loc, t).value, columns[loc.table]))
            else None
    ensures var was, copy := ReadAt(store, loc, t), ReadAt(Copied(store, t, columns), loc, s);
      && (copy.Some? <==> loc.table in columns && was.Some?)
      && (copy.Some? ==> forall c :: c in copy.value <==> c in was.value && c in columns[loc.table])
      && (copy.Some? ==> forall c :: c in copy.value ==> copy.value[c] == was.value[c])
  {
    hide ColumnsAt, CopiedRow;
    if loc in Copied(store, t, columns) {
      CopiedRowReads(store[loc], t, columns[loc.table], s);
    }
  }

  /** `latest` bounds every version of every table. */
  ghost predicate Noted(rows: Store, latest: map<TableId, Time>) {
    forall loc :: loc in rows ==> loc.table in latest && RowBounded(rows[loc], latest[loc.table])
  }

  function WithVersion(latest: map<TableId, Time>, table: TableId, t: Time): map<TableId, Time> {
    latest[table := if table in latest then Later(t, latest[table]) else t]
  }

  lemma StampNoted(rows: Store, latest: map<TableId, Time>, t: Time, loc: Loc, op: Op, retention: nat)
    requires Noted(rows, latest)
    ensures Noted(rows[loc := StampRow(Stored(rows, loc), t, op, retention)], WithVersion(latest, loc.table, t))
  {
    hide StampRow;
    StampRowBounded(Stored(rows, loc), t, op, retention, WithVersion(latest, loc.table, t)[loc.table]);
  }

  /** Tombstones for the rows of `targets` that the walk has left behind. */
  function Tombstoned(rows: Store, t: Time, retention: nat, targets: set<Loc>): Store {
    map loc | loc in rows :: if loc in targets then DeleteRow(rows[loc], t, retention) else rows[loc]
  }

  /** The rows of a range. */
  function InRange(rows: Store, table: TableId, range: KeyRange): set<Loc> {
    set loc | loc in rows && loc.table == table && range.Spans(loc.key)
  }

  lemma EmptyRange(rows: Store, table: TableId, range: KeyRange)
    requires range.IsEmpty()
    ensures InRange(rows, table, range) == {}
  {
    forall loc | loc in rows ensures !range.Spans(loc.key) { EmptySpansNothing(range, loc.key); }
  }

  function Visible(rows: Store, t: Time, locs: set<Loc>): map<Loc, Data> {
    map loc | loc in locs && loc in rows && Exists(rows[loc], t) :: ColumnsAt(rows[loc], t)
  }

  lemma ScanIsVisible(rows: Store, t: Time, table: TableId, range: KeyRange)
    ensures Scan(rows, t, table, range) == Visible(rows, t, InRange(rows, table, range))
  {
  }

  /** Row keys of one table: equally long, with one column order and no leftover flags. */
  ghost predicate RowKey(k: Key, order: seq<ColumnOrder>) {
    k.Follows(order) && k.IsRow() && |k.columns| == |k.nullsLast| == |order|
  }

  /** Deleting the point range of a row's key, as the flush does, deletes that row alone. */
  lemma PointDeleteIsOneRow(rows: Store, t: Time, loc: Loc, retention: nat, order: seq<ColumnOrder>)
    requires RowKey(loc.key, order)
    requires forall at :: at in rows && at.table == loc.table ==> RowKey(at.key, order)
    ensures Tombstoned(rows, t, retention, InRange(rows, loc.table, Point(loc.key))) ==
            FlushOp(rows, t, loc, Op.Delete, retention)
  {
    hide KeyRange.Spans, DeleteRow;
    forall at | at in rows && at.table == loc.table ensures Point(loc.key).Spans(at.key) <==> at == loc {
      PointSpansExtensions(loc.key, at.key, order);
      if loc.key.columns <= at.key.columns {
        assert loc.key.columns == at.key.columns;
        assert loc.key.descending == at.key.descending && loc.key.nullsLast == at.key.nullsLast;
      }
    }
    assert InRange(rows, loc.table, Point(loc.key)) == if loc in rows then {loc} else {};
  }

  class InMemoryStorage {
    var rows: Store
    var latest: map<TableId, Time>    // latest_version_, per table
    var retention: nat

    ghost predicate Valid()
      reads this
    {
      Noted(rows, latest)
    }

    constructor (retention: nat)
      ensures Valid() && rows == map[] && latest == map[] && this.retention == retention
    {
      rows, latest := map[], map[];
      this.retention := retention;
    }

    method NoteVersion(table: TableId, t: Time)
      modifies this`latest
      ensures latest == WithVersion(old(latest), table, t)
    {
      if table !in latest || latest[table] < t {
        latest := latest[table := t];
      }
    }

    /** Write and MarkWritten: the row is created on its first use. */
    method Stamped(t: Time, loc: Loc, op: Op)
      requires Valid() && !op.Delete?
      modifies this`rows, this`latest
      ensures Valid() && rows == FlushOp(old(rows), t, loc, op, retention)
    {
      hide StampRow, Noted;
      StampNoted(rows, latest, t, loc, op, retention);
      var row := if loc in rows then rows[loc] else NO_ROW;
      rows := rows[loc := StampRow(row, t, op, retention)];
      NoteVersion(loc.table, t);
    }

    /** Delete: every existing row of the range gets a tombstone. */
    method Delete(t: Time, table: TableId, range: KeyRange) returns (ok: bool)
      requires Valid()
      modifies this`rows, this`latest
      ensures Valid()
      ensures ok == range.IsClosedOpen()
      ensures rows == if ok then Tombstoned(old(rows), t, retention, InRange(old(rows), table, range)) else old(rows)
    {
      hide KeyRange.Spans, RowBounded, DeleteRow, Exists, Noted;
      if !range.IsClosedOpen() {
        return false;
      }
      ok := true;
      ghost var targets := InRange(rows, table, range);
      if range.IsEmpty() {
        EmptyRange(rows, table, range);
        return;
      }
      var todo := InRange(rows, table, range);
      while todo != {}
        invariant Valid()
        invariant todo <= targets
        invariant rows == Tombstoned(old(rows), t, retention, targets - todo)
        decreases |todo|
      {
        var loc :| loc in todo;
        assert loc in old(rows) && rows[loc] == old(rows)[loc] && loc.table == table;
        assert Tombstoned(old(rows), t, retention, targets - (todo - {loc})) ==
               rows[loc := DeleteRow(rows[loc], t, retention)];
        if Exists(rows[loc], t) {
          StampNoted(rows, latest, t, loc, Op.Delete, retention);
          NoteVersion(table, t);
          rows := rows[loc := DeleteRow(rows[loc], t, retention)];
        } else {
          DeleteMissing(rows[loc], t, retention);
        }
        todo := todo - {loc};
      }
    }

    /** HasVersionsAfter: the table's noted version answers most calls without a scan. */
    method HasVersionsAfter(t: Time, table: TableId, range: KeyRange) returns (found: bool)
      requires Valid()
      ensures found <==> VersionsAfter(rows, t, table, range)
    {
      hide KeyRange.Spans;
      if table !in latest || latest[table] <= t {
        return false;
      }
      if range.IsEmpty() {
        EmptyRange(rows, table, range);
        assert forall loc :: loc in rows && loc.table == table && range.Spans(loc.key) ==>
               loc in InRange(rows, table, range);
        return false;
      }
      var todo := InRange(rows, table, range);
      while todo != {}
        invariant todo <= InRange(rows, table, range)
        invariant forall loc :: loc in InRange(rows, table, range) && loc !in todo ==> !ChangedAfter(rows[loc], t)
        decreases |todo|
      {
        var loc :| loc in todo;
        var changed := RowChangedAfter(rows[loc], t);
        if changed {
          return true;
        }
        todo := todo - {loc};
      }
      assert forall loc :: loc in rows && loc.table == table && range.Spans(loc.key) ==>
             loc in InRange(rows, table, range);
      return false;
    }

    /** Read: the rows of a closed-open range that exist at `t`. */
    method Read(t: Time, table: TableId, range: KeyRange) returns (ok: bool, found: map<Loc, Data>)
      ensures ok == range.IsClosedOpen()
      ensures ok ==> found == Scan(rows, t, table, range)
    {
      hide KeyRange.Spans, Exists, ColumnsAt, Scan;
      found := map[];
      ScanIsVisible(rows, t, table, range);
      if !range.IsClosedOpen() {
        return false, found;
      }
      ok := true;
      if range.IsEmpty() {
        EmptyRange(rows, table, range);
        return;
      }
      var todo := InRange(rows, table, range);
      ghost var targets := todo;
      assert forall loc :: loc in todo ==> loc in rows;
      while todo != {}
        invariant todo <= targets
        invariant found == Visible(rows, t, targets - todo)
        decreases |todo|
      {
        var loc :| loc in todo;
        if Exists(rows[loc], t) {
          found := found[loc := ColumnsAt(rows[loc], t)];
        }
        todo := todo - {loc};
      }
    }

    /** CopyAt, into a store that holds nothing yet. */
    method CopyAt(t: Time, columns: map<TableId, set<ColumnId>>, destination: InMemoryStorage)
      requires destination != this && destination.rows == map[] && destination.latest == map[]
      modifies destination`rows, destination`latest
      ensures destination.Valid() && destination.rows == Copied(rows, t, columns)
    {
      hide Exists, CopiedRow, RowBounded;
      ghost var copy := Copied(rows, t, columns);
      var todo := set loc | loc in rows && loc.table in columns && Exists(rows[loc], t);
      while todo != {}
        invariant todo <= copy.Keys
        invariant destination.Valid()
        invariant forall table :: table in destination.latest ==> destination.latest[table] == t
        invariant destination.rows == copy - todo
        decreases |todo|
      {
        var loc :| loc in todo;
        CopiedRowBounded(rows[loc], t, columns[loc.table]);
        assert (copy - todo)[loc := copy[loc]] == copy - (todo - {loc});
        destination.NoteVersion(loc.table, t);
        destination.rows := destination.rows[loc := CopiedRow(rows[loc], t, columns[loc.table])];
        todo := todo - {loc};
      }
      assert copy - todo == copy;
    }
  }

  lemma CopiedRowBounded(row: Row, t: Time, columns: set<ColumnId>)
    ensures RowBounded(CopiedRow(row, t, columns), t)
  {
  }

  method RowChangedAfter(row: Row, t: Time) returns (changed: bool)
    ensures changed <==> ChangedAfter(row, t)
  {
    if CellChangedAfter(row.exists_, t) {
      return true;
    }
    var todo := row.columns.Keys;
    while todo != {}
      invariant todo <= row.columns.Keys
      invariant forall c :: c in row.columns && c !in todo ==> !CellChangedAfter(row.columns[c], t)
      decreases |todo|
    {
      var c :| c in todo;
      if CellChangedAfter(row.columns[c], t) {
        return true;
      }
      todo := todo - {c};
    }
    return false;
  }

  lemma DeleteMissing(row: Row, t: Time, retention: nat)
    requires !Exists(row, t)
    ensures DeleteRow(row, t, retention) == row
  {
  }
}
