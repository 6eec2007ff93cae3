/** ON DELETE CASCADE over the four key shapes (backend/actions/foreign_key_actions.cc). */
module Cascade {
  import opened Collections
  import opened Keys
  import opened KeyRanges

  type ColumnId = nat

  type Row = map<ColumnId, Value>

  predicate Has(row: Row, columns: seq<ColumnId>) {
    forall i :: 0 <= i < |columns| ==> columns[i] in row
  }

  /** The values of `columns`, in that order: a key, or a foreign key tuple. */
  function Tuple(row: Row, columns: seq<ColumnId>): seq<Value>
    requires Has(row, columns)
  {
    seq(|columns|, i requires 0 <= i < |columns| => row[columns[i]])
  }

  // ---------------------------------------------------------------------------
  // Shapes
  // ---------------------------------------------------------------------------

  datatype Shape = NoPrefix | InOrder | InOrderPrefix | OutOfOrder

  method AreColumnsOrderedPrefixOfPK(columns: seq<ColumnId>, key: seq<ColumnId>) returns (r: bool)
    ensures r <==> columns <= key
  {
    if |columns| > |key| {
      return false;
    }
    for i := 0 to |columns|
      invariant forall j :: 0 <= j < i ==> columns[j] == key[j]
    {
      if columns[i] != key[i] {
        return false;
      }
    }
    return true;
  }

  method AreColumnsUnorderedPrefixOfPK(columns: seq<ColumnId>, key: seq<ColumnId>) returns (r: bool)
    requires |columns| <= |key|
    ensures r <==> forall i :: 0 <= i < |columns| ==> key[i] in columns
  {
    var columnSet := {};
    for i := 0 to |columns|
      invariant forall c :: c in columnSet <==> c in columns[..i]
    {
      columnSet := columnSet + {columns[i]};
    }
    assert columns[..|columns|] == columns;
    for i := 0 to |columns|
      invariant forall j :: 0 <= j < i ==> key[j] in columns
    {
      if key[i] !in columnSet {
        return false;
      }
    }
    return true;
  }

  /** The leading key columns are the columns, in some order. */
  ghost predicate LeadsWith(key: seq<ColumnId>, columns: seq<ColumnId>) {
    |columns| <= |key| && forall c :: c in key[..|columns|] <==> c in columns
  }

  ghost function ShapeOf(columns: seq<ColumnId>, key: seq<ColumnId>): Shape {
    if columns == key then InOrder
    else if columns <= key then InOrderPrefix
    else if LeadsWith(key, columns) then OutOfOrder
    else NoPrefix
  }

  /** Without repeated columns, containing the leading key columns is being a permutation of them. */
  lemma {:induction false} LeadingPermutes(columns: seq<ColumnId>, some: seq<ColumnId>)
    requires Distinct(columns) && Distinct(some) && |some| == |columns|
    requires forall i :: 0 <= i < |some| ==> some[i] in columns
    ensures forall c :: c in some <==> c in columns
    decreases |columns|
  {
    if columns != [] {
      var last := some[|some| - 1];
      var k :| 0 <= k < |columns| && columns[k] == last;
      var rest := columns[..k] + columns[k + 1..];
      var front := some[..|some| - 1];
      forall i | 0 <= i < |front| ensures front[i] in rest {
        var m :| 0 <= m < |columns| && columns[m] == some[i];
        assert rest[if m < k then m else m - 1] == front[i];
      }
      LeadingPermutes(rest, front);
      forall c ensures c in some <==> c in columns {
        assert some == front + [last];
        assert columns == columns[..k] + [last] + columns[k + 1..];
        assert c in rest <==> c in front;
      }
    }
  }

  method GetKeyPrefixShape(columns: seq<ColumnId>, key: seq<ColumnId>) returns (shape: Shape)
    requires Distinct(columns) && Distinct(key)
    ensures shape == ShapeOf(columns, key)
    ensures shape == InOrder <==> columns == key
    ensures shape == InOrderPrefix <==> columns < key
    ensures shape == OutOfOrder <==>
            !(columns <= key) && |columns| <= |key| && forall i :: 0 <= i < |columns| ==> key[i] in columns
  {
    if |columns| > |key| {
      return NoPrefix;
    }
    var ordered := AreColumnsOrderedPrefixOfPK(columns, key);
    if ordered {
      if |columns| < |key| {
        return InOrderPrefix;
      }
      return InOrder;
    }
    var unordered := AreColumnsUnorderedPrefixOfPK(columns, key);
    if unordered {
      LeadingPermutes(columns, key[..|columns|]);
      return OutOfOrder;
    }
    ghost var i :| 0 <= i < |columns| && key[i] !in columns;
    assert key[..|columns|][i] !in columns;
    return NoPrefix;
  }

  // ---------------------------------------------------------------------------
  // Positions
  // ---------------------------------------------------------------------------

  datatype Position = Missing | At(index: nat)

  /** Where each key column stands among the columns. */
  ghost predicate ArePositions(columns: seq<ColumnId>, key: seq<ColumnId>, order: seq<Position>) {
    |order| == |key| &&
    forall i :: 0 <= i < |key| ==>
      match order[i]
      case At(j) => j < |columns| && columns[j] == key[i]
      case Missing => key[i] !in columns
  }

  method GetPrimaryKeyColumnPositions(columns: seq<ColumnId>, key: seq<ColumnId>) returns (order: seq<Position>)
    ensures ArePositions(columns, key, order)
  {
    var positions: map<ColumnId, nat> := map[];
    for i := 0 to |columns|
      invariant forall c :: c in positions <==> c in columns[..i]
      invariant forall c :: c in positions ==> positions[c] < i && columns[positions[c]] == c
    {
      positions := positions[columns[i] := i];
    }
    assert columns[..|columns|] == columns;
    order := [];
    for i := 0 to |key|
      invariant ArePositions(columns, key[..i], order)
    {
      if key[i] in positions {
        order := order + [At(positions[key[i]])];
      } else {
        order := order + [Missing];
      }
    }
    assert key[..|key|] == key;
  }

  /** How many key columns come before the first missing one. */
  function Leading(order: seq<Position>): (n: nat)
    ensures n <= |order| && (forall i :: 0 <= i < n ==> order[i].At?) && (n < |order| ==> order[n].Missing?)
  {
    if order == [] || order[0].Missing? then 0 else 1 + Leading(order[1..])
  }

  /** The values in key column order, up to the first missing column. */
  function Arranged(values: seq<Value>, order: seq<Position>): seq<Value>
    requires forall i :: 0 <= i < |order| && order[i].At? ==> order[i].index < |values|
  {
    seq(Leading(order), i requires 0 <= i < Leading(order) => values[order[i].index])
  }

  method ComputePk(values: seq<Value>, order: seq<Position>) returns (key: seq<Value>)
    requires forall i :: 0 <= i < |order| && order[i].At? ==> order[i].index < |values|
    ensures key == Arranged(values, order)
  {
    key := [];
    for i := 0 to |order|
      invariant |key| == i <= Leading(order)
      invariant forall k :: 0 <= k < i ==> key[k] == values[order[k].index]
    {
      if order[i].Missing? {
        break;
      }
      key := key + [values[order[i].index]];
    }
  }

  // ---------------------------------------------------------------------------
  // Which rows a prefix read finds
  // ---------------------------------------------------------------------------

  /** Reading the range of a key finds exactly the rows whose key extends it. */
  lemma RangeIsPrefix(prefix: seq<Value>, key: seq<Value>)
    ensures Point(FromValues(prefix)).Spans(FromValues(key)) <==> prefix <= key
  {
    var n := if |prefix| < |key| then |key| else |prefix|;
    PointSpansExtensions(FromValues(prefix), FromValues(key), seq(n, i => ColumnOrder(false, false)));
  }

  lemma LeadingOf(columns: seq<ColumnId>, key: seq<ColumnId>, order: seq<Position>)
    requires Distinct(columns) && Distinct(key) && LeadsWith(key, columns) && ArePositions(columns, key, order)
    ensures Leading(order) == |columns|
  {
    var n := |columns|;
    forall i | 0 <= i < n ensures order[i].At? {
      assert key[..n][i] in columns;
    }
    if n < |key| {
      assert key[n] !in key[..n];
    }
  }

  /** A tuple arranged by key columns is a prefix of a row's key exactly if it is the row's tuple. */
  lemma ArrangedFinds(columns: seq<ColumnId>, key: seq<ColumnId>, order: seq<Position>, tuple: seq<Value>, row: Row)
    requires Distinct(columns) && Distinct(key) && LeadsWith(key, columns) && ArePositions(columns, key, order)
    requires |tuple| == |columns| && Has(row, columns) && Has(row, key)
    ensures Arranged(tuple, order) <= Tuple(row, key) <==> Tuple(row, columns) == tuple
  {
    var n := |columns|;
    LeadingOf(columns, key, order);
    var arranged := Arranged(tuple, order);
    if arranged <= Tuple(row, key) {
      forall j | 0 <= j < n ensures row[columns[j]] == tuple[j] {
        assert columns[j] in key[..n];
        var i :| 0 <= i < n && key[i] == columns[j];
        assert arranged[i] == Tuple(row, key)[i];
        assert order[i].index == j;
      }
    }
    if Tuple(row, columns) == tuple {
      forall i | 0 <= i < n ensures arranged[i] == Tuple(row, key)[i] {
        assert Tuple(row, columns)[order[i].index] == tuple[order[i].index];
      }
    }
  }

  lemma PrefixFinds(columns: seq<ColumnId>, key: seq<ColumnId>, tuple: seq<Value>, row: Row)
    requires columns <= key && |tuple| == |columns| && Has(row, columns) && Has(row, key)
    ensures tuple <= Tuple(row, key) <==> Tuple(row, columns) == tuple
  {
    assert Tuple(row, key)[..|columns|] == Tuple(row, columns);
  }

  /** From an index key that holds every primary key column, the primary key. */
  lemma ArrangedIsKey(columns: seq<ColumnId>, key: seq<ColumnId>, order: seq<Position>, row: Row)
    requires ArePositions(columns, key, order) && Has(row, columns) && Has(row, key)
    requires forall i :: 0 <= i < |key| ==> key[i] in columns
    ensures Arranged(Tuple(row, columns), order) == Tuple(row, key)
  {
    assert Leading(order) == |key|;
  }

  // ---------------------------------------------------------------------------
  // The effector
  // ---------------------------------------------------------------------------

  /**
   * `indexKey` is the key of the referencing index's data table, where there is one. The
   * two sets are the columns of the referenced and the referencing table that may be NULL.
   */
  datatype ForeignKey = ForeignKey(
    referenced: seq<ColumnId>,
    referencedPk: seq<ColumnId>,
    referencing: seq<ColumnId>,
    referencingPk: seq<ColumnId>,
    indexKey: seq<ColumnId>,
    referencedNullable: set<ColumnId>,
    referencingNullable: set<ColumnId>)
  {
    ghost predicate Valid() {
      && Distinct(referenced) && Distinct(referencedPk) && Distinct(referencing) && Distinct(referencingPk)
      && |referenced| == |referencing|
      && (ShapeOf(referencing, referencingPk).NoPrefix? ==>
            && Distinct(indexKey) && LeadsWith(indexKey, referencing)
            && forall i :: 0 <= i < |referencingPk| ==> referencingPk[i] in indexKey)
    }
  }

  type Rows = map<seq<Value>, Row>

  ghost predicate RowsOk(rows: Rows, pk: seq<ColumnId>, columns: seq<ColumnId>) {
    forall k :: k in rows ==> Has(rows[k], pk) && Has(rows[k], columns) && Tuple(rows[k], pk) == k
  }

  /** Only nullable columns are NULL. */
  ghost predicate NullsIn(row: Row, nullable: set<ColumnId>) {
    forall c :: c in row && row[c] == Null ==> c in nullable
  }

  predicate NoNulls(tuple: seq<Value>) {
    forall i :: 0 <= i < |tuple| ==> tuple[i] != Null
  }

  /** The keys of the index data table: the rows whose foreign key columns are not NULL. */
  function IndexKeys(rows: Rows, fk: ForeignKey): set<seq<Value>>
    requires forall k :: k in rows ==> Has(rows[k], fk.referencing) && Has(rows[k], fk.indexKey)
  {
    set k | k in rows && NoNulls(Tuple(rows[k], fk.referencing)) :: Tuple(rows[k], fk.indexKey)
  }

  ghost predicate DataOk(fk: ForeignKey, rows: Rows) {
    RowsOk(rows, fk.referencingPk, fk.referencing) &&
    (forall k :: k in rows ==> NullsIn(rows[k], fk.referencingNullable)) &&
    (ShapeOf(fk.referencing, fk.referencingPk).NoPrefix? ==> RowsOk(rows, fk.referencingPk, fk.indexKey))
  }

  /** The keys of the rows whose foreign key columns have these values. */
  ghost function Matching(fk: ForeignKey, rows: Rows, tuple: seq<Value>): set<seq<Value>>
    requires DataOk(fk, rows)
  {
    set k | k in rows && Tuple(rows[k], fk.referencing) == tuple
  }

  /** The keys of the rows that reference the tuple: NULL references nothing. */
  ghost function Referencers(fk: ForeignKey, rows: Rows, tuple: seq<Value>): set<seq<Value>>
    requires DataOk(fk, rows)
  {
    if NoNulls(tuple) then Matching(fk, rows, tuple) else {}
  }

  /** A row references a tuple exactly if, column by column, it has its values and none of them is NULL. */
  lemma ReferencersMeaning(fk: ForeignKey, rows: Rows, row: Row, k: seq<Value>)
    requires fk.Valid() && DataOk(fk, rows) && Has(row, fk.referenced)
    ensures k in Matching(fk, rows, Tuple(row, fk.referenced)) <==>
            k in rows && forall i :: 0 <= i < |fk.referenced| ==> rows[k][fk.referencing[i]] == row[fk.referenced[i]]
    ensures k in Referencers(fk, rows, Tuple(row, fk.referenced)) <==>
            && k in Matching(fk, rows, Tuple(row, fk.referenced))
            && forall i :: 0 <= i < |fk.referenced| ==> row[fk.referenced[i]] != Null
  {
    var tuple := Tuple(row, fk.referenced);
    assert forall i :: 0 <= i < |tuple| ==> tuple[i] == row[fk.referenced[i]];
    if k in rows {
      var other := Tuple(rows[k], fk.referencing);
      assert forall i :: 0 <= i < |other| ==> other[i] == rows[k][fk.referencing[i]];
      if forall i :: 0 <= i < |fk.referenced| ==> rows[k][fk.referencing[i]] == row[fk.referenced[i]] {
        assert other == tuple;
      }
    }
  }

  /** A cursor over the range of the prefix: it finds the keys that extend it. */
  method Cursor(keys: set<seq<Value>>, prefix: seq<Value>) returns (found: seq<seq<Value>>)
    ensures forall k :: k in found <==> k in keys && prefix <= k
  {
    hide KeyRange.Spans;
    found := [];
    var rest := keys;
    while rest != {}
      invariant rest <= keys
      invariant forall k :: k in found <==> k in keys && k !in rest && prefix <= k
      decreases rest
    {
      var k :| k in rest;
      RangeIsPrefix(prefix, k);
      if Point(FromValues(prefix)).Spans(FromValues(k)) {
        found := found + [k];
      }
      rest := rest - {k};
    }
  }

  /** The rows one arrangement of the tuple finds, by primary key. */
  method DeleteByPrefix(rows: Rows, prefix: seq<Value>, deletes: seq<seq<Value>>) returns (more: seq<seq<Value>>)
    ensures forall k :: k in more <==> k in deletes || (k in rows && prefix <= k)
  {
    var cursor := Cursor(rows.Keys, prefix);
    more := deletes;
    for i := 0 to |cursor|
      invariant forall k :: k in more <==> k in deletes || k in cursor[..i]
    {
      more := more + [cursor[i]];
    }
    assert cursor[..|cursor|] == cursor;
  }

  /** An index key that extends the arranged tuple belongs to a referencing row, and conversely. */
  lemma IndexFinds(fk: ForeignKey, rows: Rows, order: seq<Position>, tuple: seq<Value>, k: seq<Value>)
    requires fk.Valid() && DataOk(fk, rows) && ShapeOf(fk.referencing, fk.referencingPk).NoPrefix?
    requires ArePositions(fk.referencing, fk.indexKey, order) && |tuple| == |fk.referencing| && k in rows
    ensures Tuple(rows[k], fk.indexKey) in IndexKeys(rows, fk) &&
            Arranged(tuple, order) <= Tuple(rows[k], fk.indexKey) <==>
            Tuple(rows[k], fk.referencing) == tuple && NoNulls(tuple)
  {
    hide LeadsWith, Arranged, ShapeOf;
    ArrangedFinds(fk.referencing, fk.indexKey, order, tuple, rows[k]);
    if Tuple(rows[k], fk.referencing) == tuple && !NoNulls(tuple) {
      forall k' | k' in rows && Tuple(rows[k'], fk.indexKey) == Tuple(rows[k], fk.indexKey)
        ensures !NoNulls(Tuple(rows[k'], fk.referencing))
      {
        ArrangedFinds(fk.referencing, fk.indexKey, order, tuple, rows[k']);
      }
    }
  }

  method ProcessDeleteForNonPKReferencingKey(fk: ForeignKey, rows: Rows, tuple: seq<Value>, deletes: seq<seq<Value>>)
    returns (more: seq<seq<Value>>)
    requires fk.Valid() && DataOk(fk, rows) && ShapeOf(fk.referencing, fk.referencingPk).NoPrefix? &&
             |tuple| == |fk.referencing|
    ensures forall k :: k in more <==> k in deletes || (k in Matching(fk, rows, tuple) && NoNulls(tuple))
  {
    hide LeadsWith, Arranged, ShapeOf, ArePositions;
    var order := GetPrimaryKeyColumnPositions(fk.referencing, fk.indexKey);
    assert forall i :: 0 <= i < |order| && order[i].At? ==> order[i].index < |tuple| by {
      PositionsBound(fk.referencing, fk.indexKey, order);
    }
    var prefix := ComputePk(tuple, order);
    var index := IndexKeys(rows, fk);
    var cursor := Cursor(index, prefix);
    var keyOrder := GetPrimaryKeyColumnPositions(fk.indexKey, fk.referencingPk);
    PositionsBound(fk.indexKey, fk.referencingPk, keyOrder);
    more := deletes;
    for i := 0 to |cursor|
      invariant forall k :: k in more <==>
                  k in deletes || exists j :: 0 <= j < i && cursor[j] in index && k == Arranged(cursor[j], keyOrder)
    {
      assert cursor[i] in cursor;
      var key := ComputePk(cursor[i], keyOrder);
      more := more + [key];
    }
    forall k ensures k in more <==> k in deletes || (k in Matching(fk, rows, tuple) && NoNulls(tuple)) {
      CursorMeans(fk, rows, order, keyOrder, tuple, cursor, k);
    }
  }

  lemma PositionsBound(columns: seq<ColumnId>, key: seq<ColumnId>, order: seq<Position>)
    requires ArePositions(columns, key, order)
    ensures forall i :: 0 <= i < |order| && order[i].At? ==> order[i].index < |columns|
  {
  }

  /** The primary keys computed from the index rows found are those of the referencing rows. */
  lemma CursorMeans(fk: ForeignKey, rows: Rows, order: seq<Position>, keyOrder: seq<Position>, tuple: seq<Value>,
                    cursor: seq<seq<Value>>, k: seq<Value>)
    requires fk.Valid() && DataOk(fk, rows) && ShapeOf(fk.referencing, fk.referencingPk).NoPrefix?
    requires ArePositions(fk.referencing, fk.indexKey, order) && ArePositions(fk.indexKey, fk.referencingPk, keyOrder)
    requires |tuple| == |fk.referencing|
    requires forall e :: e in cursor <==> e in IndexKeys(rows, fk) && Arranged(tuple, order) <= e
    requires forall e :: e in IndexKeys(rows, fk) ==> |e| == |fk.indexKey|
    ensures (exists j ::
             0 <= j < |cursor| && cursor[j] in IndexKeys(rows, fk) && k == Arranged(cursor[j], keyOrder)) <==>
            k in Matching(fk, rows, tuple) && NoNulls(tuple)
  {
    hide LeadsWith, Arranged, ShapeOf;
    if j :| 0 <= j < |cursor| && cursor[j] in IndexKeys(rows, fk) && k == Arranged(cursor[j], keyOrder) {
      var k' :| k' in rows && NoNulls(Tuple(rows[k'], fk.referencing)) && Tuple(rows[k'], fk.indexKey) == cursor[j];
      ArrangedIsKey(fk.indexKey, fk.referencingPk, keyOrder, rows[k']);
      assert cursor[j] in cursor;
      IndexFinds(fk, rows, order, tuple, k');
    }
    if k in Matching(fk, rows, tuple) && NoNulls(tuple) {
      ArrangedIsKey(fk.indexKey, fk.referencingPk, keyOrder, rows[k]);
      IndexFinds(fk, rows, order, tuple, k);
      var e := Tuple(rows[k], fk.indexKey);
      assert e in cursor;
    }
  }

  method ProcessDeleteForUnorderedReferencingKey(fk: ForeignKey, rows: Rows, tuple: seq<Value>,
                                                 deletes: seq<seq<Value>>)
    returns (more: seq<seq<Value>>)
    requires fk.Valid() && DataOk(fk, rows) && ShapeOf(fk.referencing, fk.referencingPk).OutOfOrder? &&
             |tuple| == |fk.referencing|
    ensures forall k :: k in more <==> k in deletes || k in Matching(fk, rows, tuple)
  {
    hide Arranged, LeadsWith;
    var order := GetPrimaryKeyColumnPositions(fk.referencing, fk.referencingPk);
    PositionsBound(fk.referencing, fk.referencingPk, order);
    var prefix := ComputePk(tuple, order);
    more := DeleteByPrefix(rows, prefix, deletes);
    forall k | k in rows ensures prefix <= k <==> Tuple(rows[k], fk.referencing) == tuple {
      ArrangedFinds(fk.referencing, fk.referencingPk, order, tuple, rows[k]);
    }
  }

  /**
   * Deletes exactly the rows whose foreign key columns equal the tuple; through the index, which
   * leaves NULLs out, only for a tuple without NULLs.
   */
  method ProcessDeleteByKey(fk: ForeignKey, rows: Rows, tuple: seq<Value>, deletes: seq<seq<Value>>)
    returns (more: seq<seq<Value>>)
    requires fk.Valid() && DataOk(fk, rows) && |tuple| == |fk.referencing|
    ensures forall k :: k in more <==> k in deletes || k in Cascaded(fk, rows, tuple)
  {
    var shape := GetKeyPrefixShape(fk.referencing, fk.referencingPk);
    match shape
    case InOrder =>
      more := DeleteByPrefix(rows, tuple, deletes);
    case InOrderPrefix =>
      more := DeleteByPrefix(rows, tuple, deletes);
      forall k | k in rows ensures tuple <= k <==> Tuple(rows[k], fk.referencing) == tuple {
        PrefixFinds(fk.referencing, fk.referencingPk, tuple, rows[k]);
      }
    case OutOfOrder =>
      more := ProcessDeleteForUnorderedReferencingKey(fk, rows, tuple, deletes);
    case NoPrefix =>
      more := ProcessDeleteForNonPKReferencingKey(fk, rows, tuple, deletes);
  }

  ghost function Cascaded(fk: ForeignKey, rows: Rows, tuple: seq<Value>): set<seq<Value>>
    requires DataOk(fk, rows)
  {
    if ShapeOf(fk.referencing, fk.referencingPk).NoPrefix? && !NoNulls(tuple) then {} else Matching(fk, rows, tuple)
  }

  // ---------------------------------------------------------------------------
  // The referenced side
  // ---------------------------------------------------------------------------

  function IndexIn(columns: seq<ColumnId>, c: ColumnId): (i: nat)
    requires c in columns
    ensures i < |columns| && columns[i] == c
  {
    if columns[0] == c then 0 else 1 + IndexIn(columns[1..], c)
  }

  /**
   * The tuple EffectForUnorderedReferencedKey computes: each place takes the key value at its own
   * column's place in the foreign key.
   */
  ghost function Swapped(fk: ForeignKey, key: seq<Value>): seq<Value>
    requires LeadsWith(fk.referencedPk, fk.referenced) && |key| == |fk.referencedPk|
  {
    seq(|fk.referenced|, i requires 0 <= i < |fk.referenced| =>
      assert fk.referencedPk[..|fk.referenced|][i] in fk.referenced;
      key[IndexIn(fk.referenced, fk.referencedPk[i])])
  }

  /** The tuple the cascade looks for when the row with this key is deleted. */
  ghost function Sought(fk: ForeignKey, key: seq<Value>, row: Row): seq<Value>
    requires Has(row, fk.referenced) && Has(row, fk.referencedPk) && Tuple(row, fk.referencedPk) == key
  {
    if ShapeOf(fk.referenced, fk.referencedPk).OutOfOrder? then Swapped(fk, key) else Tuple(row, fk.referenced)
  }

  lemma SwappedIsArranged(fk: ForeignKey, key: seq<Value>, order: seq<Position>)
    requires fk.Valid() && LeadsWith(fk.referencedPk, fk.referenced) && |key| == |fk.referencedPk|
    requires ArePositions(fk.referenced, fk.referencedPk, order)
    ensures (forall i :: 0 <= i < |order| && order[i].At? ==> order[i].index < |key|) &&
            Arranged(key, order) == Swapped(fk, key)
  {
    LeadingOf(fk.referenced, fk.referencedPk, order);
    PositionsBound(fk.referenced, fk.referencedPk, order);
    forall i | 0 <= i < |fk.referenced| ensures Arranged(key, order)[i] == Swapped(fk, key)[i] {
      assert fk.referencedPk[..|fk.referenced|][i] in fk.referenced;
    }
  }

  /** ForeignKeyActionEffector::Effect for the delete of an existing row. */
  method Effect(fk: ForeignKey, referencedRows: Rows, key: seq<Value>, rows: Rows) returns (deletes: seq<seq<Value>>)
    requires fk.Valid() && DataOk(fk, rows)
    requires RowsOk(referencedRows, fk.referencedPk, fk.referenced) && key in referencedRows
    ensures forall k :: k in deletes <==> k in Cascaded(fk, rows, Sought(fk, key, referencedRows[key]))
  {
    hide Cascaded, LeadsWith, DataOk, Arranged;
    var n := |fk.referenced|;
    var shape := GetKeyPrefixShape(fk.referenced, fk.referencedPk);
    ghost var row := referencedRows[key];
    match shape
    case InOrder =>
      deletes := ProcessDeleteByKey(fk, rows, key, []);
    case InOrderPrefix =>
      assert key[..n] == Tuple(row, fk.referenced);
      deletes := ProcessDeleteByKey(fk, rows, key[..n], []);
    case OutOfOrder =>
      var order := GetPrimaryKeyColumnPositions(fk.referenced, fk.referencedPk);
      SwappedIsArranged(fk, key, order);
      var tuple := ComputePk(key, order);
      deletes := ProcessDeleteByKey(fk, rows, tuple, []);
    case NoPrefix =>
      deletes := [];
      var cursor := Cursor(referencedRows.Keys, key);
      assert key in cursor;
      for i := 0 to |cursor|
        invariant forall k :: k in deletes ==> k in Cascaded(fk, rows, Tuple(row, fk.referenced))
        invariant i > 0 ==> forall k :: k in Cascaded(fk, rows, Tuple(row, fk.referenced)) ==> k in deletes
      {
        assert cursor[i] in cursor;
        assert cursor[i] == key;
        deletes := ProcessDeleteByKey(fk, rows, Tuple(referencedRows[cursor[i]], fk.referenced), deletes);
      }
  }

  // ---------------------------------------------------------------------------
  // Exactness
  // ---------------------------------------------------------------------------

  /** A row of the referenced table. */
  ghost predicate ReferencedRow(fk: ForeignKey, row: Row) {
    Has(row, fk.referenced) && Has(row, fk.referencedPk) && NullsIn(row, fk.referencedNullable)
  }

  /** The cascade deletes exactly the rows that reference the deleted row. */
  ghost predicate ExactFor(fk: ForeignKey, row: Row, rows: Rows)
    requires ReferencedRow(fk, row) && DataOk(fk, rows)
  {
    Cascaded(fk, rows, Sought(fk, Tuple(row, fk.referencedPk), row)) == Referencers(fk, rows, Tuple(row, fk.referenced))
  }

  ghost predicate SwapsBack(fk: ForeignKey, i: nat)
    requires i < |fk.referenced| <= |fk.referencedPk|
  {
    && fk.referenced[i] in fk.referencedPk && fk.referencedPk[i] in fk.referenced
    && IndexIn(fk.referenced, fk.referencedPk[i]) == IndexIn(fk.referencedPk, fk.referenced[i])
  }

  /** The order of the referenced columns among the key columns, taken twice, is the identity. */
  ghost predicate SelfInverse(fk: ForeignKey)
    requires LeadsWith(fk.referencedPk, fk.referenced)
  {
    forall i :: 0 <= i < |fk.referenced| ==> SwapsBack(fk, i)
  }

  lemma BothListed(fk: ForeignKey, i: nat)
    requires LeadsWith(fk.referencedPk, fk.referenced) && i < |fk.referenced|
    ensures fk.referencedPk[i] in fk.referenced && fk.referenced[i] in fk.referencedPk
  {
    var n := |fk.referenced|;
    assert fk.referencedPk[..n][i] in fk.referenced;
    assert fk.referenced[i] in fk.referencedPk[..n];
  }

  /** Place `i` of the tuple sought holds the value wanted there, if the two indices agree. */
  lemma SwappedAt(fk: ForeignKey, row: Row, i: nat)
    requires fk.Valid() && LeadsWith(fk.referencedPk, fk.referenced) && i < |fk.referenced|
    requires Has(row, fk.referenced) && Has(row, fk.referencedPk)
    ensures fk.referencedPk[i] in fk.referenced && fk.referenced[i] in fk.referencedPk
    ensures var key := Tuple(row, fk.referencedPk);
      && Swapped(fk, key)[i] == key[IndexIn(fk.referenced, fk.referencedPk[i])]
      && Tuple(row, fk.referenced)[i] == key[IndexIn(fk.referencedPk, fk.referenced[i])]
  {
    BothListed(fk, i);
  }

  lemma SoughtIsReferenced(fk: ForeignKey, row: Row)
    requires fk.Valid() && Has(row, fk.referenced) && Has(row, fk.referencedPk)
    requires ShapeOf(fk.referenced, fk.referencedPk).OutOfOrder? ==> SelfInverse(fk)
    ensures Sought(fk, Tuple(row, fk.referencedPk), row) == Tuple(row, fk.referenced)
  {
    if ShapeOf(fk.referenced, fk.referencedPk).OutOfOrder? {
      forall i | 0 <= i < |fk.referenced|
        ensures Swapped(fk, Tuple(row, fk.referencedPk))[i] == Tuple(row, fk.referenced)[i]
      {
        assert SwapsBack(fk, i);
        SwappedAt(fk, row, i);
      }
    }
  }

  /** A row of the referencing table with the given foreign key tuple. */
  ghost function RowWith(fk: ForeignKey, tuple: seq<Value>): Row
    requires |tuple| == |fk.referencing|
  {
    map c | c in fk.referencing + fk.referencingPk + fk.indexKey ::
      if c in fk.referencing then tuple[IndexIn(fk.referencing, c)] else Of(0)
  }

  lemma RowWithTuple(fk: ForeignKey, tuple: seq<Value>)
    requires fk.Valid() && |tuple| == |fk.referencing|
    ensures var row := RowWith(fk, tuple);
      Has(row, fk.referencing) && Has(row, fk.referencingPk) && Has(row, fk.indexKey) &&
      Tuple(row, fk.referencing) == tuple
  {
    var row := RowWith(fk, tuple);
    forall i | 0 <= i < |tuple| ensures fk.referencing[i] in row && row[fk.referencing[i]] == tuple[i] {
      assert IndexIn(fk.referencing, fk.referencing[i]) == i;
    }
  }

  /** The key whose values are the places they stand in. */
  ghost function Numbered(columns: seq<ColumnId>): Row {
    map c | c in columns :: Of(IndexIn(columns, c))
  }

  /** The referencing table with that one row. */
  ghost function RowsWith(fk: ForeignKey, tuple: seq<Value>): Rows
    requires fk.Valid() && |tuple| == |fk.referencing|
  {
    RowWithTuple(fk, tuple);
    map[Tuple(RowWith(fk, tuple), fk.referencingPk) := RowWith(fk, tuple)]
  }

  /** The tuple is NULL only where the referencing columns may be. */
  ghost predicate CanBeReferencing(fk: ForeignKey, tuple: seq<Value>) {
    && |tuple| == |fk.referencing|
    && forall i :: 0 <= i < |tuple| && tuple[i] == Null ==> fk.referencing[i] in fk.referencingNullable
  }

  lemma RowWithNulls(fk: ForeignKey, tuple: seq<Value>)
    requires fk.Valid() && CanBeReferencing(fk, tuple)
    ensures NullsIn(RowWith(fk, tuple), fk.referencingNullable)
  {
    var row := RowWith(fk, tuple);
    forall c | c in row && row[c] == Null ensures c in fk.referencingNullable {
      assert c in fk.referencing;
      assert tuple[IndexIn(fk.referencing, c)] == Null;
    }
  }

  lemma RowsWithMatching(fk: ForeignKey, tuple: seq<Value>)
    requires fk.Valid() && CanBeReferencing(fk, tuple)
    ensures DataOk(fk, RowsWith(fk, tuple))
    ensures forall other ::
              Matching(fk, RowsWith(fk, tuple), other) == if other == tuple then RowsWith(fk, tuple).Keys else {}
    ensures RowsWith(fk, tuple).Keys != {}
  {
    hide RowWith;
    RowWithTuple(fk, tuple);
    RowWithNulls(fk, tuple);
    var k := Tuple(RowWith(fk, tuple), fk.referencingPk);
    assert RowsWith(fk, tuple).Keys == {k};
  }

  lemma NumberedKey(fk: ForeignKey)
    requires fk.Valid() && LeadsWith(fk.referencedPk, fk.referenced)
    ensures var row := Numbered(fk.referencedPk);
      ReferencedRow(fk, row) && NoNulls(Tuple(row, fk.referenced)) &&
      forall j :: 0 <= j < |fk.referencedPk| ==> Tuple(row, fk.referencedPk)[j] == Of(j)
  {
    var row := Numbered(fk.referencedPk);
    forall j | 0 <= j < |fk.referenced| ensures fk.referenced[j] in row && row[fk.referenced[j]] != Null {
      BothListed(fk, j);
    }
    forall j | 0 <= j < |fk.referencedPk| ensures fk.referencedPk[j] in row && row[fk.referencedPk[j]] == Of(j) {
      assert IndexIn(fk.referencedPk, fk.referencedPk[j]) == j;
    }
  }

  lemma NotSelfInverseAt(fk: ForeignKey) returns (i: nat)
    requires LeadsWith(fk.referencedPk, fk.referenced) && !SelfInverse(fk)
    ensures i < |fk.referenced| && fk.referencedPk[i] in fk.referenced && fk.referenced[i] in fk.referencedPk
    ensures IndexIn(fk.referenced, fk.referencedPk[i]) != IndexIn(fk.referencedPk, fk.referenced[i])
  {
    i :| 0 <= i < |fk.referenced| && !SwapsBack(fk, i);
    BothListed(fk, i);
  }

  /** If the order is not its own inverse, the tuple sought for the numbered key is not the one wanted. */
  lemma SoughtDiffers(fk: ForeignKey)
    requires fk.Valid() && ShapeOf(fk.referenced, fk.referencedPk).OutOfOrder? && !SelfInverse(fk)
    ensures var row := Numbered(fk.referencedPk);
      Has(row, fk.referenced) && Has(row, fk.referencedPk) &&
      Sought(fk, Tuple(row, fk.referencedPk), row) != Tuple(row, fk.referenced)
  {
    hide Numbered, Swapped, SelfInverse, ForeignKey.Valid, Has, Tuple;
    NumberedKey(fk);
    var i := NotSelfInverseAt(fk);
    SwappedAt(fk, Numbered(fk.referencedPk), i);
  }

  /** Then some row's referencers are missed. */
  lemma MissesWhenNotSelfInverse(fk: ForeignKey) returns (row: Row, rows: Rows)
    requires fk.Valid() && ShapeOf(fk.referenced, fk.referencedPk).OutOfOrder? && !SelfInverse(fk)
    ensures ReferencedRow(fk, row) && DataOk(fk, rows) && !ExactFor(fk, row, rows)
  {
    hide Numbered, Swapped, RowsWith, DataOk, Matching, Sought, SelfInverse;
    row := Numbered(fk.referencedPk);
    NumberedKey(fk);
    SoughtDiffers(fk);
    rows := RowsWith(fk, Tuple(row, fk.referenced));
    RowsWithMatching(fk, Tuple(row, fk.referenced));
  }

  /** No place of the foreign key may be NULL on both sides. */
  ghost predicate NeverBothNull(fk: ForeignKey)
    requires |fk.referenced| == |fk.referencing|
  {
    forall i :: 0 <= i < |fk.referenced| ==>
      !(fk.referenced[i] in fk.referencedNullable && fk.referencing[i] in fk.referencingNullable)
  }

  /** Then no row matches a tuple with NULL. */
  lemma NullMatchesNothing(fk: ForeignKey, row: Row, rows: Rows)
    requires fk.Valid() && ReferencedRow(fk, row) && DataOk(fk, rows) && NeverBothNull(fk)
    requires !NoNulls(Tuple(row, fk.referenced))
    ensures Matching(fk, rows, Tuple(row, fk.referenced)) == {}
  {
    var tuple := Tuple(row, fk.referenced);
    var i :| 0 <= i < |tuple| && tuple[i] == Null;
    forall k | k in rows ensures Tuple(rows[k], fk.referencing) != tuple {
      assert fk.referenced[i] in fk.referencedNullable;
      assert Tuple(rows[k], fk.referencing)[i] == rows[k][fk.referencing[i]];
    }
  }

  /** The row with NULL in one column. */
  ghost function NullAt(fk: ForeignKey, c: ColumnId): Row {
    map d | d in fk.referenced + fk.referencedPk :: if d == c then Null else Of(0)
  }

  /** Where both sides may be NULL, a prefix of the referencing key takes NULL for a value. */
  lemma NullIsTakenForValue(fk: ForeignKey, i: nat) returns (row: Row, rows: Rows)
    requires fk.Valid() && (ShapeOf(fk.referenced, fk.referencedPk).OutOfOrder? ==> SelfInverse(fk))
    requires !ShapeOf(fk.referencing, fk.referencingPk).NoPrefix? && i < |fk.referenced|
    requires fk.referenced[i] in fk.referencedNullable && fk.referencing[i] in fk.referencingNullable
    ensures ReferencedRow(fk, row) && DataOk(fk, rows) && !ExactFor(fk, row, rows)
  {
    hide RowsWith, DataOk, Matching, Sought, SelfInverse, LeadsWith;
    row := NullAt(fk, fk.referenced[i]);
    var tuple := Tuple(row, fk.referenced);
    assert tuple[i] == Null;
    forall j | 0 <= j < |tuple| && tuple[j] == Null ensures fk.referencing[j] in fk.referencingNullable {
      assert fk.referenced[j] == fk.referenced[i];
    }
    SoughtIsReferenced(fk, row);
    rows := RowsWith(fk, tuple);
    RowsWithMatching(fk, tuple);
  }

  /**
   * For every pair of shapes, over all rows, the cascade deletes exactly the referencing
   * rows if and only if an out-of-order referenced key has an order that is its own
   * inverse, and the referencing rows are found through the null-filtered index or no
   * column of the foreign key may be NULL on both sides.
   */
  lemma CascadeIsExact(fk: ForeignKey)
    requires fk.Valid()
    ensures (forall row, rows | ReferencedRow(fk, row) && DataOk(fk, rows) :: ExactFor(fk, row, rows)) <==>
            && (ShapeOf(fk.referenced, fk.referencedPk).OutOfOrder? ==> SelfInverse(fk))
            && (ShapeOf(fk.referencing, fk.referencingPk).NoPrefix? || NeverBothNull(fk))
  {
    hide LeadsWith, DataOk, SelfInverse, ReferencedRow, Sought, Matching;
    if ShapeOf(fk.referenced, fk.referencedPk).OutOfOrder? && !SelfInverse(fk) {
      var row, rows := MissesWhenNotSelfInverse(fk);
    } else if ShapeOf(fk.referencing, fk.referencingPk).NoPrefix? || NeverBothNull(fk) {
      forall row, rows | ReferencedRow(fk, row) && DataOk(fk, rows) ensures ExactFor(fk, row, rows) {
        ExactWhenNullsAre(fk, row, rows);
      }
    } else {
      var i :| 0 <= i < |fk.referenced| && fk.referenced[i] in fk.referencedNullable &&
          fk.referencing[i] in fk.referencingNullable;
      var row, rows := NullIsTakenForValue(fk, i);
    }
  }

  lemma ExactWhenNullsAre(fk: ForeignKey, row: Row, rows: Rows)
    requires fk.Valid() && ReferencedRow(fk, row) && DataOk(fk, rows)
    requires ShapeOf(fk.referenced, fk.referencedPk).OutOfOrder? ==> SelfInverse(fk)
    requires ShapeOf(fk.referencing, fk.referencingPk).NoPrefix? || NeverBothNull(fk)
    ensures ExactFor(fk, row, rows)
  {
    hide LeadsWith, DataOk, SelfInverse, Sought, Matching;
    SoughtIsReferenced(fk, row);
    if !ShapeOf(fk.referencing, fk.referencingPk).NoPrefix? && !NoNulls(Tuple(row, fk.referenced)) {
      NullMatchesNothing(fk, row, rows);
    }
  }

  /** One nullable column referencing another: deleting the row whose key is NULL deletes an unrelated row. */
  lemma NullKeyFails()
    ensures var fk := ForeignKey([0], [0], [0], [0], [], {0}, {0});
      var row: Row, rows: Rows := map[0 := Null], map[[Null] := map[0 := Null]];
      && fk.Valid() && ReferencedRow(fk, row) && DataOk(fk, rows)
      && Referencers(fk, rows, Tuple(row, fk.referenced)) == {}
      && Cascaded(fk, rows, Sought(fk, Tuple(row, fk.referencedPk), row)) == {[Null]}
  {
    var fk := ForeignKey([0], [0], [0], [0], [], {0}, {0});
    var row: Row := map[0 := Null];
    assert Tuple(row, [0]) == [Null] && [Null][0] == Null;
  }

  /** Key (A, B, C) referenced as (B, C, A): the row that references the deleted one stays, and another goes. */
  lemma CyclicKeyFails(a: Value, b: Value, c: Value)
    requires a != b && NoNulls([a, b, c])
    ensures var fk := ForeignKey([1, 2, 0], [0, 1, 2], [0, 1, 2], [0, 1, 2], [], {}, {});
      var rows: Rows := map[[b, c, a] := Triple(b, c, a), [c, a, b] := Triple(c, a, b)];
      var row := Triple(a, b, c);
      && fk.Valid() && ReferencedRow(fk, row) && DataOk(fk, rows)
      && Referencers(fk, rows, Tuple(row, fk.referenced)) == {[b, c, a]}
      && Cascaded(fk, rows, Sought(fk, Tuple(row, fk.referencedPk), row)) == {[c, a, b]}
  {
    hide Triple, Tuple, Swapped, Has, NullsIn;
    var fk := ForeignKey([1, 2, 0], [0, 1, 2], [0, 1, 2], [0, 1, 2], [], {}, {});
    assert a != Null && b != Null && c != Null by {
      assert [a, b, c][0] == a && [a, b, c][1] == b && [a, b, c][2] == c;
    }
    CyclicSwap(fk, a, b, c);
    TripleTuples(a, b, c);
    TripleTuples(b, c, a);
    TripleTuples(c, a, b);
  }

  function Triple(x: Value, y: Value, z: Value): Row {
    map[0 := x, 1 := y, 2 := z]
  }

  lemma TripleTuples(x: Value, y: Value, z: Value)
    ensures Has(Triple(x, y, z), [0, 1, 2]) && Has(Triple(x, y, z), [1, 2, 0])
    ensures Tuple(Triple(x, y, z), [0, 1, 2]) == [x, y, z] && Tuple(Triple(x, y, z), [1, 2, 0]) == [y, z, x]
    ensures x != Null && y != Null && z != Null ==> NullsIn(Triple(x, y, z), {})
  {
  }

  lemma CyclicSwap(fk: ForeignKey, a: Value, b: Value, c: Value)
    requires fk.referenced == [1, 2, 0] && fk.referencedPk == [0, 1, 2]
    ensures ShapeOf(fk.referenced, fk.referencedPk) == OutOfOrder && Swapped(fk, [a, b, c]) == [c, a, b]
  {
    assert fk.referencedPk[..3] == [0, 1, 2];
    assert IndexIn([1, 2, 0], 0) == 2 by {
      assert [1, 2, 0][1..] == [2, 0] && [2, 0][1..] == [0];
    }
    assert IndexIn([1, 2, 0], 1) == 0 && IndexIn([1, 2, 0], 2) == 1 by {
      assert [1, 2, 0][1..] == [2, 0];
    }
  }
}
