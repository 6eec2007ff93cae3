/**
 * What the evaluation of one write leaves once its queued updates have themselves
 * been through the effector (backend/actions/evaluated_column.cc, and the write queue
 * of backend/transaction/read_write_transaction.cc).
 */
module EvaluationQueue {
  import opened Collections
  import opened Keys
  import opened EvaluatedColumns
  import Graph

  datatype Effector = Effector(table: Table, order: seq<ColumnId>, dependents: seq<ColumnId>, f: Expressions) {

    /** ON UPDATE columns evaluate to the commit timestamp sentinel, whatever the row. */
    ghost predicate Valid() {
      && TableOk(table) && EvaluationOrder(table, order)
      && (forall c: ColumnId :: c in dependents <==> IsDependent(table, c))
      && (forall c: ColumnId :: IsOnUpdate(c) ==> Compute(table, f, c, map[]).Ok?)
    }

    predicate IsOnUpdate(c: ColumnId) {
      c < |table| && table[c].hasOnUpdate
    }

    predicate HasGenerated() {
      exists c :: 0 <= c < |table| && table[c].generated && !table[c].isKey
    }

    ghost predicate Names(columns: seq<ColumnId>) {
      forall i :: 0 <= i < |columns| ==> columns[i] < |table|
    }

    /** The value an ON UPDATE column is refreshed to. */
    ghost function Refreshed(c: ColumnId): Value
      requires Valid() && IsOnUpdate(c)
    {
      Compute(table, f, c, map[]).value
    }

    ghost function OnUpdateColumns(): (columns: set<ColumnId>)
      ensures forall c: ColumnId :: c in columns <==> IsOnUpdate(c)
    {
      set c: ColumnId | c < |table| && table[c].hasOnUpdate
    }
  }

  /** The stored row, and the update that waits for it in the queue, if any. */
  datatype Writing = Writing(row: Values, columns: seq<ColumnId>, values: seq<Value>)

  /** The waiting update goes through the effector, which may queue another, and is then stored. */
  function Round(e: Effector, w: Writing): Result<Writing, Error>
    requires |w.columns| == |w.values| && (forall i :: 0 <= i < |w.columns| ==> w.columns[i] < |e.table|)
    requires forall i :: 0 <= i < |e.order| ==> e.order[i] < |e.table|
  {
    if w.columns == [] then Ok(w)
    else if IsOwnEffect(e.table, w.columns) then Ok(Writing(Assigned(w.row, w.columns, w.values), [], []))
    else
      match UpdateTask(e.table, e.dependents, e.f, w.row, w.columns, w.values).Run(e.order)
      case Ok(o) => Ok(Writing(Assigned(w.row, w.columns, w.values), o.columns, o.values))
      case Err(error) => Err(error)
  }

  ghost predicate WritingOk(e: Effector, w: Writing) {
    e.Names(w.columns) && |w.columns| == |w.values|
  }

  lemma RoundOk(e: Effector, w: Writing)
    requires e.Valid() && WritingOk(e, w) && Round(e, w).Ok?
    ensures WritingOk(e, Round(e, w).value)
  {
    if w.columns != [] && !IsOwnEffect(e.table, w.columns) {
      var t := UpdateTask(e.table, e.dependents, e.f, w.row, w.columns, w.values);
      EvaluationSolves(t, e.order);
      forall i | 0 <= i < |t.Run(e.order).value.columns| ensures t.Run(e.order).value.columns[i] < |e.table| {
        assert t.Run(e.order).value.columns[i] in t.Run(e.order).value.columns;
      }
    }
  }

  /** The state after `n` rounds. */
  ghost function Rounds(e: Effector, w: Writing, n: nat): (r: Result<Writing, Error>)
    requires e.Valid() && WritingOk(e, w)
    ensures r.Ok? ==> WritingOk(e, r.value)
  {
    if n == 0 then Ok(w)
    else
      match Rounds(e, w, n - 1)
      case Err(error) => Err(error)
      case Ok(before) =>
        if Round(e, before).Ok? then RoundOk(e, before); Round(e, before) else Round(e, before)
  }

  /** The queue drains, and this row is left. */
  ghost predicate Settles(e: Effector, w: Writing, row: Values)
    requires e.Valid() && WritingOk(e, w)
  {
    exists n :: Rounds(e, w, n) == Ok(Writing(row, [], []))
  }

  /** The queue never drains: there is always another update. */
  ghost predicate Cycles(e: Effector, w: Writing)
    requires e.Valid() && WritingOk(e, w)
  {
    forall n :: Rounds(e, w, n).Ok? && Rounds(e, w, n).value.columns != []
  }

  // ---------------------------------------------------------------------------
  // One round in a table without generated columns
  // ---------------------------------------------------------------------------

  lemma NothingGenerated(e: Effector, columns: seq<ColumnId>)
    requires !e.HasGenerated() && e.Names(columns)
    ensures !IsOwnEffect(e.table, columns)
  {
  }

  lemma RefreshesOnUpdate(e: Effector, columns: seq<ColumnId>, c: ColumnId)
    requires e.Valid() && !e.HasGenerated() && e.Names(columns) && AppliesOnUpdate(e.table, columns)
    ensures Refreshes(e.table, columns, c) <==> e.IsOnUpdate(c) && c !in columns
  {
  }

  lemma RefreshedAnywhere(e: Effector, c: ColumnId, row: Values)
    requires e.Valid() && e.IsOnUpdate(c)
    ensures Compute(e.table, e.f, c, row) == Ok(e.Refreshed(c))
    ensures Equation(e.table, e.f, c, row) <==> c in row && row[c] == e.Refreshed(c)
  {
    hide Equation, Compute;
    ComputeDependsOnDeps(e.table, e.f, c, row, map[]);
    EquationIsComputed(e.table, e.f, c, row);
  }

  lemma PatchedKeys(table: Table, stored: Values, columns: seq<ColumnId>, values: seq<Value>)
    requires |columns| == |values|
    ensures forall c: ColumnId :: c < |table| ==> c in Patched(table, stored, columns, values)
  {
    AssignedKeys(map c: ColumnId | c < |table| :: Read(stored, c), columns, values);
  }

  /** An update of some non-key column evaluates: the ON UPDATE columns it leaves out are all there is to compute. */
  lemma RefreshSucceeds(e: Effector, w: Writing)
    requires e.Valid() && WritingOk(e, w) && !e.HasGenerated() && AppliesOnUpdate(e.table, w.columns)
    ensures var t := UpdateTask(e.table, e.dependents, e.f, w.row, w.columns, w.values);
      t.Run(e.order).Ok? && forall c: ColumnId :: t.Computes(c) <==> e.IsOnUpdate(c) && c !in w.columns
  {
    hide Skipped, Compute, Evaluated, EvaluationOrder, Task.Computes, Patched, AppliesOnUpdate, Assigned, Refreshes,
         Equation;
    var t := UpdateTask(e.table, e.dependents, e.f, w.row, w.columns, w.values);
    var full := Patched(e.table, w.row, w.columns, w.values);
    NothingGenerated(e, w.columns);
    forall c: ColumnId ensures t.Computes(c) <==> e.IsOnUpdate(c) && c !in w.columns {
      UpdateComputes(e.table, e.order, e.dependents, e.f, w.row, w.columns, w.values, c);
      RefreshesOnUpdate(e, w.columns, c);
    }
    PatchedKeys(e.table, w.row, w.columns, w.values);
    var r: Values := map c | c in full :: if t.Computes(c) then e.Refreshed(c) else full[c];
    forall c: ColumnId ensures if t.Computes(c) then t.Holds(c, r) else SameAt(r, full, c) {
      if t.Computes(c) {
        RefreshedAnywhere(e, c, r);
      }
    }
    assert SolvesOver(t, full, r);
    UpdateIsTheSolution(e.table, e.order, e.dependents, e.f, w.row, w.columns, w.values);
  }

  /** A round stores the update and queues exactly the ON UPDATE columns it left out, with their values. */
  lemma RefreshRound(e: Effector, w: Writing)
    requires e.Valid() && WritingOk(e, w) && !e.HasGenerated() && w.columns != [] && AppliesOnUpdate(e.table, w.columns)
    ensures Round(e, w).Ok? && Round(e, w).value.row == Assigned(w.row, w.columns, w.values)
    ensures var next := Round(e, w).value;
      && WritingOk(e, next)
      && (forall c: ColumnId :: c in next.columns <==> e.IsOnUpdate(c) && c !in w.columns)
      && (forall k :: 0 <= k < |next.columns| ==>
          e.IsOnUpdate(next.columns[k]) && next.values[k] == e.Refreshed(next.columns[k]))
  {
    hide Skipped, Compute, Evaluated, Task.Computes, AppliesOnUpdate, Assigned, Equation;
    var t := UpdateTask(e.table, e.dependents, e.f, w.row, w.columns, w.values);
    NothingGenerated(e, w.columns);
    RefreshSucceeds(e, w);
    EvaluationSolves(t, e.order);
    RoundOk(e, w);
    var o := t.Run(e.order).value;
    forall k | 0 <= k < |o.columns| ensures e.IsOnUpdate(o.columns[k]) && o.values[k] == e.Refreshed(o.columns[k]) {
      var c := o.columns[k];
      assert c in o.columns;
      assert t.Holds(c, o.row);
      RefreshedAnywhere(e, c, o.row);
    }
  }

  // ---------------------------------------------------------------------------
  // Draining
  // ---------------------------------------------------------------------------

  lemma {:induction false} SettledStays(e: Effector, w: Writing, n: nat, m: nat)
    requires e.Valid() && WritingOk(e, w) && n <= m && Rounds(e, w, n).Ok? && Rounds(e, w, n).value.columns == []
    ensures Rounds(e, w, m) == Rounds(e, w, n)
    decreases m
  {
    hide Round, Effector.Valid, WritingOk;
    if n < m {
      SettledStays(e, w, n, m - 1);
      EmptyRound(e, Rounds(e, w, n).value);
    }
  }

  lemma EmptyRound(e: Effector, w: Writing)
    requires e.Valid() && WritingOk(e, w) && w.columns == []
    ensures Round(e, w) == Ok(w)
  {
  }

  /** The row that is left is determined. */
  lemma SettledRow(e: Effector, w: Writing, n: nat, row: Values)
    requires e.Valid() && WritingOk(e, w) && Rounds(e, w, n) == Ok(Writing(row, [], []))
    ensures Settles(e, w, row) && forall other :: Settles(e, w, other) ==> other == row
  {
    hide Rounds;
    forall other | Settles(e, w, other) ensures other == row {
      var m: nat :| Rounds(e, w, m) == Ok(Writing(other, [], []));
      if m <= n {
        SettledStays(e, w, m, n);
      } else {
        SettledStays(e, w, n, m);
      }
    }
  }

  lemma OneRound(e: Effector, w: Writing)
    requires e.Valid() && WritingOk(e, w)
    ensures Rounds(e, w, 0) == Ok(w) && Rounds(e, w, 1) == Round(e, w)
  {
  }

  lemma TwoRounds(e: Effector, w: Writing)
    requires e.Valid() && WritingOk(e, w) && Round(e, w).Ok? && WritingOk(e, Round(e, w).value)
    ensures Rounds(e, w, 2) == Round(e, Round(e, w).value)
  {
    assert Rounds(e, w, 1) == Round(e, w);
  }

  /** The waiting update sets some ON UPDATE columns and leaves others out. */
  ghost predicate Mixed(e: Effector, w: Writing) {
    && WritingOk(e, w) && w.columns != [] && AppliesOnUpdate(e.table, w.columns)
    && (exists c: ColumnId :: e.IsOnUpdate(c) && c in w.columns)
    && (exists c: ColumnId :: e.IsOnUpdate(c) && c !in w.columns)
  }

  /** Then so does the one it queues. */
  lemma MixedRound(e: Effector, w: Writing)
    requires e.Valid() && !e.HasGenerated() && Mixed(e, w)
    ensures Round(e, w).Ok? && Mixed(e, Round(e, w).value)
  {
    hide Round;
    RefreshRound(e, w);
    var next := Round(e, w).value;
    var given: ColumnId :| e.IsOnUpdate(given) && given in w.columns;
    var left: ColumnId :| e.IsOnUpdate(left) && left !in w.columns;
    assert left in next.columns && given !in next.columns;
    OnUpdateApplies(e, next.columns, left);
  }

  lemma OnUpdateApplies(e: Effector, columns: seq<ColumnId>, c: ColumnId)
    requires e.Valid() && e.Names(columns) && e.IsOnUpdate(c) && c in columns
    ensures AppliesOnUpdate(e.table, columns)
  {
    var i :| 0 <= i < |columns| && columns[i] == c;
  }

  lemma {:induction false} MixedForever(e: Effector, w: Writing, n: nat)
    requires e.Valid() && !e.HasGenerated() && Mixed(e, w)
    ensures Rounds(e, w, n).Ok? && Mixed(e, Rounds(e, w, n).value)
    decreases n
  {
    hide Mixed, Effector.Valid, Round;
    assert WritingOk(e, w) by { MixedIsOk(e, w); }
    if n > 0 {
      MixedForever(e, w, n - 1);
      MixedRound(e, Rounds(e, w, n - 1).value);
    }
  }

  lemma MixedIsOk(e: Effector, w: Writing)
    requires Mixed(e, w)
    ensures WritingOk(e, w) && w.columns != []
  {
  }

  lemma MixedCycles(e: Effector, w: Writing)
    requires e.Valid() && !e.HasGenerated() && Mixed(e, w)
    ensures WritingOk(e, w) && Cycles(e, w) && forall row :: !Settles(e, w, row)
  {
    hide Mixed, Rounds, Effector.Valid;
    MixedIsOk(e, w);
    forall n: nat ensures Rounds(e, w, n).Ok? && Rounds(e, w, n).value.columns != [] {
      MixedForever(e, w, n);
      MixedIsOk(e, Rounds(e, w, n).value);
    }
  }

  /** Some column of each kind: ON UPDATE columns the write gives, and ones it leaves out. */
  ghost predicate Gives(e: Effector, columns: seq<ColumnId>) {
    exists c: ColumnId :: e.IsOnUpdate(c) && c in columns
  }

  ghost predicate LeavesOut(e: Effector, columns: seq<ColumnId>) {
    exists c: ColumnId :: e.IsOnUpdate(c) && c !in columns
  }

  /**
   * An update of a table without generated columns that gives all ON UPDATE columns, or none, is
   * over after two rounds.
   */
  lemma UniformSettles(e: Effector, w: Writing)
    requires e.Valid() && WritingOk(e, w) && !e.HasGenerated() && w.columns != [] && AppliesOnUpdate(e.table, w.columns)
    requires !Gives(e, w.columns) || !LeavesOut(e, w.columns)
    ensures var next := Round(e, w);
      && next.Ok? && WritingOk(e, next.value)
      && Rounds(e, w, 2) == Ok(Writing(Assigned(next.value.row, next.value.columns, next.value.values), [], []))
  {
    hide Round, Assigned, AppliesOnUpdate;
    RefreshRound(e, w);
    TwoRounds(e, w);
    var next := Round(e, w).value;
    if next.columns == [] {
      EmptyRound(e, next);
      AssignedNothing(next.row, next.columns, next.values);
    } else {
      assert next.columns[0] in next.columns;
      assert LeavesOut(e, w.columns);
      OnUpdateApplies(e, next.columns, next.columns[0]);
      RefreshRound(e, next);
      var last := Round(e, next).value;
      NoneListed(last.columns);
    }
  }

  lemma NoneListed(columns: seq<ColumnId>)
    ensures (forall c: ColumnId :: c !in columns) ==> columns == []
  {
    assert columns != [] ==> columns[0] in columns;
  }

  lemma AssignedNothing(row: Values, columns: seq<ColumnId>, values: seq<Value>)
    requires |columns| == |values| && columns == []
    ensures Assigned(row, columns, values) == row
  {
  }

  // ---------------------------------------------------------------------------
  // Updates
  // ---------------------------------------------------------------------------

  /** The rows read the same, NULL where a column is missing. */
  ghost predicate SameRow(e: Effector, a: Values, b: Values) {
    forall c :: 0 <= c < |e.table| ==> Read(a, c) == Read(b, c)
  }

  lemma {:induction false} SameRowAssigned(e: Effector, a: Values, b: Values, columns: seq<ColumnId>,
                                           values: seq<Value>)
    requires |columns| == |values| && SameRow(e, a, b)
    ensures SameRow(e, Assigned(a, columns, values), Assigned(b, columns, values))
    decreases |columns|
  {
    if columns != [] {
      var cs, vs := columns[..|columns| - 1], values[..|values| - 1];
      SameRowAssigned(e, a, b, cs, vs);
      var a', b' := Assigned(a, cs, vs), Assigned(b, cs, vs);
      var last, value := columns[|columns| - 1], values[|values| - 1];
      var a'', b'' := a'[last := value], b'[last := value];
      forall c | 0 <= c < |e.table| ensures Read(a'', c) == Read(b'', c) {
        assert Read(a', c) == Read(b', c);
      }
    }
  }

  /** With generated columns the first round queues them, and the second stops there. */
  lemma GeneratedSettles(e: Effector, w: Writing)
    requires e.Valid() && WritingOk(e, w) && e.HasGenerated() && w.columns != [] && !IsOwnEffect(e.table, w.columns) &&
             Round(e, w).Ok?
    ensures var next := Round(e, w).value;
      WritingOk(e, next) && Rounds(e, w, 2) == Ok(Writing(Assigned(next.row, next.columns, next.values), [], []))
  {
    hide Skipped, Compute, Evaluated, Task.Computes, AppliesOnUpdate, Assigned;
    var t := UpdateTask(e.table, e.dependents, e.f, w.row, w.columns, w.values);
    RoundOk(e, w);
    TwoRounds(e, w);
    EvaluationSolves(t, e.order);
    var c :| 0 <= c < |e.table| && e.table[c].generated && !e.table[c].isKey;
    UpdateComputes(e.table, e.order, e.dependents, e.f, w.row, w.columns, w.values, c);
    var next := Round(e, w).value;
    assert c in next.columns;
    var i :| 0 <= i < |next.columns| && next.columns[i] == c;
  }

  lemma NothingRefreshes(e: Effector, columns: seq<ColumnId>, c: ColumnId)
    requires !e.HasGenerated() && e.Names(columns) && !AppliesOnUpdate(e.table, columns)
    ensures !Refreshes(e.table, columns, c)
  {
  }

  /** An update of key columns only computes nothing where nothing is generated. */
  lemma KeyOnlySettles(e: Effector, w: Writing)
    requires e.Valid() && WritingOk(e, w) && !e.HasGenerated() && w.columns != [] &&
             !AppliesOnUpdate(e.table, w.columns) && Round(e, w).Ok?
    ensures var next := Round(e, w).value;
      WritingOk(e, next) && Rounds(e, w, 2) == Ok(Writing(Assigned(next.row, next.columns, next.values), [], []))
  {
    hide Skipped, Compute, Evaluated, Task.Computes, AppliesOnUpdate, Assigned;
    var t := UpdateTask(e.table, e.dependents, e.f, w.row, w.columns, w.values);
    NothingGenerated(e, w.columns);
    RoundOk(e, w);
    TwoRounds(e, w);
    EvaluationSolves(t, e.order);
    var next := Round(e, w).value;
    forall c: ColumnId ensures c !in next.columns {
      UpdateComputes(e.table, e.order, e.dependents, e.f, w.row, w.columns, w.values, c);
      NothingRefreshes(e, w.columns, c);
    }
    NoneListed(next.columns);
    EmptyRound(e, next);
    AssignedNothing(next.row, next.columns, next.values);
  }

  /** The row an update should leave: the patched row with what its first evaluation computed. */
  ghost function Expected(e: Effector, stored: Values, columns: seq<ColumnId>, values: seq<Value>): Values
    requires e.Valid() && UpdateOk(e.table, e.order, e.dependents, columns) && |columns| == |values|
    requires UpdateTask(e.table, e.dependents, e.f, stored, columns, values).Run(e.order).Ok?
  {
    var o := UpdateTask(e.table, e.dependents, e.f, stored, columns, values).Run(e.order).value;
    EvaluationSolves(UpdateTask(e.table, e.dependents, e.f, stored, columns, values), e.order);
    After(Patched(e.table, stored, columns, values), o)
  }

  lemma TwoRoundsAreExpected(e: Effector, w: Writing)
    requires e.Valid() && WritingOk(e, w) && w.columns != [] && UpdateOk(e.table, e.order, e.dependents, w.columns) &&
             Round(e, w).Ok?
    requires WritingOk(e, Round(e, w).value)
    ensures var next := Round(e, w).value;
      SameRow(e, Assigned(next.row, next.columns, next.values), Expected(e, w.row, w.columns, w.values))
  {
    hide Skipped, Compute, Evaluated, Assigned;
    var next := Round(e, w).value;
    var total: Values := map c: ColumnId | c < |e.table| :: Read(w.row, c);
    assert SameRow(e, w.row, total);
    SameRowAssigned(e, w.row, total, w.columns, w.values);
    SameRowAssigned(e, Assigned(w.row, w.columns, w.values), Assigned(total, w.columns, w.values), next.columns,
                    next.values);
  }

  /**
   * The queue of an update whose evaluation succeeds drains if and only if the table has a
   * generated column outside the key, or the update gives all ON UPDATE columns or none;
   * the row it then leaves is the recomputed one. Otherwise updates follow each other forever.
   */
  lemma UpdateSettlesExactly(e: Effector, stored: Values, columns: seq<ColumnId>, values: seq<Value>)
    requires e.Valid() && UpdateOk(e.table, e.order, e.dependents, columns) && |columns| == |values| && columns != []
    requires UpdateTask(e.table, e.dependents, e.f, stored, columns, values).Run(e.order).Ok?
    ensures var w := Writing(stored, columns, values);
            var drains := e.HasGenerated() || !Gives(e, columns) || !LeavesOut(e, columns);
      && ((exists row :: Settles(e, w, row)) <==> drains)
      && (forall row :: Settles(e, w, row) ==> SameRow(e, row, Expected(e, stored, columns, values)))
      && (!drains ==> Cycles(e, w))
  {
    hide Skipped, Compute, Evaluated, Assigned, Rounds, Settles, Cycles, SameRow, Expected, AppliesOnUpdate, TableOk;
    var w := Writing(stored, columns, values);
    if e.HasGenerated() || !Gives(e, columns) || !LeavesOut(e, columns) {
      if e.HasGenerated() {
        GeneratedSettles(e, w);
      } else if AppliesOnUpdate(e.table, columns) {
        UniformSettles(e, w);
      } else {
        KeyOnlySettles(e, w);
      }
      var next := Round(e, w).value;
      SettledRow(e, w, 2, Assigned(next.row, next.columns, next.values));
      TwoRoundsAreExpected(e, w);
    } else {
      var c: ColumnId :| e.IsOnUpdate(c) && c in columns;
      OnUpdateApplies(e, columns, c);
      MixedCycles(e, w);
    }
  }

  // ---------------------------------------------------------------------------
  // Inserts
  // ---------------------------------------------------------------------------

  /** An insert whose evaluation succeeds. */
  ghost predicate InsertOk(e: Effector, columns: seq<ColumnId>, values: seq<Value>) {
    e.Valid() && e.Names(columns) && |columns| == |values| && InsertTask(e.table, e.f, columns, values).Run(e.order).Ok?
  }

  ghost function InsertOutcome(e: Effector, columns: seq<ColumnId>, values: seq<Value>): Outcome
    requires InsertOk(e, columns, values)
  {
    InsertTask(e.table, e.f, columns, values).Run(e.order).value
  }

  /** The inserted row, and the update its evaluation queued. */
  ghost function Inserted(e: Effector, columns: seq<ColumnId>, values: seq<Value>): Writing
    requires InsertOk(e, columns, values)
  {
    var o := InsertOutcome(e, columns, values);
    Writing(Assigned(map[], columns, values), o.columns, o.values)
  }

  lemma InsertQueues(e: Effector, columns: seq<ColumnId>, values: seq<Value>)
    requires InsertOk(e, columns, values)
    ensures WritingOk(e, Inserted(e, columns, values))
    ensures forall c: ColumnId :: c in Inserted(e, columns, values).columns <==>
              c < |e.table| && !e.table[c].isKey && (e.table[c].generated || (e.table[c].hasDefault && c !in columns))
  {
    hide Skipped, Compute, Evaluated, Assigned;
    var t := InsertTask(e.table, e.f, columns, values);
    EvaluationSolves(t, e.order);
    InsertIsTheSolution(e.table, e.order, e.f, columns, values);
    var queued := t.Run(e.order).value.columns;
    forall i | 0 <= i < |queued| ensures queued[i] < |e.table| {
      assert queued[i] in queued;
    }
  }

  /** Storing the queued update makes the inserted row the solution. */
  lemma InsertedRow(e: Effector, columns: seq<ColumnId>, values: seq<Value>)
    requires InsertOk(e, columns, values) && WritingOk(e, Inserted(e, columns, values))
    ensures var w := Inserted(e, columns, values);
      SameRow(e, Assigned(w.row, w.columns, w.values), InsertOutcome(e, columns, values).row)
  {
    hide Skipped, Compute, Evaluated, Assigned, Task.Holds;
    var t, w := InsertTask(e.table, e.f, columns, values), Inserted(e, columns, values);
    var o := t.Run(e.order).value;
    EvaluationSolves(t, e.order);
    var row := Assigned(w.row, w.columns, w.values);
    forall c | 0 <= c < |e.table| ensures Read(row, c) == Read(o.row, c) {
      AssignedFrom(w.row, o.columns, o.values, o.row, c);
      if !t.Computes(c) {
        assert SameAt(o.row, t.row, c);
      }
    }
  }

  lemma GeneratedInsertSettles(e: Effector, columns: seq<ColumnId>, values: seq<Value>)
    requires InsertOk(e, columns, values) && WritingOk(e, Inserted(e, columns, values)) && e.HasGenerated()
    ensures var w := Inserted(e, columns, values);
      Rounds(e, w, 1) == Ok(Writing(Assigned(w.row, w.columns, w.values), [], []))
  {
    hide Assigned;
    var w := Inserted(e, columns, values);
    InsertQueues(e, columns, values);
    var c :| 0 <= c < |e.table| && e.table[c].generated && !e.table[c].isKey;
    assert c in w.columns;
    var i :| 0 <= i < |w.columns| && w.columns[i] == c;
    OneRound(e, w);
  }

  lemma QueuedApplies(e: Effector, columns: seq<ColumnId>, values: seq<Value>)
    requires InsertOk(e, columns, values) && WritingOk(e, Inserted(e, columns, values)) &&
             Inserted(e, columns, values).columns != []
    ensures AppliesOnUpdate(e.table, Inserted(e, columns, values).columns)
  {
    var queued := Inserted(e, columns, values).columns;
    InsertQueues(e, columns, values);
    assert queued[0] in queued;
  }

  /** The queued update leaves out the ON UPDATE columns the insert gave, and sets those it left out. */
  lemma QueuedOnUpdate(e: Effector, columns: seq<ColumnId>, values: seq<Value>)
    requires InsertOk(e, columns, values)
    ensures Gives(e, Inserted(e, columns, values).columns) <==> LeavesOut(e, columns)
    ensures LeavesOut(e, Inserted(e, columns, values).columns) <==> Gives(e, columns)
  {
    hide Inserted;
    InsertQueues(e, columns, values);
  }

  /** Every ON UPDATE column given has the value it would be refreshed to. */
  ghost predicate GivenAsRefreshed(e: Effector, columns: seq<ColumnId>, values: seq<Value>)
    requires e.Valid() && |columns| == |values|
  {
    forall c: ColumnId :: e.IsOnUpdate(c) && c in columns ==>
      Read(Assigned(map[], columns, values), c) == e.Refreshed(c)
  }

  /** Every default column outside the key is given. */
  predicate GivesDefaults(e: Effector, columns: seq<ColumnId>) {
    forall c :: 0 <= c < |e.table| && e.table[c].hasDefault && !e.table[c].isKey ==> c in columns
  }

  /** The insert queues nothing exactly if there is nothing to evaluate. */
  lemma QueuesNothing(e: Effector, columns: seq<ColumnId>, values: seq<Value>)
    requires InsertOk(e, columns, values)
    ensures Inserted(e, columns, values).columns == [] <==> !e.HasGenerated() && GivesDefaults(e, columns)
  {
    hide Inserted;
    var queued := Inserted(e, columns, values).columns;
    InsertQueues(e, columns, values);
    assert queued != [] ==> queued[0] in queued;
  }

  /** A column that is not evaluated keeps what was given. */
  lemma GivenStays(e: Effector, columns: seq<ColumnId>, values: seq<Value>, c: ColumnId)
    requires InsertOk(e, columns, values) && e.IsOnUpdate(c) && c in columns
    ensures Read(InsertOutcome(e, columns, values).row, c) == Read(Assigned(map[], columns, values), c)
  {
    hide Skipped, Compute, Evaluated, Assigned;
    var t := InsertTask(e.table, e.f, columns, values);
    EvaluationSolves(t, e.order);
    InsertIsTheSolution(e.table, e.order, e.f, columns, values);
    AssignedKeys(map[], columns, values);
  }

  /** Without generated columns, giving all ON UPDATE columns: the queued update refreshes them, whatever was given. */
  lemma GivenIsOverwritten(e: Effector, columns: seq<ColumnId>, values: seq<Value>, row: Values)
    requires InsertOk(e, columns, values) && WritingOk(e, Inserted(e, columns, values)) && !e.HasGenerated()
    requires Gives(e, columns) && !LeavesOut(e, columns) && Inserted(e, columns, values).columns != []
    requires Rounds(e, Inserted(e, columns, values), 2) == Ok(Writing(row, [], []))
    requires var next := Round(e, Inserted(e, columns, values));
      next.Ok? && WritingOk(e, next.value) && row == Assigned(next.value.row, next.value.columns, next.value.values)
    ensures SameRow(e, row, InsertOutcome(e, columns, values).row) <==> GivenAsRefreshed(e, columns, values)
  {
    hide Rounds, Assigned, Round, AppliesOnUpdate, InsertOutcome;
    var w, solution := Inserted(e, columns, values), InsertOutcome(e, columns, values).row;
    QueuedApplies(e, columns, values);
    QueuedOnUpdate(e, columns, values);
    RefreshRound(e, w);
    InsertedRow(e, columns, values);
    var next := Round(e, w).value;
    forall c | 0 <= c < |e.table|
      ensures Read(row, c) == if e.IsOnUpdate(c) then e.Refreshed(c) else Read(solution, c)
    {
      assert Read(next.row, c) == Read(solution, c);
      RefreshAssigned(e, next, c);
      assert e.IsOnUpdate(c) ==> c !in w.columns;
    }
    forall c: ColumnId | e.IsOnUpdate(c)
      ensures c in columns && Read(solution, c) == Read(Assigned(map[], columns, values), c)
    {
      GivenStays(e, columns, values, c);
    }
  }

  lemma RefreshAssigned(e: Effector, w: Writing, c: ColumnId)
    requires e.Valid() && WritingOk(e, w)
    requires forall k :: 0 <= k < |w.columns| ==> e.IsOnUpdate(w.columns[k]) && w.values[k] == e.Refreshed(w.columns[k])
    ensures Read(Assigned(w.row, w.columns, w.values), c) ==
            if c in w.columns then (if e.IsOnUpdate(c) then e.Refreshed(c) else Null) else Read(w.row, c)
  {
    hide Assigned;
    var from: Values := map d | d in e.OnUpdateColumns() :: e.Refreshed(d);
    AssignedFrom(w.row, w.columns, w.values, from, c);
  }

  /**
   * The queue of an insert drains if and only if the table has a generated column outside
   * the key, or the insert gives all ON UPDATE columns or none. It leaves the solution if
   * and only if there is such a generated column, or no ON UPDATE column was given, or
   * every default column outside the key was, or all ON UPDATE columns were, with the
   * values they are refreshed to.
   */
  lemma InsertSettlesExactly(e: Effector, columns: seq<ColumnId>, values: seq<Value>)
    requires InsertOk(e, columns, values)
    ensures WritingOk(e, Inserted(e, columns, values))
    ensures var w, solution := Inserted(e, columns, values), InsertOutcome(e, columns, values).row;
      && ((exists row :: Settles(e, w, row)) <==> e.HasGenerated() || !Gives(e, columns) || !LeavesOut(e, columns))
      && ((exists row :: Settles(e, w, row) && SameRow(e, row, solution)) <==>
            e.HasGenerated() || !Gives(e, columns) || GivesDefaults(e, columns) ||
            (!LeavesOut(e, columns) && GivenAsRefreshed(e, columns, values)))
  {
    hide Rounds, Assigned, Round, AppliesOnUpdate, Settles, SameRow, Gives, LeavesOut, GivenAsRefreshed,
         Effector.HasGenerated, Inserted, InsertOutcome, InsertOk, GivesDefaults;
    InsertQueues(e, columns, values);
    QueuesNothing(e, columns, values);
    InsertValid(e, columns, values);
    QueuedOnUpdate(e, columns, values);
    InsertedRow(e, columns, values);
    var w := Inserted(e, columns, values);
    if e.HasGenerated() {
      GeneratedInsertSettles(e, columns, values);
      SettledRow(e, w, 1, Assigned(w.row, w.columns, w.values));
    } else if w.columns == [] {
      OneRound(e, w);
      AssignedNothing(w.row, w.columns, w.values);
      SettledRow(e, w, 0, w.row);
      assert !Gives(e, w.columns) by { NothingGiven(e, w.columns); }
    } else if Gives(e, columns) && LeavesOut(e, columns) {
      QueuedApplies(e, columns, values);
      assert Mixed(e, w) by { MixedFrom(e, w); }
      MixedCycles(e, w);
    } else {
      QueuedApplies(e, columns, values);
      UniformSettles(e, w);
      var next := Round(e, w).value;
      var row := Assigned(next.row, next.columns, next.values);
      SettledRow(e, w, 2, row);
      if Gives(e, columns) {
        GivenIsOverwritten(e, columns, values, row);
      } else {
        NothingRefreshed(e, w);
      }
    }
  }

  lemma InsertValid(e: Effector, columns: seq<ColumnId>, values: seq<Value>)
    requires InsertOk(e, columns, values)
    ensures e.Valid() && |columns| == |values|
  {
  }

  lemma NothingGiven(e: Effector, columns: seq<ColumnId>)
    requires columns == []
    ensures !Gives(e, columns)
  {
  }

  lemma MixedFrom(e: Effector, w: Writing)
    requires WritingOk(e, w) && w.columns != [] && AppliesOnUpdate(e.table, w.columns)
    requires Gives(e, w.columns) && LeavesOut(e, w.columns)
    ensures Mixed(e, w)
  {
  }

  /** If the waiting update sets every ON UPDATE column, its round queues nothing. */
  lemma NothingRefreshed(e: Effector, w: Writing)
    requires e.Valid() && WritingOk(e, w) && !e.HasGenerated() && w.columns != [] && AppliesOnUpdate(e.table, w.columns)
    requires !LeavesOut(e, w.columns)
    ensures Round(e, w).Ok? && Round(e, w).value == Writing(Assigned(w.row, w.columns, w.values), [], [])
    ensures Assigned(Round(e, w).value.row, [], []) == Assigned(w.row, w.columns, w.values)
  {
    hide Round, Assigned, AppliesOnUpdate;
    RefreshRound(e, w);
    NoneListed(Round(e, w).value.columns);
    AssignedNothing(Round(e, w).value.row, [], []);
  }

  /** A key and two ON UPDATE columns. */
  function TwoOnUpdate(): Effector {
    var a, b := Column("a", false, false, true, true, true, []), Column("b", false, false, true, true, true, []);
    Effector([Column("k", true, false, false, false, false, []), a, b], [1, 2], [],
             (c: ColumnId, args: seq<Value>) => Ok(Of(0)))
  }

  lemma TwoOnUpdateTable()
    ensures TableOk(TwoOnUpdate().table)
  {
    assert Graph.Fold("k") == "k" && Graph.Fold("a") == "a" && Graph.Fold("b") == "b";
  }

  lemma TwoOnUpdateOrder()
    ensures EvaluationOrder(TwoOnUpdate().table, [1, 2])
  {
  }

  lemma TwoOnUpdateValid()
    ensures TwoOnUpdate().Valid()
  {
    hide TableOk, EvaluationOrder;
    TwoOnUpdateTable();
    TwoOnUpdateOrder();
  }

  /** Updating one of them, to any value, never ends. */
  lemma OneOfTwoCycles(row: Values, v: Value)
    ensures TwoOnUpdate().Valid() && Cycles(TwoOnUpdate(), Writing(row, [1], [v]))
  {
    hide Cycles, Rounds, Round, Effector.Valid;
    var e, w := TwoOnUpdate(), Writing(row, [1], [v]);
    TwoOnUpdateValid();
    assert e.IsOnUpdate(1) && 1 in w.columns && e.IsOnUpdate(2) && 2 !in w.columns;
    assert !e.table[w.columns[0]].isKey;
    assert Mixed(e, w);
    MixedCycles(e, w);
  }
}
