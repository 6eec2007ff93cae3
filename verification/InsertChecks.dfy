/**
 * Which plain inserts the foreign key verifiers see: the updates that the evaluated column
 * effector queues are writes of the statement too (backend/actions/evaluated_column.cc,
 * backend/transaction/read_write_transaction.cc, backend/transaction/transaction_store.cc).
 */
module InsertChecks {
  import opened Collections
  import opened Keys
  import opened EvaluatedColumns
  import opened EvaluationQueue
  import Checks

  /** The queued updates processed in the first `n` rounds, as writes of the row. */
  ghost function Updates(e: Effector, w: Writing, n: nat, t: Checks.TableId, key: seq<Value>): seq<Checks.Op>
    requires e.Valid() && WritingOk(e, w)
  {
    if n == 0 then []
    else
      var before := Rounds(e, w, n - 1);
      Updates(e, w, n - 1, t, key) + if before.Ok? && before.value.columns != [] then [Checks.Update(t, key)] else []
  }

  /** An insert whose queue is empty after `n` rounds. */
  ghost predicate Drained(e: Effector, columns: seq<ColumnId>, values: seq<Value>, n: nat) {
    && InsertOk(e, columns, values) && WritingOk(e, Inserted(e, columns, values))
    && Rounds(e, Inserted(e, columns, values), n).Ok?
    && Rounds(e, Inserted(e, columns, values), n).value.columns == []
  }

  /** What the statement writes in the base table. */
  ghost function Writes(
    e: Effector, columns: seq<ColumnId>, values: seq<Value>, n: nat, t: Checks.TableId, key: seq<Value>)
    : seq<Checks.Op>
    requires Drained(e, columns, values, n)
  {
    [Checks.Insert(t, key)] + Updates(e, Inserted(e, columns, values), n, t, key)
  }

  /** The insert queues an update: there is a generated column outside the key, or a default column was left out. */
  ghost predicate Evaluates(e: Effector, columns: seq<ColumnId>) {
    e.HasGenerated() || !GivesDefaults(e, columns)
  }

  lemma {:induction false} AllUpdates(e: Effector, w: Writing, n: nat, t: Checks.TableId, key: seq<Value>)
    requires e.Valid() && WritingOk(e, w)
    ensures forall i :: 0 <= i < |Updates(e, w, n, t, key)| ==> Updates(e, w, n, t, key)[i] == Checks.Update(t, key)
    ensures w.columns != [] && n > 0 ==> Updates(e, w, n, t, key) != []
    decreases n
  {
    hide Round;
    if n > 0 {
      AllUpdates(e, w, n - 1, t, key);
    }
  }

  lemma {:induction false} NoUpdates(e: Effector, w: Writing, n: nat, t: Checks.TableId, key: seq<Value>)
    requires e.Valid() && WritingOk(e, w) && w.columns == []
    ensures Rounds(e, w, n) == Ok(w) && Updates(e, w, n, t, key) == []
    decreases n
  {
    if n > 0 {
      NoUpdates(e, w, n - 1, t, key);
    }
  }

  /** The writes are the insert alone, or end with an update. */
  lemma WritesShape(e: Effector, columns: seq<ColumnId>, values: seq<Value>, n: nat, t: Checks.TableId, key: seq<Value>)
    requires Drained(e, columns, values, n)
    ensures var ops := Writes(e, columns, values, n, t, key);
      && ops != [] && (forall i :: 0 < i < |ops| ==> ops[i] == Checks.Update(t, key))
      && ops[0] == Checks.Insert(t, key) && (|ops| > 1 <==> Evaluates(e, columns))
  {
    hide InsertOk, Inserted, Rounds, Effector.HasGenerated, GivesDefaults, Updates;
    InsertValid(e, columns, values);
    QueuesNothing(e, columns, values);
    var w := Inserted(e, columns, values);
    AllUpdates(e, w, n, t, key);
    if w.columns == [] {
      NoUpdates(e, w, n, t, key);
    } else {
      NoRounds(e, w);
    }
  }

  lemma NoRounds(e: Effector, w: Writing)
    requires e.Valid() && WritingOk(e, w)
    ensures Rounds(e, w, 0) == Ok(w)
  {
  }

  /** An insert followed by updates of the row leaves one more entry. */
  lemma {:induction false} InsertedEntry(s: Checks.State, ops: seq<Checks.Op>, t: Checks.TableId, key: seq<Value>)
    requires ops != [] && ops[0] == Checks.Insert(t, key)
    requires forall i :: 0 < i < |ops| ==> ops[i] == Checks.Update(t, key)
    ensures Checks.ApplyAll(s, ops) == s[t := Checks.Entries(s, t) + {key}]
    decreases |ops|
  {
    if |ops| > 1 {
      InsertedEntry(s, ops[..|ops| - 1], t, key);
    } else {
      assert ops[..0] == [];
    }
  }

  lemma InsertIsLegal(s: Checks.State, ops: seq<Checks.Op>, t: Checks.TableId, key: seq<Value>)
    requires ops != [] && ops[0] == Checks.Insert(t, key)
    requires forall i :: 0 < i < |ops| ==> ops[i] == Checks.Update(t, key)
    ensures Checks.Legal(s, ops)
  {
    forall i | 0 <= i < |ops| && ops[i].Update?
      ensures ops[i].key in Checks.Entries(Checks.ApplyAll(s, ops[..i]), ops[i].table)
    {
      InsertedEntry(s, ops[..i], t, key);
    }
  }

  /** Only the last write of the row is verified. */
  lemma LastOfInsert(ops: seq<Checks.Op>, t: Checks.TableId, key: seq<Value>, op: Checks.Op)
    requires ops != [] && ops[0] == Checks.Insert(t, key)
    requires forall i :: 0 < i < |ops| ==> ops[i] == Checks.Update(t, key)
    ensures Checks.LastAt(ops, op) <==> op == ops[|ops| - 1]
  {
    var last := |ops| - 1;
    assert Checks.IsLast(ops, last);
    forall i | 0 <= i < last ensures !Checks.IsLast(ops, i) {
      assert Checks.SameEntry(ops[i], ops[last]);
    }
  }

  /** The insert is masked exactly if it queues an update. */
  lemma InsertIsMasked(e: Effector, columns: seq<ColumnId>, values: seq<Value>, n: nat,
                       s: Checks.State, t: Checks.TableId, key: seq<Value>)
    requires Drained(e, columns, values, n) && key !in Checks.Entries(s, t)
    ensures Checks.Masked(s, Writes(e, columns, values, n, t, key), t, key) <==> Evaluates(e, columns)
  {
    hide Drained, Writes, Evaluates, Checks.LastAt;
    var ops := Writes(e, columns, values, n, t, key);
    WritesShape(e, columns, values, n, t, key);
    LastOfInsert(ops, t, key, Checks.Update(t, key));
  }

  /**
   * A row inserted into the referencing table, whose key begins with the foreign key. The
   * foreign key holds afterwards exactly if the referenced key exists; the verifiers pass
   * exactly if it does or the insert queues an update. So a missing referenced key goes
   * unnoticed exactly if the table has a generated column outside the key or the insert
   * leaves out a default column.
   */
  lemma PlainInsertEscapesExactly(
    e: Effector, columns: seq<ColumnId>, values: seq<Value>, n: nat, s: Checks.State, c: Checks.Constraint,
      key: seq<Value>)
    requires Drained(e, columns, values, n)
    requires c.ForeignKey? && c.enforced && c.referencing != c.referenced && Checks.Holds(c, s)
    requires |key| >= c.columns && key !in Checks.Entries(s, c.referencing)
    ensures var ops := Writes(e, columns, values, n, c.referencing, key);
      var found := Checks.PrefixExists(s, c.referenced, key[..c.columns]);
      && Checks.Legal(s, ops)
      && (Checks.Holds(c, Checks.ApplyAll(s, ops)) <==> found)
      && (Checks.Passes(c, Checks.ApplyAll(s, ops), ops) <==> found || Evaluates(e, columns))
  {
    hide Drained, Writes, Evaluates, Checks.LastAt, Checks.ApplyAll, Checks.Legal;
    var t, ops := c.referencing, Writes(e, columns, values, n, c.referencing, key);
    WritesShape(e, columns, values, n, t, key);
    InsertIsLegal(s, ops, t, key);
    InsertedEntry(s, ops, t, key);
    var final := Checks.ApplyAll(s, ops);
    assert Checks.Entries(final, c.referenced) == Checks.Entries(s, c.referenced);
    forall op ensures Checks.LastAt(ops, op) <==> op == ops[|ops| - 1] {
      LastOfInsert(ops, t, key, op);
    }
    assert key in Checks.Entries(final, t);
    var last := ops[|ops| - 1];
    assert Checks.LongEnough(c, last) && Checks.LastAt(ops, last);
    assert Checks.Verify(c, final, last) == Checks.Ok <==>
           Checks.PrefixExists(s, c.referenced, key[..c.columns]) || last.Update?;
  }
}
