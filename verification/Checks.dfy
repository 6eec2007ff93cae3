/**
 * Foreign key and UNIQUE checks made only for the entries a statement touched
 * (backend/actions/foreign_key.cc, backend/actions/unique_index.cc, and the
 * statement verification in backend/transaction).
 */
module Checks {
  import opened Keys

  type TableId = nat

  type KeyValues = seq<Value>

  /** The entries of the data tables, by key. */
  type State = map<TableId, set<KeyValues>>

  datatype Op =
    | Insert(table: TableId, key: KeyValues)
    | Update(table: TableId, key: KeyValues)
    | Delete(table: TableId, key: KeyValues)

  function Entries(s: State, table: TableId): set<KeyValues> {
    if table in s then s[table] else {}
  }

  function Apply(s: State, op: Op): State {
    match op
    case Insert(t, k) => s[t := Entries(s, t) + {k}]
    case Update(_, _) => s
    case Delete(t, k) => s[t := Entries(s, t) - {k}]
  }

  function ApplyAll(s: State, ops: seq<Op>): State {
    if ops == [] then s else Apply(ApplyAll(s, ops[..|ops| - 1]), ops[|ops| - 1])
  }

  /** Only existing rows are updated, which the validators see to. */
  ghost predicate Legal(s: State, ops: seq<Op>) {
    forall i :: 0 <= i < |ops| && ops[i].Update? ==> ops[i].key in Entries(ApplyAll(s, ops[..i]), ops[i].table)
  }

  // ---------------------------------------------------------------------------
  // The constraints and their verifiers
  // ---------------------------------------------------------------------------

  /**
   * The first `columns` key columns of both data tables are the foreign key; those of the index are
   * its key columns.
   */
  datatype Constraint =
    | ForeignKey(referencing: TableId, referenced: TableId, columns: nat, enforced: bool)
    | Index(table: TableId, columns: nat, unique: bool)

  predicate PrefixExists(s: State, table: TableId, prefix: KeyValues) {
    exists k :: k in Entries(s, table) && prefix <= k
  }

  /** The constraint as SQL means it, over every entry. */
  ghost predicate Holds(c: Constraint, s: State) {
    match c
    case ForeignKey(referencing, referenced, n, enforced) =>
      enforced ==> forall k :: k in Entries(s, referencing) && |k| >= n ==> PrefixExists(s, referenced, k[..n])
    case Index(table, n, unique) =>
      unique ==>
        forall a, b :: a in Entries(s, table) && b in Entries(s, table) && |a| >= n && |b| >= n && a[..n] == b[..n] ==>
          a == b
  }

  datatype Status = Ok | ReferencedKeyNotFound | ReferencingKeyFound | UniqueViolation | Internal

  /** ForeignKeyReferencingVerifier, on an insert. */
  function VerifyReferencing(c: Constraint, s: State, key: KeyValues): Status
    requires c.ForeignKey? && |key| >= c.columns
  {
    if !c.enforced then Ok
    else if !PrefixExists(s, c.referenced, key[..c.columns]) then ReferencedKeyNotFound
    else Ok
  }

  /** ForeignKeyReferencedVerifier, on a delete. */
  function VerifyReferenced(c: Constraint, s: State, key: KeyValues): Status
    requires c.ForeignKey? && |key| >= c.columns
  {
    if !c.enforced then Ok
    else if !PrefixExists(s, c.referenced, key[..c.columns]) && PrefixExists(s, c.referencing, key[..c.columns])
    then ReferencingKeyFound
    else Ok
  }

  /** UniqueIndexVerifier, on an insert. */
  function VerifyUnique(c: Constraint, s: State, key: KeyValues): Status
    requires c.Index? && |key| >= c.columns
  {
    var found := set k | k in Entries(s, c.table) && key[..c.columns] <= k;
    if !c.unique then Ok
    else if found == {} then Internal
    else if |found| > 1 then UniqueViolation
    else Ok
  }

  predicate LongEnough(c: Constraint, op: Op) {
    match c
    case ForeignKey(referencing, referenced, n, _) =>
      op.table == referencing || op.table == referenced ==> |op.key| >= n
    case Index(table, n, _) => op.table == table ==> |op.key| >= n
  }

  /** Which verifiers of a constraint a write triggers. */
  function Verify(c: Constraint, s: State, op: Op): Status
    requires LongEnough(c, op)
  {
    match c
    case ForeignKey(referencing, referenced, _, _) =>
      if op.Insert? && op.table == referencing then VerifyReferencing(c, s, op.key)
      else if op.Delete? && op.table == referenced then VerifyReferenced(c, s, op.key)
      else Ok
    case Index(table, _, _) =>
      if op.Insert? && op.table == table then VerifyUnique(c, s, op.key) else Ok
  }

  /** The entry has the given values in its first columns. */
  ghost predicate Agrees(entry: KeyValues, key: KeyValues, n: nat) {
    |entry| >= n && |key| >= n && forall i :: 0 <= i < n ==> entry[i] == key[i]
  }

  lemma PrefixMeaning(s: State, table: TableId, key: KeyValues, n: nat)
    requires |key| >= n
    ensures PrefixExists(s, table, key[..n]) <==> exists k :: k in Entries(s, table) && Agrees(k, key, n)
  {
    forall k ensures key[..n] <= k <==> Agrees(k, key, n) {
      if Agrees(k, key, n) {
        assert k[..n] == key[..n];
      }
    }
  }

  /**
   * Which error a write of a foreign key's tables gets: an insert of a referencing entry
   * without referenced entry, and a delete of the last referenced entry of a referencing
   * one; nothing else, and nothing if the key is not enforced.
   */
  lemma ForeignKeyErrors(c: Constraint, s: State, op: Op)
    requires c.ForeignKey? && LongEnough(c, op)
    ensures var referenced := exists k :: k in Entries(s, c.referenced) && Agrees(k, op.key, c.columns);
      var referencing := exists k :: k in Entries(s, c.referencing) && Agrees(k, op.key, c.columns);
      Verify(c, s, op) ==
      if c.enforced && op.Insert? && op.table == c.referencing && !referenced then ReferencedKeyNotFound
      else if c.enforced && op.Delete? && op.table == c.referenced && !referenced && referencing
      then ReferencingKeyFound
      else Ok
  {
    if |op.key| >= c.columns {
      PrefixMeaning(s, c.referenced, op.key, c.columns);
      PrefixMeaning(s, c.referencing, op.key, c.columns);
    }
  }

  /** An insert of an index entry fails if another entry has its columns, or none has, not even itself. */
  lemma UniqueErrors(c: Constraint, s: State, op: Op)
    requires c.Index? && LongEnough(c, op)
    ensures Verify(c, s, op) == Internal <==>
            c.unique && op.Insert? && op.table == c.table &&
            !exists k :: k in Entries(s, c.table) && Agrees(k, op.key, c.columns)
    ensures Verify(c, s, op) == UniqueViolation <==>
            c.unique && op.Insert? && op.table == c.table &&
            exists a, b :: a in Entries(s, c.table) && b in Entries(s, c.table) && a != b &&
                           Agrees(a, op.key, c.columns) && Agrees(b, op.key, c.columns)
    ensures Verify(c, s, op) == Ok || Verify(c, s, op) == Internal || Verify(c, s, op) == UniqueViolation
  {
    if c.unique && op.Insert? && op.table == c.table {
      var found := set k | k in Entries(s, c.table) && op.key[..c.columns] <= k;
      forall k ensures k in found <==> k in Entries(s, c.table) && Agrees(k, op.key, c.columns) {
        if Agrees(k, op.key, c.columns) {
          assert k[..c.columns] == op.key[..c.columns];
        }
      }
      if found != {} {
        var a :| a in found;
        assert |found - {a}| == |found| - 1;
        if |found| > 1 {
          var b :| b in found - {a};
        } else {
          assert found - {a} == {};
          assert found == {a};
        }
      }
    }
  }

  // ---------------------------------------------------------------------------
  // Deduplication
  // ---------------------------------------------------------------------------

  predicate SameEntry(a: Op, b: Op) {
    a.table == b.table && a.key == b.key
  }

  /** No later write of the statement touches the same entry. */
  predicate IsLast(ops: seq<Op>, i: nat)
    requires i < |ops|
  {
    forall j :: i < j < |ops| ==> !SameEntry(ops[i], ops[j])
  }

  /** `last` is the last write of the statement at its entry. */
  ghost predicate LastAt(ops: seq<Op>, op: Op) {
    exists i :: 0 <= i < |ops| && ops[i] == op && IsLast(ops, i)
  }

  lemma LastAtNext(ops: seq<Op>, next: Op, op: Op)
    ensures LastAt(ops + [next], op) <==> op == next || (LastAt(ops, op) && !SameEntry(op, next))
  {
    var more := ops + [next];
    if LastAt(more, op) {
      var i :| 0 <= i < |more| && more[i] == op && IsLast(more, i);
      if i < |ops| {
        assert !SameEntry(more[i], more[|ops|]);
        assert forall j :: i < j < |ops| ==> more[j] == ops[j];
        assert IsLast(ops, i);
      }
    }
    assert IsLast(more, |ops|) && more[|ops|] == next;
    if LastAt(ops, op) && !SameEntry(op, next) {
      var i :| 0 <= i < |ops| && ops[i] == op && IsLast(ops, i);
      assert more[i] == op && IsLast(more, i);
    }
  }

  /** GetDeduplicatedCurrentStatementOps: the last write of each entry. */
  method Deduplicate(ops: seq<Op>) returns (last: set<Op>)
    ensures forall op :: op in last <==> LastAt(ops, op)
  {
    var byEntry: map<(TableId, KeyValues), Op> := map[];
    for i := 0 to |ops|
      invariant forall e :: e in byEntry ==>
                byEntry[e].table == e.0 && byEntry[e].key == e.1 && LastAt(ops[..i], byEntry[e])
      invariant forall op :: LastAt(ops[..i], op) ==> (op.table, op.key) in byEntry && byEntry[(op.table, op.key)] == op
    {
      assert ops[..i + 1] == ops[..i] + [ops[i]];
      forall op ensures LastAt(ops[..i + 1], op) <==> op == ops[i] || (LastAt(ops[..i], op) && !SameEntry(op, ops[i])) {
        LastAtNext(ops[..i], ops[i], op);
      }
      byEntry := byEntry[(ops[i].table, ops[i].key) := ops[i]];
    }
    assert ops[..|ops|] == ops;
    last := set e | e in byEntry :: byEntry[e];
  }

  /** ApplyStatementVerifiers: every verifier of every constraint, for the last write of each entry. */
  method ApplyStatementVerifiers(constraints: seq<Constraint>, s: State, ops: seq<Op>) returns (ok: bool)
    requires forall c, i :: 0 <= c < |constraints| && 0 <= i < |ops| ==> LongEnough(constraints[c], ops[i])
    ensures ok <==> forall c :: 0 <= c < |constraints| ==> Passes(constraints[c], s, ops)
  {
    var last := Deduplicate(ops);
    ghost var all := last;
    while last != {}
      invariant last <= all
      invariant forall op, c :: op in all && op !in last && 0 <= c < |constraints| ==>
                  LongEnough(constraints[c], op) && Verify(constraints[c], s, op) == Ok
      decreases last
    {
      var op :| op in last;
      assert LastAt(ops, op);
      for c := 0 to |constraints|
        invariant forall d :: 0 <= d < c ==> LongEnough(constraints[d], op) && Verify(constraints[d], s, op) == Ok
      {
        if Verify(constraints[c], s, op) != Ok {
          assert !Passes(constraints[c], s, ops);
          return false;
        }
      }
      last := last - {op};
    }
    return true;
  }

  ghost predicate Passes(c: Constraint, s: State, ops: seq<Op>) {
    forall op :: LastAt(ops, op) ==> LongEnough(c, op) && Verify(c, s, op) == Ok
  }

  // ---------------------------------------------------------------------------
  // What the last write of an entry says about the entry
  // ---------------------------------------------------------------------------

  ghost predicate Touched(ops: seq<Op>, table: TableId, key: KeyValues) {
    exists op :: LastAt(ops, op) && op.table == table && op.key == key
  }

  lemma TouchedNext(ops: seq<Op>, next: Op, t: TableId, k: KeyValues)
    ensures Touched(ops + [next], t, k) <==> Touched(ops, t, k) || (next.table == t && next.key == k)
  {
    hide LastAt;
    if Touched(ops, t, k) {
      var op :| LastAt(ops, op) && op.table == t && op.key == k;
      LastAtNext(ops, next, op);
    }
    if Touched(ops + [next], t, k) {
      var op :| LastAt(ops + [next], op) && op.table == t && op.key == k;
      LastAtNext(ops, next, op);
    }
    LastAtNext(ops, next, next);
  }

  lemma LegalFront(s: State, ops: seq<Op>)
    requires Legal(s, ops) && ops != []
    ensures Legal(s, ops[..|ops| - 1])
  {
    var front := ops[..|ops| - 1];
    forall i | 0 <= i < |front| ensures front[..i] == ops[..i] {
    }
  }

  lemma {:induction false} EntryAfter(s: State, ops: seq<Op>, t: TableId, k: KeyValues)
    requires Legal(s, ops)
    ensures LastAt(ops, Insert(t, k)) ==> k in Entries(ApplyAll(s, ops), t)
    ensures LastAt(ops, Delete(t, k)) ==> k !in Entries(ApplyAll(s, ops), t)
    ensures LastAt(ops, Update(t, k)) ==> k in Entries(ApplyAll(s, ops), t)
    ensures !Touched(ops, t, k) ==> (k in Entries(ApplyAll(s, ops), t) <==> k in Entries(s, t))
    decreases |ops|
  {
    if ops != [] {
      hide LastAt, Touched;
      var front, next := ops[..|ops| - 1], ops[|ops| - 1];
      assert ops == front + [next];
      LegalFront(s, ops);
      EntryAfter(s, front, t, k);
      LastAtNext(front, next, Insert(t, k));
      LastAtNext(front, next, Update(t, k));
      LastAtNext(front, next, Delete(t, k));
      TouchedNext(front, next, t, k);
    }
  }

  /** An entry this statement added whose insert was followed by an update: only the update is verified. */
  ghost predicate Masked(s: State, ops: seq<Op>, t: TableId, k: KeyValues) {
    k !in Entries(s, t) && LastAt(ops, Update(t, k))
  }

  /** A new entry was inserted last, unless its insert is masked. */
  lemma NewEntry(s: State, ops: seq<Op>, t: TableId, k: KeyValues)
    requires Legal(s, ops) && k in Entries(ApplyAll(s, ops), t) && k !in Entries(s, t)
    ensures LastAt(ops, Insert(t, k)) || Masked(s, ops, t, k)
  {
    EntryAfter(s, ops, t, k);
    var op :| LastAt(ops, op) && op.table == t && op.key == k;
    assert op == Insert(t, k) || op == Update(t, k) || op == Delete(t, k);
  }

  /** An entry that is gone was deleted last. */
  lemma LostEntry(s: State, ops: seq<Op>, t: TableId, k: KeyValues)
    requires Legal(s, ops) && k !in Entries(ApplyAll(s, ops), t) && k in Entries(s, t)
    ensures LastAt(ops, Delete(t, k))
  {
    EntryAfter(s, ops, t, k);
    var op :| LastAt(ops, op) && op.table == t && op.key == k;
    assert op == Insert(t, k) || op == Update(t, k) || op == Delete(t, k);
  }

  // ---------------------------------------------------------------------------
  // Checking the touched entries is checking everything
  // ---------------------------------------------------------------------------

  /**
   * Every key has the columns the constraint speaks of, and an index data table gets
   * inserts and deletes only, which is all the index effector queues.
   */
  ghost predicate Fits(c: Constraint, s: State, ops: seq<Op>) {
    && (forall i :: 0 <= i < |ops| ==> LongEnough(c, ops[i]))
    && match c
       case ForeignKey(referencing, referenced, n, _) =>
         forall k :: k in Entries(s, referencing) || k in Entries(s, referenced) ==> |k| >= n
       case Index(table, n, _) =>
         && (forall k :: k in Entries(s, table) ==> |k| >= n)
         && (forall i :: 0 <= i < |ops| && ops[i].table == table ==> !ops[i].Update?)
  }

  ghost predicate SamePrefix(a: KeyValues, b: KeyValues, n: nat) {
    |a| >= n && |b| >= n && a[..n] == b[..n]
  }

  /**
   * Some check, or the constraint before the statement, answers for the key: an old entry,
   * an entry inserted last, or an entry of the referenced table the statement wrote.
   */
  ghost predicate Vouched(c: Constraint, s: State, ops: seq<Op>, k: KeyValues)
    requires c.ForeignKey?
  {
    exists e :: SamePrefix(e, k, c.columns) &&
      (e in Entries(s, c.referencing) || LastAt(ops, Insert(c.referencing, e)) || Touched(ops, c.referenced, e))
  }

  /** Every entry whose insert is masked is answered for by another. */
  ghost predicate AllVouched(c: Constraint, s: State, ops: seq<Op>)
    requires c.ForeignKey?
  {
    forall k :: Masked(s, ops, c.referencing, k) ==> Vouched(c, s, ops, k)
  }

  /**
   * A referencing entry whose prefix an old entry has: the referenced key is still there, or its
   * delete was checked.
   */
  lemma OldPrefix(c: Constraint, s: State, ops: seq<Op>, e: KeyValues, k: KeyValues)
    requires c.ForeignKey? && c.enforced && Legal(s, ops) && Fits(c, s, ops) && Holds(c, s) &&
             Passes(c, ApplyAll(s, ops), ops)
    requires e in Entries(s, c.referencing) && k in Entries(ApplyAll(s, ops), c.referencing) &&
             SamePrefix(e, k, c.columns)
    ensures PrefixExists(ApplyAll(s, ops), c.referenced, k[..c.columns])
  {
    hide ApplyAll, LastAt;
    var final, n := ApplyAll(s, ops), c.columns;
    var r :| r in Entries(s, c.referenced) && e[..n] <= r;
    assert r[..n] == k[..n] && k[..n] <= k;
    if r !in Entries(final, c.referenced) {
      LostEntry(s, ops, c.referenced, r);
      assert Verify(c, final, Delete(c.referenced, r)) == Ok;
    }
  }

  /** A referencing entry whose prefix a written entry of the referenced table has. */
  lemma WrittenPrefix(c: Constraint, s: State, ops: seq<Op>, e: KeyValues, k: KeyValues)
    requires c.ForeignKey? && c.enforced && Legal(s, ops) && Fits(c, s, ops) && Passes(c, ApplyAll(s, ops), ops)
    requires Touched(ops, c.referenced, e) && k in Entries(ApplyAll(s, ops), c.referencing) &&
             SamePrefix(e, k, c.columns)
    ensures PrefixExists(ApplyAll(s, ops), c.referenced, k[..c.columns])
  {
    hide ApplyAll, LastAt;
    var final, n := ApplyAll(s, ops), c.columns;
    EntryAfter(s, ops, c.referenced, e);
    var op :| LastAt(ops, op) && op.table == c.referenced && op.key == e;
    assert op == Insert(c.referenced, e) || op == Update(c.referenced, e) || op == Delete(c.referenced, e);
    assert e[..n] == k[..n] && k[..n] <= k && k[..n] <= e;
    if op.Delete? {
      assert Verify(c, final, op) == Ok;
    }
  }

  lemma ForeignKeySound(c: Constraint, s: State, ops: seq<Op>)
    requires c.ForeignKey? && Legal(s, ops) && Fits(c, s, ops) && Holds(c, s)
    requires Passes(c, ApplyAll(s, ops), ops) && AllVouched(c, s, ops)
    ensures Holds(c, ApplyAll(s, ops))
  {
    hide ApplyAll, LastAt, Touched, Masked, Vouched;
    var final, n := ApplyAll(s, ops), c.columns;
    if c.enforced {
      forall k | k in Entries(final, c.referencing) && |k| >= n ensures PrefixExists(final, c.referenced, k[..n]) {
        if k in Entries(s, c.referencing) {
          OldPrefix(c, s, ops, k, k);
        } else {
          NewEntry(s, ops, c.referencing, k);
          if LastAt(ops, Insert(c.referencing, k)) {
            assert Verify(c, final, Insert(c.referencing, k)) == Ok;
          } else {
            VouchedPrefix(c, s, ops, k);
          }
        }
      }
    }
  }

  lemma VouchedPrefix(c: Constraint, s: State, ops: seq<Op>, k: KeyValues)
    requires c.ForeignKey? && c.enforced && Legal(s, ops) && Fits(c, s, ops) && Holds(c, s) &&
             Passes(c, ApplyAll(s, ops), ops)
    requires k in Entries(ApplyAll(s, ops), c.referencing) && Vouched(c, s, ops, k)
    ensures PrefixExists(ApplyAll(s, ops), c.referenced, k[..c.columns])
  {
    hide ApplyAll, LastAt, Touched, Holds;
    var e :| SamePrefix(e, k, c.columns) &&
      (e in Entries(s, c.referencing) || LastAt(ops, Insert(c.referencing, e)) || Touched(ops, c.referenced, e));
    if e in Entries(s, c.referencing) {
      OldPrefix(c, s, ops, e, k);
    } else if Touched(ops, c.referenced, e) {
      WrittenPrefix(c, s, ops, e, k);
    } else {
      assert Verify(c, ApplyAll(s, ops), Insert(c.referencing, e)) == Ok;
    }
  }

  lemma NeverMasked(c: Constraint, s: State, ops: seq<Op>, k: KeyValues)
    requires c.Index? && Fits(c, s, ops)
    ensures !Masked(s, ops, c.table, k)
  {
  }

  lemma UniqueSound(c: Constraint, s: State, ops: seq<Op>)
    requires c.Index? && Legal(s, ops) && Fits(c, s, ops) && Holds(c, s)
    requires Passes(c, ApplyAll(s, ops), ops)
    ensures Holds(c, ApplyAll(s, ops))
  {
    hide ApplyAll, LastAt;
    var final, n := ApplyAll(s, ops), c.columns;
    if c.unique {
      forall a, b | a in Entries(final, c.table) && b in Entries(final, c.table) && |a| >= n && |b| >= n &&
                    a[..n] == b[..n]
        ensures a == b
      {
        if a !in Entries(s, c.table) {
          NewEntryUnique(c, s, ops, a, b);
        } else if b !in Entries(s, c.table) {
          NewEntryUnique(c, s, ops, b, a);
        }
      }
    }
  }

  lemma NewEntryUnique(c: Constraint, s: State, ops: seq<Op>, a: KeyValues, b: KeyValues)
    requires c.Index? && c.unique && Legal(s, ops) && Fits(c, s, ops) && Passes(c, ApplyAll(s, ops), ops)
    requires a in Entries(ApplyAll(s, ops), c.table) && b in Entries(ApplyAll(s, ops), c.table)
    requires |a| >= c.columns && |b| >= c.columns && a[..c.columns] == b[..c.columns] && a !in Entries(s, c.table)
    ensures a == b
  {
    hide ApplyAll, LastAt, Masked;
    var final, n := ApplyAll(s, ops), c.columns;
    NewEntry(s, ops, c.table, a);
    NeverMasked(c, s, ops, a);
    assert Verify(c, final, Insert(c.table, a)) == Ok;
    var found := set k | k in Entries(final, c.table) && a[..n] <= k;
    assert a[..n] <= a && b[..n] <= b;
    OneElement(found, a, b);
  }

  lemma OneElement(found: set<KeyValues>, a: KeyValues, b: KeyValues)
    requires |found| <= 1 && a in found && b in found
    ensures a == b
  {
    assert |found - {a}| == |found| - 1;
    assert a != b ==> b in found - {a};
  }

  lemma FitsAfter(c: Constraint, s: State, ops: seq<Op>, k: KeyValues)
    requires Legal(s, ops) && Fits(c, s, ops)
    ensures c.ForeignKey? && k in Entries(ApplyAll(s, ops), c.referencing) ==> |k| >= c.columns
    ensures c.Index? && k in Entries(ApplyAll(s, ops), c.table) ==> |k| >= c.columns
  {
    hide ApplyAll;
    var t := if c.ForeignKey? then c.referencing else c.table;
    if k in Entries(ApplyAll(s, ops), t) && k !in Entries(s, t) {
      NewEntry(s, ops, t, k);
    }
  }

  lemma VerifyHolds(c: Constraint, s: State, op: Op)
    requires Holds(c, s) && LongEnough(c, op) && (op.Insert? ==> op.key in Entries(s, op.table))
    requires forall k :: c.ForeignKey? && k in Entries(s, c.referencing) ==> |k| >= c.columns
    requires forall k :: c.Index? && k in Entries(s, c.table) ==> |k| >= c.columns
    ensures Verify(c, s, op) == Ok
  {
    match c
    case ForeignKey(referencing, referenced, n, enforced) =>
      if op.Delete? && op.table == referenced && enforced && PrefixExists(s, referencing, op.key[..n]) {
        var k :| k in Entries(s, referencing) && op.key[..n] <= k;
        assert k[..n] == op.key[..n];
      }
    case Index(table, n, unique) =>
      if op.Insert? && op.table == table && unique {
        var found := set k | k in Entries(s, table) && op.key[..n] <= k;
        assert op.key[..n] <= op.key;
        forall k | k in found ensures k == op.key {
          assert k[..n] == op.key[..n];
        }
        assert found == {op.key};
      }
  }

  /** If the constraint holds, no verifier complains: there are no false alarms. */
  lemma ChecksComplete(c: Constraint, s: State, ops: seq<Op>)
    requires Legal(s, ops) && Fits(c, s, ops) && Holds(c, ApplyAll(s, ops))
    ensures Passes(c, ApplyAll(s, ops), ops)
  {
    hide ApplyAll;
    var final := ApplyAll(s, ops);
    forall k ensures c.ForeignKey? && k in Entries(final, c.referencing) ==> |k| >= c.columns {
      FitsAfter(c, s, ops, k);
    }
    forall k ensures c.Index? && k in Entries(final, c.table) ==> |k| >= c.columns {
      FitsAfter(c, s, ops, k);
    }
    forall op | LastAt(ops, op) ensures LongEnough(c, op) && Verify(c, final, op) == Ok {
      EntryAfter(s, ops, op.table, op.key);
      VerifyHolds(c, final, op);
    }
  }

  /** The verifiers decide the constraint. */
  ghost predicate Decides(c: Constraint, s: State, ops: seq<Op>) {
    Holds(c, ApplyAll(s, ops)) <==> Passes(c, ApplyAll(s, ops), ops)
  }

  /** UNIQUE is always decided; a foreign key is if every masked entry is answered for. */
  lemma ChecksDecide(c: Constraint, s: State, ops: seq<Op>)
    requires Legal(s, ops) && Fits(c, s, ops) && Holds(c, s)
    requires c.ForeignKey? ==> AllVouched(c, s, ops)
    ensures Decides(c, s, ops)
  {
    hide Holds, Passes, AllVouched;
    if Holds(c, ApplyAll(s, ops)) {
      ChecksComplete(c, s, ops);
    }
    if Passes(c, ApplyAll(s, ops), ops) {
      if c.ForeignKey? {
        ForeignKeySound(c, s, ops);
      } else {
        UniqueSound(c, s, ops);
      }
    }
  }

  // ---------------------------------------------------------------------------
  // Exactly when a foreign key is decided
  // ---------------------------------------------------------------------------

  /** The same state with other contents of the referenced table. */
  function Referring(c: Constraint, s: State, contents: set<KeyValues>): State
    requires c.ForeignKey?
  {
    s[c.referenced := contents]
  }

  /** Keys of one length whose first `n` columns tell them apart. */
  ghost predicate Keyed(keys: set<KeyValues>, m: nat, n: nat) {
    && (forall a :: a in keys ==> |a| == m)
    && (forall a, b :: a in keys && b in keys && SamePrefix(a, b, n) ==> a == b)
  }

  /**
   * What the existence validator and the index effector see to in the referenced table,
   * whose keys have `m` columns: rows are inserted only where there is none, and if it is
   * an index data table it gets no updates, and deletes only of entries it has.
   */
  ghost predicate Accepted(c: Constraint, m: nat, s: State, ops: seq<Op>)
    requires c.ForeignKey?
  {
    forall i :: 0 <= i < |ops| && ops[i].table == c.referenced ==> AcceptedAt(c, m, s, ops, i)
  }

  ghost predicate AcceptedAt(c: Constraint, m: nat, s: State, ops: seq<Op>, i: nat)
    requires c.ForeignKey? && i < |ops|
  {
    var there := ops[i].key in Entries(ApplyAll(s, ops[..i]), c.referenced);
    && |ops[i].key| == m && (ops[i].Insert? ==> !there)
    && (m > c.columns ==> !ops[i].Update? && (ops[i].Delete? ==> there))
  }

  /**
   * The statement can run from the state, where the foreign key holds. The referenced
   * table is one whose primary key the foreign key is, or the data table of a UNIQUE index.
   */
  ghost predicate Start(c: Constraint, m: nat, s: State, ops: seq<Op>) {
    && c.ForeignKey? && c.enforced && c.referencing != c.referenced && c.columns <= m
    && Keyed(Entries(s, c.referenced), m, c.columns) && Accepted(c, m, s, ops)
    && Legal(s, ops) && Fits(c, s, ops) && Holds(c, s)
  }

  /** UNIQUE in the referenced table, which a primary key is without being checked. */
  function Uniqueness(c: Constraint): Constraint
    requires c.ForeignKey?
  {
    Index(c.referenced, c.columns, true)
  }

  /** Whether an entry exists afterwards depends on whether it did before, and on the writes. */
  lemma {:induction false} EntryDepends(a: State, b: State, ops: seq<Op>, t: TableId, k: KeyValues)
    requires k in Entries(a, t) <==> k in Entries(b, t)
    ensures k in Entries(ApplyAll(a, ops), t) <==> k in Entries(ApplyAll(b, ops), t)
    decreases |ops|
  {
    if ops != [] {
      EntryDepends(a, b, ops[..|ops| - 1], t, k);
    }
  }

  lemma {:induction false} Someone(ops: seq<Op>, i: nat)
    requires i < |ops|
    ensures Touched(ops, ops[i].table, ops[i].key)
    decreases |ops| - i
  {
    if IsLast(ops, i) {
      assert LastAt(ops, ops[i]);
    } else {
      var j :| i < j < |ops| && SameEntry(ops[i], ops[j]);
      Someone(ops, j);
    }
  }

  lemma ReferencingSame(c: Constraint, s: State, ops: seq<Op>, contents: set<KeyValues>, e: KeyValues)
    requires c.ForeignKey? && c.referencing != c.referenced
    ensures e in Entries(ApplyAll(Referring(c, s, contents), ops), c.referencing) <==>
            e in Entries(ApplyAll(s, ops), c.referencing)
  {
    EntryDepends(Referring(c, s, contents), s, ops, c.referencing, e);
  }

  lemma LastTouches(ops: seq<Op>, op: Op)
    requires LastAt(ops, op)
    ensures Touched(ops, op.table, op.key)
  {
  }

  lemma TouchedCases(ops: seq<Op>, t: TableId, k: KeyValues)
    ensures Touched(ops, t, k) <==>
            LastAt(ops, Insert(t, k)) || LastAt(ops, Update(t, k)) || LastAt(ops, Delete(t, k))
  {
    hide LastAt;
    if Touched(ops, t, k) {
      var op :| LastAt(ops, op) && op.table == t && op.key == k;
      assert op == Insert(t, k) || op == Update(t, k) || op == Delete(t, k);
    }
  }

  // When a verifier complains whatever the referenced table holds.

  /** The statement leaves an entry with this prefix that it wrote in the referenced table. */
  ghost predicate Kept(c: Constraint, ops: seq<Op>, q: KeyValues)
    requires c.ForeignKey?
  {
    exists a :: q <= a && (LastAt(ops, Insert(c.referenced, a)) || LastAt(ops, Update(c.referenced, a)))
  }

  /** It writes an entry with this prefix that was there before. */
  ghost predicate Rewritten(c: Constraint, s: State, ops: seq<Op>, q: KeyValues)
    requires c.ForeignKey?
  {
    exists r :: r in Entries(s, c.referenced) && q <= r && Touched(ops, c.referenced, r)
  }

  /** Two entries with the prefix are inserted. */
  ghost predicate InsertedTwice(c: Constraint, ops: seq<Op>, q: KeyValues)
    requires c.ForeignKey?
  {
    exists a, b ::
      a != b && q <= a && q <= b && LastAt(ops, Insert(c.referenced, a)) && LastAt(ops, Insert(c.referenced, b))
  }

  /** One is inserted beside the old one, which an old referencing entry shows to be there. */
  ghost predicate InsertedBeside(c: Constraint, s: State, ops: seq<Op>, q: KeyValues)
    requires c.ForeignKey?
  {
    && PrefixExists(s, c.referencing, q) && !Rewritten(c, s, ops, q)
    && exists a :: q <= a && LastAt(ops, Insert(c.referenced, a))
  }

  /** A referencing entry is left whose referenced entry is deleted, with none left in its place. */
  ghost predicate DeletedUnder(c: Constraint, m: nat, s: State, ops: seq<Op>, q: KeyValues)
    requires c.ForeignKey?
  {
    && PrefixExists(ApplyAll(s, ops), c.referencing, q) && !Kept(c, ops, q)
    && exists r :: q <= r && LastAt(ops, Delete(c.referenced, r)) && (m == c.columns || r in Entries(s, c.referenced))
  }

  ghost predicate Refused(c: Constraint, m: nat, s: State, ops: seq<Op>, q: KeyValues)
    requires c.ForeignKey?
  {
    |q| == c.columns && (InsertedTwice(c, ops, q) || InsertedBeside(c, s, ops, q) || DeletedUnder(c, m, s, ops, q))
  }

  lemma {:induction false} Unwritten(s: State, ops: seq<Op>, t: TableId, k: KeyValues)
    requires forall i :: 0 <= i < |ops| ==> ops[i].table != t || ops[i].key != k
    ensures k in Entries(ApplyAll(s, ops), t) <==> k in Entries(s, t)
    decreases |ops|
  {
    if ops != [] {
      Unwritten(s, ops[..|ops| - 1], t, k);
    }
  }

  lemma {:induction false} FirstWrite(ops: seq<Op>, i: nat) returns (first: nat)
    requires i < |ops|
    ensures first <= i && SameEntry(ops[first], ops[i]) && forall j :: 0 <= j < first ==> !SameEntry(ops[j], ops[i])
  {
    if j :| 0 <= j < i && SameEntry(ops[j], ops[i]) {
      first := FirstWrite(ops, j);
    } else {
      first := i;
    }
  }

  /** The first write of an index entry tells whether it was there. */
  lemma SameWritten(c: Constraint, m: nat, a: State, b: State, ops: seq<Op>, r: KeyValues)
    requires c.ForeignKey? && m > c.columns && Accepted(c, m, a, ops) && Accepted(c, m, b, ops)
    requires Touched(ops, c.referenced, r)
    ensures r in Entries(a, c.referenced) <==> r in Entries(b, c.referenced)
  {
    hide ApplyAll;
    var op :| LastAt(ops, op) && op.table == c.referenced && op.key == r;
    var i :| 0 <= i < |ops| && ops[i] == op && IsLast(ops, i);
    var first := FirstWrite(ops, i);
    assert AcceptedAt(c, m, a, ops, first) && AcceptedAt(c, m, b, ops, first);
    Unwritten(a, ops[..first], c.referenced, r);
    Unwritten(b, ops[..first], c.referenced, r);
  }

  lemma TwoFail(c: Constraint, s: State, ops: seq<Op>, q: KeyValues, a: KeyValues, b: KeyValues)
    requires c.ForeignKey? && |q| == c.columns && q <= a && q <= b && a != b && LastAt(ops, Insert(c.referenced, a))
    requires a in Entries(s, c.referenced) && b in Entries(s, c.referenced)
    ensures !Passes(Uniqueness(c), s, ops)
  {
    hide LastAt;
    var u, op := Uniqueness(c), Insert(c.referenced, a);
    var found := set k | k in Entries(s, u.table) && a[..u.columns] <= k;
    assert a[..u.columns] == q && a in found && b in found;
    if Passes(u, s, ops) {
      assert Verify(u, s, op) == Ok;
      OneElement(found, a, b);
    }
  }

  /** A refused statement is refused from every start. */
  lemma RefusedFails(c: Constraint, m: nat, s: State, ops: seq<Op>, contents: set<KeyValues>, q: KeyValues)
    requires Start(c, m, s, ops) && Start(c, m, Referring(c, s, contents), ops) && Refused(c, m, s, ops, q)
    ensures var final := ApplyAll(Referring(c, s, contents), ops);
            !Passes(c, final, ops) || !Passes(Uniqueness(c), final, ops)
  {
    hide ApplyAll, LastAt, Touched, Legal, Accepted, Fits, Holds, Passes, Rewritten, Kept;
    var start := Referring(c, s, contents);
    if InsertedTwice(c, ops, q) {
      var a, b :|
          a != b && q <= a && q <= b && LastAt(ops, Insert(c.referenced, a)) && LastAt(ops, Insert(c.referenced, b));
      EntryAfter(start, ops, c.referenced, a);
      EntryAfter(start, ops, c.referenced, b);
      TwoFail(c, ApplyAll(start, ops), ops, q, a, b);
    } else if InsertedBeside(c, s, ops, q) {
      BesideFails(c, m, s, ops, contents, q);
    } else {
      UnderFails(c, m, s, ops, contents, q);
    }
  }

  /** An old referencing entry has its referenced entry at the start. */
  lemma OldHas(c: Constraint, s: State, q: KeyValues) returns (r: KeyValues)
    requires c.ForeignKey? && c.enforced && Holds(c, s) && |q| == c.columns && PrefixExists(s, c.referencing, q)
    ensures r in Entries(s, c.referenced) && q <= r
  {
    var e :| e in Entries(s, c.referencing) && q <= e;
    assert e[..c.columns] == q;
    r :| r in Entries(s, c.referenced) && q <= r;
  }

  lemma WholeKeys(q: KeyValues, a: KeyValues, b: KeyValues)
    requires |q| == |a| == |b| && q <= a && q <= b
    ensures a == b
  {
  }

  lemma BesideFails(c: Constraint, m: nat, s: State, ops: seq<Op>, contents: set<KeyValues>, q: KeyValues)
    requires Start(c, m, s, ops) && Start(c, m, Referring(c, s, contents), ops) && |q| == c.columns
    requires InsertedBeside(c, s, ops, q)
    ensures !Passes(Uniqueness(c), ApplyAll(Referring(c, s, contents), ops), ops)
  {
    hide ApplyAll, LastAt, Touched, Legal, Accepted, Fits, Holds, Passes, Keyed;
    var start := Referring(c, s, contents);
    var a :| q <= a && LastAt(ops, Insert(c.referenced, a));
    TouchedCases(ops, c.referenced, a);
    var was := OldHas(c, s, q);
    assert Entries(start, c.referencing) == Entries(s, c.referencing);
    var r := OldHas(c, start, q);
    if m == c.columns {
      WrittenLength(c, m, s, ops, a);
      KeyedLength(c, m, s, was);
      WholeKeys(q, a, was);
    } else if Touched(ops, c.referenced, r) {
      SameWritten(c, m, s, start, ops, r);
    } else {
      EntryAfter(start, ops, c.referenced, a);
      EntryAfter(start, ops, c.referenced, r);
      TwoFail(c, ApplyAll(start, ops), ops, q, a, r);
    }
  }

  lemma WrittenLength(c: Constraint, m: nat, s: State, ops: seq<Op>, r: KeyValues)
    requires c.ForeignKey? && Accepted(c, m, s, ops) && Touched(ops, c.referenced, r)
    ensures |r| == m
  {
    var op :| LastAt(ops, op) && op.table == c.referenced && op.key == r;
    var i :| 0 <= i < |ops| && ops[i] == op && IsLast(ops, i);
    assert AcceptedAt(c, m, s, ops, i);
  }

  lemma KeyedLength(c: Constraint, m: nat, s: State, r: KeyValues)
    requires c.ForeignKey? && Keyed(Entries(s, c.referenced), m, c.columns) && r in Entries(s, c.referenced)
    ensures |r| == m
  {
  }

  /** No other entry at the start has the prefix of a deleted one. */
  lemma OnlyDeleted(c: Constraint, m: nat, s: State, ops: seq<Op>, contents: set<KeyValues>, r: KeyValues, u: KeyValues)
    requires Start(c, m, s, ops) && Start(c, m, Referring(c, s, contents), ops)
    requires LastAt(ops, Delete(c.referenced, r)) && (m == c.columns || r in Entries(s, c.referenced))
    requires u in contents && SamePrefix(r, u, c.columns)
    ensures r == u
  {
    hide ApplyAll, LastAt, Touched, Legal, Accepted, Fits, Holds;
    TouchedCases(ops, c.referenced, r);
    WrittenLength(c, m, s, ops, r);
    KeyedLength(c, m, Referring(c, s, contents), u);
    if m > c.columns {
      SameWritten(c, m, s, Referring(c, s, contents), ops, r);
    }
  }

  lemma UnderFails(c: Constraint, m: nat, s: State, ops: seq<Op>, contents: set<KeyValues>, q: KeyValues)
    requires Start(c, m, s, ops) && Start(c, m, Referring(c, s, contents), ops) && |q| == c.columns
    requires DeletedUnder(c, m, s, ops, q)
    ensures !Passes(c, ApplyAll(Referring(c, s, contents), ops), ops)
  {
    hide ApplyAll, LastAt, Touched, Legal, Accepted, Fits, Holds;
    var start := Referring(c, s, contents);
    var final := ApplyAll(start, ops);
    var r :| q <= r && LastAt(ops, Delete(c.referenced, r)) && (m == c.columns || r in Entries(s, c.referenced));
    TouchedCases(ops, c.referenced, r);
    forall u | u in Entries(final, c.referenced) ensures !(q <= u) {
      EntryAfter(start, ops, c.referenced, u);
      TouchedCases(ops, c.referenced, u);
      if q <= u && u in Entries(start, c.referenced) {
        OnlyDeleted(c, m, s, ops, contents, r, u);
      }
    }
    var e :| e in Entries(ApplyAll(s, ops), c.referencing) && q <= e;
    ReferencingSame(c, s, ops, contents, e);
    assert r[..c.columns] == q;
    assert Verify(c, final, Delete(c.referenced, r)) == ReferencingKeyFound;
  }

  // Contents that let a statement through that is neither refused nor answered for.

  /** Above every number in the keys the statement writes. */
  function Above(ops: seq<Op>): (v: int)
    ensures forall i, j :: 0 <= i < |ops| && 0 <= j < |ops[i].key| && ops[i].key[j].Of? ==> ops[i].key[j].n < v
  {
    if ops == [] then 0
    else
      var v, w := Above(ops[..|ops| - 1]), AboveKey(ops[|ops| - 1].key);
      assert forall i :: 0 <= i < |ops| - 1 ==> ops[..|ops| - 1][i] == ops[i];
      if v < w then w else v
  }

  function AboveKey(key: KeyValues): (v: int)
    ensures forall j :: 0 <= j < |key| && key[j].Of? ==> key[j].n < v
  {
    if key == [] then 0
    else
      var v, last := AboveKey(key[..|key| - 1]), key[|key| - 1];
      if last.Of? && last.n >= v then last.n + 1 else v
  }

  /** A key of `m` columns with the prefix that the statement does not write, if there is one. */
  function Filled(m: nat, q: KeyValues, ops: seq<Op>): KeyValues
    requires |q| <= m
  {
    q + seq(m - |q|, i => Of(Above(ops)))
  }

  lemma FilledUntouched(m: nat, q: KeyValues, ops: seq<Op>, t: TableId)
    requires |q| < m
    ensures !Touched(ops, t, Filled(m, q, ops))
  {
    var key := Filled(m, q, ops);
    assert key[|q|] == Of(Above(ops));
  }

  /** The prefixes of the referencing entries before and after, but for that of `k`. */
  ghost predicate Wanted(c: Constraint, s: State, ops: seq<Op>, k: KeyValues, q: KeyValues)
    requires c.ForeignKey? && |k| >= c.columns
  {
    && |q| == c.columns && q != k[..c.columns]
    && (PrefixExists(s, c.referencing, q) || PrefixExists(ApplyAll(s, ops), c.referencing, q))
  }

  /** Those the statement itself writes nothing for that was there before or stays. */
  ghost function Missing(c: Constraint, s: State, ops: seq<Op>, k: KeyValues): (missing: set<KeyValues>)
    requires c.ForeignKey? && |k| >= c.columns
    ensures forall q :: q in missing <==> Wanted(c, s, ops, k, q) && !Rewritten(c, s, ops, q) && !Kept(c, ops, q)
  {
    var prefixes := set e | e in Entries(s, c.referencing) + Entries(ApplyAll(s, ops), c.referencing) &&
                            |e| >= c.columns :: e[..c.columns];
    WantedPrefixes(c, s, ops, k, prefixes);
    set q | q in prefixes && Wanted(c, s, ops, k, q) && !Rewritten(c, s, ops, q) && !Kept(c, ops, q)
  }

  lemma WantedPrefixes(c: Constraint, s: State, ops: seq<Op>, k: KeyValues, prefixes: set<KeyValues>)
    requires c.ForeignKey? && |k| >= c.columns
    requires prefixes == set e | e in Entries(s, c.referencing) + Entries(ApplyAll(s, ops), c.referencing) &&
                                 |e| >= c.columns :: e[..c.columns]
    ensures forall q :: Wanted(c, s, ops, k, q) ==> q in prefixes
  {
    hide ApplyAll;
    forall q | Wanted(c, s, ops, k, q) ensures q in prefixes {
      var e :| (e in Entries(s, c.referencing) || e in Entries(ApplyAll(s, ops), c.referencing)) && q <= e;
      assert e[..c.columns] == q;
    }
  }

  /** Written entries are as they were, and an entry nobody writes stands for each missing prefix. */
  ghost function Witness(c: Constraint, m: nat, s: State, ops: seq<Op>, k: KeyValues): set<KeyValues>
    requires c.ForeignKey? && |k| >= c.columns && c.columns <= m
  {
    (set q | q in Missing(c, s, ops, k) :: Filled(m, q, ops)) +
    (set r | r in Entries(s, c.referenced) && Touched(ops, c.referenced, r))
  }

  /** What the witness is used for: an entry no one answers for, in a statement no one refuses. */
  ghost predicate Alone(c: Constraint, m: nat, s: State, ops: seq<Op>, k: KeyValues) {
    && Start(c, m, s, ops) && |k| >= c.columns && Masked(s, ops, c.referencing, k) && !Vouched(c, s, ops, k)
    && forall q :: !Refused(c, m, s, ops, q)
  }

  /** The deleted key was there before, or a referencing entry is left without it. */
  lemma DeletedIsRefused(c: Constraint, s: State, ops: seq<Op>, q: KeyValues)
    requires Start(c, c.columns, s, ops) && |q| == c.columns && LastAt(ops, Delete(c.referenced, q))
    requires PrefixExists(s, c.referencing, q) || PrefixExists(ApplyAll(s, ops), c.referencing, q)
    ensures Rewritten(c, s, ops, q) || Kept(c, ops, q) || Refused(c, c.columns, s, ops, q)
  {
    hide ApplyAll, LastAt, Touched, Legal, Accepted, Fits, Holds, Keyed;
    TouchedCases(ops, c.referenced, q);
    assert q <= q;
    if PrefixExists(s, c.referencing, q) {
      var r := OldHas(c, s, q);
      KeyedLength(c, c.columns, s, r);
      assert r == q;
    }
  }

  lemma GoneIsRefused(c: Constraint, m: nat, s: State, ops: seq<Op>, q: KeyValues, r: KeyValues)
    requires c.ForeignKey? && |q| == c.columns && q <= r && LastAt(ops, Delete(c.referenced, r))
    requires r in Entries(s, c.referenced) && PrefixExists(ApplyAll(s, ops), c.referencing, q) && !Kept(c, ops, q)
    ensures Refused(c, m, s, ops, q)
  {
  }

  /** What stands for a missing prefix is not written. */
  lemma MissingUntouched(c: Constraint, m: nat, s: State, ops: seq<Op>, k: KeyValues, q: KeyValues)
    requires Alone(c, m, s, ops, k) && q in Missing(c, s, ops, k)
    ensures |q| == c.columns && !Touched(ops, c.referenced, Filled(m, q, ops))
  {
    hide ApplyAll, LastAt, Touched, Legal, Accepted, Fits, Holds, Vouched, Masked, Keyed, Filled;
    if m > c.columns {
      FilledUntouched(m, q, ops, c.referenced);
    } else if Touched(ops, c.referenced, q) {
      TouchedCases(ops, c.referenced, q);
      assert q <= q;
      DeletedIsRefused(c, s, ops, q);
    }
    FilledWhole(m, q, ops);
  }

  lemma FilledWhole(m: nat, q: KeyValues, ops: seq<Op>)
    requires |q| <= m
    ensures |Filled(m, q, ops)| == m && Filled(m, q, ops)[..|q|] == q && (|q| == m ==> Filled(m, q, ops) == q)
  {
  }

  /** The witness has a written entry exactly if the state had, and otherwise what is missing. */
  lemma WitnessEntries(c: Constraint, m: nat, s: State, ops: seq<Op>, k: KeyValues, r: KeyValues)
    requires Alone(c, m, s, ops, k)
    ensures Touched(ops, c.referenced, r) ==>
              (r in Witness(c, m, s, ops, k) <==> r in Entries(s, c.referenced))
    ensures r in Witness(c, m, s, ops, k) && !Touched(ops, c.referenced, r) ==>
              exists q :: q in Missing(c, s, ops, k) && r == Filled(m, q, ops)
  {
    hide Missing, Touched, Filled, Vouched, Masked, Refused, ApplyAll, Legal, Accepted, Fits, Holds, Keyed;
    forall q | q in Missing(c, s, ops, k) ensures |q| <= m && !Touched(ops, c.referenced, Filled(m, q, ops)) {
      MissingUntouched(c, m, s, ops, k, q);
    }
  }

  /** A written entry is there at every moment as it is from the state. */
  lemma WitnessAt(c: Constraint, m: nat, s: State, ops: seq<Op>, k: KeyValues, i: nat)
    requires Alone(c, m, s, ops, k) && i < |ops|
    ensures var start := Referring(c, s, Witness(c, m, s, ops, k));
      ops[i].key in Entries(ApplyAll(start, ops[..i]), ops[i].table) <==>
      ops[i].key in Entries(ApplyAll(s, ops[..i]), ops[i].table)
  {
    hide Witness, ApplyAll, Touched, Vouched, Masked, Refused, Legal, Accepted, Fits, Holds, Keyed;
    Someone(ops, i);
    WitnessEntries(c, m, s, ops, k, ops[i].key);
    EntryDepends(s, Referring(c, s, Witness(c, m, s, ops, k)), ops[..i], ops[i].table, ops[i].key);
  }

  lemma WitnessRuns(c: Constraint, m: nat, s: State, ops: seq<Op>, k: KeyValues)
    requires Alone(c, m, s, ops, k)
    ensures Legal(Referring(c, s, Witness(c, m, s, ops, k)), ops)
    ensures Accepted(c, m, Referring(c, s, Witness(c, m, s, ops, k)), ops)
  {
    hide Witness, Vouched, Masked, ApplyAll, Refused, Holds, Fits, Keyed;
    var start := Referring(c, s, Witness(c, m, s, ops, k));
    forall i | 0 <= i < |ops|
      ensures ops[i].Update? ==> ops[i].key in Entries(ApplyAll(start, ops[..i]), ops[i].table)
      ensures ops[i].table == c.referenced ==> AcceptedAt(c, m, start, ops, i)
    {
      WitnessAt(c, m, s, ops, k, i);
      assert ops[i].table == c.referenced ==> AcceptedAt(c, m, s, ops, i);
    }
  }

  lemma WitnessKeyed(c: Constraint, m: nat, s: State, ops: seq<Op>, k: KeyValues)
    requires Alone(c, m, s, ops, k)
    ensures Keyed(Witness(c, m, s, ops, k), m, c.columns)
  {
    hide Vouched, Masked, ApplyAll, Refused, Holds, Fits, Legal, Accepted, Touched, Filled, Missing, Kept;
    var n, contents := c.columns, Witness(c, m, s, ops, k);
    forall q | q in Missing(c, s, ops, k) ensures |q| == n && |Filled(m, q, ops)| == m && q == Filled(m, q, ops)[..n] {
      FilledWhole(m, q, ops);
    }
    forall a, b | a in contents && b in contents && SamePrefix(a, b, n) ensures a == b {
      assert a[..n] <= a && b[..n] <= b;
    }
  }

  /** Every wanted prefix but for the kept ones is in the witness. */
  lemma WitnessHas(c: Constraint, m: nat, s: State, ops: seq<Op>, k: KeyValues, q: KeyValues) returns (r: KeyValues)
    requires Alone(c, m, s, ops, k) && Wanted(c, s, ops, k, q) && !Kept(c, ops, q)
    ensures r in Witness(c, m, s, ops, k) && q <= r
    ensures Touched(ops, c.referenced, r) ==> r in Entries(s, c.referenced)
  {
    hide Vouched, Masked, ApplyAll, Refused, Holds, Fits, Legal, Accepted, Touched, Filled, Missing, Kept, Keyed;
    if Rewritten(c, s, ops, q) {
      r :| r in Entries(s, c.referenced) && q <= r && Touched(ops, c.referenced, r);
    } else {
      r := Filled(m, q, ops);
      FilledWhole(m, q, ops);
      MissingUntouched(c, m, s, ops, k, q);
    }
  }

  /** Whoever is left, but for `k`, has a referenced entry at the end. */
  lemma WitnessAnswers(c: Constraint, m: nat, s: State, ops: seq<Op>, k: KeyValues, q: KeyValues)
    requires Alone(c, m, s, ops, k) && |q| == c.columns && q != k[..c.columns]
    requires PrefixExists(ApplyAll(s, ops), c.referencing, q)
    ensures PrefixExists(ApplyAll(Referring(c, s, Witness(c, m, s, ops, k)), ops), c.referenced, q)
  {
    hide Vouched, Masked, ApplyAll, Holds, Fits, Legal, Accepted, Touched, Keyed, Witness, LastAt;
    var start := Referring(c, s, Witness(c, m, s, ops, k));
    WitnessRuns(c, m, s, ops, k);
    if Kept(c, ops, q) {
      var a :| q <= a && (LastAt(ops, Insert(c.referenced, a)) || LastAt(ops, Update(c.referenced, a)));
      EntryAfter(start, ops, c.referenced, a);
    } else {
      var r := WitnessHas(c, m, s, ops, k, q);
      EntryAfter(start, ops, c.referenced, r);
      TouchedCases(ops, c.referenced, r);
      if Touched(ops, c.referenced, r) {
        GoneIsRefused(c, m, s, ops, q, r);
      }
    }
  }

  /** An old referencing entry has a referenced entry in the witness. */
  lemma WitnessHolds(c: Constraint, m: nat, s: State, ops: seq<Op>, k: KeyValues, q: KeyValues)
    requires Alone(c, m, s, ops, k) && |q| == c.columns && q != k[..c.columns] && PrefixExists(s, c.referencing, q)
    ensures PrefixExists(Referring(c, s, Witness(c, m, s, ops, k)), c.referenced, q)
  {
    hide Vouched, Masked, ApplyAll, Holds, Fits, Legal, Touched, Keyed, LastAt, Accepted, Missing;
    if Rewritten(c, s, ops, q) {
      var r :| r in Entries(s, c.referenced) && q <= r && Touched(ops, c.referenced, r);
      assert r in Entries(Referring(c, s, Witness(c, m, s, ops, k)), c.referenced);
    } else if Kept(c, ops, q) {
      var a :| q <= a && (LastAt(ops, Insert(c.referenced, a)) || LastAt(ops, Update(c.referenced, a)));
      KeptIsRefused(c, m, s, ops, q, a);
    } else {
      var r := WitnessHas(c, m, s, ops, k, q);
      assert r in Entries(Referring(c, s, Witness(c, m, s, ops, k)), c.referenced);
    }
  }

  lemma KeptIsRefused(c: Constraint, m: nat, s: State, ops: seq<Op>, q: KeyValues, a: KeyValues)
    requires Start(c, m, s, ops) && |q| == c.columns && q <= a && PrefixExists(s, c.referencing, q)
    requires LastAt(ops, Insert(c.referenced, a)) || LastAt(ops, Update(c.referenced, a))
    ensures Rewritten(c, s, ops, q) || Refused(c, m, s, ops, q)
  {
    hide ApplyAll, Holds, Fits, Legal, Touched, Keyed;
    TouchedCases(ops, c.referenced, a);
    WrittenLength(c, m, s, ops, a);
    var r := OldHas(c, s, q);
    KeyedLength(c, m, s, r);
    if LastAt(ops, Update(c.referenced, a)) {
      var i :| 0 <= i < |ops| && ops[i] == Update(c.referenced, a) && IsLast(ops, i);
      assert AcceptedAt(c, m, s, ops, i);
      assert m == c.columns;
      assert a == q == r;
    }
  }

  /** No old entry, no entry inserted last and no written referenced entry has the prefix of `k`. */
  lemma AloneApart(c: Constraint, m: nat, s: State, ops: seq<Op>, k: KeyValues, e: KeyValues)
    requires Alone(c, m, s, ops, k) && |e| >= c.columns
    requires e in Entries(s, c.referencing) || LastAt(ops, Insert(c.referencing, e)) || Touched(ops, c.referenced, e)
    ensures e[..c.columns] != k[..c.columns]
  {
    hide Start, Refused, LastAt, Touched, Masked;
    assert !SamePrefix(e, k, c.columns);
  }

  lemma WitnessStarts(c: Constraint, m: nat, s: State, ops: seq<Op>, k: KeyValues)
    requires Alone(c, m, s, ops, k)
    ensures Start(c, m, Referring(c, s, Witness(c, m, s, ops, k)), ops)
  {
    hide Witness, ApplyAll, Touched, LastAt, Accepted, Legal, Refused, Vouched, Masked;
    var start, n := Referring(c, s, Witness(c, m, s, ops, k)), c.columns;
    WitnessRuns(c, m, s, ops, k);
    WitnessKeyed(c, m, s, ops, k);
    forall e | e in Entries(start, c.referencing) && |e| >= n ensures PrefixExists(start, c.referenced, e[..n]) {
      AloneApart(c, m, s, ops, k, e);
      assert e[..n] <= e;
      WitnessHolds(c, m, s, ops, k, e[..n]);
    }
  }

  lemma WitnessPasses(c: Constraint, m: nat, s: State, ops: seq<Op>, k: KeyValues)
    requires Alone(c, m, s, ops, k)
    ensures Passes(c, ApplyAll(Referring(c, s, Witness(c, m, s, ops, k)), ops), ops)
  {
    hide Witness, ApplyAll, Touched, Masked, Legal, Accepted, Keyed, Holds, Refused, Vouched;
    var start, n := Referring(c, s, Witness(c, m, s, ops, k)), c.columns;
    var final := ApplyAll(start, ops);
    WitnessRuns(c, m, s, ops, k);
    forall op | LastAt(ops, op) ensures LongEnough(c, op) && Verify(c, final, op) == Ok {
      if op.Insert? && op.table == c.referencing {
        EntryAfter(s, ops, op.table, op.key);
        AloneApart(c, m, s, ops, k, op.key);
        assert op.key[..n] <= op.key;
        WitnessAnswers(c, m, s, ops, k, op.key[..n]);
      } else if op.Delete? && op.table == c.referenced && PrefixExists(final, c.referencing, op.key[..n]) {
        var e :| e in Entries(final, c.referencing) && op.key[..n] <= e;
        ReferencingSame(c, s, ops, Witness(c, m, s, ops, k), e);
        LastTouches(ops, op);
        AloneApart(c, m, s, ops, k, op.key);
        WitnessAnswers(c, m, s, ops, k, op.key[..n]);
      }
    }
  }

  /** An entry inserted last is the only one with its prefix. */
  lemma WitnessOnly(c: Constraint, m: nat, s: State, ops: seq<Op>, k: KeyValues, a: KeyValues, b: KeyValues)
    requires Alone(c, m, s, ops, k) && LastAt(ops, Insert(c.referenced, a)) && |a| >= c.columns && a[..c.columns] <= b
    requires b in Entries(ApplyAll(Referring(c, s, Witness(c, m, s, ops, k)), ops), c.referenced)
    ensures a == b
  {
    hide Witness, ApplyAll, Touched, Masked, Legal, Keyed, Holds, Vouched, Fits, Filled;
    var start, q := Referring(c, s, Witness(c, m, s, ops, k)), a[..c.columns];
    WitnessRuns(c, m, s, ops, k);
    EntryAfter(start, ops, c.referenced, b);
    TouchedCases(ops, c.referenced, a);
    TouchedCases(ops, c.referenced, b);
    WrittenLength(c, m, s, ops, a);
    assert Kept(c, ops, q) && q == b[..c.columns];
    if Touched(ops, c.referenced, b) {
      WrittenLength(c, m, s, ops, b);
      if LastAt(ops, Update(c.referenced, b)) {
        UpdatedIsWhole(c, m, s, ops, b);
      } else {
        assert a != b ==> Refused(c, m, s, ops, q);
      }
    } else {
      WitnessEntries(c, m, s, ops, k, b);
      var w :| w in Missing(c, s, ops, k) && b == Filled(m, w, ops);
      FilledWhole(m, w, ops);
    }
  }

  lemma UpdatedIsWhole(c: Constraint, m: nat, s: State, ops: seq<Op>, b: KeyValues)
    requires Start(c, m, s, ops) && LastAt(ops, Update(c.referenced, b))
    ensures m == c.columns
  {
    hide ApplyAll, Holds, Fits, Legal, Touched, Keyed;
    var i :| 0 <= i < |ops| && ops[i] == Update(c.referenced, b) && IsLast(ops, i);
    assert AcceptedAt(c, m, s, ops, i);
  }

  lemma WitnessUnique(c: Constraint, m: nat, s: State, ops: seq<Op>, k: KeyValues)
    requires Alone(c, m, s, ops, k)
    ensures Passes(Uniqueness(c), ApplyAll(Referring(c, s, Witness(c, m, s, ops, k)), ops), ops)
  {
    hide Witness, ApplyAll, Touched, Masked, Legal, Accepted, Keyed, Holds, Refused, Vouched;
    var start, u := Referring(c, s, Witness(c, m, s, ops, k)), Uniqueness(c);
    var final := ApplyAll(start, ops);
    WitnessRuns(c, m, s, ops, k);
    forall op | LastAt(ops, op) ensures LongEnough(u, op) && Verify(u, final, op) == Ok {
      if op.Insert? && op.table == c.referenced {
        EntryAfter(start, ops, c.referenced, op.key);
        var found := set b | b in Entries(final, u.table) && op.key[..u.columns] <= b;
        assert op.key in found;
        forall b | b in found ensures b == op.key {
          WitnessOnly(c, m, s, ops, k, op.key, b);
        }
        assert found == {op.key};
      }
    }
  }

  lemma WitnessFails(c: Constraint, m: nat, s: State, ops: seq<Op>, k: KeyValues)
    requires Alone(c, m, s, ops, k)
    ensures !Holds(c, ApplyAll(Referring(c, s, Witness(c, m, s, ops, k)), ops))
  {
    hide Witness, ApplyAll, Touched, LastAt, Legal, Accepted, Keyed, Refused, Vouched, Filled;
    var start, n := Referring(c, s, Witness(c, m, s, ops, k)), c.columns;
    var final := ApplyAll(start, ops);
    WitnessRuns(c, m, s, ops, k);
    EntryAfter(start, ops, c.referencing, k);
    forall r | r in Entries(final, c.referenced) ensures !(k[..n] <= r) {
      if k[..n] <= r {
        EntryAfter(start, ops, c.referenced, r);
        assert r[..n] == k[..n];
        if Touched(ops, c.referenced, r) {
          AloneApart(c, m, s, ops, k, r);
        } else {
          WitnessEntries(c, m, s, ops, k, r);
          var q :| q in Missing(c, s, ops, k) && r == Filled(m, q, ops);
          FilledWhole(m, q, ops);
        }
      }
    }
  }

  /**
   * Over everything the referenced table can hold at the start: whenever the statement
   * passes the UNIQUE verifier there, passing the foreign key verifiers is the same as the
   * foreign key holding afterwards, if and only if every entry that was inserted and then
   * updated shares its foreign key columns with an old entry, an entry inserted last, or a
   * referenced entry the statement writes, or the statement is refused in any case.
   */
  lemma DecidesExactly(c: Constraint, m: nat, s: State, ops: seq<Op>)
    requires Start(c, m, s, ops)
    ensures (forall contents | Start(c, m, Referring(c, s, contents), ops) ::
               Passes(Uniqueness(c), ApplyAll(Referring(c, s, contents), ops), ops) ==>
               Decides(c, Referring(c, s, contents), ops)) <==>
            AllVouched(c, s, ops) || exists q :: Refused(c, m, s, ops, q)
  {
    hide Holds, Passes, ApplyAll, Legal, Vouched, Fits, Keyed, Accepted, Refused, Masked, Touched;
    if AllVouched(c, s, ops) {
      forall contents | Start(c, m, Referring(c, s, contents), ops) ensures Decides(c, Referring(c, s, contents), ops) {
        VouchedSame(c, s, ops, contents);
        ChecksDecide(c, Referring(c, s, contents), ops);
      }
    } else if q :| Refused(c, m, s, ops, q) {
      forall contents | Start(c, m, Referring(c, s, contents), ops) &&
                        Passes(Uniqueness(c), ApplyAll(Referring(c, s, contents), ops), ops)
        ensures Decides(c, Referring(c, s, contents), ops)
      {
        var start := Referring(c, s, contents);
        RefusedFails(c, m, s, ops, contents, q);
        if Holds(c, ApplyAll(start, ops)) {
          ChecksComplete(c, start, ops);
        }
      }
    } else {
      var k :| Masked(s, ops, c.referencing, k) && !Vouched(c, s, ops, k);
      MaskedLong(c, s, ops, k);
      WitnessStarts(c, m, s, ops, k);
      WitnessPasses(c, m, s, ops, k);
      WitnessUnique(c, m, s, ops, k);
      WitnessFails(c, m, s, ops, k);
    }
  }

  lemma VouchedSame(c: Constraint, s: State, ops: seq<Op>, contents: set<KeyValues>)
    requires c.ForeignKey? && c.referencing != c.referenced && AllVouched(c, s, ops)
    ensures AllVouched(c, Referring(c, s, contents), ops)
  {
    var start := Referring(c, s, contents);
    forall k | Masked(start, ops, c.referencing, k) ensures Vouched(c, start, ops, k) {
      assert Masked(s, ops, c.referencing, k);
    }
  }

  lemma MaskedLong(c: Constraint, s: State, ops: seq<Op>, k: KeyValues)
    requires c.ForeignKey? && Fits(c, s, ops) && Masked(s, ops, c.referencing, k)
    ensures |k| >= c.columns
  {
  }

  /** With both in one data table every entry answers for itself. */
  lemma SameTableIsVouched(c: Constraint, s: State, ops: seq<Op>)
    requires c.ForeignKey? && c.referencing == c.referenced && Fits(c, s, ops)
    ensures AllVouched(c, s, ops)
  {
    hide Fits;
    forall k | Masked(s, ops, c.referencing, k) ensures Vouched(c, s, ops, k) {
      MaskedLong(c, s, ops, k);
      LastTouches(ops, Update(c.referencing, k));
      assert SamePrefix(k, k, c.columns);
    }
  }

  /** An insert followed by an update of the same entry passes every check with the foreign key violated. */
  lemma MaskedInsertEscapes(key: KeyValues, n: nat)
    requires |key| >= n
    ensures var c, s, ops := ForeignKey(0, 1, n, true), map[], [Insert(0, key), Update(0, key)];
      Legal(s, ops) && Fits(c, s, ops) && Holds(c, s) && Passes(c, ApplyAll(s, ops), ops) && !Holds(c, ApplyAll(s, ops))
  {
    var c: Constraint, s: State, ops := ForeignKey(0, 1, n, true), map[], [Insert(0, key), Update(0, key)];
    assert ops[..1] == [Insert(0, key)];
    var one := [Insert(0, key)];
    assert one[..0] == [];
    assert Entries(s, 0) + {key} == {key};
    assert ApplyAll(s, one) == Apply(s, one[0]) == s[0 := {key}];
    assert ApplyAll(s, ops) == Apply(ApplyAll(s, one), ops[1]);
    assert SameEntry(ops[0], ops[1]);
    assert Legal(s, ops);
    assert key in Entries(ApplyAll(s, ops), 0) && !PrefixExists(ApplyAll(s, ops), 1, key[..n]);
  }
}
