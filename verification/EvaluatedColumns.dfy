/** Generated and default columns, evaluated in dependency order (backend/actions/evaluated_column.cc). */
module EvaluatedColumns {
  import opened Collections
  import opened Keys
  import opened Graph

  type ColumnId = nat

  datatype Column = Column(
    name: string,
    isKey: bool,
    generated: bool,
    hasDefault: bool,
    hasOnUpdate: bool,
    nullable: bool,
    deps: seq<ColumnId>)

  type Table = seq<Column>

  type Values = map<ColumnId, Value>

  datatype Error = MissingColumn | EvaluationFailed | NullForNotNull | CycleDetected | Internal

  /** The expressions of the table: each a function of the values of the column's dependencies. */
  type Expressions = (ColumnId, seq<Value>) -> Result<Value, Error>

  /**
   * What the schema updater and validators have checked. An ON UPDATE column defaults to
   * the pending commit timestamp, which makes it a commit timestamp column, and no
   * generated column may depend on one (backend/schema/updater/schema_updater.cc and
   * backend/schema/validators/column_validator.cc).
   */
  ghost predicate TableOk(table: Table) {
    && (forall c, k :: 0 <= c < |table| && 0 <= k < |table[c].deps| ==> table[c].deps[k] < |table|)
    && (forall c :: 0 <= c < |table| && table[c].hasDefault ==> !table[c].generated && table[c].deps == [])
    && (forall c :: 0 <= c < |table| && table[c].hasOnUpdate ==> table[c].hasDefault && !table[c].isKey)
    && (forall c, d :: 0 <= c < |table| && 0 <= d < |table| && table[d].hasOnUpdate ==> d !in table[c].deps)
    && (forall c, d :: 0 <= c < d < |table| ==> Fold(table[c].name) != Fold(table[d].name))
  }

  predicate IsEvaluated(table: Table, c: ColumnId) {
    c < |table| && (table[c].generated || table[c].hasDefault)
  }

  // ---------------------------------------------------------------------------
  // Evaluation
  // ---------------------------------------------------------------------------

  predicate Defined(deps: seq<ColumnId>, row: Values) {
    forall k :: 0 <= k < |deps| ==> deps[k] in row
  }

  function Arguments(deps: seq<ColumnId>, row: Values): seq<Value>
    requires Defined(deps, row)
  {
    seq(|deps|, k requires 0 <= k < |deps| => row[deps[k]])
  }

  /** ComputeEvaluatedColumnValue. */
  function Compute(table: Table, f: Expressions, c: ColumnId, row: Values): Result<Value, Error>
    requires c < |table|
  {
    if !Defined(table[c].deps, row) then Err(MissingColumn)
    else
      match f(c, Arguments(table[c].deps, row))
      case Err(e) => Err(e)
      case Ok(v) => if v == Null && !table[c].nullable then Err(NullForNotNull) else Ok(v)
  }

  /**
   * In `r` the column equals its expression over the values its dependencies have in `r`, and is
   * NULL only if it may be.
   */
  ghost predicate Equation(table: Table, f: Expressions, c: ColumnId, r: Values) {
    && c < |table| && c in r && (forall d :: d in table[c].deps ==> d in r)
    && (exists args :: |args| == |table[c].deps| && (forall k :: 0 <= k < |args| ==> args[k] == r[table[c].deps[k]]) &&
                       f(c, args) == Ok(r[c]))
    && (r[c] == Null ==> table[c].nullable)
  }

  /**
   * Computing a column succeeds with the value its expression gives, unless that is NULL and must
   * not be; the errors.
   */
  lemma ComputeMeaning(table: Table, f: Expressions, c: ColumnId, row: Values, args: seq<Value>)
    requires c < |table| && |args| == |table[c].deps|
    requires forall k :: 0 <= k < |args| && table[c].deps[k] in row ==> args[k] == row[table[c].deps[k]]
    ensures (exists d :: d in table[c].deps && d !in row) ==> Compute(table, f, c, row) == Err(MissingColumn)
    ensures (forall d :: d in table[c].deps ==> d in row) ==>
              Compute(table, f, c, row) ==
              if f(c, args).Ok? && f(c, args).value == Null && !table[c].nullable then Err(NullForNotNull)
              else f(c, args)
  {
    var deps := table[c].deps;
    forall k | 0 <= k < |deps| ensures deps[k] in deps {
    }
    if Defined(deps, row) {
      assert Arguments(deps, row) == args;
    }
  }

  lemma EquationIsComputed(table: Table, f: Expressions, c: ColumnId, r: Values)
    requires c < |table|
    ensures Equation(table, f, c, r) <==> c in r && Compute(table, f, c, r) == Ok(r[c])
  {
    var deps := table[c].deps;
    if Equation(table, f, c, r) {
      var args :| |args| == |deps| && (forall k :: 0 <= k < |args| ==> args[k] == r[deps[k]]) && f(c, args) == Ok(r[c]);
      ComputeMeaning(table, f, c, r, args);
    }
    if Defined(deps, r) {
      ComputeMeaning(table, f, c, r, Arguments(deps, r));
    }
  }

  ghost predicate SameAt(a: Values, b: Values, c: ColumnId) {
    (c in a <==> c in b) && (c in a && c in b ==> a[c] == b[c])
  }

  lemma ComputeDependsOnDeps(table: Table, f: Expressions, c: ColumnId, a: Values, b: Values)
    requires c < |table| && forall k :: 0 <= k < |table[c].deps| ==> SameAt(a, b, table[c].deps[k])
    ensures Compute(table, f, c, a) == Compute(table, f, c, b)
  {
    var deps := table[c].deps;
    if Defined(deps, a) {
      forall k | 0 <= k < |deps| ensures deps[k] in b && a[deps[k]] == b[deps[k]] {
        assert SameAt(a, b, deps[k]);
      }
      assert Arguments(deps, a) == Arguments(deps, b);
    } else {
      var k :| 0 <= k < |deps| && deps[k] !in a;
      assert SameAt(a, b, deps[k]);
    }
  }

  /** The evaluation loop passes over the column. */
  predicate Skipped(table: Table, c: ColumnId, row: Values, isUpdate: bool, applyOnUpdate: bool)
    requires c < |table|
  {
    || table[c].isKey
    || (table[c].hasDefault && c in row)
    || (table[c].hasDefault && isUpdate && (!applyOnUpdate || !table[c].hasOnUpdate))
  }

  /** The row after evaluation, and the update that is queued. */
  datatype Outcome = Outcome(row: Values, columns: seq<ColumnId>, values: seq<Value>)

  function EvaluateOne(table: Table, f: Expressions, o: Outcome, c: ColumnId, isUpdate: bool,
                       applyOnUpdate: bool): Result<Outcome, Error>
    requires c < |table|
  {
    if Skipped(table, c, o.row, isUpdate, applyOnUpdate) then Ok(o)
    else
      match Compute(table, f, c, o.row)
      case Err(e) => Err(e)
      case Ok(v) => Ok(Outcome(o.row[c := v], o.columns + [c], o.values + [v]))
  }

  function Evaluated(table: Table, order: seq<ColumnId>, f: Expressions, row: Values, isUpdate: bool,
                     applyOnUpdate: bool): Result<Outcome, Error>
    requires forall i :: 0 <= i < |order| ==> order[i] < |table|
    decreases |order|
  {
    if order == [] then Ok(Outcome(row, [], []))
    else
      match Evaluated(table, order[..|order| - 1], f, row, isUpdate, applyOnUpdate)
      case Err(e) => Err(e)
      case Ok(o) => EvaluateOne(table, f, o, order[|order| - 1], isUpdate, applyOnUpdate)
  }

  /** The evaluation loop. */
  method Evaluate(table: Table, order: seq<ColumnId>, f: Expressions, row: Values, isUpdate: bool, applyOnUpdate: bool)
    returns (r: Result<Outcome, Error>)
    requires forall i :: 0 <= i < |order| ==> order[i] < |table|
    ensures r == Evaluated(table, order, f, row, isUpdate, applyOnUpdate)
  {
    var o := Outcome(row, [], []);
    for i := 0 to |order|
      invariant Evaluated(table, order[..i], f, row, isUpdate, applyOnUpdate) == Ok(o)
    {
      assert order[..i + 1][..i] == order[..i];
      var c := order[i];
      if table[c].isKey {
        continue;
      }
      if table[c].hasDefault && c in o.row {
        continue;
      }
      if table[c].hasDefault && isUpdate && (!applyOnUpdate || !table[c].hasOnUpdate) {
        continue;
      }
      var value := Compute(table, f, c, o.row);
      if value.Err? {
        FailurePropagates(table, order, f, row, isUpdate, applyOnUpdate, i + 1, value.error);
        return Err(value.error);
      }
      o := Outcome(o.row[c := value.value], o.columns + [c], o.values + [value.value]);
    }
    assert order[..|order|] == order;
    r := Ok(o);
  }

  lemma {:induction false} FailurePropagates(table: Table, order: seq<ColumnId>, f: Expressions, row: Values,
                                             isUpdate: bool, applyOnUpdate: bool, n: nat, e: Error)
    requires n <= |order| && forall i :: 0 <= i < |order| ==> order[i] < |table|
    requires Evaluated(table, order[..n], f, row, isUpdate, applyOnUpdate) == Err(e)
    ensures Evaluated(table, order, f, row, isUpdate, applyOnUpdate) == Err(e)
    decreases |order|
  {
    if n == |order| {
      assert order[..n] == order;
    } else {
      var front := order[..|order| - 1];
      assert front[..n] == order[..n];
      FailurePropagates(table, front, f, row, isUpdate, applyOnUpdate, n, e);
    }
  }

  // ---------------------------------------------------------------------------
  // The result is the one solution of the column equations
  // ---------------------------------------------------------------------------

  /** Lists every evaluated column once, after the evaluated columns it depends on. */
  ghost predicate EvaluationOrder(table: Table, order: seq<ColumnId>) {
    && Distinct(order)
    && (forall c :: c in order <==> IsEvaluated(table, c))
    && (forall i :: 0 <= i < |order| ==> order[i] < |table|)
    && (forall i, d :: 0 <= i < |order| && d in table[order[i]].deps && IsEvaluated(table, d) ==> d in order[..i])
  }

  /** What an evaluation starts from. */
  datatype Task = Task(table: Table, f: Expressions, row: Values, isUpdate: bool, applyOnUpdate: bool) {

    /** The columns the evaluation sets. */
    ghost predicate Computes(c: ColumnId) {
      IsEvaluated(table, c) && !Skipped(table, c, row, isUpdate, applyOnUpdate)
    }

    function Run(order: seq<ColumnId>): Result<Outcome, Error>
      requires forall i :: 0 <= i < |order| ==> order[i] < |table|
    {
      Evaluated(table, order, f, row, isUpdate, applyOnUpdate)
    }

    /** In `r` the computed column `c` equals its expression over `r` itself. */
    ghost predicate Holds(c: ColumnId, r: Values) {
      Equation(table, f, c, r)
    }

    /** `r` is the row evaluation started from, with every computed column equal to its expression over `r`. */
    ghost predicate Solves(r: Values) {
      forall c :: if Computes(c) then Holds(c, r) else SameAt(r, row, c)
    }

    /** As `Solves`, with only the columns of `done` computed so far. */
    ghost predicate SolvesSome(done: seq<ColumnId>, r: Values) {
      forall c :: if Computes(c) && c in done then Holds(c, r) else SameAt(r, row, c)
    }

    /** The queued update is the columns of `done` that were computed. */
    ghost predicate Queued(done: seq<ColumnId>, o: Outcome) {
      && |o.columns| == |o.values|
      && (forall c :: c in o.columns <==> c in done && Computes(c))
      && (forall k :: 0 <= k < |o.columns| ==> o.columns[k] in o.row && o.values[k] == o.row[o.columns[k]])
    }
  }

  lemma NotYetListed(order: seq<ColumnId>, n: nat)
    requires Distinct(order) && n < |order|
    ensures order[n] !in order[..n]
    ensures forall c :: c in order[..n + 1] <==> c in order[..n] || c == order[n]
  {
    assert order[..n + 1] == order[..n] + [order[n]];
  }

  /** A column depends on no column from its own place in the order on. */
  lemma DependsBackwards(table: Table, order: seq<ColumnId>, i: nat, n: nat)
    requires EvaluationOrder(table, order) && i <= n < |order|
    ensures order[n] !in table[order[i]].deps
  {
    NotYetListed(order, n);
    assert order[n] in order;
    assert order[..i] <= order[..n];
  }

  /** Evaluating the next column leaves the equations of the columns before it true. */
  lemma HoldsNext(t: Task, order: seq<ColumnId>, n: nat, r: Values, v: Value, i: nat)
    requires EvaluationOrder(t.table, order) && i <= n < |order|
    requires if i == n then Compute(t.table, t.f, order[n], r) == Ok(v) else t.Holds(order[i], r)
    ensures t.Holds(order[i], r[order[n] := v])
  {
    hide Compute, Equation;
    EquationIsComputed(t.table, t.f, order[i], r);
    EquationIsComputed(t.table, t.f, order[i], r[order[n] := v]);
    NotYetListed(order, n);
    DependsBackwards(t.table, order, i, n);
    ComputeDependsOnDeps(t.table, t.f, order[i], r, r[order[n] := v]);
  }

  lemma SolvesNext(t: Task, order: seq<ColumnId>, n: nat, r: Values, v: Value)
    requires EvaluationOrder(t.table, order) && n < |order|
    requires t.SolvesSome(order[..n], r) && t.Computes(order[n]) && Compute(t.table, t.f, order[n], r) == Ok(v)
    ensures t.SolvesSome(order[..n + 1], r[order[n] := v])
  {
    hide Compute, Skipped, Task.Computes, EvaluationOrder, Task.Holds;
    Ordered(t.table, order);
    NotYetListed(order, n);
    forall c
      ensures if t.Computes(c) && c in order[..n + 1] then t.Holds(c, r[order[n] := v])
              else SameAt(r[order[n] := v], t.row, c)
    {
      if t.Computes(c) && c in order[..n + 1] {
        var i :| 0 <= i < n + 1 && order[i] == c;
        HoldsNext(t, order, n, r, v, i);
      } else {
        assert SameAt(r, t.row, c);
      }
    }
  }

  lemma Ordered(table: Table, order: seq<ColumnId>)
    requires EvaluationOrder(table, order)
    ensures Distinct(order) && forall i :: 0 <= i < |order| ==> IsEvaluated(table, order[i])
  {
    assert forall i :: 0 <= i < |order| ==> order[i] in order;
  }

  lemma SkipSame(t: Task, r: Values, c: ColumnId)
    requires c < |t.table| && SameAt(r, t.row, c)
    ensures Skipped(t.table, c, r, t.isUpdate, t.applyOnUpdate) ==
            Skipped(t.table, c, t.row, t.isUpdate, t.applyOnUpdate)
  {
  }

  /** One turn of the loop, seen from the equations. */
  lemma OneTurn(t: Task, order: seq<ColumnId>, n: nat, o: Outcome)
    requires EvaluationOrder(t.table, order) && n < |order| && t.Run(order[..n]) == Ok(o) &&
             SameAt(o.row, t.row, order[n])
    ensures t.Run(order[..n + 1]) ==
            if !t.Computes(order[n]) then Ok(o)
            else match Compute(t.table, t.f, order[n], o.row)
              case Err(e) => Err(e)
              case Ok(v) => Ok(Outcome(o.row[order[n] := v], o.columns + [order[n]], o.values + [v]))
  {
    hide Compute, Skipped;
    assert order[..n + 1][..n] == order[..n];
    Ordered(t.table, order);
    SkipSame(t, o.row, order[n]);
  }

  lemma {:induction false} PrefixSolves(t: Task, order: seq<ColumnId>, n: nat)
    requires EvaluationOrder(t.table, order) && n <= |order| && t.Run(order[..n]).Ok?
    ensures t.SolvesSome(order[..n], t.Run(order[..n]).value.row) && t.Queued(order[..n], t.Run(order[..n]).value)
  {
    hide Compute, Skipped, Task.Computes, Task.Holds, EvaluationOrder;
    Ordered(t.table, order);
    if n > 0 {
      assert order[..n][..n - 1] == order[..n - 1];
      PrefixSolves(t, order, n - 1);
      var o := t.Run(order[..n - 1]).value;
      NotYetListed(order, n - 1);
      assert SameAt(o.row, t.row, order[n - 1]);
      OneTurn(t, order, n - 1, o);
      if t.Computes(order[n - 1]) {
        SolvesNext(t, order, n - 1, o.row, Compute(t.table, t.f, order[n - 1], o.row).value);
      }
    }
  }

  /** When the loop succeeds, the row it leaves solves the equations, and the queued update is the computed columns. */
  lemma EvaluationSolves(t: Task, order: seq<ColumnId>)
    requires EvaluationOrder(t.table, order) && t.Run(order).Ok?
    ensures t.Solves(t.Run(order).value.row) && t.Queued(order, t.Run(order).value)
    ensures forall c :: c in t.Run(order).value.columns <==> t.Computes(c)
  {
    hide Compute, Skipped, Task.Holds;
    assert order[..|order|] == order;
    PrefixSolves(t, order, |order|);
  }

  /**
   * The loop fails exactly if some column cannot be computed from what the columns before it left,
   * with the first such error.
   */
  lemma {:induction false} FailsAtFirst(t: Task, order: seq<ColumnId>, e: Error)
    requires EvaluationOrder(t.table, order)
    ensures t.Run(order) == Err(e) <==>
            exists n, o :: 0 <= n < |order| && t.Run(order[..n]) == Ok(o) && t.Computes(order[n]) &&
                           Compute(t.table, t.f, order[n], o.row) == Err(e)
  {
    hide Compute, Skipped, Task.Computes, EvaluationOrder, Evaluated;
    Ordered(t.table, order);
    if n, o :| 0 <= n < |order| && t.Run(order[..n]) == Ok(o) && t.Computes(order[n]) &&
               Compute(t.table, t.f, order[n], o.row) == Err(e) {
      TurnAt(t, order, n, o);
      FailurePropagates(t.table, order, t.f, t.row, t.isUpdate, t.applyOnUpdate, n + 1, e);
    }
    assert order[..|order|] == order;
    if t.Run(order) == Err(e) {
      var n := FirstFailure(t, order, |order|, e);
    }
  }

  lemma TurnAt(t: Task, order: seq<ColumnId>, n: nat, o: Outcome)
    requires EvaluationOrder(t.table, order) && n < |order| && t.Run(order[..n]) == Ok(o)
    ensures t.Run(order[..n + 1]) ==
            if !t.Computes(order[n]) then Ok(o)
            else match Compute(t.table, t.f, order[n], o.row)
              case Err(e) => Err(e)
              case Ok(v) => Ok(Outcome(o.row[order[n] := v], o.columns + [order[n]], o.values + [v]))
  {
    hide Compute, Skipped, Task.Computes, Task.Holds, Evaluated;
    PrefixSolves(t, order, n);
    NotYetListed(order, n);
    assert SameAt(o.row, t.row, order[n]);
    OneTurn(t, order, n, o);
  }

  lemma {:induction false} FirstFailure(t: Task, order: seq<ColumnId>, m: nat, e: Error) returns (n: nat)
    requires EvaluationOrder(t.table, order) && m <= |order| && t.Run(order[..m]) == Err(e)
    ensures n < m && t.Run(order[..n]).Ok? && t.Computes(order[n]) &&
            Compute(t.table, t.f, order[n], t.Run(order[..n]).value.row) == Err(e)
    decreases m
  {
    hide Compute, Skipped, Task.Computes, EvaluationOrder;
    Ordered(t.table, order);
    assert order[..m] != [];
    var front := t.Run(order[..m - 1]);
    assert order[..m][..m - 1] == order[..m - 1];
    if front.Err? {
      n := FirstFailure(t, order, m - 1, e);
    } else {
      TurnAt(t, order, m - 1, front.value);
      n := m - 1;
    }
  }

  /** No computed NOT NULL column is NULL when the loop succeeds. */
  lemma NotNullIsEnforced(t: Task, order: seq<ColumnId>, c: ColumnId)
    requires EvaluationOrder(t.table, order) && t.Run(order).Ok? && t.Computes(c) && !t.table[c].nullable
    ensures var row := t.Run(order).value.row; c in row && row[c] != Null
  {
    EvaluationSolves(t, order);
    assert t.Holds(c, t.Run(order).value.row);
  }

  /** The loop has reached `r` on the columns done, and still has the given row elsewhere. */
  ghost predicate Reached(t: Task, done: seq<ColumnId>, now: Values, r: Values) {
    forall c :: if t.Computes(c) && c in done then SameAt(now, r, c) else SameAt(now, t.row, c)
  }

  lemma DepsReached(t: Task, order: seq<ColumnId>, n: nat, now: Values, r: Values)
    requires EvaluationOrder(t.table, order) && n < |order| && t.Solves(r) && Reached(t, order[..n], now, r)
    ensures Compute(t.table, t.f, order[n], now) == Compute(t.table, t.f, order[n], r)
  {
    hide Compute, Skipped, Task.Holds;
    var c := order[n];
    forall k | 0 <= k < |t.table[c].deps| ensures SameAt(now, r, t.table[c].deps[k]) {
      var d := t.table[c].deps[k];
      assert d in t.table[order[n]].deps;
      assert if t.Computes(d) && d in order[..n] then SameAt(now, r, d) else SameAt(now, t.row, d);
      assert !t.Computes(d) ==> SameAt(r, t.row, d);
    }
    ComputeDependsOnDeps(t.table, t.f, c, now, r);
  }

  lemma {:induction false} PrefixReaches(t: Task, order: seq<ColumnId>, r: Values, n: nat)
    requires EvaluationOrder(t.table, order) && n <= |order| && t.Solves(r)
    ensures t.Run(order[..n]).Ok? && Reached(t, order[..n], t.Run(order[..n]).value.row, r)
  {
    hide Compute, Skipped, Task.Computes, EvaluationOrder, Equation;
    Ordered(t.table, order);
    if n > 0 {
      assert order[..n][..n - 1] == order[..n - 1];
      PrefixReaches(t, order, r, n - 1);
      var o := t.Run(order[..n - 1]).value;
      NotYetListed(order, n - 1);
      assert SameAt(o.row, t.row, order[n - 1]);
      OneTurn(t, order, n - 1, o);
      if t.Computes(order[n - 1]) {
        DepsReached(t, order, n - 1, o.row, r);
        assert t.Holds(order[n - 1], r);
        EquationIsComputed(t.table, t.f, order[n - 1], r);
        ReachedNext(t, order, n - 1, o.row, r);
      }
    }
  }

  lemma ReachedNext(t: Task, order: seq<ColumnId>, n: nat, now: Values, r: Values)
    requires Distinct(order) && n < |order| && Reached(t, order[..n], now, r) && t.Computes(order[n]) && order[n] in r
    ensures Reached(t, order[..n + 1], now[order[n] := r[order[n]]], r)
  {
    hide Task.Computes;
    NotYetListed(order, n);
    var next := now[order[n] := r[order[n]]];
    forall c ensures if t.Computes(c) && c in order[..n + 1] then SameAt(next, r, c) else SameAt(next, t.row, c) {
      assert if t.Computes(c) && c in order[..n] then SameAt(now, r, c) else SameAt(now, t.row, c);
    }
  }

  /** If the equations have a solution the loop finds it, whatever order it was given: the solution is unique. */
  lemma SolutionIsEvaluated(t: Task, order: seq<ColumnId>, r: Values)
    requires EvaluationOrder(t.table, order) && t.Solves(r)
    ensures t.Run(order).Ok? && t.Run(order).value.row == r
  {
    hide Compute, Skipped;
    assert order[..|order|] == order;
    PrefixReaches(t, order, r, |order|);
    var now := t.Run(order).value.row;
    forall c ensures SameAt(now, r, c) {
      assert if t.Computes(c) && c in order then SameAt(now, r, c) else SameAt(now, t.row, c);
      assert !t.Computes(c) ==> SameAt(r, t.row, c);
    }
    SameEverywhere(now, r);
  }

  lemma SameEverywhere(a: Values, b: Values)
    requires forall c :: SameAt(a, b, c)
    ensures a == b
  {
    forall c ensures c in a <==> c in b { assert SameAt(a, b, c); }
    forall c | c in a ensures a[c] == b[c] { assert SameAt(a, b, c); }
  }

  /** Any two evaluation orders agree, on success and on the row. */
  lemma OrderDoesNotMatter(t: Task, a: seq<ColumnId>, b: seq<ColumnId>)
    requires EvaluationOrder(t.table, a) && EvaluationOrder(t.table, b)
    ensures t.Run(a).Ok? <==> t.Run(b).Ok?
    ensures t.Run(a).Ok? ==> t.Run(a).value.row == t.Run(b).value.row
  {
    hide Evaluated, Task.Solves;
    if t.Run(a).Ok? {
      EvaluationSolves(t, a);
      SolutionIsEvaluated(t, b, t.Run(a).value.row);
    } else if t.Run(b).Ok? {
      EvaluationSolves(t, b);
      SolutionIsEvaluated(t, a, t.Run(b).value.row);
    }
  }

  // ---------------------------------------------------------------------------
  // Inserts
  // ---------------------------------------------------------------------------

  /** `row` with the columns assigned in turn; the last assignment of a column wins. */
  function Assigned(row: Values, columns: seq<ColumnId>, values: seq<Value>): Values
    requires |columns| == |values|
    decreases |columns|
  {
    if columns == [] then row
    else Assigned(row, columns[..|columns| - 1], values[..|values| - 1])[columns[|columns| - 1] := values[|values| - 1]]
  }

  /** NULL for the missing columns that have no default. */
  function NullFilled(table: Table, row: Values): Values {
    map c: ColumnId | c < |table| && (c in row || !table[c].hasDefault) :: if c in row then row[c] else Null
  }

  method EffectInsert(table: Table, order: seq<ColumnId>, f: Expressions, columns: seq<ColumnId>, values: seq<Value>)
    returns (r: Result<Outcome, Error>)
    requires forall i :: 0 <= i < |order| ==> order[i] < |table|
    requires forall i :: 0 <= i < |columns| ==> columns[i] < |table|
    ensures |columns| != |values| ==> r == Err(Internal)
    ensures |columns| == |values| ==> r == InsertTask(table, f, columns, values).Run(order)
  {
    if |columns| != |values| {
      return Err(Internal);
    }
    var row: Values := map[];
    for i := 0 to |columns|
      invariant row == Assigned(map[], columns[..i], values[..i])
    {
      assert columns[..i + 1][..i] == columns[..i] && values[..i + 1][..i] == values[..i];
      row := row[columns[i] := values[i]];
    }
    assert columns[..|columns|] == columns && values[..|values|] == values;
    ghost var given := row;
    AssignedKeys(map[], columns, values);
    for c := 0 to |table|
      invariant forall d :: d in row <==> d in given || (0 <= d < c && !table[d].hasDefault)
      invariant forall d :: d in row ==> row[d] == if d in given then given[d] else Null
    {
      if c !in row && !table[c].hasDefault {
        row := row[c := Null];
      }
    }
    assert row == NullFilled(table, given);
    r := Evaluate(table, order, f, row, false, false);
  }

  lemma {:induction false} AssignedKeys(row: Values, columns: seq<ColumnId>, values: seq<Value>)
    requires |columns| == |values|
    ensures forall c :: c in Assigned(row, columns, values) <==> c in row || c in columns
    ensures forall c :: c in row && c !in columns ==> Assigned(row, columns, values)[c] == row[c]
    decreases |columns|
  {
    if columns != [] {
      AssignedKeys(row, columns[..|columns| - 1], values[..|values| - 1]);
      assert columns == columns[..|columns| - 1] + [columns[|columns| - 1]];
    }
  }

  function InsertTask(table: Table, f: Expressions, columns: seq<ColumnId>, values: seq<Value>): Task
    requires |columns| == |values|
  {
    Task(table, f, NullFilled(table, Assigned(map[], columns, values)), false, false)
  }

  /**
   * An insert succeeds exactly if some row has every non-key generated column, and every
   * non-key default column not given, equal to its expression over that row, and the
   * given values or NULL elsewhere; there is one such row, and it is the result.
   */
  lemma InsertIsTheSolution(table: Table, order: seq<ColumnId>, f: Expressions, columns: seq<ColumnId>,
                            values: seq<Value>)
    requires TableOk(table) && EvaluationOrder(table, order) && |columns| == |values|
    requires forall i :: 0 <= i < |columns| ==> columns[i] < |table|
    ensures var t := InsertTask(table, f, columns, values);
      && (t.Run(order).Ok? <==> exists r :: t.Solves(r))
      && (forall r :: t.Solves(r) ==> t.Run(order).Ok? && t.Run(order).value.row == r)
      && (forall c: ColumnId :: t.Computes(c) <==>
          c < |table| && !table[c].isKey && (table[c].generated || (table[c].hasDefault && c !in columns)))
  {
    hide Task.Solves, Evaluated;
    var t := InsertTask(table, f, columns, values);
    if t.Run(order).Ok? {
      EvaluationSolves(t, order);
    }
    forall r | t.Solves(r) ensures t.Run(order).Ok? && t.Run(order).value.row == r {
      SolutionIsEvaluated(t, order, r);
    }
    AssignedKeys(map[], columns, values);
  }

  /** The last value given for a column is the one assigned. */
  lemma {:induction false} AssignedGiven(row: Values, columns: seq<ColumnId>, values: seq<Value>, k: nat)
    requires |columns| == |values| && k < |columns| && forall j :: k < j < |columns| ==> columns[j] != columns[k]
    ensures columns[k] in Assigned(row, columns, values) && Assigned(row, columns, values)[columns[k]] == values[k]
    decreases |columns|
  {
    var n := |columns| - 1;
    if k < n {
      AssignedGiven(row, columns[..n], values[..n], k);
    }
  }

  /** An insert is evaluated from the values given, with NULL for the other columns but those that have a default. */
  lemma InsertStartsFrom(table: Table, f: Expressions, columns: seq<ColumnId>, values: seq<Value>, c: ColumnId)
    requires |columns| == |values| && forall i :: 0 <= i < |columns| ==> columns[i] < |table|
    ensures var row := InsertTask(table, f, columns, values).row;
      && (c !in columns ==> (c in row <==> c < |table| && !table[c].hasDefault) && (c in row ==> row[c] == Null))
      && (forall k :: 0 <= k < |columns| && columns[k] == c && (forall j :: k < j < |columns| ==> columns[j] != c) ==>
            c in row && row[c] == values[k])
  {
    hide Assigned;
    AssignedKeys(map[], columns, values);
    forall k | 0 <= k < |columns| && columns[k] == c && (forall j :: k < j < |columns| ==> columns[j] != c)
      ensures Assigned(map[], columns, values)[c] == values[k]
    {
      AssignedGiven(map[], columns, values, k);
    }
  }

  // ---------------------------------------------------------------------------
  // Updates
  // ---------------------------------------------------------------------------

  function Read(stored: Values, c: ColumnId): Value {
    if c in stored then stored[c] else Null
  }

  /** The columns some evaluated column depends on. */
  ghost predicate IsDependent(table: Table, c: ColumnId) {
    exists e: ColumnId :: IsEvaluated(table, e) && c in table[e].deps
  }

  ghost predicate UsedBy(table: Table, order: seq<ColumnId>, c: ColumnId) {
    exists j :: 0 <= j < |order| && order[j] < |table| && c in table[order[j]].deps
  }

  /** Appends the columns of `deps` that are not there yet. */
  method AppendMissing(dependents: seq<ColumnId>, deps: seq<ColumnId>) returns (more: seq<ColumnId>)
    requires Distinct(dependents)
    ensures Distinct(more) && dependents <= more && forall c :: c in more <==> c in dependents || c in deps
  {
    more := dependents;
    for k := 0 to |deps|
      invariant Distinct(more) && dependents <= more
      invariant forall c :: c in more <==> c in dependents || c in deps[..k]
    {
      if deps[k] !in more {
        more := more + [deps[k]];
      }
    }
    assert deps[..|deps|] == deps;
  }

  lemma UsedByNext(table: Table, order: seq<ColumnId>, i: nat, c: ColumnId)
    requires i < |order| && order[i] < |table|
    ensures UsedBy(table, order[..i + 1], c) <==> UsedBy(table, order[..i], c) || c in table[order[i]].deps
  {
    var front, more := order[..i], order[..i + 1];
    if UsedBy(table, front, c) {
      var j :| 0 <= j < |front| && front[j] < |table| && c in table[front[j]].deps;
      assert more[j] == front[j];
    }
    if UsedBy(table, more, c) {
      var j :| 0 <= j < |more| && more[j] < |table| && c in table[more[j]].deps;
      assert j < i ==> front[j] == more[j];
    }
    assert more[i] == order[i];
  }

  /** Initialize: each dependency once, in the order of first use. */
  method DependentColumns(table: Table, order: seq<ColumnId>) returns (dependents: seq<ColumnId>)
    requires EvaluationOrder(table, order)
    ensures Distinct(dependents) && forall c :: c in dependents <==> IsDependent(table, c)
  {
    dependents := [];
    Ordered(table, order);
    for i := 0 to |order|
      invariant Distinct(dependents)
      invariant forall c :: c in dependents <==> UsedBy(table, order[..i], c)
    {
      dependents := AppendMissing(dependents, table[order[i]].deps);
      forall c ensures UsedBy(table, order[..i + 1], c) <==> UsedBy(table, order[..i], c) || c in table[order[i]].deps {
        UsedByNext(table, order, i, c);
      }
    }
    assert order[..|order|] == order;
    forall c ensures UsedBy(table, order, c) <==> IsDependent(table, c) {
      if IsDependent(table, c) {
        var e: ColumnId :| IsEvaluated(table, e) && c in table[e].deps;
        assert e in order;
      }
    }
  }

  predicate AppliesOnUpdate(table: Table, columns: seq<ColumnId>)
    requires forall i :: 0 <= i < |columns| ==> columns[i] < |table|
  {
    exists i :: 0 <= i < |columns| && !table[columns[i]].isKey
  }

  /** The update is itself the effect of an evaluation. */
  predicate IsOwnEffect(table: Table, columns: seq<ColumnId>)
    requires forall i :: 0 <= i < |columns| ==> columns[i] < |table|
  {
    exists i :: 0 <= i < |columns| && !table[columns[i]].isKey && table[columns[i]].generated
  }

  /** The dependencies as stored, and the columns of the update over them. */
  function UpdateTask(table: Table, dependents: seq<ColumnId>, f: Expressions, stored: Values,
                      columns: seq<ColumnId>, values: seq<Value>): Task
    requires |columns| == |values| && forall i :: 0 <= i < |columns| ==> columns[i] < |table|
  {
    Task(table, f, Assigned(map c | c in dependents :: Read(stored, c), columns, values), true,
         AppliesOnUpdate(table, columns))
  }

  datatype Stored = Missing | Found(row: Values)

  datatype Effect = Nothing | Queue(outcome: Outcome)

  method EffectUpdate(table: Table, order: seq<ColumnId>, dependents: seq<ColumnId>, f: Expressions, stored: Stored,
                      columns: seq<ColumnId>, values: seq<Value>) returns (r: Result<Effect, Error>)
    requires forall i :: 0 <= i < |order| ==> order[i] < |table|
    requires forall i :: 0 <= i < |columns| ==> columns[i] < |table|
    ensures (exists i :: 0 <= i < |columns| && !table[columns[i]].isKey && table[columns[i]].generated) ==>
            r == Ok(Nothing)
    ensures !IsOwnEffect(table, columns) && (stored.Missing? || |columns| != |values|) ==> r == Err(Internal)
    ensures !IsOwnEffect(table, columns) && stored.Found? && |columns| == |values| ==>
              r == match UpdateTask(table, dependents, f, stored.row, columns, values).Run(order)
                   case Ok(o) => Ok(Queue(o))
                   case Err(e) => Err(e)
  {
    var applyOnUpdate := false;
    for i := 0 to |columns|
      invariant applyOnUpdate <==> exists k :: 0 <= k < i && !table[columns[k]].isKey
      invariant forall k :: 0 <= k < i ==> table[columns[k]].isKey || !table[columns[k]].generated
    {
      if !table[columns[i]].isKey {
        applyOnUpdate := true;
        if table[columns[i]].generated {
          return Ok(Nothing);
        }
      }
    }
    if stored.Missing? || |columns| != |values| {
      return Err(Internal);
    }
    var row: Values := map[];
    for i := 0 to |dependents|
      invariant row == map c | c in dependents[..i] :: Read(stored.row, c)
    {
      row := row[dependents[i] := Read(stored.row, dependents[i])];
    }
    assert dependents[..|dependents|] == dependents;
    ghost var before := row;
    for i := 0 to |columns|
      invariant row == Assigned(before, columns[..i], values[..i])
    {
      assert columns[..i + 1][..i] == columns[..i] && values[..i + 1][..i] == values[..i];
      row := row[columns[i] := values[i]];
    }
    assert columns[..|columns|] == columns && values[..|values|] == values;
    var outcome := Evaluate(table, order, f, row, true, applyOnUpdate);
    r := match outcome case Ok(o) => Ok(Queue(o)) case Err(e) => Err(e);
  }

  /** The whole stored row with the update over it. */
  function Patched(table: Table, stored: Values, columns: seq<ColumnId>, values: seq<Value>): Values
    requires |columns| == |values|
  {
    Assigned(map c: ColumnId | c < |table| :: Read(stored, c), columns, values)
  }

  /** The patched row has the values given, and elsewhere the stored ones, NULL where none is stored. */
  lemma PatchedMeaning(table: Table, stored: Values, columns: seq<ColumnId>, values: seq<Value>, c: ColumnId)
    requires |columns| == |values| && forall i :: 0 <= i < |columns| ==> columns[i] < |table|
    ensures var row := Patched(table, stored, columns, values);
      && (c in row <==> c < |table|)
      && (c < |table| && c !in columns ==> row[c] == if c in stored then stored[c] else Null)
      && (forall k :: 0 <= k < |columns| && columns[k] == c && (forall j :: k < j < |columns| ==> columns[j] != c) ==>
            c in row && row[c] == values[k])
  {
    hide Assigned;
    var whole: Values := map d: ColumnId | d < |table| :: Read(stored, d);
    AssignedKeys(whole, columns, values);
    forall k | 0 <= k < |columns| && columns[k] == c && (forall j :: k < j < |columns| ==> columns[j] != c)
      ensures Assigned(whole, columns, values)[c] == values[k]
    {
      AssignedGiven(whole, columns, values, k);
    }
  }

  ghost predicate UpdateOk(table: Table, order: seq<ColumnId>, dependents: seq<ColumnId>, columns: seq<ColumnId>) {
    && TableOk(table) && EvaluationOrder(table, order)
    && (forall c: ColumnId :: c in dependents <==> IsDependent(table, c))
    && (forall i :: 0 <= i < |columns| ==> columns[i] < |table|) && !IsOwnEffect(table, columns)
  }

  /** The row an update leaves: the patched row with the queued columns assigned. */
  function After(full: Values, o: Outcome): Values
    requires |o.columns| == |o.values|
  {
    Assigned(full, o.columns, o.values)
  }

  lemma {:induction false} AssignedFrom(row: Values, columns: seq<ColumnId>, values: seq<Value>, from: Values,
                                        c: ColumnId)
    requires |columns| == |values|
    requires forall k :: 0 <= k < |columns| ==> columns[k] in from && values[k] == from[columns[k]]
    ensures SameAt(Assigned(row, columns, values), if c in columns then from else row, c)
    decreases |columns|
  {
    if columns != [] {
      AssignedFrom(row, columns[..|columns| - 1], values[..|values| - 1], from, c);
      assert columns == columns[..|columns| - 1] + [columns[|columns| - 1]];
    }
  }

  ghost predicate Within(a: Values, b: Values) {
    forall c :: c in a ==> c in b && b[c] == a[c]
  }

  /** The evaluation's narrow row agrees with the patched row wherever it has a value. */
  lemma {:induction false} AssignedWithin(a: Values, b: Values, columns: seq<ColumnId>, values: seq<Value>)
    requires |columns| == |values| && Within(a, b)
    ensures Within(Assigned(a, columns, values), Assigned(b, columns, values))
    decreases |columns|
  {
    if columns != [] {
      AssignedWithin(a, b, columns[..|columns| - 1], values[..|values| - 1]);
    }
  }

  /** `r` is the full row with the columns `t` computes equal to their expressions over `r`. */
  ghost predicate SolvesOver(t: Task, full: Values, r: Values) {
    forall c: ColumnId :: if t.Computes(c) then t.Holds(c, r) else SameAt(r, full, c)
  }

  /** Every dependency of a computed column is in the narrow row. */
  ghost predicate Sufficient(t: Task, full: Values) {
    && Within(t.row, full)
    && (forall c: ColumnId, d: ColumnId :: t.Computes(c) && d in t.table[c].deps ==> d in t.row)
  }

  lemma NarrowToFull(t: Task, full: Values, x: Values, r: Values)
    requires Sufficient(t, full) && t.Solves(x)
    requires forall c: ColumnId :: SameAt(r, if t.Computes(c) then x else full, c)
    ensures SolvesOver(t, full, r)
  {
    hide Compute, Skipped, Equation;
    assert forall c: ColumnId :: t.Computes(c) ==> c < |t.table|;
    forall c: ColumnId ensures if t.Computes(c) then t.Holds(c, r) else SameAt(r, full, c) {
      assert SameAt(r, if t.Computes(c) then x else full, c);
      if t.Computes(c) {
        assert t.Holds(c, x);
        forall k | 0 <= k < |t.table[c].deps| ensures SameAt(x, r, t.table[c].deps[k]) {
          var d := t.table[c].deps[k];
          assert d in t.table[c].deps;
          assert SameAt(r, if t.Computes(d) then x else full, d);
          assert !t.Computes(d) ==> SameAt(x, t.row, d);
        }
        ComputeDependsOnDeps(t.table, t.f, c, x, r);
        EquationIsComputed(t.table, t.f, c, x);
        EquationIsComputed(t.table, t.f, c, r);
      }
    }
  }

  ghost function Narrowed(t: Task, r: Values): Values {
    map c: ColumnId | c in r && (t.Computes(c) || c in t.row) :: r[c]
  }

  lemma FullToNarrow(t: Task, full: Values, r: Values)
    requires Sufficient(t, full) && SolvesOver(t, full, r)
    ensures t.Solves(Narrowed(t, r))
  {
    hide Compute, Skipped, Equation;
    assert forall c: ColumnId :: t.Computes(c) ==> c < |t.table|;
    var x := Narrowed(t, r);
    forall c: ColumnId ensures if t.Computes(c) then t.Holds(c, x) else SameAt(x, t.row, c) {
      if t.Computes(c) {
        assert t.Holds(c, r);
        forall k | 0 <= k < |t.table[c].deps| ensures SameAt(r, x, t.table[c].deps[k]) {
          var d := t.table[c].deps[k];
          assert d in t.table[c].deps;
        }
        ComputeDependsOnDeps(t.table, t.f, c, r, x);
        EquationIsComputed(t.table, t.f, c, x);
        EquationIsComputed(t.table, t.f, c, r);
      } else {
        assert SameAt(r, full, c);
      }
    }
  }

  lemma UpdateIsSufficient(table: Table, order: seq<ColumnId>, dependents: seq<ColumnId>, f: Expressions,
                           stored: Values, columns: seq<ColumnId>, values: seq<Value>)
    requires UpdateOk(table, order, dependents, columns) && |columns| == |values|
    ensures Sufficient(UpdateTask(table, dependents, f, stored, columns, values),
                       Patched(table, stored, columns, values))
  {
    hide Skipped, EvaluationOrder, Assigned, AppliesOnUpdate, IsOwnEffect;
    var t := UpdateTask(table, dependents, f, stored, columns, values);
    var narrow: Values := map c | c in dependents :: Read(stored, c);
    var wide: Values := map c: ColumnId | c < |table| :: Read(stored, c);
    assert Within(narrow, wide) by {
      forall c | c in dependents ensures c < |table| {
        DependentIsColumn(table, c);
      }
    }
    AssignedWithin(narrow, wide, columns, values);
    AssignedKeys(narrow, columns, values);
    forall c: ColumnId, d: ColumnId | t.Computes(c) && d in t.table[c].deps ensures d in t.row {
      assert IsDependent(table, d);
    }
  }

  lemma DependentIsColumn(table: Table, c: ColumnId)
    requires TableOk(table) && IsDependent(table, c)
    ensures c < |table|
  {
  }

  /**
   * Reading only dependencies and patches is enough: the update succeeds exactly if the
   * equations have a solution over the whole patched row, and leaves that solution.
   */
  lemma UpdateIsTheSolution(table: Table, order: seq<ColumnId>, dependents: seq<ColumnId>, f: Expressions,
                            stored: Values, columns: seq<ColumnId>, values: seq<Value>)
    requires UpdateOk(table, order, dependents, columns) && |columns| == |values|
    ensures var t := UpdateTask(table, dependents, f, stored, columns, values);
      var full := Patched(table, stored, columns, values);
      && (t.Run(order).Ok? ==>
          |t.Run(order).value.columns| == |t.Run(order).value.values| &&
            SolvesOver(t, full, After(full, t.Run(order).value)))
      && (forall r :: SolvesOver(t, full, r) ==> t.Run(order).Ok? && After(full, t.Run(order).value) == r)
  {
    hide Evaluated, Skipped, Compute, SolvesOver, Sufficient, Task.Solves;
    var t, full := UpdateTask(table, dependents, f, stored, columns, values), Patched(table, stored, columns, values);
    UpdateIsSufficient(table, order, dependents, f, stored, columns, values);
    if t.Run(order).Ok? {
      var o := t.Run(order).value;
      EvaluationSolves(t, order);
      forall c: ColumnId ensures SameAt(After(full, o), if t.Computes(c) then o.row else full, c) {
        AssignedFrom(full, o.columns, o.values, o.row, c);
      }
      NarrowToFull(t, full, o.row, After(full, o));
    }
    forall r | SolvesOver(t, full, r) ensures t.Run(order).Ok? && After(full, t.Run(order).value) == r {
      FullToNarrow(t, full, r);
      SolutionIsEvaluated(t, order, Narrowed(t, r));
      EvaluationSolves(t, order);
      var o := t.Run(order).value;
      forall c: ColumnId ensures SameAt(After(full, o), r, c) {
        AssignedFrom(full, o.columns, o.values, o.row, c);
        SolvedAt(t, full, r, c);
      }
      SameEverywhere(After(full, o), r);
    }
  }

  lemma SolvedAt(t: Task, full: Values, r: Values, c: ColumnId)
    requires SolvesOver(t, full, r)
    ensures if t.Computes(c) then SameAt(Narrowed(t, r), r, c) else SameAt(r, full, c)
  {
  }

  /** The columns an update should recompute: generated ones, and ON UPDATE ones it does not set itself. */
  ghost predicate Refreshes(table: Table, columns: seq<ColumnId>, c: ColumnId)
    requires forall i :: 0 <= i < |columns| ==> columns[i] < |table|
  {
    && c < |table| && !table[c].isKey
    && (|| table[c].generated
        || (table[c].hasOnUpdate && c !in columns && exists i :: 0 <= i < |columns| && !table[columns[i]].isKey))
  }

  /** Recomputation from the whole patched row. */
  ghost predicate Recomputed(table: Table, f: Expressions, full: Values, columns: seq<ColumnId>, r: Values)
    requires forall i :: 0 <= i < |columns| ==> columns[i] < |table|
  {
    forall c ::
      if Refreshes(table, columns, c) then Equation(table, f, c, r) else SameAt(r, full, c)
  }

  ghost predicate UpdateAgrees(table: Table, order: seq<ColumnId>, dependents: seq<ColumnId>, f: Expressions,
                               stored: Values, columns: seq<ColumnId>, values: seq<Value>)
    requires UpdateOk(table, order, dependents, columns) && |columns| == |values|
  {
    var t, full := UpdateTask(table, dependents, f, stored, columns, values), Patched(table, stored, columns, values);
    forall r :: Recomputed(table, f, full, columns, r) <==>
                t.Run(order).Ok? && |t.Run(order).value.columns| == |t.Run(order).value.values| &&
                  r == After(full, t.Run(order).value)
  }

  lemma UpdateComputes(table: Table, order: seq<ColumnId>, dependents: seq<ColumnId>, f: Expressions, stored: Values,
                       columns: seq<ColumnId>, values: seq<Value>, c: ColumnId)
    requires UpdateOk(table, order, dependents, columns) && |columns| == |values|
    ensures UpdateTask(table, dependents, f, stored, columns, values).Computes(c) <==> Refreshes(table, columns, c)
  {
    hide EvaluationOrder, Assigned, IsOwnEffect;
    var narrow: Values := map d | d in dependents :: Read(stored, d);
    AssignedKeys(narrow, columns, values);
  }

  /**
   * The update path, which reads only dependencies and patches, always agrees with recomputing from
   * the whole patched row.
   */
  lemma UpdateIsRecomputation(table: Table, order: seq<ColumnId>, dependents: seq<ColumnId>, f: Expressions,
                              stored: Values, columns: seq<ColumnId>, values: seq<Value>)
    requires UpdateOk(table, order, dependents, columns) && |columns| == |values|
    ensures UpdateAgrees(table, order, dependents, f, stored, columns, values)
  {
    hide Skipped, Refreshes, Compute, Evaluated, EvaluationOrder, Task.Computes, Patched, AppliesOnUpdate, Assigned,
         Equation;
    var t, full := UpdateTask(table, dependents, f, stored, columns, values), Patched(table, stored, columns, values);
    UpdateIsTheSolution(table, order, dependents, f, stored, columns, values);
    forall r ensures Recomputed(table, f, full, columns, r) <==> SolvesOver(t, full, r) {
      forall c ensures t.Computes(c) <==> Refreshes(table, columns, c) {
        UpdateComputes(table, order, dependents, f, stored, columns, values, c);
      }
      RefreshesColumns(table, columns);
    }
  }

  lemma RefreshesColumns(table: Table, columns: seq<ColumnId>)
    requires forall i :: 0 <= i < |columns| ==> columns[i] < |table|
    ensures forall c: ColumnId :: Refreshes(table, columns, c) ==> c < |table|
  {
  }

  // ---------------------------------------------------------------------------
  // The evaluation order
  // ---------------------------------------------------------------------------

  lemma NoneRepeats()
    ensures Distinct<ColumnId>([])
  {
  }

  lemma AppendedOnce(s: seq<nat>, u: nat)
    requires Distinct(s) && u !in s
    ensures Distinct(s + [u])
  {
  }

  method EvaluatedNodes(table: Table) returns (sorter: GraphDependencyHelper<ColumnId>)
    requires TableOk(table)
    ensures fresh(sorter) && sorter.Valid() && (forall c | 0 <= c < |table| :: sorter.id(c) == table[c].name)
    ensures Distinct(sorter.values) && forall c :: c in sorter.values <==> IsEvaluated(table, c)
    ensures forall u :: 0 <= u < |sorter.edges| ==> sorter.edges[u] == []
  {
    hide GraphDependencyHelper.Valid, TableOk, Fold, Distinct;
    sorter := new GraphDependencyHelper((c: ColumnId) => if c < |table| then table[c].name else "");
    NoneRepeats();
    for c := 0 to |table|
      invariant fresh(sorter) && sorter.Valid() && Distinct(sorter.values)
      invariant forall d :: d in sorter.values <==> 0 <= d < c && IsEvaluated(table, d)
      invariant forall u :: 0 <= u < |sorter.edges| ==> sorter.edges[u] == []
    {
      if table[c].generated || table[c].hasDefault {
        AppendedOnce(sorter.values, c);
        sorter.AddNodeIfNotExists(c);
      }
    }
  }

  /** Column `c` depends on `d`, and both are evaluated. */
  ghost predicate DependsOn(table: Table, c: ColumnId, d: ColumnId) {
    c < |table| && table[c].generated && d in table[c].deps && IsEvaluated(table, d)
  }

  /** The node a name finds is the column of that name. */
  lemma NameFindsColumn(table: Table, sorter: GraphDependencyHelper<ColumnId>, c: ColumnId)
    requires TableOk(table) && sorter.Valid() && IsEvaluated(table, c)
    requires forall d | 0 <= d < |table| :: sorter.id(d) == table[d].name
    requires forall d :: d in sorter.values <==> IsEvaluated(table, d)
    ensures Fold(table[c].name) in sorter.nodesByName
    ensures var i := sorter.nodesByName[Fold(table[c].name)]; i < |sorter.values| && sorter.values[i] == c
  {
    var name, names := Fold(table[c].name), Names(sorter.id, sorter.values);
    assert c in sorter.values;
    var k :| 0 <= k < |sorter.values| && sorter.values[k] == c;
    assert names[k] == name;
    var i := sorter.nodesByName[name];
    assert names[i] == name;
    assert sorter.values[i] in sorter.values;
    assert Fold(table[sorter.values[i]].name) == Fold(table[c].name);
  }

  /** The edges are those of the dependencies of columns below `c`, and of column `c` on `some`. */
  ghost predicate EdgesOf(table: Table, values: seq<ColumnId>, g: Edges, c: nat, some: seq<ColumnId>) {
    forall u: nat, v: nat :: Edge(g, u, v) <==>
      u < |values| && v < |values| &&
      ((values[u] < c && DependsOn(table, values[u], values[v])) ||
       (values[u] == c && DependsOn(table, c, values[v]) && values[v] in some))
  }

  lemma EdgesNext(table: Table, values: seq<ColumnId>, g: Edges, g': Edges, c: ColumnId, k: nat, i: nat, j: nat)
    requires c < |table| && k < |table[c].deps| && table[c].generated && IsEvaluated(table, table[c].deps[k])
    requires Distinct(values) && EdgesOf(table, values, g, c, table[c].deps[..k])
    requires i < |values| && j < |values| && values[i] == c && values[j] == table[c].deps[k]
    requires forall u: nat, v: nat :: Edge(g', u, v) <==> Edge(g, u, v) || (u == i && v == j)
    ensures EdgesOf(table, values, g', c, table[c].deps[..k + 1])
  {
    var deps := table[c].deps;
    assert forall d :: d in deps[..k + 1] <==> d in deps[..k] || d == deps[k] by {
      assert deps[..k + 1] == deps[..k] + [deps[k]];
    }
    assert DependsOn(table, c, deps[k]);
  }

  lemma EdgesSkip(table: Table, values: seq<ColumnId>, g: Edges, c: ColumnId, k: nat)
    requires c < |table| && k < |table[c].deps| && !IsEvaluated(table, table[c].deps[k])
    requires EdgesOf(table, values, g, c, table[c].deps[..k])
    ensures EdgesOf(table, values, g, c, table[c].deps[..k + 1])
  {
    var deps := table[c].deps;
    assert deps[..k + 1] == deps[..k] + [deps[k]];
  }

  lemma EdgesDone(table: Table, values: seq<ColumnId>, g: Edges, c: ColumnId, some: seq<ColumnId>)
    requires c < |table| && EdgesOf(table, values, g, c, some) && (table[c].generated ==> some == table[c].deps)
    ensures EdgesOf(table, values, g, c + 1, [])
  {
  }

  ghost predicate SorterOk(table: Table, sorter: GraphDependencyHelper<ColumnId>)
    reads sorter
  {
    && sorter.Valid() && (forall c | 0 <= c < |table| :: sorter.id(c) == table[c].name)
    && Distinct(sorter.values) && forall c :: c in sorter.values <==> IsEvaluated(table, c)
  }

  method AddDependencies(table: Table, sorter: GraphDependencyHelper<ColumnId>, c: ColumnId)
    requires TableOk(table) && SorterOk(table, sorter) && c < |table| && table[c].generated
    requires EdgesOf(table, sorter.values, sorter.edges, c, [])
    modifies sorter`edges
    ensures SorterOk(table, sorter) && EdgesOf(table, sorter.values, sorter.edges, c, table[c].deps)
  {
    hide GraphDependencyHelper.Valid, TableOk, Fold, Distinct, EdgesOf, Edge;
    var deps := table[c].deps;
    assert deps[..0] == [];
    for k := 0 to |deps|
      invariant SorterOk(table, sorter) && EdgesOf(table, sorter.values, sorter.edges, c, deps[..k])
    {
      if IsEvaluated(table, deps[k]) {
        NameFindsColumn(table, sorter, c);
        NameFindsColumn(table, sorter, deps[k]);
        ghost var before := sorter.edges;
        var ok := sorter.AddEdgeIfNotExists(table[c].name, table[deps[k]].name);
        assert ok;
        EdgesNext(table, sorter.values, before, sorter.edges, c, k,
                  sorter.nodesByName[Fold(table[c].name)], sorter.nodesByName[Fold(table[deps[k]].name)]);
      } else {
        EdgesSkip(table, sorter.values, sorter.edges, c, k);
      }
    }
    assert deps[..|deps|] == deps;
  }

  /** Columns, each depending on the next, that come back to where they started. */
  ghost predicate DependencyCycle(table: Table, p: seq<ColumnId>) {
    |p| >= 2 && p[0] == p[|p| - 1] && forall i :: 0 < i < |p| ==> DependsOn(table, p[i - 1], p[i])
  }

  /** The order of nodes, read as columns, is an evaluation order. */
  lemma NodesToColumns(table: Table, values: seq<ColumnId>, g: Edges, order: seq<nat>, columns: seq<ColumnId>)
    requires TableOk(table) && Distinct(values) && (forall c :: c in values <==> IsEvaluated(table, c))
    requires |g| == |values| && EdgesOf(table, values, g, |table|, []) && IsOrder(g, order)
    requires |columns| == |order|
    requires forall k :: 0 <= k < |order| ==> order[k] < |values| && columns[k] == values[order[k]]
    ensures EvaluationOrder(table, columns)
  {
    forall c ensures c in columns <==> IsEvaluated(table, c) {
      if c in values {
        var u :| 0 <= u < |values| && values[u] == c;
        assert u in order;
        var k :| 0 <= k < |order| && order[k] == u;
        assert columns[k] == c;
      }
      if k :| 0 <= k < |columns| && columns[k] == c {
        assert values[order[k]] in values;
      }
    }
    forall i | 0 <= i < |columns| ensures columns[i] < |table| {
      assert columns[i] in columns;
    }
    forall i, d | 0 <= i < |columns| && d in table[columns[i]].deps && IsEvaluated(table, d) ensures d in columns[..i] {
      assert columns[i] in columns;
      assert DependsOn(table, columns[i], d);
      assert d in values;
      var v: nat :| v < |values| && values[v] == d;
      assert Edge(g, order[i], v);
      assert v in order[..i];
      var k :| 0 <= k < i && order[k] == v;
      assert columns[..i][k] == d;
    }
  }

  /** A cycle of nodes is a cycle of columns. */
  lemma NodeCycle(table: Table, values: seq<ColumnId>, g: Edges, p: seq<nat>)
    requires EdgesOf(table, values, g, |table|, []) && |g| == |values| && IsCycle(g, p)
    ensures exists q :: DependencyCycle(table, q)
  {
    var q := seq(|p|, i requires 0 <= i < |p| => values[p[i]]);
    forall i | 0 < i < |q| ensures DependsOn(table, q[i - 1], q[i]) {
      assert Edge(g, p[i - 1], p[i]);
    }
    assert DependencyCycle(table, q);
  }

  /** A cycle of columns rules out an evaluation order. */
  lemma OrderHasNoCycle(table: Table, columns: seq<ColumnId>, q: seq<ColumnId>)
    requires EvaluationOrder(table, columns)
    ensures !DependencyCycle(table, q)
  {
    if DependencyCycle(table, q) {
      assert DependsOn(table, q[0], q[1]);
      assert q[0] in columns;
      var i :| 0 <= i < |columns| && columns[i] == q[0];
      var k := CycleFalls(table, columns, q, |q| - 1, i);
    }
  }

  /** Along a chain of dependencies, positions in the order fall. */
  lemma {:induction false} CycleFalls(table: Table, columns: seq<ColumnId>, q: seq<ColumnId>, n: nat, i: nat)
    returns (k: nat)
    requires EvaluationOrder(table, columns) && 0 < n < |q|
    requires forall m :: 0 < m < |q| ==> DependsOn(table, q[m - 1], q[m])
    requires i < |columns| && columns[i] == q[0]
    ensures k < i && columns[k] == q[n]
  {
    var from := i;
    if n > 1 {
      from := CycleFalls(table, columns, q, n - 1, i);
    }
    assert DependsOn(table, q[n - 1], q[n]);
    assert q[n] in columns[..from];
    k :| 0 <= k < from && columns[k] == q[n];
  }

  /** Succeeds exactly if no column depends on itself; the order then puts dependencies first. */
  method GetEvaluatedColumnsInTopologicalOrder(table: Table) returns (r: Result<seq<ColumnId>, Error>)
    requires TableOk(table)
    ensures r.Ok? ==> EvaluationOrder(table, r.value)
    ensures r.Ok? <==> forall q :: !DependencyCycle(table, q)
    ensures r.Err? ==> r.error == CycleDetected
  {
    hide GraphDependencyHelper.Valid, TableOk, Fold, EdgesOf, EvaluationOrder, IsEvaluated;
    var sorter := EvaluatedNodes(table);
    assert EdgesOf(table, sorter.values, sorter.edges, 0, []) by { NoEdgesYet(table, sorter.values, sorter.edges); }
    for c := 0 to |table|
      invariant fresh(sorter) && SorterOk(table, sorter) && EdgesOf(table, sorter.values, sorter.edges, c, [])
    {
      if table[c].generated {
        AddDependencies(table, sorter, c);
        EdgesDone(table, sorter.values, sorter.edges, c, table[c].deps);
      } else {
        EdgesDone(table, sorter.values, sorter.edges, c, []);
      }
    }
    ghost var edges := sorter.edges;
    assert |edges| == |sorter.values| by { SorterSizes(sorter); }
    var ok, columns, order := sorter.TopologicalOrder([]);
    if ok {
      NodesToColumns(table, sorter.values, edges, order, columns);
      forall q ensures !DependencyCycle(table, q) {
        OrderHasNoCycle(table, columns, q);
      }
      r := Ok(columns);
    } else {
      ghost var p :| IsCycle(edges, p);
      NodeCycle(table, sorter.values, edges, p);
      r := Err(CycleDetected);
    }
  }

  lemma NoEdgesYet(table: Table, values: seq<ColumnId>, g: Edges)
    requires forall u :: 0 <= u < |g| ==> g[u] == []
    ensures EdgesOf(table, values, g, 0, [])
  {
  }

  lemma SorterSizes(sorter: GraphDependencyHelper<ColumnId>)
    requires sorter.Valid()
    ensures |sorter.edges| == |sorter.values|
  {
  }
}
