/**
 * The serial reference: a database is what replaying a commit log leaves, and
 * the multi-version store is faithful when it reads as the replay does.
 */
module Replay {
  import opened Collections
  import opened Keys
  import opened KeyRanges
  import opened Storage

  /** A database state: the existing rows. */
  type Db = map<Loc, Data>

  /** One buffered write of a transaction. */
  datatype Mutation = Mutation(loc: Loc, op: Op)

  /** A range a transaction scanned, and the rows it got. */
  datatype ReadRecord = ReadRecord(table: TableId, range: KeyRange, rows: map<Loc, Data>)

  datatype Commit = Commit(ts: Time, writes: seq<Mutation>, observed: seq<ReadRecord>)

  function Lookup(db: map<Loc, Data>, loc: Loc): Option<Data> {
    if loc in db then Some(db[loc]) else None
  }

  function ScanDb(db: Db, table: TableId, range: KeyRange): map<Loc, Data> {
    map loc | loc in db && loc.table == table && range.Spans(loc.key) :: db[loc]
  }

  function ApplyWrite(db: Db, w: Mutation): Db {
    match ApplyOp(Lookup(db, w.loc), w.op)
    case Some(data) => db[w.loc := data]
    case None => db - {w.loc}
  }

  function ApplyAll(db: Db, ws: seq<Mutation>): Db {
    if ws == [] then db else ApplyWrite(ApplyAll(db, ws[..|ws| - 1]), ws[|ws| - 1])
  }

  /** The writes apply in order: to a row, the last of its writes to what the writes before it left, and no other. */
  lemma {:induction false} LastWriteDecides(db: Db, ws: seq<Mutation>, loc: Loc, k: nat)
    requires k <= |ws| && forall j :: k <= j < |ws| ==> ws[j].loc != loc
    ensures Lookup(ApplyAll(db, ws), loc) ==
            if k == 0 then Lookup(db, loc)
            else if ws[k - 1].loc != loc then Lookup(ApplyAll(db, ws[..k - 1]), loc)
            else ApplyOp(Lookup(ApplyAll(db, ws[..k - 1]), loc), ws[k - 1].op)
    decreases |ws|
  {
    var n := |ws| - 1;
    if k <= n {
      LastWriteDecides(db, ws[..n], loc, k);
      assert k > 0 ==> ws[..n][..k - 1] == ws[..k - 1];
    }
  }

  /** Serial execution of the whole log, from the empty database. */
  function Replayed(log: seq<Commit>): Db {
    if log == [] then map[] else ApplyAll(Replayed(log[..|log| - 1]), log[|log| - 1].writes)
  }

  /** Serial execution of the commits at or before `t`. */
  function ReplayedUpTo(log: seq<Commit>, t: Time): Db {
    if log == [] then map[]
    else
      var db := ReplayedUpTo(log[..|log| - 1], t);
      if log[|log| - 1].ts <= t then ApplyAll(db, log[|log| - 1].writes) else db
  }

  ghost predicate SortedLog(log: seq<Commit>) {
    forall i, j :: 0 <= i < j < |log| ==> log[i].ts < log[j].ts
  }

  /** Every commit of the log is at or before `t`. */
  ghost predicate LogUntil(log: seq<Commit>, t: Time) {
    forall i :: 0 <= i < |log| ==> log[i].ts <= t
  }

  /** The log with only the first `n` writes of its last commit. */
  function Truncated(log: seq<Commit>, n: nat): seq<Commit>
    requires log != [] && n <= |log[|log| - 1].writes|
  {
    log[..|log| - 1] + [log[|log| - 1].(writes := log[|log| - 1].writes[..n])]
  }

  lemma {:induction false} ReplayedAll(log: seq<Commit>, t: Time)
    requires LogUntil(log, t)
    ensures ReplayedUpTo(log, t) == Replayed(log)
  {
    if log != [] {
      assert LogUntil(log[..|log| - 1], t);
      ReplayedAll(log[..|log| - 1], t);
    }
  }

  /** In a sorted log, the commits at or before `t` are a prefix, so a state at `t` is a serial state. */
  lemma {:induction false} ReplayedUpToIsPrefix(log: seq<Commit>, t: Time) returns (n: nat)
    requires SortedLog(log)
    ensures n <= |log| && ReplayedUpTo(log, t) == Replayed(log[..n])
    ensures forall i :: 0 <= i < |log| ==> (log[i].ts <= t <==> i < n)
  {
    if log == [] {
      n := 0;
      assert log[..0] == [];
    } else if log[|log| - 1].ts <= t {
      n := |log|;
      assert log[..n] == log;
      ReplayedAll(log, t);
    } else {
      n := ReplayedUpToIsPrefix(log[..|log| - 1], t);
      assert log[..|log| - 1][..n] == log[..n];
    }
  }

  lemma AppendLater(log: seq<Commit>, c: Commit, t: Time)
    requires c.ts > t || c.writes == []
    ensures ReplayedUpTo(log + [c], t) == ReplayedUpTo(log, t)
  {
    assert (log + [c])[..|log|] == log;
  }

  /** The in-flight tail of a log does not show at times before it. */
  lemma TruncatedBefore(log: seq<Commit>, n: nat, t: Time)
    requires log != [] && n <= |log[|log| - 1].writes| && log[|log| - 1].ts > t
    ensures ReplayedUpTo(Truncated(log, n), t) == ReplayedUpTo(log, t)
  {
    var last := log[|log| - 1];
    AppendLater(log[..|log| - 1], last.(writes := last.writes[..n]), t);
    AppendLater(log[..|log| - 1], last, t);
    assert log == log[..|log| - 1] + [last];
  }

  /** One more write of the last commit. */
  lemma TruncatedStep(log: seq<Commit>, n: nat, t: Time)
    requires log != [] && n < |log[|log| - 1].writes|
    ensures ReplayedUpTo(Truncated(log, n + 1), t) ==
            if log[|log| - 1].ts <= t then ApplyWrite(ReplayedUpTo(Truncated(log, n), t), log[|log| - 1].writes[n])
            else ReplayedUpTo(Truncated(log, n), t)
  {
    var last := log[|log| - 1];
    var a, b := Truncated(log, n), Truncated(log, n + 1);
    assert a[..|a| - 1] == log[..|log| - 1] == b[..|b| - 1];
    assert last.writes[..n + 1][..n] == last.writes[..n];
  }

  lemma TruncatedAll(log: seq<Commit>)
    requires log != []
    ensures Truncated(log, |log[|log| - 1].writes|) == log
  {
    var last := log[|log| - 1];
    assert last.writes[..|last.writes|] == last.writes;
  }

  // ---------------------------------------------------------------------------
  // Which commits leave a version at a row
  // ---------------------------------------------------------------------------

  /** Some write of `ws`, run from `db`, leaves a version of `loc`. */
  predicate WritesVersion(db: Db, ws: seq<Mutation>, loc: Loc) {
    ws != [] &&
    var front, w := ws[..|ws| - 1], ws[|ws| - 1];
    WritesVersion(db, front, loc) || (w.loc == loc && LeavesVersion(Lookup(ApplyAll(db, front), loc), w.op))
  }

  /** The i-th commit of the log leaves a version of `loc`. */
  predicate Wrote(log: seq<Commit>, i: nat, loc: Loc)
    requires i < |log|
  {
    WritesVersion(Replayed(log[..i]), log[i].writes, loc)
  }

  predicate WrittenAfter(log: seq<Commit>, loc: Loc, t: Time) {
    log != [] &&
    (WrittenAfter(log[..|log| - 1], loc, t) ||
     (log[|log| - 1].ts > t && WritesVersion(Replayed(log[..|log| - 1]), log[|log| - 1].writes, loc)))
  }

  lemma {:induction false} WrittenAfterMeaning(log: seq<Commit>, loc: Loc, t: Time)
    ensures WrittenAfter(log, loc, t) <==> exists i :: 0 <= i < |log| && log[i].ts > t && Wrote(log, i, loc)
  {
    if log != [] {
      var front := log[..|log| - 1];
      WrittenAfterMeaning(front, loc, t);
      forall i | 0 <= i < |front| ensures front[..i] == log[..i] && Wrote(front, i, loc) == Wrote(log, i, loc) {
      }
      if WrittenAfter(front, loc, t) {
        var i :| 0 <= i < |front| && front[i].ts > t && Wrote(front, i, loc);
        assert log[i].ts > t && Wrote(log, i, loc);
      }
      if i :| 0 <= i < |log| && log[i].ts > t && Wrote(log, i, loc) {
        if i < |front| {
          assert front[i].ts > t && Wrote(front, i, loc);
        }
      }
      if log[|log| - 1].ts > t && WritesVersion(Replayed(front), log[|log| - 1].writes, loc) {
        assert Wrote(log, |log| - 1, loc);
      }
    }
  }

  // ---------------------------------------------------------------------------
  // A store that is faithful to a log
  // ---------------------------------------------------------------------------

  /** The row reads as the replay says, wherever its version history still reaches. */
  ghost predicate FaithfulAt(store: Store, log: seq<Commit>, horizon: Time, loc: Loc, t: Time) {
    t >= horizon || !ChangedAfter(Stored(store, loc), t) ==>
      ReadAt(store, loc, t) == Lookup(ReplayedUpTo(log, t), loc)
  }

  ghost predicate Faithful(store: Store, log: seq<Commit>, horizon: Time) {
    && (forall loc, t :: FaithfulAt(store, log, horizon, loc, t))
    && (forall loc, t :: ChangedAfter(Stored(store, loc), t) <==> WrittenAfter(log, loc, t))
  }

  lemma EmptyIsFaithful(horizon: Time)
    ensures Faithful(map[], [], horizon)
  {
  }

  /** Reserving a timestamp: the commit is in the log, with nothing of it flushed. */
  lemma FaithfulReserve(store: Store, log: seq<Commit>, c: Commit, h: Time, h': Time)
    requires Faithful(store, log, h) && h <= h' && c.writes == []
    ensures Faithful(store, log + [c], h')
  {
    assert (log + [c])[..|log|] == log;
    forall loc, t ensures FaithfulAt(store, log + [c], h', loc, t) {
      AppendLater(log, c, t);
      assert FaithfulAt(store, log, h, loc, t);
    }
  }

  /** The n-th write of the last commit can be flushed: all before it have been. */
  ghost predicate FlushReady(store: Store, log: seq<Commit>, n: nat, retention: nat) {
    && log != [] && n < |log[|log| - 1].writes|
    && LogUntil(log, log[|log| - 1].ts) && StoreOk(store, log[|log| - 1].ts)
    && Faithful(store, Truncated(log, n), log[|log| - 1].ts - retention)
  }

  function FlushNth(store: Store, log: seq<Commit>, n: nat, retention: nat): Store
    requires log != [] && n < |log[|log| - 1].writes|
  {
    var c := log[|log| - 1];
    FlushOp(store, c.ts, c.writes[n].loc, c.writes[n].op, retention)
  }

  lemma FaithfulFlushAt(store: Store, log: seq<Commit>, n: nat, retention: nat, h: Time, loc: Loc, t: Time)
    requires FlushReady(store, log, n, retention) && h == log[|log| - 1].ts - retention
    ensures FaithfulAt(FlushNth(store, log, n, retention), Truncated(log, n + 1), h, loc, t)
  {
    hide FlushOp, StoreOk, Truncated, ReplayedUpTo, Stored, ReadAt, ChangedAfter, WrittenAfter, Replayed;
    var c := log[|log| - 1];
    var w := c.writes[n];
    FlushReads(store, c.ts, w.loc, w.op, retention, loc);
    TruncatedStep(log, n, t);
    assert FaithfulAt(store, Truncated(log, n), h, loc, t);
    if loc != w.loc || (t < c.ts && !LeavesVersion(ReadAt(store, loc, c.ts), w.op)) {
      SameReadings(store, FlushNth(store, log, n, retention), loc, t);
    } else if t >= c.ts {
      assert FaithfulAt(store, Truncated(log, n), h, loc, c.ts);
      LaterTruncated(log, n, t);
      LaterTruncated(log, n, c.ts);
    }
  }

  lemma SameReadings(store: Store, store': Store, loc: Loc, t: Time)
    requires Stored(store, loc) == Stored(store', loc)
    ensures ReadAt(store, loc, t) == ReadAt(store', loc, t)
  {
  }

  lemma ChangedFlushAt(store: Store, log: seq<Commit>, n: nat, retention: nat, loc: Loc, t: Time)
    requires FlushReady(store, log, n, retention)
    ensures ChangedAfter(Stored(FlushNth(store, log, n, retention), loc), t) <==>
            WrittenAfter(Truncated(log, n + 1), loc, t)
  {
    hide FlushOp, StoreOk, Truncated, ReplayedUpTo, Stored, ReadAt, ChangedAfter, LogUntil, WrittenAfter, Replayed;
    var c := log[|log| - 1];
    var w := c.writes[n];
    FlushReads(store, c.ts, w.loc, w.op, retention, loc);
    WrittenTruncatedStep(log, n, loc, t);
    assert FaithfulAt(store, Truncated(log, n), c.ts - retention, w.loc, c.ts);
    LaterTruncated(log, n, c.ts);
  }

  /** Flushing one write keeps the store faithful to the log with that write. */
  lemma FaithfulFlush(store: Store, log: seq<Commit>, n: nat, retention: nat)
    requires FlushReady(store, log, n, retention)
    ensures StoreOk(FlushNth(store, log, n, retention), log[|log| - 1].ts)
    ensures Faithful(FlushNth(store, log, n, retention), Truncated(log, n + 1), log[|log| - 1].ts - retention)
  {
    hide FlushOp, StoreOk, Truncated, FaithfulAt, Stored, ChangedAfter, LogUntil, WrittenAfter;
    var c := log[|log| - 1];
    var h := c.ts - retention;
    var store', after := FlushNth(store, log, n, retention), Truncated(log, n + 1);
    FlushReads(store, c.ts, c.writes[n].loc, c.writes[n].op, retention, c.writes[n].loc);
    forall loc, t ensures FaithfulAt(store', after, h, loc, t) {
      FaithfulFlushAt(store, log, n, retention, h, loc, t);
    }
    forall loc, t ensures ChangedAfter(Stored(store', loc), t) <==> WrittenAfter(after, loc, t) {
      ChangedFlushAt(store, log, n, retention, loc, t);
    }
  }

  lemma LaterTruncated(log: seq<Commit>, n: nat, t: Time)
    requires log != [] && n <= |log[|log| - 1].writes| && LogUntil(log, t)
    ensures ReplayedUpTo(Truncated(log, n), t) == Replayed(Truncated(log, n))
  {
    ReplayedAll(Truncated(log, n), t);
  }

  lemma WrittenTruncatedStep(log: seq<Commit>, n: nat, loc: Loc, t: Time)
    requires log != [] && n < |log[|log| - 1].writes|
    ensures var c := log[|log| - 1];
            WrittenAfter(Truncated(log, n + 1), loc, t) <==>
            WrittenAfter(Truncated(log, n), loc, t) ||
            (c.ts > t && c.writes[n].loc == loc &&
             LeavesVersion(Lookup(Replayed(Truncated(log, n)), loc), c.writes[n].op))
  {
    var c := log[|log| - 1];
    var a, b := Truncated(log, n), Truncated(log, n + 1);
    assert a[..|a| - 1] == log[..|log| - 1] == b[..|b| - 1];
    assert c.writes[..n + 1][..n] == c.writes[..n];
  }
}
