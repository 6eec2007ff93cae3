/**
 * The lock manager and its handles (backend/locking/manager.cc, backend/locking/handle.cc):
 * nothing is locked, scanned ranges are recorded and checked at commit.
 */
module Locking {
  import opened Collections
  import opened Keys
  import opened KeyRanges
  import opened KeySets
  import opened Storage
  import opened Replay
  import Clocks

  datatype LockMode = Shared | Exclusive

  datatype LockRequest = LockRequest(mode: LockMode, table: TableId, range: KeyRange)

  /** Key ranges read from one table. `all` subsumes `ranges`. */
  datatype TableReads = TableReads(all: bool, ranges: seq<KeyRange>)

  type ReadSet = map<TableId, TableReads>

  /** KeyRange::operator==, which compares keys by their order. */
  predicate SameRange(a: KeyRange, b: KeyRange) {
    Cmp(a.start, b.start) == 0 && Cmp(a.limit, b.limit) == 0 && a.startType == b.startType && a.limitType == b.limitType
  }

  function Reads(readSet: ReadSet, table: TableId): TableReads {
    if table in readSet then readSet[table] else TableReads(false, [])
  }

  /** EnqueueLock, as a step from one read set to the next. */
  function Enqueued(readSet: ReadSet, request: LockRequest): ReadSet {
    var range := if request.range.IsClosedOpen() then request.range else request.range.ToClosedOpen();
    var table := request.table;
    var seen := Reads(readSet, table);
    if request.mode != Shared || range.IsEmpty() then readSet
    else if seen.all then readSet
    else if Cmp(range.start, EMPTY) == 0 && Cmp(range.limit, INFINITY) == 0 then readSet[table := TableReads(true, [])]
    else if seen.ranges != [] && SameRange(seen.ranges[|seen.ranges| - 1], range) then readSet
    else readSet[table := seen.(ranges := seen.ranges + [range])]
  }

  function ReadSetOf(requests: seq<LockRequest>): ReadSet {
    if requests == [] then map[] else Enqueued(ReadSetOf(requests[..|requests| - 1]), requests[|requests| - 1])
  }

  /** The rows a read set stands for. */
  ghost predicate Records(readSet: ReadSet, loc: Loc) {
    loc.table in readSet && (readSet[loc.table].all || Covered(readSet[loc.table].ranges, loc.key))
  }

  predicate Scans(request: LockRequest, loc: Loc) {
    request.mode == Shared && request.table == loc.table && request.range.ToClosedOpen().Spans(loc.key)
  }

  ghost predicate Scanned(requests: seq<LockRequest>, loc: Loc) {
    exists i :: 0 <= i < |requests| && Scans(requests[i], loc)
  }

  lemma SamePositionSpans(a: KeyRange, b: KeyRange, k: Key)
    requires Cmp(a.start, b.start) == 0 && Cmp(a.limit, b.limit) == 0
    ensures a.Spans(k) <==> b.Spans(k)
  {
    WordsAntisymmetric(Position(a.start), Position(b.start));
    WordsAntisymmetric(Position(a.limit), Position(b.limit));
  }

  /** One request adds exactly its rows, whichever of the early returns is taken. */
  lemma EnqueueRecords(readSet: ReadSet, request: LockRequest, loc: Loc)
    requires loc.key.IsRow()
    ensures Records(Enqueued(readSet, request), loc) <==> Records(readSet, loc) || Scans(request, loc)
  {
    hide Cmp, KeyRange.Spans;
    var range := request.range.ToClosedOpen();
    var seen := Reads(readSet, request.table);
    if request.mode != Shared || request.table != loc.table {
    } else if range.IsEmpty() {
      EmptySpansNothing(range, loc.key);
    } else if seen.all {
    } else if Cmp(range.start, EMPTY) == 0 && Cmp(range.limit, INFINITY) == 0 {
      SamePositionSpans(range, All(), loc.key);
      AllSpansEveryRow(loc.key);
    } else if seen.ranges != [] && SameRange(seen.ranges[|seen.ranges| - 1], range) {
      SamePositionSpans(seen.ranges[|seen.ranges| - 1], range, loc.key);
    } else {
      CoveredSnoc(seen.ranges, range, loc.key);
      assert !Covered([], loc.key);
    }
  }

  /** After any calls, the read set stands for exactly the rows of the shared requests. */
  lemma {:induction false} ReadSetIsExact(requests: seq<LockRequest>, loc: Loc)
    requires loc.key.IsRow()
    ensures Records(ReadSetOf(requests), loc) <==> Scanned(requests, loc)
  {
    hide Scans, Enqueued, Records;
    assert Records(map[], loc) <==> false by { NothingRecorded(loc); }
    if requests != [] {
      var n := |requests| - 1;
      ReadSetIsExact(requests[..n], loc);
      EnqueueRecords(ReadSetOf(requests[..n]), requests[n], loc);
      if Scanned(requests[..n], loc) {
        var i :| 0 <= i < n && Scans(requests[..n][i], loc);
        assert Scans(requests[i], loc);
      }
      if i :| 0 <= i < |requests| && Scans(requests[i], loc) {
        assert i < n ==> Scans(requests[..n][i], loc);
      }
    }
  }

  lemma NothingRecorded(loc: Loc)
    ensures !Records(map[], loc)
  {
  }

  /** In terms of the ranges as requested, for row keys of the table's order. */
  lemma ScansMeansContains(request: LockRequest, loc: Loc, order: seq<ColumnOrder>)
    requires request.range.Follows(order) && loc.key.Follows(order) && loc.key.IsRow()
    ensures Scans(request, loc) <==>
            request.mode == Shared && request.table == loc.table && request.range.Contains(loc.key)
  {
    ContainsIsSpans(request.range, loc.key, order);
  }

  /** ReadSetIsStaleLocked. */
  ghost predicate Stale(readSet: ReadSet, snapshot: Option<Time>, store: Store) {
    snapshot.Some? && exists table :: table in readSet && TableStale(readSet[table], snapshot.value, table, store)
  }

  ghost predicate TableStale(seen: TableReads, t: Time, table: TableId, store: Store) {
    if seen.all then VersionsAfter(store, t, table, All())
    else exists i :: 0 <= i < |seen.ranges| && VersionsAfter(store, t, table, seen.ranges[i])
  }

  ghost predicate RowStore(store: Store) {
    forall loc :: loc in store ==> loc.key.IsRow()
  }

  /** Stale exactly if a recorded row has a version after the snapshot. */
  lemma StaleMeaning(readSet: ReadSet, snapshot: Option<Time>, store: Store)
    requires RowStore(store)
    ensures Stale(readSet, snapshot, store) <==>
            snapshot.Some? && exists loc ::
              loc in store && Records(readSet, loc) && ChangedAfter(store[loc], snapshot.value)
  {
    hide KeyRange.Spans, ChangedAfter;
    if Stale(readSet, snapshot, store) {
      var t := snapshot.value;
      var table :| table in readSet && TableStale(readSet[table], t, table, store);
      if readSet[table].all {
        var loc :| loc in store && loc.table == table && All().Spans(loc.key) && ChangedAfter(store[loc], t);
        assert Records(readSet, loc);
      } else {
        var i :| 0 <= i < |readSet[table].ranges| && VersionsAfter(store, t, table, readSet[table].ranges[i]);
        var loc :| loc in store && loc.table == table && readSet[table].ranges[i].Spans(loc.key) &&
                   ChangedAfter(store[loc], t);
        assert Records(readSet, loc);
      }
    }
    if snapshot.Some? {
      var t := snapshot.value;
      if loc :| loc in store && Records(readSet, loc) && ChangedAfter(store[loc], t) {
        if readSet[loc.table].all {
          AllSpansEveryRow(loc.key);
          assert VersionsAfter(store, t, loc.table, All());
          assert TableStale(readSet[loc.table], t, loc.table, store);
        } else {
          var i :| 0 <= i < |readSet[loc.table].ranges| && readSet[loc.table].ranges[i].Spans(loc.key);
          assert VersionsAfter(store, t, loc.table, readSet[loc.table].ranges[i]);
          assert TableStale(readSet[loc.table], t, loc.table, store);
        }
      }
    }
  }

  /** LockManager: the timestamp state its mutex guards, and the storage that validation reads. */
  class LockManager {
    const clock: Clocks.Clock
    const storage: InMemoryStorage?
    var pending: set<Time>                 // pending_commit_timestamps_
    var lastCommit: Option<Time>           // None stands for the infinite past

    constructor (clock: Clocks.Clock, storage: InMemoryStorage?)
      ensures this.clock == clock && this.storage == storage && pending == {} && lastCommit == None
    {
      this.clock, this.storage := clock, storage;
      pending, lastCommit := {}, None;
    }

    /** The new timestamp is greater than every timestamp the clock handed out before. */
    method ReserveCommitTimestamp(nanos: int) returns (ts: Time)
      requires clock.Valid()
      modifies this`pending, clock
      ensures clock.Valid() && ts == clock.lastDispensedTime > old(clock.lastDispensedTime)
      ensures pending == old(pending) + {ts}
    {
      ts := clock.Now(nanos);
      pending := pending + {ts};
    }

    method MarkCommitted(ts: Time)
      modifies this`pending, this`lastCommit
      ensures pending == old(pending) - {ts}
      ensures lastCommit == Latest(old(lastCommit), ts)
    {
      pending := pending - {ts};
      if lastCommit == None || lastCommit.value < ts {
        lastCommit := Some(ts);
      }
    }

    method SeedLastCommitTimestamp(ts: Time)
      modifies this`lastCommit
      ensures lastCommit == Latest(old(lastCommit), ts)
    {
      if lastCommit == None || lastCommit.value < ts {
        lastCommit := Some(ts);
      }
    }
  }

  /** The later of the two. */
  function Latest(a: Option<Time>, t: Time): (r: Option<Time>)
    ensures r.Some? && r.value >= t && (a.Some? ==> r.value >= a.value) && (r == Some(t) || r == a)
  {
    if a == None || a.value < t then Some(t) else a
  }

  /** Writes flushed in order at one timestamp. */
  function Flushed(store: Store, ts: Time, writes: seq<Mutation>, retention: nat): Store {
    if writes == [] then store
    else
      var w := writes[|writes| - 1];
      FlushOp(Flushed(store, ts, writes[..|writes| - 1], retention), ts, w.loc, w.op, retention)
  }

  /** A row then reads, from the timestamp on, as the writes applied in order to what it read before leave it. */
  lemma {:induction false} FlushedIsApplied(store: Store, ts: Time, writes: seq<Mutation>, retention: nat, db: Db,
                                            loc: Loc)
    requires StoreOk(store, ts) && forall at :: ReadAt(store, at, ts) == Lookup(db, at)
    ensures StoreOk(Flushed(store, ts, writes, retention), ts)
    ensures ReadAt(Flushed(store, ts, writes, retention), loc, ts) == Lookup(ApplyAll(db, writes), loc)
    decreases |writes|
  {
    hide FlushOp, StoreOk, ReadAt, ApplyOp;
    if writes != [] {
      var w, front := writes[|writes| - 1], writes[..|writes| - 1];
      var before := Flushed(store, ts, front, retention);
      FlushedIsApplied(store, ts, front, retention, db, loc);
      FlushedIsApplied(store, ts, front, retention, db, w.loc);
      FlushReads(before, ts, w.loc, w.op, retention, loc);
      if loc != w.loc {
        SameStored(FlushOp(before, ts, w.loc, w.op, retention), before, loc, ts);
      }
    }
  }

  lemma SameStored(a: Store, b: Store, loc: Loc, t: Time)
    requires Stored(a, loc) == Stored(b, loc)
    ensures ReadAt(a, loc, t) == ReadAt(b, loc, t)
  {
  }

  datatype CommitResult = PrecheckFailed | Aborted | FlushFailed(ts: Time) | Committed(ts: Time)

  class LockHandle {
    const manager: LockManager
    var snapshot: Option<Time>
    var readSet: ReadSet

    constructor (manager: LockManager)
      ensures this.manager == manager && snapshot == None && readSet == map[]
    {
      this.manager := manager;
      snapshot, readSet := None, map[];
    }

    method EnqueueLock(request: LockRequest)
      modifies this`readSet
      ensures readSet == Enqueued(old(readSet), request)
    {
      if request.mode != Shared {
        return;
      }
      var range := if request.range.IsClosedOpen() then request.range else request.range.ToClosedOpen();
      if range.IsEmpty() {
        return;
      }
      var seen := Reads(readSet, request.table);
      if seen.all {
        return;
      }
      if Cmp(range.start, EMPTY) == 0 && Cmp(range.limit, INFINITY) == 0 {
        readSet := readSet[request.table := TableReads(true, [])];
        return;
      }
      if seen.ranges != [] && SameRange(seen.ranges[|seen.ranges| - 1], range) {
        return;
      }
      readSet := readSet[request.table := seen.(ranges := seen.ranges + [range])];
    }

    method UnlockAll()
      modifies this`snapshot, this`readSet
      ensures snapshot == None && readSet == map[]
    {
      snapshot, readSet := None, map[];
    }

    /** ReadSetIsStaleLocked; without a storage nothing is ever stale. */
    method ReadSetIsStale() returns (stale: bool)
      requires manager.storage != null ==> manager.storage.Valid()
      ensures stale <==> manager.storage != null && Stale(readSet, snapshot, manager.storage.rows)
    {
      hide VersionsAfter;
      if snapshot == None || readSet == map[] || manager.storage == null {
        return false;
      }
      var t := snapshot.value;
      var todo := readSet.Keys;
      while todo != {}
        invariant todo <= readSet.Keys
        invariant forall table :: table in readSet && table !in todo ==>
                    !TableStale(readSet[table], t, table, manager.storage.rows)
        decreases |todo|
      {
        var table :| table in todo;
        var seen := readSet[table];
        if seen.all {
          var changed := manager.storage.HasVersionsAfter(t, table, All());
          if changed {
            return true;
          }
        } else {
          for i := 0 to |seen.ranges|
            invariant forall j :: 0 <= j < i ==> !VersionsAfter(manager.storage.rows, t, table, seen.ranges[j])
          {
            var changed := manager.storage.HasVersionsAfter(t, table, seen.ranges[i]);
            if changed {
              return true;
            }
          }
        }
        todo := todo - {table};
      }
      return false;
    }

    /**
     * Commit, when no other thread is in it: precheck, validation, reservation, flush and
     * completion. `prechecked` is what the precheck answers, and `failAt` how many writes
     * the flush makes before it fails, if it fails. Also then the timestamp is completed:
     * the writes made stay, and readers no longer wait for it.
     */
    method Commit(prechecked: bool, writes: seq<Mutation>, failAt: Option<nat>, nanos: int)
      returns (result: CommitResult)
      requires manager.clock.Valid()
      requires manager.storage != null && manager.storage.Valid()
      requires Flushable(manager.storage.rows, writes) && (failAt.Some? ==> failAt.value <= |writes|)
      modifies manager`pending, manager`lastCommit, manager.clock, manager.storage`rows, manager.storage`latest
      ensures manager.storage.Valid() && manager.clock.Valid()
      ensures result.PrecheckFailed? <==> !prechecked
      ensures result.Aborted? <==> prechecked && Stale(readSet, snapshot, old(manager.storage.rows))
      ensures result.FlushFailed? ==> failAt.Some?
      ensures result.Committed? ==> failAt == None
      ensures result.Committed? || result.FlushFailed? ==>
                var made := if failAt.Some? then writes[..failAt.value] else writes;
                && result.ts == manager.clock.lastDispensedTime > old(manager.clock.lastDispensedTime)
                && manager.storage.rows ==
                   Flushed(old(manager.storage.rows), result.ts, made, manager.storage.retention)
                && manager.pending == old(manager.pending) - {result.ts}
                && manager.lastCommit == Latest(old(manager.lastCommit), result.ts)
      ensures result.PrecheckFailed? || result.Aborted? ==>
                && manager.storage.rows == old(manager.storage.rows) && manager.pending == old(manager.pending)
                && manager.lastCommit == old(manager.lastCommit)
    {
      if !prechecked {
        return PrecheckFailed;
      }
      var stale := ReadSetIsStale();
      if stale {
        return Aborted;
      }
      var ts := manager.ReserveCommitTimestamp(nanos);
      var made := if failAt.Some? then writes[..failAt.value] else writes;
      FlushablePrefix(manager.storage.rows, writes, |made|);
      FlushWriteOps(manager.storage, ts, made);
      manager.MarkCommitted(ts);
      return if failAt.Some? then FlushFailed(ts) else Committed(ts);
    }
  }

  /** FlushWriteOpsToStorage and the marks of cancelled writes, one write after another. */
  method FlushWriteOps(storage: InMemoryStorage, ts: Time, writes: seq<Mutation>)
    requires storage.Valid() && Flushable(storage.rows, writes)
    modifies storage`rows, storage`latest
    ensures storage.Valid() && storage.rows == Flushed(old(storage.rows), ts, writes, storage.retention)
  {
    hide FlushOp, Noted, Tombstoned, Point, RowKey;
    ghost var start := storage.rows;
    var i := 0;
    while i < |writes|
      invariant 0 <= i <= |writes|
      invariant storage.Valid()
      invariant storage.rows == Flushed(start, ts, writes[..i], storage.retention)
    {
      assert writes[..i + 1][..i] == writes[..i];
      if writes[i].op.Delete? {
        FlushedKeys(start, ts, writes[..i], storage.retention);
        ghost var order :| PointDeletesFor(start, writes, i, order);
        PointDeleteIsOneRow(storage.rows, ts, writes[i].loc, storage.retention, order);
        PointIsClosedOpen(writes[i].loc.key);
        var _ := storage.Delete(ts, writes[i].loc.table, Point(writes[i].loc.key));
      } else {
        storage.Stamped(ts, writes[i].loc, writes[i].op);
      }
      i := i + 1;
    }
    assert writes[..i] == writes;
  }

  lemma PointIsClosedOpen(k: Key)
    ensures Point(k).IsClosedOpen()
  {
  }

  /** The keys around a delete are row keys of one column order. */
  ghost predicate PointDeletesFor(rows: Store, writes: seq<Mutation>, i: nat, order: seq<ColumnOrder>)
    requires i < |writes|
  {
    && (forall at :: at in rows && at.table == writes[i].loc.table ==> RowKey(at.key, order))
    && (forall j :: 0 <= j < |writes| && writes[j].loc.table == writes[i].loc.table ==>
        RowKey(writes[j].loc.key, order))
  }

  ghost predicate Flushable(rows: Store, writes: seq<Mutation>) {
    forall i :: 0 <= i < |writes| && writes[i].op.Delete? ==> exists order :: PointDeletesFor(rows, writes, i, order)
  }

  lemma FlushablePrefix(rows: Store, writes: seq<Mutation>, n: nat)
    requires Flushable(rows, writes) && n <= |writes|
    ensures Flushable(rows, writes[..n])
  {
    forall i | 0 <= i < n && writes[i].op.Delete? ensures exists order :: PointDeletesFor(rows, writes[..n], i, order) {
      var order :| PointDeletesFor(rows, writes, i, order);
      assert PointDeletesFor(rows, writes[..n], i, order);
    }
  }

  lemma {:induction false} FlushedKeys(store: Store, ts: Time, writes: seq<Mutation>, retention: nat)
    ensures forall loc :: loc in Flushed(store, ts, writes, retention) ==>
              loc in store || exists j :: 0 <= j < |writes| && writes[j].loc == loc
  {
    if writes != [] {
      FlushedKeys(store, ts, writes[..|writes| - 1], retention);
    }
  }
}
