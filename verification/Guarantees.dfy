/**
 * What the commit protocol promises, over every run of every interleaving:
 * serializability, safe and stable snapshots, isolated copies, exact aborts.
 */
module Guarantees {
  import opened Collections
  import opened Keys
  import opened KeyRanges
  import opened Storage
  import opened Replay
  import opened Locking
  import opened Protocol

  // ---------------------------------------------------------------------------
  // Databases: empty ones, and copies
  // ---------------------------------------------------------------------------

  /** The seed commit of a copy: it writes exactly the rows of `store`. */
  ghost predicate Seeds(writes: seq<Mutation>, store: Store, t: Time) {
    && RowWrites(writes)
    && (forall loc :: Lookup(ApplyAll(map[], writes), loc) == ReadAt(store, loc, t))
    && (forall loc :: WritesVersion(map[], writes, loc) <==> loc in store)
  }

  /** A database that CreateEphemeralCopy made of `base`, at time `t`; its history starts with the seed. */
  ghost predicate IsCopy(s: State, base: State, t: Time, columns: map<TableId, set<ColumnId>>, n: nat) {
    && t <= base.clock
    && |s.log| == 1 && s.log[0].ts == t && s.log[0].observed == []
    && Seeds(s.log[0].writes, Copied(base.store, t, columns), t)
    && s == State(base.clock, base.system, base.retention, None, None, {}, Some(t), Copied(base.store, t, columns),
                  s.log, seq(n, i => FRESH))
  }

  ghost predicate Origin(s: State, generation: nat)
    decreases generation, 0
  {
    if generation == 0 then exists clock, retention, n :: s == Init(clock, retention, n)
    else exists base, t, columns, n :: IsCopy(s, base, t, columns, n) && Reachable(base, generation - 1)
  }

  /** Some run of an empty database, or of a copy of a reachable one, ends in `s`. */
  ghost predicate Reachable(s: State, generation: nat)
    decreases generation, 1
  {
    exists s0, run :: Origin(s0, generation) && Legal(s0, run) && s == After(s0, run)
  }

  /** Any row can be written by one insert. */
  lemma {:induction false} RowInsert(data: Data) returns (cols: seq<ColumnWrite>)
    ensures forall start: Data :: Written(start, cols) == start + data
    decreases |data|
  {
    if data == map[] {
      cols := [];
      assert forall start: Data :: start + data == start;
    } else {
      var c :| c in data;
      var rest := RowInsert(data - {c});
      cols := [ColumnWrite(c, data[c])] + rest;
      assert cols[1..] == rest;
      forall start: Data ensures Written(start, cols) == start + data {
        var next := start[c := data[c]];
        assert Written(start, cols) == Written(next, rest) == next + (data - {c});
        assert next + (data - {c}) == start + data;
      }
    }
  }

  /** Any database of row keys can be written by one commit. */
  lemma {:induction false} SeedDb(db: Db) returns (writes: seq<Mutation>)
    requires forall loc :: loc in db ==> loc.key.IsRow()
    ensures RowWrites(writes) && ApplyAll(map[], writes) == db
    ensures forall loc :: WritesVersion(map[], writes, loc) <==> loc in db
    decreases |db|
  {
    if db == map[] {
      writes := [];
    } else {
      var loc :| loc in db;
      var rest := SeedDb(db - {loc});
      var cols := RowInsert(db[loc]);
      writes := rest + [Mutation(loc, Write(cols))];
      assert writes[..|writes| - 1] == rest;
      assert Written(map[], cols) == map[] + db[loc] == db[loc];
      assert (db - {loc})[loc := db[loc]] == db;
    }
  }

  /** A copied row has one version, at the time of the copy. */
  lemma CopiedRowVersions(row: Row, t: Time, columns: set<ColumnId>, u: Time)
    ensures RowOk(CopiedRow(row, t, columns), t)
    ensures ChangedAfter(CopiedRow(row, t, columns), u) <==> u < t
    ensures u < t ==> RowAt(CopiedRow(row, t, columns), u) == None
  {
    hide ColumnsAt;
    var copy := CopiedRow(row, t, columns);
    assert ValueAt(copy.exists_, u) == if t <= u then Some(true) else ValueAt(copy.exists_[..0], u);
  }

  lemma CopyIsFaithful(store: Store, t: Time, columns: map<TableId, set<ColumnId>>, seed: Commit, h: Time)
    requires seed.ts == t && Seeds(seed.writes, Copied(store, t, columns), t)
    ensures StoreOk(Copied(store, t, columns), t) && Faithful(Copied(store, t, columns), [seed], h)
  {
    hide CopiedRow, RowOk, RowAt, ApplyAll, WritesVersion;
    var copy := Copied(store, t, columns);
    forall loc | loc in copy ensures RowOk(copy[loc], t) {
      CopiedRowVersions(store[loc], t, columns[loc.table], t);
    }
    assert [seed][..|[seed]| - 1] == [];
    forall loc, u ensures FaithfulAt(copy, [seed], h, loc, u) {
      CopyVersions(store, t, columns, loc, u);
      if u >= t {
        CopyReads(store, t, columns, loc, u);
        CopyReads(store, t, columns, loc, t);
        assert ReplayedUpTo([seed], u) == ApplyAll(map[], seed.writes);
      } else {
        assert ReplayedUpTo([seed], u) == map[];
      }
    }
    forall loc, u ensures ChangedAfter(Stored(copy, loc), u) <==> WrittenAfter([seed], loc, u) {
      CopyVersions(store, t, columns, loc, u);
    }
  }

  lemma CopyVersions(store: Store, t: Time, columns: map<TableId, set<ColumnId>>, loc: Loc, u: Time)
    ensures ChangedAfter(Stored(Copied(store, t, columns), loc), u) <==> u < t && loc in Copied(store, t, columns)
    ensures u < t ==> ReadAt(Copied(store, t, columns), loc, u) == None
  {
    hide CopiedRow;
    if loc in Copied(store, t, columns) {
      CopiedRowVersions(store[loc], t, columns[loc.table], u);
    }
  }

  lemma CopyInv(s: State, base: State, t: Time, columns: map<TableId, set<ColumnId>>, n: nat)
    requires RowStore(base.store) && IsCopy(s, base, t, columns, n)
    ensures Inv(s)
  {
    hide CopiedRow, Exists, Seeds, Faithful, StoreOk;
    CopyIsFaithful(base.store, t, columns, s.log[0], t - s.retention);
    assert s.log == [s.log[0]];
  }

  /** Every time at or before the clock can be copied, whatever the state. */
  lemma CopyExists(base: State, t: Time, columns: map<TableId, set<ColumnId>>, n: nat) returns (s: State)
    requires RowStore(base.store) && t <= base.clock
    ensures IsCopy(s, base, t, columns, n)
  {
    hide ColumnsAt, CopiedRow;
    var copy := Copied(base.store, t, columns);
    var db := map loc | loc in copy && ReadAt(copy, loc, t).Some? :: ReadAt(copy, loc, t).value;
    forall loc ensures loc in db <==> loc in copy {
      CopyReads(base.store, t, columns, loc, t);
    }
    var writes := SeedDb(db);
    s := State(base.clock, base.system, base.retention, None, None, {}, Some(t), copy, [Commit(t, writes, [])],
               seq(n, i => FRESH));
  }

  lemma {:induction false} OriginInv(s0: State, generation: nat)
    requires Origin(s0, generation)
    ensures Inv(s0)
    decreases generation, 0
  {
    hide Inv, Legal, After, IsCopy;
    if generation == 0 {
      var clock, retention, n :| s0 == Init(clock, retention, n);
      InitInv(clock, retention, n);
    } else {
      var base, t, columns, n :| IsCopy(s0, base, t, columns, n) && Reachable(base, generation - 1);
      ReachableInv(base, generation - 1);
      InvRows(base);
      CopyInv(s0, base, t, columns, n);
    }
  }

  lemma {:induction false} ReachableInv(s: State, generation: nat)
    requires Reachable(s, generation)
    ensures Inv(s)
    decreases generation, 1
  {
    hide Inv, Legal, After, Origin;
    var s0, run :| Origin(s0, generation) && Legal(s0, run) && s == After(s0, run);
    OriginInv(s0, generation);
    RunKeeps(s0, run);
  }

  lemma InvRows(s: State)
    requires Inv(s)
    ensures RowStore(s.store)
  {
  }

  // ---------------------------------------------------------------------------
  // Serializability
  // ---------------------------------------------------------------------------

  /**
   * In every reachable state the log is in timestamp order, what each commit read
   * is what serial execution of the commits before it leaves, and when nothing is
   * in flight the store reads as serial execution of the whole log.
   */
  lemma Serializable(s: State, generation: nat)
    requires Reachable(s, generation)
    ensures forall i, j :: 0 <= i < j < |s.log| ==> s.log[i].ts < s.log[j].ts
    ensures forall i, j :: 0 <= i < |s.log| && 0 <= j < |s.log[i].observed| ==>
              s.log[i].observed[j].rows ==
              ScanDb(Replayed(s.log[..i]), s.log[i].observed[j].table, s.log[i].observed[j].range)
    ensures s.pending == {} ==>
              forall loc, t :: (forall i :: 0 <= i < |s.log| ==> s.log[i].ts <= t) ==>
                ReadAt(s.store, loc, t) == Lookup(Replayed(s.log), loc)
  {
    hide Reachable, ReadAt, ChangedAfter, WrittenAfter, ReplayedUpTo, Replayed;
    ReachableInv(s, generation);
    forall i, j | 0 <= i < |s.log| && 0 <= j < |s.log[i].observed|
      ensures s.log[i].observed[j].rows ==
              ScanDb(Replayed(s.log[..i]), s.log[i].observed[j].table, s.log[i].observed[j].range)
    {
      assert SerialAt(s.log, i);
    }
    if s.pending == {} {
      assert FlushedLog(s) == s.log;
      forall loc, t | forall i :: 0 <= i < |s.log| ==> s.log[i].ts <= t
        ensures ReadAt(s.store, loc, t) == Lookup(Replayed(s.log), loc)
      {
        var h := if s.log == [] then t else Horizon(s);
        if s.log == [] {
          EmptyIsFaithful(h);
        }
        assert FaithfulAt(s.store, s.log, h, loc, t);
        assert LogUntil(s.log, t);
        ReplayedAll(s.log, t);
      }
    }
  }

  // ---------------------------------------------------------------------------
  // Snapshots
  // ---------------------------------------------------------------------------

  /** A process has been given `t` as its snapshot, or WaitForSafeRead(t) has returned for a dispensed `t`. */
  ghost predicate SafeFor(s: State, p: nat, t: Time) {
    p < |s.procs| &&
    var pr := s.procs[p];
    || pr.pc == SnapStore(t)
    || pr.snapshot == Some(t)
    || (pr.pc.Safe? && pr.pc.t == t && t <= pr.pc.tested)
  }

  lemma SafeIsClear(s: State, p: nat, t: Time)
    requires Inv(s) && SafeFor(s, p, t)
    ensures Clear(s, t)
  {
    hide Clear, RecordOk, Requested;
    assert ProcOk(s, p);
  }

  /**
   * At a safe time every commit at or before it is wholly flushed: none is pending,
   * and every row whose history still reaches there reads as the replay of them.
   */
  lemma SnapshotIsSafe(s: State, generation: nat, p: nat, t: Time)
    requires Reachable(s, generation) && SafeFor(s, p, t)
    ensures forall i :: 0 <= i < |s.log| && s.log[i].ts <= t ==> s.log[i].ts !in s.pending
    ensures forall loc :: t >= Horizon(s) || !ChangedAfter(Stored(s.store, loc), t) ==>
              ReadAt(s.store, loc, t) == Lookup(ReplayedUpTo(s.log, t), loc)
  {
    hide Reachable, ReadAt, ChangedAfter, WrittenAfter, ReplayedUpTo, SafeFor, StoreOk, FlushedLog;
    ReachableInv(s, generation);
    SafeIsClear(s, p, t);
    ClearLog(s, t);
    forall loc | t >= Horizon(s) || !ChangedAfter(Stored(s.store, loc), t)
      ensures ReadAt(s.store, loc, t) == Lookup(ReplayedUpTo(s.log, t), loc)
    {
      assert FaithfulAt(s.store, FlushedLog(s), Horizon(s), loc, t);
    }
  }

  lemma {:induction false} ClearForever(s: State, run: seq<Step>, t: Time)
    requires Inv(s) && Clear(s, t) && Legal(s, run)
    ensures var s' := After(s, run);
      && Inv(s') && Clear(s', t) && ReplayedUpTo(s'.log, t) == ReplayedUpTo(s.log, t)
      && s.log <= s'.log && (forall i :: |s.log| <= i < |s'.log| ==> s'.log[i].ts > t)
      && s'.retention == s.retention
    decreases |run|
  {
    hide Inv, Clear, Enabled, Do, ReplayedUpTo;
    if run != [] {
      StepKeeps(s, run[0].p, run[0].a);
      ClearForever(Do(s, run[0].p, run[0].a), run[1..], t);
    }
  }

  /** The state at a safe time never changes, and later commits are all after it. */
  lemma SnapshotIsStable(s: State, generation: nat, p: nat, t: Time, run: seq<Step>)
    requires Reachable(s, generation) && SafeFor(s, p, t) && Legal(s, run)
    ensures var s' := After(s, run);
      && ReplayedUpTo(s'.log, t) == ReplayedUpTo(s.log, t)
      && s.log <= s'.log && (forall i :: |s.log| <= i < |s'.log| ==> s'.log[i].ts > t)
      && (t >= Horizon(s') ==> forall loc :: ReadAt(s'.store, loc, t) == ReadAt(s.store, loc, t))
  {
    hide Reachable, ReadAt, ReplayedUpTo, SafeFor, Legal, After, Unblocked, Inv, Horizon;
    ReachableInv(s, generation);
    SafeIsClear(s, p, t);
    ClearForever(s, run, t);
    if t >= Horizon(After(s, run)) {
      SameReads(s, After(s, run), t);
    }
  }

  /** Where the replay stays the same, so do the reads. */
  lemma SameReads(s: State, s': State, t: Time)
    requires Inv(s) && Inv(s') && Unblocked(s, t) && Unblocked(s', t) && t >= Horizon(s')
    requires s.log <= s'.log && s.retention == s'.retention && ReplayedUpTo(s'.log, t) == ReplayedUpTo(s.log, t)
    ensures forall loc :: ReadAt(s'.store, loc, t) == ReadAt(s.store, loc, t)
  {
    hide ReadAt, ChangedAfter, WrittenAfter, ReplayedUpTo, StoreOk, FlushedLog, Unblocked, SortedLog;
    forall loc ensures ReadAt(s'.store, loc, t) == ReadAt(s.store, loc, t) {
      ClearReads(s', t, loc);
      if s.log == [] {
        EmptyIsFaithful(t);
        assert FaithfulAt(s.store, s.log, t, loc, t);
      } else {
        HorizonGrows(s, s');
        ClearReads(s, t, loc);
      }
    }
  }

  lemma HorizonGrows(s: State, s': State)
    requires LogOk(s') && s.log <= s'.log && s.log != [] && s.retention == s'.retention
    ensures Horizon(s) <= Horizon(s')
  {
  }

  lemma ClearReads(s: State, t: Time, loc: Loc)
    requires Inv(s) && Unblocked(s, t) && t >= Horizon(s)
    ensures ReadAt(s.store, loc, t) == Lookup(ReplayedUpTo(s.log, t), loc)
  {
    hide ReadAt, ChangedAfter, WrittenAfter, ReplayedUpTo, StoreOk, FlushedLog, Unblocked;
    ClearLog(s, t);
    assert FaithfulAt(s.store, FlushedLog(s), Horizon(s), loc, t);
  }

  /**
   * While versions that old are kept, every read of a transaction is of the state at its snapshot,
   * even one that later aborts.
   */
  lemma ReadsAreOfTheSnapshot(s: State, generation: nat, p: nat)
    requires Reachable(s, generation) && Enabled(s, p, ScanRows) && s.procs[p].snapshot.value >= Horizon(s)
    ensures var request := s.procs[p].pc.request; var t := s.procs[p].snapshot.value;
      Scan(s.store, t, request.table, request.range.ToClosedOpen()) ==
      ScanDb(ReplayedUpTo(s.log, t), request.table, request.range.ToClosedOpen())
  {
    hide Reachable, Scan, ReplayedUpTo, Inv, Unblocked, ReadAt, Horizon;
    var t, table, range := s.procs[p].snapshot.value, s.procs[p].pc.request.table,
        s.procs[p].pc.request.range.ToClosedOpen();
    ReachableInv(s, generation);
    SafeIsClear(s, p, t);
    var found := Scan(s.store, t, table, range);
    assert forall loc :: loc in found ==> loc.table == table && range.Spans(loc.key) by {
      ScanWithin(s.store, t, table, range);
    }
    forall loc: Loc | loc.table == table && range.Spans(loc.key)
      ensures Lookup(found, loc) == Lookup(ReplayedUpTo(s.log, t), loc)
    {
      ScanReads(s.store, t, table, range, loc);
      ClearReads(s, t, loc);
    }
    SameScan(ReplayedUpTo(s.log, t), ReadRecord(table, range, found));
  }

  lemma ScanWithin(store: Store, t: Time, table: TableId, range: KeyRange)
    ensures forall loc :: loc in Scan(store, t, table, range) ==> loc.table == table && range.Spans(loc.key)
  {
  }

  // ---------------------------------------------------------------------------
  // Real time
  // ---------------------------------------------------------------------------

  /** Whatever snapshot the process has or is getting was dispensed after `c`. */
  ghost predicate FreshSince(s: State, p: nat, c: Time) {
    p < |s.procs| && c <= s.clock &&
    var pr := s.procs[p];
    && (pr.snapshot.Some? ==> pr.snapshot.value > c)
    && (pr.pc.SnapAwait? || pr.pc.SnapAcquire? || pr.pc.SnapTest? || pr.pc.SnapStore? ==> pr.pc.t > c)
  }

  lemma FreshStep(s: State, p: nat, c: Time, q: nat, a: Action)
    requires FreshSince(s, p, c) && Enabled(s, q, a) && s.clock <= Do(s, q, a).clock
    requires p != q ==> |Do(s, q, a).procs| == |s.procs| && Do(s, q, a).procs[p] == s.procs[p]
    ensures FreshSince(Do(s, q, a), p, c)
  {
    hide Blocked, Stale, FlushOp, Scan, Enqueued, Latest;
  }

  lemma {:induction false} FreshRun(s: State, p: nat, c: Time, run: seq<Step>)
    requires Inv(s) && FreshSince(s, p, c) && Legal(s, run)
    ensures FreshSince(After(s, run), p, c)
    decreases |run|
  {
    hide Inv, Enabled, Do, Clear, ReplayedUpTo, ChangedAfter;
    if run != [] {
      StepKeeps(s, run[0].p, run[0].a);
      FreshStep(s, p, c, run[0].p, run[0].a);
      FreshRun(Do(s, run[0].p, run[0].a), p, c, run[1..]);
    }
  }

  /**
   * External consistency: a transaction that starts after some commits were reserved has
   * a snapshot after all of them, so with SnapshotIsSafe it reads what they wrote; and
   * whatever is committed later has a later timestamp.
   */
  lemma SnapshotIsFresh(s: State, generation: nat, p: nat, run: seq<Step>)
    requires Reachable(s, generation) && p < |s.procs| && s.procs[p].pc.Idle? && s.procs[p].snapshot == None &&
             Legal(s, run)
    ensures var s' := After(s, run);
      && p < |s'.procs| && s.log <= s'.log
      && (s'.procs[p].snapshot.Some? ==> forall i :: 0 <= i < |s.log| ==> s.log[i].ts < s'.procs[p].snapshot.value)
      && (forall i, j :: 0 <= i < |s.log| <= j < |s'.log| ==> s.log[i].ts < s'.log[j].ts)
  {
    hide Reachable, Legal, After, StoreOk, Faithful, SerialAt;
    ReachableInv(s, generation);
    FreshRun(s, p, s.clock, run);
    LogGrows(s, run);
    RunKeeps(s, run);
  }

  lemma {:induction false} LogGrows(s: State, run: seq<Step>)
    requires Inv(s) && Legal(s, run)
    ensures s.log <= After(s, run).log
    decreases |run|
  {
    hide Inv, Enabled, Do, Clear, ReplayedUpTo, ChangedAfter;
    if run != [] {
      StepKeeps(s, run[0].p, run[0].a);
      LogGrows(Do(s, run[0].p, run[0].a), run[1..]);
    }
  }

  // ---------------------------------------------------------------------------
  // The last commit timestamp
  // ---------------------------------------------------------------------------

  /** How many commits of the log are no longer in flight. */
  function Finished(s: State): nat {
    if InFlight(Owner(s)) && s.log != [] then |s.log| - 1 else |s.log|
  }

  ghost predicate LastOk(s: State) {
    s.lastCommit == if Finished(s) == 0 then None else Some(s.log[Finished(s) - 1].ts)
  }

  lemma LastInsert(s: State, p: nat)
    requires Locks(s) && FlightOk(s) && LastOk(s) && Enabled(s, p, InsertPending)
    ensures LastOk(Do(s, p, InsertPending))
  {
    assert LocksAt(s, p);
  }

  lemma LastErase(s: State, p: nat)
    requires Locks(s) && FlightOk(s) && SortedLog(s.log) && LastOk(s) && Enabled(s, p, ErasePending)
    ensures LastOk(Do(s, p, ErasePending))
  {
    assert LocksAt(s, p);
  }

  /** Other steps outside the commit section leave its owner where it was. */
  lemma LastOutside(s: State, p: nat, a: Action)
    requires Locks(s) && Enabled(s, p, a) && !HoldsCommit(s.procs[p].pc) && !a.LockCommitMu?
    ensures var s' := Do(s, p, a); s'.log == s.log && s'.lastCommit == s.lastCommit && Owner(s') == Owner(s)
  {
    hide Blocked, FlushOp, Scan, Enqueued, HoldsManager, HoldsHandle;
    assert LocksAt(s, p);
  }

  /** Other steps inside it do not enter or leave the flight. */
  lemma LastInside(s: State, p: nat, a: Action)
    requires Locks(s) && Enabled(s, p, a) && !a.InsertPending? && !a.ErasePending?
    requires HoldsCommit(s.procs[p].pc) || a.LockCommitMu?
    ensures var s' := Do(s, p, a);
      s'.log == s.log && s'.lastCommit == s.lastCommit && InFlight(Owner(s')) == InFlight(Owner(s))
  {
    hide Stale, FlushOp, HoldsManager, HoldsHandle;
    assert LocksAt(s, p);
  }

  lemma LastStep(s: State, p: nat, a: Action)
    requires Locks(s) && FlightOk(s) && SortedLog(s.log) && LastOk(s) && Enabled(s, p, a)
    ensures LastOk(Do(s, p, a))
  {
    hide Locks, FlightOk, SortedLog, Do, Owner, InFlight;
    if a.InsertPending? {
      LastInsert(s, p);
    } else if a.ErasePending? {
      LastErase(s, p);
    } else if HoldsCommit(s.procs[p].pc) || a.LockCommitMu? {
      LastInside(s, p, a);
    } else {
      LastOutside(s, p, a);
    }
  }

  lemma {:induction false} LastRun(s: State, run: seq<Step>)
    requires Inv(s) && LastOk(s) && Legal(s, run)
    ensures LastOk(After(s, run))
    decreases |run|
  {
    hide Enabled, Do, LastOk, DataOk, ProcOk, LocksAt, SerialAt;
    if run != [] {
      StepKeeps(s, run[0].p, run[0].a);
      LastStep(s, run[0].p, run[0].a);
      LastRun(Do(s, run[0].p, run[0].a), run[1..]);
    }
  }

  lemma OriginLast(s0: State, generation: nat)
    requires Origin(s0, generation)
    ensures LastOk(s0)
  {
    hide Seeds, Reachable, Copied;
  }

  /** The last commit timestamp is that of the last finished commit, and reading at it is safe. */
  lemma LastCommitIsSafe(s: State, generation: nat)
    requires Reachable(s, generation)
    ensures LastOk(s) && (s.lastCommit.Some? ==> Clear(s, s.lastCommit.value))
  {
    hide Inv, Legal, After, Origin;
    var s0, run :| Origin(s0, generation) && Legal(s0, run) && s == After(s0, run);
    OriginInv(s0, generation);
    OriginLast(s0, generation);
    LastRun(s0, run);
    RunKeeps(s0, run);
    if s.lastCommit.Some? {
      FinishedIsClear(s);
    }
  }

  lemma FinishedIsClear(s: State)
    requires Inv(s) && LastOk(s) && s.lastCommit.Some?
    ensures Clear(s, s.lastCommit.value)
  {
    hide DataOk, ProcOk, LocksAt, SerialAt;
  }

  // ---------------------------------------------------------------------------
  // Copies
  // ---------------------------------------------------------------------------

  function Restricted(d: Option<Data>, table: TableId, columns: map<TableId, set<ColumnId>>): Option<Data> {
    if d.Some? && table in columns then Some(OnlyColumns(d.value, columns[table])) else None
  }

  /**
   * A copy taken at `t`, however many base commits run between the wait and the
   * copying, starts as the replay of the base's commits at or before `t`; every
   * commit of the copy is after `t`.
   */
  lemma CopyIsIsolated(s: State, generation: nat, p: nat, t: Time, run: seq<Step>,
                       copy: State, columns: map<TableId, set<ColumnId>>, n: nat, copyRun: seq<Step>)
    requires Reachable(s, generation) && SafeFor(s, p, t) && Legal(s, run)
    requires IsCopy(copy, After(s, run), t, columns, n) && t >= Horizon(After(s, run)) && Legal(copy, copyRun)
    ensures forall loc ::
            Lookup(Replayed(copy.log), loc) == Restricted(Lookup(ReplayedUpTo(s.log, t), loc), loc.table, columns)
    ensures copy.log <= After(copy, copyRun).log
    ensures forall i :: 1 <= i < |After(copy, copyRun).log| ==> After(copy, copyRun).log[i].ts > t
  {
    hide Reachable, SafeFor, Legal, After, ReadAt, OnlyColumns, ReplayedUpTo, ApplyAll, WritesVersion, Copied, RowStore;
    ReachableInv(s, generation);
    SafeIsClear(s, p, t);
    ClearForever(s, run, t);
    var s' := After(s, run);
    InvRows(s');
    CopyInv(copy, s', t, columns, n);
    forall loc
      ensures Lookup(Replayed(copy.log), loc) == Restricted(Lookup(ReplayedUpTo(s.log, t), loc), loc.table, columns)
    {
      CopyReads(s'.store, t, columns, loc, t);
      ClearReads(s', t, loc);
      assert copy.log[..|copy.log| - 1] == [];
      assert Replayed(copy.log) == ApplyAll(map[], copy.log[0].writes);
    }
    assert Clear(copy, t);
    ClearForever(copy, copyRun, t);
  }

  // ---------------------------------------------------------------------------
  // Aborts
  // ---------------------------------------------------------------------------

  /** A commit after the process's snapshot left a version of a row of a range the process requested. */
  ghost predicate Conflict(s: State, pr: Proc) {
    pr.snapshot.Some? &&
    exists i, loc ::
      0 <= i < |s.log| && s.log[i].ts > pr.snapshot.value && Wrote(s.log, i, loc) && Scanned(pr.requests, loc)
  }

  lemma StaleIsConflict(s: State, p: nat)
    requires Inv(s) && p < |s.procs| && s.procs[p].pc.CommitCompare?
    ensures Stale(s.procs[p].readSet, s.procs[p].snapshot, s.store) <==> Conflict(s, s.procs[p])
  {
    hide KeyRange.Spans, ReadSetOf, Records, Scanned, ChangedAfter, Wrote, WrittenAfter, FaithfulAt, StoreOk, Stale,
         SerialAt;
    var pr := s.procs[p];
    assert LocksAt(s, p) && ProcOk(s, p);
    assert FlushedLog(s) == s.log;
    StaleMeaning(pr.readSet, pr.snapshot, s.store);
    if pr.snapshot.Some? {
      forall loc
        ensures ChangedAfter(Stored(s.store, loc), pr.snapshot.value) <==>
                exists i :: 0 <= i < |s.log| && s.log[i].ts > pr.snapshot.value && Wrote(s.log, i, loc)
        ensures loc in s.store ==> (Records(pr.readSet, loc) <==> Scanned(pr.requests, loc))
        ensures ChangedAfter(Stored(s.store, loc), pr.snapshot.value) ==> loc in s.store
      {
        WrittenAfterMeaning(s.log, loc, pr.snapshot.value);
        if loc in s.store {
          ReadSetIsExact(pr.requests, loc);
        }
        NoRowUnchanged(s.store, loc, pr.snapshot.value);
      }
    }
  }

  lemma NoRowUnchanged(store: Store, loc: Loc, t: Time)
    ensures loc !in store ==> !ChangedAfter(Stored(store, loc), t)
  {
  }

  /** A commit that passes its precheck aborts exactly on a conflict, and otherwise goes on to reserve. */
  lemma AbortsAreExact(s: State, generation: nat, p: nat)
    requires Reachable(s, generation) && p < |s.procs| && s.procs[p].pc.CommitCompare?
    ensures Enabled(s, p, Compare)
    ensures Do(s, p, Compare).procs[p] == FRESH <==> Conflict(s, s.procs[p])
    ensures Do(s, p, Compare).procs[p].pc == Reserve <==> !Conflict(s, s.procs[p])
  {
    hide Reachable, Stale, Conflict, Inv;
    ReachableInv(s, generation);
    StaleIsConflict(s, p);
  }

  lemma {:induction false} WritesVersionOf(db: Db, ws: seq<Mutation>, loc: Loc)
    requires WritesVersion(db, ws, loc)
    ensures exists k :: 0 <= k < |ws| && ws[k].loc == loc
    decreases |ws|
  {
    var front := ws[..|ws| - 1];
    if WritesVersion(db, front, loc) {
      WritesVersionOf(db, front, loc);
      var k :| 0 <= k < |front| && front[k].loc == loc;
      assert ws[k].loc == loc;
    }
  }

  /** Transactions whose writes lie outside what a process scanned never abort it. */
  lemma DisjointNeverAborts(s: State, generation: nat, p: nat)
    requires Reachable(s, generation) && p < |s.procs| && s.procs[p].pc.CommitCompare?
    requires forall i, k | 0 <= i < |s.log| && 0 <= k < |s.log[i].writes| && s.procs[p].snapshot.Some? ::
               s.log[i].ts > s.procs[p].snapshot.value ==> !Scanned(s.procs[p].requests, s.log[i].writes[k].loc)
    ensures Enabled(s, p, Compare) && Do(s, p, Compare).procs[p].pc == Reserve
  {
    hide Reachable, Stale, Scanned, WritesVersion, Do;
    var pr := s.procs[p];
    AbortsAreExact(s, generation, p);
    if Conflict(s, pr) {
      var i, loc :|
          0 <= i < |s.log| && s.log[i].ts > pr.snapshot.value && Wrote(s.log, i, loc) && Scanned(pr.requests, loc);
      WritesVersionOf(Replayed(s.log[..i]), s.log[i].writes, loc);
    }
  }

  /** At most one commit is pending; its owner holds the commit section and has validated. */
  lemma PendingHasOwner(s: State, generation: nat, t: Time)
    requires Reachable(s, generation) && t in s.pending
    ensures s.pending == {t} && s.log != [] && s.log[|s.log| - 1].ts == t
    ensures s.commitMu.Some? && s.commitMu.value < |s.procs|
    ensures var pc := s.procs[s.commitMu.value].pc; InFlight(pc) && pc.t == t
  {
    hide Reachable;
    ReachableInv(s, generation);
  }
}
