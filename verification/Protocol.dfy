/**
 * The optimistic commit protocol as a small-step system: every lock operation,
 * clock reading, flushed write and storage read is a step of its own, and steps
 * of different processes interleave freely (backend/locking, and the callers in
 * backend/transaction and backend/schema/updater/scoped_schema_change_lock.h).
 */
module Protocol {
  import opened Collections
  import opened Keys
  import opened KeyRanges
  import opened Storage
  import opened Replay
  import opened Locking
  import Clocks

  /** Where a process stands; the comments name the mutexes it holds there. */
  datatype Pc =
    | Idle
      // LockHandle::SnapshotTimestamp, LockManager::PickSnapshotTimestamp, WaitForSafeRead
    | SnapNow                                   // handle
    | SnapAwait(t: Time)                        // handle; waits for the system clock
    | SnapAcquire(t: Time)                      // handle; waits for the manager's mutex or its condition
    | SnapTest(t: Time)                         // handle, manager
    | SnapStore(t: Time)                        // handle
      // a read, or a range only recorded: EnqueueLock, then perhaps the storage read at the snapshot
    | ReadEnqueue(request: LockRequest)
    | ReadScan(request: LockRequest)
      // LockHandle::Commit
    | CommitAcquire                             // waits for the commit section
    | CommitCheck                               // commit
    | CommitValidate                            // commit; waits for the handle's mutex
    | CommitCompare                             // commit, handle
    | SchemaAcquire                             // BeginExclusiveCommit: waits for the commit section
    | Reserve                                   // commit; waits for the manager's mutex
    | ReserveNow                                // commit, manager
    | ReserveInsert(t: Time)                    // commit, manager; Now() has answered
    | ReserveDone(t: Time)                      // commit, manager; the timestamp is pending
    | Flush(t: Time, done: nat)                 // commit
    | MarkAcquire(t: Time)                      // commit; waits for the manager's mutex
    | MarkErase(t: Time)                        // commit, manager
    | CommitUnlock                              // commit
      // WaitForSafeRead by a read-only transaction or an ephemeral copy
    | WaitAwait(t: Time)                        // waits for the system clock
    | WaitAcquire(t: Time)                      // waits for the manager's mutex or its condition
    | WaitTest(t: Time)                         // manager
    | Safe(t: Time, tested: Time)               // WaitForSafeRead has returned; the clock stood at `tested` then

  predicate HoldsCommit(pc: Pc) {
    pc.CommitCheck? || pc.CommitValidate? || pc.CommitCompare? || pc.Reserve? || pc.ReserveNow? || pc.ReserveInsert? ||
    pc.ReserveDone? || pc.Flush? || pc.MarkAcquire? || pc.MarkErase? || pc.CommitUnlock?
  }

  predicate HoldsManager(pc: Pc) {
    pc.SnapTest? || pc.WaitTest? || pc.ReserveNow? || pc.ReserveInsert? || pc.ReserveDone? || pc.MarkErase?
  }

  predicate HoldsHandle(pc: Pc) {
    pc.SnapNow? || pc.SnapAwait? || pc.SnapAcquire? || pc.SnapTest? || pc.SnapStore? || pc.CommitCompare?
  }

  /** A process with its lock handle. `requests`, `observed` are its history since the handle was last reset. */
  datatype Proc = Proc(
    pc: Pc,
    handleMu: Option<nat>,
    snapshot: Option<Time>,
    readSet: ReadSet,
    requests: seq<LockRequest>,
    observed: seq<ReadRecord>,
    writes: seq<Mutation>)

  const FRESH := Proc(Idle, None, None, map[], [], [], [])

  /**
   * `clock` is the time last dispensed and `system` the system time last read; `log` is
   * the history of reserved commits, in reservation order, each with the writes its flush
   * makes: all the transaction's, or those before the flush fails.
   */
  datatype State = State(
    clock: Time,
    system: Time,
    retention: nat,
    commitMu: Option<nat>,
    managerMu: Option<nat>,
    pending: set<Time>,
    lastCommit: Option<Time>,
    store: Store,
    log: seq<Commit>,
    procs: seq<Proc>)

  function Init(clock: Time, retention: nat, n: nat): State {
    State(clock, clock, retention, None, None, {}, None, map[], [], seq(n, i => FRESH))
  }

  datatype Action =
    | Tick(reading: Time)                    // the clock serves another database
    | BeginSnapshot | CallNow(reading: Time) | Await(reading: Time) | LockManagerMu | TestPending | StoreSnapshot
    | BeginRead(request: LockRequest) | Enqueue | ScanRows | SkipScan | Reset
    | BeginCommit(writes: seq<Mutation>) | BeginSchemaChange(writes: seq<Mutation>) | LockCommitMu
    | Precheck(ok: bool) | LockHandleMu | Compare
    | InsertPending | UnlockManagerMu | FlushOne | FinishFlush | ErasePending | UnlockCommitMu
    | BeginWait(t: Time) | FinishRead

  predicate RowWrites(writes: seq<Mutation>) {
    forall i :: 0 <= i < |writes| ==> writes[i].loc.key.IsRow()
  }

  /** The condition of WaitForSafeRead's loop. */
  ghost predicate Blocked(pending: set<Time>, t: Time) {
    exists u :: u in pending && u <= t
  }

  ghost predicate Enabled(s: State, p: nat, a: Action) {
    p < |s.procs| &&
    var pr := s.procs[p];
    match a
    case Tick(_) => true
    case BeginSnapshot => pr.pc.Idle? && pr.snapshot == None && pr.handleMu == None
    case CallNow(_) => pr.pc.SnapNow? || pr.pc.ReserveNow?
    case Await(reading) => (pr.pc.SnapAwait? || pr.pc.WaitAwait?) && pr.pc.t <= reading
    case LockManagerMu =>
      (pr.pc.SnapAcquire? || pr.pc.WaitAcquire? || pr.pc.Reserve? || pr.pc.MarkAcquire?) && s.managerMu == None
    case TestPending => pr.pc.SnapTest? || pr.pc.WaitTest?
    case StoreSnapshot => pr.pc.SnapStore?
    case BeginRead(request) => pr.pc.Idle?
    case Enqueue => pr.pc.ReadEnqueue? && pr.handleMu == None
    case ScanRows => pr.pc.ReadScan? && pr.snapshot.Some? && pr.pc.request.mode == Shared
    case SkipScan => pr.pc.ReadScan?
    case Reset => pr.pc.Idle? && pr.handleMu == None
    case BeginCommit(writes) => pr.pc.Idle? && RowWrites(writes)
    case BeginSchemaChange(writes) => pr == FRESH && RowWrites(writes)
    case LockCommitMu => (pr.pc.CommitAcquire? || pr.pc.SchemaAcquire?) && s.commitMu == None
    case Precheck(ok) => pr.pc.CommitCheck?
    case LockHandleMu => pr.pc.CommitValidate? && pr.handleMu == None
    case Compare => pr.pc.CommitCompare?
    case InsertPending => pr.pc.ReserveInsert?
    case UnlockManagerMu => pr.pc.ReserveDone?
    case FlushOne => pr.pc.Flush? && pr.pc.done < |pr.writes|
    case FinishFlush => pr.pc.Flush? && pr.pc.done == |pr.writes|
    case ErasePending => pr.pc.MarkErase?
    case UnlockCommitMu => pr.pc.CommitUnlock?
    case BeginWait(t) => pr.pc.Idle?
    case FinishRead => pr.pc.Safe?
  }

  function With(s: State, p: nat, pr: Proc): State
    requires p < |s.procs|
  {
    s.(procs := s.procs[p := pr])
  }

  function Go(s: State, p: nat, pc: Pc): State
    requires p < |s.procs|
  {
    With(s, p, s.procs[p].(pc := pc))
  }

  ghost function Do(s: State, p: nat, a: Action): State
    requires Enabled(s, p, a)
  {
    var pr := s.procs[p];
    match a
    case Tick(reading) => s.(clock := Clocks.Next(s.clock, reading), system := reading)
    case BeginSnapshot => With(s, p, pr.(pc := SnapNow, handleMu := Some(p)))
    case CallNow(reading) =>
      var t := Clocks.Next(s.clock, reading);
      Go(s.(clock := t, system := reading), p, if pr.pc.SnapNow? then SnapAwait(t) else ReserveInsert(t))
    case Await(reading) =>
      Go(s.(system := reading), p, if pr.pc.SnapAwait? then SnapAcquire(pr.pc.t) else WaitAcquire(pr.pc.t))
    case LockManagerMu =>
      Go(s.(managerMu := Some(p)), p,
         match pr.pc
         case SnapAcquire(t) => SnapTest(t)
         case WaitAcquire(t) => WaitTest(t)
         case Reserve => ReserveNow
         case MarkAcquire(t) => MarkErase(t))
    case TestPending =>
      Go(s.(managerMu := None), p,
         if pr.pc.SnapTest?
         then (if Blocked(s.pending, pr.pc.t) then SnapAcquire(pr.pc.t) else SnapStore(pr.pc.t))
         else (if Blocked(s.pending, pr.pc.t) then WaitAcquire(pr.pc.t) else Safe(pr.pc.t, s.clock)))
    case StoreSnapshot => With(s, p, pr.(pc := Idle, handleMu := None, snapshot := Some(pr.pc.t)))
    case BeginRead(request) => Go(s, p, ReadEnqueue(request))
    case Enqueue =>
      With(s, p, pr.(pc := ReadScan(pr.pc.request), readSet := Enqueued(pr.readSet, pr.pc.request),
                     requests := pr.requests + [pr.pc.request]))
    case ScanRows =>
      var table, range := pr.pc.request.table, pr.pc.request.range.ToClosedOpen();
      With(s, p, pr.(pc := Idle,
                     observed := pr.observed +
                       [ReadRecord(table, range, Scan(s.store, pr.snapshot.value, table, range))]))
    case SkipScan => Go(s, p, Idle)
    case Reset => With(s, p, FRESH)
    case BeginCommit(writes) => With(s, p, pr.(pc := CommitAcquire, writes := writes))
    case BeginSchemaChange(writes) => With(s, p, pr.(pc := SchemaAcquire, writes := writes))
    case LockCommitMu => Go(s.(commitMu := Some(p)), p, if pr.pc.CommitAcquire? then CommitCheck else Reserve)
    case Precheck(ok) => if ok then Go(s, p, CommitValidate) else With(s.(commitMu := None), p, FRESH)
    case LockHandleMu => With(s, p, pr.(pc := CommitCompare, handleMu := Some(p)))
    case Compare =>
      if Stale(pr.readSet, pr.snapshot, s.store) then With(s.(commitMu := None), p, FRESH)
      else With(s, p, pr.(pc := Reserve, handleMu := None))
    case InsertPending =>
      Go(s.(pending := s.pending + {pr.pc.t}, log := s.log + [Commit(pr.pc.t, pr.writes, pr.observed)]), p,
         ReserveDone(pr.pc.t))
    case UnlockManagerMu => Go(s.(managerMu := None), p, Flush(pr.pc.t, 0))
    case FlushOne =>
      var w := pr.writes[pr.pc.done];
      Go(s.(store := FlushOp(s.store, pr.pc.t, w.loc, w.op, s.retention)), p, Flush(pr.pc.t, pr.pc.done + 1))
    case FinishFlush => Go(s, p, MarkAcquire(pr.pc.t))
    case ErasePending =>
      Go(s.(pending := s.pending - {pr.pc.t}, lastCommit := Latest(s.lastCommit, pr.pc.t), managerMu := None), p,
         CommitUnlock)
    case UnlockCommitMu => With(s.(commitMu := None), p, FRESH)
    case BeginWait(t) => Go(s, p, WaitAwait(t))
    case FinishRead => Go(s, p, Idle)
  }

  // ---------------------------------------------------------------------------
  // Runs
  // ---------------------------------------------------------------------------

  datatype Step = Step(p: nat, a: Action)

  ghost predicate Legal(s: State, run: seq<Step>)
    decreases |run|
  {
    run != [] ==> Enabled(s, run[0].p, run[0].a) && Legal(Do(s, run[0].p, run[0].a), run[1..])
  }

  ghost function After(s: State, run: seq<Step>): State
    requires Legal(s, run)
    decreases |run|
  {
    if run == [] then s else After(Do(s, run[0].p, run[0].a), run[1..])
  }

  // ---------------------------------------------------------------------------
  // The invariant
  // ---------------------------------------------------------------------------

  /** The position of the process in the commit section. */
  function Owner(s: State): Pc {
    if s.commitMu.Some? && s.commitMu.value < |s.procs| then s.procs[s.commitMu.value].pc else Idle
  }

  function OwnerWrites(s: State): seq<Mutation> {
    if s.commitMu.Some? && s.commitMu.value < |s.procs| then s.procs[s.commitMu.value].writes else []
  }

  predicate InFlight(pc: Pc) {
    pc.ReserveDone? || pc.Flush? || pc.MarkAcquire? || pc.MarkErase?
  }

  ghost predicate LocksAt(s: State, p: nat)
    requires p < |s.procs|
  {
    var pr := s.procs[p];
    && (HoldsCommit(pr.pc) <==> s.commitMu == Some(p))
    && (HoldsManager(pr.pc) <==> s.managerMu == Some(p))
    && pr.handleMu == if HoldsHandle(pr.pc) then Some(p) else None
  }

  /** Every mutex is held by exactly the process whose position says so. */
  ghost predicate Locks(s: State) {
    && (s.commitMu.Some? ==> s.commitMu.value < |s.procs|)
    && (s.managerMu.Some? ==> s.managerMu.value < |s.procs|)
    && forall p :: 0 <= p < |s.procs| ==> LocksAt(s, p)
  }

  /** How much of the last commit has been flushed. */
  function FlushedLog(s: State): seq<Commit> {
    match Owner(s)
    case ReserveDone(_) => if s.log == [] then [] else Truncated(s.log, 0)
    case Flush(_, done) => if s.log == [] || done > |s.log[|s.log| - 1].writes| then s.log else Truncated(s.log, done)
    case _ => s.log
  }

  /** At most one commit is pending: the last of the log, whose owner is in the commit section past validation. */
  ghost predicate FlightOk(s: State) {
    var pc := Owner(s);
    if InFlight(pc) then
      && s.pending == {pc.t}
      && s.log != [] && s.log[|s.log| - 1].ts == pc.t && s.log[|s.log| - 1].writes == OwnerWrites(s)
      && (pc.Flush? ==> pc.done <= |OwnerWrites(s)|)
    else
      && s.pending == {}
      && (pc.ReserveInsert? ==> pc.t <= s.clock && forall i :: 0 <= i < |s.log| ==> s.log[i].ts < pc.t)
  }

  /** What a commit observed is what serial execution of the commits before it leaves. */
  ghost predicate SerialAt(log: seq<Commit>, i: nat)
    requires i < |log|
  {
    forall j :: 0 <= j < |log[i].observed| ==>
      log[i].observed[j].rows == ScanDb(Replayed(log[..i]), log[i].observed[j].table, log[i].observed[j].range)
  }

  ghost predicate LogOk(s: State) {
    && SortedLog(s.log) && LogUntil(s.log, s.clock)
    && forall i :: 0 <= i < |s.log| ==> SerialAt(s.log, i)
  }

  function Horizon(s: State): Time {
    if s.log == [] then 0 else s.log[|s.log| - 1].ts - s.retention
  }

  ghost predicate DataOk(s: State) {
    && RowStore(s.store)
    && (s.log == [] ==> s.store == map[])
    && (s.log != [] ==> StoreOk(s.store, s.log[|s.log| - 1].ts))
    && Faithful(s.store, FlushedLog(s), Horizon(s))
  }

  /** Every commit that has got a timestamp at or before `t` has been wholly flushed. */
  ghost predicate Unblocked(s: State, t: Time) {
    && (forall u :: u in s.pending ==> u > t)
    && (Owner(s).ReserveInsert? ==> Owner(s).t > t)
  }

  /** A dispensed time whose commits have all been wholly flushed, now and forever. */
  ghost predicate Clear(s: State, t: Time) {
    t <= s.clock && Unblocked(s, t)
  }

  /** A recorded scan is right about every row not changed since the snapshot. */
  ghost predicate RecordOk(store: Store, log: seq<Commit>, t: Time, r: ReadRecord) {
    && (forall loc :: loc in r.rows ==> loc.table == r.table && r.range.Spans(loc.key))
    && (forall loc: Loc :: loc.table == r.table && r.range.Spans(loc.key) && !ChangedAfter(Stored(store, loc), t) ==>
          Lookup(r.rows, loc) == Lookup(ReplayedUpTo(log, t), loc))
  }

  ghost predicate Requested(requests: seq<LockRequest>, table: TableId, range: KeyRange) {
    exists j :: 0 <= j < |requests| && requests[j].mode == Shared && requests[j].table == table &&
                requests[j].range.ToClosedOpen() == range
  }

  ghost predicate ObservedOk(s: State, pr: Proc) {
    && (pr.snapshot == None ==> pr.observed == [])
    && (pr.snapshot.Some? ==>
          && Clear(s, pr.snapshot.value)
          && forall i :: 0 <= i < |pr.observed| ==>
               && RecordOk(s.store, s.log, pr.snapshot.value, pr.observed[i])
               && Requested(pr.requests, pr.observed[i].table, pr.observed[i].range))
  }

  /** Everything observed is what serial execution of the whole log leaves. */
  ghost predicate Validated(log: seq<Commit>, observed: seq<ReadRecord>) {
    forall i :: 0 <= i < |observed| ==>
      observed[i].rows == ScanDb(Replayed(log), observed[i].table, observed[i].range)
  }

  ghost predicate PcOk(s: State, pr: Proc) {
    match pr.pc
    case SnapAwait(t) => pr.snapshot == None && t <= s.clock
    case SnapAcquire(t) => pr.snapshot == None && t <= s.clock
    case SnapTest(t) => pr.snapshot == None && t <= s.clock
    case SnapNow => pr.snapshot == None
    case SnapStore(t) => pr.snapshot == None && Clear(s, t)
    case ReadScan(request) =>
      request.mode == Shared ==> Requested(pr.requests, request.table, request.range.ToClosedOpen())
    case SchemaAcquire => pr.snapshot == None
    case Reserve => Validated(s.log, pr.observed)
    case ReserveNow => Validated(s.log, pr.observed)
    case ReserveInsert(_) => Validated(s.log, pr.observed)
    case Safe(t, tested) => tested <= s.clock && (t <= tested ==> Clear(s, t))
    case _ => true
  }

  ghost predicate ProcOk(s: State, p: nat)
    requires p < |s.procs|
  {
    var pr := s.procs[p];
    && pr.readSet == ReadSetOf(pr.requests)
    && RowWrites(pr.writes)
    && ObservedOk(s, pr)
    && PcOk(s, pr)
  }

  ghost predicate Inv(s: State) {
    && Locks(s) && FlightOk(s) && LogOk(s) && DataOk(s)
    && forall p :: 0 <= p < |s.procs| ==> ProcOk(s, p)
  }

  lemma InitInv(clock: Time, retention: nat, n: nat)
    ensures Inv(Init(clock, retention, n))
  {
    EmptyIsFaithful(0);
  }

  // ---------------------------------------------------------------------------
  // Every step keeps the invariant
  // ---------------------------------------------------------------------------

  /** What a step of `p` leaves alone: the other processes, and every clear time. */
  ghost predicate Advance(s: State, s': State, p: nat) {
    && p < |s.procs| == |s'.procs|
    && (forall q :: 0 <= q < |s.procs| && q != p ==> s'.procs[q] == s.procs[q])
    && s.clock <= s'.clock && s.retention == s'.retention
    && (forall t :: Clear(s, t) ==> Clear(s', t))
    && (forall t :: Clear(s, t) ==> ReplayedUpTo(s'.log, t) == ReplayedUpTo(s.log, t))
    && (forall loc, t :: ChangedAfter(Stored(s.store, loc), t) ==> ChangedAfter(Stored(s'.store, loc), t))
    && (s'.log == s.log || HoldsCommit(s.procs[p].pc))
    && s.log <= s'.log
    && (forall t, i :: Clear(s, t) && |s.log| <= i < |s'.log| ==> s'.log[i].ts > t)
  }

  lemma RecordKept(s: State, s': State, p: nat, t: Time, r: ReadRecord)
    requires Advance(s, s', p) && Clear(s, t) && RecordOk(s.store, s.log, t, r)
    ensures RecordOk(s'.store, s'.log, t, r)
  {
    hide KeyRange.Spans, ChangedAfter, ReplayedUpTo, Stored;
  }

  lemma OtherKept(s: State, s': State, p: nat, q: nat)
    requires Advance(s, s', p) && Locks(s)
    requires q < |s.procs| && q != p && ProcOk(s, q)
    ensures ProcOk(s', q)
  {
    hide RecordOk, ChangedAfter, ReplayedUpTo, Stored, Requested, Validated, Clear;
    var pr := s.procs[q];
    assert LocksAt(s, q) && LocksAt(s, p);
    if pr.snapshot.Some? {
      forall i | 0 <= i < |pr.observed| ensures RecordOk(s'.store, s'.log, pr.snapshot.value, pr.observed[i]) {
        RecordKept(s, s', p, pr.snapshot.value, pr.observed[i]);
      }
    }
  }

  /** A step that writes nothing, reserves nothing and completes nothing. */
  ghost predicate Quiet(s: State, s': State, p: nat) {
    && p < |s.procs| == |s'.procs|
    && (forall q :: 0 <= q < |s.procs| && q != p ==> s'.procs[q] == s.procs[q])
    && s.clock <= s'.clock && s.retention == s'.retention
    && s'.pending == s.pending && s'.log == s.log && s'.store == s.store
    && (Owner(s').ReserveInsert? ==> Owner(s') == Owner(s) || Owner(s').t > s.clock)
    && FlushedLog(s') == FlushedLog(s)
  }

  lemma QuietKeeps(s: State, s': State, p: nat)
    requires Inv(s) && Quiet(s, s', p)
    requires Locks(s') && FlightOk(s') && ProcOk(s', p)
    ensures Inv(s') && Advance(s, s', p)
  {
    hide Faithful, StoreOk, RecordOk, ChangedAfter, ReplayedUpTo, Stored, Requested, Validated, SerialAt, ProcOk,
         LocksAt;
    assert Advance(s, s', p);
    forall q | 0 <= q < |s.procs| && q != p ensures ProcOk(s', q) {
      OtherKept(s, s', p, q);
    }
    assert DataOk(s');
  }

  /** The locks after a step of `p`, from the position it left and the one it reached. */
  lemma LocksStep(s: State, s': State, p: nat)
    requires Locks(s) && p < |s.procs| == |s'.procs|
    requires forall q :: 0 <= q < |s.procs| && q != p ==> s'.procs[q] == s.procs[q]
    requires var from, to := s.procs[p].pc, s'.procs[p].pc;
      && (if HoldsCommit(to) then s'.commitMu == Some(p) && (s.commitMu == None || HoldsCommit(from))
          else s'.commitMu == if HoldsCommit(from) then None else s.commitMu)
      && (if HoldsManager(to) then s'.managerMu == Some(p) && (s.managerMu == None || HoldsManager(from))
          else s'.managerMu == if HoldsManager(from) then None else s.managerMu)
      && s'.procs[p].handleMu == (if HoldsHandle(to) then Some(p) else None)
    ensures Locks(s')
  {
    assert LocksAt(s, p);
    forall q | 0 <= q < |s'.procs| ensures LocksAt(s', q) {
      assert LocksAt(s, q);
    }
  }

  /** A step outside the commit section that touches neither log, store nor pending set. */
  lemma OutsideKeeps(s: State, s': State, p: nat)
    requires Inv(s) && Locks(s') && p < |s.procs| == |s'.procs|
    requires forall q :: 0 <= q < |s.procs| && q != p ==> s'.procs[q] == s.procs[q]
    requires s.clock <= s'.clock && s.retention == s'.retention
    requires s'.pending == s.pending && s'.log == s.log && s'.store == s.store
    requires s'.commitMu == s.commitMu && !HoldsCommit(s.procs[p].pc) && ProcOk(s', p)
    ensures Inv(s') && Advance(s, s', p)
  {
    hide Faithful, StoreOk, ProcOk, SerialAt, Truncated, HoldsCommit, HoldsManager, HoldsHandle;
    assert LocksAt(s, p);
    assert Owner(s') == Owner(s) && OwnerWrites(s') == OwnerWrites(s);
    QuietKeeps(s, s', p);
  }

  /** What a process has observed stays right through its own quiet steps. */
  lemma SelfKept(s: State, s': State, p: nat)
    requires p < |s.procs| == |s'.procs| && ObservedOk(s, s.procs[p]) && s.clock <= s'.clock
    requires s'.pending == s.pending && s'.log == s.log && s'.store == s.store
    requires Owner(s').ReserveInsert? ==> Owner(s') == Owner(s) || Owner(s').t > s.clock
    requires var pr, pr' := s.procs[p], s'.procs[p];
      pr'.snapshot == pr.snapshot && pr'.observed == pr.observed && pr'.requests == pr.requests
    ensures ObservedOk(s', s'.procs[p])
  {
    hide RecordOk, Requested;
  }

  lemma StepTick(s: State, p: nat, reading: Time)
    requires Inv(s) && Enabled(s, p, Tick(reading))
    ensures Inv(Do(s, p, Tick(reading))) && Advance(s, Do(s, p, Tick(reading)), p)
  {
    hide Faithful, StoreOk, SerialAt, Truncated, RecordOk, Requested, Validated, ChangedAfter, ReplayedUpTo, Stored,
         ObservedOk, Advance;
    var s' := Do(s, p, Tick(reading));
    assert LocksAt(s, p) && ProcOk(s, p);
    LocksStep(s, s', p);
    SelfKept(s, s', p);
    assert Owner(s') == Owner(s) && OwnerWrites(s') == OwnerWrites(s);
    QuietKeeps(s, s', p);
  }

  lemma StepBeginSnapshot(s: State, p: nat)
    requires Inv(s) && Enabled(s, p, BeginSnapshot)
    ensures Inv(Do(s, p, BeginSnapshot)) && Advance(s, Do(s, p, BeginSnapshot), p)
  {
    hide Faithful, StoreOk, SerialAt, Truncated, RecordOk, Requested, Validated, Clear, Advance;
    var s' := Do(s, p, BeginSnapshot);
    assert LocksAt(s, p) && ProcOk(s, p);
    LocksStep(s, s', p);
    OutsideKeeps(s, s', p);
  }

  lemma StepCallNow(s: State, p: nat, reading: Time)
    requires Inv(s) && Enabled(s, p, CallNow(reading))
    ensures Inv(Do(s, p, CallNow(reading))) && Advance(s, Do(s, p, CallNow(reading)), p)
  {
    hide Faithful, StoreOk, SerialAt, Truncated, RecordOk, Requested, Validated, ObservedOk, Advance;
    var s' := Do(s, p, CallNow(reading));
    assert LocksAt(s, p) && ProcOk(s, p);
    LocksStep(s, s', p);
    SelfKept(s, s', p);
    if s.procs[p].pc.SnapNow? {
      OutsideKeeps(s, s', p);
    } else {
      QuietKeeps(s, s', p);
    }
  }

  lemma StepAwait(s: State, p: nat, reading: Time)
    requires Inv(s) && Enabled(s, p, Await(reading))
    ensures Inv(Do(s, p, Await(reading))) && Advance(s, Do(s, p, Await(reading)), p)
  {
    hide Faithful, StoreOk, SerialAt, Truncated, RecordOk, Requested, Validated, ObservedOk, Advance;
    var s' := Do(s, p, Await(reading));
    assert LocksAt(s, p) && ProcOk(s, p);
    LocksStep(s, s', p);
    SelfKept(s, s', p);
    OutsideKeeps(s, s', p);
  }

  lemma StepLockManagerMu(s: State, p: nat)
    requires Inv(s) && Enabled(s, p, LockManagerMu)
    ensures Inv(Do(s, p, LockManagerMu)) && Advance(s, Do(s, p, LockManagerMu), p)
  {
    hide Faithful, StoreOk, SerialAt, Truncated, RecordOk, Requested, Validated, ObservedOk, Advance;
    var s' := Do(s, p, LockManagerMu);
    assert LocksAt(s, p) && ProcOk(s, p);
    LocksStep(s, s', p);
    SelfKept(s, s', p);
    if HoldsCommit(s.procs[p].pc) {
      QuietKeeps(s, s', p);
    } else {
      OutsideKeeps(s, s', p);
    }
  }

  /** While a process holds the manager's mutex, no other has a timestamp it has not yet made pending. */
  lemma TestedIsUnblocked(s: State, s': State, p: nat, t: Time)
    requires Locks(s) && p < |s.procs| && s.managerMu == Some(p) && !s.procs[p].pc.ReserveInsert?
    requires !Blocked(s.pending, t)
    requires s'.clock == s.clock && s'.pending == s.pending && Owner(s') == Owner(s)
    ensures Unblocked(s', t)
  {
    hide HoldsCommit, HoldsHandle;
    assert s.commitMu.Some? ==> LocksAt(s, s.commitMu.value);
  }

  lemma StepTestPending(s: State, p: nat)
    requires Inv(s) && Enabled(s, p, TestPending)
    ensures Inv(Do(s, p, TestPending)) && Advance(s, Do(s, p, TestPending), p)
  {
    hide Faithful, StoreOk, SerialAt, Truncated, RecordOk, Requested, Validated, Blocked, Unblocked, FlightOk,
         ObservedOk, Advance;
    var s' := Do(s, p, TestPending);
    var t := s.procs[p].pc.t;
    assert LocksAt(s, p) && ProcOk(s, p);
    assert Owner(s') == Owner(s);
    LocksStep(s, s', p);
    if !Blocked(s.pending, t) {
      TestedIsUnblocked(s, s', p, t);
    }
    SelfKept(s, s', p);
    OutsideKeeps(s, s', p);
  }

  lemma StepStoreSnapshot(s: State, p: nat)
    requires Inv(s) && Enabled(s, p, StoreSnapshot)
    ensures Inv(Do(s, p, StoreSnapshot)) && Advance(s, Do(s, p, StoreSnapshot), p)
  {
    hide Faithful, StoreOk, SerialAt, Truncated, RecordOk, Requested, Validated, Advance;
    var s' := Do(s, p, StoreSnapshot);
    assert LocksAt(s, p) && ProcOk(s, p);
    LocksStep(s, s', p);
    OutsideKeeps(s, s', p);
  }

  lemma StepBeginRead(s: State, p: nat, request: LockRequest)
    requires Inv(s) && Enabled(s, p, BeginRead(request))
    ensures Inv(Do(s, p, BeginRead(request))) && Advance(s, Do(s, p, BeginRead(request)), p)
  {
    hide Faithful, StoreOk, SerialAt, Truncated, RecordOk, Requested, Validated, Advance;
    var s' := Do(s, p, BeginRead(request));
    assert LocksAt(s, p) && ProcOk(s, p);
    LocksStep(s, s', p);
    OutsideKeeps(s, s', p);
  }

  lemma RequestedMore(requests: seq<LockRequest>, request: LockRequest, table: TableId, range: KeyRange)
    ensures Requested(requests, table, range) ==> Requested(requests + [request], table, range)
    ensures request.mode == Shared ==> Requested(requests + [request], request.table, request.range.ToClosedOpen())
  {
    var more := requests + [request];
    if Requested(requests, table, range) {
      var j :| 0 <= j < |requests| && requests[j].mode == Shared && requests[j].table == table &&
               requests[j].range.ToClosedOpen() == range;
      assert more[j] == requests[j];
    }
    assert more[|requests|] == request;
  }

  lemma StepEnqueue(s: State, p: nat)
    requires Inv(s) && Enabled(s, p, Enqueue)
    ensures Inv(Do(s, p, Enqueue)) && Advance(s, Do(s, p, Enqueue), p)
  {
    hide Faithful, StoreOk, SerialAt, Truncated, RecordOk, Requested, Validated, Enqueued, Advance;
    var s' := Do(s, p, Enqueue);
    var pr, request := s.procs[p], s.procs[p].pc.request;
    assert LocksAt(s, p) && ProcOk(s, p);
    LocksStep(s, s', p);
    assert (pr.requests + [request])[..|pr.requests|] == pr.requests;
    RequestedMore(pr.requests, request, request.table, request.range);
    forall i | 0 <= i < |pr.observed|
      ensures Requested(pr.requests + [request], pr.observed[i].table, pr.observed[i].range)
    {
      RequestedMore(pr.requests, request, pr.observed[i].table, pr.observed[i].range);
    }
    OutsideKeeps(s, s', p);
  }

  /** At an unblocked time the half-flushed commit, if any, does not show. */
  lemma ClearLog(s: State, t: Time)
    requires FlightOk(s) && Unblocked(s, t)
    ensures ReplayedUpTo(FlushedLog(s), t) == ReplayedUpTo(s.log, t)
  {
    hide ReplayedUpTo, Truncated;
    match Owner(s)
    case ReserveDone(_) => TruncatedBefore(s.log, 0, t);
    case Flush(_, done) => TruncatedBefore(s.log, done, t);
    case _ =>
  }

  /** A scan at a clear time is right about every row it covers that has not changed since. */
  lemma ScanIsRight(s: State, t: Time, table: TableId, range: KeyRange)
    requires FlightOk(s) && DataOk(s) && Clear(s, t)
    ensures RecordOk(s.store, s.log, t, ReadRecord(table, range, Scan(s.store, t, table, range)))
  {
    hide KeyRange.Spans, ChangedAfter, ReplayedUpTo, RowAt, Truncated, StoreOk, WrittenAfter, FlightOk, Unblocked,
         FlushedLog;
    ClearLog(s, t);
    forall loc: Loc | loc.table == table && range.Spans(loc.key) && !ChangedAfter(Stored(s.store, loc), t)
      ensures Lookup(Scan(s.store, t, table, range), loc) == Lookup(ReplayedUpTo(s.log, t), loc)
    {
      assert FaithfulAt(s.store, FlushedLog(s), Horizon(s), loc, t);
      ScanReads(s.store, t, table, range, loc);
    }
  }

  lemma ScanReads(store: Store, t: Time, table: TableId, range: KeyRange, loc: Loc)
    requires loc.table == table && range.Spans(loc.key)
    ensures Lookup(Scan(store, t, table, range), loc) == ReadAt(store, loc, t)
  {
  }

  lemma StepScanRows(s: State, p: nat)
    requires Inv(s) && Enabled(s, p, ScanRows)
    ensures Inv(Do(s, p, ScanRows)) && Advance(s, Do(s, p, ScanRows), p)
  {
    hide Faithful, StoreOk, SerialAt, Truncated, RecordOk, Requested, Validated, Scan, Advance;
    var s' := Do(s, p, ScanRows);
    var pr, request := s.procs[p], s.procs[p].pc.request;
    assert LocksAt(s, p) && ProcOk(s, p);
    LocksStep(s, s', p);
    ScanIsRight(s, pr.snapshot.value, request.table, request.range.ToClosedOpen());
    OutsideKeeps(s, s', p);
  }

  lemma StepSkipScan(s: State, p: nat)
    requires Inv(s) && Enabled(s, p, SkipScan)
    ensures Inv(Do(s, p, SkipScan)) && Advance(s, Do(s, p, SkipScan), p)
  {
    hide Faithful, StoreOk, SerialAt, Truncated, RecordOk, Requested, Validated, ObservedOk, Advance;
    var s' := Do(s, p, SkipScan);
    assert LocksAt(s, p) && ProcOk(s, p);
    LocksStep(s, s', p);
    SelfKept(s, s', p);
    OutsideKeeps(s, s', p);
  }

  lemma StepReset(s: State, p: nat)
    requires Inv(s) && Enabled(s, p, Reset)
    ensures Inv(Do(s, p, Reset)) && Advance(s, Do(s, p, Reset), p)
  {
    hide Faithful, StoreOk, SerialAt, Truncated, RecordOk, Requested, Validated, Advance;
    var s' := Do(s, p, Reset);
    assert LocksAt(s, p) && ProcOk(s, p);
    LocksStep(s, s', p);
    OutsideKeeps(s, s', p);
  }

  lemma StepBeginCommit(s: State, p: nat, writes: seq<Mutation>)
    requires Inv(s) && Enabled(s, p, BeginCommit(writes))
    ensures Inv(Do(s, p, BeginCommit(writes))) && Advance(s, Do(s, p, BeginCommit(writes)), p)
  {
    hide Faithful, StoreOk, SerialAt, Truncated, RecordOk, Requested, Validated, ObservedOk, Advance;
    var s' := Do(s, p, BeginCommit(writes));
    assert LocksAt(s, p) && ProcOk(s, p);
    LocksStep(s, s', p);
    SelfKept(s, s', p);
    OutsideKeeps(s, s', p);
  }

  lemma StepBeginSchemaChange(s: State, p: nat, writes: seq<Mutation>)
    requires Inv(s) && Enabled(s, p, BeginSchemaChange(writes))
    ensures Inv(Do(s, p, BeginSchemaChange(writes))) && Advance(s, Do(s, p, BeginSchemaChange(writes)), p)
  {
    hide Faithful, StoreOk, SerialAt, Truncated, RecordOk, Requested, Validated, Advance;
    var s' := Do(s, p, BeginSchemaChange(writes));
    assert LocksAt(s, p) && ProcOk(s, p);
    LocksStep(s, s', p);
    OutsideKeeps(s, s', p);
  }

  lemma StepBeginWait(s: State, p: nat, t: Time)
    requires Inv(s) && Enabled(s, p, BeginWait(t))
    ensures Inv(Do(s, p, BeginWait(t))) && Advance(s, Do(s, p, BeginWait(t)), p)
  {
    hide Faithful, StoreOk, SerialAt, Truncated, RecordOk, Requested, Validated, ObservedOk, Advance;
    var s' := Do(s, p, BeginWait(t));
    assert LocksAt(s, p) && ProcOk(s, p);
    LocksStep(s, s', p);
    SelfKept(s, s', p);
    OutsideKeeps(s, s', p);
  }

  lemma StepFinishRead(s: State, p: nat)
    requires Inv(s) && Enabled(s, p, FinishRead)
    ensures Inv(Do(s, p, FinishRead)) && Advance(s, Do(s, p, FinishRead), p)
  {
    hide Faithful, StoreOk, SerialAt, Truncated, RecordOk, Requested, Validated, ObservedOk, Advance;
    var s' := Do(s, p, FinishRead);
    assert LocksAt(s, p) && ProcOk(s, p);
    LocksStep(s, s', p);
    SelfKept(s, s', p);
    OutsideKeeps(s, s', p);
  }

  lemma StepLockCommitMu(s: State, p: nat)
    requires Inv(s) && Enabled(s, p, LockCommitMu)
    ensures Inv(Do(s, p, LockCommitMu)) && Advance(s, Do(s, p, LockCommitMu), p)
  {
    hide Faithful, StoreOk, SerialAt, Truncated, RecordOk, Requested, Advance;
    var s' := Do(s, p, LockCommitMu);
    assert LocksAt(s, p) && ProcOk(s, p);
    LocksStep(s, s', p);
    SelfKept(s, s', p);
    QuietKeeps(s, s', p);
  }

  lemma PrecheckAborts(s: State, p: nat)
    requires Inv(s) && Enabled(s, p, Precheck(false))
    ensures Inv(Do(s, p, Precheck(false))) && Advance(s, Do(s, p, Precheck(false)), p)
  {
    hide Faithful, StoreOk, SerialAt, Truncated, RecordOk, Requested, Validated, Advance, Clear;
    var s' := Do(s, p, Precheck(false));
    assert LocksAt(s, p) && ProcOk(s, p);
    LocksStep(s, s', p);
    QuietKeeps(s, s', p);
  }

  lemma PrecheckPasses(s: State, p: nat)
    requires Inv(s) && Enabled(s, p, Precheck(true))
    ensures Inv(Do(s, p, Precheck(true))) && Advance(s, Do(s, p, Precheck(true)), p)
  {
    hide Faithful, StoreOk, SerialAt, Truncated, RecordOk, Requested, Validated, Advance, ObservedOk;
    var s' := Do(s, p, Precheck(true));
    assert LocksAt(s, p) && ProcOk(s, p);
    LocksStep(s, s', p);
    SelfKept(s, s', p);
    QuietKeeps(s, s', p);
  }

  lemma StepPrecheck(s: State, p: nat, ok: bool)
    requires Inv(s) && Enabled(s, p, Precheck(ok))
    ensures Inv(Do(s, p, Precheck(ok))) && Advance(s, Do(s, p, Precheck(ok)), p)
  {
    hide Inv, Do, Advance;
    if ok {
      PrecheckPasses(s, p);
    } else {
      PrecheckAborts(s, p);
    }
  }

  lemma StepLockHandleMu(s: State, p: nat)
    requires Inv(s) && Enabled(s, p, LockHandleMu)
    ensures Inv(Do(s, p, LockHandleMu)) && Advance(s, Do(s, p, LockHandleMu), p)
  {
    hide Faithful, StoreOk, SerialAt, Truncated, RecordOk, Requested, Validated, ObservedOk, Advance;
    var s' := Do(s, p, LockHandleMu);
    assert LocksAt(s, p) && ProcOk(s, p);
    LocksStep(s, s', p);
    SelfKept(s, s', p);
    QuietKeeps(s, s', p);
  }

  /** A row not changed after a clear time is, in the replay, the same then as at the end of the log. */
  lemma UnchangedReplay(s: State, t: Time, loc: Loc)
    requires LogOk(s) && FlightOk(s) && DataOk(s) && !InFlight(Owner(s))
    requires t <= s.clock && !ChangedAfter(Stored(s.store, loc), t)
    ensures Lookup(ReplayedUpTo(s.log, t), loc) == Lookup(Replayed(s.log), loc)
  {
    hide ChangedAfter, ReplayedUpTo, Replayed, RowAt, StoreOk, WrittenAfter, SerialAt, SortedLog;
    var now := if s.clock > Horizon(s) then s.clock else Horizon(s);
    assert FlushedLog(s) == s.log;
    assert FaithfulAt(s.store, s.log, Horizon(s), loc, t);
    assert FaithfulAt(s.store, s.log, Horizon(s), loc, now);
    UnchangedReads(Stored(s.store, loc), t, now);
    assert LogUntil(s.log, now);
    ReplayedAll(s.log, now);
  }

  /** The rows of a requested range are all in the read set, so a read set that is not stale has them unchanged. */
  lemma NotStale(pr: Proc, store: Store, r: ReadRecord, loc: Loc)
    requires RowStore(store) && pr.snapshot.Some? && pr.readSet == ReadSetOf(pr.requests)
    requires !Stale(pr.readSet, pr.snapshot, store)
    requires Requested(pr.requests, r.table, r.range) && loc.table == r.table && r.range.Spans(loc.key)
    ensures !ChangedAfter(Stored(store, loc), pr.snapshot.value)
  {
    hide KeyRange.Spans, Stale, ReadSetOf, Records;
    if loc in store {
      var j :| 0 <= j < |pr.requests| && pr.requests[j].mode == Shared && pr.requests[j].table == r.table &&
               pr.requests[j].range.ToClosedOpen() == r.range;
      assert Scans(pr.requests[j], loc);
      ReadSetIsExact(pr.requests, loc);
      StaleMeaning(pr.readSet, pr.snapshot, store);
    }
  }

  /** Validation: what was observed at the snapshot is what the whole log leaves. */
  lemma ValidationIsSound(s: State, p: nat)
    requires Inv(s) && p < |s.procs| && s.procs[p].pc.CommitCompare?
    requires !Stale(s.procs[p].readSet, s.procs[p].snapshot, s.store)
    ensures Validated(s.log, s.procs[p].observed)
  {
    hide KeyRange.Spans, Stale, ReadSetOf, Requested, ReplayedUpTo, Replayed, DataOk, LogOk, ChangedAfter, Clear,
         Stored;
    var pr := s.procs[p];
    assert LocksAt(s, p) && ProcOk(s, p);
    assert RowStore(s.store) by { DataRows(s); }
    forall i | 0 <= i < |pr.observed|
      ensures pr.observed[i].rows == ScanDb(Replayed(s.log), pr.observed[i].table, pr.observed[i].range)
    {
      var r := pr.observed[i];
      var t := pr.snapshot.value;
      assert RecordOk(s.store, s.log, t, r);
      assert t <= s.clock by { ClearTime(s, t); }
      forall loc: Loc | loc.table == r.table && r.range.Spans(loc.key)
        ensures Lookup(r.rows, loc) == Lookup(Replayed(s.log), loc)
      {
        NotStale(pr, s.store, r, loc);
        UnchangedReplay(s, t, loc);
      }
      SameScan(Replayed(s.log), r);
    }
  }

  lemma DataRows(s: State)
    requires DataOk(s)
    ensures RowStore(s.store)
  {
  }

  lemma ClearTime(s: State, t: Time)
    requires Clear(s, t)
    ensures t <= s.clock
  {
  }

  lemma SameScan(db: Db, r: ReadRecord)
    requires forall loc :: loc in r.rows ==> loc.table == r.table && r.range.Spans(loc.key)
    requires forall loc: Loc :: loc.table == r.table && r.range.Spans(loc.key) ==>
             Lookup(r.rows, loc) == Lookup(db, loc)
    ensures r.rows == ScanDb(db, r.table, r.range)
  {
    hide KeyRange.Spans;
    var scan := ScanDb(db, r.table, r.range);
    forall loc ensures loc in r.rows <==> loc in scan {
      if loc.table == r.table && r.range.Spans(loc.key) {
        assert Lookup(r.rows, loc) == Lookup(db, loc);
      }
    }
    forall loc | loc in scan ensures r.rows[loc] == scan[loc] {
      assert Lookup(r.rows, loc) == Lookup(db, loc);
    }
  }

  lemma CompareAborts(s: State, p: nat)
    requires Inv(s) && Enabled(s, p, Compare) && Stale(s.procs[p].readSet, s.procs[p].snapshot, s.store)
    ensures Inv(Do(s, p, Compare)) && Advance(s, Do(s, p, Compare), p)
  {
    hide Faithful, StoreOk, SerialAt, Truncated, RecordOk, Requested, Validated, Stale, Advance, Clear;
    var s' := Do(s, p, Compare);
    assert LocksAt(s, p) && ProcOk(s, p);
    LocksStep(s, s', p);
    QuietKeeps(s, s', p);
  }

  lemma ComparePasses(s: State, p: nat)
    requires Inv(s) && Enabled(s, p, Compare) && !Stale(s.procs[p].readSet, s.procs[p].snapshot, s.store)
    ensures Inv(Do(s, p, Compare)) && Advance(s, Do(s, p, Compare), p)
  {
    hide Faithful, StoreOk, SerialAt, Truncated, RecordOk, Requested, Validated, Stale, Advance, ObservedOk;
    var s' := Do(s, p, Compare);
    assert LocksAt(s, p) && ProcOk(s, p);
    LocksStep(s, s', p);
    ValidationIsSound(s, p);
    SelfKept(s, s', p);
    QuietKeeps(s, s', p);
  }

  lemma StepCompare(s: State, p: nat)
    requires Inv(s) && Enabled(s, p, Compare)
    ensures Inv(Do(s, p, Compare)) && Advance(s, Do(s, p, Compare), p)
  {
    hide Inv, Do, Advance, Stale;
    if Stale(s.procs[p].readSet, s.procs[p].snapshot, s.store) {
      CompareAborts(s, p);
    } else {
      ComparePasses(s, p);
    }
  }

  lemma StepUnlockManagerMu(s: State, p: nat)
    requires Inv(s) && Enabled(s, p, UnlockManagerMu)
    ensures Inv(Do(s, p, UnlockManagerMu)) && Advance(s, Do(s, p, UnlockManagerMu), p)
  {
    hide Faithful, StoreOk, SerialAt, Truncated, RecordOk, Requested, Validated, ObservedOk, Advance;
    var s' := Do(s, p, UnlockManagerMu);
    assert LocksAt(s, p) && ProcOk(s, p);
    LocksStep(s, s', p);
    SelfKept(s, s', p);
    QuietKeeps(s, s', p);
  }

  lemma StepFinishFlush(s: State, p: nat)
    requires Inv(s) && Enabled(s, p, FinishFlush)
    ensures Inv(Do(s, p, FinishFlush)) && Advance(s, Do(s, p, FinishFlush), p)
  {
    hide Faithful, StoreOk, SerialAt, Truncated, RecordOk, Requested, Validated, ObservedOk, Advance;
    var s' := Do(s, p, FinishFlush);
    assert LocksAt(s, p) && ProcOk(s, p);
    LocksStep(s, s', p);
    SelfKept(s, s', p);
    TruncatedAll(s.log);
    QuietKeeps(s, s', p);
  }

  lemma StepUnlockCommitMu(s: State, p: nat)
    requires Inv(s) && Enabled(s, p, UnlockCommitMu)
    ensures Inv(Do(s, p, UnlockCommitMu)) && Advance(s, Do(s, p, UnlockCommitMu), p)
  {
    hide Faithful, StoreOk, SerialAt, Truncated, RecordOk, Requested, Validated, Advance;
    var s' := Do(s, p, UnlockCommitMu);
    assert LocksAt(s, p) && ProcOk(s, p);
    LocksStep(s, s', p);
    QuietKeeps(s, s', p);
  }

  lemma RowOkLater(row: Row, t: Time, t': Time)
    requires RowOk(row, t) && t <= t'
    ensures RowOk(row, t')
  {
    assert !ChangedAfter(row, t);
    UnchangedReads(row, t, t');
  }

  /** A reserved commit, nothing of it flushed yet. */
  lemma ReserveData(s: State, c: Commit)
    requires DataOk(s) && FlushedLog(s) == s.log
    requires forall i :: 0 <= i < |s.log| ==> s.log[i].ts < c.ts
    ensures StoreOk(s.store, c.ts) && Faithful(s.store, s.log + [c.(writes := [])], c.ts - s.retention)
  {
    hide FlushedLog, RowOk, FaithfulAt;
    if s.log == [] {
      EmptyIsFaithful(c.ts - s.retention);
      FaithfulReserve(s.store, s.log, c.(writes := []), c.ts - s.retention, c.ts - s.retention);
    } else {
      FaithfulReserve(s.store, s.log, c.(writes := []), Horizon(s), c.ts - s.retention);
      forall loc | loc in s.store ensures RowOk(s.store[loc], c.ts) {
        RowOkLater(s.store[loc], s.log[|s.log| - 1].ts, c.ts);
      }
    }
  }

  lemma ReserveLog(log: seq<Commit>, c: Commit, clock: Time)
    requires SortedLog(log) && forall i :: 0 <= i < |log| ==> SerialAt(log, i)
    requires (forall i :: 0 <= i < |log| ==> log[i].ts < c.ts) && c.ts <= clock && Validated(log, c.observed)
    ensures SortedLog(log + [c]) && LogUntil(log + [c], clock)
    ensures forall i :: 0 <= i < |log + [c]| ==> SerialAt(log + [c], i)
  {
    forall i | 0 <= i < |log + [c]| ensures SerialAt(log + [c], i) {
      assert (log + [c])[..i] == if i < |log| then log[..i] else log;
      if i < |log| {
        assert SerialAt(log, i);
      }
    }
  }

  /** Other processes' clear times lie before a newly reserved commit. */
  lemma ReserveAdvance(s: State, s': State, p: nat, c: Commit)
    requires Locks(s) && p < |s.procs| == |s'.procs|
    requires forall q :: 0 <= q < |s.procs| && q != p ==> s'.procs[q] == s.procs[q]
    requires s.commitMu == Some(p) && s'.commitMu == Some(p)
    requires s.procs[p].pc == ReserveInsert(c.ts) && s'.procs[p].pc == ReserveDone(c.ts)
    requires s'.pending == s.pending + {c.ts} && s'.log == s.log + [c] && s'.store == s.store
    requires s'.clock == s.clock && s'.retention == s.retention
    ensures Advance(s, s', p)
  {
    hide ReplayedUpTo, ChangedAfter, Stored;
    forall t | Clear(s, t) ensures ReplayedUpTo(s'.log, t) == ReplayedUpTo(s.log, t) {
      AppendLater(s.log, c, t);
    }
  }

  lemma AdvanceKeeps(s: State, s': State, p: nat)
    requires Inv(s) && Advance(s, s', p) && Locks(s') && FlightOk(s') && LogOk(s') && DataOk(s')
    requires var pr, pr' := s.procs[p], s'.procs[p];
      && pr'.snapshot == pr.snapshot && pr'.observed == pr.observed && pr'.requests == pr.requests
      && pr'.readSet == pr.readSet && pr'.writes == pr.writes
      && (pr'.pc.ReserveDone? || pr'.pc.Flush? || pr'.pc.CommitUnlock?)
    ensures Inv(s')
  {
    hide RecordOk, ChangedAfter, ReplayedUpTo, Stored, Requested, Validated, Clear, FlightOk, LogOk, DataOk, LocksAt;
    var pr := s.procs[p];
    assert ProcOk(s, p);
    if pr.snapshot.Some? {
      forall i | 0 <= i < |pr.observed| ensures RecordOk(s'.store, s'.log, pr.snapshot.value, pr.observed[i]) {
        RecordKept(s, s', p, pr.snapshot.value, pr.observed[i]);
      }
    }
    assert ProcOk(s', p);
    forall q | 0 <= q < |s.procs| && q != p ensures ProcOk(s', q) {
      OtherKept(s, s', p, q);
    }
  }

  lemma ReserveTruncates(log: seq<Commit>, c: Commit)
    ensures Truncated(log + [c], 0) == log + [c.(writes := [])]
  {
  }

  lemma StepInsertPending(s: State, p: nat)
    requires Inv(s) && Enabled(s, p, InsertPending)
    ensures Inv(Do(s, p, InsertPending)) && Advance(s, Do(s, p, InsertPending), p)
  {
    hide Faithful, StoreOk, SerialAt, RecordOk, Requested, Validated, ObservedOk, Clear, ReplayedUpTo, ChangedAfter,
         Advance, Truncated;
    var s' := Do(s, p, InsertPending);
    var pr := s.procs[p];
    var c := Commit(pr.pc.t, pr.writes, pr.observed);
    assert LocksAt(s, p) && ProcOk(s, p);
    LocksStep(s, s', p);
    ReserveData(s, c);
    ReserveLog(s.log, c, s.clock);
    ReserveTruncates(s.log, c);
    ReserveAdvance(s, s', p, c);
    AdvanceKeeps(s, s', p);
  }

  /** Flushing changes rows only after the commit's timestamp and forgets no change. */
  lemma FlushAdvance(s: State, s': State, p: nat, loc: Loc, op: Op)
    requires Locks(s) && p < |s.procs| == |s'.procs|
    requires forall q :: 0 <= q < |s.procs| && q != p ==> s'.procs[q] == s.procs[q]
    requires s.commitMu == Some(p) && s'.commitMu == Some(p)
    requires s.procs[p].pc.Flush? && s'.procs[p].pc.Flush?
    requires s'.pending == s.pending && s'.log == s.log && s'.clock == s.clock && s'.retention == s.retention
    requires StoreOk(s.store, s.procs[p].pc.t)
    requires s'.store == FlushOp(s.store, s.procs[p].pc.t, loc, op, s.retention)
    ensures Advance(s, s', p)
  {
    hide ReplayedUpTo, ChangedAfter, Stored, StoreOk, FlushOp;
    forall at, t | ChangedAfter(Stored(s.store, at), t) ensures ChangedAfter(Stored(s'.store, at), t) {
      FlushReads(s.store, s.procs[p].pc.t, loc, op, s.retention, at);
    }
  }

  lemma FlushKeepsRows(store: Store, t: Time, loc: Loc, op: Op, retention: nat)
    requires RowStore(store) && loc.key.IsRow()
    ensures RowStore(FlushOp(store, t, loc, op, retention))
  {
  }

  lemma StepFlushOne(s: State, p: nat)
    requires Inv(s) && Enabled(s, p, FlushOne)
    ensures Inv(Do(s, p, FlushOne)) && Advance(s, Do(s, p, FlushOne), p)
  {
    hide Faithful, StoreOk, SerialAt, RecordOk, Requested, Validated, ObservedOk, Clear, ReplayedUpTo, ChangedAfter,
         Advance, FlushOp, RowStore, Truncated, Stored;
    var s' := Do(s, p, FlushOne);
    var pr := s.procs[p];
    var w := pr.writes[pr.pc.done];
    assert LocksAt(s, p) && ProcOk(s, p);
    LocksStep(s, s', p);
    FaithfulFlush(s.store, s.log, pr.pc.done, s.retention);
    FlushKeepsRows(s.store, pr.pc.t, w.loc, w.op, s.retention);
    FlushAdvance(s, s', p, w.loc, w.op);
    AdvanceKeeps(s, s', p);
  }

  lemma StepErasePending(s: State, p: nat)
    requires Inv(s) && Enabled(s, p, ErasePending)
    ensures Inv(Do(s, p, ErasePending)) && Advance(s, Do(s, p, ErasePending), p)
  {
    hide Faithful, StoreOk, SerialAt, RecordOk, Requested, Validated, ObservedOk, ReplayedUpTo, ChangedAfter, Stored;
    var s' := Do(s, p, ErasePending);
    assert LocksAt(s, p) && ProcOk(s, p);
    LocksStep(s, s', p);
    assert Advance(s, s', p);
    AdvanceKeeps(s, s', p);
  }

  lemma StepKeeps(s: State, p: nat, a: Action)
    requires Inv(s) && Enabled(s, p, a)
    ensures Inv(Do(s, p, a)) && Advance(s, Do(s, p, a), p)
  {
    hide Inv, Enabled, Do, Advance;
    match a
    case Tick(reading) => StepTick(s, p, reading);
    case BeginSnapshot => StepBeginSnapshot(s, p);
    case CallNow(reading) => StepCallNow(s, p, reading);
    case Await(reading) => StepAwait(s, p, reading);
    case LockManagerMu => StepLockManagerMu(s, p);
    case TestPending => StepTestPending(s, p);
    case StoreSnapshot => StepStoreSnapshot(s, p);
    case BeginRead(request) => StepBeginRead(s, p, request);
    case Enqueue => StepEnqueue(s, p);
    case ScanRows => StepScanRows(s, p);
    case SkipScan => StepSkipScan(s, p);
    case Reset => StepReset(s, p);
    case BeginCommit(writes) => StepBeginCommit(s, p, writes);
    case BeginSchemaChange(writes) => StepBeginSchemaChange(s, p, writes);
    case LockCommitMu => StepLockCommitMu(s, p);
    case Precheck(ok) => StepPrecheck(s, p, ok);
    case LockHandleMu => StepLockHandleMu(s, p);
    case Compare => StepCompare(s, p);
    case InsertPending => StepInsertPending(s, p);
    case UnlockManagerMu => StepUnlockManagerMu(s, p);
    case FlushOne => StepFlushOne(s, p);
    case FinishFlush => StepFinishFlush(s, p);
    case ErasePending => StepErasePending(s, p);
    case UnlockCommitMu => StepUnlockCommitMu(s, p);
    case BeginWait(t) => StepBeginWait(s, p, t);
    case FinishRead => StepFinishRead(s, p);
  }

  lemma {:induction false} RunKeeps(s: State, run: seq<Step>)
    requires Inv(s) && Legal(s, run)
    ensures Inv(After(s, run))
    decreases |run|
  {
    hide Inv, Enabled, Do;
    if run != [] {
      StepKeeps(s, run[0].p, run[0].a);
      RunKeeps(Do(s, run[0].p, run[0].a), run[1..]);
    }
  }
}
