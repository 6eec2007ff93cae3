/**
 * What a transaction's calls say it read and wrote, against what the commit protocol logs
 * and stores for it (backend/locking/handle.cc, backend/transaction/read_write_transaction.cc).
 */
module Transactions {
  import opened Collections
  import opened Keys
  import opened KeyRanges
  import opened Storage
  import opened Replay
  import opened Locking
  import opened Protocol
  import opened Guarantees
  import Clocks

  /**
   * The calls of one process since its handle was last reset: the read it is making, what
   * it requested and saw, the writes of its commit, the time the clock gave it last, the
   * snapshot, and the time it waits for.
   */
  datatype Client = Client(
    reading: Option<LockRequest>,
    requests: seq<LockRequest>,
    scanned: seq<ReadRecord>,
    writes: seq<Mutation>,
    dispensed: Option<Time>,
    snapshot: Option<Time>,
    awaited: Option<Time>)

  const NEW := Client(None, [], [], [], None, None, None)

  /** A commit after the snapshot left a version of a row of a range requested. */
  ghost predicate Contended(s: State, c: Client) {
    c.snapshot.Some? &&
    exists i, loc ::
      0 <= i < |s.log| && s.log[i].ts > c.snapshot.value && Wrote(s.log, i, loc) && Scanned(c.requests, loc)
  }

  /** A step of the process, seen from its caller: an abort and the end of a commit reset the handle. */
  ghost function Noted(s: State, c: Client, a: Action): Client {
    match a
    case CallNow(reading) => c.(dispensed := Some(Clocks.Next(s.clock, reading)))
    case StoreSnapshot => c.(snapshot := c.dispensed)
    case BeginRead(request) => c.(reading := Some(request))
    case Enqueue => if c.reading.Some? then c.(requests := c.requests + [c.reading.value]) else c
    case ScanRows =>
      if c.reading.Some? && c.snapshot.Some? then
        var table, range := c.reading.value.table, c.reading.value.range.ToClosedOpen();
        c.(scanned := c.scanned + [ReadRecord(table, range, Scan(s.store, c.snapshot.value, table, range))])
      else c
    case BeginCommit(writes) => c.(writes := writes)
    case BeginSchemaChange(writes) => c.(writes := writes)
    case BeginWait(t) => c.(awaited := Some(t))
    case Precheck(ok) => if ok then c else NEW
    case Compare => if Contended(s, c) then NEW else c
    case Reset => NEW
    case UnlockCommitMu => NEW
    case _ => c
  }

  /** The calls of `p` in a run. */
  ghost function Calls(s: State, run: seq<Step>, p: nat, c: Client): Client
    requires Legal(s, run)
    decreases |run|
  {
    if run == [] then c
    else Calls(Do(s, run[0].p, run[0].a), run[1..], p, if run[0].p == p then Noted(s, c, run[0].a) else c)
  }

  /** Where the process stands agrees with its calls. */
  ghost predicate PcAgrees(c: Client, pr: Proc) {
    match pr.pc
    case SnapAwait(t) => c.dispensed == Some(t)
    case SnapAcquire(t) => c.dispensed == Some(t)
    case SnapTest(t) => c.dispensed == Some(t)
    case SnapStore(t) => c.dispensed == Some(t)
    case ReadEnqueue(request) => c.reading == Some(request)
    case ReadScan(request) => c.reading == Some(request)
    case CommitAcquire => pr.writes == c.writes
    case CommitCheck => pr.writes == c.writes
    case CommitValidate => pr.writes == c.writes
    case CommitCompare => pr.writes == c.writes
    case SchemaAcquire => pr.writes == c.writes
    case Reserve => pr.writes == c.writes
    case ReserveNow => pr.writes == c.writes
    case ReserveInsert(t) => pr.writes == c.writes && c.dispensed == Some(t)
    case WaitAwait(t) => c.awaited == Some(t)
    case WaitAcquire(t) => c.awaited == Some(t)
    case WaitTest(t) => c.awaited == Some(t)
    case Safe(t, _) => c.awaited == Some(t)
    case _ => true
  }

  /** Whoever is flushing or through has logged what its calls say. */
  ghost predicate LogAgrees(c: Client, s: State, p: nat)
    requires p < |s.procs|
  {
    InFlight(s.procs[p].pc) || s.procs[p].pc.CommitUnlock? ==>
      && c.dispensed.Some? && s.log != []
      && s.log[|s.log| - 1] == Commit(c.dispensed.value, c.writes, c.scanned)
  }

  ghost predicate Agrees(c: Client, s: State, p: nat) {
    && p < |s.procs|
    && s.procs[p].snapshot == c.snapshot && s.procs[p].requests == c.requests && s.procs[p].observed == c.scanned
    && PcAgrees(c, s.procs[p]) && LogAgrees(c, s, p)
  }

  /** Times: snapshots and waits, and the clock. */
  lemma OwnTimes(s: State, p: nat, c: Client, a: Action)
    requires Agrees(c, s, p) && Enabled(s, p, a)
    requires a.Tick? || a.BeginSnapshot? || a.CallNow? || a.Await? || a.LockManagerMu? || a.TestPending? ||
             a.StoreSnapshot? || a.BeginWait? || a.FinishRead?
    ensures Agrees(Noted(s, c, a), Do(s, p, a), p)
  {
    hide Blocked, Stale, FlushOp, Scan, Enqueued, Latest, HoldsHandle, HoldsManager, HoldsCommit, Contended;
  }

  /** Calls: reads, and the start of a commit. */
  lemma OwnCalls(s: State, p: nat, c: Client, a: Action)
    requires Agrees(c, s, p) && Enabled(s, p, a)
    requires a.BeginRead? || a.Enqueue? || a.ScanRows? || a.SkipScan? || a.Reset? || a.BeginCommit? ||
             a.BeginSchemaChange?
    ensures Agrees(Noted(s, c, a), Do(s, p, a), p)
  {
    hide Blocked, Stale, FlushOp, Scan, Enqueued, Latest, HoldsHandle, HoldsManager, HoldsCommit, Contended;
  }

  /** The commit section, until the timestamp is reserved. */
  lemma OwnReserve(s: State, p: nat, c: Client, a: Action)
    requires Agrees(c, s, p) && Enabled(s, p, a)
    requires a.LockCommitMu? || a.Precheck? || a.LockHandleMu? || a.InsertPending? || a.UnlockManagerMu?
    ensures Agrees(Noted(s, c, a), Do(s, p, a), p)
  {
    hide Blocked, Stale, FlushOp, Scan, Enqueued, Latest, HoldsHandle, HoldsManager, HoldsCommit, Contended;
  }

  /** The flush, and the end of the commit section. */
  lemma OwnFlush(s: State, p: nat, c: Client, a: Action)
    requires Agrees(c, s, p) && Enabled(s, p, a)
    requires a.FlushOne? || a.FinishFlush? || a.ErasePending? || a.UnlockCommitMu?
    ensures Agrees(Noted(s, c, a), Do(s, p, a), p)
  {
    hide Blocked, Stale, FlushOp, Scan, Enqueued, Latest, HoldsHandle, HoldsManager, HoldsCommit, Contended;
  }

  lemma CompareStep(s: State, generation: nat, p: nat, c: Client)
    requires Reachable(s, generation) && Agrees(c, s, p) && Enabled(s, p, Compare)
    ensures Agrees(Noted(s, c, Compare), Do(s, p, Compare), p)
  {
    hide Reachable, Stale, Scanned, Wrote;
    AbortsAreExact(s, generation, p);
    assert Conflict(s, s.procs[p]) <==> Contended(s, c);
  }

  /** While a process is flushing or through, nobody else logs. */
  lemma OtherStep(s: State, s': State, p: nat, c: Client, q: nat)
    requires Locks(s) && Agrees(c, s, p) && Advance(s, s', q) && q != p
    ensures Agrees(c, s', p)
  {
    hide Clear, ReplayedUpTo, ChangedAfter, Stored, PcAgrees, HoldsManager, HoldsHandle;
    assert LocksAt(s, p) && LocksAt(s, q);
  }

  lemma {:induction false} RunAgrees(s: State, generation: nat, run: seq<Step>, p: nat, c: Client)
    requires Reachable(s, generation) && Agrees(c, s, p) && Legal(s, run)
    ensures Agrees(Calls(s, run, p, c), After(s, run), p)
    decreases |run|
  {
    hide Reachable, Agrees, Enabled, Do, Noted, Clear, ReplayedUpTo, ChangedAfter;
    if run != [] {
      var q, a, s' := run[0].p, run[0].a, Do(s, run[0].p, run[0].a);
      var c' := if q == p then Noted(s, c, a) else c;
      ReachableInv(s, generation);
      StepKeeps(s, q, a);
      InvLocksOf(s);
      if q != p {
        OtherStep(s, s', p, c, q);
      } else if a.Compare? {
        CompareStep(s, generation, p, c);
      } else {
        OwnStep(s, p, c, a);
      }
      StaysReachable(s, generation, q, a);
      RunAgrees(s', generation, run[1..], p, c');
    }
  }

  lemma OwnStep(s: State, p: nat, c: Client, a: Action)
    requires Agrees(c, s, p) && Enabled(s, p, a) && !a.Compare?
    ensures Agrees(Noted(s, c, a), Do(s, p, a), p)
  {
    hide Agrees, Enabled, Do, Noted;
    if a.LockCommitMu? || a.Precheck? || a.LockHandleMu? || a.InsertPending? || a.UnlockManagerMu? {
      OwnReserve(s, p, c, a);
    } else if a.FlushOne? || a.FinishFlush? || a.ErasePending? || a.UnlockCommitMu? {
      OwnFlush(s, p, c, a);
    } else if a.BeginRead? || a.Enqueue? || a.ScanRows? || a.SkipScan? || a.Reset? || a.BeginCommit? ||
              a.BeginSchemaChange? {
      OwnCalls(s, p, c, a);
    } else {
      OwnTimes(s, p, c, a);
    }
  }

  lemma InvLocksOf(s: State)
    requires Inv(s)
    ensures Locks(s)
  {
  }

  lemma StaysReachable(s: State, generation: nat, p: nat, a: Action)
    requires Reachable(s, generation) && Enabled(s, p, a)
    ensures Reachable(Do(s, p, a), generation)
  {
    hide Enabled, Do, Origin;
    var s0, run :| Origin(s0, generation) && Legal(s0, run) && s == After(s0, run);
    OneMore(s0, run, p, a);
  }

  lemma {:induction false} OneMore(s: State, run: seq<Step>, p: nat, a: Action)
    requires Legal(s, run) && Enabled(After(s, run), p, a)
    ensures Legal(s, run + [Step(p, a)]) && After(s, run + [Step(p, a)]) == Do(After(s, run), p, a)
    decreases |run|
  {
    hide Enabled, Do;
    var last := [Step(p, a)];
    if run == [] {
      assert run + last == last && last[1..] == [];
    } else {
      OneMore(Do(s, run[0].p, run[0].a), run[1..], p, a);
      assert (run + last)[1..] == run[1..] + last;
    }
  }

  lemma OriginReachable(s0: State, generation: nat, p: nat)
    requires Origin(s0, generation) && p < |s0.procs|
    ensures Reachable(s0, generation) && Agrees(NEW, s0, p)
  {
    hide Seeds, Copied;
    assert Legal(s0, []) && After(s0, []) == s0;
    assert s0.procs[p] == FRESH;
  }

  /**
   * From any start and in every run, at the moment a process logs its commit: the entry has
   * the time the clock gave it, the writes it called commit with, and the scans it made, in
   * order, each as the store was then at its snapshot, which is the time the clock gave it
   * first. Once it is through, every row reads at that time as its writes leave what the
   * commits before it left.
   */
  lemma LoggedAsCalled(s0: State, generation: nat, run: seq<Step>, p: nat)
    requires Origin(s0, generation) && p < |s0.procs| && Legal(s0, run)
    ensures var s, c := After(s0, run), Calls(s0, run, p, NEW);
      && p < |s.procs| && s.procs[p].snapshot == c.snapshot
      && (Enabled(s, p, InsertPending) ==>
            c.dispensed.Some? &&
            Do(s, p, InsertPending).log == s.log + [Commit(c.dispensed.value, c.writes, c.scanned)])
      && (s.procs[p].pc.CommitUnlock? ==>
            c.dispensed.Some? && s.log != [] &&
            forall loc :: ReadAt(s.store, loc, c.dispensed.value) ==
                          Lookup(ApplyAll(Replayed(s.log[..|s.log| - 1]), c.writes), loc))
      && (s.procs[p].pc.Safe? ==> c.awaited == Some(s.procs[p].pc.t))
  {
    hide Legal, After, Calls, Reachable, Origin, Inv, ReadAt, ApplyAll;
    OriginReachable(s0, generation, p);
    RunAgrees(s0, generation, run, p, NEW);
    var s, c := After(s0, run), Calls(s0, run, p, NEW);
    OriginInv(s0, generation);
    RunKeeps(s0, run);
    if s.procs[p].pc.CommitUnlock? {
      ThroughReads(s, p, c);
    }
  }

  lemma ThroughReads(s: State, p: nat, c: Client)
    requires Inv(s) && Agrees(c, s, p) && s.procs[p].pc.CommitUnlock?
    ensures c.dispensed.Some? && s.log != []
    ensures forall loc :: ReadAt(s.store, loc, c.dispensed.value) ==
                          Lookup(ApplyAll(Replayed(s.log[..|s.log| - 1]), c.writes), loc)
  {
    hide ReadAt, ApplyAll, ChangedAfter, WrittenAfter, StoreOk, SerialAt, ProcOk, ReplayedUpTo;
    assert LocksAt(s, p);
    var t := c.dispensed.value;
    assert FlushedLog(s) == s.log;
    forall loc ensures ReadAt(s.store, loc, t) == Lookup(ApplyAll(Replayed(s.log[..|s.log| - 1]), c.writes), loc) {
      assert FaithfulAt(s.store, s.log, Horizon(s), loc, t);
      ReplayedAll(s.log, t);
    }
  }
}
