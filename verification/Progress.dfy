/**
 * No deadlock: from every reachable state the operations under way can all be
 * brought to their end, whichever mutexes they hold or wait for.
 */
module Progress {
  import opened Collections
  import opened Keys
  import opened Storage
  import opened Replay
  import opened Locking
  import opened Protocol
  import opened Guarantees

  /** Steps to the end of an operation, a refused wait counted again. */
  function Rank(pr: Proc): nat {
    match pr.pc
    case Idle => 0
    case SnapNow => 7
    case SnapAwait(_) => 6
    case SnapTest(_) => 5
    case SnapAcquire(_) => 4
    case SnapStore(_) => 2
    case ReadEnqueue(_) => 2
    case ReadScan(_) => 1
    case CommitAcquire => |pr.writes| + 12
    case CommitCheck => |pr.writes| + 11
    case CommitValidate => |pr.writes| + 10
    case CommitCompare => |pr.writes| + 9
    case SchemaAcquire => |pr.writes| + 9
    case Reserve => |pr.writes| + 8
    case ReserveNow => |pr.writes| + 7
    case ReserveInsert(_) => |pr.writes| + 6
    case ReserveDone(_) => |pr.writes| + 5
    case Flush(_, done) => if done <= |pr.writes| then |pr.writes| - done + 4 else 4
    case MarkAcquire(_) => 3
    case MarkErase(_) => 2
    case CommitUnlock => 1
    case WaitAwait(_) => 5
    case WaitTest(_) => 4
    case WaitAcquire(_) => 3
    case Safe(_, _) => 1
  }

  function Total(procs: seq<Proc>): nat {
    if procs == [] then 0 else Total(procs[..|procs| - 1]) + Rank(procs[|procs| - 1])
  }

  lemma {:induction false} TotalFalls(procs: seq<Proc>, p: nat, pr: Proc)
    requires p < |procs| && Rank(pr) < Rank(procs[p])
    ensures Total(procs[p := pr]) < Total(procs)
  {
    var front, next := procs[..|procs| - 1], procs[p := pr];
    if p < |procs| - 1 {
      TotalFalls(front, p, pr);
      assert next[..|next| - 1] == front[p := pr];
    } else {
      assert next[..|next| - 1] == front;
    }
  }

  /** The step changes `p` alone and brings it closer to the end of its operation. */
  ghost predicate Closer(s: State, s': State, p: nat) {
    p < |s.procs| == |s'.procs| && s'.procs == s.procs[p := s'.procs[p]] && Rank(s'.procs[p]) < Rank(s.procs[p])
  }

  /** Whoever holds the manager's mutex can take its next step. */
  lemma ManagerHolderSteps(s: State, p: nat) returns (a: Action)
    requires Locks(s) && s.managerMu == Some(p)
    ensures Enabled(s, p, a) && Closer(s, Do(s, p, a), p) && !a.Tick? && !a.Await?
  {
    assert LocksAt(s, p);
    if s.procs[p].pc.SnapTest? || s.procs[p].pc.WaitTest? {
      TestSteps(s, p);
      a := TestPending;
    } else if s.procs[p].pc.ReserveNow? {
      NowSteps(s, p, s.system);
      a := CallNow(s.system);
    } else {
      a := SectionSteps(s, p);
    }
  }

  lemma NowSteps(s: State, p: nat, reading: Time)
    requires p < |s.procs| && s.procs[p].pc.ReserveNow?
    ensures Enabled(s, p, CallNow(reading)) && Closer(s, Do(s, p, CallNow(reading)), p)
  {
  }

  lemma TestSteps(s: State, p: nat)
    requires p < |s.procs| && (s.procs[p].pc.SnapTest? || s.procs[p].pc.WaitTest?)
    ensures Enabled(s, p, TestPending) && Closer(s, Do(s, p, TestPending), p)
  {
    hide Blocked;
  }

  lemma SectionSteps(s: State, p: nat) returns (a: Action)
    requires p < |s.procs|
    requires var pc := s.procs[p].pc; pc.ReserveInsert? || pc.ReserveDone? || pc.MarkErase?
    ensures Enabled(s, p, a) && Closer(s, Do(s, p, a), p) && !a.Tick? && !a.Await?
  {
    hide Latest, FlushOp, Scan, Enqueued, Stale, Blocked, Total;
    match s.procs[p].pc {
      case ReserveInsert(_) => a := InsertPending;
      case ReserveDone(_) => a := UnlockManagerMu;
      case MarkErase(_) => a := ErasePending;
    }
  }

  /** Whoever is in the commit section can take its next step when the manager's mutex is free. */
  lemma CommitHolderSteps(s: State, p: nat) returns (a: Action)
    requires Locks(s) && FlightOk(s) && s.managerMu == None && s.commitMu == Some(p)
    ensures Enabled(s, p, a) && Closer(s, Do(s, p, a), p) && !a.Tick? && !a.Await?
  {
    hide Enabled, Do, Closer;
    assert LocksAt(s, p);
    var pc := s.procs[p].pc;
    if pc.Flush? || pc.MarkAcquire? || pc.CommitUnlock? {
      a := FlushSteps(s, p);
    } else {
      a := ValidateSteps(s, p);
    }
  }

  lemma ValidateSteps(s: State, p: nat) returns (a: Action)
    requires p < |s.procs| && LocksAt(s, p) && s.managerMu == None
    requires var pc := s.procs[p].pc; pc.CommitCheck? || pc.CommitValidate? || pc.CommitCompare? || pc.Reserve?
    ensures Enabled(s, p, a) && Closer(s, Do(s, p, a), p) && !a.Tick? && !a.Await?
  {
    hide Stale, HoldsCommit, HoldsManager, Scan, Enqueued, FlushOp, Latest, Blocked, Total;
    match s.procs[p].pc {
      case CommitCheck => a := Precheck(true);
      case CommitValidate => a := LockHandleMu;
      case CommitCompare => a := Compare;
      case Reserve => a := LockManagerMu;
    }
  }

  lemma FlushSteps(s: State, p: nat) returns (a: Action)
    requires p < |s.procs| && s.managerMu == None
    requires var pc := s.procs[p].pc; pc.Flush? || pc.MarkAcquire? || pc.CommitUnlock?
    requires s.procs[p].pc.Flush? ==> s.procs[p].pc.done <= |s.procs[p].writes|
    ensures Enabled(s, p, a) && Closer(s, Do(s, p, a), p) && !a.Tick? && !a.Await?
  {
    hide FlushOp, Latest, Scan, Enqueued, Stale, Blocked, Total;
    match s.procs[p].pc {
      case Flush(_, done) => a := if done < |s.procs[p].writes| then FlushOne else FinishFlush;
      case MarkAcquire(_) => a := LockManagerMu;
      case CommitUnlock => a := UnlockCommitMu;
    }
  }

  /** Outside the sections an operation can go on when both mutexes are free. */
  lemma FreeSteps(s: State, p: nat) returns (a: Action)
    requires Locks(s) && s.managerMu == None && s.commitMu == None
    requires p < |s.procs| && !s.procs[p].pc.Idle? && !s.procs[p].pc.SnapAcquire? && !s.procs[p].pc.WaitAcquire?
    ensures Enabled(s, p, a) && Closer(s, Do(s, p, a), p)
  {
    hide Scan, Enqueued, FlushOp, Latest, Stale, Blocked, Total;
    assert LocksAt(s, p);
    match s.procs[p].pc {
    case SnapNow => a := CallNow(s.system);
    case SnapAwait(t) => a := Await(t);
    case WaitAwait(t) => a := Await(t);
    case SnapStore(_) => a := StoreSnapshot;
    case ReadEnqueue(_) => a := Enqueue;
    case ReadScan(request) => a := if s.procs[p].snapshot.Some? && request.mode == Shared then ScanRows else SkipScan;
    case CommitAcquire => a := LockCommitMu;
    case SchemaAcquire => a := LockCommitMu;
    case Safe(_, _) => a := FinishRead;
    }
  }

  /** A wait with nothing pending is over after one test. */
  lemma WaitSteps(s: State, p: nat)
    requires p < |s.procs| && (s.procs[p].pc.SnapAcquire? || s.procs[p].pc.WaitAcquire?)
    requires s.managerMu == None && s.pending == {}
    ensures Enabled(s, p, LockManagerMu) && Enabled(Do(s, p, LockManagerMu), p, TestPending)
    ensures Closer(s, Do(Do(s, p, LockManagerMu), p, TestPending), p)
  {
  }

  lemma NextRun(s: State, p: nat) returns (run: seq<Step>, q: nat)
    requires Inv(s) && p < |s.procs| && !s.procs[p].pc.Idle?
    ensures Legal(s, run) && Closer(s, After(s, run), q)
  {
    hide Closer, Enabled, Do, LogOk, DataOk, RecordOk, Requested, Validated, Legal, After;
    q := if s.managerMu.Some? then s.managerMu.value else if s.commitMu.Some? then s.commitMu.value else p;
    var a := LockManagerMu;
    if s.managerMu.Some? {
      a := ManagerHolderSteps(s, q);
    } else if s.commitMu.Some? {
      a := CommitHolderSteps(s, q);
    } else if s.procs[p].pc.SnapAcquire? || s.procs[p].pc.WaitAcquire? {
      WaitSteps(s, p);
    } else {
      a := FreeSteps(s, p);
    }
    OneStep(s, q, a);
    run := [Step(q, a)];
    if s.managerMu == None && s.commitMu == None && (s.procs[p].pc.SnapAcquire? || s.procs[p].pc.WaitAcquire?) {
      OneStep(Do(s, q, a), q, TestPending);
      Joined(s, run, [Step(q, TestPending)]);
      run := run + [Step(q, TestPending)];
    }
  }

  lemma OneStep(s: State, p: nat, a: Action)
    requires Enabled(s, p, a)
    ensures Legal(s, [Step(p, a)]) && After(s, [Step(p, a)]) == Do(s, p, a)
  {
    hide Enabled, Do;
    var run := [Step(p, a)];
    assert run[1..] == [];
    NoSteps(Do(s, p, a));
  }

  lemma {:induction false} Joined(s: State, first: seq<Step>, second: seq<Step>)
    requires Legal(s, first) && Legal(After(s, first), second)
    ensures Legal(s, first + second) && After(s, first + second) == After(After(s, first), second)
    decreases |first|
  {
    hide Enabled, Do;
    if first == [] {
      assert first + second == second;
    } else {
      Joined(Do(s, first[0].p, first[0].a), first[1..], second);
      assert (first + second)[1..] == first[1..] + second;
    }
  }

  /** Every operation under way in a reachable state can be brought to its end: nothing is deadlocked. */
  lemma {:induction false} Drain(s: State) returns (run: seq<Step>)
    requires Inv(s)
    ensures Legal(s, run) && forall p :: 0 <= p < |After(s, run).procs| ==> After(s, run).procs[p].pc.Idle?
    decreases Total(s.procs)
  {
    hide Enabled, Do, Legal, After, Inv, Total, Rank;
    run := [];
    assert Legal(s, run) && After(s, run) == s by { NoSteps(s); }
    if p :| 0 <= p < |s.procs| && !s.procs[p].pc.Idle? {
      var first, q := NextRun(s, p);
      TotalFalls(s.procs, q, After(s, first).procs[q]);
      RunKeeps(s, first);
      var rest := Drain(After(s, first));
      Joined(s, first, rest);
      run := first + rest;
    }
  }

  lemma NoSteps(s: State)
    ensures Legal(s, []) && After(s, []) == s
  {
  }

  lemma NothingDeadlocks(s: State, generation: nat) returns (run: seq<Step>)
    requires Reachable(s, generation)
    ensures Legal(s, run) && forall p :: 0 <= p < |After(s, run).procs| ==> After(s, run).procs[p].pc.Idle?
  {
    hide Reachable, Legal, After;
    ReachableInv(s, generation);
    run := Drain(s);
  }
}
