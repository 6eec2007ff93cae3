/**
 * Until when the state at a time can still change: exactly what WaitForSafeRead promises
 * about times the clock has dispensed, and about those it has not (backend/locking/manager.cc).
 */
module Finality {
  import opened Collections
  import opened Keys
  import opened Storage
  import opened Replay
  import opened Locking
  import opened Protocol
  import opened Guarantees
  import opened Progress
  import Clocks

  /** The readings of the system clock in the run start at `low` or later and never go back. */
  ghost predicate Steady(low: Time, run: seq<Step>)
    decreases |run|
  {
    run != [] ==>
      match run[0].a
      case Tick(reading) => low <= reading && Steady(reading, run[1..])
      case CallNow(reading) => low <= reading && Steady(reading, run[1..])
      case Await(reading) => low <= reading && Steady(reading, run[1..])
      case _ => Steady(low, run[1..])
  }

  /**
   * No commit can still get a timestamp at or before `t`, whatever runs from `s`; or whatever runs
   * without the system clock going back.
   */
  ghost predicate Closed(s: State, t: Time) {
    forall run :: Legal(s, run) ==> forall i :: |s.log| <= i < |After(s, run).log| ==> After(s, run).log[i].ts > t
  }

  ghost predicate ClosedSteadily(s: State, t: Time) {
    forall run :: Legal(s, run) && Steady(s.system, run) ==>
      forall i :: |s.log| <= i < |After(s, run).log| ==> After(s, run).log[i].ts > t
  }

  /** Whatever runs from `s`, the state at `t` stays as it is for as long as versions that old are kept. */
  ghost predicate Final(s: State, t: Time) {
    forall run, loc: Loc :: Legal(s, run) && Horizon(After(s, run)) <= t ==>
      ReadAt(After(s, run).store, loc, t) == ReadAt(s.store, loc, t)
  }

  ghost predicate FinalSteadily(s: State, t: Time) {
    forall run, loc: Loc :: Legal(s, run) && Steady(s.system, run) && Horizon(After(s, run)) <= t ==>
      ReadAt(After(s, run).store, loc, t) == ReadAt(s.store, loc, t)
  }

  /** The wait for pending commits returns only where it is unblocked. */
  lemma WaitReturnsUnblocked(s: State, generation: nat, p: nat)
    requires Reachable(s, generation) && Enabled(s, p, TestPending)
    requires var pc := Do(s, p, TestPending).procs[p].pc; pc.SnapStore? || pc.Safe?
    ensures Unblocked(Do(s, p, TestPending), s.procs[p].pc.t)
  {
    hide Reachable, Unblocked, Blocked, FlightOk, LogOk, DataOk, ProcOk;
    ReachableInv(s, generation);
    assert LocksAt(s, p);
    var s' := Do(s, p, TestPending);
    assert Owner(s') == Owner(s);
    TestedIsUnblocked(s, s', p, s.procs[p].pc.t);
  }

  // What steady readings leave as it is.

  /** Unblocked, and no commit can still get a timestamp at or before `t` if the system clock does not go back. */
  ghost predicate Past(s: State, t: Time) {
    Unblocked(s, t) && (t <= s.clock || t < s.system)
  }

  /** Beyond the clock an unblocked state has no commit in flight. */
  lemma NothingInFlight(s: State, t: Time)
    requires Inv(s) && Unblocked(s, t) && t > s.clock
    ensures s.pending == {} && !InFlight(Owner(s)) && !Owner(s).ReserveInsert?
  {
    hide DataOk, ProcOk, LocksAt, SerialAt;
  }

  lemma QuietPast(s: State, p: nat, a: Action, t: Time)
    requires Locks(s) && Enabled(s, p, a) && t < s.system
    requires s.clock < t && s.pending == {} && !InFlight(Owner(s)) && !Owner(s).ReserveInsert?
    requires Steady(s.system, [Step(p, a)])
    ensures var s' := Do(s, p, a); s'.log == s.log && Past(s', t)
  {
    hide Blocked, Stale, FlushOp, Scan, Enqueued, Latest, HoldsManager, HoldsHandle;
    assert LocksAt(s, p);
  }

  lemma PastStep(s: State, p: nat, a: Action, t: Time)
    requires Inv(s) && Enabled(s, p, a) && Past(s, t) && Steady(s.system, [Step(p, a)])
    ensures var s' := Do(s, p, a);
      && Inv(s') && Past(s', t) && ReplayedUpTo(s'.log, t) == ReplayedUpTo(s.log, t)
      && s.log <= s'.log && (forall i :: |s.log| <= i < |s'.log| ==> s'.log[i].ts > t)
      && s'.retention == s.retention
  {
    hide Enabled, Do, Unblocked, ReplayedUpTo, LogOk, DataOk, ProcOk, FlightOk, Steady, ChangedAfter, LocksAt;
    StepKeeps(s, p, a);
    if t > s.clock {
      NothingInFlight(s, t);
      QuietPast(s, p, a, t);
    } else {
      assert Clear(s, t) && Clear(Do(s, p, a), t);
    }
  }

  lemma {:induction false} PastForever(s: State, run: seq<Step>, t: Time)
    requires Inv(s) && Past(s, t) && Legal(s, run) && Steady(s.system, run)
    ensures var s' := After(s, run);
      && Inv(s') && Past(s', t) && ReplayedUpTo(s'.log, t) == ReplayedUpTo(s.log, t)
      && s.log <= s'.log && (forall i :: |s.log| <= i < |s'.log| ==> s'.log[i].ts > t)
      && s'.retention == s.retention
    decreases |run|
  {
    hide Inv, Past, Enabled, Do, ReplayedUpTo;
    if run != [] {
      var p, a := run[0].p, run[0].a;
      SteadyStep(s, p, a, run[1..]);
      PastStep(s, p, a, t);
      PastForever(Do(s, p, a), run[1..], t);
    }
  }

  /** A reading is what the next one starts from. */
  lemma SteadyStep(s: State, p: nat, a: Action, rest: seq<Step>)
    requires Enabled(s, p, a)
    ensures Steady(s.system, [Step(p, a)] + rest) <==>
            Steady(s.system, [Step(p, a)]) && Steady(Do(s, p, a).system, rest)
  {
    hide Blocked, Stale, FlushOp, Scan, Enqueued, Latest;
    var run := [Step(p, a)];
    assert run[1..] == [] && (run + rest)[1..] == rest;
  }

  // What can still be made to happen at a time that is not past.

  /** A commit that will not abort has yet to call Now. */
  ghost predicate Owes(s: State) {
    s.commitMu.Some? && s.commitMu.value < |s.procs| &&
    var pr := s.procs[s.commitMu.value];
    || pr.pc.Reserve? || pr.pc.ReserveNow?
    || ((pr.pc.CommitValidate? || pr.pc.CommitCompare?) && !Stale(pr.readSet, pr.snapshot, s.store))
  }

  lemma TesterKeeps(s: State, q: nat, a: Action)
    requires Locks(s) && s.managerMu == Some(q) && s.commitMu != Some(q)
    requires Enabled(s, q, a) && !a.Tick? && !a.Await?
    ensures !a.CallNow? && (HoldsManager(s.procs[q].pc) || HoldsCommit(s.procs[q].pc))
    ensures !Owner(s).ReserveInsert? ==> Do(s, q, a).log == s.log
    ensures Do(s, q, a).clock == s.clock
    ensures !Owner(s).CommitCheck? && Owes(Do(s, q, a)) ==> Owes(s)
  {
    hide Blocked, Stale, FlushOp, Scan, Enqueued, Latest, HoldsHandle;
    assert LocksAt(s, q);
    assert s.procs[q].pc.SnapTest? || s.procs[q].pc.WaitTest?;
    assert a.TestPending?;
  }

  lemma OwnerKeeps(s: State, q: nat, a: Action)
    requires Locks(s) && s.commitMu == Some(q) && !Owner(s).ReserveNow?
    requires Enabled(s, q, a) && !a.Tick? && !a.Await?
    ensures !a.CallNow? && (HoldsManager(s.procs[q].pc) || HoldsCommit(s.procs[q].pc))
    ensures !Owner(s).ReserveInsert? ==> Do(s, q, a).log == s.log
    ensures Do(s, q, a).clock == s.clock
    ensures !Owner(s).CommitCheck? && Owes(Do(s, q, a)) ==> Owes(s)
  {
    hide Blocked, Stale, FlushOp, Scan, Enqueued, Latest, HoldsHandle, HoldsManager;
    assert LocksAt(s, q);
  }

  lemma HolderKeeps(s: State, q: nat, a: Action)
    requires Locks(s) && (s.managerMu == Some(q) || s.commitMu == Some(q)) && !Owner(s).ReserveNow?
    requires Enabled(s, q, a) && !a.Tick? && !a.Await?
    ensures !a.CallNow? && (HoldsManager(s.procs[q].pc) || HoldsCommit(s.procs[q].pc))
    ensures !Owner(s).ReserveInsert? ==> Do(s, q, a).log == s.log
    ensures Do(s, q, a).clock == s.clock
    ensures !Owner(s).CommitCheck? && Owes(Do(s, q, a)) ==> Owes(s)
  {
    hide Enabled, Do, Owes, LocksAt;
    if s.commitMu == Some(q) {
      OwnerKeeps(s, q, a);
    } else {
      TesterKeeps(s, q, a);
    }
  }

  /** A mutex is held: its holder can go on, and a step that reserves nothing changes neither log nor clocks. */
  lemma HolderSteps(s: State) returns (q: nat, a: Action)
    requires Inv(s) && (s.managerMu.Some? || s.commitMu.Some?) && !Owner(s).ReserveNow?
    ensures Enabled(s, q, a) && Closer(s, Do(s, q, a), q) && !a.Tick? && !a.Await? && !a.CallNow?
    ensures HoldsManager(s.procs[q].pc) || HoldsCommit(s.procs[q].pc)
    ensures !Owner(s).ReserveInsert? ==> Do(s, q, a).log == s.log
    ensures Do(s, q, a).clock == s.clock
    ensures !Owner(s).CommitCheck? && Owes(Do(s, q, a)) ==> Owes(s)
  {
    hide Closer, Enabled, Do, FlightOk, LogOk, DataOk, ProcOk, LocksAt, Owes;
    if s.managerMu.Some? {
      q := s.managerMu.value;
      a := ManagerHolderSteps(s, q);
    } else {
      q := s.commitMu.value;
      a := CommitHolderSteps(s, q);
    }
    HolderKeeps(s, q, a);
  }

  /** Some run with readings from `low` on ends with this store and log. */
  ghost predicate Ends(s: State, low: Time, store: Store, log: seq<Commit>) {
    exists run :: Legal(s, run) && Steady(low, run) && After(s, run).store == store && After(s, run).log == log
  }

  lemma EndsAfter(s: State, p: nat, a: Action, low: Time, store: Store, log: seq<Commit>)
    requires Enabled(s, p, a) && !a.Tick? && !a.Await? && (a.CallNow? ==> low <= a.reading)
    requires Ends(Do(s, p, a), if a.CallNow? then a.reading else low, store, log)
    ensures Ends(s, low, store, log)
  {
    hide Enabled, Do, Legal, After;
    var s', next := Do(s, p, a), if a.CallNow? then a.reading else low;
    var run :| Legal(s', run) && Steady(next, run) && After(s', run).store == store && After(s', run).log == log;
    OneStep(s, p, a);
    var first := [Step(p, a)];
    Joined(s, first, run);
    assert (first + run)[1..] == run;
  }

  lemma FromFlush(s: State, p: nat, low: Time, t: Time, w: Mutation)
    requires p < |s.procs| && s.procs[p].pc == Flush(t, 0) && s.procs[p].writes == [w]
    ensures Ends(s, low, FlushOp(s.store, t, w.loc, w.op, s.retention), s.log)
  {
    hide FlushOp, Legal, After;
    OneStep(s, p, FlushOne);
    var run := [Step(p, FlushOne)];
    assert Steady(low, run);
    assert After(s, run).store == FlushOp(s.store, t, w.loc, w.op, s.retention);
  }

  lemma FromReserveInsert(s: State, p: nat, low: Time, t: Time, w: Mutation)
    requires p < |s.procs| && s.procs[p].pc == ReserveInsert(t) && s.procs[p].writes == [w] && s.procs[p].observed == []
    ensures Ends(s, low, FlushOp(s.store, t, w.loc, w.op, s.retention), s.log + [Commit(t, [w], [])])
  {
    hide Ends, FlushOp;
    var s1 := Do(s, p, InsertPending);
    var s2 := Do(s1, p, UnlockManagerMu);
    FromFlush(s2, p, low, t, w);
    EndsAfter(s1, p, UnlockManagerMu, low, FlushOp(s.store, t, w.loc, w.op, s.retention), s1.log);
    EndsAfter(s, p, InsertPending, low, FlushOp(s.store, t, w.loc, w.op, s.retention), s1.log);
  }

  lemma FromReserve(s: State, p: nat, low: Time, t: Time, w: Mutation)
    requires p < |s.procs| && s.procs[p].pc == Reserve && s.procs[p].writes == [w] && s.procs[p].observed == []
    requires low <= t && t > s.clock && s.managerMu == None
    ensures Ends(s, low, FlushOp(s.store, t, w.loc, w.op, s.retention), s.log + [Commit(t, [w], [])])
  {
    hide Ends, FlushOp;
    var store, log := FlushOp(s.store, t, w.loc, w.op, s.retention), s.log + [Commit(t, [w], [])];
    var s1 := Do(s, p, LockManagerMu);
    FromReserveInsert(Do(s1, p, CallNow(t)), p, t, t, w);
    EndsAfter(s1, p, CallNow(t), low, store, log);
    EndsAfter(s, p, LockManagerMu, low, store, log);
  }

  lemma FromFresh(s: State, p: nat, low: Time, t: Time, w: Mutation)
    requires p < |s.procs| && s.procs[p] == FRESH && w.loc.key.IsRow() && low <= t && t > s.clock
    requires s.managerMu == None && s.commitMu == None
    ensures Ends(s, low, FlushOp(s.store, t, w.loc, w.op, s.retention), s.log + [Commit(t, [w], [])])
  {
    hide Ends, FlushOp;
    var store, log := FlushOp(s.store, t, w.loc, w.op, s.retention), s.log + [Commit(t, [w], [])];
    var s1 := Do(s, p, BeginSchemaChange([w]));
    FromReserve(Do(s1, p, LockCommitMu), p, low, t, w);
    EndsAfter(s1, p, LockCommitMu, low, store, log);
    EndsAfter(s, p, BeginSchemaChange([w]), low, store, log);
  }

  /** With both mutexes free, a process that has just waited can commit any write at any later time. */
  lemma FromSafe(s: State, p: nat, low: Time, t: Time, w: Mutation)
    requires p < |s.procs| && s.procs[p].pc.Safe? && s.procs[p].handleMu == None && w.loc.key.IsRow()
    requires low <= t && t > s.clock && s.managerMu == None && s.commitMu == None
    ensures Ends(s, low, FlushOp(s.store, t, w.loc, w.op, s.retention), s.log + [Commit(t, [w], [])])
  {
    hide Ends, FlushOp;
    var store, log := FlushOp(s.store, t, w.loc, w.op, s.retention), s.log + [Commit(t, [w], [])];
    var s1 := Do(s, p, FinishRead);
    FromFresh(Do(s1, p, Reset), p, low, t, w);
    EndsAfter(s1, p, Reset, low, store, log);
    EndsAfter(s, p, FinishRead, low, store, log);
  }

  /** A commit can still get a timestamp at or before `t`, the one under way or a new one. */
  lemma {:induction false} Lands(s: State, p: nat, low: Time, t: Time) returns (store: Store, log: seq<Commit>)
    requires Inv(s) && p < |s.procs| && s.procs[p].pc.Safe? && low <= t && t > s.clock
    ensures Ends(s, low, store, log) && s.log < log && log[|s.log|].ts <= t
    decreases Total(s.procs)
  {
    hide Ends, FlushOp, Do, Total, Progress.Rank, DataOk, ProcOk, SerialAt, Enabled;
    var pc := Owner(s);
    if pc.ReserveInsert? || pc.ReserveNow? {
      store, log := LandsNow(s, s.commitMu.value, low, t);
    } else if s.managerMu.Some? || s.commitMu.Some? {
      var q, a := HolderSteps(s);
      var s' := Do(s, q, a);
      TotalFalls(s.procs, q, s'.procs[q]);
      StepKeeps(s, q, a);
      store, log := Lands(s', p, low, t);
      EndsAfter(s, q, a, low, store, log);
    } else {
      var w := Mutation(Loc(0, EMPTY), Delete);
      assert LocksAt(s, p);
      FromSafe(s, p, low, t, w);
      store, log := FlushOp(s.store, t, w.loc, w.op, s.retention), s.log + [Commit(t, [w], [])];
    }
  }

  lemma LandsNow(s: State, q: nat, low: Time, t: Time) returns (store: Store, log: seq<Commit>)
    requires FlightOk(s) && q < |s.procs| && Owner(s) == s.procs[q].pc && low <= t && t > s.clock
    requires s.procs[q].pc.ReserveInsert? || s.procs[q].pc.ReserveNow?
    ensures Ends(s, low, store, log) && s.log < log && log[|s.log|].ts <= t
  {
    hide Ends;
    var s1 := if s.procs[q].pc.ReserveNow? then Do(s, q, CallNow(t)) else s;
    var pr := s1.procs[q];
    store, log := s.store, s.log + [Commit(pr.pc.t, pr.writes, pr.observed)];
    EndsHere(Do(s1, q, InsertPending), low);
    EndsHere(Do(s1, q, InsertPending), t);
    EndsAfter(s1, q, InsertPending, low, store, log);
    EndsAfter(s1, q, InsertPending, t, store, log);
    if s.procs[q].pc.ReserveNow? {
      EndsAfter(s, q, CallNow(t), low, store, log);
    }
  }

  lemma EndsHere(s: State, low: Time)
    ensures Ends(s, low, s.store, s.log)
  {
    NoSteps(s);
    var run: seq<Step> := [];
    assert Legal(s, run) && Steady(low, run) && After(s, run) == s;
  }

  /** What a row reads at `t` can still be made different from `was`. */
  lemma {:induction false} Changes(s: State, p: nat, low: Time, t: Time, loc: Loc, was: Option<Data>)
    returns (store: Store, log: seq<Commit>)
    requires Inv(s) && p < |s.procs| && s.procs[p].pc.Safe? && low <= t && t > s.clock && loc.key.IsRow()
    requires Owes(s) ==> Clocks.Next(s.clock, low) < t
    ensures Ends(s, low, store, log) && log != [] && log[|log| - 1].ts <= t && ReadAt(store, loc, t) != was
    decreases Total(s.procs)
  {
    hide Ends, FlushOp, Do, Total, Progress.Rank, ProcOk, SerialAt, Enabled, ReadAt, Faithful, StoreOk, Owes;
    if s.managerMu.Some? || s.commitMu.Some? {
      var q, a := DrainStep(s, low);
      var s' := Do(s, q, a);
      TotalFalls(s.procs, q, s'.procs[q]);
      StepKeeps(s, q, a);
      store, log := Changes(s', p, low, t, loc, was);
      EndsAfter(s, q, a, low, store, log);
    } else {
      var w := Mutation(loc, if was.Some? then Delete else Write([]));
      assert LocksAt(s, p);
      FromSafe(s, p, low, t, w);
      StoreOkFrom(s, t);
      FlushReads(s.store, t, loc, w.op, s.retention, loc);
      store, log := FlushOp(s.store, t, w.loc, w.op, s.retention), s.log + [Commit(t, [w], [])];
    }
  }

  lemma DrainStep(s: State, low: Time) returns (q: nat, a: Action)
    requires Inv(s) && (s.managerMu.Some? || s.commitMu.Some?)
    ensures Enabled(s, q, a) && Closer(s, Do(s, q, a), q) && !a.Tick? && !a.Await? && (a.CallNow? ==> a.reading == low)
    ensures HoldsManager(s.procs[q].pc) || HoldsCommit(s.procs[q].pc)
    ensures Do(s, q, a).clock == s.clock || (Do(s, q, a).clock == Clocks.Next(s.clock, low) && Owes(s))
    ensures Owes(Do(s, q, a)) ==> Owes(s) && Do(s, q, a).clock == s.clock
  {
    hide Inv, Closer, Stale;
    assert Locks(s) by { InvLocks(s); }
    if Owner(s).ReserveNow? {
      q, a := s.commitMu.value, CallNow(low);
      NowSteps(s, q, low);
    } else if Owner(s).CommitCheck? {
      q, a := s.commitMu.value, Precheck(false);
      AbortSteps(s, q);
    } else {
      q, a := HolderSteps(s);
    }
  }

  lemma AbortSteps(s: State, p: nat)
    requires p < |s.procs| && s.procs[p].pc.CommitCheck?
    ensures Enabled(s, p, Precheck(false)) && Closer(s, Do(s, p, Precheck(false)), p)
  {
  }

  lemma InvLocks(s: State)
    requires Inv(s)
    ensures Locks(s)
  {
  }

  lemma StoreOkFrom(s: State, t: Time)
    requires DataOk(s) && LogUntil(s.log, s.clock) && t > s.clock
    ensures StoreOk(s.store, t)
  {
    hide Faithful, RowOk;
    if s.log != [] {
      forall loc | loc in s.store ensures RowOk(s.store[loc], t) {
        RowOkLater(s.store[loc], s.log[|s.log| - 1].ts, t);
      }
    }
  }

  // When the next timestamp is taken already.

  /** However many of the writes under way are flushed at `t`, every row reads there as before. */
  ghost predicate Silent(s: State, t: Time) {
    forall n, loc: Loc :: 0 <= n <= |OwnerWrites(s)| ==>
      ReadAt(Flushed(s.store, t, OwnerWrites(s)[..n], s.retention), loc, t) == ReadAt(s.store, loc, t)
  }

  /** The first `n` writes are flushed. */
  lemma FlushSome(s: State, q: nat, low: Time, t: Time, n: nat)
    requires q < |s.procs| && s.procs[q].pc == Flush(t, 0) && n <= |s.procs[q].writes|
    ensures Ends(s, low, Flushed(s.store, t, s.procs[q].writes[..n], s.retention), s.log)
  {
    FlushRest(s, q, low, t, s.store, n);
  }

  lemma {:induction false} FlushRest(s: State, q: nat, low: Time, t: Time, store: Store, n: nat)
    requires q < |s.procs| && s.procs[q].pc.Flush? && s.procs[q].pc.t == t
    requires s.procs[q].pc.done <= n <= |s.procs[q].writes|
    requires s.store == Flushed(store, t, s.procs[q].writes[..s.procs[q].pc.done], s.retention)
    ensures Ends(s, low, Flushed(store, t, s.procs[q].writes[..n], s.retention), s.log)
    decreases n - s.procs[q].pc.done
  {
    hide Ends, FlushOp;
    var pr := s.procs[q];
    if pr.pc.done == n {
      EndsHere(s, low);
    } else {
      var s' := Do(s, q, FlushOne);
      assert pr.writes[..pr.pc.done + 1][..pr.pc.done] == pr.writes[..pr.pc.done];
      FlushRest(s', q, low, t, store, n);
      EndsAfter(s, q, FlushOne, low, Flushed(store, t, pr.writes[..n], s.retention), s.log);
    }
  }

  lemma FlushFromNow(s: State, q: nat, low: Time, t: Time, n: nat) returns (log: seq<Commit>)
    requires q < |s.procs| && s.procs[q].pc.ReserveNow? && n <= |s.procs[q].writes| && low <= t && t > s.clock
    ensures Ends(s, low, Flushed(s.store, t, s.procs[q].writes[..n], s.retention), log)
    ensures log != [] && log[|log| - 1].ts == t
  {
    hide Ends, Flushed;
    var s1 := Do(s, q, CallNow(t));
    var s2 := Do(s1, q, InsertPending);
    var s3 := Do(s2, q, UnlockManagerMu);
    var store := Flushed(s.store, t, s.procs[q].writes[..n], s.retention);
    log := s2.log;
    FlushSome(s3, q, t, t, n);
    EndsAfter(s2, q, UnlockManagerMu, t, store, log);
    EndsAfter(s1, q, InsertPending, t, store, log);
    EndsAfter(s, q, CallNow(t), low, store, log);
  }

  /** Whoever holds a mutex, its next step keeps the commit under way on its way. */
  lemma OwesOn(s: State, q: nat, a: Action)
    requires Locks(s) && Owes(s) && !Owner(s).ReserveNow? && Enabled(s, q, a) && !a.Tick? && !a.Await?
    requires s.managerMu == Some(q) || (s.managerMu == None && s.commitMu == Some(q))
    ensures var s' := Do(s, q, a);
      && Owes(s') && s'.commitMu == s.commitMu && OwnerWrites(s') == OwnerWrites(s)
      && s'.store == s.store && s'.retention == s.retention && s'.clock == s.clock
      && !a.CallNow?
  {
    hide Blocked, Stale, FlushOp, Scan, Enqueued, Latest;
    assert LocksAt(s, q) && LocksAt(s, s.commitMu.value);
  }

  lemma {:induction false} OwnerFlushes(s: State, low: Time, t: Time, n: nat) returns (log: seq<Commit>)
    requires Inv(s) && Owes(s) && low <= t && t > s.clock && n <= |OwnerWrites(s)|
    ensures Ends(s, low, Flushed(s.store, t, OwnerWrites(s)[..n], s.retention), log)
    ensures log != [] && log[|log| - 1].ts == t
    decreases Total(s.procs)
  {
    hide Ends, Flushed, Do, Total, Progress.Rank, DataOk, ProcOk, SerialAt, LogOk, FlightOk, Enabled, Owes;
    assert s.commitMu.Some? && s.commitMu.value < |s.procs| by { OwesOwner(s); }
    if Owner(s).ReserveNow? {
      log := FlushFromNow(s, s.commitMu.value, low, t, n);
    } else {
      var q, a := OwnerStep(s);
      var s' := Do(s, q, a);
      TotalFalls(s.procs, q, s'.procs[q]);
      StepKeeps(s, q, a);
      log := OwnerFlushes(s', low, t, n);
      EndsAfter(s, q, a, low, Flushed(s.store, t, OwnerWrites(s)[..n], s.retention), log);
    }
  }

  lemma OwesOwner(s: State)
    requires Owes(s)
    ensures s.commitMu.Some? && s.commitMu.value < |s.procs|
  {
  }

  lemma OwnerStep(s: State) returns (q: nat, a: Action)
    requires Inv(s) && Owes(s) && !Owner(s).ReserveNow?
    ensures Enabled(s, q, a) && Closer(s, Do(s, q, a), q) && !a.Tick? && !a.Await? && !a.CallNow?
    ensures var s' := Do(s, q, a);
      && Owes(s') && s'.commitMu == s.commitMu && OwnerWrites(s') == OwnerWrites(s)
      && s'.store == s.store && s'.retention == s.retention && s'.clock == s.clock
  {
    hide Closer, Enabled, Do, FlightOk, LogOk, DataOk, ProcOk, LocksAt, Owes;
    OwesOwner(s);
    if s.managerMu.Some? {
      q := s.managerMu.value;
      a := ManagerHolderSteps(s, q);
    } else {
      q := s.commitMu.value;
      a := CommitHolderSteps(s, q);
    }
    OwesOn(s, q, a);
  }

  lemma NotSilent(s: State, low: Time, t: Time)
    requires Inv(s) && Owes(s) && !Silent(s, t) && low <= t && t > s.clock
    ensures exists run, loc: Loc :: Legal(s, run) && Steady(low, run) && Horizon(After(s, run)) <= t &&
                                    ReadAt(After(s, run).store, loc, t) != ReadAt(s.store, loc, t)
  {
    hide Inv, Legal, After, Steady, ReadAt, Owes, Flushed;
    var n, loc: Loc :| 0 <= n <= |OwnerWrites(s)| &&
      ReadAt(Flushed(s.store, t, OwnerWrites(s)[..n], s.retention), loc, t) != ReadAt(s.store, loc, t);
    var log := OwnerFlushes(s, low, t, n);
    var store := Flushed(s.store, t, OwnerWrites(s)[..n], s.retention);
    var run :| Legal(s, run) && Steady(low, run) && After(s, run).store == store && After(s, run).log == log;
    assert ReadAt(After(s, run).store, loc, t) != ReadAt(s.store, loc, t);
  }

  /** Since `s0` the commit under way is still the one that owes, and no time has been dispensed. */
  ghost predicate Owing(s0: State, s: State) {
    && Owes(s) && s.commitMu == s0.commitMu && OwnerWrites(s) == OwnerWrites(s0)
    && s.store == s0.store && s.retention == s0.retention && s.clock == s0.clock && s.pending == {}
  }

  /** It has been given `t`, and so many of its writes have been flushed. */
  ghost predicate Taking(s0: State, s: State, t: Time) {
    && s.commitMu == s0.commitMu && OwnerWrites(s) == OwnerWrites(s0) && s.retention == s0.retention && t <= s.clock
    && match Owner(s)
       case ReserveInsert(u) => u == t && s.store == s0.store
       case ReserveDone(u) => u == t && s.store == s0.store
       case Flush(u, n) =>
         u == t && n <= |OwnerWrites(s0)| && s.store == Flushed(s0.store, t, OwnerWrites(s0)[..n], s0.retention)
       case MarkAcquire(u) => u == t && s.store == Flushed(s0.store, t, OwnerWrites(s0), s0.retention)
       case MarkErase(u) => u == t && s.store == Flushed(s0.store, t, OwnerWrites(s0), s0.retention)
       case _ => false
  }

  /** It is through, or got a later time. */
  ghost predicate Taken(s0: State, s: State, t: Time) {
    Clear(s, t) && forall loc: Loc :: ReadAt(s.store, loc, t) == ReadAt(s0.store, loc, t)
  }

  /** The next time dispensed is at or after `t`. */
  lemma OwingStep(s0: State, s: State, p: nat, a: Action, t: Time)
    requires Locks(s) && Owing(s0, s) && Enabled(s, p, a) && t > s0.clock
    requires t == s0.clock + 1 || (t <= s.system && Steady(s.system, [Step(p, a)]))
    ensures var s' := Do(s, p, a); Taken(s0, s', t) || Taking(s0, s', t) || Owing(s0, s')
  {
    hide Blocked, Stale, FlushOp, Scan, Enqueued, Latest, ReadAt, HoldsHandle;
    assert LocksAt(s, p) && LocksAt(s, s.commitMu.value);
  }

  lemma FlushedNext(store: Store, t: Time, writes: seq<Mutation>, n: nat, retention: nat)
    requires n < |writes|
    ensures Flushed(store, t, writes[..n + 1], retention) ==
            FlushOp(Flushed(store, t, writes[..n], retention), t, writes[n].loc, writes[n].op, retention)
  {
    assert writes[..n + 1][..n] == writes[..n];
  }

  /** What flushing has left so far reads at `t` as before. */
  lemma TakingReads(s0: State, s: State, t: Time)
    requires Taking(s0, s, t) && Silent(s0, t)
    ensures forall loc: Loc :: ReadAt(s.store, loc, t) == ReadAt(s0.store, loc, t)
  {
    hide ReadAt, Flushed;
    var writes := OwnerWrites(s0);
    assert writes[..|writes|] == writes;
  }

  lemma OthersTaking(s0: State, s: State, p: nat, a: Action, t: Time)
    requires Locks(s) && Taking(s0, s, t) && Enabled(s, p, a) && s.commitMu != Some(p)
    ensures Taking(s0, Do(s, p, a), t)
  {
    hide Blocked, Stale, FlushOp, Scan, Enqueued, Latest, Flushed, HoldsHandle, HoldsManager;
    assert LocksAt(s, p);
  }

  lemma FlushTaking(s0: State, s: State, p: nat, t: Time)
    requires Locks(s) && Taking(s0, s, t) && Enabled(s, p, FlushOne) && s.commitMu == Some(p)
    ensures Taking(s0, Do(s, p, FlushOne), t)
  {
    hide FlushOp, Flushed, HoldsHandle, HoldsManager;
    FlushedNext(s0.store, t, OwnerWrites(s0), s.procs[p].pc.done, s0.retention);
  }

  /** What the owner can do next. */
  lemma OwnNext(s0: State, s: State, p: nat, a: Action, t: Time)
    requires Taking(s0, s, t) && Enabled(s, p, a) && s.commitMu == Some(p)
    ensures a.Tick? || a.InsertPending? || a.UnlockManagerMu? || a.FlushOne? || a.FinishFlush? || a.LockManagerMu? ||
            a.ErasePending?
  {
    hide Blocked, Flushed;
  }

  lemma OwnAdvance(s0: State, s: State, p: nat, a: Action, t: Time)
    requires Taking(s0, s, t) && Enabled(s, p, a) && s.commitMu == Some(p)
    requires a.Tick? || a.InsertPending? || a.UnlockManagerMu? || a.FinishFlush? || a.LockManagerMu?
    ensures Taking(s0, Do(s, p, a), t)
  {
    hide FlushOp, Flushed, Latest, Scan, Enqueued, Stale, Blocked;
    var writes := OwnerWrites(s0);
    assert writes[..|writes|] == writes;
    assert Flushed(s0.store, t, writes[..0], s0.retention) == s0.store by { FlushedNone(s0.store, t, s0.retention); }
  }

  lemma OwnErase(s0: State, s: State, p: nat, t: Time)
    requires FlightOk(s) && Taking(s0, s, t) && Enabled(s, p, ErasePending) && s.commitMu == Some(p)
    ensures var s' := Do(s, p, ErasePending); Clear(s', t) && s'.store == s.store
  {
    hide FlushOp, Flushed, Latest;
  }

  lemma OwnTaking(s0: State, s: State, p: nat, a: Action, t: Time)
    requires Locks(s) && FlightOk(s) && Taking(s0, s, t) && Enabled(s, p, a) && s.commitMu == Some(p)
    ensures var s' := Do(s, p, a); Taking(s0, s', t) || (Clear(s', t) && s'.store == s.store)
  {
    hide Locks, FlightOk, Taking, Enabled, Do, Clear;
    OwnNext(s0, s, p, a, t);
    if a.FlushOne? {
      FlushTaking(s0, s, p, t);
    } else if a.ErasePending? {
      OwnErase(s0, s, p, t);
    } else {
      OwnAdvance(s0, s, p, a, t);
    }
  }

  lemma FlushedNone(store: Store, t: Time, retention: nat)
    ensures Flushed(store, t, [], retention) == store
  {
  }

  lemma TakingStep(s0: State, s: State, p: nat, a: Action, t: Time)
    requires Inv(s) && Taking(s0, s, t) && Enabled(s, p, a) && Silent(s0, t)
    ensures Taking(s0, Do(s, p, a), t) || Taken(s0, Do(s, p, a), t)
  {
    hide Taking, Do, Enabled, Silent, LogOk, DataOk, ProcOk, LocksAt, FlightOk, Unblocked, ReadAt;
    if s.commitMu == Some(p) {
      TakingReads(s0, s, t);
      OwnTaking(s0, s, p, a, t);
    } else {
      OthersTaking(s0, s, p, a, t);
    }
  }

  lemma {:induction false} SilentRun(s0: State, s: State, run: seq<Step>, t: Time)
    requires Inv(s) && (Owing(s0, s) || Taking(s0, s, t)) && Silent(s0, t) && t > s0.clock
    requires Legal(s, run) && Horizon(After(s, run)) <= t
    requires t == s0.clock + 1 || (t <= s.system && Steady(s.system, run))
    ensures forall loc: Loc :: ReadAt(After(s, run).store, loc, t) == ReadAt(s0.store, loc, t)
    decreases |run|
  {
    hide Inv, Taking, Silent, Enabled, Do, ReadAt, Unblocked, Horizon, Owes, ReplayedUpTo, ChangedAfter;
    if run == [] {
      if Taking(s0, s, t) {
        TakingReads(s0, s, t);
      }
    } else {
      var p, a, rest := run[0].p, run[0].a, run[1..];
      var s' := Do(s, p, a);
      assert run == [Step(p, a)] + rest;
      SteadyStep(s, p, a, rest);
      if t != s0.clock + 1 {
        ReadingGrows(s, p, a);
      }
      StepKeeps(s, p, a);
      if Taking(s0, s, t) {
        TakingStep(s0, s, p, a, t);
      } else {
        InvLocks(s);
        OwingStep(s0, s, p, a, t);
      }
      if Taken(s0, s', t) {
        ClearForever(s', rest, t);
        SameReads(s', After(s', rest), t);
      } else {
        SilentRun(s0, s', rest, t);
      }
    }
  }

  lemma OwesPending(s: State)
    requires FlightOk(s) && Owes(s)
    ensures s.pending == {}
  {
  }

  /** A commit that changes nothing at the next time to be dispensed keeps that time for itself. */
  lemma SilentIsFinal(s: State, t: Time)
    requires Inv(s) && Owes(s) && Silent(s, t) && t > s.clock
    ensures t == s.clock + 1 ==> Final(s, t)
    ensures t == Clocks.Next(s.clock, s.system) ==> FinalSteadily(s, t)
  {
    hide LogOk, DataOk, ProcOk, LocksAt, Owes, Silent, Legal, After, Steady, ReadAt, Horizon, FlightOk;
    OwesPending(s);
    if t == s.clock + 1 {
      forall run, loc: Loc | Legal(s, run) && Horizon(After(s, run)) <= t
        ensures ReadAt(After(s, run).store, loc, t) == ReadAt(s.store, loc, t)
      {
        SilentRun(s, s, run, t);
      }
    }
    if t == Clocks.Next(s.clock, s.system) {
      forall run, loc: Loc | Legal(s, run) && Steady(s.system, run) && Horizon(After(s, run)) <= t
        ensures ReadAt(After(s, run).store, loc, t) == ReadAt(s.store, loc, t)
      {
        SilentRun(s, s, run, t);
      }
    }
  }

  // Both directions together.

  /**
   * When WaitForSafeRead(t) has returned, no later commit gets a timestamp at or before
   * `t` exactly if the clock has dispensed one that late; if the system clock never goes
   * back, exactly if in addition it may have been read past `t`.
   */
  lemma CommitsStopExactly(s: State, generation: nat, p: nat, t: Time)
    requires Reachable(s, generation) && p < |s.procs| && s.procs[p].pc.Safe? && Unblocked(s, t)
    ensures Closed(s, t) <==> t <= s.clock
    ensures ClosedSteadily(s, t) <==> t <= s.clock || t < s.system
  {
    hide Reachable, Legal, After, Inv, ReplayedUpTo, Unblocked, Steady;
    ReachableInv(s, generation);
    if t <= s.clock {
      forall run | Legal(s, run)
        ensures forall i :: |s.log| <= i < |After(s, run).log| ==> After(s, run).log[i].ts > t
      {
        ClearForever(s, run, t);
      }
    } else {
      NotClosed(s, p, s.clock, t);
    }
    if Past(s, t) {
      forall run | Legal(s, run) && Steady(s.system, run)
        ensures forall i :: |s.log| <= i < |After(s, run).log| ==> After(s, run).log[i].ts > t
      {
        PastForever(s, run, t);
      }
    } else {
      NotClosed(s, p, s.system, t);
    }
  }

  lemma NotClosed(s: State, p: nat, low: Time, t: Time)
    requires Inv(s) && p < |s.procs| && s.procs[p].pc.Safe? && low <= t && t > s.clock
    ensures exists run :: Legal(s, run) && Steady(low, run) &&
                          |s.log| < |After(s, run).log| && After(s, run).log[|s.log|].ts <= t
  {
    hide Inv, Legal, After, Steady;
    var store, log := Lands(s, p, low, t);
    var run :| Legal(s, run) && Steady(low, run) && After(s, run).store == store && After(s, run).log == log;
  }

  /**
   * Then the state at `t` is final under the same conditions, or if the very next time
   * the clock can dispense is `t`, a commit that will not abort has yet to call Now, and
   * that commit changes nothing at `t`. Otherwise the state at `t` can still change.
   */
  lemma FinalExactly(s: State, generation: nat, p: nat, t: Time)
    requires Reachable(s, generation) && p < |s.procs| && s.procs[p].pc.Safe? && Unblocked(s, t)
    ensures Final(s, t) <==> t <= s.clock || (t == s.clock + 1 && Owes(s) && Silent(s, t))
    ensures FinalSteadily(s, t) <==>
            t <= s.clock || t < s.system || (t == Clocks.Next(s.clock, s.system) && Owes(s) && Silent(s, t))
  {
    hide Reachable, Legal, After, Inv, ReadAt, Unblocked, Steady, Owes, Silent, Horizon;
    ReachableInv(s, generation);
    if t <= s.clock {
      ClearIsFinal(s, t);
    } else if !(Owes(s) && t == s.clock + 1) {
      NotFinal(s, p, s.clock, t);
    } else if Silent(s, t) {
      SilentIsFinal(s, t);
    } else {
      NotSilent(s, s.clock, t);
    }
    if Past(s, t) {
      PastIsFinal(s, t);
    } else if !(Owes(s) && t == Clocks.Next(s.clock, s.system)) {
      NotFinal(s, p, s.system, t);
    } else if Silent(s, t) {
      SilentIsFinal(s, t);
    } else {
      NotSilent(s, s.system, t);
    }
  }

  lemma ClearIsFinal(s: State, t: Time)
    requires Inv(s) && Clear(s, t)
    ensures Final(s, t)
  {
    hide Inv, Legal, After, ReadAt, ReplayedUpTo, Unblocked, Horizon;
    forall run, loc: Loc | Legal(s, run) && Horizon(After(s, run)) <= t
      ensures ReadAt(After(s, run).store, loc, t) == ReadAt(s.store, loc, t)
    {
      ClearForever(s, run, t);
      SameReads(s, After(s, run), t);
    }
  }

  lemma PastIsFinal(s: State, t: Time)
    requires Inv(s) && Past(s, t)
    ensures FinalSteadily(s, t)
  {
    hide Inv, Legal, After, ReadAt, ReplayedUpTo, Unblocked, Horizon, Steady;
    forall run, loc: Loc | Legal(s, run) && Steady(s.system, run) && Horizon(After(s, run)) <= t
      ensures ReadAt(After(s, run).store, loc, t) == ReadAt(s.store, loc, t)
    {
      PastForever(s, run, t);
      SameReads(s, After(s, run), t);
    }
  }

  lemma NotFinal(s: State, p: nat, low: Time, t: Time)
    requires Inv(s) && p < |s.procs| && s.procs[p].pc.Safe? && low <= t && t > s.clock
    requires Owes(s) ==> Clocks.Next(s.clock, low) < t
    ensures exists run, loc: Loc :: Legal(s, run) && Steady(low, run) && Horizon(After(s, run)) <= t &&
                                    ReadAt(After(s, run).store, loc, t) != ReadAt(s.store, loc, t)
  {
    hide Inv, Legal, After, Steady, ReadAt, Owes;
    var loc := Loc(0, EMPTY);
    var store, log := Changes(s, p, low, t, loc, ReadAt(s.store, loc, t));
    var run :| Legal(s, run) && Steady(low, run) && After(s, run).store == store && After(s, run).log == log;
    assert ReadAt(After(s, run).store, loc, t) != ReadAt(s.store, loc, t);
  }

  lemma {:induction false} SystemGrows(s: State, run: seq<Step>)
    requires Legal(s, run) && Steady(s.system, run)
    ensures s.system <= After(s, run).system
    decreases |run|
  {
    hide Enabled, Do;
    if run != [] {
      var p, a := run[0].p, run[0].a;
      assert run == [Step(p, a)] + run[1..];
      SteadyStep(s, p, a, run[1..]);
      ReadingGrows(s, p, a);
      SystemGrows(Do(s, p, a), run[1..]);
    }
  }

  lemma ReadingGrows(s: State, p: nat, a: Action)
    requires Enabled(s, p, a) && Steady(s.system, [Step(p, a)])
    ensures s.system <= Do(s, p, a).system
  {
    hide Blocked, Stale, FlushOp, Scan, Enqueued, Latest;
  }

  /**
   * So the wait for the system clock makes a future time final on a system clock that never goes
   * back, if it ends after that time.
   */
  lemma AwaitedIsFinal(s: State, generation: nat, p: nat, reading: Time, run: seq<Step>)
    requires Reachable(s, generation) && Enabled(s, p, Await(reading)) && s.procs[p].pc.t < reading
    requires Legal(Do(s, p, Await(reading)), run) && Steady(reading, run)
    requires Unblocked(After(Do(s, p, Await(reading)), run), s.procs[p].pc.t)
    ensures FinalSteadily(After(Do(s, p, Await(reading)), run), s.procs[p].pc.t)
  {
    hide Reachable, Legal, After, Inv, Unblocked, Steady, FinalSteadily;
    ReachableInv(s, generation);
    StepKeeps(s, p, Await(reading));
    var s' := Do(s, p, Await(reading));
    RunKeeps(s', run);
    SystemGrows(s', run);
    PastIsFinal(After(s', run), s.procs[p].pc.t);
  }

  const FUTURE_WAIT := [Step(0, BeginWait(5)), Step(0, Await(5)), Step(0, LockManagerMu), Step(0, TestPending)]

  const WAITED := State(0, 5, 0, None, None, {}, None, map[], [], [FRESH.(pc := Safe(5, 0))])

  lemma FutureWaitRuns()
    ensures Legal(Init(0, 0, 1), FUTURE_WAIT) && After(Init(0, 0, 1), FUTURE_WAIT) == WAITED
  {
    hide Legal, After, Stale, FlushOp, Scan, Enqueued, Latest;
    var s0, run := Init(0, 0, 1), [Step(0, BeginWait(5))];
    assert s0.procs == [FRESH];
    var s1 := Do(s0, 0, BeginWait(5));
    OneStep(s0, 0, BeginWait(5));
    var s2 := Do(s1, 0, Await(5));
    OneStep(s1, 0, Await(5));
    Joined(s0, run, [Step(0, Await(5))]);
    run := run + [Step(0, Await(5))];
    var s3 := Do(s2, 0, LockManagerMu);
    OneStep(s2, 0, LockManagerMu);
    Joined(s0, run, [Step(0, LockManagerMu)]);
    run := run + [Step(0, LockManagerMu)];
    OneStep(s3, 0, TestPending);
    Joined(s0, run, [Step(0, TestPending)]);
    assert run + [Step(0, TestPending)] == FUTURE_WAIT;
  }

  /**
   * One process of an empty database waits for time 5 while the clock stands at 0. The wait
   * returns when the system clock shows 5, and a commit can still get a timestamp that is
   * not after 5, also on a system clock that never goes back.
   */
  lemma FutureWaitIsOpen()
    ensures Legal(Init(0, 0, 1), FUTURE_WAIT) && After(Init(0, 0, 1), FUTURE_WAIT) == WAITED
    ensures WAITED.procs[0].pc == Safe(5, 0) && Unblocked(WAITED, 5) && WAITED.clock == 0 && WAITED.system == 5
    ensures !Closed(WAITED, 5) && !ClosedSteadily(WAITED, 5)
  {
    hide Legal, After, Closed, ClosedSteadily;
    FutureWaitRuns();
    assert Origin(Init(0, 0, 1), 0);
    assert Reachable(WAITED, 0);
    CommitsStopExactly(WAITED, 0, 0, 5);
  }
}
