# Cloud Spanner emulator: a verified model

A Dafny model of the parts of the emulator backend where correctness is subtle,
with proofs about every run and every input of the model.

## What is modelled

**The optimistic commit protocol** (`Clocks`, `Storage`, `Replay`, `Locking`,
`Protocol`, `Guarantees`, `Transactions`, `Progress`, `Finality`). The clock,
the in-memory storage with its column cells, version expiry and tombstones,
the lock manager and the lock handle are classes with the fields and branches
of the source. `Protocol` is a small-step system over the same functions: the
commit section, the manager's mutex and each handle's mutex have explicit
holders; reading the clock at any system time, waiting for the system clock,
entering a timestamp into the pending set, releasing a mutex, flushing one
write, and scanning storage are separate steps; steps of any number of
transactions, schema changes, read-only readers and copies interleave freely.
`Guarantees` proves, for every reachable state, serializability in timestamp
order, safe, stable and fresh snapshots, isolated copies and exact aborts;
`Progress` proves that nothing deadlocks, and `Finality` exactly when a time
that was waited for is final. `Transactions` proves that what is logged and
stored for a transaction is what its calls said. A transaction's history (what
it requested and what it saw) and the log of reserved commits, each with the
writes its flush makes, are part of the state, so that the theorems can
compare what was read with serial execution.

**Keys, ranges and key sets** (`Keys`, `KeyRanges`, `KeySets`), against an
independent reference: the lexicographic order of a key's column ranks followed
by a mark for row, prefix limit or infinity.

**Derived data and checks** (`Indexes`, `Checks`, `Cascade`,
`EvaluatedColumns`, `EvaluationQueue`, `InsertChecks`, `ChangeStreams`): index maintenance
through the write queue, foreign key and UNIQUE checks made only for touched
entries, cascades over the four key shapes, generated columns in dependency
order and the updates they queue, and the grouping of writes into change stream
records.

**The dependency graph** (`Graph`) and **the schema create cache**
(`CacheKeys`, `LruCache`, `CachePublish`); creators publish under the key string
whose injectivity `CacheKeys` proves. `Collections` has what several modules use.

Source objects that are updated in place are classes, source loops are methods
with loops, and each is proved equal to a function about which the properties
are then proved; `MergeInPlace` works on an array.

## Properties that fail, and exactly when

- An out-of-order referenced key: `EffectForUnorderedReferencedKey` applies the
  column permutation where its inverse is needed. And where the referencing
  rows are read by a prefix of their own key, NULL is taken for a value. The
  cascade is exact for all rows if and only if the permutation is its own
  inverse, and the null-filtered index is used or no column of the foreign key
  is nullable on both sides (`Cascade.CascadeIsExact`). `Cascade.CyclicKeyFails`
  is the three-column case, `Cascade.NullKeyFails` the one-column case with NULL.
- Statement verification looks at the last write of each entry only, and an
  update triggers no foreign key verifier. An insert followed by an update of
  the same entry in one statement is therefore not checked
  (`Checks.MaskedInsertEscapes`). Over everything the referenced table can
  hold, the verifiers decide the foreign key if and only if every such entry
  shares its foreign key columns with an old entry, an entry inserted last, or a
  written entry of the referenced table, or the statement is refused in any case
  (`Checks.DecidesExactly`). UNIQUE is always decided, because index entries are
  never updated.
- The update that the evaluated column effector queues is such an update. A
  plain insert of a row without referenced row passes if and only if the
  referencing table has a generated column outside the key or the insert leaves
  out a default column (`InsertChecks.PlainInsertEscapesExactly`).
- An update queued by the evaluated column effector goes through the effector
  again, and an update that gives an ON UPDATE column refreshes the others. In
  a table without generated columns outside the key, a write that gives some
  but not all ON UPDATE columns queues updates forever
  (`EvaluationQueue.OneOfTwoCycles`). `EvaluationQueue.UpdateSettlesExactly` and
  `EvaluationQueue.InsertSettlesExactly` say exactly when the queue drains, and
  when an insert keeps the values it gave.
- `WaitForSafeRead` for a time the clock has not dispensed: a commit can still
  get a timestamp at or before it, unless the system clock has been read past
  it and does not go back. Both conditions are exact
  (`Finality.CommitsStopExactly`); `Finality.FutureWaitIsOpen` is a wait for
  time 5 while the clock stands at 0.
- `KeyRange::Contains` agrees with comparison against `ToClosedOpen` for row
  keys; for a prefix limit or infinity there is always a range on which they
  differ (`KeyRanges.ContainsIsSpansOnlyForRows`).

## Where code and comments disagree

- `AddNodeIfNotExists` appends a node whether or not its name exists; the name
  keeps meaning the first node. The model does what the code does.
- The order of `TopologicalOrder` is edge targets first.
- `Key::Prefix` shortens the column values and the descending flags but not the
  nulls-last flags; comparison never looks past the columns.

## Model

| member | source | states |
|---|---|---|
| `Keys.Compare` | backend/datamodel/key.cc:94-140 | The column-by-column scan computes the reference order, lexicographic comparison of the keys' positions, for every pair of keys sharing a column order; which way it sorts is FirstDifferenceDecides and ExtensionDecides |
| `Keys.FirstDifferenceDecides` | backend/datamodel/key.cc:94-140 | The first column at which two keys differ decides: NULL before every value, or after if nulls come last; the smaller value first, or the greater one in a descending column |
| `Keys.ExtensionDecides` | backend/datamodel/key.cc:94-140 | A key comes before its extensions and its prefix limit after them; a key comes before its own prefix limit |
| `Keys.PlainKeysAscend` | backend/datamodel/key.cc:69-73 | Keys made from values alone sort ascending, NULL first |
| `Keys.Antisymmetric` | backend/datamodel/key.cc:94-140 | Comparing the other way round gives the opposite sign |
| `Keys.Reflexive` | backend/datamodel/key.cc:94-140 | Every key compares equal to itself |
| `Keys.Transitive` | backend/datamodel/key.cc:94-140 | The order is transitive |
| `Keys.EqualMeansSame` | backend/datamodel/key.cc:94-140 | Keys of one column order compare equal exactly if they have the same columns and the same kind, so the order is total on positions |
| `Keys.EmptyIsLeast` | backend/datamodel/key.cc:142-143 | The empty key is at or below every key |
| `Keys.InfinityIsGreatest` | backend/datamodel/key.cc:145-150 | Infinity is at or above every key |
| `Keys.PrefixSpan` | backend/datamodel/key.cc:152-185 | A row key lies from K up to K's prefix limit exactly if K is a prefix of it |
| `Keys.PrefixFollows` | backend/datamodel/key.cc:158-163 | A key shortened to n columns has the first n columns and still follows the column order it came from |
| `KeyRanges.AllSpansEveryRow` | backend/datamodel/key_range.cc:44-46 | The range of everything holds every row key |
| `KeyRanges.EmptySpansNothing` | backend/datamodel/key_range.cc:87-90 | A range whose start is not below its limit holds nothing |
| `KeyRanges.PointSpansExtensions` | backend/datamodel/key_range.cc:49-56 | A point or prefix range holds exactly the rows that extend its key |
| `KeyRanges.LimitSplitsRows` | backend/datamodel/key_range.cc:126-141 | A prefix limit lies strictly between the rows that extend its key and the rows above |
| `KeyRanges.ContainsIsSpans` | backend/datamodel/key_range.cc:92-141 | For row keys and all four endpoint shapes, Contains agrees with comparison against ToClosedOpen |
| `KeyRanges.EndpointsDecide` | backend/datamodel/key_range.cc:92-124 | Between row keys, the rows that extend an endpoint's key are in exactly if it is closed, and the other rows exactly if they lie between the endpoints |
| `KeyRanges.ContainsIsSpansOnlyForRows` | backend/datamodel/key_range.cc:92-141 | Contains and ToClosedOpen agree on a key for every range of the order if and only if the key is a row key |
| `KeySets.AsRangesCoversNamed` | backend/datamodel/key_set.cc:78-84 | The ranges made from keys and ranges cover exactly the rows the set names |
| `KeySets.MergeInPlace` | backend/datamodel/key_set.cc:97-141 | The in-place merge of a sorted array keeps the covered rows and leaves its prefix sorted, disjoint and non-empty after the first range |
| `KeySets.MakeDisjointKeyRanges` | backend/datamodel/key_set.cc:74-142 | For any sorted permutation: the same rows, starts sorted, each limit strictly below the next start, every range after the first non-empty |
| `KeySets.RowsReadOnceInOrder` | backend/datamodel/key_set.cc:74-142 | Over the resulting ranges each row is found in one range only, and rows of earlier ranges come first |
| `KeySets.SortedExists` | backend/datamodel/key_set.cc:91-95 | Every list of ranges has a sorted permutation, so the merge's precondition can always be met |
| `Clocks.Clock.constructor` | common/clock.cc:32-35 | The clock starts at the system reading |
| `Clocks.Clock.Now` | common/clock.cc:37-60 | Returns the dispensed value for the readings so far, above every earlier one and not below the reading |
| `Clocks.ClosedForm` | common/clock.cc:41-60 | The n-th value is the greatest of d0 + n and s_j + (n - j) |
| `Clocks.DispensedIsAdmissible` | common/clock.cc:41-60 | The dispensed values increase strictly above d0 and never fall below the readings |
| `Clocks.LeastAdmissible` | common/clock.cc:41-60 | They are pointwise least among all such sequences |
| `Clocks.NoDrift` | common/clock.cc:44-50 | Once the system clock has caught up, its reading is handed out as it is: the lead does not accumulate |
| `Storage.RemoveExpiredVersions` | backend/storage/in_memory_storage.cc:50-62 | What is left is the end of the cell, and a version is erased exactly if its successor is at or before the horizon; this is the expiry function |
| `Storage.ValueAtMeaning` | backend/storage/in_memory_storage.cc:64-88 | A cell's value at a time is that of its latest version at or before it, and none if there is none |
| `Storage.PutMeaning` | backend/storage/in_memory_storage.cc:198-225 | A version put at a time replaces the one there and keeps all others, in order |
| `Storage.ExpireKeeps` | backend/storage/in_memory_storage.cc:50-62 | Expiry changes no reading at or after its horizon and never drops the latest version |
| `Storage.StampReads` | backend/storage/in_memory_storage.cc:198-225 | Writing a cell at the latest time changes readings from that time on and none back to the horizon |
| `Storage.StampRowReads` | backend/storage/in_memory_storage.cc:198-327 | After a write, delete or mark of a row: what it reads as afterwards, what stays, and exactly when it counts as changed |
| `Storage.UnchangedReads` | backend/storage/in_memory_storage.cc:247-274 | A row without versions after s reads the same at s and at every later time |
| `Storage.FlushReads` | backend/transaction/flush.cc:30-67 | A flushed write changes one row, from its timestamp on, as the write says; other rows and earlier times back to the horizon read as before |
| `Storage.FlushedGiven` | backend/transaction/flush.cc:30-67 | After a flushed write the row exists and has, from its time on, the last value written in each column |
| `Storage.FlushedOther` | backend/transaction/flush.cc:30-67 | And its other columns as they were |
| `Storage.FlushedDelete` | backend/transaction/flush.cc:30-67 | After a flushed delete the row reads as nothing, and a mark changes no reading |
| `Storage.CopyReads` | backend/storage/in_memory_storage.cc:329-372 | A copy reads, from the copy time on, as the original reads at that time, restricted to the listed columns |
| `Storage.PointDeleteIsOneRow` | backend/transaction/flush.cc:63-67 | Deleting the point range of a row's key is deleting that row |
| `Storage.InMemoryStorage.NoteVersion` | backend/storage/in_memory_storage.cc:227-233 | Keeps the latest version time of a table |
| `Storage.InMemoryStorage.Stamped` | backend/storage/in_memory_storage.cc:198-245 | Write and MarkWritten put the row's new version and note it |
| `Storage.InMemoryStorage.Delete` | backend/storage/in_memory_storage.cc:276-327 | Puts a tombstone on exactly the existing rows of the range; fails, changing nothing, on a range that is not closed-open |
| `Storage.TombstonedReads` | backend/storage/in_memory_storage.cc:276-327 | After a range delete exactly the rows of the range read as nothing from its time on |
| `Storage.InMemoryStorage.HasVersionsAfter` | backend/storage/in_memory_storage.cc:247-274 | True exactly if a row of the range has a version after the time, the per-table shortcut included |
| `Storage.InMemoryStorage.Read` | backend/storage/in_memory_storage.cc:149-196 | Returns exactly the rows of the range that exist at the time, as they were then |
| `Storage.InMemoryStorage.CopyAt` | backend/storage/in_memory_storage.cc:329-372 | Fills an empty storage with the copy at the time |
| `Storage.RowChangedAfter` | backend/storage/in_memory_storage.cc:264-271 | The scan over a row's cells finds a version after the time exactly if there is one |
| `Replay.ReplayedUpToIsPrefix` | backend/locking/manager.h:40-60 | On a log in timestamp order, replaying up to t is replaying a prefix of it |
| `Replay.WrittenAfterMeaning` | backend/locking/handle.h:71-78 | A row counts as written after t exactly if some later commit of the log left a version of it |
| `Replay.FaithfulReserve` | backend/locking/manager.cc:40-45 | A store that reads as the replay of a log still does when a commit is reserved and nothing of it flushed |
| `Replay.FaithfulFlush` | backend/transaction/flush.cc:71-90 | Flushing one more write of the last commit takes the store from reading as the log with n of its writes to reading as the log with n + 1, version expiry included |
| `Replay.LastWriteDecides` | backend/transaction/flush.cc:71-90 | Writes apply in order: a row is left by the last of its writes applied to what the writes before it left |
| `Locking.LockHandle.EnqueueLock` | backend/locking/handle.cc:41-67 | The read set becomes the recorded read set with the request added; nothing else changes |
| `Locking.EnqueueRecords` | backend/locking/handle.cc:41-67 | Recording a request adds exactly the rows of its range if it is shared, and none otherwise |
| `Locking.ReadSetIsExact` | backend/locking/handle.cc:41-67 | After any requests the read set denotes exactly the union of the rows of the shared ones: the all flag, empty ranges and skipped repeats lose nothing and add nothing |
| `Locking.ScansMeansContains` | backend/locking/handle.cc:45-51 | For row keys of the table, a request scans a row exactly if its range contains it |
| `Locking.LockHandle.UnlockAll` | backend/locking/handle.cc:69-73 | Forgets snapshot and read set |
| `Locking.LockHandle.ReadSetIsStale` | backend/locking/handle.cc:100-122 | The two nested loops decide staleness |
| `Locking.StaleMeaning` | backend/locking/handle.cc:100-122 | Stale exactly if there is a snapshot and a recorded row has a version after it |
| `Locking.LockHandle.Commit` | backend/locking/handle.cc:124-143 | Precheck failure and stale read set leave everything unchanged; otherwise a fresh timestamp is dispensed, the writes, or those before the flush fails, are flushed at it, nothing stays pending and the last commit time advances; the result says which of the four happened |
| `Locking.FlushWriteOps` | backend/transaction/flush.cc:71-90 | Flushes the writes in order, at the commit timestamp |
| `Locking.FlushedIsApplied` | backend/transaction/flush.cc:71-90 | After flushing, every row reads as the writes applied in order to what it read before |
| `Locking.LockManager.ReserveCommitTimestamp` | backend/locking/manager.cc:40-45 | Dispenses a time and makes it pending |
| `Locking.LockManager.MarkCommitted` | backend/locking/manager.cc:47-54 | Removes the time from the pending set and advances the last commit time |
| `Locking.LockManager.SeedLastCommitTimestamp` | backend/locking/manager.cc:81-86 | Advances the last commit time, never moves it back |
| `Protocol.InitInv` | backend/locking/manager.h:40-60 | The empty database satisfies the protocol invariant |
| `Protocol.StepBeginSnapshot` | backend/locking/handle.cc:75-81 | Taking the handle's mutex for the first snapshot keeps the invariant |
| `Protocol.StepCallNow` | backend/locking/manager.cc:40-45 | Reading the clock, for a snapshot or inside the reservation, at any system reading, keeps the invariant |
| `Protocol.StepAwait` | backend/locking/manager.cc:59-63 | The wait until the system clock has reached the time keeps the invariant |
| `Protocol.StepLockManagerMu` | backend/locking/manager.cc:40-57 | Acquiring the manager's mutex keeps the invariant |
| `Protocol.TestedIsUnblocked` | backend/locking/manager.cc:56-71 | When the pending test passes for a time, no commit at or before it is pending or about to become pending |
| `Protocol.StepTestPending` | backend/locking/manager.cc:56-79 | The test of the wait loop, and waiting again, keep the invariant |
| `Protocol.StepStoreSnapshot` | backend/locking/handle.cc:75-81 | Storing the picked snapshot keeps the invariant |
| `Protocol.StepEnqueue` | backend/locking/handle.cc:41-67 | Recording a request, to be read next or only recorded, keeps the invariant |
| `Protocol.ScanIsRight` | backend/storage/in_memory_storage.cc:149-196 | A scan at a clear time, even beside a half-flushed commit, is right about every row not changed since |
| `Protocol.StepScanRows` | backend/storage/in_memory_storage.cc:149-196 | Reading storage at the snapshot keeps the invariant |
| `Protocol.StepLockCommitMu` | backend/locking/handle.cc:124-127 | Entering the commit section, for a commit or a schema change, keeps the invariant |
| `Protocol.ValidationIsSound` | backend/locking/handle.cc:128-133 | If the read set is not stale, everything the transaction saw is what serial execution of the whole log leaves |
| `Protocol.StepCompare` | backend/locking/handle.cc:128-133 | Validation, with either outcome, keeps the invariant |
| `Protocol.StepInsertPending` | backend/locking/manager.cc:40-45 | Making the timestamp pending extends the log in order and keeps the invariant |
| `Protocol.StepFlushOne` | backend/transaction/flush.cc:71-90 | Flushing one write keeps the invariant, readers' earlier observations included |
| `Protocol.StepErasePending` | backend/locking/manager.cc:47-54 | Marking the commit done keeps the invariant |
| `Protocol.StepKeeps` | backend/locking/handle.cc:41-147 | Every step of every process keeps the invariant, leaves other processes alone and moves no clear time |
| `Protocol.RunKeeps` | backend/locking/handle.cc:41-147 | Every run keeps the invariant |
| `Guarantees.ReachableInv` | backend/database/database.cc:213-283 | Every state reachable from an empty database, or from a copy of a reachable one, satisfies the invariant |
| `Guarantees.Serializable` | backend/locking/handle.cc:100-143 | In every reachable state commit timestamps increase along the log, what each commit read is what serial execution of the earlier commits leaves, and with nothing pending the store is the serial execution of the log |
| `Transactions.LoggedAsCalled` | backend/locking/handle.cc:124-143 | In every run, the entry a process logs has the time the clock gave it, the writes it called commit or schema change with, and the scans it made since its handle was reset, each of the range it asked for at its snapshot; once it is through, every row reads at that time as those writes leave what the commits before it left |
| `Transactions.RunAgrees` | backend/locking/handle.cc:41-147 | In every run the state of a process and the log agree with the calls it made, aborts included |
| `Guarantees.SnapshotIsSafe` | backend/locking/manager.cc:56-79 | At a snapshot or awaited time no commit at or before it is pending, and every row whose versions reach back reads as the replay of those commits |
| `Guarantees.ClearForever` | backend/locking/manager.cc:56-79 | Whatever runs afterwards, the replay up to a clear time stays the same and new commits are after it |
| `Guarantees.SnapshotIsStable` | backend/locking/manager.cc:56-79 | The stored state at such a time never changes while versions that old are kept, and later commits are all after it |
| `Guarantees.ReadsAreOfTheSnapshot` | backend/transaction/transaction_store.cc:247-300 | While versions that old are kept, every read of a transaction, even one that later aborts, is of the replay up to its snapshot |
| `Guarantees.SnapshotIsFresh` | backend/locking/manager.cc:73-79 | External consistency: a transaction started after some commits were reserved has a snapshot after all of them, and everything reserved later has a later timestamp |
| `Guarantees.LastCommitIsSafe` | backend/locking/manager.cc:47-54 | The last commit timestamp is that of the last finished commit, and reading at it is safe, as PickReadTimestamp assumes |
| `Guarantees.CopyInv` | backend/database/database.cc:213-283 | A copy is itself a database satisfying the invariant, its history starting with the copied rows at the copy time |
| `Guarantees.CopyExists` | backend/database/database.cc:213-283 | A copy can be taken at every dispensed time |
| `Guarantees.CopyIsIsolated` | backend/database/database.cc:213-283 | However many base commits run between the wait and the copying, while versions that old are kept, the copy starts as the replay of the commits at or before T, and every commit of the copy is after T |
| `Guarantees.StaleIsConflict` | backend/locking/handle.cc:100-122 | The read set is stale exactly if a commit after the snapshot left a version of a row the transaction scanned |
| `Guarantees.AbortsAreExact` | backend/locking/handle.cc:124-134 | A prechecked commit aborts exactly on such a conflict and otherwise goes on to reserve |
| `Guarantees.DisjointNeverAborts` | backend/locking/handle.cc:124-134 | A transaction is never aborted by commits that wrote nothing it scanned |
| `Guarantees.PendingHasOwner` | backend/locking/manager.cc:40-54 | At most one commit is pending, the last of the log, and its owner holds the commit section past validation |
| `Progress.ManagerHolderSteps` | backend/locking/manager.cc:40-71 | Whoever holds the manager's mutex can take its next step |
| `Progress.CommitHolderSteps` | backend/locking/handle.cc:124-143 | With the manager's mutex free, whoever holds the commit section can take its next step |
| `Progress.FreeSteps` | backend/locking/handle.cc:41-147 | With both free, every operation under way outside them can take its next step |
| `Progress.WaitSteps` | backend/locking/manager.cc:56-71 | A wait with nothing pending ends after one test |
| `Progress.NothingDeadlocks` | backend/locking/handle.cc:41-147 | From every reachable state some run brings every operation under way, schema changes included, to its end |
| `Finality.WaitReturnsUnblocked` | backend/locking/manager.cc:56-71 | Whenever the wait returns, every commit with a timestamp at or before the time has been wholly flushed |
| `Finality.PastForever` | backend/locking/manager.cc:59-63 | If the clock has dispensed t or the system clock has been read past it and never goes back, the replay up to t stays the same and new commits are after t |
| `Finality.CommitsStopExactly` | backend/locking/manager.cc:56-71 | When the wait for t has returned, no later commit gets a timestamp at or before t, in any run, if and only if the clock has dispensed one that late; on a system clock that never goes back, if and only if it has or the last reading is past t |
| `Finality.FinalExactly` | backend/locking/manager.cc:56-71 | The state at t is final if and only if one of these conditions holds, or t is the very next time the clock can dispense, a commit that will not abort has yet to call Now, and no prefix of its writes, flushed at t, changes a reading at t |
| `Finality.SilentIsFinal` | backend/locking/handle.cc:124-143 | While a commit that changes nothing at the next time to be dispensed has yet to call Now, no other commit can change the state there |
| `Finality.FutureWaitIsOpen` | backend/locking/manager.cc:56-71 | A wait for time 5 on an empty database whose clock stands at 0 returns with a commit still able to get a timestamp not after 5 |
| `Finality.AwaitedIsFinal` | backend/locking/manager.cc:59-63 | On a system clock that never goes back, a wait that ends past t makes the state at t final, whether or not the clock has dispensed t |
| `Graph.VisitNode` | backend/common/graph_dependency_helper.h:173-197 | Terminates; on success the node is finished after everything it points to and the stack is as before; on failure the stack closes a cycle |
| `Graph.VisitNodes` | backend/common/graph_dependency_helper.h:199-208 | Succeeds if and only if the graph is acyclic, with every node ordered after its targets |
| `Graph.OrderedIsAcyclic` | backend/common/graph_dependency_helper.h:173-208 | A graph with such an order has no cycle |
| `Graph.OrderIsPermutation` | backend/common/graph_dependency_helper.h:199-208 | Such an order lists every node exactly once |
| `Graph.GraphDependencyHelper.constructor` | backend/common/graph_dependency_helper.h:63-69 | An empty graph |
| `Graph.GraphDependencyHelper.AddNodeIfNotExists` | backend/common/graph_dependency_helper.h:129-136 | Appends a node; a name keeps meaning the first node that had it |
| `Graph.FoldMeaning` | backend/common/case.h:58-79 | Two names are the same exactly if they differ at most in the case of ASCII letters |
| `Graph.GraphDependencyHelper.AddEdgeIfNotExists` | backend/common/graph_dependency_helper.h:138-153 | Fails, changing nothing, exactly on an unknown name; otherwise adds exactly the one edge |
| `Graph.GraphDependencyHelper.DetectCycle` | backend/common/graph_dependency_helper.h:155-159 | Succeeds if and only if the graph is acyclic; the reported stack contains a cycle |
| `Graph.GraphDependencyHelper.TopologicalOrder` | backend/common/graph_dependency_helper.h:161-171 | Succeeds if and only if the graph is acyclic, appending every node's value with edge targets before their sources |
| `EvaluatedColumns.GetEvaluatedColumnsInTopologicalOrder` | backend/actions/evaluated_column.cc:67-87 | Succeeds if and only if no column depends on itself through others; lists every generated or default column once, after what it depends on |
| `EvaluatedColumns.DependentColumns` | backend/actions/evaluated_column.cc:136-155 | Collects exactly the columns some evaluated column depends on, each once |
| `EvaluatedColumns.Evaluate` | backend/actions/evaluated_column.cc:316-369 | The loop computes the evaluation function, errors included |
| `EvaluatedColumns.ComputeMeaning` | backend/actions/evaluated_column.cc:157-176 | A column's value is what its expression gives for the values of its dependencies in order, an error of the expression is returned, and NULL is refused exactly in a column that is not nullable |
| `EvaluatedColumns.EquationIsComputed` | backend/actions/evaluated_column.cc:157-176 | A row satisfies a column's equation, stated over the expression itself, exactly if computing the column from the row gives its value |
| `EvaluatedColumns.FailsAtFirst` | backend/actions/evaluated_column.cc:316-369 | The loop fails exactly if some column cannot be computed from what the columns before it left, with that error |
| `EvaluatedColumns.ComputeDependsOnDeps` | backend/actions/evaluated_column.cc:157-176 | A column's value depends only on its dependency columns |
| `EvaluatedColumns.EvaluationSolves` | backend/actions/evaluated_column.cc:316-369 | On success every computed column equals its expression over the final row, other columns are as given, and the queued update is exactly the computed columns |
| `EvaluatedColumns.NotNullIsEnforced` | backend/actions/evaluated_column.cc:170-173 | On success no computed NOT NULL column is NULL |
| `EvaluatedColumns.SolutionIsEvaluated` | backend/actions/evaluated_column.cc:316-369 | Any row solving the column equations is the one the loop finds |
| `EvaluatedColumns.OrderDoesNotMatter` | backend/actions/evaluated_column.cc:316-369 | Any two evaluation orders succeed together and give the same row |
| `EvaluatedColumns.EffectInsert` | backend/actions/evaluated_column.cc:257-280 | The insert path runs the evaluation from the given values with NULL for missing columns without default |
| `EvaluatedColumns.InsertStartsFrom` | backend/actions/evaluated_column.cc:257-280 | An insert is evaluated from the values given, with NULL for the columns left out that have no default |
| `EvaluatedColumns.InsertIsTheSolution` | backend/actions/evaluated_column.cc:257-280 | One pass of the effector over an insert succeeds exactly if the column equations have a solution, and the row it computes is the only one; what the queue leaves is EvaluationQueue.InsertSettlesExactly |
| `EvaluatedColumns.EffectUpdate` | backend/actions/evaluated_column.cc:282-314 | The update path, its early return and its error cases included |
| `EvaluatedColumns.PatchedMeaning` | backend/actions/evaluated_column.cc:282-314 | The patched row has the values given, and elsewhere the stored ones, NULL where none is stored |
| `EvaluatedColumns.UpdateIsTheSolution` | backend/actions/evaluated_column.cc:282-369 | Reading only dependencies and patches: the update succeeds exactly if the equations have a solution over the whole patched row, and leaves that solution |
| `EvaluatedColumns.UpdateIsRecomputation` | backend/actions/evaluated_column.cc:282-369 | For every table the schema accepts, every row and every update: reading only dependencies and patches agrees with recomputing every generated column, and every ON UPDATE column that is due, from the whole patched row |
| `EvaluationQueue.RefreshRound` | backend/actions/evaluated_column.cc:282-369 | Without generated columns, one update through the effector is stored as it is and queues exactly the ON UPDATE columns it left out, with their values |
| `EvaluationQueue.UpdateSettlesExactly` | backend/transaction/read_write_transaction.cc:548-569 | The queue of an update drains if and only if the table has a generated column outside the key, or the update gives all ON UPDATE columns or none; the row it then leaves is the recomputed one, and otherwise updates follow each other forever |
| `EvaluationQueue.InsertSettlesExactly` | backend/transaction/read_write_transaction.cc:548-569 | The queue of an insert drains under the same condition, and leaves the solution of the column equations if and only if there is such a generated column, or no ON UPDATE column was given, or every default column outside the key was, or all ON UPDATE columns were given with the values they are refreshed to |
| `EvaluationQueue.QueuesNothing` | backend/actions/evaluated_column.cc:257-280 | An insert queues no update exactly if the table has no generated column outside the key and every default column outside it is given |
| `EvaluationQueue.GivenIsOverwritten` | backend/actions/evaluated_column.cc:282-369 | Without generated columns, an insert that gives all ON UPDATE columns and leaves out another default column leaves the solution exactly if the given values are the refreshed ones, because the queued update overwrites them |
| `EvaluationQueue.OneOfTwoCycles` | backend/actions/evaluated_column.cc:282-369 | Two ON UPDATE columns and an update of one of them, to any value in any row: the queue never drains |
| `Cascade.AreColumnsOrderedPrefixOfPK` | backend/actions/foreign_key_actions.cc:48-60 | True exactly if the columns are a prefix of the key |
| `Cascade.AreColumnsUnorderedPrefixOfPK` | backend/actions/foreign_key_actions.cc:62-78 | True exactly if the leading key columns are all among the columns |
| `Cascade.GetKeyPrefixShape` | backend/actions/foreign_key_actions.cc:80-98 | Decides the shape: in order is being the key, in-order prefix a proper prefix of it, out of order having the leading key columns among the columns in another order |
| `Cascade.GetPrimaryKeyColumnPositions` | backend/actions/foreign_key_actions.cc:104-122 | The position of each key column among the columns, or missing |
| `Cascade.ComputePk` | backend/actions/foreign_key_actions.cc:127-138 | The values in key order up to the first missing column |
| `Cascade.RangeIsPrefix` | backend/datamodel/key_range.cc:49-56 | The point range of a prefix spans exactly the keys that extend it; this is how the cursor selects rows |
| `Cascade.ArrangedFinds` | backend/actions/foreign_key_actions.cc:104-138 | The arranged tuple is a prefix of a row's key exactly if it is the row's foreign key tuple |
| `Cascade.ReferencersMeaning` | backend/actions/foreign_key_actions.cc:242-290 | A row references another exactly if, column by column, it has its values and none is NULL |
| `Cascade.ProcessDeleteForUnorderedReferencingKey` | backend/actions/foreign_key_actions.cc:153-171 | Deletes exactly the rows whose foreign key columns equal the tuple, NULL taken for a value |
| `Cascade.ProcessDeleteForNonPKReferencingKey` | backend/actions/foreign_key_actions.cc:173-203 | Through the index, deletes exactly the rows whose foreign key columns equal the tuple, and none for a tuple with NULL |
| `Cascade.ProcessDeleteByKey` | backend/actions/foreign_key_actions.cc:205-240 | For every referencing shape, deletes exactly the rows whose foreign key columns equal the tuple it is given; through the index none for a tuple with NULL |
| `Cascade.Effect` | backend/actions/foreign_key_actions.cc:242-290 | For every pair of shapes, deletes exactly the rows whose foreign key columns equal the tuple sought for the deleted row; through the index none for a tuple with NULL |
| `Cascade.SoughtIsReferenced` | backend/actions/foreign_key_actions.cc:242-290 | The tuple sought is the deleted row's referenced tuple, unless the key is out of order with a permutation that is not its own inverse |
| `Cascade.CascadeIsExact` | backend/actions/foreign_key_actions.cc:242-290 | Over all rows, NULLs included, the cascade deletes exactly the referencing rows if and only if an out-of-order referenced key has an order that is its own inverse, and the referencing rows are found through the null-filtered index or no column of the foreign key may be NULL on both sides |
| `Cascade.NullMatchesNothing` | backend/actions/foreign_key_actions.cc:205-240 | If no column may be NULL on both sides, no row is taken to reference a tuple with NULL |
| `Cascade.NullIsTakenForValue` | backend/actions/foreign_key_actions.cc:205-240 | If some column may, and the referencing key begins with the foreign key, some data has a row deleted that references nothing |
| `Cascade.NullKeyFails` | backend/actions/foreign_key_actions.cc:205-240 | One nullable key column referencing another: deleting the row with key NULL deletes the unrelated row with key NULL |
| `Cascade.CyclicKeyFails` | backend/actions/foreign_key_actions.cc:242-250 | Key (A, B, C) referenced as (B, C, A): the referencing row stays and another is deleted |
| `Checks.Deduplicate` | backend/transaction/transaction_store.cc:200-216 | Keeps exactly the last write of each entry |
| `Checks.ApplyStatementVerifiers` | backend/transaction/read_write_transaction.cc:322-329 | Succeeds exactly if every constraint's verifiers pass for the last write of each entry |
| `Checks.ForeignKeyErrors` | backend/actions/foreign_key.cc:40-97 | An enforced foreign key refuses exactly the insert of a referencing entry without referenced entry and the delete of the last referenced entry under a referencing one, each with its own error |
| `Checks.UniqueErrors` | backend/actions/unique_index.cc:35-63 | UNIQUE refuses an insert exactly if two entries have its columns, and reports an internal error exactly if none has |
| `Checks.EntryAfter` | backend/transaction/transaction_store.cc:180-193 | What the last write of an entry says about whether the entry exists afterwards |
| `Checks.ForeignKeySound` | backend/actions/foreign_key.cc:40-97 | From a state meeting the foreign key, passing verifiers mean it holds for every entry, touched or not, delete-then-reinsert included, if every masked insert is answered for by another entry |
| `Checks.UniqueSound` | backend/actions/unique_index.cc:35-63 | The same for UNIQUE, without condition: index entries are inserted and deleted, never updated, so no insert is masked |
| `Checks.ChecksComplete` | backend/actions/foreign_key.cc:40-97 | If the constraint holds afterwards no verifier complains |
| `Checks.ChecksDecide` | backend/transaction/read_write_transaction.cc:322-329 | From a state meeting it, UNIQUE holds after the statement if and only if the verifiers pass; a foreign key does if every entry inserted and then updated shares its foreign key columns with an old entry, an entry inserted last, or a written entry of the referenced table |
| `Checks.DecidesExactly` | backend/transaction/read_write_transaction.cc:322-329 | Over everything the referenced table can hold, keys of one length told apart by the foreign key columns: whenever the statement passes UNIQUE there, the verifiers decide the foreign key, if and only if that condition holds or the statement is refused in any case. It is if it inserts two referenced entries with the same foreign key columns, or one beside an old one that is referenced, or deletes one under a referencing entry and leaves none in its place |
| `Checks.RefusedFails` | backend/actions/foreign_key.cc:66-97 | A refused statement fails the foreign key or the UNIQUE verifier whatever the referenced table holds |
| `Checks.SameTableIsVouched` | backend/actions/foreign_key.cc:40-97 | It always holds when both data tables are the same |
| `Checks.MaskedInsertEscapes` | backend/transaction/transaction_store.cc:200-216 | An insert and an update of the same entry pass every check with the foreign key violated |
| `InsertChecks.InsertIsMasked` | backend/transaction/transaction_store.cc:200-216 | A plain insert is masked exactly if the table has a generated column outside the key or the insert leaves out a default column |
| `InsertChecks.PlainInsertEscapesExactly` | backend/actions/evaluated_column.cc:257-280 | Inserting one row into a referencing table whose key begins with the foreign key: the foreign key holds afterwards exactly if the referenced key exists, and the verifiers pass exactly if it does or the insert is masked |
| `Indexes.MakeRow` | backend/common/rows.cc:37-43 | Of repeated columns the first counts |
| `Indexes.ComputeIndexKey` | backend/common/indexing.cc:48-59 | The values of the index data table's key columns, or the size error |
| `Indexes.ComputeIndexValues` | backend/common/indexing.cc:61-67 | The values of the index data table's columns |
| `Indexes.ShouldFilterIndexKeyOrValue` | backend/common/indexing.cc:69-88 | True exactly on a NULL in the columns the index filters |
| `Indexes.ReadBaseTableRow` | backend/actions/index.cc:44-60 | The base row restricted to the index's columns; empty exactly if there is no row |
| `Indexes.EffectInsert` | backend/actions/index.cc:71-85 | The effects of an insert, filtering and the size error included |
| `Indexes.EffectUpdate` | backend/actions/index.cc:87-134 | The effects of an update, with its error cases in their order, as UpdateEffects gives them place by place |
| `Indexes.EffectDelete` | backend/actions/index.cc:136-166 | The effects of a delete, with its error cases |
| `Indexes.PatchGiven` | backend/actions/index.cc:105-108 | Of the values given for a column the last is the one it has afterwards |
| `Indexes.PatchOther` | backend/actions/index.cc:105-108 | Columns not given are as they were |
| `Indexes.EntryMeaning` | backend/common/indexing.cc:48-88 | An entry has the row's value, or NULL, in each place; a NULL_FILTERED index leaves a row out on a NULL in its own key columns, another on a NULL in the columns it names |
| `Indexes.InsertEffects` | backend/actions/index.cc:71-85 | An insert adds the entry of the values given, place by place; the filter and the size error |
| `Indexes.UpdateEffects` | backend/actions/index.cc:87-134 | An update deletes the entry of the stored values and inserts that with the given value where the column is updated and the stored value elsewhere; all error cases in their order |
| `Indexes.DeleteEffects` | backend/actions/index.cc:136-166 | A delete removes the entry of the stored values; all error cases in their order |
| `Indexes.EffectsRefine` | backend/actions/index.cc:71-166 | The effects of an accepted write take the image of the base table before the write to its image after it, whether the key stays, moves, or enters or leaves the null filter |
| `Indexes.EmptyIndex` | backend/actions/index.cc:64-69 | An empty base table with an empty index meets the invariant |
| `Indexes.StepKeeps` | backend/transaction/read_write_transaction.cc:548-569 | Processing or adding any queued write keeps the index, with its queued effects applied, the image of the base table |
| `Indexes.IndexRefinesBase` | backend/transaction/read_write_transaction.cc:548-569 | Over every run, whenever no effect is queued the index is exactly the image of the unfiltered base rows |
| `Indexes.RefinementIsUnique` | backend/actions/index.cc:71-166 | There is only one such index |
| `ChangeStreams.CheckIfNonKeyColumnsRemainSame` | backend/actions/change_stream.cc:139-160 | Decides the comparison of counts and members |
| `ChangeStreams.JoinsSameColumns` | backend/actions/change_stream.cc:139-160 | A write joins a group only if it records exactly the group's non-key columns |
| `ChangeStreams.ModRecordsWrite` | backend/actions/change_stream.cc:260-320 | A recorded insert or update carries the written values in column order, and NULL or the committed value where it wrote none |
| `ChangeStreams.ModRecordsOld` | backend/actions/change_stream.cc:231-256 | Old values are recorded of updates and deletes under the two capture types that have them: the committed ones, under NEW_ROW_AND_OLD_VALUES only of the columns an update sets |
| `ChangeStreams.RecordedColumns` | backend/actions/change_stream.cc:203-228 | The recorded non-key columns are the tracked ones, in order: of those an update sets under OLD_AND_NEW_VALUES and NEW_VALUES, and otherwise of all the table's |
| `ChangeStreams.LogTableMod` | backend/actions/change_stream.cc:323-507 | One write: exclusions, each by its own flag, flush of the last group, new or extended group |
| `ChangeStreams.LogAdds` | backend/actions/change_stream.cc:323-507 | Each write of a watched table appends to the recorded and waiting modifications exactly one of its own type, if its kind is not excluded and it is no update without recorded non-key column, and otherwise none |
| `ChangeStreams.JoinsExactly` | backend/actions/change_stream.cc:139-160 | A write joins a group exactly if it has its table, type and non-key columns and records no tracked key column |
| `ChangeStreams.LogGroups` | backend/actions/change_stream.cc:323-420 | Which writes share a record: a write that joins extends the open group; any other captured write closes it, and opens another if it leaves something |
| `ChangeStreams.BuildMutation` | backend/actions/change_stream.cc:740-791 | The open group becomes the last record; flags and counts are set |
| `ChangeStreams.BuildChangeStreamWriteOps` | backend/actions/change_stream.cc:793-837 | For any order in which the streams are walked: the write operations are the streams' records one stream after another, and those of each stream are its finished records in sequence order |
| `ChangeStreams.OrderedRecords` | backend/actions/change_stream.cc:740-791 | Whatever the order, the records of a stream are written once if it comes up, and else not at all |
| `ChangeStreams.RecordsConserveWrites` | backend/actions/change_stream.cc:323-837 | Concatenated in sequence order the records hold exactly the watched, non-excluded writes that record something, in order, each under its own table, type and non-key columns; records are numbered 0 to n-1, carry n, and only the last is flagged |
| `CacheKeys.SettingsValues` | backend/database/schema_create_cache.cc:329-341 | The loop builds the settings string |
| `CacheKeys.SettingsDecode` | backend/database/schema_create_cache.cc:329-341 | Decoding a settings string gives back the settings |
| `CacheKeys.Key` | backend/database/schema_create_cache.cc:357-369 | The loop builds the key |
| `CacheKeys.KeyDecodes` | backend/database/schema_create_cache.cc:357-369 | Decoding a key gives back dialect, settings, descriptors and statements, for arbitrary strings |
| `CacheKeys.SettingsLookLikeThis` | backend/database/schema_create_cache.cc:329-341 | A concrete settings string |
| `CacheKeys.KeyLooksLikeThis` | backend/database/schema_create_cache.cc:357-369 | A concrete key |
| `CacheKeys.KeyIsInjective` | backend/database/schema_create_cache.cc:329-369 | Two requests have the same key exactly if dialect, settings, descriptors and statements are the same |
| `LruCache.SchemaCreateCache.constructor` | backend/database/schema_create_cache.h:99-99 | An empty cache |
| `LruCache.SchemaCreateCache.Lookup` | backend/database/schema_create_cache.cc:371-382 | A hit returns the entry and moves it to the front, a miss changes nothing; list and index stay in bijection |
| `LruCache.SchemaCreateCache.Insert` | backend/database/schema_create_cache.cc:391-405 | Replaces and moves to the front, or adds in front and drops what is over capacity; list and index stay in bijection, size within capacity |
| `LruCache.SchemaCreateCache.Evict` | backend/database/schema_create_cache.cc:401-404 | Keeps the first capacity items |
| `LruCache.KeepsMostRecentlyUsed` | backend/database/schema_create_cache.cc:371-405 | Over every run the cache holds the capacity most recently used keys, in order, each with its latest entry |
| `LruCache.ListedByUse` | backend/database/schema_create_cache.cc:371-405 | The cache is the first keys of a list in which each was inserted or hit after the last insert or hit of every key after it, as many as the capacity allows |
| `LruCache.ListedAreInserted` | backend/database/schema_create_cache.cc:391-405 | That list holds exactly the keys ever inserted |
| `LruCache.LatestIsLast` | backend/database/schema_create_cache.cc:391-405 | The entry of a key is the one inserted last under it |
| `CachePublish.EmulatorFeatureFlags.constructor` | common/feature_flags.h:106-108 | The given flags are the only ones written, under generation 0 |
| `CachePublish.EmulatorFeatureFlags.TakeSnapshot` | common/feature_flags.h:82-88 | The snapshot has the flags of the write its generation counts, which is the last one so far; the history of writes is only extended, so it keeps naming them |
| `CachePublish.EmulatorFeatureFlags.SetFlags` | common/feature_flags.h:90-97 | Moves the flags to the next generation as the publishing steps do, and appends to the history of writes |
| `CachePublish.EmulatorFeatureFlags.Unchanged` | backend/database/schema_create_cache.cc:352-355 | True exactly if no write followed the snapshot's, also when the same flags came back |
| `CachePublish.KeyNamesOne` | backend/database/schema_create_cache.cc:329-369 | A cache key is the key of one request under one set of flags |
| `CachePublish.StepKeeps` | backend/database/database.cc:115-181 | Every step of every creator, and every change of flags, keeps the invariant |
| `CachePublish.PublishIsSafe` | backend/database/database.cc:115-181 | In every run the entry found under the key string of a request and flags, and every schema served, is the result of processing that request with every read of the flags seeing those flags |
| `CachePublish.UnchangedIsPublished` | backend/database/database.cc:115-181 | A create that finds nothing, with the flags left alone however often they are read, ends with what processing gave in the cache under its key and nothing else changed there |
| `CachePublish.PublishedIsServed` | backend/database/database.cc:115-181 | A create whose key is in the cache can be served that entry |
| `CachePublish.UndoneChangeIsRejected` | backend/database/schema_create_cache.cc:345-355 | A change undone before the check leaves equal flags and a wrong schema, and the generation keeps it out |

## Left out

- Finality.AwaitedIsFinal: for a wait that ends past t; one that ends at exactly t leaves t to the next commit if the clock has not dispensed it, as CommitsStopExactly says.
- EvaluationQueue.UpdateSettlesExactly: one write of a row at a time; several writes of the same row in one statement, interleaved in the queue, are not modelled, here or in InsertSettlesExactly.
- InsertChecks.PlainInsertEscapesExactly: a statement that inserts one row; its writes in other tables do not matter to the verifiers of that row.
- KeySets.MakeDisjointKeyRanges: the library sort is a parameter, any sorted permutation.
- Column types, partition tokens and the JSON of change stream records.
- Key column values are NULL or integers; value types, floating point order and byte sizes are not modelled, and the key size limit of an index is an arbitrary condition.
- Rewriting of commit timestamp values while flushing, and of keys that contain them.
- The transaction's own buffered writes in its reads; reads in the protocol are of committed storage.
- One process per lock handle; the transaction's own mutex serialises the calls on a handle.
- Dropped tables and columns, and changes of the version retention period.
- The first acquisition of the manager's mutex in WaitForSafeRead, which the wait for the system clock gives up again.
- Random commit aborts, hooks and counters other than cache hits and misses.
- The generated key column effector, validators, interleave cascades, check constraints.
- Evaluation of SQL expressions, which are arbitrary functions of their dependency columns.
- Copying of schemas, sequences and identifier counters; the copy is of rows.
- Command line flags in the cache settings are constant.
