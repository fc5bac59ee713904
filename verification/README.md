# Verified model of the KV tiering plugin

This project models four cooperating parts of `vllm_hust_kv_tiering` in Dafny and proves what they
promise. `dafny verify dfyconfig.toml` checks all of it.

**Segment store.** Blocks are appended to segment files over several shards, behind a table of rows and
a location cache. `SegmentFiles`, `SegmentReads` and `Disk` say what positioned, gathered and scattered
I/O does to bytes; `SegmentIo` batches it. `SegmentAllocation` is the slot allocator and its persisted
marks, `SegmentAccounting` its closed form. `SegmentModel` gives the store's operations as functions,
`SegmentStore` the class whose methods carry them out with their loops, batches and failures.
`StoreProtocol` interleaves the steps of any number of jobs (prepare, part of a write, publish, give up,
look up, delete, crash and reopen with another geometry) and proves their invariant; `StoreRuns` says what
follows over whole runs, `StoreAccounting` how a run fills the shards of a fresh store, `StoreOpening`
where an earlier store goes on, `StoreReuse` when bytes are handed out again, `StoreRoundTrip` what a whole
store and a load give.

**Worker pool.** `PoolProtocol` has the steps that workers take, each atomic under its lock, and the
invariant that accounts for every task and every job; `PoolRuns` proves exactly-once reporting, the meaning
of waiting, and progress; `ThreadPool` has the classes. `LoadTasks`, `TierProtocol`, `TierSteps` and
`TierRuns` put the pool, the store and the rows of the primary view together, so that a reported success
means that the data is there; `TierReuse` says exactly when that holds of a load, and `TierTasks` that what
the store's methods do in one call, the tier's steps do too. `TierManager` has the methods that split jobs.

**Block copies.** `AscendLayout` builds a layout or refuses it, `CopyPlans` and `CopySpans` compute which
bytes of which CPU block belong to a device block, `CopyTransfers` proves that what was stored is restored,
and `AscendWorker` is the worker that copies and reports. `LayoutLaws` and `CopyAddresses` say the same of
layouts and addresses in absolute terms. `Divisions` holds the arithmetic.

**Metadata.** `LookupProtocol` and `AsyncLookup` are the lookup manager with its two queues, `LookupAnswers`
what its answers say; `ResidencyModel`, `ResidencyRuns`, `Residency` the tracker of blocks, `ResidencyLaws` what
each field of a block means, read off the calls made; `LifecycleModel`, `LifecycleRuns`, `Lifecycle` the sessions
that own them, `LifecycleLaws` what each call does to each field of a session; `Ages` sorts by age. `Basics` and
`Wrappers` hold the types that all parts share.

The pattern is the same throughout. A datatype holds the state, functions give each step its effect, lemmas
prove that every step keeps an invariant and what every run from an initial state satisfies. Classes keep
the fields of the original, and their methods ensure that the state after the call is the function of the
state before it; where a call can fail, the contract says what each failure leaves behind. History that only
the proofs need (slots issued, bytes published, task outcomes, reports) is part of the protocol states, not
of the classes.

## Findings

Four properties that one would expect of the code do not hold of it as it is. For each there is a run in which
it fails, and the exact condition under which it holds.

- **A load may succeed with the wrong bytes.** A store with a single append stream and without metadata rows
  takes the end of the stream from the table. Deleting its last rows lowers it, and the next job can be given
  bytes that a load in flight is still to read. A looked-up location keeps its bytes over every run of the open
  store if and only if the metadata has shard rows, or both rows of the append stream, or the location lies
  above the segment size (`StoreReuse.BytesLastExactly`); under the same condition, which a caller can check
  when it submits the load, and only then, every load that is reported successful has the right bytes
  (`TierReuse.LoadsFilledExactly`, with the failing run of the whole tier in `TierReuse.WrongBytes`). The first
  prepare writes the shard rows and ends the matter.
- **A lookup may never be answered.** The pairing of keys and hits stops at the shorter list. Keys that are
  asked about nowhere else are all answered if and only if no call of the tier's lookup returns fewer hits than
  keys (`LookupProtocol.ShortRepliesLose`, `OneAnswerPerPair`); `LookupProtocol.AKeyIsLost` is a run that loses
  a key, and `LostStaysLost` says for how long. The replies of the file system tier are always complete
  (`TierManagers.FileSystemTierManager.LookUpGroups`).
- **The expiration gate may open early.** It is a lower bound of the deadlines, not their minimum
  (`LifecycleRuns.GateMayOpenEarly`). A call leaves it at the minimum if and only if some session keeps the earliest
  deadline: finalizing and pruning delete sessions, and finishing a request of an idle session puts its deadline
  off, without looking at the gate again (`LifecycleRuns.GateStaysExact`).
- **A failed job's rows may be in the table.** They are if and only if the completion callback raised after its
  commit, in the read-back (`TierRuns.FailedButPublished`); this can happen to every job whose tasks succeeded
  (`TierRuns.EveryJobMayFailPublished`). The rows are right even then (`TierRuns.RowsAsSubmitted`).

## Model

| member | source | states |
|---|---|---|
| `StoreRuns.RowsHoldTheirJobsBytes` | src/vllm_hust_kv_tiering/fs/segment_store.py:276-417 | In every interleaving of prepares, partial writes, publishes, failures, lookups, deletes and reopenings of any jobs, a row that a job inserts points at exactly the bytes that the job had for the key, from the insertion until the key is deleted. |
| `StoreRuns.PublishedRow` | src/vllm_hust_kv_tiering/fs/segment_store.py:394-417 | The row that a completing job inserts is readable and holds the bytes of the view row that the job planned for the key. |
| `StoreRuns.RunKeepsRow` | src/vllm_hust_kv_tiering/fs/segment_store.py:347-417 | No step of any job changes a row or its bytes, short of deleting its key. |
| `StoreRuns.SlotsNeverOverlap` | src/vllm_hust_kv_tiering/fs/segment_store.py:124-174 | No two slots ever handed out share a byte: over failed writes, deletes, and reopening with other numbers of shards, other segment sizes or single-stream state. |
| `StoreRuns.StepIssues` | src/vllm_hust_kv_tiering/fs/segment_store.py:300-316 | Slots are only ever added, and each lies inside a segment of the size in force. |
| `StoreProtocol.StepKeeps` | src/vllm_hust_kv_tiering/fs/segment_store.py:276-417 | Every step keeps the invariant: persisted shards are distinct and below the next segment id, all issued slots are below the persisted marks, the cache is a subset of the table, rows point at sealed bytes, plans in flight overlap neither each other nor sealed bytes. |
| `StoreProtocol.InitialInv` | src/vllm_hust_kv_tiering/fs/segment_store.py:124-138 | The invariant holds of a fresh store and of one left with a single append stream, with or without its metadata rows. |
| `StoreRuns.LoserKeepsWinner` | src/vllm_hust_kv_tiering/fs/segment_store.py:410-414 | Of two jobs that race on a key, the later one leaves the row alone, and the cache never holds the losing slot. |
| `StoreRuns.LookupIsPlain` | src/vllm_hust_kv_tiering/fs/segment_store.py:183-212 | In every reachable state, a lookup through the cache is a plain lookup in the table, for any list of keys. |
| `StoreRuns.RemovedEverywhere` | src/vllm_hust_kv_tiering/fs/segment_store.py:508-537 | After a delete, neither the table nor the cache has any of the keys. |
| `StoreRuns.LocatedBytesLast` | src/vllm_hust_kv_tiering/fs/segment_store.py:124-174 | Once the metadata says where allocation goes on (shard rows, or both rows of a single append stream), the bytes at a location that was looked up never change again, deleted or not, over crashes and reopenings with any geometry. |
| `StoreReuse.BytesLastExactly` | src/vllm_hust_kv_tiering/fs/segment_store.py:124-174 | The bytes of a published location stay as they are over every run of the open store, whatever is deleted, if and only if the metadata has these rows, or the location is empty or above the segment size. (Assumed: the next segment id and the cursor are only ever persisted together with the shards.) |
| `StoreReuse.BytesOverwritten` | src/vllm_hust_kv_tiering/fs/segment_store.py:131-138 | Otherwise there is a run, of any such store and for any such location: delete all keys, prepare a job with enough of them, write its slot over the location. |
| `StoreReuse.RunKeepsTogether` | src/vllm_hust_kv_tiering/fs/segment_store.py:323-341 | Every run keeps the next segment id and the cursor together with the shards. |
| `StoreRuns.RemoveGivesUp` | src/vllm_hust_kv_tiering/fs/segment_store.py:124-138 | A location that was published stays protected across a delete if and only if the store has shard rows or the location ends below the append stream that is left. When the unprotected ones are handed out again is the subject of `StoreReuse`. |
| `StoreRuns.DeletedLegacyRowOverwritten` | src/vllm_hust_kv_tiering/fs/segment_store.py:131-138 | The smallest such run: after the only row of a single-stream store without metadata rows is deleted, the next job writes over the same bytes. |
| `SegmentAllocation.AllocationStep` | src/vllm_hust_kv_tiering/fs/segment_store.py:140-174 | An allocation hands out pairwise disjoint slots inside their segments, and persisting it covers them and keeps the shard rows valid. |
| `SegmentAllocation.AllocationKeeps` | src/vllm_hust_kv_tiering/fs/segment_store.py:296-345 | A location that was covered before an allocation stays covered and is disjoint from every new slot, with any number of configured shards. |
| `SegmentAllocation.PersistRoundTrip` | src/vllm_hust_kv_tiering/fs/segment_store.py:323-341 | Opening the metadata that was persisted gives back the allocator that was persisted. |
| `SegmentAllocation.OpenValid` | src/vllm_hust_kv_tiering/fs/segment_store.py:140-174 | The allocator read from any valid metadata, with more or fewer shards than before, has distinct open segments, none below what is taken. |
| `StoreOpening.LegacyStoreGoesOn` | src/vllm_hust_kv_tiering/fs/segment_store.py:131-174 | A store with both rows of a single append stream: its first slot is at the persisted segment and offset if a block fits there, else at the start of the first segment that no shard takes; the other shards begin in segments of their own. |
| `StoreOpening.UnmarkedStoreGoesOn` | src/vllm_hust_kv_tiering/fs/segment_store.py:134-174 | ... and without these rows, at the end of the last block of the highest segment. |
| `StoreOpening.ShardsGoOn` | src/vllm_hust_kv_tiering/fs/segment_store.py:143-173 | Opened with any number of shards, a shard with rows goes on where they say, each other one begins in a new segment, no two share one, and the cursor is the persisted one modulo the number. |
| `StoreAccounting.SlotsInTurn` | src/vllm_hust_kv_tiering/fs/segment_store.py:300-316 | Over any run from a fresh store, with failed jobs, deletes and crashes (reopened with the same geometry), the i-th slot handed out is on shard i mod S, in segment (i div S div B) * S + i mod S at place i div S mod B, for B blocks to a segment. |
| `StoreAccounting.BlocksPerShard` | src/vllm_hust_kv_tiering/fs/segment_store.py:300-301 | Of the N slots that a run has handed out, exactly (N+S-1-k) div S lie on shard k. |
| `StoreAccounting.ShardsBalanced` | src/vllm_hust_kv_tiering/fs/segment_store.py:300-321 | After any run, no shard has been handed two slots more than another. |
| `StoreAccounting.SegmentsFillFirst` | src/vllm_hust_kv_tiering/fs/segment_store.py:303-306 | When a shard is handed a slot of a later segment, every place of the segment before it in the same shard was handed out earlier: no segment is left before it is full. |
| `StoreAccounting.RowsOfRun` | src/vllm_hust_kv_tiering/fs/segment_store.py:323-341 | After any run that handed out N slots, the persisted segment and offset of each shard are those of its (N+S-1-k) div S blocks, the cursor is N mod S, and the next segment id is S plus all rollovers. |
| `StoreAccounting.LaneShare` | src/vllm_hust_kv_tiering/fs/segment_store.py:297-321 | The part of a plan that goes to shard k has its share of the new blocks, counted from the cursor. |
| `SegmentAccounting.NextSegmentOfShard` | src/vllm_hust_kv_tiering/fs/segment_store.py:303-306 | The segment id that a shard takes when it rolls over, the next free one of all, is always S above its last one. |
| `SegmentModel.UniquePlans` | src/vllm_hust_kv_tiering/fs/segment_store.py:287-294 | A key is planned exactly when it was asked for and has no location. |
| `SegmentModel.UniqueBlocks` | src/vllm_hust_kv_tiering/fs/segment_store.py:288-292 | ... with the block of its first occurrence. |
| `SegmentModel.PlanComplete` | src/vllm_hust_kv_tiering/fs/segment_store.py:297-320 | Every chosen key is planned, once; listing the writes shard by shard loses and repeats nothing. |
| `SegmentModel.InsertRowsFacts` | src/vllm_hust_kv_tiering/fs/segment_store.py:397-408 | Publishing keeps every row that is there and adds one for every new key of the plan. |
| `SegmentFiles.InterleavingIrrelevant` | src/vllm_hust_kv_tiering/fs/segment_store.py:364-378 | Writes to different segments may interleave in any order; the files depend only on the order within each segment. |
| `SegmentFiles.GatherRun` | src/vllm_hust_kv_tiering/fs/segment_store.py:381-392 | One gathered write of a run of adjacent entries leaves the files as writing them one by one does. |
| `SegmentFiles.GatherCut` | src/vllm_hust_kv_tiering/fs/segment_store.py:235-241 | A gathered write cut short leaves the first entries in full and part of the next. |
| `SegmentReads.ReadOrderIrrelevant` | src/vllm_hust_kv_tiering/fs/segment_store.py:437-449 | Reading blocks into distinct rows gives the same view in any order. |
| `SegmentReads.SortIsSorted` | src/vllm_hust_kv_tiering/fs/segment_store.py:449 | Sorting the reads by segment and offset keeps each of them, as often as it is there, and puts them in order. |
| `SegmentReads.ReadEachRow` | src/vllm_hust_kv_tiering/fs/segment_store.py:438-448 | Reading into distinct rows leaves in each row the bytes at its location. |
| `SegmentReads.ReadEachKeeps` | src/vllm_hust_kv_tiering/fs/segment_store.py:438-448 | Rows that no read names stay as they were. |
| `Disks.Disk.Pwritev` | src/vllm_hust_kv_tiering/fs/segment_store.py:238-241 | A vectored write takes all of the buffers; on a faulty segment any prefix, or it fails. |
| `Disks.Disk.Preadv` | src/vllm_hust_kv_tiering/fs/segment_store.py:257-260 | A vectored read that returns all requested bytes has filled every row; it returns less only on a faulty segment or where bytes are missing, and then promises only the sizes and the rows not asked for. |
| `SegmentIo.PwritevAll` | src/vllm_hust_kv_tiering/fs/segment_store.py:224-241 | Writing in batches of any size is writing piece by piece; it stops short only on a faulty segment, and leaves a prefix of the pieces. |
| `SegmentIo.PreadvAll` | src/vllm_hust_kv_tiering/fs/segment_store.py:243-260 | Reading in batches of any size is reading block by block; it fails only on a faulty segment or where a block is not there. |
| `SegmentStores.SegmentStore.constructor` | src/vllm_hust_kv_tiering/fs/segment_store.py:53-62 | The segment size is the largest multiple of the block size that fits. |
| `SegmentStores.SegmentStore.GetLocations` | src/vllm_hust_kv_tiering/fs/segment_store.py:183-212 | Answers are those of the cache over the table, in order, for duplicate keys and any number of query batches; the cache gains what the table knew. |
| `SegmentStores.SegmentStore.ContainsMany` | src/vllm_hust_kv_tiering/fs/segment_store.py:214-215 | A hit for exactly the keys in the cache or the table. |
| `SegmentStores.SegmentStore.LatestStream` | src/vllm_hust_kv_tiering/fs/segment_store.py:124-138 | The append stream of a store without shard rows. |
| `SegmentStores.SegmentStore.OpenAllocator` | src/vllm_hust_kv_tiering/fs/segment_store.py:140-174 | The loop over the shards reads the allocator of the specification. |
| `SegmentStores.SegmentStore.Place` | src/vllm_hust_kv_tiering/fs/segment_store.py:297-321 | The allocation loop hands out the specified slots and lists the writes shard by shard. |
| `SegmentStores.SegmentStore.ChooseSources` | src/vllm_hust_kv_tiering/fs/segment_store.py:287-292 | The keys without a location, each once, with the block of its first occurrence. |
| `SegmentStores.SegmentStore.PrepareStore` | src/vllm_hust_kv_tiering/fs/segment_store.py:276-345 | The plan and the new state are those of the specification; unequal lengths change nothing; it fails otherwise exactly when there is something to plan and the database refuses the commit, and then only the cache has changed. |
| `SegmentStores.SegmentStore.WriteEntries` | src/vllm_hust_kv_tiering/fs/segment_store.py:347-392 | Coalescing and batching, for any sequence of entries and any batch size, write the files exactly as one write per entry does; it fails only at an entry on a faulty segment, and then the files hold the entries before that one and part of it. |
| `SegmentStores.SegmentStore.CompleteStore` | src/vllm_hust_kv_tiering/fs/segment_store.py:394-417 | A successful plan with entries is published, unless the database refuses the commit, which changes nothing, or the read-back, which leaves the cache behind; it raises exactly then. |
| `SegmentStores.SegmentStore.StoreMany` | src/vllm_hust_kv_tiering/fs/segment_store.py:262-274 | A whole job in one call is prepare, write, publish. It fails, for lists of equal length, only if there is something to store and a commit or the read-back is refused or a slot lies on a faulty segment; it publishes nothing then, or the whole plan when it is the read-back that is refused. |
| `SegmentStores.SegmentStore.LoadMany` | src/vllm_hust_kv_tiering/fs/segment_store.py:419-497 | A load with sorting, coalescing and batching fills the view as reading each key alone into its row would, given distinct rows, whenever every key is located and every block is there, of the right size, and on a segment without faults; it fails before anything is read when a key has no location; a failed read deletes the keys from table and cache, unless the database refuses; other rows are kept. |
| `SegmentStores.SegmentStore.GroupWrites` | src/vllm_hust_kv_tiering/fs/segment_store.py:499-506 | The writes by segment, the segments in order of first appearance. |
| `SegmentStores.SegmentStore.Delete` | src/vllm_hust_kv_tiering/fs/segment_store.py:508-537 | Table and cache lose the keys, and the keys that had a row are returned; it fails exactly when there are keys and the commit is refused, and then changes nothing. |
| `StoreRoundTrip.GroupHoldsSegment` | src/vllm_hust_kv_tiering/fs/segment_store.py:499-506 | The group of a segment holds exactly the writes to it, in order. |
| `StoreRoundTrip.GroupsGrouped` | src/vllm_hust_kv_tiering/fs/segment_store.py:499-506 | No group is empty, each is of one segment, and no two are of the same segment. |
| `StoreRoundTrip.GroupsInAnyOrder` | src/vllm_hust_kv_tiering/fs/segment_store.py:347-392 | However the group tasks of a plan interleave, the files end up as if the plan had been written entry by entry. |
| `StoreRoundTrip.StoreManyIsRun` | src/vllm_hust_kv_tiering/fs/segment_store.py:262-274 | A whole store is a run of the protocol. |
| `StoreRoundTrip.StoredRow` | src/vllm_hust_kv_tiering/fs/segment_store.py:262-345 | From any reachable state, after a store every key of the job has a readable row: with its earlier bytes if it was indexed, else with the bytes of its first occurrence in the job. |
| `StoreRoundTrip.StoreKeepsOthers` | src/vllm_hust_kv_tiering/fs/segment_store.py:262-345 | A store leaves the row and the bytes of every indexed key as they were. |
| `StoreRoundTrip.StoreThenLoad` | src/vllm_hust_kv_tiering/fs/segment_store.py:262-497 | Store, then load into distinct rows: each row gets what its key should hold, and all other rows stay. |
| `PoolProtocol.StepKeeps` | src/vllm_hust_kv_tiering/fs/thread_pool.py:115-203 | Every step of any number of workers keeps: each task is queued, running or done, once; a job counts its tasks and their conjunction; a complete job is with one worker or reported once; a callback runs once. |
| `PoolRuns.ReportsAreTrue` | src/vllm_hust_kv_tiering/fs/thread_pool.py:55-69 | A job is reported at most once, after its last task, and as a success exactly when all tasks went well and the callback, which ran once and was told so, did not raise. |
| `PoolRuns.CallbacksRunOnce` | src/vllm_hust_kv_tiering/fs/thread_pool.py:63-69 | In every reachable state a callback has run at most once, and never before the last task. |
| `PoolRuns.ReportsArriveInOrder` | src/vllm_hust_kv_tiering/fs/thread_pool.py:144-150 | The reader of finished jobs gets each report once and in order. |
| `PoolRuns.CounterIsUnreported` | src/vllm_hust_kv_tiering/fs/thread_pool.py:124-139 | The in-flight counter is the number of jobs not yet reported. |
| `PoolRuns.WaitingMeansIdle` | src/vllm_hust_kv_tiering/fs/thread_pool.py:152-161 | When the counter is zero, all tasks of all jobs are done and reported, nothing is queued, and every worker is idle. |
| `PoolRuns.SomeWorkerCanStep` | src/vllm_hust_kv_tiering/fs/thread_pool.py:176-203 | While a job is unreported, some worker can take a step. |
| `PoolRuns.WorkersFinish` | src/vllm_hust_kv_tiering/fs/thread_pool.py:176-203 | With no further jobs, workers take no more steps than a measure of what is queued and held. |
| `PoolRuns.StuckMeansReported` | src/vllm_hust_kv_tiering/fs/thread_pool.py:152-203 | When no worker can take a step, every job is reported. |
| `PoolRuns.EveryJobGetsReported` | src/vllm_hust_kv_tiering/fs/thread_pool.py:152-203 | From any reachable state the workers alone get the counter to zero. |
| `PoolRuns.ServedInOrder` | src/vllm_hust_kv_tiering/fs/thread_pool.py:185-187 | Each queue is first in, first out over any run: what it held and all that was added is, in this order, all that was taken and what it holds. |
| `PoolRuns.OwnKindFirst` | src/vllm_hust_kv_tiering/fs/thread_pool.py:185-187 | A worker takes from the other queue if and only if its own is empty. |
| `ThreadPools.JobState.TaskDone` | src/vllm_hust_kv_tiering/fs/thread_pool.py:55-62 | Counts one task, and tells whether it was the last and whether all went well. |
| `ThreadPools.DualQueueThreadPool.EnqueueLoad` | src/vllm_hust_kv_tiering/fs/thread_pool.py:115-127 | Queues all tasks of a load job under a new handle and counts the job. |
| `ThreadPools.DualQueueThreadPool.EnqueueStore` | src/vllm_hust_kv_tiering/fs/thread_pool.py:129-142 | The same for a store job with a callback. |
| `ThreadPools.DualQueueThreadPool.Pop` | src/vllm_hust_kv_tiering/fs/thread_pool.py:179-187 | A waiting worker takes the next task, of its own kind first. |
| `ThreadPools.DualQueueThreadPool.Finish` | src/vllm_hust_kv_tiering/fs/thread_pool.py:188-197 | The job counts the task; the worker of its last task goes on to the callback or the report. |
| `ThreadPools.DualQueueThreadPool.CalledBack` | src/vllm_hust_kv_tiering/fs/thread_pool.py:63-69 | A callback that raises turns the success into a failure. |
| `ThreadPools.DualQueueThreadPool.Report` | src/vllm_hust_kv_tiering/fs/thread_pool.py:199-203 | Appends the report and counts the job off. |
| `ThreadPools.DualQueueThreadPool.GetFinished` | src/vllm_hust_kv_tiering/fs/thread_pool.py:144-150 | Hands over the finished jobs, oldest first, and leaves none. |
| `LoadTasks.TasksCoverJob` | src/vllm_hust_kv_tiering/fs/manager.py:306-331 | The tasks of a load cover its keys, each with its block and the place where it was found, and nothing else. |
| `LoadTasks.SegmentsReadOnce` | src/vllm_hust_kv_tiering/fs/manager.py:301-331 | Each file task has one key, and each segment is read in one task. |
| `LoadTasks.TasksApart` | src/vllm_hust_kv_tiering/fs/manager.py:306-331 | When the blocks of a load are distinct, each block is in one task, for one key. |
| `TierManagers.FileSystemTierManager.SubmitStore` | src/vllm_hust_kv_tiering/fs/manager.py:256-282 | One write task for each segment of the plan, or one that does nothing, and the completion callback; it fails exactly for unequal lists and refused commits, and then enqueues nothing. |
| `TierManagers.FileSystemTierManager.SplitLoad` | src/vllm_hust_kv_tiering/fs/manager.py:301-331 | The splitting loop makes the specified tasks, for lists of any lengths, paired up to the shortest. |
| `TierManagers.FileSystemTierManager.SubmitLoad` | src/vllm_hust_kv_tiering/fs/manager.py:296-333 | Looks all keys up, and enqueues one load job of the tasks for as many keys as there are block ids. |
| `TierManagers.FileSystemTierManager.BatchLookup` | src/vllm_hust_kv_tiering/fs/manager.py:70-89 | One hit for each key: in the segment store, or else in a file of its own. |
| `TierManagers.FileSystemTierManager.LookUpGroups` | src/vllm_hust_kv_tiering/fs/manager.py:70-89 | Asked about any groups of keys, this tier gives as many hits as keys for each, all true of the cache, the table and the files: its replies are complete. |
| `TierManagers.StoredIsFound` | src/vllm_hust_kv_tiering/async_lookup.py:124-228 | From the table to the scheduler: after the tier has answered a batch and the scheduler has drained, the result of every tracked key that was asked about says whether it was cached, indexed, or in a file. |
| `TierSteps.StepKeeps` | src/vllm_hust_kv_tiering/fs/manager.py:255-333 | Every step of the tier keeps the invariant that ties the store, the pool and the rows together. |
| `TierSteps.SuccessMeansWritten` | src/vllm_hust_kv_tiering/fs/manager.py:262-281 | A callback that is told of success finds every entry of its plan written in full: writes come before publication. |
| `TierSteps.CompleteIsEnabled` | src/vllm_hust_kv_tiering/fs/manager.py:277-280 | So the publication is always one that the store protocol allows. |
| `TierSteps.WritesTheRow` | src/vllm_hust_kv_tiering/fs/manager.py:262-270 | A write task writes what its row of the primary view holds at that moment, and this is what the row held when the job was submitted. |
| `TierRuns.StoredMeansRetrievable` | src/vllm_hust_kv_tiering/fs/manager.py:255-282 | When a store job is reported successful, every key of it that was not deleted since submission is indexed and readable. |
| `TierRuns.PublishedBytes` | src/vllm_hust_kv_tiering/fs/manager.py:277-280 | A key that no other job published first gets the bytes of its own row of the primary view. |
| `TierRuns.StoredMeansAsSubmitted` | src/vllm_hust_kv_tiering/fs/manager.py:255-282 | After a reported success, every slot of the job holds what its row held when the job was submitted, whatever was stored or deleted since. |
| `TierRuns.RowsAsSubmitted` | src/vllm_hust_kv_tiering/fs/manager.py:255-282 | Every row that a run adds to the table is the slot of some job's write for the key, and holds what the view's row held when that job was submitted: also when jobs race on a key, fail, or are reported to have failed. |
| `TierRuns.FailedButPublished` | src/vllm_hust_kv_tiering/fs/segment_store.py:401-417 | A job is reported to have failed while its new rows are in the table if and only if its completion callback raised after the commit. |
| `TierRuns.EveryJobMayFailPublished` | src/vllm_hust_kv_tiering/fs/segment_store.py:409-417 | In every state in which a successful job is about to call back, that outcome is a run of two steps. |
| `TierRuns.LoadedMeansFilled` | src/vllm_hust_kv_tiering/fs/manager.py:296-333 | When a load job with distinct blocks is reported successful, each block holds, until the report is handed over, the bytes that its key had at submission, from the segment or from its file: unless the key's location has not kept these bytes since submission. |
| `TierRuns.LoadedWhenSafe` | src/vllm_hust_kv_tiering/fs/manager.py:296-333 | Nothing has to be assumed of the run when, at submission, the key has a file of its own, or the metadata has shard rows or both rows of a single append stream, or the location is above the segment size. |
| `TierReuse.LoadsFilledExactly` | src/vllm_hust_kv_tiering/fs/manager.py:296-333 | In a quiet tier with two workers and a spare row, for any store and any indexed key: every run in which the load is reported successful leaves the right bytes in its row, if and only if at submission the metadata has these rows, or the location is above the segment size, or is not of the block size (then no load of it succeeds). |
| `TierReuse.WrongBytes` | src/vllm_hust_kv_tiering/fs/manager.py:296-333 | Otherwise a run is given that reports the load successful with other bytes in its row: take the load, delete the keys, submit a store, write its entry, read the row, end the task, report. |
| `TierRuns.StepLoses` | src/vllm_hust_kv_tiering/fs/segment_store.py:124-138 | A location that a load in flight has looked up loses its bytes only to the write of a job whose slot reaches into it, and only after a delete has given it back. |
| `TierTasks.RunningIsWriting` | src/vllm_hust_kv_tiering/fs/manager.py:262-270 | Whenever a worker runs a task of a store that has something to write, the task is one group of the plan, of entries of the plan. |
| `TierTasks.RunningIsLoading` | src/vllm_hust_kv_tiering/fs/manager.py:318-331 | Whenever a worker runs a task of a load, the task is one of the groups of the load, with rows of the view. |
| `TierTasks.WriteTaskIsRun` | src/vllm_hust_kv_tiering/fs/segment_store.py:347-392 | What writing a whole group leaves when it succeeds, single writes of its worker leave too, and then the task may end well. |
| `TierTasks.CutTaskIsRun` | src/vllm_hust_kv_tiering/fs/segment_store.py:347-392 | What it leaves when it fails, with any number of entries written and any part of the next, is such a run too. |
| `TierTasks.LoadTaskIsRun` | src/vllm_hust_kv_tiering/fs/segment_store.py:419-497 | What a sorted, coalesced load of one segment's task leaves when it succeeds, single reads of its worker leave too, and then the task may end well. |
| `TierTasks.FailedLoadIsRun` | src/vllm_hust_kv_tiering/fs/segment_store.py:419-497 | What it leaves when it fails, anything in its own rows, is such a run too. |
| `TierRuns.OtherRowsUnchanged` | src/vllm_hust_kv_tiering/fs/manager.py:296-333 | Rows that no load names, and that the engine leaves alone, keep their bytes over any run. |
| `TierRuns.RowsHaveOwners` | src/vllm_hust_kv_tiering/fs/manager.py:255-333 | A row is written only by the engine or by the running task of an active load that names it; then no other active job fills it, and no active job stores it. |
| `TierRuns.DrainedMeansQuiet` | src/vllm_hust_kv_tiering/fs/manager.py:357-359 | When nothing is in flight, no task touches a row, no plan is open, and every job has its one report. |
| `TierRuns.SomeJobGoesOn` | src/vllm_hust_kv_tiering/fs/manager.py:255-333 | While a job is in flight some worker can go on, whatever the store has done, and then has less to do. |
| `LookupProtocol.StepKeeps` | src/vllm_hust_kv_tiering/async_lookup.py:124-228 | Every step, with complete replies, keeps: the two indexes are inverse, every tracked key has a request, no unanswered key is lost, results are the latest drained. |
| `LookupProtocol.ResultsAreLatest` | src/vllm_hust_kv_tiering/async_lookup.py:124-228 | In every reachable state, whatever the tier returns, the two indexes are inverse and a result is the latest drained answer for its key. |
| `LookupProtocol.NoLookupIsLost` | src/vllm_hust_kv_tiering/async_lookup.py:124-228 | In every state that is reached with complete replies, a tracked key without a result is in the batch, the queue, the worker or the results, even if it was dropped and asked again. |
| `LookupProtocol.ShortRepliesLose` | src/vllm_hust_kv_tiering/async_lookup.py:223-224 | When the keys that the worker asks about are nowhere else, its reply loses none of them if and only if every call returned at least as many hits as keys, or raised. |
| `LookupProtocol.AKeyIsLost` | src/vllm_hust_kv_tiering/async_lookup.py:211-224 | A run from the start that loses a key: one lookup, flush, take, and a call that returns no hits. |
| `LookupProtocol.LostStaysLost` | src/vllm_hust_kv_tiering/async_lookup.py:124-182 | A lost key stays without an answer through every run, as long as no request is cleaned up. |
| `LookupProtocol.OneAnswerPerPair` | src/vllm_hust_kv_tiering/async_lookup.py:199-228 | A batch gets exactly one answer for each of its pairs if and only if no call of the tier returned fewer hits than keys; a call that raised answers for all of them. |
| `LookupProtocol.GroupsAreRequests` | src/vllm_hust_kv_tiering/async_lookup.py:199-205 | Each request is asked about exactly its own keys, in order. |
| `LookupAnswers.AnswersAreSaid` | src/vllm_hust_kv_tiering/async_lookup.py:210-224 | An answer is posted if and only if some call was asked about its key and said so: the hit at the key's place, or no hit when the call raised. |
| `LookupAnswers.ReplyReachesScheduler` | src/vllm_hust_kv_tiering/async_lookup.py:157-228 | When the calls say what is true, then after the reply and a drain every tracked key that was asked about has the truth as its result, whatever was waiting before. |
| `LookupAnswers.ResultsAreTrue` | src/vllm_hust_kv_tiering/async_lookup.py:124-228 | In every state that true replies lead to, every known result is true. |
| `LookupAnswers.LookAsksOnce` | src/vllm_hust_kv_tiering/async_lookup.py:133-142 | A key joins the batch when it is looked up and not tracked, and at no other time; the request tracks it, and no other request's keys change. |
| `LookupAnswers.CleanupForgets` | src/vllm_hust_kv_tiering/async_lookup.py:172-182 | After a cleanup a key is tracked if and only if another request asked for it, and keeps its result; nothing leaves the pipeline. |
| `LookupProtocol.EveryLookupIsAnswered` | src/vllm_hust_kv_tiering/async_lookup.py:124-228 | For every choice of complete replies: from any state without a lost key, a run of flush, worker steps with these replies, and drain gives every tracked key a result. |
| `AsyncLookups.AsyncLookupManager.Lookup` | src/vllm_hust_kv_tiering/async_lookup.py:124-142 | Drains first, then answers from what is known; a new key joins the batch and the request is recorded both ways. |
| `AsyncLookups.AsyncLookupManager.Flush` | src/vllm_hust_kv_tiering/async_lookup.py:144-155 | Posts the batch as one item, unless it is empty. |
| `AsyncLookups.AsyncLookupManager.DrainResults` | src/vllm_hust_kv_tiering/async_lookup.py:157-170 | Applies every waiting answer, in order, to the keys that are still tracked. |
| `AsyncLookups.AsyncLookupManager.Cleanup` | src/vllm_hust_kv_tiering/async_lookup.py:172-182 | Drops the request and the keys that no other request tracks; no key is missing from the state. |
| `AsyncLookups.AsyncLookupManager.TakeBatch` | src/vllm_hust_kv_tiering/async_lookup.py:194-205 | Takes the oldest batch and groups it by request. |
| `AsyncLookups.AsyncLookupManager.PostResults` | src/vllm_hust_kv_tiering/async_lookup.py:210-228 | Posts, if there are any, the answers that `LookupAnswers.AnswersAreSaid` describes, as one item. |
| `ResidencyRuns.TransfersAreAccounted` | src/vllm_hust_kv_tiering/residency.py:250-271 | Over any well-matched run, a count for a direction is starts minus finishes, there is an entry exactly when it is positive, and a block that moves is tracked. |
| `ResidencyRuns.IndexesAgree` | src/vllm_hust_kv_tiering/residency.py:185-229 | Over any run, session keys and block owners are each other's inverse, and a block with an active owner has no idle time. |
| `ResidencyRuns.FinishCounts` | src/vllm_hust_kv_tiering/residency.py:259-271 | Finishing takes moves off the count, never below zero. |
| `ResidencyLaws.TrackedWhenNamed` | src/vllm_hust_kv_tiering/residency.py:202-248 | Over any run, a block is tracked if and only if a call named it, and it was not pruned since. |
| `ResidencyLaws.OnCpuAsSaid` | src/vllm_hust_kv_tiering/residency.py:231-237 | Over any run, a block is tracked as resident on the CPU if and only if the last call about its residency there said so: no other call changes it, and pruning never forgets such a block. |
| `ResidencyLaws.InTierAsSaid` | src/vllm_hust_kv_tiering/residency.py:239-248 | The same for a secondary tier, except that pruning may forget the block. |
| `ResidencyLaws.OwnedWhenAccessed` | src/vllm_hust_kv_tiering/residency.py:202-229 | Over any run, a session owns a block if and only if it accessed it, and was not released since: pruning takes no block from its owner. |
| `ResidencyLaws.ActiveAsSaid` | src/vllm_hust_kv_tiering/residency.py:185-216 | Over any run, a session is active if and only if that is the last that was said of it. |
| `ResidencyLaws.AccessTimeIsLast` | src/vllm_hust_kv_tiering/residency.py:185-212 | Over any run, the time of last access is that of the last access, of the last activation of an owner, or of the first call that named the block. |
| `ResidencyLaws.IdleTimeIsSince` | src/vllm_hust_kv_tiering/residency.py:185-229 | Over any run, a block is idle since its last active owner became idle, or was released without it having been idle before; an access by an active session or an owner's activation ends that. |
| `ResidencyLaws.AccessesAreCounted` | src/vllm_hust_kv_tiering/residency.py:202-212 | Over any run, a block counts its accesses since it was last forgotten, each occurrence of its key as one. |
| `ResidencyLaws.PruneSparesTheNeeded` | src/vllm_hust_kv_tiering/residency.py:382-398 | Pruning keeps every block that a session owns, that moves, or that is on the CPU; if too many are left, all of them are such; and no block goes that was touched after one that could have gone. |
| `ResidencyModel.ReleaseOneMore` | src/vllm_hust_kv_tiering/residency.py:214-229 | Releasing sessions one by one is releasing them together. |
| `Residencies.BlockResidencyTracker.OnSessionActive` | src/vllm_hust_kv_tiering/residency.py:185-192 | All blocks of the session lose their idle time and are touched. |
| `Residencies.BlockResidencyTracker.OnSessionIdle` | src/vllm_hust_kv_tiering/residency.py:194-200 | Blocks of the session without another active owner become idle now. |
| `Residencies.BlockResidencyTracker.RecordAccess` | src/vllm_hust_kv_tiering/residency.py:202-212 | Each access is counted and recorded in both indexes. |
| `Residencies.BlockResidencyTracker.ReleaseSession` | src/vllm_hust_kv_tiering/residency.py:214-229 | Returns exactly the blocks that are left without an owner. |
| `Residencies.BlockResidencyTracker.MarkCpuResident` | src/vllm_hust_kv_tiering/residency.py:231-237 | Marks the keys, tracking new ones. |
| `Residencies.BlockResidencyTracker.MarkSecondaryResident` | src/vllm_hust_kv_tiering/residency.py:239-248 | Adds or removes the tier for the keys, tracking new ones. |
| `Residencies.BlockResidencyTracker.StartTransfer` | src/vllm_hust_kv_tiering/residency.py:250-257 | Counts one move for each occurrence of a key. |
| `Residencies.BlockResidencyTracker.FinishTransfer` | src/vllm_hust_kv_tiering/residency.py:259-271 | Counts moves off and drops an entry that reaches zero; an untracked block is ignored. |
| `Residencies.BlockResidencyTracker.GetIdleCpuCandidates` | src/vllm_hust_kv_tiering/residency.py:273-293 | As many candidates as allowed, oldest first, none younger than one left out. |
| `Residencies.CandidatesAreIdle` | src/vllm_hust_kv_tiering/residency.py:279-293 | Each candidate is on the CPU and in a secondary tier, does not move, has no active owner and one owner at most, and has been idle for long enough; the longest idle come first. |
| `Residencies.NoCandidateLeftOut` | src/vllm_hust_kv_tiering/residency.py:279-293 | A block like that is left out only when there are as many candidates as allowed, all idle for as long. |
| `Residencies.BlockResidencyTracker.Prune` | src/vllm_hust_kv_tiering/residency.py:382-398 | Removes as many prunable blocks as are too many, none younger than a prunable one that stays; returns how many. |
| `LifecycleRuns.SessionsAndBlocksAgree` | src/vllm_hust_kv_tiering/lifecycle.py:161-292 | Over any run: active, serving a request, and listed by the tracker are the same (if enabled); a session owns exactly the blocks whose records list it; a block of an active session is not idle; the gate opens no later than the earliest deadline. |
| `LifecycleRuns.GateHidesNothing` | src/vllm_hust_kv_tiering/lifecycle.py:296-297 | While the gate is shut, no session is due. |
| `LifecycleLaws.ExpiredExactly` | src/vllm_hust_kv_tiering/lifecycle.py:286-318 | A session is expired if and only if it is idle, its deadline has come, no key of it is protected, and no request that it retains is protected: also when the gate keeps the call from looking; the others stay as they are. |
| `LifecycleLaws.SessionAfterCall` | src/vllm_hust_kv_tiering/lifecycle.py:161-318 | Over every call, the requests that a session serves and retains, its keys, its number of requests, its time of last use and its deadline change as the call says, and in no other way: in particular, finishing a request stamps the session. |
| `LifecycleLaws.NewSession` | src/vllm_hust_kv_tiering/lifecycle.py:166-194 | A session that a call creates is blank but for what the call does to it. |
| `LifecycleLaws.SessionsAfterCall` | src/vllm_hust_kv_tiering/lifecycle.py:161-350 | The sessions after a call are those that it begins and those before it that do not expire, are not pruned, and do not go with their last request. |
| `LifecycleLaws.RequestAfterCall` | src/vllm_hust_kv_tiering/lifecycle.py:192-284 | A request leads to the session that began it last, until it is finalized or a session that serves or retains it goes. |
| `LifecycleLaws.PruneSparesTheUsed` | src/vllm_hust_kv_tiering/lifecycle.py:327-350 | Pruning keeps every session that serves or retains a request, and takes idle ones only. |
| `LifecycleLaws.PruneLeavesFew` | src/vllm_hust_kv_tiering/lifecycle.py:327-350 | Pruning ends with few enough sessions, or with sessions that all serve or retain a request, and takes no more than are too many. |
| `LifecycleLaws.PruneTakesTheOldest` | src/vllm_hust_kv_tiering/lifecycle.py:333-344 | No session goes that was used after one that is left and could have gone. |
| `LifecycleRuns.ExpiredKeys` | src/vllm_hust_kv_tiering/lifecycle.py:311-318 | It returns exactly the keys that a removed session owned and no surviving one owns, none of them protected. |
| `LifecycleRuns.PrunedKeys` | src/vllm_hust_kv_tiering/lifecycle.py:343-350 | It returns exactly the keys that a removed session owned and no surviving one owns. |
| `LifecycleRuns.GateStaysExact` | src/vllm_hust_kv_tiering/lifecycle.py:271-350 | After any call from a state in which the gate is the earliest deadline, it still is, if and only if the call leaves some session that has that deadline: finalizing and pruning delete sessions, and finishing a request of an idle session puts its deadline off, without looking at the gate again. |
| `LifecycleRuns.GateMayOpenEarly` | src/vllm_hust_kv_tiering/lifecycle.py:271-284 | A run after which the gate is below every deadline: finalizing deletes a session without refreshing the gate. |
| `LifecycleRuns.CallKeeps` | src/vllm_hust_kv_tiering/lifecycle.py:161-350 | Every call of the manager or the tracker keeps the invariant, with the manager enabled or not. |
| `Lifecycles.SessionLifecycleManager.OnNewRequest` | src/vllm_hust_kv_tiering/lifecycle.py:161-194 | The session is created or resumed, without a deadline; the gate is refreshed when it was there before. |
| `Lifecycles.SessionLifecycleManager.RecordRequestKeys` | src/vllm_hust_kv_tiering/lifecycle.py:225-238 | The keys join the session in both indexes. |
| `Lifecycles.SessionLifecycleManager.OnRequestFinished` | src/vllm_hust_kv_tiering/lifecycle.py:240-269 | The request is retained; a session that serves no other becomes idle, gets its deadline, and may lower the gate. |
| `Lifecycles.SessionLifecycleManager.OnRequestFinalized` | src/vllm_hust_kv_tiering/lifecycle.py:271-284 | A session without a conversation goes with its last request. |
| `Lifecycles.SessionLifecycleManager.ExpireIdleSessions` | src/vllm_hust_kv_tiering/lifecycle.py:286-318 | The loop does what the specification does in one go, whatever the order of the sessions. |
| `Lifecycles.SessionLifecycleManager.PruneIdleSessions` | src/vllm_hust_kv_tiering/lifecycle.py:327-350 | Deletes as many finished sessions as are too many, the least recently used first. |
| `Lifecycles.SessionLifecycleManager.RefreshNextExpiration` | src/vllm_hust_kv_tiering/lifecycle.py:416-427 | The gate becomes the earliest deadline of the idle sessions, or nothing. |
| `AscendLayouts.BuildLayout` | src/vllm_hust_kv_tiering/ascend_layout.py:22-73 | Succeeds exactly for caches that can be used, and then gives each name its allocation and views, in a layout whose layers fit their pages and have allocations of their own within each group. |
| `LayoutLaws.UsableExactly` | src/vllm_hust_kv_tiering/ascend_layout.py:22-73 | Caches can be used if and only if there are blocks, no allocation is packed or uneven, no layer is named twice, and each group's layers lie in allocations of their own, are of a supported kind, and have views of separate byte rows that together fit the allocation's page and the page of the kind. |
| `AscendLayouts.Allocate` | src/vllm_hust_kv_tiering/ascend_layout.py:27-36 | Pages and owners, exactly when no allocation is packed or uneven and no layer is named twice. |
| `AscendLayouts.BuildLayer` | src/vllm_hust_kv_tiering/ascend_layout.py:42-71 | One layer, exactly when it is known, supported, alone on its allocation in the group, and its byte rows fit. |
| `AscendWorkers.CopyPlan` | src/vllm_hust_kv_tiering/ascend_worker.py:35-70 | Gives the plan exactly for transfers whose lists match their groups. |
| `CopyPlans.LogicalAddress` | src/vllm_hust_kv_tiering/ascend_worker.py:48-58 | Logical block L is always in chunk L div factor at sub-block L mod factor, wherever the transfer starts. |
| `CopyAddresses.PlannableExactly` | src/vllm_hust_kv_tiering/ascend_worker.py:35-69 | A transfer has a plan if and only if every group has a size and a start, none negative, the device lists as many blocks as the sizes add up to, and the CPU as many as the logical blocks lie in. |
| `CopyAddresses.PlanIsAddressed` | src/vllm_hust_kv_tiering/ascend_worker.py:54-66 | The items of a plan are exactly, for each layer of each group and each block of it, the listed device block and CPU block L div factor (counted from the first that the group touches), sub-block L mod factor. |
| `CopyAddresses.SpansAreSideBySide` | src/vllm_hust_kv_tiering/ascend_worker.py:263-279 | The spans of a transfer are exactly, for each item and view, the view's row and the bytes of the CPU block at the sub-block's page plus the widths of the views before it. |
| `CopyPlans.DeviceBlockUsed` | src/vllm_hust_kv_tiering/ascend_worker.py:54-66 | Every listed device block of a group with layers is in the plan. |
| `CopyPlans.CpuBlockUsed` | src/vllm_hust_kv_tiering/ascend_worker.py:48-67 | Every listed CPU block of a group with layers is in the plan. |
| `CopyPlans.PlanApart` | src/vllm_hust_kv_tiering/ascend_worker.py:54-65 | No two items of a plan share a sub-block, if CPU blocks are distinct and each group's layers have their own allocations. |
| `CopySpans.TransferSpans` | src/vllm_hust_kv_tiering/ascend_worker.py:263-279 | The CPU spans of an accepted transfer with distinct CPU blocks are in bounds and pairwise disjoint, over all blocks, sub-blocks, views, layers and groups. |
| `CopySpans.TransferSize` | src/vllm_hust_kv_tiering/ascend_worker.py:118 | The bytes of a transfer are, for each group, its blocks times the bytes of its layers. |
| `CopySpans.TensorTransferSpans` | src/vllm_hust_kv_tiering/ascend_worker.py:178-195 | For canonical tensors, every item is inside its page and its CPU block, and no two items touch the same bytes, if no group names a tensor twice. |
| `CopyTransfers.StoreThenLoad` | src/vllm_hust_kv_tiering/ascend_worker.py:100-127 | Store a logical range, then load any part of it with its own start and other device blocks: every view gets back exactly the stored bytes of each logical block. |
| `CopyTransfers.StoreReads` | src/vllm_hust_kv_tiering/ascend_worker.py:112-115 | After a store along disjoint spans, every span holds its row. |
| `CopyTransfers.StoreKeeps` | src/vllm_hust_kv_tiering/ascend_worker.py:112-115 | Bytes that no span covers stay as they were. |
| `CopyTransfers.LoadTouchesOnly` | src/vllm_hust_kv_tiering/ascend_worker.py:112-115 | A load changes only rows of a layer at a device block that one and the same group lists. |
| `CopyTransfers.StoreTouchesOnly` | src/vllm_hust_kv_tiering/ascend_worker.py:112-115 | A store leaves every CPU block that it does not list as it was. |
| `AscendWorkers.AscendLayoutWorker.SpansFor` | src/vllm_hust_kv_tiering/ascend_worker.py:263-279 | The spans, exactly when every item lies inside the caches and no page size has changed. |
| `AscendWorkers.AscendLayoutWorker.Submit` | src/vllm_hust_kv_tiering/ascend_worker.py:100-121 | Accepts exactly the plannable transfers inside the caches whose id is not pending; a refused one touches nothing; a store leaves the device as it is and a load the CPU, and the other side is what copying along the spans gives; the size reported is the sum over groups. |
| `AscendWorkers.AscendLayoutWorker.GetFinished` | src/vllm_hust_kv_tiering/ascend_worker.py:131-149 | Whatever the events say: hands over kept results and exactly the transfers whose event is done or raises, each once, as a success if and only if it is done; the others stay under way. |
| `AscendWorkers.AscendLayoutWorker.Wait` | src/vllm_hust_kv_tiering/ascend_worker.py:151-163 | The awaited jobs leave the pending set, and each that was under way gains one kept result, a failure if and only if its event raises. |

## Left out

- Real files and the database: a segment is a byte sequence, the table and the metadata are maps with atomic
  commits. Reads and writes may fail or fall short on segments that are said to be faulty, and the database may
  refuse any commit, and the read-back after a publication, by its number; other queries succeed. Direct I/O,
  alignment, syncing, power loss and file locks are not modelled.
- Several processes sharing one directory: the cache of one could outlive a delete made by another.
- Files of one block each (`fs/io.py`): a map from keys to bytes that loads fall back to; their names, and the
  storage layout that uses nothing else, are not modelled.
- Bytes of the primary view are kept by row, and `block_id` names a row; the flat byte view and its casts are
  not modelled.
- Locks and condition variables: every critical section is one step, and waiting is a guard. Notification is
  not modelled.
- `shutdown` of the pool, the lookup manager and the workers: the statements hold up to it.
- Jobs without tasks: a job enqueued with none would never be reported; the store path never makes one, and
  the load path makes one only for an empty list of keys or of block ids.
- `FileSystemTierManager.delete`: its effect is the step that removes rows and unlinks files; its counts of
  deleted keys are not modelled.
- Sessions and blocks are records held as values in maps, updated by replacing them, not objects of their own;
  aliasing of such records is not captured.
- Clock readings: a call reads the clock once, where the original reads it again in nested calls.
- Equal ages: blocks and sessions of the same age may be pruned in any order, where the original keeps the
  order of insertion.
- The heat of sessions, reuse hits, snapshots, metrics, pressure candidates, plain queries of the residency
  records, configuration parsing and thread sizing: they would only add easy members.
- Streams, events and tensor views of the accelerator: a copy is one step, and what its event says is an input.
  Device rows are separate byte rows; that rows of different layers do not share memory is assumed.
- CopyTransfers.StoreThenLoad: is about the layout worker, whose rows are copied whole; for canonical tensors,
  which copy the first bytes of a row, only `CopySpans.TensorTransferSpans` is stated.
- Diagnostics and transfer times of the copy worker.
- `spec.py`, `ascend_connector.py`, `base.py`: wrappers around code that is not part of this model.
