# worker-threads-queue, modelled in Dafny

worker-threads-queue is a TypeScript library. It queues named tasks by
priority and hands them to a fixed pool of worker threads. It can also keep
a line-oriented write-ahead log, so that pending tasks survive a restart.

This project models the sequential logic at the heart of the library:

- **Priority queue** (`priority_queue.dfy`, module `PriorityQueues`).
  `PriorityQueue` is a class whose `items` field `Enqueue` extends and
  `Dequeue` reassigns. The selection fold of `dequeue` is the function
  `Scan`, and one dequeue is the function `PopMin`.
  - The lowest priority wins.
  - Among ties, the earliest item wins.
  - An item at or above the `Number.MAX_VALUE` sentinel (`MAXP`, its exact
    integer value) is never chosen.
- **Task ids** (`task_id.dfy`, module `TaskIds`). The class `TaskIdSource`
  holds the module-level counter and seed of `lib/TaskId.ts`.
  - `Next` rotates the seed and restarts the counter whenever the stored
    counter is a multiple of 99999.
  - `RandomString` is the character-drawing loop. Its random draws are
    parameters.
- **Task factory** (`task_factory.dfy`, module `TaskFactories`). It models
  the definition map built by the constructor. It also models `createTask`'s
  `||` chains, in which a falsy override (`""`, `0`) falls through to the
  next source.
- **Write-ahead log** (`wal.dfy`, module `Wal`, with string helpers in
  `text.dfy`).
  - The records are `APPEND | id | name | priority | payload` and
    `DELETE | id`.
  - Reading is JavaScript's `split('|')`, `trim()` and `parseInt`.
  - Replay builds an id-to-task map and a list of appended ids, then filters
    that list through the map.
  - Compaction rewrites the log as one APPEND record per surviving task.
  - A file is its content string; `ReadLines` splits it the way `readline`
    does.
- **Persistence adapters** (`persistence_adapter.dfy`,
  `fs_persistence_adapter.dfy`). Both are classes over the content of their
  log file, and `getAll` is the imperative replay loop `ReadAll`. The library
  adapter also has `CompactIndex`.
- **Dispatcher** (`queue.dfy`, module `Queues`). The class `Queue` has the
  fields `tasksQueue`, `freeWorkers`, `jobs`, `workersPool` and `dlQueue`.
  - Each asynchronous callback is one atomic method: start-up (restore, then
    spawn, then schedule), `add`, a worker's `message`, a worker's `error`,
    and the recursive drain `TrySchedule`.
  - The calls made to the persistence store and the events emitted are
    recorded, in order, in the ghost field `trace`.
  - The drain is proved against the function `Schedule`. `Invariant` states
    the two facts every callback preserves:
    - every started worker is free, busy or lost, and in exactly one of
      those;
    - no worker idles while a dispatchable task waits.

Shared types (`Task`, `TaskDefinition`, `TaskOptions`, `WorkerResponse`) are
in `tasks.dfy`. `Option` is in `wrappers.dfy`.

Some behaviours of the code are easy to miss, and the model keeps them:

- **APPEND records hold no script and no timeout.** `toAppendLine` writes
  only id, name, priority and payload. So a restored task has no script
  and no timeout (`Wal.Stored`).
- **A re-appended id keeps every order entry.** Replay pushes one order
  entry per APPEND. An id that is live at the end of the log therefore
  comes back once per APPEND record it has, each time with its last content
  (`Wal.ReappendedIdRepeats`, `Wal.ReplayLive`).
- **Failed workers are not replaced.** A worker that raised `error` leaves
  the pool for good, and there are no timeouts. So capacity shrinks by one
  per error (`Queues.Queue.OnError`).
- **`dequeue` returns nothing on a non-empty queue.** It returns
  `undefined` not only on an empty queue, but also when every queued
  priority is at or above `Number.MAX_VALUE`, or is `NaN`
  (`PriorityQueues.PopMinNone`).

## Model

| member | source | states |
|---|---|---|
| PriorityQueues.PriorityQueue.constructor | lib/PriorityQueue.ts:8-10 | a new queue is empty and keeps the priority getter it was given |
| PriorityQueues.PriorityQueue.Enqueue | lib/PriorityQueue.ts:12-14 | the item goes at the back, every queued item keeps its place, and the size grows by exactly one |
| PriorityQueues.PriorityQueue.Dequeue | lib/PriorityQueue.ts:16-30 | returns nothing and leaves the items alone exactly when no priority is below the sentinel (the empty queue included); otherwise the size drops by one, the returned item plus the remaining items are the old items as a multiset, and no remaining item has a lower priority |
| PriorityQueues.Scan | lib/PriorityQueue.ts:17-20 | the fold's index is -1 or a position already visited (what it holds there is `ScanFinds`) |
| PriorityQueues.ScanFinds | lib/PriorityQueue.ts:17-20 | after any prefix the fold holds either no index and the sentinel, or the index of an item below the sentinel whose priority is at most every visited one and strictly below every earlier one |
| PriorityQueues.MinIndex | lib/PriorityQueue.ts:17-21 | the index `dequeue` picks is -1 or a valid position of the items |
| PriorityQueues.MinIndexChoice | lib/PriorityQueue.ts:17-21 | the index is -1 exactly when every priority is at or above the sentinel; otherwise it selects the earliest item of least priority, which is below the sentinel |
| PriorityQueues.PopMin | lib/PriorityQueue.ts:16-30 | one `dequeue`: when it finds nothing the items are unchanged, otherwise exactly one item fewer remains |
| PriorityQueues.PopMinNone | lib/PriorityQueue.ts:21-29 | `dequeue` yields `undefined` if and only if no item is below the sentinel, and then the items are unchanged |
| PriorityQueues.RemoveAt | lib/PriorityQueue.ts:22-25 | rebuilding the array from the two slices drops exactly the chosen index: one item fewer, the others in their old order, the same multiset with the chosen item removed |
| PriorityQueues.PopMinChoice | lib/PriorityQueue.ts:19-26 | a successful dequeue returns an item below the sentinel, no higher than any remaining item, strictly lower than every earlier item, and removes exactly that index |
| PriorityQueues.PopMinRemoves | lib/PriorityQueue.ts:21-26 | a successful `dequeue` loses no item and invents none: the returned item plus the remaining items are the old items as a multiset |
| PriorityQueues.DequeueAll | lib/PriorityQueue.ts:16-30 | dequeuing until `undefined` returns at most as many items as were queued |
| PriorityQueues.DequeueAllFrom | lib/PriorityQueue.ts:16-30 | repeated dequeues return only queued items, each at most as often as queued, all below the sentinel |
| PriorityQueues.DequeueAllSorted | lib/PriorityQueue.ts:17-20 | repeated dequeues return priorities in non-decreasing order |
| PriorityQueues.DequeueAllStable | lib/PriorityQueue.ts:19-25 | for every selectable priority, repeated dequeues return all items of that priority in their enqueue order (FIFO among ties) |
| PriorityQueues.StableStep | lib/PriorityQueue.ts:19-25 | removing the earliest minimum keeps the items of any one priority in their relative order |
| PriorityQueues.WithPriorityAppend | lib/PriorityQueue.ts:22-25 | the items of one priority in a concatenation are those of each part, in order |
| PriorityQueues.UnselectableNeverDequeued | lib/PriorityQueue.ts:19-21 | no item at or above the sentinel is ever returned by repeated dequeues |
| TaskIds.RandomString | lib/TaskId.ts:13-18 | returns exactly `count` characters, each from the 62-character alphabet, the i-th being the alphabet character of the i-th draw |
| TaskIds.NextCounter | lib/TaskId.ts:6-10 | the counter an id carries is in 1..99999; it is 1 exactly when the stored counter is a multiple of 99999, and otherwise one more than the stored counter |
| TaskIds.RotationPoints | lib/TaskId.ts:1-9 | between 0 and 99999, the seed rotates exactly on the first call (stored counter 0) and right after the 99999th id |
| TaskIds.CounterAfter | lib/TaskId.ts:6-10 | the stored counter never exceeds 99999 |
| TaskIds.CounterAfterCalls | lib/TaskId.ts:6-10 | the n-th id ever drawn carries counter ((n - 1) mod 99999) + 1 |
| TaskIds.IdString | lib/TaskId.ts:10 | the id has the length of prefix, seed, counter and two dots, and ends with the decimal counter |
| TaskIds.IdsDistinct | lib/TaskId.ts:10 | under one prefix and one seed, different counters give different ids |
| TaskIds.TaskIdSource.constructor | lib/TaskId.ts:1-3 | at module load the counter is 0 and the seed is four alphabet characters from the draws |
| TaskIds.TaskIdSource.Next | lib/TaskId.ts:5-11 | one call advances the counter as `NextCounter` says, keeps it equal to ((calls - 1) mod 99999) + 1, rotates the seed exactly when the stored counter is a multiple of 99999, and returns `prefix.seed.counter` |
| TaskFactories.DefinitionsMap | lib/TaskFactory.ts:10-16 | a name is in the map if and only if some definition carries it |
| TaskFactories.LastDefinitionWins | lib/TaskFactory.ts:12-15 | each name maps to the last definition carrying that name |
| TaskFactories.OrString | lib/TaskFactory.ts:23 | the `or` of two optional strings is one of its operands, and it is truthy exactly when either operand is |
| TaskFactories.OrNumber | lib/TaskFactory.ts:25-27 | the `or` of two optional numbers is one of its operands, and it is truthy exactly when either operand is |
| TaskFactories.MakeTask | lib/TaskFactory.ts:20-28 | id, name and payload are copied; script is the non-empty option, else the non-empty definition script, else the name; priority is the nonzero option, else the nonzero definition priority, else 100; timeout is the nonzero option, else the nonzero definition timeout, else absent; an unregistered name still yields a task |
| TaskFactories.CreateTask | lib/TaskFactory.ts:18-29 | draws exactly one id, under the queue name as prefix, and builds the task `MakeTask` describes around it |
| Text.Trim | lib/QueuePersistenceAdapter.ts:32 | the result has no white space at either end and uses only characters of the input |
| Text.TrimPadded | lib/QueuePersistenceAdapter.ts:32 | trimming a trimmed string padded with white space recovers it |
| Text.Split | lib/QueuePersistenceAdapter.ts:32 | splitting always yields at least one piece |
| Text.SplitSeparates | lib/QueuePersistenceAdapter.ts:32 | no piece contains the separator |
| Text.SplitAtFirst | lib/QueuePersistenceAdapter.ts:32 | text before the first separator is the first piece, and the rest splits on its own |
| Text.SplitAppend | lib/QueuePersistenceAdapter.ts:31-32 | splitting two texts joined by a separator gives the pieces of each, concatenated |
| Text.SplitAvoids | lib/QueuePersistenceAdapter.ts:32 | a character absent from the text is absent from every piece |
| Text.NatToString | lib/TaskId.ts:10 | the decimal form of a counter is a non-empty string of digits |
| Text.DigitsValueOfNatToString | lib/TaskId.ts:10 | reading the decimal form back gives the number |
| Text.NatToStringInjective | lib/TaskId.ts:10 | different numbers have different decimal forms |
| Text.ParseInt | lib/QueuePersistenceAdapter.ts:34 | a blank string parses to `NaN`, and a negative result needs a leading minus sign |
| Text.ParseIntOfIntToString | lib/QueuePersistenceAdapter.ts:34 | `parseInt` of a printed integer priority is that integer |
| Text.ParseIntOfNegative | lib/QueuePersistenceAdapter.ts:34 | `parseInt` of a minus sign followed by digits is the negated value |
| Wal.ToAppendLine | lib/QueuePersistenceAdapter.ts:45-47 | the APPEND line ends in a newline, and for a writable task holds no other line break |
| Wal.DeleteLine | lib/QueuePersistenceAdapter.ts:20 | the DELETE line ends in a newline, and for a clean id holds no other line break |
| Wal.ReadLines | lib/QueuePersistenceAdapter.ts:24-31 | an empty file yields no lines and any other file at least one |
| Wal.Parse | lib/QueuePersistenceAdapter.ts:32-39 | a line restores a task without script or timeout, and an id it deletes contains no bar |
| Wal.Step | lib/QueuePersistenceAdapter.ts:33-39 | one iteration of the loop throws exactly on an APPEND line with fewer than five fields |
| Wal.ReplayEntries | lib/QueuePersistenceAdapter.ts:31-40 | the loop's order list has at most one entry per line |
| Wal.Live | lib/QueuePersistenceAdapter.ts:42 | the map-and-filter returns at most one task per order entry |
| Wal.Replay | lib/QueuePersistenceAdapter.ts:23-43 | `getAll` returns at most one task per line (its content is `ReplayOrder`, `ReplayLive` and `ReplayLatest`) |
| Wal.Fields | lib/QueuePersistenceAdapter.ts:32 | a line yields at least one field; every field is trimmed and free of the bar separator; a line without line breaks gives fields without line breaks |
| Wal.PriorityClean | lib/QueuePersistenceAdapter.ts:34 | a printed priority is a clean field, and `parseInt` of it gives the priority back (`NaN` included) |
| Wal.FieldsOfRecord | lib/QueuePersistenceAdapter.ts:32 | splitting and trimming a record of clean fields recovers exactly those fields |
| Wal.AppendFields | lib/QueuePersistenceAdapter.ts:32 | an APPEND record reads back as APPEND, id, name, priority and payload |
| Wal.ParseAppendText | lib/QueuePersistenceAdapter.ts:32-36 | an APPEND record of a writable task replays as that task without script and timeout |
| Wal.ParseDeleteText | lib/QueuePersistenceAdapter.ts:37-39 | a DELETE record replays as the deletion of that id |
| Wal.ParseRestorable | lib/QueuePersistenceAdapter.ts:32-34 | any task read from one line has clean fields and no script or timeout |
| Wal.AppendLineLayout | lib/QueuePersistenceAdapter.ts:45-47 | `toAppendLine` is the keyword APPEND, then id, name, priority and payload, joined by a blank-padded bar, then a newline |
| Wal.DeleteLineLayout | lib/QueuePersistenceAdapter.ts:19-21 | the delete line is the keyword DELETE and the id, joined by a blank-padded bar, then a newline |
| Wal.ReadLinesAppend | lib/QueuePersistenceAdapter.ts:31 | appending a newline-terminated line to a terminated file adds exactly that line to what `readline` yields |
| Wal.ReadLinesOneLine | lib/QueuePersistenceAdapter.ts:31 | no line that `readline` yields contains a newline |
| Wal.ReplayPrefix | lib/QueuePersistenceAdapter.ts:31-40 | a replay that succeeds succeeded on every prefix, one step at a time |
| Wal.ReplayOrder | lib/QueuePersistenceAdapter.ts:33-36 | the order list is the ids of the APPEND lines, in file order, repeats included |
| Wal.ReplayLive | lib/QueuePersistenceAdapter.ts:33-39 | an id is in the map if and only if some APPEND of it has no later DELETE of it |
| Wal.ReplayLatest | lib/QueuePersistenceAdapter.ts:33-36 | a live id maps to the task of its last APPEND |
| Wal.ReplayWellKeyed | lib/QueuePersistenceAdapter.ts:34 | every map entry is keyed by its own task's id and holds a restorable task |
| Wal.ReplayWellFormed | lib/QueuePersistenceAdapter.ts:42 | the tasks `getAll` returns are restorable, and two of them with one id are the same task |
| Wal.ReplayFails | lib/QueuePersistenceAdapter.ts:34 | once a short APPEND line throws, the whole replay rejects |
| Wal.AppendThenReplay | lib/QueuePersistenceAdapter.ts:33-42 | appending the record of a task with a new id adds that task at the end of the replayed list |
| Wal.DeleteThenReplay | lib/QueuePersistenceAdapter.ts:37-42 | appending a DELETE record removes every task with that id from the replayed list and keeps the rest in order |
| Wal.ExampleEntries | lib/QueuePersistenceAdapter.ts:31-42 | APPEND a, APPEND b, APPEND c, DELETE b replays to [a, c] |
| Wal.ReplayExample | lib/QueuePersistenceAdapter.ts:31-47 | the same example, over the written record lines |
| Wal.ReappendedIdRepeats | lib/QueuePersistenceAdapter.ts:33-42 | two APPEND records of one id replay to that id twice, both with the later content |
| Wal.CompactContent | lib/QueuePersistenceAdapter.ts:52-54 | the file compaction writes ends with a newline (or is empty) |
| Wal.Compact | lib/QueuePersistenceAdapter.ts:49-55 | compaction never makes the log longer |
| Wal.ReplayOfCompacted | lib/QueuePersistenceAdapter.ts:49-55 | a log of APPEND records of consistent restorable tasks replays to exactly those tasks |
| Wal.CompactionPreservesReplay | lib/QueuePersistenceAdapter.ts:49-55 | compaction succeeds whenever replay does, and the compacted log replays to the same list |
| Wal.CompactionIdempotent | lib/QueuePersistenceAdapter.ts:49-55 | compacting a compacted log gives it back unchanged |
| Wal.ReadCompactContent | lib/QueuePersistenceAdapter.ts:52-54 | the file compaction writes is newline-terminated and reads back as one APPEND record per task |
| Wal.FileAppendThenReplay | lib/QueuePersistenceAdapter.ts:15-43 | on a file, `onAppend` of a task with a new id keeps the file terminated and adds the task at the end of `getAll` |
| Wal.FileDeleteThenReplay | lib/QueuePersistenceAdapter.ts:19-43 | on a file, `onDelete` keeps the file terminated and removes the id from `getAll` |
| Wal.CompactedFileReplays | lib/QueuePersistenceAdapter.ts:49-55 | the compacted file replays to the same tasks as the original file |
| PersistenceAdapters.ReadAll | lib/QueuePersistenceAdapter.ts:23-43 | the replay loop returns the list `Replay` defines, or rejects on a short APPEND line |
| PersistenceAdapters.QueuePersistenceAdapter.constructor | lib/QueuePersistenceAdapter.ts:10-13 | the adapter keeps its file name, over the file's current content |
| PersistenceAdapters.QueuePersistenceAdapter.OnAppend | lib/QueuePersistenceAdapter.ts:15-18 | the file grows by exactly the APPEND line of the task |
| PersistenceAdapters.QueuePersistenceAdapter.OnDelete | lib/QueuePersistenceAdapter.ts:19-22 | the file grows by exactly the DELETE line of the task |
| PersistenceAdapters.QueuePersistenceAdapter.GetAll | lib/QueuePersistenceAdapter.ts:23-43 | returns the replay of the file's lines |
| PersistenceAdapters.QueuePersistenceAdapter.CompactIndex | lib/QueuePersistenceAdapter.ts:49-55 | when `getAll` rejects, the file is unchanged; otherwise the file becomes one APPEND line per surviving task and replays to the same list |
| FilePersistence.FileName | tests/FSPersistenceAdapter.ts:10-12 | the log of queue `q` is `queue.q.dat` |
| FilePersistence.FileNamesDistinct | tests/FSPersistenceAdapter.ts:11 | two queues with different names never share a log file |
| FilePersistence.FSPersistenceAdapter.constructor | tests/FSPersistenceAdapter.ts:10-12 | the file name is derived from the queue name |
| FilePersistence.FSPersistenceAdapter.OnAppend | tests/FSPersistenceAdapter.ts:14-17 | the line written is the same APPEND record the library adapter writes, without script or timeout |
| FilePersistence.FSPersistenceAdapter.OnDelete | tests/FSPersistenceAdapter.ts:18-21 | the line written is the DELETE record of the task's id |
| FilePersistence.FSPersistenceAdapter.GetAll | tests/FSPersistenceAdapter.ts:22-42 | the result is the library adapter's replay of the same lines |
| Queues.TaskKey | lib/Queue.ts:47-49 | a task can be selected exactly when its priority is a number below `Number.MAX_VALUE`; `NaN` compares like the sentinel |
| Queues.ScheduleAsWritten | lib/Queue.ts:150-164 | the drain as written takes no workers it did not have, and ends with no free worker or an empty queue, but not necessarily with the workers bound (see Findings) |
| Queues.Schedule | lib/Queue.ts:150-164 | the drain never adds free workers |
| Queues.ScheduleSettles | lib/Queue.ts:150-164 | the drain ends with no free worker, or with no queued task that could be dequeued |
| Queues.ScheduleFreeSuffix | lib/Queue.ts:153 | workers are taken from the front of the free list: those left free are its tail |
| Queues.ScheduleDispatches | lib/Queue.ts:152-155 | the i-th worker taken from the free list is bound in `jobs` to the i-th task that successive dequeues return |
| Queues.ScheduleConserves | lib/Queue.ts:152-155 | the tasks handed out are the first dequeues in order, and together with the tasks still queued they are exactly the tasks queued before |
| Queues.ScheduleKeepsOtherJobs | lib/Queue.ts:155 | a worker that was not free keeps its job, or its lack of one |
| Queues.SchedulePartitioned | lib/Queue.ts:150-164 | scheduling keeps every pool worker either free (once) or busy, never both |
| Queues.ScheduleAgrees | lib/Queue.ts:150-164 | when every queued task is selectable, the drain as written and the corrected drain give the same state |
| Queues.UnselectableTaskStrandsWorkers | lib/Queue.ts:150-164 | with one task that can never be dequeued, the drain as written shifts off every free worker and binds none |
| Queues.StrandedWorkerIsLost | lib/Queue.ts:152-154 | in that case the as-written drain leaves a worker that is neither free nor busy, while the corrected drain changes nothing |
| Queues.PartitionRelease | lib/Queue.ts:112-116 | a busy worker that answers, pushed back on the free list with its job deleted, keeps the partition |
| Queues.PartitionRetire | lib/Queue.ts:117-121 | a busy worker that fails, with its job and pool entry deleted, keeps the partition of the smaller pool, and the pool shrinks by one |
| Queues.ElemsCount | lib/Queue.ts:82-87 | a free list without repeats has as many workers as entries |
| Queues.ScheduleEstablishes | lib/Queue.ts:150-164 | from any partitioned state, scheduling establishes the dispatcher invariant |
| Queues.Queue.constructor | lib/Queue.ts:60-89 | restored tasks are queued in `getAll` order (none when it rejects or there is no adapter), then exactly `numThreads` workers join the pool and the free list, then scheduling runs; the invariant holds |
| Queues.Queue.Restore | lib/Queue.ts:74-80 | the restored tasks go to the back of the queue, in order |
| Queues.Queue.SpawnWorkers | lib/Queue.ts:82-87 | one worker per id joins the pool and the back of the free list, in order, even after a failed `getAll` |
| Queues.Queue.CreateWorker | lib/Queue.ts:110-124 | a new worker is entered in the pool and at the back of the free list |
| Queues.Queue.Add | lib/Queue.ts:91-102 | one id is drawn and the task is built as `createTask` does; `onAppend` is called, then the task is queued behind every queued task and scheduling runs; the invariant holds |
| Queues.Queue.Submit | lib/Queue.ts:94-100 | whatever `onAppend` does, the task is queued and scheduling runs; the invariant holds |
| Queues.Queue.OnMessage | lib/Queue.ts:112-116 | the worker goes back on the free list, its job is settled, and scheduling runs; the invariant holds |
| Queues.Queue.Release | lib/Queue.ts:113-114 | the worker is pushed on the free list, its job is settled and removed, and the partition of the pool holds |
| Queues.Queue.OnError | lib/Queue.ts:117-121 | the job fails, the worker leaves the pool for good and is never replaced, so capacity drops by one, and scheduling runs; the invariant holds |
| Queues.Queue.Retire | lib/Queue.ts:118-119 | the job fails and the worker is dropped from the pool; the partition of the smaller pool holds |
| Queues.Queue.HandleResponse | lib/Queue.ts:126-148 | an error response appends the task to the dead-letter list and a success leaves it unchanged; both call `onDelete` and then emit on the task's name, `(error)` or `(null, payload)`; the job is removed |
| Queues.Queue.TrySchedule | lib/Queue.ts:150-164 | the method performs the drain `Schedule` describes and changes nothing else |

## Left out

- File and stream I/O (`fs`, `fsp`, `readline` streams) is left out. A log
  file is its content string, and an append is string concatenation.
- `readline` with `crlfDelay: Infinity` also ends lines at `\r` and
  `\r\n`. The model splits at `\n` only.
- The `setInterval` that triggers `compactIndex` is left out; compaction is
  an operation the caller invokes. The race between the unlink and
  concurrent appends in `compactIndex` is concurrency and is not modelled.
- `JSON.stringify` and `JSON.parse` of the payload are left out. A payload
  is its JSON text, an opaque string. It round-trips when it has no `|`, no
  line break and no surrounding white space (`Wal.Writable`).
- Priorities are integers. Fractional priorities, the exponent and hex forms
  of printed numbers, and floating-point precision are not modelled.
  `Number.MAX_VALUE` is kept as an exact integer. A `NaN` priority restored
  by `parseInt` compares like the sentinel: `NaN < x` is false for every
  candidate of the fold.
- The Task id is a string key. Ids that collide with `Object.prototype`
  members are not modelled.
- `Math.random` in lib/TaskId.ts is replaced by the draws parameter.
- Logging (`log`, `console.log`) is left out.
- Thread creation, `postMessage` and lib/WorkerExecutor.ts are left out.
  Worker thread ids are parameters. lib/WorkerExecutor.ts is not part of
  this model.
- The event emitter and `Queue.on` (listener registration and fan-out) are
  left out. An emitted event is recorded in the trace as an `Emitted`
  effect.
- lib/PersistenceStore.ts is reduced to its one rule: with no adapter, the
  store calls do nothing and `getAll` yields no tasks (`Queues.Persist`,
  and the constructor's requires). Whether a store call succeeds or fails
  does not change the dispatcher, because each call is followed by
  `finally`.
- Promise interleaving is left out. Each callback runs to completion as one
  step. The `process.nextTick` scheduling after restore is taken to run
  after the workers are spawned.
- The emit in `handleResponse` comes after `onDelete` settles, so in the
  source it is asynchronous. The trace records it right after the
  `Deleted` effect.
- An `error` event on a worker that has no job throws in `handleResponse`.
  The model makes "the worker is busy" a precondition (`w in jobs`) of
  `Queues.Queue.OnError` and `Queues.Queue.OnMessage`.
- There are no timeouts and no worker respawn, because the code has none.
- `PriorityQueues.PriorityQueue.Dequeue`: its ensures do not repeat that
  the removed item is the earliest of least priority and that the others
  keep their order. Those facts follow from its first ensures through
  `PriorityQueues.PopMinChoice`.
- `PriorityQueues.PriorityQueue.Size` is an ordinary read of
  `items.length` and has no contract of its own.
- `Queues.Schedule`: its own ensures only bounds the free list. What the
  drain achieves is stated by the lemmas `Queues.ScheduleSettles`,
  `Queues.SchedulePartitioned`, `Queues.ScheduleDispatches` and
  `Queues.ScheduleConserves`.
- `Queues.Queue.TrySchedule` models the corrected drain, not the code as
  written (see Findings). Its callers `Queues.Queue.constructor`,
  `Queues.Queue.Add`, `Queues.Queue.Submit`, `Queues.Queue.OnMessage` and
  `Queues.Queue.OnError` keep the dispatcher invariant only because of
  that correction. With the drain as written, a task at or above
  `Number.MAX_VALUE` (or `NaN`) strands the free workers.
- `Text.Split` and `Text.Trim` model JavaScript's `split` and `trim` on
  single characters only. JavaScript's UTF-16 code units are taken to be
  characters.

## Findings

| source | as written | input that shows it | evidently intended | confidence | as-written member | corrected member |
|---|---|---|---|---|---|---|
| lib/Queue.ts:150-164 | `trySchedule` shifts a free worker off the list before it checks whether `dequeue` found a task, and recurses while the queue is non-empty. When no queued task is selectable, every free worker is shifted off and bound to nothing. Those workers are lost for good: they are neither free nor busy. | one queued task whose priority is `Number.MAX_VALUE` (or `NaN`, as `parseInt` can restore it) while a worker is free | take a worker only when a task was dequeued, and stop the drain when `dequeue` returns `undefined` | not executed | Queues.UnselectableTaskStrandsWorkers | Queues.SchedulePartitioned |

The as-written drain is `Queues.ScheduleAsWritten`.
`Queues.UnselectableTaskStrandsWorkers` and `Queues.StrandedWorkerIsLost`
exhibit the loss on that input. The corrected drain is `Queues.Schedule`,
and `Queues.Queue.TrySchedule` implements it. `Queues.SchedulePartitioned`
and `Queues.ScheduleSettles` prove that it keeps every worker free or busy,
and that it stops with no free worker or with no selectable task.
`Queues.ScheduleAgrees` proves that the two drains coincide whenever every
queued task is selectable.
