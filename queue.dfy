/** lib/Queue.ts: the dispatcher. Tasks wait in a priority queue keyed by their
    priority; free worker ids wait in a FIFO list; `jobs` binds each busy worker
    to the task it runs. Every asynchronous callback of the source (restore and
    spawn at start-up, `add`, a worker's `message`, a worker's `error`) is one
    atomic step here, and the persistence calls and emitted events it makes are
    recorded, in order, in a ghost trace. */
module Queues {
  import opened Wrappers
  import opened Tasks
  import opened PriorityQueues
  import TaskIds
  import TaskFactories

  /** The number the priority queue compares: a `NaN` priority compares like the
      sentinel, since `NaN < x` is false for every `x`. */
  function TaskKey(t: Task): (key: int)
    ensures key < MAXP <==> t.priority.Num? && t.priority.n < MAXP
  {
    match t.priority
    case Num(n) => n
    case NaN => MAXP
  }

  /** No task in `items` can ever be dequeued. */
  ghost predicate Unselectable(items: seq<Task>) {
    forall i :: 0 <= i < |items| ==> TaskKey(items[i]) >= MAXP
  }

  /** The state `trySchedule` works on. */
  datatype Dispatch = Dispatch(items: seq<Task>, free: seq<nat>, jobs: map<nat, Task>)

  /** The worker ids of a list. */
  function Elems(s: seq<nat>): set<nat> {
    set w | w in s
  }

  ghost predicate NoDup(s: seq<nat>) {
    forall i, j :: 0 <= i < j < |s| ==> s[i] != s[j]
  }

  /** Every pool id is either free (once) or busy, never both. */
  ghost predicate Partitioned(free: seq<nat>, jobs: map<nat, Task>, pool: set<nat>) {
    NoDup(free)
    && (forall w :: w in free ==> w !in jobs)
    && Elems(free) + jobs.Keys == pool
  }

  /** `trySchedule` exactly as written: while a worker is free and the queue is
      non-empty, dequeue and shift, and bind the two only when both are truthy.
      A `dequeue` that finds nothing selectable still consumes the worker. */
  function ScheduleAsWritten(items: seq<Task>, free: seq<nat>, jobs: map<nat, Task>): (r: Dispatch)
    ensures |r.free| <= |free|
    ensures r.free == [] || r.items == []
    decreases |free|
  {
    if |free| > 0 && |items| > 0 then
      var (task, rest) := PopMin(items, TaskKey);
      var w := free[0];
      ScheduleAsWritten(rest, free[1..], if w != 0 && task.Some? then jobs[w := task.value] else jobs)
    else
      Dispatch(items, free, jobs)
  }

  /** `trySchedule` with the shift moved behind a successful dequeue: when no
      queued task is selectable, the drain stops and the free workers stay free.
      On return either no worker is free or no queued task can be dispatched
      (`ScheduleSettles`); the workers still free are the tail of the list
      (`ScheduleFreeSuffix`). */
  function Schedule(items: seq<Task>, free: seq<nat>, jobs: map<nat, Task>): (r: Dispatch)
    ensures |r.free| <= |free|
    decreases |free|
  {
    if |free| > 0 && |items| > 0 then
      var popped := PopMin(items, TaskKey);
      if popped.0.None? then
        Dispatch(items, free, jobs)
      else
        var w := free[0];
        Schedule(popped.1, free[1..], if w != 0 then jobs[w := popped.0.value] else jobs)
    else
      Dispatch(items, free, jobs)
  }

  /** The drain runs until no worker is free or no queued task can be
      dequeued. */
  lemma {:induction false} ScheduleSettles(items: seq<Task>, free: seq<nat>, jobs: map<nat, Task>)
    ensures Schedule(items, free, jobs).free == [] || Unselectable(Schedule(items, free, jobs).items)
    decreases |free|
  {
    var popped := PopMin(items, TaskKey);
    if |free| > 0 && popped.0.Some? {
      var jobs' := if free[0] != 0 then jobs[free[0] := popped.0.value] else jobs;
      ScheduleStep(items, free, jobs, popped.0.value, popped.1);
      ScheduleSettles(popped.1, free[1..], jobs');
    } else if |free| > 0 {
      PopMinNone(items, TaskKey);
      ScheduleStop(items, free, jobs);
    }
  }

  /** The two drains agree whenever every queued task is selectable. */
  lemma {:induction false} ScheduleAgrees(items: seq<Task>, free: seq<nat>, jobs: map<nat, Task>)
    requires forall i :: 0 <= i < |items| ==> TaskKey(items[i]) < MAXP
    ensures ScheduleAsWritten(items, free, jobs) == Schedule(items, free, jobs)
    decreases |free|
  {
    if |free| > 0 && |items| > 0 {
      var (task, rest) := PopMin(items, TaskKey);
      assert TaskKey(items[0]) < MAXP;
      PopMinNone(items, TaskKey);
      assert task.Some?;
      PopMinChoice(items, TaskKey);
      forall i | 0 <= i < |rest|
        ensures TaskKey(rest[i]) < MAXP
      {
        assert rest[i] in multiset(rest);
        assert rest[i] in multiset(items);
      }
      var w := free[0];
      ScheduleAgrees(rest, free[1..], if w != 0 then jobs[w := task.value] else jobs);
    }
  }

  /** The as-written drain on a queue holding one task that can never be
      dequeued: every free worker is shifted off and none is bound to a job. */
  lemma {:induction false} UnselectableTaskStrandsWorkers(t: Task, free: seq<nat>, jobs: map<nat, Task>)
    requires TaskKey(t) >= MAXP
    ensures ScheduleAsWritten([t], free, jobs) == Dispatch([t], [], jobs)
    decreases |free|
  {
    if |free| > 0 {
      PopMinNone([t], TaskKey);
      assert PopMin([t], TaskKey) == (None, [t]);
      UnselectableTaskStrandsWorkers(t, free[1..], jobs);
    }
  }

  /** Hence the as-written drain breaks the worker partition: a worker that was
      free is afterwards neither free nor busy. The corrected drain keeps it. */
  lemma StrandedWorkerIsLost(t: Task, free: seq<nat>, jobs: map<nat, Task>)
    requires TaskKey(t) >= MAXP
    requires Partitioned(free, jobs, Elems(free) + jobs.Keys) && free != []
    ensures !Partitioned(ScheduleAsWritten([t], free, jobs).free, ScheduleAsWritten([t], free, jobs).jobs, Elems(free) + jobs.Keys)
    ensures Schedule([t], free, jobs) == Dispatch([t], free, jobs)
  {
    UnselectableTaskStrandsWorkers(t, free, jobs);
    assert free[0] in Elems(free);
    assert free[0] !in Elems([]) + jobs.Keys;
    PopMinNone([t], TaskKey);
    assert PopMin([t], TaskKey) == (None, [t]);
  }

  /** Scheduling keeps every pool worker either free or busy. */
  lemma {:induction false} SchedulePartitioned(items: seq<Task>, free: seq<nat>, jobs: map<nat, Task>, pool: set<nat>)
    requires Partitioned(free, jobs, pool) && 0 !in pool
    ensures Partitioned(Schedule(items, free, jobs).free, Schedule(items, free, jobs).jobs, pool)
    decreases |free|
  {
    if |free| > 0 && |items| > 0 {
      var (task, rest) := PopMin(items, TaskKey);
      if task.Some? {
        var w := free[0];
        var jobs' := if w != 0 then jobs[w := task.value] else jobs;
        assert w in Elems(free);
        PartitionShift(free, jobs, pool, task.value);
        SchedulePartitioned(rest, free[1..], jobs', pool);
      }
    }
  }

  /** One dispatch step: the head of the free list becomes busy. */
  lemma PartitionShift(free: seq<nat>, jobs: map<nat, Task>, pool: set<nat>, t: Task)
    requires Partitioned(free, jobs, pool) && free != []
    ensures Partitioned(free[1..], jobs[free[0] := t], pool)
  {
    var w := free[0];
    assert free == [w] + free[1..];
    assert Elems(free) == {w} + Elems(free[1..]);
    forall v | v in free[1..]
      ensures v != w
    {
      var j :| 0 <= j < |free[1..]| && free[1..][j] == v;
      assert free[j + 1] == v;
    }
  }

  /** A worker that is not free keeps its job, or its lack of one. */
  lemma {:induction false} ScheduleKeepsOtherJobs(items: seq<Task>, free: seq<nat>, jobs: map<nat, Task>, v: nat)
    requires v !in free
    ensures v in Schedule(items, free, jobs).jobs <==> v in jobs
    ensures v in jobs ==> Schedule(items, free, jobs).jobs[v] == jobs[v]
    decreases |free|
  {
    if |free| > 0 && |items| > 0 {
      var (task, rest) := PopMin(items, TaskKey);
      if task.Some? {
        var w := free[0];
        assert v != w;
        assert v !in free[1..];
        ScheduleKeepsOtherJobs(rest, free[1..], if w != 0 then jobs[w := task.value] else jobs, v);
      }
    }
  }

  /** One step of the corrected drain, when the dequeue succeeds. */
  lemma ScheduleStep(items: seq<Task>, free: seq<nat>, jobs: map<nat, Task>, task: Task, rest: seq<Task>)
    requires |free| > 0 && PopMin(items, TaskKey) == (Some(task), rest)
    ensures Schedule(items, free, jobs) == Schedule(rest, free[1..], if free[0] != 0 then jobs[free[0] := task] else jobs)
    ensures DequeueAll(items, TaskKey) == [task] + DequeueAll(rest, TaskKey)
  {
    assert |items| > 0;
  }

  /** When the dequeue fails the drain stops. */
  lemma ScheduleStop(items: seq<Task>, free: seq<nat>, jobs: map<nat, Task>)
    requires PopMin(items, TaskKey).0.None?
    ensures Schedule(items, free, jobs) == Dispatch(items, free, jobs)
    ensures DequeueAll(items, TaskKey) == []
  {
  }

  /** Workers are taken from the front of the free list: those left free are
      its tail. */
  lemma {:induction false} ScheduleFreeSuffix(items: seq<Task>, free: seq<nat>, jobs: map<nat, Task>)
    ensures var r := Schedule(items, free, jobs); r.free == free[|free| - |r.free|..]
    decreases |free|
  {
    var popped := PopMin(items, TaskKey);
    if |free| > 0 && popped.0.Some? {
      var w := free[0];
      var jobs' := if w != 0 then jobs[w := popped.0.value] else jobs;
      ScheduleStep(items, free, jobs, popped.0.value, popped.1);
      ScheduleFreeSuffix(popped.1, free[1..], jobs');
      var r := Schedule(popped.1, free[1..], jobs');
      assert free[1..][|free| - 1 - |r.free|..] == free[|free| - |r.free|..];
    } else if |free| > 0 {
      ScheduleStop(items, free, jobs);
    }
  }

  /** Dispatch order: the `i`-th worker of the free list gets the `i`-th task
      that successive dequeues return. */
  lemma {:induction false} ScheduleDispatches(items: seq<Task>, free: seq<nat>, jobs: map<nat, Task>, i: nat)
    requires NoDup(free) && 0 !in free
    requires i < |free| - |Schedule(items, free, jobs).free|
    ensures i < |DequeueAll(items, TaskKey)|
    ensures free[i] in Schedule(items, free, jobs).jobs
    ensures Schedule(items, free, jobs).jobs[free[i]] == DequeueAll(items, TaskKey)[i]
    decreases |free|
  {
    var popped := PopMin(items, TaskKey);
    if popped.0.None? {
      ScheduleStop(items, free, jobs);
      assert false;
    }
    var task, rest := popped.0.value, popped.1;
    var jobs' := jobs[free[0] := task];
    ScheduleStep(items, free, jobs, task, rest);
    NoDupTail(free);
    if i == 0 {
      ScheduleKeepsOtherJobs(rest, free[1..], jobs', free[0]);
    } else {
      ScheduleDispatches(rest, free[1..], jobs', i - 1);
      DispatchLater(Schedule(items, free, jobs), Schedule(rest, free[1..], jobs'),
        DequeueAll(items, TaskKey), DequeueAll(rest, TaskKey), task, free, i);
    }
  }

  /** No task is lost or duplicated: the tasks handed out, which are the first
      dequeues in order, together with the tasks still queued are exactly the
      tasks queued before. */
  lemma {:induction false} ScheduleConserves(items: seq<Task>, free: seq<nat>, jobs: map<nat, Task>)
    ensures |free| - |Schedule(items, free, jobs).free| <= |DequeueAll(items, TaskKey)|
    ensures multiset(DequeueAll(items, TaskKey)[..|free| - |Schedule(items, free, jobs).free|])
      + multiset(Schedule(items, free, jobs).items) == multiset(items)
    decreases |free|
  {
    var popped := PopMin(items, TaskKey);
    if |free| > 0 && popped.0.Some? {
      var jobs' := if free[0] != 0 then jobs[free[0] := popped.0.value] else jobs;
      ScheduleConserves(popped.1, free[1..], jobs');
      ConservesStep(items, free, jobs, popped.0.value, popped.1, jobs');
    } else if |free| > 0 {
      ScheduleStop(items, free, jobs);
    }
  }

  /** The inductive step of `ScheduleConserves`: from the drain after the first
      dispatch to the whole drain. */
  lemma ConservesStep(items: seq<Task>, free: seq<nat>, jobs: map<nat, Task>, task: Task, rest: seq<Task>, jobs': map<nat, Task>)
    requires |free| > 0 && PopMin(items, TaskKey) == (Some(task), rest)
    requires jobs' == if free[0] != 0 then jobs[free[0] := task] else jobs
    requires |free[1..]| - |Schedule(rest, free[1..], jobs').free| <= |DequeueAll(rest, TaskKey)|
    requires multiset(DequeueAll(rest, TaskKey)[..|free[1..]| - |Schedule(rest, free[1..], jobs').free|])
      + multiset(Schedule(rest, free[1..], jobs').items) == multiset(rest)
    ensures |free| - |Schedule(items, free, jobs).free| <= |DequeueAll(items, TaskKey)|
    ensures multiset(DequeueAll(items, TaskKey)[..|free| - |Schedule(items, free, jobs).free|])
      + multiset(Schedule(items, free, jobs).items) == multiset(items)
  {
    ScheduleStep(items, free, jobs, task, rest);
    PopMinRemoves(items, TaskKey);
    assert Schedule(items, free, jobs) == Schedule(rest, free[1..], jobs');
    assert multiset(rest) + multiset{task} == multiset(items);
    ConserveStep(DequeueAll(items, TaskKey), DequeueAll(rest, TaskKey), task,
      |free| - |Schedule(items, free, jobs).free|, |free[1..]| - |Schedule(rest, free[1..], jobs').free|,
      Schedule(rest, free[1..], jobs').items, rest, items);
  }

  /** The inductive step of `ScheduleConserves`, over the unfolded terms. */
  lemma ConserveStep(dequeued: seq<Task>, out: seq<Task>, task: Task, d: nat, e: nat, left: seq<Task>, rest: seq<Task>, items: seq<Task>)
    requires dequeued == [task] + out && d == e + 1 && e <= |out|
    requires multiset(out[..e]) + multiset(left) == multiset(rest)
    requires multiset(rest) + multiset{task} == multiset(items)
    ensures d <= |dequeued| && multiset(dequeued[..d]) + multiset(left) == multiset(items)
  {
    assert dequeued[..d] == [task] + out[..e];
  }

  /** The inductive step of `ScheduleDispatches`, over the unfolded terms. */
  lemma DispatchLater(sched: Dispatch, r: Dispatch, dequeued: seq<Task>, out: seq<Task>, task: Task, free: seq<nat>, i: nat)
    requires sched == r && dequeued == [task] + out
    requires 0 < i < |free|
    requires i - 1 < |out| && free[1..][i - 1] in r.jobs && r.jobs[free[1..][i - 1]] == out[i - 1]
    ensures i < |dequeued| && free[i] in sched.jobs && sched.jobs[free[i]] == dequeued[i]
  {
    assert free[1..][i - 1] == free[i];
  }

  lemma NoDupTail(free: seq<nat>)
    requires NoDup(free) && 0 !in free && free != []
    ensures NoDup(free[1..]) && 0 !in free[1..] && free[0] != 0 && free[0] !in free[1..]
  {
  }

  /** A worker list without repeats has as many ids as entries. */
  lemma {:induction false} ElemsCount(s: seq<nat>)
    requires NoDup(s)
    ensures |Elems(s)| == |s|
  {
    if s != [] {
      var t := s[..|s| - 1];
      assert NoDup(t);
      ElemsCount(t);
      assert Elems(s) == Elems(t) + {s[|s| - 1]};
      assert s[|s| - 1] !in Elems(t);
    }
  }

  /** A busy worker that answers goes to the back of the free list. */
  lemma PartitionRelease(free: seq<nat>, jobs: map<nat, Task>, pool: set<nat>, w: nat)
    requires Partitioned(free, jobs, pool) && w in jobs
    ensures Partitioned(free + [w], jobs - {w}, pool)
  {
    assert Elems(free + [w]) == Elems(free) + {w};
  }

  /** A busy worker that fails leaves the pool altogether and joins the lost
      ones: the pool shrinks by one and the count of started workers holds. */
  lemma PartitionRetire(free: seq<nat>, jobs: map<nat, Task>, pool: set<nat>, lost: set<nat>, n: nat, w: nat)
    requires Partitioned(free, jobs, pool) && 0 !in pool && pool !! lost && |pool| + |lost| == n
    requires w in jobs
    ensures Partitioned(free, jobs - {w}, pool - {w}) && 0 !in pool - {w}
    ensures (pool - {w}) !! (lost + {w}) && |pool - {w}| + |lost + {w}| == n
    ensures |pool - {w}| == |pool| - 1
  {
    assert w in pool && w !in lost;
  }

  /** The dispatcher's data invariant: every worker started is free, busy or
      lost, and in exactly one of those; ids are positive; no worker is left
      idle while a dispatchable task waits. */
  ghost predicate Invariant(items: seq<Task>, free: seq<nat>, jobs: map<nat, Task>, pool: set<nat>, lost: set<nat>, n: nat) {
    Partitioned(free, jobs, pool)
    && 0 !in pool
    && pool !! lost
    && |pool| + |lost| == n
    && (free == [] || Unselectable(items))
  }

  /** Scheduling from any partitioned state establishes the invariant. */
  lemma ScheduleEstablishes(items: seq<Task>, free: seq<nat>, jobs: map<nat, Task>, pool: set<nat>, lost: set<nat>, n: nat)
    requires Partitioned(free, jobs, pool) && 0 !in pool && pool !! lost && |pool| + |lost| == n
    ensures Invariant(Schedule(items, free, jobs).items, Schedule(items, free, jobs).free, Schedule(items, free, jobs).jobs, pool, lost, n)
  {
    SchedulePartitioned(items, free, jobs, pool);
    ScheduleSettles(items, free, jobs);
  }

  /** What a finished job emits on the task's name: the error, or no error and
      the payload. */
  datatype Emission = Failed(taskName: string, error: string) | Completed(taskName: string, payload: Option<string>)

  /** The observable effects of the dispatcher, in the order it makes them: a
      call to the persistence store's `onAppend` or `onDelete`, or an event. */
  datatype Effect = Appended(task: Task) | Deleted(task: Task) | Emitted(emission: Emission)

  function Outcome(task: Task, response: WorkerResponse): Emission {
    match response.error
    case Error(message) => Failed(task.name, message)
    case NoError => Completed(task.name, response.payload)
  }

  /** A store call reaches an adapter only when one was given; without one the
      store does nothing. */
  function Persist(hasAdapter: bool, e: Effect): seq<Effect> {
    if hasAdapter then [e] else []
  }

  /** The queue. `ids` is the id source shared by every queue of the process. */
  class Queue {
    const name: string
    const numThreads: nat
    const hasAdapter: bool
    const factory: TaskFactories.TaskFactory
    const tasksQueue: PriorityQueue<Task>
    const ids: TaskIds.TaskIdSource
    var freeWorkers: seq<nat>
    var jobs: map<nat, Task>
    var workersPool: set<nat>
    var dlQueue: seq<Task>
    /** The store calls and events so far. */
    ghost var trace: seq<Effect>
    /** The workers that raised `error`; they are never replaced. */
    ghost var lost: set<nat>

    ghost predicate Valid()
      reads this, tasksQueue, ids
    {
      tasksQueue.priorityOf == TaskKey
      && factory.queueName == name
      && ids.Valid()
      && Invariant(tasksQueue.items, freeWorkers, jobs, workersPool, lost, numThreads)
    }

    /** Construction up to the moment `whenReady` resolves: the tasks `getAll`
        yields are enqueued in its order (none when it rejects, and none without
        an adapter), then `numThreads` workers are started, then the restored
        tasks are scheduled. */
    constructor (
      name: string, numThreads: nat, hasAdapter: bool, definitions: seq<TaskDefinition>,
      ids: TaskIds.TaskIdSource, restored: Option<seq<Task>>, workerIds: seq<nat>)
      requires ids.Valid()
      requires !hasAdapter ==> restored == Some([])
      requires |workerIds| == numThreads && NoDup(workerIds) && 0 !in workerIds
      ensures Valid() && fresh(tasksQueue)
      ensures this.name == name && this.numThreads == numThreads && this.hasAdapter == hasAdapter && this.ids == ids
      ensures factory == TaskFactories.NewTaskFactory(name, definitions)
      ensures workersPool == Elems(workerIds) && |workersPool| == numThreads
      ensures lost == {} && dlQueue == [] && trace == []
      ensures var s := Schedule(restored.GetOr([]), workerIds, map[]);
        tasksQueue.items == s.items && freeWorkers == s.free && jobs == s.jobs
    {
      this.name := name;
      this.numThreads := numThreads;
      this.hasAdapter := hasAdapter;
      factory := TaskFactories.NewTaskFactory(name, definitions);
      tasksQueue := new PriorityQueue(TaskKey);
      this.ids := ids;
      freeWorkers := [];
      jobs := map[];
      workersPool := {};
      dlQueue := [];
      trace := [];
      lost := {};
      new;
      var tasks := restored.GetOr([]);
      Restore(tasks);
      assert tasksQueue.items == tasks;
      SpawnWorkers(workerIds);
      assert freeWorkers == workerIds && workersPool == Elems(workerIds);
      ElemsCount(workerIds);
      ScheduleEstablishes(tasks, workerIds, jobs, workersPool, lost, numThreads);
      if |tasks| > 0 {
        TrySchedule();
      } else {
        assert Schedule(tasks, workerIds, jobs) == Dispatch(tasks, workerIds, jobs);
      }
    }

    /** The `then` of `getAll`: each task, in order, to the back of the queue. */
    method Restore(tasks: seq<Task>)
      modifies tasksQueue
      ensures tasksQueue.items == old(tasksQueue.items) + tasks
    {
      var j := 0;
      while j < |tasks|
        invariant 0 <= j <= |tasks|
        invariant tasksQueue.items == old(tasksQueue.items) + tasks[..j]
      {
        tasksQueue.Enqueue(tasks[j]);
        assert tasks[..j + 1] == tasks[..j] + [tasks[j]];
        j := j + 1;
      }
      assert tasks[..j] == tasks;
    }

    /** The `finally` of start-up: one worker per id, in order. */
    method SpawnWorkers(workerIds: seq<nat>)
      modifies this
      ensures workersPool == old(workersPool) + Elems(workerIds) && freeWorkers == old(freeWorkers) + workerIds
      ensures jobs == old(jobs) && dlQueue == old(dlQueue) && trace == old(trace) && lost == old(lost)
    {
      var i := 0;
      while i < |workerIds|
        invariant 0 <= i <= |workerIds|
        invariant workersPool == old(workersPool) + Elems(workerIds[..i])
        invariant freeWorkers == old(freeWorkers) + workerIds[..i]
        invariant jobs == old(jobs) && dlQueue == old(dlQueue) && trace == old(trace) && lost == old(lost)
      {
        assert workerIds[..i + 1] == workerIds[..i] + [workerIds[i]];
        assert Elems(workerIds[..i + 1]) == Elems(workerIds[..i]) + {workerIds[i]};
        CreateWorker(workerIds[i]);
        i := i + 1;
      }
      assert workerIds[..i] == workerIds;
    }

    /** `createWorker`, without the thread: the new id joins the pool and the
        back of the free list. */
    method CreateWorker(w: nat)
      modifies this
      ensures workersPool == old(workersPool) + {w} && freeWorkers == old(freeWorkers) + [w]
      ensures jobs == old(jobs) && dlQueue == old(dlQueue) && trace == old(trace) && lost == old(lost)
    {
      workersPool := workersPool + {w};
      freeWorkers := freeWorkers + [w];
    }

    /** `add`, once `whenReady` has resolved: draw an id and build the task,
        then `Submit` it. */
    method Add(taskName: string, payload: string, options: Option<TaskOptions>, draws: seq<nat>)
      requires Valid()
      requires |draws| == TaskIds.SeedLength && TaskIds.ValidDraws(draws)
      modifies this, tasksQueue, ids
      ensures Valid()
      ensures ids.calls == old(ids.calls) + 1 && ids.counter == TaskIds.NextCounter(old(ids.counter))
      ensures ids.seed == if TaskIds.Rotates(old(ids.counter)) then TaskIds.SeedFrom(draws) else old(ids.seed)
      ensures var t := TaskFactories.MakeTask(factory, TaskIds.IdString(name, ids.seed, ids.counter), taskName, payload, options);
        trace == old(trace) + Persist(hasAdapter, Appended(t))
        && var s := Schedule(old(tasksQueue.items) + [t], old(freeWorkers), old(jobs));
        tasksQueue.items == s.items && freeWorkers == s.free && jobs == s.jobs
      ensures workersPool == old(workersPool) && lost == old(lost) && dlQueue == old(dlQueue)
    {
      var task := TaskFactories.CreateTask(factory, ids, taskName, payload, options, draws);
      Submit(task);
    }

    /** The rest of `add` once the task exists: the store's `onAppend`, then,
        whatever it does, the task goes behind every queued one and scheduling
        runs. */
    method Submit(task: Task)
      requires Valid()
      modifies this, tasksQueue
      ensures Valid()
      ensures trace == old(trace) + Persist(hasAdapter, Appended(task))
      ensures var s := Schedule(old(tasksQueue.items) + [task], old(freeWorkers), old(jobs));
        tasksQueue.items == s.items && freeWorkers == s.free && jobs == s.jobs
      ensures workersPool == old(workersPool) && lost == old(lost) && dlQueue == old(dlQueue)
    {
      trace := trace + Persist(hasAdapter, Appended(task));
      tasksQueue.Enqueue(task);
      ghost var s := Schedule(old(tasksQueue.items) + [task], old(freeWorkers), old(jobs));
      assert s == Schedule(tasksQueue.items, freeWorkers, jobs);
      ScheduleEstablishes(tasksQueue.items, freeWorkers, jobs, workersPool, lost, numThreads);
      TrySchedule();
      assert tasksQueue.items == s.items && freeWorkers == s.free && jobs == s.jobs;
    }

    /** A worker's `message`: the worker goes back on the free list, its job is
        settled, and scheduling runs. */
    method OnMessage(w: nat, response: WorkerResponse)
      requires Valid() && w in jobs
      modifies this, tasksQueue
      ensures Valid()
      ensures var task := old(jobs)[w];
        dlQueue == old(dlQueue) + (if response.error.Error? then [task] else [])
        && trace == old(trace) + Persist(hasAdapter, Deleted(task)) + [Emitted(Outcome(task, response))]
      ensures var s := Schedule(old(tasksQueue.items), old(freeWorkers) + [w], old(jobs) - {w});
        tasksQueue.items == s.items && freeWorkers == s.free && jobs == s.jobs
      ensures workersPool == old(workersPool) && lost == old(lost)
    {
      Release(w, response);
      ghost var s := Schedule(old(tasksQueue.items), old(freeWorkers) + [w], old(jobs) - {w});
      assert s == Schedule(tasksQueue.items, freeWorkers, jobs);
      ScheduleEstablishes(tasksQueue.items, freeWorkers, jobs, workersPool, lost, numThreads);
      TrySchedule();
      assert tasksQueue.items == s.items && freeWorkers == s.free && jobs == s.jobs;
    }

    /** The part of `message` before scheduling: the worker goes to the back of
        the free list and its job is settled through `handleResponse`. The
        pool stays partitioned into free and busy workers. */
    method Release(w: nat, response: WorkerResponse)
      requires Partitioned(freeWorkers, jobs, workersPool) && w in jobs
      modifies this
      ensures Partitioned(freeWorkers, jobs, workersPool)
      ensures freeWorkers == old(freeWorkers) + [w] && jobs == old(jobs) - {w}
      ensures workersPool == old(workersPool) && lost == old(lost)
      ensures var task := old(jobs)[w];
        dlQueue == old(dlQueue) + (if response.error.Error? then [task] else [])
        && trace == old(trace) + Persist(hasAdapter, Deleted(task)) + [Emitted(Outcome(task, response))]
    {
      PartitionRelease(freeWorkers, jobs, workersPool, w);
      freeWorkers := freeWorkers + [w];
      HandleResponse(w, response);
    }

    /** A worker's `error`: its job fails, the worker leaves the pool for good,
        and scheduling runs on the workers left. */
    method OnError(w: nat, message: string)
      requires Valid() && w in jobs
      modifies this, tasksQueue
      ensures Valid()
      ensures workersPool == old(workersPool) - {w} && lost == old(lost) + {w}
      ensures |workersPool| == |old(workersPool)| - 1
      ensures var task := old(jobs)[w];
        dlQueue == old(dlQueue) + [task]
        && trace == old(trace) + Persist(hasAdapter, Deleted(task)) + [Emitted(Failed(task.name, message))]
      ensures var s := Schedule(old(tasksQueue.items), old(freeWorkers), old(jobs) - {w});
        tasksQueue.items == s.items && freeWorkers == s.free && jobs == s.jobs
    {
      Retire(w, message);
      ghost var s := Schedule(old(tasksQueue.items), old(freeWorkers), old(jobs) - {w});
      assert s == Schedule(tasksQueue.items, freeWorkers, jobs);
      ScheduleEstablishes(tasksQueue.items, freeWorkers, jobs, workersPool, lost, numThreads);
      TrySchedule();
      assert tasksQueue.items == s.items && freeWorkers == s.free && jobs == s.jobs;
    }

    /** The part of `error` before scheduling: the job fails through
        `handleResponse` and the worker is dropped from the pool. The partition
        of the remaining pool into free and busy workers is kept. */
    method Retire(w: nat, message: string)
      requires Partitioned(freeWorkers, jobs, workersPool) && 0 !in workersPool
      requires workersPool !! lost && |workersPool| + |lost| == numThreads && w in jobs
      modifies this
      ensures Partitioned(freeWorkers, jobs, workersPool) && 0 !in workersPool
      ensures workersPool !! lost && |workersPool| + |lost| == numThreads
      ensures workersPool == old(workersPool) - {w} && lost == old(lost) + {w}
      ensures |workersPool| == |old(workersPool)| - 1
      ensures freeWorkers == old(freeWorkers) && jobs == old(jobs) - {w}
      ensures var task := old(jobs)[w];
        dlQueue == old(dlQueue) + [task]
        && trace == old(trace) + Persist(hasAdapter, Deleted(task)) + [Emitted(Failed(task.name, message))]
    {
      PartitionRetire(freeWorkers, jobs, workersPool, lost, numThreads, w);
      HandleResponse(w, WorkerResponse(None, Error(message)));
      workersPool := workersPool - {w};
      lost := lost + {w};
    }

    /** `handleResponse`: a truthy error sends the task to the dead-letter list;
        either way the store's `onDelete` is called, the outcome is emitted on
        the task's name, and the job is removed. */
    method HandleResponse(w: nat, response: WorkerResponse)
      requires w in jobs
      modifies this
      ensures var task := old(jobs)[w];
        dlQueue == old(dlQueue) + (if response.error.Error? then [task] else [])
        && trace == old(trace) + Persist(hasAdapter, Deleted(task)) + [Emitted(Outcome(task, response))]
      ensures jobs == old(jobs) - {w}
      ensures freeWorkers == old(freeWorkers) && workersPool == old(workersPool) && lost == old(lost)
    {
      var task := jobs[w];
      if response.error.Error? {
        dlQueue := dlQueue + [task];
      }
      trace := trace + Persist(hasAdapter, Deleted(task)) + [Emitted(Outcome(task, response))];
      jobs := jobs - {w};
    }

    /** `trySchedule`, with the shift after a successful dequeue: it runs the
        drain `Schedule` describes. */
    method TrySchedule()
      requires tasksQueue.priorityOf == TaskKey
      modifies this, tasksQueue
      ensures var s := Schedule(old(tasksQueue.items), old(freeWorkers), old(jobs));
        tasksQueue.items == s.items && freeWorkers == s.free && jobs == s.jobs
      ensures workersPool == old(workersPool) && lost == old(lost) && dlQueue == old(dlQueue) && trace == old(trace)
      decreases |freeWorkers|
    {
      if |freeWorkers| > 0 && tasksQueue.Size() > 0 {
        var task := tasksQueue.Dequeue();
        if task.None? {
          return;
        }
        var w := freeWorkers[0];
        freeWorkers := freeWorkers[1..];
        if w != 0 {
          jobs := jobs[w := task.value];
        }
        TrySchedule();
      }
    }
  }
}
