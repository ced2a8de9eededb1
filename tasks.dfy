/** The records that lib/Queue.ts declares as interfaces: a task, a named task
    definition, the per-call options and a worker's response. */
module Tasks {
  import opened Wrappers

  /** A task's priority as the JavaScript number it is: an integer, or `NaN`
      when a log record's priority field does not parse. */
  datatype Priority = Num(n: int) | NaN

  /** A task. The payload is kept as its JSON text. `script` and `timeout` are
      `None` where the source leaves them `undefined`. */
  datatype Task = Task(
    id: string,
    name: string,
    script: Option<string>,
    priority: Priority,
    payload: string,
    timeout: Option<int>)

  /** A named template registered when the queue is built. */
  datatype TaskDefinition = TaskDefinition(
    name: string,
    script: string,
    priority: Option<int>,
    timeout: Option<int>)

  /** The optional overrides passed to `add`. */
  datatype TaskOptions = TaskOptions(
    script: Option<string>,
    priority: Option<int>,
    timeout: Option<int>)

  /** The `error` slot of a worker response: `NoError` when it is missing or
      holds a falsy value, `Error` when it holds a truthy one. */
  datatype ErrorValue = NoError | Error(message: string)

  /** What a worker posts back: a result payload or an error. */
  datatype WorkerResponse = WorkerResponse(payload: Option<string>, error: ErrorValue)
}
