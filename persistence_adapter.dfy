/** lib/QueuePersistenceAdapter.ts: a persistence adapter that appends one
    record per queue event to a log file, replays the file on start-up and
    periodically rewrites it with the surviving tasks only. The file is
    modelled by its content; the interval timer that triggers compaction is
    left to the caller. */
module PersistenceAdapters {
  import opened Wrappers
  import opened Tasks
  import opened Wal

  /** The replay loop of `getAll` over a file's content. */
  method ReadAll(content: string) returns (r: Option<seq<Task>>)
    ensures r == Replay(ReadLines(content))
  {
    var lines := ReadLines(content);
    ghost var es := Parsed(lines);
    var tasksMap: map<string, Task> := map[];
    var order: seq<string> := [];
    var i := 0;
    while i < |lines|
      invariant 0 <= i <= |lines|
      invariant ReplayEntries(es[..i]) == Some(ReplayState(tasksMap, order))
    {
      var e := Parse(lines[i]);
      assert e == es[i];
      ghost var st := ReplayState(tasksMap, order);
      match e {
        case AppendEntry(t) =>
          tasksMap := tasksMap[t.id := t];
          order := order + [t.id];
        case DeleteEntry(id) =>
          tasksMap := tasksMap - {id};
        case Truncated =>
          ReplayFails(es, i + 1);
          return None;
        case Ignored =>
      }
      ReplayAdvance(es, i, st, ReplayState(tasksMap, order));
      i := i + 1;
    }
    assert es[..i] == es;
    r := Some(Live(tasksMap, order));
  }

  class QueuePersistenceAdapter {
    const fileName: string
    var content: string

    /** The adapter over a file that already holds `content`. */
    constructor(fileName: string, content: string)
      ensures this.fileName == fileName && this.content == content
    {
      this.fileName := fileName;
      this.content := content;
    }

    /** `onAppend`: the task's APPEND record goes to the end of the file. */
    method OnAppend(task: Task)
      modifies this
      ensures content == old(content) + ToAppendLine(task)
    {
      content := content + ToAppendLine(task);
    }

    /** `onDelete`: a DELETE record for the task's id goes to the end of the file. */
    method OnDelete(task: Task)
      modifies this
      ensures content == old(content) + DeleteLine(task)
    {
      content := content + DeleteLine(task);
    }

    /** `getAll`: the surviving tasks in the order they were appended, or
        `None` when the file holds a short APPEND line. */
    method GetAll() returns (r: Option<seq<Task>>)
      ensures r == Replay(ReadLines(content))
    {
      r := ReadAll(content);
    }

    /** `compactIndex`: the file is rewritten as one APPEND record per task
        `getAll` returns, which replays to the same tasks; when `getAll`
        rejects, the file is left alone. */
    method CompactIndex()
      modifies this
      ensures Replay(ReadLines(old(content))).None? ==> content == old(content)
      ensures Replay(ReadLines(old(content))).Some? ==>
        content == CompactContent(Replay(ReadLines(old(content))).value)
        && Replay(ReadLines(content)) == Replay(ReadLines(old(content)))
    {
      var all := GetAll();
      if all.Some? {
        CompactedFileReplays(content);
        content := CompactContent(all.value);
      }
    }
  }
}
