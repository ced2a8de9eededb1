/** tests/FSPersistenceAdapter.ts: the file-backed adapter the examples use.
    It writes the same records as lib/QueuePersistenceAdapter.ts, to a file
    named after the queue, and has no compaction. */
module FilePersistence {
  import opened Wrappers
  import opened Tasks
  import opened Wal
  import PersistenceAdapters

  /** `queue.${queueName}.dat`. */
  function FileName(queueName: string): string {
    "queue." + queueName + ".dat"
  }

  /** Two queues with different names never share a log file. */
  lemma FileNamesDistinct(a: string, b: string)
    requires a != b
    ensures FileName(a) != FileName(b)
  {
    assert FileName(a)[6..6 + |a|] == a;
  }

  class FSPersistenceAdapter {
    const fileName: string
    var content: string

    /** The adapter for queue `queueName`, whose file already holds `content`. */
    constructor(queueName: string, content: string)
      ensures fileName == FileName(queueName) && this.content == content
    {
      fileName := "queue." + queueName + ".dat";
      this.content := content;
    }

    /** `onAppend`: the line is written out in place; it is the APPEND record
        of the task. */
    method OnAppend(task: Task)
      modifies this
      ensures content == old(content) + ToAppendLine(task)
    {
      AppendLineLayout(task);
      var line := "APPEND | " + task.id + " | " + task.name + " | " + FormatPriority(task.priority) + " | " + task.payload + "\n";
      content := content + line;
    }

    /** `onDelete`: the DELETE record of the task's id. */
    method OnDelete(task: Task)
      modifies this
      ensures content == old(content) + DeleteLine(task)
    {
      DeleteLineLayout(task);
      var line := "DELETE | " + task.id + "\n";
      content := content + line;
    }

    /** `getAll`: the same replay as the library adapter. */
    method GetAll() returns (r: Option<seq<Task>>)
      ensures r == Replay(ReadLines(content))
    {
      r := PersistenceAdapters.ReadAll(content);
    }
  }
}
