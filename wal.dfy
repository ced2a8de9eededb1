/** The write-ahead log shared by lib/QueuePersistenceAdapter.ts and
    tests/FSPersistenceAdapter.ts. A record is one line of fields separated by
    `|` and padded by blanks: `APPEND | id | name | priority | payload` or
    `DELETE | id`. Replay walks the lines in order, keeping an id-to-task map
    and the list of appended ids; the survivors are that list looked up in the
    map, dropping ids no longer present. Compaction rewrites the log as one
    APPEND record per survivor. */
module Wal {
  import opened Wrappers
  import opened Text
  import opened Tasks

  // ---------------------------------------------------------------------------
  // Writing records

  /** `${task.priority}` for an integer or for `NaN`. */
  function FormatPriority(p: Priority): string {
    match p
    case Num(n) => IntToString(n)
    case NaN => "NaN"
  }

  /** `parseInt(priority)` as the replay stores it. */
  function ParsePriority(s: string): Priority {
    match ParseInt(s)
    case Some(n) => Num(n)
    case None => NaN
  }

  /** The text between two fields of a record. */
  const Separator: string := " | "

  /** Fields joined by the separator, as the record templates lay them out. */
  function Record(fields: seq<string>): string
    requires |fields| >= 1
    decreases |fields|
  {
    if |fields| == 1 then fields[0] else fields[0] + Separator + Record(fields[1..])
  }

  /** An APPEND record without its line terminator. */
  function AppendText(t: Task): string {
    Record(["APPEND", t.id, t.name, FormatPriority(t.priority), t.payload])
  }

  /** `toAppendLine`: the APPEND record, newline included. Script and timeout
      are not written. */
  function ToAppendLine(t: Task): (line: string)
    ensures |line| >= 1 && line[|line| - 1] == '\n'
    ensures Writable(t) ==> '\n' !in line[..|line| - 1]
  {
    var line := AppendText(t) + "\n";
    assert line[..|line| - 1] == AppendText(t);
    if Writable(t) then AppendTextOneLine(t); line else line
  }

  /** A DELETE record without its line terminator. */
  function DeleteText(t: Task): string {
    Record(["DELETE", t.id])
  }

  /** The line `onDelete` appends. */
  function DeleteLine(t: Task): (line: string)
    ensures |line| >= 1 && line[|line| - 1] == '\n'
    ensures CleanField(t.id) ==> '\n' !in line[..|line| - 1]
  {
    var line := DeleteText(t) + "\n";
    assert line[..|line| - 1] == DeleteText(t);
    if CleanField(t.id) then DeleteTextOneLine(t); line else line
  }

  /** A field that survives being written and read back: no separator, no line
      break, and nothing for `trim` to remove. */
  predicate CleanField(s: string) {
    '|' !in s && '\n' !in s && Trimmed(s)
  }

  /** A task whose APPEND record reads back field for field. */
  predicate Writable(t: Task) {
    CleanField(t.id) && CleanField(t.name) && CleanField(t.payload)
  }

  /** What replay can recover of a task: script and timeout are gone. */
  function Stored(t: Task): Task {
    Task(t.id, t.name, None, t.priority, t.payload, None)
  }

  /** A task in the form replay produces. */
  predicate Restorable(t: Task) {
    Writable(t) && t.script == None && t.timeout == None
  }

  // ---------------------------------------------------------------------------
  // Reading records

  /** `.map(item => item.trim())`. */
  function TrimAll(pieces: seq<string>): (r: seq<string>)
    ensures |r| == |pieces|
    ensures forall i :: 0 <= i < |r| ==> r[i] == Trim(pieces[i])
  {
    if pieces == [] then [] else [Trim(pieces[0])] + TrimAll(pieces[1..])
  }

  /** `line.split('|').map(item => item.trim())`. */
  function Fields(line: string): (fs: seq<string>)
    ensures |fs| >= 1
    ensures forall i :: 0 <= i < |fs| ==> Trimmed(fs[i]) && '|' !in fs[i]
    ensures '\n' !in line ==> forall i :: 0 <= i < |fs| ==> '\n' !in fs[i]
  {
    var pieces := Split(line, '|');
    SplitSeparates(line, '|');
    assert '\n' !in line ==> forall i :: 0 <= i < |pieces| ==> '\n' !in pieces[i] by {
      if '\n' !in line {
        SplitAvoids(line, '|', '\n');
      }
    }
    TrimAll(pieces)
  }

  /** The field at `i`, or the key `undefined` turns into when the line is short. */
  function FieldAt(fs: seq<string>, i: nat): string {
    if i < |fs| then fs[i] else "undefined"
  }

  /** The task an APPEND line's fields describe. */
  function Restored(fs: seq<string>): Task
    requires |fs| >= 5
  {
    Task(fs[1], fs[2], None, ParsePriority(fs[3]), fs[4], None)
  }

  /** What one line of the log says once it is split and trimmed. */
  datatype Entry =
    | AppendEntry(task: Task)
    | DeleteEntry(id: string)
    | Truncated
    | Ignored

  /** The destructuring and the two `if`s of the replay loop: an APPEND line
      with all five fields, a DELETE line (its id, `undefined` when missing),
      an APPEND line too short for `JSON.parse(payload)`, which throws, or a
      line the loop does nothing with. */
  function Parse(line: string): (e: Entry)
    ensures e.AppendEntry? ==> e.task.script == None && e.task.timeout == None
    ensures e.DeleteEntry? ==> '|' !in e.id
  {
    var fs := Fields(line);
    if fs[0] == "APPEND" then
      if |fs| < 5 then Truncated else AppendEntry(Restored(fs))
    else if fs[0] == "DELETE" then DeleteEntry(FieldAt(fs, 1))
    else Ignored
  }

  /** Every line of a log, parsed. */
  function Parsed(lines: seq<string>): (es: seq<Entry>)
    ensures |es| == |lines| && forall i :: 0 <= i < |lines| ==> es[i] == Parse(lines[i])
  {
    seq(|lines|, i requires 0 <= i < |lines| => Parse(lines[i]))
  }

  /** The map and the order list of the replay loop. */
  datatype ReplayState = ReplayState(tasks: map<string, Task>, order: seq<string>)

  /** One iteration of the replay loop; `None` when it throws. */
  function Step(st: ReplayState, e: Entry): (r: Option<ReplayState>)
    ensures r.None? <==> e.Truncated?
  {
    match e
    case AppendEntry(t) => Some(ReplayState(st.tasks[t.id := t], st.order + [t.id]))
    case DeleteEntry(id) => Some(ReplayState(st.tasks - {id}, st.order))
    case Truncated => None
    case Ignored => Some(st)
  }

  /** The replay loop over all entries, from an empty map and order. */
  function ReplayEntries(es: seq<Entry>): (r: Option<ReplayState>)
    ensures r.Some? ==> |r.value.order| <= |es|
  {
    if es == [] then Some(ReplayState(map[], []))
    else
      match ReplayEntries(es[..|es| - 1])
      case None => None
      case Some(st) => Step(st, es[|es| - 1])
  }

  /** `order.map(id => tasksMap[id]).filter(task => task !== undefined)`. */
  function Live(tasks: map<string, Task>, order: seq<string>): (live: seq<Task>)
    ensures |live| <= |order|
  {
    if order == [] then []
    else (if order[0] in tasks then [tasks[order[0]]] else []) + Live(tasks, order[1..])
  }

  /** `getAll` over the lines of the log; `None` when the promise rejects. */
  function Replay(lines: seq<string>): (r: Option<seq<Task>>)
    ensures r.Some? ==> |r.value| <= |lines|
  {
    match ReplayEntries(Parsed(lines))
    case None => None
    case Some(st) => Some(Live(st.tasks, st.order))
  }

  /** `readline` over a file's content: lines end at `\n`, and a last line
      without a terminator still counts. */
  function ReadLines(content: string): (lines: seq<string>)
    ensures lines == [] <==> content == []
  {
    if content == [] then []
    else if content[|content| - 1] == '\n' then Split(content[..|content| - 1], '\n')
    else Split(content, '\n')
  }

  /** A file every write of which ended with a newline. */
  predicate Terminated(content: string) {
    content == [] || content[|content| - 1] == '\n'
  }

  predicate NoLineBreaks(lines: seq<string>) {
    forall i :: 0 <= i < |lines| ==> '\n' !in lines[i]
  }

  // ---------------------------------------------------------------------------
  // Record round trips

  lemma PriorityClean(p: Priority)
    ensures CleanField(FormatPriority(p))
    ensures ParsePriority(FormatPriority(p)) == p
  {
    match p
    case Num(n) =>
      var s := IntToString(n);
      forall i | 0 <= i < |s|
        ensures s[i] != '|' && s[i] != '\n'
      {
        assert s[i] == '-' || IsDigit(s[i]);
      }
      NotSpace(s[0]);
      NotSpace(s[|s| - 1]);
      ParseIntOfIntToString(n);
    case NaN =>
      var s := "NaN";
      assert s[0] == 'N' && !IsSpace('N');
      assert TrimStart(s) == s;
      assert !IsDigit(s[0]);
      assert PrefixLength(s, IsDigit) == 0;
  }

  /** The first field of a line is its text before the first `|`, trimmed. */
  lemma FieldsAtFirst(a: string, b: string)
    requires '|' !in a
    ensures Fields(a + ['|'] + b) == [Trim(a)] + Fields(b)
  {
    SplitAtFirst(a, '|', b);
    var pieces := [a] + Split(b, '|');
    assert pieces[1..] == Split(b, '|');
  }

  lemma RecordUnfold(pre: string, fields: seq<string>)
    requires |fields| >= 2
    ensures pre + Record(fields) == (pre + fields[0] + " ") + ['|'] + (" " + Record(fields[1..]))
  {
    var r := Record(fields[1..]);
    assert Record(fields) == fields[0] + Separator + r;
    SeparatorSplits(pre, fields[0], r);
  }

  lemma SeparatorSplits(p: string, a: string, r: string)
    ensures p + (a + Separator + r) == (p + a + " ") + ['|'] + (" " + r)
  {
    assert Separator == [' ', '|', ' '];
  }

  /** Splitting a record on `|` and trimming the pieces gives back its
      fields, whatever blanks precede the first one. */
  lemma {:induction false} FieldsOfRecord(pre: string, fields: seq<string>)
    requires forall i :: 0 <= i < |pre| ==> IsSpace(pre[i])
    requires |fields| >= 1 && forall i :: 0 <= i < |fields| ==> CleanField(fields[i])
    ensures Fields(pre + Record(fields)) == fields
    decreases |fields|
  {
    var w := fields[0];
    if |fields| == 1 {
      FieldsOfLast(pre, w);
    } else {
      var rest := Record(fields[1..]);
      RecordUnfold(pre, fields);
      PaddedHead(pre, w);
      FieldsAtFirst(pre + w + " ", " " + rest);
      SpaceIsSpace();
      FieldsOfRecord(" ", fields[1..]);
      assert fields == [w] + fields[1..];
    }
  }

  lemma FieldsOfWholeRecord(fields: seq<string>)
    requires |fields| >= 1 && forall i :: 0 <= i < |fields| ==> CleanField(fields[i])
    ensures Fields(Record(fields)) == fields
  {
    FieldsOfRecord([], fields);
    assert [] + Record(fields) == Record(fields);
  }

  lemma SpaceIsSpace()
    ensures forall i :: 0 <= i < |" "| ==> IsSpace(" "[i])
  {
    assert IsSpace(' ');
  }

  lemma PaddedHead(pre: string, w: string)
    requires forall i :: 0 <= i < |pre| ==> IsSpace(pre[i])
    requires CleanField(w)
    ensures '|' !in pre + w + " " && Trim(pre + w + " ") == w
  {
    assert !IsSpace('|');
    SpaceIsSpace();
    TrimPadded(pre, w, " ");
  }

  lemma FieldsOfLast(pre: string, w: string)
    requires forall i :: 0 <= i < |pre| ==> IsSpace(pre[i])
    requires CleanField(w)
    ensures Fields(pre + Record([w])) == [w]
  {
    assert !IsSpace('|');
    assert pre + Record([w]) == pre + w + [];
    SplitWithout(pre + w + [], '|');
    TrimPadded(pre, w, []);
  }

  /** A record of fields without line breaks is one line. */
  lemma {:induction false} RecordOneLine(fields: seq<string>)
    requires |fields| >= 1 && forall i :: 0 <= i < |fields| ==> '\n' !in fields[i]
    ensures '\n' !in Record(fields)
    decreases |fields|
  {
    if |fields| > 1 {
      RecordOneLine(fields[1..]);
    }
  }

  lemma KeywordsClean()
    ensures CleanField("APPEND") && CleanField("DELETE")
  {
    assert !IsSpace('A') && !IsSpace('D');
  }

  /** Splitting an APPEND record on `|` and trimming recovers its fields. */
  lemma AppendFields(t: Task)
    requires Writable(t)
    ensures Fields(AppendText(t)) == ["APPEND", t.id, t.name, FormatPriority(t.priority), t.payload]
  {
    PriorityClean(t.priority);
    KeywordsClean();
    var fields := ["APPEND", t.id, t.name, FormatPriority(t.priority), t.payload];
    FieldsOfWholeRecord(fields);
  }

  /** Splitting a DELETE record recovers the id. */
  lemma DeleteFields(t: Task)
    requires CleanField(t.id)
    ensures Fields(DeleteText(t)) == ["DELETE", t.id]
  {
    KeywordsClean();
    var fields := ["DELETE", t.id];
    FieldsOfWholeRecord(fields);
  }

  /** An APPEND record parses to the task without script and timeout. */
  lemma ParseAppendText(t: Task)
    requires Writable(t)
    ensures Parse(AppendText(t)) == AppendEntry(Stored(t))
  {
    AppendFields(t);
    PriorityClean(t.priority);
  }

  /** A DELETE record parses to its id. */
  lemma ParseDeleteText(t: Task)
    requires CleanField(t.id)
    ensures Parse(DeleteText(t)) == DeleteEntry(t.id)
  {
    DeleteFields(t);
  }

  /** An APPEND line of a file parses to a task replay can write back. */
  lemma ParseRestorable(line: string)
    requires '\n' !in line && Parse(line).AppendEntry?
    ensures Restorable(Parse(line).task)
  {
  }

  /** Appending a record to a terminated file adds exactly one line. */
  lemma ReadLinesAppend(content: string, text: string)
    requires Terminated(content) && '\n' !in text
    ensures ReadLines(content + text + "\n") == ReadLines(content) + [text]
  {
    var whole := content + text + "\n";
    assert whole[..|whole| - 1] == content + text;
    if content == [] {
      assert content + text == text;
      SplitWithout(text, '\n');
    } else {
      var body := content[..|content| - 1];
      assert content + text == body + ['\n'] + text;
      SplitAppend(body, '\n', text);
      SplitWithout(text, '\n');
    }
  }

  lemma AppendTextOneLine(t: Task)
    requires Writable(t)
    ensures '\n' !in AppendText(t)
  {
    PriorityClean(t.priority);
    KeywordsClean();
    RecordOneLine(["APPEND", t.id, t.name, FormatPriority(t.priority), t.payload]);
  }

  lemma DeleteTextOneLine(t: Task)
    requires CleanField(t.id)
    ensures '\n' !in DeleteText(t)
  {
    KeywordsClean();
    RecordOneLine(["DELETE", t.id]);
  }

  /** Lines split from a file never hold a line break. */
  lemma ReadLinesOneLine(content: string)
    ensures NoLineBreaks(ReadLines(content))
  {
    if content != [] && content[|content| - 1] == '\n' {
      SplitSeparates(content[..|content| - 1], '\n');
    } else {
      SplitSeparates(content, '\n');
    }
  }

  // ---------------------------------------------------------------------------
  // What replay computes

  /** The entry appends a task under `id`. */
  predicate AppendsId(e: Entry, id: string) {
    e.AppendEntry? && e.task.id == id
  }

  /** Entry `i` appends `id` and no later entry deletes it. */
  predicate SurvivesFrom(es: seq<Entry>, id: string, i: int) {
    0 <= i < |es| && AppendsId(es[i], id)
    && forall j :: i < j < |es| ==> es[j] != DeleteEntry(id)
  }

  /** Entry `i` is the last one that appends `id`. */
  predicate LastAppend(es: seq<Entry>, id: string, i: int) {
    0 <= i < |es| && AppendsId(es[i], id)
    && forall j :: i < j < |es| ==> !AppendsId(es[j], id)
  }

  /** The ids of the APPEND entries, in file order, repeats included. */
  function AppendedIds(es: seq<Entry>): seq<string> {
    if es == [] then []
    else
      var e := es[|es| - 1];
      AppendedIds(es[..|es| - 1]) + (if e.AppendEntry? then [e.task.id] else [])
  }

  /** A successful replay of a longer log replays its prefix successfully. */
  lemma ReplayPrefix(es: seq<Entry>)
    requires es != [] && ReplayEntries(es).Some?
    ensures ReplayEntries(es[..|es| - 1]).Some?
    ensures Step(ReplayEntries(es[..|es| - 1]).value, es[|es| - 1]) == ReplayEntries(es)
  {
  }

  /** The order list holds the id of every APPEND entry, in file order. */
  lemma {:induction false} ReplayOrder(es: seq<Entry>)
    requires ReplayEntries(es).Some?
    ensures ReplayEntries(es).value.order == AppendedIds(es)
  {
    if es != [] {
      ReplayPrefix(es);
      ReplayOrder(es[..|es| - 1]);
    }
  }

  /** An id is in the replayed map exactly when some APPEND entry for it is not
      followed by a DELETE entry for it. */
  lemma {:induction false} ReplayLive(es: seq<Entry>, id: string)
    requires ReplayEntries(es).Some?
    ensures id in ReplayEntries(es).value.tasks <==> exists i :: SurvivesFrom(es, id, i)
  {
    if es != [] {
      var n := |es|;
      var init, last := es[..n - 1], es[n - 1];
      ReplayPrefix(es);
      ReplayLive(init, id);
      var st := ReplayEntries(es).value;
      if AppendsId(last, id) {
        assert SurvivesFrom(es, id, n - 1);
      } else if last == DeleteEntry(id) {
        assert id !in st.tasks;
        forall i | 0 <= i < n
          ensures !SurvivesFrom(es, id, i)
        {
        }
      } else {
        assert id in st.tasks <==> id in ReplayEntries(init).value.tasks;
        if id in st.tasks {
          var i :| SurvivesFrom(init, id, i);
          assert es[i] == init[i];
          assert SurvivesFrom(es, id, i);
        }
        if exists i :: SurvivesFrom(es, id, i) {
          var i :| SurvivesFrom(es, id, i);
          assert i < n - 1;
          assert SurvivesFrom(init, id, i);
        }
      }
    }
  }

  /** A replayed task is the one its last APPEND entry describes. */
  lemma {:induction false} ReplayLatest(es: seq<Entry>, id: string)
    requires ReplayEntries(es).Some? && id in ReplayEntries(es).value.tasks
    ensures exists i :: LastAppend(es, id, i) && ReplayEntries(es).value.tasks[id] == es[i].task
  {
    var n := |es|;
    var init, last := es[..n - 1], es[n - 1];
    ReplayPrefix(es);
    if AppendsId(last, id) {
      assert LastAppend(es, id, n - 1);
    } else {
      ReplayLatest(init, id);
      var i :| LastAppend(init, id, i) && ReplayEntries(init).value.tasks[id] == init[i].task;
      assert es[i] == init[i];
      assert LastAppend(es, id, i);
    }
  }

  // ---------------------------------------------------------------------------
  // The shape of what replay returns

  /** Every entry of the map is stored under its own id, in restorable form. */
  predicate WellKeyed(m: map<string, Task>) {
    forall k :: k in m ==> m[k].id == k && Restorable(m[k])
  }

  /** Tasks that share an id are the same task. */
  predicate Consistent(ts: seq<Task>) {
    forall i, j :: 0 <= i < |ts| && 0 <= j < |ts| && ts[i].id == ts[j].id ==> ts[i] == ts[j]
  }

  /** Entries as a file's lines parse: appended tasks are restorable. */
  predicate FromFile(es: seq<Entry>) {
    forall i :: 0 <= i < |es| && es[i].AppendEntry? ==> Restorable(es[i].task)
  }

  lemma ParsedFromFile(lines: seq<string>)
    requires NoLineBreaks(lines)
    ensures FromFile(Parsed(lines))
  {
    forall i | 0 <= i < |lines| && Parse(lines[i]).AppendEntry?
      ensures Restorable(Parse(lines[i]).task)
    {
      ParseRestorable(lines[i]);
    }
  }

  lemma {:induction false} ReplayWellKeyed(es: seq<Entry>)
    requires FromFile(es) && ReplayEntries(es).Some?
    ensures WellKeyed(ReplayEntries(es).value.tasks)
  {
    if es != [] {
      ReplayPrefix(es);
      ReplayWellKeyed(es[..|es| - 1]);
    }
  }

  /** Every task `Live` returns is the map's entry for its id. */
  lemma {:induction false} LiveFromMap(m: map<string, Task>, order: seq<string>)
    requires WellKeyed(m)
    ensures forall i :: 0 <= i < |Live(m, order)| ==>
      Live(m, order)[i].id in m && m[Live(m, order)[i].id] == Live(m, order)[i]
  {
    if order != [] {
      LiveFromMap(m, order[1..]);
    }
  }

  /** Replay returns restorable tasks, and a repeated id is the same task. */
  lemma ReplayWellFormed(lines: seq<string>)
    requires NoLineBreaks(lines) && Replay(lines).Some?
    ensures Consistent(Replay(lines).value)
    ensures forall i :: 0 <= i < |Replay(lines).value| ==> Restorable(Replay(lines).value[i])
  {
    ParsedFromFile(lines);
    ReplayWellKeyed(Parsed(lines));
    var st := ReplayEntries(Parsed(lines)).value;
    LiveFromMap(st.tasks, st.order);
  }

  // ---------------------------------------------------------------------------
  // Compaction

  /** The ids of a task list. */
  function Ids(ts: seq<Task>): (ids: seq<string>)
    ensures |ids| == |ts| && forall i :: 0 <= i < |ts| ==> ids[i] == ts[i].id
  {
    seq(|ts|, i requires 0 <= i < |ts| => ts[i].id)
  }

  /** `allTasks.map(task => this.toAppendLine(task))`, without terminators. */
  function CompactLines(ts: seq<Task>): (lines: seq<string>)
    ensures |lines| == |ts| && forall i :: 0 <= i < |ts| ==> lines[i] == AppendText(ts[i])
  {
    seq(|ts|, i requires 0 <= i < |ts| => AppendText(ts[i]))
  }

  /** `lines.join('')`. */
  function Concat(parts: seq<string>): string {
    if parts == [] then [] else Concat(parts[..|parts| - 1]) + parts[|parts| - 1]
  }

  /** The file `compactIndex` writes for a task list. */
  function CompactContent(ts: seq<Task>): (c: string)
    ensures Terminated(c)
  {
    Concat(seq(|ts|, i requires 0 <= i < |ts| => ToAppendLine(ts[i])))
  }

  /** `getAll`, then the records compaction writes: `None` when replay fails,
      as the rejected promise stops `compactIndex` before it touches the file. */
  function Compact(lines: seq<string>): (r: Option<seq<string>>)
    ensures r.Some? ==> |r.value| <= |lines|
  {
    match Replay(lines)
    case None => None
    case Some(ts) => Some(CompactLines(ts))
  }

  /** The entries of a log made of APPEND records only. */
  function Appends(ts: seq<Task>): (es: seq<Entry>)
    ensures |es| == |ts| && forall i :: 0 <= i < |ts| ==> es[i] == AppendEntry(ts[i])
  {
    seq(|ts|, i requires 0 <= i < |ts| => AppendEntry(ts[i]))
  }

  /** The map a replay of APPEND entries alone builds: the latest task per id. */
  function Index(ts: seq<Task>): map<string, Task> {
    if ts == [] then map[] else Index(ts[..|ts| - 1])[ts[|ts| - 1].id := ts[|ts| - 1]]
  }

  lemma ParsedCompactLines(ts: seq<Task>)
    requires forall i :: 0 <= i < |ts| ==> Restorable(ts[i])
    ensures Parsed(CompactLines(ts)) == Appends(ts)
  {
    forall i | 0 <= i < |ts|
      ensures Parse(AppendText(ts[i])) == AppendEntry(ts[i])
    {
      ParseAppendText(ts[i]);
    }
  }

  lemma {:induction false} ReplayOfAppends(ts: seq<Task>)
    ensures ReplayEntries(Appends(ts)) == Some(ReplayState(Index(ts), Ids(ts)))
  {
    if ts != [] {
      var n := |ts|;
      assert Appends(ts)[..n - 1] == Appends(ts[..n - 1]);
      ReplayOfAppends(ts[..n - 1]);
      assert Ids(ts) == Ids(ts[..n - 1]) + [ts[n - 1].id];
    }
  }

  lemma {:induction false} IndexLookup(ts: seq<Task>, i: nat)
    requires i < |ts| && Consistent(ts)
    ensures ts[i].id in Index(ts) && Index(ts)[ts[i].id] == ts[i]
  {
    var n := |ts|;
    var init := ts[..n - 1];
    if i < n - 1 && ts[n - 1].id != ts[i].id {
      assert init[i] == ts[i];
      IndexLookup(init, i);
    }
  }

  lemma {:induction false} LiveOfIds(m: map<string, Task>, ts: seq<Task>)
    requires forall i :: 0 <= i < |ts| ==> ts[i].id in m && m[ts[i].id] == ts[i]
    ensures Live(m, Ids(ts)) == ts
  {
    if ts != [] {
      assert Ids(ts)[1..] == Ids(ts[1..]);
      LiveOfIds(m, ts[1..]);
    }
  }

  /** Replaying the compacted log gives back the tasks it was written from. */
  lemma ReplayOfCompacted(ts: seq<Task>)
    requires Consistent(ts) && forall i :: 0 <= i < |ts| ==> Restorable(ts[i])
    ensures Replay(CompactLines(ts)) == Some(ts)
  {
    ParsedCompactLines(ts);
    ReplayOfAppends(ts);
    forall i | 0 <= i < |ts|
      ensures ts[i].id in Index(ts) && Index(ts)[ts[i].id] == ts[i]
    {
      IndexLookup(ts, i);
    }
    LiveOfIds(Index(ts), ts);
  }

  /** Compaction does not change what replay returns. */
  lemma CompactionPreservesReplay(lines: seq<string>)
    requires NoLineBreaks(lines) && Replay(lines).Some?
    ensures Compact(lines).Some? && Replay(Compact(lines).value) == Replay(lines)
  {
    ReplayWellFormed(lines);
    ReplayOfCompacted(Replay(lines).value);
  }

  /** Compacting a compacted log changes nothing. */
  lemma CompactionIdempotent(lines: seq<string>)
    requires NoLineBreaks(lines) && Compact(lines).Some?
    ensures Compact(Compact(lines).value) == Compact(lines)
  {
    CompactionPreservesReplay(lines);
  }

  /** The compacted file reads back as one APPEND line per task. */
  lemma {:induction false} ReadCompactContent(ts: seq<Task>)
    requires forall i :: 0 <= i < |ts| ==> Writable(ts[i])
    ensures Terminated(CompactContent(ts))
    ensures ReadLines(CompactContent(ts)) == CompactLines(ts)
  {
    if ts != [] {
      var init, t := ts[..|ts| - 1], ts[|ts| - 1];
      assert forall i :: 0 <= i < |init| ==> init[i] == ts[i];
      ReadCompactContent(init);
      AppendTextOneLine(t);
      CompactSnoc(ts);
      ReadLinesAppend(CompactContent(init), AppendText(t));
      TerminatedSnoc(CompactContent(init) + AppendText(t));
    }
  }

  /** Compaction output for a non-empty list: that of all but the last task,
      then the last task's line. */
  lemma CompactSnoc(ts: seq<Task>)
    requires ts != []
    ensures CompactContent(ts) == CompactContent(ts[..|ts| - 1]) + AppendText(ts[|ts| - 1]) + "\n"
    ensures CompactLines(ts) == CompactLines(ts[..|ts| - 1]) + [AppendText(ts[|ts| - 1])]
  {
    var n := |ts|;
    var init := ts[..n - 1];
    var parts := seq(n, i requires 0 <= i < n => ToAppendLine(ts[i]));
    assert parts[..n - 1] == seq(n - 1, i requires 0 <= i < n - 1 => ToAppendLine(init[i]));
    assert CompactContent(ts) == CompactContent(init) + parts[n - 1];
  }

  lemma TerminatedSnoc(s: string)
    ensures Terminated(s + "\n")
  {
  }

  // ---------------------------------------------------------------------------
  // What a single append or delete does to replay

  /** The tasks of a list whose id is not `id`. */
  function Without(ts: seq<Task>, id: string): (r: seq<Task>)
    ensures forall i :: 0 <= i < |r| ==> r[i].id != id && r[i] in ts
    ensures forall i :: 0 <= i < |ts| && ts[i].id != id ==> ts[i] in r
  {
    if ts == [] then []
    else (if ts[0].id == id then [] else [ts[0]]) + Without(ts[1..], id)
  }

  lemma {:induction false} LiveSnoc(m: map<string, Task>, order: seq<string>, x: string)
    ensures Live(m, order + [x]) == Live(m, order) + (if x in m then [m[x]] else [])
  {
    if order != [] {
      assert (order + [x])[1..] == order[1..] + [x];
      LiveSnoc(m, order[1..], x);
    }
  }

  lemma {:induction false} LiveUpdateElsewhere(m: map<string, Task>, order: seq<string>, k: string, v: Task)
    requires k !in order
    ensures Live(m[k := v], order) == Live(m, order)
  {
    if order != [] {
      LiveUpdateElsewhere(m, order[1..], k, v);
    }
  }

  lemma {:induction false} LiveRemove(m: map<string, Task>, order: seq<string>, k: string)
    requires forall key :: key in m ==> m[key].id == key
    ensures Live(m - {k}, order) == Without(Live(m, order), k)
  {
    if order != [] {
      LiveRemove(m, order[1..], k);
      var head := if order[0] in m then [m[order[0]]] else [];
      var rest := Live(m, order[1..]);
      assert Live(m, order) == head + rest;
      if order[0] in m {
        assert (head + rest)[1..] == rest;
      } else {
        assert head + rest == rest;
      }
    }
  }

  /** An id no APPEND entry names is not in the order list. */
  lemma {:induction false} AppendedIdsOnly(es: seq<Entry>, id: string)
    requires forall i :: 0 <= i < |es| ==> !AppendsId(es[i], id)
    ensures id !in AppendedIds(es)
  {
    if es != [] {
      var init := es[..|es| - 1];
      assert forall i :: 0 <= i < |init| ==> init[i] == es[i];
      AppendedIdsOnly(init, id);
    }
  }

  lemma ParsedSnoc(lines: seq<string>, line: string)
    ensures Parsed(lines + [line]) == Parsed(lines) + [Parse(line)]
    ensures Parsed(lines + [line])[..|lines|] == Parsed(lines)
  {
  }

  /** Appending the record of a task whose id the log has never appended adds
      that task, as replay stores it, to the end of what replay returns. */
  lemma AppendThenReplay(lines: seq<string>, t: Task)
    requires Writable(t) && Replay(lines).Some?
    requires forall i :: 0 <= i < |lines| ==> !AppendsId(Parse(lines[i]), t.id)
    ensures Replay(lines + [AppendText(t)]) == Some(Replay(lines).value + [Stored(t)])
  {
    var es := Parsed(lines);
    var st := ReplayEntries(es).value;
    ReplayOrder(es);
    AppendedIdsOnly(es, t.id);
    ParseAppendText(t);
    ParsedSnoc(lines, AppendText(t));
    LiveUpdateElsewhere(st.tasks, st.order, t.id, Stored(t));
    LiveSnoc(st.tasks[t.id := Stored(t)], st.order, t.id);
  }

  /** Appending a DELETE record removes every task with that id from what
      replay returns, and leaves the others in order. */
  lemma DeleteThenReplay(lines: seq<string>, t: Task)
    requires CleanField(t.id) && NoLineBreaks(lines) && Replay(lines).Some?
    ensures Replay(lines + [DeleteText(t)]) == Some(Without(Replay(lines).value, t.id))
  {
    var es := Parsed(lines);
    var st := ReplayEntries(es).value;
    ParseDeleteText(t);
    ParsedSnoc(lines, DeleteText(t));
    ParsedFromFile(lines);
    ReplayWellKeyed(es);
    LiveRemove(st.tasks, st.order, t.id);
  }

  /** Once a prefix of the log fails to replay, the whole log does. */
  lemma {:induction false} ReplayFails(es: seq<Entry>, n: nat)
    requires n <= |es| && ReplayEntries(es[..n]).None?
    ensures ReplayEntries(es).None?
    decreases |es| - n
  {
    if n < |es| {
      assert es[..n + 1][..n] == es[..n];
      ReplayFails(es, n + 1);
    } else {
      assert es[..n] == es;
    }
  }

  /** One more entry of a replay that has not thrown. */
  lemma ReplayAdvance(es: seq<Entry>, i: nat, st: ReplayState, next: ReplayState)
    requires i < |es| && ReplayEntries(es[..i]) == Some(st) && Step(st, es[i]) == Some(next)
    ensures ReplayEntries(es[..i + 1]) == Some(next)
  {
    PrefixStep(es, i);
    ReplaySnoc(es[..i], es[i], st);
  }

  lemma PrefixStep(es: seq<Entry>, i: nat)
    requires i < |es|
    ensures es[..i + 1] == es[..i] + [es[i]]
  {
  }

  lemma ParsedFour(l0: string, l1: string, l2: string, l3: string)
    ensures Parsed([l0, l1, l2, l3]) == [Parse(l0), Parse(l1), Parse(l2), Parse(l3)]
  {
    var es := Parsed([l0, l1, l2, l3]);
    SameFour(es, Parse(l0), Parse(l1), Parse(l2), Parse(l3));
  }

  lemma ParsedTwo(l0: string, l1: string)
    ensures Parsed([l0, l1]) == [Parse(l0), Parse(l1)]
  {
    var es := Parsed([l0, l1]);
    assert [l0, l1][0] == l0 && [l0, l1][1] == l1;
    assert es == [es[0], es[1]];
  }

  /** A sequence of four entries equals the display of its elements. */
  lemma SameFour(es: seq<Entry>, e0: Entry, e1: Entry, e2: Entry, e3: Entry)
    requires |es| == 4 && es[0] == e0 && es[1] == e1 && es[2] == e2 && es[3] == e3
    ensures es == [e0, e1, e2, e3]
  {
  }

  lemma ReplaySnoc(es: seq<Entry>, e: Entry, st: ReplayState)
    requires ReplayEntries(es) == Some(st)
    ensures ReplayEntries(es + [e]) == Step(st, e)
  {
    assert (es + [e])[..|es|] == es;
  }

  lemma ExampleEntries(a: Task, b: Task, c: Task)
    requires a.id != b.id && b.id != c.id && a.id != c.id
    ensures var es := [AppendEntry(a), AppendEntry(b), AppendEntry(c), DeleteEntry(b.id)];
      ReplayEntries(es).Some? && Live(ReplayEntries(es).value.tasks, ReplayEntries(es).value.order) == [a, c]
  {
    var s0 := ReplayState(map[], []);
    var s1 := ReplayState(s0.tasks[a.id := a], s0.order + [a.id]);
    var s2 := ReplayState(s1.tasks[b.id := b], s1.order + [b.id]);
    var s3 := ReplayState(s2.tasks[c.id := c], s2.order + [c.id]);
    var s4 := ReplayState(s3.tasks - {b.id}, s3.order);
    ReplaySnoc([], AppendEntry(a), s0);
    assert [] + [AppendEntry(a)] == [AppendEntry(a)];
    ReplaySnoc([AppendEntry(a)], AppendEntry(b), s1);
    assert [AppendEntry(a)] + [AppendEntry(b)] == [AppendEntry(a), AppendEntry(b)];
    ReplaySnoc([AppendEntry(a), AppendEntry(b)], AppendEntry(c), s2);
    assert [AppendEntry(a), AppendEntry(b)] + [AppendEntry(c)] == [AppendEntry(a), AppendEntry(b), AppendEntry(c)];
    ReplaySnoc([AppendEntry(a), AppendEntry(b), AppendEntry(c)], DeleteEntry(b.id), s3);
    assert [AppendEntry(a), AppendEntry(b), AppendEntry(c)] + [DeleteEntry(b.id)]
      == [AppendEntry(a), AppendEntry(b), AppendEntry(c), DeleteEntry(b.id)];
    assert s4.order == [a.id, b.id, c.id];
    assert a.id in s4.tasks && s4.tasks[a.id] == a;
    assert c.id in s4.tasks && s4.tasks[c.id] == c;
    assert b.id !in s4.tasks;
    assert Live(s4.tasks, [c.id]) == [c];
    assert Live(s4.tasks, [b.id, c.id]) == [c];
  }

  /** The example of the log format: three appends and a delete of the middle
      task leave the first and the third. */
  lemma ReplayExample(a: Task, b: Task, c: Task)
    requires Writable(a) && Writable(b) && Writable(c)
    requires a.id != b.id && b.id != c.id && a.id != c.id
    ensures Replay([AppendText(a), AppendText(b), AppendText(c), DeleteText(b)]) == Some([Stored(a), Stored(c)])
  {
    var lines := [AppendText(a), AppendText(b), AppendText(c), DeleteText(b)];
    ParseAppendText(a);
    ParseAppendText(b);
    ParseAppendText(c);
    ParseDeleteText(b);
    ParsedFour(AppendText(a), AppendText(b), AppendText(c), DeleteText(b));
    ExampleEntries(Stored(a), Stored(b), Stored(c));
  }

  lemma RepeatEntries(a: Task, b: Task)
    requires a.id == b.id
    ensures var es := [AppendEntry(a), AppendEntry(b)];
      ReplayEntries(es).Some? && Live(ReplayEntries(es).value.tasks, ReplayEntries(es).value.order) == [b, b]
  {
    var s0 := ReplayState(map[], []);
    var s1 := ReplayState(s0.tasks[a.id := a], s0.order + [a.id]);
    var s2 := ReplayState(s1.tasks[b.id := b], s1.order + [b.id]);
    ReplaySnoc([], AppendEntry(a), s0);
    assert [] + [AppendEntry(a)] == [AppendEntry(a)];
    ReplaySnoc([AppendEntry(a)], AppendEntry(b), s1);
    assert [AppendEntry(a)] + [AppendEntry(b)] == [AppendEntry(a), AppendEntry(b)];
    assert s2.order == [a.id, a.id];
    assert a.id in s2.tasks && s2.tasks[a.id] == b;
    assert Live(s2.tasks, [a.id]) == [b];
  }

  /** A log that appends the same id twice returns the later task twice: the
      order list keeps one entry per APPEND line. */
  lemma ReappendedIdRepeats(a: Task, b: Task)
    requires Writable(a) && Writable(b) && a.id == b.id
    ensures Replay([AppendText(a), AppendText(b)]) == Some([Stored(b), Stored(b)])
  {
    var lines := [AppendText(a), AppendText(b)];
    ParseAppendText(a);
    ParseAppendText(b);
    ParsedTwo(AppendText(a), AppendText(b));
    RepeatEntries(Stored(a), Stored(b));
  }

  // ---------------------------------------------------------------------------
  // The log file

  /** The record layout is the template of `toAppendLine`. */
  lemma AppendLineLayout(t: Task)
    ensures ToAppendLine(t) ==
      "APPEND | " + t.id + " | " + t.name + " | " + FormatPriority(t.priority) + " | " + t.payload + "\n"
  {
    var p := FormatPriority(t.priority);
    assert Record([t.payload]) == t.payload;
    assert Record([p, t.payload]) == p + Separator + t.payload;
    assert Record([t.name, p, t.payload]) == t.name + Separator + (p + Separator + t.payload);
    assert Record([t.id, t.name, p, t.payload]) == t.id + Separator + (t.name + Separator + (p + Separator + t.payload));
    assert AppendText(t) == "APPEND" + Separator + (t.id + Separator + (t.name + Separator + (p + Separator + t.payload)));
    Flatten("APPEND", t.id, t.name, p, t.payload, Separator);
    assert "APPEND" + Separator == "APPEND | ";
  }

  /** Joining five fields, regrouped from the right to the left. */
  lemma Flatten(a: string, b: string, c: string, d: string, e: string, sep: string)
    ensures a + sep + (b + sep + (c + sep + (d + sep + e))) == a + sep + b + sep + c + sep + d + sep + e
  {
  }

  /** The record layout is the template of `onDelete`. */
  lemma DeleteLineLayout(t: Task)
    ensures DeleteLine(t) == "DELETE | " + t.id + "\n"
  {
    assert Record([t.id]) == t.id;
    assert DeleteText(t) == "DELETE" + Separator + t.id;
    assert "DELETE" + Separator == "DELETE | ";
  }

  /** After `onAppend` of a task new to the log, `getAll` returns what it
      returned before followed by the task as replay stores it. */
  lemma FileAppendThenReplay(content: string, t: Task)
    requires Terminated(content) && Writable(t)
    requires Replay(ReadLines(content)).Some?
    requires forall i :: 0 <= i < |ReadLines(content)| ==> !AppendsId(Parse(ReadLines(content)[i]), t.id)
    ensures Terminated(content + ToAppendLine(t))
    ensures Replay(ReadLines(content + ToAppendLine(t))) == Some(Replay(ReadLines(content)).value + [Stored(t)])
  {
    AppendTextOneLine(t);
    ReadLinesAppend(content, AppendText(t));
    assert content + ToAppendLine(t) == content + AppendText(t) + "\n";
    AppendThenReplay(ReadLines(content), t);
  }

  /** After `onDelete` of a task, `getAll` returns what it returned before
      without the tasks of that id. */
  lemma FileDeleteThenReplay(content: string, t: Task)
    requires Terminated(content) && CleanField(t.id)
    requires Replay(ReadLines(content)).Some?
    ensures Terminated(content + DeleteLine(t))
    ensures Replay(ReadLines(content + DeleteLine(t))) == Some(Without(Replay(ReadLines(content)).value, t.id))
  {
    DeleteTextOneLine(t);
    ReadLinesAppend(content, DeleteText(t));
    assert content + DeleteLine(t) == content + DeleteText(t) + "\n";
    ReadLinesOneLine(content);
    DeleteThenReplay(ReadLines(content), t);
  }

  /** The file `compactIndex` writes replays to what the old file replayed to. */
  lemma CompactedFileReplays(content: string)
    requires Replay(ReadLines(content)).Some?
    ensures var ts := Replay(ReadLines(content)).value;
      Terminated(CompactContent(ts)) && Replay(ReadLines(CompactContent(ts))) == Some(ts)
  {
    var lines := ReadLines(content);
    ReadLinesOneLine(content);
    ReplayWellFormed(lines);
    var ts := Replay(lines).value;
    ReadCompactContent(ts);
    ReplayOfCompacted(ts);
  }
}
