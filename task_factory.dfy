/** lib/TaskFactory.ts: the registry of named task definitions and the
    materialisation of a task from a name, a payload and per-call options. The
    fields are resolved with JavaScript `||` chains, so a falsy override (an
    empty script, a zero priority or timeout) falls through to the next source. */
module TaskFactories {
  import opened Wrappers
  import opened Tasks
  import TaskIds

  /** The factory: the queue name used as id prefix and the definitions by name. */
  datatype TaskFactory = TaskFactory(queueName: string, definitions: map<string, TaskDefinition>)

  /** The constructor's `reduce`, spreading each definition over the map built so far. */
  function DefinitionsMap(defs: seq<TaskDefinition>): (m: map<string, TaskDefinition>)
    ensures forall n :: n in m <==> exists i :: 0 <= i < |defs| && defs[i].name == n
  {
    if defs == [] then map[]
    else
      var last := defs[|defs| - 1];
      var m := DefinitionsMap(defs[..|defs| - 1])[last.name := last];
      assert forall i :: 0 <= i < |defs| - 1 ==> defs[..|defs| - 1][i] == defs[i];
      m
  }

  /** Every name maps to the last definition carrying it. */
  lemma {:induction false} LastDefinitionWins(defs: seq<TaskDefinition>, i: nat)
    requires i < |defs|
    requires forall j :: i < j < |defs| ==> defs[j].name != defs[i].name
    ensures defs[i].name in DefinitionsMap(defs)
    ensures DefinitionsMap(defs)[defs[i].name] == defs[i]
  {
    if i < |defs| - 1 {
      var init := defs[..|defs| - 1];
      assert forall j :: i < j < |init| ==> init[j] == defs[j];
      LastDefinitionWins(init, i);
    }
  }

  function NewTaskFactory(queueName: string, defs: seq<TaskDefinition>): TaskFactory {
    TaskFactory(queueName, DefinitionsMap(defs))
  }

  /** JavaScript truthiness of an optional string and of an optional number. */
  predicate TruthyString(s: Option<string>) {
    s.Some? && s.value != ""
  }

  predicate TruthyNumber(n: Option<int>) {
    n.Some? && n.value != 0
  }

  /** `a || b`: `a` when it is truthy, otherwise `b`. */
  function OrString(a: Option<string>, b: Option<string>): (r: Option<string>)
    ensures r == a || r == b
    ensures TruthyString(r) <==> TruthyString(a) || TruthyString(b)
  {
    if TruthyString(a) then a else b
  }

  function OrNumber(a: Option<int>, b: Option<int>): (r: Option<int>)
    ensures r == a || r == b
    ensures TruthyNumber(r) <==> TruthyNumber(a) || TruthyNumber(b)
  {
    if TruthyNumber(a) then a else b
  }

  /** `createTask` once the id has been drawn: each field as its `||` chain yields it. */
  function MakeTask(f: TaskFactory, id: string, name: string, payload: string, options: Option<TaskOptions>): (t: Task)
    ensures t.id == id && t.name == name && t.payload == payload
    ensures t.script.Some?
    ensures
      if options.Some? && options.value.script.Some? && options.value.script.value != "" then
        t.script.value == options.value.script.value
      else if name in f.definitions && f.definitions[name].script != "" then
        t.script.value == f.definitions[name].script
      else
        t.script.value == name
    ensures
      if options.Some? && options.value.priority.Some? && options.value.priority.value != 0 then
        t.priority == Num(options.value.priority.value)
      else if name in f.definitions && f.definitions[name].priority.Some? && f.definitions[name].priority.value != 0 then
        t.priority == Num(f.definitions[name].priority.value)
      else
        t.priority == Num(100)
    ensures
      if options.Some? && options.value.timeout.Some? && options.value.timeout.value != 0 then
        t.timeout == options.value.timeout
      else if name in f.definitions && f.definitions[name].timeout.Some? && f.definitions[name].timeout.value != 0 then
        t.timeout == f.definitions[name].timeout
      else
        t.timeout == None
  {
    var opts := options.GetOr(TaskOptions(None, None, None));
    var registered := name in f.definitions;
    var defScript := if registered then Some(f.definitions[name].script) else None;
    var defPriority := if registered then f.definitions[name].priority else None;
    var defTimeout := if registered then f.definitions[name].timeout else None;
    Task(
      id,
      name,
      OrString(OrString(opts.script, defScript), Some(name)),
      Num(OrNumber(OrNumber(opts.priority, defPriority), Some(100)).value),
      payload,
      OrNumber(OrNumber(opts.timeout, defTimeout), None))
  }

  /** `createTask`: draw exactly one id under the queue name, then build the task. */
  method CreateTask(
    f: TaskFactory, ids: TaskIds.TaskIdSource, name: string, payload: string,
    options: Option<TaskOptions>, draws: seq<nat>
  ) returns (t: Task)
    requires ids.Valid()
    requires |draws| == TaskIds.SeedLength && TaskIds.ValidDraws(draws)
    modifies ids
    ensures ids.Valid() && ids.calls == old(ids.calls) + 1
    ensures ids.counter == TaskIds.NextCounter(old(ids.counter))
    ensures ids.seed == if TaskIds.Rotates(old(ids.counter)) then TaskIds.SeedFrom(draws) else old(ids.seed)
    ensures t == MakeTask(f, TaskIds.IdString(f.queueName, ids.seed, ids.counter), name, payload, options)
  {
    var id := ids.Next(f.queueName, draws);
    t := MakeTask(f, id, name, payload, options);
  }
}
