/** Delta sync: messages pass a gate on one global version. */
module SyncGate {
  import opened Types
  import opened Seqs
  import opened Workflow

  datatype TaskSync = TaskSync(taskId: Id, title: string, status: string, assignedTo: Option<Id>, version: int)

  datatype SyncMessage = SyncMessage(version: int, sender: string, taskState: Option<TaskSync>)

  function ParseStatus(s: string): Option<TaskStatus> {
    if s == "pending" then Some(Pending)
    else if s == "ready" then Some(Ready)
    else if s == "assigned" then Some(Assigned)
    else if s == "running" then Some(Running)
    else if s == "completed" then Some(Completed)
    else if s == "failed" then Some(Failed)
    else if s == "blocked" then Some(Blocked)
    else None
  }

  /** How a status is written in a message. */
  function StatusName(status: TaskStatus): string {
    match status
    case Pending => "pending"
    case Ready => "ready"
    case Assigned => "assigned"
    case Running => "running"
    case Completed => "completed"
    case Failed => "failed"
    case Blocked => "blocked"
  }

  /** Parsing reads back every name and nothing else. */
  lemma StatusRoundTrip(s: string)
    ensures forall status :: ParseStatus(s) == Some(status) <==> s == StatusName(status)
  {
    forall status ensures ParseStatus(s) == Some(status) <==> s == StatusName(status) {
      NamesDiffer(s, status);
    }
  }

  lemma NamesDiffer(s: string, status: TaskStatus)
    ensures ParseStatus(s) == Some(status) <==> s == StatusName(status)
  {
    var names := ["pending", "ready", "assigned", "running", "completed", "failed", "blocked"];
    assert names[0][0] == 'p' && names[1][0] == 'r' && names[1][1] == 'e' && names[2][0] == 'a' && names[3][0] == 'r'
      && names[3][1] == 'u' && names[4][0] == 'c' && names[5][0] == 'f' && names[6][0] == 'b';
  }

  datatype Gate = Gate(version: int, ids: seq<Id>, tasks: Tasks)

  /** What a message makes of its task, known or new: an unknown status keeps the old one, or means
      pending. */
  function Written(ts: Tasks, t: TaskSync, now: int): Task {
    if t.taskId in ts then
      var task := ts[t.taskId];
      task.(status := if ParseStatus(t.status).Some? then ParseStatus(t.status).value else task.status,
            assignedTo := if Truthy(t.assignedTo) then t.assignedTo else task.assignedTo,
            version := t.version)
    else
      Task(t.title, [], [], 3, if ParseStatus(t.status).Some? then ParseStatus(t.status).value else Pending,
           t.assignedTo, now, t.version, None)
  }

  function ApplyTask(g: Gate, t: TaskSync, now: int): Gate {
    g.(ids := if t.taskId in g.tasks then g.ids else g.ids + [t.taskId],
       tasks := g.tasks[t.taskId := Written(g.tasks, t, now)])
  }

  predicate Passes(g: Gate, m: SyncMessage) {
    m.version > g.version
  }

  function Handle(g: Gate, m: SyncMessage, now: int): Gate {
    if !Passes(g, m) then g
    else
      var g' := g.(version := m.version);
      if m.taskState.Some? then ApplyTask(g', m.taskState.value, now) else g'
  }

  function HandleAll(g: Gate, ms: seq<SyncMessage>, now: int): Gate {
    if ms == [] then g else Handle(HandleAll(g, ms[..|ms| - 1], now), ms[|ms| - 1], now)
  }

  function Applied(g: Gate, ms: seq<SyncMessage>, now: int): nat {
    if ms == [] then 0
    else
      Applied(g, ms[..|ms| - 1], now)
      + (if Passes(HandleAll(g, ms[..|ms| - 1], now), ms[|ms| - 1]) then 1 else 0)
  }

  /** A strict left-to-right maximum above the starting version. */
  predicate IsRecord(start: int, ms: seq<SyncMessage>, i: nat)
    requires i < |ms|
  {
    ms[i].version > start && forall j :: 0 <= j < i ==> ms[i].version > ms[j].version
  }

  ghost function Records(start: int, ms: seq<SyncMessage>): set<nat> {
    set i: nat | i < |ms| && IsRecord(start, ms, i)
  }

  /** What an applied message does to its task and to nobody else. A known task takes the message's
      version, its status if that is a valid one, and its assignee if that is not empty; it keeps
      everything else. An unknown one is created with priority 3, no needs and no dependencies. */
  lemma AppliedMessageEffect(g: Gate, m: SyncMessage, now: int)
    requires m.version > g.version && m.taskState.Some?
    ensures var g', t := Handle(g, m, now), m.taskState.value;
      && g'.version == m.version && t.taskId in g'.tasks
      && g'.tasks == g.tasks[t.taskId := g'.tasks[t.taskId]]
      && (t.taskId in g.tasks ==>
            var was, task := g.tasks[t.taskId], g'.tasks[t.taskId];
            && g'.ids == g.ids
            && task == Task(was.title, was.needs, was.dependsOn, was.priority, task.status, task.assignedTo,
                            was.createdAt, t.version, was.failReason)
            && (forall status :: t.status == StatusName(status) ==> task.status == status)
            && ((forall status :: t.status != StatusName(status)) ==> task.status == was.status)
            && (t.assignedTo.Some? && t.assignedTo.value != "" ==> task.assignedTo == t.assignedTo)
            && (t.assignedTo == None || t.assignedTo.value == "" ==> task.assignedTo == was.assignedTo))
      && (t.taskId !in g.tasks ==>
            var task := g'.tasks[t.taskId];
            && g'.ids == g.ids + [t.taskId]
            && task == Task(t.title, [], [], 3, task.status, t.assignedTo, now, t.version, None)
            && (forall status :: t.status == StatusName(status) ==> task.status == status)
            && ((forall status :: t.status != StatusName(status)) ==> task.status == Pending))
  {
    StatusRoundTrip(m.taskState.value.status);
  }

  /** A message without a task only moves the version, and a stale one does nothing. */
  lemma OtherMessagesEffect(g: Gate, m: SyncMessage, now: int)
    ensures m.version <= g.version ==> Handle(g, m, now) == g
    ensures m.version > g.version && m.taskState == None ==> Handle(g, m, now) == Gate(m.version, g.ids, g.tasks)
  {
  }

  /** `v` is the largest of the start and all the message versions. */
  ghost predicate IsMaximum(v: int, start: int, ms: seq<SyncMessage>) {
    && v >= start && (forall m :: m in ms ==> m.version <= v)
    && (v == start || exists m :: m in ms && m.version == v)
  }

  lemma {:induction false} FinalVersionIsMaximum(g: Gate, ms: seq<SyncMessage>, now: int)
    ensures IsMaximum(HandleAll(g, ms, now).version, g.version, ms)
  {
    if ms != [] {
      var front, last := ms[..|ms| - 1], ms[|ms| - 1];
      FinalVersionIsMaximum(g, front, now);
      assert ms == front + [last];
      assert last in ms;
    }
  }

  /** Against a maximum of the earlier messages, being a record is one comparison. */
  lemma LastIsRecord(start: int, ms: seq<SyncMessage>, v: int)
    requires ms != [] && IsMaximum(v, start, ms[..|ms| - 1])
    ensures IsRecord(start, ms, |ms| - 1) <==> ms[|ms| - 1].version > v
  {
    var front, n := ms[..|ms| - 1], |ms| - 1;
    forall j | 0 <= j < n ensures ms[j].version <= v { assert ms[j] in front; }
    if v != start {
      var m :| m in front && m.version == v;
      var j :| 0 <= j < n && front[j] == m;
      assert ms[j] == m;
    }
  }

  lemma RecordsStep(start: int, ms: seq<SyncMessage>, v: int)
    requires ms != [] && IsMaximum(v, start, ms[..|ms| - 1])
    ensures |Records(start, ms)| ==
      |Records(start, ms[..|ms| - 1])| + (if ms[|ms| - 1].version > v then 1 else 0)
  {
    var front, n := ms[..|ms| - 1], |ms| - 1;
    LastIsRecord(start, ms, v);
    assert forall i: nat :: i < n ==> (IsRecord(start, ms, i) <==> IsRecord(start, front, i));
    var rest := Records(start, front);
    assert Records(start, ms) == if ms[n].version > v then rest + {n} else rest;
  }

  /** A message is applied exactly when it is a strict left-to-right maximum above the start. */
  lemma PassesIffRecord(g: Gate, ms: seq<SyncMessage>, now: int, i: nat)
    requires i < |ms|
    ensures Passes(HandleAll(g, ms[..i], now), ms[i]) <==> IsRecord(g.version, ms, i)
  {
    var upTo := ms[..i + 1];
    assert upTo[..i] == ms[..i];
    FinalVersionIsMaximum(g, ms[..i], now);
    LastIsRecord(g.version, upTo, HandleAll(g, ms[..i], now).version);
    assert IsRecord(g.version, upTo, i) <==> IsRecord(g.version, ms, i);
  }

  /** So there are as many applied messages as such maxima. */
  lemma {:induction false} AppliedCountsRecords(g: Gate, ms: seq<SyncMessage>, now: int)
    ensures Applied(g, ms, now) == |Records(g.version, ms)|
  {
    if ms == [] {
      assert Records(g.version, ms) == {};
    } else {
      AppliedCountsRecords(g, ms[..|ms| - 1], now);
      FinalVersionIsMaximum(g, ms[..|ms| - 1], now);
      RecordsStep(g.version, ms, HandleAll(g, ms[..|ms| - 1], now).version);
    }
  }

  /** In whatever order the messages come, the version ends at the same maximum. */
  lemma FinalVersionIgnoresOrder(g: Gate, a: seq<SyncMessage>, b: seq<SyncMessage>, now: int)
    requires forall m :: m in a <==> m in b
    ensures HandleAll(g, a, now).version == HandleAll(g, b, now).version
  {
    FinalVersionIsMaximum(g, a, now);
    FinalVersionIsMaximum(g, b, now);
  }

  lemma {:induction false} StaleMessagesDoNothing(g: Gate, ms: seq<SyncMessage>, now: int)
    requires forall m :: m in ms ==> m.version <= g.version
    ensures HandleAll(g, ms, now) == g && Applied(g, ms, now) == 0
  {
    if ms != [] {
      StaleMessagesDoNothing(g, ms[..|ms| - 1], now);
      assert ms[|ms| - 1] in ms;
    }
  }

  /** Replaying any of the messages of a batch, in any order and at any later time, applies
      nothing and changes nothing. */
  lemma ReplayDoesNothing(g: Gate, ms: seq<SyncMessage>, now: int, again: seq<SyncMessage>, later: int)
    requires forall m :: m in again ==> m in ms
    ensures var g' := HandleAll(g, ms, now);
      HandleAll(g', again, later) == g' && Applied(g', again, later) == 0
  {
    FinalVersionIsMaximum(g, ms, now);
    StaleMessagesDoNothing(HandleAll(g, ms, now), again, later);
  }

  lemma {:induction false} HandleAllSplits(g: Gate, a: seq<SyncMessage>, b: seq<SyncMessage>, now: int)
    ensures HandleAll(g, a + b, now) == HandleAll(HandleAll(g, a, now), b, now)
  {
    if b == [] {
      assert a + b == a;
    } else {
      assert (a + b)[..|a + b| - 1] == a + b[..|b| - 1];
      HandleAllSplits(g, a, b[..|b| - 1], now);
    }
  }

  /** The one highest message above the start decides its task: wherever it stands in the batch,
      its task ends with its version, its (valid) status and its assignee, if it names one. */
  lemma HighestMessageDecides(g: Gate, ms: seq<SyncMessage>, now: int, i: nat)
    requires i < |ms| && ms[i].version > g.version && ms[i].taskState.Some?
    requires forall j :: 0 <= j < |ms| && j != i ==> ms[j].version < ms[i].version
    requires ParseStatus(ms[i].taskState.value.status).Some?
    ensures var g', t := HandleAll(g, ms, now), ms[i].taskState.value;
      && g'.version == ms[i].version && t.taskId in g'.tasks
      && g'.tasks[t.taskId].version == t.version
      && Some(g'.tasks[t.taskId].status) == ParseStatus(t.status)
      && (t.assignedTo.Some? && t.assignedTo.value != "" ==> g'.tasks[t.taskId].assignedTo == t.assignedTo)
  {
    var before, after := ms[..i], ms[i + 1..];
    assert ms == (before + [ms[i]]) + after;
    HandleAllSplits(g, before + [ms[i]], after, now);
    assert (before + [ms[i]])[..i] == before;
    FinalVersionIsMaximum(g, before, now);
    forall m | m in after ensures m.version <= ms[i].version {
      var j :| 0 <= j < |after| && after[j] == m;
      assert ms[i + 1 + j] == m;
    }
    StaleMessagesDoNothing(HandleAll(g, before + [ms[i]], now), after, now);
  }
}
