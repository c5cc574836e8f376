/** The SQLite-backed store as a table of rows. Every statement is an update of the rows its
    WHERE clause selects; the table's meaning is the task map it holds, so that the store can be
    compared with the in-memory one, operation by operation and over runs. */
module RowStore {
  import opened Types
  import opened Seqs
  import opened Workflow
  import Cluster

  datatype Row = Row(id: Id, task: Task)

  function IdsOf(rows: seq<Row>): seq<Id> {
    seq(|rows|, i requires 0 <= i < |rows| => rows[i].id)
  }

  ghost predicate UniqueIds(rows: seq<Row>) {
    Distinct(IdsOf(rows))
  }

  /** The task map that a table holds. */
  function TasksOf(rows: seq<Row>): Tasks {
    if rows == [] then map[] else TasksOf(rows[..|rows| - 1])[rows[|rows| - 1].id := rows[|rows| - 1].task]
  }

  lemma LastRow(rows: seq<Row>)
    requires rows != []
    ensures IdsOf(rows) == IdsOf(rows[..|rows| - 1]) + [rows[|rows| - 1].id]
    ensures UniqueIds(rows) ==> UniqueIds(rows[..|rows| - 1]) && rows[|rows| - 1].id !in IdsOf(rows[..|rows| - 1])
  {
    var ids, n := IdsOf(rows), |rows| - 1;
    assert ids == IdsOf(rows[..n]) + [rows[n].id];
    if UniqueIds(rows) {
      assert forall i :: 0 <= i < n ==> IdsOf(rows[..n])[i] == ids[i] && ids[i] != ids[n];
    }
  }

  lemma {:induction false} TasksOfKeys(rows: seq<Row>)
    ensures forall t :: t in TasksOf(rows) <==> t in IdsOf(rows)
  {
    if rows != [] {
      LastRow(rows);
      TasksOfKeys(rows[..|rows| - 1]);
    }
  }

  lemma {:induction false} TasksOfRow(rows: seq<Row>, i: nat)
    requires i < |rows| && UniqueIds(rows)
    ensures rows[i].id in TasksOf(rows) && TasksOf(rows)[rows[i].id] == rows[i].task
  {
    LastRow(rows);
    if i < |rows| - 1 {
      TasksOfRow(rows[..|rows| - 1], i);
      assert IdsOf(rows[..|rows| - 1])[i] == rows[i].id;
    }
  }

  /** SELECT ... WHERE id = ?. */
  function Select(rows: seq<Row>, id: Id): (found: Option<Task>)
    ensures found == if id in TasksOf(rows) then Some(TasksOf(rows)[id]) else None
  {
    if rows == [] then None
    else if rows[|rows| - 1].id == id then Some(rows[|rows| - 1].task)
    else Select(rows[..|rows| - 1], id)
  }

  predicate Selected(row: Row, id: Id, from: Option<TaskStatus>) {
    row.id == id && (from == None || row.task.status == from.value)
  }

  /** UPDATE ... WHERE id = ? [AND status = ?]. */
  function Update(rows: seq<Row>, id: Id, from: Option<TaskStatus>, to: Task -> Task): seq<Row> {
    if rows == [] then []
    else
      var row := rows[|rows| - 1];
      Update(rows[..|rows| - 1], id, from, to) + [if Selected(row, id, from) then Row(row.id, to(row.task)) else row]
  }

  function RowCount(rows: seq<Row>, id: Id, from: Option<TaskStatus>): nat {
    if rows == [] then 0
    else RowCount(rows[..|rows| - 1], id, from) + (if Selected(rows[|rows| - 1], id, from) then 1 else 0)
  }

  predicate Hits(ts: Tasks, id: Id, from: Option<TaskStatus>) {
    id in ts && (from == None || ts[id].status == from.value)
  }

  lemma {:induction false} UpdateKeepsIds(rows: seq<Row>, id: Id, from: Option<TaskStatus>, to: Task -> Task)
    ensures IdsOf(Update(rows, id, from, to)) == IdsOf(rows)
  {
    if rows != [] {
      UpdateKeepsIds(rows[..|rows| - 1], id, from, to);
      LastRow(rows);
      LastRow(Update(rows, id, from, to));
    }
  }

  lemma UpdatesCommute(ts: Tasks, a: Id, x: Task, b: Id, y: Task)
    requires a != b
    ensures ts[a := x][b := y] == ts[b := y][a := x]
  {
  }

  /** An update by id is an update of the map at that key, and reports whether it hit. */
  lemma {:induction false} UpdateIsMapUpdate(rows: seq<Row>, id: Id, from: Option<TaskStatus>, to: Task -> Task)
    requires UniqueIds(rows)
    ensures var ts := TasksOf(rows);
      && TasksOf(Update(rows, id, from, to)) == (if Hits(ts, id, from) then ts[id := to(ts[id])] else ts)
      && RowCount(rows, id, from) == (if Hits(ts, id, from) then 1 else 0)
  {
    if rows != [] {
      var front, last := rows[..|rows| - 1], rows[|rows| - 1];
      LastRow(rows);
      UpdateIsMapUpdate(front, id, from, to);
      TasksOfKeys(front);
      var rows', ts, before := Update(rows, id, from, to), TasksOf(rows), TasksOf(front);
      assert rows'[..|rows'| - 1] == Update(front, id, from, to);
      if last.id == id {
        assert id !in before;
        UpdateTwice(before, id, last.task, to(last.task));
      } else if Hits(before, id, from) {
        UpdatesCommute(before, id, to(before[id]), last.id, last.task);
      }
    }
  }

  function IsPendingRow(): Row -> bool {
    (r: Row) => r.task.status == Pending
  }

  function IsPending(ts: Tasks): Id -> bool {
    t => t in ts && ts[t].status == Pending
  }

  /** `row` is a pending row, up to date. */
  ghost predicate Holds(ts: Tasks, row: Row) {
    row.id in ts && ts[row.id] == row.task && row.task.status == Pending
  }

  lemma {:induction false} SelectPending(rows: seq<Row>, ts: Tasks)
    requires forall r :: r in rows ==> r.id in ts && ts[r.id] == r.task
    ensures IdsOf(Filter(IsPendingRow(), rows)) == Filter(IsPending(ts), IdsOf(rows))
  {
    if rows != [] {
      var front, last := rows[..|rows| - 1], rows[|rows| - 1];
      SelectPending(front, ts);
      LastRow(rows);
      assert last in rows && IdsOf(rows)[..|rows| - 1] == IdsOf(front);
      var kept := Filter(IsPendingRow(), front);
      LastRow(kept + [last]);
      assert (kept + [last])[..|kept|] == kept;
    }
  }

  // ---------------------------------------------------------------------------------------------
  // Where the two stores differ
  // ---------------------------------------------------------------------------------------------

  /** An id that is taken keeps its row; but a pending one becomes ready, whatever it depends on. */
  function CreateRow(ts: Tasks, id: Id, task: Task): Tasks {
    var kept := if id in ts then ts[id] else task;
    ts[id := kept.(status := if kept.status == Pending then Ready else kept.status)]
  }

  /** A ready task that is given dependencies goes back to pending. */
  function SetDependsOnRow(ts: Tasks, id: Id, deps: seq<Id>): Tasks {
    var ts' := SetDependsOn(ts, id, deps);
    if deps != [] && id in ts' && ts'[id].status == Ready then ts'[id := ts'[id].(status := Pending)] else ts'
  }

  datatype StoreOp =
    | DoSubmit(id: Id, title: string, needs: seq<string>, priority: int, now: int)
    | DoStatus(id: Id, status: TaskStatus, reason: string)
    | DoUnassign(id: Id)
    | DoUnblock(id: Id)
    | DoDepend(id: Id, deps: seq<Id>)
    | DoRescan

  function InMemory(ts: Tasks, op: StoreOp): Tasks {
    match op
    case DoSubmit(id, title, needs, priority, now) => Promote(ts[id := NewTask(title, needs, priority, now)])
    case DoStatus(id, status, reason) => SetStatus(ts, id, status, reason)
    case DoUnassign(id) => Unassign(ts, id)
    case DoUnblock(id) => Unblock(ts, id)
    case DoDepend(id, deps) => SetDependsOn(ts, id, deps)
    case DoRescan => Promote(ts)
  }

  function InRows(ts: Tasks, op: StoreOp): Tasks {
    match op
    case DoSubmit(id, title, needs, priority, now) => Promote(CreateRow(ts, id, NewTask(title, needs, priority, now)))
    case DoDepend(id, deps) => SetDependsOnRow(ts, id, deps)
    case _ => InMemory(ts, op)
  }

  /** A new id, or a resubmission of a task that is still as it was first submitted; dependencies
      for a task that is not ready. */
  predicate Interchangeable(ts: Tasks, op: StoreOp) {
    match op
    case DoSubmit(id, title, needs, priority, now) =>
      id in ts ==>
        && (ts[id].status == Pending || ts[id].status == Ready)
        && ts[id].(status := Pending) == NewTask(title, needs, priority, now)
    case DoDepend(id, deps) => deps == [] || id !in ts || ts[id].status != Ready
    case _ => true
  }

  /** The task itself ends ready in memory, and as kept, or ready, in the rows. */
  lemma SubmittedTask(ts: Tasks, id: Id, task: Task)
    requires task.status == Pending && task.dependsOn == []
    ensures Promote(ts[id := task])[id] == task.(status := Ready)
    ensures Promote(CreateRow(ts, id, task))[id] == CreateRow(ts, id, task)[id]
  {
    assert Promotable(ts[id := task])(id);
  }

  /** Two tables that differ in one task, completed in neither, promote the others alike. */
  lemma OthersPromoteAlike(a: Tasks, b: Tasks, id: Id, t: Id)
    requires a.Keys == b.Keys && id in a && t in a && t != id
    requires a[id].status != Completed && b[id].status != Completed
    requires forall u :: u in a && u != id ==> a[u] == b[u]
    ensures Promote(a)[t] == Promote(b)[t]
  {
    assert forall d :: d in a ==> (a[d].status == Completed <==> b[d].status == Completed);
    assert DepsDone(a, a[t].dependsOn) == DepsDone(b, a[t].dependsOn);
  }

  lemma SubmitsAgreeIff(ts: Tasks, id: Id, task: Task)
    requires task.status == Pending && task.dependsOn == []
    ensures Promote(ts[id := task]) == Promote(CreateRow(ts, id, task)) <==>
      (id in ts ==> (ts[id].status == Pending || ts[id].status == Ready) && ts[id].(status := Pending) == task)
  {
    var mem, row := ts[id := task], CreateRow(ts, id, task);
    SubmittedTask(ts, id, task);
    if row[id] == task.(status := Ready) {
      forall t | t in mem ensures Promote(mem)[t] == Promote(row)[t] {
        if t != id { OthersPromoteAlike(mem, row, id, t); }
      }
      assert Promote(mem) == Promote(row);
    }
  }

  /** The exact condition under which the row table can stand in for the in-memory store. */
  lemma StoresAgreeIff(ts: Tasks, op: StoreOp)
    ensures InMemory(ts, op) == InRows(ts, op) <==> Interchangeable(ts, op)
  {
    match op
    case DoSubmit(id, title, needs, priority, now) => SubmitsAgreeIff(ts, id, NewTask(title, needs, priority, now));
    case DoDepend(id, deps) =>
      if deps != [] && id in ts && ts[id].status == Ready {
        assert InMemory(ts, op)[id].status != InRows(ts, op)[id].status;
      }
    case _ =>
  }

  function MemoryRun(ts: Tasks, ops: seq<StoreOp>): Tasks {
    if ops == [] then ts else InMemory(MemoryRun(ts, ops[..|ops| - 1]), ops[|ops| - 1])
  }

  function RowRun(ts: Tasks, ops: seq<StoreOp>): Tasks {
    if ops == [] then ts else InRows(RowRun(ts, ops[..|ops| - 1]), ops[|ops| - 1])
  }

  ghost predicate AgreeThroughout(ts: Tasks, ops: seq<StoreOp>) {
    && MemoryRun(ts, ops) == RowRun(ts, ops)
    && (ops != [] ==> AgreeThroughout(ts, ops[..|ops| - 1]))
  }

  ghost predicate InterchangeableRun(ts: Tasks, ops: seq<StoreOp>) {
    ops != [] ==>
      var front := ops[..|ops| - 1];
      InterchangeableRun(ts, front) && Interchangeable(MemoryRun(ts, front), ops[|ops| - 1])
  }

  /** The stores agree after every step of a run exactly when each operation was interchangeable
      where it was applied. */
  lemma {:induction false} RunsAgreeIff(ts: Tasks, ops: seq<StoreOp>)
    ensures AgreeThroughout(ts, ops) <==> InterchangeableRun(ts, ops)
  {
    if ops != [] {
      var front := ops[..|ops| - 1];
      RunsAgreeIff(ts, front);
      StoresAgreeIff(MemoryRun(ts, front), ops[|ops| - 1]);
    }
  }

  // ---------------------------------------------------------------------------------------------
  // The store itself
  // ---------------------------------------------------------------------------------------------

  class ClusterStore {
    var rows: seq<Row>

    ghost predicate Valid()
      reads this
    {
      UniqueIds(rows)
    }

    ghost function Tasks(): Tasks
      reads this
    {
      TasksOf(rows)
    }

    constructor ()
      ensures Valid() && Tasks() == map[]
    {
      rows := [];
    }

    /** One UPDATE statement. */
    method Execute(id: Id, from: Option<TaskStatus>, to: Task -> Task) returns (rowCount: nat)
      requires Valid()
      modifies this
      ensures Valid() && IdsOf(rows) == old(IdsOf(rows))
      ensures rowCount == if Hits(old(Tasks()), id, from) then 1 else 0
      ensures Tasks() == if rowCount > 0 then old(Tasks())[id := to(old(Tasks())[id])] else old(Tasks())
    {
      UpdateIsMapUpdate(rows, id, from, to);
      UpdateKeepsIds(rows, id, from, to);
      rowCount := RowCount(rows, id, from);
      rows := Update(rows, id, from, to);
    }

    /** INSERT OR IGNORE, then promote the row if it is pending. */
    method CreateTask(id: Id, title: string, needs: seq<string>, priority: int, now: int)
      requires Valid()
      modifies this
      ensures Valid() && Tasks() == CreateRow(old(Tasks()), id, NewTask(title, needs, priority, now))
      ensures IdsOf(rows) == old(IdsOf(rows)) + (if id in old(Tasks()) then [] else [id])
    {
      TasksOfKeys(rows);
      if Select(rows, id) == None {
        var row := Row(id, Task(title, needs, [], priority, Pending, None, now, 1, None));
        LastRow(rows + [row]);
        assert (rows + [row])[..|rows|] == rows;
        rows := rows + [row];
      }
      var promoted := Execute(id, Some(Pending), (t: Task) => t.(status := Ready));
    }

    method SetTaskStatus(id: Id, status: TaskStatus, reason: string) returns (ok: bool)
      requires Valid()
      modifies this
      ensures Valid() && Tasks() == SetStatus(old(Tasks()), id, status, reason)
      ensures ok == (id in old(Tasks())) && IdsOf(rows) == old(IdsOf(rows))
    {
      var rowCount;
      if reason != "" {
        rowCount := Execute(id, None, (t: Task) =>
          t.(status := status, version := t.version + 1, failReason := Some(reason)));
      } else {
        rowCount := Execute(id, None, (t: Task) => t.(status := status, version := t.version + 1));
      }
      return rowCount > 0;
    }

    method UnassignTask(id: Id) returns (ok: bool)
      requires Valid()
      modifies this
      ensures Valid() && Tasks() == Unassign(old(Tasks()), id)
      ensures ok == (id in old(Tasks())) && IdsOf(rows) == old(IdsOf(rows))
    {
      var rowCount := Execute(id, None, (t: Task) =>
        t.(assignedTo := None, status := Ready, version := t.version + 1));
      return rowCount > 0;
    }

    method UnblockTask(id: Id) returns (ok: bool)
      requires Valid()
      modifies this
      ensures Valid() && Tasks() == Unblock(old(Tasks()), id)
      ensures ok == Hits(old(Tasks()), id, Some(Blocked)) && IdsOf(rows) == old(IdsOf(rows))
    {
      var rowCount := Execute(id, Some(Blocked), (t: Task) => t.(status := Pending, version := t.version + 1));
      return rowCount > 0;
    }

    method SetDependencies(id: Id, deps: seq<Id>) returns (ok: bool)
      requires Valid()
      modifies this
      ensures Valid() && Tasks() == SetDependsOnRow(old(Tasks()), id, deps)
      ensures ok == (id in old(Tasks())) && IdsOf(rows) == old(IdsOf(rows))
    {
      var rowCount := Execute(id, None, (t: Task) => t.(dependsOn := deps, version := t.version + 1));
      if deps != [] && rowCount > 0 {
        var demoted := Execute(id, Some(Ready), (t: Task) => t.(status := Pending));
      }
      return rowCount > 0;
    }

    /** Looks the dependencies up one by one and stops at the first that is missing or open. */
    method DependenciesMet(deps: seq<Id>) returns (allDone: bool)
      ensures allDone == DepsDone(Tasks(), deps)
    {
      for i := 0 to |deps|
        invariant forall k :: 0 <= k < i ==> deps[k] in Tasks() && Tasks()[deps[k]].status == Completed
      {
        var dep := Select(rows, deps[i]);
        if dep == None || dep.value.status != Completed {
          assert deps[i] in deps;
          return false;
        }
      }
      return true;
    }

    method PromoteRow(row: Row) returns (ready: bool)
      requires Valid() && Hits(Tasks(), row.id, Some(Pending))
      modifies this
      ensures Valid() && IdsOf(rows) == old(IdsOf(rows))
      ensures ready == DepsDone(old(Tasks()), row.task.dependsOn)
      ensures Tasks() ==
        if ready then old(Tasks())[row.id := old(Tasks())[row.id].(status := Ready)] else old(Tasks())
    {
      ready := row.task.dependsOn == [];
      if !ready {
        ready := DependenciesMet(row.task.dependsOn);
      }
      if ready {
        var count := Execute(row.id, Some(Pending), (t: Task) => t.(status := Ready));
      }
    }

    /** The pending rows are selected once; their dependencies are read while rows change. */
    method TriggerPendingTasks() returns (promoted: nat)
      requires Valid()
      modifies this
      ensures Valid() && IdsOf(rows) == old(IdsOf(rows)) && Tasks() == Promote(old(Tasks()))
      ensures promoted == |Filter(Promotable(old(Tasks())), IdsOf(rows))|
    {
      ghost var before := Tasks();
      var pending := Filter(IsPendingRow(), rows);
      PendingIds(rows);
      promoted := PromoteSelected(pending);
      PromoteSomeAll(before, IdsOf(pending));
    }

    /** The loop of the promotion pass. */
    method PromoteSelected(pending: seq<Row>) returns (promoted: nat)
      requires Valid() && UniqueIds(pending)
      requires forall r :: r in pending ==> Holds(Tasks(), r)
      modifies this
      ensures Valid() && IdsOf(rows) == old(IdsOf(rows))
      ensures Tasks() == PromoteSome(old(Tasks()), IdsOf(pending))
      ensures promoted == |Filter(Promotable(old(Tasks())), IdsOf(pending))|
    {
      ghost var before, ids, todo := Tasks(), IdsOf(rows), IdsOf(pending);
      promoted := 0;
      for i := 0 to |pending|
        invariant Valid() && IdsOf(rows) == ids
        invariant Tasks() == PromoteSome(before, todo[..i])
        invariant promoted == |Filter(Promotable(before), todo[..i])|
      {
        var row := pending[i];
        assert row in pending && Holds(before, row);
        PromotionTurn(before, todo, i);
        var ready := PromoteRow(row);
        if ready {
          promoted := promoted + 1;
        }
      }
      assert todo[..|todo|] == todo;
    }
  }

  /** What the promotion pass needs to know about the rows it selects. */
  lemma PendingIds(rows: seq<Row>)
    requires UniqueIds(rows)
    ensures var ts, pending := TasksOf(rows), Filter(IsPendingRow(), rows);
      && Distinct(IdsOf(pending))
      && (forall r :: r in pending ==> Holds(ts, r))
      && (forall t :: Promotable(ts)(t) ==> t in IdsOf(pending))
      && Filter(Promotable(ts), IdsOf(pending)) == Filter(Promotable(ts), IdsOf(rows))
  {
    var ts := TasksOf(rows);
    TasksOfKeys(rows);
    forall r | r in rows ensures r.id in ts && ts[r.id] == r.task {
      var i :| 0 <= i < |rows| && rows[i] == r;
      TasksOfRow(rows, i);
    }
    SelectPending(rows, ts);
    FilterDistinct(IsPending(ts), IdsOf(rows));
    FilterFilter(IsPending(ts), Promotable(ts), Promotable(ts), IdsOf(rows));
  }

  // ---------------------------------------------------------------------------------------------
  // The operations of the comparison are those of the two stores
  // ---------------------------------------------------------------------------------------------

  method ApplyInMemory(state: Cluster.ClusterState, op: StoreOp)
    requires state.Valid()
    modifies state`taskIds, state`tasks
    ensures state.Valid() && state.tasks == InMemory(old(state.tasks), op)
  {
    match op
    case DoSubmit(id, title, needs, priority, now) =>
      state.CreateTask(id, title, needs, priority, now);
      var promoted := state.TriggerPendingTasks();
    case DoStatus(id, status, reason) => var ok := state.SetTaskStatus(id, status, reason);
    case DoUnassign(id) => var ok := state.UnassignTask(id);
    case DoUnblock(id) => var ok := state.UnblockTask(id);
    case DoDepend(id, deps) => var ok := state.SetDependencies(id, deps);
    case DoRescan => var promoted := state.TriggerPendingTasks();
  }

  method ApplyToRows(store: ClusterStore, op: StoreOp)
    requires store.Valid()
    modifies store
    ensures store.Valid() && store.Tasks() == InRows(old(store.Tasks()), op)
  {
    match op
    case DoSubmit(id, title, needs, priority, now) =>
      store.CreateTask(id, title, needs, priority, now);
      var promoted := store.TriggerPendingTasks();
    case DoStatus(id, status, reason) => var ok := store.SetTaskStatus(id, status, reason);
    case DoUnassign(id) => var ok := store.UnassignTask(id);
    case DoUnblock(id) => var ok := store.UnblockTask(id);
    case DoDepend(id, deps) => var ok := store.SetDependencies(id, deps);
    case DoRescan => var promoted := store.TriggerPendingTasks();
  }
}
