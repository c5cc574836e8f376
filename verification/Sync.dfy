/** The receiving side of state sync: delta messages one by one or in batches, and full-state
    snapshots, each counted. */
module Sync {
  import opened Types
  import opened Seqs
  import opened Workflow
  import opened Cluster
  import G = SyncGate
  import F = FullSync

  datatype Tally = Tally(received: int, applied: int, rejectedStale: int)

  /** `details` tells for each message of the batch whether it was applied. */
  datatype BatchResult = BatchResult(accepted: nat, rejected: nat, total: nat, details: seq<bool>)

  /** The entries of a snapshot that parse. */
  function Parsed<T>(data: seq<Option<T>>): seq<T> {
    if data == [] then []
    else Parsed(data[..|data| - 1]) + (if data[|data| - 1].Some? then [data[|data| - 1].value] else [])
  }

  lemma ParsedStep(tb: F.Table, data: seq<Option<F.Entry>>, i: nat, now: int)
    requires i < |data|
    ensures var before, after, mid := Parsed(data[..i]), Parsed(data[..i + 1]), F.ReceiveAll(tb, Parsed(data[..i]), now);
      if data[i] == None then after == before
      else
        && F.ReceiveAll(tb, after, now) == F.ReceiveOne(mid, data[i].value, now)
        && F.AppliedCount(tb, after, now) == F.AppliedCount(tb, before, now)
             + (if F.Newer(F.Lookup(mid.tasks, data[i].value.id), data[i].value.task) then 1 else 0)
  {
    var before := Parsed(data[..i]);
    assert data[..i + 1][..i] == data[..i];
    if data[i].Some? {
      assert (before + [data[i].value])[..|before|] == before;
    }
  }

  lemma ParsedNodesStep(reg: Registry, data: seq<Option<F.NodeEntry>>, i: nat)
    requires i < |data|
    ensures var before, after, mid := Parsed(data[..i]), Parsed(data[..i + 1]), F.ReceiveNodes(reg, Parsed(data[..i]));
      if data[i] == None then after == before
      else
        && F.ReceiveNodes(reg, after) == F.ReceiveNode(mid, data[i].value)
        && F.NodesAccepted(reg, after) == F.NodesAccepted(reg, before)
             + (if F.NodeAccepted(mid, data[i].value) then 1 else 0)
  {
    var before := Parsed(data[..i]);
    assert data[..i + 1][..i] == data[..i];
    if data[i].Some? {
      assert (before + [data[i].value])[..|before|] == before;
    }
  }

  class SyncReceiver {
    const store: ClusterState
    var received: int
    var applied: int
    var rejectedStale: int

    ghost function Stats(): Tally
      reads this
    {
      Tally(received, applied, rejectedStale)
    }

    constructor (store: ClusterState)
      ensures this.store == store && Stats() == Tally(0, 0, 0)
    {
      this.store, received, applied, rejectedStale := store, 0, 0, 0;
    }

    /** The receiver's own check and the store's are the same comparison, so a message that passes
        the first is never turned away by the second. */
    method ReceiveSingle(msg: G.SyncMessage, now: int) returns (ok: bool)
      requires store.Valid()
      modifies this, store`syncVersion, store`taskIds, store`tasks
      ensures store.Valid() && store.GateState() == G.Handle(old(store.GateState()), msg, now)
      ensures ok == (msg.version > old(store.syncVersion))
      ensures Stats() == Tally(old(received) + 1,
                old(applied) + (if ok then 1 else 0), old(rejectedStale) + (if ok then 0 else 1))
    {
      received := received + 1;
      var localVersion := store.syncVersion;
      if msg.version <= localVersion {
        rejectedStale := rejectedStale + 1;
        return false;
      }
      ok := store.HandleSyncMessage(msg, now);
      if ok {
        applied := applied + 1;
      } else {
        assert false;
      }
    }

    /** Accepts exactly the strict maxima of the batch and rejects the rest; `received` grows by
        two for each message, since both the batch and its messages are counted. */
    method ReceiveBatch(batch: seq<G.SyncMessage>, now: int) returns (r: BatchResult)
      requires store.Valid()
      modifies this, store`syncVersion, store`taskIds, store`tasks
      ensures store.Valid() && store.GateState() == G.HandleAll(old(store.GateState()), batch, now)
      ensures |r.details| == |batch|
      ensures forall i :: 0 <= i < |batch| ==> (r.details[i] <==> G.IsRecord(old(store.syncVersion), batch, i))
      ensures r.accepted == |G.Records(old(store.syncVersion), batch)|
      ensures r.accepted + r.rejected == r.total == |batch|
      ensures Stats() == Tally(old(received) + 2 * |batch|, old(applied) + r.accepted, old(rejectedStale) + r.rejected)
    {
      ghost var start, was := store.GateState(), Stats();
      var accepted, rejected, details := 0, 0, [];
      for i := 0 to |batch|
        invariant store.Valid() && store.GateState() == G.HandleAll(start, batch[..i], now)
        invariant accepted == G.Applied(start, batch[..i], now) && accepted + rejected == i
        invariant rejected >= 0 && |details| == i
        invariant forall k :: 0 <= k < i ==> (details[k] <==> G.IsRecord(start.version, batch, k))
        invariant Stats() == Tally(was.received + i, was.applied + accepted, was.rejectedStale + rejected)
      {
        assert batch[..i + 1][..i] == batch[..i];
        G.PassesIffRecord(start, batch, now, i);
        var ok := ReceiveSingle(batch[i], now);
        if ok {
          accepted := accepted + 1;
        } else {
          rejected := rejected + 1;
        }
        details := details + [ok];
      }
      assert batch[..|batch|] == batch;
      G.AppliedCountsRecords(start, batch, now);
      received := received + |batch|;
      r := BatchResult(accepted, rejected, |batch|, details);
    }

    ghost function TaskTable(): F.Table
      reads store
    {
      F.Table(store.taskIds, store.tasks)
    }

    /** Merges one task of a snapshot. */
    method MergeTask(e: F.Entry, now: int) returns (newer: bool)
      requires store.Valid()
      modifies store`taskIds, store`tasks
      ensures store.Valid() && TaskTable() == F.ReceiveOne(old(TaskTable()), e, now)
      ensures newer == F.Newer(F.Lookup(old(store.tasks), e.id), e.task)
    {
      if e.id !in store.tasks {
        store.CreateTask(e.id, e.task.title, e.task.needs, e.task.priority, now);
        if e.task.status != Pending {
          var done := store.SetTaskStatus(e.id, e.task.status, "");
        }
        return true;
      }
      if e.task.version > store.tasks[e.id].version {
        var reason := if e.task.failReason.Some? then e.task.failReason.value else "";
        var done := store.SetTaskStatus(e.id, e.task.status, reason);
        return true;
      }
      return false;
    }

    /** Merges one node of a snapshot. */
    method MergeNode(e: F.NodeEntry) returns (accepted: bool)
      requires store.Valid()
      modifies store`nodeIds, store`nodes
      ensures store.Valid() && store.Reg() == F.ReceiveNode(old(store.Reg()), e)
      ensures accepted == F.NodeAccepted(old(store.Reg()), e)
    {
      if e.id !in store.nodes || e.node.load >= store.nodes[e.id].load {
        store.RegisterNode(e.id, e.node);
        return true;
      }
      return false;
    }

    method MergeNodes(data: seq<Option<F.NodeEntry>>) returns (applied: nat, rejected: nat)
      requires store.Valid()
      modifies store`nodeIds, store`nodes
      ensures store.Valid() && store.Reg() == F.ReceiveNodes(old(store.Reg()), Parsed(data))
      ensures applied == F.NodesAccepted(old(store.Reg()), Parsed(data)) && applied + rejected == |data|
    {
      ghost var start := store.Reg();
      applied, rejected := 0, 0;
      for i := 0 to |data|
        invariant store.Valid() && store.Reg() == F.ReceiveNodes(start, Parsed(data[..i]))
        invariant applied == F.NodesAccepted(start, Parsed(data[..i])) && applied + rejected == i
      {
        ParsedNodesStep(start, data, i);
        var accepted := false;
        if data[i].Some? {
          accepted := MergeNode(data[i].value);
        }
        if accepted {
          applied := applied + 1;
        } else {
          rejected := rejected + 1;
        }
      }
      assert data[..|data|] == data;
    }

    method MergeTasks(data: seq<Option<F.Entry>>, now: int) returns (applied: nat, rejected: nat)
      requires store.Valid()
      modifies store`taskIds, store`tasks
      ensures store.Valid() && TaskTable() == F.ReceiveAll(old(TaskTable()), Parsed(data), now)
      ensures applied == F.AppliedCount(old(TaskTable()), Parsed(data), now)
      ensures applied + rejected == |data|
    {
      ghost var start := TaskTable();
      applied, rejected := 0, 0;
      for i := 0 to |data|
        invariant store.Valid() && TaskTable() == F.ReceiveAll(start, Parsed(data[..i]), now)
        invariant applied == F.AppliedCount(start, Parsed(data[..i]), now)
        invariant applied + rejected == i
      {
        ParsedStep(start, data, i, now);
        var newer := false;
        if data[i].Some? {
          newer := MergeTask(data[i].value, now);
        }
        if newer {
          applied := applied + 1;
        } else {
          rejected := rejected + 1;
        }
      }
      assert data[..|data|] == data;
    }

    /** A full-state merge: nodes first, then tasks. An entry that does not parse counts as rejected. */
    method ReceiveFullState(nodes: seq<Option<F.NodeEntry>>, tasks: seq<Option<F.Entry>>, now: int)
      returns (nodesApplied: nat, nodesRejected: nat, tasksApplied: nat, tasksRejected: nat)
      requires store.Valid()
      modifies store`nodeIds, store`nodes, store`taskIds, store`tasks
      ensures store.Valid()
      ensures store.Reg() == F.ReceiveNodes(old(store.Reg()), Parsed(nodes))
      ensures TaskTable() == F.ReceiveAll(old(TaskTable()), Parsed(tasks), now)
      ensures nodesApplied == F.NodesAccepted(old(store.Reg()), Parsed(nodes))
      ensures tasksApplied == F.AppliedCount(old(TaskTable()), Parsed(tasks), now)
      ensures nodesApplied + nodesRejected == |nodes| && tasksApplied + tasksRejected == |tasks|
    {
      nodesApplied, nodesRejected := MergeNodes(nodes);
      tasksApplied, tasksRejected := MergeTasks(tasks, now);
    }
  }
}
