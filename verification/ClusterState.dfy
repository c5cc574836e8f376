/** The in-memory store and the lease manager on top of it. Each of the store's dictionaries is a
    map together with its keys in insertion order. Every method is one atomic step; the time and
    generated ids are parameters. */
module Cluster {
  import opened Types
  import opened Seqs
  import opened Workflow
  import opened Leases
  import G = SyncGate
  import P = Protocol

  const MAX_DECISIONS: nat := 200

  class ClusterState {
    var nodeIds: seq<Id>
    var nodes: map<Id, Node>
    var taskIds: seq<Id>
    var tasks: Tasks
    var leaseIds: seq<Id>
    var leases: map<Id, Lease>
    var taskLeaseIndex: map<Id, Id>
    var leaseCallback: LeaseManager?
    var syncVersion: int
    var recoveryEvents: seq<RecoveryEvent>
    var decisions: seq<Decision>
    // Every decision ever recorded; `decisions` is its bounded tail.
    ghost var history: seq<Decision>

    ghost predicate Valid()
      reads this
    {
      && KeysInOrder(nodeIds, nodes) && KeysInOrder(taskIds, tasks)
      && TableOk(Table())
      && decisions == LastN(history, MAX_DECISIONS)
    }

    ghost function Reg(): Registry
      reads this
    {
      Registry(nodeIds, nodes)
    }

    ghost function Table(): LeaseTable
      reads this
    {
      LeaseTable(leaseIds, leases, taskLeaseIndex)
    }

    constructor ()
      ensures Valid() && fresh(this)
      ensures Reg() == Registry([], map[]) && tasks == map[] && taskIds == []
      ensures Table() == LeaseTable([], map[], map[]) && leaseCallback == null
      ensures recoveryEvents == [] && history == [] && syncVersion == 0
    {
      nodeIds, nodes := [], map[];
      taskIds, tasks := [], map[];
      leaseIds, leases, taskLeaseIndex, leaseCallback := [], map[], map[], null;
      recoveryEvents, decisions, history, syncVersion := [], [], [], 0;
    }

    // -------------------------------------------------------------------------------------------
    // Task store
    // -------------------------------------------------------------------------------------------

    method CreateTask(taskId: Id, title: string, needs: seq<string>, priority: int, now: int)
      requires Valid()
      modifies this`taskIds, this`tasks
      ensures Valid()
      ensures tasks == old(tasks)[taskId := NewTask(title, needs, priority, now)]
      ensures taskIds == if taskId in old(tasks) then old(taskIds) else old(taskIds) + [taskId]
    {
      if taskId !in tasks {
        taskIds := taskIds + [taskId];
      }
      tasks := tasks[taskId := Task(title, needs, [], priority, Pending, None, now, 1, None)];
    }

    method SetTaskStatus(taskId: Id, status: TaskStatus, reason: string) returns (ok: bool)
      requires Valid()
      modifies this`tasks
      ensures Valid()
      ensures ok == (taskId in old(tasks)) && tasks == SetStatus(old(tasks), taskId, status, reason)
    {
      if taskId !in tasks { return false; }
      var task := tasks[taskId];
      task := task.(status := status);
      task := task.(version := task.version + 1);
      if reason != "" {
        task := task.(failReason := Some(reason));
      }
      tasks := tasks[taskId := task];
      return true;
    }

    method UnassignTask(taskId: Id) returns (ok: bool)
      requires Valid()
      modifies this`tasks
      ensures Valid()
      ensures ok == (taskId in old(tasks)) && tasks == Unassign(old(tasks), taskId)
    {
      if taskId !in tasks { return false; }
      var task := tasks[taskId];
      tasks := tasks[taskId := task.(assignedTo := None, status := Ready, version := task.version + 1)];
      return true;
    }

    method UnblockTask(taskId: Id) returns (ok: bool)
      requires Valid()
      modifies this`tasks
      ensures Valid()
      ensures ok == (taskId in old(tasks) && old(tasks)[taskId].status == Blocked)
      ensures tasks == Unblock(old(tasks), taskId)
    {
      if taskId !in tasks { return false; }
      var task := tasks[taskId];
      if task.status == Blocked {
        tasks := tasks[taskId := task.(status := Pending, version := task.version + 1)];
        return true;
      }
      return false;
    }

    method SetDependencies(taskId: Id, deps: seq<Id>) returns (ok: bool)
      requires Valid()
      modifies this`tasks
      ensures Valid()
      ensures ok == (taskId in old(tasks)) && tasks == SetDependsOn(old(tasks), taskId, deps)
    {
      if taskId !in tasks { return false; }
      var task := tasks[taskId];
      tasks := tasks[taskId := task.(dependsOn := deps, version := task.version + 1)];
      return true;
    }

    method GetDependents(taskId: Id) returns (dependents: seq<Id>)
      requires Valid()
      ensures dependents == Dependents(taskIds, tasks, taskId)
      ensures Distinct(dependents)
    {
      dependents := [];
      for i := 0 to |taskIds|
        invariant dependents == Filter(DependsOn(tasks, taskId), taskIds[..i])
      {
        FilterStep(DependsOn(tasks, taskId), taskIds, i);
        if taskId in tasks[taskIds[i]].dependsOn {
          dependents := dependents + [taskIds[i]];
        }
      }
      assert taskIds[..|taskIds|] == taskIds;
      FilterDistinct(DependsOn(tasks, taskId), taskIds);
    }

    /** The loop changes the very map it reads, and still reaches the one-piece rescan. */
    method TriggerPendingTasks() returns (promoted: nat)
      requires Valid()
      modifies this`tasks
      ensures Valid()
      ensures tasks == Promote(old(tasks))
      ensures promoted == |Filter(Promotable(old(tasks)), taskIds)|
    {
      ghost var before, ids := tasks, taskIds;
      promoted := 0;
      for i := 0 to |taskIds|
        invariant tasks == PromoteSome(before, ids[..i])
        invariant promoted == |Filter(Promotable(before), ids[..i])|
      {
        PromotionTurn(before, ids, i);
        var ready := PromoteIfDone(taskIds[i]);
        if ready {
          promoted := promoted + 1;
        }
      }
      assert ids[..|ids|] == ids;
      PromoteSomeAll(before, ids);
    }

    method PromoteIfDone(t: Id) returns (ready: bool)
      requires t in tasks
      modifies this`tasks
      ensures ready == (old(tasks)[t].status == Pending && DepsDone(old(tasks), old(tasks)[t].dependsOn))
      ensures tasks == if ready then old(tasks)[t := old(tasks)[t].(status := Ready)] else old(tasks)
    {
      if tasks[t].status == Pending {
        if tasks[t].dependsOn == [] || DepsDone(tasks, tasks[t].dependsOn) {
          tasks := tasks[t := tasks[t].(status := Ready)];
          return true;
        }
      }
      return false;
    }

    method RecordDecision(d: Decision)
      requires decisions == LastN(history, MAX_DECISIONS)
      modifies this`decisions, this`history
      ensures history == old(history) + [d]
      ensures decisions == LastN(history, 200) == LastN(history, MAX_DECISIONS)
    {
      LastNAppend(history, d, MAX_DECISIONS);
      decisions := decisions + [d];
      history := history + [d];
      if |decisions| > MAX_DECISIONS {
        decisions := decisions[|decisions| - MAX_DECISIONS..];
      }
    }

    /** The first node of `online` that has every needed capability. */
    method FindNode(online: seq<Id>, needs: seq<string>) returns (found: Option<Id>)
      requires KeysInOrder(nodeIds, nodes) && online == Filter(IsOnline(Reg()), nodeIds)
      ensures found == FirstFit(Reg(), needs)
    {
      ghost var reg := Reg();
      for j := 0 to |online|
        invariant forall k :: 0 <= k < j ==> !Fits(reg, needs)(online[k])
      {
        assert online[j] in online;
        FirstFitAmongOnline(reg, needs, online, j);
        if needs == [] || Capable(nodes[online[j]], needs) {
          return Some(online[j]);
        }
      }
      FirstFitAmongOnline(reg, needs, online, |online|);
      return None;
    }

    method Assign(t: Id, node: Id)
      requires t in tasks && decisions == LastN(history, MAX_DECISIONS)
      modifies this`tasks, this`decisions, this`history
      ensures tasks == old(tasks)[t := Run(old(tasks)[t], node)]
      ensures history == old(history) + [Decision(t, old(tasks)[t].title, old(tasks)[t].priority, node)]
      ensures decisions == LastN(history, MAX_DECISIONS)
    {
      var task := tasks[t];
      tasks := tasks[t := task.(status := Running, assignedTo := Some(node), version := task.version + 1)];
      RecordDecision(Decision(t, task.title, task.priority, node));
    }

    method ServeOne(online: seq<Id>, t: Id) returns (placed: bool)
      requires KeysInOrder(nodeIds, nodes) && online == Filter(IsOnline(Reg()), nodeIds)
      requires t in tasks && decisions == LastN(history, MAX_DECISIONS)
      modifies this`tasks, this`decisions, this`history
      ensures var task := old(tasks)[t];
        var node := FirstFit(Reg(), task.needs);
        && placed == node.Some?
        && tasks == (if placed then old(tasks)[t := Run(task, node.value)] else old(tasks))
        && history == old(history) + (if placed then [Decision(t, task.title, task.priority, node.value)] else [])
      ensures decisions == LastN(history, MAX_DECISIONS)
    {
      var node := FindNode(online, tasks[t].needs);
      if node.Some? {
        Assign(t, node.value);
      }
      return node.Some?;
    }

    method SchedulePending() returns (scheduled: nat)
      requires Valid()
      modifies this`tasks, this`decisions, this`history
      ensures Valid()
      ensures tasks == Schedule(old(tasks), Reg())
      ensures history == old(history) + NewDecisions(taskIds, old(tasks), Reg())
      ensures scheduled == |Filter(Schedulable(old(tasks), Reg()), taskIds)|
    {
      ghost var before, was, reg := tasks, history, Reg();
      scheduled := 0;
      var online := Filter(IsOnline(Registry(nodeIds, nodes)), nodeIds);
      if online == [] {
        assert forall n :: n in nodeIds ==> (IsOnline(reg)(n) <==> n in online);
        NobodyOnline(before, reg, taskIds);
        return 0;
      }
      var ready := SortReady(tasks, Filter(IsReady(tasks), taskIds));
      ReadyOrderDistinct(taskIds, before);
      scheduled := ServeInOrder(online, ready);
      ServedIdsComplete(taskIds, before, reg);
      ScheduleToEnd(before, reg, ready);
    }

    /** The loop of the scheduling pass. */
    method ServeInOrder(online: seq<Id>, ready: seq<Id>) returns (scheduled: nat)
      requires KeysInOrder(nodeIds, nodes) && online == Filter(IsOnline(Reg()), nodeIds)
      requires decisions == LastN(history, MAX_DECISIONS)
      requires Distinct(ready) && forall t :: t in ready ==> t in tasks && tasks[t].status == Ready
      modifies this`tasks, this`decisions, this`history
      ensures tasks == ScheduleTo(old(tasks), Reg(), ready, |ready|)
      ensures history == old(history) + DecisionsAlong(ready, old(tasks), Reg())
      ensures scheduled == |Filter(Schedulable(old(tasks), Reg()), ready)|
      ensures decisions == LastN(history, MAX_DECISIONS)
    {
      ghost var before, was, reg := tasks, history, Reg();
      scheduled := 0;
      for i := 0 to |ready|
        invariant tasks == ScheduleTo(before, reg, ready, i)
        invariant decisions == LastN(history, MAX_DECISIONS)
        invariant history == was + DecisionsAlong(ready[..i], before, reg)
        invariant scheduled == |Filter(Schedulable(before, reg), ready[..i])|
      {
        PassStep(before, reg, ready, i);
        var placed := ServeOne(online, ready[i]);
        if placed {
          scheduled := scheduled + 1;
        }
      }
      assert ready[..|ready|] == ready;
    }

    // -------------------------------------------------------------------------------------------
    // Leases
    // -------------------------------------------------------------------------------------------

    method CreateLease(leaseId: Id, taskId: Id, nodeId: Id, ttl: int, now: int)
      requires Valid() && FreshId(Table(), leaseId)
      modifies this`leaseIds, this`leases, this`taskLeaseIndex
      ensures Valid()
      ensures Table() == Leases.CreateLease(old(Table()), leaseId, taskId, nodeId, ttl, now)
    {
      CreateKeepsTable(Table(), leaseId, taskId, nodeId, ttl, now);
      leases := leases[leaseId := Lease(taskId, nodeId, now, now + ttl, Active)];
      leaseIds := leaseIds + [leaseId];
      taskLeaseIndex := taskLeaseIndex[taskId := leaseId];
    }

    method RevokeLease(leaseId: Id) returns (ok: bool)
      requires Valid()
      modifies this`leases, this`taskLeaseIndex
      ensures Valid()
      ensures ok == (leaseId in old(leases)) && Table() == Leases.RevokeLease(old(Table()), leaseId)
    {
      RevokeKeepsTable(Table(), leaseId);
      if leaseId !in leases { return false; }
      var lease := leases[leaseId];
      leases := leases[leaseId := lease.(status := Revoked)];
      if lease.taskId in taskLeaseIndex {
        taskLeaseIndex := taskLeaseIndex - {lease.taskId};
      }
      return true;
    }

    ghost predicate Locked()
      reads this, leaseCallback
    {
      leaseCallback != null && leaseCallback.lockHeld
    }

    ghost function CallbackCounters(): Stats
      reads this, leaseCallback
    {
      if leaseCallback == null then Stats(0, 0, 0, [], []) else leaseCallback.Counters()
    }

    /** Marks one overdue lease and calls back for it; hangs if the callback needs a lock that
        the caller holds. */
    method Expire(l: Id) returns (hung: bool)
      requires l in leases
      modifies this`leases, leaseCallback
      ensures leases == old(leases)[l := old(leases)[l].(status := Expired)]
      ensures hung == Locked() == old(Locked())
      ensures leaseCallback != null && !hung ==>
        CallbackCounters() == NoteOne(old(CallbackCounters()), l, old(leases)[l])
    {
      leases := leases[l := leases[l].(status := Expired)];
      if leaseCallback != null {
        var ok := leaseCallback.OnLeaseExpired(l, leases[l].taskId, leases[l].nodeId);
        return !ok;
      }
      return false;
    }

    /** Collects the live leases and moves the overdue ones to expired, calling back for each.
        Under a held lock the call hangs at the first overdue lease. */
    method GetActiveLeases(now: int) returns (active: seq<Id>, hung: bool)
      requires Valid()
      modifies this`leases, leaseCallback
      ensures !hung ==> Valid()
      ensures Locked() == old(Locked())
      ensures hung == (Locked() && Overdue(old(Table()), now) != [])
      ensures !hung ==> Table() == ScanLeases(old(Table()), now)
      ensures !hung ==> active == Filter(IsLive(old(leases), now), leaseIds)
      ensures leaseCallback != null && !hung ==>
        CallbackCounters() == NoteExpired(old(CallbackCounters()), old(leases), Overdue(old(Table()), now))
    {
      ghost var lt, was := Table(), CallbackCounters();
      ScanKeepsTable(lt, now);
      ScanToEnd(lt, now);
      NotesToEnd(was, lt, now);
      active, hung := CollectActive(now);
    }

    /** One turn of the scan: a live lease is kept, an overdue one expires. */
    method Visit(l: Id, now: int) returns (live: bool, hung: bool)
      requires l in leases
      modifies this`leases, leaseCallback
      ensures live == IsLive(old(leases), now)(l)
      ensures Locked() == old(Locked()) && hung == (Locked() && IsOverdue(old(leases), now)(l))
      ensures leases == if IsOverdue(old(leases), now)(l)
        then old(leases)[l := old(leases)[l].(status := Expired)] else old(leases)
      ensures leaseCallback != null && !hung ==>
        CallbackCounters() ==
          if IsOverdue(old(leases), now)(l) then NoteOne(old(CallbackCounters()), l, old(leases)[l])
          else old(CallbackCounters())
    {
      live, hung := false, false;
      if leases[l].status == Active && leases[l].expiresAt > now {
        live := true;
      } else if leases[l].status == Active && leases[l].expiresAt <= now {
        hung := Expire(l);
      }
    }

    /** The leases and the counters are those of a scan that has looked at `i` leases. */
    ghost predicate ScannedTo(was: map<Id, Lease>, counters: Stats, now: int, i: nat)
      reads this, leaseCallback
      requires i <= |leaseIds| && KeysInOrder(leaseIds, was)
    {
      && leases == ScanTo(was, leaseIds, now, i)
      && (leaseCallback != null ==> CallbackCounters() == NotesTo(counters, was, leaseIds, now, i))
    }

    method VisitNext(i: nat, now: int, ghost was: map<Id, Lease>, ghost counters: Stats)
      returns (live: bool, hung: bool)
      requires i < |leaseIds| && KeysInOrder(leaseIds, was) && ScannedTo(was, counters, now, i)
      modifies this`leases, leaseCallback
      ensures live == IsLive(was, now)(leaseIds[i])
      ensures Locked() == old(Locked()) && hung == (Locked() && IsOverdue(was, now)(leaseIds[i]))
      ensures !hung ==> ScannedTo(was, counters, now, i + 1)
    {
      ScanToUntouched(LeaseTable(leaseIds, was, map[]), now, i);
      live, hung := Visit(leaseIds[i], now);
    }

    /** The loop of the scan. */
    method CollectActive(now: int) returns (active: seq<Id>, hung: bool)
      requires KeysInOrder(leaseIds, leases)
      modifies this`leases, leaseCallback
      ensures Locked() == old(Locked())
      ensures hung == (Locked() && Overdue(old(Table()), now) != [])
      ensures !hung ==> leases == ScanTo(old(leases), leaseIds, now, |leaseIds|)
      ensures !hung ==> active == Filter(IsLive(old(leases), now), leaseIds)
      ensures !hung && leaseCallback != null ==>
        CallbackCounters() == NotesTo(old(CallbackCounters()), old(leases), leaseIds, now, |leaseIds|)
    {
      ghost var lt, was, ids := Table(), CallbackCounters(), leaseIds;
      active, hung := [], false;
      for i := 0 to |leaseIds|
        invariant ScannedTo(lt.leases, was, now, i)
        invariant active == Filter(IsLive(lt.leases, now), ids[..i])
        invariant Locked() == old(Locked())
        invariant Locked() ==> Filter(IsOverdue(lt.leases, now), ids[..i]) == []
      {
        ScanTurn(lt, now, i);
        var live;
        live, hung := VisitNext(i, now, lt.leases, was);
        if hung {
          FirstOverdue(lt, now, i);
          return;
        }
        if live {
          active := active + [leaseIds[i]];
        }
      }
      assert ids[..|ids|] == ids;
    }

    method GetLeaseByTask(taskId: Id) returns (lease: Option<Id>)
      requires Valid()
      ensures lease == LeaseByTask(Table(), taskId)
    {
      if taskId == "" { return None; }
      if taskId in taskLeaseIndex {
        var l := taskLeaseIndex[taskId];
        if l != "" && l in leases && leases[l].status == Active {
          return Some(l);
        }
      }
      for i := 0 to |leaseIds|
        invariant forall k :: 0 <= k < i ==> !ActiveFor(leases, taskId)(leaseIds[k])
      {
        var l := leaseIds[i];
        if leases[l].taskId == taskId && leases[l].status == Active {
          FilterHead(ActiveFor(leases, taskId), leaseIds, i);
          return Some(l);
        }
      }
      FilterNone(ActiveFor(leases, taskId), leaseIds);
      return None;
    }

    method AppendRecoveryEvent(event: RecoveryEvent)
      requires Valid()
      modifies this`recoveryEvents
      ensures Valid() && recoveryEvents == old(recoveryEvents) + [event]
    {
      recoveryEvents := recoveryEvents + [event];
    }

    // -------------------------------------------------------------------------------------------
    // Nodes
    // -------------------------------------------------------------------------------------------

    method RegisterNode(nodeId: Id, node: Node)
      requires Valid()
      modifies this`nodeIds, this`nodes
      ensures Valid()
      ensures nodes == old(nodes)[nodeId := node]
      ensures nodeIds == if nodeId in old(nodes) then old(nodeIds) else old(nodeIds) + [nodeId]
    {
      if nodeId !in nodes {
        nodeIds := nodeIds + [nodeId];
      }
      nodes := nodes[nodeId := node];
    }

    method UpdateHeartbeat(nodeId: Id, load: real, now: int)
      requires Valid()
      modifies this`nodes
      ensures Valid()
      ensures nodes == if nodeId !in old(nodes) then old(nodes)
        else old(nodes)[nodeId := old(nodes)[nodeId].(lastHeartbeat := now, status := Online, load := load)]
    {
      if nodeId in nodes {
        nodes := nodes[nodeId := nodes[nodeId].(lastHeartbeat := now)];
        nodes := nodes[nodeId := nodes[nodeId].(status := Online)];
        nodes := nodes[nodeId := nodes[nodeId].(load := load)];
      }
    }

    method SetNodeStatus(nodeId: Id, status: NodeStatus)
      requires Valid()
      modifies this`nodes
      ensures Valid()
      ensures nodes == if nodeId !in old(nodes) then old(nodes)
        else old(nodes)[nodeId := old(nodes)[nodeId].(status := status)]
    {
      if nodeId in nodes {
        nodes := nodes[nodeId := nodes[nodeId].(status := status)];
      }
    }

    // -------------------------------------------------------------------------------------------
    // Sync
    // -------------------------------------------------------------------------------------------

    ghost function GateState(): G.Gate
      reads this
    {
      G.Gate(syncVersion, taskIds, tasks)
    }

    /** The gate closes on the message's version before its task is looked at. */
    method HandleSyncMessage(msg: G.SyncMessage, now: int) returns (applied: bool)
      requires Valid()
      modifies this`syncVersion, this`taskIds, this`tasks
      ensures Valid()
      ensures applied == G.Passes(old(GateState()), msg)
      ensures GateState() == G.Handle(old(GateState()), msg, now)
    {
      if msg.version <= syncVersion { return false; }
      syncVersion := msg.version;
      if msg.taskState.Some? {
        MergeSyncedTask(msg.taskState.value, now);
      }
      return true;
    }

    method MergeSyncedTask(t: G.TaskSync, now: int)
      requires Valid()
      modifies this`taskIds, this`tasks
      ensures Valid()
      ensures GateState() == G.ApplyTask(old(GateState()), t, now)
    {
      var parsed := G.ParseStatus(t.status);
      if t.taskId in tasks {
        var task := tasks[t.taskId];
        if parsed.Some? {
          task := task.(status := parsed.value);
        }
        if Truthy(t.assignedTo) {
          task := task.(assignedTo := t.assignedTo);
        }
        task := task.(version := t.version);
        tasks := tasks[t.taskId := task];
      } else {
        var status := if parsed.Some? then parsed.value else Pending;
        taskIds := taskIds + [t.taskId];
        tasks := tasks[t.taskId := Task(t.title, [], [], 3, status, t.assignedTo, now, t.version, None)];
      }
    }

    method HandleBatchSync(batch: seq<G.SyncMessage>, now: int) returns (count: nat)
      requires Valid()
      modifies this`syncVersion, this`taskIds, this`tasks
      ensures Valid()
      ensures count == |G.Records(old(syncVersion), batch)|
      ensures GateState() == G.HandleAll(old(GateState()), batch, now)
    {
      ghost var start := GateState();
      count := 0;
      for i := 0 to |batch|
        invariant Valid()
        invariant GateState() == G.HandleAll(start, batch[..i], now)
        invariant count == G.Applied(start, batch[..i], now)
      {
        assert batch[..i + 1][..i] == batch[..i];
        var applied := HandleSyncMessage(batch[i], now);
        if applied {
          count := count + 1;
        }
      }
      assert batch[..|batch|] == batch;
      G.AppliedCountsRecords(start, batch, now);
    }
  }

  /** `lockHeld` is the manager's lock, which is not reentrant. Between calls it is free, unless
      an extension has hung while holding it. */
  class LeaseManager {
    const store: ClusterState
    const configTtl: int
    var lockHeld: bool
    var totalCreated: int
    var totalRevoked: int
    var totalExpired: int
    var activeCount: int
    // What the registered expiry listeners were called with.
    var notified: seq<(Id, Id)>
    // The leases for which they were called.
    ghost var fired: seq<Id>

    ghost predicate Valid()
      reads this, store
    {
      store.Valid() && store.leaseCallback == this
    }

    ghost function Counters(): Stats
      reads this
    {
      Stats(totalCreated, totalRevoked, totalExpired, fired, notified)
    }

    ghost function State(): LeaseState
      reads this, store
    {
      LeaseState(store.Table(), Counters())
    }

    constructor (store: ClusterState, configTtl: int)
      requires store.Valid()
      modifies store`leaseCallback
      ensures Valid() && this.store == store && this.configTtl == configTtl && !lockHeld
      ensures Counters() == Stats(0, 0, 0, [], [])
      ensures fresh(this)
    {
      this.store, this.configTtl, lockHeld := store, configTtl, false;
      totalCreated, totalRevoked, totalExpired, activeCount := 0, 0, 0, 0;
      notified, fired := [], [];
      new;
      store.leaseCallback := this;
    }

    /** Waits for the lock; reports false where the source would wait forever. */
    method OnLeaseExpired(ghost lease: Id, taskId: Id, nodeId: Id) returns (ok: bool)
      modifies this
      ensures ok == !old(lockHeld) && lockHeld == old(lockHeld)
      ensures ok ==> Counters() == old(Counters()).(expired := old(totalExpired) + 1,
                       fired := old(fired) + [lease], notified := old(notified) + [(taskId, nodeId)])
      ensures !ok ==> Counters() == old(Counters())
    {
      if lockHeld { return false; }
      totalExpired := totalExpired + 1;
      fired := fired + [lease];
      notified := notified + [(taskId, nodeId)];
      return true;
    }

    /** Counts under the lock, so it hangs after its work at the store if the lock is held. */
    method Create(taskId: Id, nodeId: Id, ttl: Option<int>, newId: Id, now: int)
      returns (lease: Option<Id>, hung: bool)
      requires Valid() && FreshId(store.Table(), newId)
      modifies this`totalCreated, store`leaseIds, store`leases, store`taskLeaseIndex
      ensures Valid() && hung == (lockHeld && !CreateRefused(taskId, nodeId))
      ensures !hung ==>
        State() == Leases.Create(old(State()), newId, taskId, nodeId, EffectiveTtl(ttl, configTtl), now)
      ensures hung ==>
        (&& Counters() == old(Counters())
         && store.Table() ==
              Leases.CreateLease(old(store.Table()), newId, taskId, nodeId, EffectiveTtl(ttl, configTtl), now))
      ensures lease == if hung || CreateRefused(taskId, nodeId) then None else Some(newId)
    {
      if taskId == "" { return None, false; }
      if nodeId == "" { return None, false; }
      var effectiveTtl := if ttl.Some? && ttl.value != 0 then ttl.value else configTtl;
      store.CreateLease(newId, taskId, nodeId, effectiveTtl, now);
      if lockHeld { return None, true; }
      totalCreated := totalCreated + 1;
      return Some(newId), false;
    }

    method Revoke(leaseId: Id) returns (ok: bool, hung: bool)
      requires Valid()
      modifies this`totalRevoked, store`leases, store`taskLeaseIndex
      ensures Valid() && ok == (leaseId != "" && leaseId in old(store.leases))
      ensures hung == (lockHeld && ok)
      ensures !hung ==> State() == Leases.Revoke(old(State()), leaseId)
      ensures hung ==>
        Counters() == old(Counters()) && store.Table() == Leases.RevokeLease(old(store.Table()), leaseId)
    {
      if leaseId == "" { return false, false; }
      ok := store.RevokeLease(leaseId);
      hung := ok && lockHeld;
      if ok && !lockHeld {
        totalRevoked := totalRevoked + 1;
      }
    }

    method GetByTask(taskId: Id) returns (lease: Option<Id>)
      requires Valid()
      ensures lease == LeaseByTask(store.Table(), taskId)
    {
      if taskId == "" { return None; }
      lease := store.GetLeaseByTask(taskId);
    }

    /** One pass of the background scanner. */
    method ScanOnce(now: int)
      requires Valid() && !lockHeld
      modifies this, store`leases
      ensures Valid() && !lockHeld
      ensures State() == Scan(old(State()), now)
      ensures activeCount == |Filter(IsLive(old(store.leases), now), store.leaseIds)|
    {
      var active, hung := store.GetActiveLeases(now);
      activeCount := |active|;
    }

    /** Holds the lock over lookup, creation and revocation; so it hangs exactly when the scan
        inside the lookup finds an overdue lease. */
    method Extend(leaseId: Id, additionalTtl: Option<int>, newId: Id, now: int) returns (lease: Option<Id>, hung: bool)
      requires Valid() && !lockHeld && FreshId(store.Table(), newId)
      modifies this, store`leaseIds, store`leases, store`taskLeaseIndex
      ensures hung == ExtendHangs(old(State()), leaseId, now) && lockHeld == hung
      ensures !hung ==> Valid()
      ensures !hung ==>
        State() == Leases.Extend(old(State()), leaseId, newId, EffectiveTtl(additionalTtl, configTtl), now)
      ensures lease == if !hung && ExtendSucceeds(old(State()), leaseId, now) then Some(newId) else None
    {
      if leaseId == "" { return None, false; }
      var effectiveTtl := if additionalTtl.Some? && additionalTtl.value != 0 then additionalTtl.value else configTtl;
      lockHeld := true;
      ActiveAfterScan(store.Table(), now, leaseId);
      var active;
      active, hung := store.GetActiveLeases(now);
      if hung { return None, true; }
      lease := ReplaceIn(active, leaseId, newId, effectiveTtl, now);
      lockHeld := false;
    }

    /** Creates first and revokes then; the revocation drops the index entry of the new lease. */
    method ReplaceOne(leaseId: Id, newId: Id, ttl: int, now: int)
      requires Valid() && FreshId(store.Table(), newId) && IsActive(store.leases)(leaseId)
      modifies store`leaseIds, store`leases, store`taskLeaseIndex
      ensures Valid() && store.Table() == Replace(old(store.Table()), leaseId, newId, ttl, now)
    {
      var replaced := store.leases[leaseId];
      store.CreateLease(newId, replaced.taskId, replaced.nodeId, ttl, now);
      var ok := store.RevokeLease(leaseId);
    }

    /** Looks the lease up among the active ones and replaces it. */
    method ReplaceIn(active: seq<Id>, leaseId: Id, newId: Id, ttl: int, now: int) returns (lease: Option<Id>)
      requires Valid() && FreshId(store.Table(), newId)
      requires leaseId in active <==> IsActive(store.leases)(leaseId)
      modifies store`leaseIds, store`leases, store`taskLeaseIndex
      ensures Valid()
      ensures store.Table() == Replace(old(store.Table()), leaseId, newId, ttl, now)
      ensures lease == if leaseId in active then Some(newId) else None
    {
      for k := 0 to |active|
        invariant store.Table() == old(store.Table())
        invariant leaseId !in active[..k]
      {
        if active[k] == leaseId {
          ReplaceOne(leaseId, newId, ttl, now);
          return Some(newId);
        }
      }
      return None;
    }
  }

  /** Everything the handlers touch, as one value. */
  ghost function SystemOf(state: ClusterState, leases: LeaseManager): P.System
    reads state, leases, leases.store
  {
    P.System(state.taskIds, state.tasks, state.history, state.Reg(), leases.State(), state.recoveryEvents,
      state.syncVersion)
  }
}
