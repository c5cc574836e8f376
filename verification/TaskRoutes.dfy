/** The task handlers, without their HTTP shell: each one is proved to compute its step of the
    protocol, and the reply tells which guard refused the call. */
module TaskRoutes {
  import opened Types
  import opened Seqs
  import opened Workflow
  import opened Leases
  import opened Cluster
  import P = Protocol

  datatype Reply = Ok | NotFound | NotBlocked | NotClaimable | AlreadyClaimed | WrongNode | DepsNotMet | LeaseRefused

  class TaskRouter {
    const state: ClusterState
    const leases: LeaseManager

    ghost predicate Valid()
      reads this, state, leases
    {
      leases.store == state && leases.Valid() && !leases.lockHeld
    }

    ghost function Sys(): P.System
      reads this, state, leases
      requires leases.store == state
    {
      SystemOf(state, leases)
    }

    constructor (state: ClusterState, leases: LeaseManager)
      requires leases.store == state && leases.Valid() && !leases.lockHeld
      ensures this.state == state && this.leases == leases && Valid()
    {
      this.state, this.leases := state, leases;
    }

    // Single writes, each stated on the whole protocol state.

    method AddTask(taskId: Id, title: string, needs: seq<string>, priority: int, now: int)
      requires Valid()
      modifies state`taskIds, state`tasks
      ensures Valid() && Sys() == P.AddTask(old(Sys()), taskId, NewTask(title, needs, priority, now))
    {
      state.CreateTask(taskId, title, needs, priority, now);
    }

    method PromoteAll() returns (promoted: nat)
      requires Valid()
      modifies state`tasks
      ensures Valid() && Sys() == P.PromoteAll(old(Sys()))
      ensures promoted == |Filter(Promotable(old(state.tasks)), state.taskIds)|
    {
      promoted := state.TriggerPendingTasks();
    }

    method ScheduleAll() returns (scheduled: nat)
      requires Valid()
      modifies state`tasks, state`decisions, state`history
      ensures Valid() && Sys() == P.ScheduleAll(old(Sys()))
      ensures scheduled == |Filter(Schedulable(old(state.tasks), state.Reg()), state.taskIds)|
    {
      scheduled := state.SchedulePending();
    }

    method Mark(taskId: Id, status: TaskStatus, reason: string)
      requires Valid()
      modifies state`tasks
      ensures Valid() && Sys() == old(Sys()).(tasks := SetStatus(old(state.tasks), taskId, status, reason))
    {
      var ok := state.SetTaskStatus(taskId, status, reason);
    }

    /** A handler's direct write to the task object, bypassing the store's methods. */
    method Patch(taskId: Id, task: Task)
      requires Valid() && taskId in state.tasks
      modifies state`tasks
      ensures Valid() && Sys() == old(Sys()).(tasks := old(state.tasks)[taskId := task])
    {
      state.tasks := state.tasks[taskId := task];
    }

    method RevokeHeld(taskId: Id)
      requires Valid()
      modifies leases`totalRevoked, state`leases, state`taskLeaseIndex
      ensures Valid() && Sys() == P.RevokeFor(old(Sys()), taskId)
    {
      var lease := leases.GetByTask(taskId);
      if lease.Some? {
        var ok, hung := leases.Revoke(lease.value);
      }
    }

    method PromoteIfDone(t: Id)
      requires Valid() && t in state.tasks
      modifies state`tasks
      ensures Valid()
      ensures var ts := old(state.tasks);
        state.tasks == if ts[t].status == Pending && DepsDone(ts, ts[t].dependsOn) then SetStatus(ts, t, Ready, "") else ts
    {
      if state.tasks[t].status == Pending {
        if DepsDone(state.tasks, state.tasks[t].dependsOn) {
          var ok := state.SetTaskStatus(t, Ready, "");
        }
      }
    }

    method PromoteEach(dependents: seq<Id>)
      requires Valid() && Distinct(dependents) && forall t :: t in dependents ==> t in state.tasks
      modifies state`tasks
      ensures Valid() && state.tasks == DownstreamTo(old(state.tasks), dependents, |dependents|)
    {
      ghost var before := state.tasks;
      for i := 0 to |dependents|
        invariant Valid() && state.tasks == DownstreamTo(before, dependents, i)
      {
        assert dependents[i] in dependents;
        DownstreamStep(before, dependents, i);
        PromoteIfDone(dependents[i]);
      }
    }

    method PromoteDependents(taskId: Id)
      requires Valid()
      modifies state`tasks
      ensures Valid() && Sys() == old(Sys()).(tasks := Downstream(old(state.tasks), taskId))
    {
      var dependents := state.GetDependents(taskId);
      DownstreamToEnd(state.tasks, state.taskIds, taskId);
      PromoteEach(dependents);
    }

    method BlockIfPending(t: Id)
      requires Valid() && t in state.tasks
      modifies state`tasks
      ensures Valid()
      ensures var ts := old(state.tasks);
        state.tasks == if ts[t].status == Pending then SetStatus(ts, t, Blocked, "") else ts
    {
      if state.tasks[t].status == Pending {
        var ok := state.SetTaskStatus(t, Blocked, "");
      }
    }

    method BlockEach(dependents: seq<Id>)
      requires Valid() && Distinct(dependents) && forall t :: t in dependents ==> t in state.tasks
      modifies state`tasks
      ensures Valid() && state.tasks == BlockTo(old(state.tasks), dependents, |dependents|)
    {
      ghost var before := state.tasks;
      for i := 0 to |dependents|
        invariant Valid() && state.tasks == BlockTo(before, dependents, i)
      {
        assert dependents[i] in dependents;
        BlockStep(before, dependents, i);
        BlockIfPending(dependents[i]);
      }
    }

    method BlockDownstream(taskId: Id) returns (blocked: seq<Id>)
      requires Valid()
      modifies state`tasks
      ensures Valid() && Sys() == old(Sys()).(tasks := BlockDependents(old(state.tasks), taskId))
      ensures blocked == Dependents(state.taskIds, old(state.tasks), taskId)
    {
      blocked := state.GetDependents(taskId);
      BlockToEnd(state.tasks, state.taskIds, taskId);
      BlockEach(blocked);
    }

    // The handlers.

    method Submit(taskId: Id, title: string, needs: seq<string>, priority: int, now: int)
      requires Valid()
      modifies state`taskIds, state`tasks
      ensures Valid() && Sys() == P.Submit(old(Sys()), taskId, title, needs, priority, now)
    {
      AddTask(taskId, title, needs, if priority > 0 then priority else 3, now);
      var promoted := PromoteAll();
    }

    method TriggerDownstream(taskId: Id)
      requires Valid()
      modifies state`tasks, state`decisions, state`history
      ensures Valid()
      ensures Sys() == P.ScheduleAll(old(Sys()).(tasks := Downstream(old(state.tasks), taskId)))
    {
      PromoteDependents(taskId);
      var scheduled := ScheduleAll();
    }

    method Complete(taskId: Id) returns (reply: Reply)
      requires Valid()
      modifies leases`totalRevoked, state`leases, state`taskLeaseIndex, state`tasks, state`decisions, state`history
      ensures Valid() && Sys() == P.Complete(old(Sys()), taskId)
      ensures reply == if taskId in old(state.tasks) then Ok else NotFound
    {
      if taskId !in state.tasks { return NotFound; }
      RevokeHeld(taskId);
      Mark(taskId, Completed, "");
      TriggerDownstream(taskId);
      return Ok;
    }

    method Fail(taskId: Id, reason: string) returns (reply: Reply, blocked: seq<Id>)
      requires Valid()
      modifies state`tasks
      ensures Valid() && Sys() == P.Fail(old(Sys()), taskId, reason)
      ensures reply == if taskId in old(state.tasks) then Ok else NotFound
      ensures reply.Ok? ==>
        blocked == Dependents(state.taskIds, SetStatus(old(state.tasks), taskId, Failed, reason), taskId)
    {
      if taskId !in state.tasks { return NotFound, []; }
      Mark(taskId, Failed, reason);
      blocked := BlockDownstream(taskId);
      reply := Ok;
    }

    method Unblock(taskId: Id) returns (reply: Reply)
      requires Valid()
      modifies state`tasks
      ensures Valid() && Sys() == P.UnblockOne(old(Sys()), taskId)
      ensures reply == if taskId in old(state.tasks) && old(state.tasks)[taskId].status == Blocked then Ok else NotBlocked
    {
      var ok := state.UnblockTask(taskId);
      return if ok then Ok else NotBlocked;
    }

    method Advance(taskId: Id) returns (reply: Reply)
      requires Valid()
      modifies state`tasks, state`decisions, state`history
      ensures Valid() && Sys() == P.Advance(old(Sys()), taskId)
      ensures reply == if taskId !in old(state.tasks) then NotFound
                       else if DepsDone(old(state.tasks), old(state.tasks)[taskId].dependsOn) then Ok else DepsNotMet
    {
      if taskId !in state.tasks { return NotFound; }
      if state.tasks[taskId].dependsOn != [] {
        if !DepsDone(state.tasks, state.tasks[taskId].dependsOn) { return DepsNotMet; }
      }
      Mark(taskId, Ready, "");
      var scheduled := ScheduleAll();
      return Ok;
    }

    method SetDependencies(taskId: Id, deps: seq<Id>) returns (reply: Reply)
      requires Valid()
      modifies state`tasks
      ensures Valid() && Sys() == P.SetDeps(old(Sys()), taskId, deps)
      ensures reply == if taskId in old(state.tasks) then Ok else NotFound
    {
      if taskId !in state.tasks { return NotFound; }
      var ok := state.SetDependencies(taskId, deps);
      return Ok;
    }

    method Grant(taskId: Id, nodeId: Id, leaseId: Id, now: int) returns (granted: bool)
      requires Valid() && FreshId(state.Table(), leaseId)
      modifies leases`totalCreated, state`leaseIds, state`leases, state`taskLeaseIndex
      ensures Valid()
      ensures Sys() == old(Sys()).(leases := Create(old(leases.State()), leaseId, taskId, nodeId, leases.configTtl, now))
      ensures granted == !CreateRefused(taskId, nodeId)
    {
      var lease, hung := leases.Create(taskId, nodeId, None, leaseId, now);
      granted := lease.Some?;
    }

    /** A task with an empty id, or a claim by an empty node id, is marked running and only then
        refused its lease. */
    method Claim(taskId: Id, nodeId: Id, leaseId: Id, now: int) returns (reply: Reply)
      requires Valid() && FreshId(state.Table(), leaseId)
      modifies state`tasks, leases`totalCreated, state`leaseIds, state`leases, state`taskLeaseIndex
      ensures Valid() && Sys() == P.Claim(old(Sys()), taskId, nodeId, leaseId, leases.configTtl, now)
      ensures reply == if taskId !in old(state.tasks) then NotFound
                       else if old(state.tasks)[taskId].status != Ready then NotClaimable
                       else if old(state.tasks)[taskId].assignedTo.Some? then AlreadyClaimed
                       else if CreateRefused(taskId, nodeId) then LeaseRefused else Ok
    {
      if taskId !in state.tasks { return NotFound; }
      if state.tasks[taskId].status != Ready { return NotClaimable; }
      if state.tasks[taskId].assignedTo.Some? { return AlreadyClaimed; }
      HandOver(taskId, nodeId);
      var granted := Grant(taskId, nodeId, leaseId, now);
      return if granted then Ok else LeaseRefused;
    }

    method HandOver(taskId: Id, nodeId: Id)
      requires Valid() && taskId in state.tasks
      modifies state`tasks
      ensures Valid()
      ensures Sys() == old(Sys()).(tasks :=
        old(state.tasks)[taskId := P.HandedOver(old(state.tasks)[taskId], nodeId)])
    {
      Mark(taskId, Running, "");
      var task := state.tasks[taskId];
      task := task.(assignedTo := Some(nodeId), version := task.version + 1);
      UpdateTwice(old(state.tasks), taskId, state.tasks[taskId], task);
      Patch(taskId, task);
    }

    method Release(taskId: Id, nodeId: Id, reason: string) returns (reply: Reply)
      requires Valid()
      modifies leases`totalRevoked, state`leases, state`taskLeaseIndex, state`tasks
      ensures Valid() && Sys() == P.Release(old(Sys()), taskId, nodeId, reason)
      ensures reply == if taskId !in old(state.tasks) then NotFound
                       else if old(state.tasks)[taskId].assignedTo == Some(nodeId) then Ok else WrongNode
    {
      if taskId !in state.tasks { return NotFound; }
      if state.tasks[taskId].assignedTo != Some(nodeId) { return WrongNode; }
      RevokeHeld(taskId);
      HandBack(taskId, reason);
      return Ok;
    }

    method HandBack(taskId: Id, reason: string)
      requires Valid() && taskId in state.tasks
      modifies state`tasks
      ensures Valid()
      ensures Sys() == old(Sys()).(tasks :=
        old(state.tasks)[taskId := P.HandedBack(old(state.tasks)[taskId], reason)])
    {
      Mark(taskId, Ready, "");
      var task := state.tasks[taskId];
      task := task.(assignedTo := None, version := task.version + 1);
      if reason != "" {
        task := task.(failReason := Some(reason));
      }
      UpdateTwice(old(state.tasks), taskId, state.tasks[taskId], task);
      Patch(taskId, task);
    }

    /** All tasks that run with a non-empty assignee, in table order. */
    method Assignments() returns (list: seq<Decision>)
      requires Valid()
      ensures list == P.Assignments(state.tasks, state.taskIds)
    {
      list := [];
      ghost var ids := state.taskIds;
      for i := 0 to |state.taskIds|
        invariant list == P.Assignments(state.tasks, ids[..i])
      {
        assert ids[..i + 1][..i] == ids[..i];
        var task := state.tasks[state.taskIds[i]];
        if task.status == Running && Truthy(task.assignedTo) {
          list := list + [Decision(state.taskIds[i], task.title, task.priority, task.assignedTo.value)];
        }
      }
      assert ids[..|ids|] == ids;
    }

    /** The schedule trigger. */
    method Trigger() returns (promoted: nat, scheduled: nat, assignments: seq<Decision>)
      requires Valid()
      modifies state`tasks, state`decisions, state`history
      ensures Valid() && Sys() == P.Trigger(old(Sys()))
      ensures var running := Filter(P.RunningHeld(state.tasks), state.taskIds);
        && |assignments| == |running|
        && forall k :: 0 <= k < |assignments| ==> assignments[k] == P.AssignmentOf(state.tasks, running[k])
      ensures promoted == |Filter(Promotable(old(state.tasks)), state.taskIds)|
      ensures scheduled == |Filter(Schedulable(Promote(old(state.tasks)), state.Reg()), state.taskIds)|
    {
      promoted := PromoteAll();
      scheduled := ScheduleAll();
      assignments := Assignments();
      P.AssignmentsAre(state.tasks, state.taskIds);
    }
  }
}
