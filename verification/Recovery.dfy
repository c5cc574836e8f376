/** The recovery pipeline for a lost node: revoke its leases, reschedule the orphaned tasks, log. */
module Recovery {
  import opened Types
  import opened Seqs
  import opened Workflow
  import opened Leases
  import opened Cluster
  import P = Protocol

  class Revoker {
    const state: ClusterState
    ghost const leases: LeaseManager

    ghost predicate Valid()
      reads this, state, leases
    {
      leases.store == state && leases.Valid() && !leases.lockHeld
    }

    constructor (state: ClusterState, ghost leases: LeaseManager)
      requires leases.store == state && leases.Valid() && !leases.lockHeld
      ensures this.state == state && this.leases == leases && Valid()
    {
      this.state, this.leases := state, leases;
    }

    /** One turn of the loop: revokes the lease and logs it, if it belongs to the node. */
    method RevokeIfHeld(l: Id, nodeId: Id, soFar: seq<Id>) returns (revoked: seq<Id>)
      requires state.Valid() && l in state.leases
      modifies state`leases, state`taskLeaseIndex, state`recoveryEvents
      ensures state.Valid() && state.leases.Keys == old(state.leases).Keys
      ensures P.Revocation(state.Table(), revoked, state.recoveryEvents) ==
        P.RevokeTurn(P.Revocation(old(state.Table()), soFar, old(state.recoveryEvents)), nodeId, l)
    {
      var lease := state.leases[l];
      if lease.nodeId != nodeId { return soFar; }
      var success := state.RevokeLease(l);
      state.AppendRecoveryEvent(RecoveryEvent(lease.taskId, nodeId, LeaseRevoked, Done));
      return soFar + [lease.taskId];
    }

    /** The loop of the revoker, over the leases found active. */
    method RevokeAmong(active: seq<Id>, nodeId: Id) returns (revoked: seq<Id>)
      requires state.Valid() && forall l :: l in active ==> l in state.leases
      modifies state`leases, state`taskLeaseIndex, state`recoveryEvents
      ensures state.Valid()
      ensures P.Revocation(state.Table(), revoked, state.recoveryEvents) ==
        P.RevokeTurns(P.Revocation(old(state.Table()), [], old(state.recoveryEvents)), nodeId, active)
    {
      revoked := [];
      for i := 0 to |active|
        invariant state.Valid() && state.leases.Keys == old(state.leases).Keys
        invariant P.Revocation(state.Table(), revoked, state.recoveryEvents) ==
          P.RevokeTurns(P.Revocation(old(state.Table()), [], old(state.recoveryEvents)), nodeId, active[..i])
      {
        assert active[i] in active && active[..i + 1][..i] == active[..i];
        revoked := RevokeIfHeld(active[i], nodeId, revoked);
      }
      assert active[..|active|] == active;
    }

    method RevokeAllForNode(nodeId: Id, now: int) returns (revoked: seq<Id>)
      requires Valid()
      modifies leases, state`leases, state`taskLeaseIndex, state`recoveryEvents
      ensures Valid()
      ensures SystemOf(state, leases) == P.RevokeNode(old(SystemOf(state, leases)), nodeId, now)
      ensures revoked == P.Orphans(old(SystemOf(state, leases)), nodeId, now)
    {
      P.HeldAmongLive(state.Table(), nodeId, now);
      var active := Scan(now);
      revoked := RevokeListed(active, nodeId);
    }

    method Scan(now: int) returns (active: seq<Id>)
      requires Valid()
      modifies leases, state`leases
      ensures Valid()
      ensures SystemOf(state, leases) ==
        old(SystemOf(state, leases)).(leases := Leases.Scan(old(leases.State()), now))
      ensures active == Filter(IsLive(old(state.leases), now), state.leaseIds)
      ensures forall l :: l in active ==> IsActive(state.leases)(l)
    {
      var hung;
      active, hung := state.GetActiveLeases(now);
    }

    method RevokeListed(active: seq<Id>, nodeId: Id) returns (revoked: seq<Id>)
      requires Valid() && forall l :: l in active ==> IsActive(state.leases)(l)
      modifies state`leases, state`taskLeaseIndex, state`recoveryEvents
      ensures Valid()
      ensures var s, held := old(SystemOf(state, leases)), Filter(P.HeldBy(old(state.leases), nodeId), active);
        && revoked == P.LeasedTasks(old(state.leases), held)
        && SystemOf(state, leases) == s.(
             leases := s.leases.(table := P.RevokeAllOf(s.leases.table, held)),
             log := s.log + P.RevokeEvents(revoked, nodeId))
    {
      P.RevokeTurnsIs(state.Table(), state.recoveryEvents, nodeId, active);
      revoked := RevokeAmong(active, nodeId);
    }
  }

  class Rescheduler {
    const state: ClusterState
    ghost const leases: LeaseManager

    ghost predicate Valid()
      reads this, state, leases
    {
      leases.store == state && leases.Valid()
    }

    constructor (state: ClusterState, ghost leases: LeaseManager)
      requires leases.store == state && leases.Valid()
      ensures this.state == state && this.leases == leases && Valid()
    {
      this.state, this.leases := state, leases;
    }

    method Log(event: RecoveryEvent)
      requires Valid()
      modifies state`recoveryEvents
      ensures Valid()
      ensures SystemOf(state, leases) ==
        old(SystemOf(state, leases)).(log := old(state.recoveryEvents) + [event])
    {
      state.AppendRecoveryEvent(event);
    }

    method MarkFailed(taskId: Id)
      requires Valid()
      modifies state`tasks, state`recoveryEvents
      ensures Valid()
      ensures SystemOf(state, leases) == old(SystemOf(state, leases)).(
        tasks := SetStatus(old(state.tasks), taskId, Failed, P.NO_NODE),
        log := old(state.recoveryEvents) + [RecoveryEvent(taskId, "", MarkedFailed, Done)])
    {
      var ok := state.SetTaskStatus(taskId, Failed, "no available node for reschedule");
      state.AppendRecoveryEvent(RecoveryEvent(taskId, "", MarkedFailed, Done));
    }

    method UnassignOne(taskId: Id)
      requires Valid()
      modifies state`tasks
      ensures Valid()
      ensures SystemOf(state, leases) ==
        old(SystemOf(state, leases)).(tasks := Unassign(old(state.tasks), taskId))
    {
      var ok := state.UnassignTask(taskId);
    }

    method ScheduleAll() returns (scheduled: nat)
      requires Valid()
      modifies state`tasks, state`decisions, state`history
      ensures Valid() && SystemOf(state, leases) == P.ScheduleAll(old(SystemOf(state, leases)))
      ensures scheduled == 0 ==> state.tasks == old(state.tasks)
    {
      NothingScheduled(state.tasks, state.Reg(), state.taskIds);
      scheduled := state.SchedulePending();
    }

    method RescheduleOne(taskId: Id) returns (placed: bool)
      requires Valid()
      modifies state`tasks, state`decisions, state`history, state`recoveryEvents
      ensures Valid()
      ensures SystemOf(state, leases) == P.RescheduleOne(old(SystemOf(state, leases)), taskId)
      ensures placed == P.Placed(old(SystemOf(state, leases)), taskId)
    {
      if taskId !in state.tasks { return false; }
      UnassignOne(taskId);
      var scheduled := ScheduleAll();
      if scheduled > 0 {
        if Truthy(state.tasks[taskId].assignedTo) {
          Log(RecoveryEvent(taskId, "", Rescheduled, Done));
          return true;
        } else {
          MarkFailed(taskId);
        }
      } else {
        MarkFailed(taskId);
      }
      return false;
    }

    method RescheduleOrphaned(taskIds: seq<Id>) returns (rescheduled: nat)
      requires Valid()
      modifies state`tasks, state`decisions, state`history, state`recoveryEvents
      ensures Valid()
      ensures SystemOf(state, leases) == P.RescheduleAll(old(SystemOf(state, leases)), taskIds)
      ensures rescheduled == P.PlacedCount(old(SystemOf(state, leases)), taskIds)
    {
      ghost var before := SystemOf(state, leases);
      rescheduled := 0;
      for i := 0 to |taskIds|
        invariant Valid()
        invariant SystemOf(state, leases) == P.RescheduleAll(before, taskIds[..i])
        invariant rescheduled == P.PlacedCount(before, taskIds[..i])
      {
        assert taskIds[..i + 1][..i] == taskIds[..i];
        var placed := RescheduleOne(taskIds[i]);
        if placed {
          rescheduled := rescheduled + 1;
        }
      }
      assert taskIds[..|taskIds|] == taskIds;
    }
  }

  datatype Summary = Summary(nodeId: Id, revoked: nat, rescheduled: nat, status: RecoveryOutcome)

  class RecoveryManager {
    const state: ClusterState
    ghost const leases: LeaseManager
    const revoker: Revoker
    const rescheduler: Rescheduler
    var totalRecoveries: int
    var totalRevoked: int
    var totalRescheduled: int

    ghost predicate Valid()
      reads this, state, leases, revoker, rescheduler
    {
      && revoker.state == state && revoker.leases == leases && revoker.Valid()
      && rescheduler.state == state && rescheduler.leases == leases
    }

    constructor (state: ClusterState, ghost leases: LeaseManager)
      requires leases.store == state && leases.Valid() && !leases.lockHeld
      ensures this.state == state && this.leases == leases && Valid()
      ensures totalRecoveries == totalRevoked == totalRescheduled == 0
    {
      this.state, this.leases := state, leases;
      revoker := new Revoker(state, leases);
      rescheduler := new Rescheduler(state, leases);
      totalRecoveries, totalRevoked, totalRescheduled := 0, 0, 0;
    }

    method TriggerRecovery(nodeId: Id, now: int) returns (summary: Summary)
      requires Valid()
      modifies this`totalRecoveries, this`totalRevoked, this`totalRescheduled, leases,
        state`leases, state`taskLeaseIndex, state`tasks, state`decisions, state`history, state`recoveryEvents
      ensures Valid()
      ensures SystemOf(state, leases) == P.Recover(old(SystemOf(state, leases)), nodeId, now)
      ensures var s := old(SystemOf(state, leases));
        var orphans := P.Orphans(s, nodeId, now);
        var revoked, placed := |orphans|, P.PlacedCount(P.RevokeNode(s, nodeId, now), orphans);
        && summary == Summary(nodeId, revoked, placed, P.RecoveryStatus(revoked, placed))
        && totalRecoveries == old(totalRecoveries) + 1
        && totalRevoked == old(totalRevoked) + revoked
        && totalRescheduled == old(totalRescheduled) + placed
    {
      totalRecoveries := totalRecoveries + 1;
      var revoked := revoker.RevokeAllForNode(nodeId, now);
      totalRevoked := totalRevoked + |revoked|;
      var rescheduled, status := RescheduleRevoked(revoked);
      rescheduler.Log(RecoveryEvent("", nodeId, FullRecovery, status));
      summary := Summary(nodeId, |revoked|, rescheduled, status);
    }

    method RescheduleRevoked(revoked: seq<Id>) returns (rescheduled: nat, status: RecoveryOutcome)
      requires Valid()
      modifies this`totalRescheduled, state`tasks, state`decisions, state`history, state`recoveryEvents
      ensures Valid()
      ensures SystemOf(state, leases) == P.RescheduleAll(old(SystemOf(state, leases)), revoked)
      ensures rescheduled == P.PlacedCount(old(SystemOf(state, leases)), revoked)
      ensures totalRescheduled == old(totalRescheduled) + rescheduled
      ensures status == P.RecoveryStatus(|revoked|, rescheduled)
    {
      if revoked == [] { return 0, Done; }
      rescheduled := rescheduler.RescheduleOrphaned(revoked);
      totalRescheduled := totalRescheduled + rescheduled;
      status := if rescheduled == |revoked| then Done else Partial;
    }
  }
}
