/** The coordination protocol as a state machine: one value holds everything the handlers touch,
    and each handler or manager call is one function from state to state. The classes in
    ClusterState.dfy, TaskRoutes.dfy and Recovery.dfy are proved to compute these functions. */
module Protocol {
  import opened Types
  import opened Seqs
  import opened Workflow
  import opened Leases

  /** `history` is every scheduling decision ever made; the store itself keeps only the last few. */
  datatype System = System(
    ids: seq<Id>,
    tasks: Tasks,
    history: seq<Decision>,
    reg: Registry,
    leases: LeaseState,
    log: seq<RecoveryEvent>,
    syncVersion: int)

  function AddTask(s: System, id: Id, task: Task): System {
    s.(ids := if id in s.tasks then s.ids else s.ids + [id], tasks := s.tasks[id := task])
  }

  function ScheduleAll(s: System): System {
    s.(tasks := Schedule(s.tasks, s.reg), history := s.history + NewDecisions(s.ids, s.tasks, s.reg))
  }

  function PromoteAll(s: System): System {
    s.(tasks := Promote(s.tasks))
  }

  // ---------------------------------------------------------------------------------------------
  // Task handlers
  // ---------------------------------------------------------------------------------------------

  function EffectivePriority(priority: int): int {
    if priority > 0 then priority else 3
  }

  function Submit(s: System, id: Id, title: string, needs: seq<string>, priority: int, now: int): System {
    PromoteAll(AddTask(s, id, NewTask(title, needs, EffectivePriority(priority), now)))
  }

  predicate Claimable(s: System, t: Id) {
    t in s.tasks && s.tasks[t].status == Ready && s.tasks[t].assignedTo == None
  }

  function HandedOver(task: Task, node: Id): Task {
    task.(status := Running, assignedTo := Some(node), version := task.version + 2)
  }

  function Claim(s: System, t: Id, node: Id, leaseId: Id, ttl: int, now: int): System {
    if !Claimable(s, t) then s
    else
      s.(tasks := s.tasks[t := HandedOver(s.tasks[t], node)],
         leases := Create(s.leases, leaseId, t, node, ttl, now))
  }

  /** Revokes the lease that lookup by task finds, if it finds one. */
  function RevokeFor(s: System, t: Id): System {
    var l := LeaseByTask(s.leases.table, t);
    if l.Some? then s.(leases := Revoke(s.leases, l.value)) else s
  }

  predicate Releasable(s: System, t: Id, node: Id) {
    t in s.tasks && s.tasks[t].assignedTo == Some(node)
  }

  function HandedBack(task: Task, reason: string): Task {
    task.(status := Ready, assignedTo := None, version := task.version + 2,
          failReason := if reason != "" then Some(reason) else task.failReason)
  }

  function Release(s: System, t: Id, node: Id, reason: string): System {
    if !Releasable(s, t, node) then s
    else RevokeFor(s, t).(tasks := s.tasks[t := HandedBack(s.tasks[t], reason)])
  }

  function Complete(s: System, t: Id): System {
    if t !in s.tasks then s
    else ScheduleAll(RevokeFor(s, t).(tasks := Downstream(SetStatus(s.tasks, t, Completed, ""), t)))
  }

  function Fail(s: System, t: Id, reason: string): System {
    if t !in s.tasks then s
    else s.(tasks := BlockDependents(SetStatus(s.tasks, t, Failed, reason), t))
  }

  function UnblockOne(s: System, t: Id): System {
    s.(tasks := Unblock(s.tasks, t))
  }

  function SetDeps(s: System, t: Id, deps: seq<Id>): System {
    s.(tasks := SetDependsOn(s.tasks, t, deps))
  }

  predicate AdvanceAccepted(s: System, t: Id) {
    t in s.tasks && DepsDone(s.tasks, s.tasks[t].dependsOn)
  }

  function Advance(s: System, t: Id): System {
    if !AdvanceAccepted(s, t) then s
    else ScheduleAll(s.(tasks := SetStatus(s.tasks, t, Ready, "")))
  }

  /** The schedule trigger: a rescan, then a scheduling pass. */
  function Trigger(s: System): System {
    ScheduleAll(PromoteAll(s))
  }

  function RunningHeld(ts: Tasks): Id -> bool {
    t => t in ts && ts[t].status == Running && Truthy(ts[t].assignedTo)
  }

  function AssignmentOf(ts: Tasks, t: Id): Decision
    requires RunningHeld(ts)(t)
  {
    Decision(t, ts[t].title, ts[t].priority, ts[t].assignedTo.value)
  }

  function Assignments(ts: Tasks, ids: seq<Id>): seq<Decision> {
    if ids == [] then []
    else
      Assignments(ts, ids[..|ids| - 1])
      + (if RunningHeld(ts)(ids[|ids| - 1]) then [AssignmentOf(ts, ids[|ids| - 1])] else [])
  }

  /** One entry for each running task with an assignee, in table order. */
  lemma {:induction false} AssignmentsAre(ts: Tasks, ids: seq<Id>)
    ensures var list, running := Assignments(ts, ids), Filter(RunningHeld(ts), ids);
      |list| == |running| && forall k :: 0 <= k < |list| ==> list[k] == AssignmentOf(ts, running[k])
  {
    if ids != [] {
      AssignmentsAre(ts, ids[..|ids| - 1]);
    }
  }

  // ---------------------------------------------------------------------------------------------
  // Recovery
  // ---------------------------------------------------------------------------------------------

  function HeldBy(leases: map<Id, Lease>, node: Id): Id -> bool {
    l => l in leases && leases[l].status == Active && leases[l].nodeId == node
  }

  function RevokeAllOf(lt: LeaseTable, ids: seq<Id>): LeaseTable {
    if ids == [] then lt else RevokeLease(RevokeAllOf(lt, ids[..|ids| - 1]), ids[|ids| - 1])
  }

  lemma {:induction false} RevokeAllOfIs(lt: LeaseTable, ids: seq<Id>)
    requires forall l :: l in ids ==> l in lt.leases
    ensures RevokeAllOf(lt, ids).ids == lt.ids
    ensures RevokeAllOf(lt, ids).leases ==
      map l | l in lt.leases :: if l in ids then lt.leases[l].(status := Revoked) else lt.leases[l]
    ensures TableOk(lt) ==> TableOk(RevokeAllOf(lt, ids))
  {
    if ids != [] {
      var front := ids[..|ids| - 1];
      RevokeAllOfIs(lt, front);
      assert ids == front + [ids[|ids| - 1]];
      if TableOk(lt) { RevokeKeepsTable(RevokeAllOf(lt, front), ids[|ids| - 1]); }
    }
  }

  function LeasedTasks(leases: map<Id, Lease>, ids: seq<Id>): seq<Id>
    requires forall l :: l in ids ==> l in leases
  {
    seq(|ids|, i requires 0 <= i < |ids| => leases[ids[i]].taskId)
  }

  function RevokeEvents(tasks: seq<Id>, node: Id): seq<RecoveryEvent> {
    seq(|tasks|, i requires 0 <= i < |tasks| => RecoveryEvent(tasks[i], node, LeaseRevoked, Done))
  }

  /** The leases that a revocation for `node` hits: what is left active after an expiry scan. */
  function ToRevoke(s: System, node: Id, now: int): seq<Id> {
    Filter(HeldBy(Scan(s.leases, now).table.leases, node), s.leases.table.ids)
  }

  function Orphans(s: System, node: Id, now: int): seq<Id> {
    LeasedTasks(Scan(s.leases, now).table.leases, ToRevoke(s, node, now))
  }

  /** What the revocation loop has done so far. */
  datatype Revocation = Revocation(table: LeaseTable, tasks: seq<Id>, log: seq<RecoveryEvent>)

  function RevokeTurn(r: Revocation, node: Id, l: Id): Revocation {
    if l in r.table.leases && r.table.leases[l].nodeId == node
    then Revocation(RevokeLease(r.table, l), r.tasks + [r.table.leases[l].taskId],
                    r.log + [RecoveryEvent(r.table.leases[l].taskId, node, LeaseRevoked, Done)])
    else r
  }

  function RevokeTurns(r: Revocation, node: Id, active: seq<Id>): Revocation {
    if active == [] then r else RevokeTurn(RevokeTurns(r, node, active[..|active| - 1]), node, active[|active| - 1])
  }

  lemma {:induction false} RevokeTurnsIs(lt: LeaseTable, log: seq<RecoveryEvent>, node: Id, active: seq<Id>)
    requires forall l :: l in active ==> IsActive(lt.leases)(l)
    ensures var held := Filter(HeldBy(lt.leases, node), active);
      RevokeTurns(Revocation(lt, [], log), node, active) ==
        Revocation(RevokeAllOf(lt, held), LeasedTasks(lt.leases, held),
                   log + RevokeEvents(LeasedTasks(lt.leases, held), node))
  {
    if active != [] {
      var front, l := active[..|active| - 1], active[|active| - 1];
      var done := Filter(HeldBy(lt.leases, node), front);
      RevokeTurnsIs(lt, log, node, front);
      assert l in active;
      RevokeTurnIs(lt, log, node, done, l);
    }
  }

  lemma RevokeTurnIs(lt: LeaseTable, log: seq<RecoveryEvent>, node: Id, done: seq<Id>, l: Id)
    requires l in lt.leases && forall k :: k in done ==> k in lt.leases
    ensures var after := if lt.leases[l].nodeId == node then done + [l] else done;
      RevokeTurn(RevocationOf(lt, log, node, done), node, l) == RevocationOf(lt, log, node, after)
  {
    RevokeAllOfIs(lt, done);
    if lt.leases[l].nodeId == node {
      assert (done + [l])[..|done|] == done;
      var ts, t := LeasedTasks(lt.leases, done), lt.leases[l].taskId;
      assert LeasedTasks(lt.leases, done + [l]) == ts + [t];
      RevokeEventsStep(ts, t, node, log);
    }
  }

  /** The revocation of the leases in `done`. */
  function RevocationOf(lt: LeaseTable, log: seq<RecoveryEvent>, node: Id, done: seq<Id>): Revocation
    requires forall k :: k in done ==> k in lt.leases
  {
    Revocation(RevokeAllOf(lt, done), LeasedTasks(lt.leases, done),
               log + RevokeEvents(LeasedTasks(lt.leases, done), node))
  }

  lemma RevokeEventsStep(ts: seq<Id>, t: Id, node: Id, log: seq<RecoveryEvent>)
    ensures log + RevokeEvents(ts + [t], node) ==
      (log + RevokeEvents(ts, node)) + [RecoveryEvent(t, node, LeaseRevoked, Done)]
  {
    assert RevokeEvents(ts + [t], node) == RevokeEvents(ts, node) + [RecoveryEvent(t, node, LeaseRevoked, Done)];
  }

  /** The active leases of a node after a scan are those of the node among the live ones. */
  lemma HeldAmongLive(lt: LeaseTable, node: Id, now: int)
    requires TableOk(lt)
    ensures var leases := ScanLeases(lt, now).leases;
      Filter(HeldBy(leases, node), Filter(IsLive(lt.leases, now), lt.ids)) == Filter(HeldBy(leases, node), lt.ids)
    ensures forall l :: l in Filter(IsLive(lt.leases, now), lt.ids) ==> IsActive(ScanLeases(lt, now).leases)(l)
  {
    var leases := ScanLeases(lt, now).leases;
    FilterFilter(IsLive(lt.leases, now), HeldBy(leases, node), HeldBy(leases, node), lt.ids);
  }

  function RevokeNode(s: System, node: Id, now: int): System {
    var scanned := Scan(s.leases, now);
    s.(leases := scanned.(table := RevokeAllOf(scanned.table, ToRevoke(s, node, now))),
       log := s.log + RevokeEvents(Orphans(s, node, now), node))
  }

  const NO_NODE := "no available node for reschedule"

  /** One orphan: back to ready, one scheduling pass, and failed if that gave it no node. */
  function RescheduleOne(s: System, t: Id): System {
    if t !in s.tasks then s
    else
      var s' := ScheduleAll(s.(tasks := Unassign(s.tasks, t)));
      if Truthy(s'.tasks[t].assignedTo)
      then s'.(log := s'.log + [RecoveryEvent(t, "", Rescheduled, Done)])
      else s'.(tasks := SetStatus(s'.tasks, t, Failed, NO_NODE),
               log := s'.log + [RecoveryEvent(t, "", MarkedFailed, Done)])
  }

  function RescheduleAll(s: System, orphans: seq<Id>): System {
    if orphans == [] then s else RescheduleOne(RescheduleAll(s, orphans[..|orphans| - 1]), orphans[|orphans| - 1])
  }

  /** Does rescheduling `t` now place it on a node? */
  predicate Placed(s: System, t: Id) {
    t in s.tasks && Truthy(RescheduleOne(s, t).tasks[t].assignedTo)
  }

  function PlacedCount(s: System, orphans: seq<Id>): nat {
    if orphans == [] then 0
    else
      PlacedCount(s, orphans[..|orphans| - 1]) +
      (if Placed(RescheduleAll(s, orphans[..|orphans| - 1]), orphans[|orphans| - 1]) then 1 else 0)
  }

  function RecoveryStatus(revoked: nat, placed: nat): RecoveryOutcome {
    if placed == revoked then Done else Partial
  }

  function Recover(s: System, node: Id, now: int): System {
    var orphans := Orphans(s, node, now);
    var revoked := RevokeNode(s, node, now);
    var rescheduled := RescheduleAll(revoked, orphans);
    rescheduled.(log := rescheduled.log +
      [RecoveryEvent("", node, FullRecovery, RecoveryStatus(|orphans|, PlacedCount(revoked, orphans)))])
  }
}
