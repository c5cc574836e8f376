/** What a recovery achieves, from end to end: where every orphaned task ends, what happens to
    all other tasks, and what the counts, the status and the log say about it. */
module RecoveryOutcome {
  import opened Types
  import opened Seqs
  import opened Workflow
  import opened Leases
  import opened Protocol
  import opened Exclusion

  /** How an orphan ends: assigned to its first fitting online node and running there, or, if
      there is no such node, assigned to none and failed. */
  ghost predicate Rehomed(reg: Registry, task: Task) {
    && task.assignedTo == FirstFit(reg, task.needs)
    && if Truthy(task.assignedTo) then task.status == Running
       else task.status == Failed && task.failReason == Some(NO_NODE)
  }

  predicate SameTask(a: Task, b: Task) {
    a.title == b.title && a.needs == b.needs && a.dependsOn == b.dependsOn
    && a.priority == b.priority && a.createdAt == b.createdAt
  }

  function Existing(ts: Tasks): Id -> bool {
    t => t in ts
  }

  function HasPlace(ts: Tasks, reg: Registry): Id -> bool {
    t => t in ts && Truthy(FirstFit(reg, ts[t].needs))
  }

  /** A task that is no orphan: scheduled along with the first orphan if it was ready and fits,
      otherwise untouched. */
  function Bystander(s: System, orphans: seq<Id>, t: Id): Task
    requires t in s.tasks
  {
    if Filter(Existing(s.tasks), orphans) != [] then Schedule(s.tasks, s.reg)[t] else s.tasks[t]
  }

  function OutcomeEvent(s: System, t: Id): RecoveryEvent {
    RecoveryEvent(t, "", if HasPlace(s.tasks, s.reg)(t) then Rescheduled else MarkedFailed, Done)
  }

  function OutcomeEvents(s: System, orphans: seq<Id>): seq<RecoveryEvent> {
    if orphans == [] then []
    else
      var t := orphans[|orphans| - 1];
      OutcomeEvents(s, orphans[..|orphans| - 1]) + (if t in s.tasks then [OutcomeEvent(s, t)] else [])
  }

  lemma OneOrphan(s: System, t: Id)
    requires t in s.tasks
    ensures var s' := RescheduleOne(s, t);
      && s'.reg == s.reg && s'.leases == s.leases && s'.tasks.Keys == s.tasks.Keys
      && SameTask(s.tasks[t], s'.tasks[t]) && Rehomed(s.reg, s'.tasks[t])
      && s'.log == s.log + [OutcomeEvent(s, t)]
      && (Placed(s, t) <==> HasPlace(s.tasks, s.reg)(t))
  {
    var ts := Unassign(s.tasks, t);
    assert Schedulable(ts, s.reg)(t) <==> FirstFit(s.reg, s.tasks[t].needs).Some?;
  }

  lemma OtherThanOrphan(s: System, t: Id, u: Id)
    requires t in s.tasks && u in s.tasks && u != t
    ensures u in RescheduleOne(s, t).tasks
    ensures RescheduleOne(s, t).tasks[u] == Schedule(s.tasks, s.reg)[u]
  {
    var ts := Unassign(s.tasks, t);
    assert ts[u] == s.tasks[u];
    assert Schedule(ts, s.reg)[u] == Schedule(s.tasks, s.reg)[u];
  }

  /** The state between two orphans. */
  ghost predicate Midway(s: System, orphans: seq<Id>, s': System) {
    && s'.reg == s.reg && s'.leases == s.leases && s'.tasks.Keys == s.tasks.Keys
    && (forall t :: t in s.tasks && t in orphans ==> SameTask(s.tasks[t], s'.tasks[t]) && Rehomed(s.reg, s'.tasks[t]))
    && (forall t :: t in s.tasks && t !in orphans ==> s'.tasks[t] == Bystander(s, orphans, t))
    && s'.log == s.log + OutcomeEvents(s, orphans)
  }

  lemma ScheduleOnce(ts: Tasks, reg: Registry, now: Tasks, t: Id)
    requires t in ts && t in now && (now[t] == ts[t] || now[t] == Schedule(ts, reg)[t])
    ensures Schedule(now, reg)[t] == Schedule(ts, reg)[t]
  {
    if now[t] != ts[t] { assert now[t].needs == ts[t].needs; }
  }

  lemma BystanderNext(s: System, orphans: seq<Id>, o: Id, t: Id)
    requires t in s.tasks
    ensures o in s.tasks ==> Bystander(s, orphans + [o], t) == Schedule(s.tasks, s.reg)[t]
    ensures o !in s.tasks ==> Bystander(s, orphans + [o], t) == Bystander(s, orphans, t)
  {
    assert (orphans + [o])[..|orphans|] == orphans;
  }

  lemma MidwayStep(s: System, front: seq<Id>, mid: System, t: Id)
    requires Midway(s, front, mid)
    ensures Midway(s, front + [t], RescheduleOne(mid, t))
    ensures Placed(mid, t) <==> HasPlace(s.tasks, s.reg)(t)
  {
    var all, s' := front + [t], RescheduleOne(mid, t);
    MidwayFrame(s, front, mid, t);
    forall u | u in s.tasks && u in all ensures SameTask(s.tasks[u], s'.tasks[u]) && Rehomed(s.reg, s'.tasks[u]) {
      MidwayOrphan(s, front, mid, t, u);
    }
    forall u | u in s.tasks && u !in all ensures s'.tasks[u] == Bystander(s, all, u) {
      MidwayBystander(s, front, mid, t, u);
    }
  }

  lemma OutcomeEventsNext(s: System, log: seq<RecoveryEvent>, front: seq<Id>, t: Id)
    ensures log + OutcomeEvents(s, front + [t]) ==
      (log + OutcomeEvents(s, front)) + (if t in s.tasks then [OutcomeEvent(s, t)] else [])
  {
    assert (front + [t])[..|front|] == front;
  }

  lemma MidwayPlace(s: System, front: seq<Id>, mid: System, t: Id)
    requires Midway(s, front, mid)
    ensures HasPlace(mid.tasks, mid.reg)(t) <==> HasPlace(s.tasks, s.reg)(t)
  {
    if t in s.tasks { MidwayNeeds(s, front, mid, t); }
  }

  lemma MidwayFrame(s: System, front: seq<Id>, mid: System, t: Id)
    requires Midway(s, front, mid)
    ensures var s' := RescheduleOne(mid, t);
      && s'.reg == s.reg && s'.leases == s.leases && s'.tasks.Keys == s.tasks.Keys
      && s'.log == s.log + OutcomeEvents(s, front + [t])
      && (Placed(mid, t) <==> HasPlace(s.tasks, s.reg)(t))
  {
    OutcomeEventsNext(s, s.log, front, t);
    MidwayPlace(s, front, mid, t);
    if t in mid.tasks { OneOrphan(mid, t); }
  }

  lemma MidwayOrphan(s: System, front: seq<Id>, mid: System, t: Id, u: Id)
    requires Midway(s, front, mid) && u in s.tasks && u in front + [t]
    ensures u in RescheduleOne(mid, t).tasks
    ensures SameTask(s.tasks[u], RescheduleOne(mid, t).tasks[u]) && Rehomed(s.reg, RescheduleOne(mid, t).tasks[u])
  {
    if t in s.tasks {
      MidwayNeeds(s, front, mid, u);
      if u == t {
        OneOrphan(mid, t);
      } else {
        OtherThanOrphan(mid, t, u);
      }
    }
  }

  lemma MidwayBystander(s: System, front: seq<Id>, mid: System, t: Id, u: Id)
    requires Midway(s, front, mid) && u in s.tasks && u !in front + [t]
    ensures u in RescheduleOne(mid, t).tasks
    ensures RescheduleOne(mid, t).tasks[u] == Bystander(s, front + [t], u)
  {
    assert u !in front && u != t;
    BystanderNext(s, front, t, u);
    if t in s.tasks {
      OtherThanOrphan(mid, t, u);
      ScheduleOnce(s.tasks, s.reg, mid.tasks, u);
    }
  }

  lemma MidwayNeeds(s: System, front: seq<Id>, mid: System, t: Id)
    requires Midway(s, front, mid) && t in s.tasks
    ensures SameTask(s.tasks[t], mid.tasks[t])
  {
    if t !in front { assert mid.tasks[t] == Bystander(s, front, t); }
  }

  lemma {:induction false} RescheduleAllOutcome(s: System, orphans: seq<Id>)
    ensures Midway(s, orphans, RescheduleAll(s, orphans))
    ensures PlacedCount(s, orphans) == |Filter(HasPlace(s.tasks, s.reg), orphans)|
  {
    if orphans == [] {
    } else {
      var front, t := orphans[..|orphans| - 1], orphans[|orphans| - 1];
      assert orphans == front + [t];
      RescheduleAllOutcome(s, front);
      MidwayStep(s, front, RescheduleAll(s, front), t);
    }
  }

  /** Recovery of a node that is not online, end to end. The node keeps no active lease. Every
      existing task whose lease was revoked ends running on the first fitting online node, which is
      another node, or failed. Every other task is scheduled as usual, or not touched. */
  lemma RecoveryEndToEnd(s: System, node: Id, now: int)
    requires TableOk(s.leases.table) && !IsOnline(s.reg)(node)
    ensures var s', orphans := Recover(s, node, now), Orphans(s, node, now);
      && s'.tasks.Keys == s.tasks.Keys
      && (forall l :: IsActive(s'.leases.table.leases)(l) ==> s'.leases.table.leases[l].nodeId != node)
      && (forall t :: t in s.tasks && t in orphans ==>
            SameTask(s.tasks[t], s'.tasks[t]) && Rehomed(s.reg, s'.tasks[t]) && s'.tasks[t].assignedTo != Some(node))
      && (forall t :: t in s.tasks && t !in orphans ==> s'.tasks[t] == Bystander(s, orphans, t))
  {
    var s1, orphans := RevokeNode(s, node, now), Orphans(s, node, now);
    var s2 := RescheduleAll(s1, orphans);
    RescheduleAllOutcome(s1, orphans);
    NodeLeftEmpty(s, node, now);
    forall t | t in s.tasks && t in orphans ensures s2.tasks[t].assignedTo != Some(node) {
      RehomedElsewhere(s.reg, s2.tasks[t], node);
    }
    forall t | t in s.tasks && t !in orphans ensures s2.tasks[t] == Bystander(s, orphans, t) {
      BystanderCarries(s, s1, orphans, t);
    }
  }

  lemma RehomedElsewhere(reg: Registry, task: Task, node: Id)
    requires Rehomed(reg, task) && !IsOnline(reg)(node)
    ensures task.assignedTo != Some(node)
  {
    FirstFitIsFirst(reg, task.needs);
  }

  lemma BystanderCarries(s: System, s1: System, orphans: seq<Id>, t: Id)
    requires s.tasks == s1.tasks && s.reg == s1.reg && t in s.tasks
    ensures Bystander(s1, orphans, t) == Bystander(s, orphans, t)
  {
  }

  /** The count of rescheduled tasks is the number of list entries with a fitting online node, the
      status is complete just when that is all of them, and the log tells exactly this. */
  lemma RecoveryIsLogged(s: System, node: Id, now: int)
    ensures var orphans := Orphans(s, node, now);
      var placed := |Filter(HasPlace(s.tasks, s.reg), orphans)|;
      && PlacedCount(RevokeNode(s, node, now), orphans) == placed
      && Recover(s, node, now).log == s.log + RevokeEvents(orphans, node) + OutcomeEvents(s, orphans)
           + [RecoveryEvent("", node, FullRecovery, if placed == |orphans| then Done else Partial)]
  {
    var s1, orphans := RevokeNode(s, node, now), Orphans(s, node, now);
    RescheduleAllOutcome(s1, orphans);
    OutcomeEventsCarry(s, s1, orphans);
  }

  lemma {:induction false} OutcomeEventsCarry(s: System, s1: System, orphans: seq<Id>)
    requires s.tasks == s1.tasks && s.reg == s1.reg
    ensures OutcomeEvents(s1, orphans) == OutcomeEvents(s, orphans)
  {
    if orphans != [] { OutcomeEventsCarry(s, s1, orphans[..|orphans| - 1]); }
  }

  lemma NodeLeftEmpty(s: System, node: Id, now: int)
    requires TableOk(s.leases.table)
    ensures var leases := RevokeNode(s, node, now).leases.table.leases;
      forall l :: IsActive(leases)(l) ==> leases[l].nodeId != node
  {
    var scanned, ids := Scan(s.leases, now).table, ToRevoke(s, node, now);
    var leases := RevokeNode(s, node, now).leases.table.leases;
    RevokeAllOfIs(scanned, ids);
    forall l | IsActive(leases)(l) ensures leases[l].nodeId != node {
      assert l !in ids && leases[l] == scanned.leases[l];
      assert l in scanned.ids;
    }
  }

  /** How many events of one kind the log of the rescheduling holds. */
  function CountAction(events: seq<RecoveryEvent>, action: RecoveryAction): nat {
    if events == [] then 0
    else CountAction(events[..|events| - 1], action) + (if events[|events| - 1].action == action then 1 else 0)
  }

  lemma CountOneMore(events: seq<RecoveryEvent>, e: RecoveryEvent, action: RecoveryAction)
    ensures CountAction(events + [e], action) == CountAction(events, action) + (if e.action == action then 1 else 0)
  {
    assert (events + [e])[..|events|] == events;
  }

  /** One event per existing orphan: as many "rescheduled" as were placed, the rest "marked failed". */
  lemma {:induction false} EventsMatchCounts(s: System, orphans: seq<Id>)
    ensures CountAction(OutcomeEvents(s, orphans), Rescheduled) == |Filter(HasPlace(s.tasks, s.reg), orphans)|
    ensures CountAction(OutcomeEvents(s, orphans), MarkedFailed) ==
      |Filter(Existing(s.tasks), orphans)| - |Filter(HasPlace(s.tasks, s.reg), orphans)|
    ensures |OutcomeEvents(s, orphans)| == |Filter(Existing(s.tasks), orphans)|
  {
    if orphans != [] {
      var front, t := orphans[..|orphans| - 1], orphans[|orphans| - 1];
      EventsMatchCounts(s, front);
      assert orphans == front + [t];
      if t in s.tasks {
        CountOneMore(OutcomeEvents(s, front), OutcomeEvent(s, t), Rescheduled);
        CountOneMore(OutcomeEvents(s, front), OutcomeEvent(s, t), MarkedFailed);
      } else {
        assert OutcomeEvents(s, orphans) == OutcomeEvents(s, front);
      }
    }
  }

  /** On the reachable states each orphan exists and is listed once, so the list of orphans is the
      list of tasks the node held. */
  lemma OrphansAreHeldTasks(s: System, node: Id, now: int)
    requires Exclusive(s)
    ensures Distinct(Orphans(s, node, now))
    ensures forall t :: t in Orphans(s, node, now) ==> t in s.tasks && s.tasks[t].assignedTo == Some(node)
    ensures |Orphans(s, node, now)| == |ToRevoke(s, node, now)|
  {
    var s1, ids := s.(leases := Scan(s.leases, now)), ToRevoke(s, node, now);
    var leases := s1.leases.table.leases;
    ScanKeeps(s, now);
    FilterDistinct(HeldBy(leases, node), s.leases.table.ids);
    forall i, j | 0 <= i < j < |ids| ensures leases[ids[i]].taskId != leases[ids[j]].taskId {
      assert ids[i] in ids && ids[j] in ids;
    }
    forall i | 0 <= i < |ids|
      ensures leases[ids[i]].taskId in s.tasks && s.tasks[leases[ids[i]].taskId].assignedTo == Some(node)
    {
      assert ids[i] in ids && Backed(s1, ids[i]);
    }
  }

  // ---------------------------------------------------------------------------------------------
  // Which tasks a recovery reaches
  // ---------------------------------------------------------------------------------------------

  /** At `now`, task `t` has a lease on `node` that is active and not overdue. */
  ghost predicate LiveLeaseOn(s: System, node: Id, now: int, t: Id) {
    var lt := s.leases.table;
    exists l :: l in lt.ids && IsLive(lt.leases, now)(l) && lt.leases[l].nodeId == node && lt.leases[l].taskId == t
  }

  /** The tasks that a recovery of `node` revokes are exactly those with a live lease on it. */
  lemma OrphanIff(s: System, node: Id, now: int, t: Id)
    ensures t in Orphans(s, node, now) <==> LiveLeaseOn(s, node, now, t)
  {
    var lt, ids := s.leases.table, ToRevoke(s, node, now);
    if t in Orphans(s, node, now) {
      var l := OrphanHasLease(s, node, now, t);
      assert l in lt.ids && IsLive(lt.leases, now)(l);
    }
    if LiveLeaseOn(s, node, now, t) {
      var l :| l in lt.ids && IsLive(lt.leases, now)(l) && lt.leases[l].nodeId == node && lt.leases[l].taskId == t;
      assert HeldBy(ScanLeases(lt, now).leases, node)(l) && l in ids;
      var i :| 0 <= i < |ids| && ids[i] == l;
      assert Orphans(s, node, now)[i] == t;
    }
  }

  lemma UnleasedIsNoOrphan(s: System, node: Id, now: int, t: Id)
    requires Unleased(s, t)
    ensures t !in Orphans(s, node, now) && !LiveLeaseOn(s, node, now, t)
  {
    OrphanIff(s, node, now, t);
  }

  /** Only a live lease makes a task recoverable: the recovery of a node changes a running task if
      and only if the task has a live lease on it. */
  lemma RunningTaskTouchedIffLeased(s: System, node: Id, now: int, t: Id)
    requires t in s.tasks && s.tasks[t].status == Running
    ensures t in Recover(s, node, now).tasks
    ensures Recover(s, node, now).tasks[t] != s.tasks[t] <==> LiveLeaseOn(s, node, now, t)
  {
    var s1, orphans := RevokeNode(s, node, now), Orphans(s, node, now);
    OrphanIff(s, node, now, t);
    RescheduleAllOutcome(s1, orphans);
    OrphanVersionGrows(s1, orphans, t);
    if t !in orphans {
      assert RescheduleAll(s1, orphans).tasks[t] == Bystander(s1, orphans, t);
    }
  }

  /** So a task running on a lost node stays there exactly when it has no live lease on it: for
      instance because its lease is overdue, whether or not a scan has noticed. */
  lemma StaysOnLostNodeIff(s: System, node: Id, now: int, t: Id)
    requires TableOk(s.leases.table) && !IsOnline(s.reg)(node)
    requires t in s.tasks && s.tasks[t].status == Running && s.tasks[t].assignedTo == Some(node)
    ensures var s' := Recover(s, node, now);
      t in s'.tasks &&
      (s'.tasks[t].status == Running && s'.tasks[t].assignedTo == Some(node) <==> !LiveLeaseOn(s, node, now, t))
  {
    OrphanIff(s, node, now, t);
    RunningTaskTouchedIffLeased(s, node, now, t);
    if LiveLeaseOn(s, node, now, t) { RecoveryEndToEnd(s, node, now); }
  }

  /** A failed task runs again after a recovery exactly when it has a live lease on the lost node
      and some online node fits it; otherwise it is still failed. */
  lemma FailedTaskRevivedIff(s: System, node: Id, now: int, t: Id)
    requires TableOk(s.leases.table) && !IsOnline(s.reg)(node)
    requires t in s.tasks && s.tasks[t].status == Failed
    ensures var s' := Recover(s, node, now);
      var revived := LiveLeaseOn(s, node, now, t) && Truthy(FirstFit(s.reg, s.tasks[t].needs));
      && t in s'.tasks
      && (s'.tasks[t].status == Running <==> revived)
      && (s'.tasks[t].status == Failed <==> !revived)
  {
    OrphanIff(s, node, now, t);
    RecoveryEndToEnd(s, node, now);
  }

  /** A recovered task runs without a lease: it has no active one after the recovery, so the later
      loss of any node, its new one included, leaves it as it is. */
  lemma SecondLossIsNotRecovered(s: System, node: Id, now: int, t: Id, reg: Registry, lost: Id, later: int)
    requires Exclusive(s) && !IsOnline(s.reg)(node)
    requires LiveLeaseOn(s, node, now, t) && t in s.tasks && Truthy(FirstFit(s.reg, s.tasks[t].needs))
    ensures var s' := Recover(s, node, now).(reg := reg);
      && Unleased(s', t)
      && t in s'.tasks && s'.tasks[t].status == Running && s'.tasks[t].assignedTo == FirstFit(s.reg, s.tasks[t].needs)
      && t in Recover(s', lost, later).tasks && Recover(s', lost, later).tasks[t] == s'.tasks[t]
  {
    var s' := Recover(s, node, now).(reg := reg);
    OrphanIff(s, node, now, t);
    RecoveryEndToEnd(s, node, now);
    OrphansUnleased(s, node, now, t);
    RescheduleAllOutcome(RevokeNode(s, node, now), Orphans(s, node, now));
    UnleasedIsNoOrphan(s', lost, later, t);
    RunningTaskTouchedIffLeased(s', lost, later, t);
  }

  lemma VersionsNeverFall(s: System, o: Id, t: Id)
    requires t in s.tasks
    ensures t in RescheduleOne(s, o).tasks
    ensures RescheduleOne(s, o).tasks[t].version >= s.tasks[t].version + (if o == t then 1 else 0)
  {
  }

  lemma {:induction false} OrphanVersionGrows(s: System, orphans: seq<Id>, t: Id)
    requires t in s.tasks
    ensures t in RescheduleAll(s, orphans).tasks
    ensures RescheduleAll(s, orphans).tasks[t].version >= s.tasks[t].version + (if t in orphans then 1 else 0)
  {
    if orphans != [] {
      var front := orphans[..|orphans| - 1];
      OrphanVersionGrows(s, front, t);
      VersionsNeverFall(RescheduleAll(s, front), orphans[|orphans| - 1], t);
    }
  }
}
