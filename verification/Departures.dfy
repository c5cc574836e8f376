/** Concrete inputs on which the code departs from its comments or its specification. The exact
    conditions are proved elsewhere and named with each lemma. */
module Departures {
  import opened Types
  import opened Seqs
  import opened Workflow
  import opened Leases
  import opened Protocol
  import opened Runs
  import opened Exclusion
  import G = Graph
  import C = Containment
  import F = FullSync
  import O = RecoveryOutcome
  import R = RowStore
  import T = TriggerChain
  import Y = SyncGate

  const READY_TASK := Task("", [], [], 3, Ready, None, 0, 1, None)

  const HELD_TASK := READY_TASK.(status := Running, assignedTo := Some("a"), version := 3)

  const HELD_TABLE := LeaseTable(["l1"], map["l1" := Lease("t", "a", 0, 60, Active)], map["t" := "l1"])

  function ReadyState(): System {
    EmptySystem(Registry([], map[])).(ids := ["t"], tasks := map["t" := READY_TASK])
  }

  /** One task, claimed by node a. */
  function HeldState(): System {
    System(["t"], map["t" := HELD_TASK], [], Registry([], map[]), LeaseState(HELD_TABLE, Stats(1, 0, 0, [], [])), [], 0)
  }

  lemma HeldStateIsClaimed()
    ensures HeldState() == Claim(ReadyState(), "t", "a", "l1", 60, 0)
  {
    assert ReadyState().tasks["t" := HandedOver(READY_TASK, "a")] == map["t" := HELD_TASK];
    assert CreateLease(ReadyState().leases.table, "l1", "t", "a", 60, 0) == HELD_TABLE;
  }

  lemma HeldStateIsExclusive()
    ensures Exclusive(HeldState())
  {
    HeldStateIsClaimed();
    ReadyStateIsExclusive();
    ClaimKeeps(ReadyState(), "t", "a", "l1", 60, 0);
  }

  lemma ReadyStateIsExclusive()
    ensures Exclusive(ReadyState())
  {
  }

  lemma HeldIsLeased()
    ensures !Unleased(HeldState(), "t")
  {
    assert HELD_TABLE.leases["l1"].status == Active;
  }

  /** Advancing a claimed task leaves its lease active while the task is ready again
      (`AdvanceKeepsExactly`). */
  lemma AdvanceBreaksExclusion()
    ensures Exclusive(HeldState()) && !Exclusive(Advance(HeldState(), "t"))
  {
    HeldStateIsExclusive();
    HeldIsLeased();
    assert FirstFit(Registry([], map[]), []) == None;
    AdvanceKeepsExactly(HeldState(), "t");
  }

  /** A second lease for a task that another node holds is granted (`GrantKeepsExactly`). */
  lemma SecondLeaseIsGranted()
    ensures var s := Next(HeldState(), DoLeaseGrant("l2", "t", "b", 60), 0);
      && ActiveFor(s.leases.table.leases, "t")("l1") && ActiveFor(s.leases.table.leases, "t")("l2")
      && s.leases.table.leases["l1"].nodeId != s.leases.table.leases["l2"].nodeId
  {
  }

  /** A claim by an empty node id fails, but leaves the task running without a lease
      (`ClaimUnleasedIff`). */
  lemma EmptyClaimLeavesTaskRunning()
    ensures var s := Claim(ReadyState(), "t", "", "l1", 60, 0);
      "t" in s.tasks && s.tasks["t"].status == Running && Unleased(s, "t") && s.leases.table.ids == []
  {
  }

  /** Two leases as two creations leave them. */
  function TwoLeases(): LeaseState {
    var start := LeaseState(LeaseTable([], map[], map[]), Stats(0, 0, 0, [], []));
    Create(Create(start, "l1", "t", "a", 60, 0), "l2", "u", "a", 30, 0)
  }

  /** Extending a live lease while another one is overdue waits for its own lock; `Extend` of the
      lease manager states exactly when. */
  lemma ExtensionCanHang()
    ensures IsLive(TwoLeases().table.leases, 40)("l1") && ExtendHangs(TwoLeases(), "l1", 40)
  {
    var lt := TwoLeases().table;
    assert lt.ids == ["l1", "l2"] && lt.leases["l2"] == Lease("u", "a", 0, 30, Active);
    assert "l2" in lt.ids && IsOverdue(lt.leases, 40)("l2");
    assert "l2" in Overdue(lt, 40);
  }

  /** A task whose lease is overdue, though still marked active, stays running on its lost node
      (`StaysOnLostNodeIff`). */
  lemma OverdueTaskIsNotRecovered(now: int)
    requires now >= 60
    ensures var s := HeldState().(reg := ONE_NODE);
      && HELD_TABLE.leases["l1"].status == Active
      && "t" in Recover(s, "a", now).tasks && Recover(s, "a", now).tasks["t"] == HELD_TASK
  {
    var s := HeldState().(reg := ONE_NODE);
    assert !O.LiveLeaseOn(s, "a", now, "t") by {
      assert forall l :: l in HELD_TABLE.ids ==> l == "l1";
    }
    O.RunningTaskTouchedIffLeased(s, "a", now, "t");
  }

  const ONE_NODE := Registry(["b"], map["b" := Node([], Online, 0, 0.0)])

  lemma OneNodeFits()
    ensures FirstFit(ONE_NODE, []) == Some("b")
  {
    assert Fits(ONE_NODE, [])("b");
    assert "b" in Filter(Fits(ONE_NODE, []), ONE_NODE.ids);
  }

  function FailedHolder(): System {
    Fail(HeldState().(reg := ONE_NODE), "t", "")
  }

  lemma FailedHolderIs()
    ensures FailedHolder().tasks == map["t" := HELD_TASK.(status := Failed, version := 4)]
    ensures FailedHolder().leases.table == HELD_TABLE && FailedHolder().reg == ONE_NODE
  {
  }

  /** A failed task keeps its lease, and the recovery of its node runs it again elsewhere
      (`FailedTaskRevivedIff`). */
  lemma RecoveryRevivesFailedTask(now: int)
    requires now < 60
    ensures var s := Recover(FailedHolder(), "a", now);
      && "t" in FailedHolder().tasks && FailedHolder().tasks["t"].status == Failed
      && "t" in s.tasks && s.tasks["t"].status == Running && s.tasks["t"].assignedTo == Some("b")
  {
    var failed := FailedHolder();
    FailedHolderIs();
    OneNodeFits();
    assert "l1" in HELD_TABLE.ids && IsLive(HELD_TABLE.leases, now)("l1");
    assert O.LiveLeaseOn(failed, "a", now, "t");
    O.FailedTaskRevivedIff(failed, "a", now, "t");
    O.OrphanIff(failed, "a", now, "t");
    O.RecoveryEndToEnd(failed, "a", now);
  }

  lemma FailedHolderIsStuck()
    ensures C.Stuck(FailedHolder().tasks, {"t"}) && AdvanceAccepted(FailedHolder(), "t")
    ensures Releasable(FailedHolder(), "t", "a")
  {
    FailedHolderIs();
  }

  /** A failed task is also freed by an advance, by a release of its holder and by its completion
      (`StepKeepsStuck`). */
  lemma FailedTaskIsFreed()
    ensures var s, c := FailedHolder(), {"t"};
      && C.Stuck(s.tasks, c)
      && !C.Stuck(Next(s, DoAdvance("t"), 0).tasks, c) && !C.Stuck(Next(s, DoRelease("t", "a", ""), 0).tasks, c)
      && !C.Stuck(Next(s, DoComplete("t"), 0).tasks, c)
  {
    FailedHolderIsStuck();
    C.StepKeepsStuck(FailedHolder(), DoAdvance("t"), 0, {"t"});
    C.StepKeepsStuck(FailedHolder(), DoRelease("t", "a", ""), 0, {"t"});
    C.StepKeepsStuck(FailedHolder(), DoComplete("t"), 0, {"t"});
  }

  /** New dependencies free a pending task from a missing one, and so does creating that one. */
  lemma MissingDependencyIsFreed()
    ensures var t := READY_TASK.(status := Pending, dependsOn := ["u"]);
      var s, c := ReadyState().(tasks := map["t" := t]), {"t"};
      && C.Stuck(s.tasks, c)
      && !C.Stuck(SetDeps(s, "t", []).tasks, c) && !C.Stuck(Submit(s, "u", "", [], 3, 0).tasks, c)
  {
    var t := READY_TASK.(status := Pending, dependsOn := ["u"]);
    var s, c := ReadyState().(tasks := map["t" := t]), {"t"};
    assert "u" in s.tasks["t"].dependsOn;
    C.OneWriteKeepsStuckIff(s, DoSetDeps("t", []), 0, c);
    C.SubmitKeepsStuckIff(s, "u", "", [], 3, 0, c);
    assert !C.HeldWithout(s.tasks, s.tasks["t"], "u", c);
  }

  /** Setting dependencies on a ready task leaves it ready in memory, and demotes it in the row store
      (`StoresAgreeIff`). */
  lemma ReadyTaskIsDemotedInRowsOnly()
    ensures var ts, op := map["t" := READY_TASK], R.DoDepend("t", ["u"]);
      R.InMemory(ts, op)["t"].status == Ready && R.InRows(ts, op)["t"].status == Pending
  {
  }

  /** Submitting an id again makes the row store promote its task past an open dependency
      (`StoresAgreeIff`). */
  lemma ResubmissionSkipsDependencies()
    ensures var ts := map["t" := READY_TASK.(status := Pending, dependsOn := ["u"])];
      var after := R.InRows(ts, R.DoSubmit("t", "", [], 3, 0));
      "t" in after && after["t"].status == Ready && after["t"].dependsOn == ["u"]
  {
  }

  /** A task may come to depend on itself; it is then a cycle (`FinishesIffNoCircle`). */
  lemma SelfDependencyIsAccepted()
    ensures var s := SetDeps(ReadyState(), "t", ["t"]);
      G.Cycle(s.tasks, ["t", "t"])
  {
  }

  /** A snapshot does not carry dependencies: the task arrives without them, stays so, and a rescan
      at the receiver makes it ready past the open one (`TaskEndsEqualIff`). */
  lemma SnapshotLosesDependencies(n: nat, now: int)
    requires n >= 3
    ensures var task := READY_TASK.(status := Pending, dependsOn := ["d"]);
      var p, created := F.Pair(Some(task), None), F.Created(task, now);
      && F.Agree(F.SendAll(p, F.Rounds(n + 1), now)) && !F.Equal(F.SendAll(p, F.Rounds(n + 1), now))
      && Promote(map["t" := created])["t"].status == Ready && Promote(map["t" := task])["t"].status == Pending
  {
    var task := READY_TASK.(status := Pending, dependsOn := ["d"]);
    var p := F.Pair(Some(task), None);
    F.ExchangeConvergesIff(p, n + 1, now);
    F.TaskEndsEqualIff(p, n + 1, now);
    assert "d" in task.dependsOn && "d" !in map["t" := task];
  }

  function Waits(deps: seq<Id>): Task {
    READY_TASK.(status := Pending, dependsOn := deps)
  }

  function Ring(): Tasks {
    map["r" := Waits(["m"]), "a" := Waits(["r"]), "n" := Waits(["a", "r"]), "m" := Waits(["n"])]
  }

  lemma FilterSnoc(p: Id -> bool, s: seq<Id>, x: Id)
    ensures Filter(p, s + [x]) == Filter(p, s) + (if p(x) then [x] else [])
  {
    assert (s + [x])[..|s|] == s;
  }

  lemma FilterFour(p: Id -> bool, a: Id, b: Id, c: Id, d: Id)
    ensures Filter(p, [a, b, c, d]) ==
      (if p(a) then [a] else []) + (if p(b) then [b] else []) + (if p(c) then [c] else []) + (if p(d) then [d] else [])
  {
    FilterSnoc(p, [], a);
    FilterSnoc(p, [] + [a], b);
    FilterSnoc(p, [] + [a] + [b], c);
    FilterSnoc(p, [] + [a] + [b] + [c], d);
    assert [] + [a] + [b] + [c] + [d] == [a, b, c, d];
  }

  lemma RingDependents(x: Id)
    requires x in Ring()
    ensures Dependents(["r", "a", "n", "m"], Ring(), x) ==
      if x == "r" then ["a", "n"] else if x == "a" then ["n"] else if x == "n" then ["m"] else ["r"]
  {
    var p := DependsOn(Ring(), x);
    FilterFour(p, "r", "a", "n", "m");
    assert p("r") == (x == "m") && p("a") == (x == "r") && p("n") == (x == "a" || x == "r") && p("m") == (x == "n");
  }

  /** A trigger chain of depth 3 misses an id that is reached by 3 edges; `DeepEnough` is what keeps
      a chain complete. */
  lemma ChainMissesNearTask()
    ensures T.Near(Ring(), "r", "r", 3)
    ensures "r" !in T.Walk(Ring(), ["r", "a", "n", "m"], "r", 0, 3, {}, []).1
  {
    var ids := ["r", "a", "n", "m"];
    RingDependents("r");
    RingDependents("a");
    RingDependents("n");
    RingDependents("m");
    T.SharedTaskCutsChain(Ring(), ids, "r", "a", "n", "m", "r");
  }

  /** Two replicas with a task at the same version and different statuses never agree
      (`ExchangeConvergesIff`). */
  lemma EqualVersionsStayTorn(way: seq<bool>, now: int)
    ensures !F.Agree(F.SendAll(F.Pair(Some(READY_TASK), Some(READY_TASK.(status := Running))), way, now))
  {
    F.FixedForever(F.Pair(Some(READY_TASK), Some(READY_TASK.(status := Running))), way, now);
  }
}
