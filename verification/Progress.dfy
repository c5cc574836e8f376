/** After one rescan and one scheduling pass, completions alone drive the workflow to its end:
    they never run out while work is left, exactly when no pending tasks wait in a circle. */
module Progress {
  import opened Types
  import opened Seqs
  import opened Workflow
  import opened Leases
  import opened Protocol
  import opened Graph
  import opened Containment

  ghost function Incomplete(ts: Tasks): set<Id> {
    set t | t in ts && ts[t].status != Completed
  }

  ghost function PendingSet(ts: Tasks): set<Id> {
    set t | t in ts && ts[t].status == Pending
  }

  predicate Flowing(status: TaskStatus) {
    status == Pending || status == Ready || status == Running || status == Completed
  }

  /** Every dependency exists, nothing is failed, blocked or assigned, and the registry has a
      fitting node for every task. */
  ghost predicate Served(ts: Tasks, reg: Registry) {
    && (forall t :: t in ts ==> Flowing(ts[t].status))
    && (forall t {:trigger FirstFit(reg, ts[t].needs)} :: t in ts ==> FirstFit(reg, ts[t].needs).Some?)
    && (forall t, d :: t in ts && d in ts[t].dependsOn ==> d in ts)
  }

  ghost predicate PendingCircle(ts: Tasks) {
    exists p :: Cycle(ts, p) && Within(p, PendingSet(ts))
  }

  /** Between completions: served, nothing ready, and a rescan would promote nothing. */
  ghost predicate Settled(ts: Tasks, reg: Registry) {
    Served(ts, reg) && Quiet(ts) && forall t :: t in ts ==> ts[t].status != Ready
  }

  function Start(ts: Tasks, reg: Registry): Tasks {
    Schedule(Promote(ts), reg)
  }

  /** What completing `x` does to the task table. */
  function Completing(ts: Tasks, reg: Registry, x: Id): Tasks {
    Schedule(Downstream(SetStatus(ts, x, Completed, ""), x), reg)
  }

  lemma CompletingIsComplete(s: System, x: Id)
    requires x in s.tasks
    ensures Complete(s, x).tasks == Completing(s.tasks, s.reg, x)
  {
  }

  lemma StartSettles(ts: Tasks, reg: Registry)
    requires Served(ts, reg)
    ensures Settled(Start(ts, reg), reg)
    ensures Incomplete(Start(ts, reg)) == Incomplete(ts)
    ensures PendingSet(Start(ts, reg)) <= PendingSet(ts)
    ensures Start(ts, reg).Keys == ts.Keys
    ensures forall t :: t in ts ==> Start(ts, reg)[t].dependsOn == ts[t].dependsOn
  {
    var ts1, ts2 := Promote(ts), Start(ts, reg);
    PromoteReachesFixpoint(ts, []);
    forall t | t in ts
      ensures Flowing(ts2[t].status) && ts2[t].status != Ready && ts2[t].needs == ts[t].needs
      ensures ts2[t].dependsOn == ts[t].dependsOn && (ts2[t].status == Completed <==> ts[t].status == Completed)
      ensures ts2[t].status == Pending ==> ts1[t] == ts2[t] && ts[t] == ts1[t]
    {
      assert ts1[t].needs == ts[t].needs;
    }
    QuietCarries(ts1, ts2);
  }

  /** Quietness only depends on which tasks are pending and which are completed. */
  lemma QuietCarries(ts: Tasks, ts': Tasks)
    requires Quiet(ts) && ts.Keys == ts'.Keys
    requires forall t :: t in ts ==>
      (&& ts'[t].dependsOn == ts[t].dependsOn
       && (ts'[t].status == Pending ==> ts[t].status == Pending)
       && (ts'[t].status == Completed ==> ts[t].status == Completed))
    ensures Quiet(ts')
  {
    forall t ensures !Promotable(ts')(t) {
      assert !Promotable(ts)(t);
      if t in ts && DepsDone(ts', ts'[t].dependsOn) { assert DepsDone(ts, ts[t].dependsOn); }
    }
  }

  /** What completing running task `x` does to any one task. */
  lemma CompletingEffect(ts: Tasks, reg: Registry, x: Id, t: Id)
    requires x in ts && ts[x].status == Running && t in ts
    ensures var down, after := Downstream(SetStatus(ts, x, Completed, ""), x), Completing(ts, reg, x);
      && t in down && t in after
      && after[t].needs == ts[t].needs && after[t].dependsOn == down[t].dependsOn == ts[t].dependsOn
      && (after[t].status == Completed <==> ts[t].status == Completed || t == x)
      && (after[t].status == Pending ==> down[t].status == Pending && ts[t].status == Pending)
      && (after[t].status == Completed ==> down[t].status == Completed)
      && (Flowing(ts[t].status) && FirstFit(reg, ts[t].needs).Some? ==>
            Flowing(after[t].status) && after[t].status != Ready)
  {
    var down := Downstream(SetStatus(ts, x, Completed, ""), x);
    assert down[t].needs == ts[t].needs;
  }

  lemma CompletingStaysQuiet(ts: Tasks, reg: Registry, x: Id)
    requires Quiet(ts) && x in ts && ts[x].status == Running
    ensures Quiet(Completing(ts, reg, x))
  {
    DownstreamAgreesWithRescan(ts, x);
    forall t | t in ts
      ensures var down, after := Downstream(SetStatus(ts, x, Completed, ""), x), Completing(ts, reg, x);
        && after[t].dependsOn == down[t].dependsOn
        && (after[t].status == Pending ==> down[t].status == Pending)
        && (after[t].status == Completed ==> down[t].status == Completed)
    {
      CompletingEffect(ts, reg, x, t);
    }
    QuietCarries(Downstream(SetStatus(ts, x, Completed, ""), x), Completing(ts, reg, x));
  }

  /** One completion of a running task keeps the table settled, with no global rescan, and takes
      exactly that task off the incomplete ones. */
  lemma CompletingKeepsSettled(ts: Tasks, reg: Registry, x: Id)
    requires Settled(ts, reg) && x in ts && ts[x].status == Running
    ensures Settled(Completing(ts, reg, x), reg)
    ensures Incomplete(Completing(ts, reg, x)) == Incomplete(ts) - {x}
    ensures PendingSet(Completing(ts, reg, x)) <= PendingSet(ts)
    ensures forall t :: t in ts ==> Completing(ts, reg, x)[t].dependsOn == ts[t].dependsOn
    ensures Completing(ts, reg, x).Keys == ts.Keys
  {
    CompletingStaysQuiet(ts, reg, x);
    CompletingKeepsServed(ts, reg, x);
    CompletingTakesOne(ts, reg, x);
  }

  lemma CompletingKeepsServed(ts: Tasks, reg: Registry, x: Id)
    requires Settled(ts, reg) && x in ts && ts[x].status == Running
    ensures Served(Completing(ts, reg, x), reg) && Completing(ts, reg, x).Keys == ts.Keys
    ensures forall t :: t in ts ==> Completing(ts, reg, x)[t].status != Ready
    ensures forall t :: t in ts ==> Completing(ts, reg, x)[t].dependsOn == ts[t].dependsOn
  {
    var after := Completing(ts, reg, x);
    forall t | t in ts
      ensures after[t].needs == ts[t].needs && after[t].dependsOn == ts[t].dependsOn
      ensures Flowing(after[t].status) && after[t].status != Ready
    {
      CompletingEffect(ts, reg, x, t);
    }
  }

  lemma CompletingTakesOne(ts: Tasks, reg: Registry, x: Id)
    requires x in ts && ts[x].status == Running
    ensures Incomplete(Completing(ts, reg, x)) == Incomplete(ts) - {x}
    ensures PendingSet(Completing(ts, reg, x)) <= PendingSet(ts)
  {
    var after := Completing(ts, reg, x);
    forall t | t in ts
      ensures after[t].status == Completed <==> ts[t].status == Completed || t == x
      ensures after[t].status == Pending ==> ts[t].status == Pending
    {
      CompletingEffect(ts, reg, x, t);
    }
  }

  /** While work is left and no pending tasks wait in a circle, some task is running. */
  lemma NeverStuck(ts: Tasks, reg: Registry)
    requires Settled(ts, reg) && !PendingCircle(ts) && Incomplete(ts) != {}
    ensures exists t :: t in ts && ts[t].status == Running
  {
    var pending := PendingSet(ts);
    if forall t :: t in ts ==> ts[t].status != Running {
      forall t | t in pending ensures EnteredFrom(ts, pending, t) {
        assert !Promotable(ts)(t);
        var d :| d in ts[t].dependsOn && !(d in ts && ts[d].status == Completed);
        assert d in pending && Edge(ts, d, t);
      }
      var t :| t in Incomplete(ts);
      assert t in pending;
      NoSourceMeansCycle(ts, pending);
    }
  }

  lemma CircleNeedsOldCircle(ts: Tasks, ts': Tasks)
    requires !PendingCircle(ts) && PendingSet(ts') <= PendingSet(ts) && ts.Keys == ts'.Keys
    requires forall t :: t in ts ==> ts'[t].dependsOn == ts[t].dependsOn
    ensures !PendingCircle(ts')
  {
    if p :| Cycle(ts', p) && Within(p, PendingSet(ts')) {
      forall i | 0 <= i < |p| - 1 ensures Edge(ts, p[i], p[i + 1]) {
        assert Edge(ts', p[i], p[i + 1]);
      }
      assert Cycle(ts, p) && Within(p, PendingSet(ts));
    }
  }

  // ---------------------------------------------------------------------------------------------
  // Sequences of completions
  // ---------------------------------------------------------------------------------------------

  function After(ts: Tasks, reg: Registry, xs: seq<Id>): Tasks {
    if xs == [] then ts else Completing(After(ts, reg, xs[..|xs| - 1]), reg, xs[|xs| - 1])
  }

  /** Each completion is of a task that is running at that moment. */
  ghost predicate Legal(ts: Tasks, reg: Registry, xs: seq<Id>) {
    xs == [] ||
    (var before := After(ts, reg, xs[..|xs| - 1]);
     Legal(ts, reg, xs[..|xs| - 1]) && xs[|xs| - 1] in before && before[xs[|xs| - 1]].status == Running)
  }

  /** `k` completions after `ts` was settled. */
  ghost predicate Progressed(ts: Tasks, reg: Registry, now: Tasks, k: nat) {
    && Settled(now, reg) && now.Keys == ts.Keys
    && |Incomplete(now)| == |Incomplete(ts)| - k && PendingSet(now) <= PendingSet(ts)
    && forall t :: t in ts ==> now[t].dependsOn == ts[t].dependsOn
  }

  lemma OneMoreCompletion(ts: Tasks, reg: Registry, now: Tasks, k: nat, x: Id)
    requires Progressed(ts, reg, now, k) && x in now && now[x].status == Running
    ensures Progressed(ts, reg, Completing(now, reg, x), k + 1)
  {
    CompletingKeepsSettled(now, reg, x);
    assert x in Incomplete(now);
  }

  lemma {:induction false} CompletionsCount(ts: Tasks, reg: Registry, xs: seq<Id>)
    requires Settled(ts, reg) && Legal(ts, reg, xs)
    ensures Progressed(ts, reg, After(ts, reg, xs), |xs|)
  {
    if xs != [] {
      var front := xs[..|xs| - 1];
      CompletionsCount(ts, reg, front);
      OneMoreCompletion(ts, reg, After(ts, reg, front), |front|, xs[|xs| - 1]);
    }
  }

  /** From any served table without a circle of pending tasks: after the initial rescan and
      scheduling pass, in every order of completions, each completion removes exactly one
      incomplete task, some task is running as long as one is incomplete, and a rescan would
      find nothing to do. So every maximal sequence has exactly as many completions as there
      were incomplete tasks. */
  lemma CompletionsNeverStall(ts: Tasks, reg: Registry, xs: seq<Id>)
    requires Served(ts, reg) && !PendingCircle(ts)
    requires Legal(Start(ts, reg), reg, xs)
    ensures var now := After(Start(ts, reg), reg, xs);
      && |xs| + |Incomplete(now)| == |Incomplete(ts)|
      && Quiet(now)
      && (|xs| < |Incomplete(ts)| ==> exists t :: t in now && now[t].status == Running)
      && (|xs| == |Incomplete(ts)| ==> forall t :: t in now ==> now[t].status == Completed)
  {
    var first := Start(ts, reg);
    StartSettles(ts, reg);
    CompletionsCount(first, reg, xs);
    var now := After(first, reg, xs);
    SettledOutcome(ts, now, reg);
  }

  lemma SettledOutcome(ts: Tasks, now: Tasks, reg: Registry)
    requires Settled(now, reg) && !PendingCircle(ts)
    requires PendingSet(now) <= PendingSet(ts) && ts.Keys == now.Keys
    requires forall t :: t in ts ==> now[t].dependsOn == ts[t].dependsOn
    ensures Incomplete(now) != {} ==> exists t :: t in now && now[t].status == Running
    ensures Incomplete(now) == {} ==> forall t :: t in now ==> now[t].status == Completed
  {
    CircleNeedsOldCircle(ts, now);
    if Incomplete(now) != {} {
      NeverStuck(now, reg);
    } else {
      assert forall t :: t in now ==> t !in Incomplete(now);
    }
  }

  ghost predicate Finishes(ts: Tasks, reg: Registry, xs: seq<Id>) {
    Legal(ts, reg, xs) && Incomplete(After(ts, reg, xs)) == {}
  }

  lemma LegalNext(ts: Tasks, reg: Registry, xs: seq<Id>, t: Id)
    requires Legal(ts, reg, xs) && t in After(ts, reg, xs) && After(ts, reg, xs)[t].status == Running
    ensures Legal(ts, reg, xs + [t])
  {
    assert (xs + [t])[..|xs|] == xs;
  }

  lemma {:induction false} FinishFrom(ts: Tasks, reg: Registry, xs: seq<Id>) returns (ys: seq<Id>)
    requires Served(ts, reg) && !PendingCircle(ts) && Legal(Start(ts, reg), reg, xs)
    ensures Finishes(Start(ts, reg), reg, ys) && xs <= ys
    decreases |Incomplete(After(Start(ts, reg), reg, xs))|
  {
    var now := After(Start(ts, reg), reg, xs);
    CompletionsNeverStall(ts, reg, xs);
    if Incomplete(now) == {} {
      ys := xs;
    } else {
      var t :| t in now && now[t].status == Running;
      LegalNext(Start(ts, reg), reg, xs, t);
      CompletionsNeverStall(ts, reg, xs + [t]);
      ys := FinishFrom(ts, reg, xs + [t]);
    }
  }

  lemma CompletingKeepsStuck(ts: Tasks, reg: Registry, x: Id, c: set<Id>)
    requires Stuck(ts, c) && x in ts && ts[x].status == Running
    ensures Stuck(Completing(ts, reg, x), c)
  {
    var s := System([], ts, [], reg, LeaseState(LeaseTable([], map[], map[]), Stats(0, 0, 0, [], [])), [], 0);
    CompleteKeepsStuck(s, x, c);
    CompletingIsComplete(s, x);
  }

  lemma {:induction false} CompletionsKeepStuck(ts: Tasks, reg: Registry, xs: seq<Id>, c: set<Id>)
    requires Stuck(ts, c) && Legal(ts, reg, xs)
    ensures Stuck(After(ts, reg, xs), c)
  {
    if xs != [] {
      CompletionsKeepStuck(ts, reg, xs[..|xs| - 1], c);
      CompletingKeepsStuck(After(ts, reg, xs[..|xs| - 1]), reg, xs[|xs| - 1], c);
    }
  }

  /** The exact condition: a served workflow can be driven to its end by completions if and only
      if no pending tasks wait in a circle. */
  lemma FinishesIffNoCircle(ts: Tasks, reg: Registry)
    requires Served(ts, reg)
    ensures (exists xs :: Finishes(Start(ts, reg), reg, xs)) <==> !PendingCircle(ts)
  {
    if !PendingCircle(ts) {
      var xs := FinishFrom(ts, reg, []);
    } else {
      var c := CircleIsStuck(ts);
      PromoteKeepsStuck(ts, c);
      ScheduleKeepsStuck(Promote(ts), reg, c);
      forall xs ensures !Finishes(Start(ts, reg), reg, xs) {
        StuckNeverFinishes(Start(ts, reg), reg, xs, c);
      }
    }
  }

  lemma CircleIsStuck(ts: Tasks) returns (c: set<Id>)
    requires PendingCircle(ts)
    ensures Stuck(ts, c) && c != {}
  {
    var p :| Cycle(ts, p) && Within(p, PendingSet(ts));
    forall i | 0 <= i < |p| ensures p[i] in ts && Waiting(ts[p[i]].status) {
      assert p[i] in PendingSet(ts);
    }
    CycleIsStuck(ts, p);
    c := set i | 0 <= i < |p| :: p[i];
    assert p[0] in c;
  }

  lemma StuckNeverFinishes(ts: Tasks, reg: Registry, xs: seq<Id>, c: set<Id>)
    requires Stuck(ts, c) && c != {}
    ensures !Finishes(ts, reg, xs)
  {
    if Legal(ts, reg, xs) {
      CompletionsKeepStuck(ts, reg, xs, c);
      var t :| t in c;
      assert t in Incomplete(After(ts, reg, xs));
    }
  }
}
