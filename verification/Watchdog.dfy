/** Failure detection: heartbeats mark a node online, and a periodic check marks it degraded or
    offline by the age of its last heartbeat. */
module Watchdog {
  import opened Types
  import opened Seqs
  import opened Cluster

  datatype Thresholds = Thresholds(degradedAfter: int, offlineAfter: int)

  datatype WatchdogEvent = WatchdogEvent(nodeId: Id, status: NodeStatus)

  datatype NodeEvent =
    | Heartbeat(nodeId: Id, load: real)
    | StatusChanged(nodeId: Id, was: NodeStatus, status: NodeStatus)

  function Judge(w: Thresholds, elapsed: int): NodeStatus {
    if elapsed >= w.offlineAfter then Offline else if elapsed >= w.degradedAfter then Degraded else Online
  }

  function Severity(s: NodeStatus): nat {
    match s
    case Online => 0
    case Degraded => 1
    case Offline => 2
  }

  /** What a check at `now` finds for one node. */
  function Verdict(w: Thresholds, node: Node, now: int): NodeStatus {
    Judge(w, now - node.lastHeartbeat)
  }

  function AfterCheck(reg: Registry, w: Thresholds, now: int): Registry {
    reg.(nodes := map n | n in reg.nodes :: reg.nodes[n].(status := Verdict(w, reg.nodes[n], now)))
  }

  function Clamp(load: real): real {
    if load < 0.0 then 0.0 else if load > 1.0 then 1.0 else load
  }

  function AfterBeat(reg: Registry, n: Id, load: real, now: int): Registry {
    if n !in reg.nodes then reg
    else reg.(nodes := reg.nodes[n := reg.nodes[n].(lastHeartbeat := now, status := Online, load := Clamp(load))])
  }

  /** A check in elapsed time: offline from `offlineAfter` on, otherwise degraded from `degradedAfter`
      on, otherwise online; nothing else about a node changes. */
  lemma CheckEffect(reg: Registry, w: Thresholds, now: int, n: Id)
    requires n in reg.nodes
    ensures var reg', silence := AfterCheck(reg, w, now), now - reg.nodes[n].lastHeartbeat;
      && reg'.ids == reg.ids && reg'.nodes.Keys == reg.nodes.Keys
      && reg'.nodes[n] == reg.nodes[n].(status := reg'.nodes[n].status)
      && (reg'.nodes[n].status == Offline <==> silence >= w.offlineAfter)
      && (reg'.nodes[n].status == Degraded <==> w.degradedAfter <= silence < w.offlineAfter)
      && (reg'.nodes[n].status == Online <==> silence < w.degradedAfter && silence < w.offlineAfter)
  {
  }

  /** A heartbeat: the node is online as of now, with its load brought into 0..1. */
  lemma BeatEffect(reg: Registry, n: Id, load: real, now: int)
    ensures var reg' := AfterBeat(reg, n, load, now);
      if n !in reg.nodes then reg' == reg
      else
        && reg'.ids == reg.ids && reg'.nodes == reg.nodes[n := reg'.nodes[n]]
        && reg'.nodes[n] == Node(reg.nodes[n].capabilities, Online, now, reg'.nodes[n].load)
        && 0.0 <= reg'.nodes[n].load <= 1.0
        && (0.0 <= load <= 1.0 ==> reg'.nodes[n].load == load)
        && (load < 0.0 ==> reg'.nodes[n].load == 0.0) && (load > 1.0 ==> reg'.nodes[n].load == 1.0)
  {
  }

  predicate Changes(reg: Registry, w: Thresholds, now: int, n: Id) {
    n in reg.nodes && Verdict(w, reg.nodes[n], now) != reg.nodes[n].status
  }

  /** The events of a check that has looked at the first `i` nodes. */
  function EventsTo(reg: Registry, w: Thresholds, now: int, i: nat): seq<WatchdogEvent>
    requires i <= |reg.ids|
  {
    if i == 0 then []
    else
      var n := reg.ids[i - 1];
      EventsTo(reg, w, now, i - 1)
      + (if Changes(reg, w, now, n) then [WatchdogEvent(n, Verdict(w, reg.nodes[n], now))] else [])
  }

  function EventsOf(reg: Registry, w: Thresholds, now: int): seq<WatchdogEvent> {
    EventsTo(reg, w, now, |reg.ids|)
  }

  lemma {:induction false} EventsToAre(reg: Registry, w: Thresholds, now: int, i: nat, e: WatchdogEvent)
    requires i <= |reg.ids|
    ensures e in EventsTo(reg, w, now, i) <==>
      && e.nodeId in reg.ids[..i] && Changes(reg, w, now, e.nodeId)
      && e.status == Verdict(w, reg.nodes[e.nodeId], now)
  {
    if i > 0 {
      EventsToAre(reg, w, now, i - 1, e);
      assert reg.ids[..i] == reg.ids[..i - 1] + [reg.ids[i - 1]];
    }
  }

  /** A check announces a node exactly when its verdict differs from the stored status. */
  lemma EventsAre(reg: Registry, w: Thresholds, now: int, e: WatchdogEvent)
    requires KeysInOrder(reg.ids, reg.nodes)
    ensures e in EventsOf(reg, w, now) <==>
      Changes(reg, w, now, e.nodeId) && e.status == Verdict(w, reg.nodes[e.nodeId], now)
  {
    EventsToAre(reg, w, now, |reg.ids|, e);
    assert reg.ids[..|reg.ids|] == reg.ids;
  }

  // ---------------------------------------------------------------------------------------------
  // The node manager and the watchdog
  // ---------------------------------------------------------------------------------------------

  class NodeManager {
    const store: ClusterState
    var events: seq<NodeEvent>

    constructor (store: ClusterState)
      ensures this.store == store && events == []
    {
      this.store, events := store, [];
    }

    method SendHeartbeat(nodeId: Id, load: real, now: int)
      requires store.Valid()
      modifies this, store`nodes
      ensures store.Valid() && store.Reg() == AfterBeat(old(store.Reg()), nodeId, load, now)
      ensures events == old(events) + (if nodeId in old(store.nodes) then [Heartbeat(nodeId, Clamp(load))] else [])
    {
      if nodeId !in store.nodes { return; }
      var capped := if load > 1.0 then 1.0 else load;
      var clamped := if capped < 0.0 then 0.0 else capped;
      store.UpdateHeartbeat(nodeId, clamped, now);
      events := events + [Heartbeat(nodeId, clamped)];
    }

    /** Announces a change, and only a change. */
    method SetStatus(nodeId: Id, status: NodeStatus) returns (known: bool)
      requires store.Valid()
      modifies this, store`nodes
      ensures store.Valid() && known == (nodeId in old(store.nodes))
      ensures store.nodes == if !known then old(store.nodes)
        else old(store.nodes)[nodeId := old(store.nodes)[nodeId].(status := status)]
      ensures events == old(events) +
        (if known && old(store.nodes)[nodeId].status != status
         then [StatusChanged(nodeId, old(store.nodes)[nodeId].status, status)] else [])
    {
      if nodeId !in store.nodes { return false; }
      var oldStatus := store.nodes[nodeId].status;
      if oldStatus == status { return true; }
      store.SetNodeStatus(nodeId, status);
      events := events + [StatusChanged(nodeId, oldStatus, status)];
      return true;
    }
  }

  /** The manager's announcement of each event of a check: the status the node had, and the new one. */
  function Announced(nodes: map<Id, Node>, events: seq<WatchdogEvent>): seq<NodeEvent> {
    if events == [] then []
    else
      var e := events[|events| - 1];
      Announced(nodes, events[..|events| - 1])
      + (if e.nodeId in nodes then [StatusChanged(e.nodeId, nodes[e.nodeId].status, e.status)] else [])
  }

  lemma {:induction false} AnnouncedTells(nodes: map<Id, Node>, events: seq<WatchdogEvent>)
    requires forall e :: e in events ==> e.nodeId in nodes
    ensures |Announced(nodes, events)| == |events|
    ensures forall k :: 0 <= k < |events| ==>
      (&& events[k].nodeId in nodes
       && Announced(nodes, events)[k] ==
            StatusChanged(events[k].nodeId, nodes[events[k].nodeId].status, events[k].status))
  {
    if events != [] {
      AnnouncedTells(nodes, events[..|events| - 1]);
      assert events[|events| - 1] in events;
    }
  }

  lemma AnnouncedStep(nodes: map<Id, Node>, events: seq<WatchdogEvent>, e: WatchdogEvent)
    requires e.nodeId in nodes
    ensures Announced(nodes, events + [e]) ==
      Announced(nodes, events) + [StatusChanged(e.nodeId, nodes[e.nodeId].status, e.status)]
  {
    assert (events + [e])[..|events|] == events;
  }

  /** The node table after a check has visited the first `i` nodes. */
  ghost function CheckTo(reg: Registry, w: Thresholds, now: int, i: nat): map<Id, Node>
    requires i <= |reg.ids| && KeysInOrder(reg.ids, reg.nodes)
  {
    if i == 0 then reg.nodes
    else
      var n := reg.ids[i - 1];
      CheckTo(reg, w, now, i - 1)[n := reg.nodes[n].(status := Verdict(w, reg.nodes[n], now))]
  }

  lemma {:induction false} CheckToIs(reg: Registry, w: Thresholds, now: int, i: nat)
    requires i <= |reg.ids| && KeysInOrder(reg.ids, reg.nodes)
    ensures CheckTo(reg, w, now, i) == map n | n in reg.nodes ::
      if n in reg.ids[..i] then reg.nodes[n].(status := Verdict(w, reg.nodes[n], now)) else reg.nodes[n]
  {
    if i > 0 {
      CheckToIs(reg, w, now, i - 1);
      assert reg.ids[..i] == reg.ids[..i - 1] + [reg.ids[i - 1]];
    }
  }

  lemma CheckTurn(reg: Registry, w: Thresholds, now: int, i: nat)
    requires i < |reg.ids| && KeysInOrder(reg.ids, reg.nodes)
    ensures var n, before := reg.ids[i], CheckTo(reg, w, now, i);
      n in reg.nodes && n in before && before[n] == reg.nodes[n]
  {
    CheckToIs(reg, w, now, i);
    assert reg.ids[i] !in reg.ids[..i];
  }

  lemma CheckToEnd(reg: Registry, w: Thresholds, now: int)
    requires KeysInOrder(reg.ids, reg.nodes)
    ensures CheckTo(reg, w, now, |reg.ids|) == AfterCheck(reg, w, now).nodes
  {
    CheckToIs(reg, w, now, |reg.ids|);
    assert reg.ids[..|reg.ids|] == reg.ids;
  }

  class WatchdogLoop {
    const manager: NodeManager
    const thresholds: Thresholds
    const hasCallback: bool
    // What the callback was called with.
    var called: seq<WatchdogEvent>

    constructor (manager: NodeManager, thresholds: Thresholds, hasCallback: bool)
      ensures this.manager == manager && this.thresholds == thresholds
      ensures this.hasCallback == hasCallback && called == []
    {
      this.manager, this.thresholds, this.hasCallback, called := manager, thresholds, hasCallback, [];
    }

    /** One turn of a check, for a node as it was read. */
    method Visit(n: Id, node: Node, now: int) returns (change: Option<WatchdogEvent>)
      requires manager.store.Valid() && n in manager.store.nodes && manager.store.nodes[n] == node
      modifies this, manager, manager.store`nodes
      ensures manager.store.Valid()
      ensures var status := Verdict(thresholds, node, now);
        && manager.store.nodes == old(manager.store.nodes)[n := node.(status := status)]
        && (change == if status != node.status then Some(WatchdogEvent(n, status)) else None)
      ensures manager.events == old(manager.events)
        + (if change.Some? then [StatusChanged(n, node.status, change.value.status)] else [])
      ensures called == old(called) + (if change.Some? && hasCallback then [change.value] else [])
    {
      var elapsed := now - node.lastHeartbeat;
      var status := Online;
      if elapsed >= thresholds.offlineAfter {
        status := Offline;
      } else if elapsed >= thresholds.degradedAfter {
        status := Degraded;
      }
      if status == node.status { return None; }
      var known := manager.SetStatus(n, status);
      change := Some(WatchdogEvent(n, status));
      if hasCallback {
        called := called + [change.value];
      }
    }

    /** One check: reads all nodes first, then writes back through the manager. */
    method Check(now: int) returns (events: seq<WatchdogEvent>)
      requires manager.store.Valid()
      modifies this, manager, manager.store`nodes
      ensures manager.store.Valid()
      ensures manager.store.Reg() == AfterCheck(old(manager.store.Reg()), thresholds, now)
      ensures events == EventsOf(old(manager.store.Reg()), thresholds, now)
      ensures manager.events == old(manager.events) + Announced(old(manager.store.nodes), events)
      ensures called == old(called) + (if hasCallback then events else [])
    {
      ghost var reg, told, calls := manager.store.Reg(), manager.events, called;
      var ids, seen := manager.store.nodeIds, manager.store.nodes;
      events := [];
      for i := 0 to |ids|
        invariant manager.store.nodeIds == ids && Checked(reg, told, calls, now, i, events)
      {
        events := VisitNext(reg, seen, told, calls, now, i, events);
      }
      CheckToEnd(reg, thresholds, now);
    }

    /** What a check that began with `reg` has done after its first `i` nodes. */
    ghost predicate Checked(reg: Registry, told: seq<NodeEvent>, calls: seq<WatchdogEvent>, now: int, i: nat,
                            events: seq<WatchdogEvent>)
      reads this, manager, manager.store
    {
      && manager.store.Valid() && KeysInOrder(reg.ids, reg.nodes)
      && manager.store.nodeIds == reg.ids && i <= |reg.ids|
      && manager.store.nodes == CheckTo(reg, thresholds, now, i)
      && events == EventsTo(reg, thresholds, now, i)
      && manager.events == told + Announced(reg.nodes, events)
      && called == calls + (if hasCallback then events else [])
    }

    method VisitNext(ghost reg: Registry, seen: map<Id, Node>, ghost told: seq<NodeEvent>, ghost calls: seq<WatchdogEvent>,
                     now: int, i: nat, soFar: seq<WatchdogEvent>) returns (events: seq<WatchdogEvent>)
      requires i < |reg.ids| && seen == reg.nodes && Checked(reg, told, calls, now, i, soFar)
      modifies this, manager, manager.store`nodes
      ensures Checked(reg, told, calls, now, i + 1, events)
    {
      CheckTurn(reg, thresholds, now, i);
      var n := manager.store.nodeIds[i];
      var change := Visit(n, seen[n], now);
      events := soFar;
      if change.Some? {
        AnnouncedStep(seen, soFar, change.value);
        events := soFar + [change.value];
      }
    }
  }

  // ---------------------------------------------------------------------------------------------
  // Runs of heartbeats and checks
  // ---------------------------------------------------------------------------------------------

  datatype Tick = Beat(node: Id, load: real, at: int) | Check(at: int)

  function Step(reg: Registry, w: Thresholds, tick: Tick): Registry {
    match tick
    case Beat(n, load, at) => AfterBeat(reg, n, load, at)
    case Check(at) => AfterCheck(reg, w, at)
  }

  /** The node table before tick `i` of a run. */
  function At(reg: Registry, w: Thresholds, run: seq<Tick>, i: nat): Registry
    requires i <= |run|
  {
    if i == 0 then reg else Step(At(reg, w, run, i - 1), w, run[i - 1])
  }

  /** The events of tick `i`. */
  function Emitted(reg: Registry, w: Thresholds, run: seq<Tick>, i: nat): seq<WatchdogEvent>
    requires i < |run|
  {
    if run[i].Check? then EventsOf(At(reg, w, run, i), w, run[i].at) else []
  }

  ghost predicate InOrder(run: seq<Tick>) {
    forall i, j :: 0 <= i <= j < |run| ==> run[i].at <= run[j].at
  }

  /** No heartbeat from `n` in ticks `i` up to `j`. */
  ghost predicate Silent(run: seq<Tick>, n: Id, i: nat, j: nat)
    requires j <= |run|
  {
    forall k :: i <= k < j ==> !(run[k].Beat? && run[k].node == n)
  }

  lemma {:induction false} RunKeepsNodes(reg: Registry, w: Thresholds, run: seq<Tick>, i: nat)
    requires i <= |run| && KeysInOrder(reg.ids, reg.nodes)
    ensures var now := At(reg, w, run, i);
      now.ids == reg.ids && now.nodes.Keys == reg.nodes.Keys && KeysInOrder(now.ids, now.nodes)
  {
    if i > 0 {
      RunKeepsNodes(reg, w, run, i - 1);
      assert forall n :: n in At(reg, w, run, i).nodes <==> n in reg.nodes;
    }
  }

  lemma {:induction false} SilenceKeepsHeartbeat(reg: Registry, w: Thresholds, run: seq<Tick>, n: Id, i: nat, j: nat)
    requires i <= j <= |run| && Silent(run, n, i, j) && n in At(reg, w, run, i).nodes
    ensures n in At(reg, w, run, j).nodes
    ensures At(reg, w, run, j).nodes[n].lastHeartbeat == At(reg, w, run, i).nodes[n].lastHeartbeat
    decreases j
  {
    if i < j {
      SilenceKeepsHeartbeat(reg, w, run, n, i, j - 1);
    }
  }

  /** A node's stored status is no graver than its silence warrants at `now`. */
  predicate NotAhead(w: Thresholds, node: Node, now: int) {
    Severity(node.status) <= Severity(Verdict(w, node, now))
  }

  /** The exact condition under which a check does not make a node look healthier. */
  lemma CheckLowersIff(reg: Registry, w: Thresholds, now: int, n: Id)
    requires n in reg.nodes
    ensures Severity(AfterCheck(reg, w, now).nodes[n].status) >= Severity(reg.nodes[n].status)
      <==> NotAhead(w, reg.nodes[n], now)
  {
  }

  /** While a node is silent its severity never decreases, from any point at which its status was
      not graver than its silence. */
  lemma {:induction false} SilentSeverityRises(
    reg: Registry, w: Thresholds, run: seq<Tick>, n: Id, i: nat, j: nat, since: int)
    requires i <= j <= |run| && InOrder(run) && Silent(run, n, i, j) && n in At(reg, w, run, i).nodes
    requires NotAhead(w, At(reg, w, run, i).nodes[n], since) && forall k :: i <= k < j ==> since <= run[k].at
    ensures n in At(reg, w, run, j).nodes
    ensures Severity(At(reg, w, run, i).nodes[n].status) <= Severity(At(reg, w, run, j).nodes[n].status)
    ensures NotAhead(w, At(reg, w, run, j).nodes[n], if i < j then run[j - 1].at else since)
    decreases j
  {
    if i < j {
      SilentSeverityRises(reg, w, run, n, i, j - 1, since);
      SilenceKeepsHeartbeat(reg, w, run, n, i, j - 1);
    }
  }

  /** A heartbeat and a check both leave a node's status no graver than its silence. */
  lemma TickSetsBaseline(reg: Registry, w: Thresholds, tick: Tick, n: Id)
    requires n in reg.nodes && (tick.Beat? ==> tick.node == n)
    ensures NotAhead(w, Step(reg, w, tick).nodes[n], tick.at)
  {
  }

  /** So from any check, or any heartbeat of the node, its severity never decreases for as long as
      it is silent. */
  lemma SilentSeverityNeverFalls(reg: Registry, w: Thresholds, run: seq<Tick>, n: Id, i: nat, j: nat, k: nat)
    requires KeysInOrder(reg.ids, reg.nodes) && InOrder(run) && n in reg.nodes
    requires i < j <= k <= |run| && (run[i].Check? || run[i].node == n) && Silent(run, n, i + 1, k)
    ensures n in At(reg, w, run, j).nodes && n in At(reg, w, run, k).nodes
    ensures Severity(At(reg, w, run, j).nodes[n].status) <= Severity(At(reg, w, run, k).nodes[n].status)
  {
    RunKeepsNodes(reg, w, run, i);
    TickSetsBaseline(At(reg, w, run, i), w, run[i], n);
    SilentSeverityRises(reg, w, run, n, i + 1, j, run[i].at);
    SilentSeverityRises(reg, w, run, n, j, k, if i + 1 < j then run[j - 1].at else run[i].at);
  }

  /** Successive events about a node without a heartbeat in between are of strictly rising
      severity. */
  lemma EventsEscalate(reg: Registry, w: Thresholds, run: seq<Tick>, n: Id, i: nat, j: nat, a: NodeStatus, b: NodeStatus)
    requires KeysInOrder(reg.ids, reg.nodes) && InOrder(run) && i < j < |run| && Silent(run, n, i, j)
    requires WatchdogEvent(n, a) in Emitted(reg, w, run, i) && WatchdogEvent(n, b) in Emitted(reg, w, run, j)
    ensures Severity(a) < Severity(b)
  {
    EventChangesStatus(reg, w, run, n, i, a);
    EventChangesStatus(reg, w, run, n, j, b);
    RunKeepsNodes(reg, w, run, j);
    SilentSeverityNeverFalls(reg, w, run, n, i, i + 1, j);
    SilentSeverityNeverFalls(reg, w, run, n, i, j, j + 1);
  }

  lemma EventChangesStatus(reg: Registry, w: Thresholds, run: seq<Tick>, n: Id, i: nat, s: NodeStatus)
    requires KeysInOrder(reg.ids, reg.nodes) && i < |run| && WatchdogEvent(n, s) in Emitted(reg, w, run, i)
    ensures var before, after := At(reg, w, run, i).nodes, At(reg, w, run, i + 1).nodes;
      && run[i].Check? && n in before && n in after
      && before[n].status != s && after[n].status == s && NotAhead(w, after[n], run[i].at)
  {
    RunKeepsNodes(reg, w, run, i);
    EventsAre(At(reg, w, run, i), w, run[i].at, WatchdogEvent(n, s));
  }

  /** Between two offline events about a node there is a heartbeat from it. */
  lemma HeartbeatBetweenOfflines(reg: Registry, w: Thresholds, run: seq<Tick>, n: Id, i: nat, j: nat)
    requires KeysInOrder(reg.ids, reg.nodes) && InOrder(run) && i < j < |run|
    requires WatchdogEvent(n, Offline) in Emitted(reg, w, run, i) && WatchdogEvent(n, Offline) in Emitted(reg, w, run, j)
    ensures exists k :: i < k < j && run[k].Beat? && run[k].node == n
  {
    if Silent(run, n, i, j) {
      EventsEscalate(reg, w, run, n, i, j, Offline, Offline);
    }
  }

  // ---------------------------------------------------------------------------------------------
  // Detection in time
  // ---------------------------------------------------------------------------------------------

  /** The time of the last check before tick `i`; `prev` if the run has none. */
  function LastCheck(prev: int, run: seq<Tick>, i: nat): int
    requires i <= |run|
  {
    if i == 0 then prev else if run[i - 1].Check? then run[i - 1].at else LastCheck(prev, run, i - 1)
  }

  /** Consecutive checks are at most `d` apart; the one before the run was at `prev`. */
  ghost predicate Paced(prev: int, run: seq<Tick>, d: int) {
    forall i :: 0 <= i < |run| && run[i].Check? ==> run[i].at - LastCheck(prev, run, i) <= d
  }

  /** The first check at or after a deadline comes less than `d` after it. */
  lemma {:induction false} FirstCheckFrom(prev: int, run: seq<Tick>, d: int, deadline: int, j: nat) returns (i: nat)
    requires Paced(prev, run, d) && prev < deadline
    requires j < |run| && run[j].Check? && deadline <= run[j].at
    ensures i <= j && run[i].Check? && deadline <= run[i].at < deadline + d
  {
    if LastCheck(prev, run, j) < deadline {
      i := j;
    } else {
      var k := LastCheckAt(prev, run, j);
      i := FirstCheckFrom(prev, run, d, deadline, k);
    }
  }

  lemma {:induction false} LastCheckAt(prev: int, run: seq<Tick>, i: nat) returns (k: nat)
    requires i <= |run| && LastCheck(prev, run, i) != prev
    ensures k < i && run[k].Check? && run[k].at == LastCheck(prev, run, i)
  {
    if run[i - 1].Check? {
      k := i - 1;
    } else {
      k := LastCheckAt(prev, run, i - 1);
    }
  }

  /** With checks at most `d` apart, a node silent since `h` is marked offline by a check before
      h + offlineAfter + d, and stays offline for as long as it is silent. */
  lemma SilentNodeIsDetected(reg: Registry, w: Thresholds, run: seq<Tick>, n: Id, prev: int, d: int, j: nat)
    returns (i: nat)
    requires KeysInOrder(reg.ids, reg.nodes) && InOrder(run) && n in reg.nodes && Silent(run, n, 0, |run|)
    requires Paced(prev, run, d) && prev < reg.nodes[n].lastHeartbeat + w.offlineAfter
    requires j < |run| && run[j].Check? && run[j].at >= reg.nodes[n].lastHeartbeat + w.offlineAfter
    ensures i <= j && run[i].Check? && run[i].at < reg.nodes[n].lastHeartbeat + w.offlineAfter + d
    ensures forall k :: i < k <= |run| ==>
      n in At(reg, w, run, k).nodes && At(reg, w, run, k).nodes[n].status == Offline
  {
    var h := reg.nodes[n].lastHeartbeat;
    i := FirstCheckFrom(prev, run, d, h + w.offlineAfter, j);
    SilenceKeepsHeartbeat(reg, w, run, n, 0, i);
    forall k | i < k <= |run|
      ensures n in At(reg, w, run, k).nodes && At(reg, w, run, k).nodes[n].status == Offline
    {
      LateCheckIsFinal(reg, w, run, n, i, k);
    }
  }

  /** A check that finds a node's heartbeat too old marks it offline for as long as it is silent. */
  lemma LateCheckIsFinal(reg: Registry, w: Thresholds, run: seq<Tick>, n: Id, i: nat, k: nat)
    requires InOrder(run) && i < k <= |run| && run[i].Check? && Silent(run, n, i, k)
    requires n in At(reg, w, run, i).nodes && Verdict(w, At(reg, w, run, i).nodes[n], run[i].at) == Offline
    ensures n in At(reg, w, run, k).nodes && At(reg, w, run, k).nodes[n].status == Offline
  {
    SilentSeverityRises(reg, w, run, n, i + 1, k, run[i].at);
  }

  /** After the last tick before `k` not enough time had passed to be offline. */
  ghost predicate NotYetOffline(run: seq<Tick>, k: nat, h: int, w: Thresholds) {
    0 < k <= |run| && run[k - 1].at < h + w.offlineAfter
  }

  /** The same for the first threshold: a check before h + degradedAfter + d takes the node from
      online, it is never online again while it is silent, and it is degraded for as long as it is
      not silent enough to be offline. */
  lemma SilentNodeIsDegraded(reg: Registry, w: Thresholds, run: seq<Tick>, n: Id, prev: int, d: int, j: nat)
    returns (i: nat)
    requires KeysInOrder(reg.ids, reg.nodes) && InOrder(run) && n in reg.nodes && Silent(run, n, 0, |run|)
    requires Paced(prev, run, d) && prev < reg.nodes[n].lastHeartbeat + w.degradedAfter
    requires j < |run| && run[j].Check? && run[j].at >= reg.nodes[n].lastHeartbeat + w.degradedAfter
    ensures i <= j && run[i].Check? && run[i].at < reg.nodes[n].lastHeartbeat + w.degradedAfter + d
    ensures forall k :: i < k <= |run| ==>
      n in At(reg, w, run, k).nodes && At(reg, w, run, k).nodes[n].status != Online
    ensures forall k :: i < k <= |run| && NotYetOffline(run, k, reg.nodes[n].lastHeartbeat, w) ==>
      n in At(reg, w, run, k).nodes && At(reg, w, run, k).nodes[n].status == Degraded
  {
    i := FirstCheckFrom(prev, run, d, reg.nodes[n].lastHeartbeat + w.degradedAfter, j);
    SilenceKeepsHeartbeat(reg, w, run, n, 0, i);
    forall k | i < k <= |run|
      ensures n in At(reg, w, run, k).nodes && At(reg, w, run, k).nodes[n].status != Online
      ensures NotYetOffline(run, k, reg.nodes[n].lastHeartbeat, w) ==> At(reg, w, run, k).nodes[n].status == Degraded
    {
      DegradedFrom(reg, w, run, n, i, k);
    }
  }

  lemma DegradedFrom(reg: Registry, w: Thresholds, run: seq<Tick>, n: Id, i: nat, k: nat)
    requires InOrder(run) && i < k <= |run| && run[i].Check? && Silent(run, n, 0, k) && n in reg.nodes
    requires run[i].at >= reg.nodes[n].lastHeartbeat + w.degradedAfter
    ensures n in At(reg, w, run, k).nodes && At(reg, w, run, k).nodes[n].status != Online
    ensures NotYetOffline(run, k, reg.nodes[n].lastHeartbeat, w) ==> At(reg, w, run, k).nodes[n].status == Degraded
  {
    SilenceKeepsHeartbeat(reg, w, run, n, 0, i);
    SilenceKeepsHeartbeat(reg, w, run, n, 0, k);
    SeverityBand(reg, w, run, n, i, k);
  }

  /** Between a check and the last tick, the severity of a silent node lies between what the check
      found and what its silence warrants by then. */
  lemma SeverityBand(reg: Registry, w: Thresholds, run: seq<Tick>, n: Id, i: nat, k: nat)
    requires InOrder(run) && i < k <= |run| && run[i].Check? && Silent(run, n, i, k) && n in At(reg, w, run, i).nodes
    ensures n in At(reg, w, run, k).nodes
    ensures Severity(Verdict(w, At(reg, w, run, i).nodes[n], run[i].at)) <= Severity(At(reg, w, run, k).nodes[n].status)
    ensures NotAhead(w, At(reg, w, run, k).nodes[n], run[k - 1].at)
  {
    assert At(reg, w, run, i + 1) == AfterCheck(At(reg, w, run, i), w, run[i].at);
    SilentSeverityRises(reg, w, run, n, i + 1, k, run[i].at);
  }

  // ---------------------------------------------------------------------------------------------
  // The events account for the stored status
  // ---------------------------------------------------------------------------------------------

  function LastAbout(events: seq<WatchdogEvent>, n: Id): Option<NodeStatus> {
    if events == [] then None
    else if events[|events| - 1].nodeId == n then Some(events[|events| - 1].status)
    else LastAbout(events[..|events| - 1], n)
  }

  /** All events since the last heartbeat from `n` before tick `i`, or since the start. */
  function EventsSince(reg: Registry, w: Thresholds, run: seq<Tick>, n: Id, i: nat): seq<WatchdogEvent>
    requires i <= |run|
  {
    if i == 0 || (run[i - 1].Beat? && run[i - 1].node == n) then []
    else EventsSince(reg, w, run, n, i - 1) + Emitted(reg, w, run, i - 1)
  }

  lemma {:induction false} LastAboutIn(events: seq<WatchdogEvent>, more: seq<WatchdogEvent>, n: Id)
    ensures LastAbout(events + more, n) == if LastAbout(more, n).Some? then LastAbout(more, n) else LastAbout(events, n)
    ensures LastAbout(more, n).Some? ==> WatchdogEvent(n, LastAbout(more, n).value) in more
    ensures LastAbout(more, n) == None ==> forall s :: WatchdogEvent(n, s) !in more
  {
    if more == [] {
      assert events + more == events;
    } else {
      assert (events + more)[..|events + more| - 1] == events + more[..|more| - 1];
      LastAboutIn(events, more[..|more| - 1], n);
      assert more == more[..|more| - 1] + [more[|more| - 1]];
    }
  }

  lemma CheckSaysLast(reg: Registry, w: Thresholds, now: int, n: Id)
    requires KeysInOrder(reg.ids, reg.nodes) && n in reg.nodes
    ensures LastAbout(EventsOf(reg, w, now), n) ==
      if Changes(reg, w, now, n) then Some(Verdict(w, reg.nodes[n], now)) else None
  {
    var events := EventsOf(reg, w, now);
    LastAboutIn([], events, n);
    EventsAre(reg, w, now, WatchdogEvent(n, Verdict(w, reg.nodes[n], now)));
    if LastAbout(events, n).Some? {
      EventsAre(reg, w, now, WatchdogEvent(n, LastAbout(events, n).value));
    }
  }

  /** What the events and the run say about a node's status before tick `i`. */
  ghost function Accounted(reg: Registry, w: Thresholds, run: seq<Tick>, n: Id, i: nat): NodeStatus
    requires i <= |run| && n in reg.nodes
  {
    var last := LastAbout(EventsSince(reg, w, run, n, i), n);
    if last.Some? then last.value
    else if Silent(run, n, 0, i) then reg.nodes[n].status
    else Online
  }

  lemma AccountedStep(reg: Registry, w: Thresholds, run: seq<Tick>, n: Id, i: nat)
    requires i < |run| && n in reg.nodes
    ensures Accounted(reg, w, run, n, i + 1) ==
      if run[i].Beat? && run[i].node == n then Online
      else if LastAbout(Emitted(reg, w, run, i), n).Some? then LastAbout(Emitted(reg, w, run, i), n).value
      else Accounted(reg, w, run, n, i)
  {
    if run[i].Beat? && run[i].node == n {
      assert !Silent(run, n, 0, i + 1);
    } else {
      LastAboutIn(EventsSince(reg, w, run, n, i), Emitted(reg, w, run, i), n);
      assert Silent(run, n, 0, i + 1) <==> Silent(run, n, 0, i);
    }
  }

  lemma StatusStep(reg: Registry, w: Thresholds, tick: Tick, n: Id)
    requires KeysInOrder(reg.ids, reg.nodes) && n in reg.nodes
    ensures var events := if tick.Check? then EventsOf(reg, w, tick.at) else [];
      && n in Step(reg, w, tick).nodes
      && Step(reg, w, tick).nodes[n].status ==
           (if tick.Beat? && tick.node == n then Online
            else if LastAbout(events, n).Some? then LastAbout(events, n).value
            else reg.nodes[n].status)
  {
    if tick.Check? { CheckSaysLast(reg, w, tick.at, n); }
  }

  /** The stored status is the last event since the node's last heartbeat; if there is none, it is
      what that heartbeat set, or what the run started with. */
  lemma {:induction false} StatusIsLastEvent(reg: Registry, w: Thresholds, run: seq<Tick>, n: Id, i: nat)
    requires i <= |run| && KeysInOrder(reg.ids, reg.nodes) && n in reg.nodes
    ensures n in At(reg, w, run, i).nodes && At(reg, w, run, i).nodes[n].status == Accounted(reg, w, run, n, i)
  {
    if i > 0 {
      var k := i - 1;
      StatusIsLastEvent(reg, w, run, n, k);
      RunKeepsNodes(reg, w, run, k);
      AccountedStep(reg, w, run, n, k);
      StatusStep(At(reg, w, run, k), w, run[k], n);
    }
  }
}
