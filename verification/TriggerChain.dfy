/** The chain of tasks that completing one task can trigger: a depth-first traversal that shares
    one list and one visited set among all its recursive calls. */
module TriggerChain {
  import opened Types
  import opened Seqs
  import opened Workflow
  import opened Graph
  import opened Cluster

  /** Reached by at least one and at most `most` edges. */
  ghost predicate Near(ts: Tasks, root: Id, x: Id, most: int) {
    exists k: nat :: 1 <= k <= most && ReachesIn(ts, root, x, k)
  }

  ghost function Edges(ts: Tasks): set<(Id, Id)> {
    set t, d | t in ts && d in ts[t].dependsOn :: (d, t)
  }

  /** `chain` lists the ends of different edges, `via` their starts. So each start was expanded
      at most once. */
  ghost predicate ListsEdgesOnce(ts: Tasks, via: seq<Id>, chain: seq<Id>) {
    && |via| == |chain|
    && (forall i :: 0 <= i < |chain| ==> Edge(ts, via[i], chain[i]))
    && forall i, j :: 0 <= i < j < |chain| ==> via[i] != via[j] || chain[i] != chain[j]
  }

  /** Each edge starts at the root, or at an id listed before it. */
  ghost predicate ParentsFirst(root: Id, via: seq<Id>, chain: seq<Id>) {
    |via| == |chain| && forall i :: 0 <= i < |via| ==> via[i] == root || ListedBefore(chain, i, via[i])
  }

  ghost predicate ListedBefore(chain: seq<Id>, i: nat, x: Id) {
    exists k :: 0 <= k < i && k < |chain| && chain[k] == x
  }

  /** The edge from `u` to `v` is listed. */
  ghost predicate Listed(via: seq<Id>, chain: seq<Id>, u: Id, v: Id) {
    exists i :: 0 <= i < |via| && i < |chain| && via[i] == u && chain[i] == v
  }

  lemma ListedStays(via: seq<Id>, chain: seq<Id>, via': seq<Id>, chain': seq<Id>, u: Id, v: Id)
    requires Listed(via, chain, u, v) && via <= via' && chain <= chain'
    ensures Listed(via', chain', u, v)
  {
    var i :| 0 <= i < |via| && i < |chain| && via[i] == u && chain[i] == v;
    assert via'[i] == u && chain'[i] == v;
  }

  ghost predicate Sound(ts: Tasks, root: Id, most: int, visited: set<Id>, via: seq<Id>, chain: seq<Id>) {
    && ListsEdgesOnce(ts, via, chain) && ParentsFirst(root, via, chain)
    && (forall i :: 0 <= i < |via| ==> via[i] in visited)
    && (forall x :: x in chain ==> Near(ts, root, x, most))
  }

  /** Every edge out of a finished id is listed, and leads to a visited id. */
  ghost predicate Finished(ts: Tasks, done: set<Id>, visited: set<Id>, via: seq<Id>, chain: seq<Id>) {
    forall u, v :: u in done && Edge(ts, u, v) ==> v in visited && Listed(via, chain, u, v)
  }

  lemma PrefixKeeps(chain: seq<Id>, chain': seq<Id>, x: Id)
    requires chain <= chain'
    ensures x in chain ==> x in chain'
  {
    if x in chain {
      var i :| 0 <= i < |chain| && chain[i] == x;
      assert chain'[i] == x;
    }
  }

  lemma FinishedStays(ts: Tasks, done: set<Id>, visited: set<Id>, via: seq<Id>, chain: seq<Id>, u: Id, v: Id)
    requires Finished(ts, done, visited, via, chain)
    ensures Finished(ts, done, visited, via + [u], chain + [v])
  {
    forall a, b | a in done && Edge(ts, a, b) ensures b in visited && Listed(via + [u], chain + [v], a, b) {
      ListedStays(via, chain, via + [u], chain + [v], a, b);
    }
  }

  /** The ids being expanded right now, one per level of recursion. */
  ghost predicate OnStack(ts: Tasks, root: Id, stack: set<Id>, depth: int, visited: set<Id>) {
    && |stack| == depth && stack <= visited && stack <= ts.Keys + {root}
  }

  lemma StackFits(ts: Tasks, root: Id, stack: set<Id>, tid: Id)
    requires stack <= ts.Keys + {root} && tid in ts.Keys + {root} && tid !in stack
    ensures |stack| <= |ts|
  {
    SubsetCard(stack + {tid}, ts.Keys + {root});
    assert |ts.Keys + {root}| <= |ts| + 1 by {
      assert ts.Keys + {root} == ts.Keys + ({root} - ts.Keys);
      SubsetCard({root} - ts.Keys, {root});
    }
  }

  lemma AddEdge(ts: Tasks, root: Id, most: int, visited: set<Id>, via: seq<Id>, chain: seq<Id>, u: Id, v: Id)
    requires Sound(ts, root, most, visited, via, chain) && u in visited && (u == root || u in chain)
    requires Edge(ts, u, v) && Near(ts, root, v, most)
    requires forall i :: 0 <= i < |via| && via[i] == u ==> chain[i] != v
    ensures Sound(ts, root, most, visited, via + [u], chain + [v])
  {
    forall i | 0 <= i < |via + [u]| ensures (via + [u])[i] == root || ListedBefore(chain + [v], i, (via + [u])[i]) {
      var x := (via + [u])[i];
      if x != root {
        var k :| 0 <= k < i && k < |chain| && chain[k] == x;
        assert (chain + [v])[k] == x;
      }
    }
  }

  ghost predicate Covered(done: seq<Id>, visited: set<Id>, tid: Id, via: seq<Id>, chain: seq<Id>) {
    forall x :: x in done ==> x in visited && Listed(via, chain, tid, x)
  }

  lemma CoverOne(done: seq<Id>, dep: Id, visited: set<Id>, visited': set<Id>, tid: Id,
                 via: seq<Id>, chain: seq<Id>, via': seq<Id>, chain': seq<Id>)
    requires Covered(done, visited, tid, via, chain) && |via| == |chain|
    requires visited <= visited' && via + [tid] <= via' && chain + [dep] <= chain' && dep in visited'
    ensures Covered(done + [dep], visited', tid, via', chain')
  {
    forall x | x in done + [dep] ensures x in visited' && Listed(via', chain', tid, x) {
      if x in done {
        ListedStays(via, chain, via', chain', tid, x);
      } else {
        assert via'[|via|] == tid && chain'[|chain|] == dep;
      }
    }
  }

  /** Once all dependents are covered, the id itself is finished. */
  lemma FinishOne(ts: Tasks, stack: set<Id>, tid: Id, dependents: seq<Id>, visited: set<Id>, via: seq<Id>, chain: seq<Id>)
    requires Finished(ts, visited - (stack + {tid}), visited, via, chain)
    requires Covered(dependents, visited, tid, via, chain)
    requires forall v :: Edge(ts, tid, v) ==> v in dependents
    ensures Finished(ts, visited - stack, visited, via, chain)
  {
  }

  /** From position `from` on, edges start at `tid` or at ids that were not visited before. */
  ghost predicate OnlyNewStarts(via: seq<Id>, from: nat, tid: Id, visited: set<Id>) {
    forall i :: from <= i < |via| ==> via[i] == tid || via[i] !in visited
  }

  /** The edges listed so far that start at `tid` end in `done`. */
  ghost predicate EndsAmong(via: seq<Id>, chain: seq<Id>, tid: Id, done: seq<Id>) {
    |via| == |chain| && forall i :: 0 <= i < |via| && via[i] == tid ==> chain[i] in done
  }

  /** No path from `root` is cut off: the depth exceeds the number of tasks, or no path is that long. */
  ghost predicate DeepEnough(ts: Tasks, root: Id, maxDepth: int) {
    || maxDepth > |ts|
    || (maxDepth > 0 && forall x :: !ReachesIn(ts, root, x, maxDepth))
  }

  /** The loop over the dependents of `tid` has followed those in `done`. */
  ghost predicate Followed(ts: Tasks, root: Id, maxDepth: int, depth: nat, stack: set<Id>, tid: Id, done: seq<Id>,
                           visited: set<Id>, via: seq<Id>, chain: seq<Id>) {
    && Sound(ts, root, maxDepth, visited, via, chain) && OnStack(ts, root, stack, depth + 1, visited)
    && tid in stack && (tid == root || tid in chain) && EndsAmong(via, chain, tid, done)
    && (DeepEnough(ts, root, maxDepth) ==>
          Finished(ts, visited - stack, visited, via, chain) && Covered(done, visited, tid, via, chain))
  }

  lemma DependentsAreEdges(ids: seq<Id>, ts: Tasks, tid: Id)
    ensures forall x :: x in Dependents(ids, ts, tid) ==> Edge(ts, tid, x)
  {
  }

  lemma StartsCompose(via: seq<Id>, via': seq<Id>, from: nat, tid: Id, visited: set<Id>, visited': set<Id>)
    requires OnlyNewStarts(via, from, tid, visited) && OnlyNewStarts(via', |via|, tid, visited')
    requires via <= via' && visited <= visited'
    ensures OnlyNewStarts(via', from, tid, visited)
  {
  }

  /** The traversal as a function of the visited set and the list so far. */
  ghost function Walk(ts: Tasks, ids: seq<Id>, tid: Id, depth: nat, maxDepth: int, visited: set<Id>, chain: seq<Id>)
    : (set<Id>, seq<Id>)
    decreases maxDepth - depth, 1, 0
  {
    if depth >= maxDepth || tid in visited then (visited, chain)
    else
      var dependents := Dependents(ids, ts, tid);
      WalkAll(ts, ids, dependents, |dependents|, depth, maxDepth, visited + {tid}, chain)
  }

  ghost function WalkAll(ts: Tasks, ids: seq<Id>, dependents: seq<Id>, j: nat, depth: nat, maxDepth: int,
                         visited: set<Id>, chain: seq<Id>): (set<Id>, seq<Id>)
    requires j <= |dependents| && depth < maxDepth
    decreases maxDepth - depth, 0, j
  {
    if j == 0 then (visited, chain)
    else
      var before := WalkAll(ts, ids, dependents, j - 1, depth, maxDepth, visited, chain);
      Walk(ts, ids, dependents[j - 1], depth + 1, maxDepth, before.0, before.1 + [dependents[j - 1]])
  }

  method Traverse(state: ClusterState, tid: Id, depth: nat, maxDepth: int, visited: set<Id>, chain: seq<Id>,
                  ghost root: Id, ghost stack: set<Id>, ghost via: seq<Id>)
    returns (visited': set<Id>, chain': seq<Id>, ghost via': seq<Id>)
    requires state.Valid() && (maxDepth >= 0 ==> depth <= maxDepth)
    requires Sound(state.tasks, root, maxDepth, visited, via, chain)
    requires OnStack(state.tasks, root, stack, depth, visited)
    requires tid in state.tasks.Keys + {root} && ReachesIn(state.tasks, root, tid, depth)
    requires tid == root || tid in chain
    requires DeepEnough(state.tasks, root, maxDepth) ==> Finished(state.tasks, visited - stack, visited, via, chain)
    ensures visited <= visited' && chain <= chain' && via <= via'
    ensures (visited', chain') == Walk(state.tasks, state.taskIds, tid, depth, maxDepth, visited, chain)
    ensures Sound(state.tasks, root, maxDepth, visited', via', chain')
    ensures forall i :: |via| <= i < |via'| ==> via'[i] !in visited
    ensures DeepEnough(state.tasks, root, maxDepth) ==>
      tid in visited' && Finished(state.tasks, visited' - stack, visited', via', chain')
    decreases maxDepth - depth, 3
  {
    if depth >= maxDepth || tid in visited {
      if tid !in visited { StackFits(state.tasks, root, stack, tid); }
      return visited, chain, via;
    }
    visited', chain', via' := Expand(state, tid, depth, maxDepth, visited + {tid}, chain, root, stack + {tid}, via);
    if DeepEnough(state.tasks, root, maxDepth) {
      FinishOne(state.tasks, stack, tid, Dependents(state.taskIds, state.tasks, tid), visited', via', chain');
    }
  }

  /** A task that is visited for the first time: all its dependents are followed. */
  method Expand(state: ClusterState, tid: Id, depth: nat, maxDepth: int, visited: set<Id>, chain: seq<Id>,
                ghost root: Id, ghost stack: set<Id>, ghost via: seq<Id>)
    returns (visited': set<Id>, chain': seq<Id>, ghost via': seq<Id>)
    requires state.Valid() && depth < maxDepth && ReachesIn(state.tasks, root, tid, depth)
    requires Followed(state.tasks, root, maxDepth, depth, stack, tid, [], visited, via, chain)
    ensures visited <= visited' && chain <= chain' && via <= via'
    ensures OnlyNewStarts(via', |via|, tid, visited)
    ensures var dependents := Dependents(state.taskIds, state.tasks, tid);
      && (visited', chain') ==
           WalkAll(state.tasks, state.taskIds, dependents, |dependents|, depth, maxDepth, visited, chain)
      && Followed(state.tasks, root, maxDepth, depth, stack, tid, dependents, visited', via', chain')
    decreases maxDepth - depth, 2
  {
    var dependents := state.GetDependents(tid);
    DependentsAreEdges(state.taskIds, state.tasks, tid);
    assert dependents[..0] == [] && dependents[..|dependents|] == dependents;
    visited', chain', via' :=
      FollowAll(state, tid, dependents, depth, maxDepth, visited, chain, root, stack, via);
  }

  method FollowAll(state: ClusterState, tid: Id, dependents: seq<Id>, depth: nat, maxDepth: int,
                   visited: set<Id>, chain: seq<Id>, ghost root: Id, ghost stack: set<Id>, ghost via: seq<Id>)
    returns (visited': set<Id>, chain': seq<Id>, ghost via': seq<Id>)
    requires state.Valid() && depth < maxDepth && ReachesIn(state.tasks, root, tid, depth)
    requires Distinct(dependents) && forall x :: x in dependents ==> Edge(state.tasks, tid, x)
    requires Followed(state.tasks, root, maxDepth, depth, stack, tid, dependents[..0], visited, via, chain)
    ensures visited <= visited' && chain <= chain' && via <= via'
    ensures OnlyNewStarts(via', |via|, tid, visited)
    ensures (visited', chain') ==
      WalkAll(state.tasks, state.taskIds, dependents, |dependents|, depth, maxDepth, visited, chain)
    ensures Followed(state.tasks, root, maxDepth, depth, stack, tid, dependents[..|dependents|], visited', via', chain')
    decreases maxDepth - depth, 1
  {
    visited', chain', via' := visited, chain, via;
    for j := 0 to |dependents|
      invariant visited <= visited' && chain <= chain' && via <= via'
      invariant OnlyNewStarts(via', |via|, tid, visited)
      invariant (visited', chain') ==
        WalkAll(state.tasks, state.taskIds, dependents, j, depth, maxDepth, visited, chain)
      invariant Followed(state.tasks, root, maxDepth, depth, stack, tid, dependents[..j], visited', via', chain')
    {
      ghost var visited0, via0 := visited', via';
      visited', chain', via' :=
        Follow(state, tid, dependents, j, depth, maxDepth, visited', chain', root, stack, via');
      StartsCompose(via0, via', |via|, tid, visited, visited0);
    }
  }

  /** One turn of the loop over the dependents of `tid`: append the next one, then descend. */
  method Follow(state: ClusterState, tid: Id, dependents: seq<Id>, j: nat, depth: nat, maxDepth: int,
                visited: set<Id>, chain: seq<Id>, ghost root: Id, ghost stack: set<Id>, ghost via: seq<Id>)
    returns (visited': set<Id>, chain': seq<Id>, ghost via': seq<Id>)
    requires state.Valid() && j < |dependents| && depth < maxDepth && ReachesIn(state.tasks, root, tid, depth)
    requires Distinct(dependents) && forall x :: x in dependents ==> Edge(state.tasks, tid, x)
    requires Followed(state.tasks, root, maxDepth, depth, stack, tid, dependents[..j], visited, via, chain)
    ensures visited <= visited' && chain <= chain' && via <= via'
    ensures OnlyNewStarts(via', |via|, tid, visited)
    ensures (visited', chain') ==
      Walk(state.tasks, state.taskIds, dependents[j], depth + 1, maxDepth, visited, chain + [dependents[j]])
    ensures Followed(state.tasks, root, maxDepth, depth, stack, tid, dependents[..j + 1], visited', via', chain')
    decreases maxDepth - depth, 0
  {
    var dep := dependents[j];
    ghost var ts, done := state.tasks, dependents[..j];
    assert dep in dependents && dep !in done;
    assert dependents[..j + 1] == done + [dep];
    BeforeDescent(ts, root, maxDepth, depth, stack, tid, done, visited, via, chain, dep);
    visited', chain', via' :=
      Traverse(state, dep, depth + 1, maxDepth, visited, chain + [dep], root, stack, via + [tid]);
    AfterDescent(ts, root, maxDepth, depth, stack, tid, done, visited, via, chain, dep, visited', via', chain');
  }

  lemma BeforeDescent(ts: Tasks, root: Id, maxDepth: int, depth: nat, stack: set<Id>, tid: Id, done: seq<Id>,
                      visited: set<Id>, via: seq<Id>, chain: seq<Id>, dep: Id)
    requires Followed(ts, root, maxDepth, depth, stack, tid, done, visited, via, chain) && depth < maxDepth
    requires ReachesIn(ts, root, tid, depth) && Edge(ts, tid, dep) && dep !in done
    ensures ReachesIn(ts, root, dep, depth + 1) && dep in ts
    ensures Sound(ts, root, maxDepth, visited, via + [tid], chain + [dep])
    ensures DeepEnough(ts, root, maxDepth) ==> Finished(ts, visited - stack, visited, via + [tid], chain + [dep])
  {
    ExtendReach(ts, root, tid, dep, depth);
    assert Near(ts, root, dep, maxDepth);
    AddEdge(ts, root, maxDepth, visited, via, chain, tid, dep);
    if DeepEnough(ts, root, maxDepth) { FinishedStays(ts, visited - stack, visited, via, chain, tid, dep); }
  }

  lemma AfterDescent(ts: Tasks, root: Id, maxDepth: int, depth: nat, stack: set<Id>, tid: Id, done: seq<Id>,
                     visited: set<Id>, via: seq<Id>, chain: seq<Id>, dep: Id,
                     visited': set<Id>, via': seq<Id>, chain': seq<Id>)
    requires Followed(ts, root, maxDepth, depth, stack, tid, done, visited, via, chain)
    requires visited <= visited' && via + [tid] <= via' && chain + [dep] <= chain'
    requires Sound(ts, root, maxDepth, visited', via', chain')
    requires forall i :: |via + [tid]| <= i < |via'| ==> via'[i] !in visited
    requires DeepEnough(ts, root, maxDepth) ==> dep in visited' && Finished(ts, visited' - stack, visited', via', chain')
    ensures Followed(ts, root, maxDepth, depth, stack, tid, done + [dep], visited', via', chain')
    ensures OnlyNewStarts(via', |via|, tid, visited)
  {
    PrefixKeeps(chain + [dep], chain', tid);
    if DeepEnough(ts, root, maxDepth) { CoverOne(done, dep, visited, visited', tid, via, chain, via', chain'); }
  }

  /** Every edge out of the root, or out of an id that it reaches, is listed. */
  ghost predicate ListsAllFrom(ts: Tasks, root: Id, via: seq<Id>, chain: seq<Id>) {
    forall u, v :: (u == root || Reaches(ts, root, u)) && Edge(ts, u, v) ==> Listed(via, chain, u, v)
  }

  /** It terminates on every graph, cyclic ones included. Every id in the chain is reached by 1 to
      `maxDepth` edges; each id is expanded at most once, so the chain is no longer than there are
      edges, and it follows its parent; and if no path is cut off, the chain lists each edge out of
      what is reachable exactly once, and so holds exactly what is reachable. */
  method GetTriggerChain(state: ClusterState, taskId: Id, maxDepth: int) returns (chain: seq<Id>)
    requires state.Valid()
    ensures chain == Walk(state.tasks, state.taskIds, taskId, 0, maxDepth, {}, []).1
    ensures forall x :: x in chain ==> Near(state.tasks, taskId, x, maxDepth)
    ensures exists via ::
      (&& ListsEdgesOnce(state.tasks, via, chain) && ParentsFirst(taskId, via, chain)
       && (DeepEnough(state.tasks, taskId, maxDepth) ==> ListsAllFrom(state.tasks, taskId, via, chain)))
    ensures |chain| <= |Edges(state.tasks)|
    ensures DeepEnough(state.tasks, taskId, maxDepth) ==>
      forall x :: x in chain <==> Reaches(state.tasks, taskId, x)
  {
    ghost var ts := state.tasks;
    ReachSelf(ts, taskId);
    var visited;
    ghost var via;
    visited, chain, via := Traverse(state, taskId, 0, maxDepth, {}, [], taskId, {}, []);
    EdgesBound(ts, via, chain);
    if DeepEnough(ts, taskId, maxDepth) {
      ChainIsReach(ts, taskId, visited, via, chain, maxDepth);
    }
  }

  /** When paths are cut off, an id can be missing although it is near enough: the task `n` is first
      met at the end of the longer path, where its dependents are not followed, and not expanded
      again when it is met on the shorter one. */
  lemma SharedTaskCutsChain(ts: Tasks, ids: seq<Id>, r: Id, a: Id, n: Id, m: Id, k: Id)
    requires r != a && r != n && a != n && k != a && k != n && k != m
    requires Dependents(ids, ts, r) == [a, n] && Dependents(ids, ts, a) == [n]
    requires Dependents(ids, ts, n) == [m] && k in Dependents(ids, ts, m)
    ensures Near(ts, r, k, 3) && k !in Walk(ts, ids, r, 0, 3, {}, []).1
  {
    NearByThree(ts, ids, r, n, m, k);
    SharedWalk(ts, ids, r, a, n, m);
  }

  lemma NearByThree(ts: Tasks, ids: seq<Id>, r: Id, n: Id, m: Id, k: Id)
    requires n in Dependents(ids, ts, r) && m in Dependents(ids, ts, n) && k in Dependents(ids, ts, m)
    ensures Near(ts, r, k, 3)
  {
    ReachSelf(ts, r);
    ExtendReach(ts, r, r, n, 0);
    ExtendReach(ts, r, n, m, 1);
    ExtendReach(ts, r, m, k, 2);
  }

  lemma SharedWalk(ts: Tasks, ids: seq<Id>, r: Id, a: Id, n: Id, m: Id)
    requires r != a && r != n && a != n
    requires Dependents(ids, ts, r) == [a, n] && Dependents(ids, ts, a) == [n] && Dependents(ids, ts, n) == [m]
    ensures Walk(ts, ids, r, 0, 3, {}, []).1 == [a, n, m, n]
  {
    var seen := {} + {r};
    WalkOne(ts, ids, a, n, 1, 3, seen, [] + [a]);
    WalkOne(ts, ids, n, m, 2, 3, seen + {a}, [] + [a] + [n]);
    var all := [a, n];
    assert WalkAll(ts, ids, all, 0, 0, 3, seen, []) == (seen, []);
    var first := WalkAll(ts, ids, all, 1, 0, 3, seen, []);
    assert first == (seen + {a} + {n}, [] + [a] + [n] + [m]);
    assert WalkAll(ts, ids, all, 2, 0, 3, seen, []) == (first.0, first.1 + [n]);
  }

  /** A first visit to a task with one dependent. */
  lemma WalkOne(ts: Tasks, ids: seq<Id>, u: Id, v: Id, depth: nat, maxDepth: int, visited: set<Id>, chain: seq<Id>)
    requires Dependents(ids, ts, u) == [v] && depth < maxDepth && u !in visited
    ensures Walk(ts, ids, u, depth, maxDepth, visited, chain) ==
      Walk(ts, ids, v, depth + 1, maxDepth, visited + {u}, chain + [v])
  {
    assert WalkAll(ts, ids, [v], 0, depth, maxDepth, visited + {u}, chain) == (visited + {u}, chain);
  }

  lemma EdgesBound(ts: Tasks, via: seq<Id>, chain: seq<Id>)
    requires ListsEdgesOnce(ts, via, chain)
    ensures |chain| <= |Edges(ts)|
  {
    var pairs := seq(|chain|, i requires 0 <= i < |chain| && |via| == |chain| => (via[i], chain[i]));
    var listed := set i | 0 <= i < |pairs| :: pairs[i];
    DistinctCard(pairs, listed);
    SubsetCard(listed, Edges(ts));
  }

  lemma ChainIsReach(ts: Tasks, root: Id, visited: set<Id>, via: seq<Id>, chain: seq<Id>, most: int)
    requires root in visited && Finished(ts, visited, visited, via, chain)
    requires forall x :: x in chain ==> Near(ts, root, x, most)
    ensures forall x :: x in chain <==> Reaches(ts, root, x)
    ensures ListsAllFrom(ts, root, via, chain)
  {
    forall x | Reaches(ts, root, x) ensures x in chain && x in visited {
      var k: nat :| k >= 1 && ReachesIn(ts, root, x, k);
      var b := SplitReach(ts, root, x, k);
      ClosedHoldsReach(ts, visited, root, b, k - 1);
      assert Listed(via, chain, b, x);
    }
    forall x | x in chain ensures Reaches(ts, root, x) {
      assert Near(ts, root, x, most);
    }
  }
}
