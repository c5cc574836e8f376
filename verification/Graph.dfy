/** The dependency graph: an edge from a task to each task that depends on it. */
module Graph {
  import opened Types
  import opened Seqs

  predicate Edge(ts: Tasks, a: Id, b: Id) {
    b in ts && a in ts[b].dependsOn
  }

  ghost predicate Path(ts: Tasks, p: seq<Id>) {
    p != [] && forall i :: 0 <= i < |p| - 1 ==> Edge(ts, p[i], p[i + 1])
  }

  ghost predicate Cycle(ts: Tasks, p: seq<Id>) {
    |p| >= 2 && Path(ts, p) && p[0] == p[|p| - 1]
  }

  /** `b` is reached from `a` by `k` edges. */
  ghost predicate ReachesIn(ts: Tasks, a: Id, b: Id, k: nat) {
    exists p :: Path(ts, p) && |p| == k + 1 && p[0] == a && p[k] == b
  }

  /** `b` is reached from `a` by at least one edge. */
  ghost predicate Reaches(ts: Tasks, a: Id, b: Id) {
    exists k: nat :: k >= 1 && ReachesIn(ts, a, b, k)
  }

  lemma ExtendReach(ts: Tasks, a: Id, b: Id, c: Id, k: nat)
    requires ReachesIn(ts, a, b, k) && Edge(ts, b, c)
    ensures ReachesIn(ts, a, c, k + 1)
  {
    var p :| Path(ts, p) && |p| == k + 1 && p[0] == a && p[k] == b;
    assert Path(ts, p + [c]) && |p + [c]| == k + 2 && (p + [c])[k + 1] == c;
  }

  lemma ReachSelf(ts: Tasks, a: Id)
    ensures ReachesIn(ts, a, a, 0)
  {
    assert Path(ts, [a]) && |[a]| == 1;
  }

  /** The last edge of a path. */
  lemma SplitReach(ts: Tasks, a: Id, c: Id, k: nat) returns (b: Id)
    requires ReachesIn(ts, a, c, k) && k >= 1
    ensures ReachesIn(ts, a, b, k - 1) && Edge(ts, b, c)
  {
    var p :| Path(ts, p) && |p| == k + 1 && p[0] == a && p[k] == c;
    b := p[k - 1];
    assert Path(ts, p[..k]) && |p[..k]| == k;
    assert Edge(ts, p[k - 1], p[k - 1 + 1]);
  }

  /** A set that contains `a` and is closed under edges contains everything `a` reaches. */
  lemma {:induction false} ClosedHoldsReach(ts: Tasks, closed: set<Id>, a: Id, c: Id, k: nat)
    requires a in closed && ReachesIn(ts, a, c, k)
    requires forall u, v :: u in closed && Edge(ts, u, v) ==> v in closed
    ensures c in closed
    decreases k
  {
    if k > 0 {
      var b := SplitReach(ts, a, c, k);
      ClosedHoldsReach(ts, closed, a, b, k - 1);
    } else {
      var p :| Path(ts, p) && |p| == 1 && p[0] == a && p[0] == c;
    }
  }

  lemma SubsetCard<T>(a: set<T>, b: set<T>)
    requires a <= b
    ensures |a| <= |b|
  {
    assert b == a + (b - a);
  }

  /** More steps than places: some place is visited twice. */
  lemma Pigeonhole(p: seq<Id>, places: set<Id>)
    requires |p| > |places| && forall i :: 0 <= i < |p| ==> p[i] in places
    ensures exists i, j :: 0 <= i < j < |p| && p[i] == p[j]
  {
    if Distinct(p) {
      var visited := set i | 0 <= i < |p| :: p[i];
      DistinctCard(p, visited);
      SubsetCard(visited, places);
    }
  }

  ghost predicate Within(p: seq<Id>, places: set<Id>) {
    forall i :: 0 <= i < |p| ==> p[i] in places
  }

  /** Some edge from a member of `places` leads into `t`. */
  ghost predicate EnteredFrom(ts: Tasks, places: set<Id>, t: Id) {
    exists d :: d in places && Edge(ts, d, t)
  }

  lemma {:induction false} WalkBack(ts: Tasks, places: set<Id>, k: nat) returns (p: seq<Id>)
    requires places != {}
    requires forall t {:trigger EnteredFrom(ts, places, t)} :: t in places ==> EnteredFrom(ts, places, t)
    ensures Path(ts, p) && |p| == k + 1 && Within(p, places)
  {
    if k == 0 {
      var t :| t in places;
      p := [t];
    } else {
      var q := WalkBack(ts, places, k - 1);
      assert EnteredFrom(ts, places, q[0]);
      var d :| d in places && Edge(ts, d, q[0]);
      p := [d] + q;
    }
  }

  /** If every member of a set has an edge into it from the set, the set holds a cycle. */
  lemma NoSourceMeansCycle(ts: Tasks, places: set<Id>)
    requires places != {}
    requires forall t {:trigger EnteredFrom(ts, places, t)} :: t in places ==> EnteredFrom(ts, places, t)
    ensures exists p :: Cycle(ts, p) && Within(p, places)
  {
    var p := WalkBack(ts, places, |places|);
    Pigeonhole(p, places);
    var i, j :| 0 <= i < j < |p| && p[i] == p[j];
    var c := p[i..j + 1];
    forall k | 0 <= k < |c| - 1 ensures Edge(ts, c[k], c[k + 1]) {
      assert Edge(ts, p[i + k], p[i + k + 1]);
    }
    assert Cycle(ts, c) && Within(c, places);
  }
}
