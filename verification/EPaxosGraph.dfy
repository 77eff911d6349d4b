/** The dependency graph of committed EPaxos instances, what a valid execution order of
    it is, and why any two valid orders agree (epaxos/exec.go). */
module EPaxosGraph {
  import opened Store

  datatype InstId = InstId(rep: nat, inst: nat)

  // What a commit fixes for an instance, the same at every replica.
  datatype Node = Node(cmds: seq<Command>, seqno: int, deps: seq<int>)

  type Graph = map<InstId, Node>

  // deps[q] names the last instance of row q that must not run after this one; all earlier ones are included.
  predicate Edge(G: Graph, x: InstId, y: InstId) {
    x in G && y.rep < |G[x].deps| && y.inst <= G[x].deps[y.rep]
  }

  predicate IsPath(G: Graph, p: seq<InstId>) {
    |p| > 0 && forall k :: 0 <= k < |p| - 1 ==> Edge(G, p[k], p[k + 1])
  }

  ghost predicate Reach(G: Graph, x: InstId, y: InstId) {
    exists p :: IsPath(G, p) && p[0] == x && p[|p| - 1] == y
  }

  ghost predicate SameScc(G: Graph, x: InstId, y: InstId) {
    Reach(G, x, y) && Reach(G, y, x)
  }

  lemma ReachSelf(G: Graph, x: InstId)
    ensures Reach(G, x, x)
  {
    assert IsPath(G, [x]);
  }

  lemma ReachEdge(G: Graph, x: InstId, y: InstId)
    requires Edge(G, x, y)
    ensures Reach(G, x, y)
  {
    assert IsPath(G, [x, y]);
  }

  lemma ReachTrans(G: Graph, x: InstId, y: InstId, z: InstId)
    requires Reach(G, x, y) && Reach(G, y, z)
    ensures Reach(G, x, z)
  {
    var p :| IsPath(G, p) && p[0] == x && p[|p| - 1] == y;
    var q :| IsPath(G, q) && q[0] == y && q[|q| - 1] == z;
    var r := p + q[1..];
    forall k | 0 <= k < |r| - 1 ensures Edge(G, r[k], r[k + 1]) {
      if k < |p| - 1 {
        assert r[k] == p[k] && r[k + 1] == p[k + 1];
      } else {
        assert r[k] == q[k - |p| + 1] && r[k + 1] == q[k - |p| + 2];
      }
    }
    assert IsPath(G, r);
  }

  ghost predicate Closed(G: Graph, S: set<InstId>) {
    forall x, y :: x in S && Edge(G, x, y) ==> y in S
  }

  // Nothing reachable from a closed set lies outside it.
  lemma ReachStays(G: Graph, S: set<InstId>, x: InstId, y: InstId)
    requires Closed(G, S) && x in S && Reach(G, x, y)
    ensures y in S
  {
    var p :| IsPath(G, p) && p[0] == x && p[|p| - 1] == y;
    PathStays(G, S, p, |p| - 1);
  }

  lemma {:induction false} PathStays(G: Graph, S: set<InstId>, p: seq<InstId>, k: nat)
    requires Closed(G, S) && IsPath(G, p) && p[0] in S && k < |p|
    ensures p[k] in S
  {
    if k > 0 {
      PathStays(G, S, p, k - 1);
      assert Edge(G, p[k - 1], p[k]);
    }
  }

  // ---- Execution logs ----

  // Batches, in the order they were executed.
  type Log = seq<seq<InstId>>

  ghost predicate InLog(log: Log, x: InstId) {
    exists i :: 0 <= i < |log| && x in log[i]
  }

  // The part of the sort order every replica shares: Seq, then replica.
  predicate KeyLess(G: Graph, x: InstId, y: InstId)
    requires x in G && y in G
  {
    G[x].seqno < G[y].seqno || (G[x].seqno == G[y].seqno && x.rep < y.rep)
  }

  ghost predicate Sorted(G: Graph, b: seq<InstId>) {
    && (forall x <- b :: x in G)
    && (forall i, j :: 0 <= i < j < |b| ==> !KeyLess(G, b[j], b[i]) && b[i] != b[j])
  }

  ghost predicate ExactScc(G: Graph, b: seq<InstId>) {
    b != [] && forall x, y :: x in b ==> (y in b <==> SameScc(G, x, y))
  }

  // Every batch is one strongly connected component in sorted order, and runs after all it depends on.
  ghost predicate ValidLog(G: Graph, log: Log) {
    && (forall i :: 0 <= i < |log| ==> ExactScc(G, log[i]) && Sorted(G, log[i]))
    && (forall i, x, y :: 0 <= i < |log| && x in log[i] && Edge(G, x, y) ==> exists j :: 0 <= j <= i && y in log[j])
    && (forall i, j, x :: 0 <= i < j < |log| && x in log[i] ==> x !in log[j])
  }

  // x was executed before y.
  ghost predicate Ran(log: Log, x: InstId, y: InstId) {
    exists i, a, j, b :: At(log, i, a, x) && At(log, j, b, y) && (i < j || (i == j && a < b))
  }

  predicate At(log: Log, i: int, a: int, x: InstId) {
    0 <= i < |log| && 0 <= a < |log[i]| && log[i][a] == x
  }

  lemma Locate(log: Log, x: InstId) returns (i: int, a: int)
    requires InLog(log, x)
    ensures At(log, i, a, x)
  {
    i :| 0 <= i < |log| && x in log[i];
    a :| 0 <= a < |log[i]| && log[i][a] == x;
  }

  lemma AtUnique(G: Graph, log: Log, i: int, a: int, j: int, b: int, x: InstId)
    requires ValidLog(G, log) && At(log, i, a, x) && At(log, j, b, x)
    ensures i == j && a == b
  {
    assert x in log[i] && x in log[j];
    assert Sorted(G, log[i]);
  }

  // Reaching y means y ran in the same batch or an earlier one.
  lemma ReachEarlier(G: Graph, log: Log, i: nat, x: InstId, y: InstId)
    requires ValidLog(G, log) && i < |log| && x in log[i] && Reach(G, x, y)
    ensures exists j :: 0 <= j <= i && y in log[j]
  {
    var S := set j, z | 0 <= j <= i && z in log[j] :: z;
    forall u, v | u in S && Edge(G, u, v) ensures v in S {
      var j :| 0 <= j <= i && u in log[j];
      assert exists k :: 0 <= k <= j && v in log[k];
    }
    ReachStays(G, S, x, y);
  }

  // Seq and replica identify an instance within its component.
  ghost predicate UniqueKeys(G: Graph) {
    forall x, y :: x in G && y in G && x != y && SameScc(G, x, y) ==> KeyLess(G, x, y) || KeyLess(G, y, x)
  }

  lemma LinkedOrder(G: Graph, log: Log, x: InstId, y: InstId)
    requires ValidLog(G, log) && UniqueKeys(G) && InLog(log, x) && InLog(log, y) && x != y
    requires Reach(G, x, y)
    ensures Ran(log, x, y) <==> Reach(G, y, x) && x in G && y in G && KeyLess(G, x, y)
  {
    var i, a := Locate(log, x);
    var j, b := Locate(log, y);
    LinkedBatches(G, log, x, y, i, j);
    if Ran(log, x, y) {
      var i', a', j', b' :| At(log, i', a', x) && At(log, j', b', y) && (i' < j' || (i' == j' && a' < b'));
      AtUnique(G, log, i, a, i', a', x);
      AtUnique(G, log, j, b, j', b', y);
    }
    hide Reach, Edge, InLog;
    if i == j {
      assert Sorted(G, log[i]);
      assert KeyLess(G, x, y) || KeyLess(G, y, x);
    }
  }

  // x depends on y: same batch if they depend on each other, else y's batch is earlier.
  lemma LinkedBatches(G: Graph, log: Log, x: InstId, y: InstId, i: nat, j: nat)
    requires ValidLog(G, log) && i < |log| && j < |log| && x in log[i] && y in log[j] && Reach(G, x, y)
    ensures j <= i && (i == j <==> Reach(G, y, x))
  {
    ReachEarlier(G, log, i, x, y);
    var k :| 0 <= k <= i && y in log[k];
    assert k == j;
    if i == j {
      assert ExactScc(G, log[i]);
    }
    if Reach(G, y, x) {
      assert ExactScc(G, log[i]);
      assert y in log[i];
    }
  }

  // Two replicas execute any two instances linked by a dependency path in the same order,
  // whatever roots and retries produced their logs.
  lemma OrderIndependence(G: Graph, log1: Log, log2: Log, x: InstId, y: InstId)
    requires ValidLog(G, log1) && ValidLog(G, log2) && UniqueKeys(G)
    requires InLog(log1, x) && InLog(log1, y) && InLog(log2, x) && InLog(log2, y)
    requires Reach(G, x, y) || Reach(G, y, x)
    ensures Ran(log1, x, y) <==> Ran(log2, x, y)
  {
    if x == y {
      SelfNotRan(G, log1, x);
      SelfNotRan(G, log2, x);
    } else if Reach(G, x, y) {
      LinkedOrder(G, log1, x, y);
      LinkedOrder(G, log2, x, y);
    } else {
      LinkedOrder(G, log1, y, x);
      LinkedOrder(G, log2, y, x);
      RanTotal(G, log1, x, y);
      RanTotal(G, log2, x, y);
    }
  }

  lemma SelfNotRan(G: Graph, log: Log, x: InstId)
    requires ValidLog(G, log)
    ensures !Ran(log, x, x)
  {
    forall i, a, j, b | At(log, i, a, x) && At(log, j, b, x) ensures i == j && a == b {
      AtUnique(G, log, i, a, j, b, x);
    }
  }

  lemma RanTotal(G: Graph, log: Log, x: InstId, y: InstId)
    requires ValidLog(G, log) && InLog(log, x) && InLog(log, y) && x != y
    ensures Ran(log, x, y) <==> !Ran(log, y, x)
  {
    var i, a := Locate(log, x);
    var j, b := Locate(log, y);
    forall i', a' | At(log, i', a', x) ensures i' == i && a' == a { AtUnique(G, log, i, a, i', a', x); }
    forall j', b' | At(log, j', b', y) ensures j' == j && b' == b { AtUnique(G, log, j, b, j', b', y); }
  }
}
