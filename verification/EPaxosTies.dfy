/** Ties on Seq and replica inside a component of EPaxos (nodeArray.Less of epaxos/exec.go):
    the local propose time decides, so two executors can disagree. */
module EPaxosTies {
  import opened EPaxosAttributes
  import opened EPaxosConverge
  import opened EPaxosExec
  import opened EPaxosExecutor
  import opened EPaxosGraph
  import opened Options
  import opened Store

  function Time(e: Exec, x: InstId): int
    requires x in e.inst
    reads e
  {
    e.inst[x].proposeTime
  }

  // Inside a component an executor runs the lower Seq first, then the lower replica, then the earlier
  // propose time.
  lemma ComponentOrder(e: Exec, x: InstId, y: InstId)
    requires e.Valid() && {x, y} <= Done(e.inst) && SameScc(e.G, x, y) && x in e.inst && y in e.inst
    requires var a, b := e.inst[x], e.inst[y];
             || a.seqno < b.seqno
             || (a.seqno == b.seqno && x.rep < y.rep)
             || (a.seqno == b.seqno && x.rep == y.rep && a.proposeTime < b.proposeTime)
    ensures Ran(e.log, x, y) && !Ran(e.log, y, x)
  {
    hide Reach, Edge, Agrees, MarksOK, StoreOK, Quiet;
    assert InLog(e.log, x) && InLog(e.log, y);
    var i, p := Locate(e.log, x);
    var j, q := Locate(e.log, y);
    assert ExactScc(e.G, e.log[i]);
    assert i == j by { BatchOf(e.G, e.log, i, j, y); }
    assert BatchSorted(e.inst, e.log[i]);
    SortedPositions(e.inst, e.log[i], p, q);
    hide ValidLog, ExactScc, BatchSorted, SameScc;
    RanTotal(e.G, e.log, x, y);
  }

  lemma SortedPositions(inst: Space, b: seq<InstId>, p: nat, q: nat)
    requires BatchSorted(inst, b) && p < |b| && q < |b| && b[p] in inst && b[q] in inst && NodeLess(inst, b[p], b[q])
    ensures p < q
  {
    assert forall j, k :: 0 <= j < k < |b| ==> !NodeLess(inst, b[k], b[j]);
  }

  lemma BatchOf(G: Graph, log: Log, i: nat, j: nat, y: InstId)
    requires ValidLog(G, log) && i < |log| && j < |log| && y in log[i] && y in log[j]
    ensures i == j
  {
  }

  // On a tie the executor's own propose times decide.
  lemma TieByTime(e: Exec, x: InstId, y: InstId)
    requires e.Valid() && {x, y} <= Done(e.inst) && SameScc(e.G, x, y)
    requires e.G[x].seqno == e.G[y].seqno && x.rep == y.rep && Time(e, x) != Time(e, y)
    ensures Ran(e.log, x, y) <==> Time(e, x) < Time(e, y)
  {
    SeqKnown(e, x);
    SeqKnown(e, y);
    hide Reach, Edge, ValidLog, MarksOK, StoreOK, Quiet, Agrees, LogOK, Done;
    if Time(e, x) < Time(e, y) {
      ComponentOrder(e, x, y);
    } else {
      ComponentOrder(e, y, x);
    }
  }

  lemma SeqKnown(e: Exec, x: InstId)
    requires e.Valid() && x in Done(e.inst)
    ensures x in e.inst && x in e.G && e.inst[x].seqno == e.G[x].seqno
  {
    hide LogOK, MarksOK, StoreOK, Quiet;
  }

  // Otherwise the keys that all replicas share decide.
  lemma ByKey(e: Exec, x: InstId, y: InstId)
    requires e.Valid() && {x, y} <= Done(e.inst) && SameScc(e.G, x, y) && x in e.G && y in e.G && KeyLess(e.G, x, y)
    ensures Ran(e.log, x, y) && !Ran(e.log, y, x)
  {
    SeqKnown(e, x);
    SeqKnown(e, y);
    hide Reach, Edge, ValidLog, MarksOK, StoreOK, Quiet, Agrees, LogOK, Done, SameScc, Ran;
    ComponentOrder(e, x, y);
  }

  lemma TurnScc(G: Graph, x: InstId, y: InstId)
    requires SameScc(G, x, y)
    ensures SameScc(G, y, x)
  {
  }

  // Two executors with the same decisions order two instances of one component alike exactly when
  // Seq or replica tells them apart or their propose times happen to be ordered alike.
  lemma OrderExact(a: Exec, b: Exec, x: InstId, y: InstId)
    requires a.Valid() && b.Valid() && a.G == b.G && {x, y} <= Done(a.inst) * Done(b.inst) && SameScc(a.G, x, y)
    requires x in a.inst && y in a.inst && x in b.inst && y in b.inst && x in a.G && y in a.G
    requires Time(a, x) != Time(a, y) && Time(b, x) != Time(b, y)
    ensures (Ran(a.log, x, y) <==> Ran(b.log, x, y)) <==>
              KeyLess(a.G, x, y) || KeyLess(a.G, y, x) || (Time(a, x) < Time(a, y) <==> Time(b, x) < Time(b, y))
  {
    hide Reach, Edge, ValidLog, MarksOK, StoreOK, Quiet, Agrees, LogOK, Done, SameScc, Ran, a.Valid, b.Valid;
    if KeyLess(a.G, x, y) {
      ByKey(a, x, y);
      ByKey(b, x, y);
    } else if KeyLess(a.G, y, x) {
      TurnScc(a.G, x, y);
      ByKey(a, y, x);
      ByKey(b, y, x);
    } else {
      TieByTime(a, x, y);
      TieByTime(b, x, y);
    }
  }

  // ---- Two executors that disagree ----

  const X: InstId := InstId(0, 0)
  const Y: InstId := InstId(0, 1)
  const Z: InstId := InstId(1, 0)

  // Two PUTs of replica 0 and a GET of replica 1, on one key, as contention decides them.
  function TiedGraph(k: Key, v: Value, w: Value): Graph {
    map[X := EPaxosGraph.Node([Command(PUT, k, v)], 1, [-1, 0, -1]),
        Y := EPaxosGraph.Node([Command(PUT, k, w)], 1, [0, -1, -1]),
        Z := EPaxosGraph.Node([Command(GET, k, NIL)], 2, [1, -1, -1])]
  }

  lemma TiedEdges(k: Key, v: Value, w: Value)
    ensures var G := TiedGraph(k, v, w);
            && SameScc(G, X, Y) && SameScc(G, Y, Z) && SameScc(G, X, Z)
            && forall z :: Reach(G, X, z) <==> z in {X, Y, Z}
  {
    var G := TiedGraph(k, v, w);
    ReachEdge(G, X, Z);
    ReachEdge(G, Z, Y);
    ReachEdge(G, Y, X);
    assert Closed(G, {X, Y, Z});
    hide Reach, Edge, Closed, TiedGraph;
    ReachTrans(G, X, Z, Y);
    ReachTrans(G, Z, Y, X);
    ReachTrans(G, Y, X, Z);
    ReachSelf(G, X);
    forall z | Reach(G, X, z) ensures z in {X, Y, Z} {
      ReachStays(G, {X, Y, Z}, X, z);
    }
  }

  // An executor hears of an instance at its local time and then learns the decision.
  method Hear(e: Exec, x: InstId, node: Node, now: int)
    requires e.Valid() && e.Watermarks() && x !in e.inst && x.rep < e.n && x in e.G && e.G[x] == node && |node.deps| == e.n
    modifies e`inst, e`crt, e`committedUpTo
    ensures e.Valid() && e.Watermarks() && Done(e.inst) == Done(old(e.inst))
    ensures e.inst == old(e.inst)[x := Inst(Some(node.cmds), Committed, node.seqno, node.deps, 0, 0, now, 0)]
  {
    hide Agrees, LogOK, MarksOK, StoreOK, Quiet, CommittedTo, Done;
    e.LearnTentative(x, None, node.seqno, node.deps, 0, now);
    e.LearnCommit(x, node.cmds, node.seqno, node.deps, 0, now);
  }

  // An executor that hears of X and Y at the given local times.
  method LearnTied(ghost G: Graph, x: Node, y: Node, z: Node, timeX: int, timeY: int) returns (e: Exec)
    requires G == map[X := x, Y := y, Z := z] && |x.deps| == |y.deps| == |z.deps| == 3
    ensures fresh(e) && e.Valid() && e.G == G && Done(e.inst) == {}
    ensures Ready(e.inst, X) && Ready(e.inst, Y) && Ready(e.inst, Z) && e.inst[X].status == Committed
    ensures e.inst[X].proposeTime == timeX && e.inst[Y].proposeTime == timeY
  {
    hide Agrees, LogOK, MarksOK, StoreOK, Quiet, CommittedTo, Done;
    e := new Exec(3, G);
    assert Done(e.inst) == {} by { NoneDone(); }
    Hear(e, X, x, timeX);
    Hear(e, Y, y, timeY);
    Hear(e, Z, z, timeX);
  }

  lemma NoneDone()
    ensures Done(map[]) == {}
  {
  }

  lemma TiedReady(inst: Space, k: Key, v: Value, w: Value)
    requires Ready(inst, X) && Ready(inst, Y) && Ready(inst, Z)
    ensures !Blocked(TiedGraph(k, v, w), inst, X)
  {
    TiedEdges(k, v, w);
    hide Reach, Ready, SameScc;
  }

  // ... and executes them.
  method RunTied(ghost k: Key, ghost v: Value, ghost w: Value, x: Node, y: Node, z: Node, timeX: int, timeY: int) returns (e: Exec)
    requires TiedGraph(k, v, w) == map[X := x, Y := y, Z := z] && |x.deps| == |y.deps| == |z.deps| == 3
    ensures fresh(e) && e.Valid() && e.G == TiedGraph(k, v, w) && Done(e.inst) == {X, Y, Z}
    ensures X in e.inst && Y in e.inst && Time(e, X) == timeX && Time(e, Y) == timeY
  {
    hide Reach, SameScc, Exec.Valid, TiedGraph, Blocked, Done, SameContent, Time;
    ghost var G := TiedGraph(k, v, w);
    TiedEdges(k, v, w);
    e := LearnTied(G, x, y, z, timeX, timeY);
    TiedReady(e.inst, k, v, w);
    ghost var before := e.inst;
    var ok := e.FindSCC(X);
    KeptTimes(before, e.inst, X);
    KeptTimes(before, e.inst, Y);
    TimeIs(e, X);
    TimeIs(e, Y);
    assert Done(e.inst) == {X, Y, Z};
  }

  lemma KeptTimes(a: Space, b: Space, x: InstId)
    requires SameContent(a, b) && x in a
    ensures x in b && b[x].proposeTime == a[x].proposeTime
  {
  }

  lemma TimeIs(e: Exec, x: InstId)
    requires x in e.inst
    ensures Time(e, x) == e.inst[x].proposeTime
  {
  }

  // The log of such an executor is one batch: the PUTs in the order of the times, then the GET.
  lemma TiedLog(e: Exec, k: Key, v: Value, w: Value)
    requires e.Valid() && e.G == TiedGraph(k, v, w) && Done(e.inst) == {X, Y, Z}
    requires X in e.inst && Y in e.inst && Time(e, X) != Time(e, Y)
    ensures e.log == if Time(e, X) < Time(e, Y) then [[X, Y, Z]] else [[Y, X, Z]]
  {
    SeqKnown(e, X);
    SeqKnown(e, Y);
    SeqKnown(e, Z);
    TiedEdges(k, v, w);
    TiedNodes(k, v, w);
    hide TiedGraph, Exec.Valid, SameScc, Reach;
    assert NodeLess(e.inst, X, Z) && NodeLess(e.inst, Y, Z);
    assert if Time(e, X) < Time(e, Y) then NodeLess(e.inst, X, Y) else NodeLess(e.inst, Y, X);
    hide *;
    if Time(e, X) < Time(e, Y) {
      BatchLog(e, X, Y, Z);
    } else {
      TurnScc(e.G, X, Y);
      BatchLog(e, Y, X, Z);
    }
  }

  // Three executed instances of one component, in the executor's order.
  lemma BatchLog(e: Exec, x: InstId, y: InstId, z: InstId)
    requires e.Valid() && Done(e.inst) == {x, y, z} && SameScc(e.G, x, y) && SameScc(e.G, y, z)
    requires NodeLess(e.inst, x, y) && NodeLess(e.inst, y, z)
    ensures e.log == [[x, y, z]]
  {
    hide Reach, ValidLog, Agrees, LogOK, MarksOK, StoreOK, Quiet, Done, SameScc;
    Logged(e);
    SeqKnown(e, x);
    SeqKnown(e, y);
    SeqKnown(e, z);
    ComponentOrder(e, x, y);
    ComponentOrder(e, y, z);
    OneBatch(e.G, e.log, x, y, z);
  }

  lemma Logged(e: Exec)
    requires e.Valid()
    ensures ValidLog(e.G, e.log) && forall z :: InLog(e.log, z) <==> z in Done(e.inst)
  {
    hide ValidLog, Agrees, MarksOK, StoreOK, Quiet;
  }

  // A valid log of three instances of one component is one batch.
  lemma OneBatch(G: Graph, log: Log, x: InstId, y: InstId, z: InstId)
    requires ValidLog(G, log) && (forall u :: InLog(log, u) <==> u in {x, y, z}) && SameScc(G, x, y) && SameScc(G, y, z)
    requires Ran(log, x, y) && !Ran(log, y, x) && Ran(log, y, z) && !Ran(log, z, y)
    ensures log == [[x, y, z]]
  {
    hide Reach, Edge, SameScc;
    assert InLog(log, x) && InLog(log, y) && InLog(log, z);
    var i, p := Locate(log, x);
    var j, q := Locate(log, y);
    var l, r := Locate(log, z);
    assert ExactScc(G, log[i]) && ExactScc(G, log[j]);
    BatchOf(G, log, i, j, y);
    BatchOf(G, log, j, l, z);
    OnlyBatch(G, log, i, {x, y, z});
    var b := log[i];
    assert Sorted(G, b);
    hide ValidLog, ExactScc, Sorted;
    assert p < q by { assert At(log, i, p, x) && At(log, i, q, y); }
    assert q < r by { assert At(log, i, q, y) && At(log, i, r, z); }
    forall u | u in b ensures u in {x, y, z} { assert InLog(log, u); }
    SortedDistinct(G, b);
    DistinctSize(b);
    assert (set u | u in b) == {x, y, z};
    assert b == [x, y, z];
  }

  lemma SortedDistinct(G: Graph, b: seq<InstId>)
    requires Sorted(G, b)
    ensures NoRepeats(b)
  {
  }

  // If one batch holds all executed instances there is no other.
  lemma OnlyBatch(G: Graph, log: Log, i: nat, S: set<InstId>)
    requires ValidLog(G, log) && i < |log| && (forall u :: InLog(log, u) ==> u in S) && forall u <- S :: u in log[i]
    ensures log == [log[i]]
  {
    hide Edge, Sorted, SameScc;
    var other := if i == 0 then 1 else 0;
    if other < |log| { HasElement(G, log, other); }
  }

  lemma HasElement(G: Graph, log: Log, j: nat)
    requires ValidLog(G, log) && j < |log|
    ensures exists u :: u in log[j] && InLog(log, u)
  {
    hide Edge, Sorted, SameScc;
    assert ExactScc(G, log[j]) && log[j][0] in log[j];
    assert InLog(log, log[j][0]);
  }

  // Replicas with the decisions of that contention, the same executed instances and different clocks
  // hold different stores.
  method TiedExecutors(k: Key, v: Value, w: Value) returns (a: Exec, b: Exec)
    requires v != w
    ensures a.Valid() && b.Valid() && a.G == b.G && Done(a.inst) == Done(b.inst)
    ensures Ran(a.log, X, Y) && Ran(b.log, Y, X) && a.store != b.store
  {
    hide Agrees, LogOK, MarksOK, StoreOK, Quiet, Done, Ran;
    var x, y, z := Contend(k, v, w);
    a := RunTied(k, v, w, x, y, z, 0, 1);
    b := RunTied(k, v, w, x, y, z, 1, 0);
    TiedLog(a, k, v, w);
    TiedLog(b, k, v, w);
    TiedStore(a, k, v, w);
    TiedStore(b, k, v, w);
    assert a.store[k] == w && b.store[k] == v;
  }

  lemma TiedStore(e: Exec, k: Key, v: Value, w: Value)
    requires e.Valid() && e.G == TiedGraph(k, v, w) && (e.log == [[X, Y, Z]] || e.log == [[Y, X, Z]])
    ensures e.store == map[k := if e.log == [[X, Y, Z]] then w else v]
    ensures if e.log == [[X, Y, Z]] then Ran(e.log, X, Y) else Ran(e.log, Y, X)
  {
    StoreIsRun(e);
    TiedNodes(k, v, w);
    hide Exec.Valid, RunLog, RunBatch, TiedGraph, Ran;
    OneBatchRun(e.G, e.log[0]);
    if e.log == [[X, Y, Z]] {
      ThreeRun(e.G, X, Y, Z);
      RanFirst(X, Y, Z);
    } else {
      ThreeRun(e.G, Y, X, Z);
      RanFirst(Y, X, Z);
    }
  }

  lemma TiedNodes(k: Key, v: Value, w: Value)
    ensures var G := TiedGraph(k, v, w);
            && X in G && Y in G && Z in G
            && G[X].cmds == [Command(PUT, k, v)] && G[Y].cmds == [Command(PUT, k, w)] && G[Z].cmds == [Command(GET, k, NIL)]
            && G[X].seqno == G[Y].seqno < G[Z].seqno
  {
  }

  lemma RanFirst(x: InstId, y: InstId, z: InstId)
    ensures Ran([[x, y, z]], x, y)
  {
    assert At([[x, y, z]], 0, 0, x) && At([[x, y, z]], 0, 1, y);
  }

  lemma StoreIsRun(e: Exec)
    requires e.Valid()
    ensures EPaxosExec.Logged(e.G, e.log) && e.store == RunLog(e.G, e.log)
  {
    hide Agrees, LogOK, MarksOK, Quiet, RunLog;
  }

  lemma OneBatchRun(G: Graph, b: seq<InstId>)
    requires forall u <- b :: u in G
    ensures EPaxosExec.Logged(G, [b]) && RunLog(G, [b]) == RunBatch(G, map[], b)
  {
    hide RunBatch;
    assert [b][..0] == [];
  }

  lemma ThreeRun(G: Graph, x: InstId, y: InstId, z: InstId)
    requires x in G && y in G && z in G && |G[x].cmds| == |G[y].cmds| == |G[z].cmds| == 1
    ensures RunBatch(G, map[], [x, y, z]) == Effect(Effect(Effect(map[], G[x].cmds[0]), G[y].cmds[0]), G[z].cmds[0])
  {
    hide RunBatch;
    NoBatch(G, map[]);
    BatchStep(G, map[], [], x);
    BatchStep(G, map[], [x], y);
    BatchStep(G, map[], [x, y], z);
    assert [] + [x] == [x] && [x] + [y] == [x, y] && [x, y] + [z] == [x, y, z];
  }

  lemma NoBatch(G: Graph, t: Table)
    ensures RunBatch(G, t, []) == t
  {
  }

  // One more instance with a single command.
  lemma BatchStep(G: Graph, t: Table, b: seq<InstId>, x: InstId)
    requires (forall u <- b :: u in G) && x in G && |G[x].cmds| == 1
    ensures RunBatch(G, t, b + [x]) == Effect(RunBatch(G, t, b), G[x].cmds[0])
  {
    assert (b + [x])[..|b + [x]| - 1] == b;
    OneCommand(RunBatch(G, t, b), G[x].cmds);
  }

  lemma OneCommand(t: Table, cmds: seq<Command>)
    requires |cmds| == 1
    ensures RunCmds(t, cmds) == Effect(t, cmds[0])
  {
    assert cmds[..0] == [];
  }
}
