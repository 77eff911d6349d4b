/** What PPaxos votes leave unordered: exactly when a vote covers every own conflict, and a run of three
    replicas that commits two PUTs of one key neither of which depends on the other. */
module PPaxosUnordered {
  import opened Options
  import opened PPaxos
  import opened PPaxosCounts
  import opened PPaxosCoverage
  import opened PPaxosCycle
  import opened PPaxosGlobal
  import opened PPaxosHandler
  import opened PPaxosKnown
  import opened PPaxosLocal
  import opened PPaxosParking
  import opened PPaxosProgress
  import opened PPaxosTable
  import opened PPaxosTheorems
  import opened PPaxosVectors
  import opened PPaxosWaits
  import opened Store

  // ---- When a vote covers every own conflict ----

  // x is an instance of replica r with a command that interferes with one of cmds.
  ghost predicate OwnRival(s: RState, r: nat, cmds: seq<Command>, x: InstId) {
    s.Has(x) && x.rep == r && exists c <- cmds :: Interferes(s.space[x].cmds, c)
  }

  // The latest own conflict of c does not exceed the proposer's value nor every decisive conflict.
  ghost predicate Covered(s: RState, m: Msg, c: Command)
    requires WF(s) && WFMsg(m, s.n)
  {
    OwnConflict(s, c) <= m.deps[s.id] || exists b <- m.cmds :: Decisive(s, m, b) && OwnConflict(s, c) <= OwnConflict(s, b)
  }

  // The vote on a delivered proposal covers every own interfering instance if and only if the latest own
  // conflict of each command is at most the proposer's value or a decisive conflict of some command.
  lemma VoteCovers(n: nat, g: Cluster, to: nat, m: Msg)
    requires n >= 2 && Reachable(n, g) && Enabled(g, Deliver(to, m)) && m.cmds != [] && to < m.rep
    requires Next(g, Deliver(to, m)).reps[to].Has(m.Id())
    ensures WF(g.reps[to]) && g.reps[to].n == |g.reps| && (to, m.Id()) in Next(g, Deliver(to, m)).tables.votes
    ensures var s, vote := g.reps[to], Next(g, Deliver(to, m)).tables.votes[(to, m.Id())];
            (forall x :: OwnRival(s, to, m.cmds, x) ==> x.inst <= vote) <==> forall c <- m.cmds :: Covered(s, m, c)
  {
    hide Reachable, Next, Interferes, Decisive, LatestConflict, Parks, Ordered, WFRow, WFInstance;
    DeliveredProposal(n, g, to, m);
    ReplicaId(n, g, to);
    var s, vote := g.reps[to], Next(g, Deliver(to, m)).tables.votes[(to, m.Id())];
    forall c | c in m.cmds
      ensures OwnConflict(s, c) >= -1 && (OwnConflict(s, c) >= 0 ==> OwnRival(s, to, m.cmds, InstId(to, OwnConflict(s, c))))
      ensures forall x :: s.Has(x) && x.rep == to && Interferes(s.space[x].cmds, c) ==> x.inst <= OwnConflict(s, c)
    {
      TableExact(n, g, to, to, c);
    }
    CoveredWhen(s, m, vote);
  }

  lemma CoveredWhen(s: RState, m: Msg, vote: int)
    requires WF(s) && WFMsg(m, s.n) && DepSoFar(s, m, |m.cmds|, vote)
    requires forall c <- m.cmds :: OwnConflict(s, c) >= -1 && (OwnConflict(s, c) >= 0 ==> OwnRival(s, s.id, m.cmds, InstId(s.id, OwnConflict(s, c))))
    requires forall c <- m.cmds :: forall x :: s.Has(x) && x.rep == s.id && Interferes(s.space[x].cmds, c) ==> x.inst <= OwnConflict(s, c)
    ensures (forall x :: OwnRival(s, s.id, m.cmds, x) ==> x.inst <= vote) <==> forall c <- m.cmds :: Covered(s, m, c)
  {
    hide Interferes, Decisive, OwnConflict, WFRow, WFInstance;
    forall c | c in m.cmds ensures Covered(s, m, c) <==> OwnConflict(s, c) <= vote { }
    if forall c <- m.cmds :: OwnConflict(s, c) <= vote {
    } else {
      var c :| c in m.cmds && OwnConflict(s, c) > vote;
      assert OwnRival(s, s.id, m.cmds, InstId(s.id, OwnConflict(s, c)));
    }
  }

  // ---- Two PUTs that nothing orders ----

  // Replica 0 proposes X and, later, W; replica 1 proposes Y, replica 2 Z. All write key 1.
  const W: InstId := InstId(0, 1)

  function PutOne(v: Value): (cmds: seq<Command>)
    ensures |cmds| == 1
  {
    [Command(PUT, 1, v)]
  }

  const PX: seq<Command> := PutOne([1])
  const PY: seq<Command> := PutOne([2])
  const PZ: seq<Command> := PutOne([3])
  const PW: seq<Command> := PutOne([4])

  lemma OnePut(v: Value, w: Value)
    ensures Interferes(PutOne(v), PutOne(w)[0]) && Conflict(PutOne(v)[0], PutOne(w)[0])
  {
    assert PutOne(v)[0].key == 1 && PutOne(w)[0].key == 1 && PutOne(v)[0].op == PUT;
  }

  // A replica that knows nothing answers without a dependency of its own.
  lemma FreshVote(g: Cluster, to: nat, m: Msg)
    requires Reachable(3, g) && |g.reps| == 3 && Enabled(g, Deliver(to, m)) && |m.cmds| == 1 && to < m.rep && m.deps == [-1, -1, -1]
    requires g.reps[to] == InitState(to, 3) && Next(g, Deliver(to, m)).reps[to].Has(m.Id())
    ensures var h := Next(g, Deliver(to, m)); (to, m.Id()) in h.tables.votes && h.tables.votes[(to, m.Id())] == -1
  {
    hide Reachable, Next, Parks, Ordered, WFRow;
    DeliveredProposal(3, g, to, m);
    assert OwnConflict(g.reps[to], m.cmds[0]) == -1;
    assert !Decisive(g.reps[to], m, m.cmds[0]);
    hide Decisive, OwnConflict, WF, InitState;
  }

  lemma VoteStays(T: Tables, U: Tables, i: nat, x: InstId)
    requires TablesGrow(T, U) && (i, x) in T.votes
    ensures (i, x) in U.votes && U.votes[(i, x)] == T.votes[(i, x)]
  {
  }

  // Replica 2 proposes Z, and replica 1 answers it.
  lemma ZFirst() returns (g: Cluster)
    ensures Reachable(3, g) && |g.reps| == 3 && g.reps[0] == InitState(0, 3) && g.reps[1].Has(Z) && g.delivered == {(1, 2, Z)}
    ensures g.tables.props == map[Z := Proposal(PZ, [-1, -1, -1])] && (1, Z) in g.tables.votes && g.tables.votes[(1, Z)] == -1
  {
    Starts();
    hide Reachable, Run, NewProposal, PutOne, Moves, InitCluster, InitState, Next, Enabled;
    var g0 := InitCluster(3);
    var g1, p := ProposeMoves(3, g0, 2, PZ);
    assert p.deps == [-1, -1, -1] by { NoDeps(2, PZ); }
    MovesOthers(g0, g1, 2, 0);
    MovesOthers(g0, g1, 2, 1);
    var m;
    m, g := DeliverMoves(3, g1, 1, Z);
    MovesOthers(g1, g, 1, 0);
    NotParked(3, g, 1, Z);
    FreshVote(g1, 1, m);
  }

  // Replica 1 proposes Y, which depends on Z.
  lemma YThen() returns (g: Cluster)
    ensures Reachable(3, g) && |g.reps| == 3 && g.reps[0] == InitState(0, 3) && g.delivered == {(1, 2, Z)}
    ensures g.tables.props.Keys == {Y, Z} && g.tables.props[Z] == Proposal(PZ, [-1, -1, -1])
    ensures g.tables.props[Y].cmds == PY && |g.tables.props[Y].deps| == 3 && g.tables.props[Y].deps[2] == 0
    ensures (1, Z) in g.tables.votes && g.tables.votes[(1, Z)] == -1
  {
    hide Reachable, NewProposal, PutOne, Moves, InitState, Next, Enabled, TablesGrow;
    var g0 := ZFirst();
    OwnCounter(3, g0, 1);
    var p;
    g, p := ProposeMoves(3, g0, 1, PY);
    YDeps(g0);
    MovesOthers(g0, g, 1, 0);
    MovesTables(g0, g, 1);
    VoteStays(g0.tables, g.tables, 1, Z);
  }

  lemma YDeps(g: Cluster)
    requires Reachable(3, g) && |g.reps| == 3 && g.tables.props == map[Z := Proposal(PZ, [-1, -1, -1])] && g.reps[1].Has(Z)
    ensures WF(g.reps[1]) && var deps := NewProposal(g.reps[1], PY).1.deps; |deps| == 3 && deps[2] == 0
  {
    hide Reachable, WF, NewProposal, Interferes, PutOne, Knows, RowsClosed, GInv;
    ReachableInv(3, g);
    ReachableKnows(3, g);
    StoredColumns(3, g, 1, Z);
    assert Knows({Z}, g.reps[1]) && RowsClosed({Z}) && WF(g.reps[1]) && g.reps[1].n == 3 by { assert g.tables.props.Keys == {Z}; }
    FreshDeps(g.reps[1], {Z}, PY, 2);
    assert Interferes(PZ, PY[0]) by { OnePut([3], [2]); }
    assert g.reps[1].id == 1;
    ReachableShape(3, g);
    ProposalCovers(3, g, 1, PY, Z);
  }

  // Replica 0, knowing nothing, proposes X.
  lemma XAlone() returns (g: Cluster)
    ensures Reachable(3, g) && |g.reps| == 3 && g.reps[0].Has(X) && g.delivered == {(1, 2, Z)} && g.tables.props.Keys == {X, Y, Z}
    ensures g.tables.props[X] == Proposal(PX, [-1, -1, -1]) && g.tables.props[Z] == Proposal(PZ, [-1, -1, -1])
    ensures g.tables.props[Y].cmds == PY && |g.tables.props[Y].deps| == 3 && g.tables.props[Y].deps[2] == 0
    ensures (1, Z) in g.tables.votes && g.tables.votes[(1, Z)] == -1
  {
    hide Reachable, NewProposal, PutOne, Moves, InitState, Next, Enabled, TablesGrow;
    var g0 := YThen();
    Starts();
    NoDeps(0, PX);
    var p;
    g, p := ProposeMoves(3, g0, 0, PX);
    MovesTables(g0, g, 0);
    VoteStays(g0.tables, g.tables, 1, Z);
  }

  // The single own instance of replica 0 that a command can conflict with is X.
  lemma OnlyX(g: Cluster, v: Value)
    requires Reachable(3, g) && |g.reps| == 3 && g.reps[0].Has(X) && g.tables.props.Keys == {X, Y, Z} && g.tables.props[X] == Proposal(PX, [-1, -1, -1])
    ensures WF(g.reps[0]) && g.reps[0].n == 3 && g.reps[0].id == 0 && g.reps[0].space[X].deps == [-1, -1, -1]
    ensures LatestConflict(g.reps[0].conflicts[0], PutOne(v)[0]) == 0
  {
    hide Reachable, PutOne, LatestConflict, Interferes, WF;
    ReplicaId(3, g, 0);
    StoredColumns(3, g, 0, X);
    assert Interferes(PX, PutOne(v)[0]) by { OnePut([1], v); }
    OnlyConflict(3, g, 0, X, PutOne(v)[0]);
  }

  // Replica 0 answers Y: X has no dependency in row 2, so nothing lies in between.
  lemma YArrives() returns (g: Cluster)
    ensures Reachable(3, g) && |g.reps| == 3 && g.reps[0].Has(X) && g.reps[0].Has(Y) && (0, 2, Z) !in g.delivered && g.tables.props.Keys == {X, Y, Z}
    ensures g.tables.props[X] == Proposal(PX, [-1, -1, -1]) && g.tables.props[Z] == Proposal(PZ, [-1, -1, -1])
    ensures g.tables.props[Y].cmds == PY && |g.tables.props[Y].deps| == 3 && g.tables.props[Y].deps[2] == 0
    ensures (1, Z) in g.tables.votes && g.tables.votes[(1, Z)] == -1
  {
    hide Reachable, PutOne, Moves, Next, Enabled, TablesGrow;
    var g0 := XAlone();
    var m;
    m, g := DeliverMoves(3, g0, 0, Y);
    MovesTables(g0, g, 0);
    MovesKeeps(g0, g, 0, X);
    VoteStays(g0.tables, g.tables, 1, Z);
    YAnswered(g0, m);
  }

  lemma YAnswered(g: Cluster, m: Msg)
    requires Reachable(3, g) && |g.reps| == 3 && g.reps[0].Has(X) && g.tables.props.Keys == {X, Y, Z} && g.tables.props[X] == Proposal(PX, [-1, -1, -1])
    requires Enabled(g, Deliver(0, m)) && m.Id() == Y && m.cmds == PY
    ensures Next(g, Deliver(0, m)).reps[0].Has(Y)
  {
    hide Reachable, PutOne, Next, LatestConflict, Ordered, DepSoFar, Stops, WFRow, WFInstance;
    OnlyX(g, [2]);
    DeliveredProposal(3, g, 0, m);
    var s := g.reps[0];
    assert OwnConflict(s, m.cmds[0]) == 0;
    forall k ensures !Parks(s, m, k) {
      assert !WaitsAt(s, m, 0, k);
    }
  }

  // Replica 0 proposes W, which takes Z over from Y without knowing Z.
  lemma WNext() returns (g: Cluster)
    ensures Reachable(3, g) && |g.reps| == 3 && g.reps[0].Has(W) && (0, 2, Z) !in g.delivered && g.tables.props.Keys == {W, X, Y, Z}
    ensures g.tables.props[X] == Proposal(PX, [-1, -1, -1]) && g.tables.props[Z] == Proposal(PZ, [-1, -1, -1])
    ensures g.tables.props[W].cmds == PW && |g.tables.props[W].deps| == 3 && g.tables.props[W].deps[2] >= 0
    ensures (1, Z) in g.tables.votes && g.tables.votes[(1, Z)] == -1
  {
    hide Reachable, NewProposal, PutOne, Moves, Next, Enabled, TablesGrow;
    var g0 := YArrives();
    XIsLast(g0);
    var p;
    g, p := ProposeMoves(3, g0, 0, PW);
    WDeps(g0);
    MovesTables(g0, g, 0);
    VoteStays(g0.tables, g.tables, 1, Z);
  }

  lemma XIsLast(g: Cluster)
    requires Reachable(3, g) && |g.reps| == 3 && g.reps[0].Has(X) && g.tables.props.Keys == {X, Y, Z}
    ensures |g.reps[0].crt| == 3 && g.reps[0].crt[0] == 0
  {
    hide Reachable, WFRow, WFMsg, WFInstance, RowsClosed, WaitsKnown, SpaceKnown;
    ReachableKnows(3, g);
    ReplicaId(3, g, 0);
    KnownBelow(3, g, 0, X);
    assert Knows(g.tables.props.Keys, g.reps[0]) && WF(g.reps[0]);
    ColumnKnown(g.tables.props.Keys, g.reps[0].crt, 0);
  }

  lemma WDeps(g: Cluster)
    requires Reachable(3, g) && |g.reps| == 3 && g.reps[0].Has(X) && g.reps[0].Has(Y) && g.tables.props.Keys == {X, Y, Z}
    requires g.tables.props[X] == Proposal(PX, [-1, -1, -1]) && g.tables.props[Y].cmds == PY
    requires |g.tables.props[Y].deps| == 3 && g.tables.props[Y].deps[2] == 0 && |g.reps[0].crt| == 3 && g.reps[0].crt[0] == 0
    ensures WF(g.reps[0]) && |NewProposal(g.reps[0], PW).1.deps| == 3 && NewProposal(g.reps[0], PW).1.deps[2] >= 0
  {
    hide Reachable, PutOne, LatestConflict, Interferes, NewProposal, Attributes, WFRow, WFInstance, WFMsg;
    OnlyX(g, [4]);
    StoredColumns(3, g, 0, Y);
    assert Interferes(PY, PW[0]) by { OnePut([2], [4]); }
    OnlyConflict(3, g, 0, Y, PW[0]);
    var s := g.reps[0];
    ProposeBlank(s, PW);
    ProposalIs(s, PW);
    var b := BlankState(s, PW);
    var w := AttributesExact(b, PW, NewInstance(3).deps, 0);
    MergesZ(b, w, Attributes(b, PW, NewInstance(3).deps, 0, 3));
  }

  // X and then Y are taken, and with Y its dependency on Z.
  lemma MergesZ(b: RState, w: seq<seq<seq<int>>>, r: seq<int>)
    requires b.n == 3 == |b.conflicts| && b.id == 0 && Turns(b, PW, 0, NewInstance(3).deps, 3, w, r) && TakesIn(b, 1, PW[0], w[1][0], r)
    requires LatestConflict(b.conflicts[0], PW[0]) == 0 && LatestConflict(b.conflicts[1], PW[0]) == 0
    requires X in b.space && b.space[X].deps == [-1, -1, -1] && Y in b.space && |b.space[Y].deps| == 3 && b.space[Y].deps[2] == 0
    ensures |r| == 3 && r[2] >= 0
  {
    hide LatestConflict, PutOne;
    assert Turn(b, 0, PW[0], w[0][0], w[0][0 + 1]);
    assert w[1][0][1] == -1;
  }

  // When Z arrives, the latest own conflict W already depends on it, and X is not looked at.
  lemma ZLast() returns (g: Cluster)
    ensures Reachable(3, g) && |g.reps| == 3 && X in g.tables.props && Z in g.tables.props
    ensures g.tables.props[X] == Proposal(PX, [-1, -1, -1]) && g.tables.props[Z] == Proposal(PZ, [-1, -1, -1])
    ensures (0, Z) in g.tables.votes && g.tables.votes[(0, Z)] == -1 && (1, Z) in g.tables.votes && g.tables.votes[(1, Z)] == -1
  {
    hide Reachable, PutOne, Moves, Next, Enabled, TablesGrow;
    var g0 := WNext();
    var m;
    m, g := DeliverMoves(3, g0, 0, Z);
    MovesTables(g0, g, 0);
    VoteStays(g0.tables, g.tables, 1, Z);
    NotParked(3, g, 0, Z);
    HiddenVote(g0, m);
  }

  lemma HiddenVote(g: Cluster, m: Msg)
    requires Reachable(3, g) && |g.reps| == 3 && g.reps[0].Has(W) && g.tables.props.Keys == {W, X, Y, Z} && g.tables.props[W].cmds == PW
    requires |g.tables.props[W].deps| == 3 && g.tables.props[W].deps[2] >= 0
    requires Enabled(g, Deliver(0, m)) && m.Id() == Z && m.cmds == PZ && m.deps == [-1, -1, -1] && Next(g, Deliver(0, m)).reps[0].Has(Z)
    ensures var h := Next(g, Deliver(0, m)); (0, Z) in h.tables.votes && h.tables.votes[(0, Z)] == -1
  {
    hide Reachable, PutOne, Next, LatestConflict, Interferes, Parks, Ordered, WFRow, WFInstance;
    DeliveredProposal(3, g, 0, m);
    ReplicaId(3, g, 0);
    WIsLatest(g);
    StoredColumns(3, g, 0, W);
    assert !Decisive(g.reps[0], m, m.cmds[0]);
    hide Decisive, OwnConflict;
  }

  lemma WIsLatest(g: Cluster)
    requires Reachable(3, g) && |g.reps| == 3 && g.reps[0].Has(W) && g.tables.props.Keys == {W, X, Y, Z} && g.tables.props[W].cmds == PW
    ensures WF(g.reps[0]) && g.reps[0].n == 3 && LatestConflict(g.reps[0].conflicts[0], PZ[0]) == 1
  {
    hide Reachable, PutOne, LatestConflict, Interferes, WFRow, RowsClosed, DepsKnown, WaitsKnown, MsgKnown;
    ReplicaId(3, g, 0);
    ReachableKnows(3, g);
    StoredColumns(3, g, 0, W);
    assert Interferes(PW, PZ[0]) by { OnePut([4], [3]); }
    TableExact(3, g, 0, 0, PZ[0]);
    assert Knows(g.tables.props.Keys, g.reps[0]);
  }

  // ---- Both are committed ----

  lemma NothingNeeded(g: Cluster, r: nat, x: InstId)
    requires Reachable(3, g) && |g.reps| == 3 && r < 3 && x in g.tables.props && FinalDeps(g.tables, 3, x, [-1, -1, -1])
    requires g.reps[r].Done(x) <==> !ReachesCycle(g, x)
    ensures g.reps[r].Done(x) && g.reps[r].space[x].deps == [-1, -1, -1] && g.reps[r].space[x].cmds == g.tables.props[x].cmds
  {
    hide Reachable, GInv;
    ReachableInv(3, g);
    forall y ensures !Needs(g, x, y) {
      if deps :| FinalDeps(g.tables, 3, x, deps) && DependsOn(deps, y) { FinalUnique(g.tables, 3, x, deps, [-1, -1, -1]); }
    }
    hide Needs, FinalDeps;
    if ReachesCycle(g, x) { var y := CycleHasEdge(g, x); }
    CommittedIsFinal(g, r, x);
    FinalUnique(g.tables, 3, x, g.reps[r].space[x].deps, [-1, -1, -1]);
  }

  lemma CycleHasEdge(g: Cluster, x: InstId) returns (y: InstId)
    requires ReachesCycle(g, x)
    ensures Needs(g, x, y)
  {
    hide Needs;
    var p: seq<InstId>, i: nat, j: nat :| i < j < |p| && NeedsPath(g, p) && p[0] == x && p[i] == p[j];
    y := p[0 + 1];
    assert Needs(g, p[0], p[0 + 1]);
  }

  // A cluster of three replicas commits two conflicting PUTs everywhere, and neither depends on anything.
  lemma Unordered() returns (g: Cluster)
    ensures Reachable(3, g) && |g.reps| == 3 && Conflict(PX[0], PZ[0])
    ensures forall r :: 0 <= r < 3 ==> g.reps[r].Done(X) && g.reps[r].space[X].cmds == PX && g.reps[r].space[X].deps == [-1, -1, -1]
    ensures forall r :: 0 <= r < 3 ==> g.reps[r].Done(Z) && g.reps[r].space[Z].cmds == PZ && g.reps[r].space[Z].deps == [-1, -1, -1]
  {
    hide Reachable, Run, PutOne, ReachesCycle, TablesGrow;
    OnePut([1], [3]);
    var g0 := ZLast();
    var es;
    es, g := Completes(3, g0);
    ReachableRun(3, g0, es, g);
    VoteStays(g0.tables, g.tables, 0, Z);
    VoteStays(g0.tables, g.tables, 1, Z);
    FinalIs(g.tables, X, [-1, -1, -1]);
    FinalIs(g.tables, Z, [-1, -1, -1]);
    forall r: nat | r < 3
      ensures g.reps[r].Done(X) && g.reps[r].space[X].cmds == PX && g.reps[r].space[X].deps == [-1, -1, -1]
      ensures g.reps[r].Done(Z) && g.reps[r].space[Z].cmds == PZ && g.reps[r].space[Z].deps == [-1, -1, -1]
    {
      NothingNeeded(g, r, X);
      NothingNeeded(g, r, Z);
    }
  }
}
