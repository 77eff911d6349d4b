/** Three PPaxos proposals whose dependencies close a cycle, so that no replica ever commits
    any of them: replica 2 writes b and c, replica 0 then a and b, replica 1 a and c. */
module PPaxosCycle {
  import opened Options
  import opened PPaxos
  import opened PPaxosCoverage
  import opened PPaxosGlobal
  import opened PPaxosHandler
  import opened PPaxosKnown
  import opened PPaxosLocal
  import opened PPaxosProgress
  import opened PPaxosTheorems
  import opened Store

  const X: InstId := InstId(0, 0)
  const Y: InstId := InstId(1, 0)
  const Z: InstId := InstId(2, 0)

  function Writes(k: Key, l: Key): (cmds: seq<Command>)
    ensures |cmds| == 2
  {
    [Command(PUT, k, NIL), Command(PUT, l, NIL)]
  }

  const CX: seq<Command> := Writes(1, 2)
  const CY: seq<Command> := Writes(1, 3)
  const CZ: seq<Command> := Writes(2, 3)

  lemma WritesInterfere(k: Key, l: Key, c: Command)
    ensures Interferes(Writes(k, l), c) <==> c.key == k || c.key == l
  {
    var w := Writes(k, l);
    assert w[0].key == k && w[0].op == PUT && w[1].key == l && w[1].op == PUT;
  }

  // ---- Deliveries of proposals ----

  // A proposal that did not arrive can be delivered.
  lemma ProposalAhead(n: nat, g: Cluster, to: nat, x: InstId) returns (m: Msg)
    requires n >= 2 && Reachable(n, g) && x in g.tables.props && to < |g.reps| && to != x.rep && (to, x.rep, x) !in g.delivered
    ensures Enabled(g, Deliver(to, m)) && m.Id() == x && m.sender == x.rep
    ensures m.cmds != [] && m.cmds == g.tables.props[x].cmds && m.deps == g.tables.props[x].deps
  {
    ReachableInv(n, g);
    Proposed(g, x);
    GOpen(g);
    var s := g.reps[x.rep];
    assert Inv(s, g.tables, {});
    hide Reachable, GInv, Core, OwnOK, ParkedOK, VotesOK, Received, WF;
    assert Sent(s.out, to, x) == 1;
    hide Sent;
    SentSome(s.out, to, x);
    var p :| p in s.out && p.to == to && p.msg.Id() == x;
    Deliverable(g, x.rep, p);
    assert Authored(s, g.tables, p.msg);
    m := p.msg;
  }

  // A delivered proposal is answered if no proposed instance of a higher-numbered replica is missing.
  lemma NotParked(n: nat, g: Cluster, r: nat, x: InstId)
    requires n >= 2 && Reachable(n, g) && r < |g.reps| && r != x.rep && (r, x.rep, x) in g.delivered
    requires forall k <- g.tables.props :: x.rep < k.rep ==> g.reps[r].Has(k)
    ensures g.reps[r].Has(x)
  {
    ReachableInv(n, g);
    hide Reachable, GInv;
    if !g.reps[r].Has(x) {
      var k, i := ParkedElsewhere(g, r, x);
      WaitsUpward(n, g, r, k, i);
    }
  }

  // The vote on an answered proposal is at least the latest decisive own conflict.
  lemma DecisiveVote(n: nat, g: Cluster, to: nat, m: Msg, l: nat)
    requires n >= 2 && Reachable(n, g) && Enabled(g, Deliver(to, m)) && to < m.rep && l < |m.cmds|
    requires WF(Touch(g.reps[to], m.Id())) && Decisive(Touch(g.reps[to], m.Id()), m, m.cmds[l])
    requires Next(g, Deliver(to, m)).reps[to].Has(m.Id())
    ensures var h := Next(g, Deliver(to, m));
            (to, m.Id()) in h.tables.votes && h.tables.votes[(to, m.Id())] >= LatestConflict(g.reps[to].conflicts[to], m.cmds[l])
  {
    hide Reachable, GInv, Inv, VotesOK, Received, Step, Handle, Judge, Decisive, LatestConflict, VotesOf;
    var s, h := g.reps[to], Next(g, Deliver(to, m));
    ReachableInv(n, g);
    GOpen(g);
    DeliverLocal(g, to, m);
    AnsweredNotParked(s, g.tables, m);
    DecisiveDep(s, m, l);
    VotesOfAt(h.reps[to]);
  }

  lemma AnsweredNotParked(s: RState, T: Tables, m: Msg)
    requires WF(s) && WFMsg(m, s.n) && Inv(Handle(s, m), T, {}) && Handle(s, m).Has(m.Id()) && m.cmds != []
    ensures Judge(s, m).1.waitFor.None?
  {
    hide Inv, Judge, Accept, HandleAll, Answer, WF, WFMsg, Park;
    var (s1, v) := Judge(s, m);
    if v.waitFor.Some? { ParkedHasNot(s1, T, v.waitFor.value, m); }
  }

  lemma ParkedHasNot(s: RState, T: Tables, k: InstId, m: Msg)
    requires Inv(Park(s, k, m), T, {})
    ensures !Park(s, k, m).Has(m.Id())
  {
    hide Core, OwnOK, Outbox, UniqueSlots, Genuine;
    var w := Park(s, k, m).waitlist;
    assert Slot(w, k, |w[k]| - 1) && w[k][|w[k]| - 1] == m;
  }

  lemma DecisiveDep(s: RState, m: Msg, l: nat)
    requires WF(s) && WFMsg(m, s.n) && s.id < m.rep && l < |m.cmds| && Judge(s, m).1.waitFor.None?
    requires WF(Touch(s, m.Id())) && Decisive(Touch(s, m.Id()), m, m.cmds[l])
    ensures Judge(s, m).1.dep >= LatestConflict(s.conflicts[s.id], m.cmds[l])
  {
    hide LatestConflict, Decisive, Priority, WFRow;
    AnswerIsDecisive(Touch(s, m.Id()), m, m.deps[s.id], 0);
  }

  // ---- What is known of a replica's own row and of the columns ----

  // A single proposed instance of a row is the only conflict that can be found in it.
  lemma OnlyConflict(n: nat, g: Cluster, r: nat, x: InstId, c: Command)
    requires n >= 2 && Reachable(n, g) && r < |g.reps| && x.inst == 0 && x.rep < |g.reps| && g.reps[r].Has(x)
    requires (forall y <- g.tables.props :: y.rep == x.rep ==> y == x) && Interferes(g.reps[r].space[x].cmds, c)
    ensures WF(g.reps[r]) && x.rep < |g.reps[r].conflicts| && LatestConflict(g.reps[r].conflicts[x.rep], c) == 0
  {
    ReachableKnows(n, g);
    ReachableCovers(n, g);
    hide Reachable, Interferes, LatestConflict, AllCover, Covers, WaitsKnown, DepsKnown, MsgKnown, WFRow, RowsClosed;
    CoverAt(g, r);
    LookupFinds(g.reps[r], x, c) by { hide AllKnow; }
    assert Knows(g.tables.props.Keys, g.reps[r]);
    ConflictKnown(g.tables.props.Keys, g.reps[r], x.rep, c);
  }

  // What a replica stores of an instance is what was proposed, from the proposer's column on.
  lemma StoredColumns(n: nat, g: Cluster, r: nat, x: InstId)
    requires n >= 2 && Reachable(n, g) && r < |g.reps| && g.reps[r].Has(x)
    ensures x in g.tables.props && |g.tables.props[x].deps| == |g.reps| == |g.reps[r].space[x].deps|
    ensures g.reps[r].space[x].cmds == g.tables.props[x].cmds
    ensures forall j :: x.rep <= j < |g.reps| ==> g.reps[r].space[x].deps[j] == g.tables.props[x].deps[j]
  {
    ReachableInv(n, g);
    GOpen(g);
    var s := g.reps[r];
    InvBase(s, g.tables);
    hide Reachable, GInv, Inv, VotesOK, Received, Shape, RowsOK, LogOK, Tally, WFRow;
    assert InstOK(s, g.tables, x);
    assert ProposalOK(g.tables.props[x], x, s.n);
  }

  // A proposal of a replica that knows the instances in P, all proposed, depends on these only.
  lemma FreshDeps(s: RState, P: set<InstId>, cmds: seq<Command>, j: nat)
    requires WF(s) && cmds != [] && RowsClosed(P) && Knows(P, s) && j < s.n
    ensures |NewProposal(s, cmds).1.deps| == s.n && NewProposal(s, cmds).0 == InstId(s.id, s.crt[s.id] + 1)
    ensures NewProposal(s, cmds).1.cmds == cmds
    ensures var d := NewProposal(s, cmds).1.deps[j];
            d >= -1 && (d >= 0 ==> InstId(j, d) in P || InstId(j, d) == InstId(s.id, s.crt[s.id] + 1))
  {
    var (x, p) := NewProposal(s, cmds);
    ProposeShape(s, cmds, x, p, Propose(s, cmds));
    ProposeKnows(P, s, cmds);
    hide NewProposal, Propose, Knows, RowsClosed, WF;
    ColumnKnown(P + {x}, p.deps, j);
  }

  // The first own instance is decisive if nothing between the two dependency vectors interferes.
  lemma FirstConflict(s: RState, m: Msg, c: Command, y: InstId)
    requires WF(s) && WFMsg(m, s.n) && y == InstId(s.id, 0) && s.Has(y) && m.Id() != y && LatestConflict(s.conflicts[s.id], c) == 0
    requires s.space[y].deps[m.rep] < m.inst && Interferes(s.space[y].cmds, c)
    requires forall k, j :: m.rep < k < s.n && m.deps[k] < j <= s.space[y].deps[k] ==> s.Has(InstId(k, j)) && !Interferes(s.space[InstId(k, j)].cmds, c)
    ensures WF(Touch(s, m.Id())) && Decisive(Touch(s, m.Id()), m, c)
  {
    hide LatestConflict, Interferes, WFRow;
    TouchWF(s, m.Id());
    var t := Touch(s, m.Id());
    assert forall x :: s.Has(x) ==> t.Has(x) && t.space[x] == s.space[x];
  }

  lemma ReplicaId(n: nat, g: Cluster, r: nat)
    requires Reachable(n, g) && r < |g.reps|
    ensures WF(g.reps[r]) && g.reps[r].id == r && g.reps[r].n == |g.reps|
  {
    hide Reachable, RowsClosed, Knows, WF;
    ReachableKnows(n, g);
  }

  // ---- One event of the run ----

  ghost predicate Moves(g: Cluster, h: Cluster, r: nat) {
    && r < |g.reps| == |h.reps| && TablesGrow(g.tables, h.tables)
    && (forall q :: 0 <= q < |g.reps| && q != r ==> h.reps[q] == g.reps[q])
    && forall x :: g.reps[r].Has(x) ==> h.reps[r].Has(x)
  }

  lemma ProposeMoves(n: nat, g: Cluster, r: nat, cmds: seq<Command>) returns (h: Cluster, p: Proposal)
    requires n >= 2 && Reachable(n, g) && r < |g.reps| && cmds != []
    ensures Enabled(g, ProposeAt(r, cmds)) && h == Next(g, ProposeAt(r, cmds)) && Reachable(n, h) && Moves(g, h, r)
    ensures var x := InstId(r, g.reps[r].crt[r] + 1);
            && (x, p) == NewProposal(g.reps[r], cmds) && p.cmds == cmds && h.tables.props == g.tables.props[x := p]
            && h.delivered == g.delivered && h.reps[r].Has(x) && h.reps[r].crt == g.reps[r].crt[r := x.inst]
  {
    hide Reachable, GInv, Inv, Step, VotesOK, Received, TablesGrow, TablesOK, IsParked, Base, WF, NewProposal, Propose, Shape;
    ReachableInv(n, g);
    GOpen(g);
    var s, e := g.reps[r], ProposeAt(r, cmds);
    h := Next(g, e);
    var x := NewProposal(s, cmds).0;
    p := NewProposal(s, cmds).1;
    assert Proposes(s, cmds, x, p, h.reps[r]);
    ProposeKeeps(s, g.tables, h.tables, cmds, x, p, h.reps[r]);
    ProposeShape(s, cmds, x, p, h.reps[r]);
    OneStep(g, e);
    ReachableRun(n, g, [e], h);
  }

  lemma DeliverMoves(n: nat, g: Cluster, to: nat, x: InstId) returns (m: Msg, h: Cluster)
    requires n >= 2 && Reachable(n, g) && x in g.tables.props && to < |g.reps| && to != x.rep && (to, x.rep, x) !in g.delivered
    ensures Enabled(g, Deliver(to, m)) && h == Next(g, Deliver(to, m)) && Reachable(n, h) && Moves(g, h, to)
    ensures m.Id() == x && m.cmds == g.tables.props[x].cmds && m.deps == g.tables.props[x].deps
    ensures h.tables.props == g.tables.props && h.delivered == g.delivered + {(to, x.rep, x)}
  {
    hide Reachable, GInv, Enabled, Next;
    ReachableInv(n, g);
    m := ProposalAhead(n, g, to, x);
    h := Next(g, Deliver(to, m));
    DeliverGrows(g, to, m);
    OnlyReceiver(g, to, m);
    OneStep(g, Deliver(to, m));
    ReachableRun(n, g, [Deliver(to, m)], h);
  }

  lemma OnlyReceiver(g: Cluster, to: nat, m: Msg)
    requires GInv(g) && Enabled(g, Deliver(to, m)) && m.cmds != []
    ensures var h := Next(g, Deliver(to, m));
            && to < |g.reps| == |h.reps| && (forall q :: 0 <= q < |g.reps| && q != to ==> h.reps[q] == g.reps[q])
            && forall x :: g.reps[to].Has(x) ==> h.reps[to].Has(x)
  {
    hide GInv, Inv, Step, Handle, WF, VotesOf, Judge, AnsweredWith;
    DeliverLocal(g, to, m);
    StepFacts(g.reps[to], Handle(g.reps[to], m), {m.Id()});
  }

  // ---- The run ----

  // Replica 2 proposes Z; replica 0 answers it.
  lemma ZArrives() returns (g: Cluster)
    ensures Reachable(3, g) && |g.reps| == 3 && g.reps[1] == InitState(1, 3) && g.delivered == {(0, 2, Z)}
    ensures g.tables.props == map[Z := Proposal(CZ, [-1, -1, -1])] && g.reps[0].Has(Z)
  {
    Starts();
    hide Reachable, Run, NewProposal, Writes, Moves, InitCluster, InitState, Next, Enabled;
    var g0 := InitCluster(3);
    var g1, p := ProposeMoves(3, g0, 2, CZ);
    assert p.deps == [-1, -1, -1] by { NoDeps(2, CZ); }
    MovesOthers(g0, g1, 2, 1);
    var m;
    m, g := DeliverMoves(3, g1, 0, Z);
    MovesOthers(g1, g, 0, 1);
    NotParked(3, g, 0, Z);
  }

  // Before its first proposal a replica's own counter is at -1.
  lemma OwnCounter(n: nat, g: Cluster, r: nat)
    requires Reachable(n, g) && r < |g.reps| && forall y <- g.tables.props :: y.rep != r
    ensures |g.reps[r].crt| == |g.reps| && g.reps[r].crt[r] == -1
  {
    ReachableKnows(n, g);
    hide Reachable, WFRow, WFMsg, WFInstance, RowsClosed, WaitsKnown, SpaceKnown;
    assert Knows(g.tables.props.Keys, g.reps[r]) && WF(g.reps[r]);
    ColumnKnown(g.tables.props.Keys, g.reps[r].crt, r);
  }

  lemma Starts()
    ensures Reachable(3, InitCluster(3)) && |InitCluster(3).reps| == 3 && InitCluster(3).delivered == {} && InitCluster(3).tables.props == map[]
    ensures forall r :: 0 <= r < 3 ==> InitCluster(3).reps[r] == InitState(r, 3) && |InitState(r, 3).crt| == 3 && InitState(r, 3).crt[r] == -1
  {
    assert Run(InitCluster(3), [], InitCluster(3));
  }

  lemma MovesOthers(g: Cluster, h: Cluster, r: nat, q: nat)
    requires Moves(g, h, r) && q < |g.reps| && q != r
    ensures |h.reps| == |g.reps| && h.reps[q] == g.reps[q]
  {
  }

  // A replica that knows nothing proposes without dependencies.
  lemma NoDeps(r: nat, cmds: seq<Command>)
    requires r < 3 && cmds != []
    ensures WF(InitState(r, 3)) && NewProposal(InitState(r, 3), cmds).1.deps == [-1, -1, -1]
  {
    var s := InitState(r, 3);
    InitInv(r, 3);
    assert Knows({}, s) && s.id == r && s.n == 3 && s.crt[r] == -1;
    hide InitState, Knows, NewProposal, WF;
    forall j: nat | j < 3 ensures NewProposal(s, cmds).1.deps[j] == -1 { FreshDeps(s, {}, cmds, j); }
  }

  // Replica 0 proposes X, which depends on Z and on nothing of replica 1.
  lemma XFollows() returns (g: Cluster)
    ensures Reachable(3, g) && |g.reps| == 3 && g.reps[1] == InitState(1, 3) && g.delivered == {(0, 2, Z)}
    ensures g.tables.props.Keys == {X, Z} && g.tables.props[Z] == Proposal(CZ, [-1, -1, -1]) && g.reps[0].Has(Z) && g.reps[0].Has(X)
    ensures var p := g.tables.props[X]; p.cmds == CX && |p.deps| == 3 && p.deps[1] == -1 && p.deps[2] == 0
  {
    hide Reachable, NewProposal, Writes, Moves, InitState, Next, Enabled;
    var g0 := ZArrives();
    OwnCounter(3, g0, 0);
    ReachableKnows(3, g0);
    var p;
    g, p := ProposeMoves(3, g0, 0, CX);
    XDeps(g0);
    MovesOthers(g0, g, 0, 1);
    MovesKeeps(g0, g, 0, Z);
  }

  lemma MovesKeeps(g: Cluster, h: Cluster, r: nat, x: InstId)
    requires Moves(g, h, r) && g.reps[r].Has(x)
    ensures h.reps[r].Has(x)
  {
  }

  lemma XDeps(g: Cluster)
    requires Reachable(3, g) && |g.reps| == 3 && g.tables.props == map[Z := Proposal(CZ, [-1, -1, -1])] && g.reps[0].Has(Z)
    ensures WF(g.reps[0])
    ensures var deps := NewProposal(g.reps[0], CX).1.deps; |deps| == 3 && deps[1] == -1 && deps[2] == 0
  {
    hide Reachable, GInv, VotesOK, Received, Inv, Shape, WF, NewProposal, Interferes, Writes, DependsOn;
    ReachableInv(3, g);
    GOpen(g);
    ReachableKnows(3, g);
    StoredColumns(3, g, 0, Z);
    assert Knows({Z}, g.reps[0]) && RowsClosed({Z}) by { OneProposed(g); }
    hide Knows, RowsClosed;
    FreshDeps(g.reps[0], {Z}, CX, 1);
    FreshDeps(g.reps[0], {Z}, CX, 2);
    assert Interferes(CZ, CX[1]) by { SharedKey(); }
    XNeedsZ(g);
  }

  lemma OneProposed(g: Cluster)
    requires AllKnow(g) && |g.reps| == 3 && g.tables.props.Keys == {Z}
    ensures Knows({Z}, g.reps[0]) && RowsClosed({Z})
  {
    hide Knows, RowsClosed, Shape;
  }

  lemma SharedKey()
    ensures Interferes(CZ, CX[1])
  {
    WritesInterfere(2, 3, CX[1]);
  }

  lemma XNeedsZ(g: Cluster)
    requires Reachable(3, g) && |g.reps| == 3 && WF(g.reps[0]) && g.reps[0].Has(Z) && g.reps[0].space[Z].cmds == CZ && Interferes(CZ, CX[1])
    ensures |NewProposal(g.reps[0], CX).1.deps| == 3 ==> NewProposal(g.reps[0], CX).1.deps[2] >= 0
  {
    hide Reachable, WF, NewProposal, Interferes, Writes;
    ReachableShape(3, g);
    ProposalCovers(3, g, 0, CX, Z);
  }

  lemma ReachableShape(n: nat, g: Cluster)
    requires Reachable(n, g)
    ensures Shape(g)
  {
    hide Reachable, Shape, RowsClosed, Knows;
    ReachableKnows(n, g);
  }

  // Replica 1, knowing nothing, proposes Y and then answers Z with a dependency on Y.
  lemma ZNeedsY() returns (g: Cluster)
    ensures Reachable(3, g) && |g.reps| == 3 && g.delivered == {(0, 2, Z), (1, 2, Z)} && g.tables.props.Keys == {X, Y, Z}
    ensures g.tables.props[Y] == Proposal(CY, [-1, -1, -1]) && g.tables.props[Z] == Proposal(CZ, [-1, -1, -1])
    ensures var p := g.tables.props[X]; p.cmds == CX && |p.deps| == 3 && p.deps[1] == -1 && p.deps[2] == 0
    ensures g.reps[0].Has(Z) && g.reps[0].Has(X) && (1, Z) in g.tables.votes && g.tables.votes[(1, Z)] >= 0
  {
    hide Reachable, NewProposal, Writes, Moves, InitState, Next, Enabled;
    var g0 := XFollows();
    Starts();
    NoDeps(1, CY);
    var g1, p := ProposeMoves(3, g0, 1, CY);
    MovesOthers(g0, g1, 1, 0);
    var m;
    m, g := DeliverMoves(3, g1, 1, Z);
    MovesOthers(g1, g, 1, 0);
    NotParked(3, g, 1, Z);
    ZVote(g1, m);
  }

  lemma ZVote(g: Cluster, m: Msg)
    requires Reachable(3, g) && |g.reps| == 3 && g.tables.props.Keys == {X, Y, Z} && g.reps[1].Has(Y)
    requires g.tables.props[Y] == Proposal(CY, [-1, -1, -1]) && g.tables.props[Z] == Proposal(CZ, [-1, -1, -1])
    requires Enabled(g, Deliver(1, m)) && m.Id() == Z && m.cmds == CZ && Next(g, Deliver(1, m)).reps[1].Has(Z)
    ensures var h := Next(g, Deliver(1, m)); (1, Z) in h.tables.votes && h.tables.votes[(1, Z)] >= 0
  {
    hide Reachable, Writes, Next, LatestConflict, Interferes;
    assert Interferes(CY, CZ[1]) by { YSharesC(); }
    StoredColumns(3, g, 1, Y);
    OnlyConflict(3, g, 1, Y, CZ[1]);
    ReachableShape(3, g);
    ReplicaId(3, g, 1);
    FirstConflict(g.reps[1], m, CZ[1], Y);
    DecisiveVote(3, g, 1, m, 1);
  }

  lemma YSharesC()
    ensures Interferes(CY, CZ[1])
  {
    WritesInterfere(1, 3, CZ[1]);
  }

  // Replica 0 answers Y with a dependency on X: Z, the only instance between, does not interfere on a.
  lemma YNeedsX() returns (g: Cluster)
    ensures Reachable(3, g) && |g.reps| == 3 && g.tables.props.Keys == {X, Y, Z}
    ensures (0, Y) in g.tables.votes && g.tables.votes[(0, Y)] >= 0 && (1, Z) in g.tables.votes && g.tables.votes[(1, Z)] >= 0
    ensures |g.tables.props[X].deps| == 3 && g.tables.props[X].deps[2] == 0 && g.reps[0].Has(Z)
  {
    hide Reachable, NewProposal, Writes, Moves, Next, Enabled;
    var g0 := ZNeedsY();
    var m;
    m, g := DeliverMoves(3, g0, 0, Y);
    MovesKeeps(g0, g, 0, Z);
    MovesTables(g0, g, 0);
    NotParked(3, g, 0, Y);
    YVote(g0, m);
  }

  lemma MovesTables(g: Cluster, h: Cluster, r: nat)
    requires Moves(g, h, r)
    ensures |h.reps| == |g.reps| && TablesGrow(g.tables, h.tables)
  {
  }

  lemma YVote(g: Cluster, m: Msg)
    requires Reachable(3, g) && |g.reps| == 3 && g.tables.props.Keys == {X, Y, Z} && g.reps[0].Has(X) && g.reps[0].Has(Z)
    requires g.tables.props[X].cmds == CX && g.tables.props[Z].cmds == CZ
    requires |g.tables.props[X].deps| == 3 && g.tables.props[X].deps[1] == -1 && g.tables.props[X].deps[2] == 0
    requires Enabled(g, Deliver(0, m)) && m.Id() == Y && m.cmds == CY && m.deps == [-1, -1, -1] && Next(g, Deliver(0, m)).reps[0].Has(Y)
    ensures var h := Next(g, Deliver(0, m)); (0, Y) in h.tables.votes && h.tables.votes[(0, Y)] >= 0
  {
    hide Reachable, Writes, Next, LatestConflict, Interferes;
    assert Interferes(CX, CY[0]) && !Interferes(CZ, CY[0]) by { OnlyXSharesA(); }
    StoredColumns(3, g, 0, X);
    StoredColumns(3, g, 0, Z);
    OnlyConflict(3, g, 0, X, CY[0]);
    ReachableShape(3, g);
    ReplicaId(3, g, 0);
    FirstConflict(g.reps[0], m, CY[0], X);
    DecisiveVote(3, g, 0, m, 0);
  }

  lemma OnlyXSharesA()
    ensures Interferes(CX, CY[0]) && !Interferes(CZ, CY[0])
  {
    WritesInterfere(1, 2, CY[0]);
    WritesInterfere(2, 3, CY[0]);
  }

  // ---- The cycle ----

  // A cluster of three replicas can come to rest with three instances that no replica ever commits.
  lemma Deadlock() returns (g: Cluster)
    ensures Reachable(3, g) && Quiet(g) && |g.reps| == 3 && g.tables.props.Keys == {X, Y, Z}
    ensures forall r: nat, x :: r < 3 && x in {X, Y, Z} ==> ReachesCycle(g, x) && !g.reps[r].Done(x)
  {
    hide Reachable, Quiet, Needs, ReachesCycle;
    var g0 := YNeedsX();
    CycleEdges(g0);
    var es;
    es, g := Quiesces(3, g0);
    ReachableRun(3, g0, es, g);
    forall x | x in {X, Y, Z} ensures ReachesCycle(g, x) { CycleFrom(g, x); }
    forall r: nat, x | r < 3 && x in {X, Y, Z} ensures !g.reps[r].Done(x) { CycleBlocks(3, g, r, x); }
  }

  lemma CycleFrom(g: Cluster, x: InstId)
    requires Needs(g, X, Z) && Needs(g, Z, Y) && Needs(g, Y, X) && x in {X, Y, Z}
    ensures ReachesCycle(g, x)
  {
    hide Needs;
    var p := if x == X then [X, Z, Y, X] else if x == Z then [Z, Y, X, Z] else [Y, X, Z, Y];
    assert NeedsPath(g, p) && p[0] == x && p[0] == p[3];
  }

  lemma CycleEdges(g: Cluster)
    requires Reachable(3, g) && |g.reps| == 3 && g.tables.props.Keys == {X, Y, Z} && g.reps[0].Has(Z)
    requires (0, Y) in g.tables.votes && g.tables.votes[(0, Y)] >= 0 && (1, Z) in g.tables.votes && g.tables.votes[(1, Z)] >= 0
    requires |g.tables.props[X].deps| == 3 && g.tables.props[X].deps[2] == 0
    ensures Needs(g, X, Z) && Needs(g, Z, Y) && Needs(g, Y, X)
  {
    hide Reachable, GInv, FinalDeps;
    ReachableInv(3, g);
    VectorsFull(g, Y);
    VectorsFull(g, Z);
    OthersVote(g);
    var T := g.tables;
    var dy, dz := T.props[Y].deps[0 := T.votes[(0, Y)]], T.props[Z].deps[0 := T.votes[(0, Z)]][1 := T.votes[(1, Z)]];
    FinalIs(T, X, T.props[X].deps);
    FinalIs(T, Y, dy);
    FinalIs(T, Z, dz);
    assert DependsOn(T.props[X].deps, Z) && DependsOn(dy, X) && DependsOn(dz, Y);
  }

  lemma FinalIs(T: Tables, x: InstId, deps: seq<int>)
    requires x in T.props && |deps| == 3 == |T.props[x].deps| && forall j :: x.rep <= j < 3 ==> deps[j] == T.props[x].deps[j]
    requires forall i: nat :: i < x.rep && i < 3 ==> (i, x) in T.votes && deps[i] == T.votes[(i, x)]
    ensures FinalDeps(T, 3, x, deps)
  {
  }

  lemma VectorsFull(g: Cluster, x: InstId)
    requires GInv(g) && x in g.tables.props
    ensures |g.tables.props[x].deps| == |g.reps|
  {
    hide GInv, Inv, Received, Shape, WF, InstOK, RowsOK, LogOK, VotesOK;
    GOpen(g);
    InvBase(g.reps[0], g.tables);
    assert ProposalOK(g.tables.props[x], x, |g.reps|);
  }

  lemma OthersVote(g: Cluster)
    requires GInv(g) && g.reps[0].Has(Z)
    ensures (0, Z) in g.tables.votes
  {
    hide GInv, Inv, Received, WF;
    GOpen(g);
  }
}
