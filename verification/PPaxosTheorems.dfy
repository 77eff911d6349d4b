/** The main results about PPaxos: agreement, commit order, acyclicity, no lost
    wake-up and conservation of proposals, in every reachable state of the cluster. */
module PPaxosTheorems {
  import opened Store
  import opened PPaxos
  import opened PPaxosLocal
  import opened PPaxosHandler
  import opened PPaxosGlobal
  import opened PPaxosLone

  // ---- Agreement ----

  // The dependency vector every replica must end with: votes below the proposer's row, the proposal elsewhere.
  ghost predicate FinalDeps(T: Tables, n: nat, x: InstId, deps: seq<int>) {
    && x in T.props && |deps| == n == |T.props[x].deps|
    && (forall j :: x.rep <= j < n ==> deps[j] == T.props[x].deps[j])
    && (forall i: nat :: i < x.rep && i < n ==> (i, x) in T.votes && deps[i] == T.votes[(i, x)])
  }

  lemma CommittedIsFinal(g: Cluster, r: nat, x: InstId)
    requires GInv(g) && r < |g.reps| && g.reps[r].Done(x)
    ensures FinalDeps(g.tables, |g.reps|, x, g.reps[r].space[x].deps)
    ensures g.reps[r].space[x].cmds == g.tables.props[x].cmds
  {
    hide GInv, Inv, Received, Base, FinalDeps, WF, TablesOK;
    var s := g.reps[r];
    GOpen(g);
    InvBase(s, g.tables);
    DoneHas(s, g.tables, x);
    OwnVote(g, r, x);
    hide VotesOK, Shape;
    DoneIsFinal(s, g.tables, x);
  }

  lemma OwnVote(g: Cluster, r: nat, x: InstId)
    requires Shape(g) && VotesOK(g) && r < |g.reps| && g.reps[r].Has(x)
    ensures r < x.rep ==> (r, x) in g.tables.votes && r < |g.reps[r].space[x].deps|
    ensures r < x.rep ==> g.tables.votes[(r, x)] == g.reps[r].space[x].deps[r]
  {
  }

  lemma DoneIsFinal(s: RState, T: Tables, x: InstId)
    requires Base(s, T) && s.Done(x) && s.Has(x)
    requires s.id < x.rep ==> (s.id, x) in T.votes && s.id < |s.space[x].deps| && T.votes[(s.id, x)] == s.space[x].deps[s.id]
    ensures FinalDeps(T, s.n, x, s.space[x].deps) && s.space[x].cmds == T.props[x].cmds
  {
    hide RowsOK, LogOK, Tally, WFRow;
    assert InstOK(s, T, x);
    var e := s.space[x];
    forall i: nat | i < x.rep && i < s.n ensures (i, x) in T.votes && e.deps[i] == T.votes[(i, x)] {
      assert e.reach[i];
    }
  }

  lemma FinalUnique(T: Tables, n: nat, x: InstId, a: seq<int>, b: seq<int>)
    requires FinalDeps(T, n, x, a) && FinalDeps(T, n, x, b)
    ensures a == b
  {
    forall j: nat | j < n ensures a[j] == b[j] {
      if j < x.rep { assert (j, x) in T.votes; }
    }
  }

  lemma AgreementNow(g: Cluster, r1: nat, r2: nat, x: InstId)
    requires GInv(g) && r1 < |g.reps| && r2 < |g.reps|
    requires g.reps[r1].Done(x) && g.reps[r2].Done(x)
    ensures g.reps[r1].space[x].deps == g.reps[r2].space[x].deps
    ensures g.reps[r1].space[x].cmds == g.reps[r2].space[x].cmds
  {
    hide GInv, FinalDeps;
    CommittedIsFinal(g, r1, x);
    CommittedIsFinal(g, r2, x);
    FinalUnique(g.tables, |g.reps|, x, g.reps[r1].space[x].deps, g.reps[r2].space[x].deps);
  }

  // Whatever one replica has committed, any replica that commits it then or later holds the same.
  lemma Agreement(n: nat, g: Cluster, es: seq<Event>, h: Cluster, r1: nat, r2: nat, x: InstId)
    requires Reachable(n, g) && Run(g, es, h)
    requires r1 < |g.reps| && r2 < |h.reps| && g.reps[r1].Done(x) && h.reps[r2].Done(x)
    ensures h.reps[r2].space[x].deps == g.reps[r1].space[x].deps
    ensures h.reps[r2].space[x].cmds == g.reps[r1].space[x].cmds
  {
    CommitNeedsTwo(n, g, r1, x);
    ReachableInv(n, g);
    RunKeeps(g, es, h);
    assert g.reps[r1].Has(x) by {
      GOpen(g);
      InvBase(g.reps[r1], g.tables);
      DoneHas(g.reps[r1], g.tables, x);
    }
    hide GInv, Run, Reachable;
    AgreementNow(h, r1, r2, x);
  }

  // ---- Commit order ----

  // At each replica the commit order is a linear extension of the dependencies, and each row is
  // committed in order, exactly up to its watermark.
  lemma CommitOrder(n: nat, g: Cluster, r: nat, x: InstId, y: InstId)
    requires Reachable(n, g) && r < |g.reps| && g.reps[r].Done(x)
    requires DependsOn(g.reps[r].space[x].deps, y) || (y.rep == x.rep && y.inst < x.inst)
    ensures Before(g.reps[r].log, y, x)
    ensures |g.reps[r].upTo| == |g.reps|
    ensures forall z: InstId :: z.rep < |g.reps| ==> (z in g.reps[r].log <==> z.inst <= g.reps[r].upTo[z.rep])
  {
    CommitNeedsTwo(n, g, r, x);
    ReachableInv(n, g);
    GOpen(g);
    var s := g.reps[r];
    InvBase(s, g.tables);
    hide GInv, Inv, VotesOK, Received, Shape;
    OwnRowFirst(s, g.tables, x, y);
    DependenciesFirst(s, x, y) by { hide InstOK, TablesOK; }
    hide LogOK, InstOK, WF, TablesOK;
  }

  lemma OwnRowFirst(s: RState, T: Tables, x: InstId, y: InstId)
    requires Base(s, T) && s.Done(x)
    ensures y.rep == x.rep && y.inst < x.inst ==> DependsOn(s.space[x].deps, y)
    ensures |s.space[x].deps| == s.n
  {
    hide RowsOK, LogOK, Tally;
    assert InstOK(s, T, x);
    assert ProposalOK(T.props[x], x, s.n);
  }

  lemma DependenciesFirst(s: RState, x: InstId, y: InstId)
    requires LogOK(s) && s.Done(x) && DependsOn(s.space[x].deps, y)
    ensures Before(s.log, y, x) && y in s.log && s.Done(y)
  {
    assert x in s.log;
    var i :| 0 <= i < |s.log| && s.log[i] == x;
    assert y in s.log[..i];
    var j :| 0 <= j < i && s.log[j] == y;
  }

  // ---- Acyclicity ----

  // x, committed somewhere, depends on y.
  ghost predicate Edge(g: Cluster, x: InstId, y: InstId) {
    exists r :: 0 <= r < |g.reps| && g.reps[r].Done(x) && DependsOn(g.reps[r].space[x].deps, y)
  }

  ghost predicate Path(g: Cluster, p: seq<InstId>) {
    |p| > 0 && forall k :: 0 <= k < |p| - 1 ==> Edge(g, p[k], p[k + 1])
  }

  lemma Position(s: RState, x: InstId) returns (i: nat)
    requires LogOK(s) && s.Done(x)
    ensures i < |s.log| && s.log[i] == x
  {
    assert x in s.log;
    i :| 0 <= i < |s.log| && s.log[i] == x;
  }

  // An edge leads to an earlier position of any replica's commit order.
  lemma EdgeDescends(g: Cluster, r: nat, i: nat, x: InstId, y: InstId) returns (j: nat)
    requires GInv(g) && r < |g.reps| && i < |g.reps[r].log| && g.reps[r].log[i] == x && Edge(g, x, y)
    ensures j < i && g.reps[r].log[j] == y
  {
    var s := g.reps[r];
    var q :| 0 <= q < |g.reps| && g.reps[q].Done(x) && DependsOn(g.reps[q].space[x].deps, y);
    LogOf(g, r);
    hide GInv;
    assert s.Done(x) by { assert x in s.log; }
    AgreementNow(g, q, r, x);
    j := EarlierPosition(s, i, y);
  }

  lemma LogOf(g: Cluster, r: nat)
    requires GInv(g) && r < |g.reps|
    ensures LogOK(g.reps[r])
  {
    hide GInv, Inv, InstOK, LogOK, Shape, VotesOK, Received;
    GOpen(g);
    InvBase(g.reps[r], g.tables);
  }

  lemma PathTail(g: Cluster, p: seq<InstId>)
    requires Path(g, p) && |p| >= 2
    ensures Edge(g, p[0], p[1]) && Path(g, p[1..])
  {
    hide Edge;
    assert forall k :: 0 <= k < |p[1..]| - 1 ==> p[1..][k] == p[k + 1];
  }

  // Along a path the position in one replica's commit order falls.
  lemma {:induction false} PathDescends(g: Cluster, r: nat, p: seq<InstId>, i: nat) returns (j: nat)
    requires GInv(g) && r < |g.reps| && Path(g, p)
    requires i < |g.reps[r].log| && g.reps[r].log[i] == p[0]
    ensures j <= i && g.reps[r].log[j] == p[|p| - 1] && (|p| >= 2 ==> j < i)
    decreases |p|
  {
    j := i;
    if |p| >= 2 {
      PathTail(g, p);
      hide GInv, Edge, Path;
      j := EdgeDescends(g, r, i, p[0], p[1]);
      j := PathDescends(g, r, p[1..], j);
    }
  }

  lemma EarlierPosition(s: RState, i: nat, y: InstId) returns (j: nat)
    requires LogOK(s) && i < |s.log| && s.log[i] in s.space && DependsOn(s.space[s.log[i]].deps, y)
    ensures j < i && s.log[j] == y
  {
    assert y in s.log[..i];
    j :| 0 <= j < i && s.log[j] == y;
  }

  // The dependency relation over everything committed anywhere has no cycle.
  lemma Acyclic(n: nat, g: Cluster, p: seq<InstId>)
    requires Reachable(n, g) && Path(g, p) && |p| >= 2
    ensures p[0] != p[|p| - 1]
  {
    assert Edge(g, p[0], p[1]);
    var r: nat :| r < |g.reps| && g.reps[r].Done(p[0]);
    CommitNeedsTwo(n, g, r, p[0]);
    ReachableInv(n, g);
    var s := g.reps[r];
    LogOf(g, r);
    hide GInv, Path, Edge;
    var i := Position(s, p[0]);
    var j := PathDescends(g, r, p, i);
    assert s.log[j] != s.log[i];
  }

  // ---- No lost wake-up ----

  // No instance with a command is left uncommitted although it may commit.
  ghost predicate AllAwake(g: Cluster) {
    && Shape(g)
    && forall r: nat, x :: r < |g.reps| && g.reps[r].Has(x) && Ready(g.reps[r], x) ==> g.reps[r].Done(x)
  }

  lemma LiveAwake(s: RState, x: InstId)
    requires WF(s) && Live(s, {}) && s.Has(x)
    ensures Ready(s, x) ==> s.Done(x)
  {
    assert !CanCommit(s, x);
    TestIsReady(s, x);
    hide Ready, CanCommit, WF;
  }

  lemma NoLostWakeup(n: nat, g: Cluster)
    requires n >= 2 && Reachable(n, g)
    ensures AllAwake(g)
  {
    ReachableInv(n, g);
    GOpen(g);
    hide GInv, VotesOK, Received, OwnOK, ParkedOK, Outbox, Base, Tallied, Untallied, Live, Shape, WF, Ready;
    forall r: nat, x | r < |g.reps| && g.reps[r].Has(x) ensures Ready(g.reps[r], x) ==> g.reps[r].Done(x) {
      assert Inv(g.reps[r], g.tables, {});
      LiveAwake(g.reps[r], x);
    }
    assert Shape(g);
  }

  lemma DoneIsReady(s: RState, T: Tables, x: InstId)
    requires Base(s, T) && s.Done(x)
    ensures Ready(s, x)
  {
    var e := s.space[x];
    assert |e.reach| == s.n == |e.deps|;
    assert HigherReached(e, x.rep) && Tally(e.reach) > s.n / 2 by {
      assert InstOK(s, T, x);
      hide RowsOK, LogOK, Tally, ColumnsOK, WFRow;
    }
    TallyIs(e.reach);
    hide InstOK, TablesOK, Tally, WFRow;
    forall q: nat | q < s.n ensures e.deps[q] <= s.upTo[q] {
      if e.deps[q] >= 0 { DependenciesFirst(s, x, InstId(q, e.deps[q])); }
    }
  }

  // In every reachable state exactly the instances that pass the commit test are committed.
  lemma CommittedExactly(n: nat, g: Cluster, r: nat, x: InstId)
    requires n >= 2 && Reachable(n, g) && r < |g.reps| && g.reps[r].Has(x)
    ensures var s, e := g.reps[r], g.reps[r].space[x];
            && |e.reach| == |e.deps| == |s.upTo| == |g.reps| && x.rep < |g.reps|
            && (s.Done(x) <==>
                  && (forall i :: 0 <= i < x.rep ==> e.reach[i])
                  && |set i | 0 <= i < |g.reps| && e.reach[i]| > |g.reps| / 2
                  && forall q :: 0 <= q < |g.reps| ==> e.deps[q] <= s.upTo[q])
  {
    hide Reachable, GInv, Inv, VotesOK, Received, Base, WFRow;
    NoLostWakeup(n, g);
    ReachableInv(n, g);
    GOpen(g);
    var s := g.reps[r];
    InvBase(s, g.tables);
    if s.Done(x) { DoneIsReady(s, g.tables, x); }
  }

  // With one replica nobody ever calls Commit: the first proposal is ready and stays uncommitted.
  lemma SingleReplicaSleeps(c: Command)
    ensures exists g :: Reachable(1, g) && !AllAwake(g)
  {
    var g := InitCluster(1);
    var e := ProposeAt(0, [c]);
    FirstProposal(c);
    hide Next, Enabled, AllAwake;
    OneStep(g, e);
    assert Reachable(1, Next(g, e));
  }

  lemma OneStep(g: Cluster, e: Event)
    requires Enabled(g, e)
    ensures Run(g, [e], Next(g, e))
  {
    hide Next, Enabled;
    assert Run(Next(g, e), [], Next(g, e)) && [e][1..] == [];
  }

  lemma FirstProposal(c: Command)
    ensures var g, e := InitCluster(1), ProposeAt(0, [c]); Enabled(g, e) && !AllAwake(Next(g, e))
  {
    var g := InitCluster(1);
    var s := InitState(0, 1);
    InitInv(0, 1);
    var e := ProposeAt(0, [c]);
    assert g.reps == [s] && Enabled(g, e);
    FirstStays(s, c, Next(g, e).reps[0]) by { hide Inv, Propose, Run; }
  }

  lemma FirstStays(s: RState, c: Command, t: RState)
    requires s == InitState(0, 1) && WF(s) && t == Propose(s, [c])
    ensures WF(t) && t.Has(InstId(0, 0)) && Ready(t, InstId(0, 0)) && !t.Done(InstId(0, 0))
  {
    var x := InstId(0, 0);
    var p := NewProposal(s, [c]).1;
    assert Proposes(s, [c], x, p, t);
    ProposeShape(s, [c], x, p, t);
    ProposeWF(s, [c]);
    hide Propose, NewProposal, Proposes, Broadcast;
    TallyOne(1, 0);
    assert p.deps[0] == -1;
    TallyIs(t.space[x].reach);
    hide Tally;
  }

  // Exactly the clusters of two or more replicas lose no wake-up.
  lemma WakeupExactly(n: nat)
    requires n >= 1
    ensures (forall g :: Reachable(n, g) ==> AllAwake(g)) <==> n >= 2
  {
    if n >= 2 {
      forall g | Reachable(n, g) ensures AllAwake(g) {
        hide AllAwake, Reachable;
        NoLostWakeup(n, g);
      }
    } else {
      hide AllAwake, Reachable;
      SingleReplicaSleeps(Command(NONE, 0, NIL));
    }
  }

  // ---- Conservation of proposals ----

  // A proposal that reached r is either answered, once to each peer, or parked in one slot under an
  // instance that has no command yet; one that did not reach r is neither.
  lemma ProposalsConserved(n: nat, g: Cluster, r: nat, x: InstId)
    requires Reachable(n, g) && r < |g.reps| && x.rep != r
    ensures var s := g.reps[r]; var w := s.waitlist;
            && ((r, x.rep, x) in g.delivered <==> s.Has(x) || IsParked(w, x))
            && !(s.Has(x) && IsParked(w, x))
            && (forall to: nat :: Sent(s.out, to, x) == if to < |g.reps| && to != r && s.Has(x) then 1 else 0)
            && (forall k, i :: Slot(w, k, i) && w[k][i].Id() == x ==>
                  !s.Has(k) && forall k', i' :: Slot(w, k', i') && w[k'][i'].Id() == x ==> k' == k && i' == i)
  {
    if n <= 1 {
      ReachableLone(n, g);
      return;
    }
    ReachableInv(n, g);
    GOpen(g);
    hide GInv, VotesOK, OwnOK, Core, Base, Shape;
    var s := g.reps[r];
    assert Inv(s, g.tables, {}) && s.n == |g.reps| && s.id == r;
    if IsParked(s.waitlist, x) {
      var k, i :| Slot(s.waitlist, k, i) && s.waitlist[k][i].Id() == x;
      assert ParkedMsg(s, g.tables, s.waitlist[k][i]);
    }
    hide Genuine;
  }

  // ---- Commits happen ----

  // What Finish leaves of the message's instance: its command, its dependencies, and three reached replicas.
  lemma FinishReaches(s: RState, m: Msg)
    requires WF(s) && WFMsg(m, s.n) && m.Id() in s.space && m.sender == m.rep
    ensures m.Id() in Finish(s, m).space && Finish(s, m).id == s.id
    ensures var e := Finish(s, m).space[m.Id()];
            e.cmds == s.space[m.Id()].cmds && e.deps == s.space[m.Id()].deps
            && |e.reach| == s.n && e.reach[s.id] && e.reach[m.rep]
  {
    ReachedWF(s, m);
    var s1 := Reached(s, m);
    hide Commit, WF, WFRow;
    if !(s1.space[m.Id()].status == Committed || s1.space[m.Id()].cmds == []) {
      FrameBody(s1, Commit(s1, m.Id()), m.Id());
      hide CommitFrame;
    }
  }

  // A replica below the proposer's priority answers a proposal to its initial state at once.
  lemma FirstAnswer(m: Msg)
    requires WF(InitState(1, 2)) && WFMsg(m, 2) && m.rep == 0 == m.sender && m.cmds != [] && m.deps == [-1, -1]
    ensures var t := Handle(InitState(1, 2), m);
            m.Id() in t.space && Answered(t.space[m.Id()], m.cmds)
  {
    hide Finish, Accept, Broadcast, WF, Touch, InitState;
    FirstAccept(m);
    var s2 := Accept(Touch(InitState(1, 2), m.Id()), m);
    HandleIsAnswer(InitState(1, 2), m);
    AnswerWF(s2, m);
    FinishReaches(s2.(out := s2.out + Broadcast(s2.id, Vote(s2, m, 0), s2.n)), m);
  }

  lemma FirstAccept(m: Msg)
    requires WF(InitState(1, 2)) && WFMsg(m, 2) && m.rep == 0 == m.sender && m.cmds != [] && m.deps == [-1, -1]
    ensures InitState(1, 2).n == 2 && InitState(1, 2).id == 1
    ensures WF(Touch(InitState(1, 2), m.Id())) && Waiting(Touch(InitState(1, 2), m.Id()), m.Id()) == []
    ensures m.Id() in Touch(InitState(1, 2), m.Id()).space && Touch(InitState(1, 2), m.Id()).n == 2
    ensures var s2 := Accept(Touch(InitState(1, 2), m.Id()), m);
            && WF(s2) && s2.n == 2 && s2.id == 1 && m.Id() in s2.space
            && s2.space[m.Id()].deps == [-1, -1] && s2.space[m.Id()].cmds == m.cmds
  {
    var s := InitState(1, 2);
    TouchWF(s, m.Id());
    var s1 := Touch(s, m.Id());
    AcceptWF(s1, m);
    hide WF, Record;
    assert FillDeps(s1.space[m.Id()].deps, m.deps) == [-1, -1];
  }

  // A proposal from a higher-priority replica, with nothing parked behind it.
  lemma HandleIsAnswer(s: RState, m: Msg)
    requires WF(s) && WFMsg(m, s.n) && m.cmds != [] && m.rep <= s.id && WF(Touch(s, m.Id())) && Waiting(Touch(s, m.Id()), m.Id()) == []
    requires m.Id() in Touch(s, m.Id()).space && Touch(s, m.Id()).n == s.n
    requires WF(Accept(Touch(s, m.Id()), m)) && Accept(Touch(s, m.Id()), m).n == s.n && m.Id() in Accept(Touch(s, m.Id()), m).space
    ensures Handle(s, m) == Answer(Accept(Touch(s, m.Id()), m), m, 0)
  {
    hide Accept, Answer, Touch, WF, Waiting;
    assert HandleAll(Accept(Touch(s, m.Id()), m), []) == Accept(Touch(s, m.Id()), m);
  }

  lemma AnswerWF(s: RState, m: Msg)
    requires WF(s) && WFMsg(m, s.n) && m.Id() in s.space
    ensures WF(s.(out := s.out + Broadcast(s.id, Vote(s, m, 0), s.n)))
  {
    hide Broadcast, Vote, WFRow, WFInstance;
  }

  lemma FirstEnabled(c: Command)
    ensures Enabled(InitCluster(2), ProposeAt(0, [c]))
  {
    var g := InitCluster(2);
    InitInv(0, 2);
    InitInv(1, 2);
    hide Inv, WF, InitState;
    assert g.reps == [InitState(0, 2), InitState(1, 2)];
  }

  lemma FirstMessage(c: Command)
    ensures Enabled(InitCluster(2), ProposeAt(0, [c]))
    ensures var h := Next(InitCluster(2), ProposeAt(0, [c]));
            |h.reps| == 2 && h.reps[1] == InitState(1, 2) && Enabled(h, Deliver(1, Msg(0, 0, [c], [-1, -1], 0, 0)))
  {
    hide Inv, WF, Propose, Tally, InitState, NewProposal;
    FirstEnabled(c);
    FirstOut(c);
    InitInv(1, 2);
    var h := Next(InitCluster(2), ProposeAt(0, [c]));
    assert h.reps == [Propose(InitState(0, 2), [c]), InitState(1, 2)];
  }

  lemma FirstOut(c: Command)
    ensures WF(InitState(0, 2)) && WF(Propose(InitState(0, 2), [c])) && Propose(InitState(0, 2), [c]).n == 2
    ensures Packet(1, Msg(0, 0, [c], [-1, -1], 0, 0)) in Propose(InitState(0, 2), [c]).out
  {
    var s := InitState(0, 2);
    FirstDeps(c);
    var (x, p) := NewProposal(s, [c]);
    ProposeShape(s, [c], x, p, Propose(s, [c]));
    ProposeWF(s, [c]);
    hide Propose, WF;
    var m := Msg(0, 0, [c], [-1, -1], 0, 0);
    assert Broadcast(0, m, 2) == Broadcast(0, m, 1) + [Packet(1, m)];
    assert Packet(1, m) in Broadcast(0, m, 2);
  }

  lemma FirstDeps(c: Command)
    ensures WF(InitState(0, 2)) && NewProposal(InitState(0, 2), [c]).1.deps == [-1, -1]
  {
    var s := InitState(0, 2);
    var blank := NewInstance(2).(cmds := [c], status := PreAccepted);
    var s1 := s.(crt := s.crt[0 := 0], space := s.space[InstId(0, 0) := blank]);
    NothingKnown(s1, [c], blank.deps, 2);
    assert blank.deps == [-1, -1];
  }

  lemma {:induction false} NothingKnown(s: RState, cmds: seq<Command>, deps: seq<int>, rows: nat)
    requires WF(s) && rows <= s.n && |deps| == s.n && |cmds| == 1 && (forall j :: 0 <= j < s.n ==> deps[j] == -1)
    requires forall q :: 0 <= q < s.n ==> s.conflicts[q] == map[]
    ensures Attributes(s, cmds, deps, s.id, rows) == deps
    decreases rows
  {
    if rows > 0 {
      NothingKnown(s, cmds, deps, rows - 1);
      assert AttrRow(s, cmds[..0], deps, rows - 1) == deps;
      assert AttrRow(s, cmds, deps, rows - 1) == deps;
    }
  }

  lemma SecondMessage(h: Cluster, m: Msg)
    requires |h.reps| == 2 && h.reps[1] == InitState(1, 2) && Enabled(h, Deliver(1, m))
    requires m.rep == 0 == m.sender && m.cmds != [] && m.deps == [-1, -1]
    ensures var k := Next(h, Deliver(1, m)); |k.reps| == 2 && m.Id() in k.reps[1].space && Answered(k.reps[1].space[m.Id()], m.cmds)
  {
    hide Next, Enabled, Handle, WF, InitState;
    DeliverIs(h, m);
    FirstAnswer(m);
  }

  predicate Answered(e: Instance, cmds: seq<Command>) {
    e.cmds == cmds && e.deps == [-1, -1] && e.reach == [true, true]
  }

  // With two replicas, one proposal and its delivery commit the instance at the receiver.
  lemma FirstCommit(c: Command)
    ensures exists g :: Reachable(2, g) && |g.reps| == 2 && g.reps[1].Done(InstId(0, 0))
  {
    hide Next, Enabled, Run, WF, InitState, InitCluster, Answered, AllAwake;
    var g := InitCluster(2);
    var m := Msg(0, 0, [c], [-1, -1], 0, 0);
    FirstMessage(c);
    var h := Next(g, ProposeAt(0, [c]));
    SecondMessage(h, m);
    var k := Next(h, Deliver(1, m));
    OneStep(h, Deliver(1, m));
    TwoSteps(g, ProposeAt(0, [c]), Deliver(1, m), k);
    assert Reachable(2, k);
    NoLostWakeup(2, k);
    hide Reachable;
    ReadyIsDone(k, m);
  }

  lemma DeliverIs(h: Cluster, m: Msg)
    requires |h.reps| == 2 && h.reps[1] == InitState(1, 2) && Enabled(h, Deliver(1, m))
    ensures WF(InitState(1, 2)) && WFMsg(m, 2)
    ensures |Next(h, Deliver(1, m)).reps| == 2 && Next(h, Deliver(1, m)).reps[1] == Handle(InitState(1, 2), m)
  {
    hide WF, Handle;
  }

  lemma TwoSteps(g: Cluster, e: Event, f: Event, k: Cluster)
    requires Enabled(g, e) && Run(Next(g, e), [f], k)
    ensures Run(g, [e, f], k)
  {
    hide Next, Enabled;
    assert [e, f][1..] == [f];
  }

  lemma ReadyIsDone(g: Cluster, m: Msg)
    requires AllAwake(g) && |g.reps| == 2 && m.rep == 0 && m.cmds != []
    requires m.Id() in g.reps[1].space && Answered(g.reps[1].space[m.Id()], m.cmds)
    ensures g.reps[1].Done(m.Id())
  {
    var s := g.reps[1];
    assert [true, true][..1] == [true] && [true][..0] == [];
    assert Tally([true, true]) == 2;
    TallyIs([true, true]);
    hide Tally, WFInstance, WFRow;
    assert WF(s) && Ready(s, m.Id());
  }
}
