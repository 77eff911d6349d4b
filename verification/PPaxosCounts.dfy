/** What PPaxos counts: a vote that arrived stays counted, and whoever answers a proposal
    counts itself and the proposer. */
module PPaxosCounts {
  import opened Options
  import opened PPaxos
  import opened PPaxosCoverage
  import opened PPaxosGlobal
  import opened PPaxosHandler
  import opened PPaxosKnown
  import opened PPaxosLocal
  import opened Store

  predicate Counts(s: RState, x: InstId, i: nat) {
    x in s.space && i < |s.space[x].reach| && s.space[x].reach[i]
  }

  // Nothing counted is forgotten.
  ghost predicate KeepsCount(s: RState, t: RState) {
    t.id == s.id && t.n == s.n && forall x: InstId, i: nat :: Counts(s, x, i) ==> Counts(t, x, i)
  }

  ghost predicate CountsBoth(s: RState, x: InstId) { Counts(s, x, s.id) && Counts(s, x, x.rep) }

  ghost predicate NewCounts(s: RState, t: RState) {
    forall x :: t.Has(x) && !s.Has(x) ==> CountsBoth(t, x)
  }

  lemma Compose(s: RState, t: RState, u: RState)
    requires KeepsCount(s, t) && NewCounts(s, t) && KeepsCount(t, u) && NewCounts(t, u)
    ensures KeepsCount(s, u) && NewCounts(s, u)
  {
  }

  lemma JudgeCounts(s: RState, m: Msg)
    requires WF(s) && WFMsg(m, s.n)
    ensures KeepsCount(s, Judge(s, m).0) && NewCounts(s, Judge(s, m).0)
  {
    hide Priority, WFRow;
    TouchWF(s, m.Id());
  }

  lemma FinishCounts(s: RState, m: Msg)
    requires WF(s) && WFMsg(m, s.n) && m.Id() in s.space
    ensures KeepsCount(s, Finish(s, m)) && NewCounts(s, Finish(s, m))
    ensures Counts(Finish(s, m), m.Id(), s.id) && Counts(Finish(s, m), m.Id(), m.rep) && Counts(Finish(s, m), m.Id(), m.sender)
  {
    ReachedWF(s, m);
    var s1 := Reached(s, m);
    assert KeepsCount(s, s1) && NewCounts(s, s1) by { hide WFRow; }
    assert Counts(s1, m.Id(), s.id) && Counts(s1, m.Id(), m.rep) && Counts(s1, m.Id(), m.sender) by { hide WFRow; }
    hide Commit, WF, Reached, Counts, CountsBoth;
    if !(s1.space[m.Id()].status == Committed || s1.space[m.Id()].cmds == []) {
      CommitCounts(s1, Commit(s1, m.Id()));
    }
  }

  lemma CommitCounts(s: RState, t: RState)
    requires CommitFrame(s, t)
    ensures KeepsCount(s, t) && NewCounts(s, t)
  {
    assert forall x <- t.space :: SameBody(s.space[x], t.space[x]);
  }

  // Accept gives the command; the answer then counts it.
  lemma AnswerCounts(s: RState, m: Msg, u: RState, dep: int)
    requires WF(s) && WFMsg(m, s.n) && m.Id() in s.space && WF(Accept(s, m)) && Accept(s, m).n == s.n
    requires WF(u) && m.Id() in u.space && KeepsCount(Accept(s, m), u) && NewCounts(Accept(s, m), u)
    ensures KeepsCount(s, Answer(u, m, dep)) && NewCounts(s, Answer(u, m, dep))
  {
    var v := u.(out := u.out + Broadcast(u.id, Vote(u, m, dep), u.n));
    AcceptCounts(s, m);
    AnswerWF(u, m, dep);
    hide Accept, Broadcast, Vote, WF, WFMsg, Finish;
    assert Answer(u, m, dep) == Finish(v, m);
    assert WFMsg(m, v.n);
    FinishCounts(v, m);
    assert forall x, i: nat :: Counts(v, x, i) <==> Counts(u, x, i);
    assert forall x :: v.Has(x) <==> u.Has(x);
  }

  lemma AcceptCounts(s: RState, m: Msg)
    requires WF(s) && WFMsg(m, s.n) && m.Id() in s.space
    ensures KeepsCount(s, Accept(s, m)) && forall x :: Accept(s, m).Has(x) && x != m.Id() ==> s.Has(x)
  {
    hide Record, FillDeps, WFRow;
  }

  lemma {:induction false} HandleCounts(s: RState, m: Msg)
    requires WF(s) && WFMsg(m, s.n)
    ensures KeepsCount(s, Handle(s, m)) && NewCounts(s, Handle(s, m))
    ensures m.cmds == [] ==> Counts(Handle(s, m), m.Id(), m.sender)
    decreases |WaitSlots(s.waitlist)| + 1, 0
  {
    hide KeepsCount, NewCounts, Counts, WF, WFMsg, Judge, Accept, Finish, Answer, WaitSlots, Park;
    if m.cmds == [] {
      MsgRow(m, s.n);
      TouchWF(s, m.Id());
      TouchCounts(s, m.Id());
      FinishCounts(Touch(s, m.Id()), m);
      Compose(s, Touch(s, m.Id()), Handle(s, m));
    } else {
      var (s1, v) := Judge(s, m);
      JudgeCounts(s, m);
      if v.waitFor.Some? {
        SameSpaceCounts(s1, Park(s1, v.waitFor.value, m)) by { ParkSpace(s1, v.waitFor.value, m); }
        Compose(s, s1, Handle(s, m));
      } else {
        AcceptWF(s1, m);
        AcceptWaits(s1, m);
        ParkedWF(s1, m.Id());
        PopFreesSlots(s1, m.Id());
        HandleAllCounts(Accept(s1, m), Waiting(s1, m.Id()));
        AnswerCounts(s1, m, HandleAll(Accept(s1, m), Waiting(s1, m.Id())), v.dep);
        Compose(s, s1, Handle(s, m));
      }
    }
  }

  lemma ParkSpace(s: RState, k: InstId, m: Msg)
    ensures Park(s, k, m).space == s.space && Park(s, k, m).id == s.id && Park(s, k, m).n == s.n
  {
  }

  lemma SameSpaceCounts(s: RState, t: RState)
    requires t.space == s.space && t.id == s.id && t.n == s.n
    ensures KeepsCount(s, t) && NewCounts(s, t)
  {
  }

  lemma TouchCounts(s: RState, x: InstId)
    ensures KeepsCount(s, Touch(s, x)) && NewCounts(s, Touch(s, x))
  {
  }

  lemma {:induction false} HandleAllCounts(s: RState, ws: seq<Msg>)
    requires WF(s) && forall w <- ws :: WFMsg(w, s.n)
    ensures KeepsCount(s, HandleAll(s, ws)) && NewCounts(s, HandleAll(s, ws))
    decreases |WaitSlots(s.waitlist)| + |ws|, |ws|
  {
    if ws == [] {
      SameSpaceCounts(s, s);
    } else {
      hide KeepsCount, NewCounts, WF, WFMsg, WaitSlots, Handle;
      HandleCounts(s, ws[0]);
      HandleAllCounts(Handle(s, ws[0]), ws[1..]);
      Compose(s, Handle(s, ws[0]), HandleAll(s, ws));
    }
  }

  // ---- Runs ----

  // Whatever a replica answered it counts for itself and the proposer, and every vote it received.
  ghost predicate CountsOK(g: Cluster) {
    && Shape(g) && (forall r :: 0 <= r < |g.reps| ==> g.reps[r].id == r && forall x :: g.reps[r].Has(x) ==> CountsBoth(g.reps[r], x))
    && forall r: nat, i: nat, x: InstId :: (r, i, x) in g.delivered && i != x.rep ==> r < |g.reps| && Counts(g.reps[r], x, i)
  }

  lemma ReplicaCounts(g: Cluster, h: Cluster, r: nat)
    requires CountsOK(g) && Shape(h) && r < |g.reps| == |h.reps| && h.reps == g.reps[r := h.reps[r]]
    requires KeepsCount(g.reps[r], h.reps[r]) && NewCounts(g.reps[r], h.reps[r])
    requires forall to: nat, i: nat, x: InstId :: (to, i, x) in h.delivered && i != x.rep ==> (to, i, x) in g.delivered || (to == r && Counts(h.reps[r], x, i))
    ensures CountsOK(h)
  {
    hide Counts, WF;
  }

  lemma ProposeKeepsCounts(g: Cluster, r: nat, cmds: seq<Command>)
    requires GInv(g) && CountsOK(g) && Enabled(g, ProposeAt(r, cmds)) && Shape(Next(g, ProposeAt(r, cmds)))
    ensures CountsOK(Next(g, ProposeAt(r, cmds)))
  {
    hide GInv, CountsOK, KeepsCount, NewCounts, Counts, Propose, NewProposal, WF;
    OwnIsNew(g, r);
    ProposeCounts(g.reps[r], cmds);
    ReplicaCounts(g, Next(g, ProposeAt(r, cmds)), r);
  }

  lemma DeliverKeepsCounts(g: Cluster, to: nat, m: Msg)
    requires AllKnow(g) && CountsOK(g) && Enabled(g, Deliver(to, m)) && Shape(Next(g, Deliver(to, m)))
    ensures CountsOK(Next(g, Deliver(to, m)))
  {
    hide CountsOK, KeepsCount, NewCounts, Counts, Handle, AllKnow, WF, VotesOf;
    if m.cmds != [] { SenderIsProposer(g, to, m); }
    HandleCounts(g.reps[to], m);
    ReplicaCounts(g, Next(g, Deliver(to, m)), to);
  }

  lemma SenderIsProposer(g: Cluster, to: nat, m: Msg)
    requires AllKnow(g) && Enabled(g, Deliver(to, m)) && m.cmds != []
    ensures m.sender == m.rep
  {
    hide WF, RowsClosed, SpaceKnown, DepsKnown, WaitsKnown;
    assert Knows(g.tables.props.Keys, g.reps[m.sender]);
  }

  lemma NextCounts(g: Cluster, e: Event)
    requires GInv(g) && AllKnow(g) && CountsOK(g) && Enabled(g, e)
    ensures CountsOK(Next(g, e))
  {
    hide GInv, AllKnow, CountsOK, Next, Enabled;
    NextShape(g, e);
    match e
    case ProposeAt(r, cmds) => ProposeKeepsCounts(g, r, cmds);
    case Deliver(to, m) => DeliverKeepsCounts(g, to, m);
  }

  lemma OwnIsNew(g: Cluster, r: nat)
    requires GInv(g) && r < |g.reps|
    ensures WF(g.reps[r]) && InstId(g.reps[r].id, g.reps[r].crt[g.reps[r].id] + 1) !in g.reps[r].space
  {
    hide GInv, Base, Untallied, Tallied, Live, ParkedOK, Outbox, VotesOK, Received, OwnOK, WFRow;
    GOpen(g);
    var s := g.reps[r];
    NewIsUnknown(s, g.tables, InstId(s.id, s.crt[s.id] + 1));
  }

  lemma ProposeCounts(s: RState, cmds: seq<Command>)
    requires WF(s) && cmds != [] && InstId(s.id, s.crt[s.id] + 1) !in s.space
    ensures KeepsCount(s, Propose(s, cmds)) && NewCounts(s, Propose(s, cmds))
  {
    var (x, p) := NewProposal(s, cmds);
    ProposeShape(s, cmds, x, p, Propose(s, cmds));
    hide Propose, NewProposal, WFRow;
  }

  lemma {:induction false} RunCounts(g: Cluster, es: seq<Event>, h: Cluster)
    requires GInv(g) && AllKnow(g) && CountsOK(g) && Run(g, es, h)
    ensures CountsOK(h)
    decreases |es|
  {
    hide GInv, AllKnow, CountsOK, Next, Enabled, Shape, GStep;
    if es != [] {
      NextCounts(g, es[0]);
      NextKeeps(g, es[0]);
      NextKnows(g, es[0]);
      RunCounts(Next(g, es[0]), es[1..], h);
    }
  }

  lemma ReachableCounts(n: nat, g: Cluster)
    requires n >= 2 && Reachable(n, g)
    ensures CountsOK(g)
  {
    var h := InitCluster(n);
    InitGInv(n);
    InitKnows(n);
    assert CountsOK(h) by { hide GInv, AllKnow; StartCounts(n); }
    hide AllKnow, Run, GInv, CountsOK, InitCluster;
    var es :| Run(h, es, g);
    RunCounts(h, es, g);
  }

  lemma StartCounts(n: nat)
    ensures CountsOK(InitCluster(n))
  {
    forall r | 0 <= r < n ensures WF(InitState(r, n)) { InitInv(r, n); }
    hide WF;
  }

  // ---- Nothing else is counted ----

  // A handler counts itself, the proposer and the sender of its message.
  ghost predicate CountsOnly(s: RState, t: RState, m: Msg) {
    forall x: InstId, i: nat :: Counts(t, x, i) ==> Counts(s, x, i) || i == s.id || i == x.rep || (x == m.Id() && i == m.sender)
  }

  // The same without a sender: for the state between two handlers, or a proposal.
  ghost predicate CountsOwn(s: RState, t: RState) {
    t.id == s.id && forall x: InstId, i: nat :: Counts(t, x, i) ==> Counts(s, x, i) || i == s.id || i == x.rep
  }

  lemma OwnThen(s: RState, t: RState, u: RState)
    requires CountsOwn(s, t) && CountsOwn(t, u)
    ensures CountsOwn(s, u)
  {
    hide Counts;
  }

  lemma JudgeOwn(s: RState, m: Msg)
    requires WF(s) && WFMsg(m, s.n)
    ensures CountsOwn(s, Judge(s, m).0)
  {
    hide Priority, WFRow;
    TouchWF(s, m.Id());
  }

  lemma FinishOnly(s: RState, m: Msg)
    requires WF(s) && WFMsg(m, s.n) && m.Id() in s.space
    ensures CountsOnly(s, Finish(s, m), m) && Finish(s, m).id == s.id
  {
    ReachedWF(s, m);
    var s1 := Reached(s, m);
    assert CountsOnly(s, s1, m) by { hide WFRow; }
    hide Commit, WF, Reached, Counts;
    if !(s1.space[m.Id()].status == Committed || s1.space[m.Id()].cmds == []) {
      FrameReach(s1, Commit(s1, m.Id()));
    }
  }

  lemma FrameReach(s: RState, t: RState)
    requires CommitFrame(s, t)
    ensures t.id == s.id && forall x: InstId, i: nat :: Counts(t, x, i) ==> Counts(s, x, i)
  {
    assert forall x <- t.space :: SameBody(s.space[x], t.space[x]);
  }

  lemma AnswerOwn(s: RState, m: Msg, dep: int)
    requires WF(s) && WFMsg(m, s.n) && m.Id() in s.space && m.sender == m.rep
    ensures CountsOwn(s, Answer(s, m, dep))
  {
    var v := s.(out := s.out + Broadcast(s.id, Vote(s, m, dep), s.n));
    AnswerWF(s, m, dep);
    FinishOnly(v, m);
    hide Broadcast, Vote, WF, WFMsg, Finish;
    assert forall x, i: nat :: Counts(v, x, i) <==> Counts(s, x, i);
  }

  lemma AcceptOwn(s: RState, m: Msg)
    requires WF(s) && WFMsg(m, s.n) && m.Id() in s.space
    ensures CountsOwn(s, Accept(s, m))
  {
    hide Record, FillDeps, WFRow;
  }

  lemma TouchOwn(s: RState, x: InstId)
    ensures CountsOwn(s, Touch(s, x)) && Touch(s, x).id == s.id
  {
  }

  lemma SpaceOwn(s: RState, t: RState)
    requires t.space == s.space && t.id == s.id
    ensures CountsOwn(s, t)
  {
  }

  lemma OwnThenOnly(s: RState, t: RState, u: RState, m: Msg)
    requires CountsOwn(s, t) && CountsOnly(t, u, m)
    ensures CountsOnly(s, u, m)
  {
    hide Counts;
  }

  lemma {:induction false} HandleProposal(P: set<InstId>, s: RState, m: Msg)
    requires WF(s) && WFMsg(m, s.n) && RowsClosed(P) && Knows(P, s) && MsgKnown(P, m) && m.cmds != []
    ensures CountsOwn(s, Handle(s, m))
    decreases |WaitSlots(s.waitlist)| + 1, 0
  {
    ProposalKnown(P, m);
    hide RowsClosed, Knows, MsgKnown, WF, WFMsg, Judge, Accept, Answer, WaitSlots, Park, CountsOwn;
    var (s1, v) := Judge(s, m);
    JudgeOwn(s, m);
    JudgeKnows(P, s, m);
    if v.waitFor.Some? {
      SpaceOwn(s1, Park(s1, v.waitFor.value, m)) by { ParkSpace(s1, v.waitFor.value, m); }
      OwnThen(s, s1, Handle(s, m));
    } else {
      AcceptWF(s1, m);
      AcceptWaits(s1, m);
      PopFreesSlots(s1, m.Id());
      AcceptKnows(P, s1, m);
      AcceptOwn(s1, m);
      var s2 := Accept(s1, m);
      var s3 := HandleAll(s2, Waiting(s1, m.Id()));
      RetriesOwn(P, s2, Waiting(s1, m.Id()));
      AnswerOwn(s3, m, v.dep);
      OwnThen(s, s1, s2);
      OwnThen(s, s2, s3);
      OwnThen(s, s3, Handle(s, m));
    }
  }

  lemma {:induction false} RetriesOwn(P: set<InstId>, s: RState, ws: seq<Msg>)
    requires WF(s) && (forall w <- ws :: WFMsg(w, s.n) && w.cmds != [] && MsgKnown(P, w)) && RowsClosed(P) && Knows(P, s)
    ensures CountsOwn(s, HandleAll(s, ws))
    decreases |WaitSlots(s.waitlist)| + |ws|, |ws|
  {
    if ws == [] {
      SpaceOwn(s, s);
    } else {
      hide RowsClosed, Knows, MsgKnown, WF, WFMsg, WaitSlots, Handle, CountsOwn;
      HandleProposal(P, s, ws[0]);
      HandleKnows(P, s, ws[0]);
      RetriesOwn(P, Handle(s, ws[0]), ws[1..]);
      OwnThen(s, Handle(s, ws[0]), HandleAll(s, ws));
    }
  }

  lemma HandleOnly(P: set<InstId>, s: RState, m: Msg)
    requires WF(s) && WFMsg(m, s.n) && RowsClosed(P) && Knows(P, s) && MsgKnown(P, m)
    ensures CountsOnly(s, Handle(s, m), m)
  {
    hide RowsClosed, Knows, MsgKnown, WF, WFMsg, Finish, Counts, Judge, Accept, Answer;
    if m.cmds == [] {
      MsgRow(m, s.n);
      TouchWF(s, m.Id());
      TouchOwn(s, m.Id());
      FinishOnly(Touch(s, m.Id()), m);
      OwnThenOnly(s, Touch(s, m.Id()), Handle(s, m), m);
    } else {
      HandleProposal(P, s, m);
    }
  }

  ghost predicate OnlyDelivered(g: Cluster) {
    forall r: nat, x: InstId, i: nat :: r < |g.reps| && Counts(g.reps[r], x, i) ==> i == r || i == x.rep || (r, i, x) in g.delivered
  }

  lemma NextOnly(g: Cluster, e: Event)
    requires GInv(g) && AllKnow(g) && OnlyDelivered(g) && Enabled(g, e)
    ensures OnlyDelivered(Next(g, e))
  {
    hide GInv, RowsClosed, Knows, Counts, Propose, NewProposal, Handle, MsgKnown, WF, VotesOf;
    match e
    case ProposeAt(r, cmds) =>
      OwnIsNew(g, r);
      ProposeOwn(g.reps[r], cmds);
    case Deliver(to, m) =>
      SentKnown(g.tables.props.Keys, g.reps[m.sender], Packet(to, m));
      HandleOnly(g.tables.props.Keys, g.reps[to], m);
  }

  lemma ProposeOwn(s: RState, cmds: seq<Command>)
    requires WF(s) && cmds != [] && InstId(s.id, s.crt[s.id] + 1) !in s.space
    ensures CountsOwn(s, Propose(s, cmds))
  {
    var (x, p) := NewProposal(s, cmds);
    ProposeShape(s, cmds, x, p, Propose(s, cmds));
    hide Propose, NewProposal, WFRow;
  }

  lemma {:induction false} RunOnly(g: Cluster, es: seq<Event>, h: Cluster)
    requires GInv(g) && AllKnow(g) && OnlyDelivered(g) && Run(g, es, h)
    ensures OnlyDelivered(h)
    decreases |es|
  {
    hide GInv, AllKnow, OnlyDelivered, Next, Enabled, Shape, GStep;
    if es != [] {
      NextOnly(g, es[0]);
      NextKeeps(g, es[0]);
      NextKnows(g, es[0]);
      RunOnly(Next(g, es[0]), es[1..], h);
    }
  }

  // A replica counts exactly itself, the proposer and the replicas whose vote it received.
  lemma CountsExactly(n: nat, g: Cluster, r: nat, x: InstId, i: nat)
    requires n >= 2 && Reachable(n, g) && r < |g.reps| && g.reps[r].Has(x)
    ensures i < |g.reps[r].space[x].reach| && g.reps[r].space[x].reach[i] <==> i == r || i == x.rep || (r, i, x) in g.delivered
  {
    ReachableCounts(n, g);
    assert CountsBoth(g.reps[r], x);
    InitGInv(n);
    InitKnows(n);
    var h := InitCluster(n);
    assert OnlyDelivered(h);
    hide AllKnow, Run, GInv, InitCluster, Shape;
    var es :| Run(h, es, g);
    assert OnlyDelivered(g) by { hide OnlyDelivered; RunOnly(h, es, g); }
    assert Counts(g.reps[r], x, i) <==> i < |g.reps[r].space[x].reach| && g.reps[r].space[x].reach[i];
  }
}
