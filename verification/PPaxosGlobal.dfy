/** The PPaxos cluster: n replicas and a network that delivers each packet at most once,
    in any order, possibly never. The main theorems hold in every reachable state. */
module PPaxosGlobal {
  import opened Store
  import opened PPaxos
  import opened PPaxosLocal
  import opened PPaxosHandler

  // `delivered` holds (receiver, sender, instance); props and votes are history.
  datatype Cluster = Cluster(
    reps: seq<RState>,
    delivered: set<(nat, nat, InstId)>,
    tables: Tables)

  datatype Event = ProposeAt(r: nat, cmds: seq<Command>) | Deliver(to: nat, msg: Msg)

  function InitCluster(n: nat): Cluster {
    Cluster(seq(n, i requires 0 <= i < n => InitState(i, n)), {}, Tables(map[], map[]))
  }

  ghost predicate Shape(g: Cluster) {
    forall r :: 0 <= r < |g.reps| ==> WF(g.reps[r]) && g.reps[r].n == |g.reps|
  }

  ghost predicate Enabled(g: Cluster, e: Event) {
    && Shape(g)
    && match e
       case ProposeAt(r, cmds) => r < |g.reps| && cmds != []
       case Deliver(to, m) =>
         && to < |g.reps| && WFMsg(m, |g.reps|)
         && Packet(to, m) in g.reps[m.sender].out
         && (to, m.sender, m.Id()) !in g.delivered
  }

  function NewProposal(s: RState, cmds: seq<Command>): (InstId, Proposal)
    requires WF(s)
  {
    var x := InstId(s.id, s.crt[s.id] + 1);
    (x, Proposal(cmds, Propose(s, cmds).space[x].deps))
  }

  function VotesOf(s: RState): map<(nat, InstId), int>
    requires WF(s)
  {
    map x | x in s.space && s.Has(x) && s.id < x.rep :: (s.id, x) := s.space[x].deps[s.id]
  }

  ghost function Next(g: Cluster, e: Event): Cluster
    requires Enabled(g, e)
  {
    match e
    case ProposeAt(r, cmds) =>
      var (x, p) := NewProposal(g.reps[r], cmds);
      g.(reps := g.reps[r := Propose(g.reps[r], cmds)],
         tables := g.tables.(props := g.tables.props[x := p]))
    case Deliver(to, m) =>
      var t := Handle(g.reps[to], m);
      g.(reps := g.reps[to := t],
         delivered := g.delivered + {(to, m.sender, m.Id())},
         tables := g.tables.(votes := g.tables.votes + VotesOf(t)))
  }

  ghost predicate Run(g: Cluster, es: seq<Event>, h: Cluster)
    decreases |es|
  {
    if es == [] then g == h else Enabled(g, es[0]) && Run(Next(g, es[0]), es[1..], h)
  }

  ghost predicate Reachable(n: nat, g: Cluster) {
    exists es :: Run(InitCluster(n), es, g)
  }

  // ---- The global invariant ----

  ghost predicate VotesOK(g: Cluster)
    requires Shape(g)
  {
    forall i: nat, x: InstId ::
      ((i, x) in g.tables.votes <==> i < |g.reps| && i < x.rep && g.reps[i].Has(x))
      && ((i, x) in g.tables.votes ==> i < |g.reps[i].space[x].deps| && g.tables.votes[(i, x)] == g.reps[i].space[x].deps[i])
  }

  // A proposal has been received by r exactly when r has answered or parked it.
  ghost predicate Received(g: Cluster) {
    forall r: nat, x: InstId :: r < |g.reps| && x.rep != r ==>
      ((r, x.rep, x) in g.delivered <==> g.reps[r].Has(x) || IsParked(g.reps[r].waitlist, x))
  }

  ghost predicate GInv(g: Cluster) {
    && |g.reps| >= 2 && Shape(g)
    && (forall r :: 0 <= r < |g.reps| ==> g.reps[r].id == r && Inv(g.reps[r], g.tables, {}))
    && VotesOK(g) && Received(g)
  }

  lemma InitGInv(n: nat)
    requires n >= 2
    ensures GInv(InitCluster(n))
  {
    var g := InitCluster(n);
    forall r | 0 <= r < n ensures WF(g.reps[r]) && g.reps[r].id == r && Inv(g.reps[r], g.tables, {}) {
      InitInv(r, n);
    }
  }

  lemma InitInv(r: nat, n: nat)
    requires r < n
    ensures WF(InitState(r, n)) && Inv(InitState(r, n), Tables(map[], map[]), {})
  {
    var s := InitState(r, n);
    assert forall x :: !s.Has(x) && !s.Done(x);
  }

  // ---- Growing tables ----

  ghost predicate TablesGrow(T: Tables, U: Tables) {
    && (forall x <- T.props :: x in U.props && U.props[x] == T.props[x])
    && (forall k <- T.votes :: k in U.votes && U.votes[k] == T.votes[k])
  }

  lemma GrowBase(s: RState, T: Tables, U: Tables)
    requires Base(s, T) && TablesGrow(T, U) && TablesOK(U, s.n)
    ensures Base(s, U)
  {
    hide RowsOK, LogOK, Tally, WFRow;
    forall x | x in s.space ensures InstOK(s, U, x) {
      assert InstOK(s, T, x);
    }
  }

  lemma GrowParked(s: RState, T: Tables, U: Tables)
    requires ParkedOK(s, T) && TablesGrow(T, U)
    ensures ParkedOK(s, U)
  {
    hide UniqueSlots;
    forall k, i | Slot(s.waitlist, k, i) ensures ParkedMsg(s, U, s.waitlist[k][i]) {
      assert ParkedMsg(s, T, s.waitlist[k][i]);
    }
  }

  lemma GrowOut(s: RState, T: Tables, U: Tables)
    requires Outbox(s, T, {}) && TablesGrow(T, U)
    ensures Outbox(s, U, {})
  {
    forall p | p in s.out ensures p.to < s.n && p.to != s.id && Authored(s, U, p.msg) {
      assert Authored(s, T, p.msg);
    }
  }

  lemma GrowInv(s: RState, T: Tables, U: Tables)
    requires Inv(s, T, {}) && TablesGrow(T, U) && TablesOK(U, s.n)
    requires forall x <- U.props :: x in T.props || x.rep != s.id
    ensures Inv(s, U, {})
  {
    Open(s, T, {});
    hide Base, ParkedOK, Outbox, Untallied, Tallied, Live, TablesOK, WF;
    GrowBase(s, T, U);
    GrowParked(s, T, U);
    GrowOut(s, T, U);
  }

  // ---- Proposing ----

  lemma TallyNone(reach: seq<bool>)
    requires forall i :: 0 <= i < |reach| ==> !reach[i]
    ensures Tally(reach) == 0
    decreases |reach|
  {
    if reach != [] { TallyNone(reach[..|reach| - 1]); }
  }

  lemma TallyOne(n: nat, i: nat)
    requires i < n
    ensures Tally(seq(n, _ => false)[i := true]) == 1
    decreases n
  {
    var reach := seq(n, _ => false)[i := true];
    if i == n - 1 {
      TallyNone(reach[..n - 1]);
    } else {
      assert reach[..n - 1] == seq(n - 1, _ => false)[i := true];
      TallyOne(n - 1, i);
    }
  }

  ghost predicate Proposes(s: RState, cmds: seq<Command>, x: InstId, p: Proposal, t: RState)
    requires WF(s)
  {
    cmds != [] && (x, p) == NewProposal(s, cmds) && t == Propose(s, cmds)
  }

  lemma ProposeShape(s: RState, cmds: seq<Command>, x: InstId, p: Proposal, t: RState)
    requires WF(s) && Proposes(s, cmds, x, p, t)
    ensures t.id == s.id && t.n == s.n && t.upTo == s.upTo && t.log == s.log && t.waitlist == s.waitlist
    ensures x.rep == s.id && x.inst == s.crt[s.id] + 1 && t.crt == s.crt[s.id := x.inst]
    ensures p.cmds == cmds && ProposalOK(p, x, s.n)
    ensures t.space == s.space[x := Instance(cmds, PreAccepted, p.deps, seq(s.n, _ => false)[s.id := true], false, 0)]
    ensures t.out == s.out + Broadcast(s.id, Msg(s.id, x.inst, cmds, p.deps, 0, s.id), s.n)
  {
    var blank := NewInstance(s.n).(cmds := cmds, status := PreAccepted);
    var s1 := s.(crt := s.crt[s.id := x.inst], space := s.space[x := blank]);
    hide Attributes, Record, Broadcast;
  }

  lemma NewIsUnknown(s: RState, T: Tables, x: InstId)
    requires Base(s, T) && OwnOK(s, T) && x.rep == s.id && x.inst == s.crt[s.id] + 1
    ensures x !in s.space && x !in T.props
  {
    hide RowsOK, LogOK, Tally;
    forall y | y in s.space && y.rep == s.id ensures y.inst <= s.crt[s.id] {
      assert InstOK(s, T, y);
    }
  }

  lemma AddProposal(T: Tables, U: Tables, n: nat, x: InstId, p: Proposal)
    requires TablesOK(T, n) && x !in T.props && ProposalOK(p, x, n) && U == T.(props := T.props[x := p])
    ensures TablesOK(U, n) && TablesGrow(T, U)
  {
  }

  lemma ProposeChanges(s: RState, x: InstId, t: RState, e: Instance)
    requires WF(s) && t.id == s.id && t.n == s.n && t.upTo == s.upTo && t.log == s.log
    requires x.rep == s.id && x.inst == s.crt[s.id] + 1 && t.crt == s.crt[s.id := x.inst]
    requires x !in s.space && t.space == s.space[x := e] && e.status != Committed
    ensures OneChanged(s, t, x)
  {
    hide WFRow;
  }

  lemma ProposeBase(s: RState, T: Tables, U: Tables, cmds: seq<Command>, x: InstId, p: Proposal, t: RState)
    requires WF(s) && Proposes(s, cmds, x, p, t) && Base(s, T) && OwnOK(s, T)
    requires U == T.(props := T.props[x := p])
    ensures WF(t) && TablesGrow(T, U) && TablesOK(U, s.n) && Base(t, U) && OneChanged(s, t, x) && x !in s.space
  {
    ProposeWF(s, cmds);
    ProposeShape(s, cmds, x, p, t);
    NewIsUnknown(s, T, x);
    hide Proposes, Propose, OwnOK, Broadcast, WFRow, InstOK, RowsOK, LogOK, TablesOK, TablesGrow, OneChanged, WFInstance;
    AddProposal(T, U, s.n, x, p);
    GrowBase(s, T, U);
    ProposeChanges(s, x, t, t.space[x]);
    OwnInst(s, U, x, p, t);
    hide WF, ProposalOK;
    PointBase(s, t, U, x);
  }

  lemma OwnInst(s: RState, U: Tables, x: InstId, p: Proposal, t: RState)
    requires WF(t) && TablesOK(U, t.n) && t.id == s.id && t.n == s.n && x.rep == s.id && x in U.props && U.props[x] == p
    requires ProposalOK(p, x, s.n) && |t.crt| == t.n && t.crt[s.id] == x.inst && x in t.space
    requires t.space[x] == Instance(p.cmds, PreAccepted, p.deps, seq(s.n, _ => false)[s.id := true], false, 0)
    ensures InstOK(t, U, x)
  {
    hide WFRow, Tally;
  }

  lemma ProposeCore(s: RState, T: Tables, U: Tables, cmds: seq<Command>, x: InstId, p: Proposal, t: RState)
    requires WF(s) && Proposes(s, cmds, x, p, t) && Core(s, T, {}, {}) && OwnOK(s, T) && s.n >= 2
    requires U == T.(props := T.props[x := p])
    ensures WF(t) && TablesGrow(T, U) && TablesOK(U, s.n) && Core(t, U, {}, {}) && OneChanged(s, t, x) && x !in s.space
  {
    hide InstOK, RowsOK, LogOK, OwnOK, TablesOK, TablesGrow, Untallied, Tallied, Live;
    ProposeBase(s, T, U, cmds, x, p, t);
    ProposeShape(s, cmds, x, p, t);
    hide Base, Proposes, Propose, OneChanged, Broadcast, WF;
    PointTallies(s, t, x, {}, {}, {});
    var none: set<InstId> := {};
    assert none + {x} == {x};
    TallyOne(s.n, s.id);
    ProposeUnstale(t, x);
  }

  lemma ProposeUnstale(t: RState, x: InstId)
    requires WF(t) && x in t.space && Tallied(t, {x}) && Live(t, {x}) && Tally(t.space[x].reach) <= t.n / 2
    ensures Tallied(t, {}) && Live(t, {})
  {
    hide Tally;
    assert !CanCommit(t, x);
    hide CanCommit, WF;
  }

  lemma ProposeKeeps(s: RState, T: Tables, U: Tables, cmds: seq<Command>, x: InstId, p: Proposal, t: RState)
    requires WF(s) && Proposes(s, cmds, x, p, t) && Inv(s, T, {}) && s.n >= 2
    requires U == T.(props := T.props[x := p])
    ensures WF(t) && TablesGrow(T, U) && TablesOK(U, s.n) && Inv(t, U, {}) && Step(s, t, {x}) && x !in T.props
    ensures t.waitlist == s.waitlist && forall y :: t.Has(y) <==> s.Has(y) || y == x
  {
    hide Core, ParkedOK, Outbox, IsParked, TablesGrow, TablesOK, WF, Base;
    Open(s, T, {});
    NewIsUnknown(s, T, NewProposal(s, cmds).0) by { ProposeShape(s, cmds, x, p, t); }
    ProposeCore(s, T, U, cmds, x, p, t);
    ProposeShape(s, cmds, x, p, t);
    hide Proposes, Propose, Broadcast;
    AcceptHas(s, t, x);
    PointDone(s, t, x);
    hide OneChanged;
    GrowParked(s, T, U);
    ProposeParked(s, t, U, x);
    GrowOut(s, T, U);
    ProposeOut(s, t, U, x, p);
    hide ProposalOK;
    assert OwnOK(t, U);
    assert Step(s, t, {x}) by { hide Inv, OwnOK; ProposeStep(s, t, x); }
  }

  lemma ProposeStep(s: RState, t: RState, x: InstId)
    requires t.id == s.id && t.n == s.n && s.out <= t.out && t.log == s.log && t.waitlist == s.waitlist
    requires forall y :: t.Has(y) <==> s.Has(y) || y == x
    requires forall y :: s.Has(y) && y != x ==> y in t.space && t.space[y] == s.space[y]
    requires forall y :: t.Done(y) <==> s.Done(y)
    requires forall y :: s.Done(y) ==> y in t.space && t.space[y].deps == s.space[y].deps
    requires !s.Has(x)
    ensures Step(s, t, {x})
  {
    hide IsParked;
  }

  lemma ProposeParked(s: RState, t: RState, U: Tables, x: InstId)
    requires ParkedOK(s, U) && t.waitlist == s.waitlist && t.id == s.id && t.n == s.n && x.rep == s.id
    requires forall y :: t.Has(y) <==> s.Has(y) || y == x
    requires s.space.Keys <= t.space.Keys
    ensures ParkedOK(t, U)
  {
    hide UniqueSlots, Genuine;
    forall k, i | Slot(t.waitlist, k, i) ensures ParkedMsg(t, U, t.waitlist[k][i]) {
      assert ParkedMsg(s, U, s.waitlist[k][i]);
    }
  }

  lemma ProposeOut(s: RState, t: RState, U: Tables, x: InstId, p: Proposal)
    requires Outbox(s, U, {}) && t.id == s.id && t.n == s.n && s.id < s.n && x.rep == s.id && !s.Has(x) && t.Has(x)
    requires forall y :: t.Has(y) <==> s.Has(y) || y == x
    requires forall y :: s.Has(y) && y != x ==> y in t.space && t.space[y] == s.space[y]
    requires x in U.props && U.props[x] == p && ProposalOK(p, x, s.n)
    requires t.out == s.out + Broadcast(s.id, Msg(s.id, x.inst, p.cmds, p.deps, 0, s.id), s.n)
    ensures Outbox(t, U, {})
  {
    var m := Msg(s.id, x.inst, p.cmds, p.deps, 0, s.id);
    var t0 := t.(out := s.out);
    AcceptOut(s, t0, U, x, {});
    assert m.Id() == x && Authored(t0, U, m);
    hide Outbox, Authored;
    hide Broadcast;
    SendOut(t0, t, U, m, {});
  }

  // ---- One event keeps the global invariant ----

  lemma PacketGenuine(g: Cluster, to: nat, m: Msg)
    requires GInv(g) && to < |g.reps| && m.sender < |g.reps| && Packet(to, m) in g.reps[m.sender].out
    ensures Genuine(m, g.tables, |g.reps|, to)
  {
    var s := g.reps[m.sender];
    assert Authored(s, g.tables, m) && m.sender != to by {
      assert Inv(s, g.tables, {});
      hide Core, OwnOK, ParkedOK, VotesOK, Received, Shape;
    }
    hide Inv, Received;
  }

  lemma DeliverLocal(g: Cluster, to: nat, m: Msg)
    requires GInv(g) && Enabled(g, Deliver(to, m))
    ensures var s := g.reps[to]; var t := Handle(s, m);
            && WF(s) && Inv(t, g.tables, {}) && Step(s, t, if m.cmds == [] then {} else {m.Id()})
            && (m.cmds != [] ==> m.rep == m.sender && m.rep != to)
            && (m.cmds == [] ==> m.sender != m.rep)
            && (m.cmds != [] && Judge(s, m).1.waitFor.None? ==> AnsweredWith(t, m.Id(), Judge(s, m).1.dep))
  {
    var s := g.reps[to];
    PacketGenuine(g, to, m);
    assert s.id == to && Inv(s, g.tables, {}) && s.n == |g.reps|;
    hide Inv, VotesOK, Step, IsParked, Handle, Judge, AnsweredWith;
    if m.cmds != [] {
      assert !s.Has(m.Id()) && !IsParked(s.waitlist, m.Id());
    }
    HandleKeeps(s, g.tables, m, {});
  }

  lemma VotesOfAt(t: RState)
    requires WF(t)
    ensures forall i: nat, x: InstId :: (i, x) in VotesOf(t) <==> i == t.id && t.Has(x) && t.id < x.rep
    ensures forall x: InstId :: (t.id, x) in VotesOf(t) ==> VotesOf(t)[(t.id, x)] == t.space[x].deps[t.id]
  {
  }

  lemma VotesGrowOK(g: Cluster, t: RState, to: nat, U: Tables)
    requires Shape(g) && VotesOK(g) && to < |g.reps| && WF(t) && t.id == to && t.n == |g.reps|
    requires forall x :: g.reps[to].Has(x) ==> t.Has(x) && SameAnswer(g.reps[to], t, x)
    requires U == g.tables.(votes := g.tables.votes + VotesOf(t)) && g.reps[to].id == to
    requires forall i: nat, x: InstId :: (i, x) in VotesOf(t) <==> i == to && t.Has(x) && to < x.rep
    requires forall x: InstId :: (to, x) in VotesOf(t) ==> VotesOf(t)[(to, x)] == t.space[x].deps[to]
    ensures Shape(g.(reps := g.reps[to := t], tables := U)) && VotesOK(g.(reps := g.reps[to := t], tables := U))
    ensures TablesGrow(g.tables, U)
  {
    hide VotesOf;
    var h := g.(reps := g.reps[to := t], tables := U);
    forall i: nat, x: InstId
      ensures (i, x) in U.votes <==> i < |h.reps| && i < x.rep && h.reps[i].Has(x)
      ensures (i, x) in U.votes ==> i < |h.reps[i].space[x].deps| && U.votes[(i, x)] == h.reps[i].space[x].deps[i]
    {
      assert (i, x) in U.votes <==> (i, x) in g.tables.votes || (i, x) in VotesOf(t);
    }
    forall k | k in g.tables.votes ensures k in U.votes && U.votes[k] == g.tables.votes[k] {
      var (i, x) := k;
      if i == to { assert SameAnswer(g.reps[to], t, x); }
    }
  }

  lemma TablesGrowOK(g: Cluster, t: RState, to: nat, U: Tables)
    requires Base(t, g.tables) && to == t.id && t.n == |g.reps|
    requires U == g.tables.(votes := g.tables.votes + VotesOf(t))
    requires forall i: nat, x: InstId :: (i, x) in VotesOf(t) <==> i == to && t.Has(x) && to < x.rep
    requires forall x: InstId :: (to, x) in VotesOf(t) ==> VotesOf(t)[(to, x)] == t.space[x].deps[to]
    ensures TablesOK(U, |g.reps|)
  {
    hide VotesOf, RowsOK, LogOK, Tally;
    forall i: nat, x: InstId | (i, x) in U.votes
      ensures i < x.rep && x in U.props && U.votes[(i, x)] >= U.props[x].deps[i]
    {
      if (i, x) in VotesOf(t) { assert InstOK(t, g.tables, x); }
    }
  }

  // How the cluster moves on: every replica keeps what it answered and committed.
  ghost predicate GStep(g: Cluster, h: Cluster) {
    && |h.reps| == |g.reps|
    && (forall r, x :: 0 <= r < |g.reps| && g.reps[r].Done(x) ==>
          h.reps[r].Done(x) && h.reps[r].space[x].deps == g.reps[r].space[x].deps)
    && (forall r, x :: 0 <= r < |g.reps| && g.reps[r].Has(x) ==>
          h.reps[r].Has(x) && h.reps[r].space[x].cmds == g.reps[r].space[x].cmds)
  }

  lemma OneReplicaStep(g: Cluster, h: Cluster, r: nat, ids: set<InstId>)
    requires r < |g.reps| == |h.reps| && h.reps == g.reps[r := h.reps[r]] && Step(g.reps[r], h.reps[r], ids)
    ensures GStep(g, h)
  {
    hide IsParked;
    forall q, x | 0 <= q < |g.reps| && g.reps[q].Has(x)
      ensures h.reps[q].Has(x) && h.reps[q].space[x].cmds == g.reps[q].space[x].cmds
    {
      if q == r { assert SameAnswer(g.reps[r], h.reps[r], x); }
    }
  }

  // The clauses of GInv, for proofs that keep it folded.
  lemma GOpen(g: Cluster)
    requires GInv(g)
    ensures |g.reps| >= 2 && Shape(g) && VotesOK(g) && Received(g)
    ensures forall r :: 0 <= r < |g.reps| ==> g.reps[r].id == r && Inv(g.reps[r], g.tables, {})
    ensures forall r :: 0 <= r < |g.reps| ==> WF(g.reps[r]) && g.reps[r].n == |g.reps|
  {
  }

  lemma OthersGrow(g: Cluster, h: Cluster, k: nat)
    requires k < |g.reps| == |h.reps| && h.reps == g.reps[k := h.reps[k]]
    requires forall r :: 0 <= r < |g.reps| ==> g.reps[r].id == r && Inv(g.reps[r], g.tables, {}) && g.reps[r].n == |g.reps|
    requires TablesGrow(g.tables, h.tables) && TablesOK(h.tables, |g.reps|)
    requires forall x <- h.tables.props :: x in g.tables.props || x.rep == k
    ensures forall r :: 0 <= r < |h.reps| && r != k ==> h.reps[r].id == r && Inv(h.reps[r], h.tables, {})
  {
    hide Inv, TablesGrow, TablesOK;
    forall r | 0 <= r < |h.reps| && r != k ensures h.reps[r].id == r && Inv(h.reps[r], h.tables, {}) {
      GrowInv(g.reps[r], g.tables, h.tables);
    }
  }

  lemma DeliverKeeps(g: Cluster, to: nat, m: Msg)
    requires GInv(g) && Enabled(g, Deliver(to, m))
    ensures GInv(Next(g, Deliver(to, m))) && GStep(g, Next(g, Deliver(to, m)))
  {
    hide Inv, Step, VotesOK, Received, TablesGrow, TablesOK, Handle, VotesOf, IsParked, Base, GStep, WF;
    GOpen(g);
    DeliverLocal(g, to, m);
    var ids := if m.cmds == [] then {} else {m.Id()};
    var s := g.reps[to];
    var t := Handle(s, m);
    var h := Next(g, Deliver(to, m));
    assert h.reps == g.reps[to := t] && h.delivered == g.delivered + {(to, m.sender, m.Id())};
    assert h.tables == g.tables.(votes := g.tables.votes + VotesOf(t));
    assert WFMsg(m, |g.reps|);
    hide Next, Enabled, GInv, WFMsg;
    StepFacts(s, t, ids);
    InvBase(t, g.tables);
    VotesOfAt(t);
    VotesGrowOK(g, t, to, h.tables);
    TablesGrowOK(g, t, to, h.tables);
    ShapeSame(g.(reps := g.reps[to := t], tables := h.tables), h);
    hide Shape;
    OneReplicaStep(g, h, to, ids);
    DeliverReceived(g, h, to, m) by { assert m.rep < |g.reps| by { MsgRow(m, |g.reps|); } }
    OthersGrow(g, h, to);
    GrowInv(t, g.tables, h.tables);
    GClose(h);
  }

  lemma MsgRow(m: Msg, n: nat)
    requires WFMsg(m, n)
    ensures m.rep < n
  {
  }

  lemma ShapeSame(g: Cluster, h: Cluster)
    requires g.reps == h.reps && g.tables == h.tables && Shape(g) && VotesOK(g)
    ensures Shape(h) && VotesOK(h)
  {
  }

  lemma GClose(g: Cluster)
    requires |g.reps| >= 2 && Shape(g) && VotesOK(g) && Received(g)
    requires forall r :: 0 <= r < |g.reps| ==> g.reps[r].id == r && Inv(g.reps[r], g.tables, {})
    ensures GInv(g)
  {
  }

  lemma StepFacts(s: RState, t: RState, ids: set<InstId>)
    requires Step(s, t, ids)
    ensures t.id == s.id && t.n == s.n
    ensures forall x :: s.Has(x) ==> t.Has(x) && SameAnswer(s, t, x)
  {
  }

  lemma InvBase(s: RState, T: Tables)
    requires Inv(s, T, {})
    ensures Base(s, T) && WF(s)
  {
  }

  lemma DeliverReceived(g: Cluster, h: Cluster, to: nat, m: Msg)
    requires Received(g) && to < |g.reps| == |h.reps| && m.rep < |g.reps|
    requires h.reps == g.reps[to := h.reps[to]] && h.delivered == g.delivered + {(to, m.sender, m.Id())}
    requires if m.cmds == [] then m.sender != m.rep else m.rep == m.sender && m.rep != to
    requires Step(g.reps[to], h.reps[to], if m.cmds == [] then {} else {m.Id()})
    ensures Received(h)
  {
    hide IsParked;
    forall r: nat, x: InstId | r < |h.reps| && x.rep != r
      ensures (r, x.rep, x) in h.delivered <==> h.reps[r].Has(x) || IsParked(h.reps[r].waitlist, x)
    {
      assert (r, x.rep, x) in g.delivered <==> g.reps[r].Has(x) || IsParked(g.reps[r].waitlist, x);
    }
  }

  lemma ProposeGlobal(g: Cluster, r: nat, cmds: seq<Command>)
    requires GInv(g) && Enabled(g, ProposeAt(r, cmds))
    ensures GInv(Next(g, ProposeAt(r, cmds))) && GStep(g, Next(g, ProposeAt(r, cmds)))
  {
    hide Inv, Step, VotesOK, Received, TablesGrow, TablesOK, IsParked, Base, GStep, WF, NewProposal, Propose;
    GOpen(g);
    var s := g.reps[r];
    var (x, p) := NewProposal(s, cmds);
    var h := Next(g, ProposeAt(r, cmds));
    var t := Propose(s, cmds);
    assert Proposes(s, cmds, x, p, t);
    assert h.reps == g.reps[r := t] && h.delivered == g.delivered;
    assert h.tables == g.tables.(props := g.tables.props[x := p]);
    hide Next, Enabled, GInv, Proposes, Broadcast, ProposalOK;
    ProposeKeeps(s, g.tables, h.tables, cmds, x, p, t);
    ProposeShape(s, cmds, x, p, t);
    StepFacts(s, t, {x});
    ProposeVotes(g, h, r, x);
    hide Shape;
    OneReplicaStep(g, h, r, {x});
    ProposeReceived(g, h, r, x);
    OthersGrow(g, h, r);
    GClose(h);
  }

  lemma ProposeReceived(g: Cluster, h: Cluster, r: nat, x: InstId)
    requires Received(g) && r < |g.reps| == |h.reps| && x.rep == r && h.delivered == g.delivered
    requires h.reps == g.reps[r := h.reps[r]] && h.reps[r].waitlist == g.reps[r].waitlist
    requires forall y :: h.reps[r].Has(y) <==> g.reps[r].Has(y) || y == x
    ensures Received(h)
  {
    hide IsParked;
  }

  lemma ProposeVotes(g: Cluster, h: Cluster, r: nat, x: InstId)
    requires Shape(g) && VotesOK(g) && r < |g.reps| == |h.reps| && x.rep == r
    requires h.reps == g.reps[r := h.reps[r]] && h.tables.votes == g.tables.votes
    requires WF(h.reps[r]) && h.reps[r].n == |g.reps| && h.reps[r].id == g.reps[r].id == r
    requires forall y :: h.reps[r].Has(y) <==> g.reps[r].Has(y) || y == x
    requires forall y :: g.reps[r].Has(y) ==> SameAnswer(g.reps[r], h.reps[r], y)
    ensures Shape(h) && VotesOK(h)
  {
    forall i: nat, y: InstId
      ensures (i, y) in h.tables.votes <==> i < |h.reps| && i < y.rep && h.reps[i].Has(y)
      ensures (i, y) in h.tables.votes ==> i < |h.reps[i].space[y].deps| && h.tables.votes[(i, y)] == h.reps[i].space[y].deps[i]
    {
      if i == r && g.reps[r].Has(y) { assert SameAnswer(g.reps[r], h.reps[r], y); }
    }
  }

  lemma NextKeeps(g: Cluster, e: Event)
    requires GInv(g) && Enabled(g, e)
    ensures GInv(Next(g, e)) && GStep(g, Next(g, e))
  {
    hide GInv, GStep;
    match e
    case ProposeAt(r, cmds) => ProposeGlobal(g, r, cmds);
    case Deliver(to, m) => DeliverKeeps(g, to, m);
  }

  lemma GStepTrans(g: Cluster, h: Cluster, k: Cluster)
    requires GStep(g, h) && GStep(h, k)
    ensures GStep(g, k)
  {
  }

  lemma {:induction false} RunKeeps(g: Cluster, es: seq<Event>, h: Cluster)
    requires GInv(g) && Run(g, es, h)
    ensures GInv(h) && GStep(g, h)
    decreases |es|
  {
    if es != [] {
      hide GInv, Next, Enabled, GStep, Shape;
      NextKeeps(g, es[0]);
      RunKeeps(Next(g, es[0]), es[1..], h);
      GStepTrans(g, Next(g, es[0]), h);
    }
  }

  lemma ReachableInv(n: nat, g: Cluster)
    requires n >= 2 && Reachable(n, g)
    ensures GInv(g)
  {
    hide GInv, Run;
    var es :| Run(InitCluster(n), es, g);
    InitGInv(n);
    RunKeeps(InitCluster(n), es, g);
  }
}
