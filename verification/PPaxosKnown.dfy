/** What PPaxos replicas know about: every instance that a replica stores, lists as a dependency,
    waits for or writes about has been proposed, and every answer counts itself and its proposer. */
module PPaxosKnown {
  import opened Options
  import opened PPaxos
  import opened PPaxosCoverage
  import opened PPaxosGlobal
  import opened PPaxosHandler
  import opened PPaxosLocal
  import opened Store

  // ---- Known instances ----

  predicate Known(P: set<InstId>, q: nat, d: int) { d < 0 || InstId(q, d) in P }

  // Instances of a row are proposed in order.
  ghost predicate RowsClosed(P: set<InstId>) {
    forall y: InstId, j: nat :: y in P && j <= y.inst ==> InstId(y.rep, j) in P
  }

  ghost predicate DepsKnown(P: set<InstId>, deps: seq<int>) {
    forall j: nat :: j < |deps| ==> Known(P, j, deps[j])
  }

  ghost predicate MsgKnown(P: set<InstId>, m: Msg) {
    && m.Id() in P
    && (m.cmds != [] ==> m.sender == m.rep && DepsKnown(P, m.deps))
    && (m.cmds == [] && m.sender < m.rep ==> Known(P, m.sender, m.senderDep))
  }

  // A proposal waits for a proposed instance of a lower-priority row than its own.
  ghost predicate WaitsKnown(P: set<InstId>, w: map<InstId, seq<Msg>>) {
    forall k, i :: Slot(w, k, i) ==> k in P && k.rep > w[k][i].rep && w[k][i].cmds != [] && MsgKnown(P, w[k][i])
  }

  ghost predicate SpaceKnown(P: set<InstId>, space: map<InstId, Instance>) {
    forall x <- space :: x in P && DepsKnown(P, space[x].deps)
  }

  ghost predicate Knows(P: set<InstId>, s: RState) {
    && SpaceKnown(P, s.space) && DepsKnown(P, s.crt) && WaitsKnown(P, s.waitlist)
    && forall p <- s.out :: MsgKnown(P, p.msg)
  }

  // ---- What updatePriority and updateAttributes find is known ----

  lemma ConflictKnown(P: set<InstId>, s: RState, q: nat, c: Command)
    requires WF(s) && q < s.n && SpaceKnown(P, s.space)
    ensures Known(P, q, LatestConflict(s.conflicts[q], c))
    ensures LatestConflict(s.conflicts[q], c) >= 0 ==> InstId(q, LatestConflict(s.conflicts[q], c)) in s.space
  {
    assert WFRow(s.space, q, s.conflicts[q]);
  }

  lemma {:induction false} RowMissing(s: RState, c: Command, k: nat, j: nat, hi: int)
    ensures ScanRow(s, c, k, j, hi).Missing? ==> var y := ScanRow(s, c, k, j, hi).at; y.rep == k && j <= y.inst <= hi
    decreases hi - j
  {
    hide Interferes;
    if j <= hi && s.Has(InstId(k, j)) && !Interferes(s.space[InstId(k, j)].cmds, c) {
      RowMissing(s, c, k, j + 1, hi);
    }
  }

  lemma {:induction false} RowsMissing(P: set<InstId>, s: RState, c: Command, deps: seq<int>, own: seq<int>, k: nat)
    requires |deps| == |own| == s.n && (forall j :: 0 <= j < s.n ==> deps[j] >= -1) && RowsClosed(P) && DepsKnown(P, own)
    ensures ScanRows(s, c, deps, own, k).Missing? ==> ScanRows(s, c, deps, own, k).at in P && ScanRows(s, c, deps, own, k).at.rep >= k
    decreases s.n - k
  {
    if k < s.n {
      RowMissing(s, c, k, deps[k] + 1, own[k]);
      RowsMissing(P, s, c, deps, own, k + 1);
      hide ScanRow, DepsKnown;
      assert Known(P, k, own[k]) by { ColumnKnown(P, own, k); }
    }
  }

  lemma ColumnKnown(P: set<InstId>, deps: seq<int>, k: nat)
    requires DepsKnown(P, deps) && k < |deps|
    ensures Known(P, k, deps[k])
  {
  }

  lemma {:induction false} PriorityKnown(P: set<InstId>, s: RState, m: Msg, dep: int, i: nat)
    requires WF(s) && WFMsg(m, s.n) && dep >= -1 && RowsClosed(P) && SpaceKnown(P, s.space) && Known(P, s.id, dep)
    ensures var v := Priority(s, m, dep, i); Known(P, s.id, v.dep) && (v.waitFor.Some? ==> v.waitFor.value in P && v.waitFor.value.rep > m.rep)
    decreases |m.cmds| - i
  {
    if i < |m.cmds| {
      var c := m.cmds[i];
      var d := LatestConflict(s.conflicts[s.id], c);
      ConflictKnown(P, s, s.id, c);
      if d <= dep || s.space[InstId(s.id, d)].deps[m.rep] >= m.inst {
        PriorityKnown(P, s, m, dep, i + 1);
      } else {
        var own := s.space[InstId(s.id, d)];
        RowsMissing(P, s, c, m.deps, own.deps, m.rep + 1);
        hide ScanRows, Interferes, LatestConflict, RowsClosed, SpaceKnown, Known, WFRow;
        PriorityKnown(P, s, m, dep, i + 1);
        PriorityKnown(P, s, m, if Interferes(own.cmds, c) then d else dep, i + 1);
      }
    }
  }

  // ---- Every step of the handler keeps it ----

  lemma JudgeKnows(P: set<InstId>, s: RState, m: Msg)
    requires WF(s) && WFMsg(m, s.n) && RowsClosed(P) && Knows(P, s) && MsgKnown(P, m) && m.cmds != []
    ensures var (s1, v) := Judge(s, m);
            && Knows(P, s1) && (m.rep > s.id ==> Known(P, s.id, v.dep)) && s1.id == s.id && s1.n == s.n && s1.waitlist == s.waitlist
            && (v.waitFor.Some? ==> v.waitFor.value in P && v.waitFor.value.rep > m.rep)
  {
    hide RowsClosed, WFRow, WaitsKnown;
    TouchWF(s, m.Id());
    var s0 := Touch(s, m.Id());
    assert Knows(P, s0);
    if m.rep > s.id { PriorityKnown(P, s0, m, m.deps[s.id], 0); }
    hide Priority, MsgKnown;
  }

  lemma ParkKnows(P: set<InstId>, s: RState, k: InstId, m: Msg)
    requires Knows(P, s) && MsgKnown(P, m) && m.cmds != [] && k in P && k.rep > m.rep
    ensures Knows(P, Park(s, k, m))
  {
    hide SpaceKnown, DepsKnown, MsgKnown;
    var w, w2 := s.waitlist, Park(s, k, m).waitlist;
    forall k', i | Slot(w2, k', i) ensures k' in P && k'.rep > w2[k'][i].rep && w2[k'][i].cmds != [] && MsgKnown(P, w2[k'][i]) {
      if Slot(w, k', i) { assert w2[k'][i] == w[k'][i]; } else { assert k' == k && w2[k'][i] == m; }
    }
  }

  lemma AcceptKnows(P: set<InstId>, s: RState, m: Msg)
    requires WF(s) && WFMsg(m, s.n) && m.Id() in s.space && Knows(P, s) && MsgKnown(P, m) && m.cmds != []
    ensures Knows(P, Accept(s, m)) && Accept(s, m).id == s.id && Accept(s, m).n == s.n
    ensures forall w <- Waiting(s, m.Id()) :: WFMsg(w, s.n) && w.cmds != [] && MsgKnown(P, w)
  {
    hide MsgKnown, WFRow, Record;
    assert DepsKnown(P, m.deps) by { ProposalKnown(P, m); }
    var t := Accept(s, m);
    assert DepsKnown(P, FillDeps(s.space[m.Id()].deps, m.deps));
    assert DepsKnown(P, t.crt);
    assert m.Id() in P && forall k, i :: Slot(t.waitlist, k, i) ==> Slot(s.waitlist, k, i);
    forall w | w in Waiting(s, m.Id()) ensures WFMsg(w, s.n) && w.cmds != [] && MsgKnown(P, w) {
      var i :| 0 <= i < |Waiting(s, m.Id())| && Waiting(s, m.Id())[i] == w;
      assert Slot(s.waitlist, m.Id(), i);
    }
  }

  lemma ProposalKnown(P: set<InstId>, m: Msg)
    requires MsgKnown(P, m) && m.cmds != []
    ensures DepsKnown(P, m.deps) && m.sender == m.rep
    ensures forall j: nat :: j < |m.deps| ==> Known(P, j, m.deps[j])
  {
  }

  lemma FinishKnows(P: set<InstId>, s: RState, m: Msg)
    requires WF(s) && WFMsg(m, s.n) && m.Id() in s.space && Knows(P, s) && MsgKnown(P, m)
    ensures Knows(P, Finish(s, m))
  {
    ReachedWF(s, m);
    var s1 := Reached(s, m);
    assert Knows(P, s1) by { hide WaitsKnown, WF; }
    hide MsgKnown, WaitsKnown, WF, Commit, Reached, WFMsg;
    if !(s1.space[m.Id()].status == Committed || s1.space[m.Id()].cmds == []) {
      CommitKnows(P, s1, Commit(s1, m.Id()));
    }
  }

  lemma CommitKnows(P: set<InstId>, s: RState, t: RState)
    requires Knows(P, s) && CommitFrame(s, t)
    ensures Knows(P, t)
  {
    hide DepsKnown, MsgKnown, WaitsKnown;
    assert forall x <- t.space :: SameBody(s.space[x], t.space[x]);
  }

  lemma AnswerKnows(P: set<InstId>, s: RState, m: Msg, dep: int)
    requires WF(s) && WFMsg(m, s.n) && m.Id() in s.space && Knows(P, s) && MsgKnown(P, m)
    requires m.rep > s.id ==> Known(P, s.id, dep)
    ensures Knows(P, Answer(s, m, dep))
  {
    var v := Vote(s, m, dep);
    var t := s.(out := s.out + Broadcast(s.id, v, s.n));
    AnswerWF(s, m, dep);
    assert MsgKnown(P, v);
    BroadcastPackets(s, v, s.n);
    hide MsgKnown, SpaceKnown, DepsKnown, WaitsKnown, Broadcast, WF, Vote;
    assert Knows(P, t);
    FinishKnows(P, t, m);
  }

  lemma AnswerWF(s: RState, m: Msg, dep: int)
    requires WF(s) && WFMsg(m, s.n)
    ensures WF(s.(out := s.out + Broadcast(s.id, Vote(s, m, dep), s.n)))
  {
    hide Broadcast, Vote, WFRow, WFInstance;
  }

  lemma {:induction false} HandleKnows(P: set<InstId>, s: RState, m: Msg)
    requires WF(s) && WFMsg(m, s.n) && RowsClosed(P) && Knows(P, s) && MsgKnown(P, m)
    ensures Knows(P, Handle(s, m)) && Handle(s, m).id == s.id && Handle(s, m).n == s.n
    decreases |WaitSlots(s.waitlist)| + 1, 0
  {
    hide RowsClosed, Knows, MsgKnown, WF, WFMsg, Judge, Accept, Finish, Answer, WaitSlots, Park;
    if m.cmds == [] {
      MsgRow(m, s.n);
      TouchWF(s, m.Id());
      TouchKnows(P, s, m);
      FinishKnows(P, Touch(s, m.Id()), m);
    } else {
      var (s1, v) := Judge(s, m);
      JudgeKnows(P, s, m);
      if v.waitFor.Some? {
        ParkKnows(P, s1, v.waitFor.value, m);
      } else {
        AcceptWF(s1, m);
        AcceptWaits(s1, m);
        PopFreesSlots(s1, m.Id());
        AcceptKnows(P, s1, m);
        HandleAllKnows(P, Accept(s1, m), Waiting(s1, m.Id()));
        AnswerKnows(P, HandleAll(Accept(s1, m), Waiting(s1, m.Id())), m, v.dep);
      }
    }
  }

  lemma TouchKnows(P: set<InstId>, s: RState, m: Msg)
    requires Knows(P, s) && MsgKnown(P, m)
    ensures Knows(P, Touch(s, m.Id()))
  {
    hide WaitsKnown;
  }

  lemma {:induction false} HandleAllKnows(P: set<InstId>, s: RState, ws: seq<Msg>)
    requires WF(s) && (forall w <- ws :: WFMsg(w, s.n) && MsgKnown(P, w)) && RowsClosed(P) && Knows(P, s)
    ensures Knows(P, HandleAll(s, ws)) && HandleAll(s, ws).id == s.id && HandleAll(s, ws).n == s.n
    decreases |WaitSlots(s.waitlist)| + |ws|, |ws|
  {
    hide RowsClosed, Knows, MsgKnown, WF, WFMsg, WaitSlots, Handle;
    if ws != [] {
      HandleKnows(P, s, ws[0]);
      HandleAllKnows(P, Handle(s, ws[0]), ws[1..]);
    }
  }

  // ---- Proposing ----

  lemma {:induction false} RowKnown(P: set<InstId>, s: RState, cmds: seq<Command>, deps: seq<int>, q: nat)
    requires WF(s) && q < s.n && |deps| == s.n && (forall j :: 0 <= j < s.n ==> deps[j] >= -1) && SpaceKnown(P, s.space) && DepsKnown(P, deps)
    ensures DepsKnown(P, AttrRow(s, cmds, deps, q))
    decreases |cmds|
  {
    if cmds != [] {
      var r, c := AttrRow(s, cmds[..|cmds| - 1], deps, q), cmds[|cmds| - 1];
      RowKnown(P, s, cmds[..|cmds| - 1], deps, q);
      ConflictKnown(P, s, q, c);
      hide LatestConflict, WFRow, AttrRow;
      assert DepsKnown(P, AttrCmd(s, c, r, q));
    }
  }

  lemma {:induction false} AttributesKnown(P: set<InstId>, s: RState, cmds: seq<Command>, deps: seq<int>, rows: nat)
    requires WF(s) && rows <= s.n && |deps| == s.n && (forall j :: 0 <= j < s.n ==> deps[j] >= -1) && SpaceKnown(P, s.space) && DepsKnown(P, deps)
    ensures DepsKnown(P, Attributes(s, cmds, deps, s.id, rows))
    decreases rows
  {
    if rows > 0 {
      AttributesKnown(P, s, cmds, deps, rows - 1);
      RowKnown(P, s, cmds, Attributes(s, cmds, deps, s.id, rows - 1), rows - 1);
    }
  }

  lemma KnowsMore(P: set<InstId>, Q: set<InstId>, s: RState)
    requires Knows(P, s) && P <= Q
    ensures Knows(Q, s)
  {
    assert forall deps: seq<int> :: DepsKnown(P, deps) ==> DepsKnown(Q, deps);
    assert forall m :: MsgKnown(P, m) ==> MsgKnown(Q, m);
  }

  lemma ProposeKnows(P: set<InstId>, s: RState, cmds: seq<Command>)
    requires WF(s) && cmds != [] && RowsClosed(P) && Knows(P, s)
    ensures var (x, p) := NewProposal(s, cmds);
            && x.rep == s.id && RowsClosed(P + {x}) && Knows(P + {x}, Propose(s, cmds)) && DepsKnown(P + {x}, p.deps)
  {
    var (x, p) := NewProposal(s, cmds);
    var t, Q := Propose(s, cmds), P + {x};
    ProposeShape(s, cmds, x, p, t);
    ColumnKnown(P, s.crt, s.id);
    KnowsMore(P, Q, s);
    ProposedDeps(Q, s, cmds);
    assert RowsClosed(Q) by { hide Knows, Propose, NewProposal, ProposalOK; }
    hide Propose, NewProposal, WF, RowsClosed, WaitsKnown, Broadcast;
    BroadcastPackets(s, Msg(s.id, x.inst, cmds, p.deps, 0, s.id), s.n);
  }

  lemma ProposedDeps(Q: set<InstId>, s: RState, cmds: seq<Command>)
    requires WF(s) && Knows(Q, s) && Known(Q, s.id, s.crt[s.id]) && InstId(s.id, s.crt[s.id] + 1) in Q
    ensures DepsKnown(Q, NewProposal(s, cmds).1.deps)
  {
    ProposeBlank(s, cmds);
    ProposalIs(s, cmds);
    var b := BlankState(s, cmds);
    assert SpaceKnown(Q, b.space) by { hide WF, NewProposal, Attributes; }
    AttributesKnown(Q, b, cmds, NewInstance(s.n).deps, s.n);
    hide Attributes, WF, NewProposal;
  }

  // ---- Runs ----

  ghost predicate AllKnow(g: Cluster) {
    && Shape(g) && RowsClosed(g.tables.props.Keys)
    && forall r :: 0 <= r < |g.reps| ==> g.reps[r].id == r && Knows(g.tables.props.Keys, g.reps[r])
  }

  lemma ProposeAllKnow(g: Cluster, r: nat, cmds: seq<Command>)
    requires AllKnow(g) && Enabled(g, ProposeAt(r, cmds)) && Shape(Next(g, ProposeAt(r, cmds)))
    ensures AllKnow(Next(g, ProposeAt(r, cmds)))
  {
    hide Knows, RowsClosed, WF, Propose, NewProposal;
    var P, s, h := g.tables.props.Keys, g.reps[r], Next(g, ProposeAt(r, cmds));
    ProposeKnows(P, s, cmds);
    assert h.tables.props.Keys == P + {NewProposal(s, cmds).0};
    forall q | 0 <= q < |g.reps| ensures Knows(h.tables.props.Keys, h.reps[q]) && h.reps[q].id == q {
      if q != r { KnowsMore(P, h.tables.props.Keys, g.reps[q]); }
      else { ProposeId(s, cmds); }
    }
  }

  lemma ProposeId(s: RState, cmds: seq<Command>)
    requires WF(s)
    ensures Propose(s, cmds).id == s.id
  {
  }

  lemma DeliverAllKnow(g: Cluster, to: nat, m: Msg)
    requires AllKnow(g) && Enabled(g, Deliver(to, m)) && Shape(Next(g, Deliver(to, m)))
    ensures AllKnow(Next(g, Deliver(to, m)))
  {
    hide Knows, RowsClosed, WF, Handle, MsgKnown, VotesOf;
    var P := g.tables.props.Keys;
    SentKnown(P, g.reps[m.sender], Packet(to, m));
    HandleKnows(P, g.reps[to], m);
  }

  lemma SentKnown(P: set<InstId>, s: RState, p: Packet)
    requires Knows(P, s) && p in s.out
    ensures MsgKnown(P, p.msg)
  {
    hide SpaceKnown, DepsKnown, WaitsKnown, MsgKnown;
  }

  lemma NextKnows(g: Cluster, e: Event)
    requires AllKnow(g) && Enabled(g, e)
    ensures AllKnow(Next(g, e))
  {
    hide AllKnow, Next, Enabled;
    NextShape(g, e);
    match e
    case ProposeAt(r, cmds) => ProposeAllKnow(g, r, cmds);
    case Deliver(to, m) => DeliverAllKnow(g, to, m);
  }

  lemma {:induction false} RunKnows(g: Cluster, es: seq<Event>, h: Cluster)
    requires AllKnow(g) && Run(g, es, h)
    ensures AllKnow(h)
    decreases |es|
  {
    hide AllKnow, Next, Enabled;
    if es != [] {
      NextKnows(g, es[0]);
      RunKnows(Next(g, es[0]), es[1..], h);
    }
  }

  lemma InitKnows(n: nat)
    ensures AllKnow(InitCluster(n))
  {
    hide WF;
    forall r | 0 <= r < n ensures WF(InitState(r, n)) { InitInv(r, n); }
  }

  lemma ReachableKnows(n: nat, g: Cluster)
    requires Reachable(n, g)
    ensures AllKnow(g)
  {
    InitKnows(n);
    hide AllKnow, Run;
    var es :| Run(InitCluster(n), es, g);
    RunKnows(InitCluster(n), es, g);
  }
}
