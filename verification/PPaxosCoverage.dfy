/** What the conflict table of PPaxos is for (updateConflicts, updateAttributes and
    updatePriority of eppaxos/epaxos.go): a proposal depends on every interfering
    instance its proposer knows, and a higher-priority replica adds only its own latest one. */
module PPaxosCoverage {
  import opened Options
  import opened PPaxos
  import opened PPaxosGlobal
  import opened PPaxosHandler
  import opened PPaxosLocal
  import opened PPaxosLone
  import opened Store

  // ---- The table of one row ----

  // The entry of c's key reaches at least instance i, in the column c would be looked up in.
  predicate Reaches(row: map<Key, InstPair>, c: Command, i: int) {
    c.key in row && row[c.key].last >= i && (c.op != GET ==> row[c.key].lastWrite >= i)
  }

  lemma {:induction false} RecordReaches(row: map<Key, InstPair>, cmds: seq<Command>, inst: nat)
    ensures forall c <- cmds :: Reaches(Record(row, cmds, inst), c, inst)
    ensures forall c, i :: Reaches(row, c, i) ==> Reaches(Record(row, cmds, inst), c, i)
    decreases |cmds|
  {
    if cmds != [] {
      var p := cmds[..|cmds| - 1];
      RecordReaches(row, p, inst);
      assert cmds == p + [cmds[|cmds| - 1]];
    }
  }

  // Every command of every known instance is recorded in its row.
  ghost predicate Covers(s: RState)
    requires WF(s)
  {
    forall y, c :: s.Has(y) && c in s.space[y].cmds ==> Reaches(s.conflicts[y.rep], c, y.inst)
  }

  // ---- Every handler keeps it ----

  ghost predicate SameCommands(s: RState, t: RState) {
    && t.n == s.n && t.conflicts == s.conflicts
    && forall y :: t.Has(y) ==> s.Has(y) && t.space[y].cmds == s.space[y].cmds
  }

  lemma SameCovers(s: RState, t: RState)
    requires WF(s) && WF(t) && Covers(s) && SameCommands(s, t)
    ensures Covers(t)
  {
    hide Reaches;
  }

  lemma FrameCovers(s: RState, t: RState)
    requires WF(s) && WF(t) && Covers(s) && CommitFrame(s, t)
    ensures Covers(t)
  {
    hide Reaches, WF;
    assert forall y :: t.Has(y) ==> SameBody(s.space[y], t.space[y]);
    assert SameCommands(s, t);
    SameCovers(s, t);
  }

  lemma FinishCovers(s: RState, m: Msg)
    requires WF(s) && WFMsg(m, s.n) && m.Id() in s.space && Covers(s)
    ensures Covers(Finish(s, m))
  {
    ReachedWF(s, m);
    var s1 := Reached(s, m);
    assert SameCommands(s, s1);
    SameCovers(s, s1);
    hide Covers, WF, Commit;
    if !(s1.space[m.Id()].status == Committed || s1.space[m.Id()].cmds == []) {
      FrameCovers(s1, Commit(s1, m.Id()));
    }
  }

  lemma AcceptCovers(s: RState, m: Msg)
    requires WF(s) && WFMsg(m, s.n) && m.Id() in s.space && Covers(s) && WF(Accept(s, m))
    ensures Covers(Accept(s, m))
  {
    RecordReaches(s.conflicts[m.rep], m.cmds, m.inst);
    var t := Accept(s, m);
    hide Record, Reaches, WF, FillDeps;
    forall y, c | t.Has(y) && c in t.space[y].cmds ensures Reaches(t.conflicts[y.rep], c, y.inst) {
      if y != m.Id() { assert s.Has(y); }
    }
  }

  lemma ProposeCovers(s: RState, cmds: seq<Command>)
    requires WF(s) && Covers(s) && WF(Propose(s, cmds))
    ensures Covers(Propose(s, cmds))
  {
    var t := Propose(s, cmds);
    var x := InstId(s.id, s.crt[s.id] + 1);
    RecordReaches(s.conflicts[s.id], cmds, x.inst);
    hide Record, Reaches, Attributes, Broadcast;
    forall y, c | t.Has(y) && c in t.space[y].cmds ensures Reaches(t.conflicts[y.rep], c, y.inst) {
      if y != x { assert s.Has(y); }
    }
  }

  lemma JudgeCovers(s: RState, m: Msg)
    requires WF(s) && WFMsg(m, s.n) && Covers(s)
    ensures Covers(Judge(s, m).0)
  {
    var t := Judge(s, m).0;
    assert SameCommands(s, t) by { hide Priority, WFRow; TouchWF(s, m.Id()); }
    hide Judge;
    SameCovers(s, t);
  }

  lemma {:induction false} HandleCovers(s: RState, m: Msg)
    requires WF(s) && WFMsg(m, s.n) && Covers(s)
    ensures Covers(Handle(s, m))
    decreases |WaitSlots(s.waitlist)| + 1, 0
  {
    hide Covers, WF, Judge, Accept, Finish;
    if m.cmds == [] {
      TouchWF(s, m.Id());
      TouchCovers(s, m.Id());
      FinishCovers(Touch(s, m.Id()), m);
    } else {
      var (s1, v) := Judge(s, m);
      JudgeCovers(s, m);
      if v.waitFor.Some? {
        ParkWF(s1, v.waitFor.value, m);
        OutsideCovers(s1, Park(s1, v.waitFor.value, m));
      } else {
        AcceptWF(s1, m);
        AcceptCovers(s1, m);
        PopFreesSlots(s1, m.Id());
        AcceptWaits(s1, m);
        ParkedWF(s1, m.Id());
        HandleAllCovers(Accept(s1, m), Waiting(s1, m.Id()));
        AnswerCovers(HandleAll(Accept(s1, m), Waiting(s1, m.Id())), m, v.dep);
      }
    }
  }

  lemma AcceptWaits(s: RState, m: Msg)
    requires WF(s) && WFMsg(m, s.n) && m.Id() in s.space
    ensures Accept(s, m).waitlist == s.waitlist - {m.Id()} && Accept(s, m).n == s.n
  {
  }

  lemma ParkedWF(s: RState, x: InstId)
    requires WF(s)
    ensures forall w <- Waiting(s, x) :: WFMsg(w, s.n)
  {
  }

  lemma TouchCovers(s: RState, x: InstId)
    requires WF(s) && Covers(s) && WF(Touch(s, x))
    ensures Covers(Touch(s, x))
  {
    assert SameCommands(s, Touch(s, x));
    SameCovers(s, Touch(s, x));
  }

  lemma OutsideCovers(s: RState, t: RState)
    requires WF(s) && WF(t) && Covers(s) && t.space == s.space && t.conflicts == s.conflicts
    ensures Covers(t)
  {
    assert forall y :: s.Has(y) <==> t.Has(y);
    hide WF, Reaches;
  }

  lemma AnswerCovers(s: RState, m: Msg, dep: int)
    requires WF(s) && WFMsg(m, s.n) && m.Id() in s.space && Covers(s)
    ensures Covers(Answer(s, m, dep))
  {
    var t := s.(out := s.out + Broadcast(s.id, Vote(s, m, dep), s.n));
    assert WF(t) by { hide Broadcast; }
    OutsideCovers(s, t);
    FinishCovers(t, m);
  }

  lemma {:induction false} HandleAllCovers(s: RState, ws: seq<Msg>)
    requires WF(s) && (forall w <- ws :: WFMsg(w, s.n)) && Covers(s)
    ensures Covers(HandleAll(s, ws))
    decreases |WaitSlots(s.waitlist)| + |ws|, |ws|
  {
    if ws != [] {
      assert ws[0] in ws;
      HandleCovers(s, ws[0]);
      HandleAllCovers(Handle(s, ws[0]), ws[1..]);
    }
  }

  // ---- Runs ----

  ghost predicate AllCover(g: Cluster) {
    Shape(g) && forall r :: 0 <= r < |g.reps| ==> Covers(g.reps[r])
  }

  lemma NextCovers(g: Cluster, e: Event)
    requires AllCover(g) && Enabled(g, e) && Shape(Next(g, e))
    ensures AllCover(Next(g, e))
  {
    hide Covers, WF;
    match e
    case ProposeAt(r, cmds) =>
      ProposeWF(g.reps[r], cmds);
      ProposeCovers(g.reps[r], cmds);
    case Deliver(to, m) =>
      HandleCovers(g.reps[to], m);
  }

  lemma NextShape(g: Cluster, e: Event)
    requires Enabled(g, e)
    ensures Shape(Next(g, e))
  {
    hide WF, Propose, Handle, VotesOf;
    match e
    case ProposeAt(r, cmds) =>
      ProposeWF(g.reps[r], cmds);
      ProposeN(g.reps[r], cmds);
    case Deliver(to, m) =>
  }

  lemma ProposeN(s: RState, cmds: seq<Command>)
    requires WF(s)
    ensures Propose(s, cmds).n == s.n
  {
  }

  lemma {:induction false} RunCovers(g: Cluster, es: seq<Event>, h: Cluster)
    requires AllCover(g) && Run(g, es, h)
    ensures AllCover(h)
    decreases |es|
  {
    hide AllCover, Next, Enabled;
    if es != [] {
      NextShape(g, es[0]);
      NextCovers(g, es[0]);
      RunCovers(Next(g, es[0]), es[1..], h);
    }
  }

  lemma ReachableCovers(n: nat, g: Cluster)
    requires Reachable(n, g)
    ensures AllCover(g)
  {
    var h := InitCluster(n);
    assert AllCover(h) by {
      forall r | 0 <= r < n ensures WF(h.reps[r]) && Covers(h.reps[r]) { assert forall y :: !h.reps[r].Has(y); }
    }
    var es :| Run(h, es, g);
    RunCovers(h, es, g);
  }

  // ---- updateAttributes ----

  lemma {:induction false} RowCovers(s: RState, cmds: seq<Command>, deps: seq<int>, q: nat)
    requires WF(s) && q < s.n && |deps| == s.n && forall j :: 0 <= j < s.n ==> deps[j] >= -1
    ensures forall c <- cmds :: LatestConflict(s.conflicts[q], c) <= AttrRow(s, cmds, deps, q)[q]
    decreases |cmds|
  {
    if cmds != [] {
      var p := cmds[..|cmds| - 1];
      RowCovers(s, p, deps, q);
      assert cmds == p + [cmds[|cmds| - 1]];
      hide LatestConflict;
    }
  }

  lemma {:induction false} AttributesCover(s: RState, cmds: seq<Command>, deps: seq<int>, rows: nat)
    requires WF(s) && rows <= s.n && |deps| == s.n && forall j :: 0 <= j < s.n ==> deps[j] >= -1
    ensures forall q, c :: 0 <= q < rows && c in cmds ==> LatestConflict(s.conflicts[q], c) <= Attributes(s, cmds, deps, s.id, rows)[q]
    decreases rows
  {
    if rows > 0 {
      AttributesCover(s, cmds, deps, rows - 1);
      RowCovers(s, cmds, Attributes(s, cmds, deps, s.id, rows - 1), rows - 1);
      hide LatestConflict, WF;
    }
  }

  // An interfering command is found by the lookup.
  lemma LookupFinds(s: RState, y: InstId, c: Command)
    requires WF(s) && Covers(s) && s.Has(y) && Interferes(s.space[y].cmds, c)
    ensures LatestConflict(s.conflicts[y.rep], c) >= y.inst
  {
    var l :| 0 <= l < |s.space[y].cmds| && s.space[y].cmds[l].key == c.key && (s.space[y].cmds[l].op != GET || c.op != GET);
    assert Reaches(s.conflicts[y.rep], s.space[y].cmds[l], y.inst);
  }

  // A proposal depends on every instance its proposer has the command of and that interferes with it.
  lemma ProposalCovers(n: nat, g: Cluster, r: nat, cmds: seq<Command>, y: InstId)
    requires Reachable(n, g) && Enabled(g, ProposeAt(r, cmds))
    requires g.reps[r].Has(y) && exists c <- cmds :: Interferes(g.reps[r].space[y].cmds, c)
    ensures DependsOn(NewProposal(g.reps[r], cmds).1.deps, y)
  {
    var s := g.reps[r];
    ReachableCovers(n, g);
    hide AllCover;
    assert Covers(s) by { CoverAt(g, r); }
    var c :| c in cmds && Interferes(s.space[y].cmds, c);
    LookupFinds(s, y, c);
    KnownBelow(n, g, r, y) by { hide Covers, Interferes, LatestConflict; }
    hide Reachable, GInv, Inv, Covers, Interferes, LatestConflict, VotesOK, Received;
    ProposalDeps(s, cmds, y, c);
  }

  lemma KnownBelow(n: nat, g: Cluster, r: nat, y: InstId)
    requires Reachable(n, g) && r < |g.reps| && WF(g.reps[r]) && g.reps[r].Has(y)
    ensures y.rep < g.reps[r].n && y.inst <= g.reps[r].crt[y.rep]
  {
    if n <= 1 {
      ReachableLone(n, g);
    } else {
      ReachableInv(n, g);
      GOpen(g);
      OwnBelow(g.reps[r], g.tables, y);
    }
  }

  lemma CoverAt(g: Cluster, r: nat)
    requires AllCover(g) && r < |g.reps|
    ensures WF(g.reps[r]) && Covers(g.reps[r])
  {
    hide Covers;
  }

  lemma OwnBelow(s: RState, T: Tables, y: InstId)
    requires Inv(s, T, {}) && WF(s) && s.Has(y)
    ensures y.rep < s.n && y.inst <= s.crt[y.rep]
  {
    Open(s, T, {});
    assert InstOK(s, T, y) by { hide InstOK, RowsOK, LogOK; }
  }

  lemma ProposalDeps(s: RState, cmds: seq<Command>, y: InstId, c: Command)
    requires WF(s) && y.rep < s.n && y.inst <= s.crt[y.rep] && c in cmds && LatestConflict(s.conflicts[y.rep], c) >= y.inst
    ensures DependsOn(NewProposal(s, cmds).1.deps, y)
  {
    hide Attributes, LatestConflict, Propose, NewProposal;
    ProposeBlank(s, cmds);
    ProposalIs(s, cmds);
    AttributesCover(BlankState(s, cmds), cmds, NewInstance(s.n).deps, s.n);
    hide WF;
  }

  function BlankState(s: RState, cmds: seq<Command>): RState
    requires WF(s)
  {
    s.(crt := s.crt[s.id := s.crt[s.id] + 1],
       space := s.space[InstId(s.id, s.crt[s.id] + 1) := NewInstance(s.n).(cmds := cmds, status := PreAccepted)])
  }

  lemma ProposalIs(s: RState, cmds: seq<Command>)
    requires WF(s) && WF(BlankState(s, cmds))
    ensures NewProposal(s, cmds).1.deps == Attributes(BlankState(s, cmds), cmds, NewInstance(s.n).deps, s.id, s.n)[s.id := s.crt[s.id]]
  {
    hide Attributes, WF, Record, Broadcast;
  }

  lemma ProposeBlank(s: RState, cmds: seq<Command>)
    requires WF(s)
    ensures WF(BlankState(s, cmds)) && BlankState(s, cmds).conflicts == s.conflicts
    ensures BlankState(s, cmds).id == s.id && BlankState(s, cmds).n == s.n
  {
    assert forall q :: 0 <= q < s.n ==> WFRow(s.space, q, s.conflicts[q]);
  }

  // ---- updatePriority ----

  // The latest own conflict d of c decides the answer: it interferes, does not depend on the proposal,
  // and no instance between the two dependency vectors above the proposer interferes.
  ghost predicate Decisive(s: RState, m: Msg, c: Command)
    requires WF(s) && WFMsg(m, s.n)
  {
    var d := LatestConflict(s.conflicts[s.id], c);
    && d >= 0 && InstId(s.id, d) in s.space
    && var own := s.space[InstId(s.id, d)];
       && own.deps[m.rep] < m.inst && Interferes(own.cmds, c)
       && forall k, j :: m.rep < k < s.n && m.deps[k] < j <= own.deps[k] ==>
            s.Has(InstId(k, j)) && !Interferes(s.space[InstId(k, j)].cmds, c)
  }

  lemma {:induction false} ScanRowClear(s: RState, c: Command, k: nat, j: nat, hi: int)
    ensures ScanRow(s, c, k, j, hi).Clear? <==>
              forall i :: j <= i <= hi ==> s.Has(InstId(k, i)) && !Interferes(s.space[InstId(k, i)].cmds, c)
    decreases hi - j
  {
    hide Interferes;
    if j <= hi && s.Has(InstId(k, j)) && !Interferes(s.space[InstId(k, j)].cmds, c) {
      ScanRowClear(s, c, k, j + 1, hi);
    }
  }

  lemma {:induction false} ScanClear(s: RState, c: Command, deps: seq<int>, own: seq<int>, k: nat)
    requires |deps| == |own| == s.n && forall j :: 0 <= j < s.n ==> deps[j] >= -1
    ensures ScanRows(s, c, deps, own, k).Clear? <==>
              forall q, j :: k <= q < s.n && deps[q] < j <= own[q] ==> s.Has(InstId(q, j)) && !Interferes(s.space[InstId(q, j)].cmds, c)
    decreases s.n - k
  {
    hide Interferes;
    if k < s.n {
      ScanRowClear(s, c, k, deps[k] + 1, own[k]);
      ScanClear(s, c, deps, own, k + 1);
    }
  }

  // An answer raises the dependency exactly to the latest decisive own conflict, if that is higher.
  lemma {:induction false} AnswerIsDecisive(s: RState, m: Msg, dep: int, i: nat)
    requires WF(s) && WFMsg(m, s.n) && dep >= -1 && Priority(s, m, dep, i).waitFor.None?
    ensures var v := Priority(s, m, dep, i).dep;
            && (v == dep || exists l :: i <= l < |m.cmds| && Decisive(s, m, m.cmds[l]) && v == LatestConflict(s.conflicts[s.id], m.cmds[l]))
            && (forall l :: i <= l < |m.cmds| && Decisive(s, m, m.cmds[l]) ==> LatestConflict(s.conflicts[s.id], m.cmds[l]) <= v)
    decreases |m.cmds| - i
  {
    if i < |m.cmds| {
      var c := m.cmds[i];
      var d := LatestConflict(s.conflicts[s.id], c);
      var next := if DecidesAt(s, m, dep, c) then d else dep;
      PriorityTurn(s, m, dep, i);
      AnswerIsDecisive(s, m, next, i + 1);
      hide Decisive, LatestConflict, Priority, WF;
    }
  }

  ghost predicate DecidesAt(s: RState, m: Msg, dep: int, c: Command)
    requires WF(s) && WFMsg(m, s.n)
  {
    LatestConflict(s.conflicts[s.id], c) > dep && Decisive(s, m, c)
  }

  lemma PriorityTurn(s: RState, m: Msg, dep: int, i: nat)
    requires WF(s) && WFMsg(m, s.n) && dep >= -1 && i < |m.cmds| && Priority(s, m, dep, i).waitFor.None?
    ensures var c := m.cmds[i];
            Priority(s, m, dep, i) == Priority(s, m, if DecidesAt(s, m, dep, c) then LatestConflict(s.conflicts[s.id], c) else dep, i + 1)
  {
    var c := m.cmds[i];
    var d := LatestConflict(s.conflicts[s.id], c);
    if d > dep {
      assert InstId(s.id, d) in s.space;
      ScanClear(s, c, m.deps, s.space[InstId(s.id, d)].deps, m.rep + 1);
      hide ScanRows, Interferes, LatestConflict;
    }
  }
}
