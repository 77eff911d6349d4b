/** The conflict table of PPaxos is exact (updateConflicts of eppaxos/epaxos.go): a lookup finds the
    latest known instance of a row that interferes, and nothing else. */
module PPaxosTable {
  import opened Options
  import opened PPaxos
  import opened PPaxosCoverage
  import opened PPaxosGlobal
  import opened PPaxosHandler
  import opened PPaxosLocal
  import opened Store

  // ---- One row ----

  predicate TouchesKey(cmds: seq<Command>, k: Key, writes: bool) {
    exists l :: 0 <= l < |cmds| && cmds[l].key == k && (writes ==> cmds[l].op != GET)
  }

  // The last and the last written instance of a key in a row, or -1.
  function LastOf(row: map<Key, InstPair>, k: Key): int {
    if k in row then row[k].last else -1
  }

  function LastWriteOf(row: map<Key, InstPair>, k: Key): int {
    if k in row then row[k].lastWrite else -1
  }

  lemma RecordOne(row: map<Key, InstPair>, c: Command, inst: nat, k: Key)
    requires k in row ==> row[k].last >= 0 && row[k].lastWrite >= -1
    ensures var r := RecordCmd(row, c, inst);
            && (k in r <==> k in row || c.key == k)
            && LastOf(r, k) == (if c.key == k && inst > LastOf(row, k) then inst else LastOf(row, k))
            && LastWriteOf(r, k) == (if c.key == k && c.op != GET && inst > LastWriteOf(row, k) then inst else LastWriteOf(row, k))
  {
  }

  // What a row holds of a key: the higher of the old entry and, if the commands touch it, the new instance.
  lemma {:induction false} RecordExact(row: map<Key, InstPair>, cmds: seq<Command>, inst: nat, k: Key)
    requires k in row ==> row[k].last >= 0 && row[k].lastWrite >= -1
    ensures var r := Record(row, cmds, inst);
            && (k in r <==> k in row || TouchesKey(cmds, k, false))
            && LastOf(r, k) == (if TouchesKey(cmds, k, false) && inst > LastOf(row, k) then inst else LastOf(row, k))
            && LastWriteOf(r, k) == (if TouchesKey(cmds, k, true) && inst > LastWriteOf(row, k) then inst else LastWriteOf(row, k))
            && (k in r ==> r[k].last >= 0 && r[k].lastWrite >= -1)
    decreases |cmds|
  {
    if cmds != [] {
      var p, c := cmds[..|cmds| - 1], cmds[|cmds| - 1];
      RecordExact(row, p, inst, k);
      RecordOne(Record(row, p, inst), c, inst, k);
      OneMore(p, c, k, false);
      OneMore(p, c, k, true);
      assert p + [c] == cmds;
      hide TouchesKey, RecordCmd;
    }
  }

  lemma OneMore(p: seq<Command>, c: Command, k: Key, writes: bool)
    ensures TouchesKey(p + [c], k, writes) <==> TouchesKey(p, k, writes) || (c.key == k && (writes ==> c.op != GET))
  {
    if l :| 0 <= l < |p| && p[l].key == k && (writes ==> p[l].op != GET) { assert (p + [c])[l] == p[l]; }
    if c.key == k && (writes ==> c.op != GET) { assert (p + [c])[|p|] == c; }
  }

  // ---- What every entry stands for ----

  type Proposals = map<InstId, Proposal>

  ghost predicate Entry(props: Proposals, s: RState, y: InstId, k: Key, writes: bool) {
    s.Has(y) && y in props && TouchesKey(props[y].cmds, k, writes)
  }

  ghost predicate RowSound(props: Proposals, s: RState, q: nat, row: map<Key, InstPair>) {
    forall k <- row ::
      && row[k].last >= 0 && row[k].lastWrite >= -1 && Entry(props, s, InstId(q, row[k].last), k, false)
      && (row[k].lastWrite >= 0 ==> Entry(props, s, InstId(q, row[k].lastWrite), k, true))
  }

  predicate AsProposed(props: Proposals, m: Msg) {
    m.cmds != [] ==> m.Id() in props && m.cmds == props[m.Id()].cmds
  }

  ghost predicate Sound(props: Proposals, s: RState) {
    && (forall q :: 0 <= q < |s.conflicts| ==> RowSound(props, s, q, s.conflicts[q]))
    && (forall y :: s.Has(y) ==> y in props && s.space[y].cmds == props[y].cmds)
    && (forall k, i :: Slot(s.waitlist, k, i) ==> AsProposed(props, s.waitlist[k][i]))
    && (forall p <- s.out :: AsProposed(props, p.msg))
  }

  // ---- Every step keeps it ----

  // No command is lost or changed, and the table and the wait list stay.
  ghost predicate SameTable(s: RState, t: RState) {
    && t.conflicts == s.conflicts && t.waitlist == s.waitlist
    && forall y :: (t.Has(y) <==> s.Has(y)) && (s.Has(y) ==> t.space[y].cmds == s.space[y].cmds)
  }

  lemma SameSound(props: Proposals, s: RState, t: RState)
    requires Sound(props, s) && SameTable(s, t) && forall p <- t.out :: AsProposed(props, p.msg)
    ensures Sound(props, t)
  {
    hide TouchesKey, AsProposed;
    forall q | 0 <= q < |t.conflicts| ensures RowSound(props, t, q, t.conflicts[q]) {
      assert RowSound(props, s, q, s.conflicts[q]);
    }
  }

  lemma JudgeSound(props: Proposals, s: RState, m: Msg)
    requires WF(s) && WFMsg(m, s.n) && Sound(props, s)
    ensures Sound(props, Judge(s, m).0)
  {
    var t := Judge(s, m).0;
    JudgeSame(s, m);
    hide Judge, Sound, AsProposed;
    assert forall p <- t.out :: AsProposed(props, p.msg) by { OutSound(props, s); }
    SameSound(props, s, t);
  }

  lemma JudgeSame(s: RState, m: Msg)
    requires WF(s) && WFMsg(m, s.n)
    ensures SameTable(s, Judge(s, m).0) && Judge(s, m).0.out == s.out
  {
    hide Priority, WFRow;
    TouchWF(s, m.Id());
  }

  lemma OutSound(props: Proposals, s: RState)
    requires Sound(props, s)
    ensures forall p <- s.out :: AsProposed(props, p.msg)
  {
  }

  lemma ParkSound(props: Proposals, s: RState, k: InstId, m: Msg)
    requires Sound(props, s) && AsProposed(props, m)
    ensures Sound(props, Park(s, k, m))
  {
    hide AsProposed, TouchesKey;
    var t := Park(s, k, m);
    assert forall y :: t.Has(y) <==> s.Has(y);
    forall q | 0 <= q < |t.conflicts| ensures RowSound(props, t, q, t.conflicts[q]) {
      assert RowSound(props, s, q, s.conflicts[q]);
    }
    forall k', i | Slot(t.waitlist, k', i) ensures AsProposed(props, t.waitlist[k'][i]) {
      if Slot(s.waitlist, k', i) { assert t.waitlist[k'][i] == s.waitlist[k'][i]; }
    }
  }

  // A row stays sound when its replica gets to know more.
  lemma RowGrows(props: Proposals, s: RState, t: RState, q: nat, row: map<Key, InstPair>)
    requires RowSound(props, s, q, row) && forall y :: s.Has(y) ==> t.Has(y)
    ensures RowSound(props, t, q, row)
  {
    hide TouchesKey;
  }

  lemma RecordSound(props: Proposals, t: RState, y: InstId, row: map<Key, InstPair>)
    requires RowSound(props, t, y.rep, row) && t.Has(y) && y in props
    ensures RowSound(props, t, y.rep, Record(row, props[y].cmds, y.inst))
  {
    var r2 := Record(row, props[y].cmds, y.inst);
    forall k | k in r2
      ensures r2[k].last >= 0 && r2[k].lastWrite >= -1 && Entry(props, t, InstId(y.rep, r2[k].last), k, false)
      ensures r2[k].lastWrite >= 0 ==> Entry(props, t, InstId(y.rep, r2[k].lastWrite), k, true)
    {
      RecordExact(row, props[y].cmds, y.inst, k);
      hide Record, TouchesKey;
    }
  }

  lemma AcceptSound(props: Proposals, s: RState, m: Msg)
    requires WF(s) && WFMsg(m, s.n) && m.Id() in s.space && Sound(props, s) && AsProposed(props, m) && m.cmds != []
    ensures Sound(props, Accept(s, m)) && forall w <- Waiting(s, m.Id()) :: AsProposed(props, w)
  {
    var t := Accept(s, m);
    assert forall y :: t.Has(y) <==> s.Has(y) || y == m.Id();
    forall q | 0 <= q < |t.conflicts| ensures RowSound(props, t, q, t.conflicts[q]) {
      RowGrows(props, s, t, q, s.conflicts[q]);
      if q == m.rep { RecordSound(props, t, m.Id(), s.conflicts[q]); }
    }
    hide Record, RowSound, WFRow, FillDeps;
    forall w | w in Waiting(s, m.Id()) ensures AsProposed(props, w) {
      var i :| 0 <= i < |Waiting(s, m.Id())| && Waiting(s, m.Id())[i] == w;
      assert Slot(s.waitlist, m.Id(), i);
    }
  }

  lemma FinishSound(props: Proposals, s: RState, m: Msg)
    requires WF(s) && WFMsg(m, s.n) && m.Id() in s.space && Sound(props, s)
    ensures Sound(props, Finish(s, m))
  {
    ReachedWF(s, m);
    var s1 := Reached(s, m);
    assert SameTable(s, s1) && s1.out == s.out by { hide WFRow; }
    OutSound(props, s);
    hide Sound, WF, Commit, Reached, AsProposed;
    SameSound(props, s, s1);
    if !(s1.space[m.Id()].status == Committed || s1.space[m.Id()].cmds == []) {
      FrameSound(s1, Commit(s1, m.Id()));
      SameSound(props, s1, Commit(s1, m.Id()));
    }
  }

  lemma FrameSound(s: RState, t: RState)
    requires CommitFrame(s, t)
    ensures SameTable(s, t) && t.out == s.out
  {
    assert forall x <- t.space :: SameBody(s.space[x], t.space[x]);
  }

  lemma AnswerSound(props: Proposals, s: RState, m: Msg, dep: int)
    requires WF(s) && WFMsg(m, s.n) && m.Id() in s.space && Sound(props, s)
    ensures Sound(props, Answer(s, m, dep))
  {
    var v := Vote(s, m, dep);
    var t := s.(out := s.out + Broadcast(s.id, v, s.n));
    assert WF(t) by { hide Broadcast, Vote, WFRow, WFInstance; }
    BroadcastPackets(s, v, s.n);
    OutSound(props, s);
    hide Sound, Broadcast, WF;
    assert SameTable(s, t);
    SameSound(props, s, t);
    FinishSound(props, t, m);
  }

  lemma {:induction false} HandleSound(props: Proposals, s: RState, m: Msg)
    requires WF(s) && WFMsg(m, s.n) && Sound(props, s) && AsProposed(props, m)
    ensures Sound(props, Handle(s, m))
    decreases |WaitSlots(s.waitlist)| + 1, 0
  {
    hide Sound, AsProposed, WF, WFMsg, Judge, Accept, Finish, Answer, WaitSlots, Park;
    if m.cmds == [] {
      MsgRow(m, s.n);
      TouchWF(s, m.Id());
      TouchSound(props, s, m.Id());
      FinishSound(props, Touch(s, m.Id()), m);
    } else {
      var (s1, v) := Judge(s, m);
      JudgeSound(props, s, m);
      if v.waitFor.Some? {
        ParkSound(props, s1, v.waitFor.value, m);
      } else {
        AcceptWF(s1, m);
        AcceptWaits(s1, m);
        ParkedWF(s1, m.Id());
        PopFreesSlots(s1, m.Id());
        AcceptSound(props, s1, m);
        HandleAllSound(props, Accept(s1, m), Waiting(s1, m.Id()));
        AnswerSound(props, HandleAll(Accept(s1, m), Waiting(s1, m.Id())), m, v.dep);
      }
    }
  }

  lemma TouchSound(props: Proposals, s: RState, x: InstId)
    requires Sound(props, s)
    ensures Sound(props, Touch(s, x))
  {
    assert SameTable(s, Touch(s, x));
    OutSound(props, s);
    hide Sound;
    SameSound(props, s, Touch(s, x));
  }

  lemma {:induction false} HandleAllSound(props: Proposals, s: RState, ws: seq<Msg>)
    requires WF(s) && (forall w <- ws :: WFMsg(w, s.n) && AsProposed(props, w)) && Sound(props, s)
    ensures Sound(props, HandleAll(s, ws))
    decreases |WaitSlots(s.waitlist)| + |ws|, |ws|
  {
    hide Sound, AsProposed, WF, WFMsg, WaitSlots, Handle;
    if ws != [] {
      HandleSound(props, s, ws[0]);
      HandleAllSound(props, Handle(s, ws[0]), ws[1..]);
    }
  }

  // ---- Proposing ----

  ghost predicate Extends(P: Proposals, Q: Proposals) {
    forall x <- P :: x in Q && Q[x] == P[x]
  }

  lemma SoundMore(P: Proposals, Q: Proposals, s: RState)
    requires Sound(P, s) && Extends(P, Q)
    ensures Sound(Q, s)
  {
    hide TouchesKey;
    forall q | 0 <= q < |s.conflicts| ensures RowSound(Q, s, q, s.conflicts[q]) {
      assert RowSound(P, s, q, s.conflicts[q]);
    }
    assert forall m :: AsProposed(P, m) ==> AsProposed(Q, m);
  }

  lemma ProposeSound(P: Proposals, Q: Proposals, s: RState, cmds: seq<Command>)
    requires WF(s) && cmds != [] && Sound(P, s) && NewProposal(s, cmds).0 !in P
    requires Q == P[NewProposal(s, cmds).0 := NewProposal(s, cmds).1]
    ensures Sound(Q, Propose(s, cmds))
  {
    hide Propose, NewProposal, ProposalOK, Broadcast, Record, WFRow, WFInstance, WFMsg, RowSound;
    var (x, p) := NewProposal(s, cmds);
    var t := Propose(s, cmds);
    ProposeShape(s, cmds, x, p, t);
    ProposeTable(s, cmds, x);
    SoundMore(P, Q, s);
    ProposeRows(Q, s, t, x);
    hide WF, Extends;
    BroadcastPackets(s, Msg(s.id, x.inst, cmds, p.deps, 0, s.id), s.n);
  }

  lemma ProposeRows(Q: Proposals, s: RState, t: RState, x: InstId)
    requires Sound(Q, s) && x in Q && x in t.space && t.space == s.space[x := t.space[x]] && t.Has(x)
    requires x.rep < |s.conflicts| && t.conflicts == s.conflicts[x.rep := Record(s.conflicts[x.rep], Q[x].cmds, x.inst)]
    ensures forall q :: 0 <= q < |t.conflicts| ==> RowSound(Q, t, q, t.conflicts[q])
  {
    hide Record, AsProposed;
    forall q | 0 <= q < |t.conflicts| ensures RowSound(Q, t, q, t.conflicts[q]) {
      hide RowSound;
      assert RowSound(Q, s, q, s.conflicts[q]);
      assert forall y :: s.Has(y) ==> t.Has(y);
      RowGrows(Q, s, t, q, s.conflicts[q]);
      if q == x.rep { RecordSound(Q, t, x, s.conflicts[q]); }
    }
  }

  lemma ProposeTable(s: RState, cmds: seq<Command>, x: InstId)
    requires WF(s) && x == InstId(s.id, s.crt[s.id] + 1)
    ensures Propose(s, cmds).conflicts == s.conflicts[s.id := Record(s.conflicts[s.id], cmds, x.inst)]
  {
    hide Attributes, Broadcast, Record;
  }

  // ---- Runs ----

  ghost predicate AllSound(g: Cluster) {
    forall r :: 0 <= r < |g.reps| ==> Sound(g.tables.props, g.reps[r])
  }

  lemma NextSound(g: Cluster, e: Event)
    requires GInv(g) && AllSound(g) && Enabled(g, e)
    ensures AllSound(Next(g, e))
  {
    hide GInv, Sound, Propose, NewProposal, Handle, WF, VotesOf, AsProposed;
    match e
    case ProposeAt(r, cmds) =>
      var P, Q, s := g.tables.props, Next(g, e).tables.props, g.reps[r];
      NewIsFresh(g, r, cmds);
      ProposeSound(P, Q, s, cmds);
      forall q | 0 <= q < |g.reps| ensures Sound(Q, g.reps[q]) { SoundMore(P, Q, g.reps[q]); }
    case Deliver(to, m) =>
      OutSound(g.tables.props, g.reps[m.sender]);
      HandleSound(g.tables.props, g.reps[to], m);
  }

  lemma NewIsFresh(g: Cluster, r: nat, cmds: seq<Command>)
    requires GInv(g) && r < |g.reps| && cmds != [] && WF(g.reps[r])
    ensures NewProposal(g.reps[r], cmds).0 !in g.tables.props
  {
    hide GInv, Base, Untallied, Tallied, Live, ParkedOK, Outbox, VotesOK, Received, OwnOK, WFRow, Propose;
    GOpen(g);
    assert Inv(g.reps[r], g.tables, {});
    NewIsUnknown(g.reps[r], g.tables, NewProposal(g.reps[r], cmds).0);
  }

  lemma {:induction false} RunSound(g: Cluster, es: seq<Event>, h: Cluster)
    requires GInv(g) && AllSound(g) && Run(g, es, h)
    ensures AllSound(h)
    decreases |es|
  {
    hide GInv, AllSound, Next, Enabled, GStep;
    if es != [] {
      NextSound(g, es[0]);
      NextKeeps(g, es[0]);
      RunSound(Next(g, es[0]), es[1..], h);
    }
  }

  lemma ReachableSound(n: nat, g: Cluster)
    requires n >= 2 && Reachable(n, g)
    ensures AllSound(g)
  {
    InitGInv(n);
    assert AllSound(InitCluster(n));
    hide Run, GInv, AllSound;
    var es :| Run(InitCluster(n), es, g);
    RunSound(InitCluster(n), es, g);
  }

  // ---- A lookup is exact ----

  lemma EntryInterferes(props: Proposals, s: RState, q: nat, c: Command)
    requires q < |s.conflicts| && Sound(props, s) && LatestConflict(s.conflicts[q], c) >= 0
    ensures var y := InstId(q, LatestConflict(s.conflicts[q], c)); s.Has(y) && Interferes(s.space[y].cmds, c)
  {
    assert RowSound(props, s, q, s.conflicts[q]);
    var y := InstId(q, LatestConflict(s.conflicts[q], c));
    assert Entry(props, s, y, c.key, c.op == GET);
    var l :| 0 <= l < |props[y].cmds| && props[y].cmds[l].key == c.key && (c.op == GET ==> props[y].cmds[l].op != GET);
    assert s.space[y].cmds[l].key == c.key && (s.space[y].cmds[l].op != GET || c.op != GET);
  }

  // In every reachable state a lookup finds the latest instance of the row that the replica has and that
  // shares the key of the command, with a write among the two; it finds nothing only if there is none.
  lemma TableExact(n: nat, g: Cluster, r: nat, q: nat, c: Command)
    requires n >= 2 && Reachable(n, g) && r < |g.reps| && q < |g.reps|
    ensures |g.reps[r].conflicts| == |g.reps|
    ensures var s, d := g.reps[r], LatestConflict(g.reps[r].conflicts[q], c);
            && d >= -1
            && (d >= 0 ==> s.Has(InstId(q, d)) && Interferes(s.space[InstId(q, d)].cmds, c))
            && forall y :: s.Has(y) && y.rep == q && Interferes(s.space[y].cmds, c) ==> y.inst <= d
  {
    hide Reachable, GInv, Inv, VotesOK, Received, AllCover, Covers, Sound, Interferes, LatestConflict, WFRow;
    ReachableInv(n, g);
    GOpen(g);
    ReachableSound(n, g);
    ReachableCovers(n, g);
    var s := g.reps[r];
    CoverAt(g, r);
    LookupRange(s, q, c);
    if LatestConflict(s.conflicts[q], c) >= 0 { EntryInterferes(g.tables.props, s, q, c); }
    forall y | s.Has(y) && y.rep == q && Interferes(s.space[y].cmds, c) ensures y.inst <= LatestConflict(s.conflicts[q], c) {
      LookupFinds(s, y, c);
    }
  }

  lemma LookupRange(s: RState, q: nat, c: Command)
    requires WF(s) && q < s.n
    ensures LatestConflict(s.conflicts[q], c) >= -1
  {
    assert WFRow(s.space, q, s.conflicts[q]);
  }

  // On commands that are PUT or GET, interference is the conflict test of the state machine.
  lemma InterferesIsConflict(cmds: seq<Command>, c: Command)
    requires (c.op == PUT || c.op == GET) && forall b <- cmds :: b.op == PUT || b.op == GET
    ensures Interferes(cmds, c) <==> exists b <- cmds :: b.Valid() && c.Valid() && Conflict(b, c)
  {
    if Interferes(cmds, c) {
      var l :| 0 <= l < |cmds| && cmds[l].key == c.key && (cmds[l].op != GET || c.op != GET);
      assert cmds[l] in cmds && Conflict(cmds[l], c);
    }
    if b :| b in cmds && b.Valid() && c.Valid() && Conflict(b, c) {
      var l :| 0 <= l < |cmds| && cmds[l] == b;
    }
  }
}
