/** What every handler of one PPaxos replica keeps, relative to the tables of what
    has been proposed and voted anywhere. */
module PPaxosLocal {
  import opened Options
  import opened PPaxos
  import opened Store

  datatype Proposal = Proposal(cmds: seq<Command>, deps: seq<int>)

  // Who proposed what, and which dependency replica i voted for its own column of x.
  datatype Tables = Tables(props: map<InstId, Proposal>, votes: map<(nat, InstId), int>)

  ghost predicate TablesOK(T: Tables, n: nat) {
    && (forall x <- T.props :: ProposalOK(T.props[x], x, n))
    && (forall i: nat, x: InstId :: (i, x) in T.votes ==>
          i < x.rep && x in T.props && T.votes[(i, x)] >= T.props[x].deps[i])
  }

  predicate ProposalOK(p: Proposal, x: InstId, n: nat) {
    && x.rep < n && p.cmds != [] && |p.deps| == n
    && (forall j :: 0 <= j < n ==> p.deps[j] >= -1)
    && p.deps[x.rep] == x.inst - 1
  }

  ghost predicate Genuine(m: Msg, T: Tables, n: nat, to: nat) {
    && WFMsg(m, n) && to < n && m.sender != to && m.Id() in T.props
    && (if m.cmds != [] then
          m.sender == m.rep && m.cmds == T.props[m.Id()].cmds && m.deps == T.props[m.Id()].deps
        else
          m.sender != m.rep &&
          (m.sender < m.rep ==> (m.sender, m.Id()) in T.votes && T.votes[(m.sender, m.Id())] == m.senderDep))
  }

  // ---- The invariant, clause by clause ----

  // Column i < rep holds i's vote once i is reached; every other column is the proposer's.
  ghost predicate ColumnsOK(id: nat, n: nat, e: Instance, T: Tables, x: InstId)
    requires WFInstance(e, n) && TablesOK(T, n)
  {
    && x in T.props
    && (e.cmds != [] ==> e.cmds == T.props[x].cmds)
    && (forall j :: x.rep <= j < n ==> e.deps[j] == if e.cmds == [] then -1 else T.props[x].deps[j])
    && (forall i :: 0 <= i < x.rep && i != id && e.reach[i] ==>
          (i as nat, x) in T.votes && e.deps[i] == T.votes[(i as nat, x)])
    && (forall i :: 0 <= i < x.rep && i != id && !e.reach[i] && e.cmds == [] ==> e.deps[i] == -1)
    && (id < x.rep && e.cmds != [] ==> e.deps[id] >= T.props[x].deps[id])
    && (id == x.rep ==> e.cmds != [])
  }

  ghost predicate InstOK(s: RState, T: Tables, x: InstId)
    requires WF(s) && TablesOK(T, s.n) && x in s.space
  {
    var e := s.space[x];
    && ColumnsOK(s.id, s.n, e, T, x)
    && (e.status == Empty <==> e.cmds == [])
    && (e.status == Committed ==> HigherReached(e, x.rep) && Tally(e.reach) > s.n / 2)
    && (e.cmds != [] ==> x.inst <= s.crt[x.rep])
    && (s.id == x.rep ==> e.reach[s.id])
  }

  // Each row is committed exactly up to its watermark.
  ghost predicate RowsOK(s: RState)
    requires WF(s)
  {
    forall x: InstId :: x.rep < s.n ==> (s.Done(x) <==> x.inst <= s.upTo[x.rep])
  }

  predicate DependsOn(deps: seq<int>, y: InstId) {
    y.rep < |deps| && y.inst <= deps[y.rep]
  }

  // The commit order lists each committed instance once, after everything it depends on.
  ghost predicate LogOK(s: RState) {
    && (forall x :: x in s.log <==> s.Done(x))
    && (forall i, j :: 0 <= i < j < |s.log| ==> s.log[i] != s.log[j])
    && (forall i, y :: 0 <= i < |s.log| && s.log[i] in s.space && DependsOn(s.space[s.log[i]].deps, y) ==> y in s.log[..i])
  }

  ghost predicate Base(s: RState, T: Tables) {
    && WF(s) && TablesOK(T, s.n)
    && (forall x <- s.space :: InstOK(s, T, x))
    && RowsOK(s) && LogOK(s)
  }

  // Instances whose handler is still running, or without a command, were never tallied.
  ghost predicate Untallied(s: RState, busy: set<InstId>) {
    forall x <- s.space :: x in busy || s.space[x].cmds == [] ==> s.space[x].preAcceptOKs == 0
  }

  // Elsewhere the stored tallies are those of the reach vector, as soon as a majority is reached.
  ghost predicate Tallied(s: RState, stale: set<InstId>)
    requires WF(s)
  {
    forall x <- s.space ::
      x !in stale && s.space[x].cmds != [] && s.space[x].status != Committed && Tally(s.space[x].reach) > s.n / 2 ==>
        s.space[x].preAcceptOKs == Tally(s.space[x].reach) && s.space[x].priorityOKs == HigherReached(s.space[x], x.rep)
  }

  // Nothing that could commit has been forgotten.
  ghost predicate Live(s: RState, except: set<InstId>)
    requires WF(s)
  {
    forall x <- s.space :: x !in except && s.space[x].cmds != [] ==> !CanCommit(s, x)
  }

  // ---- Commit ----

  lemma FrameBody(s: RState, t: RState, x: InstId)
    requires CommitFrame(s, t) && x in s.space
    ensures t.n == s.n && x in t.space && SameBody(s.space[x], t.space[x])
  {
  }

  // A change that leaves command, dependencies and status of every instance alone keeps rows and log.
  lemma RowsLogKept(s: RState, t: RState)
    requires WF(s) && WF(t) && RowsOK(s) && LogOK(s)
    requires t.n == s.n && t.upTo == s.upTo && t.log == s.log
    requires forall x :: t.Done(x) <==> s.Done(x)
    requires forall x :: s.Done(x) ==> x in t.space && t.space[x].deps == s.space[x].deps
    ensures RowsOK(t) && LogOK(t)
  {
    LogKept(s, t);
  }

  lemma LogKept(s: RState, t: RState)
    requires LogOK(s) && t.log == s.log
    requires forall x :: t.Done(x) <==> s.Done(x)
    requires forall x :: s.Done(x) ==> x in t.space && t.space[x].deps == s.space[x].deps
    ensures LogOK(t)
  {
    forall i, y | 0 <= i < |t.log| && t.log[i] in t.space && DependsOn(t.space[t.log[i]].deps, y)
      ensures y in t.log[..i]
    {
      assert s.log[i] in s.log;
      assert s.Done(s.log[i]);
    }
  }

  lemma RefreshBase(s: RState, T: Tables, x: InstId)
    requires Base(s, T) && x in s.space
    ensures Base(Refresh(s, x), T)
  {
    hide LogOK, RowsOK, Tally, InstOK, WF, TablesOK, WFInstance, HigherReached;
    var t := Refresh(s, x);
    RefreshFrame(s, x);
    RowsLogKept(s, t);
    forall y | y in t.space ensures InstOK(t, T, y) {
      SameInst(s, t, T, y);
    }
  }

  // InstOK of one instance reads only its command, dependencies, reach vector and status.
  lemma SameInst(s: RState, t: RState, T: Tables, x: InstId)
    requires WF(s) && WF(t) && TablesOK(T, s.n) && t.id == s.id && t.n == s.n && t.crt == s.crt
    requires x in s.space && InstOK(s, T, x)
    requires x in t.space && SameBody(s.space[x], t.space[x]) && t.space[x].status == s.space[x].status
    ensures InstOK(t, T, x)
  {
  }

  lemma AdvanceByOne(s: RState, T: Tables, x: InstId)
    requires Base(s, T) && x in s.space && s.space[x].cmds != [] && CanCommit(s, x)
    ensures s.upTo[x.rep] == x.inst - 1
    ensures Decide(s, x).upTo == s.upTo[x.rep := x.inst]
  {
    ReadyIsNext(s, T, x);
    assert !s.Done(InstId(x.rep, x.inst + 1)) by { hide InstOK, LogOK, TablesOK; }
    hide Base, CanCommit;
    AdvanceStops(s.space[x := s.space[x].(status := Committed)], x);
  }

  lemma AdvanceStops(space: map<InstId, Instance>, x: InstId)
    requires x in space && space[x].status == Committed
    requires var next := InstId(x.rep, x.inst + 1); next in space ==> space[next].status != Committed
    ensures Advance(space, x.rep, x.inst - 1) == x.inst
  {
    assert InstId(x.rep, x.inst - 1 + 1) == x;
    assert Advance(space, x.rep, x.inst) == x.inst;
  }

  lemma DecideBase(s: RState, T: Tables, x: InstId)
    requires Base(s, T) && x in s.space && s.space[x].cmds != [] && CanCommit(s, x)
    ensures Base(Decide(s, x), T)
  {
    var t := Decide(s, x);
    DecideFrame(s, x);
    AdvanceByOne(s, T, x);
    DecideDone(s, x);
    DecideInst(s, T, x);
    DecideLog(s, x) by { hide InstOK, TablesOK; }
    DecideRows(s, x) by { hide InstOK, TablesOK; }
    hide LogOK, RowsOK, InstOK, TablesOK, CommitFrame, Advance, CanCommit, WF;
  }

  lemma DecideRows(s: RState, x: InstId)
    requires WF(s) && x in s.space && WF(Decide(s, x)) && RowsOK(s)
    requires forall y :: Decide(s, x).Done(y) <==> s.Done(y) || y == x
    requires s.upTo[x.rep] == x.inst - 1 && Decide(s, x).upTo == s.upTo[x.rep := x.inst]
    ensures RowsOK(Decide(s, x))
  {
    hide Advance;
  }

  lemma DecideInst(s: RState, T: Tables, x: InstId)
    requires WF(s) && TablesOK(T, s.n) && (forall y <- s.space :: InstOK(s, T, y))
    requires x in s.space && WF(Decide(s, x)) && s.space[x].cmds != [] && CanCommit(s, x)
    ensures forall y <- Decide(s, x).space :: InstOK(Decide(s, x), T, y)
  {
    hide Advance, TablesOK, InstOK, WF, CanCommit;
    DecidedInst(s, T, x);
    forall y | y in Decide(s, x).space ensures InstOK(Decide(s, x), T, y) {
      if y != x { DecidedOther(s, T, x, y); }
    }
  }

  lemma DecidedOther(s: RState, T: Tables, x: InstId, y: InstId)
    requires WF(s) && TablesOK(T, s.n) && x in s.space && y in s.space && y != x && InstOK(s, T, y) && WF(Decide(s, x))
    ensures InstOK(Decide(s, x), T, y)
  {
    hide Advance, TablesOK, InstOK, WF;
    SameInst(s, Decide(s, x), T, y);
  }

  lemma DecidedInst(s: RState, T: Tables, x: InstId)
    requires WF(s) && TablesOK(T, s.n) && x in s.space && InstOK(s, T, x)
    requires WF(Decide(s, x)) && s.space[x].cmds != [] && CanCommit(s, x)
    ensures InstOK(Decide(s, x), T, x)
  {
    hide Advance, Tally, TablesOK, WFRow;
  }

  lemma DecideDone(s: RState, x: InstId)
    requires WF(s) && x in s.space
    ensures forall y :: Decide(s, x).Done(y) <==> s.Done(y) || y == x
  {
    hide WF, Advance;
  }

  lemma DecideLog(s: RState, x: InstId)
    requires WF(s) && RowsOK(s) && LogOK(s) && x in s.space && CanCommit(s, x)
    requires forall y :: Decide(s, x).Done(y) <==> s.Done(y) || y == x
    ensures LogOK(Decide(s, x))
  {
    var t := Decide(s, x);
    assert t.log == s.log + [x];
    assert x !in s.log;
    assert DepsDone(s, s.space[x]);
    hide Advance, CanCommit, WF;
    forall i, y | 0 <= i < |t.log| && t.log[i] in t.space && DependsOn(t.space[t.log[i]].deps, y)
      ensures y in t.log[..i]
    {
      if i < |s.log| {
        assert t.log[i] == s.log[i] && t.log[..i] == s.log[..i];
        assert s.log[i] in s.log;
      } else {
        assert t.log[..i] == s.log;
        assert s.Done(y);
      }
    }
  }

  ghost predicate CommitPre(s: RState, T: Tables, x: InstId, busy: set<InstId>) {
    && Base(s, T) && Untallied(s, busy)
    && x in s.space && s.space[x].cmds != [] && x !in busy
    && Tallied(s, busy + {x})
  }

  ghost predicate CommitPost(t: RState, T: Tables, busy: set<InstId>) {
    Base(t, T) && Untallied(t, busy) && Tallied(t, busy)
  }

  lemma CommitKeeps(s: RState, T: Tables, x: InstId, busy: set<InstId>)
    requires WF(s) && CommitPre(s, T, x, busy)
    ensures CommitPost(Commit(s, x), T, busy)
    decreases |Pending(s)|, 0
  {
    RefreshStep(s, T, x, busy);
    hide CommitPost, CommitPre, CanCommit, WF;
    if CanCommit(s, x) {
      var s1 := Refresh(s, x);
      DecideStep(s1, T, x, busy);
      WakeKeeps(Decide(s1, x), T, x, 0, busy);
    }
  }

  lemma RefreshStep(s: RState, T: Tables, x: InstId, busy: set<InstId>)
    requires WF(s) && CommitPre(s, T, x, busy)
    ensures x in s.space && WF(Refresh(s, x)) && CommitPost(Refresh(s, x), T, busy)
    ensures x in Refresh(s, x).space && Refresh(s, x).space[x].cmds != []
    ensures Pending(Refresh(s, x)) == Pending(s)
    ensures forall y <- s.space :: CanCommit(Refresh(s, x), y) == CanCommit(s, y)
  {
    RefreshBase(s, T, x);
    RefreshFrame(s, x);
    hide Base, CommitFrame, CanCommit;
    RefreshSame(s, x);
    RefreshTallies(s, x, busy);
    hide Untallied, Tallied, WF;
  }

  lemma RefreshTallies(s: RState, x: InstId, busy: set<InstId>)
    requires WF(s) && x in s.space && WF(Refresh(s, x)) && x !in busy && s.space[x].cmds != []
    requires Untallied(s, busy) && Tallied(s, busy + {x})
    ensures Untallied(Refresh(s, x), busy) && Tallied(Refresh(s, x), busy)
  {
    hide Tally, WFRow, WFInstance;
  }

  lemma RefreshSame(s: RState, x: InstId)
    requires WF(s) && x in s.space && WF(Refresh(s, x))
    ensures forall y <- s.space :: CanCommit(Refresh(s, x), y) == CanCommit(s, y)
  {
    hide Tally;
  }

  lemma DecideStep(s: RState, T: Tables, x: InstId, busy: set<InstId>)
    requires WF(s) && CommitPost(s, T, busy) && x in s.space && s.space[x].cmds != [] && CanCommit(s, x)
    ensures WF(Decide(s, x)) && CommitPost(Decide(s, x), T, busy)
    ensures Decide(s, x).Done(x) && |Pending(Decide(s, x))| < |Pending(s)|
  {
    hide Base, Untallied, Tallied, WF, CommitFrame, Advance;
    DecideBase(s, T, x);
    DecideFrame(s, x);
    DecideTallies(s, x, busy);
    assert x in Pending(s);
  }

  lemma DecideTallies(s: RState, x: InstId, busy: set<InstId>)
    requires WF(s) && x in s.space && WF(Decide(s, x)) && Untallied(s, busy) && Tallied(s, busy)
    ensures Untallied(Decide(s, x), busy) && Tallied(Decide(s, x), busy)
  {
    hide Advance, Tally, WFInstance, WFRow;
  }

  lemma WakeKeeps(s: RState, T: Tables, x: InstId, p: nat, busy: set<InstId>)
    requires WF(s) && CommitPost(s, T, busy) && x in s.space && p <= s.n
    ensures CommitPost(Wake(s, x, p), T, busy)
    decreases |Pending(s)|, s.n - p + 1
  {
    hide CommitPost, CommitPre, IsHit, Commit, CommitFrame, SameBody, Pending, FirstHit;
    if p < s.n {
      hide WF;
      match FirstHit(s, x, p, s.space[x].deps[p] + 1)
      case None => WakeKeeps(s, T, x, p + 1, busy);
      case Some(j) =>
        var z := InstId(p, j);
        HitPre(s, T, z, x, busy);
        CommitKeeps(s, T, z, busy);
        var s1 := Commit(s, z);
        SubsetSmaller(Pending(s1), Pending(s));
        FrameBody(s, s1, x);
        WakeKeeps(s1, T, x, p + 1, busy);
    }
  }

  lemma HitPre(s: RState, T: Tables, z: InstId, x: InstId, busy: set<InstId>)
    requires WF(s) && CommitPost(s, T, busy) && x.rep < s.n && IsHit(s, z, x)
    ensures z in s.space && CommitPre(s, T, z, busy)
  {
    hide Base, Tally;
  }

  // ---- No lost wake-up ----

  lemma CommitDone(s: RState, x: InstId)
    requires WF(s) && x in s.space
    ensures Commit(s, x).Done(x) <==> s.Done(x) || CanCommit(s, x)
  {
    RefreshFrame(s, x);
    var s1 := Refresh(s, x);
    assert s1.Done(x) <==> s.Done(x);
    hide WF, CanCommit, Wake, Refresh, WFInstance;
    if CanCommit(s, x) {
      DecideFrame(s1, x);
      var s2 := Decide(s1, x);
      assert s2.Done(x) && WF(s2) by { hide Advance; }
      hide Decide;
      FrameBody(s2, Wake(s2, x, 0), x);
    }
  }

  // A call of Commit leaves its instance committed exactly if it was or passes the commit test.
  lemma CommitExactly(s: RState, x: InstId)
    requires WF(s) && x in s.space
    ensures var e := s.space[x];
            Commit(s, x).Done(x) <==>
              e.status == Committed
              || (&& (forall i :: 0 <= i < x.rep ==> e.reach[i])
                  && |set i | 0 <= i < s.n && e.reach[i]| > s.n / 2
                  && forall q :: 0 <= q < s.n ==> e.deps[q] <= s.upTo[q])
  {
    CommitDone(s, x);
    TestIsReady(s, x);
    hide Commit, CanCommit, WFRow, WFMsg;
  }

  // Instances of rows p and above that name x as their last dependency in x's row.
  ghost function Candidates(s: RState, x: InstId, p: nat): set<InstId>
    requires WF(s) && x.rep < s.n
  {
    set y | y in s.space && y.rep >= p && s.space[y].deps[x.rep] == x.inst
  }

  lemma CommitLive(s: RState, T: Tables, x: InstId, busy: set<InstId>, P: set<InstId>)
    requires WF(s) && CommitPre(s, T, x, busy) && busy <= P && Live(s, P + {x})
    ensures Live(Commit(s, x), P)
    decreases |Pending(s)|, 0
  {
    RefreshStep(s, T, x, busy);
    var s1 := Refresh(s, x);
    RefreshLive(s, x, P);
    hide CommitPost, CommitPre, CanCommit, WF, Live;
    if CanCommit(s, x) {
      DecideStep(s1, T, x, busy);
      PostIsBase(s1, T, busy);
      DecideLive(s1, T, x, P);
      WakeLive(Decide(s1, x), T, x, 0, busy, P);
    }
  }

  lemma PostIsBase(s: RState, T: Tables, busy: set<InstId>)
    requires CommitPost(s, T, busy)
    ensures Base(s, T)
  {
  }

  lemma RefreshLive(s: RState, x: InstId, P: set<InstId>)
    requires WF(s) && x in s.space && Live(s, P + {x})
    ensures WF(Refresh(s, x)) && Live(Refresh(s, x), P + {x})
    ensures !CanCommit(s, x) ==> Live(Refresh(s, x), P)
  {
    RefreshFrame(s, x);
    hide Tally;
    forall y | y in s.space ensures CanCommit(Refresh(s, x), y) == CanCommit(s, y) {
    }
  }

  lemma DecideLive(s: RState, T: Tables, x: InstId, P: set<InstId>)
    requires Base(s, T) && x in s.space && s.space[x].cmds != [] && CanCommit(s, x) && Live(s, P + {x})
    ensures WF(Decide(s, x)) && Live(Decide(s, x), P + Candidates(Decide(s, x), x, 0))
  {
    hide Base, CommitFrame, WF, Advance, Pending, CanCommit, HigherReached;
    ReadyIs(s, T, x);
    var t := Decide(s, x);
    DecideFrame(s, x);
    AdvanceByOne(s, T, x);
    NowCommitted(s, x);
    forall y | y in t.space && y !in P + Candidates(t, x, 0) && t.space[y].cmds != [] ensures !CanCommit(t, y) {
      if y != x { Unblocked(s, x, y); }
    }
  }

  lemma ReadyIs(s: RState, T: Tables, x: InstId)
    requires Base(s, T) && x in s.space && CanCommit(s, x)
    ensures WF(s) && s.space[x].status != Committed
  {
    hide InstOK, RowsOK, LogOK;
  }

  lemma NowCommitted(s: RState, x: InstId)
    requires WF(s) && x in s.space && WF(Decide(s, x))
    ensures !CanCommit(Decide(s, x), x)
  {
    hide Advance, WF;
  }

  // Committing x can only free instances whose last dependency in that row is x.
  lemma Unblocked(s: RState, x: InstId, y: InstId)
    requires WF(s) && x in s.space && y in s.space && x != y && WF(Decide(s, x))
    requires s.upTo[x.rep] == x.inst - 1 && Decide(s, x).upTo == s.upTo[x.rep := x.inst]
    requires !CanCommit(s, y) && s.space[y].deps[x.rep] != x.inst
    ensures !CanCommit(Decide(s, x), y)
  {
    var t := Decide(s, x);
    hide Advance, WFRow, Tally;
    assert t.space[y] == s.space[y];
    forall q | 0 <= q < s.n && s.space[y].deps[q] <= t.upTo[q] ensures s.space[y].deps[q] <= s.upTo[q] {
    }
  }

  lemma WakeLive(s: RState, T: Tables, x: InstId, p: nat, busy: set<InstId>, P: set<InstId>)
    requires WF(s) && CommitPost(s, T, busy) && s.Done(x) && p <= s.n && busy <= P
    requires x.rep < s.n && Live(s, P + Candidates(s, x, p))
    ensures Live(Wake(s, x, p), P)
    decreases |Pending(s)|, s.n - p + 1
  {
    hide CommitPost, CommitPre, IsHit, CanCommit, Live, Commit, CommitFrame, SameBody, Pending, FirstHit;
    if p == s.n {
      assert Candidates(s, x, p) == {};
      assert P + {} == P;
    } else {
      hide Candidates, WF;
      match FirstHit(s, x, p, s.space[x].deps[p] + 1)
      case None =>
        NoHitLive(s, T, x, p, busy, P);
        WakeLive(s, T, x, p + 1, busy, P);
      case Some(j) =>
        var z := InstId(p, j);
        HitPre(s, T, z, x, busy);
        HitLive(s, T, x, p, z, busy, P);
        CommitLive(s, T, z, busy, P + Candidates(s, x, p + 1));
        CommitKeeps(s, T, z, busy);
        var s1 := Commit(s, z);
        SubsetSmaller(Pending(s1), Pending(s));
        SameCandidates(s, s1, x, p + 1);
        FrameBody(s, s1, x);
        WakeLive(s1, T, x, p + 1, busy, P);
    }
  }

  lemma NoHitLive(s: RState, T: Tables, x: InstId, p: nat, busy: set<InstId>, P: set<InstId>)
    requires WF(s) && CommitPost(s, T, busy) && s.Done(x) && p < s.n && busy <= P
    requires x.rep < s.n && Live(s, P + Candidates(s, x, p))
    requires forall y: InstId :: y.rep == p && s.space[x].deps[p] + 1 <= y.inst <= s.crt[p] ==> !IsHit(s, y, x)
    ensures Live(s, P + Candidates(s, x, p + 1))
  {
    hide CommitPost, IsHit, CanCommit;
    forall y | y in s.space && y !in P + Candidates(s, x, p + 1) && s.space[y].cmds != []
      ensures !CanCommit(s, y)
    {
      if CanCommit(s, y) {
        ReadyIsHit(s, T, x, y, busy);
      }
    }
  }

  lemma HitLive(s: RState, T: Tables, x: InstId, p: nat, z: InstId, busy: set<InstId>, P: set<InstId>)
    requires WF(s) && CommitPost(s, T, busy) && s.Done(x) && p < s.n && busy <= P
    requires x.rep < s.n && Live(s, P + Candidates(s, x, p))
    requires z.rep == p && IsHit(s, z, x) && s.space[x].deps[p] < z.inst
    requires forall y: InstId :: y.rep == p && s.space[x].deps[p] + 1 <= y.inst < z.inst ==> !IsHit(s, y, x)
    ensures Live(s, P + Candidates(s, x, p + 1) + {z})
  {
    hide CommitPost, IsHit, CanCommit, WF;
    forall y | y in s.space && y !in P + Candidates(s, x, p + 1) + {z} && s.space[y].cmds != []
      ensures !CanCommit(s, y)
    {
      if CanCommit(s, y) && y in Candidates(s, x, p) { OneReadyPerRow(s, T, x, y, z, busy); }
    }
  }

  lemma OneReadyPerRow(s: RState, T: Tables, x: InstId, y: InstId, z: InstId, busy: set<InstId>)
    requires WF(s) && CommitPost(s, T, busy) && s.Done(x) && x.rep < s.n && z.rep < s.n
    requires IsHit(s, z, x)
    requires forall v: InstId :: v.rep == z.rep && s.space[x].deps[z.rep] + 1 <= v.inst < z.inst ==> !IsHit(s, v, x)
    requires y in s.space && y !in busy && s.space[y].cmds != [] && CanCommit(s, y)
    requires s.space[y].deps[x.rep] == x.inst && y.rep == z.rep
    ensures y == z
  {
    HitUncommitted(s, T, x, z, busy);
    PostIsBase(s, T, busy);
    ReadyIsHit(s, T, x, y, busy);
    ReadyIsNext(s, T, y);
    hide CommitPost, IsHit, CanCommit, WF, Base;
  }

  lemma HitUncommitted(s: RState, T: Tables, x: InstId, z: InstId, busy: set<InstId>)
    requires WF(s) && CommitPost(s, T, busy) && x.rep < s.n && IsHit(s, z, x)
    ensures z.inst > s.upTo[z.rep]
  {
    assert !s.Done(z);
  }

  lemma SameCandidates(s: RState, t: RState, x: InstId, p: nat)
    requires WF(s) && WF(t) && CommitFrame(s, t) && x.rep < s.n
    ensures Candidates(s, x, p) == Candidates(t, x, p)
  {
    forall y ensures y in Candidates(s, x, p) <==> y in Candidates(t, x, p) {
      if y in s.space { FrameBody(s, t, y); }
    }
  }

  // An instance that could commit is the next one of its row ...
  lemma ReadyIsNext(s: RState, T: Tables, y: InstId)
    requires Base(s, T) && y in s.space && s.space[y].cmds != [] && CanCommit(s, y)
    ensures y.inst == s.upTo[y.rep] + 1
  {
    hide LogOK, Tally;
    assert InstOK(s, T, y);
    assert ProposalOK(T.props[y], y, s.n);
    assert s.space[y].deps[y.rep] == y.inst - 1;
    assert !s.Done(y);
  }

  // ... and the scan that follows the commit of x sees it.
  lemma ReadyIsHit(s: RState, T: Tables, x: InstId, y: InstId, busy: set<InstId>)
    requires WF(s) && CommitPost(s, T, busy)
    requires y in s.space && y !in busy && s.space[y].cmds != [] && CanCommit(s, y)
    requires s.Done(x) && x.rep < s.n && s.space[y].deps[x.rep] == x.inst
    ensures IsHit(s, y, x) && s.space[x].deps[y.rep] < y.inst <= s.crt[y.rep]
  {
    assert InstOK(s, T, y);
    DoneDepsDone(s, x, y);
  }

  lemma DoneDepsDone(s: RState, x: InstId, y: InstId)
    requires WF(s) && LogOK(s) && s.Done(x) && y.rep < s.n
    ensures y.inst <= s.space[x].deps[y.rep] ==> s.Done(y)
  {
    var i :| 0 <= i < |s.log| && s.log[i] == x;
    if DependsOn(s.space[s.log[i]].deps, y) {
      assert y in s.log[..i];
    }
  }
}
