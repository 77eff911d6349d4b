/** Progress of PPaxos: deliveries end in a quiet state, where nothing waits and exactly the
    instances whose dependencies run into a cycle stay uncommitted. */
module PPaxosProgress {
  import opened PPaxos
  import opened PPaxosCounts
  import opened PPaxosGlobal
  import opened PPaxosHandler
  import opened PPaxosKnown
  import opened PPaxosLocal
  import PPaxosLone
  import opened PPaxosTheorems
  import opened Store

  // Everything that was sent has been delivered.
  ghost predicate Quiet(g: Cluster) {
    forall r, p :: 0 <= r < |g.reps| && p in g.reps[r].out ==> (p.to, r, p.msg.Id()) in g.delivered
  }

  // ---- When a replica commits ----

  // The replicas that r has heard of about x: itself, the proposer, and those whose vote arrived.
  ghost function Heard(g: Cluster, r: nat, x: InstId): set<nat> {
    set i: nat | i < |g.reps| && (i == r || i == x.rep || (r, i, x) in g.delivered)
  }

  // A replica commits an instance it has exactly when it heard of every higher-priority replica and of a
  // majority, and has committed all dependencies.
  lemma CommitsByVotes(n: nat, g: Cluster, r: nat, x: InstId)
    requires n >= 2 && Reachable(n, g) && r < |g.reps| && g.reps[r].Has(x)
    ensures var s := g.reps[r];
            && |s.space[x].deps| == |s.upTo| == |g.reps| && x.rep < |g.reps|
            && (s.Done(x) <==>
                  && (forall i: nat :: i < x.rep ==> i in Heard(g, r, x))
                  && |Heard(g, r, x)| > |g.reps| / 2
                  && forall q :: 0 <= q < |g.reps| ==> s.space[x].deps[q] <= s.upTo[q])
  {
    hide Reachable, WF;
    CommittedExactly(n, g, r, x);
    var reach := g.reps[r].space[x].reach;
    forall i: nat ensures i < |reach| && reach[i] <==> i == r || i == x.rep || (r, i, x) in g.delivered {
      CountsExactly(n, g, r, x, i);
    }
    ReachedSet(g, r, x, reach);
    forall i: nat | i < x.rep ensures reach[i] <==> i in Heard(g, r, x) { assert i < |reach|; }
  }

  lemma ReachedSet(g: Cluster, r: nat, x: InstId, reach: seq<bool>)
    requires |reach| == |g.reps|
    requires forall i: nat :: i < |reach| && reach[i] <==> i == r || i == x.rep || (r, i, x) in g.delivered
    ensures |set i | 0 <= i < |g.reps| && reach[i]| == |Heard(g, r, x)|
  {
    var reached := set i | 0 <= i < |g.reps| && reach[i];
    var same: set<nat> := set i: nat | i < |g.reps| && reach[i];
    assert same == Heard(g, r, x);
    assert reached == same;
  }

  // ---- A quiet cluster has answered everything ----

  lemma {:induction false} SentSome(out: seq<Packet>, to: nat, x: InstId)
    requires Sent(out, to, x) > 0
    ensures exists p :: p in out && p.to == to && p.msg.Id() == x
    decreases |out|
  {
    var last := out[|out| - 1];
    if last.to == to && last.msg.Id() == x {
      assert last in out;
    } else {
      SentSome(out[..|out| - 1], to, x);
    }
  }

  // A packet about an instance that r has went to every other replica, and arrived.
  lemma Arrived(g: Cluster, r: nat, to: nat, x: InstId)
    requires GInv(g) && Quiet(g) && r < |g.reps| && to < |g.reps| && to != r && g.reps[r].Has(x)
    ensures (to, r, x) in g.delivered
  {
    GOpen(g);
    hide GInv, VotesOK, Received, Core, OwnOK, ParkedOK, Shape, WF, Authored;
    var s := g.reps[r];
    assert Inv(s, g.tables, {});
    assert Sent(s.out, to, x) == 1;
    hide Sent;
    SentSome(s.out, to, x);
  }

  // Every proposed instance has its command at its proposer, in a row of the cluster.
  lemma Proposed(g: Cluster, x: InstId)
    requires GInv(g) && x in g.tables.props
    ensures x.rep < |g.reps| && (x.rep < |g.reps| ==> g.reps[x.rep].Has(x))
  {
    GOpen(g);
    assert Inv(g.reps[0], g.tables, {});
    hide GInv, VotesOK, Received, ParkedOK, Outbox, Untallied, Tallied, Live, InstOK, RowsOK, LogOK, Shape, WF;
    assert ProposalOK(g.tables.props[x], x, |g.reps|);
    assert Inv(g.reps[x.rep], g.tables, {});
  }

  // In every reachable state a parked proposal waits for a proposed instance of a higher-numbered
  // replica than its own, whose command has not arrived.
  lemma WaitsUpward(n: nat, g: Cluster, r: nat, k: InstId, i: int)
    requires n >= 2 && Reachable(n, g) && r < |g.reps| && Slot(g.reps[r].waitlist, k, i)
    ensures k in g.tables.props && g.reps[r].waitlist[k][i].rep < k.rep < |g.reps| && k.rep != r && !g.reps[r].Has(k)
  {
    ReachableInv(n, g);
    ReachableKnows(n, g);
    assert Knows(g.tables.props.Keys, g.reps[r]);
    Proposed(g, k);
    GOpen(g);
    assert Inv(g.reps[r], g.tables, {});
    hide GInv, VotesOK, Received, Core, OwnOK, Outbox, Shape, WF, UniqueSlots, RowsClosed;
  }

  lemma {:induction false} NothingParked(n: nat, g: Cluster, r: nat, k: InstId, i: int)
    requires n >= 2 && Reachable(n, g) && Quiet(g) && r < |g.reps|
    ensures !Slot(g.reps[r].waitlist, k, i)
    decreases |g.reps| - k.rep
  {
    if Slot(g.reps[r].waitlist, k, i) {
      WaitsUpward(n, g, r, k, i);
      ReachableInv(n, g);
      Proposed(g, k);
      hide Reachable, Quiet, GInv;
      Arrived(g, k.rep, r, k);
      var k', i' := ParkedElsewhere(g, r, k);
      WaitsUpward(n, g, r, k', i');
      NothingParked(n, g, r, k', i');
    }
  }

  // What arrived and has no command is parked.
  lemma ParkedElsewhere(g: Cluster, r: nat, k: InstId) returns (k': InstId, i': int)
    requires GInv(g) && r < |g.reps| && k.rep != r && (r, k.rep, k) in g.delivered && !g.reps[r].Has(k)
    ensures Slot(g.reps[r].waitlist, k', i') && g.reps[r].waitlist[k'][i'].Id() == k
  {
    GOpen(g);
    hide GInv;
    assert IsParked(g.reps[r].waitlist, k);
    k', i' :| Slot(g.reps[r].waitlist, k', i') && g.reps[r].waitlist[k'][i'].Id() == k;
  }

  lemma AllHave(n: nat, g: Cluster, r: nat, x: InstId)
    requires n >= 2 && Reachable(n, g) && Quiet(g) && r < |g.reps| && x in g.tables.props
    ensures g.reps[r].Has(x)
  {
    ReachableInv(n, g);
    Proposed(g, x);
    hide GInv, Reachable, Quiet;
    if r != x.rep && !g.reps[r].Has(x) {
      Arrived(g, x.rep, r, x);
      var k, i := ParkedElsewhere(g, r, x);
      NothingParked(n, g, r, k, i);
    }
  }

  // Every replica counts every other one for every instance.
  lemma AllCount(n: nat, g: Cluster, r: nat, x: InstId, i: nat)
    requires n >= 2 && Reachable(n, g) && Quiet(g) && r < |g.reps| && i < |g.reps| && x in g.tables.props
    ensures Counts(g.reps[r], x, i)
  {
    AllHave(n, g, r, x);
    AllHave(n, g, i, x);
    ReachableInv(n, g);
    ReachableCounts(n, g);
    if i != r && i != x.rep { Arrived(g, i, r, x); }
    hide GInv, Reachable, Quiet, Shape;
    assert CountsBoth(g.reps[r], x);
  }

  // ---- The dependencies an instance ends with ----

  // x, with all votes in, depends on y.
  ghost predicate Needs(g: Cluster, x: InstId, y: InstId) {
    exists deps :: FinalDeps(g.tables, |g.reps|, x, deps) && DependsOn(deps, y)
  }

  ghost predicate NeedsPath(g: Cluster, p: seq<InstId>) {
    |p| > 0 && forall k :: 0 <= k < |p| - 1 ==> Needs(g, p[k], p[k + 1])
  }

  // The dependencies of x, followed far enough, come back to an instance.
  ghost predicate ReachesCycle(g: Cluster, x: InstId) {
    exists p: seq<InstId>, i: nat, j: nat :: i < j < |p| && NeedsPath(g, p) && p[0] == x && p[i] == p[j]
  }

  lemma CommittedNeeds(g: Cluster, r: nat, x: InstId, y: InstId)
    requires GInv(g) && r < |g.reps| && g.reps[r].Done(x) && Needs(g, x, y)
    ensures Edge(g, x, y) && g.reps[r].Done(y)
  {
    var deps :| FinalDeps(g.tables, |g.reps|, x, deps) && DependsOn(deps, y);
    CommittedIsFinal(g, r, x);
    LogOf(g, r);
    hide GInv, FinalDeps;
    FinalUnique(g.tables, |g.reps|, x, deps, g.reps[r].space[x].deps);
    hide DependsOn;
    DependenciesFirst(g.reps[r], x, y);
  }

  // Behind a committed instance everything is committed.
  lemma {:induction false} CommittedPath(g: Cluster, r: nat, p: seq<InstId>, k: nat)
    requires GInv(g) && r < |g.reps| && NeedsPath(g, p) && g.reps[r].Done(p[0]) && k < |p|
    ensures g.reps[r].Done(p[k]) && (k + 1 < |p| ==> Edge(g, p[k], p[k + 1]))
  {
    assert k + 1 < |p| ==> Needs(g, p[k], p[k + 1]);
    hide GInv, Needs, Edge;
    if k > 0 {
      CommittedPath(g, r, p, k - 1);
      assert Needs(g, p[k - 1], p[k - 1 + 1]);
      CommittedNeeds(g, r, p[k - 1], p[k]);
    }
    if k + 1 < |p| { CommittedNeeds(g, r, p[k], p[k + 1]); }
  }

  lemma SegmentPath(g: Cluster, r: nat, p: seq<InstId>, i: nat, j: nat)
    requires GInv(g) && r < |g.reps| && NeedsPath(g, p) && g.reps[r].Done(p[0]) && i < j < |p|
    ensures Path(g, p[i..j + 1])
  {
    hide GInv, Needs, Edge;
    var q := p[i..j + 1];
    forall k | 0 <= k < |q| - 1 ensures Edge(g, q[k], q[k + 1]) {
      CommittedPath(g, r, p, i + k);
    }
  }

  // In any reachable state an instance whose dependencies run into a cycle is not committed anywhere.
  lemma CycleBlocks(n: nat, g: Cluster, r: nat, x: InstId)
    requires Reachable(n, g) && r < |g.reps| && ReachesCycle(g, x)
    ensures !g.reps[r].Done(x)
  {
    hide GInv, Reachable, NeedsPath, Path;
    if g.reps[r].Done(x) {
      PPaxosLone.CommitNeedsTwo(n, g, r, x);
      ReachableInv(n, g);
      var p, i: nat, j: nat :| i < j < |p| && NeedsPath(g, p) && p[0] == x && p[i] == p[j];
      SegmentPath(g, r, p, i, j);
      Acyclic(n, g, p[i..j + 1]);
    }
  }

  // ---- In a quiet cluster nothing else blocks ----

  lemma TallyAll(reach: seq<bool>)
    requires forall i :: 0 <= i < |reach| ==> reach[i]
    ensures Tally(reach) == |reach|
    decreases |reach|
  {
    if reach != [] { TallyAll(reach[..|reach| - 1]); }
  }

  lemma CountsAll(s: RState, x: InstId)
    requires WF(s) && x in s.space && x.rep < s.n && forall i: nat :: i < s.n ==> Counts(s, x, i)
    ensures HigherReached(s.space[x], x.rep) && Tally(s.space[x].reach) == s.n
  {
    var reach := s.space[x].reach;
    assert |reach| == s.n;
    hide WF, Tally;
    forall i | 0 <= i < |reach| ensures reach[i] { assert Counts(s, x, i); }
    TallyAll(reach);
  }

  lemma FullyCounted(n: nat, g: Cluster, r: nat, x: InstId)
    requires n >= 2 && Reachable(n, g) && Quiet(g) && r < |g.reps| && x in g.tables.props
    ensures WF(g.reps[r]) && g.reps[r].Has(x) && x.rep < |g.reps| == g.reps[r].n
    ensures HigherReached(g.reps[r].space[x], x.rep) && Tally(g.reps[r].space[x].reach) == g.reps[r].n
    ensures FinalDeps(g.tables, |g.reps|, x, g.reps[r].space[x].deps)
  {
    hide Reachable, Quiet, GInv, FinalDeps, Tally, HigherReached, Counts, Shape, VotesOK, Received, Inv, WF;
    ReachableInv(n, g);
    AllHave(n, g, r, x);
    Proposed(g, x);
    GOpen(g);
    forall i: nat | i < |g.reps| ensures Counts(g.reps[r], x, i) {
      AllCount(n, g, r, x, i);
    }
    CountsAll(g.reps[r], x);
    FinalOf(g, r, x);
  }

  lemma FinalOf(g: Cluster, r: nat, x: InstId)
    requires GInv(g) && r < |g.reps| && g.reps[r].Has(x) && forall i: nat :: i < |g.reps| ==> Counts(g.reps[r], x, i)
    ensures FinalDeps(g.tables, |g.reps|, x, g.reps[r].space[x].deps)
  {
    hide Inv, Received, Base, FinalDeps, WF, TablesOK;
    GOpen(g);
    var s := g.reps[r];
    InvBase(s, g.tables);
    OwnVote(g, r, x);
    hide VotesOK, Shape;
    CountedIsFinal(s, g.tables, x);
  }

  lemma CountedIsFinal(s: RState, T: Tables, x: InstId)
    requires Base(s, T) && s.Has(x) && (forall i: nat :: i < s.n ==> Counts(s, x, i))
    requires s.id < x.rep ==> (s.id, x) in T.votes && s.id < |s.space[x].deps| && T.votes[(s.id, x)] == s.space[x].deps[s.id]
    ensures FinalDeps(T, s.n, x, s.space[x].deps)
  {
    hide RowsOK, LogOK, Tally, WFRow;
    assert InstOK(s, T, x);
    forall i: nat | i < x.rep && i < s.n ensures (i, x) in T.votes && s.space[x].deps[i] == T.votes[(i, x)] {
      assert Counts(s, x, i);
    }
  }

  // What is missing behind an uncommitted instance.
  lemma WaitsFor(n: nat, g: Cluster, r: nat, x: InstId) returns (y: InstId)
    requires n >= 2 && Reachable(n, g) && Quiet(g) && r < |g.reps| && x in g.tables.props && !g.reps[r].Done(x)
    ensures y in g.tables.props && Needs(g, x, y) && !g.reps[r].Done(y)
  {
    hide Reachable, Quiet, GInv, FinalDeps, AllKnow;
    FullyCounted(n, g, r, x);
    NoLostWakeup(n, g);
    ReachableInv(n, g);
    ReachableKnows(n, g);
    var s := g.reps[r];
    ReadyNot(g, r, x);
    y := MissingDep(g, r, x);
    PendingKnown(g, r, x, y);
  }

  lemma ReadyNot(g: Cluster, r: nat, x: InstId)
    requires AllAwake(g) && r < |g.reps| && WF(g.reps[r]) && g.reps[r].Has(x) && !g.reps[r].Done(x) && x.rep < g.reps[r].n && g.reps[r].n > 0
    requires HigherReached(g.reps[r].space[x], x.rep) && Tally(g.reps[r].space[x].reach) == g.reps[r].n
    ensures !DepsDone(g.reps[r], g.reps[r].space[x])
  {
    hide Tally, WFRow, WFMsg, Ready, DepsDone;
    OnlyDeps(g.reps[r], x);
  }

  lemma OnlyDeps(s: RState, x: InstId)
    requires WF(s) && x in s.space && s.n > 0 && HigherReached(s.space[x], x.rep) && Tally(s.space[x].reach) == s.n
    ensures Ready(s, x) <==> DepsDone(s, s.space[x])
  {
    TallyIs(s.space[x].reach);
    hide Tally, WFRow, WFMsg;
  }

  lemma MissingDep(g: Cluster, r: nat, x: InstId) returns (y: InstId)
    requires GInv(g) && r < |g.reps| && WF(g.reps[r]) && g.reps[r].Has(x) && !DepsDone(g.reps[r], g.reps[r].space[x])
    ensures DependsOn(g.reps[r].space[x].deps, y) && !g.reps[r].Done(y)
  {
    GOpen(g);
    var s := g.reps[r];
    InvBase(s, g.tables);
    hide GInv, Inv, VotesOK, Received, Shape, InstOK, LogOK, TablesOK, WFRow, WFMsg;
    var q :| 0 <= q < s.n && s.space[x].deps[q] > s.upTo[q];
    y := InstId(q, s.upTo[q] + 1);
  }

  lemma PendingKnown(g: Cluster, r: nat, x: InstId, y: InstId)
    requires AllKnow(g) && r < |g.reps| && g.reps[r].Has(x) && DependsOn(g.reps[r].space[x].deps, y)
    ensures y in g.tables.props
  {
    var P := g.tables.props.Keys;
    assert Knows(P, g.reps[r]);
    hide WF, WaitsKnown;
    ColumnKnown(P, g.reps[r].space[x].deps, y.rep);
  }

  // A chain of uncommitted instances of any length.
  lemma {:induction false} Chain(n: nat, g: Cluster, r: nat, x: InstId, len: nat) returns (p: seq<InstId>)
    requires n >= 2 && Reachable(n, g) && Quiet(g) && r < |g.reps| && x in g.tables.props && !g.reps[r].Done(x)
    ensures |p| == len + 1 && p[0] == x && NeedsPath(g, p) && forall y <- p :: y in g.tables.props
    decreases len
  {
    hide Reachable, Quiet, Needs;
    if len == 0 {
      p := [x];
    } else {
      var y := WaitsFor(n, g, r, x);
      var q := Chain(n, g, r, y, len - 1);
      p := [x] + q;
    }
  }

  lemma Repeats(p: seq<InstId>, P: set<InstId>) returns (i: nat, j: nat)
    requires |p| > |P| && forall y <- p :: y in P
    ensures i < j < |p| && p[i] == p[j]
  {
    if NoRepeats(p) {
      DistinctSize(p);
      var S := set y | y in p;
      SubsetSmaller(S, P);
      assert false;
    }
    i, j :| 0 <= i < j < |p| && p[i] == p[j];
  }

  // Exactly the instances whose dependencies run into a cycle are left uncommitted.
  lemma UncommittedExactly(n: nat, g: Cluster, r: nat, x: InstId)
    requires n >= 2 && Reachable(n, g) && Quiet(g) && r < |g.reps| && x in g.tables.props
    ensures !g.reps[r].Done(x) <==> ReachesCycle(g, x)
  {
    hide Reachable, Quiet, NeedsPath;
    if ReachesCycle(g, x) {
      CycleBlocks(n, g, r, x);
    } else if !g.reps[r].Done(x) {
      var p := Chain(n, g, r, x, |g.tables.props.Keys|);
      var i, j := Repeats(p, g.tables.props.Keys);
    }
  }

  // ---- Deliveries end ----

  lemma {:induction false} RunConcat(g: Cluster, es: seq<Event>, h: Cluster, fs: seq<Event>, k: Cluster)
    requires Run(g, es, h) && Run(h, fs, k)
    ensures Run(g, es + fs, k)
    decreases |es|
  {
    hide Next, Enabled;
    if es == [] {
      assert es + fs == fs;
    } else {
      RunConcat(Next(g, es[0]), es[1..], h, fs, k);
      assert (es + fs)[0] == es[0] && (es + fs)[1..] == es[1..] + fs;
    }
  }

  lemma ReachableRun(n: nat, g: Cluster, es: seq<Event>, h: Cluster)
    requires Reachable(n, g) && Run(g, es, h)
    ensures Reachable(n, h)
  {
    hide Run;
    var fs :| Run(InitCluster(n), fs, g);
    RunConcat(InitCluster(n), fs, g, es, h);
  }

  // What may still be delivered.
  ghost function Ahead(g: Cluster): set<(nat, nat, InstId)> {
    (set to: nat, i: nat, x | to < |g.reps| && i < |g.reps| && x in g.tables.props :: (to, i, x)) - g.delivered
  }

  lemma DeliverGrows(g: Cluster, to: nat, m: Msg)
    requires GInv(g) && Enabled(g, Deliver(to, m))
    ensures var h := Next(g, Deliver(to, m));
            && TablesGrow(g.tables, h.tables) && h.tables.props == g.tables.props && |h.reps| == |g.reps|
            && h.delivered == g.delivered + {(to, m.sender, m.Id())}
  {
    hide Inv, Step, VotesOK, Received, Handle, VotesOf, IsParked, WF, TablesGrow;
    GOpen(g);
    DeliverLocal(g, to, m);
    var t, h := Handle(g.reps[to], m), Next(g, Deliver(to, m));
    StepFacts(g.reps[to], t, if m.cmds == [] then {} else {m.Id()});
    InvBase(t, g.tables);
    VotesOfAt(t);
    VotesGrowOK(g, t, to, h.tables);
  }

  lemma NeedsStays(g: Cluster, h: Cluster, x: InstId, y: InstId)
    requires Needs(g, x, y) && TablesGrow(g.tables, h.tables) && |h.reps| == |g.reps|
    ensures Needs(h, x, y)
  {
    var deps :| FinalDeps(g.tables, |g.reps|, x, deps) && DependsOn(deps, y);
    assert FinalDeps(h.tables, |h.reps|, x, deps);
  }

  // A packet that was not delivered can be.
  lemma Deliverable(g: Cluster, r: nat, p: Packet)
    requires GInv(g) && r < |g.reps| && p in g.reps[r].out && (p.to, r, p.msg.Id()) !in g.delivered
    ensures Enabled(g, Deliver(p.to, p.msg)) && p.msg.sender == r && (p.to, r, p.msg.Id()) in Ahead(g)
  {
    GOpen(g);
    assert Inv(g.reps[r], g.tables, {});
    hide Core, OwnOK, ParkedOK, VotesOK, Received, Sent, WF;
    assert Authored(g.reps[r], g.tables, p.msg);
  }

  lemma AheadFalls(g: Cluster, to: nat, m: Msg)
    requires GInv(g) && Enabled(g, Deliver(to, m)) && (to, m.sender, m.Id()) in Ahead(g)
    ensures |Ahead(Next(g, Deliver(to, m)))| < |Ahead(g)|
  {
    hide GInv, Enabled, Next, TablesGrow, Ahead;
    DeliverGrows(g, to, m);
    AheadIs(g, Next(g, Deliver(to, m)), (to, m.sender, m.Id()));
    FewerLeft(Ahead(g), (to, m.sender, m.Id()));
  }

  lemma AheadIs(g: Cluster, h: Cluster, t: (nat, nat, InstId))
    requires h.tables.props == g.tables.props && |h.reps| == |g.reps| && h.delivered == g.delivered + {t}
    ensures Ahead(h) == Ahead(g) - {t}
  {
    var all := set to: nat, i: nat, x | to < |g.reps| && i < |g.reps| && x in g.tables.props :: (to, i, x);
    assert Ahead(g) == all - g.delivered && Ahead(h) == all - h.delivered;
  }

  lemma FewerLeft<T>(s: set<T>, x: T)
    requires x in s
    ensures |s - {x}| < |s|
  {
  }

  lemma SameTables(T: Tables)
    ensures TablesGrow(T, T)
  {
  }

  lemma TablesThen(T: Tables, U: Tables, V: Tables)
    requires TablesGrow(T, U) && TablesGrow(U, V)
    ensures TablesGrow(T, V)
  {
  }

  // From every reachable state deliveries alone lead to a quiet one.
  lemma {:induction false} Quiesces(n: nat, g: Cluster) returns (es: seq<Event>, h: Cluster)
    requires n >= 2 && Reachable(n, g)
    ensures Run(g, es, h) && Quiet(h) && h.tables.props == g.tables.props && |h.reps| == |g.reps|
    ensures TablesGrow(g.tables, h.tables) && forall e <- es :: e.Deliver?
    ensures forall x, y :: Needs(g, x, y) ==> Needs(h, x, y)
    decreases |Ahead(g)|
  {
    hide Reachable, GInv, Enabled, Next, Ahead, Needs, TablesGrow;
    if Quiet(g) {
      es, h := [], g;
      SameTables(g.tables);
    } else {
      ReachableInv(n, g);
      var r: nat, p :| r < |g.reps| && p in g.reps[r].out && (p.to, r, p.msg.Id()) !in g.delivered;
      Deliverable(g, r, p);
      var e := Deliver(p.to, p.msg);
      AheadFalls(g, p.to, p.msg);
      DeliverGrows(g, p.to, p.msg);
      OneStep(g, e);
      ReachableRun(n, g, [e], Next(g, e));
      var fs;
      fs, h := Quiesces(n, Next(g, e));
      TablesThen(g.tables, Next(g, e).tables, h.tables);
      es := [e] + fs;
      assert es[0] == e && es[1..] == fs;
      forall x, y | Needs(g, x, y) ensures Needs(h, x, y) { NeedsStays(g, Next(g, e), x, y); }
    }
  }

  // So every run can be completed, and then exactly the instances with a cycle ahead are uncommitted.
  lemma Completes(n: nat, g: Cluster) returns (es: seq<Event>, h: Cluster)
    requires n >= 2 && Reachable(n, g)
    ensures Run(g, es, h) && (forall e <- es :: e.Deliver?) && h.tables.props == g.tables.props && |h.reps| == |g.reps|
    ensures TablesGrow(g.tables, h.tables)
    ensures forall r: nat, x :: r < |g.reps| && x in g.tables.props ==> (h.reps[r].Done(x) <==> !ReachesCycle(h, x))
  {
    hide Run, Quiet, ReachesCycle, Reachable, TablesGrow;
    es, h := Quiesces(n, g);
    ReachableRun(n, g, es, h);
    forall r: nat, x | r < |g.reps| && x in g.tables.props ensures h.reps[r].Done(x) <==> !ReachesCycle(h, x) {
      UncommittedExactly(n, h, r, x);
    }
  }
}
