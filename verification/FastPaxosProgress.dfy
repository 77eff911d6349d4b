/** Progress of Fast Paxos with one fixed fast quorum: every replica executes as far as it can, and
    once the votes sent have arrived, exactly the instances in which every member proposed are executed. */
module FastPaxosProgress {
  import opened CommandIds
  import opened FastPaxos
  import opened FastPaxosSafety

  // ---- One call ----

  predicate Counted(s: RState, i: nat, b: nat, k: nat) { k in VotesAt(s, i, b) }

  // Votes counted and instances committed stay so.
  ghost predicate Keeps(s: RState, w: RState) {
    && (forall i: nat, b: nat, k: nat :: Counted(s, i, b, k) ==> Counted(w, i, b, k))
    && forall i: nat :: At(s, i).committed ==> At(w, i).committed
  }

  // Execution stops at the first instance that is not committed.
  predicate Executed(s: RState) {
    !At(s, s.execed).committed && forall i: nat :: i < s.execed ==> At(s, i).committed
  }

  // A new ballot of an instance is announced, and a member counts what it announces.
  ghost predicate Announces(Q: set<nat>, id: nat, s: RState, w: RState, out: seq<M2B>) {
    && (forall i: nat :: At(w, i).ballot == At(s, i).ballot || exists v <- out :: IsVote(v, id, i, At(w, i).ballot))
    && forall v <- out :: v.rep == id && (id in Q ==> Counted(w, v.inst, v.ballot, id))
  }

  predicate IsVote(v: M2B, k: nat, i: nat, b: nat) { v.rep == k && v.inst == i && v.ballot == b }

  lemma {:induction false} RunExecutes(s: RState)
    requires forall i: nat :: i < s.execed ==> At(s, i).committed
    ensures OnlyExecutes(s, RunCommitted(s)) && Executed(RunCommitted(s))
    decreases |Ahead(s)|
  {
    if At(s, s.execed).committed {
      var t := Execute(s, At(s, s.execed).value).(execed := s.execed + 1);
      assert Ahead(t) == Ahead(s) - {s.execed};
      assert forall i: nat :: At(t, i) == At(s, i);
      hide Ahead, At;
      RunExecutes(t);
    }
  }

  lemma SameInstances(s: RState, t: RState)
    requires t.instances == s.instances
    ensures Keeps(s, t) && Keeps(t, s) && forall i: nat :: At(t, i) == At(s, i)
  {
  }

  lemma CommitMoves(s: RState, i: nat, v: CommandId)
    requires forall j: nat :: j < s.execed ==> At(s, j).committed
    ensures var w := Commit(s, i, v); Keeps(s, w) && Executed(w) && forall j: nat :: At(w, j).ballot == At(s, j).ballot
  {
    var t := Put(s, i, At(s, i).(value := v, committed := true)).(commits := s.commits + {(i, v)});
    assert forall j: nat :: j != i ==> At(t, j) == At(s, j);
    assert Keeps(s, t);
    assert t.execed == s.execed;
    RunExecutes(t);
    SameInstances(t, RunCommitted(t));
    hide At, VotesAt, RunCommitted;
  }

  lemma AddMoves(Q: set<nat>, s: RState, m: M2B)
    ensures var t := AddVote(Q, s, m);
            && Keeps(s, t) && (m.rep in Q ==> Counted(t, m.inst, m.ballot, m.rep)) && t.execed == s.execed
            && forall j: nat :: At(t, j).ballot == At(s, j).ballot && At(t, j).committed == At(s, j).committed
  {
  }

  lemma RecoverMoves(s: RState, m: M2B)
    requires VotesAt(s, m.inst, m.ballot) != map[]
    ensures var u := Recover(s, m);
            && Keeps(s, u) && u.execed == s.execed && At(u, m.inst).ballot == m.ballot + 1
            && forall j: nat :: At(u, j).committed == At(s, j).committed && (j != m.inst ==> At(u, j).ballot == At(s, j).ballot)
  {
    hide MaxVote;
  }

  lemma {:induction false} HandleMoves(id: nat, Q: set<nat>, s: RState, m: M2B)
    requires Executed(s)
    ensures var (w, out) := Handle(id, Q, s, m);
            && Keeps(s, w) && Executed(w) && Announces(Q, id, s, w, out) && (m.rep in Q ==> Counted(w, m.inst, m.ballot, m.rep))
    decreases if Collides(Q, s, m) then 1 + |Later(s, m)| else 0
  {
    var t := AddVote(Q, s, m);
    var votes := VotesAt(t, m.inst, m.ballot);
    AddMoves(Q, s, m);
    assert Executed(t) by { hide AddVote; }
    if !Complete(Q, s, m) {
      hide AddVote, Executed;
    } else if Same(votes) {
      CommitMoves(t, m.inst, MaxVote(votes).cmdId);
      hide AddVote, Executed, Commit, MaxVote, Counted, At;
    } else if At(t, m.inst).ballot != m.ballot {
      hide AddVote, Executed;
    } else {
      var u := Recover(t, m);
      var m2 := VoteOf(u, id, m.inst);
      CollisionKnown(Q, s, m);
      assert Later(u, m2) == Later(s, m) - {m.ballot};
      RecoverMoves(t, m);
      assert Executed(u) by { hide AddVote, Recover, Handle; }
      HandleMoves(id, Q, u, m2);
      Chain(Q, id, s, t, u, m2, m, Handle(id, Q, u, m2).0, Handle(id, Q, u, m2).1);
    }
  }

  lemma Chain(Q: set<nat>, id: nat, s: RState, t: RState, u: RState, m2: M2B, m: M2B, w: RState, out: seq<M2B>)
    requires Keeps(s, t) && Keeps(t, u) && Keeps(u, w) && Announces(Q, id, u, w, out)
    requires forall j: nat :: j != m.inst ==> At(u, j).ballot == At(s, j).ballot
    requires IsVote(m2, id, m.inst, At(u, m.inst).ballot) && (id in Q ==> Counted(w, m2.inst, m2.ballot, id))
    requires m.rep in Q ==> Counted(t, m.inst, m.ballot, m.rep)
    ensures Keeps(s, w) && Announces(Q, id, s, w, [m2] + out) && (m.rep in Q ==> Counted(w, m.inst, m.ballot, m.rep))
  {
    hide Counted, At, IsVote;
    assert m2 in [m2] + out && forall v <- out :: v in [m2] + out;
    forall i: nat ensures At(w, i).ballot == At(s, i).ballot || exists v <- [m2] + out :: IsVote(v, id, i, At(w, i).ballot) {
      if At(w, i).ballot != At(u, i).ballot {
        var v :| v in out && IsVote(v, id, i, At(w, i).ballot);
      }
    }
    assert m2.rep == id by { IsRep(m2, id, m.inst, At(u, m.inst).ballot); }
  }

  lemma IsRep(v: M2B, k: nat, i: nat, b: nat)
    requires IsVote(v, k, i, b)
    ensures v.rep == k
  {
  }

  // A proposal votes for its instance, at the ballot the instance has.
  lemma ProposeMoves(id: nat, Q: set<nat>, s: RState, c: CommandId)
    requires Executed(s)
    ensures var (w, out) := Propose(id, Q, s, c);
            && Keeps(s, w) && Executed(w) && Announces(Q, id, s, w, out)
            && out != [] && IsVote(out[0], id, s.next, At(s, s.next).ballot) && (id in Q ==> Counted(w, s.next, At(s, s.next).ballot, id))
  {
    var t := Placed(s, c);
    var m := VoteOf(t, id, s.next);
    ProposeIs(id, Q, s, c);
    hide Executed, Handle, Propose, Keeps, Counted, Placed, VoteOf;
    var (w, out) := Handle(id, Q, t, m);
    PlaceMoves(s, c);
    HandleMoves(id, Q, t, m);
    VoteIs(t, id, s.next);
    hide At;
    ProposeSends(id, Q, s, c, t, m, w, out);
    KeepsTrans(s, t, w);
  }

  function Placed(s: RState, c: CommandId): RState {
    Put(s, s.next, At(s, s.next).(value := c)).(next := s.next + 1, proposed := s.proposed + [c])
  }

  lemma ProposeIs(id: nat, Q: set<nat>, s: RState, c: CommandId)
    ensures var (w, out) := Handle(id, Q, Placed(s, c), VoteOf(Placed(s, c), id, s.next));
            Propose(id, Q, s, c) == (w, [VoteOf(Placed(s, c), id, s.next)] + out)
  {
    hide Handle;
  }

  lemma VoteIs(t: RState, id: nat, i: nat)
    ensures IsVote(VoteOf(t, id, i), id, i, At(t, i).ballot)
  {
  }

  lemma PlaceMoves(s: RState, c: CommandId)
    ensures var t := Placed(s, c); Keeps(s, t) && (Executed(s) ==> Executed(t)) && forall j: nat :: At(t, j).ballot == At(s, j).ballot
  {
  }

  lemma KeepsTrans(s: RState, t: RState, w: RState)
    requires Keeps(s, t) && Keeps(t, w)
    ensures Keeps(s, w)
  {
    hide Counted, At;
  }

  lemma ProposeSends(id: nat, Q: set<nat>, s: RState, c: CommandId, t: RState, m: M2B, w: RState, out: seq<M2B>)
    requires Announces(Q, id, t, w, out) && (m.rep in Q ==> Counted(w, m.inst, m.ballot, m.rep)) && m.rep == id
    requires forall j: nat :: At(t, j).ballot == At(s, j).ballot
    ensures Announces(Q, id, s, w, [m] + out)
  {
    hide Counted, At, IsVote;
    assert forall v <- out :: v in [m] + out;
  }

  // ---- The cluster ----

  // Member q counts its vote for instance i at ballot b, and sent it to everyone else.
  ghost predicate Voted(C: Cluster, q: nat, i: nat, b: nat)
    requires q < |C.reps|
  {
    Counted(C.reps[q], i, b, q) && forall d: nat :: d < |C.reps| && d != q ==> SentTo(C.net, d, q, i, b)
  }

  ghost predicate SentTo(net: set<(nat, M2B)>, d: nat, q: nat, i: nat, b: nat) {
    exists v :: (d, v) in net && IsVote(v, q, i, b)
  }

  // Every proposal of a member was voted for at ballot 0, and every recovery at ballot 1.
  ghost predicate Moving(Q: set<nat>, C: Cluster) {
    && (forall q <- Q :: q < |C.reps|)
    && (forall r :: 0 <= r < |C.reps| ==> Executed(C.reps[r]))
    && (forall q: nat, i: nat :: q in Q && i < |C.reps[q].proposed| ==> Voted(C, q, i, 0))
    && (forall q: nat, i: nat :: q in Q && At(C.reps[q], i).ballot != 0 ==> Voted(C, q, i, At(C.reps[q], i).ballot))
  }

  lemma SentGrows(net: set<(nat, M2B)>, more: set<(nat, M2B)>, d: nat, q: nat, i: nat, b: nat)
    requires SentTo(net, d, q, i, b)
    ensures SentTo(net + more, d, q, i, b)
  {
    var v :| (d, v) in net && IsVote(v, q, i, b);
    assert (d, v) in net + more;
  }

  lemma BroadcastSent(net: set<(nat, M2B)>, r: nat, n: nat, out: seq<M2B>, d: nat, v: M2B, i: nat, b: nat)
    requires v in out && IsVote(v, r, i, b) && d < n && d != r
    ensures SentTo(net + Broadcast(r, n, out), d, r, i, b)
  {
    assert (d, v) in net + Broadcast(r, n, out);
  }

  lemma VotedStays(C: Cluster, D: Cluster, q: nat, i: nat, b: nat)
    requires q < |C.reps| == |D.reps| && Voted(C, q, i, b) && C.net <= D.net && Keeps(C.reps[q], D.reps[q])
    ensures Voted(D, q, i, b)
  {
    hide Counted;
    assert C.net + D.net == D.net;
    forall d: nat | d < |C.reps| && d != q ensures SentTo(D.net, d, q, i, b) { SentGrows(C.net, D.net, d, q, i, b); }
  }

  // Replica r made one call, and sent out.
  ghost predicate Called(Q: set<nat>, C: Cluster, D: Cluster, r: nat, out: seq<M2B>) {
    && r < |C.reps| == |D.reps| && D.reps == C.reps[r := D.reps[r]] && D.net == C.net + Broadcast(r, |C.reps|, out)
    && Keeps(C.reps[r], D.reps[r]) && Executed(D.reps[r]) && Announces(Q, r, C.reps[r], D.reps[r], out)
  }

  lemma OutVoted(Q: set<nat>, C: Cluster, D: Cluster, r: nat, out: seq<M2B>, v: M2B, i: nat, b: nat)
    requires Called(Q, C, D, r, out) && r in Q && v in out && IsVote(v, r, i, b)
    ensures Voted(D, r, i, b)
  {
    hide Counted, Keeps, Executed;
    forall d: nat | d < |D.reps| && d != r ensures SentTo(D.net, d, r, i, b) { BroadcastSent(C.net, r, |C.reps|, out, d, v, i, b); }
  }

  lemma KeepsSelf(s: RState)
    ensures Keeps(s, s)
  {
  }

  // A call keeps the votes; a new proposal of r was voted for at ballot 0.
  lemma CallKeeps(Q: set<nat>, C: Cluster, D: Cluster, r: nat, out: seq<M2B>)
    requires Moving(Q, C) && Called(Q, C, D, r, out)
    requires forall i: nat :: r in Q && |C.reps[r].proposed| <= i < |D.reps[r].proposed| ==> Voted(D, r, i, 0)
    ensures Moving(Q, D)
  {
    hide Executed, Keeps, Voted, Broadcast, Counted;
    forall q: nat, i: nat, b: nat | q in Q && Voted(C, q, i, b) ensures Voted(D, q, i, b) {
      if q != r { KeepsSelf(C.reps[q]); }
      VotedStays(C, D, q, i, b);
    }
    forall q: nat, i: nat | q in Q && At(D.reps[q], i).ballot != 0 ensures Voted(D, q, i, At(D.reps[q], i).ballot) {
      if q == r && At(D.reps[r], i).ballot != At(C.reps[r], i).ballot {
        var v :| v in out && IsVote(v, r, i, At(D.reps[r], i).ballot);
        OutVoted(Q, C, D, r, out, v, i, At(D.reps[r], i).ballot);
      }
    }
  }

  lemma NextMoving(Q: set<nat>, n: nat, top: nat, C: Cluster, e: Action)
    requires Inv(Q, n, top, C) && Moving(Q, C) && Enabled(C, e)
    ensures Moving(Q, Act(Q, C, e))
  {
    hide Inv, Keeps, Executed, Announces, Voted, Counted, Overwrites, At, Handle, Propose;
    var D := Act(Q, C, e);
    NextInv(Q, n, top, C, e);
    NextShape(Q, C, e);
    NewProposals(Q, n, top, C, e);
    match e
    case Client(r, c) =>
      var out := Propose(r, Q, C.reps[r], c).1;
      ProposeMoves(r, Q, C.reps[r], c);
      assert Called(Q, C, D, r, out) by { hide Moving; }
      if r in Q {
        BallotZero(Q, n, top, C, r);
        OutVoted(Q, C, D, r, out, out[0], C.reps[r].next, 0);
      }
      CallKeeps(Q, C, D, r, out);
    case Deliver(r, m) =>
      HandleMoves(r, Q, C.reps[r], m);
      CallKeeps(Q, C, D, r, Handle(r, Q, C.reps[r], m).1);
  }

  // The own instance of a member is still at ballot 0 when it proposes there.
  lemma BallotZero(Q: set<nat>, n: nat, top: nat, C: Cluster, r: nat)
    requires Inv(Q, n, top, C) && r in Q
    ensures r < |C.reps| && At(C.reps[r], C.reps[r].next).ballot == 0 && C.reps[r].next == |C.reps[r].proposed|
  {
    var E, s := EnvOf(Q, top, C), C.reps[r];
    hide LogOK, Same;
    assert Local(E, r, s, r !in C.dirty);
    assert InstanceOK(E, s, s.next);
    VotersProposed(E, s, s.next, 0);
  }

  lemma NewProposals(Q: set<nat>, n: nat, top: nat, C: Cluster, e: Action)
    requires Inv(Q, n, top, C) && Enabled(C, e)
    ensures e.r < n == |Act(Q, C, e).reps| && Act(Q, C, e).reps[e.r].proposed == C.reps[e.r].proposed + (if e.Client? then [e.c] else [])
  {
    hide Local, Act, Overwrites, Proposed, EnvOf, NetOK;
    InvParts(Q, n, top, C);
    NextShape(Q, C, e);
    EventKeeps(EnvOf(Q, top, C), C, e, e.r !in C.dirty);
  }

  lemma StartMoving(Q: set<nat>, n: nat)
    requires Quorum(Q, n)
    ensures Moving(Q, Start(n))
  {
    assert forall r :: 0 <= r < n ==> Start(n).reps[r] == INITIAL;
    assert forall i: nat :: At(INITIAL, i) == FRESH;
  }

  lemma {:induction false} RunMoving(Q: set<nat>, n: nat, top: nat, trace: seq<Cluster>, k: nat)
    requires Quorum(Q, n) && IsTop(Q, top) && IsRun(Q, n, trace) && k < |trace|
    ensures Moving(Q, trace[k])
  {
    hide Moving, Inv, Act, Enabled, Start, IsTop;
    if k == 0 {
      StartMoving(Q, n);
    } else {
      RunMoving(Q, n, top, trace, k - 1);
      RunInv(Q, n, top, trace, k - 1);
      assert Follows(Q, trace[k - 1], trace[k - 1 + 1]);
      hide IsRun;
      var e :| Enabled(trace[k - 1], e) && trace[k] == Act(Q, trace[k - 1], e);
      NextMoving(Q, n, top, trace[k - 1], e);
    }
  }

  lemma ReachableMoving(Q: set<nat>, n: nat, C: Cluster)
    requires Quorum(Q, n) && Reachable(Q, n, C)
    ensures Moving(Q, C)
  {
    hide Moving;
    var top := TopExists(Q);
    var trace :| IsRun(Q, n, trace) && trace[|trace| - 1] == C;
    RunMoving(Q, n, top, trace, |trace| - 1);
  }

  // ---- Theorems ----

  // In every reachable state execution is maximal: it stands at the first instance not committed.
  lemma ExecutionMaximal(Q: set<nat>, n: nat, C: Cluster, r: nat)
    requires Quorum(Q, n) && Reachable(Q, n, C) && r < |C.reps|
    ensures !At(C.reps[r], C.reps[r].execed).committed
    ensures forall i: nat :: i < C.reps[r].execed ==> At(C.reps[r], i).committed
  {
    ReachableMoving(Q, n, C);
    hide Reachable, Voted;
    assert Executed(C.reps[r]);
  }

  // Every vote of a member that was sent has been counted by its receiver.
  ghost predicate Arrived(Q: set<nat>, C: Cluster) {
    forall p <- C.net :: p.1.rep in Q && p.0 < |C.reps| ==> Counted(C.reps[p.0], p.1.inst, p.1.ballot, p.1.rep)
  }

  lemma VotedCounted(Q: set<nat>, C: Cluster, q: nat, i: nat, b: nat, r: nat)
    requires Arrived(Q, C) && q in Q && q < |C.reps| && r < |C.reps| && Voted(C, q, i, b)
    ensures Counted(C.reps[r], i, b, q)
  {
    hide Counted;
    if r != q {
      assert SentTo(C.net, r, q, i, b);
      var v :| (r, v) in C.net && IsVote(v, q, i, b);
    }
  }

  // The votes counted for an instance are those of members; with all of them it is full.
  lemma FullWhen(E: Env, s: RState, i: nat, b: nat)
    requires E.WF() && InstanceOK(E, s, i) && forall q <- E.Q :: Counted(s, i, b, q)
    ensures Full(E, s, i, b)
  {
    VotersProposed(E, s, i, b);
    hide InstanceOK;
    assert forall q :: q in VotesAt(s, i, b).Keys <==> q in E.Q;
  }

  // Two full ballots 0 of an instance hold the same votes.
  lemma SameEverywhere(E: Env, s: RState, t: RState, i: nat)
    requires E.WF() && InstanceOK(E, s, i) && InstanceOK(E, t, i) && Full(E, s, i, 0) && Full(E, t, i, 0)
    ensures Same(VotesAt(s, i, 0)) <==> Same(VotesAt(t, i, 0))
  {
    var a, b := VotesAt(s, i, 0), VotesAt(t, i, 0);
    assert E.top in a && E.top in b;
    assert 0 in At(s, i).m2bSets && 0 in At(t, i).m2bSets;
    assert VotesOK(E, i, 0, a) && VotesOK(E, i, 0, b);
    assert forall k <- E.Q :: a[k].cmdId == b[k].cmdId;
  }

  // Once the votes have arrived, a replica has committed exactly the instances in which every member
  // proposed, whether or not they collided.
  lemma ArrivedCommits(Q: set<nat>, n: nat, C: Cluster, r: nat, i: nat)
    requires Quorum(Q, n) && Reachable(Q, n, C) && Arrived(Q, C) && r < |C.reps|
    ensures (forall q <- Q :: q < |C.reps|) && (At(C.reps[r], i).committed <==> forall q <- Q :: i < |C.reps[q].proposed|)
  {
    hide Reachable, Local, Voted, Counted, Same, Executed, Arrived;
    var top := ReachableInv(Q, n, C);
    ReachableMoving(Q, n, C);
    var E := EnvOf(Q, top, C);
    InvParts(Q, n, top, C);
    hide Inv;
    forall s: nat | s < |C.reps| ensures InstanceOK(E, C.reps[s], i) { LocalInstance(E, s, C.reps[s], s !in C.dirty, i); }
    if forall q <- Q :: i < |C.reps[q].proposed| {
      forall s: nat | s < |C.reps| ensures Full(E, C.reps[s], i, 0) {
        forall q | q in Q ensures Counted(C.reps[s], i, 0, q) { VotedCounted(Q, C, q, i, 0, s); }
        FullWhen(E, C.reps[s], i, 0);
      }
      if !Same(VotesAt(C.reps[r], i, 0)) {
        forall q | q in Q ensures Counted(C.reps[r], i, 1, q) {
          SameEverywhere(E, C.reps[r], C.reps[q], i);
          BallotIsOne(E, C.reps[q], i);
          VotedCounted(Q, C, q, i, 1, r);
        }
        FullWhen(E, C.reps[r], i, 1);
      }
      CommittedWhen(E, C.reps[r], i);
    } else {
      CommittedWhen(E, C.reps[r], i);
    }
  }

  lemma LocalInstance(E: Env, id: nat, s: RState, clean: bool, i: nat)
    requires Local(E, id, s, clean)
    ensures InstanceOK(E, s, i)
  {
    hide InstanceOK, LogOK;
  }

  lemma BallotIsOne(E: Env, s: RState, i: nat)
    requires E.WF() && InstanceOK(E, s, i) && Full(E, s, i, 0) && !Same(VotesAt(s, i, 0))
    ensures At(s, i).ballot == 1
  {
    hide Same, Full;
  }

  lemma CommittedWhen(E: Env, s: RState, i: nat)
    requires E.WF() && InstanceOK(E, s, i)
    ensures At(s, i).committed <==> (Full(E, s, i, 0) && Same(VotesAt(s, i, 0))) || Full(E, s, i, 1)
    ensures At(s, i).committed ==> forall q <- E.Q :: i < |E.props[q]|
  {
    hide Same, Full;
  }

  // And it has executed exactly the instances below the first one in which some member did not propose.
  lemma ArrivedExecutes(Q: set<nat>, n: nat, C: Cluster, r: nat, i: nat)
    requires Quorum(Q, n) && Reachable(Q, n, C) && Arrived(Q, C) && r < |C.reps|
    ensures (forall q <- Q :: q < |C.reps|) && (i < C.reps[r].execed <==> forall q <- Q :: i < |C.reps[q].proposed|)
  {
    hide Reachable, Arrived, At;
    var e := C.reps[r].execed;
    ExecutionMaximal(Q, n, C, r);
    ArrivedCommits(Q, n, C, r, i);
    ArrivedCommits(Q, n, C, r, e);
  }

  // What is committed is the proposal of the quorum's highest member, collision or not.
  lemma HighestMember(Q: set<nat>, n: nat, C: Cluster, r: nat, i: nat, v: CommandId, top: nat)
    requires Quorum(Q, n) && Reachable(Q, n, C) && r < |C.reps| && (i, v) in C.reps[r].commits && IsTop(Q, top)
    ensures top < |C.reps| && i < |C.reps[top].proposed| && v == C.reps[top].proposed[i]
  {
    hide Reachable, InstanceOK, LogOK;
    var t := ReachableInv(Q, n, C);
    assert t == top;
    assert Local(EnvOf(Q, top, C), r, C.reps[r], r !in C.dirty);
  }

  // ---- The votes can arrive ----

  ghost predicate Deliveries(Q: set<nat>, C: Cluster, es: seq<Action>, D: Cluster)
    decreases |es|
  {
    if es == [] then D == C
    else Enabled(C, es[0]) && es[0].Deliver? && Deliveries(Q, Act(Q, C, es[0]), es[1..], D)
  }

  // The votes that members may still send and others may still count.
  ghost function Missing(Q: set<nat>, C: Cluster): set<(nat, nat, nat, nat)> {
    set d: nat, q: nat, i: nat, b: nat |
      d < |C.reps| && q in Q && q < |C.reps| && i < |C.reps[q].proposed| && b <= 1 && !Counted(C.reps[d], i, b, q) :: (d, q, i, b)
  }

  lemma ReachableNext(Q: set<nat>, n: nat, C: Cluster, e: Action)
    requires Reachable(Q, n, C) && Enabled(C, e)
    ensures Reachable(Q, n, Act(Q, C, e))
  {
    hide Act, Enabled, Start;
    var trace :| IsRun(Q, n, trace) && trace[|trace| - 1] == C;
    var D := Act(Q, C, e);
    var more := trace + [D];
    forall k | 0 <= k < |more| - 1 ensures Follows(Q, more[k], more[k + 1]) {
      if k < |trace| - 1 { assert Follows(Q, trace[k], trace[k + 1]); } else { assert more[k] == C && more[k + 1] == D; }
    }
    assert IsRun(Q, n, more) && more[|more| - 1] == D;
  }

  lemma DeliverCounts(Q: set<nat>, n: nat, C: Cluster, r: nat, m: M2B)
    requires Quorum(Q, n) && Reachable(Q, n, C) && Enabled(C, Deliver(r, m)) && m.rep in Q && !Counted(C.reps[r], m.inst, m.ballot, m.rep)
    ensures var D := Act(Q, C, Deliver(r, m));
            && |D.reps| == |C.reps| && (forall q <- Q :: q < |C.reps| && D.reps[q].proposed == C.reps[q].proposed)
            && |Missing(Q, D)| < |Missing(Q, C)|
  {
    hide Reachable, Local, Keeps, Counted, Executed, Announces, Voted, Act, Handle;
    var D := Act(Q, C, Deliver(r, m));
    var top := ReachableInv(Q, n, C);
    ReachableMoving(Q, n, C);
    InvParts(Q, n, top, C);
    NewProposals(Q, n, top, C, Deliver(r, m));
    NextShape(Q, C, Deliver(r, m));
    assert EnvOf(Q, top, C).Legit(m);
    hide Inv, Moving;
    assert D.reps[r] == Handle(r, Q, C.reps[r], m).0 by { ActHandles(Q, C, r, m); }
    HandleMoves(r, Q, C.reps[r], m);
    assert D.reps[r].proposed == C.reps[r].proposed;
    FewerMissing(Q, C, D, r, m);
  }

  lemma ActHandles(Q: set<nat>, C: Cluster, r: nat, m: M2B)
    requires Enabled(C, Deliver(r, m))
    ensures r < |C.reps| == |Act(Q, C, Deliver(r, m)).reps| && Act(Q, C, Deliver(r, m)).reps[r] == Handle(r, Q, C.reps[r], m).0
  {
    hide Handle;
  }

  lemma FewerMissing(Q: set<nat>, C: Cluster, D: Cluster, r: nat, m: M2B)
    requires (forall q <- Q :: q < |C.reps|) && r < |C.reps| == |D.reps| && D.reps == C.reps[r := D.reps[r]]
    requires D.reps[r].proposed == C.reps[r].proposed && Keeps(C.reps[r], D.reps[r])
    requires m.rep in Q && m.inst < |C.reps[m.rep].proposed| && m.ballot <= 1
    requires !Counted(C.reps[r], m.inst, m.ballot, m.rep) && Counted(D.reps[r], m.inst, m.ballot, m.rep)
    ensures |Missing(Q, D)| < |Missing(Q, C)|
  {
    hide Counted;
    var x := (r, m.rep, m.inst, m.ballot);
    assert x in Missing(Q, C) && x !in Missing(Q, D);
    assert Missing(Q, D) <= Missing(Q, C) - {x};
    SubsetSize(Missing(Q, D), Missing(Q, C) - {x});
  }

  lemma SubsetSize<T>(a: set<T>, b: set<T>)
    requires a <= b
    ensures |a| <= |b|
  {
    assert b == a + (b - a);
  }

  // From every reachable state deliveries alone lead to one in which the votes have arrived.
  lemma {:induction false} CatchUp(Q: set<nat>, n: nat, C: Cluster) returns (es: seq<Action>, D: Cluster)
    requires Quorum(Q, n) && Reachable(Q, n, C)
    ensures Deliveries(Q, C, es, D) && Reachable(Q, n, D) && Arrived(Q, D) && |D.reps| == |C.reps|
    ensures forall q <- Q :: q < |C.reps| && D.reps[q].proposed == C.reps[q].proposed
    decreases |Missing(Q, C)|
  {
    hide Reachable, Counted, Act, Missing, Executed, Voted;
    if Arrived(Q, C) {
      ReachableMoving(Q, n, C);
      es, D := [], C;
    } else {
      var p :| p in C.net && p.1.rep in Q && p.0 < |C.reps| && !Counted(C.reps[p.0], p.1.inst, p.1.ballot, p.1.rep);
      var e := Deliver(p.0, p.1);
      assert (p.0, p.1) == p;
      DeliverCounts(Q, n, C, p.0, p.1);
      ReachableNext(Q, n, C, e);
      var fs;
      fs, D := CatchUp(Q, n, Act(Q, C, e));
      es := [e] + fs;
      assert es[0] == e && es[1..] == fs;
    }
  }

  ghost predicate AllProposed(Q: set<nat>, C: Cluster, i: nat) {
    forall q <- Q :: q < |C.reps| && i < |C.reps[q].proposed|
  }

  // So every run can be completed, and then every replica has executed exactly the instances below the
  // first one in which some member did not propose.
  lemma Completes(Q: set<nat>, n: nat, C: Cluster) returns (es: seq<Action>, D: Cluster)
    requires Quorum(Q, n) && Reachable(Q, n, C)
    ensures Deliveries(Q, C, es, D) && |D.reps| == |C.reps|
    ensures forall r: nat, i: nat :: r < |C.reps| ==> (i < D.reps[r].execed <==> AllProposed(Q, C, i))
  {
    hide Reachable, Deliveries, Arrived;
    es, D := CatchUp(Q, n, C);
    forall r: nat, i: nat | r < |D.reps| ensures i < D.reps[r].execed <==> AllProposed(Q, C, i) {
      ArrivedExecutes(Q, n, D, r, i);
    }
  }
}
