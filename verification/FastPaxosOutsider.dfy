/** What a replica outside the fast quorum can do wrong: a later proposal replaces a value
    that is committed but not yet executed (fastpaxos/fastpaxos.go:79-81). */
module FastPaxosOutsider {
  import opened CommandIds
  import opened FastPaxos
  import opened FastPaxosSafety

  // Placing a proposal keeps the chosen values and the executed prefix exactly when it overwrites nothing.
  lemma PlacingIsSafe(E: Env, s: RState, c: CommandId)
    requires E.WF() && LogOK(E, s)
    ensures LogOK(E, Put(s, s.next, At(s, s.next).(value := c)).(next := s.next + 1, proposed := s.proposed + [c])) <==> !Overwrites(s, c)
  {
    var t := Put(s, s.next, At(s, s.next).(value := c)).(next := s.next + 1, proposed := s.proposed + [c]);
    assert forall i: nat :: i != s.next ==> At(t, i) == At(s, i);
    assert At(t, s.next).value == c;
  }

  // Outside the quorum a whole call of handleProposal keeps the chosen values and the executed
  // prefix exactly when it overwrites no committed, unexecuted value.
  lemma OutsiderProposes(E: Env, id: nat, s: RState, c: CommandId)
    requires E.WF() && id !in E.Q && LogOK(E, s)
    ensures LogOK(E, Propose(id, E.Q, s, c).0) <==> !Overwrites(s, c)
  {
    var t := Put(s, s.next, At(s, s.next).(value := c)).(next := s.next + 1, proposed := s.proposed + [c]);
    var w := Propose(id, E.Q, s, c).0;
    PlacingIsSafe(E, s, c);
    assert w == AddVote(E.Q, t, VoteOf(t, id, s.next));
    assert forall i: nat :: At(w, i).committed == At(t, i).committed && At(w, i).value == At(t, i).value;
    hide At, Propose;
    assert LogOK(E, w) <==> LogOK(E, t);
  }

  // The same for any replica in a state of a run; a member's call never overwrites one.
  lemma ProposalIsSafe(E: Env, id: nat, s: RState, c: CommandId)
    requires Local(E, id, s, true)
    ensures LogOK(Proposed(E, id, c), Propose(id, E.Q, s, c).0) <==> !Overwrites(s, c)
    ensures id in E.Q ==> !Overwrites(s, c)
  {
    if id in E.Q {
      NotCommitted(E, id, s, c, true);
      PlaceKeeps(E, id, s, c, true);
      var t := Put(s, s.next, At(s, s.next).(value := c)).(next := s.next + 1, proposed := s.proposed + [c]);
      hide LogOK, Overwrites;
      HandleKeeps(Proposed(E, id, c), id, t, VoteOf(t, id, s.next), true);
    } else {
      OutsiderProposes(E, id, s, c);
    }
  }

  const ONE: set<nat> := {0}

  // With a one-member quorum, a fresh vote of the member commits at once.
  lemma LoneVote(id: nat, s: RState, m: M2B)
    requires m.rep == 0 && m.ballot !in At(s, m.inst).m2bSets
    ensures Handle(id, ONE, s, m) == (Commit(AddVote(ONE, s, m), m.inst, m.cmdId), [])
  {
    var votes := VotesAt(AddVote(ONE, s, m), m.inst, m.ballot);
    assert votes == map[0 := m];
    assert 0 in votes;
    assert MaxKey(votes) in votes;
  }

  lemma OtherVote(id: nat, s: RState, m: M2B)
    requires m.rep != 0
    ensures Handle(id, ONE, s, m) == (AddVote(ONE, s, m), [])
  {
  }

  function Vote(c: CommandId, r: nat, i: nat): M2B {
    M2B(c, 0, 0, r, i)
  }

  lemma Step(C: Cluster, e: Action, w: RState, out: seq<M2B>)
    requires Enabled(C, e)
    requires (w, out) == match e { case Client(r, c) => Propose(r, ONE, C.reps[r], c) case Deliver(r, m) => Handle(r, ONE, C.reps[r], m) }
    ensures Act(ONE, C, e).reps == C.reps[e.r := w] && C.net <= Act(ONE, C, e).net
    ensures forall d: nat, v :: d < |C.reps| && d != e.r && v in out ==> (d, v) in Act(ONE, C, e).net
  {
    hide Propose, Handle;
  }

  lemma ReachStart(n: nat)
    ensures Reachable(ONE, n, Start(n))
  {
    assert IsRun(ONE, n, [Start(n)]);
  }

  lemma ReachNext(n: nat, C: Cluster, e: Action)
    requires Reachable(ONE, n, C) && Enabled(C, e)
    ensures Reachable(ONE, n, Act(ONE, C, e))
  {
    var trace :| IsRun(ONE, n, trace) && trace[|trace| - 1] == C;
    var longer := trace + [Act(ONE, C, e)];
    assert Follows(ONE, C, Act(ONE, C, e));
    hide Act, Enabled, Follows;
    forall k | 0 <= k < |longer| - 1 ensures Follows(ONE, longer[k], longer[k + 1]) {
      if k < |trace| - 1 { assert Follows(ONE, trace[k], trace[k + 1]); }
    }
    assert IsRun(ONE, n, longer);
  }

  // A committed next instance executes, and the loop stops at the one after.
  lemma RunOne(u: RState, c: CommandId)
    requires At(u, u.execed).committed && At(u, u.execed).value == c && u.execed + 1 !in u.instances && c !in u.delivered
    ensures RunCommitted(u) == u.(delivered := u.delivered + {c}, log := u.log + [c], execed := u.execed + 1)
  {
    var u1 := Execute(u, c).(execed := u.execed + 1);
    assert RunCommitted(u1) == u1;
  }

  // The member proposes: its vote commits and executes the command.
  lemma MemberStep(s: RState, c: CommandId)
    requires s.execed == s.next && s.next !in s.instances && s.next + 1 !in s.instances && c !in s.delivered
    ensures !Overwrites(s, c) && Propose(0, ONE, s, c).1 == [Vote(c, 0, s.next)]
    ensures var w := Propose(0, ONE, s, c).0;
            && w.next == w.execed == s.next + 1 && w.log == s.log + [c]
            && w.delivered == s.delivered + {c} && w.instances.Keys == s.instances.Keys + {s.next}
  {
    hide Handle, Commit, RunCommitted, AddVote;
    var i := s.next;
    var t := s.(instances := s.instances[i := FRESH.(value := c)], next := i + 1, proposed := s.proposed + [c]);
    var m := Vote(c, 0, i);
    assert VoteOf(t, 0, i) == m;
    LoneVote(0, t, m);
    MemberCommit(t, m);
  }

  lemma MemberCommit(t: RState, m: M2B)
    requires m.rep == 0 && m.ballot == 0 && t.execed == m.inst && m.inst in t.instances && m.inst + 1 !in t.instances && m.cmdId !in t.delivered
    ensures var w := Commit(AddVote(ONE, t, m), m.inst, m.cmdId);
            && w.next == t.next && w.execed == m.inst + 1 && w.log == t.log + [m.cmdId]
            && w.delivered == t.delivered + {m.cmdId} && w.instances.Keys == t.instances.Keys
  {
    var x := AddVote(ONE, t, m);
    var u := Put(x, m.inst, At(x, m.inst).(value := m.cmdId, committed := true)).(commits := x.commits + {(m.inst, m.cmdId)});
    RunOne(u, m.cmdId);
    hide RunCommitted;
    assert Commit(x, m.inst, m.cmdId) == RunCommitted(u);
  }

  // The other replica learns b at instance 1, proposes c and d itself, and then learns a at instance 0.
  lemma OutsiderSteps(a: CommandId, b: CommandId, c: CommandId, d: CommandId)
    requires a != b && b != d && a != d
    ensures var s1 := Handle(1, ONE, INITIAL, Vote(b, 0, 1)).0;
            var s2 := Propose(1, ONE, s1, c).0;
            var s3 := Propose(1, ONE, s2, d).0;
            var s4 := Handle(1, ONE, s3, Vote(a, 0, 0)).0;
            s4.log == [a, d] && s4.execed == 2
  {
    LoneVote(1, INITIAL, Vote(b, 0, 1));
    var s1 := Handle(1, ONE, INITIAL, Vote(b, 0, 1)).0;
    assert s1.execed == 0 && s1.log == [] && s1.delivered == {} && s1.next == 0;
    assert At(s1, 1).committed && At(s1, 0) == FRESH && 2 !in s1.instances;
    var t1 := Put(s1, 0, At(s1, 0).(value := c)).(next := 1, proposed := s1.proposed + [c]);
    OtherVote(1, t1, VoteOf(t1, 1, 0));
    var s2 := Propose(1, ONE, s1, c).0;
    assert s2 == AddVote(ONE, t1, VoteOf(t1, 1, 0));
    var t2 := Put(s2, 1, At(s2, 1).(value := d)).(next := 2, proposed := s2.proposed + [d]);
    OtherVote(1, t2, VoteOf(t2, 1, 1));
    var s3 := Propose(1, ONE, s2, d).0;
    assert s3 == AddVote(ONE, t2, VoteOf(t2, 1, 1));
    assert At(s3, 1).committed && At(s3, 1).value == d && !At(s3, 0).committed && 2 !in s3.instances;
    assert s3.execed == 0 && s3.log == [] && s3.delivered == {};
    LearnZero(s3, a, d);
  }

  lemma LearnZero(s: RState, a: CommandId, d: CommandId)
    requires a != d && s.execed == 0 && s.log == [] && s.delivered == {} && 2 !in s.instances
    requires At(s, 1).committed && At(s, 1).value == d
    requires 0 in At(s, 0).m2bSets ==> At(s, 0).m2bSets[0] == map[]
    ensures var w := Handle(1, ONE, s, Vote(a, 0, 0)).0; w.log == [a, d] && w.execed == 2
  {
    var m := Vote(a, 0, 0);
    var votes := VotesAt(AddVote(ONE, s, m), 0, 0);
    assert votes == map[0 := m];
    assert 0 in votes;
    assert MaxKey(votes) in votes;
    var t := AddVote(ONE, s, m);
    var u := Put(t, 0, At(t, 0).(value := a, committed := true)).(commits := t.commits + {(0, a)});
    var u1 := Execute(u, a).(execed := 1);
    var u2 := Execute(u1, d).(execed := 2);
    assert RunCommitted(u2) == u2;
    assert RunCommitted(u1) == u2;
    assert RunCommitted(u) == u2;
  }

  // In a reachable state, the replica outside the quorum has executed a command in place of the agreed one.
  lemma OutsiderDiverges(a: CommandId, b: CommandId, c: CommandId, d: CommandId) returns (C: Cluster)
    requires a != b && b != d && a != d
    ensures Reachable(ONE, 2, C) && |C.reps| == 2
    ensures C.reps[0].log == [a, b] && C.reps[1].log == [a, d] && C.dirty == {1}
  {
    hide Handle, Propose, Overwrites, Reachable, Act;
    ReachStart(2);
    MemberStep(INITIAL, a);
    var s := Propose(0, ONE, INITIAL, a).0;
    MemberStep(s, b);
    OutsiderSteps(a, b, c, d);
    OutsiderStates(b, c, d);
    C := AfterClient(Start(2), 0, a);
    assert Vote(a, 0, 0) in Propose(0, ONE, INITIAL, a).1 && (1, Vote(a, 0, 0)) in C.net;
    C := AfterClient(C, 0, b);
    assert Vote(b, 0, 1) in Propose(0, ONE, s, b).1 && (1, Vote(b, 0, 1)) in C.net;
    C := AfterDeliver(C, Vote(b, 0, 1));
    C := AfterClient(C, 1, c);
    C := AfterClient(C, 1, d);
    C := AfterDeliver(C, Vote(a, 0, 0));
    assert [a] + [b] == [a, b];
  }

  lemma AfterClient(C: Cluster, r: nat, c: CommandId) returns (D: Cluster)
    requires Reachable(ONE, 2, C) && |C.reps| == 2 && r < 2
    ensures Reachable(ONE, 2, D) && D.reps == C.reps[r := Propose(r, ONE, C.reps[r], c).0] && C.net <= D.net
    ensures forall v <- Propose(r, ONE, C.reps[r], c).1 :: (1 - r, v) in D.net
    ensures D.dirty == C.dirty + if Overwrites(C.reps[r], c) then {r} else {}
  {
    D := Act(ONE, C, Client(r, c));
    ReachNext(2, C, Client(r, c));
    hide Propose, Handle, Overwrites, Reachable;
  }

  lemma AfterDeliver(C: Cluster, m: M2B) returns (D: Cluster)
    requires Reachable(ONE, 2, C) && |C.reps| == 2 && (1, m) in C.net
    ensures Reachable(ONE, 2, D) && D.reps == C.reps[1 := Handle(1, ONE, C.reps[1], m).0] && C.net <= D.net && D.dirty == C.dirty
  {
    D := Act(ONE, C, Deliver(1, m));
    ReachNext(2, C, Deliver(1, m));
    hide Propose, Handle, Reachable;
  }

  // Only the second proposal of the outsider overwrites something.
  lemma OutsiderStates(b: CommandId, c: CommandId, d: CommandId)
    requires b != d
    ensures var s1 := Handle(1, ONE, INITIAL, Vote(b, 0, 1)).0;
            !Overwrites(s1, c) && Overwrites(Propose(1, ONE, s1, c).0, d)
  {
    LoneVote(1, INITIAL, Vote(b, 0, 1));
    var s1 := Handle(1, ONE, INITIAL, Vote(b, 0, 1)).0;
    var t1 := Put(s1, 0, At(s1, 0).(value := c)).(next := 1, proposed := s1.proposed + [c]);
    OtherVote(1, t1, VoteOf(t1, 1, 0));
  }
}
