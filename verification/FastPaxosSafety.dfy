/** Agreement and execution order of Fast Paxos with one fixed fast quorum: a global
    invariant over every run, whatever the network delivers, reorders or repeats. */
module FastPaxosSafety {
  import opened CommandIds
  import opened Store
  import opened FastPaxos

  // The fast quorum, its highest member, and what each member has proposed so far.
  datatype Env = Env(Q: set<nat>, top: nat, props: map<nat, seq<CommandId>>) {
    ghost predicate WF() {
      top in Q && (forall q <- Q :: q <= top) && props.Keys == Q
    }

    // Every member has proposed in instance i.
    ghost predicate Decided(i: nat) {
      WF() && forall q <- Q :: i < |props[q]|
    }

    // The value of instance i: the proposal of the highest member, collision or not.
    ghost function Choice(i: nat): CommandId
      requires Decided(i)
    {
      props[top][i]
    }

    // A member's vote: its own proposal at ballot 0, the recovered value at ballot 1.
    ghost predicate Legit(m: M2B)
      requires WF()
    {
      && m.rep in Q && m.inst < |props[m.rep]| && m.cballot == m.ballot
      && if m.ballot == 0 then m.cmdId == props[m.rep][m.inst]
         else m.ballot == 1 && Decided(m.inst) && m.cmdId == Choice(m.inst)
    }
  }

  ghost predicate VotesOK(E: Env, i: nat, b: nat, votes: Votes)
    requires E.WF()
  {
    forall k <- votes :: votes[k].rep == k && votes[k].inst == i && votes[k].ballot == b && E.Legit(votes[k])
  }

  // An instance is committed exactly when the quorum agreed at ballot 0 or voted at ballot 1,
  // and is at ballot 1 exactly when ballot 0 collided.
  ghost predicate InstanceOK(E: Env, s: RState, i: nat)
    requires E.WF()
  {
    var x := At(s, i);
    && (forall b <- x.m2bSets :: VotesOK(E, i, b, x.m2bSets[b]))
    && (x.ballot == x.cballot <= 1) && (x.ballot == 1 <==> Full(E, s, i, 0) && !Same(VotesAt(s, i, 0)))
    && (x.committed <==> (Full(E, s, i, 0) && Same(VotesAt(s, i, 0))) || Full(E, s, i, 1))
    && (x.committed ==> E.Decided(i))
  }

  predicate Full(E: Env, s: RState, i: nat, b: nat) {
    VotesAt(s, i, b).Keys == E.Q
  }

  ghost predicate CommitsOK(E: Env, s: RState) {
    forall p <- s.commits :: E.Decided(p.0) && p.1 == E.Choice(p.0)
  }

  function Dedup(s: seq<CommandId>): seq<CommandId> {
    if s == [] then []
    else
      var d, v := Dedup(s[..|s| - 1]), s[|s| - 1];
      if v in d then d else d + [v]
  }

  ghost function Choices(E: Env, k: nat): seq<CommandId>
    requires forall i: nat :: i < k ==> E.Decided(i)
  {
    seq(k, i requires 0 <= i < k => E.Choice(i))
  }

  // What was executed is a prefix of the chosen sequence, without repetitions.
  ghost predicate LogOK(E: Env, s: RState) {
    && (forall i: nat :: i < s.execed ==> E.Decided(i))
    && s.log == Dedup(Choices(E, s.execed))
    && (forall i: nat :: i >= s.execed && At(s, i).committed ==> E.Decided(i) && At(s, i).value == E.Choice(i))
  }

  ghost predicate Local(E: Env, id: nat, s: RState, clean: bool) {
    && E.WF() && s.next == |s.proposed| && (id in E.Q ==> E.props[id] == s.proposed)
    && (forall i: nat :: InstanceOK(E, s, i))
    && CommitsOK(E, s) && (forall v :: v in s.delivered <==> v in s.log)
    && (clean ==> LogOK(E, s))
  }

  // ---- The commit loop ----

  // RunCommitted moves nothing but the executed prefix.
  ghost predicate OnlyExecutes(s: RState, t: RState) {
    t == s.(delivered := t.delivered, execed := t.execed, log := t.log)
  }

  lemma {:induction false} RunKeeps(E: Env, s: RState, clean: bool)
    requires E.WF() && (forall i: nat :: At(s, i).committed ==> E.Decided(i)) && (forall v :: v in s.delivered <==> v in s.log)
    requires clean ==> LogOK(E, s)
    ensures OnlyExecutes(s, RunCommitted(s)) && (forall v :: v in RunCommitted(s).delivered <==> v in RunCommitted(s).log)
    ensures clean ==> LogOK(E, RunCommitted(s))
    decreases |Ahead(s)|
  {
    if At(s, s.execed).committed {
      var t := Execute(s, At(s, s.execed).value).(execed := s.execed + 1);
      assert Ahead(t) == Ahead(s) - {s.execed};
      hide Ahead;
      if clean { ExecuteKeeps(E, s, t); }
      hide LogOK;
      RunKeeps(E, t, clean);
    }
  }

  lemma ExecuteKeeps(E: Env, s: RState, t: RState)
    requires E.WF() && LogOK(E, s) && At(s, s.execed).committed && forall v :: v in s.delivered <==> v in s.log
    requires t == Execute(s, At(s, s.execed).value).(execed := s.execed + 1)
    ensures LogOK(E, t)
  {
    assert forall i: nat :: At(t, i) == At(s, i);
    hide At;
    assert Choices(E, t.execed)[..s.execed] == Choices(E, s.execed);
    assert Choices(E, t.execed)[s.execed] == E.Choice(s.execed);
  }

  lemma CommitKeeps(E: Env, id: nat, s: RState, i: nat, clean: bool)
    requires E.WF() && s.next == |s.proposed| && (id in E.Q ==> E.props[id] == s.proposed) && E.Decided(i)
    requires forall j: nat :: j != i ==> InstanceOK(E, s, j)
    requires InstanceOK(E, Put(s, i, At(s, i).(value := E.Choice(i), committed := true)), i)
    requires CommitsOK(E, s) && (forall v :: v in s.delivered <==> v in s.log) && (clean ==> LogOK(E, s))
    ensures Local(E, id, Commit(s, i, E.Choice(i)), clean)
  {
    var x := At(s, i).(value := E.Choice(i), committed := true);
    var t := Put(s, i, x);
    var u := t.(commits := s.commits + {(i, E.Choice(i))});
    assert forall j: nat :: j != i ==> At(t, j) == At(s, j);
    assert forall j: nat :: At(u, j) == At(t, j);
    assert forall j: nat :: InstanceOK(E, t, j) by {
      forall j: nat ensures InstanceOK(E, t, j) { if j != i { SameInstance(E, s, t, j); } }
    }
    forall j: nat ensures InstanceOK(E, u, j) { SameInstance(E, t, u, j); }
    forall j: nat | At(u, j).committed ensures E.Decided(j) { assert InstanceOK(E, u, j); }
    hide InstanceOK;
    RunKeeps(E, u, clean);
    var w := RunCommitted(u);
    forall j: nat ensures InstanceOK(E, w, j) { SameInstance(E, u, w, j); }
  }

  lemma SameInstance(E: Env, s: RState, t: RState, i: nat)
    requires E.WF() && InstanceOK(E, s, i) && At(s, i) == At(t, i)
    ensures InstanceOK(E, t, i)
  {
    hide VotesOK, Same;
    assert forall b: nat :: VotesAt(s, i, b) == VotesAt(t, i, b);
  }

  // ---- Votes ----

  // A full set of votes is one vote from each member.
  lemma FullVotes(E: Env, i: nat, b: nat, votes: Votes)
    requires E.WF() && VotesOK(E, i, b, votes) && |votes| >= |E.Q|
    ensures votes.Keys == E.Q && E.Decided(i)
  {
    assert votes.Keys <= E.Q;
    SameSize(votes.Keys, E.Q);
    forall q | q in E.Q ensures i < |E.props[q]| {
      assert q in votes;
    }
  }

  lemma SameSize(a: set<nat>, b: set<nat>)
    requires a <= b && |a| >= |b|
    ensures a == b
  {
    assert |b| == |b - a| + |a|;
  }

  // The last vote of a full set carries the chosen value, and at ballot 1 all votes do.
  lemma LastVote(E: Env, i: nat, b: nat, votes: Votes)
    requires E.WF() && VotesOK(E, i, b, votes) && votes.Keys == E.Q && E.Decided(i)
    ensures votes != map[] && MaxVote(votes).cmdId == E.Choice(i) && MaxVote(votes).inst == i && MaxVote(votes).ballot == b
    ensures b == 0 || (b == 1 && Same(votes))
  {
    assert E.top in votes;
    var k := MaxKey(votes);
    assert votes[E.top].rep == E.top && votes[k].rep == k;
  }

  lemma AddedVotes(E: Env, s: RState, m: M2B)
    requires E.WF() && InstanceOK(E, s, m.inst) && (m.rep in E.Q ==> E.Legit(m))
    ensures var x := At(AddVote(E.Q, s, m), m.inst); forall b <- x.m2bSets :: VotesOK(E, m.inst, b, x.m2bSets[b])
  {
    hide Same;
  }

  // Adding a vote that does not complete its quorum for the first time.
  lemma AddKeeps(E: Env, id: nat, s: RState, m: M2B, clean: bool)
    requires Local(E, id, s, clean) && (m.rep in E.Q ==> E.Legit(m))
    requires VotesAt(AddVote(E.Q, s, m), m.inst, m.ballot).Keys == E.Q ==> Full(E, s, m.inst, m.ballot)
    requires Full(E, s, m.inst, m.ballot) ==> VotesAt(AddVote(E.Q, s, m), m.inst, m.ballot) == VotesAt(s, m.inst, m.ballot)
    ensures Local(E, id, AddVote(E.Q, s, m), clean)
  {
    var t := AddVote(E.Q, s, m);
    AddedVotes(E, s, m);
    assert forall b: nat :: b != m.ballot ==> VotesAt(t, m.inst, b) == VotesAt(s, m.inst, b);
    hide Same, VotesOK;
    assert InstanceOK(E, t, m.inst);
    OthersKept(E, s, t, m.inst);
    LogKept(E, s, t, clean);
  }

  lemma OthersKept(E: Env, s: RState, t: RState, i: nat)
    requires E.WF() && (forall j: nat :: InstanceOK(E, s, j)) && InstanceOK(E, t, i) && forall j: nat :: j != i ==> At(s, j) == At(t, j)
    ensures forall j: nat :: InstanceOK(E, t, j)
  {
    forall j: nat ensures InstanceOK(E, t, j) {
      if j != i {
        assert InstanceOK(E, s, j);
        SameInstance(E, s, t, j);
      }
    }
  }

  lemma LogKept(E: Env, s: RState, t: RState, clean: bool)
    requires E.WF() && (clean ==> LogOK(E, s)) && t.log == s.log && t.execed == s.execed
    requires forall j: nat :: At(t, j).committed ==> At(s, j).committed && At(s, j).value == At(t, j).value
    ensures clean ==> LogOK(E, t)
  {
  }

  // ---- One vote ----

  // A repeated vote of a member changes nothing.
  lemma Repeated(E: Env, s: RState, m: M2B)
    requires E.WF() && InstanceOK(E, s, m.inst) && E.Legit(m) && Full(E, s, m.inst, m.ballot)
    ensures VotesAt(AddVote(E.Q, s, m), m.inst, m.ballot) == VotesAt(s, m.inst, m.ballot)
  {
    var votes := VotesAt(s, m.inst, m.ballot);
    assert m.rep in votes;
    assert votes[m.rep] == m;
  }

  lemma AddIncomplete(E: Env, id: nat, s: RState, m: M2B, clean: bool)
    requires Local(E, id, s, clean) && (m.rep in E.Q ==> E.Legit(m)) && !Complete(E.Q, s, m)
    ensures Local(E, id, AddVote(E.Q, s, m), clean)
  {
    hide LogOK, CommitsOK, Same;
    var t := AddVote(E.Q, s, m);
    assert InstanceOK(E, s, m.inst);
    var votes, before := VotesAt(t, m.inst, m.ballot), VotesAt(s, m.inst, m.ballot);
    if m.rep in E.Q {
      assert |votes| == |votes.Keys| && |before| == |before.Keys|;
      assert votes.Keys == before.Keys + {m.rep};
      assert before.Keys == E.Q ==> votes.Keys == E.Q;
    } else {
      assert votes == before;
    }
    AddKeeps(E, id, s, m, clean);
  }

  // The facts about a completed vote.
  lemma Completed(E: Env, id: nat, s: RState, m: M2B, clean: bool)
    requires Local(E, id, s, clean) && (m.rep in E.Q ==> E.Legit(m)) && Complete(E.Q, s, m)
    ensures var votes := VotesAt(AddVote(E.Q, s, m), m.inst, m.ballot);
            && votes.Keys == E.Q && VotesOK(E, m.inst, m.ballot, votes) && E.Decided(m.inst)
            && votes != map[] && MaxVote(votes).cmdId == E.Choice(m.inst) && MaxVote(votes).inst == m.inst && MaxVote(votes).ballot == m.ballot
            && (m.ballot == 0 || (m.ballot == 1 && Same(votes)))
  {
    hide LogOK, CommitsOK, Same;
    var votes := VotesAt(AddVote(E.Q, s, m), m.inst, m.ballot);
    assert InstanceOK(E, s, m.inst);
    AddedVotes(E, s, m);
    FullVotes(E, m.inst, m.ballot, votes);
    LastVote(E, m.inst, m.ballot, votes);
  }

  lemma AgreedKeeps(E: Env, id: nat, s: RState, m: M2B, clean: bool)
    requires Local(E, id, s, clean) && (m.rep in E.Q ==> E.Legit(m)) && Complete(E.Q, s, m)
    requires Same(VotesAt(AddVote(E.Q, s, m), m.inst, m.ballot)) && E.Decided(m.inst)
    requires VotesAt(AddVote(E.Q, s, m), m.inst, m.ballot).Keys == E.Q && m.ballot <= 1
    ensures Local(E, id, Commit(AddVote(E.Q, s, m), m.inst, E.Choice(m.inst)), clean)
  {
    var t := AddVote(E.Q, s, m);
    OnlyCounts(E, s, m);
    hide InstanceOK, Same, Commit, VotesAt, LogOK, E.Choice;
    assert InstanceOK(E, s, m.inst);
    AgreedInstance(E, s, m);
    forall j: nat | j != m.inst ensures InstanceOK(E, t, j) {
      assert InstanceOK(E, s, j);
      SameInstance(E, s, t, j);
    }
    hide AddVote, Complete;
    LogKept(E, s, t, clean);
    CommitKeeps(E, id, t, m.inst, clean);
  }

  lemma OnlyCounts(E: Env, s: RState, m: M2B)
    ensures var t := AddVote(E.Q, s, m);
            && t == s.(instances := t.instances) && (forall j: nat :: j != m.inst ==> At(s, j) == At(t, j))
            && At(t, m.inst) == At(s, m.inst).(m2bSets := At(t, m.inst).m2bSets)
  {
    hide VotesAt;
  }

  lemma AgreedInstance(E: Env, s: RState, m: M2B)
    requires E.WF() && InstanceOK(E, s, m.inst) && (m.rep in E.Q ==> E.Legit(m)) && m.rep in E.Q && m.ballot <= 1 && E.Decided(m.inst)
    requires VotesAt(AddVote(E.Q, s, m), m.inst, m.ballot).Keys == E.Q && Same(VotesAt(AddVote(E.Q, s, m), m.inst, m.ballot))
    ensures var t := AddVote(E.Q, s, m);
            InstanceOK(E, Put(t, m.inst, At(t, m.inst).(value := E.Choice(m.inst), committed := true)), m.inst)
  {
    var t := AddVote(E.Q, s, m);
    var u := Put(t, m.inst, At(t, m.inst).(value := E.Choice(m.inst), committed := true));
    AddedVotes(E, s, m);
    assert forall b: nat :: VotesAt(u, m.inst, b) == VotesAt(t, m.inst, b);
    assert forall b: nat :: b != m.ballot ==> VotesAt(t, m.inst, b) == VotesAt(s, m.inst, b);
    hide Same, VotesOK;
    if m.ballot == 0 && Full(E, s, m.inst, 0) { Repeated(E, s, m); }
  }

  lemma RecoveredInstance(E: Env, s: RState, m: M2B)
    requires E.WF() && InstanceOK(E, s, m.inst) && E.Legit(m) && m.ballot == 0 && E.Decided(m.inst) && At(s, m.inst).ballot == 0
    requires var votes := VotesAt(AddVote(E.Q, s, m), m.inst, 0);
             votes.Keys == E.Q && !Same(votes) && MaxVote(votes).cmdId == E.Choice(m.inst)
    ensures var u := Recover(AddVote(E.Q, s, m), m); InstanceOK(E, u, m.inst) && At(u, m.inst).value == E.Choice(m.inst) && At(u, m.inst).ballot == 1
    ensures At(Recover(AddVote(E.Q, s, m), m), m.inst).committed == At(s, m.inst).committed
  {
    var t := AddVote(E.Q, s, m);
    var u := Recover(t, m);
    AddedVotes(E, s, m);
    assert forall b: nat :: VotesAt(u, m.inst, b) == VotesAt(t, m.inst, b);
    assert forall b: nat :: b != 0 ==> VotesAt(t, m.inst, b) == VotesAt(s, m.inst, b);
    if Full(E, s, m.inst, 0) { Repeated(E, s, m); }
    hide Same, VotesOK;
  }

  lemma RecoverKeeps(E: Env, id: nat, s: RState, m: M2B, clean: bool)
    requires Local(E, id, s, clean) && E.Legit(m) && m.ballot == 0 && E.Decided(m.inst) && At(s, m.inst).ballot == 0
    requires var votes := VotesAt(AddVote(E.Q, s, m), m.inst, 0);
             votes.Keys == E.Q && !Same(votes) && MaxVote(votes).cmdId == E.Choice(m.inst)
    ensures var u := Recover(AddVote(E.Q, s, m), m); Local(E, id, u, clean) && (id in E.Q ==> E.Legit(VoteOf(u, id, m.inst)))
    ensures VoteOf(Recover(AddVote(E.Q, s, m), m), id, m.inst).ballot == 1
  {
    var u := Recover(AddVote(E.Q, s, m), m);
    assert InstanceOK(E, s, m.inst);
    RecoveredInstance(E, s, m);
    assert forall j: nat :: j != m.inst ==> At(s, j) == At(u, j);
    hide Same, VotesOK, MaxVote;
    OthersKept(E, s, u, m.inst);
    hide InstanceOK;
    if clean { RecoverLog(E, s, u, m.inst); }
  }

  lemma RecoverLog(E: Env, s: RState, u: RState, i: nat)
    requires E.WF() && LogOK(E, s) && u.log == s.log && u.execed == s.execed && E.Decided(i) && At(u, i).value == E.Choice(i)
    requires At(u, i).committed == At(s, i).committed && forall j: nat :: j != i ==> At(s, j) == At(u, j)
    ensures LogOK(E, u)
  {
  }

  // Handling a vote keeps the local invariant; a member answers with legitimate votes.
  lemma {:induction false} HandleKeeps(E: Env, id: nat, s: RState, m: M2B, clean: bool)
    requires Local(E, id, s, clean) && (m.rep in E.Q ==> E.Legit(m))
    ensures var (w, out) := Handle(id, E.Q, s, m);
            && Local(E, id, w, clean) && w.proposed == s.proposed
            && forall v <- out :: v.rep == id && (id in E.Q ==> E.Legit(v))
    decreases if m.ballot == 0 then 1 else 0
  {
    hide Local;
    var t := AddVote(E.Q, s, m);
    var votes := VotesAt(t, m.inst, m.ballot);
    if !Complete(E.Q, s, m) {
      AddIncomplete(E, id, s, m, clean);
    } else {
      Completed(E, id, s, m, clean);
      if Same(votes) {
        AgreedKeeps(E, id, s, m, clean);
        CommitProposed(t, m.inst, E.Choice(m.inst));
      } else if At(t, m.inst).ballot != m.ballot {
        AlreadyRecovered(E, id, s, m, clean);
      } else {
        RecoverKeeps(E, id, s, m, clean);
        var u := Recover(t, m);
        HandleKeeps(E, id, u, VoteOf(u, id, m.inst), clean);
      }
    }
  }

  lemma AlreadyRecovered(E: Env, id: nat, s: RState, m: M2B, clean: bool)
    requires Local(E, id, s, clean) && E.Legit(m) && m.ballot == 0 && At(s, m.inst).ballot != 0
    ensures Local(E, id, AddVote(E.Q, s, m), clean)
  {
    hide Same, LogOK;
    assert InstanceOK(E, s, m.inst);
    assert Full(E, s, m.inst, 0);
    Repeated(E, s, m);
    AddKeeps(E, id, s, m, clean);
  }

  lemma CommitProposed(s: RState, i: nat, v: CommandId)
    ensures Commit(s, i, v).proposed == s.proposed
  {
    RunProposed(Put(s, i, At(s, i).(value := v, committed := true)).(commits := s.commits + {(i, v)}));
  }

  lemma {:induction false} RunProposed(s: RState)
    ensures RunCommitted(s).proposed == s.proposed
    decreases |Ahead(s)|
  {
    if At(s, s.execed).committed {
      var t := Execute(s, At(s, s.execed).value).(execed := s.execed + 1);
      assert Ahead(t) == Ahead(s) - {s.execed};
      RunProposed(t);
    }
  }

  // ---- One proposal ----

  // The environment after member id proposes c.
  function Proposed(E: Env, id: nat, c: CommandId): Env {
    if id in E.Q && id in E.props then E.(props := E.props[id := E.props[id] + [c]]) else E
  }

  lemma EnvGrows(E: Env, id: nat, c: CommandId)
    requires E.WF()
    ensures Proposed(E, id, c).WF()
    ensures forall i: nat :: E.Decided(i) ==> Proposed(E, id, c).Decided(i) && Proposed(E, id, c).Choice(i) == E.Choice(i)
    ensures forall m :: E.Legit(m) ==> Proposed(E, id, c).Legit(m)
  {
  }

  lemma LocalGrows(E: Env, F: Env, id: nat, s: RState, t: RState, clean: bool)
    requires Local(E, id, s, clean) && F.WF() && F.Q == E.Q && t == s.(next := t.next, proposed := t.proposed)
    requires t.next == |t.proposed| && (id in F.Q ==> F.props[id] == t.proposed)
    requires forall i: nat :: E.Decided(i) ==> F.Decided(i) && F.Choice(i) == E.Choice(i)
    requires forall m :: E.Legit(m) ==> F.Legit(m)
    ensures Local(F, id, t, clean)
  {
    hide E.Decided, E.Choice, E.Legit, Same;
    forall i: nat ensures InstanceOK(F, t, i) {
      InstanceGrows(E, F, s, t, i);
    }
    hide InstanceOK;
    if clean { LogGrows(E, F, s, t); }
  }

  lemma InstanceGrows(E: Env, F: Env, s: RState, t: RState, i: nat)
    requires E.WF() && F.WF() && F.Q == E.Q && s.instances == t.instances && InstanceOK(E, s, i)
    requires forall i: nat :: E.Decided(i) ==> F.Decided(i)
    requires forall m :: E.Legit(m) ==> F.Legit(m)
    ensures InstanceOK(F, t, i)
  {
    hide E.Decided, E.Legit, Same;
    assert forall b: nat :: VotesAt(t, i, b) == VotesAt(s, i, b);
  }

  lemma LogGrows(E: Env, F: Env, s: RState, t: RState)
    requires E.WF() && F.WF() && LogOK(E, s) && t.instances == s.instances && t.execed == s.execed && t.log == s.log
    requires forall i: nat :: E.Decided(i) ==> F.Decided(i) && F.Choice(i) == E.Choice(i)
    ensures LogOK(F, t)
  {
    hide E.Decided, E.Choice;
    assert Choices(E, s.execed) == Choices(F, s.execed);
  }

  // A proposal replaces the value of an instance that is committed but not executed.
  predicate Overwrites(s: RState, c: CommandId) {
    s.next >= s.execed && At(s, s.next).committed && At(s, s.next).value != c
  }

  lemma PlaceKeeps(E: Env, id: nat, s: RState, c: CommandId, clean: bool)
    requires Local(E, id, s, clean)
    ensures var F, t := Proposed(E, id, c), Put(s, s.next, At(s, s.next).(value := c)).(next := s.next + 1, proposed := s.proposed + [c]);
            && Local(F, id, t, clean && !Overwrites(s, c)) && (id in E.Q ==> F.Legit(VoteOf(t, id, s.next)))
  {
    var F := Proposed(E, id, c);
    var t1 := Put(s, s.next, At(s, s.next).(value := c));
    EnvGrows(E, id, c);
    assert InstanceOK(E, s, s.next);
    assert forall b: nat :: VotesAt(t1, s.next, b) == VotesAt(s, s.next, b);
    assert InstanceOK(E, t1, s.next) by { hide Same, VotesOK; }
    OthersKept(E, s, t1, s.next);
    hide InstanceOK;
    var clean2 := clean && !Overwrites(s, c);
    if clean2 { PlaceLog(E, s, t1, c); }
    assert Local(E, id, t1, clean2);
    PlaceGrows(E, F, id, t1, c, clean2);
    if id in E.Q { FirstVote(E, id, s, t1, c); }
  }

  lemma PlaceLog(E: Env, s: RState, t: RState, c: CommandId)
    requires E.WF() && LogOK(E, s) && t == Put(s, s.next, At(s, s.next).(value := c)) && !Overwrites(s, c)
    ensures LogOK(E, t)
  {
  }

  lemma PlaceGrows(E: Env, F: Env, id: nat, t1: RState, c: CommandId, clean: bool)
    requires Local(E, id, t1, clean) && F == Proposed(E, id, c)
    ensures Local(F, id, t1.(next := t1.next + 1, proposed := t1.proposed + [c]), clean)
  {
    EnvGrows(E, id, c);
    LocalGrows(E, F, id, t1, t1.(next := t1.next + 1, proposed := t1.proposed + [c]), clean);
  }

  // A member's own instance is undecided until it proposes there, so its vote is at ballot 0.
  lemma FirstVote(E: Env, id: nat, s: RState, t1: RState, c: CommandId)
    requires E.WF() && id in E.Q && E.props[id] == s.proposed && s.next == |s.proposed| && InstanceOK(E, s, s.next)
    requires t1 == Put(s, s.next, At(s, s.next).(value := c))
    ensures Proposed(E, id, c).WF() && Proposed(E, id, c).Legit(VoteOf(t1, id, s.next))
    ensures !At(s, s.next).committed
  {
    EnvGrows(E, id, c);
    assert !E.Decided(s.next);
    VotersProposed(E, s, s.next, 0);
  }

  lemma VotersProposed(E: Env, s: RState, i: nat, b: nat)
    requires E.WF() && InstanceOK(E, s, i)
    ensures forall k <- VotesAt(s, i, b) :: k in E.Q && i < |E.props[k]|
  {
    if b in At(s, i).m2bSets { assert VotesOK(E, i, b, At(s, i).m2bSets[b]); }
  }

  // ---- The cluster ----

  // `net` holds every vote sent, with its receiver; `dirty` the replicas that overwrote a committed value.
  datatype Cluster = Cluster(reps: seq<RState>, net: set<(nat, M2B)>, dirty: set<nat>)

  datatype Action = Client(r: nat, c: CommandId) | Deliver(r: nat, m: M2B)

  predicate Enabled(C: Cluster, e: Action) {
    e.r < |C.reps| && (e.Deliver? ==> (e.r, e.m) in C.net)
  }

  // A vote is delivered any number of times, in any order, or never.
  ghost function Act(Q: set<nat>, C: Cluster, e: Action): Cluster
    requires Enabled(C, e)
  {
    var s := C.reps[e.r];
    var (w, out) := match e { case Client(r, c) => Propose(r, Q, s, c) case Deliver(r, m) => Handle(r, Q, s, m) };
    Cluster(C.reps[e.r := w], C.net + Broadcast(e.r, |C.reps|, out), C.dirty + if e.Client? && Overwrites(s, e.c) then {e.r} else {})
  }

  ghost function Broadcast(r: nat, n: nat, out: seq<M2B>): set<(nat, M2B)> {
    set d: nat, v | d < n && d != r && v in out :: (d, v)
  }

  ghost function Start(n: nat): Cluster {
    Cluster(seq(n, _ => INITIAL), {}, {})
  }

  ghost predicate Follows(Q: set<nat>, C: Cluster, D: Cluster) {
    exists e :: Enabled(C, e) && D == Act(Q, C, e)
  }

  ghost predicate IsRun(Q: set<nat>, n: nat, trace: seq<Cluster>) {
    trace != [] && trace[0] == Start(n) && forall k :: 0 <= k < |trace| - 1 ==> Follows(Q, trace[k], trace[k + 1])
  }

  ghost predicate Reachable(Q: set<nat>, n: nat, C: Cluster) {
    exists trace :: IsRun(Q, n, trace) && trace[|trace| - 1] == C
  }

  // A fixed fast quorum of the n replicas.
  ghost predicate Quorum(Q: set<nat>, n: nat) {
    Q != {} && forall q <- Q :: q < n
  }

  ghost function EnvOf(Q: set<nat>, top: nat, C: Cluster): Env
    requires forall q <- Q :: q < |C.reps|
  {
    Env(Q, top, map q | q in Q :: C.reps[q].proposed)
  }

  ghost predicate IsTop(Q: set<nat>, top: nat) {
    top in Q && forall q <- Q :: q <= top
  }

  lemma {:induction false} TopExists(Q: set<nat>) returns (top: nat)
    requires Q != {}
    ensures IsTop(Q, top)
    decreases |Q|
  {
    var q :| q in Q;
    if Q == {q} {
      top := q;
    } else {
      var t := TopExists(Q - {q});
      assert forall x <- Q :: x == q || x in Q - {q};
      top := if q < t then t else q;
    }
  }

  ghost predicate NetOK(E: Env, net: set<(nat, M2B)>)
    requires E.WF()
  {
    forall p <- net :: p.1.rep in E.Q ==> E.Legit(p.1)
  }

  ghost predicate Inv(Q: set<nat>, n: nat, top: nat, C: Cluster) {
    && |C.reps| == n && Quorum(Q, n) && IsTop(Q, top)
    && (forall r :: 0 <= r < n ==> Local(EnvOf(Q, top, C), r, C.reps[r], r !in C.dirty))
    && NetOK(EnvOf(Q, top, C), C.net) && Q !! C.dirty
  }

  lemma StartInv(Q: set<nat>, n: nat, top: nat)
    requires Quorum(Q, n) && IsTop(Q, top)
    ensures Inv(Q, n, top, Start(n))
  {
    var C := Start(n);
    var E := EnvOf(Q, top, C);
    forall r | 0 <= r < n ensures Local(E, r, C.reps[r], true) {
      assert C.reps[r] == INITIAL;
      assert Choices(E, 0) == [];
      assert forall i: nat :: At(INITIAL, i) == FRESH;
      assert forall i: nat, b: nat :: VotesAt(INITIAL, i, b).Keys == {};
      forall i: nat ensures InstanceOK(E, INITIAL, i) {
        assert !Full(E, INITIAL, i, 0) && !Full(E, INITIAL, i, 1);
      }
    }
  }

  // What one event does, in terms of the replica it happens at.
  lemma EventKeeps(E: Env, C: Cluster, e: Action, clean: bool)
    requires Enabled(C, e) && E.WF() && Local(E, e.r, C.reps[e.r], clean) && NetOK(E, C.net)
    ensures var F := if e.Client? then Proposed(E, e.r, e.c) else E;
            var w := Act(E.Q, C, e).reps[e.r];
            && Local(F, e.r, w, clean && !(e.Client? && Overwrites(C.reps[e.r], e.c)))
            && w.proposed == C.reps[e.r].proposed + (if e.Client? then [e.c] else [])
            && F.WF() && NetOK(F, Act(E.Q, C, e).net)
            && (e.Client? && e.r in E.Q ==> !Overwrites(C.reps[e.r], e.c))
  {
    hide Local;
    var s := C.reps[e.r];
    match e {
      case Client(r, c) =>
        PlaceKeeps(E, r, s, c, clean);
        var F := Proposed(E, r, c);
        var t := Put(s, s.next, At(s, s.next).(value := c)).(next := s.next + 1, proposed := s.proposed + [c]);
        HandleKeeps(F, r, t, VoteOf(t, r, s.next), clean && !Overwrites(s, c));
        NetGrows(E, r, c, C.net);
        if r in E.Q { NotCommitted(E, r, s, c, clean); }
      case Deliver(r, m) =>
        HandleKeeps(E, r, s, m, clean);
    }
  }

  lemma NetGrows(E: Env, r: nat, c: CommandId, net: set<(nat, M2B)>)
    requires E.WF() && NetOK(E, net)
    ensures Proposed(E, r, c).WF() && NetOK(Proposed(E, r, c), net)
  {
    EnvGrows(E, r, c);
  }

  lemma NotCommitted(E: Env, r: nat, s: RState, c: CommandId, clean: bool)
    requires Local(E, r, s, clean) && r in E.Q
    ensures !Overwrites(s, c)
  {
    hide LogOK;
    assert InstanceOK(E, s, s.next);
    FirstVote(E, r, s, Put(s, s.next, At(s, s.next).(value := c)), c);
  }

  lemma NextInv(Q: set<nat>, n: nat, top: nat, C: Cluster, e: Action)
    requires Inv(Q, n, top, C) && Enabled(C, e)
    ensures Inv(Q, n, top, Act(Q, C, e))
  {
    hide Inv, Act, Local, NetOK, Overwrites, EnvOf, Proposed;
    InvParts(Q, n, top, C);
    var E, D := EnvOf(Q, top, C), Act(Q, C, e);
    NextShape(Q, C, e);
    EventKeeps(E, C, e, e.r !in C.dirty);
    EnvStep(Q, top, C, D, e);
    forall r | 0 <= r < n ensures Local(EnvOf(Q, top, D), r, D.reps[r], r !in D.dirty) {
      if r != e.r && e.Client? {
        OthersGrow(E, e.r, e.c, r, C.reps[r], r !in C.dirty);
      }
    }
    InvWhole(Q, n, top, D);
  }

  lemma InvParts(Q: set<nat>, n: nat, top: nat, C: Cluster)
    requires Inv(Q, n, top, C)
    ensures |C.reps| == n && Quorum(Q, n) && IsTop(Q, top) && Q !! C.dirty
    ensures EnvOf(Q, top, C).WF() && EnvOf(Q, top, C).Q == Q && NetOK(EnvOf(Q, top, C), C.net)
    ensures forall r :: 0 <= r < n ==> Local(EnvOf(Q, top, C), r, C.reps[r], r !in C.dirty)
  {
    hide Local, NetOK;
  }

  lemma InvWhole(Q: set<nat>, n: nat, top: nat, C: Cluster)
    requires |C.reps| == n && Quorum(Q, n) && IsTop(Q, top) && Q !! C.dirty
    requires EnvOf(Q, top, C).WF() && NetOK(EnvOf(Q, top, C), C.net)
    requires forall r :: 0 <= r < n ==> Local(EnvOf(Q, top, C), r, C.reps[r], r !in C.dirty)
    ensures Inv(Q, n, top, C)
  {
    hide Local, NetOK;
  }

  lemma EnvStep(Q: set<nat>, top: nat, C: Cluster, D: Cluster, e: Action)
    requires (forall q <- Q :: q < |C.reps|) && e.r < |C.reps| == |D.reps| && D.reps == C.reps[e.r := D.reps[e.r]]
    requires D.reps[e.r].proposed == C.reps[e.r].proposed + (if e.Client? then [e.c] else [])
    ensures EnvOf(Q, top, D) == if e.Client? then Proposed(EnvOf(Q, top, C), e.r, e.c) else EnvOf(Q, top, C)
  {
    var E := if e.Client? then Proposed(EnvOf(Q, top, C), e.r, e.c) else EnvOf(Q, top, C);
    assert e.Deliver? ==> D.reps[e.r].proposed == C.reps[e.r].proposed;
    assert forall q <- Q :: E.props[q] == D.reps[q].proposed;
    assert E.props == EnvOf(Q, top, D).props;
  }

  lemma NextShape(Q: set<nat>, C: Cluster, e: Action)
    requires Enabled(C, e)
    ensures var D := Act(Q, C, e); |D.reps| == |C.reps| && D.reps == C.reps[e.r := D.reps[e.r]]
    ensures Act(Q, C, e).dirty == C.dirty + if e.Client? && Overwrites(C.reps[e.r], e.c) then {e.r} else {}
  {
    hide Propose, Handle, Overwrites, Broadcast;
  }

  lemma OthersGrow(E: Env, id: nat, c: CommandId, r: nat, s: RState, clean: bool)
    requires Local(E, r, s, clean) && r != id
    ensures Local(Proposed(E, id, c), r, s, clean)
  {
    EnvGrows(E, id, c);
    LocalGrows(E, Proposed(E, id, c), r, s, s, clean);
  }

  lemma {:induction false} RunInv(Q: set<nat>, n: nat, top: nat, trace: seq<Cluster>, k: nat)
    requires Quorum(Q, n) && IsTop(Q, top) && IsRun(Q, n, trace) && k < |trace|
    ensures Inv(Q, n, top, trace[k])
  {
    if k == 0 {
      StartInv(Q, n, top);
    } else {
      RunInv(Q, n, top, trace, k - 1);
      hide Inv;
      assert Follows(Q, trace[k - 1], trace[k - 1 + 1]);
      var e :| Enabled(trace[k - 1], e) && trace[k] == Act(Q, trace[k - 1], e);
      NextInv(Q, n, top, trace[k - 1], e);
    }
  }

  lemma ReachableInv(Q: set<nat>, n: nat, C: Cluster) returns (top: nat)
    requires Quorum(Q, n) && Reachable(Q, n, C)
    ensures Inv(Q, n, top, C)
  {
    top := TopExists(Q);
    var trace :| IsRun(Q, n, trace) && trace[|trace| - 1] == C;
    RunInv(Q, n, top, trace, |trace| - 1);
  }

  // ---- Theorems ----

  // No two replicas pass different values to commit for an instance.
  lemma Agreement(Q: set<nat>, n: nat, C: Cluster, r1: nat, r2: nat, i: nat, v1: CommandId, v2: CommandId)
    requires Quorum(Q, n) && Reachable(Q, n, C) && |C.reps| == n && r1 < n && r2 < n
    requires (i, v1) in C.reps[r1].commits && (i, v2) in C.reps[r2].commits
    ensures v1 == v2
  {
    var top := ReachableInv(Q, n, C);
    hide InstanceOK, LogOK, Reachable;
    assert Local(EnvOf(Q, top, C), r1, C.reps[r1], r1 !in C.dirty);
    assert Local(EnvOf(Q, top, C), r2, C.reps[r2], r2 !in C.dirty);
  }

  // Ballot 1 settles every collision: a replica commits as soon as it has the quorum's votes,
  // equal at ballot 0 or any at ballot 1, and no vote ever has a higher ballot.
  lemma BallotOneSettles(Q: set<nat>, n: nat, C: Cluster, r: nat, i: nat)
    requires Quorum(Q, n) && Reachable(Q, n, C) && |C.reps| == n && r < n
    ensures At(C.reps[r], i).committed <==>
              (VotesAt(C.reps[r], i, 0).Keys == Q && Same(VotesAt(C.reps[r], i, 0))) || VotesAt(C.reps[r], i, 1).Keys == Q
    ensures At(C.reps[r], i).ballot <= 1 && forall p <- C.net :: p.1.rep in Q ==> p.1.ballot <= 1
  {
    var top := ReachableInv(Q, n, C);
    hide LogOK, Reachable, Same;
    assert Local(EnvOf(Q, top, C), r, C.reps[r], r !in C.dirty);
    assert InstanceOK(EnvOf(Q, top, C), C.reps[r], i);
  }

  // Quorum members, and other replicas that never overwrote a committed value, execute
  // prefixes of one sequence, and execute no command twice.
  lemma CommonSequence(Q: set<nat>, n: nat, C: Cluster, r1: nat, r2: nat)
    requires Quorum(Q, n) && Reachable(Q, n, C) && |C.reps| == n && r1 < n && r2 < n && r1 !in C.dirty && r2 !in C.dirty
    requires C.reps[r1].execed <= C.reps[r2].execed
    ensures C.reps[r1].log <= C.reps[r2].log && NoRepeats(C.reps[r2].log)
  {
    var top := ReachableInv(Q, n, C);
    var E := EnvOf(Q, top, C);
    hide InstanceOK, Reachable;
    assert Local(E, r1, C.reps[r1], true) && Local(E, r2, C.reps[r2], true);
    var a, b := Choices(E, C.reps[r1].execed), Choices(E, C.reps[r2].execed);
    assert a == b[..|a|];
    DedupPrefix(b, |a|);
    DedupDistinct(b);
  }

  lemma MembersClean(Q: set<nat>, n: nat, C: Cluster, q: nat)
    requires Quorum(Q, n) && Reachable(Q, n, C) && q in Q
    ensures q !in C.dirty
  {
    var top := ReachableInv(Q, n, C);
  }

  lemma {:induction false} DedupPrefix(s: seq<CommandId>, k: nat)
    requires k <= |s|
    ensures Dedup(s[..k]) <= Dedup(s)
    decreases |s|
  {
    if k < |s| {
      DedupPrefix(s[..|s| - 1], k);
      assert s[..|s| - 1][..k] == s[..k];
    } else {
      assert s[..k] == s;
    }
  }

  lemma {:induction false} DedupDistinct(s: seq<CommandId>)
    ensures NoRepeats(Dedup(s))
  {
    if s != [] { DedupDistinct(s[..|s| - 1]); }
  }
}
