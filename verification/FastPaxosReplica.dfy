/** A Fast Paxos replica in place (fastpaxos/fastpaxos.go): each handler against the
    value-level handler of the same step. */
module FastPaxosReplica {
  import opened CommandIds
  import opened FastPaxos

  ghost function AfterNext(s: RState): RState {
    Execute(s, At(s, s.execed).value).(execed := s.execed + 1)
  }

  lemma AheadShrinks(s: RState)
    requires At(s, s.execed).committed
    ensures |Ahead(AfterNext(s))| < |Ahead(s)|
  {
    hide RunCommitted;
    assert Ahead(AfterNext(s)) == Ahead(s) - {s.execed};
  }

  lemma RunStep(s: RState)
    requires At(s, s.execed).committed
    ensures RunCommitted(s) == RunCommitted(AfterNext(s)) && |Ahead(AfterNext(s))| < |Ahead(s)|
  {
    AheadShrinks(s);
    hide Ahead, At, Execute;
  }

  lemma RunStop(s: RState)
    requires !At(s, s.execed).committed
    ensures RunCommitted(s) == s
  {
  }

  // The turns of Handle, one by one.
  lemma HandleStops(id: nat, Q: set<nat>, s: RState, m: M2B)
    requires !Complete(Q, s, m)
    ensures Handle(id, Q, s, m) == (AddVote(Q, s, m), [])
  {
  }

  lemma HandleAgrees(id: nat, Q: set<nat>, s: RState, m: M2B, votes: Votes)
    requires Complete(Q, s, m) && votes == VotesAt(AddVote(Q, s, m), m.inst, m.ballot) && Same(votes) && votes != map[]
    ensures Handle(id, Q, s, m) == (Commit(AddVote(Q, s, m), m.inst, MaxVote(votes).cmdId), [])
  {
    hide Commit;
  }

  lemma HandleIgnores(id: nat, Q: set<nat>, s: RState, m: M2B)
    requires Collides(Q, s, m) && At(AddVote(Q, s, m), m.inst).ballot != m.ballot
    ensures Handle(id, Q, s, m) == (AddVote(Q, s, m), [])
  {
    hide Same;
  }

  lemma HandleRecovers(id: nat, Q: set<nat>, s: RState, m: M2B)
    requires Collides(Q, s, m) && At(AddVote(Q, s, m), m.inst).ballot == m.ballot
    ensures VotesAt(AddVote(Q, s, m), m.inst, m.ballot) != map[]
    ensures var u := Recover(AddVote(Q, s, m), m);
            var m2 := VoteOf(u, id, m.inst);
            && Handle(id, Q, s, m) == (Handle(id, Q, u, m2).0, [m2] + Handle(id, Q, u, m2).1)
            && (if Collides(Q, u, m2) then 1 + |Later(u, m2)| else 0) < 1 + |Later(s, m)|
  {
    var t := AddVote(Q, s, m);
    assert m.rep in VotesAt(t, m.inst, m.ballot);
    var u := Recover(t, m);
    var m2 := VoteOf(u, id, m.inst);
    CollisionKnown(Q, s, m);
    assert Later(u, m2) == Later(s, m) - {m.ballot};
    hide Same, Collides;
  }

  class Replica {
    const id: nat
    // The members of the fast quorum.
    const Q: set<nat>
    var next: nat
    var delivered: set<CommandId>
    var instances: map<nat, Instance>
    var lastExecuted: int
    // Histories: own proposals, executed commands, arguments of commit.
    ghost var proposed: seq<CommandId>
    ghost var log: seq<CommandId>
    ghost var commits: set<(nat, CommandId)>

    ghost predicate Valid()
      reads this
    {
      lastExecuted >= -1
    }

    ghost function State(): RState
      requires Valid()
      reads this
    {
      RState(next, delivered, instances, lastExecuted + 1, proposed, log, commits)
    }

    constructor (id: nat, Q: set<nat>)
      ensures Valid() && State() == INITIAL && this.id == id && this.Q == Q
    {
      this.id, this.Q := id, Q;
      next, delivered, instances, lastExecuted := 0, {}, map[], -1;
      proposed, log, commits := [], [], {};
    }

    function GetInstance(i: nat): Instance
      reads this
    {
      if i in instances then instances[i] else FRESH
    }

    method CommitValue(i: nat, v: CommandId)
      requires Valid()
      modifies this
      ensures Valid() && State() == Commit(old(State()), i, v)
    {
      instances := instances[i := GetInstance(i).(value := v, committed := true)];
      commits := commits + {(i, v)};
      ghost var start := State();
      hide RunCommitted, Execute, Ahead;
      while GetInstance(lastExecuted + 1).committed
        invariant Valid() && RunCommitted(State()) == RunCommitted(start)
        decreases |Ahead(State())|
      {
        RunStep(State());
        ExecuteNext();
      }
      RunStop(State());
    }

    // One turn of the commit loop.
    method ExecuteNext()
      requires Valid()
      modifies this`delivered, this`log, this`lastExecuted
      ensures Valid() && State() == AfterNext(old(State()))
    {
      var w := GetInstance(lastExecuted + 1).value;
      if w !in delivered {
        delivered := delivered + {w};
        log := log + [w];
      }
      lastExecuted := lastExecuted + 1;
    }

    method AdvanceBallot(i: nat, ballot: nat)
      modifies this`instances
      ensures var x := old(GetInstance(i));
              instances == old(instances)[i := if ballot > x.ballot then x.(ballot := ballot, cballot := ballot) else x]
    {
      var x := GetInstance(i);
      instances := instances[i := if ballot > x.ballot then x.(ballot := ballot, cballot := ballot) else x];
    }

    // Whether all votes name one command, and the last vote by cballot and replica.
    method Tally(votes: Votes) returns (same: bool, last: M2B)
      requires votes != map[]
      ensures same <==> Same(votes)
      ensures last == MaxVote(votes)
    {
      var k :| k in votes;
      var first := votes[k];
      same := true;
      var rest := votes.Keys - {k};
      while rest != {}
        invariant rest <= votes.Keys && k in votes && k !in rest
        invariant same <==> forall a <- votes :: a !in rest ==> votes[a].cmdId == first.cmdId
        invariant forall a <- votes :: a !in rest ==> votes[a].cballot < votes[k].cballot || (votes[a].cballot == votes[k].cballot && a <= k)
        decreases rest
      {
        var a :| a in rest;
        rest := rest - {a};
        same := same && votes[a].cmdId == first.cmdId;
        if votes[k].cballot < votes[a].cballot || (votes[k].cballot == votes[a].cballot && k < a) {
          k := a;
        }
      }
      last := votes[k];
      MaxUnique(votes, k, MaxKey(votes));
    }

    // A member's vote joins the votes of its instance and ballot.
    method Count(m: M2B) returns (votes: Votes)
      requires Valid()
      modifies this`instances
      ensures Valid() && State() == AddVote(Q, old(State()), m) && votes == VotesAt(State(), m.inst, m.ballot)
      ensures m.rep in Q ==> m.rep in votes
    {
      var x := GetInstance(m.inst);
      votes := if m.ballot in x.m2bSets then x.m2bSets[m.ballot] else map[];
      if m.rep in Q {
        votes := votes[m.rep := m];
      }
      instances := instances[m.inst := x.(m2bSets := x.m2bSets[m.ballot := votes])];
    }

    // The last vote's value at the next ballot.
    method Adopt(m: M2B, last: M2B)
      requires Valid() && VotesAt(State(), m.inst, m.ballot) != map[] && last == MaxVote(VotesAt(State(), m.inst, m.ballot))
      requires GetInstance(m.inst).ballot == m.ballot
      modifies this`instances
      ensures Valid() && State() == Recover(old(State()), m)
    {
      hide MaxVote, VotesAt;
      instances := instances[m.inst := GetInstance(m.inst).(value := last.cmdId)];
      AdvanceBallot(m.inst, m.ballot + 1);
    }

    method HandleM2B(m: M2B) returns (out: seq<M2B>)
      requires Valid()
      modifies this
      ensures Valid() && (State(), out) == Handle(id, Q, old(State()), m)
      decreases if Collides(Q, State(), m) then 1 + |Later(State(), m)| else 0
    {
      hide Handle, Commit, Same, MaxVote, Later, AddVote, VotesAt, Recover;
      ghost var s := State();
      var votes := Count(m);
      if m.rep !in Q || |votes| < |Q| {
        HandleStops(id, Q, s, m);
        return [];
      }
      var same, last := Tally(votes);
      if same {
        HandleAgrees(id, Q, s, m, votes);
        CommitValue(m.inst, last.cmdId);
        return [];
      }
      if GetInstance(m.inst).ballot != m.ballot {
        HandleIgnores(id, Q, s, m);
        return [];
      }
      HandleRecovers(id, Q, s, m);
      Adopt(m, last);
      var y := GetInstance(m.inst);
      var m2 := M2B(y.value, y.ballot, y.cballot, id, m.inst);
      var more := HandleM2B(m2);
      return [m2] + more;
    }

    method HandleProposal(c: CommandId) returns (out: seq<M2B>)
      requires Valid()
      modifies this
      ensures Valid() && (State(), out) == Propose(id, Q, old(State()), c)
    {
      hide Handle;
      ghost var s := State();
      var i := next;
      var x := GetInstance(i);
      next := next + 1;
      instances := instances[i := x.(value := c)];
      proposed := proposed + [c];
      var m := M2B(c, x.ballot, x.cballot, id, i);
      assert State() == Put(s, i, At(s, i).(value := c)).(next := i + 1, proposed := s.proposed + [c]);
      assert m == VoteOf(State(), id, i);
      var more := HandleM2B(m);
      return [m] + more;
    }
  }
}
