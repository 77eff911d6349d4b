/** The handlers of uncoordinated Fast Paxos with one fixed fast quorum
    (fastpaxos/fastpaxos.go), as functions on the state of a replica. */
module FastPaxos {
  import opened CommandIds

  datatype M2B = M2B(cmdId: CommandId, ballot: nat, cballot: nat, rep: nat, inst: nat)

  // The messages of one instance and ballot, by sender.
  type Votes = map<nat, M2B>

  datatype Instance = Instance(value: CommandId, ballot: nat, cballot: nat, committed: bool, m2bSets: map<nat, Votes>)

  const FRESH := Instance(CommandId(0, 0), 0, 0, false, map[])

  // `execed` is lastExecuted + 1. The last three fields record what the replica did: its own
  // proposals in order, the commands it executed in order, and the arguments of its commits.
  datatype RState = RState(
    next: nat,
    delivered: set<CommandId>,
    instances: map<nat, Instance>,
    execed: nat,
    proposed: seq<CommandId>,
    log: seq<CommandId>,
    commits: set<(nat, CommandId)>)

  const INITIAL := RState(0, {}, map[], 0, [], [], {})

  function At(s: RState, i: nat): Instance {
    if i in s.instances then s.instances[i] else FRESH
  }

  function VotesAt(s: RState, i: nat, b: nat): Votes {
    if b in At(s, i).m2bSets then At(s, i).m2bSets[b] else map[]
  }

  function Put(s: RState, i: nat, x: Instance): RState {
    s.(instances := s.instances[i := x])
  }

  // ---- Commit and execution ----

  function Execute(s: RState, v: CommandId): RState {
    if v in s.delivered then s else s.(delivered := s.delivered + {v}, log := s.log + [v])
  }

  // The commit loop: execute while the next instance is committed.
  function RunCommitted(s: RState): RState
    decreases |Ahead(s)|
  {
    if !At(s, s.execed).committed then s
    else
      var t := Execute(s, At(s, s.execed).value).(execed := s.execed + 1);
      assert Ahead(t) == Ahead(s) - {s.execed};
      RunCommitted(t)
  }

  function Ahead(s: RState): set<nat> {
    set i | i in s.instances && i >= s.execed
  }

  function Commit(s: RState, i: nat, v: CommandId): RState {
    RunCommitted(Put(s, i, At(s, i).(value := v, committed := true)).(commits := s.commits + {(i, v)}))
  }

  // ---- Votes ----

  predicate Same(votes: Votes) {
    forall a, b :: a in votes && b in votes ==> votes[a].cmdId == votes[b].cmdId
  }

  // The last vote in the order by cballot, then replica.
  predicate IsMax(votes: Votes, k: nat) {
    k in votes && forall a <- votes :: votes[a].cballot < votes[k].cballot || (votes[a].cballot == votes[k].cballot && a <= k)
  }

  lemma {:induction false} MaxExists(votes: Votes)
    requires votes != map[]
    ensures exists k :: IsMax(votes, k)
    decreases |votes|
  {
    var j :| j in votes;
    var rest := votes - {j};
    if rest == map[] {
      assert forall a <- votes :: a == j by {
        assert forall a <- votes :: a != j ==> a in rest;
      }
      assert IsMax(votes, j);
    } else {
      MaxExists(rest);
      var k :| IsMax(rest, k);
      assert forall a <- votes :: a == j || a in rest;
      var j' := if votes[j].cballot < votes[k].cballot || (votes[j].cballot == votes[k].cballot && j <= k) then k else j;
      assert IsMax(votes, j');
    }
  }

  lemma MaxUnique(votes: Votes, j: nat, k: nat)
    requires IsMax(votes, j) && IsMax(votes, k)
    ensures j == k
  {
  }

  ghost function MaxKey(votes: Votes): (k: nat)
    requires votes != map[]
    ensures IsMax(votes, k)
  {
    MaxExists(votes);
    var k :| IsMax(votes, k);
    k
  }

  ghost function MaxVote(votes: Votes): M2B
    requires votes != map[]
  {
    votes[MaxKey(votes)]
  }

  // ---- Handlers ----

  function AddVote(Q: set<nat>, s: RState, m: M2B): RState {
    var x := At(s, m.inst);
    var votes := VotesAt(s, m.inst, m.ballot);
    Put(s, m.inst, x.(m2bSets := x.m2bSets[m.ballot := if m.rep in Q then votes[m.rep := m] else votes]))
  }

  // The handler runs when a member's vote completes the quorum.
  predicate Complete(Q: set<nat>, s: RState, m: M2B) {
    m.rep in Q && |VotesAt(AddVote(Q, s, m), m.inst, m.ballot)| >= |Q|
  }

  // Uncoordinated recovery: adopt the last vote and move to the next ballot.
  ghost function Recover(s: RState, m: M2B): RState
    requires VotesAt(s, m.inst, m.ballot) != map[]
  {
    Put(s, m.inst, At(s, m.inst).(value := MaxVote(VotesAt(s, m.inst, m.ballot)).cmdId, ballot := m.ballot + 1, cballot := m.ballot + 1))
  }

  function VoteOf(s: RState, id: nat, i: nat): M2B {
    M2B(At(s, i).value, At(s, i).ballot, At(s, i).cballot, id, i)
  }

  ghost predicate Collides(Q: set<nat>, s: RState, m: M2B) {
    Complete(Q, s, m) && !Same(VotesAt(AddVote(Q, s, m), m.inst, m.ballot))
  }

  // A collision needs another vote to be there already.
  lemma CollisionKnown(Q: set<nat>, s: RState, m: M2B)
    requires Collides(Q, s, m)
    ensures m.ballot in At(s, m.inst).m2bSets
  {
  }

  ghost function Later(s: RState, m: M2B): set<nat> {
    set b | b in At(s, m.inst).m2bSets && b >= m.ballot
  }

  // Handles a vote; a replica that recovers votes again and handles its own vote.
  ghost function Handle(id: nat, Q: set<nat>, s: RState, m: M2B): (RState, seq<M2B>)
    decreases if Collides(Q, s, m) then 1 + |Later(s, m)| else 0
  {
    var t := AddVote(Q, s, m);
    var votes := VotesAt(t, m.inst, m.ballot);
    if !Complete(Q, s, m) then (t, [])
    else
      assert m.rep in votes;
      if Same(votes) then (Commit(t, m.inst, MaxVote(votes).cmdId), [])
      else if At(t, m.inst).ballot != m.ballot then (t, [])
      else
        var u := Recover(t, m);
        var m2 := VoteOf(u, id, m.inst);
        CollisionKnown(Q, s, m);
        assert Later(u, m2) == Later(s, m) - {m.ballot};
        var (w, out) := Handle(id, Q, u, m2);
        (w, [m2] + out)
  }

  // A proposal takes the next instance, whatever that instance holds already.
  ghost function Propose(id: nat, Q: set<nat>, s: RState, c: CommandId): (RState, seq<M2B>) {
    var i := s.next;
    var t := Put(s, i, At(s, i).(value := c)).(next := i + 1, proposed := s.proposed + [c]);
    var m := VoteOf(t, id, i);
    var (w, out) := Handle(id, Q, t, m);
    (w, [m] + out)
  }
}
