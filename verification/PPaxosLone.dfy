/** PPaxos with at most one replica: it sends nothing and receives nothing, so it commits nothing. */
module PPaxosLone {
  import opened PPaxos
  import opened PPaxosGlobal
  import opened PPaxosHandler
  import opened PPaxosLocal
  import opened Store

  ghost predicate LoneState(s: RState) {
    && s.id == 0 && s.n == 1 && |s.crt| == 1 && s.out == [] && s.waitlist == map[]
    && forall x <- s.space :: x.rep == 0 && x.inst <= s.crt[0] && s.space[x].status != Committed
  }

  ghost predicate Lone(g: Cluster) {
    && Shape(g) && |g.reps| <= 1 && g.delivered == {}
    && forall r :: 0 <= r < |g.reps| ==> LoneState(g.reps[r])
  }

  lemma InitLone(n: nat)
    requires n <= 1
    ensures Lone(InitCluster(n))
  {
    if n == 1 { InitInv(0, 1); }
  }

  lemma LoneStep(s: RState, cmds: seq<Command>)
    requires WF(s) && LoneState(s) && cmds != []
    ensures WF(Propose(s, cmds)) && LoneState(Propose(s, cmds))
  {
    var (x, p) := NewProposal(s, cmds);
    ProposeShape(s, cmds, x, p, Propose(s, cmds));
    ProposeWF(s, cmds);
    hide WF, Propose, NewProposal;
    assert forall m :: Broadcast(0, m, 0) == [] && Broadcast(0, m, 1) == [];
  }

  lemma NextLone(g: Cluster, e: Event)
    requires Lone(g) && Enabled(g, e)
    ensures Lone(Next(g, e))
  {
    var ProposeAt(r, cmds) := e;
    hide WF, Propose;
    LoneStep(g.reps[r], cmds);
  }

  lemma {:induction false} RunLone(g: Cluster, es: seq<Event>, h: Cluster)
    requires Lone(g) && Run(g, es, h)
    ensures Lone(h)
    decreases |es|
  {
    if es != [] {
      hide Lone, Next, Enabled;
      NextLone(g, es[0]);
      RunLone(Next(g, es[0]), es[1..], h);
    }
  }

  lemma ReachableLone(n: nat, g: Cluster)
    requires n <= 1 && Reachable(n, g)
    ensures Lone(g)
  {
    InitLone(n);
    hide Lone, Run;
    var es :| Run(InitCluster(n), es, g);
    RunLone(InitCluster(n), es, g);
  }

  // Whatever is committed needed a second replica.
  lemma CommitNeedsTwo(n: nat, g: Cluster, r: nat, x: InstId)
    requires Reachable(n, g) && r < |g.reps| && g.reps[r].Done(x)
    ensures n >= 2
  {
    hide Reachable, Shape;
    if n <= 1 { ReachableLone(n, g); }
  }
}
