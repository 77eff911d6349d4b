/** Ballots encode a leader and one of its quorums (replica/quorum.go, replica/replica.go);
    the search for a ballot whose quorum is alive ends (swift/swift.go). */
module Ballots {
  import opened Quorums

  // Division and remainder truncate toward zero.
  function TDiv(a: int, b: int): int
    requires b > 0
  {
    if a >= 0 then a / b else -(-a / b)
  }

  function TMod(a: int, b: int): int
    requires b > 0
  {
    a - TDiv(a, b) * b
  }

  function Leader(ballot: int, n: int): int
    requires n > 0
  {
    TMod(ballot, n)
  }

  function NextBallotOf(rid: int, oldBallot: int, n: int): int
    requires n > 0
  {
    (TDiv(oldBallot, n) + 1) * n + rid
  }

  // The quorum number of a ballot counts its rounds, cyclically.
  predicate Numbered(qs: QuorumSet, ballot: int) {
    |qs| > 0 && ballot >= 0 && qs[ballot % |qs|] != []
  }

  function AQ(qs: QuorumSet, ballot: int): Quorum
    requires Numbered(qs, ballot)
  {
    var lqs := qs[ballot % |qs|];
    lqs[(ballot / |qs|) % |lqs|]
  }

  lemma MulAbs(d: int, n: nat)
    ensures d >= 1 ==> d * n >= n
    ensures d <= -1 ==> d * n <= 0 - n
    ensures d == 0 ==> d * n == 0
  {
    if d >= 1 { assert (d - 1) * n >= 0; }
    if d <= -1 { assert (-d - 1) * n >= 0; }
  }

  lemma DivUnique(a: nat, q: int, r: nat, n: nat)
    requires a == q * n + r && r < n
    ensures a / n == q && a % n == r
  {
    BallotIs(a, n);
    assert (a / n - q) * n == a / n * n - q * n;
    MulAbs(a / n - q, n);
  }

  lemma BallotIs(b: nat, n: nat)
    requires n > 0
    ensures b == b / n * n + b % n
  {
  }

  lemma Split(round: nat, rid: nat, n: nat)
    requires rid < n
    ensures round * n + rid >= 0
    ensures (round * n + rid) / n == round && (round * n + rid) % n == rid
    ensures Leader(round * n + rid, n) == rid
  {
    MulNonNegative(round, n);
    DivUnique(round * n + rid, round, rid, n);
  }

  lemma MulNonNegative(a: nat, b: nat)
    ensures a * b >= 0
  {
  }

  // BallotOf finds a ballot of the leader that maps back to the quorum, or there is none.
  method BallotOf(qs: QuorumSet, leader: nat, q: Quorum) returns (ballot: int)
    requires leader < |qs|
    ensures ballot == -1 <==> q !in qs[leader]
    ensures ballot != -1 ==> Numbered(qs, ballot) && Leader(ballot, |qs|) == leader && AQ(qs, ballot) == q
  {
    for qid := 0 to |qs[leader]|
      invariant q !in qs[leader][..qid]
    {
      if qs[leader][qid] == q {
        Split(qid, leader, |qs|);
        return qid * |qs| + leader;
      }
      assert qs[leader][..qid + 1] == qs[leader][..qid] + [qs[leader][qid]];
    }
    assert qs[leader][..|qs[leader]|] == qs[leader];
    return -1;
  }

  // The next ballot is larger, lies in the next round, and rid leads it unless it is negative.
  lemma NextIsLarger(rid: nat, oldBallot: int, n: nat)
    requires rid < n
    ensures NextBallotOf(rid, oldBallot, n) > oldBallot
    ensures Leader(NextBallotOf(rid, oldBallot, n), n) == rid <==> NextBallotOf(rid, oldBallot, n) >= 0 || rid == 0
    ensures oldBallot >= 0 ==> NextBallotOf(rid, oldBallot, n) / n == oldBallot / n + 1
  {
    var k := TDiv(oldBallot, n) + 1;
    var b := k * n + rid;
    if oldBallot >= 0 {
      assert oldBallot == oldBallot / n * n + oldBallot % n;
      assert (oldBallot / n + 1) * n == oldBallot / n * n + n;
    } else {
      assert -oldBallot == -oldBallot / n * n + -oldBallot % n;
      assert (-(-oldBallot / n) + 1) * n == -(-oldBallot / n * n) + n;
    }
    if b >= 0 {
      NonNegativeRound(k, rid, n);
      Split(k, rid, n);
    } else {
      NegativeRound(k, rid, n);
    }
  }

  lemma NonNegativeRound(k: int, rid: nat, n: nat)
    requires rid < n && k * n + rid >= 0
    ensures k >= 0
  {
    MulAbs(k, n);
  }

  // A negative ballot keeps its remainder only when it is a multiple of n.
  lemma NegativeRound(k: int, rid: nat, n: nat)
    requires rid < n && k * n + rid < 0
    ensures Leader(k * n + rid, n) == rid <==> rid == 0
  {
    MulAbs(k, n);
    var m := -(k * n + rid);
    if rid == 0 {
      Split(-k, 0, n);
      assert m == -k * n + 0;
    } else {
      assert (-k - 1) * n == -k * n - n;
      Split(-k - 1, n - rid, n);
      assert m == (-k - 1) * n + (n - rid);
    }
  }

  function SameHigher(qs: QuorumSet, sameAs: int, higherThan: int): int
    requires Numbered(qs, sameAs)
  {
    var lqs := qs[sameAs % |qs|];
    var k := TDiv(higherThan, |lqs|);
    sameAs + k * |lqs| * |qs|
  }

  lemma AddRounds(ballot: nat, rounds: nat, n: nat)
    requires n > 0
    ensures (ballot + rounds * n) % n == ballot % n && (ballot + rounds * n) / n == ballot / n + rounds
  {
    Split(ballot / n + rounds, ballot % n, n);
    assert ballot == ballot / n * n + ballot % n;
    assert (ballot / n + rounds) * n == ballot / n * n + rounds * n;
  }

  // SameHigher keeps the leader and the quorum and adds the most whole cycles of rounds that higherThan
  // holds; so it exceeds higherThan once that is at least the number of the leader's quorums, and below
  // that number it changes nothing.
  lemma SameHigherKeeps(qs: QuorumSet, sameAs: nat, higherThan: nat)
    requires Numbered(qs, sameAs)
    ensures var b := SameHigher(qs, sameAs, higherThan);
            && Numbered(qs, b) && Leader(b, |qs|) == Leader(sameAs, |qs|) && AQ(qs, b) == AQ(qs, sameAs)
            && (|qs| >= 2 && higherThan >= |qs[sameAs % |qs|]| ==> b > higherThan)
            && (higherThan < |qs[sameAs % |qs|]| ==> b == sameAs)
            && var rounds := b / |qs| - sameAs / |qs|; rounds <= higherThan < rounds + |qs[sameAs % |qs|]|
  {
    var n, L := |qs|, |qs[sameAs % |qs|]|;
    HigherBallot(sameAs, higherThan, L, n);
    var b := sameAs + higherThan / L * L * n;
    assert b == SameHigher(qs, sameAs, higherThan);
    hide SameHigher, TDiv;
    LeaderIs(sameAs, n);
    LeaderIs(b, n);
  }

  // Adding whole cycles keeps the leader and the quorum number.
  lemma HigherBallot(sameAs: nat, higherThan: nat, L: nat, n: nat)
    requires L > 0 && n > 0
    ensures var b := sameAs + higherThan / L * L * n;
            && b >= 0 && b % n == sameAs % n && b / n % L == sameAs / n % L
            && b / n - sameAs / n <= higherThan < b / n - sameAs / n + L
            && (n >= 2 && higherThan >= L ==> b > higherThan)
            && (higherThan < L ==> b == sameAs)
  {
    var k := higherThan / L;
    MulNonNegative(k, L);
    AddRounds(sameAs, k * L, n);
    AddRounds(sameAs / n, k, L);
    MulNonNegative(k * L, n);
    if n >= 2 && higherThan >= L { GrowsPast(higherThan, L, n); }
    if higherThan < L { assert k == 0; }
  }

  lemma LeaderIs(b: nat, n: nat)
    requires n > 0
    ensures Leader(b, n) == b % n
  {
    assert b == b / n * n + b % n;
  }

  lemma GrowsPast(h: nat, L: nat, n: nat)
    requires L > 0 && h >= L && n >= 2
    ensures h / L * L * n > h
  {
    var m := h / L * L;
    assert h == m + h % L;
    assert h / L >= 1;
    assert m >= L by { assert (h / L - 1) * L >= 0; }
    assert m * n >= m * 2 by { assert m * (n - 2) >= 0; }
  }

  // ---- The search for an alive quorum ----

  // All members other than the searching replica are alive.
  predicate AliveFor(id: nat, alive: set<nat>, q: Quorum) {
    forall r <- q :: r != id ==> r in alive
  }

  method QuorumIsAlive(id: nat, alive: set<nat>, q: Quorum) returns (ok: bool)
    ensures ok == AliveFor(id, alive, q)
  {
    var rest := q;
    while rest != {}
      invariant rest <= q && forall r <- q :: r !in rest ==> r == id || r in alive
      decreases rest
    {
      var rid :| rid in rest;
      if rid != id && rid !in alive {
        return false;
      }
      rest := rest - {rid};
    }
    return true;
  }

  lemma {:induction false} SubsetOfSize(s: set<nat>, k: nat) returns (t: set<nat>)
    requires k <= |s|
    ensures t <= s && |t| == k
    decreases |s|
  {
    if k == |s| {
      t := s;
    } else {
      var x :| x in s;
      t := SubsetOfSize(s - {x}, k);
    }
  }

  // The replica has an alive quorum exactly when n/2 other replicas are alive.
  lemma AliveQuorumExists(n: nat, id: nat, alive: set<nat>)
    requires id < n && forall r <- alive :: r < n
    ensures |alive - {id}| >= n / 2 <==> exists x: Quorum :: x in Table(n, n / 2 + 1)[id] && AliveFor(id, alive, x)
  {
    EnumerationExact(n, n / 2 + 1, id);
    var tab := Table(n, n / 2 + 1)[id];
    hide Table, Choose;
    if |alive - {id}| >= n / 2 {
      var t := SubsetOfSize(alive - {id}, n / 2);
      JoinAlive(n, id, alive, t);
      assert t + {id} in tab;
    }
    if x: Quorum :| x in tab && AliveFor(id, alive, x) {
      OthersAlive(id, alive, x);
    }
  }

  lemma JoinAlive(n: nat, id: nat, alive: set<nat>, t: set<nat>)
    requires t <= alive - {id} && id < n && forall r <- alive :: r < n
    ensures |t + {id}| == |t| + 1 && id in t + {id} && AliveFor(id, alive, t + {id}) && forall r <- t + {id} :: r < n
  {
  }

  lemma OthersAlive(id: nat, alive: set<nat>, x: Quorum)
    requires id in x && AliveFor(id, alive, x)
    ensures |alive - {id}| >= |x| - 1
  {
    assert x - {id} <= alive - {id};
    assert |x - {id}| == |x| - 1;
    SubsetSize(x - {id}, alive - {id});
  }

  lemma SubsetSize(a: set<nat>, b: set<nat>)
    requires a <= b
    ensures |a| <= |b|
  {
    assert b == a + (b - a);
  }

  lemma {:induction false} ChoosePositive(n: nat, k: nat)
    requires k <= n
    ensures Choose(n, k) > 0
  {
    if k > 0 { ChoosePositive(n - 1, k - 1); }
  }

  lemma TableNumbered(n: nat, ballot: nat)
    requires n > 0
    ensures Numbered(Table(n, n / 2 + 1), ballot) && |Table(n, n / 2 + 1)| == n
    ensures |Table(n, n / 2 + 1)[ballot % n]| == Choose(n - 1, n / 2)
  {
    EnumerationExact(n, n / 2 + 1, ballot % n);
    ChoosePositive(n - 1, n / 2);
  }

  // How many rounds after `round` the quorum number is g again.
  function Wait(round: nat, g: nat, L: nat): nat
    requires L > 0
  {
    1 + (g - round - 1) % L
  }

  lemma WaitHits(round: nat, g: nat, L: nat)
    requires g < L
    ensures 1 <= Wait(round, g, L) <= L && (round + Wait(round, g, L)) % L == g
  {
    var x := g - round - 1;
    assert x == x / L * L + x % L;
    assert round + Wait(round, g, L) == g - x / L * L;
    Wraps(g, -(x / L), L);
  }

  lemma Wraps(g: nat, k: int, L: nat)
    requires g < L && g + k * L >= 0
    ensures (g + k * L) % L == g
  {
    MulAbs(k, L);
    Split(k, g, L);
  }

  lemma NextRound(id: nat, ballot: nat, n: nat)
    requires id < n
    ensures NextBallotOf(id, ballot, n) > ballot && NextBallotOf(id, ballot, n) / n == ballot / n + 1
    ensures NextBallotOf(id, ballot, n) % n == id
  {
    NextIsLarger(id, ballot, n);
    assert ballot / n + 1 >= 0;
    Split(ballot / n + 1, id, n);
  }

  // The quorum of ballot b, among all quorums of n/2 + 1 replicas, is alive.
  ghost predicate AliveAt(n: nat, id: nat, alive: set<nat>, b: nat)
    requires n > 0
  {
    Numbered(Table(n, n / 2 + 1), b) && AliveFor(id, alive, AQ(Table(n, n / 2 + 1), b))
  }

  // The k-th ballot of the search after the start.
  function BallotAfter(n: nat, id: nat, start: nat, k: nat): nat
    requires id < n
  {
    MulNonNegative(start / n + k, n);
    (start / n + k) * n + id
  }

  // The number of an alive quorum of the searching replica.
  lemma AliveNumber(n: nat, id: nat, alive: set<nat>) returns (g: nat)
    requires id < n && (forall r <- alive :: r < n) && |alive - {id}| >= n / 2
    ensures id < |Table(n, n / 2 + 1)| && g < |Table(n, n / 2 + 1)[id]| == Choose(n - 1, n / 2)
    ensures AliveFor(id, alive, Table(n, n / 2 + 1)[id][g])
  {
    hide Choose, AliveFor, With, Hits, Numbered;
    AliveQuorumExists(n, id, alive);
    SmallRemainder(id, n);
    TableNumbered(n, id);
    hide Table;
    var goal: Quorum :| goal in Table(n, n / 2 + 1)[id] && AliveFor(id, alive, goal);
    g :| g < |Table(n, n / 2 + 1)[id]| && Table(n, n / 2 + 1)[id][g] == goal;
  }

  // Within L rounds the search reaches a ballot of its own with quorum number g.
  lemma ReachesNumber(n: nat, id: nat, start: nat, g: nat, L: nat) returns (t: nat)
    requires id < n && g < L
    ensures 1 <= t <= L
    ensures BallotAfter(n, id, start, t) % n == id && BallotAfter(n, id, start, t) / n % L == g
  {
    BallotIs(start, n);
    assert start / n >= 0;
    t := ReachesRound(start / n, g, L);
    hide Leader;
    Split(start / n + t, id, n);
  }

  lemma ReachesRound(round: nat, g: nat, L: nat) returns (t: nat)
    requires g < L
    ensures 1 <= t <= L && (round + t) % L == g
  {
    hide *;
    WaitHits(round, g, L);
    t := Wait(round, g, L);
  }

  // Some ballot of the search, within one cycle of the quorum numbers, has an alive quorum.
  lemma SearchEnds(n: nat, id: nat, alive: set<nat>, start: nat) returns (t: nat)
    requires id < n && (forall r <- alive :: r < n) && |alive - {id}| >= n / 2
    ensures 1 <= t <= Choose(n - 1, n / 2) && AliveAt(n, id, alive, BallotAfter(n, id, start, t))
  {
    hide *;
    var g := AliveNumber(n, id, alive);
    t := ReachesNumber(n, id, start, g, Choose(n - 1, n / 2));
    GoalAlive(n, id, alive, BallotAfter(n, id, start, t), g);
  }

  lemma SmallRemainder(id: nat, n: nat)
    requires id < n
    ensures id % n == id
  {
  }

  lemma GoalAlive(n: nat, id: nat, alive: set<nat>, b: nat, g: nat)
    requires id < n && b % n == id && g < |Table(n, n / 2 + 1)[id]| && (b / n) % |Table(n, n / 2 + 1)[id]| == g
    requires AliveFor(id, alive, Table(n, n / 2 + 1)[id][g])
    ensures AliveAt(n, id, alive, b)
  {
    hide AliveFor, With, Hits;
    TableNumbered(n, b);
  }

  // With n/2 other replicas alive the search stops after at most C(n-1, n/2) + 1 checks, at a
  // ballot not below the start whose quorum is alive; it moves on only past dead quorums.
  method FindAliveBallot(n: nat, id: nat, alive: set<nat>, start: nat) returns (ballot: nat, checks: nat)
    requires id < n && (forall r <- alive :: r < n) && |alive - {id}| >= n / 2
    ensures AliveAt(n, id, alive, ballot) && ballot >= start && 1 <= checks <= Choose(n - 1, n / 2) + 1
    ensures ballot == if checks == 1 then start else BallotAfter(n, id, start, checks - 1)
    ensures checks > 1 ==> !AliveAt(n, id, alive, start)
    ensures forall k :: 1 <= k < checks - 1 ==> !AliveAt(n, id, alive, BallotAfter(n, id, start, k))
  {
    hide Table, Choose, AQ, AliveFor, Numbered, AliveAt, BallotAfter, NextBallotOf, TDiv;
    var qs := NewQuorumSet(n / 2 + 1, n);
    ghost var t := SearchEnds(n, id, alive, start);
    ballot, checks := start, 0;
    var quorumIsAlive := false;
    while !quorumIsAlive
      invariant ballot >= start && checks <= t + 1 && (quorumIsAlive ==> checks >= 1 && AliveAt(n, id, alive, ballot))
      invariant !quorumIsAlive ==> checks <= t && ballot == if checks == 0 then start else BallotAfter(n, id, start, checks)
      invariant quorumIsAlive ==> ballot == if checks == 1 then start else BallotAfter(n, id, start, checks - 1)
      invariant checks > 1 || (checks == 1 && !quorumIsAlive) ==> !AliveAt(n, id, alive, start)
      invariant forall k :: 1 <= k < (if quorumIsAlive then checks - 1 else checks) ==> !AliveAt(n, id, alive, BallotAfter(n, id, start, k))
      decreases !quorumIsAlive, t - checks
    {
      TableNumbered(n, ballot);
      quorumIsAlive := QuorumIsAlive(id, alive, AQ(qs, ballot));
      AliveMeans(n, id, alive, ballot);
      if !quorumIsAlive {
        StepsTo(n, id, start, checks, ballot);
        ballot := NextBallotOf(id, ballot, n);
      }
      checks := checks + 1;
    }
  }

  lemma AliveMeans(n: nat, id: nat, alive: set<nat>, b: nat)
    requires n > 0 && Numbered(Table(n, n / 2 + 1), b)
    ensures AliveAt(n, id, alive, b) <==> AliveFor(id, alive, AQ(Table(n, n / 2 + 1), b))
  {
    hide Table, AliveFor, AQ;
  }

  lemma StepsTo(n: nat, id: nat, start: nat, k: nat, ballot: nat)
    requires id < n && ballot == if k == 0 then start else BallotAfter(n, id, start, k)
    ensures NextBallotOf(id, ballot, n) == BallotAfter(n, id, start, k + 1) && NextBallotOf(id, ballot, n) > ballot
  {
    NextRound(id, ballot, n);
    if k > 0 { Split(start / n + k, id, n); }
    BallotIs(NextBallotOf(id, ballot, n), n);
  }
}
