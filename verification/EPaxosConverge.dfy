/** Where the EPaxos execution order meets the store: replicas that executed the same
    instances hold the same table, if conflicting instances are linked by dependencies. */
module EPaxosConverge {
  import opened Store
  import opened EPaxosGraph
  import opened EPaxosExec

  // ---- A log as one sequence of instances ----

  function Flat(log: Log): seq<InstId> {
    if log == [] then [] else Flat(log[..|log| - 1]) + log[|log| - 1]
  }

  lemma {:induction false} FlatMembers(log: Log, x: InstId)
    ensures x in Flat(log) <==> InLog(log, x)
  {
    if log != [] {
      var p, b := log[..|log| - 1], log[|log| - 1];
      FlatMembers(p, x);
      if InLog(p, x) { var i :| 0 <= i < |p| && x in p[i]; assert x in log[i]; }
      if InLog(log, x) { var i :| 0 <= i < |log| && x in log[i]; if i < |p| { assert x in p[i]; } }
    }
  }

  ghost predicate Apart(p: Log, b: seq<InstId>) {
    forall x :: InLog(p, x) ==> x !in b
  }

  lemma PrefixLog(G: Graph, log: Log)
    requires ValidLog(G, log) && log != []
    ensures ValidLog(G, log[..|log| - 1])
    ensures Apart(log[..|log| - 1], log[|log| - 1])
  {
    hide ExactScc, Sorted, Edge;
    var p := log[..|log| - 1];
    forall i, x, y | 0 <= i < |p| && x in p[i] && Edge(G, x, y) ensures exists j :: 0 <= j <= i && y in p[j] {
      var j :| 0 <= j <= i && y in log[j];
      assert y in p[j];
    }
  }

  lemma {:induction false} FlatDistinct(G: Graph, log: Log)
    requires ValidLog(G, log)
    ensures forall i, j :: 0 <= i < j < |Flat(log)| ==> Flat(log)[i] != Flat(log)[j]
    ensures forall x <- Flat(log) :: x in G
  {
    if log != [] {
      var p, b := log[..|log| - 1], log[|log| - 1];
      PrefixLog(G, log);
      FlatDistinct(G, p);
      assert Sorted(G, b);
      hide ValidLog, InLog;
      var s := Flat(log);
      forall i, j | 0 <= i < j < |s| ensures s[i] != s[j] {
        if i < |Flat(p)| <= j {
          FlatMembers(p, s[i]);
          assert s[j] in b;
        }
      }
    }
  }

  lemma {:induction false} FlatRan(log: Log, x: InstId, y: InstId)
    requires Before(Flat(log), x, y)
    ensures Ran(log, x, y)
  {
    if log != [] {
      var p, b := log[..|log| - 1], log[|log| - 1];
      var s := Flat(log);
      var i, j :| 0 <= i < j < |s| && s[i] == x && s[j] == y;
      var m := |Flat(p)|;
      if j < m {
        assert Flat(p)[i] == x && Flat(p)[j] == y;
        FlatRan(p, x, y);
        var i', a', j', b' :| At(p, i', a', x) && At(p, j', b', y) && (i' < j' || (i' == j' && a' < b'));
        assert At(log, i', a', x) && At(log, j', b', y);
      } else {
        assert At(log, |p|, j - m, y);
        if i < m {
          assert x in Flat(p);
          FlatMembers(p, x);
          var i', a' := Locate(p, x);
          assert At(log, i', a', x);
        } else {
          assert At(log, |p|, i - m, x);
        }
      }
    }
  }

  // ---- The commands of a log, each under its own name ----

  datatype Name = Name(id: InstId, k: nat)

  function Work(G: Graph): Workload<Name> {
    map x: InstId, k: nat | x in G && k < |G[x].cmds| :: Name(x, k) := G[x].cmds[k]
  }

  function NamesOf(G: Graph, x: InstId): seq<Name>
    requires x in G
  {
    seq(|G[x].cmds|, k requires 0 <= k < |G[x].cmds| => Name(x, k))
  }

  function Names(G: Graph, s: seq<InstId>): seq<Name>
    requires forall x <- s :: x in G
  {
    if s == [] then [] else Names(G, s[..|s| - 1]) + NamesOf(G, s[|s| - 1])
  }

  lemma {:induction false} NamesMembers(G: Graph, s: seq<InstId>, c: Name)
    requires forall x <- s :: x in G
    ensures c in Names(G, s) <==> c.id in s && c.k < |G[c.id].cmds|
  {
    if s != [] {
      var p, x := s[..|s| - 1], s[|s| - 1];
      NamesMembers(G, p, c);
      assert s == p + [x];
      if c.id == x && c.k < |G[x].cmds| { assert NamesOf(G, x)[c.k] == c; }
    }
  }

  lemma {:induction false} NamesDistinct(G: Graph, s: seq<InstId>)
    requires (forall x <- s :: x in G) && NoRepeats(s)
    ensures NoRepeats(Names(G, s))
  {
    if s != [] {
      var p, x := s[..|s| - 1], s[|s| - 1];
      NamesDistinct(G, p);
      var r := Names(G, s);
      forall i, j | 0 <= i < j < |r| ensures r[i] != r[j] {
        if i < |Names(G, p)| <= j {
          assert r[i] in Names(G, p) && r[j].id == x;
          NamesMembers(G, p, r[i]);
        }
      }
    }
  }

  // Commands follow the order of their instances, and their own order inside one.
  lemma {:induction false} NamesBefore(G: Graph, s: seq<InstId>, c: Name, d: Name)
    requires (forall x <- s :: x in G) && NoRepeats(s) && Before(Names(G, s), c, d)
    ensures (c.id == d.id && c.k < d.k) || Before(s, c.id, d.id)
  {
    if s != [] {
      var p, x := s[..|s| - 1], s[|s| - 1];
      var r := Names(G, s);
      var i, j :| 0 <= i < j < |r| && r[i] == c && r[j] == d;
      var m := |Names(G, p)|;
      if j < m {
        assert Names(G, p)[i] == c && Names(G, p)[j] == d;
        NamesBefore(G, p, c, d);
        if Before(p, c.id, d.id) {
          var a, b :| 0 <= a < b < |p| && p[a] == c.id && p[b] == d.id;
          assert s[a] == c.id && s[b] == d.id;
        }
      } else if i < m {
        assert c in Names(G, p);
        NamesMembers(G, p, c);
        var a :| 0 <= a < |p| && p[a] == c.id;
        assert s[a] == c.id && s[|s| - 1] == d.id;
      }
    }
  }

  // ---- The table ----

  ghost predicate AllValid(G: Graph) {
    forall x <- G :: forall c <- G[x].cmds :: c.Valid()
  }

  lemma NamesOrder(G: Graph, s: seq<InstId>)
    requires AllValid(G) && (forall x <- s :: x in G) && NoRepeats(s)
    ensures Orders(Work(G), Names(G, s))
  {
    NamesDistinct(G, s);
    forall c | c in Names(G, s) ensures c in Work(G) && Work(G)[c].Valid() {
      NamesMembers(G, s, c);
    }
  }

  lemma {:induction false} FinalOne(G: Graph, t: Table, x: InstId, k: nat)
    requires AllValid(G) && x in G && k <= |G[x].cmds| && Orders(Work(G), NamesOf(G, x)[..k])
    ensures Final(Work(G), t, NamesOf(G, x)[..k]) == RunCmds(t, G[x].cmds[..k])
  {
    if k > 0 {
      var a, b := NamesOf(G, x)[..k - 1], [Name(x, k - 1)];
      assert a + b == NamesOf(G, x)[..k];
      assert forall i :: 0 <= i < k - 1 ==> a[i] == NamesOf(G, x)[..k][i];
      assert NamesOf(G, x)[..k][k - 1] == Name(x, k - 1);
      FinalOne(G, t, x, k - 1);
      FinalAppend(Work(G), t, a, b);
      assert b[1..] == [];
      assert G[x].cmds[..k][..k - 1] == G[x].cmds[..k - 1];
    }
  }

  lemma {:induction false} FinalBatch(G: Graph, t: Table, s: seq<InstId>)
    requires AllValid(G) && (forall x <- s :: x in G) && NoRepeats(s) && Orders(Work(G), Names(G, s))
    ensures Final(Work(G), t, Names(G, s)) == RunBatch(G, t, s)
  {
    if s == [] {
      assert Names(G, s) == [];
    } else {
      var p, x := s[..|s| - 1], s[|s| - 1];
      assert NoRepeats(p);
      NamesOrder(G, p);
      FinalBatch(G, t, p);
      FinalLast(G, t, Names(G, p), RunBatch(G, t, p), x);
    }
  }

  lemma FinalLast(G: Graph, t: Table, a: seq<Name>, u: Table, x: InstId)
    requires AllValid(G) && x in G && Orders(Work(G), a) && Orders(Work(G), a + NamesOf(G, x)) && Final(Work(G), t, a) == u
    ensures Final(Work(G), t, a + NamesOf(G, x)) == RunCmds(u, G[x].cmds)
  {
    OneInstance(G, u, x);
    hide AllValid, RunCmds, Work, Final, Names, NamesOf, Orders;
    FinalAppend(Work(G), t, a, NamesOf(G, x));
  }

  lemma OneInstance(G: Graph, u: Table, x: InstId)
    requires AllValid(G) && x in G
    ensures Orders(Work(G), NamesOf(G, x)) && Final(Work(G), u, NamesOf(G, x)) == RunCmds(u, G[x].cmds)
  {
    assert Names(G, [x]) == NamesOf(G, x) by { assert [x][..0] == []; }
    NamesOrder(G, [x]);
    hide AllValid, RunCmds, Work, Final, Names;
    assert NamesOf(G, x)[..|G[x].cmds|] == NamesOf(G, x) && G[x].cmds[..|G[x].cmds|] == G[x].cmds;
    FinalOne(G, u, x, |G[x].cmds|);
  }

  lemma {:induction false} BatchAppend(G: Graph, t: Table, a: seq<InstId>, b: seq<InstId>)
    requires forall x <- a + b :: x in G
    requires (forall x <- a :: x in G) && (forall x <- b :: x in G)
    ensures RunBatch(G, t, a + b) == RunBatch(G, RunBatch(G, t, a), b)
    decreases |b|
  {
    if b == [] {
      assert a + b == a;
    } else {
      var p := b[..|b| - 1];
      assert (a + b)[..|a + b| - 1] == a + p && (a + b)[|a + b| - 1] == b[|b| - 1];
      BatchAppend(G, t, a, p);
    }
  }

  lemma {:induction false} FlatStore(G: Graph, log: Log)
    requires Logged(G, log)
    ensures (forall x <- Flat(log) :: x in G) && RunLog(G, log) == RunBatch(G, map[], Flat(log))
  {
    if log != [] {
      FlatStore(G, log[..|log| - 1]);
      BatchAppend(G, map[], Flat(log[..|log| - 1]), log[|log| - 1]);
    }
  }

  // ---- Convergence ----

  // What the commit protocol owes the executor: instances that interfere are linked.
  ghost predicate Linked(G: Graph) {
    forall x, y :: x in G && y in G && x != y && Interfere(G, x, y) ==> Reach(G, x, y) || Reach(G, y, x)
  }

  ghost predicate Interfere(G: Graph, x: InstId, y: InstId)
    requires x in G && y in G
  {
    exists c, d :: c in G[x].cmds && d in G[y].cmds && c.Valid() && d.Valid() && Conflict(c, d)
  }

  ghost predicate SameInstances(a: Log, b: Log) {
    forall x :: InLog(a, x) <==> InLog(b, x)
  }

  lemma LoggedValid(G: Graph, log: Log)
    requires ValidLog(G, log)
    ensures Logged(G, log)
  {
    forall i | 0 <= i < |log| ensures forall x <- log[i] :: x in G { assert Sorted(G, log[i]); }
  }

  // An order of instances linked by dependencies is the same in both logs.
  lemma FlatAgree(G: Graph, a: Log, b: Log, x: InstId, y: InstId)
    requires ValidLog(G, a) && ValidLog(G, b) && UniqueKeys(G) && SameInstances(a, b)
    requires Before(Flat(a), x, y) && (Reach(G, x, y) || Reach(G, y, x)) && x != y
    ensures Before(Flat(b), x, y)
  {
    hide ValidLog, Reach, UniqueKeys, Ran;
    FlatMembers(a, x);
    FlatMembers(a, y);
    FlatMembers(b, x);
    FlatMembers(b, y);
    hide InLog;
    FlatRan(a, x, y);
    OrderIndependence(G, a, b, x, y);
    RanTotal(G, b, x, y);
    SeqTotal(Flat(b), x, y);
    if Before(Flat(b), y, x) { FlatRan(b, y, x); }
  }

  lemma NamesAgree(G: Graph, a: Log, b: Log, c: Name, d: Name)
    requires ValidLog(G, a) && ValidLog(G, b) && UniqueKeys(G) && SameInstances(a, b) && Linked(G) && AllValid(G)
    requires (forall x <- Flat(a) :: x in G) && (forall x <- Flat(b) :: x in G) && NoRepeats(Flat(a)) && NoRepeats(Flat(b))
    requires c in Work(G) && d in Work(G) && Work(G)[c].Valid() && Work(G)[d].Valid() && Conflict(Work(G)[c], Work(G)[d])
    requires Before(Names(G, Flat(a)), c, d)
    ensures Before(Names(G, Flat(b)), c, d)
  {
    hide ValidLog, Reach, UniqueKeys, Conflict, SameInstances;
    assert (c.id == d.id && c.k < d.k) || Before(Flat(a), c.id, d.id) by { NamesBefore(G, Flat(a), c, d); }
    NamesShared(G, a, b, c, d);
    if c.id != d.id {
      assert Interfere(G, c.id, d.id);
      FlatAgree(G, a, b, c.id, d.id);
    }
    NamesTotal(G, Flat(b), c, d);
  }

  lemma NamesShared(G: Graph, a: Log, b: Log, c: Name, d: Name)
    requires (forall x <- Flat(a) :: x in G) && (forall x <- Flat(b) :: x in G) && SameInstances(a, b)
    requires Before(Names(G, Flat(a)), c, d)
    ensures c in Names(G, Flat(b)) && d in Names(G, Flat(b))
  {
    assert c in Names(G, Flat(a)) && d in Names(G, Flat(a));
    NamesMembers(G, Flat(a), c);
    NamesMembers(G, Flat(a), d);
    NamesMembers(G, Flat(b), c);
    NamesMembers(G, Flat(b), d);
    FlatMembers(a, c.id);
    FlatMembers(a, d.id);
    FlatMembers(b, c.id);
    FlatMembers(b, d.id);
  }

  lemma NamesTotal(G: Graph, s: seq<InstId>, c: Name, d: Name)
    requires (forall x <- s :: x in G) && NoRepeats(s) && c in Names(G, s) && d in Names(G, s)
    requires (c.id == d.id && c.k < d.k) || (c.id != d.id && Before(s, c.id, d.id))
    ensures Before(Names(G, s), c, d)
  {
    SeqTotal(Names(G, s), c, d);
    if Before(Names(G, s), d, c) {
      NamesBefore(G, s, d, c);
    }
  }

  // Replicas that executed the same instances hold the same table and gave every command the same reply.
  lemma StoresConverge(G: Graph, a: Log, b: Log)
    requires ValidLog(G, a) && ValidLog(G, b) && SameInstances(a, b) && AllValid(G) && UniqueKeys(G) && Linked(G)
    ensures Logged(G, a) && Logged(G, b) && RunLog(G, a) == RunLog(G, b)
    ensures (forall x <- Flat(a) + Flat(b) :: x in G) && Orders(Work(G), Names(G, Flat(a))) && Orders(Work(G), Names(G, Flat(b)))
    ensures forall c <- Names(G, Flat(a)) :: c in Names(G, Flat(b))
              && ReplyOf(Work(G), map[], Names(G, Flat(a)), c) == ReplyOf(Work(G), map[], Names(G, Flat(b)), c)
  {
    hide ValidLog, UniqueKeys, Linked, Reach;
    LoggedValid(G, a);
    LoggedValid(G, b);
    FlatDistinct(G, a);
    FlatDistinct(G, b);
    FlatStore(G, a);
    FlatStore(G, b);
    NamesOrder(G, Flat(a));
    NamesOrder(G, Flat(b));
    FinalBatch(G, map[], Flat(a));
    FinalBatch(G, map[], Flat(b));
    assert Agree(Work(G), Names(G, Flat(a)), Names(G, Flat(b))) by { LogsAgree(G, a, b); }
    TraceEquivalence(Work(G), map[], Names(G, Flat(a)), Names(G, Flat(b)));
  }

  lemma LogsAgree(G: Graph, a: Log, b: Log)
    requires ValidLog(G, a) && ValidLog(G, b) && SameInstances(a, b) && AllValid(G) && UniqueKeys(G) && Linked(G)
    requires (forall x <- Flat(a) :: x in G) && (forall x <- Flat(b) :: x in G) && NoRepeats(Flat(a)) && NoRepeats(Flat(b))
    requires Orders(Work(G), Names(G, Flat(a))) && Orders(Work(G), Names(G, Flat(b)))
    ensures Agree(Work(G), Names(G, Flat(a)), Names(G, Flat(b)))
  {
    hide ValidLog, UniqueKeys, Linked, Conflict, AllValid, Flat, Names, Work, Before, SameInstances, NoRepeats;
    var p, q := Names(G, Flat(a)), Names(G, Flat(b));
    forall c ensures c in p <==> c in q { SameNames(G, a, b, c); }
    forall c, d | c in p && d in p && Conflict(Work(G)[c], Work(G)[d]) && Before(p, c, d) ensures Before(q, c, d) {
      NamesAgree(G, a, b, c, d);
    }
  }

  lemma SameNames(G: Graph, a: Log, b: Log, c: Name)
    requires SameInstances(a, b) && (forall x <- Flat(a) :: x in G) && (forall x <- Flat(b) :: x in G)
    ensures c in Names(G, Flat(a)) <==> c in Names(G, Flat(b))
  {
    NamesMembers(G, Flat(a), c);
    NamesMembers(G, Flat(b), c);
    FlatMembers(a, c.id);
    FlatMembers(b, c.id);
    hide Flat, Names, InLog;
  }

  // ---- Why Seq and replica must identify an instance in its component ----

  lemma SwapSorted(G: Graph, b: seq<InstId>, i: nat, j: nat)
    requires Sorted(G, b) && i < j < |b| && !KeyLess(G, b[i], b[j])
    ensures Sorted(G, b[i := b[j]][j := b[i]])
  {
    var c := b[i := b[j]][j := b[i]];
    assert b[i] in b && b[j] in b;
    assert G[b[i]].seqno == G[b[j]].seqno && b[i].rep == b[j].rep;
    forall k | 0 <= k < |c| ensures c[k] in b && G[c[k]].seqno == G[b[k]].seqno && c[k].rep == b[k].rep {
      assert b[k] in b;
    }
    forall k, l | 0 <= k < l < |c| ensures !KeyLess(G, c[l], c[k]) && c[k] != c[l] {
      assert !KeyLess(G, b[l], b[k]);
    }
  }

  lemma SwapValid(G: Graph, log: Log, n: nat, c: seq<InstId>)
    requires ValidLog(G, log) && n < |log| && Sorted(G, c) && |c| == |log[n]| && forall x :: x in c <==> x in log[n]
    ensures ValidLog(G, log[n := c]) && SameInstances(log, log[n := c])
  {
    var log2 := log[n := c];
    hide SameScc, Edge, Sorted;
    forall i, x | 0 <= i < |log| ensures x in log2[i] <==> x in log[i] {
    }
    assert ExactScc(G, c) by { assert ExactScc(G, log[n]); assert c[0] in c; }
    forall i, x, y | 0 <= i < |log2| && x in log2[i] && Edge(G, x, y) ensures exists j :: 0 <= j <= i && y in log2[j] {
      assert x in log[i];
      var j :| 0 <= j <= i && y in log[j];
      assert y in log2[j];
    }
    forall x ensures InLog(log, x) <==> InLog(log2, x) {
      if InLog(log, x) { var i :| 0 <= i < |log| && x in log[i]; assert x in log2[i]; }
      if InLog(log2, x) { var i :| 0 <= i < |log2| && x in log2[i]; assert x in log[i]; }
    }
  }

  lemma SwapMembers(s: seq<InstId>, a: nat, b: nat)
    requires a < |s| && b < |s|
    ensures forall z :: z in s[a := s[b]][b := s[a]] <==> z in s
  {
    var c := s[a := s[b]][b := s[a]];
    forall z | z in s ensures z in c {
      var k :| 0 <= k < |s| && s[k] == z;
      assert c[if k == a then b else if k == b then a else k] == z;
    }
  }

  // The other valid log, when two instances of a component tie on Seq and replica.
  lemma TieFlips(G: Graph, log: Log, x: InstId, y: InstId) returns (log2: Log)
    requires ValidLog(G, log) && Ran(log, x, y) && SameScc(G, x, y) && x in G && y in G
    requires !KeyLess(G, x, y) && !KeyLess(G, y, x)
    ensures ValidLog(G, log2) && SameInstances(log, log2) && Ran(log2, y, x)
  {
    var i, a, j, b :| At(log, i, a, x) && At(log, j, b, y) && (i < j || (i == j && a < b));
    hide SameScc, Edge;
    assert ExactScc(G, log[i]);
    assert i == j;
    assert Sorted(G, log[i]);
    var c := log[i][a := y][b := x];
    SwapSorted(G, log[i], a, b);
    SwapMembers(log[i], a, b);
    hide Sorted, ExactScc;
    SwapValid(G, log, i, c);
    log2 := log[i := c];
    assert At(log2, i, a, y) && At(log2, i, b, x);
  }

  // The order of two instances of one component is settled exactly when Seq and replica tell them apart.
  lemma OrderSettled(G: Graph, log: Log, x: InstId, y: InstId)
    requires ValidLog(G, log) && Ran(log, x, y) && SameScc(G, x, y) && x in G && y in G
    ensures (forall log2 :: ValidLog(G, log2) && SameInstances(log, log2) ==> Ran(log2, x, y)) <==> KeyLess(G, x, y) || KeyLess(G, y, x)
  {
    var i, a, j, b :| At(log, i, a, x) && At(log, j, b, y) && (i < j || (i == j && a < b));
    assert InLog(log, x) && InLog(log, y);
    hide ValidLog, InLog, At;
    SelfNotRan(G, log, x);
    if KeyLess(G, x, y) || KeyLess(G, y, x) {
      forall log2 | ValidLog(G, log2) && SameInstances(log, log2) ensures Ran(log2, x, y) {
        SettledRan(G, log, log2, x, y);
      }
    } else {
      var log2 := TieFlips(G, log, x, y);
      assert InLog(log2, x) && InLog(log2, y);
      RanTotal(G, log2, y, x);
    }
  }

  lemma SettledRan(G: Graph, log: Log, log2: Log, x: InstId, y: InstId)
    requires ValidLog(G, log) && ValidLog(G, log2) && SameInstances(log, log2) && Ran(log, x, y)
    requires SameScc(G, x, y) && x in G && y in G && (KeyLess(G, x, y) || KeyLess(G, y, x))
    ensures Ran(log2, x, y)
  {
    var i, a, j, b :| At(log, i, a, x) && At(log, j, b, y) && (i < j || (i == j && a < b));
    assert InLog(log, x) && InLog(log, y) && InLog(log2, x) && InLog(log2, y);
    var i2, a2 := Locate(log2, x);
    var j2, b2 := Locate(log2, y);
    LinkedBatches(G, log, x, y, i, j);
    LinkedBatches(G, log2, x, y, i2, j2);
    hide SameScc, Edge, Reach;
    assert Sorted(G, log[i]) && Sorted(G, log2[i2]);
  }
}
