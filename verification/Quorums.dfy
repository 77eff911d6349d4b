/** Quorum numbering and ballot coding (replica/quorum.go, replica/replica.go), and the
    search for a ballot whose quorum is alive (swift/swift.go). */
module Quorums {
  import opened Store

  type Quorum = set<nat>

  // For each leader its quorums, numbered 0, 1, ... in the order they were added.
  type QuorumSet = seq<seq<Quorum>>

  // ---- Enumeration ----

  // The sets that a call with quorum q reaches at size zero, in order. The recursion goes on
  // below zero after a hit.
  function Hits(n: nat, size: int, i: nat, q: Quorum): seq<Quorum>
    requires i <= n
    decreases n - i, 1
  {
    (if size == 0 then [q] else []) + HitsFrom(n, size, i, q)
  }

  function HitsFrom(n: nat, size: int, j: nat, q: Quorum): seq<Quorum>
    requires j <= n
    decreases n - j, 0
  {
    if j == n then [] else Hits(n, size - 1, j + 1, q + {j}) + HitsFrom(n, size, j + 1, q)
  }

  // The quorums with member l, in order.
  function With(s: seq<Quorum>, l: nat): seq<Quorum> {
    if s == [] then [] else With(s[..|s| - 1], l) + if l in s[|s| - 1] then [s[|s| - 1]] else []
  }

  lemma {:induction false} WithAppend(a: seq<Quorum>, b: seq<Quorum>, l: nat)
    ensures With(a + b, l) == With(a, l) + With(b, l)
    decreases |b|
  {
    if b == [] {
      assert a + b == a;
    } else {
      WithAppend(a, b[..|b| - 1], l);
      assert (a + b)[..|a + b| - 1] == a + b[..|b| - 1];
    }
  }

  lemma {:induction false} WithMembers(s: seq<Quorum>, l: nat, x: Quorum)
    ensures x in With(s, l) <==> x in s && l in x
  {
    if s != [] {
      WithMembers(s[..|s| - 1], l, x);
      assert s == s[..|s| - 1] + [s[|s| - 1]];
    }
  }

  lemma {:induction false} WithDistinct(s: seq<Quorum>, l: nat)
    requires NoRepeats(s)
    ensures NoRepeats(With(s, l))
  {
    if s != [] {
      var p := s[..|s| - 1];
      WithDistinct(p, l);
      WithMembers(p, l, s[|s| - 1]);
    }
  }

  lemma WithHits(n: nat, size: int, i: nat, q: Quorum, l: nat)
    requires i <= n
    ensures With(Hits(n, size, i, q), l) == (if size == 0 && l in q then [q] else []) + With(HitsFrom(n, size, i, q), l)
  {
    assert [q][..0] == [];
    WithAppend(if size == 0 then [q] else [], HitsFrom(n, size, i, q), l);
  }

  lemma WithHitsFrom(n: nat, size: int, i: nat, q: Quorum, l: nat)
    requires i < n
    ensures With(HitsFrom(n, size, i, q), l) == With(Hits(n, size - 1, i + 1, q + {i}), l) + With(HitsFrom(n, size, i + 1, q), l)
  {
    WithAppend(Hits(n, size - 1, i + 1, q + {i}), HitsFrom(n, size, i + 1, q), l);
  }

  lemma WithNone(n: nat, size: int, q: Quorum, l: nat)
    ensures With(HitsFrom(n, size, n, q), l) == []
  {
  }

  class Builder {
    const n: nat
    var q: Quorum
    var qs: QuorumSet

    constructor (n: nat)
      ensures this.n == n && q == {} && |qs| == n && forall l :: 0 <= l < n ==> qs[l] == []
    {
      this.n := n;
      q := {};
      qs := seq(n, _ => []);
    }

    method Subsets(size: int, i: nat)
      requires i <= n && |qs| == n && forall j :: i <= j < n ==> j !in q
      modifies this
      ensures q == old(q) && |qs| == n
      ensures forall l :: 0 <= l < n ==> qs[l] == old(qs)[l] + With(Hits(n, size, i, q), l)
      decreases n - i
    {
      hide With, Hits, HitsFrom;
      ghost var q0, qs0 := q, qs;
      if size == 0 {
        Record();
      }
      ghost var qs1 := qs;
      for j := i to n
        invariant q == q0 && |qs| == n
        invariant forall l :: 0 <= l < n ==> qs[l] + With(HitsFrom(n, size, j, q), l) == qs1[l] + With(HitsFrom(n, size, i, q), l)
      {
        q := q + {j};
        Subsets(size - 1, j + 1);
        q := q - {j};
        forall l | 0 <= l < n ensures qs[l] + With(HitsFrom(n, size, j + 1, q), l) == qs1[l] + With(HitsFrom(n, size, i, q), l) {
          WithHitsFrom(n, size, j, q, l);
        }
      }
      forall l | 0 <= l < n ensures qs[l] == qs0[l] + With(Hits(n, size, i, q), l) {
        WithHits(n, size, i, q, l);
        WithNone(n, size, q, l);
        assert qs[l] + [] == qs[l];
      }
    }

    // The current set becomes the next quorum of each of its members.
    method Record()
      requires |qs| == n
      modifies this`qs
      ensures |qs| == n && forall l :: 0 <= l < n ==> qs[l] == old(qs)[l] + if l in q then [q] else []
    {
      ghost var qs0 := qs;
      for rep := 0 to n
        invariant |qs| == n
        invariant forall l :: 0 <= l < rep ==> qs[l] == qs0[l] + if l in q then [q] else []
        invariant forall l :: rep <= l < n ==> qs[l] == qs0[l]
      {
        if rep in q {
          qs := qs[rep := qs[rep] + [q]];
        }
      }
    }
  }

  function Table(n: nat, size: int): QuorumSet {
    seq(n, l requires 0 <= l < n => With(Hits(n, size, 0, {}), l))
  }

  method NewQuorumSet(size: int, n: nat) returns (qs: QuorumSet)
    ensures qs == Table(n, size)
  {
    var b := new Builder(n);
    b.Subsets(size, 0);
    qs := b.qs;
    assert forall l :: 0 <= l < n ==> qs[l] == [] + With(Hits(n, size, 0, {}), l) == Table(n, size)[l];
  }

  // ---- The enumeration is exact ----

  function Range(i: nat, n: nat): (s: set<nat>)
    ensures forall x :: x in s <==> i <= x < n
    decreases n - i
  {
    if i >= n then {} else {i} + Range(i + 1, n)
  }

  // q extended by exactly `size` replicas of [i, n).
  ghost predicate Extends(n: nat, size: int, i: nat, q: Quorum, x: Quorum) {
    q <= x && x - q <= Range(i, n) && |x - q| == size
  }

  lemma {:induction false} HitsExact(n: nat, size: int, i: nat, q: Quorum, x: Quorum)
    requires i <= n && q !! Range(i, n)
    ensures x in Hits(n, size, i, q) <==> Extends(n, size, i, q, x)
    decreases n - i, 1
  {
    HitsFromExact(n, size, i, q, x);
    if size == 0 && x == q { assert x - q == {}; }
    if size == 0 && Extends(n, size, i, q, x) { assert x - q == {}; assert x == q; }
  }

  // Those found from position j on: the first added replica is at least j.
  lemma {:induction false} HitsFromExact(n: nat, size: int, j: nat, q: Quorum, x: Quorum)
    requires j <= n && q !! Range(j, n)
    ensures x in HitsFrom(n, size, j, q) <==> size > 0 && Extends(n, size, j, q, x)
    decreases n - j, 0
  {
    if j == n {
      if Extends(n, size, j, q, x) { assert x - q == {}; }
    } else {
      HitsExact(n, size - 1, j + 1, q + {j}, x);
      HitsFromExact(n, size, j + 1, q, x);
      if j in x {
        assert x - q == (x - (q + {j})) + {j};
        assert j !in x - (q + {j});
        RangeStep(j, n);
      } else {
        RangeStep(j, n);
      }
    }
  }

  lemma RangeStep(i: nat, n: nat)
    requires i < n
    ensures Range(i, n) == Range(i + 1, n) + {i}
  {
  }

  lemma JoinDistinct(a: seq<Quorum>, b: seq<Quorum>)
    requires NoRepeats(a) && NoRepeats(b) && forall x <- a :: x !in b
    ensures NoRepeats(a + b)
  {
    var s := a + b;
    forall i, j | 0 <= i < j < |s| ensures s[i] != s[j] {
      if i < |a| <= j { assert s[i] in a && s[j] in b; }
    }
  }

  lemma {:induction false} HitsDistinct(n: nat, size: int, i: nat, q: Quorum)
    requires i <= n && q !! Range(i, n)
    ensures NoRepeats(Hits(n, size, i, q))
    decreases n - i, 1
  {
    HitsFromDistinct(n, size, i, q);
    HitsFromExact(n, size, i, q, q);
  }

  lemma {:induction false} HitsFromDistinct(n: nat, size: int, j: nat, q: Quorum)
    requires j <= n && q !! Range(j, n)
    ensures NoRepeats(HitsFrom(n, size, j, q))
    decreases n - j, 0
  {
    if j < n {
      RangeStep(j, n);
      HitsDistinct(n, size - 1, j + 1, q + {j});
      HitsFromDistinct(n, size, j + 1, q);
      var a, b := Hits(n, size - 1, j + 1, q + {j}), HitsFrom(n, size, j + 1, q);
      forall x | x in a ensures x !in b {
        HitsExact(n, size - 1, j + 1, q + {j}, x);
        HitsFromExact(n, size, j + 1, q, x);
        assert j in x;
      }
      JoinDistinct(a, b);
    }
  }

  function Choose(n: nat, k: int): nat {
    if k < 0 then 0 else if k == 0 then 1 else if n == 0 then 0 else Choose(n - 1, k - 1) + Choose(n - 1, k)
  }

  lemma {:induction false} HitsCount(n: nat, size: int, i: nat, q: Quorum)
    requires i <= n
    ensures |Hits(n, size, i, q)| == Choose(n - i, size)
    ensures |HitsFrom(n, size, i, q)| == if size <= 0 then 0 else Choose(n - i, size)
    decreases n - i
  {
    if i < n {
      HitsCount(n, size - 1, i + 1, q + {i});
      HitsCount(n, size, i + 1, q);
    }
  }

  // How many of the sets contain l.
  lemma {:induction false} WithCount(n: nat, size: int, i: nat, q: Quorum, l: nat)
    requires i <= n && l < n
    ensures l in q ==> |With(Hits(n, size, i, q), l)| == Choose(n - i, size)
    ensures l in q ==> |With(HitsFrom(n, size, i, q), l)| == if size <= 0 then 0 else Choose(n - i, size)
    ensures l !in q && i <= l ==> |With(Hits(n, size, i, q), l)| == Choose(n - i - 1, size - 1)
    ensures l !in q && i <= l ==> |With(HitsFrom(n, size, i, q), l)| == Choose(n - i - 1, size - 1)
    ensures l !in q && l < i ==> With(Hits(n, size, i, q), l) == [] && With(HitsFrom(n, size, i, q), l) == []
    decreases n - i
  {
    WithHits(n, size, i, q, l);
    if i < n {
      WithCount(n, size - 1, i + 1, q + {i}, l);
      WithCount(n, size, i + 1, q, l);
      WithHitsFrom(n, size, i, q, l);
      hide With, Hits, HitsFrom;
      Pascal(n - i, size);
      if n - i > 1 { Pascal(n - i - 1, size - 1); }
    }
  }

  lemma Pascal(n: nat, k: int)
    requires n > 0
    ensures Choose(n, k) == Choose(n - 1, k - 1) + Choose(n - 1, k)
  {
  }

  // Which sets the leader's row holds.
  lemma RowHolds(n: nat, size: int, l: nat, x: Quorum)
    requires l < n
    ensures x in With(Hits(n, size, 0, {}), l) <==> l in x && |x| == size && forall r <- x :: r < n
  {
    WithMembers(Hits(n, size, 0, {}), l, x);
    HitsExact(n, size, 0, {}, x);
    hide With, Hits;
    assert x - {} == x;
    assert x <= Range(0, n) <==> forall r <- x :: r < n;
  }

  // For each leader, every set of the given size with that leader is stored exactly once,
  // under the numbers 0 .. C(n-1, size-1) - 1.
  lemma EnumerationExact(n: nat, size: int, l: nat)
    requires l < n
    ensures NoRepeats(Table(n, size)[l]) && |Table(n, size)[l]| == Choose(n - 1, size - 1)
    ensures forall x: Quorum :: x in Table(n, size)[l] <==> l in x && |x| == size && forall r <- x :: r < n
  {
    hide With, Hits, Choose, NoRepeats, Extends;
    var hits := Hits(n, size, 0, {});
    assert Table(n, size)[l] == With(hits, l);
    HitsDistinct(n, size, 0, {});
    WithDistinct(hits, l);
    WithCount(n, size, 0, {}, l);
    forall x: Quorum ensures x in Table(n, size)[l] <==> l in x && |x| == size && forall r <- x :: r < n {
      RowHolds(n, size, l, x);
    }
  }
}
