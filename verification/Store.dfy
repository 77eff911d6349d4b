/** The key-value store every protocol replicates (state/state.go): commands,
    their conflict test, their execution, and the theorem that justifies
    ordering only the conflicting commands. */
module Store {

  type Byte = b: int | 0 <= b < 256
  type Value = seq<Byte>
  type Key = k: int | -0x8000_0000_0000_0000 <= k < 0x8000_0000_0000_0000

  datatype Operation = NONE | PUT | GET | SCAN

  datatype Command = Command(op: Operation, key: Key, val: Value) {
    // A SCAN carries its range as eight little-endian bytes; the source panics on fewer.
    predicate Valid() { op.SCAN? ==> |val| >= 8 }
  }

  const NIL: Value := []

  // Two's-complement wrap-around of a 64-bit addition.
  function Wrap64(x: int): Key {
    (x + 0x8000_0000_0000_0000) % 0x1_0000_0000_0000_0000 - 0x8000_0000_0000_0000
  }

  function LittleEndian(v: Value): nat
    decreases |v|
  {
    if v == [] then 0 else v[0] + 256 * LittleEndian(v[1..])
  }

  // The last key a SCAN reads: the bound is inclusive.
  function UpperBound(c: Command): Key
    requires c.op.SCAN? && c.Valid()
  {
    Wrap64(c.key + Wrap64(LittleEndian(c.val[..8])))
  }

  predicate Conflict(gamma: Command, delta: Command)
    requires gamma.Valid() && delta.Valid()
  {
    if gamma.op.SCAN? && delta.op.SCAN? then false
    else
      var key := if gamma.op.SCAN? then delta.key else gamma.key;
      var lb := if gamma.op.SCAN? then gamma.key else delta.key;
      var ub := if gamma.op.SCAN? then UpperBound(gamma)
                else if delta.op.SCAN? then UpperBound(delta) else delta.key;
      lb <= key <= ub && (gamma.op.PUT? || delta.op.PUT?)
  }

  method ConflictBatch(batch1: seq<Command>, batch2: seq<Command>) returns (conflict: bool)
    requires forall c <- batch1 + batch2 :: c.Valid()
    ensures conflict <==> exists i, j :: 0 <= i < |batch1| && 0 <= j < |batch2| && Conflict(batch1[i], batch2[j])
  {
    assert forall i :: 0 <= i < |batch1| ==> batch1[i] == (batch1 + batch2)[i];
    assert forall j :: 0 <= j < |batch2| ==> batch2[j] == (batch1 + batch2)[|batch1| + j];
    for i := 0 to |batch1|
      invariant forall i', j :: 0 <= i' < i && 0 <= j < |batch2| ==> !Conflict(batch1[i'], batch2[j])
    {
      for j := 0 to |batch2|
        invariant forall j' :: 0 <= j' < j ==> !Conflict(batch1[i], batch2[j'])
      {
        if Conflict(batch1[i], batch2[j]) {
          return true;
        }
      }
    }
    return false;
  }

  // ---- Execution ----

  type Table = map<Key, Value>

  function InRange(m: Table, lo: int, hi: int): Table {
    map k | k in m && lo <= k <= hi :: m[k]
  }

  // Values in ascending key order, as the tree map iterates.
  ghost function Ascending(m: Table): Value
    decreases |m|
  {
    if m == map[] then []
    else
      MinExists(m.Keys);
      var k :| IsMin(k, m.Keys);
      m[k] + Ascending(m - {k})
  }

  ghost predicate IsMin(k: Key, ks: set<Key>) { k in ks && forall j <- ks :: k <= j }

  lemma MinExists(ks: set<Key>)
    requires ks != {}
    ensures exists k :: IsMin(k, ks)
  {
    var j :| j in ks;
    if ks == {j} {
      assert IsMin(j, ks);
    } else {
      MinExists(ks - {j});
      var k :| IsMin(k, ks - {j});
      assert ks == (ks - {j}) + {j};
      assert IsMin(if j < k then j else k, ks);
    }
  }

  ghost function Reply(t: Table, c: Command): Value
    requires c.Valid()
  {
    match c.op
    case GET => if c.key in t then t[c.key] else NIL
    case SCAN => Ascending(InRange(t, c.key, UpperBound(c)))
    case _ => NIL
  }

  function Effect(t: Table, c: Command): Table {
    if c.op.PUT? then t[c.key := c.val] else t
  }

  // The keys of a range in ascending order.
  ghost predicate IsRange(t: Table, lo: Key, hi: Key, ks: seq<Key>) {
    && (forall i, j :: 0 <= i < j < |ks| ==> ks[i] < ks[j])
    && forall k :: k in ks <==> k in t && lo <= k <= hi
  }

  function ValuesOf(t: Table, ks: seq<Key>): Value
    requires forall k <- ks :: k in t
  {
    if ks == [] then NIL else t[ks[0]] + ValuesOf(t, ks[1..])
  }

  // v is the values of all keys from lo to hi, both included, in ascending key order.
  ghost predicate IsScan(t: Table, lo: Key, hi: Key, v: Value) {
    exists ks :: IsRange(t, lo, hi, ks) && v == ValuesOf(t, ks)
  }

  // What each operation answers.
  lemma ReplyIs(t: Table, c: Command)
    requires c.Valid()
    ensures c.op.PUT? || c.op.NONE? ==> Reply(t, c) == NIL
    ensures c.op.GET? ==> Reply(t, c) == if c.key in t then t[c.key] else NIL
    ensures c.op.SCAN? ==> IsScan(t, c.key, UpperBound(c), Reply(t, c))
  {
    if c.op.SCAN? {
      var m := InRange(t, c.key, UpperBound(c));
      var ks := AscendingKeys(m);
      SameValues(m, t, ks);
      assert IsRange(t, c.key, UpperBound(c), ks);
    }
  }

  lemma {:induction false} AscendingKeys(m: Table) returns (ks: seq<Key>)
    ensures (forall i, j :: 0 <= i < j < |ks| ==> ks[i] < ks[j]) && (forall k :: k in ks <==> k in m)
    ensures Ascending(m) == ValuesOf(m, ks)
    decreases |m|
  {
    if m == map[] {
      ks := [];
    } else {
      MinExists(m.Keys);
      var k :| IsMin(k, m.Keys);
      AscendingStep(m, k);
      var rest := AscendingKeys(m - {k});
      hide Ascending, IsMin, ValuesOf;
      SmallestFirst(m, k, rest);
      ks := [k] + rest;
    }
  }

  lemma SmallestFirst(m: Table, k: Key, rest: seq<Key>)
    requires IsMin(k, m.Keys) && (forall i, j :: 0 <= i < j < |rest| ==> rest[i] < rest[j]) && forall l :: l in rest <==> l in m - {k}
    ensures var ks := [k] + rest;
            && (forall i, j :: 0 <= i < j < |ks| ==> ks[i] < ks[j]) && (forall l :: l in ks <==> l in m)
            && ValuesOf(m, ks) == m[k] + ValuesOf(m - {k}, rest)
  {
    SameValues(m - {k}, m, rest);
    var ks := [k] + rest;
    assert ks[1..] == rest;
    forall j | 0 < j < |ks| ensures k < ks[j] { assert ks[j] == rest[j - 1] && ks[j] in rest; }
  }

  lemma {:induction false} SameValues(m: Table, t: Table, ks: seq<Key>)
    requires forall k <- ks :: k in m && k in t && m[k] == t[k]
    ensures ValuesOf(m, ks) == ValuesOf(t, ks)
  {
    if ks != [] { SameValues(m, t, ks[1..]); }
  }

  class State {
    var store: Table

    constructor ()
      ensures store == map[]
    {
      store := map[];
    }

    method Execute(c: Command) returns (v: Value)
      requires c.Valid()
      modifies this
      ensures store == Effect(old(store), c) && v == Reply(old(store), c)
      ensures store == if c.op.PUT? then old(store)[c.key := c.val] else old(store)
      ensures c.op.PUT? || c.op.NONE? ==> v == NIL
      ensures c.op.GET? ==> v == if c.key in old(store) then old(store)[c.key] else NIL
      ensures c.op.SCAN? ==> IsScan(old(store), c.key, UpperBound(c), v)
    {
      ReplyIs(store, c);
      match c.op {
        case PUT => store := store[c.key := c.val];
        case GET =>
          if c.key in store {
            return store[c.key];
          }
        case SCAN =>
          var rest := InRange(store, c.key, UpperBound(c));
          v := [];
          while rest != map[]
            invariant store == old(store)
            invariant v + Ascending(rest) == Ascending(InRange(store, c.key, UpperBound(c)))
            decreases |rest|
          {
            MinExists(rest.Keys);
            var k :| k in rest.Keys && forall j <- rest.Keys :: k <= j;
            AscendingStep(rest, k);
            v := v + rest[k];
            rest := rest - {k};
          }
          assert v == v + Ascending(rest);
          return;
        case NONE =>
      }
      return NIL;
    }
  }

  lemma AscendingStep(m: Table, k: Key)
    requires IsMin(k, m.Keys)
    ensures Ascending(m) == m[k] + Ascending(m - {k})
  {
    assert forall j :: IsMin(j, m.Keys) ==> j == k;
  }

  // ---- Trace equivalence ----

  lemma ConflictSymmetric(c: Command, d: Command)
    requires c.Valid() && d.Valid()
    ensures Conflict(c, d) == Conflict(d, c)
  {
  }

  // Commands that do not conflict commute: same store either way, and neither changes the other's reply.
  lemma Commute(t: Table, c: Command, d: Command)
    requires c.Valid() && d.Valid() && !Conflict(c, d)
    ensures Effect(Effect(t, c), d) == Effect(Effect(t, d), c)
    ensures Reply(Effect(t, c), d) == Reply(t, d)
    ensures Reply(Effect(t, d), c) == Reply(t, c)
  {
    ReplyUnaffected(t, c, d);
    ConflictSymmetric(c, d);
    ReplyUnaffected(t, d, c);
  }

  lemma ReplyUnaffected(t: Table, c: Command, d: Command)
    requires c.Valid() && d.Valid() && !Conflict(c, d)
    ensures Reply(Effect(t, c), d) == Reply(t, d)
  {
    if c.op.PUT? && d.op.SCAN? {
      var ub := UpperBound(d);
      assert !(d.key <= c.key <= ub);
      assert InRange(t[c.key := c.val], d.key, ub) == InRange(t, d.key, ub);
    }
  }

  // A workload names its commands; an execution order is a duplicate-free sequence of names.
  type Workload<K(==)> = map<K, Command>

  predicate Orders<K>(w: Workload<K>, s: seq<K>) {
    && (forall x <- s :: x in w && w[x].Valid())
    && (forall i, j :: 0 <= i < j < |s| ==> s[i] != s[j])
  }

  predicate Before<T(==)>(s: seq<T>, x: T, y: T) {
    exists i, j :: 0 <= i < j < |s| && s[i] == x && s[j] == y
  }

  ghost predicate NoRepeats<T>(s: seq<T>) {
    forall i, j :: 0 <= i < j < |s| ==> s[i] != s[j]
  }

  lemma SeqTotal<T>(s: seq<T>, x: T, y: T)
    requires x in s && y in s && x != y
    ensures Before(s, x, y) || Before(s, y, x)
  {
    var i :| 0 <= i < |s| && s[i] == x;
    var j :| 0 <= j < |s| && s[j] == y;
    assert if i < j then Before(s, x, y) else Before(s, y, x);
  }

  lemma {:induction false} DistinctSize<T>(s: seq<T>)
    requires NoRepeats(s)
    ensures |set x | x in s| == |s|
    decreases |s|
  {
    if s == [] {
      assert (set x | x in s) == {};
    } else {
      var p, last := s[..|s| - 1], s[|s| - 1];
      DistinctSize(p);
      assert s == p + [last];
      assert (set x | x in s) == (set x | x in p) + {last};
    }
  }

  // Both orders run the same commands and place every conflicting pair the same way.
  ghost predicate Agree<K>(w: Workload<K>, a: seq<K>, b: seq<K>)
    requires Orders(w, a) && Orders(w, b)
  {
    && (forall x <- a :: x in b) && (forall x <- b :: x in a)
    && (forall x, y :: x in a && y in a && Conflict(w[x], w[y]) && Before(a, x, y) ==> Before(b, x, y))
  }

  function Final<K>(w: Workload<K>, t: Table, s: seq<K>): Table
    requires Orders(w, s)
    decreases |s|
  {
    if s == [] then t else Final(w, Effect(t, w[s[0]]), s[1..])
  }

  ghost function ReplyOf<K>(w: Workload<K>, t: Table, s: seq<K>, x: K): Value
    requires Orders(w, s) && x in s
    decreases |s|
  {
    if s[0] == x then Reply(t, w[x]) else ReplyOf(w, Effect(t, w[s[0]]), s[1..], x)
  }

  lemma {:induction false} FinalAppend<K>(w: Workload<K>, t: Table, a: seq<K>, b: seq<K>)
    requires Orders(w, a + b) && Orders(w, a) && Orders(w, b)
    ensures Final(w, t, a + b) == Final(w, Final(w, t, a), b)
    decreases |a|
  {
    if a == [] {
      assert a + b == b;
    } else {
      assert (a + b)[0] == a[0] && (a + b)[1..] == a[1..] + b;
      SuffixOrders(w, a + b);
      SuffixOrders(w, a);
      FinalAppend(w, Effect(t, w[a[0]]), a[1..], b);
    }
  }

  // Moving a command to the front past commands it does not conflict with changes nothing.
  lemma {:induction false} MoveToFront<K>(w: Workload<K>, t: Table, p: seq<K>, x: K, q: seq<K>)
    requires Orders(w, p + [x] + q) && Orders(w, [x] + p + q)
    requires forall y <- p :: !Conflict(w[x], w[y])
    ensures Final(w, t, p + [x] + q) == Final(w, t, [x] + p + q)
    ensures forall y <- p + [x] + q :: ReplyOf(w, t, p + [x] + q, y) == ReplyOf(w, t, [x] + p + q, y)
    decreases |p|
  {
    if p == [] {
      assert p + [x] + q == [x] + p + q;
    } else {
      var u, rest := p[0], p[1..];
      var left, right := p + [x] + q, [x] + p + q;
      assert left == [u] + rest + [x] + q && right == [x] + [u] + rest + q;
      assert left[0] == u && left[1..] == rest + [x] + q;
      assert right[0] == x && right[1..] == p + q && (p + q)[0] == u && (p + q)[1..] == rest + q;
      var mid := [x] + rest + q;
      assert mid[1..] == rest + q;
      assert forall i :: 0 <= i < |mid| ==> mid[i] in right;
      SuffixOrders(w, left);
      SuffixOrders(w, right);
      assert Orders(w, mid) by {
        assert forall i :: 1 <= i < |mid| ==> mid[i] == right[i + 1];
      }
      var t1 := Effect(t, w[u]);
      MoveToFront(w, t1, rest, x, q);
      Commute(t, w[x], w[u]);
      SuffixOrders(w, p + q);
      forall y | y in left ensures ReplyOf(w, t, left, y) == ReplyOf(w, t, right, y) {
        MoveToFrontReply(w, t, rest, x, q, u, y);
      }
    }
  }

  lemma SuffixOrders<K>(w: Workload<K>, s: seq<K>)
    requires Orders(w, s) && s != []
    ensures Orders(w, s[1..])
  {
  }

  lemma MoveToFrontReply<K>(w: Workload<K>, t: Table, rest: seq<K>, x: K, q: seq<K>, u: K, y: K)
    requires Orders(w, [u] + rest + [x] + q) && Orders(w, [x] + [u] + rest + q)
    requires Orders(w, rest + [x] + q) && Orders(w, [x] + rest + q)
    requires !Conflict(w[x], w[u])
    requires y in [u] + rest + [x] + q
    requires forall z <- rest + [x] + q ::
               ReplyOf(w, Effect(t, w[u]), rest + [x] + q, z) == ReplyOf(w, Effect(t, w[u]), [x] + rest + q, z)
    ensures ReplyOf(w, t, [u] + rest + [x] + q, y) == ReplyOf(w, t, [x] + [u] + rest + q, y)
  {
    var left, right := [u] + rest + [x] + q, [x] + [u] + rest + q;
    assert left[0] == u && left[1..] == rest + [x] + q;
    var r1 := [u] + rest + q;
    assert right[0] == x && right[1..] == r1;
    assert r1[0] == u && r1[1..] == rest + q;
    var mid := [x] + rest + q;
    assert mid[0] == x && mid[1..] == rest + q;
    Commute(t, w[x], w[u]);
    if y == u {
    } else {
      assert y in left[1..];
      if y == x {
      } else {
        assert y in mid;
      }
    }
  }

  // Trace equivalence: orders that agree on conflicting pairs end in the same store and give the same replies.
  lemma {:induction false} TraceEquivalence<K>(w: Workload<K>, t: Table, a: seq<K>, b: seq<K>)
    requires Orders(w, a) && Orders(w, b) && Agree(w, a, b)
    ensures Final(w, t, a) == Final(w, t, b)
    ensures forall x <- a :: ReplyOf(w, t, a, x) == ReplyOf(w, t, b, x)
    decreases |a|
  {
    hide Conflict, Effect, Reply;
    if a == [] {
      SameMembersEmpty(a, b);
    } else {
      var x := a[0];
      assert x in b;
      var k :| 0 <= k < |b| && b[k] == x;
      var p, q := b[..k], b[k + 1..];
      assert b == p + [x] + q;
      FirstIsFree(w, a, b, k);
      var b' := [x] + p + q;
      RotatedOrders(w, b, k);
      MoveToFront(w, t, p, x, q);
      assert b'[0] == x && b'[1..] == p + q;
      SuffixOrders(w, a);
      TailAgrees(w, a, b, k);
      TraceEquivalence(w, Effect(t, w[x]), a[1..], p + q);
      forall y | y in a ensures ReplyOf(w, t, a, y) == ReplyOf(w, t, b, y) {
        assert y in b;
        if y != x { assert y in a[1..]; }
      }
    }
  }

  lemma SameMembersEmpty<K>(a: seq<K>, b: seq<K>)
    requires forall x :: x in a <==> x in b
    ensures a == [] ==> b == []
  {
    if b != [] {
      assert b[0] in b;
    }
  }

  lemma RotatedOrders<K>(w: Workload<K>, b: seq<K>, k: nat)
    requires Orders(w, b) && k < |b|
    ensures Orders(w, [b[k]] + b[..k] + b[k + 1..])
    ensures Orders(w, b[..k] + b[k + 1..])
  {
    var c := [b[k]] + b[..k] + b[k + 1..];
    assert forall i :: 0 <= i < |c| ==> c[i] == if i == 0 then b[k] else if i <= k then b[i - 1] else b[i];
    var d := b[..k] + b[k + 1..];
    assert forall i :: 0 <= i < |d| ==> d[i] == c[i + 1];
  }

  lemma FirstIsFree<K>(w: Workload<K>, a: seq<K>, b: seq<K>, k: nat)
    requires Orders(w, a) && Orders(w, b) && Agree(w, a, b)
    requires a != [] && k < |b| && b[k] == a[0]
    ensures forall y <- b[..k] :: !Conflict(w[a[0]], w[y])
  {
    forall y | y in b[..k] ensures !Conflict(w[a[0]], w[y]) {
      var i :| 0 <= i < k && b[i] == y;
      assert y in b;
      var j :| 0 <= j < |a| && a[j] == y;
      assert y != a[0];
      assert Conflict(w[a[0]], w[y]) ==> Before(a, a[0], y);
    }
  }

  lemma TailAgrees<K>(w: Workload<K>, a: seq<K>, b: seq<K>, k: nat)
    requires Orders(w, a) && Orders(w, b) && Agree(w, a, b)
    requires a != [] && k < |b| && b[k] == a[0]
    ensures Orders(w, a[1..]) && Orders(w, b[..k] + b[k + 1..])
    ensures Agree(w, a[1..], b[..k] + b[k + 1..])
  {
    RotatedOrders(w, b, k);
    SuffixOrders(w, a);
    var d := b[..k] + b[k + 1..];
    TailMembers(a, b, k);
    forall x, y | x in a[1..] && y in a[1..] && Conflict(w[x], w[y]) && Before(a[1..], x, y)
      ensures Before(d, x, y)
    {
      hide Conflict;
      RemoveMember(a, 0, x);
      RemoveMember(a, 0, y);
      assert a[..0] + a[1..] == a[1..];
      BeforeTail(a, x, y);
      BeforeRemove(b, k, x, y);
    }
  }

  lemma TailMembers<K>(a: seq<K>, b: seq<K>, k: nat)
    requires a != [] && k < |b| && b[k] == a[0]
    requires forall x :: x in a <==> x in b
    requires forall i, j :: 0 <= i < j < |a| ==> a[i] != a[j]
    requires forall i, j :: 0 <= i < j < |b| ==> b[i] != b[j]
    ensures forall z :: z in a[1..] <==> z in b[..k] + b[k + 1..]
  {
    var d := b[..k] + b[k + 1..];
    forall z ensures z in a[1..] <==> z in d {
      RemoveMember(a, 0, z);
      RemoveMember(b, k, z);
      assert a[..0] + a[1..] == a[1..];
    }
  }

  lemma RemoveMember<K>(s: seq<K>, k: nat, z: K)
    requires k < |s| && forall i, j :: 0 <= i < j < |s| ==> s[i] != s[j]
    ensures z in s[..k] + s[k + 1..] <==> z in s && z != s[k]
  {
    var d := s[..k] + s[k + 1..];
    if z in d {
      var i :| 0 <= i < |d| && d[i] == z;
      assert z == s[if i < k then i else i + 1];
    }
    if z in s && z != s[k] {
      var i :| 0 <= i < |s| && s[i] == z;
      assert d[if i < k then i else i - 1] == z;
    }
  }

  lemma BeforeTail<K>(s: seq<K>, x: K, y: K)
    requires s != [] && Before(s[1..], x, y)
    ensures Before(s, x, y)
  {
    var i, j :| 0 <= i < j < |s[1..]| && s[1..][i] == x && s[1..][j] == y;
    assert s[i + 1] == x && s[j + 1] == y;
  }

  lemma BeforeRemove<K>(s: seq<K>, k: nat, x: K, y: K)
    requires k < |s| && Before(s, x, y) && x != s[k] && y != s[k]
    ensures Before(s[..k] + s[k + 1..], x, y)
  {
    var d := s[..k] + s[k + 1..];
    var i, j :| 0 <= i < j < |s| && s[i] == x && s[j] == y;
    assert d[if i < k then i else i - 1] == x;
    assert d[if j < k then j else j - 1] == y;
  }
}
