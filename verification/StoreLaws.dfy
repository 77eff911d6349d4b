/** What a client may rely on (state/state.go): a read returns the last write before it, and the
    conflict test orders two commands only if their order can be seen. */
module StoreLaws {
  import opened Store

  // ---- Read your write ----

  // j is the last PUT of k before position i, or -1 if there is none.
  ghost predicate IsLastPut<K>(w: Workload<K>, s: seq<K>, k: Key, i: nat, j: int)
    requires Orders(w, s) && i <= |s|
  {
    && -1 <= j < i
    && (j >= 0 ==> w[s[j]].op.PUT? && w[s[j]].key == k)
    && forall l :: j < l < i ==> !(w[s[l]].op.PUT? && w[s[l]].key == k)
  }

  lemma PrefixOrders<K>(w: Workload<K>, s: seq<K>, i: nat)
    requires Orders(w, s) && i <= |s|
    ensures Orders(w, s[..i])
  {
  }

  // The table before position i holds the last PUT of every key, over the initial table.
  lemma {:induction false} TableHolds<K>(w: Workload<K>, t: Table, s: seq<K>, k: Key, i: nat, j: int)
    requires Orders(w, s) && i <= |s| && IsLastPut(w, s, k, i, j)
    ensures Orders(w, s[..i])
    ensures var u := Final(w, t, s[..i]);
            (k in u <==> j >= 0 || k in t) && (k in u ==> u[k] == if j >= 0 then w[s[j]].val else t[k])
    decreases i
  {
    PrefixOrders(w, s, i);
    if i > 0 {
      PrefixOrders(w, s, i - 1);
      assert s[..i] == s[..i - 1] + [s[i - 1]];
      FinalAppend(w, t, s[..i - 1], [s[i - 1]]);
      OneMore(w, Final(w, t, s[..i - 1]), s[i - 1]);
      if j < i - 1 { TableHolds(w, t, s, k, i - 1, j); }
    }
  }

  lemma OneMore<K>(w: Workload<K>, t: Table, x: K)
    requires Orders(w, [x])
    ensures Final(w, t, [x]) == Effect(t, w[x])
  {
    SuffixOrders(w, [x]);
    assert [x][1..] == [];
  }

  lemma {:induction false} ReplyAt<K>(w: Workload<K>, t: Table, s: seq<K>, i: nat)
    requires Orders(w, s) && i < |s|
    ensures Orders(w, s[..i]) && ReplyOf(w, t, s, s[i]) == Reply(Final(w, t, s[..i]), w[s[i]])
    decreases |s|
  {
    PrefixOrders(w, s, i);
    if i > 0 {
      SuffixOrders(w, s);
      var rest := s[1..];
      ReplyAt(w, Effect(t, w[s[0]]), rest, i - 1);
      assert rest[i - 1] == s[i] && rest[..i - 1] == s[..i][1..] && s[..i][0] == s[0];
      hide Reply, Effect;
    }
  }

  // In any order a GET answers with the last PUT of its key before it; without one, with what the
  // table held at the start.
  lemma ReadsLastPut<K>(w: Workload<K>, t: Table, s: seq<K>, i: nat, j: int)
    requires Orders(w, s) && i < |s| && w[s[i]].op.GET? && IsLastPut(w, s, w[s[i]].key, i, j)
    ensures var k := w[s[i]].key;
            ReplyOf(w, t, s, s[i]) == if j >= 0 then w[s[j]].val else if k in t then t[k] else NIL
  {
    TableHolds(w, t, s, w[s[i]].key, i, j);
    ReplyAt(w, t, s, i);
    hide Final, ReplyOf;
  }

  // ---- The conflict test ----

  // Neither the table nor a reply shows which of the two ran first.
  ghost predicate Unseen(t: Table, c: Command, d: Command)
    requires c.Valid() && d.Valid()
  {
    && Effect(Effect(t, c), d) == Effect(Effect(t, d), c)
    && Reply(Effect(t, c), d) == Reply(t, d) && Reply(Effect(t, d), c) == Reply(t, c)
  }

  // Two commands conflict exactly when some table shows their order, except two PUTs of one value and
  // a PUT with a no-op.
  lemma ConflictExact(c: Command, d: Command)
    requires c.Valid() && d.Valid()
    ensures (exists t :: !Unseen(t, c, d)) <==> Conflict(c, d) && !c.op.NONE? && !d.op.NONE? && !(c.op.PUT? && d.op.PUT? && c.val == d.val)
  {
    if Conflict(c, d) {
      if c.op.NONE? || d.op.NONE? {
        forall t ensures Unseen(t, c, d) { }
      } else if c.op.PUT? && d.op.PUT? {
        TwoPuts(c, d);
      } else if c.op.PUT? {
        ReadSeesPut(c, d);
      } else {
        ConflictSymmetric(c, d);
        ReadSeesPut(d, c);
      }
    } else {
      forall t ensures Unseen(t, c, d) { Commute(t, c, d); }
    }
  }

  lemma TwoPuts(c: Command, d: Command)
    requires c.Valid() && d.Valid() && c.op.PUT? && d.op.PUT? && Conflict(c, d)
    ensures (exists t :: !Unseen(t, c, d)) <==> c.val != d.val
  {
    assert c.key == d.key;
    if c.val == d.val {
      forall t ensures Unseen(t, c, d) { }
    } else {
      var t: Table := map[];
      assert Effect(Effect(t, c), d)[c.key] == d.val && Effect(Effect(t, d), c)[c.key] == c.val;
      assert !Unseen(t, c, d);
    }
  }

  // A read in whose range a PUT lies answers differently before and after it, if the key held another value.
  lemma ReadSeesPut(p: Command, r: Command)
    requires p.Valid() && r.Valid() && p.op.PUT? && (r.op.GET? || r.op.SCAN?) && Conflict(p, r)
    ensures exists t :: !Unseen(t, p, r) && !Unseen(t, r, p)
  {
    var t: Table := map[p.key := p.val + [0]];
    var u := Effect(t, p);
    assert u == map[p.key := p.val];
    if r.op.SCAN? {
      OneKey(t, p.key, r.key, UpperBound(r));
      OneKey(u, p.key, r.key, UpperBound(r));
    }
    assert Reply(t, r) == p.val + [0] && Reply(u, r) == p.val;
    assert |Reply(t, r)| != |Reply(u, r)|;
    assert !Unseen(t, p, r) && !Unseen(t, r, p);
  }

  lemma OneKey(t: Table, k: Key, lo: Key, hi: Key)
    requires t.Keys == {k} && lo <= k <= hi
    ensures Ascending(InRange(t, lo, hi)) == t[k]
  {
    var m := InRange(t, lo, hi);
    assert m == t && IsMin(k, m.Keys);
    AscendingStep(m, k);
    assert m - {k} == map[];
  }

  // ---- The range of a SCAN ----

  function Weight(i: nat): nat { if i == 0 then 1 else 256 * Weight(i - 1) }

  // Byte i of the range counts 256^i.
  lemma {:induction false} RangeBytes(v: Value, b: Byte)
    ensures LittleEndian([]) == 0 && LittleEndian(v + [b]) == LittleEndian(v) + b * Weight(|v|)
    decreases |v|
  {
    if v == [] {
      assert v + [b] == [b] && [b][1..] == [];
    } else {
      assert (v + [b])[0] == v[0] && (v + [b])[1..] == v[1..] + [b];
      RangeBytes(v[1..], b);
      ShiftWeight(b, Weight(|v| - 1));
    }
  }

  lemma ShiftWeight(b: nat, x: nat)
    ensures 256 * (b * x) == b * (256 * x)
  {
  }
}
