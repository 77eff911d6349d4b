/** Which dependency lists SwiftPaxos compares (getDepAndHashes of swift/swift.go against
    Dep.Equals): those of single-key commands always compare exactly, those of SCANs may not. */
module SwiftAcks {
  import opened CommandIds
  import MsgSets
  import opened Store
  import SwiftDeps
  import opened SwiftKeys

  // A PUT or a GET has at most one dependency, so a comparison with its list is exact.
  lemma SingleKeyExact(h: seq<SwiftDeps.Proposal>, i: nat, b: seq<CommandId>)
    requires SwiftDeps.History(h) && i < |h| && !h[i].cmd.op.SCAN?
    ensures |SwiftDeps.DepOf(h, i)| <= 1
    ensures MsgSets.EqualLists(SwiftDeps.DepOf(h, i), b) <==> MsgSets.SameSet(SwiftDeps.DepOf(h, i), b)
  {
    hide SwiftDeps.Register, SwiftDeps.InfoAt, SwiftDeps.KeysAfter;
    var p := h[i];
    var keys := SwiftDeps.KeysAfter(h[..i]);
    SwiftDeps.InfoIsLast(h, i, p.cmd.key);
    CollectStep(keys, [], p.cmd.key, p.cmd, p.id);
    assert [] + [p.cmd.key] == SwiftDeps.KeysOf(p.cmd);
    MsgSets.ExactOn(SwiftDeps.DepOf(h, i), b);
  }

  lemma CollectStep(keys: SwiftDeps.Keys, ks: seq<Key>, k: Key, c: Command, id: CommandId)
    ensures SwiftDeps.Collect(keys, ks + [k], c, id)
         == SwiftDeps.Collect(keys, ks, c, id) + SwiftDeps.Conflicts(SwiftDeps.InfoAt(SwiftDeps.Register(keys, ks, c, id), k), c)
    ensures ks == [] ==> SwiftDeps.Collect(keys, ks, c, id) == [] && SwiftDeps.Register(keys, ks, c, id) == keys
  {
    assert (ks + [k])[..|ks|] == ks;
  }

  // ---- Two SCANs that cross ----

  // A SCAN of n keys from k on.
  function Scan(k: Key, n: Byte): Command {
    Command(SCAN, k, [n, 0, 0, 0, 0, 0, 0, 0])
  }

  lemma {:induction false} ZeroTail(v: Value)
    requires forall i :: 0 <= i < |v| ==> v[i] == 0
    ensures LittleEndian(v) == 0
    decreases |v|
  {
    if v != [] { ZeroTail(v[1..]); }
  }

  lemma SmallKey(k: int)
    requires 0 <= k < 2000
    ensures Wrap64(k) == k
  {
  }

  lemma ScanKeys(k: Key, n: Byte)
    requires 0 <= k < 1000
    ensures Scan(k, n).Valid() && |SwiftDeps.KeysOf(Scan(k, n))| == n
    ensures forall i :: 0 <= i < n ==> SwiftDeps.KeysOf(Scan(k, n))[i] == k + i
  {
    var v := Scan(k, n).val;
    assert v[..8] == v;
    assert v[1..] == [0, 0, 0, 0, 0, 0, 0];
    ZeroTail(v[1..]);
    hide Wrap64;
    forall i | 0 <= i < n ensures SwiftDeps.KeysOf(Scan(k, n))[i] == k + i {
      SmallKey(k + i);
    }
  }

  // A SCAN over three keys collects the last command of each.
  lemma CollectThree(keys: SwiftDeps.Keys, c: Command, id: CommandId)
    requires c.op.SCAN?
    ensures SwiftDeps.Collect(keys, [1, 2, 3], c, id)
         == SwiftDeps.InfoAt(keys, 1).lastCmd + SwiftDeps.InfoAt(keys, 2).lastCmd + SwiftDeps.InfoAt(keys, 3).lastCmd
  {
    hide SwiftDeps.Collect, SwiftDeps.Register, SwiftDeps.InfoAt;
    CollectStep(keys, [], 1, c, id);
    CollectStep(keys, [1], 2, c, id);
    CollectStep(keys, [1, 2], 3, c, id);
    SwiftDeps.RegisterAt(keys, [1], c, id, 2);
    SwiftDeps.RegisterAt(keys, [1, 2], c, id, 3);
    assert [] + [1 as Key] == [1] && [1 as Key] + [2] == [1, 2] && [1 as Key, 2] + [3] == [1, 2, 3];
  }

  // What a SCAN over two keys leaves as the last command of a key.
  lemma AfterScan(keys: SwiftDeps.Keys, first: Key, id: CommandId, k: Key)
    requires 0 <= first < 1000
    ensures Scan(first, 2).Valid()
    ensures SwiftDeps.InfoAt(SwiftDeps.Register(keys, SwiftDeps.KeysOf(Scan(first, 2)), Scan(first, 2), id), k).lastCmd
         == if k == first || k == first + 1 then [id] else SwiftDeps.InfoAt(keys, k).lastCmd
  {
    ScanKeys(first, 2);
    hide SwiftDeps.KeysOf, SwiftDeps.Register, SwiftDeps.InfoAt;
    var ks := SwiftDeps.KeysOf(Scan(first, 2));
    assert ks[0] == first && ks[1] == first + 1;
    SwiftDeps.RegisterAt(keys, ks, Scan(first, 2), id, k);
  }

  lemma ThreeKeys()
    ensures Scan(1, 3).Valid() && SwiftDeps.KeysOf(Scan(1, 3)) == [1, 2, 3] && Scan(1, 3).op.SCAN?
  {
    ScanKeys(1, 3);
    hide SwiftDeps.KeysOf;
  }

  // What two SCANs of two keys leave at keys 1, 2 and 3.
  lemma LastCommands(m0: SwiftDeps.Keys, m1: SwiftDeps.Keys, m2: SwiftDeps.Keys, first: Key, x: CommandId, second: Key, y: CommandId)
    requires (first == 1 && second == 2) || (first == 2 && second == 1)
    requires Scan(first, 2).Valid() && Scan(second, 2).Valid()
    requires m1 == SwiftDeps.Register(m0, SwiftDeps.KeysOf(Scan(first, 2)), Scan(first, 2), x)
    requires m2 == SwiftDeps.Register(m1, SwiftDeps.KeysOf(Scan(second, 2)), Scan(second, 2), y)
    ensures SwiftDeps.InfoAt(m2, 1).lastCmd == if second == 1 then [y] else [x]
    ensures SwiftDeps.InfoAt(m2, 2).lastCmd == [y]
    ensures SwiftDeps.InfoAt(m2, 3).lastCmd == if second == 2 then [y] else [x]
  {
    hide SwiftDeps.Register, SwiftDeps.KeysOf, SwiftDeps.InfoAt, Scan;
    AfterScan(m0, first, x, 1);
    AfterScan(m0, first, x, 2);
    AfterScan(m0, first, x, 3);
    AfterScan(m1, second, y, 1);
    AfterScan(m1, second, y, 2);
    AfterScan(m1, second, y, 3);
  }

  lemma ThirdCollects(m0: SwiftDeps.Keys, m1: SwiftDeps.Keys, m2: SwiftDeps.Keys, first: Key, x: CommandId, second: Key, y: CommandId, z: CommandId)
    requires (first == 1 && second == 2) || (first == 2 && second == 1)
    requires Scan(first, 2).Valid() && Scan(second, 2).Valid() && Scan(1, 3).Valid()
    requires m1 == SwiftDeps.Register(m0, SwiftDeps.KeysOf(Scan(first, 2)), Scan(first, 2), x)
    requires m2 == SwiftDeps.Register(m1, SwiftDeps.KeysOf(Scan(second, 2)), Scan(second, 2), y)
    ensures SwiftDeps.Collect(m2, SwiftDeps.KeysOf(Scan(1, 3)), Scan(1, 3), z) == if second == 2 then [x, y, y] else [y, y, x]
  {
    hide *;
    ThreeKeys();
    CollectThree(m2, Scan(1, 3), z);
    LastCommands(m0, m1, m2, first, x, second, y);
  }

  // SCAN x over keys 1 and 2 and SCAN y over keys 2 and 3, in either order, then SCAN z over all three.
  method DepsOfThird(first: Key, x: CommandId, second: Key, y: CommandId, z: CommandId) returns (dep: seq<CommandId>)
    requires (first == 1 && second == 2) || (first == 2 && second == 1)
    ensures dep == if second == 2 then [x, y, y] else [y, y, x]
  {
    hide *;
    ThreeKeys();
    ScanKeys(first, 2);
    ScanKeys(second, 2);
    var t := new DepTracker();
    ghost var m0 := t.Value();
    var _ := t.GetDep(Scan(first, 2), x);
    ghost var m1 := t.Value();
    var _ := t.GetDep(Scan(second, 2), y);
    ghost var m2 := t.Value();
    dep := t.GetDep(Scan(1, 3), z);
    ThirdCollects(m0, m1, m2, first, x, second, y, z);
  }

  // A leader that saw x before y and a follower that saw y before x list the same dependencies
  // for z, and Dep.Equals rejects them: a vote for the leader's set is not counted.
  method CrossedScans(x: CommandId, y: CommandId, z: CommandId) returns (leader: seq<CommandId>, follower: seq<CommandId>, eq: bool)
    requires x != y
    ensures leader == [x, y, y] && follower == [x, x, y]
    ensures MsgSets.SameSet(leader, follower) && !eq && !MsgSets.EqualLists(leader, follower)
  {
    leader := DepsOfThird(1, x, 2, y, z);
    follower := DepsOfThird(2, y, 1, x, z);
    eq := MsgSets.Equals(leader, follower);
    MsgSets.SeenThree(x, x, y, x, y, y);
    assert y in MsgSets.Toggle(MsgSets.Toggle(({}, {}), x, x), y, x).0;
    assert MsgSets.Elems(leader) == {x, y} == MsgSets.Elems(follower);
  }
}
