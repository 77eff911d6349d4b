/** How EPaxos computes the Seq and the dependencies of an instance (updateConflicts,
    updateAttributes and mergeAttributes of epaxos/epaxos.go), and three contending proposals
    that decide two instances of one replica with the same Seq. */
module EPaxosAttributes {
  import opened EPaxosGraph
  import PPaxos
  import opened Store

  type Row = map<Key, PPaxos.InstPair>

  // The new dependency in one row: the conflict of the first command that has a later one.
  function FirstAbove(row: Row, cmds: seq<Command>, dep: int): int {
    if cmds == [] then dep
    else if PPaxos.LatestConflict(row, cmds[0]) > dep then PPaxos.LatestConflict(row, cmds[0])
    else FirstAbove(row, cmds[1..], dep)
  }

  function RaiseAll(m: map<Key, int>, cmds: seq<Command>, seqno: int): map<Key, int>
    decreases |cmds|
  {
    if cmds == [] then m
    else
      var p, k := RaiseAll(m, cmds[..|cmds| - 1], seqno), cmds[|cmds| - 1].key;
      if k in p && p[k] >= seqno then p else p[k := seqno]
  }

  // Every key of the batch ends with the larger of its old number and the new one; no other key changes.
  lemma {:induction false} RaiseExact(m: map<Key, int>, cmds: seq<Command>, seqno: int, k: Key)
    ensures var r := RaiseAll(m, cmds, seqno); var touched := exists c <- cmds :: c.key == k;
            && (k in r <==> k in m || touched)
            && (k in r ==> r[k] == if touched && (k !in m || m[k] < seqno) then seqno else m[k])
    decreases |cmds|
  {
    if cmds != [] {
      var p, c := cmds[..|cmds| - 1], cmds[|cmds| - 1];
      RaiseExact(m, p, seqno, k);
      assert cmds == p + [c];
      assert (exists b <- cmds :: b.key == k) <==> (exists b <- p :: b.key == k) || c.key == k;
    }
  }

  ghost predicate RowKnown(row: Row, q: nat, seqs: map<InstId, int>) {
    forall k <- row ::
      && row[k].last >= 0 && row[k].lastWrite >= -1 && InstId(q, row[k].last) in seqs
      && (row[k].lastWrite >= 0 ==> InstId(q, row[k].lastWrite) in seqs)
  }

  // The search stops at command i: it is the first with a later conflict than dep.
  predicate StopsAt(row: Row, cmds: seq<Command>, dep: int, i: nat)
    requires i < |cmds|
  {
    PPaxos.LatestConflict(row, cmds[i]) > dep && forall k :: 0 <= k < i ==> PPaxos.LatestConflict(row, cmds[k]) <= dep
  }

  lemma {:induction false} FirstAboveIs(row: Row, cmds: seq<Command>, dep: int)
    ensures forall i: nat :: i < |cmds| && StopsAt(row, cmds, dep, i) ==> FirstAbove(row, cmds, dep) == PPaxos.LatestConflict(row, cmds[i])
    ensures (forall i: nat :: i < |cmds| ==> !StopsAt(row, cmds, dep, i)) ==>
              FirstAbove(row, cmds, dep) == dep && forall c <- cmds :: PPaxos.LatestConflict(row, c) <= dep
  {
    hide PPaxos.LatestConflict;
    if cmds != [] {
      var rest := cmds[1..];
      FirstAboveIs(row, rest, dep);
      if PPaxos.LatestConflict(row, cmds[0]) > dep {
        assert StopsAt(row, cmds, dep, 0);
      } else {
        forall i: nat | i < |cmds| && StopsAt(row, cmds, dep, i) ensures StopsAt(row, rest, dep, i - 1) { }
        forall i: nat | i < |rest| && StopsAt(row, rest, dep, i) ensures StopsAt(row, cmds, dep, i + 1) { }
        assert forall c <- cmds :: c == cmds[0] || c in rest;
      }
    }
  }

  // The new dependency reaches the latest conflict of every command of the batch if and only if no
  // command after the one where the search stops has a later conflict than that one.
  lemma BatchCovered(row: Row, cmds: seq<Command>, dep: int)
    ensures (forall c <- cmds :: PPaxos.LatestConflict(row, c) <= FirstAbove(row, cmds, dep)) <==>
              forall i: nat, j: nat :: i < j < |cmds| && StopsAt(row, cmds, dep, i) ==>
                PPaxos.LatestConflict(row, cmds[j]) <= PPaxos.LatestConflict(row, cmds[i])
  {
    FirstAboveIs(row, cmds, dep);
    hide PPaxos.LatestConflict, FirstAbove;
    if i: nat :| i < |cmds| && StopsAt(row, cmds, dep, i) {
      forall j: nat | j < |cmds| ensures j <= i ==> PPaxos.LatestConflict(row, cmds[j]) <= PPaxos.LatestConflict(row, cmds[i]) { }
      assert forall k: nat :: k < |cmds| && StopsAt(row, cmds, dep, k) ==> k == i;
    }
  }

  // A batch of two PUTs that misses the later of two conflicts.
  lemma BatchMisses()
    ensures var row, cmds := map[1 := PPaxos.InstPair(0, 0), 2 := PPaxos.InstPair(1, 1)], [Command(PUT, 1, NIL), Command(PUT, 2, NIL)];
            FirstAbove(row, cmds, -1) == 0 < PPaxos.LatestConflict(row, cmds[1])
  {
  }

  lemma {:induction false} FirstKnown(row: Row, cmds: seq<Command>, dep: int, q: nat, seqs: map<InstId, int>)
    requires RowKnown(row, q, seqs) && dep >= -1
    ensures var d := FirstAbove(row, cmds, dep); d >= dep && (d > dep ==> InstId(q, d) in seqs)
    decreases |cmds|
  {
    if cmds != [] { FirstKnown(row, cmds[1..], dep, q, seqs); }
  }

  lemma {:induction false} RecordKnown(row: Row, cmds: seq<Command>, q: nat, inst: nat, seqs: map<InstId, int>)
    requires RowKnown(row, q, seqs) && InstId(q, inst) in seqs
    ensures RowKnown(PPaxos.Record(row, cmds, inst), q, seqs)
    decreases |cmds|
  {
    if cmds != [] { RecordKnown(row, cmds[..|cmds| - 1], q, inst, seqs); }
  }

  // seq2 is the least number not below seqno and above the Seq of every dependency that was raised
  // and of everything recorded on the keys.
  ghost predicate IsSeq(seqs: map<InstId, int>, maxSeq: map<Key, int>, cmds: seq<Command>, seqno: int, deps: seq<int>, seq2: int, deps2: seq<int>)
  {
    && |deps| == |deps2| && seq2 >= seqno
    && (forall q: nat :: q < |deps| ==> deps2[q] >= deps[q] >= -1 && (deps2[q] > deps[q] ==> InstId(q, deps2[q]) in seqs && seq2 > seqs[InstId(q, deps2[q])]))
    && (forall c <- cmds :: c.key in maxSeq ==> seq2 > maxSeq[c.key])
    && (seq2 == seqno || (exists q: nat :: q < |deps| && deps2[q] > deps[q] && seq2 == seqs[InstId(q, deps2[q])] + 1)
          || exists c <- cmds :: c.key in maxSeq && seq2 == maxSeq[c.key] + 1)
  }

  // What one replica knows for computing attributes.
  class Attributes {
    const id: nat
    const n: nat
    var conflicts: seq<Row>
    var maxSeqPerKey: map<Key, int>
    // The Seq of every instance with commands.
    var seqs: map<InstId, int>

    ghost predicate Valid()
      reads this
    {
      id < n == |conflicts| && forall q :: 0 <= q < n ==> RowKnown(conflicts[q], q, seqs)
    }

    constructor (id: nat, n: nat)
      requires id < n
      ensures Valid() && this.id == id && this.n == n
      ensures conflicts == seq(n, _ => map[]) && maxSeqPerKey == map[] && seqs == map[]
    {
      this.id, this.n := id, n;
      conflicts, maxSeqPerKey, seqs := seq(n, _ => map[]), map[], map[];
    }

    method UpdateConflicts(cmds: seq<Command>, x: InstId, seqno: int)
      requires Valid() && x.rep < n && x in seqs
      modifies this`conflicts, this`maxSeqPerKey
      ensures Valid() && conflicts == old(conflicts)[x.rep := PPaxos.Record(old(conflicts)[x.rep], cmds, x.inst)]
      ensures maxSeqPerKey == RaiseAll(old(maxSeqPerKey), cmds, seqno)
    {
      ghost var was := conflicts;
      for i := 0 to |cmds|
        invariant |conflicts| == n && conflicts == was[x.rep := PPaxos.Record(was[x.rep], cmds[..i], x.inst)]
        invariant maxSeqPerKey == RaiseAll(old(maxSeqPerKey), cmds[..i], seqno)
      {
        assert cmds[..i + 1][..i] == cmds[..i];
        var row, k := conflicts[x.rep], cmds[i].key;
        if k in row {
          var pair := row[k];
          if pair.last < x.inst {
            pair := pair.(last := x.inst);
          }
          if pair.lastWrite < x.inst && cmds[i].op != GET {
            pair := pair.(lastWrite := x.inst);
          }
          row := row[k := pair];
        } else {
          row := row[k := PPaxos.InstPair(x.inst, if cmds[i].op != GET then x.inst else -1)];
        }
        conflicts := conflicts[x.rep := row];
        if k !in maxSeqPerKey || maxSeqPerKey[k] < seqno {
          maxSeqPerKey := maxSeqPerKey[k := seqno];
        }
      }
      assert cmds[..|cmds|] == cmds;
      RecordKnown(was[x.rep], cmds, x.rep, x.inst, seqs);
    }

    // Each column takes the first later conflict of a command, and Seq the least number above what
    // was taken and recorded; another replica leaves the proposer's own column alone.
    method UpdateAttributes(cmds: seq<Command>, seqno: int, deps: seq<int>, replica: nat) returns (seq2: int, deps2: seq<int>, changed: bool)
      requires Valid() && |deps| == n && forall q :: 0 <= q < n ==> deps[q] >= -1
      ensures |deps2| == n && forall q :: 0 <= q < n ==> deps2[q] == if id != replica && q == replica then deps[q] else FirstAbove(conflicts[q], cmds, deps[q])
      ensures IsSeq(seqs, maxSeqPerKey, cmds, seqno, deps, seq2, deps2)
      ensures changed <==> (seq2, deps2) != (seqno, deps)
    {
      hide FirstAbove, RowKnown, PPaxos.LatestConflict;
      seq2, deps2, changed := seqno, deps, false;
      for q := 0 to n
        invariant |deps2| == n && forall j :: q <= j < n ==> deps2[j] == deps[j]
        invariant forall j :: 0 <= j < q ==> deps2[j] == if id != replica && j == replica then deps[j] else FirstAbove(conflicts[j], cmds, deps[j])
        invariant IsSeq(seqs, map[], [], seqno, deps, seq2, deps2)
        invariant changed <==> deps2 != deps
      {
        if !(id != replica && q == replica) {
          FirstKnown(conflicts[q], cmds, deps[q], q, seqs);
          var d := FirstConflict(cmds, q, deps[q]);
          if d > deps2[q] {
            deps2 := deps2[q := d];
            if seq2 <= seqs[InstId(q, d)] {
              seq2 := seqs[InstId(q, d)] + 1;
            }
            changed := true;
          }
        }
      }
      for i := 0 to |cmds|
        invariant IsSeq(seqs, maxSeqPerKey, cmds[..i], seqno, deps, seq2, deps2)
        invariant changed <==> (seq2, deps2) != (seqno, deps)
      {
        assert cmds[..i + 1] == cmds[..i] + [cmds[i]];
        if cmds[i].key in maxSeqPerKey && seq2 <= maxSeqPerKey[cmds[i].key] {
          changed := true;
          seq2 := maxSeqPerKey[cmds[i].key] + 1;
        }
      }
      assert cmds[..|cmds|] == cmds;
    }

    // The loop over the commands of one row; it stops at the first later conflict.
    method FirstConflict(cmds: seq<Command>, q: nat, dep: int) returns (d: int)
      requires q < |conflicts| && dep >= -1
      ensures d == FirstAbove(conflicts[q], cmds, dep)
    {
      for i := 0 to |cmds|
        invariant FirstAbove(conflicts[q], cmds, dep) == FirstAbove(conflicts[q], cmds[i..], dep)
      {
        assert cmds[i..][0] == cmds[i] && cmds[i..][1..] == cmds[i + 1..];
        if cmds[i].key in conflicts[q] {
          d := conflicts[q][cmds[i].key].lastWrite;
          if cmds[i].op != GET {
            d := conflicts[q][cmds[i].key].last;
          }
          if d > dep {
            return;
          }
        }
      }
      d := dep;
    }

    // startPhase1: the attributes of an own new instance.
    method StartPhase1(cmds: seq<Command>, instance: nat) returns (seqno: int, deps: seq<int>)
      requires Valid()
      modifies this
      ensures Valid() && |deps| == n && forall q :: 0 <= q < n ==> deps[q] == FirstAbove(old(conflicts)[q], cmds, -1) >= -1
      ensures IsSeq(old(seqs), old(maxSeqPerKey), cmds, 0, seq(n, _ => -1), seqno, deps)
      ensures seqs == old(seqs)[InstId(id, instance) := seqno] && maxSeqPerKey == RaiseAll(old(maxSeqPerKey), cmds, seqno)
      ensures conflicts == old(conflicts)[id := PPaxos.Record(old(conflicts)[id], cmds, instance)]
    {
      var changed;
      seqno, deps, changed := UpdateAttributes(cmds, 0, seq(n, _ => -1), id);
      seqs := seqs[InstId(id, instance) := seqno];
      UpdateConflicts(cmds, InstId(id, instance), seqno);
    }

    // handlePreAccept, for an instance that was not accepted before: the attributes of the reply.
    method HandlePreAccept(x: InstId, cmds: seq<Command>, seqno: int, deps: seq<int>) returns (seq2: int, deps2: seq<int>)
      requires Valid() && x.rep < n && |deps| == n && forall q :: 0 <= q < n ==> deps[q] >= -1
      modifies this
      ensures Valid() && |deps2| == n
      ensures forall q :: 0 <= q < n ==> deps2[q] == if id != x.rep && q == x.rep then deps[q] else FirstAbove(old(conflicts)[q], cmds, deps[q])
      ensures IsSeq(old(seqs), old(maxSeqPerKey), cmds, seqno, deps, seq2, deps2)
      ensures seqs == old(seqs)[x := seq2] && maxSeqPerKey == RaiseAll(old(maxSeqPerKey), cmds, seqno)
      ensures conflicts == old(conflicts)[x.rep := PPaxos.Record(old(conflicts)[x.rep], cmds, x.inst)]
    {
      var changed;
      seq2, deps2, changed := UpdateAttributes(cmds, seqno, deps, x.rep);
      seqs := seqs[x := seq2];
      UpdateConflicts(cmds, x, seqno);
    }
  }

  // The leader takes a reply: the larger Seq, and column by column the larger dependency, except its own.
  method MergeAttributes(id: nat, seq1: int, deps1: seq<int>, seq2: int, deps2: seq<int>) returns (seqno: int, deps: seq<int>, equal: bool)
    requires |deps1| == |deps2|
    ensures seqno == (if seq2 > seq1 then seq2 else seq1) && |deps| == |deps1|
    ensures forall q :: 0 <= q < |deps1| ==> deps[q] == if q != id && deps2[q] > deps1[q] then deps2[q] else deps1[q]
    ensures equal <==> seq1 == seq2 && forall q :: 0 <= q < |deps1| && q != id ==> deps1[q] == deps2[q]
  {
    seqno, deps, equal := seq1, deps1, seq1 == seq2;
    if seq2 > seq1 {
      seqno := seq2;
    }
    for q := 0 to |deps1|
      invariant |deps| == |deps1| && forall j :: q <= j < |deps1| ==> deps[j] == deps1[j]
      invariant forall j :: 0 <= j < q ==> deps[j] == if j != id && deps2[j] > deps1[j] then deps2[j] else deps1[j]
      invariant equal <==> seq1 == seq2 && forall j :: 0 <= j < q && j != id ==> deps1[j] == deps2[j]
    {
      if q != id && deps1[q] != deps2[q] {
        equal := false;
        if deps2[q] > deps1[q] {
          deps := deps[q := deps2[q]];
        }
      }
    }
  }

  // ---- Three contending proposals ----

  lemma OneCommand(row: Row, m: map<Key, int>, c: Command, dep: int, inst: nat, seqno: int)
    ensures FirstAbove(row, [c], dep) == if PPaxos.LatestConflict(row, c) > dep then PPaxos.LatestConflict(row, c) else dep
    ensures PPaxos.Record(row, [c], inst) == PPaxos.RecordCmd(row, c, inst)
    ensures RaiseAll(m, [c], seqno) == if c.key in m && m[c.key] >= seqno then m else m[c.key := seqno]
  {
    assert [c][..0] == [];
  }

  // No conflict is found: the Seq stays.
  lemma NothingRaised(seqs: map<InstId, int>, m: map<Key, int>, c: Command, seqno: int, deps: seq<int>, seq2: int)
    requires IsSeq(seqs, m, [c], seqno, deps, seq2, deps) && (c.key in m ==> m[c.key] < seqno)
    ensures seq2 == seqno
  {
  }

  // One conflict is found: the Seq is the next after the conflict's.
  lemma OneRaised(seqs: map<InstId, int>, m: map<Key, int>, c: Command, seqno: int, deps: seq<int>, seq2: int, q: nat, d: int)
    requires q < |deps| && d > deps[q] && IsSeq(seqs, m, [c], seqno, deps, seq2, deps[q := d])
    requires InstId(q, d) in seqs && seqs[InstId(q, d)] >= seqno && (c.key in m ==> m[c.key] <= seqs[InstId(q, d)])
    ensures seq2 == seqs[InstId(q, d)] + 1
  {
    var deps2 := deps[q := d];
    assert forall j: nat :: j < |deps| && deps2[j] > deps[j] ==> j == q;
  }

  // The first proposal of a key at a replica.
  method StartFirst(id: nat, c: Command) returns (r: Attributes, seqno: int, deps: seq<int>)
    requires id < 3
    ensures fresh(r) && r.Valid() && r.id == id && r.n == 3 && seqno == 0 && deps == [-1, -1, -1]
    ensures r.conflicts == seq(3, _ => map[])[id := PPaxos.RecordCmd(map[], c, 0)]
    ensures r.maxSeqPerKey == map[c.key := 0] && r.seqs == map[InstId(id, 0) := 0]
  {
    r := new Attributes(id, 3);
    hide IsSeq, FirstAbove, RaiseAll, PPaxos.Record, Attributes.Valid;
    OneCommand(map[], map[], c, -1, 0, 0);
    seqno, deps := r.StartPhase1([c], 0);
    assert deps == seq(3, _ => -1);
    NothingRaised(map[], map[], c, 0, deps, seqno);
  }

  // Replica 0 proposes two PUTs of k.
  method StartTwo(k: Key, v: Value, w: Value) returns (r: Attributes, sx: int, dx: seq<int>, sy: int, dy: seq<int>)
    ensures fresh(r) && r.Valid() && r.id == 0 && r.n == 3 && sx == 0 && dx == [-1, -1, -1] && sy == 1 && dy == [0, -1, -1]
    ensures r.conflicts == [map[k := PPaxos.InstPair(1, 1)], map[], map[]]
    ensures r.maxSeqPerKey == map[k := 1] && r.seqs == map[InstId(0, 0) := 0, InstId(0, 1) := 1]
  {
    r, sx, dx := StartFirst(0, Command(PUT, k, v));
    hide IsSeq, FirstAbove, RaiseAll, PPaxos.Record, Attributes.Valid;
    ghost var row, m, seqs, none := r.conflicts[0], r.maxSeqPerKey, r.seqs, seq(3, _ => -1);
    var c := Command(PUT, k, w);
    assert row == map[k := PPaxos.InstPair(0, 0)];
    OneCommand(row, m, c, -1, 1, 1);
    OneCommand(map[], m, c, -1, 1, 1);
    sy, dy := r.StartPhase1([c], 1);
    assert dy == none[0 := 0];
    OneRaised(seqs, m, c, 0, none, sy, 0, 0);
    assert PPaxos.RecordCmd(row, c, 1) == map[k := PPaxos.InstPair(1, 1)];
    assert r.conflicts == [map[k := PPaxos.InstPair(1, 1)], map[], map[]];
    assert r.seqs == map[InstId(0, 0) := 0, InstId(0, 1) := 1];
    assert r.maxSeqPerKey == map[k := 1];
  }

  // A reply to the first instance of another replica raises one column, to the conflict found in row q.
  method Answer(r: Attributes, x: InstId, c: Command, seqno: int, deps: seq<int>, q: nat, d: int) returns (seq2: int, deps2: seq<int>)
    requires r.Valid() && r.n == 3 == |r.conflicts| && x.rep < 3 && |deps| == 3 && (forall j :: 0 <= j < 3 ==> deps[j] >= -1) && q < 3 && (q != x.rep || r.id == q)
    requires forall j :: 0 <= j < 3 && j != q ==> r.conflicts[j] == map[]
    requires PPaxos.LatestConflict(r.conflicts[q], c) == d > deps[q] && InstId(q, d) in r.seqs && r.seqs[InstId(q, d)] >= seqno
    requires c.key in r.maxSeqPerKey ==> r.maxSeqPerKey[c.key] <= r.seqs[InstId(q, d)]
    modifies r
    ensures deps2 == deps[q := d] && seq2 == old(r.seqs)[InstId(q, d)] + 1
  {
    hide IsSeq, FirstAbove, RaiseAll, PPaxos.Record, Attributes.Valid;
    ghost var seqs, m, rows := r.seqs, r.maxSeqPerKey, r.conflicts;
    forall j | 0 <= j < 3 ensures FirstAbove(rows[j], [c], deps[j]) == if j == q then d else deps[j] {
      OneCommand(rows[j], m, c, deps[j], 0, 0);
    }
    seq2, deps2 := r.HandlePreAccept(x, [c], seqno, deps);
    assert deps2 == deps[q := d];
    OneRaised(seqs, m, c, seqno, deps, seq2, q, d);
  }

  // A reply of a replica that knows nothing agrees.
  method Agree(x: InstId, c: Command, seqno: int, deps: seq<int>) returns (seq2: int, deps2: seq<int>)
    requires x.rep < 3 && |deps| == 3 && forall j :: 0 <= j < 3 ==> deps[j] >= -1
    ensures seq2 == seqno && deps2 == deps
  {
    var r := new Attributes(2, 3);
    hide IsSeq, FirstAbove, RaiseAll, PPaxos.Record, Attributes.Valid;
    forall j | 0 <= j < 3 ensures FirstAbove(map[], [c], deps[j]) == deps[j] {
      OneCommand(map[], map[], c, deps[j], 0, 0);
    }
    seq2, deps2 := r.HandlePreAccept(x, [c], seqno, deps);
    assert deps2 == deps;
    NothingRaised(map[], map[], c, seqno, deps, seq2);
  }

  // Replica 1 proposes a GET of k while replica 0 proposes two PUTs of k. Replica 1 answers the
  // first PUT, replica 2 the second, replica 0 the GET: each has its quorum of two.
  method Contend(k: Key, v: Value, w: Value) returns (x: Node, y: Node, z: Node)
    ensures x == EPaxosGraph.Node([Command(PUT, k, v)], 1, [-1, 0, -1])
    ensures y == EPaxosGraph.Node([Command(PUT, k, w)], 1, [0, -1, -1])
    ensures z == EPaxosGraph.Node([Command(GET, k, NIL)], 2, [1, -1, -1])
  {
    var cx, cy, cz := Command(PUT, k, v), Command(PUT, k, w), Command(GET, k, NIL);
    var r1, sz, dz := StartFirst(1, cz);
    var r0, sx, dx, sy, dy := StartTwo(k, v, w);
    assert r1.conflicts[1] == map[k := PPaxos.InstPair(0, -1)];
    var s, d := Answer(r1, InstId(0, 0), cx, sx, dx, 1, 0);
    var eq;
    sx, dx, eq := MergeAttributes(0, sx, dx, s, d);
    s, d := Agree(InstId(0, 1), cy, sy, dy);
    sy, dy, eq := MergeAttributes(0, sy, dy, s, d);
    s, d := Answer(r0, InstId(1, 0), cz, sz, dz, 0, 1);
    sz, dz, eq := MergeAttributes(1, sz, dz, s, d);
    x, y, z := EPaxosGraph.Node([cx], sx, dx), EPaxosGraph.Node([cy], sy, dy), EPaxosGraph.Node([cz], sz, dz);
    assert dx == [-1, 0, -1] && dy == [0, -1, -1] && dz == [1, -1, -1];
  }
}
