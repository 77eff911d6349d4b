/** The per-key hash log of SwiftPaxos (swift/dpath.go), on values: what Append and Update
    compute, and why a follower's hashes agree with its leader's. */
module HashLogSpec {
  import opened CommandIds
  import opened Store

  type SHash = seq<Byte>

  // SHA-256 is left uninterpreted: a function from byte blocks to hashes.
  type Digest = seq<Byte> -> SHash

  function Zeros(n: nat): (z: SHash)
    ensures |z| == n && forall b <- z :: b == 0
  {
    if n == 0 then [] else Zeros(n - 1) + [0]
  }

  const ZERO: SHash := Zeros(32)

  // ---- The block that is hashed ----

  // byte(i), byte(i >> 8), byte(i >> 16), byte(i >> 24): the shifts keep the sign.
  function Bytes32(i: Int32): (bs: seq<Byte>)
    ensures |bs| == 4
  {
    var i1 := i / 256;
    var i2 := i1 / 256;
    var i3 := i2 / 256;
    [i % 256, i1 % 256, i2 % 256, i3 % 256]
  }

  function Block(initial: SHash, id: CommandId): seq<Byte> {
    initial + Bytes32(id.client) + Bytes32(id.seqnum)
  }

  lemma Bytes32Injective(i: Int32, j: Int32)
    requires Bytes32(i) == Bytes32(j)
    ensures i == j
  {
    var i1, j1 := i / 256, j / 256;
    var i2, j2 := i1 / 256, j1 / 256;
    var i3, j3 := i2 / 256, j2 / 256;
    assert Bytes32(i)[0] == i % 256 && Bytes32(i)[1] == i1 % 256 && Bytes32(i)[2] == i2 % 256 && Bytes32(i)[3] == i3 % 256;
    assert -128 <= i3 < 128 && -128 <= j3 < 128;
  }

  // Different commands, or different hashes so far, give different blocks to digest.
  lemma BlockInjective(h1: SHash, h2: SHash, c1: CommandId, c2: CommandId)
    requires |h1| == |h2| && Block(h1, c1) == Block(h2, c2)
    ensures h1 == h2 && c1 == c2
  {
    var n := |h1|;
    var b1, b2 := Block(h1, c1), Block(h2, c2);
    assert h1 == b1[..n] && h2 == b2[..n];
    assert Bytes32(c1.client) == b1[n..n + 4] && Bytes32(c2.client) == b2[n..n + 4];
    assert Bytes32(c1.seqnum) == b1[n + 4..] && Bytes32(c2.seqnum) == b2[n + 4..];
    Bytes32Injective(c1.client, c2.client);
    Bytes32Injective(c1.seqnum, c2.seqnum);
  }

  function Hash(d: Digest, initial: SHash, id: CommandId): SHash {
    d(Block(initial, id))
  }

  // ---- The log ----

  datatype Entry = Entry(seqnum: int, hash: SHash)

  datatype Log = Log(synced: int, syncedHash: SHash, pending: seq<CommandId>, hash: SHash, upd: map<CommandId, Entry>)

  const EMPTY: Log := Log(-1, ZERO, [], ZERO, map[])

  // The reference: hashing the list from scratch.
  function Fold(d: Digest, h: SHash, ids: seq<CommandId>): SHash {
    if ids == [] then h else Hash(d, Fold(d, h, ids[..|ids| - 1]), ids[|ids| - 1])
  }

  function Without(s: seq<CommandId>, id: CommandId): seq<CommandId> {
    if s == [] then []
    else if s[|s| - 1] == id then Without(s[..|s| - 1], id)
    else Without(s[..|s| - 1], id) + [s[|s| - 1]]
  }

  function Updated(d: Digest, l: Log, id: CommandId, s: int, h: SHash, save: bool): Log {
    var known := id in l.pending;
    if !known && save then l.(upd := l.upd[id := Entry(s, h)])
    else
      var pending := Without(l.pending, id);
      if s <= l.synced && !known then l
      else
        var synced := if s > l.synced then s else l.synced;
        var syncedHash := if s > l.synced then h else l.syncedHash;
        Log(synced, syncedHash, pending, Fold(d, syncedHash, pending), l.upd)
  }

  // Append hashes incrementally, unless the leader's update came first.
  function Appended(d: Digest, l: Log, id: CommandId): Log {
    if id in l.upd then
      Updated(d, l.(upd := l.upd - {id}), id, l.upd[id].seqnum, l.upd[id].hash, false)
    else
      l.(pending := l.pending + [id], hash := Hash(d, if l.pending == [] then l.syncedHash else l.hash, id))
  }

  function AppendHash(d: Digest, l: Log, id: CommandId): SHash {
    if id in l.upd then l.upd[id].hash else Appended(d, l, id).hash
  }

  // ---- Runs ----

  datatype Event = Append(id: CommandId) | Update(id: CommandId, seqnum: int, hash: SHash)

  function Step(d: Digest, l: Log, e: Event): Log {
    match e
    case Append(id) => Appended(d, l, id)
    case Update(id, s, h) => Updated(d, l, id, s, h, true)
  }

  function Run(d: Digest, es: seq<Event>): Log {
    if es == [] then EMPTY else Step(d, Run(d, es[..|es| - 1]), es[|es| - 1])
  }

  predicate Appends(es: seq<Event>, id: CommandId) {
    exists i :: 0 <= i < |es| && es[i] == Append(id)
  }

  // Each command is appended at most once.
  predicate FreshIds(es: seq<Event>) {
    forall i, j :: 0 <= i < j < |es| && es[i].Append? && es[j].Append? ==> es[i].id != es[j].id
  }

  ghost predicate WellFormed(d: Digest, l: Log) {
    && l.hash == Fold(d, l.syncedHash, l.pending)
    && (forall i, j :: 0 <= i < j < |l.pending| ==> l.pending[i] != l.pending[j])
    && (forall id <- l.upd :: id !in l.pending)
  }

  lemma {:induction false} WithoutMembers(s: seq<CommandId>, id: CommandId, x: CommandId)
    ensures x in Without(s, id) <==> x in s && x != id
  {
    if s != [] {
      WithoutMembers(s[..|s| - 1], id, x);
      assert s == s[..|s| - 1] + [s[|s| - 1]];
    }
  }

  lemma {:induction false} WithoutDistinct(s: seq<CommandId>, id: CommandId)
    requires forall i, j :: 0 <= i < j < |s| ==> s[i] != s[j]
    ensures forall i, j :: 0 <= i < j < |Without(s, id)| ==> Without(s, id)[i] != Without(s, id)[j]
  {
    if s != [] {
      var p := s[..|s| - 1];
      WithoutDistinct(p, id);
      forall i | 0 <= i < |Without(p, id)| ensures Without(p, id)[i] != s[|s| - 1] {
        WithoutMembers(p, id, Without(p, id)[i]);
      }
    }
  }

  // Where the distinct list has id at position k, Without cuts it out.
  lemma {:induction false} WithoutCut(s: seq<CommandId>, id: CommandId, k: nat)
    requires k < |s| && s[k] == id && forall i, j :: 0 <= i < j < |s| ==> s[i] != s[j]
    ensures Without(s, id) == s[..k] + s[k + 1..]
  {
    var p := s[..|s| - 1];
    if k == |s| - 1 {
      WithoutAbsent(p, id);
    } else {
      WithoutCut(p, id, k);
      assert p[..k] + p[k + 1..] + [s[|s| - 1]] == s[..k] + s[k + 1..];
    }
  }

  lemma {:induction false} WithoutAbsent(s: seq<CommandId>, id: CommandId)
    requires id !in s
    ensures Without(s, id) == s
  {
    if s != [] {
      WithoutAbsent(s[..|s| - 1], id);
      assert s == s[..|s| - 1] + [s[|s| - 1]];
    }
  }

  lemma UpdatedKeeps(d: Digest, l: Log, id: CommandId, s: int, h: SHash, save: bool)
    requires WellFormed(d, l)
    ensures WellFormed(d, Updated(d, l, id, s, h, save))
  {
    WithoutDistinct(l.pending, id);
    forall x ensures x in Without(l.pending, id) <==> x in l.pending && x != id {
      WithoutMembers(l.pending, id, x);
    }
    if id !in l.pending { WithoutAbsent(l.pending, id); }
  }

  lemma AppendedKeeps(d: Digest, l: Log, id: CommandId)
    requires WellFormed(d, l) && id !in l.pending
    ensures WellFormed(d, Appended(d, l, id))
  {
    if id in l.upd {
      UpdatedKeeps(d, l.(upd := l.upd - {id}), id, l.upd[id].seqnum, l.upd[id].hash, false);
    } else {
      assert (l.pending + [id])[..|l.pending|] == l.pending;
    }
  }

  // Every pending or waiting command comes from an event.
  lemma {:induction false} PendingAppended(d: Digest, es: seq<Event>, id: CommandId)
    requires id in Run(d, es).pending
    ensures Appends(es, id)
  {
    if es != [] {
      var p := es[..|es| - 1];
      var l := Run(d, p);
      if id in l.pending {
        PendingAppended(d, p, id);
        var i :| 0 <= i < |p| && p[i] == Append(id);
        assert es[i] == Append(id);
      } else {
        WithoutMembers(l.pending, es[|es| - 1].id, id);
      }
    }
  }

  // The incremental hash is the fold from the synced hash, after any run on fresh ids.
  lemma {:induction false} HashIsFold(d: Digest, es: seq<Event>)
    requires FreshIds(es)
    ensures WellFormed(d, Run(d, es))
  {
    if es != [] {
      var p, e := es[..|es| - 1], es[|es| - 1];
      HashIsFold(d, p);
      match e {
        case Append(id) =>
          if id in Run(d, p).pending { PendingAppended(d, p, id); }
          AppendedKeeps(d, Run(d, p), id);
        case Update(id, s, h) =>
          UpdatedKeeps(d, Run(d, p), id, s, h, true);
      }
    }
  }

  lemma {:induction false} FoldAppend(d: Digest, h: SHash, a: seq<CommandId>, b: seq<CommandId>)
    ensures Fold(d, h, a + b) == Fold(d, Fold(d, h, a), b)
    decreases |b|
  {
    if b == [] {
      assert a + b == a;
    } else {
      FoldAppend(d, h, a, b[..|b| - 1]);
      assert (a + b)[..|a + b| - 1] == a + b[..|b| - 1];
    }
  }

  // ---- Agreement with the leader ----

  // The leader's commands in the order it appended them, with the sequence numbers it gave them.
  predicate LeaderOrder(order: seq<CommandId>, sn: seq<int>) {
    && |sn| == |order|
    && (forall i, j :: 0 <= i < j < |order| ==> order[i] != order[j])
    && (forall i, j :: 0 <= i < j < |sn| ==> sn[i] < sn[j])
    && (forall i :: 0 <= i < |sn| ==> sn[i] >= 0)
  }

  // The leader's hash after its first k commands.
  function HashAt(d: Digest, order: seq<CommandId>, k: nat): SHash
    requires k <= |order|
  {
    Fold(d, ZERO, order[..k])
  }

  function Apps(es: seq<Event>): nat {
    if es == [] then 0 else Apps(es[..|es| - 1]) + if es[|es| - 1].Append? then 1 else 0
  }

  function Upds(es: seq<Event>): nat {
    if es == [] then 0 else Upds(es[..|es| - 1]) + if es[|es| - 1].Update? then 1 else 0
  }

  // The next event: the next command of the order, or the leader's next update.
  predicate Next(d: Digest, order: seq<CommandId>, sn: seq<int>, a: nat, u: nat, e: Event)
    requires LeaderOrder(order, sn)
  {
    match e
    case Append(id) => a < |order| && id == order[a]
    case Update(id, s, h) => u < |order| && id == order[u] && s == sn[u] && h == HashAt(d, order, u + 1)
  }

  // Appends in the leader's order, updates in increasing sequence number, interleaved in any way.
  predicate Follows(d: Digest, order: seq<CommandId>, sn: seq<int>, es: seq<Event>)
    requires LeaderOrder(order, sn)
  {
    forall i :: 0 <= i < |es| ==> Next(d, order, sn, Apps(es[..i]), Upds(es[..i]), es[i])
  }

  // The log after a appends and u updates.
  function Canon(d: Digest, order: seq<CommandId>, sn: seq<int>, a: nat, u: nat): Log
    requires LeaderOrder(order, sn) && a <= |order| && u <= |order|
  {
    var m := if a < u then a else u;
    Log(if m == 0 then -1 else sn[m - 1], HashAt(d, order, m), if u <= a then order[u..a] else [], HashAt(d, order, a), Waiting(d, order, sn, a, u))
  }

  function Waiting(d: Digest, order: seq<CommandId>, sn: seq<int>, a: nat, u: nat): map<CommandId, Entry>
    requires LeaderOrder(order, sn) && a <= |order| && u <= |order|
  {
    if u <= a then map[] else Waiting(d, order, sn, a, u - 1)[order[u - 1] := Entry(sn[u - 1], HashAt(d, order, u))]
  }

  lemma {:induction false} WaitingFirst(d: Digest, order: seq<CommandId>, sn: seq<int>, a: nat, u: nat)
    requires LeaderOrder(order, sn) && a < u <= |order|
    ensures order[a] in Waiting(d, order, sn, a, u) && Waiting(d, order, sn, a, u)[order[a]] == Entry(sn[a], HashAt(d, order, a + 1))
    ensures Waiting(d, order, sn, a, u) - {order[a]} == Waiting(d, order, sn, a + 1, u)
    decreases u
  {
    hide HashAt;
    if u == a + 1 {
      assert Waiting(d, order, sn, a, a) == map[];
    } else {
      WaitingFirst(d, order, sn, a, u - 1);
      assert order[a] != order[u - 1];
    }
  }

  lemma CanonAppend(d: Digest, order: seq<CommandId>, sn: seq<int>, a: nat, u: nat)
    requires LeaderOrder(order, sn) && a < |order| && u <= |order|
    ensures Appended(d, Canon(d, order, sn, a, u), order[a]) == Canon(d, order, sn, a + 1, u)
    ensures AppendHash(d, Canon(d, order, sn, a, u), order[a]) == HashAt(d, order, a + 1)
  {
    if u <= a {
      hide LeaderOrder, HashAt, Hash, Updated;
      HashNext(d, order, a);
      assert order[u..a] + [order[a]] == order[u..a + 1];
    } else {
      CanonAppendKnown(d, order, sn, a, u);
    }
  }

  // The leader's hash was waiting for the command.
  lemma CanonAppendKnown(d: Digest, order: seq<CommandId>, sn: seq<int>, a: nat, u: nat)
    requires LeaderOrder(order, sn) && a < u <= |order|
    ensures Appended(d, Canon(d, order, sn, a, u), order[a]) == Canon(d, order, sn, a + 1, u)
    ensures AppendHash(d, Canon(d, order, sn, a, u), order[a]) == HashAt(d, order, a + 1)
  {
    hide Waiting, HashAt, Hash;
    var l := Canon(d, order, sn, a, u);
    WaitingFirst(d, order, sn, a, u);
    assert sn[a] > l.synced && l.pending == [] && Without([], order[a]) == [];
    hide LeaderOrder;
    assert Fold(d, HashAt(d, order, a + 1), []) == HashAt(d, order, a + 1);
    if u == a + 1 { assert order[u..a + 1] == []; }
  }

  lemma HashNext(d: Digest, order: seq<CommandId>, a: nat)
    requires a < |order|
    ensures HashAt(d, order, a + 1) == Hash(d, HashAt(d, order, a), order[a])
  {
    assert order[..a + 1][..a] == order[..a];
  }

  // Folding the rest of the pending list from the new synced hash gives the same hash.
  lemma HashRest(d: Digest, order: seq<CommandId>, k: nat, a: nat)
    requires k <= a <= |order|
    ensures Fold(d, HashAt(d, order, k), order[k..a]) == HashAt(d, order, a)
  {
    hide Fold;
    FoldAppend(d, ZERO, order[..k], order[k..a]);
    assert order[..k] + order[k..a] == order[..a];
  }

  lemma CanonUpdate(d: Digest, order: seq<CommandId>, sn: seq<int>, a: nat, u: nat)
    requires LeaderOrder(order, sn) && a <= |order| && u < |order|
    ensures Updated(d, Canon(d, order, sn, a, u), order[u], sn[u], HashAt(d, order, u + 1), true) == Canon(d, order, sn, a, u + 1)
  {
    if u < a {
      CanonUpdatePending(d, order, sn, a, u);
    } else {
      hide HashAt, Fold, Without, LeaderOrder;
      if u == a { assert order[u..a] == []; }
    }
  }

  // The command was appended before: it leaves the pending list, and the rest folds to the same hash.
  lemma CanonUpdatePending(d: Digest, order: seq<CommandId>, sn: seq<int>, a: nat, u: nat)
    requires LeaderOrder(order, sn) && u < a <= |order|
    ensures Updated(d, Canon(d, order, sn, a, u), order[u], sn[u], HashAt(d, order, u + 1), true) == Canon(d, order, sn, a, u + 1)
  {
    hide HashAt, Fold, Without;
    var l := Canon(d, order, sn, a, u);
    assert l.pending == order[u..a] && l.pending[0] == order[u] && sn[u] > l.synced;
    WithoutCut(l.pending, order[u], 0) by { hide Canon; }
    hide LeaderOrder;
    assert l.pending[..0] + l.pending[1..] == order[u + 1..a];
    HashRest(d, order, u + 1, a);
  }

  lemma {:induction false} FollowerState(d: Digest, order: seq<CommandId>, sn: seq<int>, es: seq<Event>)
    requires LeaderOrder(order, sn) && Follows(d, order, sn, es)
    ensures Apps(es) <= |order| && Upds(es) <= |order|
    ensures Run(d, es) == Canon(d, order, sn, Apps(es), Upds(es))
  {
    hide Canon, Follows, Next, LeaderOrder, Step;
    if es == [] {
      CanonStart(d, order, sn);
    } else {
      var p, e := es[..|es| - 1], es[|es| - 1];
      FollowsPrefix(d, order, sn, es, |p|);
      FollowerState(d, order, sn, p);
      CanonStep(d, order, sn, Apps(p), Upds(p), e);
    }
  }

  lemma FollowsPrefix(d: Digest, order: seq<CommandId>, sn: seq<int>, es: seq<Event>, k: nat)
    requires LeaderOrder(order, sn) && Follows(d, order, sn, es) && k < |es|
    ensures Follows(d, order, sn, es[..k]) && Next(d, order, sn, Apps(es[..k]), Upds(es[..k]), es[k])
  {
    hide LeaderOrder, Next, Apps, Upds;
    assert forall i :: 0 <= i < k ==> es[..k][..i] == es[..i];
  }

  lemma CanonStart(d: Digest, order: seq<CommandId>, sn: seq<int>)
    requires LeaderOrder(order, sn)
    ensures Canon(d, order, sn, 0, 0) == EMPTY
  {
    assert order[0..0] == [] && order[..0] == [];
  }

  lemma CanonStep(d: Digest, order: seq<CommandId>, sn: seq<int>, a: nat, u: nat, e: Event)
    requires LeaderOrder(order, sn) && a <= |order| && u <= |order| && Next(d, order, sn, a, u, e)
    ensures if e.Append? then a < |order| && Step(d, Canon(d, order, sn, a, u), e) == Canon(d, order, sn, a + 1, u)
            else u < |order| && Step(d, Canon(d, order, sn, a, u), e) == Canon(d, order, sn, a, u + 1)
  {
    hide Canon, Updated, Appended, HashAt, LeaderOrder;
    if e.Append? { CanonAppend(d, order, sn, a, u); } else { CanonUpdate(d, order, sn, a, u); }
  }

  // Every Append of a follower returns the hash the leader's Append returned for that command.
  lemma HashAgreement(d: Digest, order: seq<CommandId>, sn: seq<int>, leader: seq<Event>, follower: seq<Event>, i: nat, j: nat)
    requires LeaderOrder(order, sn) && Follows(d, order, sn, leader) && Follows(d, order, sn, follower)
    requires forall e <- leader :: e.Append?
    requires i < |leader| && j < |follower| && follower[j].Append? && leader[i].id == follower[j].id
    ensures AppendHash(d, Run(d, leader[..i]), leader[i].id) == AppendHash(d, Run(d, follower[..j]), follower[j].id)
  {
    assert leader[i] in leader;
    AppendReturns(d, order, sn, leader, i);
    AppendReturns(d, order, sn, follower, j);
  }

  lemma AppendReturns(d: Digest, order: seq<CommandId>, sn: seq<int>, es: seq<Event>, i: nat)
    requires LeaderOrder(order, sn) && Follows(d, order, sn, es) && i < |es| && es[i].Append?
    ensures exists k :: 0 <= k < |order| && order[k] == es[i].id && AppendHash(d, Run(d, es[..i]), es[i].id) == HashAt(d, order, k + 1)
  {
    hide Follows, Canon, LeaderOrder, Run, Apps, Upds, AppendHash, Appended, HashAt;
    var p := es[..i];
    FollowsPrefix(d, order, sn, es, i);
    FollowerState(d, order, sn, p);
    CanonAppend(d, order, sn, Apps(p), Upds(p));
  }

  // ---- Resynchronisation ----

  function AppSet(es: seq<Event>): set<CommandId> {
    if es == [] then {}
    else AppSet(es[..|es| - 1]) + if es[|es| - 1].Append? then {es[|es| - 1].id} else {}
  }

  function UpdMap(es: seq<Event>): map<CommandId, Entry> {
    if es == [] then map[]
    else
      var m, e := UpdMap(es[..|es| - 1]), es[|es| - 1];
      if e.Update? then m[e.id := Entry(e.seqnum, e.hash)] else m
  }

  // Each command is appended at most once and updated at most once.
  predicate Once(es: seq<Event>) {
    forall i :: 0 <= i < |es| ==> match es[i] {
      case Append(id) => id !in AppSet(es[..i])
      case Update(id, s, _) => id !in UpdMap(es[..i]) && s >= 0
    }
  }

  // (s, h) is the entry of m with the highest sequence number.
  ghost predicate Top(m: map<CommandId, Entry>, s: int, h: SHash) {
    && (m == map[] ==> s == -1 && h == ZERO)
    && (m != map[] ==> exists id :: id in m && m[id] == Entry(s, h))
    && (forall id <- m :: m[id].seqnum <= s)
  }

  function Both(es: seq<Event>): map<CommandId, Entry> {
    map id | id in UpdMap(es) && id in AppSet(es) :: UpdMap(es)[id]
  }

  ghost predicate Tracks(l: Log, es: seq<Event>) {
    && (forall id :: id in l.pending <==> id in AppSet(es) && id !in UpdMap(es))
    && l.upd == UpdMap(es) - AppSet(es)
    && Top(Both(es), l.synced, l.syncedHash)
  }

  lemma TopAdd(m: map<CommandId, Entry>, s: int, h: SHash, id: CommandId, e: Entry)
    requires Top(m, s, h) && id !in m && e.seqnum >= 0
    ensures Top(m[id := e], if e.seqnum > s then e.seqnum else s, if e.seqnum > s then e.hash else h)
  {
    var m' := m[id := e];
    if e.seqnum > s {
      assert m'[id] == Entry(e.seqnum, e.hash);
    } else if m != map[] {
      var j :| j in m && m[j] == Entry(s, h);
      assert m'[j] == Entry(s, h);
    }
  }

  lemma {:induction false} RunTracks(d: Digest, es: seq<Event>)
    requires Once(es)
    ensures Tracks(Run(d, es), es) && forall id <- UpdMap(es) :: UpdMap(es)[id].seqnum >= 0
  {
    if es == [] {
      assert Both(es) == map[];
    } else {
      var p, e := es[..|es| - 1], es[|es| - 1];
      assert forall i :: 0 <= i < |p| ==> p[..i] == es[..i];
      RunTracks(d, p);
      if e.Append? { AppendTracks(d, Run(d, p), p, es); } else { UpdateTracks(d, Run(d, p), p, es); }
    }
  }

  lemma AppendTracks(d: Digest, l: Log, p: seq<Event>, es: seq<Event>)
    requires es != [] && p == es[..|es| - 1] && es[|es| - 1].Append? && Tracks(l, p) && es[|es| - 1].id !in AppSet(p)
    requires forall id <- UpdMap(p) :: UpdMap(p)[id].seqnum >= 0
    ensures Tracks(Appended(d, l, es[|es| - 1].id), es)
  {
    var id := es[|es| - 1].id;
    if id in l.upd {
      WithoutAbsent(l.pending, id);
      TopAdd(Both(p), l.synced, l.syncedHash, id, l.upd[id]);
      assert Both(es) == Both(p)[id := l.upd[id]];
    } else {
      assert Both(es) == Both(p);
    }
  }

  lemma UpdateTracks(d: Digest, l: Log, p: seq<Event>, es: seq<Event>)
    requires es != [] && p == es[..|es| - 1] && es[|es| - 1].Update? && Tracks(l, p) && es[|es| - 1].id !in UpdMap(p) && es[|es| - 1].seqnum >= 0
    ensures Tracks(Updated(d, l, es[|es| - 1].id, es[|es| - 1].seqnum, es[|es| - 1].hash, true), es)
  {
    var e := es[|es| - 1];
    if e.id in l.pending {
      forall x ensures x in Without(l.pending, e.id) <==> x in l.pending && x != e.id { WithoutMembers(l.pending, e.id, x); }
      TopAdd(Both(p), l.synced, l.syncedHash, e.id, Entry(e.seqnum, e.hash));
      assert Both(es) == Both(p)[e.id := Entry(e.seqnum, e.hash)];
    } else {
      assert Both(es) == Both(p);
    }
  }

  // Whatever the two orders were, once each appended command has been updated and vice versa,
  // nothing is pending and the hash is the leader's for the highest sequence number.
  lemma Resynchronised(d: Digest, es: seq<Event>, top: CommandId)
    requires Once(es) && AppSet(es) == UpdMap(es).Keys
    requires top in UpdMap(es) && forall id <- UpdMap(es) :: id != top ==> UpdMap(es)[id].seqnum < UpdMap(es)[top].seqnum
    ensures Run(d, es).pending == [] && Run(d, es).upd == map[]
    ensures Run(d, es).synced == UpdMap(es)[top].seqnum && Run(d, es).hash == UpdMap(es)[top].hash
  {
    var l := Run(d, es);
    RunTracks(d, es);
    OnceFresh(es);
    HashIsFold(d, es);
    assert Both(es) == UpdMap(es);
    SomeMember(l.pending);
  }

  lemma SomeMember(s: seq<CommandId>)
    ensures s != [] ==> exists x :: x in s
  {
    if s != [] { assert s[0] in s; }
  }

  lemma {:induction false} AppSetAt(es: seq<Event>, id: CommandId)
    ensures id in AppSet(es) <==> Appends(es, id)
  {
    if es != [] {
      var p := es[..|es| - 1];
      AppSetAt(p, id);
      if Appends(p, id) { var i :| 0 <= i < |p| && p[i] == Append(id); assert es[i] == Append(id); }
      if Appends(es, id) { var i :| 0 <= i < |es| && es[i] == Append(id); if i < |p| { assert p[i] == Append(id); } }
      if es[|es| - 1] == Append(id) { assert Appends(es, id); }
    }
  }

  lemma OnceFresh(es: seq<Event>)
    requires Once(es)
    ensures FreshIds(es)
  {
    forall i, j | 0 <= i < j < |es| && es[i].Append? && es[j].Append? ensures es[i].id != es[j].id {
      AppSetAt(es[..j], es[i].id);
      assert es[..j][i] == Append(es[i].id);
    }
  }

  // ---- What a hash stands for ----

  // Two different blocks with one digest, at the same step of two folds.
  ghost predicate Collides(d: Digest, g: SHash, a: seq<CommandId>, h: SHash, b: seq<CommandId>, k: nat)
    requires k < |a| && k < |b|
  {
    var x, y := Block(Fold(d, g, a[..k]), a[k]), Block(Fold(d, h, b[..k]), b[k]);
    x != y && d(x) == d(y)
  }

  // A hash stands for the whole history behind it: two different histories of one length with the same
  // hash contain a collision of the digest.
  lemma {:induction false} HashBinds(d: Digest, g: SHash, a: seq<CommandId>, h: SHash, b: seq<CommandId>)
    requires (forall bs: seq<Byte> :: |d(bs)| == 32) && |g| == |h| == 32 && |a| == |b|
    requires Fold(d, g, a) == Fold(d, h, b) && (g, a) != (h, b)
    ensures exists k: nat :: k < |a| && Collides(d, g, a, h, b, k)
    decreases |a|
  {
    if a != [] {
      var n := |a| - 1;
      var p, q := a[..n], b[..n];
      var u, v := Fold(d, g, p), Fold(d, h, q);
      FoldSize(d, g, p);
      FoldSize(d, h, q);
      if Block(u, a[n]) == Block(v, b[n]) {
        BlockInjective(u, v, a[n], b[n]);
        assert a == p + [a[n]] && b == q + [b[n]];
        HashBinds(d, g, p, h, q);
        var k: nat :| k < n && Collides(d, g, p, h, q, k);
        assert p[..k] == a[..k] && q[..k] == b[..k];
        assert Collides(d, g, a, h, b, k);
      } else {
        assert Collides(d, g, a, h, b, n);
      }
    }
  }

  lemma FoldSize(d: Digest, h: SHash, ids: seq<CommandId>)
    requires (forall bs: seq<Byte> :: |d(bs)| == 32) && |h| == 32
    ensures |Fold(d, h, ids)| == 32
  {
  }

  // ---- The order of what is pending ----

  // a was appended before b.
  predicate AppendedFirst(es: seq<Event>, a: CommandId, b: CommandId) {
    exists i, j :: 0 <= i < j < |es| && es[i] == Append(a) && es[j] == Append(b)
  }

  lemma AppendedLater(es: seq<Event>, e: Event, a: CommandId, b: CommandId)
    requires AppendedFirst(es, a, b) || (Appends(es, a) && e == Append(b))
    ensures AppendedFirst(es + [e], a, b)
  {
    var fs := es + [e];
    if i, j :| 0 <= i < j < |es| && es[i] == Append(a) && es[j] == Append(b) {
      assert fs[i] == Append(a) && fs[j] == Append(b);
    } else {
      var i :| 0 <= i < |es| && es[i] == Append(a);
      assert fs[i] == Append(a) && fs[|es|] == Append(b);
    }
  }

  lemma {:induction false} WithoutInOrder(s: seq<CommandId>, id: CommandId, i: nat, j: nat) returns (k: nat, l: nat)
    requires i < j < |Without(s, id)|
    ensures k < l < |s| && s[k] == Without(s, id)[i] && s[l] == Without(s, id)[j]
  {
    var p := s[..|s| - 1];
    if j < |Without(p, id)| {
      k, l := WithoutInOrder(p, id, i, j);
    } else {
      var x := Without(p, id)[i];
      WithoutMembers(p, id, x);
      k :| 0 <= k < |p| && p[k] == x;
      l := |p|;
    }
  }

  // Whatever the interleaving, the pending commands stand in the order of their appends.
  lemma {:induction false} PendingInOrder(d: Digest, es: seq<Event>, i: nat, j: nat)
    requires FreshIds(es) && i < j < |Run(d, es).pending|
    ensures AppendedFirst(es, Run(d, es).pending[i], Run(d, es).pending[j])
    decreases |es|
  {
    var p, e := es[..|es| - 1], es[|es| - 1];
    var l, m := Run(d, p), Run(d, es);
    var k, k' := i, j;
    if m.pending == Without(l.pending, e.id) { k, k' := WithoutInOrder(l.pending, e.id, i, j); }
    assert es == p + [e];
    hide AppendedFirst, Fold;
    if k' < |l.pending| {
      PendingInOrder(d, p, k, k');
    } else {
      PendingAppended(d, p, m.pending[i]);
    }
    AppendedLater(p, e, m.pending[i], m.pending[j]);
  }
}
