/** The hash log in place: the doubly linked pending list, its node index and the
    incremental hash (swift/dpath.go), each method against the value-level log. */
module HashLogList {
  import opened CommandIds
  import opened HashLogSpec

  class HashNode {
    const id: CommandId
    var next: HashNode?
    var previous: HashNode?

    constructor (id: CommandId)
      ensures this.id == id && next == null && previous == null
    {
      this.id := id;
      next, previous := null, null;
    }
  }

  function Ids(list: seq<HashNode>): seq<CommandId> {
    seq(|list|, i requires 0 <= i < |list| => list[i].id)
  }

  // Each node points at its neighbours.
  ghost predicate Linked(list: seq<HashNode>)
    reads list
  {
    forall i :: 0 <= i < |list| ==> LinkAt(list, i)
  }

  ghost predicate LinkAt(list: seq<HashNode>, i: int)
    requires 0 <= i < |list|
    reads list
  {
    list[i].next == Neighbour(list, i + 1) && list[i].previous == Neighbour(list, i - 1)
  }

  function Neighbour(list: seq<HashNode>, i: int): HashNode? {
    if 0 <= i < |list| then list[i] else null
  }

  ghost predicate Distinct(list: seq<HashNode>) {
    forall i, j :: 0 <= i < j < |list| ==> list[i].id != list[j].id
  }

  // A list of one node may or may not have its tail set.
  ghost predicate Ends(list: seq<HashNode>, head: HashNode?, tail: HashNode?) {
    head == Neighbour(list, 0) && (tail == Neighbour(list, |list| - 1) || (|list| == 1 && tail == null))
  }

  ghost predicate Indexed(list: seq<HashNode>, nodes: map<CommandId, HashNode>) {
    && (forall n <- list :: n.id in nodes && nodes[n.id] == n)
    && (forall id <- nodes :: nodes[id] in list && nodes[id].id == id)
  }

  function Cut(list: seq<HashNode>, k: nat): seq<HashNode>
    requires k < |list|
  {
    list[..k] + list[k + 1..]
  }

  lemma CutAt(list: seq<HashNode>, k: nat, i: nat)
    requires k < |list| && i < |list| - 1
    ensures Cut(list, k)[i] == list[if i < k then i else i + 1]
    ensures Neighbour(Cut(list, k), i + 1) == if i + 1 < k then Neighbour(list, i + 1) else Neighbour(list, i + 2)
    ensures Neighbour(Cut(list, k), i - 1) == if i <= k then Neighbour(list, i - 1) else Neighbour(list, i)
  {
  }

  lemma DistinctNodes(list: seq<HashNode>)
    requires Distinct(list)
    ensures forall i, j :: 0 <= i < j < |list| ==> list[i] != list[j]
  {
  }

  lemma CutSize(list: seq<HashNode>, k: nat)
    requires k < |list|
    ensures |Cut(list, k)| == |list| - 1 && forall n <- Cut(list, k) :: n in list
  {
  }

  lemma NeighbourIn(list: seq<HashNode>, i: int)
    ensures 0 <= i < |list| ==> Neighbour(list, i) == list[i]
    ensures !(0 <= i < |list|) ==> Neighbour(list, i) == null
  {
  }

  // Bypassing node k links the remaining nodes.
  lemma Relinked(list: seq<HashNode>, rest: seq<HashNode>, k: nat, i: nat, j: nat)
    requires k < |list| && i < |list| - 1 == |rest| && j == (if i < k then i else i + 1) && rest[i] == list[j]
    requires Neighbour(rest, i + 1) == if i + 1 < k then Neighbour(list, i + 1) else Neighbour(list, i + 2)
    requires Neighbour(rest, i - 1) == if i <= k then Neighbour(list, i - 1) else Neighbour(list, i)
    requires list[j].next == Neighbour(list, if j == k - 1 then k + 1 else j + 1)
    requires list[j].previous == Neighbour(list, if j == k + 1 then k - 1 else j - 1)
    ensures LinkAt(rest, i)
  {
    hide Neighbour;
  }

  lemma CutEnds(list: seq<HashNode>, head: HashNode?, tail: HashNode?, k: nat)
    requires Distinct(list) && Ends(list, head, tail) && k < |list|
    ensures Ends(Cut(list, k), if head == list[k] then Neighbour(list, k + 1) else head, if tail == list[k] then Neighbour(list, k - 1) else tail)
  {
    DistinctNodes(list);
    if |list| > 1 {
      CutAt(list, k, 0);
      CutAt(list, k, |list| - 2);
    }
  }

  lemma CutDistinct(list: seq<HashNode>, k: nat)
    requires Distinct(list) && k < |list|
    ensures Distinct(Cut(list, k))
    ensures forall n <- Cut(list, k) :: n in list && n.id != list[k].id
  {
    forall n | n in Cut(list, k) ensures n in list && n.id != list[k].id {
      var i :| 0 <= i < |Cut(list, k)| && Cut(list, k)[i] == n;
      assert n == list[if i < k then i else i + 1];
    }
  }

  lemma UnlinkIndex(list: seq<HashNode>, nodes: map<CommandId, HashNode>, k: nat)
    requires Distinct(list) && Indexed(list, nodes) && k < |list|
    ensures Indexed(Cut(list, k), nodes - {list[k].id})
  {
    CutDistinct(list, k);
    forall n | n in Cut(list, k) ensures n.id in nodes - {list[k].id} && nodes[n.id] == n {
      var i :| 0 <= i < |list| && list[i] == n;
    }
    forall id | id in nodes && id != list[k].id ensures nodes[id] in Cut(list, k) {
      var i :| 0 <= i < |list| && list[i] == nodes[id];
      assert Cut(list, k)[if i < k then i else i - 1] == list[i];
    }
  }

  lemma IdsIndexed(list: seq<HashNode>, nodes: map<CommandId, HashNode>, id: CommandId)
    requires Indexed(list, nodes)
    ensures id in nodes <==> id in Ids(list)
    ensures id in nodes ==> nodes[id] in list && nodes[id].id == id
  {
    if id in Ids(list) { var i :| 0 <= i < |list| && Ids(list)[i] == id; assert list[i] in list; }
    if id in nodes { var i :| 0 <= i < |list| && list[i] == nodes[id]; assert Ids(list)[i] == id; }
  }

  lemma CutIds(list: seq<HashNode>, id: CommandId, k: nat)
    requires Distinct(list) && k < |list| && list[k].id == id
    ensures Ids(Cut(list, k)) == Without(Ids(list), id)
  {
    WithoutCut(Ids(list), id, k);
    hide Without;
    assert Ids(Cut(list, k)) == Ids(list)[..k] + Ids(list)[k + 1..];
  }

  lemma JoinIds(list: seq<HashNode>, n: HashNode)
    ensures Ids(list + [n]) == Ids(list) + [n.id] && |Ids(list)| == |list|
  {
  }

  lemma JoinAt(list: seq<HashNode>, n: HashNode, i: int)
    ensures Neighbour(list + [n], i + 1) == if i + 1 == |list| then n else Neighbour(list, i + 1)
    ensures Neighbour(list + [n], i - 1) == if i - 1 == |list| then n else Neighbour(list, i - 1)
    ensures i == |list| ==> (list + [n])[i] == n
    ensures 0 <= i < |list| ==> (list + [n])[i] == list[i]
  {
  }

  lemma HeadOf(list: seq<HashNode>, head: HashNode?, tail: HashNode?)
    requires Ends(list, head, tail)
    ensures head == null <==> list == []
    ensures head == null <==> Ids(list) == []
  {
  }

  lemma EndsOf(list: seq<HashNode>, head: HashNode?, tail: HashNode?)
    requires Ends(list, head, tail)
    ensures head == Neighbour(list, 0)
    ensures tail == Neighbour(list, |list| - 1) || (|list| == 1 && tail == null)
  {
  }

  lemma JoinList(list: seq<HashNode>, nodes: map<CommandId, HashNode>, head: HashNode?, tail: HashNode?, n: HashNode)
    requires Distinct(list) && Indexed(list, nodes) && Ends(list, head, tail) && n.id !in Ids(list)
    ensures Distinct(list + [n]) && Indexed(list + [n], nodes[n.id := n])
    ensures Ends(list + [n], if head == null then n else head, if head == null then tail else n)
  {
    IdsIndexed(list, nodes, n.id);
    assert forall i :: 0 <= i < |list| ==> Ids(list)[i] == list[i].id;
    forall m | m in list + [n] ensures m in list || m == n {
    }
    forall id | id in nodes ensures nodes[id] in list + [n] {
      assert nodes[id] in list;
    }
  }

  class HashLog {
    const d: Digest
    var synced: int
    var syncedHash: SHash
    var pendingHead: HashNode?
    var pendingTail: HashNode?
    var hash: SHash
    var nodes: map<CommandId, HashNode>
    var pendingUpd: map<CommandId, Entry>
    // The nodes of the pending list in order.
    ghost var list: seq<HashNode>

    ghost predicate Valid()
      reads this, list
    {
      Linked(list) && Distinct(list) && Ends(list, pendingHead, pendingTail) && Indexed(list, nodes)
    }

    ghost function Value(): Log
      reads this
    {
      Log(synced, syncedHash, Ids(list), hash, pendingUpd)
    }

    constructor (d: Digest)
      ensures Valid() && this.d == d && Value() == EMPTY && list == []
    {
      this.d := d;
      synced, syncedHash, hash := -1, ZERO, ZERO;
      pendingHead, pendingTail, nodes, pendingUpd, list := null, null, map[], map[], [];
    }

    // Unlinks node n, at position k of the list.
    method Unlink(n: HashNode, ghost k: nat)
      requires Valid() && k < |list| && list[k] == n
      modifies this, list
      ensures Valid() && list == Cut(old(list), k)
      ensures synced == old(synced) && syncedHash == old(syncedHash) && hash == old(hash) && pendingUpd == old(pendingUpd)
    {
      hide Ends, Distinct, Indexed, Neighbour, Cut;
      ghost var was := list;
      assert LinkAt(was, k);
      CutEnds(was, pendingHead, pendingTail, k);
      UnlinkIndex(was, nodes, k);
      CutDistinct(was, k);
      DistinctNodes(was);
      var previous := n.previous;
      var next := n.next;
      NeighbourIn(was, k - 1);
      NeighbourIn(was, k + 1);
      if previous != null {
        previous.next := next;
      }
      if next != null {
        next.previous := previous;
      }
      if pendingHead == n {
        pendingHead := next;
      }
      if pendingTail == n {
        pendingTail := previous;
      }
      n.previous := null;
      n.next := null;
      nodes := nodes - {n.id};
      list := Cut(was, k);
      CutSize(was, k);
      forall i | 0 <= i < |list| ensures LinkAt(list, i) {
        CutAt(was, k, i);
        ghost var j := if i < k then i else i + 1;
        assert old(LinkAt(was, j));
        Relinked(was, list, k, i, j);
      }
    }

    // Hashes the pending list from scratch.
    method Rehash()
      requires Valid()
      modifies this`hash
      ensures hash == Fold(d, syncedHash, Ids(list))
    {
      var initial := syncedHash;
      var n := pendingHead;
      ghost var k := 0;
      while n != null
        invariant 0 <= k <= |list| && n == Neighbour(list, k)
        invariant initial == Fold(d, syncedHash, Ids(list)[..k])
        decreases |list| - k
      {
        assert LinkAt(list, k);
        assert Ids(list)[..k + 1][..k] == Ids(list)[..k];
        initial := Hash(d, initial, n.id);
        n := n.next;
        k := k + 1;
      }
      assert Ids(list)[..k] == Ids(list);
      hash := initial;
    }

    method UpdateNode(id: CommandId, s: int, h: SHash, save: bool)
      requires Valid()
      modifies this, list
      ensures Valid() && forall n <- list :: n in old(list)
      ensures Value() == Updated(d, old(Value()), id, s, h, save)
    {
      hide Linked, Ends, Distinct, Indexed, Fold, Without, Cut;
      var known := id in nodes;
      IdsIndexed(list, nodes, id);
      if !known && save {
        pendingUpd := pendingUpd[id := Entry(s, h)];
        return;
      }
      if known {
        ghost var k: nat :| k < |list| && list[k] == nodes[id];
        CutIds(list, id, k);
        CutSize(list, k);
        Unlink(nodes[id], k);
      } else {
        WithoutAbsent(Ids(list), id);
      }
      if s <= synced && !known {
        return;
      }
      if s > synced {
        synced := s;
        syncedHash := h;
      }
      Rehash();
    }

    method Update(id: CommandId, s: int, h: SHash)
      requires Valid()
      modifies this, list
      ensures Valid() && forall n <- list :: n in old(list)
      ensures Value() == Updated(d, old(Value()), id, s, h, true)
    {
      UpdateNode(id, s, h, true);
    }

    // Links a new node at the end; a second node sets the tail.
    method Enlist(node: HashNode)
      requires Valid() && node.id !in Ids(list) && node.next == null && node.previous == null && node !in list
      modifies this, list, node
      ensures Valid() && list == old(list) + [node]
      ensures synced == old(synced) && syncedHash == old(syncedHash) && hash == old(hash) && pendingUpd == old(pendingUpd)
    {
      hide Ends, Distinct, Indexed, Neighbour;
      ghost var was := list;
      JoinList(was, nodes, pendingHead, pendingTail, node);
      NeighbourIn(was, 0);
      NeighbourIn(was, |was| - 1);
      DistinctNodes(was);
      EndsOf(was, pendingHead, pendingTail);
      nodes := nodes[node.id := node];
      list := list + [node];
      if pendingHead == null {
        pendingHead := node;
      } else if pendingTail == null {
        pendingTail := node;
        node.previous := pendingHead;
        pendingHead.next := node;
      } else {
        pendingTail.next := node;
        node.previous := pendingTail;
        pendingTail := node;
      }
      forall i | 0 <= i < |list| ensures LinkAt(list, i) {
        JoinAt(was, node, i);
        if i < |was| { assert old(LinkAt(was, i)); }
        NeighbourIn(was, i + 1);
        NeighbourIn(was, i - 1);
      }
    }

    method Append(id: CommandId) returns (r: SHash)
      requires Valid() && id !in Ids(list)
      modifies this, list
      ensures Valid() && forall n <- list :: n in old(list) || fresh(n)
      ensures Value() == Appended(d, old(Value()), id)
      ensures r == AppendHash(d, old(Value()), id)
    {
      hide Linked, Ends, Distinct, Indexed, Fold, Without, Updated;
      if id in pendingUpd {
        var upd := pendingUpd[id];
        pendingUpd := pendingUpd - {id};
        UpdateNode(id, upd.seqnum, upd.hash, false);
        return upd.hash;
      }
      var first := pendingHead == null;
      HeadOf(list, pendingHead, pendingTail);
      var node := new HashNode(id);
      JoinIds(list, node);
      Enlist(node);
      hash := Hash(d, if first then syncedHash else hash, id);
      return hash;
    }
  }
}
