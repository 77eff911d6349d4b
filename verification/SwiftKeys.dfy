/** The dependency lists and the delivery check of SwiftPaxos in place
    (swift/key.go; getDepAndHashes and deliver of swift/swift.go). */
module SwiftKeys {
  import opened CommandIds
  import opened Store
  import opened SwiftDeps

  class LightKeyInfo {
    var lastWrite: seq<CommandId>
    var lastCmd: seq<CommandId>

    ghost function Value(): Info
      reads this
    {
      Info(lastWrite, lastCmd)
    }

    constructor ()
      ensures Value() == Info([], [])
    {
      lastWrite, lastCmd := [], [];
    }

    method Add(cmd: Command, id: CommandId)
      modifies this
      ensures Value() == Added(old(Value()), cmd, id)
    {
      lastCmd := [id];
      if cmd.op.PUT? {
        lastWrite := [id];
      }
    }

    method Remove(id: CommandId)
      modifies this
      ensures lastCmd == if old(lastCmd) != [] && old(lastCmd)[0] == id then [] else old(lastCmd)
      ensures lastWrite == if old(lastWrite) != [] && old(lastWrite)[0] == id then [] else old(lastWrite)
    {
      if |lastCmd| > 0 && lastCmd[0] == id {
        lastCmd := [];
      }
      if |lastWrite| > 0 && lastWrite[0] == id {
        lastWrite := [];
      }
    }

    method GetConflictCmds(cmd: Command) returns (ids: seq<CommandId>)
      ensures ids == Conflicts(Value(), cmd)
    {
      if cmd.op.GET? {
        return lastWrite;
      } else {
        return lastCmd;
      }
    }
  }

  // ---- fullKeyInfo: the last command and the last write of every client ----

  type Index = map<Int32, nat>

  // `index` finds each client's entry in `list`, and nothing else.
  ghost predicate Indexes(list: seq<CommandId>, index: Index) {
    && (forall i :: 0 <= i < |list| ==> list[i].client in index && index[list[i].client] == i)
    && (forall c <- index :: index[c] < |list| && list[index[c]].client == c)
  }

  // The list read as a table from client to command.
  ghost function ByClient(list: seq<CommandId>, index: Index): map<Int32, CommandId>
    requires Indexes(list, index)
  {
    map c | c in index :: list[index[c]]
  }

  class FullKeyInfo {
    var clientLastWrite: seq<CommandId>
    var clientLastCmd: seq<CommandId>
    var lastWriteIndex: Index
    var lastCmdIndex: Index

    ghost predicate Valid()
      reads this
    {
      Indexes(clientLastWrite, lastWriteIndex) && Indexes(clientLastCmd, lastCmdIndex)
    }

    ghost function Writes(): map<Int32, CommandId>
      requires Valid()
      reads this
    {
      ByClient(clientLastWrite, lastWriteIndex)
    }

    ghost function Cmds(): map<Int32, CommandId>
      requires Valid()
      reads this
    {
      ByClient(clientLastCmd, lastCmdIndex)
    }

    constructor ()
      ensures Valid() && Writes() == map[] && Cmds() == map[]
    {
      clientLastWrite, clientLastCmd, lastWriteIndex, lastCmdIndex := [], [], map[], map[];
    }

    static method Put(list: seq<CommandId>, index: Index, id: CommandId) returns (list2: seq<CommandId>, index2: Index)
      requires Indexes(list, index)
      ensures Indexes(list2, index2) && ByClient(list2, index2) == ByClient(list, index)[id.client := id]
    {
      if id.client in index {
        list2, index2 := list[index[id.client] := id], index;
      } else {
        list2, index2 := list + [id], index[id.client := |list|];
      }
    }

    // Swap-remove: the last entry takes the place of the removed one.
    static method Drop(list: seq<CommandId>, index: Index, client: Int32) returns (list2: seq<CommandId>, index2: Index)
      requires Indexes(list, index)
      ensures Indexes(list2, index2) && ByClient(list2, index2) == ByClient(list, index) - {client}
    {
      list2, index2 := list, index;
      if client in index {
        var i := index[client];
        var last := list[|list| - 1];
        index2 := index2[last.client := i];
        list2 := list2[i := last];
        list2 := list2[..|list| - 1];
        index2 := index2 - {client};
      }
    }

    method Add(cmd: Command, id: CommandId)
      requires Valid()
      modifies this
      ensures Valid() && Cmds() == old(Cmds())[id.client := id]
      ensures Writes() == if cmd.op.PUT? then old(Writes())[id.client := id] else old(Writes())
    {
      clientLastCmd, lastCmdIndex := Put(clientLastCmd, lastCmdIndex, id);
      if cmd.op.PUT? {
        clientLastWrite, lastWriteIndex := Put(clientLastWrite, lastWriteIndex, id);
      }
    }

    method Remove(cmd: Command, id: CommandId)
      requires Valid()
      modifies this
      ensures Valid() && Cmds() == old(Cmds()) - {id.client}
      ensures Writes() == if cmd.op.PUT? then old(Writes()) - {id.client} else old(Writes())
    {
      clientLastCmd, lastCmdIndex := Drop(clientLastCmd, lastCmdIndex, id.client);
      if cmd.op.PUT? {
        clientLastWrite, lastWriteIndex := Drop(clientLastWrite, lastWriteIndex, id.client);
      }
    }

    method GetConflictCmds(cmd: Command) returns (ids: seq<CommandId>)
      requires Valid()
      ensures NoRepeats(ids)
      ensures var m := if cmd.op.GET? then Writes() else Cmds();
              forall d :: d in ids <==> d.client in m && m[d.client] == d
    {
      if cmd.op.GET? {
        return clientLastWrite;
      } else {
        return clientLastCmd;
      }
    }
  }

  // ---- getDepAndHashes ----

  class DepTracker {
    var keys: map<Key, LightKeyInfo>

    ghost predicate Valid()
      reads this
    {
      forall j, k :: j in keys && k in keys && j != k ==> keys[j] != keys[k]
    }

    ghost function Value(): Keys
      reads this, keys.Values
    {
      map k | k in keys :: keys[k].Value()
    }

    constructor ()
      ensures Valid() && Value() == map[] && keys == map[]
    {
      keys := map[];
    }

    method GetDep(cmd: Command, id: CommandId) returns (dep: seq<CommandId>)
      requires Valid() && cmd.Valid()
      modifies this, keys.Values
      ensures Valid() && forall i <- keys.Values :: i in old(keys.Values) || fresh(i)
      ensures dep == Collect(old(Value()), KeysOf(cmd), cmd, id)
      ensures Value() == Register(old(Value()), KeysOf(cmd), cmd, id)
    {
      hide Added, Conflicts, InfoAt, KeysOf, LightKeyInfo.Value;
      dep := [];
      var ks := KeysOf(cmd);
      hide Value;
      for n := 0 to |ks|
        invariant Valid() && forall i <- keys.Values :: i in old(keys.Values) || fresh(i)
        invariant dep == Collect(old(Value()), ks[..n], cmd, id)
        invariant Value() == Register(old(Value()), ks[..n], cmd, id)
      {
        NextKey(old(Value()), ks, n, cmd, id);
        var more := Visit(ks[n], cmd, id);
        dep := dep + more;
      }
      assert ks[..|ks|] == ks;
    }

    // One key: read its list, then add the command to it.
    method Visit(key: Key, cmd: Command, id: CommandId) returns (dep: seq<CommandId>)
      requires Valid()
      modifies this, keys.Values
      ensures Valid() && forall i <- keys.Values :: i in old(keys.Values) || fresh(i)
      ensures dep == Conflicts(InfoAt(old(Value()), key), cmd)
      ensures Value() == old(Value())[key := Added(InfoAt(old(Value()), key), cmd, id)]
    {
      if key in keys {
        dep := keys[key].GetConflictCmds(cmd);
      } else {
        var info := new LightKeyInfo();
        dep := [];
        keys := keys[key := info];
        assert Value() == old(Value())[key := Info([], [])];
      }
      hide Added;
      AddTo(key, cmd, id);
    }

    method AddTo(key: Key, cmd: Command, id: CommandId)
      requires Valid() && key in keys
      modifies keys[key]
      ensures Value() == old(Value())[key := Added(old(Value())[key], cmd, id)]
    {
      hide Added;
      ghost var was := Value();
      keys[key].Add(cmd, id);
      assert forall k <- keys :: k != key ==> keys[k].Value() == was[k];
    }
  }

  // ---- deliver ----

  // The part of a command descriptor that deliver reads.
  datatype Desc = Desc(proposed: bool, committed: bool, cmd: Command, dep: seq<CommandId>)

  class Deliverer {
    // The proposals in the order the leader computed their lists.
    ghost const h: seq<Proposal>
    const exec: bool
    const optExec: bool
    const isLeader: bool
    var delivered: set<CommandId>
    var store: Table
    ghost var order: seq<CommandId>

    ghost predicate Valid()
      reads this
    {
      && History(h) && Respects(h, order) && (forall x :: x in delivered <==> x in order)
      && Orders(Commands(h), order) && store == Final(Commands(h), map[], order)
    }

    constructor (exec: bool, optExec: bool, isLeader: bool, ghost h: seq<Proposal>)
      requires History(h)
      ensures Valid() && this.h == h && order == []
    {
      this.h, this.exec, this.optExec, this.isLeader := h, exec, optExec, isLeader;
      delivered, store, order := {}, map[], [];
    }

    method Deliver(desc: Desc, id: CommandId, ghost i: nat) returns (done: bool)
      requires Valid()
      requires desc.proposed && id !in delivered && exec && (desc.committed || (optExec && isLeader)) ==>
                 i < |h| && h[i] == Proposal(id, desc.cmd) && desc.dep == DepOf(h, i)
      modifies this`delivered, this`store, this`order
      ensures Valid() && order == if done then old(order) + [id] else old(order)
      ensures done <==> desc.proposed && id !in old(delivered) && exec && (desc.committed || (optExec && isLeader))
                        && forall d <- desc.dep :: d in old(delivered)
    {
      if !desc.proposed || id in delivered || !exec {
        return false;
      }
      if !desc.committed && (!optExec || !isLeader) {
        return false;
      }
      for k := 0 to |desc.dep|
        invariant forall j :: 0 <= j < k ==> desc.dep[j] in delivered
      {
        if desc.dep[k] !in delivered {
          return false;
        }
      }
      DeliverNext(h, order, id, i);
      delivered := delivered + {id};
      store := Effect(store, desc.cmd);
      order := order + [id];
      return true;
    }
  }

  lemma DeliverNext(h: seq<Proposal>, order: seq<CommandId>, id: CommandId, i: nat)
    requires History(h) && Respects(h, order) && Orders(Commands(h), order) && id !in order
    requires i < |h| && h[i].id == id && forall d <- DepOf(h, i) :: d in order
    ensures Respects(h, order + [id]) && Orders(Commands(h), order + [id])
    ensures Final(Commands(h), map[], order + [id]) == Effect(Final(Commands(h), map[], order), h[i].cmd)
  {
    var s := order + [id];
    hide DepOf, Commands, Final;
    assert s[..|order|] == order;
    forall p | 0 <= p < |s| ensures exists j :: 0 <= j < |h| && h[j].id == s[p] {
      if p < |order| { assert s[p] == order[p]; } else { assert h[i].id == s[p]; }
    }
    forall p, j | 0 <= p < |s| && 0 <= j < |h| && h[j].id == s[p] ensures forall d <- DepOf(h, j) :: d in s[..p] {
      if p < |order| { assert s[..p] == order[..p]; } else { assert i == j; }
    }
    RespectsOrder(h, s);
    DeliverFinal(h, order, id, i);
  }

  lemma DeliverFinal(h: seq<Proposal>, order: seq<CommandId>, id: CommandId, i: nat)
    requires History(h) && Orders(Commands(h), order) && Orders(Commands(h), order + [id]) && i < |h| && h[i].id == id
    ensures Final(Commands(h), map[], order + [id]) == Effect(Final(Commands(h), map[], order), h[i].cmd)
  {
    CommandsAt(h, i);
    assert (order + [id])[|order|] == id;
    assert Orders(Commands(h), [id]);
    FinalAppend(Commands(h), map[], order, [id]);
    assert [id][1..] == [];
  }

  // Replicas that delivered the same commands hold the same store.
  lemma DeliverersConverge(a: Deliverer, b: Deliverer)
    requires a.Valid() && b.Valid() && a.h == b.h && a.delivered == b.delivered
    ensures a.store == b.store
  {
    hide Respects, Orders, Commands;
    SparseDepsSuffice(a.h, map[], a.order, b.order);
  }
}
