/** Why the sparse "last command" lists of SwiftPaxos are enough for writes
    (swift/key.go, getDepAndHashes and deliver of swift/swift.go), on values. */
module SwiftDeps {
  import opened CommandIds
  import opened Store
  import opened StoreLaws

  datatype Proposal = Proposal(id: CommandId, cmd: Command)

  // A SCAN lists as many keys as it counts, from its first key on, wrapping around.
  function KeysFrom(k: Key, count: nat): (ks: seq<Key>)
    ensures |ks| == count && forall i :: 0 <= i < count ==> ks[i] == Wrap64(k + i)
  {
    if count == 0 then [] else KeysFrom(k, count - 1) + [Wrap64(k + count - 1)]
  }

  function KeysOf(c: Command): seq<Key>
    requires c.Valid()
  {
    if c.op.SCAN? then KeysFrom(c.key, LittleEndian(c.val[..8])) else [c.key]
  }

  // ---- A command touches each of its keys once ----

  lemma WrapInjective(x: int, y: int)
    requires x <= y < x + 0x1_0000_0000_0000_0000 && Wrap64(x) == Wrap64(y)
    ensures x == y
  {
  }

  lemma KeysDistinct(c: Command)
    requires c.Valid()
    ensures NoRepeats(KeysOf(c))
  {
    var ks := KeysOf(c);
    if c.op.SCAN? {
      LittleEndianBound(c.val[..8]);
      forall i, j | 0 <= i < j < |ks| ensures ks[i] != ks[j] {
        if ks[i] == ks[j] { WrapInjective(c.key + i, c.key + j); }
      }
    }
  }

  lemma {:induction false} LittleEndianBound(v: Value)
    requires |v| <= 8
    ensures LittleEndian(v) < 0x1_0000_0000_0000_0000
    ensures |v| == 0 ==> LittleEndian(v) < 1
    ensures |v| == 1 ==> LittleEndian(v) < 0x100
    ensures |v| == 2 ==> LittleEndian(v) < 0x1_0000
    ensures |v| == 3 ==> LittleEndian(v) < 0x100_0000
    ensures |v| == 4 ==> LittleEndian(v) < 0x1_0000_0000
    ensures |v| == 5 ==> LittleEndian(v) < 0x100_0000_0000
    ensures |v| == 6 ==> LittleEndian(v) < 0x1_0000_0000_0000
    ensures |v| == 7 ==> LittleEndian(v) < 0x100_0000_0000_0000
    decreases |v|
  {
    if v != [] { LittleEndianBound(v[1..]); }
  }

  // lightKeyInfo: the last write and the last command of a key, as lists of at most one.
  datatype Info = Info(lastWrite: seq<CommandId>, lastCmd: seq<CommandId>)

  type Keys = map<Key, Info>

  function Conflicts(info: Info, c: Command): seq<CommandId> {
    if c.op.GET? then info.lastWrite else info.lastCmd
  }

  function Added(info: Info, c: Command, id: CommandId): Info {
    Info(if c.op.PUT? then [id] else info.lastWrite, [id])
  }

  function InfoAt(keys: Keys, k: Key): Info {
    if k in keys then keys[k] else Info([], [])
  }

  // getDepAndHashes over a list of keys: the dependencies, and the lists afterwards.
  function Collect(keys: Keys, ks: seq<Key>, c: Command, id: CommandId): seq<CommandId> {
    if ks == [] then []
    else Collect(keys, ks[..|ks| - 1], c, id) + Conflicts(InfoAt(Register(keys, ks[..|ks| - 1], c, id), ks[|ks| - 1]), c)
  }

  function Register(keys: Keys, ks: seq<Key>, c: Command, id: CommandId): Keys {
    if ks == [] then keys
    else
      var m, k := Register(keys, ks[..|ks| - 1], c, id), ks[|ks| - 1];
      m[k := Added(InfoAt(m, k), c, id)]
  }

  // One key more.
  lemma NextKey(keys: Keys, ks: seq<Key>, n: nat, c: Command, id: CommandId)
    requires n < |ks|
    ensures var m := Register(keys, ks[..n], c, id);
            && Collect(keys, ks[..n + 1], c, id) == Collect(keys, ks[..n], c, id) + Conflicts(InfoAt(m, ks[n]), c)
            && Register(keys, ks[..n + 1], c, id) == m[ks[n] := Added(InfoAt(m, ks[n]), c, id)]
    ensures Collect(keys, ks[..0], c, id) == [] && Register(keys, ks[..0], c, id) == keys
  {
    hide Conflicts, Added, InfoAt;
    assert ks[..n + 1][..n] == ks[..n] && ks[..n + 1][n] == ks[n];
  }

  // ---- A run of proposals ----

  predicate History(h: seq<Proposal>) {
    && (forall p <- h :: p.cmd.Valid())
    && (forall i, j :: 0 <= i < j < |h| ==> h[i].id != h[j].id)
  }

  function KeysAfter(h: seq<Proposal>): Keys
    requires forall p <- h :: p.cmd.Valid()
  {
    if h == [] then map[]
    else
      var p := h[|h| - 1];
      Register(KeysAfter(h[..|h| - 1]), KeysOf(p.cmd), p.cmd, p.id)
  }

  // The list computed for the i-th proposal.
  function DepOf(h: seq<Proposal>, i: nat): seq<CommandId>
    requires i < |h| && forall p <- h :: p.cmd.Valid()
  {
    Collect(KeysAfter(h[..i]), KeysOf(h[i].cmd), h[i].cmd, h[i].id)
  }

  predicate Touches(h: seq<Proposal>, i: int, k: Key)
    requires 0 <= i < |h| && h[i].cmd.Valid()
  {
    k in KeysOf(h[i].cmd)
  }

  predicate Writes(h: seq<Proposal>, i: int, k: Key)
    requires 0 <= i < |h|
  {
    h[i].cmd.op.PUT? && h[i].cmd.key == k
  }

  // The last proposal before n that touches k, or -1; with `writes`, that writes k.
  function Last(h: seq<Proposal>, n: nat, k: Key, writes: bool): int
    requires n <= |h| && forall p <- h :: p.cmd.Valid()
  {
    if n == 0 then -1
    else if (if writes then Writes(h, n - 1, k) else Touches(h, n - 1, k)) then n - 1
    else Last(h, n - 1, k, writes)
  }

  lemma {:induction false} LastIs(h: seq<Proposal>, n: nat, k: Key, writes: bool)
    requires n <= |h| && forall p <- h :: p.cmd.Valid()
    ensures -1 <= Last(h, n, k, writes) < n
    ensures Last(h, n, k, writes) >= 0 ==> if writes then Writes(h, Last(h, n, k, writes), k) else Touches(h, Last(h, n, k, writes), k)
    ensures forall i :: Last(h, n, k, writes) < i < n ==> !(if writes then Writes(h, i, k) else Touches(h, i, k))
  {
    if n > 0 { LastIs(h, n - 1, k, writes); }
  }

  function Single(h: seq<Proposal>, i: int): seq<CommandId>
    requires i < |h|
  {
    if i < 0 then [] else [h[i].id]
  }

  lemma {:induction false} RegisterAt(keys: Keys, ks: seq<Key>, c: Command, id: CommandId, k: Key)
    ensures InfoAt(Register(keys, ks, c, id), k) == if k in ks then Added(InfoAt(keys, k), c, id) else InfoAt(keys, k)
  {
    if ks != [] {
      RegisterAt(keys, ks[..|ks| - 1], c, id, k);
      assert ks == ks[..|ks| - 1] + [ks[|ks| - 1]];
    }
  }

  lemma {:induction false} CollectAt(keys: Keys, ks: seq<Key>, c: Command, id: CommandId, k: Key)
    requires k in ks
    ensures forall d <- Conflicts(InfoAt(keys, k), c) :: d in Collect(keys, ks, c, id)
  {
    var p, last := ks[..|ks| - 1], ks[|ks| - 1];
    assert ks == p + [last];
    if k in p {
      CollectAt(keys, p, c, id, k);
    } else {
      RegisterAt(keys, p, c, id, k);
    }
  }

  // The lists hold the last command and the last write of each key.
  lemma {:induction false} InfoIsLast(h: seq<Proposal>, n: nat, k: Key)
    requires n <= |h| && forall p <- h :: p.cmd.Valid()
    ensures forall p <- h[..n] :: p.cmd.Valid()
    ensures -1 <= Last(h, n, k, true) < n && -1 <= Last(h, n, k, false) < n
    ensures InfoAt(KeysAfter(h[..n]), k) == Info(Single(h, Last(h, n, k, true)), Single(h, Last(h, n, k, false)))
  {
    hide KeysOf, Collect, Register, KeysAfter, Wrap64;
    LastIs(h, n, k, true);
    LastIs(h, n, k, false);
    if n == 0 {
      NoKeys(h);
    } else {
      InfoIsLast(h, n - 1, k);
      KeysStep(h, n);
      var p := h[n - 1];
      RegisterAt(KeysAfter(h[..n - 1]), KeysOf(p.cmd), p.cmd, p.id, k);
      hide InfoAt;
      WriteTouches(h, n - 1, k);
    }
  }

  lemma NoKeys(h: seq<Proposal>)
    ensures h[..0] == [] && KeysAfter(h[..0]) == map[]
  {
  }

  lemma KeysStep(h: seq<Proposal>, n: nat)
    requires 0 < n <= |h| && forall p <- h :: p.cmd.Valid()
    ensures (forall p <- h[..n] :: p.cmd.Valid()) && (forall p <- h[..n - 1] :: p.cmd.Valid())
    ensures KeysAfter(h[..n]) == Register(KeysAfter(h[..n - 1]), KeysOf(h[n - 1].cmd), h[n - 1].cmd, h[n - 1].id)
  {
    assert h[..n][..n - 1] == h[..n - 1];
    hide KeysOf, Register;
  }

  lemma WriteTouches(h: seq<Proposal>, i: nat, k: Key)
    requires i < |h| && h[i].cmd.Valid()
    ensures h[i].cmd.op.PUT? ==> (k in KeysOf(h[i].cmd) <==> k == h[i].cmd.key)
  {
  }

  // ---- The computed list is exact ----

  lemma {:induction false} CollectExact(keys: Keys, ks: seq<Key>, c: Command, id: CommandId, x: CommandId)
    requires NoRepeats(ks)
    ensures x in Collect(keys, ks, c, id) <==> exists k <- ks :: x in Conflicts(InfoAt(keys, k), c)
  {
    hide Conflicts, InfoAt, Added;
    if ks != [] {
      var p, last := ks[..|ks| - 1], ks[|ks| - 1];
      assert ks == p + [last] && last !in p;
      CollectExact(keys, p, c, id, x);
      RegisterAt(keys, p, c, id, last);
    }
  }

  // Proposal j counts for proposal i at key k: it wrote k, if i is a GET, and touched it otherwise.
  predicate CountsFor(h: seq<Proposal>, i: nat, j: int, k: Key)
    requires i < |h| && 0 <= j < |h| && forall p <- h :: p.cmd.Valid()
  {
    if h[i].cmd.op.GET? then h[j].cmd.op.PUT? && h[j].cmd.key == k else k in KeysOf(h[j].cmd)
  }

  // j is the last proposal before i that counts for it at k.
  ghost predicate LatestFor(h: seq<Proposal>, i: nat, j: int, k: Key)
    requires i < |h| && forall p <- h :: p.cmd.Valid()
  {
    0 <= j < i && CountsFor(h, i, j, k) && forall l :: j < l < i ==> !CountsFor(h, i, l, k)
  }

  lemma LatestAt(h: seq<Proposal>, i: nat, k: Key, x: CommandId)
    requires i < |h| && forall p <- h :: p.cmd.Valid()
    ensures x in Conflicts(InfoAt(KeysAfter(h[..i]), k), h[i].cmd) <==> exists j :: LatestFor(h, i, j, k) && h[j].id == x
  {
    hide KeysOf, KeysAfter, InfoAt;
    var isGet := h[i].cmd.op.GET?;
    var n := Last(h, i, k, isGet);
    InfoIsLast(h, i, k);
    LastIs(h, i, k, isGet);
    hide Last;
    forall j: nat | j < i ensures CountsFor(h, i, j, k) <==> if isGet then Writes(h, j, k) else Touches(h, j, k) {}
    if n >= 0 { assert LatestFor(h, i, n, k); }
  }

  // The list of a proposal holds, for each of its keys, the last earlier proposal that counts there, and
  // nothing else.
  lemma DepExactly(h: seq<Proposal>, i: nat, x: CommandId)
    requires i < |h| && forall p <- h :: p.cmd.Valid()
    ensures x in DepOf(h, i) <==> exists k, j :: k in KeysOf(h[i].cmd) && LatestFor(h, i, j, k) && h[j].id == x
  {
    var c := h[i].cmd;
    KeysDistinct(c);
    CollectExact(KeysAfter(h[..i]), KeysOf(c), c, h[i].id, x);
    hide Conflicts, InfoAt, KeysOf, KeysAfter, Collect, LatestFor;
    forall k ensures x in Conflicts(InfoAt(KeysAfter(h[..i]), k), c) <==> exists j :: LatestFor(h, i, j, k) && h[j].id == x {
      LatestAt(h, i, k, x);
    }
  }

  // ---- The closure of the lists ----

  // Proposal i is reached from j through the computed lists.
  ghost predicate DependsOn(h: seq<Proposal>, j: nat, i: nat)
    requires j < |h| && i < |h| && forall p <- h :: p.cmd.Valid()
    decreases j
  {
    i == j || exists m: nat :: m < j && h[m].id in DepOf(h, j) && DependsOn(h, m, i)
  }

  // Every earlier write on a key the command touches is in the closure of its list.
  lemma {:induction false} EarlierWrites(h: seq<Proposal>, j: nat, i: nat, k: Key)
    requires i < j < |h| && History(h) && Writes(h, i, k) && Touches(h, j, k)
    ensures DependsOn(h, j, i)
    decreases j
  {
    var isGet := h[j].cmd.op.GET?;
    var m := Last(h, j, k, isGet);
    LastIs(h, j, k, isGet);
    InfoIsLast(h, j, k);
    assert k in KeysOf(h[i].cmd);
    assert m >= i;
    CollectAt(KeysAfter(h[..j]), KeysOf(h[j].cmd), h[j].cmd, h[j].id, k);
    assert h[m].id in DepOf(h, j);
    if m > i {
      assert Touches(h, m, k);
      EarlierWrites(h, m, i, k);
    }
  }

  // ---- Reads ----

  // n is the first proposal after i that touches k.
  ghost predicate NextTouch(h: seq<Proposal>, i: nat, n: nat, k: Key)
    requires forall p <- h :: p.cmd.Valid()
  {
    i < n < |h| && Touches(h, n, k) && forall l :: i < l < n ==> !Touches(h, l, k)
  }

  // A read is listed exactly by the next command on its key, if that is not a read.
  lemma ReadListed(h: seq<Proposal>, m: nat, i: nat)
    requires History(h) && i < |h| && m < |h| && h[i].cmd.op.GET?
    ensures h[i].id in DepOf(h, m) <==> !h[m].cmd.op.GET? && NextTouch(h, i, m, h[i].cmd.key)
  {
    var k := h[i].cmd.key;
    DepExactly(h, m, h[i].id);
    assert KeysOf(h[i].cmd) == [k];
    hide DepOf, KeysOf;
    if h[i].id in DepOf(h, m) {
      var k', j :| k' in KeysOf(h[m].cmd) && LatestFor(h, m, j, k') && h[j].id == h[i].id;
      assert j == i && CountsFor(h, m, i, k');
      forall l | i < l < m ensures !Touches(h, l, k) { assert !CountsFor(h, m, l, k); }
    }
    if !h[m].cmd.op.GET? && NextTouch(h, i, m, k) {
      forall l | i < l < m ensures !CountsFor(h, m, l, k) { assert !Touches(h, l, k); }
      assert LatestFor(h, m, i, k);
    }
  }

  lemma {:induction false} DependsTrans(h: seq<Proposal>, j: nat, n: nat, i: nat)
    requires History(h) && j < |h| && n < |h| && i < |h| && DependsOn(h, j, n) && DependsOn(h, n, i)
    ensures DependsOn(h, j, i)
    decreases j
  {
    hide DepOf;
    if j != n {
      var m: nat :| m < j && h[m].id in DepOf(h, j) && DependsOn(h, m, n);
      DependsTrans(h, m, n, i);
    }
  }

  // A read is in the closure of a list if and only if the next command on its key is no read and is in it.
  lemma {:induction false} ReadOrdered(h: seq<Proposal>, j: nat, i: nat)
    requires History(h) && i < |h| && j < |h| && i != j && h[i].cmd.op.GET?
    ensures DependsOn(h, j, i) <==> exists n: nat :: n < |h| && NextTouch(h, i, n, h[i].cmd.key) && !h[n].cmd.op.GET? && DependsOn(h, j, n)
    decreases j
  {
    hide DepOf, NextTouch;
    if DependsOn(h, j, i) {
      var m: nat :| m < j && h[m].id in DepOf(h, j) && DependsOn(h, m, i);
      if m == i {
        ReadListed(h, j, i);
        assert DependsOn(h, j, j);
      } else {
        ReadOrdered(h, m, i);
        var n: nat :| n < |h| && NextTouch(h, i, n, h[i].cmd.key) && !h[n].cmd.op.GET? && DependsOn(h, m, n);
        TouchIn(h, i, n, h[i].cmd.key);
      }
    }
    if n: nat :| n < |h| && NextTouch(h, i, n, h[i].cmd.key) && !h[n].cmd.op.GET? && DependsOn(h, j, n) {
      TouchIn(h, i, n, h[i].cmd.key);
      ReadListed(h, n, i);
      assert DependsOn(h, i, i);
      DependsTrans(h, j, n, i);
    }
  }

  lemma TouchIn(h: seq<Proposal>, i: nat, n: nat, k: Key)
    requires (forall p <- h :: p.cmd.Valid()) && NextTouch(h, i, n, k)
    ensures i < n < |h|
  {
  }

  // Where only PUTs and GETs touch the key: a later write follows a read exactly when the next command on
  // the key after the read is a write.
  lemma ReadBeforeWrite(h: seq<Proposal>, j: nat, i: nat, n: nat)
    requires History(h) && i < j < |h| && h[i].cmd.op.GET? && Writes(h, j, h[i].cmd.key) && NextTouch(h, i, n, h[i].cmd.key)
    requires h[n].cmd.op.PUT? || h[n].cmd.op.GET?
    ensures DependsOn(h, j, i) <==> h[n].cmd.op.PUT?
  {
    var k := h[i].cmd.key;
    ReadOrdered(h, j, i);
    assert KeysOf(h[j].cmd) == [k];
    assert n <= j by { assert Touches(h, j, k); }
    if h[n].cmd.op.PUT? && n < j { EarlierWrites(h, j, n, k); }
    hide DependsOn;
    forall n': nat | NextTouch(h, i, n', k) ensures n' == n { }
    assert n == j ==> DependsOn(h, j, n) by { Itself(h, j); }
  }

  lemma Itself(h: seq<Proposal>, j: nat)
    requires j < |h| && forall p <- h :: p.cmd.Valid()
    ensures DependsOn(h, j, j)
  {
  }

  // ---- Delivery ----

  // Deliveries in an order that the dependency check of deliver allows.
  ghost predicate Respects(h: seq<Proposal>, s: seq<CommandId>)
    requires forall p <- h :: p.cmd.Valid()
  {
    && NoRepeats(s)
    && (forall p :: 0 <= p < |s| ==> exists i :: 0 <= i < |h| && h[i].id == s[p])
    && (forall p, i :: 0 <= p < |s| && 0 <= i < |h| && h[i].id == s[p] ==> forall d <- DepOf(h, i) :: d in s[..p])
  }

  // What a delivered command depends on was delivered before it.
  lemma {:induction false} Precedes(h: seq<Proposal>, s: seq<CommandId>, p: nat, j: nat, i: nat)
    requires History(h) && Respects(h, s) && p < |s| && j < |h| && h[j].id == s[p] && i < |h| && DependsOn(h, j, i) && i != j
    ensures h[i].id in s[..p]
    decreases j
  {
    var m: nat :| m < j && h[m].id in DepOf(h, j) && DependsOn(h, m, i);
    assert h[m].id in s[..p];
    if m != i {
      var q :| 0 <= q < p && s[q] == h[m].id;
      Precedes(h, s, q, m, i);
    }
  }

  function Commands(h: seq<Proposal>): Workload<CommandId> {
    if h == [] then map[] else Commands(h[..|h| - 1])[h[|h| - 1].id := h[|h| - 1].cmd]
  }

  lemma {:induction false} CommandsAt(h: seq<Proposal>, i: nat)
    requires i < |h| && forall i, j :: 0 <= i < j < |h| ==> h[i].id != h[j].id
    ensures h[i].id in Commands(h) && Commands(h)[h[i].id] == h[i].cmd
  {
    if i < |h| - 1 {
      CommandsAt(h[..|h| - 1], i);
    }
  }

  function Puts(w: Workload<CommandId>, s: seq<CommandId>): seq<CommandId>
    requires Orders(w, s)
  {
    if s == [] then []
    else
      SuffixOrders(w, s);
      (if w[s[0]].op.PUT? then [s[0]] else []) + Puts(w, s[1..])
  }

  // Only the writes count for the store.
  lemma {:induction false} FinalPuts(w: Workload<CommandId>, t: Table, s: seq<CommandId>)
    requires Orders(w, s)
    ensures Orders(w, Puts(w, s)) && Final(w, t, Puts(w, s)) == Final(w, t, s)
    ensures forall x :: x in Puts(w, s) <==> x in s && w[x].op.PUT?
    decreases |s|
  {
    if s != [] {
      SuffixOrders(w, s);
      FinalPuts(w, Effect(t, w[s[0]]), s[1..]);
      assert s == [s[0]] + s[1..];
      var rest := Puts(w, s[1..]);
      if w[s[0]].op.PUT? {
        assert Puts(w, s) == [s[0]] + rest;
        assert s[0] !in rest;
        assert Orders(w, [s[0]] + rest);
        assert ([s[0]] + rest)[1..] == rest;
      } else {
        assert Puts(w, s) == rest;
      }
    }
  }

  lemma {:induction false} PutsBefore(w: Workload<CommandId>, s: seq<CommandId>, x: CommandId, y: CommandId)
    requires Orders(w, s) && Before(Puts(w, s), x, y)
    ensures Before(s, x, y)
  {
    if s != [] {
      SuffixOrders(w, s);
      var rest := Puts(w, s[1..]);
      FinalPuts(w, map[], s[1..]);
      assert Puts(w, s) == (if w[s[0]].op.PUT? then [s[0]] else []) + rest;
      hide Puts, Orders, Final;
      if Before(rest, x, y) {
        PutsBefore(w, s[1..], x, y);
        BeforeTail(s, x, y);
      } else {
        assert x == s[0] && y in rest;
        var b :| 0 <= b < |s[1..]| && s[1..][b] == y;
        assert s[b + 1] == y;
      }
    }
  }

  // Delivered writes on one key follow the order of their proposals.
  lemma WritesOrdered(h: seq<Proposal>, s: seq<CommandId>, i: nat, j: nat, k: Key)
    requires History(h) && Respects(h, s) && i < |h| && j < |h| && Writes(h, i, k) && Writes(h, j, k)
    requires h[i].id in s && h[j].id in s
    ensures Before(s, h[i].id, h[j].id) <==> i < j
  {
    if i < j { WriteFirst(h, s, i, j, k); }
    if j < i { WriteFirst(h, s, j, i, k); }
    hide Respects, DependsOn, DepOf;
    assert NoRepeats(s) by { Unrepeated(h, s); }
  }

  lemma Unrepeated(h: seq<Proposal>, s: seq<CommandId>)
    requires History(h) && Respects(h, s)
    ensures NoRepeats(s)
  {
    hide DepOf;
  }

  lemma WriteFirst(h: seq<Proposal>, s: seq<CommandId>, i: nat, j: nat, k: Key)
    requires History(h) && Respects(h, s) && i < j < |h| && Writes(h, i, k) && Writes(h, j, k) && h[j].id in s
    ensures Before(s, h[i].id, h[j].id)
  {
    assert Touches(h, j, k);
    EarlierWrites(h, j, i, k);
    var p :| 0 <= p < |s| && s[p] == h[j].id;
    Precedes(h, s, p, j, i);
    var q :| 0 <= q < p && s[q] == h[i].id;
  }

  lemma RespectsOrder(h: seq<Proposal>, s: seq<CommandId>)
    requires History(h) && Respects(h, s)
    ensures Orders(Commands(h), s)
  {
    forall x | x in s ensures x in Commands(h) && Commands(h)[x].Valid() {
      var p :| 0 <= p < |s| && s[p] == x;
      var i :| 0 <= i < |h| && h[i].id == s[p];
      CommandsAt(h, i);
      assert h[i] in h;
    }
  }

  lemma PutsAgree(h: seq<Proposal>, a: seq<CommandId>, b: seq<CommandId>, x: CommandId, y: CommandId)
    requires History(h) && Respects(h, a) && Respects(h, b) && (forall x :: x in a <==> x in b)
    requires Orders(Commands(h), a) && Orders(Commands(h), b)
    requires x in Puts(Commands(h), a) && y in Puts(Commands(h), a)
    requires x in Commands(h) && y in Commands(h) && Commands(h)[x].Valid() && Commands(h)[y].Valid()
    requires Conflict(Commands(h)[x], Commands(h)[y]) && Before(Puts(Commands(h), a), x, y)
    ensures Before(Puts(Commands(h), b), x, y)
  {
    var w := Commands(h);
    hide Commands, DepOf;
    FinalPuts(w, map[], a);
    FinalPuts(w, map[], b);
    PutsBefore(w, a, x, y);
    assert x != y;
    var i := IndexOf(h, a, x);
    var j := IndexOf(h, a, y);
    CommandsAt(h, i);
    CommandsAt(h, j);
    hide Respects, Orders, Puts;
    WritesOrdered(h, a, i, j, w[x].key);
    WritesOrdered(h, b, j, i, w[x].key);
    SeqTotal(Puts(w, b), x, y);
    if Before(Puts(w, b), y, x) { PutsBefore(w, b, y, x); }
  }

  lemma IndexOf(h: seq<Proposal>, s: seq<CommandId>, x: CommandId) returns (i: nat)
    requires History(h) && Respects(h, s) && x in s
    ensures i < |h| && h[i].id == x
  {
    var p :| 0 <= p < |s| && s[p] == x;
    i :| 0 <= i < |h| && h[i].id == s[p];
  }

  // Any two deliveries of the same commands that respect the lists end in the same store.
  lemma SparseDepsSuffice(h: seq<Proposal>, t: Table, a: seq<CommandId>, b: seq<CommandId>)
    requires History(h) && Respects(h, a) && Respects(h, b) && forall x :: x in a <==> x in b
    ensures Orders(Commands(h), a) && Orders(Commands(h), b)
    ensures Final(Commands(h), t, a) == Final(Commands(h), t, b)
  {
    var w := Commands(h);
    RespectsOrder(h, a);
    RespectsOrder(h, b);
    hide Commands, Respects;
    FinalPuts(w, t, a);
    FinalPuts(w, t, b);
    var p, q := Puts(w, a), Puts(w, b);
    forall x, y | x in p && y in p && Conflict(w[x], w[y]) && Before(p, x, y) ensures Before(q, x, y) {
      PutsAgree(h, a, b, x, y);
    }
    TraceEquivalence(w, t, p, q);
  }

  // ---- A read that a write overtakes ----

  function TwoReads(k: Key, v: Value, x: CommandId, y: CommandId, z: CommandId): (h: seq<Proposal>)
    ensures |h| == 3 && forall p <- h :: p.cmd.Valid()
  {
    [Proposal(x, Command(GET, k, NIL)), Proposal(y, Command(GET, k, NIL)), Proposal(z, Command(PUT, k, v))]
  }

  // The lists of two reads are empty; the write lists the second one only.
  lemma TwoReadsDeps(k: Key, v: Value, x: CommandId, y: CommandId, z: CommandId)
    requires x != y && y != z && x != z
    ensures var h := TwoReads(k, v, x, y, z);
            History(h) && DepOf(h, 0) == [] && DepOf(h, 1) == [] && forall d <- DepOf(h, 2) :: d == y
  {
    var h := TwoReads(k, v, x, y, z);
    assert h[0] == Proposal(x, Command(GET, k, NIL)) && h[1] == Proposal(y, Command(GET, k, NIL)) && h[2] == Proposal(z, Command(PUT, k, v));
    assert forall i :: 0 <= i < 3 ==> KeysOf(h[i].cmd) == [k];
    hide DepOf, KeysOf, TwoReads;
    ReadListed(h, 1, 0);
    ReadListed(h, 2, 0);
    assert Touches(h, 1, k);
    forall d ensures d !in DepOf(h, 0) { DepExactly(h, 0, d); }
    forall d ensures d !in DepOf(h, 1) { DepExactly(h, 1, d); }
    forall d | d in DepOf(h, 2) ensures d == y { DepExactly(h, 2, d); }
    SomeIn(DepOf(h, 0));
    SomeIn(DepOf(h, 1));
  }

  lemma SomeIn(s: seq<CommandId>)
    ensures s == [] || exists d :: d in s
  {
    if s != [] { assert s[0] in s; }
  }

  lemma BothRespect(k: Key, v: Value, x: CommandId, y: CommandId, z: CommandId)
    requires x != y && y != z && x != z
    ensures var h := TwoReads(k, v, x, y, z); History(h) && Respects(h, [x, y, z]) && Respects(h, [y, z, x])
  {
    var h, a, b := TwoReads(k, v, x, y, z), [x, y, z], [y, z, x];
    TwoReadsDeps(k, v, x, y, z);
    assert h[0].id == x && h[1].id == y && h[2].id == z;
    assert a[..2] == [x, y] && b[..1] == [y];
    hide DepOf, TwoReads;
    assert NoRepeats(a) && NoRepeats(b);
  }

  // Deliveries that respect the lists end in the same table, but the first read can see the later write.
  lemma RepliesDiffer(k: Key, v: Value, x: CommandId, y: CommandId, z: CommandId)
    requires x != y && y != z && x != z && v != NIL
    ensures var h, a, b := TwoReads(k, v, x, y, z), [x, y, z], [y, z, x];
            && History(h) && Respects(h, a) && Respects(h, b) && Orders(Commands(h), a) && Orders(Commands(h), b)
            && ReplyOf(Commands(h), map[], a, x) == NIL && ReplyOf(Commands(h), map[], b, x) == v
  {
    var h, a, b := TwoReads(k, v, x, y, z), [x, y, z], [y, z, x];
    hide DepOf, Commands, ReplyOf, Respects;
    BothRespect(k, v, x, y, z);
    RespectsOrder(h, a);
    RespectsOrder(h, b);
    CommandsAt(h, 0);
    CommandsAt(h, 1);
    CommandsAt(h, 2);
    hide History;
    ReadsLastPut(Commands(h), map[], a, 0, -1);
    ReadsLastPut(Commands(h), map[], b, 2, 1);
  }

  // ---- The boundary key of a SCAN ----

  // The upper bound of a SCAN is its first key plus its count, unless that wraps around below the first key.
  lemma UpperBoundIs(c: Command)
    requires c.op.SCAN? && c.Valid()
    ensures var sum := c.key + LittleEndian(c.val[..8]);
            if sum < 0x8000_0000_0000_0000 then UpperBound(c) == sum else UpperBound(c) < c.key
  {
    var count: int := LittleEndian(c.val[..8]);
    LittleEndianBound(c.val[..8]);
    assert Wrap64(count) == if count < 0x8000_0000_0000_0000 then count else count - 0x1_0000_0000_0000_0000;
  }

  // Conflict and Execute include the upper bound; KeysOf stops one key before it. That key is the
  // only one where the lists miss a conflict; a SCAN that wraps around conflicts with nothing.
  lemma ScanMissesUpperBound(c: Command, p: Command)
    requires c.op.SCAN? && c.Valid() && p.op.PUT?
    ensures Conflict(c, p) && p.key !in KeysOf(c) <==>
              c.key + LittleEndian(c.val[..8]) < 0x8000_0000_0000_0000 && p.key == UpperBound(c)
  {
    var count := LittleEndian(c.val[..8]);
    UpperBoundIs(c);
    if c.key + count < 0x8000_0000_0000_0000 {
      var ks := KeysOf(c);
      assert forall i :: 0 <= i < count ==> ks[i] == c.key + i;
      if c.key <= p.key < c.key + count { assert ks[p.key - c.key] == p.key; }
    }
  }
}
