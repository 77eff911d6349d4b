/** The EPaxos executor in place (epaxos/exec.go and executeCommands of epaxos/epaxos.go):
    Tarjan's search over committed instances, interleaved with execution. */
module EPaxosExec {
  import opened EPaxosGraph
  import opened EPaxosTarjan
  import opened Options
  import opened Store

  // Statuses below COMMITTED are one: the executor treats them alike.
  datatype Status = NotCommitted | Committed | Executed

  datatype Inst = Inst(
    cmds: Option<seq<Command>>,
    status: Status,
    seqno: int,
    deps: seq<int>,
    index: int,
    lowlink: int,
    proposeTime: int,
    bal: int)

  type Space = map<InstId, Inst>

  // newInstanceDefault, created at the given local time.
  function NewInst(now: int): Inst {
    Inst(None, NotCommitted, -1, [], 0, 0, now, -1)
  }

  // ---- The invariant ----

  ghost function Done(inst: Space): set<InstId> {
    set x | x in inst && inst[x].status == Executed
  }

  // Committed instances that no call has visited yet.
  ghost function White(inst: Space): set<InstId> {
    set x | x in inst && inst[x].status == Committed && inst[x].index == 0
  }

  // What is committed here is what the graph says.
  ghost predicate Agrees(G: Graph, n: nat, inst: Space) {
    forall x <- inst ::
      && x.rep < n && inst[x].index >= 0
      && (inst[x].status != NotCommitted ==>
            && |inst[x].deps| == n
            && x in G && G[x].deps == inst[x].deps && G[x].seqno == inst[x].seqno
            && (inst[x].cmds.Some? ==> inst[x].cmds.value == G[x].cmds))
      && (inst[x].status == Executed ==> inst[x].cmds.Some?)
  }

  // The sort order of exec.go: Seq, then replica, then the local propose time.
  predicate NodeLess(inst: Space, x: InstId, y: InstId)
    requires x in inst && y in inst
  {
    var a, b := inst[x], inst[y];
    || a.seqno < b.seqno
    || (a.seqno == b.seqno && x.rep < y.rep)
    || (a.seqno == b.seqno && x.rep == y.rep && a.proposeTime < b.proposeTime)
  }

  // Every executed batch is in the sort order.
  ghost predicate BatchSorted(inst: Space, b: seq<InstId>) {
    (forall x <- b :: x in inst) && NodeSorted(inst, b)
  }

  ghost predicate LogOK(G: Graph, inst: Space, log: Log) {
    && ValidLog(G, log) && (forall x :: InLog(log, x) <==> x in Done(inst))
    && forall i :: 0 <= i < |log| ==> BatchSorted(inst, log[i])
  }

  // Everything up to a row's watermark is executed.
  ghost predicate MarksOK(n: nat, inst: Space, execedUpTo: seq<int>) {
    && |execedUpTo| == n && (forall q :: 0 <= q < n ==> execedUpTo[q] >= -1)
    && forall x: InstId :: x.rep < n && x.inst <= execedUpTo[x.rep] ==> x in Done(inst)
  }

  // A non-zero Index outside the executed instances means being on the stack.
  ghost predicate StackOK(inst: Space, stack: seq<InstId>) {
    && (forall x <- stack :: x in inst)
    && (forall x <- inst :: inst[x].status != Executed ==> (inst[x].index != 0 <==> x in stack))
  }

  // The store is what the logged batches computed.
  ghost predicate StoreOK(G: Graph, log: Log, store: Table) {
    Logged(G, log) && store == RunLog(G, log)
  }

  // Holds at every point of a search.
  ghost predicate Good(G: Graph, n: nat, inst: Space, marks: seq<int>, stack: seq<InstId>, log: Log, store: Table) {
    Agrees(G, n, inst) && LogOK(G, inst, log) && MarksOK(n, inst, marks) && StackOK(inst, stack) && StoreOK(G, log, store)
  }

  // ---- What a search changes ----

  // Only Index, Lowlink and the step from Committed to Executed change.
  ghost predicate SameContent(a: Space, b: Space) {
    && a.Keys == b.Keys
    && forall x <- a ::
         && b[x].cmds == a[x].cmds && b[x].seqno == a[x].seqno && b[x].deps == a[x].deps
         && b[x].proposeTime == a[x].proposeTime && b[x].bal == a[x].bal
         && (b[x].status == a[x].status || (a[x].status == Committed && a[x].cmds.Some? && b[x].status == Executed))
  }

  // ... and only what v depends on is executed.
  ghost predicate Progress(G: Graph, a: Space, b: Space, v: InstId) {
    && SameContent(a, b) && White(b) <= White(a)
    && forall y <- Done(b) :: y in Done(a) || Reach(G, v, y)
  }

  lemma ProgressTrans(G: Graph, a: Space, b: Space, c: Space, v: InstId, y: InstId)
    requires Progress(G, a, b, v) && Progress(G, b, c, y) && Reach(G, v, y)
    ensures Progress(G, a, c, v)
  {
    hide Reach;
    forall z | z in Done(c) ensures z in Done(a) || Reach(G, v, z) {
      if z !in Done(b) { ReachTrans(G, v, y, z); }
    }
  }

  // Executed, or committed with its commands.
  predicate Ready(inst: Space, x: InstId) {
    x in inst && inst[x].status != NotCommitted && inst[x].cmds.Some?
  }

  // A failed search found something v depends on that is not ready.
  ghost predicate Blocked(G: Graph, inst: Space, v: InstId) {
    exists y :: Reach(G, v, y) && !Ready(inst, y)
  }

  // Nothing v depends on is missing: it is all known, decided and has its commands.
  lemma UnblockedIs(G: Graph, inst: Space, v: InstId)
    ensures !Blocked(G, inst, v) <==> forall y :: Reach(G, v, y) ==> y in inst && inst[y].status != NotCommitted && inst[y].cmds.Some?
  {
    hide Reach;
  }

  lemma BlockedBelow(G: Graph, a: Space, b: Space, v: InstId, y: InstId)
    requires Blocked(G, b, y) && Reach(G, v, y) && SameContent(a, b)
    ensures Blocked(G, a, v)
  {
    var z :| Reach(G, y, z) && !Ready(b, z);
    ReachTrans(G, v, y, z);
    hide Reach;
    assert !Ready(a, z);
  }

  // ---- The view of the search ----

  ghost function ViewOf(inst: Space, stack: seq<InstId>): View
    requires forall x <- stack :: x in inst
  {
    View(stack, seq(|stack|, i requires 0 <= i < |stack| => inst[stack[i]].index), Done(inst))
  }

  ghost predicate Fresh(v: View, next: int) {
    next >= 1 && forall a :: 0 <= a < |v.ix| ==> v.ix[a] < next
  }

  // Everything on the stack has its commands.
  ghost predicate Loaded(inst: Space, stack: seq<InstId>) {
    forall x <- stack :: x in inst && inst[x].status == Committed && inst[x].cmds.Some?
  }

  // ---- The sort ----

  ghost predicate NodeSorted(inst: Space, s: seq<InstId>)
    requires forall x <- s :: x in inst
  {
    forall i, j :: 0 <= i < j < |s| ==> !NodeLess(inst, s[j], s[i])
  }

  // The contract of sort.Sort, met here by insertion.
  method SortNodes(inst: Space, list: seq<InstId>) returns (s: seq<InstId>)
    requires forall x <- list :: x in inst
    ensures multiset(s) == multiset(list)
    ensures (forall x <- s :: x in inst) && NodeSorted(inst, s)
  {
    s := [];
    for i := 0 to |list|
      invariant multiset(s) == multiset(list[..i])
      invariant (forall x <- s :: x in inst) && NodeSorted(inst, s)
    {
      assert list[..i + 1] == list[..i] + [list[i]];
      s := Insert(inst, s, list[i]);
    }
    assert list[..|list|] == list;
  }

  method Insert(inst: Space, s: seq<InstId>, x: InstId) returns (r: seq<InstId>)
    requires x in inst && (forall y <- s :: y in inst) && NodeSorted(inst, s)
    ensures multiset(r) == multiset(s) + multiset{x}
    ensures (forall y <- r :: y in inst) && NodeSorted(inst, r)
  {
    var k := |s|;
    while k > 0 && NodeLess(inst, x, s[k - 1])
      invariant 0 <= k <= |s|
      invariant forall j :: k <= j < |s| ==> NodeLess(inst, x, s[j])
    {
      k := k - 1;
    }
    r := s[..k] + [x] + s[k..];
    assert s == s[..k] + s[k..];
    InsertSorted(inst, s, x, k);
  }

  lemma InsertSorted(inst: Space, s: seq<InstId>, x: InstId, k: nat)
    requires x in inst && (forall y <- s :: y in inst) && NodeSorted(inst, s) && k <= |s|
    requires forall j :: k <= j < |s| ==> NodeLess(inst, x, s[j])
    requires k > 0 ==> !NodeLess(inst, x, s[k - 1])
    ensures (forall y <- s[..k] + [x] + s[k..] :: y in inst) && NodeSorted(inst, s[..k] + [x] + s[k..])
  {
    var r := s[..k] + [x] + s[k..];
    forall i, j | 0 <= i < j < |r| ensures !NodeLess(inst, r[j], r[i]) {
      if i < k && j == k {
        if i < k - 1 { assert !NodeLess(inst, s[k - 1], s[i]); }
      }
    }
  }

  lemma SortedByKey(G: Graph, n: nat, inst: Space, s: seq<InstId>)
    requires Agrees(G, n, inst) && (forall x <- s :: x in inst && inst[x].status != NotCommitted) && NodeSorted(inst, s)
    requires forall i, j :: 0 <= i < j < |s| ==> s[i] != s[j]
    ensures Sorted(G, s)
  {
    forall i, j | 0 <= i < j < |s| ensures !KeyLess(G, s[j], s[i]) {
      assert s[i] in s && s[j] in s;
      assert !NodeLess(inst, s[j], s[i]);
    }
  }

  // ---- The fold the store is compared with ----

  function RunCmds(t: Table, cmds: seq<Command>): Table {
    if cmds == [] then t else Effect(RunCmds(t, cmds[..|cmds| - 1]), cmds[|cmds| - 1])
  }

  function RunBatch(G: Graph, t: Table, b: seq<InstId>): Table
    requires forall x <- b :: x in G
  {
    if b == [] then t else RunCmds(RunBatch(G, t, b[..|b| - 1]), G[b[|b| - 1]].cmds)
  }

  ghost predicate Logged(G: Graph, log: Log) {
    forall i :: 0 <= i < |log| ==> forall x <- log[i] :: x in G
  }

  function RunLog(G: Graph, log: Log): Table
    requires Logged(G, log)
  {
    if log == [] then map[] else RunBatch(G, RunLog(G, log[..|log| - 1]), log[|log| - 1])
  }

  // ---- The steps of a search, on values ----

  lemma StackOut(inst: Space, stack: seq<InstId>, v: InstId)
    requires StackOK(inst, stack) && v in inst && inst[v].status == Committed && inst[v].index == 0
    ensures v !in stack && v !in Done(inst) && v in White(inst)
  {
  }

  function Opening(inst: Space, v: InstId, i: int): Space
    requires v in inst
  {
    inst[v := inst[v].(index := i, lowlink := i)]
  }

  lemma PushInst(G: Graph, n: nat, inst: Space, marks: seq<int>, stack: seq<InstId>, log: Log, store: Table, v: InstId, i: int)
    requires Good(G, n, inst, marks, stack, log, store)
    requires v in inst && inst[v].status == Committed && inst[v].index == 0 && i >= 1
    ensures Good(G, n, Opening(inst, v, i), marks, stack + [v], log, store)
    ensures ViewOf(Opening(inst, v, i), stack + [v]) == Pushed(ViewOf(inst, stack), v, i)
    ensures Progress(G, inst, Opening(inst, v, i), v) && White(Opening(inst, v, i)) == White(inst) - {v}
  {
    var b := Opening(inst, v, i);
    StackOut(inst, stack, v);
    SameDone(inst, b);
    hide ValidLog, InLog, Done, Reach, StoreOK, LogOK, Agrees, MarksOK;
    KeepGood(G, n, inst, b, marks, log) by { assert inst[v].index >= 0; }
    PushStack(inst, stack, v, i);
    hide StackOK;
    assert ViewOf(b, stack + [v]).ix == Pushed(ViewOf(inst, stack), v, i).ix;
  }

  lemma PushStack(inst: Space, stack: seq<InstId>, v: InstId, i: int)
    requires StackOK(inst, stack) && v in inst && inst[v].status == Committed && inst[v].index == 0 && i >= 1
    ensures StackOK(Opening(inst, v, i), stack + [v])
  {
    assert forall x <- stack + [v] :: x in stack || x == v;
    assert v in stack + [v] && forall x <- stack :: x in stack + [v];
  }

  lemma SameDone(a: Space, b: Space)
    requires a.Keys == b.Keys && forall x <- a :: a[x].status == b[x].status
    ensures Done(a) == Done(b)
  {
  }

  // The invariants other than the stack's do not look at Index and Lowlink.
  lemma KeepGood(G: Graph, n: nat, a: Space, b: Space, marks: seq<int>, log: Log)
    requires Agrees(G, n, a) && LogOK(G, a, log) && MarksOK(n, a, marks) && Done(a) == Done(b)
    requires a.Keys == b.Keys && forall x <- a :: b[x] == a[x].(index := b[x].index, lowlink := b[x].lowlink) && b[x].index >= 0
    ensures Agrees(G, n, b) && LogOK(G, b, log) && MarksOK(n, b, marks)
  {
    hide ValidLog, InLog, Done, BatchSorted;
    forall i | 0 <= i < |log| ensures BatchSorted(b, log[i]) {
      SameTimes(a, b, log[i]);
    }
  }

  lemma SameTimes(a: Space, b: Space, s: seq<InstId>)
    requires BatchSorted(a, s)
    requires forall x <- s :: x in a ==> x in b && b[x].seqno == a[x].seqno && b[x].proposeTime == a[x].proposeTime
    ensures BatchSorted(b, s)
  {
    forall i, j | 0 <= i < j < |s| ensures !NodeLess(b, s[j], s[i]) {
      assert s[i] in s && s[j] in s;
      assert !NodeLess(a, s[j], s[i]);
    }
  }

  function Lowered(inst: Space, v: InstId, low: int): Space
    requires v in inst
  {
    inst[v := inst[v].(lowlink := low)]
  }

  lemma LowerInst(G: Graph, n: nat, inst: Space, marks: seq<int>, stack: seq<InstId>, log: Log, store: Table, v: InstId, low: int)
    requires Good(G, n, inst, marks, stack, log, store) && v in inst
    ensures Good(G, n, Lowered(inst, v, low), marks, stack, log, store)
    ensures ViewOf(Lowered(inst, v, low), stack) == ViewOf(inst, stack)
    ensures SameContent(inst, Lowered(inst, v, low)) && White(Lowered(inst, v, low)) == White(inst) && Done(Lowered(inst, v, low)) == Done(inst)
  {
    var b := Lowered(inst, v, low);
    SameDone(inst, b);
    KeepGood(G, n, inst, b, marks, log);
  }

  // What executing the listed instances leaves.
  function Marked(inst: Space, s: seq<InstId>): Space {
    map x | x in inst :: if x in s then inst[x].(status := Executed) else inst[x]
  }

  lemma MarkedView(inst: Space, stack: seq<InstId>, p: nat, s: seq<InstId>)
    requires (forall x <- stack :: x in inst) && p <= |stack| && multiset(s) == multiset(stack[p..])
    requires forall a, b :: 0 <= a < b < |stack| ==> stack[a] != stack[b]
    ensures (forall x <- stack[..p] :: x in inst) && ViewOf(Marked(inst, s), stack[..p]) == Popped(ViewOf(inst, stack), p)
    ensures forall x <- stack[..p] :: x !in s && Marked(inst, s)[x] == inst[x]
  {
    SameMembers(s, stack[p..]);
    forall x | x in stack[..p] ensures x !in s && x in inst {
      var a :| 0 <= a < p && stack[a] == x;
    }
    MarkedDone(inst, stack, p, s);
    hide Done;
  }

  lemma MarkedDone(inst: Space, stack: seq<InstId>, p: nat, s: seq<InstId>)
    requires (forall x <- stack :: x in inst) && p <= |stack| && forall x :: x in s <==> x in stack[p..]
    ensures Done(Marked(inst, s)) == Popped(ViewOf(inst, stack), p).done
  {
    var D := Popped(ViewOf(inst, stack), p).done;
    forall x ensures x in Done(Marked(inst, s)) <==> x in D {
      if x in s { var b :| 0 <= b < |stack[p..]| && stack[p..][b] == x; assert stack[p + b] == x; }
    }
  }

  lemma SameMembers(s: seq<InstId>, t: seq<InstId>)
    requires multiset(s) == multiset(t)
    ensures |s| == |t| && forall x :: x in s <==> x in t
    ensures (forall i, j :: 0 <= i < j < |t| ==> t[i] != t[j]) ==> forall i, j :: 0 <= i < j < |s| ==> s[i] != s[j]
  {
    assert |multiset(s)| == |multiset(t)|;
    forall x ensures x in s <==> x in t {
      assert x in multiset(s) <==> x in multiset(t);
    }
    if forall i, j :: 0 <= i < j < |t| ==> t[i] != t[j] {
      Distinct(t);
      Repeated(s);
    }
  }

  lemma {:induction false} Distinct(t: seq<InstId>)
    requires forall i, j :: 0 <= i < j < |t| ==> t[i] != t[j]
    ensures forall x :: multiset(t)[x] <= 1
    decreases |t|
  {
    if t != [] {
      Distinct(t[1..]);
      assert t == [t[0]] + t[1..];
    }
  }

  lemma {:induction false} Repeated(s: seq<InstId>)
    requires forall x :: multiset(s)[x] <= 1
    ensures forall i, j :: 0 <= i < j < |s| ==> s[i] != s[j]
    decreases |s|
  {
    if s != [] {
      assert s == [s[0]] + s[1..];
      forall x ensures multiset(s[1..])[x] <= 1 {
        assert multiset(s)[x] <= 1;
      }
      Repeated(s[1..]);
      assert multiset(s)[s[0]] == 1 + multiset(s[1..])[s[0]];
      assert s[0] !in multiset(s[1..]);
      forall i, j | 0 <= i < j < |s| ensures s[i] != s[j] {
        if i == 0 { assert s[j] == s[1..][j - 1]; } else { assert s[i] == s[1..][i - 1] && s[j] == s[1..][j - 1]; }
      }
    }
  }

  // ---- Logging a component ----

  lemma LogBatch(G: Graph, inst: Space, stack: seq<InstId>, p: nat, log: Log, s: seq<InstId>)
    requires LogOK(G, inst, log) && (forall x <- stack :: x in inst) && p <= |stack| && Shape(G, ViewOf(inst, stack))
    requires multiset(s) == multiset(stack[p..]) && ExactScc(G, stack[p..]) && Sorted(G, s) && BatchSorted(inst, s)
    requires Closed(G, Popped(ViewOf(inst, stack), p).done)
    ensures LogOK(G, Marked(inst, s), log + [s])
  {
    hide Sorted, SameScc, Edge, BatchSorted;
    MarkedSorted(inst, log, s);
    SameMembers(s, stack[p..]);
    MarkedView(inst, stack, p, s);
    var log2 := log + [s];
    assert ExactScc(G, s) by { BatchScc(G, s, stack[p..]); }
    forall x ensures InLog(log2, x) <==> InLog(log, x) || x in s {
      if InLog(log, x) { var i :| 0 <= i < |log| && x in log[i]; assert x in log2[i]; }
      if x in s { assert x in log2[|log|]; }
    }
    BatchDone(inst, stack, p, s);
    BatchLater(G, inst, stack, p, log, s);
    hide Closed, ExactScc, Shape, Popped;
    assert forall x <- s :: !InLog(log, x) by {
      assert forall x <- s :: x !in Done(inst);
    }
    hide Done;
    ExtendLog(G, log, s);
  }

  lemma MarkedSorted(inst: Space, log: Log, s: seq<InstId>)
    requires BatchSorted(inst, s) && forall i :: 0 <= i < |log| ==> BatchSorted(inst, log[i])
    ensures forall i :: 0 <= i < |log + [s]| ==> BatchSorted(Marked(inst, s), (log + [s])[i])
  {
    forall i | 0 <= i < |log + [s]| ensures BatchSorted(Marked(inst, s), (log + [s])[i]) {
      SameTimes(inst, Marked(inst, s), (log + [s])[i]);
    }
  }

  lemma BatchScc(G: Graph, s: seq<InstId>, t: seq<InstId>)
    requires ExactScc(G, t) && |s| == |t| && forall x :: x in s <==> x in t
    ensures ExactScc(G, s)
  {
    hide SameScc;
  }

  lemma BatchDone(inst: Space, stack: seq<InstId>, p: nat, s: seq<InstId>)
    requires (forall x <- stack :: x in inst) && p <= |stack| && (forall x :: x in s <==> x in stack[p..])
    requires forall x <- stack :: x !in Done(inst)
    ensures forall x :: x in Done(Marked(inst, s)) <==> x in Done(inst) || x in s
    ensures forall x <- s :: x !in Done(inst)
  {
  }

  lemma BatchLater(G: Graph, inst: Space, stack: seq<InstId>, p: nat, log: Log, s: seq<InstId>)
    requires LogOK(G, inst, log) && (forall x <- stack :: x in inst) && p <= |stack|
    requires (forall x :: x in s <==> x in stack[p..]) && Closed(G, Popped(ViewOf(inst, stack), p).done)
    ensures forall x, y :: x in s && Edge(G, x, y) ==> y in s || InLog(log, y)
  {
    hide ValidLog, Edge;
    var D := Popped(ViewOf(inst, stack), p).done;
    forall x, y | x in s && Edge(G, x, y) ensures y in s || InLog(log, y) {
      var k :| 0 <= k < |stack[p..]| && stack[p..][k] == x;
      assert stack[p + k] == x && x in D && y in D;
      if y !in Done(inst) {
        var b :| p <= b < |stack| && stack[b] == y;
        assert stack[p..][b - p] == y;
      }
    }
  }

  lemma ExtendLog(G: Graph, log: Log, s: seq<InstId>)
    requires ValidLog(G, log) && ExactScc(G, s) && Sorted(G, s)
    requires forall x, y :: x in s && Edge(G, x, y) ==> y in s || InLog(log, y)
    requires forall x <- s :: !InLog(log, x)
    ensures ValidLog(G, log + [s])
  {
    hide ExactScc, Sorted, Edge;
    var log2 := log + [s];
    forall i, x, y | 0 <= i < |log2| && x in log2[i] && Edge(G, x, y) ensures exists j :: 0 <= j <= i && y in log2[j] {
      if i < |log| {
        var j :| 0 <= j <= i && y in log[j];
        assert y in log2[j];
      } else if y in s {
        assert y in log2[i];
      } else {
        var j :| 0 <= j < |log| && y in log[j];
        assert y in log2[j];
      }
    }
    forall i, j, x | 0 <= i < j < |log2| && x in log2[i] ensures x !in log2[j] {
      if j == |log| { assert InLog(log, x); }
    }
  }

  lemma StoreBatch(G: Graph, log: Log, store: Table, s: seq<InstId>)
    requires StoreOK(G, log, store) && forall x <- s :: x in G
    ensures StoreOK(G, log + [s], RunBatch(G, store, s))
  {
    var log2 := log + [s];
    assert log2[..|log2| - 1] == log;
    assert Logged(G, log2);
  }

  lemma PopInst(G: Graph, n: nat, inst: Space, marks: seq<int>, stack: seq<InstId>, p: nat, log: Log, store: Table, s: seq<InstId>)
    requires Good(G, n, inst, marks, stack, log, store) && p <= |stack| && Shape(G, ViewOf(inst, stack)) && Loaded(inst, stack)
    requires multiset(s) == multiset(stack[p..]) && ExactScc(G, stack[p..])
    requires (forall x <- s :: x in inst) && NodeSorted(inst, s)
    requires Closed(G, Popped(ViewOf(inst, stack), p).done)
    ensures forall x <- s :: x in G
    ensures Good(G, n, Marked(inst, s), marks, stack[..p], log + [s], RunBatch(G, store, s))
  {
    hide ValidLog, ExactScc, Closed, StoreOK, LogOK, InLog, NodeSorted, Popped, Agrees, MarksOK, StackOK, Shape, Sorted;
    SameMembers(s, stack[p..]);
    PopSorted(G, n, inst, stack, p, s);
    assert BatchSorted(inst, s);
    LogBatch(G, inst, stack, p, log, s);
    StoreBatch(G, log, store, s);
    PopLoaded(inst, stack, p, s);
    PopAgrees(G, n, inst, marks, s);
    PopStack(inst, stack, p, s);
  }

  lemma PopSorted(G: Graph, n: nat, inst: Space, stack: seq<InstId>, p: nat, s: seq<InstId>)
    requires Agrees(G, n, inst) && p <= |stack| && Loaded(inst, stack) && (forall x <- stack :: x in inst) && Shape(G, ViewOf(inst, stack))
    requires multiset(s) == multiset(stack[p..])
    requires (forall x <- s :: x in inst) && NodeSorted(inst, s)
    ensures Sorted(G, s) && forall x <- s :: x in G
  {
    SameMembers(s, stack[p..]);
    assert forall x <- s :: x in stack;
    hide Closed, NodeSorted, Sorted;
    assert forall a, b :: 0 <= a < b < |stack| ==> stack[a] != stack[b];
    SortedByKey(G, n, inst, s);
  }

  lemma PopAgrees(G: Graph, n: nat, inst: Space, marks: seq<int>, s: seq<InstId>)
    requires Agrees(G, n, inst) && MarksOK(n, inst, marks)
    requires forall x <- s :: x in G && x in inst && inst[x].status == Committed && inst[x].cmds.Some?
    ensures Agrees(G, n, Marked(inst, s)) && MarksOK(n, Marked(inst, s), marks)
  {
    assert forall x <- Done(inst) :: x in Done(Marked(inst, s));
  }

  lemma PopLoaded(inst: Space, stack: seq<InstId>, p: nat, s: seq<InstId>)
    requires p <= |stack| && Loaded(inst, stack) && forall x :: x in s <==> x in stack[p..]
    ensures forall x <- s :: x in inst && inst[x].status == Committed && inst[x].cmds.Some?
  {
  }

  lemma PopStack(inst: Space, stack: seq<InstId>, p: nat, s: seq<InstId>)
    requires StackOK(inst, stack) && p <= |stack| && (forall x :: x in s <==> x in stack[p..])
    ensures StackOK(Marked(inst, s), stack[..p])
  {
    assert stack == stack[..p] + stack[p..];
    assert forall x :: x in stack <==> x in stack[..p] || x in stack[p..];
    assert forall x <- stack[..p] :: x in stack;
  }

  // ---- Lemmas for the executor's methods ----

  lemma BlockedAt(G: Graph, inst: Space, v: InstId, y: InstId)
    requires Reach(G, v, y) && !Ready(inst, y)
    ensures Blocked(G, inst, v)
  {
    hide Reach;
  }

  lemma StayPut(G: Graph, a: Space, v: InstId)
    ensures Progress(G, a, a, v)
  {
  }

  lemma ProgressHere(G: Graph, a: Space, b: Space, c: Space, v: InstId)
    requires Progress(G, a, b, v) && Progress(G, b, c, v)
    ensures Progress(G, a, c, v)
  {
    ReachSelf(G, v);
    ProgressTrans(G, a, b, c, v, v);
  }

  lemma ExtendsTrans(a: View, b: View, c: View)
    requires Extends(a, b) && Extends(b, c)
    ensures Extends(a, c)
  {
  }

  // The dependencies in rows below q, and those under the watermarks, are in `seen`.
  ghost predicate RowsSeen(G: Graph, v: InstId, marks: seq<int>, q: int, seen: set<InstId>) {
    forall y :: Edge(G, v, y) && y.rep < |marks| && (y.rep < q || y.inst <= marks[y.rep]) ==> y in seen
  }

  lemma SeeExecuted(G: Graph, v: View, gray: set<InstId>, x: InstId, p: nat, low: int)
    requires Open(G, v, gray, x, p, low, {})
    ensures Open(G, v, gray, x, p, low, v.done)
  {
    SameLength(G, v, gray);
    hide Search, Reach, Edge, LowReached, Bounded, Closed;
  }

  lemma RowsStart(G: Graph, n: nat, inst: Space, marks: seq<int>, v: InstId)
    requires MarksOK(n, inst, marks)
    ensures RowsSeen(G, v, marks, 0, Done(inst))
  {
    hide Edge, Done;
  }

  lemma RowsAll(G: Graph, n: nat, inst: Space, marks: seq<int>, v: InstId, seen: set<InstId>)
    requires Agrees(G, n, inst) && v in inst && inst[v].status == Committed && |marks| == n && RowsSeen(G, v, marks, n, seen)
    ensures AllSeen(G, v, seen)
  {
  }

  lemma PopProgress(G: Graph, inst: Space, stack: seq<InstId>, gray: set<InstId>, v: InstId, p: nat, s: seq<InstId>)
    requires (forall x <- stack :: x in inst) && Search(G, ViewOf(inst, stack), gray) && Loaded(inst, stack)
    requires p < |stack| && stack[p] == v && forall x :: x in s <==> x in stack[p..]
    ensures Progress(G, inst, Marked(inst, s), v)
  {
    hide Search, Reach;
    forall y | y in s ensures Reach(G, v, y) {
      var b :| 0 <= b < |stack[p..]| && stack[p..][b] == y;
      XReaches(G, ViewOf(inst, stack), gray, p, p + b);
    }
  }

  // Executing the component of v ends its call.
  lemma FinishPop(G: Graph, n: nat, inst: Space, marks: seq<int>, stack: seq<InstId>, log: Log, store: Table,
                  u: View, v: InstId, gray: set<InstId>, p: nat, seen: set<InstId>, s: seq<InstId>)
    requires Good(G, n, inst, marks, stack, log, store) && Loaded(inst, stack) && v in inst && v !in gray
    requires Open(G, ViewOf(inst, stack), gray + {v}, v, p, inst[v].lowlink, seen) && inst[v].lowlink == inst[v].index
    requires AllSeen(G, v, seen) && Extends(u, ViewOf(inst, stack)) && |u.stack| == |u.ix| == p
    requires p < |stack| && multiset(s) == multiset(stack[p..]) && (forall x <- s :: x in inst) && NodeSorted(inst, s)
    ensures forall x <- s :: x in G
    ensures Good(G, n, Marked(inst, s), marks, stack[..p], log + [s], RunBatch(G, store, s))
    ensures forall x <- stack[..p] :: x in inst
    ensures Visited(G, u, ViewOf(Marked(inst, s), stack[..p]), gray, v, inst[v].lowlink)
    ensures Progress(G, inst, Marked(inst, s), v)
    ensures forall x <- stack[..p] :: Marked(inst, s)[x] == inst[x]
  {
    var w := ViewOf(inst, stack);
    assert w.ix[p] == inst[stack[p]].index;
    OpenFacts(G, w, gray + {v}, v, p, inst[v].lowlink, seen);
    hide Open, Search, Reach, Edge, AllSeen, Visited, Extends, Progress, Good, Loaded, NodeSorted, ExactScc, Closed, ViewOf;
    SameLength(G, w, gray + {v});
    SegmentIsScc(G, w, gray, v, p, inst[v].lowlink, seen);
    SegmentClosed(G, w, gray, v, p, inst[v].lowlink, seen);
    Pop(G, u, w, gray, v, p, inst[v].lowlink, seen);
    SameMembers(s, stack[p..]);
    assert Shape(G, w);
    FinishGood(G, n, inst, marks, stack, log, store, p, s);
    FinishView(G, inst, stack, p, s);
    assert (forall x <- stack :: x in inst) by { LoadedIn(inst, stack); }
    PopProgress(G, inst, stack, gray + {v}, v, p, s);
  }

  lemma LoadedIn(inst: Space, stack: seq<InstId>)
    requires Loaded(inst, stack)
    ensures forall x <- stack :: x in inst
  {
  }

  lemma OpenFacts(G: Graph, v: View, gray: set<InstId>, x: InstId, p: nat, low: int, seen: set<InstId>)
    requires Open(G, v, gray, x, p, low, seen)
    ensures Search(G, v, gray) && p < |v.stack| && v.stack[p] == x && x in gray && |v.ix| == |v.stack|
    ensures forall a :: p < a < |v.stack| ==> v.stack[a] !in gray
    ensures x !in v.stack[..p] && low <= v.ix[p]
  {
    SameLength(G, v, gray);
    hide Search, LowReached, Bounded;
  }

  lemma FinishGood(G: Graph, n: nat, inst: Space, marks: seq<int>, stack: seq<InstId>, log: Log, store: Table, p: nat, s: seq<InstId>)
    requires Good(G, n, inst, marks, stack, log, store) && p <= |stack| && Loaded(inst, stack) && (forall x <- stack :: x in inst)
    requires Shape(G, ViewOf(inst, stack)) && Closed(G, Popped(ViewOf(inst, stack), p).done)
    requires multiset(s) == multiset(stack[p..]) && ExactScc(G, stack[p..]) && (forall x <- s :: x in inst) && NodeSorted(inst, s)
    ensures forall x <- s :: x in G
    ensures Good(G, n, Marked(inst, s), marks, stack[..p], log + [s], RunBatch(G, store, s))
  {
    hide Good, Loaded, Shape, Closed, ExactScc, NodeSorted;
    PopInst(G, n, inst, marks, stack, p, log, store, s);
  }

  lemma FinishView(G: Graph, inst: Space, stack: seq<InstId>, p: nat, s: seq<InstId>)
    requires p <= |stack| && (forall x <- stack :: x in inst) && Shape(G, ViewOf(inst, stack)) && multiset(s) == multiset(stack[p..])
    ensures (forall x <- stack[..p] :: x in inst) && ViewOf(Marked(inst, s), stack[..p]) == Popped(ViewOf(inst, stack), p)
    ensures forall x <- stack[..p] :: Marked(inst, s)[x] == inst[x]
  {
    hide Closed, ViewOf;
    assert forall a, b :: 0 <= a < b < |stack| ==> stack[a] != stack[b] by { ShapeDistinct(G, ViewOf(inst, stack)); ViewStack(inst, stack); }
    MarkedView(inst, stack, p, s);
  }

  lemma ViewStack(inst: Space, stack: seq<InstId>)
    requires forall x <- stack :: x in inst
    ensures ViewOf(inst, stack).stack == stack && ViewOf(inst, stack).done == Done(inst)
    ensures |ViewOf(inst, stack).ix| == |stack| && forall a :: 0 <= a < |stack| ==> ViewOf(inst, stack).ix[a] == inst[stack[a]].index
  {
  }

  lemma LowerProgress(G: Graph, inst: Space, stack: seq<InstId>, v: InstId, low: int)
    requires v in inst
    ensures Progress(G, inst, Lowered(inst, v, low), v)
    ensures Loaded(inst, stack) ==> Loaded(Lowered(inst, v, low), stack)
  {
    SameDone(inst, Lowered(inst, v, low));
    hide Reach;
  }

  // The nested call for y is done: v takes over its lowlink.
  lemma TakeLow(G: Graph, v: View, w: View, gray: set<InstId>, x: InstId, p: nat, low: int, seen: set<InstId>, y: InstId, lowY: int)
    requires Open(G, v, gray, x, p, low, seen) && Visited(G, v, w, gray, y, lowY) && Edge(G, x, y)
    ensures Open(G, w, gray, x, p, if lowY < low then lowY else low, seen + {y}) && Extends(v, w)
  {
    SeeChild(G, v, w, gray, x, p, low, seen, y, lowY);
    hide Open, Search, Edge, LowReached, Bounded;
  }

  // ... and the dependencies in row q before position i.
  ghost predicate RowSeen(G: Graph, v: InstId, q: nat, i: int, seen: set<InstId>) {
    forall y :: Edge(G, v, y) && y.rep == q && y.inst < i ==> y in seen
  }

  lemma RowStart(G: Graph, v: InstId, marks: seq<int>, q: nat, seen: set<InstId>)
    requires q < |marks| && RowsSeen(G, v, marks, q, seen)
    ensures RowSeen(G, v, q, marks[q] + 1, seen)
  {
  }

  lemma RowStep(G: Graph, v: InstId, marks: seq<int>, q: nat, i: nat, seen: set<InstId>)
    requires RowsSeen(G, v, marks, q, seen) && RowSeen(G, v, q, i, seen)
    ensures RowsSeen(G, v, marks, q, seen + {InstId(q, i)}) && RowSeen(G, v, q, i + 1, seen + {InstId(q, i)})
  {
    hide Edge;
  }

  lemma RowEnd(G: Graph, n: nat, inst: Space, v: InstId, marks: seq<int>, q: nat, i: int, seen: set<InstId>)
    requires Agrees(G, n, inst) && v in inst && inst[v].status == Committed && q < n && i > inst[v].deps[q]
    requires RowsSeen(G, v, marks, q, seen) && RowSeen(G, v, q, i, seen)
    ensures RowsSeen(G, v, marks, q + 1, seen)
  {
  }

  lemma DepsKnown(G: Graph, n: nat, inst: Space, v: InstId)
    requires Agrees(G, n, inst) && v in inst && inst[v].status == Committed
    ensures |inst[v].deps| == n && forall q, i :: 0 <= q < n && 0 <= i <= inst[v].deps[q] ==> Edge(G, v, InstId(q, i))
  {
  }

  lemma MarksFloor(n: nat, inst: Space, marks: seq<int>)
    requires MarksOK(n, inst, marks)
    ensures |marks| == n && forall q :: 0 <= q < n ==> marks[q] >= -1
  {
  }

  lemma KeepsContent(G: Graph, a: Space, b: Space, v: InstId)
    requires Progress(G, a, b, v)
    ensures SameContent(a, b) && White(b) <= White(a)
  {
    hide Reach;
  }

  // Giving v the next index and pushing it opens its call.
  lemma OpenCall(G: Graph, n: nat, inst: Space, marks: seq<int>, stack: seq<InstId>, log: Log, store: Table, v: InstId, i: int, gray: set<InstId>)
    requires Good(G, n, inst, marks, stack, log, store)
    requires v in inst && inst[v].status == Committed && inst[v].index == 0
    requires Search(G, ViewOf(inst, stack), gray) && AllReach(G, ViewOf(inst, stack), v) && Fresh(ViewOf(inst, stack), i)
    ensures v !in gray
    ensures Good(G, n, Opening(inst, v, i), marks, stack + [v], log, store)
    ensures Open(G, ViewOf(Opening(inst, v, i), stack + [v]), gray + {v}, v, |stack|, i, Done(Opening(inst, v, i)))
    ensures Progress(G, inst, Opening(inst, v, i), v) && White(Opening(inst, v, i)) == White(inst) - {v}
    ensures Extends(ViewOf(inst, stack), ViewOf(Opening(inst, v, i), stack + [v]))
    ensures Fresh(ViewOf(Opening(inst, v, i), stack + [v]), i + 1)
    ensures RowsSeen(G, v, marks, 0, Done(Opening(inst, v, i)))
  {
    var u, b := ViewOf(inst, stack), Opening(inst, v, i);
    hide Good, StackOK, Search, AllReach, Progress, White, Open, RowsSeen, Reach, Edge;
    PushInst(G, n, inst, marks, stack, log, store, v, i) by { assert i >= 1; }
    assert v !in stack && v !in Done(inst) && v !in gray by {
      StackOut(inst, stack, v) by { GoodStack(G, n, inst, marks, stack, log, store); }
      GrayStacked(G, u, gray);
    }
    Opened(G, u, gray, v, i);
    SeeExecuted(G, ViewOf(b, stack + [v]), gray + {v}, v, |stack|, i);
    RowsStart(G, n, b, marks, v) by { GoodStack(G, n, b, marks, stack + [v], log, store); }
  }

  lemma GoodStack(G: Graph, n: nat, inst: Space, marks: seq<int>, stack: seq<InstId>, log: Log, store: Table)
    requires Good(G, n, inst, marks, stack, log, store)
    ensures StackOK(inst, stack) && MarksOK(n, inst, marks) && Agrees(G, n, inst)
  {
    hide StackOK, MarksOK, Agrees, LogOK, StoreOK;
  }

  lemma GrayStacked(G: Graph, v: View, gray: set<InstId>)
    requires Search(G, v, gray)
    ensures forall x <- gray :: x in v.stack
  {
    hide Shape, Upward, Downward, Explored;
  }

  lemma LoadPushed(a: Space, stack: seq<InstId>, v: InstId, b: Space)
    requires Loaded(a, stack) && v in b && b[v].status == Committed && b[v].cmds.Some? && v !in stack
    requires a.Keys == b.Keys && forall x <- a :: x != v ==> b[x] == a[x]
    ensures Loaded(b, stack + [v])
  {
  }

  lemma ListCmds(G: Graph, n: nat, inst: Space, stack: seq<InstId>, p: nat, s: seq<InstId>)
    requires Agrees(G, n, inst) && Loaded(inst, stack) && p <= |stack| && multiset(s) == multiset(stack[p..])
    ensures forall x <- s :: x in G && x in inst && inst[x].cmds == Some(G[x].cmds)
    ensures forall x <- s :: x in stack
  {
    SameMembers(s, stack[p..]);
    assert forall x <- s :: x in stack;
  }

  lemma MarkedKeys(inst: Space, s: seq<InstId>, v: InstId)
    requires v in inst
    ensures v in Marked(inst, s) && Marked(inst, s)[v].lowlink == inst[v].lowlink
  {
  }

  lemma FreshPrefix(inst: Space, stack: seq<InstId>, p: nat, s: seq<InstId>, next: int)
    requires p <= |stack| && (forall x <- stack :: x in inst) && Fresh(ViewOf(inst, stack), next)
    requires (forall x <- stack[..p] :: Marked(inst, s)[x] == inst[x])
    ensures Fresh(ViewOf(Marked(inst, s), stack[..p]), next)
  {
    hide Done;
    assert forall a :: 0 <= a < p ==> ViewOf(inst, stack).ix[a] == inst[stack[a]].index;
  }

  lemma LoadedPrefix(inst: Space, stack: seq<InstId>, p: nat, s: seq<InstId>)
    requires p <= |stack| && Loaded(inst, stack) && forall x <- stack[..p] :: x in inst && Marked(inst, s)[x] == inst[x]
    ensures Loaded(Marked(inst, s), stack[..p])
  {
  }

  // ---- Whole searches ----

  ghost predicate Quiet(inst: Space) {
    forall x <- inst :: inst[x].status != Executed ==> inst[x].index == 0
  }

  // Whatever a logged instance depends on is logged.
  lemma DoneClosed(G: Graph, inst: Space, log: Log)
    requires LogOK(G, inst, log)
    ensures Closed(G, Done(inst))
  {
    hide Edge;
    forall x, y | x in Done(inst) && Edge(G, x, y) ensures y in Done(inst) {
      var i :| 0 <= i < |log| && x in log[i];
      assert exists j :: 0 <= j <= i && y in log[j];
      assert InLog(log, y);
    }
  }

  lemma StartSearch(G: Graph, inst: Space, log: Log)
    requires LogOK(G, inst, log)
    ensures Search(G, ViewOf(inst, []), {})
    ensures forall v :: AllReach(G, ViewOf(inst, []), v)
  {
    DoneClosed(G, inst, log);
    hide Closed, Reach, LogOK;
  }

  lemma ProgressDone(G: Graph, a: Space, b: Space, v: InstId)
    requires Progress(G, a, b, v)
    ensures forall y <- Done(b) :: y in Done(a) || Reach(G, v, y)
  {
    hide Reach;
  }

  // A successful search from an empty stack leaves it empty: the root and all below it are executed.
  lemma RootDone(G: Graph, n: nat, a: Space, b: Space, log: Log, stack: seq<InstId>, root: InstId, low: int)
    requires (forall x <- stack :: x in b) && SameContent(a, b) && Agrees(G, n, b) && LogOK(G, b, log) && root in b
    requires Visited(G, ViewOf(a, []), ViewOf(b, stack), {}, root, low)
    ensures root in Done(b) && !Blocked(G, a, root)
    ensures forall y :: Reach(G, root, y) ==> y in Done(b)
  {
    hide Search, Reach, Bounded;
    DoneClosed(G, b, log);
    forall y | Reach(G, root, y) ensures y in Done(b) {
      ReachStays(G, Done(b), root, y);
    }
    forall y | Reach(G, root, y) ensures Ready(a, y) {
      assert b[y].status == Executed;
    }
  }

  lemma DoneUnblocked(G: Graph, n: nat, inst: Space, log: Log, x: InstId)
    requires Agrees(G, n, inst) && LogOK(G, inst, log) && x in Done(inst)
    ensures !Blocked(G, inst, x)
  {
    DoneClosed(G, inst, log);
    hide Reach, LogOK, Closed;
    forall y | Reach(G, x, y) ensures Ready(inst, y) {
      ReachStays(G, Done(inst), x, y);
    }
  }

  lemma StillBlocked(G: Graph, n: nat, a: Space, b: Space, log: Log, x: InstId)
    requires Agrees(G, n, b) && LogOK(G, b, log) && SameContent(a, b) && Blocked(G, a, x)
    ensures x !in Done(b)
  {
    SeeContent(G, a, b, x);
    hide Reach, LogOK, Agrees, Blocked;
    if x in Done(b) {
      DoneUnblocked(G, n, b, log, x);
    }
  }

  lemma IndexFloor(G: Graph, n: nat, inst: Space)
    requires Agrees(G, n, inst)
    ensures forall x <- inst :: inst[x].index >= 0
  {
  }

  lemma SameReset(a: Space, b: Space, c: Space)
    requires SameContent(a, b) && b.Keys == c.Keys && forall x <- c :: c[x] == b[x].(index := c[x].index)
    ensures SameContent(a, c)
  {
  }

  lemma QuietAt(inst: Space, x: InstId)
    requires Quiet(inst) && x in inst && inst[x].status != Executed
    ensures inst[x].index == 0
  {
  }

  // An undecided entry may be filled or replaced between searches.
  lemma PutInst(G: Graph, n: nat, inst: Space, marks: seq<int>, log: Log, x: InstId, v: Inst)
    requires Agrees(G, n, inst) && LogOK(G, inst, log) && MarksOK(n, inst, marks) && Quiet(inst)
    requires x.rep < n && (x in inst ==> inst[x].status == NotCommitted) && v.status != Executed && v.index == 0
    requires v.status == Committed ==> |v.deps| == n && x in G && v.cmds.Some? && G[x] == EPaxosGraph.Node(v.cmds.value, v.seqno, v.deps)
    ensures Agrees(G, n, inst[x := v]) && LogOK(G, inst[x := v], log) && MarksOK(n, inst[x := v], marks) && Quiet(inst[x := v])
    ensures Done(inst[x := v]) == Done(inst)
  {
    hide ValidLog, InLog, BatchSorted;
    assert Done(inst[x := v]) == Done(inst);
    LoggedDone(G, inst, log);
    hide Done;
    forall i | 0 <= i < |log| ensures BatchSorted(inst[x := v], log[i]) {
      SameTimes(inst, inst[x := v], log[i]);
    }
  }

  lemma LoggedDone(G: Graph, inst: Space, log: Log)
    requires LogOK(G, inst, log)
    ensures forall i :: 0 <= i < |log| ==> forall y <- log[i] :: y in inst && inst[y].status == Executed
  {
    hide ValidLog, BatchSorted;
    forall i, y | 0 <= i < |log| && y in log[i] ensures y in inst && inst[y].status == Executed {
      assert InLog(log, y);
    }
  }

  // ---- Sweeps ----

  // Before position i, row q holds only executed and blocked instances.
  ghost predicate RowDone(G: Graph, a: Space, b: Space, q: nat, i: int) {
    forall j: nat :: j < i ==> InstId(q, j) in Done(b) || Blocked(G, a, InstId(q, j))
  }

  // Everything in row q behind ready instances is executed exactly when nothing it depends on is missing.
  ghost predicate RowSwept(G: Graph, a: Space, b: Space, q: nat, top: int) {
    forall x: InstId :: x.rep == q && x.inst <= top && (forall j: nat :: j <= x.inst ==> Ready(a, InstId(q, j)))
      ==> (x in Done(b) <==> !Blocked(G, a, x))
  }

  lemma SameRefl(a: Space)
    ensures SameContent(a, a)
  {
  }

  lemma SameTrans(a: Space, b: Space, c: Space)
    requires SameContent(a, b) && SameContent(b, c)
    ensures SameContent(a, c)
  {
  }

  lemma SeeContent(G: Graph, a: Space, b: Space, x: InstId)
    requires SameContent(a, b)
    ensures Ready(a, x) <==> Ready(b, x)
    ensures Blocked(G, a, x) <==> Blocked(G, b, x)
  {
    hide Reach;
    assert forall y :: Ready(a, y) <==> Ready(b, y);
    hide SameContent, Ready;
  }

  lemma DoneIn(inst: Space, x: InstId)
    requires x in inst && inst[x].status == Executed
    ensures x in Done(inst)
  {
  }

  lemma RaiseMark(n: nat, inst: Space, marks: seq<int>, q: nat)
    requires MarksOK(n, inst, marks) && q < |marks| && marks[q] >= -1 && InstId(q, marks[q] + 1) in Done(inst)
    ensures MarksOK(n, inst, marks[q := marks[q] + 1])
  {
    hide Done;
  }

  lemma RowDoneStart(G: Graph, n: nat, inst: Space, marks: seq<int>, q: nat)
    requires MarksOK(n, inst, marks) && q < n
    ensures RowDone(G, inst, inst, q, marks[q] + 1)
  {
    hide Done, Blocked;
  }

  lemma RowDoneKept(G: Graph, a: Space, b: Space, c: Space, q: nat, i: int)
    requires RowDone(G, a, b, q, i) && SameContent(b, c)
    ensures RowDone(G, a, c, q, i)
  {
    hide Blocked;
  }

  lemma RowDoneStep(G: Graph, a: Space, b: Space, q: nat, i: nat)
    requires RowDone(G, a, b, q, i) && (InstId(q, i) in Done(b) || Blocked(G, a, InstId(q, i)))
    ensures RowDone(G, a, b, q, i + 1)
  {
    hide Blocked, Done;
  }

  lemma RowDoneEnd(G: Graph, n: nat, a: Space, b: Space, log: Log, q: nat, i: int, top: int)
    requires Agrees(G, n, b) && LogOK(G, b, log) && SameContent(a, b) && RowDone(G, a, b, q, i) && i >= 0
    requires i > top || !Ready(a, InstId(q, i))
    ensures RowSwept(G, a, b, q, top)
  {
    hide Agrees, LogOK, SameContent, Done, Blocked, Ready;
    forall x: InstId | x.rep == q && x.inst <= top && (forall j: nat :: j <= x.inst ==> Ready(a, InstId(q, j)))
      ensures x in Done(b) <==> !Blocked(G, a, x)
    {
      assert x == InstId(q, x.inst);
      if Blocked(G, a, x) { StillBlocked(G, n, a, b, log, x); }
    }
  }

  lemma SweptKept(G: Graph, n: nat, a: Space, b: Space, c: Space, log: Log, q: nat, top: int)
    requires RowSwept(G, a, b, q, top) && SameContent(a, c) && SameContent(b, c) && Agrees(G, n, c) && LogOK(G, c, log)
    ensures RowSwept(G, a, c, q, top)
  {
    hide Agrees, LogOK, Blocked, Ready;
    forall x: InstId | x.rep == q && x.inst <= top && (forall j: nat :: j <= x.inst ==> Ready(a, InstId(q, j)))
      ensures x in Done(c) <==> !Blocked(G, a, x)
    {
      if Blocked(G, a, x) { StillBlocked(G, n, a, c, log, x); }
    }
  }

  lemma SweptFrom(G: Graph, a: Space, b: Space, c: Space, q: nat, top: int)
    requires RowSwept(G, b, c, q, top) && SameContent(a, b)
    ensures RowSwept(G, a, c, q, top)
  {
    hide Blocked, Ready, SameContent;
    forall x ensures (Ready(a, x) <==> Ready(b, x)) && (Blocked(G, a, x) <==> Blocked(G, b, x)) {
      SeeContent(G, a, b, x);
    }
  }

  // ---- The watermark of decided instances ----

  predicate Decided(inst: Space, x: InstId) {
    x in inst && inst[x].status != NotCommitted
  }

  ghost predicate CommittedTo(inst: Space, q: nat, mark: int) {
    mark >= -1 && (forall x: InstId :: x.rep == q && x.inst <= mark ==> Decided(inst, x)) && !Decided(inst, InstId(q, mark + 1))
  }

  ghost function RowAbove(inst: Space, q: nat, mark: int): set<InstId> {
    set x | x in inst && x.rep == q && x.inst > mark
  }

  lemma RowShrinks(inst: Space, q: nat, mark: int)
    requires mark >= -1 && InstId(q, mark + 1) in inst
    ensures |RowAbove(inst, q, mark + 1)| < |RowAbove(inst, q, mark)|
  {
    assert RowAbove(inst, q, mark) == RowAbove(inst, q, mark + 1) + {InstId(q, mark + 1)};
  }

  lemma RowCommitted(inst: Space, q: nat, mark: int)
    requires mark >= -1 && (forall x: InstId :: x.rep == q && x.inst <= mark ==> Decided(inst, x)) && !Decided(inst, InstId(q, mark + 1))
    ensures CommittedTo(inst, q, mark)
  {
  }

  lemma SameDecided(a: Space, b: Space, marks: seq<int>)
    requires forall x :: Decided(a, x) <==> Decided(b, x)
    ensures forall q :: 0 <= q < |marks| && CommittedTo(a, q, marks[q]) ==> CommittedTo(b, q, marks[q])
  {
    hide Decided;
  }

  lemma ContentDecided(a: Space, b: Space)
    requires SameContent(a, b)
    ensures forall x :: Decided(a, x) <==> Decided(b, x)
  {
  }

  // One more decided instance leaves the other rows alone.
  lemma DecideMore(a: Space, b: Space, x: InstId, marks: seq<int>)
    requires forall y :: Decided(b, y) <==> Decided(a, y) || y == x
    requires x.rep < |marks| && forall q :: 0 <= q < |marks| ==> CommittedTo(a, q, marks[q])
    ensures forall q :: 0 <= q < |marks| && q != x.rep ==> CommittedTo(b, q, marks[q])
    ensures marks[x.rep] >= -1 && forall y: InstId :: y.rep == x.rep && y.inst <= marks[x.rep] ==> Decided(b, y)
  {
    hide Decided;
    assert CommittedTo(a, x.rep, marks[x.rep]);
  }
}
