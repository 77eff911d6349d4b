/** The executor in place: findSCC, strongconnect and inStack of epaxos/exec.go, and the
    sweep of executeCommands in epaxos/epaxos.go. */
module EPaxosExecutor {
  import opened EPaxosConverge
  import opened EPaxosExec
  import opened EPaxosGraph
  import opened EPaxosTarjan
  import opened Options
  import opened Store
  import opened StoreLaws

  class Exec {
    // What the commit protocol decided, or will decide, for each instance.
    ghost const G: Graph
    const n: nat
    var inst: Space
    var crt: seq<int>
    var execedUpTo: seq<int>
    var committedUpTo: seq<int>
    var stack: seq<InstId>
    var next: int
    var store: Table
    // The batches executed so far.
    ghost var log: Log

    ghost predicate Sound()
      reads this
    {
      Good(G, n, inst, execedUpTo, stack, log, store)
    }

    ghost function Now(): View
      requires forall x <- stack :: x in inst
      reads this
    {
      ViewOf(inst, stack)
    }

    // The call for v is open at stack position p and has dealt with the successors in `seen`.
    ghost predicate InCall(gray: set<InstId>, v: InstId, p: nat, seen: set<InstId>)
      reads this
    {
      && Sound() && Loaded(inst, stack) && v in inst && inst[v].status == Committed
      && Open(G, Now(), gray, v, p, inst[v].lowlink, seen) && Fresh(Now(), next)
    }

    method InStack(w: InstId) returns (found: bool)
      ensures found <==> w in stack
    {
      for j := 0 to |stack|
        invariant forall k :: 0 <= k < j ==> stack[k] != w
      {
        if stack[j] == w {
          return true;
        }
      }
      return false;
    }

    // Runs the commands of one instance; only writes reach the store.
    method RunInstance(cmds: seq<Command>)
      modifies this`store
      ensures store == RunCmds(old(store), cmds)
    {
      for k := 0 to |cmds|
        invariant store == RunCmds(old(store), cmds[..k])
      {
        assert cmds[..k + 1][..k] == cmds[..k];
        if cmds[k].op.PUT? {
          store := store[cmds[k].key := cmds[k].val];
        }
      }
      assert cmds[..|cmds|] == cmds;
    }

    method RunList(list: seq<InstId>)
      requires forall x <- list :: x in G && x in inst && inst[x].cmds == Some(G[x].cmds)
      modifies this`inst, this`store
      ensures inst == Marked(old(inst), list) && store == RunBatch(G, old(store), list)
    {
      assert Marked(inst, []) == inst;
      for k := 0 to |list|
        invariant inst == Marked(old(inst), list[..k])
        invariant store == RunBatch(G, old(store), list[..k])
      {
        var w := list[k];
        assert list[..k + 1][..k] == list[..k];
        RunInstance(inst[w].cmds.value);
        inst := inst[w := inst[w].(status := Executed)];
        assert list[..k + 1] == list[..k] + [w];
      }
      assert list[..|list|] == list;
    }

    // Follows one dependency edge of the open call v.
    method VisitEdge(v: InstId, y: InstId, ghost gray: set<InstId>, ghost p: nat, ghost seen: set<InstId>) returns (ok: bool)
      requires InCall(gray, v, p, seen) && Edge(G, v, y)
      modifies this`inst, this`stack, this`next, this`store, this`log
      ensures Sound() && Progress(G, old(inst), inst, v) && old(log) <= log
      ensures !ok ==> Blocked(G, old(inst), v)
      ensures ok ==> InCall(gray, v, p, seen + {y}) && Extends(old(Now()), Now())
      ensures ok ==> forall x <- old(stack[..p]) :: x in inst && inst[x] == old(inst)[x]
      decreases White(inst), 2
    {
      hide Open, Reach, Edge, ValidLog, Agrees, LogOK, MarksOK, StoreOK, Fresh, Closed, Search, Blocked, Progress, Loaded, AllReach, Visited;
      ReachEdge(G, v, y);
      StayPut(G, inst, v);
      OpenFacts(G, Now(), gray, v, p, inst[v].lowlink, seen);
      if y !in inst || inst[y].cmds.None? {
        BlockedAt(G, inst, v, y);
        return false;
      }
      if inst[y].status == Executed {
        SeeDone(G, Now(), gray, v, p, inst[v].lowlink, seen, y);
        return true;
      }
      if inst[y].status != Committed {
        BlockedAt(G, inst, v, y);
        return false;
      }
      if inst[y].index == 0 {
        ok := VisitWhite(v, y, gray, p, seen);
      } else {
        var found := InStack(y);
        ghost var c: nat :| c < |stack| && stack[c] == y;
        SeeStacked(G, Now(), gray, v, p, inst[v].lowlink, seen, c);
        if found && inst[y].index < inst[v].lowlink {
          LowerInst(G, n, inst, execedUpTo, stack, log, store, v, inst[y].index);
          LowerProgress(G, inst, stack, v, inst[y].index);
          inst := inst[v := inst[v].(lowlink := inst[y].index)];
        }
        return true;
      }
    }

    method VisitWhite(v: InstId, y: InstId, ghost gray: set<InstId>, ghost p: nat, ghost seen: set<InstId>) returns (ok: bool)
      requires InCall(gray, v, p, seen) && Edge(G, v, y) && y in inst && inst[y].status == Committed && inst[y].index == 0
      modifies this`inst, this`stack, this`next, this`store, this`log
      ensures Sound() && Progress(G, old(inst), inst, v) && old(log) <= log
      ensures !ok ==> Blocked(G, old(inst), v)
      ensures ok ==> InCall(gray, v, p, seen + {y}) && Extends(old(Now()), Now())
      ensures ok ==> forall x <- old(stack[..p]) :: x in inst && inst[x] == old(inst)[x]
      decreases White(inst), 1
    {
      hide Open, Reach, Edge, ValidLog, Agrees, LogOK, MarksOK, StoreOK, Fresh, Closed, Search, Blocked, Progress, Loaded, AllReach, Visited, Extends;
      ghost var inst0, view0, low := inst, Now(), inst[v].lowlink;
      ReachEdge(G, v, y);
      OpenFacts(G, view0, gray, v, p, low, seen);
      TopReached(G, view0, gray, p, y);
      ok := StrongConnect(y, gray);
      StayPut(G, inst0, v);
      ProgressTrans(G, inst0, inst0, inst, v, y);
      if !ok {
        BlockedBelow(G, inst0, inst0, v, y);
        return;
      }
      TakeLow(G, view0, Now(), gray, v, p, low, seen, y, inst[y].lowlink);
      assert v in old(stack);
      if inst[y].lowlink < inst[v].lowlink {
        LowerInst(G, n, inst, execedUpTo, stack, log, store, v, inst[y].lowlink);
        LowerProgress(G, inst, stack, v, inst[y].lowlink);
        ProgressHere(G, inst0, inst, Lowered(inst, v, inst[y].lowlink), v);
        inst := inst[v := inst[v].(lowlink := inst[y].lowlink)];
      }
    }

    // Follows the dependencies of v in row q, skipping those below the watermark.
    method VisitRow(v: InstId, q: nat, ghost gray: set<InstId>, ghost p: nat, ghost seen0: set<InstId>) returns (ok: bool, ghost seen: set<InstId>)
      requires InCall(gray, v, p, seen0) && q < n && |execedUpTo| == n && RowsSeen(G, v, execedUpTo, q, seen0)
      modifies this`inst, this`stack, this`next, this`store, this`log
      ensures Sound() && Progress(G, old(inst), inst, v) && old(log) <= log
      ensures !ok ==> Blocked(G, old(inst), v)
      ensures ok ==> InCall(gray, v, p, seen) && Extends(old(Now()), Now())
      ensures ok ==> RowsSeen(G, v, execedUpTo, q + 1, seen)
      ensures ok ==> forall x <- old(stack[..p]) :: x in inst && inst[x] == old(inst)[x]
      decreases White(inst), 3
    {
      hide Open, Reach, Edge, ValidLog, Agrees, LogOK, MarksOK, StoreOK, Fresh, Closed, Search, Blocked;
      hide Progress, Loaded, AllReach, RowsSeen, RowSeen;
      ReachSelf(G, v);
      ghost var inst0, view0 := inst, Now();
      OpenFacts(G, view0, gray, v, p, inst[v].lowlink, seen0);
      DepsKnown(G, n, inst, v);
      MarksFloor(n, inst, execedUpTo);
      RowStart(G, v, execedUpTo, q, seen0);
      StayPut(G, inst, v);
      seen := seen0;
      var last := inst[v].deps[q];
      var i := execedUpTo[q] + 1;
      while i <= last
        invariant i >= 0
        invariant InCall(gray, v, p, seen) && Progress(G, inst0, inst, v) && White(inst) <= White(inst0) && old(log) <= log
        invariant Extends(view0, Now()) && SameContent(inst0, inst)
        invariant forall x <- old(stack[..p]) :: x in inst && inst[x] == inst0[x]
        invariant RowsSeen(G, v, execedUpTo, q, seen) && RowSeen(G, v, q, i, seen)
        decreases last - i
      {
        ghost var y, inst1, view1 := InstId(q, i), inst, Now();
        ok := VisitEdge(v, InstId(q, i), gray, p, seen);
        ProgressHere(G, inst0, inst1, inst, v);
        if !ok {
          BlockedBelow(G, inst0, inst1, v, v);
          return;
        }
        ExtendsTrans(view0, view1, Now());
        RowStep(G, v, execedUpTo, q, i, seen);
        KeepsContent(G, inst0, inst, v);
        seen := seen + {y};
        i := i + 1;
      }
      RowEnd(G, n, inst, v, execedUpTo, q, i, seen);
      ok := true;
    }

    // The component of v is the stack from position l: sort it, run it, pop it.
    method RunComponent(v: InstId, l: nat, ghost gray: set<InstId>, ghost view0: View, ghost seen: set<InstId>)
      requires InCall(gray + {v}, v, l, seen) && AllSeen(G, v, seen) && inst[v].lowlink == inst[v].index
      requires v !in gray && Extends(view0, Now()) && |view0.stack| == |view0.ix| == l
      modifies this`inst, this`stack, this`store, this`log
      ensures Sound() && Progress(G, old(inst), inst, v) && old(log) <= log && Loaded(inst, stack)
      ensures forall x <- stack :: x in inst
      ensures l <= |old(stack)| && stack == old(stack)[..l] && Fresh(Now(), next)
      ensures v in inst && Visited(G, view0, Now(), gray, v, inst[v].lowlink)
      ensures forall x <- stack :: x in old(inst) && inst[x] == old(inst)[x]
    {
      hide Open, Reach, Edge, ValidLog, Agrees, LogOK, MarksOK, StoreOK, Fresh, Closed, Search, Progress, Loaded;
      hide AllSeen, Visited, Extends, NodeSorted, RunBatch, Good, Marked, StackOK;
      LoadedIn(inst, stack);
      OpenFacts(G, Now(), gray + {v}, v, l, inst[v].lowlink, seen);
      GoodStack(G, n, inst, execedUpTo, stack, log, store);
      assert forall x <- stack[l..] :: x in stack;
      var list := SortNodes(inst, stack[l..]);
      FinishPop(G, n, inst, execedUpTo, stack, log, store, view0, v, gray, l, seen, list);
      ListCmds(G, n, inst, stack, l, list);
      FreshPrefix(inst, stack, l, list, next);
      LoadedPrefix(inst, stack, l, list);
      MarkedKeys(inst, list, v);
      RunList(list);
      stack := stack[..l];
      log := log + [list];
    }

    method StrongConnect(v: InstId, ghost gray: set<InstId>) returns (ok: bool)
      requires Sound() && Loaded(inst, stack) && v in inst && inst[v].status == Committed && inst[v].index == 0
      requires Search(G, Now(), gray) && AllReach(G, Now(), v) && Fresh(Now(), next)
      modifies this`inst, this`stack, this`next, this`store, this`log
      ensures Sound() && Progress(G, old(inst), inst, v) && old(log) <= log
      ensures !ok ==> Blocked(G, old(inst), v)
      ensures ok ==> Loaded(inst, stack) && v in inst && Fresh(Now(), next)
      ensures ok ==> Visited(G, old(Now()), Now(), gray, v, inst[v].lowlink)
      ensures ok ==> forall x <- old(stack) :: x in inst && inst[x] == old(inst)[x]
      decreases White(inst), 0
    {
      hide Open, Reach, Edge, ValidLog, Agrees, LogOK, MarksOK, StoreOK, Fresh, Closed, Search, Blocked, Progress, Loaded, AllReach, RowsSeen;
      hide RowSeen, AllSeen, Visited, NodeSorted, SameContent, RunBatch, White;
      ghost var inst0, view0, stack0, log0 := inst, Now(), stack, log;
      StackOut(inst, stack, v);
      OpenCall(G, n, inst, execedUpTo, stack, log, store, v, next, gray);
      inst := inst[v := inst[v].(index := next, lowlink := next)];
      next := next + 1;
      var l := |stack|;
      stack := stack + [v];
      if inst[v].cmds.None? {
        ReachSelf(G, v);
        BlockedAt(G, inst0, v, v);
        return false;
      }
      LoadPushed(inst0, stack0, v, inst);
      ghost var seen := Done(inst);
      for q := 0 to n
        invariant InCall(gray + {v}, v, l, seen) && Progress(G, inst0, inst, v) && White(inst) <= White(inst0) - {v} && log0 <= log
        invariant Extends(view0, Now()) && RowsSeen(G, v, execedUpTo, q, seen)
        invariant forall x <- stack0 :: x in inst && inst[x] == inst0[x]
      {
        ghost var inst1, view1 := inst, Now();
        assert stack[..l] == stack0;
        MarksFloor(n, inst, execedUpTo);
        ok, seen := VisitRow(v, q, gray + {v}, l, seen);
        ProgressHere(G, inst0, inst1, inst, v);
        if !ok {
          ReachSelf(G, v);
          BlockedBelow(G, inst0, inst1, v, v) by { KeepsContent(G, inst0, inst1, v); }
          return;
        }
        KeepsContent(G, inst1, inst, v);
        ExtendsTrans(view0, view1, Now());
      }
      MarksFloor(n, inst, execedUpTo);
      RowsAll(G, n, inst, execedUpTo, v, seen);
      OpenFacts(G, Now(), gray + {v}, v, l, inst[v].lowlink, seen);
      if inst[v].lowlink == inst[v].index {
        ghost var inst1 := inst;
        RunComponent(v, l, gray, view0, seen);
        ProgressHere(G, inst0, inst1, inst, v);
      } else {
        Leave(G, view0, Now(), gray, v, l, inst[v].lowlink, seen);
      }
      return true;
    }

    // ---- Between searches ----

    ghost predicate Valid()
      reads this
    {
      && Agrees(G, n, inst) && LogOK(G, inst, log) && MarksOK(n, inst, execedUpTo) && StoreOK(G, log, store)
      && Quiet(inst) && |crt| == n
    }

    // Each row is decided up to its watermark, and no further without a gap.
    ghost predicate Watermarks()
      reads this
    {
      |committedUpTo| == n && forall q :: 0 <= q < n ==> CommittedTo(inst, q, committedUpTo[q])
    }

    constructor (n: nat, ghost G: Graph)
      ensures Valid() && Watermarks() && this.G == G && this.n == n && inst == map[] && log == [] && store == map[]
    {
      this.G, this.n := G, n;
      inst, stack, next, store, log := map[], [], 1, map[], [];
      crt, execedUpTo, committedUpTo := seq(n, _ => -1), seq(n, _ => -1), seq(n, _ => -1);
    }

    // handleCommit: a decided instance arrives; it is dropped if it is known to be decided or its ballot is too low.
    method LearnCommit(x: InstId, cmds: seq<Command>, seqno: int, deps: seq<int>, ballot: int, now: int)
      requires Valid() && Watermarks() && x.rep < n && x in G && G[x] == EPaxosGraph.Node(cmds, seqno, deps) && |deps| == n
      modifies this`inst, this`crt, this`committedUpTo
      ensures Valid() && Watermarks() && Done(inst) == Done(old(inst))
      ensures var e := if x in old(inst) then old(inst)[x] else NewInst(now);
              inst == old(inst)[x := if e.status != NotCommitted || ballot < e.bal then e
                                     else e.(cmds := Some(cmds), seqno := seqno, deps := deps, status := Committed, bal := ballot)]
      ensures crt == old(crt)[x.rep := if x.inst > old(crt)[x.rep] then x.inst else old(crt)[x.rep]]
    {
      hide Agrees, LogOK, MarksOK, Quiet, StoreOK, Done, CommittedTo;
      ghost var inst0 := inst;
      if x.inst > crt[x.rep] {
        crt := crt[x.rep := x.inst];
      }
      if x !in inst {
        SameDecided(inst, inst[x := NewInst(now)], committedUpTo);
        PutInst(G, n, inst, execedUpTo, log, x, NewInst(now));
        inst := inst[x := NewInst(now)];
      }
      if inst[x].status != NotCommitted || ballot < inst[x].bal {
        return;
      }
      QuietAt(inst, x);
      var e := inst[x].(cmds := Some(cmds), seqno := seqno, deps := deps, status := Committed, bal := ballot);
      PutInst(G, n, inst, execedUpTo, log, x, e);
      inst := inst[x := e];
      DecideMore(inst0, inst, x, committedUpTo);
      UpdateCommitted(x.rep);
    }

    // updateCommitted: moves the watermark of a row past every decided instance that follows it.
    method UpdateCommitted(row: nat)
      requires row < n == |committedUpTo| && (forall q :: 0 <= q < n && q != row ==> CommittedTo(inst, q, committedUpTo[q]))
      requires committedUpTo[row] >= -1 && forall x: InstId :: x.rep == row && x.inst <= committedUpTo[row] ==> Decided(inst, x)
      modifies this`committedUpTo
      ensures Watermarks() && old(committedUpTo[row]) <= committedUpTo[row]
      ensures committedUpTo == old(committedUpTo)[row := committedUpTo[row]]
    {
      ghost var marks := committedUpTo;
      hide CommittedTo;
      while InstId(row, committedUpTo[row] + 1) in inst && inst[InstId(row, committedUpTo[row] + 1)].status != NotCommitted
        invariant |committedUpTo| == n && committedUpTo == marks[row := committedUpTo[row]] && committedUpTo[row] >= marks[row] >= -1
        invariant forall x: InstId :: x.rep == row && x.inst <= committedUpTo[row] ==> Decided(inst, x)
        decreases |RowAbove(inst, row, committedUpTo[row])|
      {
        RowShrinks(inst, row, committedUpTo[row]);
        committedUpTo := committedUpTo[row := committedUpTo[row] + 1];
      }
      RowCommitted(inst, row, committedUpTo[row]);
    }

    // handlePreAccept, handleAccept: an instance gets contents that are not decided yet.
    method LearnTentative(x: InstId, cmds: Option<seq<Command>>, seqno: int, deps: seq<int>, ballot: int, now: int)
      requires Valid() && x.rep < n && (x in inst ==> inst[x].status == NotCommitted)
      modifies this`inst, this`crt
      ensures Valid() && Done(inst) == Done(old(inst)) && (old(Watermarks()) ==> Watermarks())
      ensures var time := if x in old(inst) then old(inst)[x].proposeTime else now;
              inst == old(inst)[x := Inst(cmds, NotCommitted, seqno, deps, 0, 0, time, ballot)]
      ensures crt == old(crt)[x.rep := if x.inst > old(crt)[x.rep] then x.inst else old(crt)[x.rep]]
    {
      hide Agrees, LogOK, MarksOK, Quiet, StoreOK, Done;
      if x.inst > crt[x.rep] {
        crt := crt[x.rep := x.inst];
      }
      ghost var inst0 := inst;
      var time := if x in inst then inst[x].proposeTime else now;
      var e := Inst(cmds, NotCommitted, seqno, deps, 0, 0, time, ballot);
      PutInst(G, n, inst, execedUpTo, log, x, e);
      inst := inst[x := e];
      SameDecided(inst0, inst, committedUpTo);
    }

    // Whatever a search left on the stack can be visited again.
    method ResetIndexes()
      requires StackOK(inst, stack) && forall x <- inst :: inst[x].index >= 0
      modifies this`inst
      ensures inst.Keys == old(inst).Keys && Quiet(inst)
      ensures forall x <- inst :: inst[x] == old(inst)[x].(index := inst[x].index) && inst[x].index >= 0
    {
      ghost var inst1, stack1 := inst, stack;
      for j := 0 to |stack|
        invariant stack == stack1
        invariant inst.Keys == inst1.Keys && forall x <- inst :: inst[x] == inst1[x].(index := inst[x].index) && inst[x].index >= 0
        invariant forall x <- inst :: inst[x].status != Executed && inst[x].index != 0 ==> x in stack[j..]
      {
        assert stack[j] in stack;
        inst := inst[stack[j] := inst[stack[j]].(index := 0)];
        assert stack[j..] == [stack[j]] + stack[j + 1..];
      }
    }

    method FindSCC(root: InstId) returns (ok: bool)
      requires Valid() && root in inst && inst[root].status == Committed
      modifies this`inst, this`stack, this`next, this`store, this`log
      ensures Valid() && SameContent(old(inst), inst) && old(log) <= log
      ensures ok <==> !Blocked(G, old(inst), root)
      ensures ok <==> forall y :: Reach(G, root, y) ==> y in old(inst) && old(inst)[y].status != NotCommitted && old(inst)[y].cmds.Some?
      ensures forall y <- Done(inst) :: y in Done(old(inst)) || Reach(G, root, y)
      ensures ok ==> forall y :: Reach(G, root, y) ==> y in Done(inst)
    {
      hide ValidLog, Edge, Reach, InLog, Blocked, StoreOK, LogOK, MarksOK, Agrees, Search, Visited, Progress, AllReach;
      ghost var inst0 := inst;
      UnblockedIs(G, inst, root);
      next := 1;
      stack := [];
      StartSearch(G, inst, log);
      ok := StrongConnect(root, {});
      KeepsContent(G, inst0, inst, root);
      ProgressDone(G, inst0, inst, root);
      if ok {
        RootDone(G, n, inst0, inst, log, stack, root, inst[root].lowlink);
      }
      ghost var inst1 := inst;
      IndexFloor(G, n, inst);
      ResetIndexes();
      SameDone(inst1, inst);
      KeepGood(G, n, inst1, inst, execedUpTo, log);
      SameReset(inst0, inst1, inst);
    }

    method ExecuteCommand(x: InstId) returns (ok: bool)
      requires Valid()
      modifies this`inst, this`stack, this`next, this`store, this`log
      ensures Valid() && SameContent(old(inst), inst) && old(log) <= log
      ensures ok <==> !Blocked(G, old(inst), x)
      ensures ok <==> forall y :: Reach(G, x, y) ==> y in old(inst) && old(inst)[y].status != NotCommitted && old(inst)[y].cmds.Some?
      ensures ok <==> x in Done(inst)
    {
      hide ValidLog, Edge, Reach, InLog, Blocked, StoreOK, LogOK, MarksOK, Agrees, Quiet;
      ReachSelf(G, x);
      UnblockedIs(G, inst, x);
      if x !in inst {
        BlockedAt(G, inst, x, x);
        return false;
      }
      if inst[x].status == Executed {
        DoneUnblocked(G, n, inst, log, x);
        return true;
      }
      if inst[x].status != Committed {
        BlockedAt(G, inst, x, x);
        return false;
      }
      ok := FindSCC(x);
      if !ok {
        StillBlocked(G, n, old(inst), inst, log, x);
      }
    }

    method RaiseTo(q: nat, i: nat)
      requires MarksOK(n, inst, execedUpTo) && q < |execedUpTo| && InstId(q, i) in Done(inst)
      modifies this`execedUpTo
      ensures MarksOK(n, inst, execedUpTo)
      ensures execedUpTo == if i == old(execedUpTo)[q] + 1 then old(execedUpTo)[q := i] else old(execedUpTo)
    {
      if i == execedUpTo[q] + 1 {
        RaiseMark(n, inst, execedUpTo, q);
        execedUpTo := execedUpTo[q := i];
      }
    }

    // One row of a sweep: executes what it can up to the first instance that is not ready.
    method SweepRow(q: nat) returns (executed: bool)
      requires Valid() && q < n
      modifies this`inst, this`stack, this`next, this`store, this`log, this`execedUpTo
      ensures Valid() && SameContent(old(inst), inst) && old(log) <= log
      ensures RowSwept(G, old(inst), inst, q, crt[q])
      ensures |execedUpTo| == n && execedUpTo == old(execedUpTo)[q := execedUpTo[q]] && old(execedUpTo[q]) <= execedUpTo[q]
      ensures execedUpTo[q] >= crt[q] || InstId(q, execedUpTo[q] + 1) !in Done(inst)
    {
      hide ValidLog, Edge, InLog, Blocked, StoreOK, LogOK, MarksOK, Agrees, Quiet, Done, RowDone, SameContent, RowSwept, Reach;
      ghost var inst0 := inst;
      MarksFloor(n, inst, execedUpTo);
      SameRefl(inst);
      executed := false;
      var i := execedUpTo[q] + 1;
      RowDoneStart(G, n, inst, execedUpTo, q);
      while i <= crt[q]
        invariant Valid() && SameContent(inst0, inst) && old(log) <= log && 0 <= i && old(execedUpTo[q]) < i
        invariant |execedUpTo| == n && execedUpTo == old(execedUpTo)[q := execedUpTo[q]] && old(execedUpTo[q]) <= execedUpTo[q] < i
        invariant RowDone(G, inst0, inst, q, i) && (execedUpTo[q] + 1 < i ==> Blocked(G, inst0, InstId(q, execedUpTo[q] + 1)))
        decreases crt[q] - i
      {
        var x := InstId(q, i);
        SeeContent(G, inst0, inst, x);
        ReachSelf(G, x);
        ghost var inst1 := inst;
        if x in inst && inst[x].status == Executed {
          DoneIn(inst, x);
          RaiseTo(q, i);
        } else if x !in inst || inst[x].status == NotCommitted || inst[x].cmds.None? {
          BlockedAt(G, inst, x, x);
          break;
        } else {
          var ok := ExecuteCommand(x);
          SameTrans(inst0, inst1, inst);
          if ok {
            executed := true;
            RaiseTo(q, i);
          }
          RowDoneKept(G, inst0, inst1, inst, q, i);
        }
        RowDoneStep(G, inst0, inst, q, i);
        i := i + 1;
      }
      RowDoneEnd(G, n, inst0, inst, log, q, i, crt[q]);
      if execedUpTo[q] < crt[q] {
        StillBlocked(G, n, inst0, inst, log, InstId(q, execedUpTo[q] + 1));
      }
    }

    // One pass of executeCommands over all rows.
    method Sweep() returns (executed: bool)
      requires Valid()
      modifies this`inst, this`stack, this`next, this`store, this`log, this`execedUpTo
      ensures Valid() && SameContent(old(inst), inst) && old(log) <= log
      ensures old(Watermarks()) ==> Watermarks()
      ensures forall q :: 0 <= q < n ==> RowSwept(G, old(inst), inst, q, crt[q])
      ensures |execedUpTo| == |old(execedUpTo)| && forall q :: 0 <= q < n && q < |execedUpTo| ==> old(execedUpTo[q]) <= execedUpTo[q]
    {
      hide ValidLog, Edge, InLog, Blocked, StoreOK, LogOK, MarksOK, Agrees, Quiet, Done, SameContent, RowSwept, CommittedTo;
      ghost var inst0, marks0 := inst, execedUpTo;
      MarksFloor(n, inst, execedUpTo);
      SameRefl(inst);
      executed := false;
      for q := 0 to n
        invariant Valid() && SameContent(inst0, inst) && old(log) <= log && |execedUpTo| == n
        invariant forall r :: 0 <= r < q ==> RowSwept(G, inst0, inst, r, crt[r])
        invariant forall r :: 0 <= r < n ==> marks0[r] <= execedUpTo[r]
      {
        ghost var inst1 := inst;
        var some := SweepRow(q);
        executed := executed || some;
        SameTrans(inst0, inst1, inst);
        SweptFrom(G, inst0, inst1, inst, q, crt[q]);
        forall r | 0 <= r < q ensures RowSwept(G, inst0, inst, r, crt[r]) {
          SweptKept(G, n, inst0, inst1, inst, log, r, crt[r]);
        }
      }
      ContentDecided(inst0, inst);
      SameDecided(inst0, inst, committedUpTo);
    }
  }

  // Replicas that hold the same decisions execute any two dependency-linked instances in the same order,
  // whatever roots and retries their sweeps used, if Seq and replica identify an instance in its component.
  lemma ReplicasAgree(a: Exec, b: Exec, x: InstId, y: InstId)
    requires a.Valid() && b.Valid() && a.G == b.G && UniqueKeys(a.G)
    requires {x, y} <= Done(a.inst) * Done(b.inst) && (Reach(a.G, x, y) || Reach(a.G, y, x))
    ensures Ran(a.log, x, y) <==> Ran(b.log, x, y)
  {
    hide Reach, ValidLog, UniqueKeys, Agrees, MarksOK, StoreOK, Quiet, Done;
    assert InLog(a.log, x) && InLog(a.log, y) && InLog(b.log, x) && InLog(b.log, y);
    OrderIndependence(a.G, a.log, b.log, x, y);
  }

  // ... and once they have executed the same instances their stores are equal.
  lemma ReplicasConverge(a: Exec, b: Exec)
    requires a.Valid() && b.Valid() && a.G == b.G && UniqueKeys(a.G) && Linked(a.G) && AllValid(a.G)
    requires Done(a.inst) == Done(b.inst)
    ensures a.store == b.store
  {
    hide Reach, ValidLog, UniqueKeys, Agrees, MarksOK, Quiet, Done, Linked, AllValid;
    StoresConverge(a.G, a.log, b.log);
  }

  // A row is never executed further than it is decided.
  lemma ExecutedWithinCommitted(e: Exec, q: nat)
    requires e.Valid() && e.Watermarks() && q < e.n
    ensures q < |e.execedUpTo| && e.execedUpTo[q] <= e.committedUpTo[q]
  {
    hide Agrees, LogOK, StoreOK, Quiet;
    assert !Decided(e.inst, InstId(q, e.committedUpTo[q] + 1));
  }

  // Whatever an executed instance depends on has been executed, in its own batch or an earlier one.
  lemma DependenciesRun(e: Exec, i: nat, x: InstId, y: InstId)
    requires e.Valid() && i < |e.log| && x in e.log[i] && x in e.inst && y.rep < |e.inst[x].deps| && y.inst <= e.inst[x].deps[y.rep]
    ensures y in e.inst && e.inst[y].status == Executed
    ensures exists j :: 0 <= j <= i && y in e.log[j]
  {
    hide MarksOK, StoreOK, Quiet, BatchSorted;
    assert InLog(e.log, x);
    assert x in Done(e.inst);
    assert Edge(e.G, x, y);
    var j :| 0 <= j <= i && y in e.log[j];
    assert InLog(e.log, y);
  }

  // The store holds, for every key, the value of its last executed PUT.
  lemma StoreHolds(e: Exec, k: Key, j: int)
    requires e.Valid() && AllValid(e.G)
    ensures (forall x <- Flat(e.log) :: x in e.G) && Orders(Work(e.G), Names(e.G, Flat(e.log)))
    ensures var w, names := Work(e.G), Names(e.G, Flat(e.log));
            IsLastPut(w, names, k, |names|, j) ==>
              (k in e.store <==> j >= 0) && (j >= 0 ==> e.store[k] == w[names[j]].val)
  {
    hide ValidLog, Agrees, MarksOK, Quiet, AllValid, IsLastPut, Names, Work, RunLog, RunBatch;
    LoggedValid(e.G, e.log);
    FlatDistinct(e.G, e.log);
    FlatStore(e.G, e.log);
    NamesOrder(e.G, Flat(e.log));
    FinalBatch(e.G, map[], Flat(e.log));
    var names := Names(e.G, Flat(e.log));
    if IsLastPut(Work(e.G), names, k, |names|, j) {
      TableHolds(Work(e.G), map[], names, k, |names|, j);
      assert names[..|names|] == names;
    }
  }
}
