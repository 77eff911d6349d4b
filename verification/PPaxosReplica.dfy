/** The PPaxos replica in place: the handlers of eppaxos/epaxos.go with their loops and
    their recursion, each proved to take the state to the one its specification gives. */
module PPaxosReplica {
  import opened Options
  import opened PPaxos
  import PPaxosParking
  import opened Store

  class Replica {
    const id: nat
    const n: nat
    var space: map<InstId, Instance>
    var crt: seq<int>
    var upTo: seq<int>
    var conflicts: seq<map<Key, InstPair>>
    var waitlist: map<InstId, seq<Msg>>
    var out: seq<Packet>
    var log: seq<InstId>

    ghost function State(): RState
      reads this
    {
      RState(id, n, space, crt, upTo, conflicts, waitlist, out, log)
    }

    constructor (id: nat, n: nat)
      requires id < n
      ensures State() == InitState(id, n)
    {
      this.id := id;
      this.n := n;
      space, waitlist, out, log := map[], map[], [], [];
      crt := seq(n, _ => -1);
      upTo := seq(n, _ => -1);
      conflicts := seq(n, _ => map[]);
    }

    method UpdateConflicts(cmds: seq<Command>, replica: nat, instance: nat)
      requires replica < |conflicts|
      modifies this`conflicts
      ensures conflicts == old(conflicts)[replica := Record(old(conflicts)[replica], cmds, instance)]
    {
      for i := 0 to |cmds|
        invariant conflicts == old(conflicts)[replica := Record(old(conflicts)[replica], cmds[..i], instance)]
      {
        var row := conflicts[replica];
        var c := cmds[i];
        if c.key in row {
          var p := row[c.key];
          if p.last < instance {
            row := row[c.key := row[c.key].(last := instance)];
          }
          if p.lastWrite < instance && c.op != GET {
            row := row[c.key := row[c.key].(lastWrite := instance)];
          }
        } else {
          row := row[c.key := InstPair(instance, -1)];
          if c.op != GET {
            row := row[c.key := InstPair(instance, instance)];
          }
        }
        assert cmds[..i + 1][..i] == cmds[..i];
        assert row == RecordCmd(conflicts[replica], c, instance);
        conflicts := conflicts[replica := row];
      }
      assert cmds[..|cmds|] == cmds;
    }

    // One conflicting entry raises its own column and, transitively, every column it depends on.
    method Raise(deps: seq<int>, q: nat, d: nat) returns (r: seq<int>)
      requires WF(State()) && |deps| == n && q < n && InstId(q, d) in space
      ensures r == MaxDeps(deps[q := d], space[InstId(q, d)].deps)
      ensures |r| == n
      ensures var own := space[InstId(q, d)].deps;
              forall j :: 0 <= j < n ==>
                var low := if j == q then d else deps[j];
                r[j] >= low && r[j] >= own[j] && (r[j] == low || r[j] == own[j])
    {
      r := deps[q := d];
      for j := 0 to n
        invariant |r| == n
        invariant forall k :: 0 <= k < j ==> r[k] == MaxDeps(deps[q := d], space[InstId(q, d)].deps)[k]
        invariant forall k :: j <= k < n ==> r[k] == deps[q := d][k]
      {
        if space[InstId(q, d)].deps[j] > r[j] {
          r := r[j := space[InstId(q, d)].deps[j]];
        }
      }
    }

    method UpdateAttributes(cmds: seq<Command>, deps: seq<int>, replica: nat) returns (r: seq<int>, changed: bool)
      requires WF(State()) && |deps| == n && forall j :: 0 <= j < n ==> deps[j] >= -1
      ensures r == Attributes(State(), cmds, deps, replica, n)
      ensures changed <==> r != deps
    {
      r, changed := deps, false;
      for q := 0 to n
        invariant r == Attributes(State(), cmds, deps, replica, q)
        invariant changed <==> r != deps
      {
        if !(id != replica && q == replica) {
          r, changed := AttributesOfRow(cmds, deps, r, q, changed);
        }
      }
    }

    // The latest conflict of one command in row q, if it is new.
    method AttributesOfCommand(c: Command, deps: seq<int>, q: nat) returns (r: seq<int>, raised: bool)
      requires WF(State()) && q < n && |deps| == n && forall j :: 0 <= j < n ==> deps[j] >= -1
      ensures r == AttrCmd(State(), c, deps, q)
      ensures if raised then r[q] > deps[q] else r == deps
    {
      r, raised := deps, false;
      if c.key in conflicts[q] {
        var d := conflicts[q][c.key].lastWrite;
        if c.op != GET {
          d := conflicts[q][c.key].last;
        }
        if d > r[q] {
          r := Raise(r, q, d);
          raised := true;
        }
      }
    }

    method AttributesOfRow(cmds: seq<Command>, ghost first: seq<int>, deps: seq<int>, q: nat, changed0: bool)
      returns (r: seq<int>, changed: bool)
      requires WF(State()) && q < n && |first| == |deps| == n
      requires forall j :: 0 <= j < n ==> deps[j] >= first[j] >= -1
      requires changed0 <==> deps != first
      ensures r == AttrRow(State(), cmds, deps, q)
      ensures changed <==> r != first
    {
      hide AttrCmd;
      r, changed := deps, changed0;
      for i := 0 to |cmds|
        invariant r == AttrRow(State(), cmds[..i], deps, q)
        invariant changed <==> r != first
      {
        assert cmds[..i + 1][..i] == cmds[..i];
        ghost var before := r;
        var raised;
        r, raised := AttributesOfCommand(cmds[i], r, q);
        changed := changed || raised;
        assert raised ==> r[q] > before[q] >= first[q];
      }
      assert cmds[..|cmds|] == cmds;
    }

    // The labelled loop of updatePriority: the first instance above the proposer that is unknown, or interferes.
    method ScanAbove(c: Command, deps: seq<int>, own: seq<int>, from: nat) returns (r: Scan)
      requires |deps| == |own| == n && forall j :: 0 <= j < n ==> deps[j] >= -1
      ensures r == ScanRows(State(), c, deps, own, from)
    {
      var k := from;
      while k < n
        invariant ScanRows(State(), c, deps, own, k) == ScanRows(State(), c, deps, own, from)
        decreases n - k
      {
        var j := deps[k] + 1;
        while j <= own[k]
          invariant j >= 0
          invariant ScanRow(State(), c, k, j, own[k]) == ScanRow(State(), c, k, deps[k] + 1, own[k])
          decreases own[k] - j
        {
          var y := InstId(k, j);
          if y !in space || space[y].cmds == [] {
            return Missing(y);
          }
          if Interferes(space[y].cmds, c) {
            return Hit;
          }
          j := j + 1;
        }
        k := k + 1;
      }
      return Clear;
    }

    // One command of a proposal: the instance it must wait for, or the dependency from here on.
    method PriorityOfCommand(m: Msg, l: nat, dep: int) returns (next: int, waitFor: Option<InstId>)
      requires WF(State()) && WFMsg(m, n) && l < |m.cmds| && dep >= -1
      ensures waitFor.Some? ==> Priority(State(), m, dep, l) == Verdict(dep, waitFor)
      ensures waitFor.None? ==> next >= -1 && Priority(State(), m, dep, l) == Priority(State(), m, next, l + 1)
    {
      hide Priority;
      PPaxosParking.PriorityStep(State(), m, l, dep);
      var c := m.cmds[l];
      next, waitFor := dep, None;
      if c.key in conflicts[id] {
        var d := conflicts[id][c.key].lastWrite;
        if c.op != GET {
          d := conflicts[id][c.key].last;
        }
        if d > dep && space[InstId(id, d)].deps[m.rep] < m.inst {
          var own := space[InstId(id, d)];
          var priority := Interferes(own.cmds, c);
          var scan := ScanAbove(c, m.deps, own.deps, m.rep + 1);
          if scan.Missing? {
            return dep, Some(scan.at);
          }
          if scan.Hit? {
            priority := false;
          }
          if priority {
            next := d;
          }
        }
      }
    }

    // The commands in turn, up to the first that must wait.
    method PriorityOf(m: Msg) returns (dep: int, waitFor: Option<InstId>)
      requires WF(State()) && WFMsg(m, n)
      ensures Verdict(dep, waitFor) == Priority(State(), m, m.deps[id], 0)
    {
      dep := m.deps[id];
      assert dep >= -1;
      hide WFRow, WFInstance;
      var i := 0;
      while i < |m.cmds|
        invariant dep >= -1 && Priority(State(), m, dep, i) == Priority(State(), m, m.deps[id], 0)
        decreases |m.cmds| - i
      {
        var next, wait := PriorityOfCommand(m, i, dep);
        if wait.Some? {
          return dep, wait;
        }
        dep := next;
        i := i + 1;
      }
      return dep, None;
    }

    // Parks the proposal itself when an instance it must wait for has no command.
    method UpdatePriority(m: Msg) returns (dep: int, reached: bool)
      requires WF(State()) && WFMsg(m, n)
      modifies this`waitlist
      ensures var v := Priority(old(State()), m, m.deps[id], 0);
              && dep == v.dep && reached == v.waitFor.None?
              && State() == if reached then old(State()) else Park(old(State()), v.waitFor.value, m)
      ensures reached ==> PPaxosParking.DepSoFar(old(State()), m, |m.cmds|, dep) && forall k :: !PPaxosParking.Parks(old(State()), m, k)
      ensures !reached ==> exists k :: PPaxosParking.Parks(old(State()), m, k)
                                       && waitlist == old(waitlist)[k := (if k in old(waitlist) then old(waitlist)[k] else []) + [m]]
    {
      hide Priority, PPaxosParking.DepSoFar, PPaxosParking.Parks, PPaxosParking.WaitsAt, WFRow, WFInstance;
      PPaxosParking.ParkedExactly(State(), m);
      var waitFor;
      dep, waitFor := PriorityOf(m);
      reached := waitFor.None?;
      if waitFor.Some? {
        var k := waitFor.value;
        waitlist := waitlist[k := (if k in waitlist then waitlist[k] else []) + [m]];
      }
    }

    method UpdateCommitted(row: nat)
      requires WF(State()) && row < n
      modifies this`upTo
      ensures upTo == old(upTo)[row := Advance(space, row, old(upTo)[row])]
    {
      hide WFRow, WFInstance, WFMsg;
      while InstId(row, upTo[row] + 1) in space && space[InstId(row, upTo[row] + 1)].status == Committed
        invariant |upTo| == n && upTo[row] >= -1 && upTo == old(upTo)[row := upTo[row]]
        invariant Advance(space, row, upTo[row]) == Advance(space, row, old(upTo)[row])
        decreases |Above(space, row, upTo[row])|
      {
        ghost var next := InstId(row, upTo[row] + 1);
        assert Above(space, row, upTo[row]) == Above(space, row, upTo[row] + 1) + {next};
        upTo := upTo[row := upTo[row] + 1];
      }
    }

    method TallyOf(x: InstId) returns (oks: nat, priority: bool)
      requires WF(State()) && x in space
      ensures oks == Tally(space[x].reach) && priority == HigherReached(space[x], x.rep)
    {
      var reach := space[x].reach;
      oks, priority := 0, true;
      for i := 0 to n
        invariant oks == Tally(reach[..i])
      {
        assert reach[..i + 1][..i] == reach[..i];
        if reach[i] {
          oks := oks + 1;
        }
      }
      assert reach[..n] == reach;
      for i := 0 to x.rep
        invariant priority == forall k :: 0 <= k < i ==> reach[k]
      {
        if !reach[i] {
          priority := false;
        }
      }
    }

    method DepsCommitted(x: InstId) returns (all: bool)
      requires WF(State()) && x in space
      ensures all == DepsDone(State(), space[x])
    {
      all := true;
      for q := 0 to n
        invariant all == forall k :: 0 <= k < q ==> space[x].deps[k] <= upTo[k]
      {
        if upTo[q] < space[x].deps[q] {
          all := false;
        }
      }
    }

    method Recount(x: InstId) returns (ready: bool)
      requires WF(State()) && x in space
      modifies this`space
      ensures State() == Refresh(old(State()), x)
      ensures ready == CanCommit(old(State()), x)
      ensures var e := old(space)[x];
              && space == old(space)[x := e.(preAcceptOKs := |set i | 0 <= i < n && e.reach[i]|,
                                             priorityOKs := forall i :: 0 <= i < x.rep ==> e.reach[i])]
              && (ready <==> space[x].priorityOKs && space[x].preAcceptOKs > n / 2 && e.status != Committed
                             && forall q :: 0 <= q < n ==> e.deps[q] <= upTo[q])
    {
      var oks, priority := TallyOf(x);
      TallyIs(space[x].reach);
      var all := DepsCommitted(x);
      space := space[x := space[x].(preAcceptOKs := oks, priorityOKs := priority)];
      ready := priority && all && oks > n / 2 && space[x].status != Committed;
    }

    // Commit: only the first waiting instance of each row is retried.
    method CommitInstance(x: InstId)
      requires WF(State()) && x in space
      modifies this
      ensures State() == Commit(old(State()), x)
      decreases |Pending(State())|, 0
    {
      hide WF, Advance, Wake, CommitFrame, Tally;
      ghost var s0 := State();
      RefreshFrame(s0, x);
      var ready := Recount(x);
      ghost var s1 := State();
      if ready {
        DecideFrame(s1, x);
        space := space[x := space[x].(status := Committed)];
        log := log + [x];
        UpdateCommittedAfter(x, s1);
        ghost var s2 := State();
        PendingShrinks(s1, x);
        WakeRows(x, s2);
      }
    }

    method UpdateCommittedAfter(x: InstId, ghost s1: RState)
      requires WF(s1) && x in s1.space && WF(Decide(s1, x))
      requires State() == Decide(s1, x).(upTo := s1.upTo)
      modifies this`upTo
      ensures State() == Decide(s1, x)
    {
      WFUpTo(Decide(s1, x), s1.upTo);
      UpdateCommitted(x.rep);
    }

    // The first instance of row p, after x's own dependency there, that waits for x.
    method FindHit(x: InstId, p: nat) returns (hit: Option<nat>)
      requires WF(State()) && x in space && p < n
      ensures hit == FirstHit(State(), x, p, space[x].deps[p] + 1)
    {
      var j := space[x].deps[p] + 1;
      while j <= crt[p]
        invariant j >= 0
        invariant FirstHit(State(), x, p, space[x].deps[p] + 1) == FirstHit(State(), x, p, j)
        decreases crt[p] - j
      {
        var y := InstId(p, j);
        if y in space && space[y].preAcceptOKs > n / 2 && space[y].priorityOKs
           && space[y].deps[x.rep] == x.inst && space[y].status != Committed {
          return Some(j);
        }
        j := j + 1;
      }
      return None;
    }

    method WakeRows(x: InstId, ghost s2: RState)
      requires WF(State()) && x in space && s2 == State()
      modifies this
      ensures State() == Wake(s2, x, 0)
      decreases |Pending(State())|, 1
    {
      hide WF, CommitFrame, SameBody, Pending, Commit, FirstHit, IsHit;
      var p := 0;
      while p < n
        invariant p <= n && WF(State()) && x in space && n == s2.n
        invariant Wake(State(), x, p) == Wake(s2, x, 0)
        invariant |Pending(State())| <= |Pending(s2)|
        decreases n - p
      {
        ghost var s := State();
        var hit := FindHit(x, p);
        if hit.Some? {
          HitKnown(s, InstId(p, hit.value), x);
          CommitInstance(InstId(p, hit.value));
          SubsetSmaller(Pending(State()), Pending(s));
          FrameKeys(s, State());
        }
        p := p + 1;
      }
    }

    // ---- Handlers ----

    method SendToAll(m: Msg)
      modifies this`out
      ensures out == old(out) + Broadcast(id, m, n)
    {
      for i := 0 to n
        invariant out == old(out) + Broadcast(id, m, i)
      {
        if i != id {
          out := out + [Packet(i, m)];
        }
      }
    }

    // The new instance, before its dependencies are known.
    method AddInstance(cmds: seq<Command>) returns (x: InstId)
      requires WF(State())
      modifies this`crt, this`space
      ensures WF(State()) && x == InstId(id, old(crt)[id] + 1) && crt == old(crt)[id := x.inst]
      ensures space == old(space)[x := NewInstance(n).(cmds := cmds, status := PreAccepted)]
    {
      ghost var s0 := State();
      x := InstId(id, crt[id] + 1);
      crt := crt[id := x.inst];
      space := space[x := NewInstance(n).(cmds := cmds, status := PreAccepted)];
      BlankWF(s0, x, cmds, State());
    }

    method HandlePropose(cmds: seq<Command>)
      requires WF(State())
      modifies this
      ensures State() == Propose(old(State()), cmds)
    {
      hide Attributes, Broadcast, Record, WFRow, WFMsg, LatestConflict;
      ghost var space0 := space;
      var x := AddInstance(cmds);
      var deps, _ := UpdateAttributes(cmds, NewInstance(n).deps, id);
      deps := deps[id := x.inst - 1];
      space := space[x := space[x].(deps := deps, reach := space[x].reach[id := true])];
      assert space0[x := space[x]] == space;
      UpdateConflicts(cmds, id, x.inst);
      SendToAll(Msg(id, x.inst, cmds, deps, 0, id));
    }

    method Fill(deps: seq<int>, from: seq<int>) returns (r: seq<int>)
      requires |deps| == |from| == n
      ensures r == FillDeps(deps, from)
    {
      r := deps;
      for i := 0 to n
        invariant |r| == n
        invariant forall k :: 0 <= k < i ==> r[k] == FillDeps(deps, from)[k]
        invariant forall k :: i <= k < n ==> r[k] == deps[k]
      {
        if r[i] == -1 {
          r := r[i := from[i]];
        }
      }
    }

    // Store the command: everything up to the retry of the proposals parked behind it.
    method AcceptCommand(m: Msg)
      requires WF(State()) && WFMsg(m, n) && m.Id() in space
      modifies this
      ensures State() == Accept(old(State()), m)
    {
      var x := m.Id();
      if m.inst > crt[m.rep] {
        crt := crt[m.rep := m.inst];
      }
      var deps := Fill(space[x].deps, m.deps);
      space := space[x := space[x].(deps := deps, cmds := m.cmds, status := PreAcceptedEq)];
      UpdateConflicts(m.cmds, m.rep, m.inst);
      waitlist := waitlist - {x};
    }

    method CountAndCommit(m: Msg)
      requires WF(State()) && WFMsg(m, n) && m.Id() in space
      modifies this
      ensures State() == Finish(old(State()), m)
    {
      var x := m.Id();
      ReachedWF(State(), m);
      ghost var s1 := Reached(State(), m);
      var e := space[x];
      var reach := e.reach[id := true];
      reach := reach[m.rep := true];
      reach := reach[m.sender := true];
      var deps := e.deps;
      if m.sender < m.rep {
        deps := deps[m.sender := m.senderDep];
      }
      space := space[x := e.(reach := reach, deps := deps)];
      assert State() == s1;
      if space[x].status == Committed || space[x].cmds == [] {
        return;
      }
      CommitInstance(x);
    }

    // The decision to answer: false if the proposal was parked.
    method Decision(m: Msg) returns (dep: int, reached: bool)
      requires WF(State()) && WFMsg(m, n) && m.cmds != []
      modifies this
      ensures WF(old(State()))
      ensures var (s1, v) := Judge(old(State()), m);
              && dep == v.dep && reached == v.waitFor.None?
              && State() == if reached then s1 else Park(s1, v.waitFor.value, m)
    {
      var x := m.Id();
      TouchWF(State(), x);
      if x !in space {
        space := space[x := NewInstance(n)];
      }
      dep, reached := 0, true;
      if m.rep > id {
        ghost var s0 := State();
        dep, reached := UpdatePriority(m);
        hide Priority, WF;
        space := space[x := space[x].(deps := space[x].deps[id := dep])];
        ParkCommutes(s0, m, dep, reached, State());
      }
    }

    method CountVote(m: Msg)
      requires WF(State()) && WFMsg(m, n) && m.cmds == []
      modifies this
      ensures State() == Handle(old(State()), m)
    {
      hide Finish, WF;
      TouchWF(State(), m.Id());
      if m.Id() !in space {
        space := space[m.Id() := NewInstance(n)];
      }
      CountAndCommit(m);
    }

    // The reply to everyone, and the sender's own count.
    method Reply(m: Msg, dep: int)
      requires WF(State()) && WFMsg(m, n) && m.Id() in space
      modifies this
      ensures State() == Answer(old(State()), m, dep)
    {
      ghost var s := State();
      hide Finish, Broadcast, WF;
      SendToAll(Msg(m.rep, m.inst, [], seq(n, _ => 0), dep, id));
      assert State() == s.(out := s.out + Broadcast(s.id, Vote(s, m, dep), s.n));
      SendKeepsWF(s, State());
      CountAndCommit(m);
    }

    // The handler: a vote is counted; a proposal is parked, or answered after the retry of
    // everything parked behind it.
    method HandlePreAcceptReply(m: Msg)
      requires WF(State()) && WFMsg(m, n)
      modifies this
      ensures State() == Handle(old(State()), m)
      decreases |WaitSlots(waitlist)| + 1, 0
    {
      hide WaitSlots, WF, WFMsg, Judge, Accept, Answer, Finish, Park, Touch;
      if m.cmds == [] {
        CountVote(m);
        return;
      }
      var dep, reached := Decision(m);
      if !reached {
        return;
      }
      ghost var s1 := State();
      AcceptWF(s1, m);
      AcceptParts(s1, m);
      PopFreesSlots(s1, m.Id());
      var parked := if m.Id() in waitlist then waitlist[m.Id()] else [];
      AcceptCommand(m);
      RetryAll(parked);
      Reply(m, dep);
    }

    method RetryAll(ws: seq<Msg>)
      requires WF(State()) && forall w <- ws :: WFMsg(w, n)
      modifies this
      ensures State() == HandleAll(old(State()), ws)
      decreases |WaitSlots(waitlist)| + |ws|, |ws|
    {
      hide WaitSlots, WF, Handle, WFMsg;
      ghost var s := State();
      var i := 0;
      assert ws[0..] == ws;
      while i < |ws|
        invariant i <= |ws| && WF(State()) && n == s.n
        invariant |WaitSlots(waitlist)| + |ws| - i <= |WaitSlots(s.waitlist)| + |ws|
        invariant HandleAll(State(), ws[i..]) == HandleAll(s, ws)
        decreases |ws| - i
      {
        assert ws[i..][0] == ws[i] && ws[i..][1..] == ws[i + 1..];
        HandlePreAcceptReply(ws[i]);
        i := i + 1;
      }
    }
  }

  lemma HitKnown(s: RState, y: InstId, x: InstId)
    requires WF(s) && x in s.space && IsHit(s, y, x)
    ensures y in s.space
  {
  }

  lemma AcceptParts(s: RState, m: Msg)
    requires WF(s) && WFMsg(m, s.n) && m.Id() in s.space
    ensures Accept(s, m).waitlist == s.waitlist - {m.Id()} && Accept(s, m).n == s.n
    ensures forall w <- Waiting(s, m.Id()) :: WFMsg(w, s.n)
  {
    hide WFMsg, Record, FillDeps;
  }

  lemma FrameKeys(s: RState, t: RState)
    requires CommitFrame(s, t)
    ensures t.space.Keys == s.space.Keys && t.n == s.n
  {
  }

  lemma WFUpTo(s: RState, upTo: seq<int>)
    requires WF(s) && |upTo| == s.n && forall q :: 0 <= q < s.n ==> upTo[q] >= -1
    ensures WF(s.(upTo := upTo))
  {
  }

  lemma PendingShrinks(s: RState, x: InstId)
    requires WF(s) && x in s.space && s.space[x].status != Committed && Pending(Decide(s, x)) == Pending(s) - {x}
    ensures |Pending(Decide(s, x))| < |Pending(s)|
  {
    assert x in Pending(s);
  }

  lemma BlankWF(s: RState, x: InstId, cmds: seq<Command>, t: RState)
    requires WF(s) && x == InstId(s.id, s.crt[s.id] + 1)
    requires t == s.(crt := s.crt[s.id := x.inst], space := s.space[x := NewInstance(s.n).(cmds := cmds, status := PreAccepted)])
    ensures WF(t)
  {
    forall q | 0 <= q < t.n ensures WFRow(t.space, q, t.conflicts[q]) {
      assert WFRow(s.space, q, s.conflicts[q]);
    }
  }

  lemma SendKeepsWF(s: RState, t: RState)
    requires WF(s) && t == s.(out := t.out)
    ensures WF(t)
  {
  }

  // Parking before or after storing the dependency is the same.
  lemma ParkCommutes(s0: RState, m: Msg, dep: int, reached: bool, t: RState)
    requires WF(s0) && WFMsg(m, s0.n) && m.Id() in s0.space && m.rep > s0.id
    requires var v := Priority(s0, m, m.deps[s0.id], 0);
             && dep == v.dep && reached == v.waitFor.None?
             && t == SetDep(if reached then s0 else Park(s0, v.waitFor.value, m), m.Id(), s0.id, dep)
    ensures var v := Priority(s0, m, m.deps[s0.id], 0); var s1 := SetDep(s0, m.Id(), s0.id, v.dep);
            t == if reached then s1 else Park(s1, v.waitFor.value, m)
  {
    hide Priority, WF;
  }
}
