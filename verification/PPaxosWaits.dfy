/** Parking over whole runs of PPaxos: which delivered proposals are parked and where, and what the
    vote on an answered one leaves unordered. */
module PPaxosWaits {
  import opened Options
  import opened PPaxos
  import opened PPaxosCoverage
  import opened PPaxosCycle
  import opened PPaxosGlobal
  import opened PPaxosHandler
  import opened PPaxosLocal
  import opened PPaxosParking
  import opened PPaxosTable
  import opened Store

  // ---- A blank instance changes nothing ----

  ghost predicate SameView(s: RState, t: RState) {
    && t.id == s.id && t.n == s.n && t.conflicts == s.conflicts
    && (forall y <- s.space :: y in t.space && t.space[y] == s.space[y])
    && forall y :: t.Has(y) <==> s.Has(y)
  }

  lemma TouchView(s: RState, x: InstId)
    ensures SameView(s, Touch(s, x))
  {
  }

  lemma DecisiveView(s: RState, t: RState, m: Msg, c: Command)
    requires WF(s) && WF(t) && WFMsg(m, s.n) && SameView(s, t)
    ensures OwnConflict(t, c) == OwnConflict(s, c) && (Decisive(t, m, c) <==> Decisive(s, m, c))
  {
    assert WFRow(s.space, s.id, s.conflicts[s.id]);
    hide Interferes;
  }

  lemma DepView(s: RState, t: RState, m: Msg, l: nat, dep: int)
    requires WF(s) && WF(t) && WFMsg(m, s.n) && SameView(s, t) && l <= |m.cmds|
    ensures DepSoFar(t, m, l, dep) <==> DepSoFar(s, m, l, dep)
  {
    forall i | 0 <= i < |m.cmds|
      ensures OwnConflict(t, m.cmds[i]) == OwnConflict(s, m.cmds[i]) && (Decisive(t, m, m.cmds[i]) <==> Decisive(s, m, m.cmds[i]))
    {
      DecisiveView(s, t, m, m.cmds[i]);
    }
    hide Decisive, OwnConflict, WFRow, WFInstance;
  }

  lemma FirstView(s: RState, t: RState, c: Command, low: seq<int>, high: seq<int>, p: nat, k: InstId)
    requires SameView(s, t)
    ensures FirstStop(t, c, low, high, p, k) <==> FirstStop(s, c, low, high, p, k)
  {
    hide Interferes, Between;
    assert forall j :: Stops(t, c, j) <==> Stops(s, c, j);
  }

  lemma UndecidedView(s: RState, t: RState, m: Msg, c: Command, dep: int)
    requires WF(s) && WF(t) && WFMsg(m, s.n) && SameView(s, t)
    ensures OwnConflict(t, c) == OwnConflict(s, c) && (Undecided(t, m, c, dep) <==> Undecided(s, m, c, dep))
    ensures Undecided(s, m, c, dep) ==>
              var y := InstId(s.id, OwnConflict(s, c)); y in s.space && y in t.space && t.space[y] == s.space[y]
  {
    assert WFRow(s.space, s.id, s.conflicts[s.id]);
  }

  lemma WaitsView(s: RState, t: RState, m: Msg, l: nat, k: InstId)
    requires WF(s) && WF(t) && WFMsg(m, s.n) && SameView(s, t) && l < |m.cmds|
    ensures WaitsAt(t, m, l, k) <==> WaitsAt(s, m, l, k)
  {
    var c := m.cmds[l];
    forall dep
      ensures DepSoFar(t, m, l, dep) <==> DepSoFar(s, m, l, dep)
      ensures Undecided(t, m, c, dep) <==> Undecided(s, m, c, dep)
      ensures Undecided(s, m, c, dep) ==>
                var y := InstId(s.id, OwnConflict(s, c));
                && OwnConflict(t, c) == OwnConflict(s, c) && y in s.space && y in t.space && t.space[y] == s.space[y]
                && (FirstStop(t, c, m.deps, t.space[y].deps, m.rep + 1, k) <==> FirstStop(s, c, m.deps, s.space[y].deps, m.rep + 1, k))
    {
      DepView(s, t, m, l, dep);
      UndecidedView(s, t, m, c, dep);
      if Undecided(s, m, c, dep) {
        FirstView(s, t, c, m.deps, s.space[InstId(s.id, OwnConflict(s, c))].deps, m.rep + 1, k);
      }
    }
    assert t.Has(k) <==> s.Has(k);
    hide DepSoFar, Undecided, FirstStop, WF, WFMsg, OwnConflict;
  }

  // ---- The handler ----

  lemma JudgedAt(s: RState, m: Msg)
    requires WF(s) && WFMsg(m, s.n)
    ensures var v := Judge(s, m).1;
            if m.rep > s.id then
              && (forall k :: v.waitFor == Some(k) <==> Parks(s, m, k))
              && (v.waitFor.None? ==>
                    && DepSoFar(s, m, |m.cmds|, v.dep)
                    && forall l :: 0 <= l < |m.cmds| && OwnConflict(s, m.cmds[l]) > v.dep ==> Ordered(s, m, m.cmds[l]))
            else v.waitFor.None?
  {
    hide Priority, Parks, DepSoFar, Ordered, OwnConflict, WFRow, WFInstance;
    if m.rep > s.id {
      TouchWF(s, m.Id());
      var t := Touch(s, m.Id());
      TouchView(s, m.Id());
      ParkedExactly(t, m);
      forall k ensures Parks(t, m, k) <==> Parks(s, m, k) { ParksView(s, t, m, k); }
      if Priority(t, m, m.deps[t.id], 0).waitFor.None? {
        DepView(s, t, m, |m.cmds|, Priority(t, m, m.deps[t.id], 0).dep);
        forall l | 0 <= l < |m.cmds| && OwnConflict(s, m.cmds[l]) > Priority(t, m, m.deps[t.id], 0).dep ensures Ordered(s, m, m.cmds[l]) {
          DecisiveView(s, t, m, m.cmds[l]);
          AnswerOrders(t, m, l);
          OrderedView(s, t, m, m.cmds[l]);
        }
      }
    }
  }

  lemma ParksView(s: RState, t: RState, m: Msg, k: InstId)
    requires WF(s) && WF(t) && WFMsg(m, s.n) && SameView(s, t)
    ensures Parks(t, m, k) <==> Parks(s, m, k)
  {
    hide WaitsAt, WF, WFMsg;
    forall l, j | 0 <= l < |m.cmds| ensures WaitsAt(t, m, l, j) <==> WaitsAt(s, m, l, j) { WaitsView(s, t, m, l, j); }
    hide SameView;
  }

  lemma OrderedView(s: RState, t: RState, m: Msg, c: Command)
    requires WF(s) && WF(t) && WFMsg(m, s.n) && SameView(s, t) && Ordered(t, m, c)
    ensures Ordered(s, m, c)
  {
    UndecidedView(s, t, m, c, -1);
    assert WFRow(s.space, s.id, s.conflicts[s.id]);
    hide Interferes, Between, LatestConflict;
  }

  // ---- Runs ----

  // A delivered proposal is parked exactly when a command must wait, and in one slot under the instance
  // that command waits for. Otherwise it is answered, and the vote is the highest decisive conflict: every
  // later own conflict of its commands is ordered otherwise.
  lemma DeliveredProposal(n: nat, g: Cluster, to: nat, m: Msg)
    requires n >= 2 && Reachable(n, g) && Enabled(g, Deliver(to, m)) && m.cmds != [] && to < m.rep
    ensures WF(g.reps[to]) && g.reps[to].n == |g.reps| && to < |Next(g, Deliver(to, m)).reps|
    ensures var s, t := g.reps[to], Next(g, Deliver(to, m)).reps[to];
            && (forall k :: Parks(s, m, k) <==> exists i :: Slot(t.waitlist, k, i) && t.waitlist[k][i] == m)
            && (t.Has(m.Id()) <==> forall k :: !Parks(s, m, k))
    ensures var s, h := g.reps[to], Next(g, Deliver(to, m));
            h.reps[to].Has(m.Id()) ==>
              && (to, m.Id()) in h.tables.votes
              && var vote := h.tables.votes[(to, m.Id())];
                 && DepSoFar(s, m, |m.cmds|, vote)
                 && forall l :: 0 <= l < |m.cmds| && OwnConflict(s, m.cmds[l]) > vote ==> Ordered(s, m, m.cmds[l])
  {
    hide Reachable, GInv, Inv, VotesOK, Received, Step, Handle, Judge, VotesOf, Parks, DepSoFar, Ordered, OwnConflict, IsParked, AnsweredWith, WFRow, WFInstance;
    var s, h := g.reps[to], Next(g, Deliver(to, m));
    ReachableInv(n, g);
    GOpen(g);
    DeliverLocal(g, to, m);
    JudgedAt(s, m);
    var t := h.reps[to];
    WhereIs(s, g.tables, m, t);
    var v := Judge(s, m).1;
    if v.waitFor.Some? {
      assert Parks(s, m, v.waitFor.value);
    } else {
      VotesOfAt(t);
      VoteIs(t, m.Id(), v.dep);
    }
  }

  lemma VoteIs(t: RState, x: InstId, dep: int)
    requires WF(t) && AnsweredWith(t, x, dep) && t.id < x.rep
    ensures t.Has(x) && t.space[x].deps[t.id] == dep
  {
  }

  lemma WhereIs(s: RState, T: Tables, m: Msg, t: RState)
    requires WF(s) && WFMsg(m, s.n) && m.cmds != [] && t == Handle(s, m) && Inv(t, T, {})
    requires Judge(s, m).1.waitFor.None? ==> AnsweredWith(t, m.Id(), Judge(s, m).1.dep)
    ensures t.Has(m.Id()) <==> Judge(s, m).1.waitFor.None?
    ensures forall k :: Judge(s, m).1.waitFor == Some(k) <==> exists i :: Slot(t.waitlist, k, i) && t.waitlist[k][i] == m
  {
    hide Inv, Judge, Accept, HandleAll, Answer, WF, WFMsg;
    var (s1, v) := Judge(s, m);
    var w := t.waitlist;
    if v.waitFor.Some? {
      var k := v.waitFor.value;
      assert t == Park(s1, k, m);
      ParkedHasNot(s1, T, k, m);
      assert Slot(w, k, |w[k]| - 1) && w[k][|w[k]| - 1] == m;
      SlotIsUnique(t, T, k, |w[k]| - 1);
    }
    hide Handle, Park;
    forall k, i | Slot(w, k, i) && w[k][i] == m ensures v.waitFor == Some(k) {
      SlotIsUnique(t, T, k, i);
    }
  }

  lemma SlotIsUnique(t: RState, T: Tables, k: InstId, i: int)
    requires Inv(t, T, {}) && Slot(t.waitlist, k, i)
    ensures !t.Has(t.waitlist[k][i].Id())
    ensures forall k', i' :: Slot(t.waitlist, k', i') && t.waitlist[k'][i'] == t.waitlist[k][i] ==> k' == k
  {
    hide Core, OwnOK, Outbox, Genuine;
    assert ParkedMsg(t, T, t.waitlist[k][i]);
  }
}
