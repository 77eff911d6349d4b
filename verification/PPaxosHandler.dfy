/** The message handler of one PPaxos replica: it keeps the invariant through the nested
    retries of parked proposals, loses no proposal and answers each once. */
module PPaxosHandler {
  import opened Options
  import opened PPaxos
  import opened PPaxosLocal
  import opened Store

  // ---- Outbox ----

  // How many packets about x went to one peer.
  ghost function Sent(out: seq<Packet>, to: nat, x: InstId): nat
    decreases |out|
  {
    if out == [] then 0
    else
      var last := out[|out| - 1];
      Sent(out[..|out| - 1], to, x) + if last.to == to && last.msg.Id() == x then 1 else 0
  }

  // A proposal is what the table says; a vote is for an instance this replica has answered.
  ghost predicate Authored(s: RState, T: Tables, m: Msg) {
    && WFMsg(m, s.n) && m.sender == s.id && m.Id() in T.props
    && (if m.cmds != [] then
          m.rep == s.id && m.cmds == T.props[m.Id()].cmds && m.deps == T.props[m.Id()].deps
        else
          m.rep != s.id && s.Has(m.Id()) &&
          (s.id < m.rep ==> |s.space[m.Id()].deps| == s.n && m.senderDep == s.space[m.Id()].deps[s.id]))
  }

  // Exactly one packet per peer for every instance proposed or answered here, and nothing else.
  ghost predicate Outbox(s: RState, T: Tables, busy: set<InstId>) {
    && (forall p <- s.out :: p.to < s.n && p.to != s.id && Authored(s, T, p.msg))
    && (forall to: nat, x: InstId ::
          Sent(s.out, to, x) == if to < s.n && to != s.id && s.Has(x) && x !in busy then 1 else 0)
  }

  // ---- Wait list ----

  predicate Slot(w: map<InstId, seq<Msg>>, k: InstId, i: int) { k in w && 0 <= i < |w[k]| }

  ghost predicate IsParked(w: map<InstId, seq<Msg>>, y: InstId) {
    exists k, i :: Slot(w, k, i) && w[k][i].Id() == y
  }

  // Parked proposals are unanswered, wait for an instance without a command, and sit in one slot each.
  ghost predicate ParkedOK(s: RState, T: Tables) {
    && (forall k <- s.waitlist :: k.rep != s.id && !s.Has(k))
    && (forall k, i :: Slot(s.waitlist, k, i) ==> ParkedMsg(s, T, s.waitlist[k][i]))
    && UniqueSlots(s.waitlist)
  }

  ghost predicate ParkedMsg(s: RState, T: Tables, m: Msg) {
    Genuine(m, T, s.n, s.id) && m.cmds != [] && m.rep > s.id && m.Id() in s.space && !s.Has(m.Id())
  }

  ghost predicate UniqueSlots(w: map<InstId, seq<Msg>>) {
    forall k, i, k', i' :: Slot(w, k, i) && Slot(w, k', i') && w[k][i].Id() == w[k'][i'].Id() ==> k == k' && i == i'
  }

  // ---- The whole invariant ----

  ghost predicate OwnOK(s: RState, T: Tables) {
    forall x: InstId :: x.rep == s.id ==> (x in T.props <==> s.Has(x))
  }

  ghost predicate Core(s: RState, T: Tables, busy: set<InstId>, stale: set<InstId>) {
    Base(s, T) && Untallied(s, busy) && Tallied(s, stale) && Live(s, stale)
  }

  ghost predicate Inv(s: RState, T: Tables, busy: set<InstId>) {
    && Core(s, T, busy, busy) && OwnOK(s, T) && ParkedOK(s, T) && Outbox(s, T, busy)
    && (forall x <- busy :: s.Has(x))
  }

  // How a handler moves a replica on: answers and commits stand, and proposals are conserved.
  ghost predicate Step(s: RState, t: RState, ids: set<InstId>) {
    && t.id == s.id && t.n == s.n && s.out <= t.out && s.log <= t.log
    && (forall x :: s.Has(x) ==> t.Has(x) && SameAnswer(s, t, x))
    && (forall x :: s.Done(x) ==> t.Done(x) && t.space[x].deps == s.space[x].deps)
    && (forall x :: t.Has(x) && !s.Has(x) ==> x in ids || IsParked(s.waitlist, x))
    && (forall x :: IsParked(t.waitlist, x) ==> x in ids || IsParked(s.waitlist, x))
    && (forall x :: x in ids || IsParked(s.waitlist, x) ==> t.Has(x) || IsParked(t.waitlist, x))
  }

  predicate SameAnswer(s: RState, t: RState, x: InstId)
    requires s.Has(x) && t.Has(x)
  {
    && t.space[x].cmds == s.space[x].cmds
    && (s.id < x.rep && s.id < |s.space[x].deps| ==>
          s.id < |t.space[x].deps| && t.space[x].deps[s.id] == s.space[x].deps[s.id])
  }

  lemma StepTrans(s: RState, t: RState, u: RState, A: set<InstId>, B: set<InstId>)
    requires Step(s, t, A) && Step(t, u, B)
    ensures Step(s, u, A + B)
  {
    hide IsParked;
    forall x | s.Has(x) ensures u.Has(x) && SameAnswer(s, u, x) {
      assert t.Has(x) && SameAnswer(s, t, x) && SameAnswer(t, u, x);
    }
  }

  // ---- Changing one instance ----

  ghost predicate OneChanged(s: RState, t: RState, x: InstId) {
    && t.id == s.id && t.n == s.n && t.upTo == s.upTo && t.log == s.log && |t.crt| == |s.crt|
    && (forall q :: 0 <= q < |s.crt| ==> s.crt[q] <= t.crt[q])
    && t.space.Keys == s.space.Keys + {x}
    && (forall y <- s.space :: y != x ==> t.space[y] == s.space[y])
    && s.Done(x) == t.Done(x) && (s.Done(x) ==> t.space[x].deps == s.space[x].deps)
  }

  lemma PointBase(s: RState, t: RState, T: Tables, x: InstId)
    requires Base(s, T) && WF(t) && OneChanged(s, t, x) && InstOK(t, T, x)
    ensures Base(t, T)
  {
    hide RowsOK, LogOK, TablesOK, InstOK, WF;
    PointDone(s, t, x);
    RowsLogKept(s, t);
    forall y | y in t.space ensures InstOK(t, T, y) {
      if y != x { OtherInst(s, t, T, y); }
    }
  }

  lemma PointDone(s: RState, t: RState, x: InstId)
    requires OneChanged(s, t, x)
    ensures forall y :: t.Done(y) <==> s.Done(y)
    ensures forall y :: s.Done(y) ==> y in t.space && t.space[y].deps == s.space[y].deps
  {
  }

  lemma OtherInst(s: RState, t: RState, T: Tables, y: InstId)
    requires WF(s) && WF(t) && TablesOK(T, s.n) && t.id == s.id && t.n == s.n
    requires forall q :: 0 <= q < |s.crt| ==> s.crt[q] <= t.crt[q]
    requires y in s.space && y in t.space && t.space[y] == s.space[y] && InstOK(s, T, y)
    ensures InstOK(t, T, y)
  {
    hide TablesOK, WFRow;
  }

  lemma PointTallies(s: RState, t: RState, x: InstId, busy: set<InstId>, busy': set<InstId>, stale: set<InstId>)
    requires WF(s) && WF(t) && OneChanged(s, t, x)
    requires Untallied(s, busy) && Tallied(s, stale) && Live(s, stale)
    requires busy' <= busy + {x}
    requires x in busy' || t.space[x].cmds == [] ==> t.space[x].preAcceptOKs == 0
    ensures Untallied(t, busy') && Tallied(t, stale + {x}) && Live(t, stale + {x})
  {
    hide Tally;
    forall y | y in t.space && y !in stale + {x} && t.space[y].cmds != [] ensures !CanCommit(t, y) {
      assert t.space[y] == s.space[y];
      assert CanCommit(t, y) == CanCommit(s, y);
    }
    hide CanCommit, WF;
  }

  // A change to an instance without a command: nothing is answered or parked.
  lemma QuietKeeps(s: RState, t: RState, T: Tables, x: InstId, busy: set<InstId>)
    requires Inv(s, T, busy) && WF(t) && OneChanged(s, t, x) && InstOK(t, T, x)
    requires t.waitlist == s.waitlist && t.out == s.out
    requires !s.Has(x) && !t.Has(x) && t.space[x].preAcceptOKs == 0
    ensures Inv(t, T, busy) && Step(s, t, {}) && (forall y :: t.Has(y) <==> s.Has(y))
  {
    hide InstOK, WF, Core, Base, ParkedOK, Outbox, IsParked;
    QuietCore(s, t, T, x, busy);
    PointDone(s, t, x);
    PointHas(s, t, x);
    hide OneChanged;
    QuietOut(s, t, T, busy);
    QuietParked(s, t, T);
    assert Step(s, t, {}) by { hide Inv; }
  }

  lemma PointHas(s: RState, t: RState, x: InstId)
    requires OneChanged(s, t, x) && !s.Has(x) && !t.Has(x)
    ensures forall y :: t.Has(y) <==> s.Has(y)
    ensures forall y :: s.Has(y) ==> y in t.space && t.space[y] == s.space[y]
    ensures s.space.Keys <= t.space.Keys && t.id == s.id && t.n == s.n && t.log == s.log
  {
  }

  lemma QuietCore(s: RState, t: RState, T: Tables, x: InstId, busy: set<InstId>)
    requires Core(s, T, busy, busy) && WF(t) && OneChanged(s, t, x) && InstOK(t, T, x)
    requires !s.Has(x) && !t.Has(x) && t.space[x].preAcceptOKs == 0
    ensures Core(t, T, busy, busy)
  {
    PointBase(s, t, T, x);
    hide InstOK, TablesOK, RowsOK, LogOK;
    PointTallies(s, t, x, busy, busy, busy);
    hide Base, OneChanged;
    QuietStale(t, x, busy);
    hide Untallied, Tallied, Live, WF;
  }

  lemma QuietStale(t: RState, x: InstId, busy: set<InstId>)
    requires WF(t) && Tallied(t, busy + {x}) && Live(t, busy + {x}) && !t.Has(x)
    ensures Tallied(t, busy) && Live(t, busy)
  {
    hide Tally, CanCommit, WF;
  }

  ghost predicate OwnColumnKept(s: RState, t: RState) {
    && t.id == s.id && t.n == s.n
    && (forall y :: t.Has(y) <==> s.Has(y))
    && (forall y :: s.Has(y) ==> y in t.space && SameAnswer(s, t, y) && |t.space[y].deps| == |s.space[y].deps|)
  }

  lemma QuietOut(s: RState, t: RState, T: Tables, busy: set<InstId>)
    requires Outbox(s, T, busy) && t.out == s.out && OwnColumnKept(s, t)
    ensures Outbox(t, T, busy)
  {
    forall p | p in t.out ensures p.to < t.n && p.to != t.id && Authored(t, T, p.msg) {
      assert Authored(s, T, p.msg);
      if s.Has(p.msg.Id()) { assert SameAnswer(s, t, p.msg.Id()); }
    }
  }

  lemma QuietParked(s: RState, t: RState, T: Tables)
    requires ParkedOK(s, T) && t.waitlist == s.waitlist && t.id == s.id && t.n == s.n
    requires forall y :: t.Has(y) <==> s.Has(y)
    requires s.space.Keys <= t.space.Keys
    ensures ParkedOK(t, T)
  {
    hide Genuine, UniqueSlots;
    forall k, i | Slot(t.waitlist, k, i) ensures ParkedMsg(t, T, t.waitlist[k][i]) {
      assert ParkedMsg(s, T, s.waitlist[k][i]);
    }
  }

  // The invariant's clauses, for proofs that keep Inv itself folded.
  lemma Open(s: RState, T: Tables, busy: set<InstId>)
    requires Inv(s, T, busy)
    ensures WF(s) && TablesOK(T, s.n) && Base(s, T)
    ensures Core(s, T, busy, busy) && OwnOK(s, T) && ParkedOK(s, T) && Outbox(s, T, busy)
    ensures Untallied(s, {})
  {
  }

  lemma TouchKeeps(s: RState, T: Tables, x: InstId, busy: set<InstId>)
    requires Inv(s, T, busy) && x in T.props && WF(s) && x.rep < s.n
    ensures Inv(Touch(s, x), T, busy) && Step(s, Touch(s, x), {}) && x in Touch(s, x).space
    ensures forall y :: Touch(s, x).Has(y) <==> s.Has(y)
  {
    Open(s, T, busy);
    hide Inv, Core, ParkedOK, Outbox, Base, Untallied, InstOK, TablesOK, Step, IsParked;
    if x !in s.space {
      var t := Touch(s, x);
      TouchWF(s, x);
      NewInstOK(s, t, T, x);
      TouchChanges(s, x);
      hide WF, OneChanged;
      QuietKeeps(s, t, T, x, busy);
    } else {
      StayStep(s);
    }
  }

  lemma TouchChanges(s: RState, x: InstId)
    requires x !in s.space
    ensures OneChanged(s, Touch(s, x), x)
  {
  }

  lemma StayStep(s: RState)
    ensures Step(s, s, {})
  {
  }

  lemma NewInstOK(s: RState, t: RState, T: Tables, x: InstId)
    requires WF(t) && TablesOK(T, t.n) && x in T.props && x.rep != t.id && x in t.space && t.space[x] == NewInstance(t.n)
    ensures InstOK(t, T, x)
  {
  }

  lemma SetDepKeeps(s: RState, T: Tables, x: InstId, d: int, busy: set<InstId>)
    requires WF(s) && Inv(s, T, busy) && x in s.space && !s.Has(x) && s.id < x.rep && d >= -1
    ensures Inv(SetDep(s, x, s.id, d), T, busy) && Step(s, SetDep(s, x, s.id, d), {})
    ensures forall y :: SetDep(s, x, s.id, d).Has(y) <==> s.Has(y)
  {
    Open(s, T, busy);
    hide Inv, Core, ParkedOK, Outbox, Base, InstOK, TablesOK, Step, IsParked;
    var t := SetDep(s, x, s.id, d);
    SetDepWF(s, x, s.id, d);
    SetDepInst(s, T, x, d);
    DoneHas(s, T, x);
    SetDepChanges(s, x, d);
    hide WF, OneChanged, Untallied;
    QuietKeeps(s, t, T, x, busy);
  }

  lemma SetDepChanges(s: RState, x: InstId, d: int)
    requires WF(s) && x in s.space && !s.Has(x) && !s.Done(x)
    ensures OneChanged(s, SetDep(s, x, s.id, d), x)
    ensures Untallied(s, {}) ==> SetDep(s, x, s.id, d).space[x].preAcceptOKs == 0
  {
    hide WFRow;
  }

  lemma SetDepInst(s: RState, T: Tables, x: InstId, d: int)
    requires Base(s, T) && x in s.space && !s.Has(x) && s.id < x.rep && d >= -1
    requires WF(SetDep(s, x, s.id, d))
    ensures InstOK(SetDep(s, x, s.id, d), T, x)
  {
    hide RowsOK, LogOK, Tally, WFRow, WFMsg, ColumnsOK, TablesOK;
    assert InstOK(s, T, x);
    OwnColumn(s.id, s.n, s.space[x], T, x, d);
  }

  lemma OwnColumn(id: nat, n: nat, e: Instance, T: Tables, x: InstId, d: int)
    requires WFInstance(e, n) && TablesOK(T, n) && ColumnsOK(id, n, e, T, x) && e.cmds == [] && id < x.rep && id < n && d >= -1
    ensures WFInstance(e.(deps := e.deps[id := d]), n) && ColumnsOK(id, n, e.(deps := e.deps[id := d]), T, x)
  {
    assert ProposalOK(T.props[x], x, n);
  }

  lemma DoneHas(s: RState, T: Tables, x: InstId)
    requires Base(s, T)
    ensures s.Done(x) ==> s.Has(x)
  {
    hide RowsOK, LogOK;
    if x in s.space { assert InstOK(s, T, x); }
  }

  // ---- Changes outside the instance space ----

  lemma SameSpaceCore(s: RState, t: RState, T: Tables, busy: set<InstId>, stale: set<InstId>)
    requires Core(s, T, busy, stale) && WF(t)
    requires t.id == s.id && t.n == s.n && t.space == s.space && t.crt == s.crt && t.upTo == s.upTo && t.log == s.log
    ensures Core(t, T, busy, stale)
  {
    SameSpaceBase(s, t, T);
    hide Base;
    SameSpaceTallies(s, t, stale);
    hide Tallied, Live, WF;
  }

  lemma SameSpaceBase(s: RState, t: RState, T: Tables)
    requires Base(s, T) && WF(t)
    requires t.id == s.id && t.n == s.n && t.space == s.space && t.crt == s.crt && t.upTo == s.upTo && t.log == s.log
    ensures Base(t, T)
  {
    RowsLogKept(s, t) by { hide InstOK, TablesOK; }
    hide RowsOK, LogOK, TablesOK, InstOK, WF;
    forall y | y in t.space ensures InstOK(t, T, y) {
      OtherInst(s, t, T, y);
    }
  }

  lemma SameSpaceTallies(s: RState, t: RState, stale: set<InstId>)
    requires WF(s) && WF(t) && Tallied(s, stale) && Live(s, stale)
    requires t.n == s.n && t.space == s.space && t.upTo == s.upTo
    ensures Tallied(t, stale) && Live(t, stale)
  {
    hide Tally;
    forall y | y in t.space ensures CanCommit(t, y) == CanCommit(s, y) {
    }
    hide CanCommit, WF;
  }

  // ---- Parking ----

  lemma ParkSlots(s: RState, k: InstId, m: Msg)
    ensures var w := Park(s, k, m).waitlist; var n := if k in s.waitlist then |s.waitlist[k]| else 0;
            && Slot(w, k, n) && w[k][n] == m
            && (forall k', i' :: Slot(w, k', i') <==> Slot(s.waitlist, k', i') || (k' == k && i' == n))
            && (forall k', i' :: Slot(s.waitlist, k', i') ==> w[k'][i'] == s.waitlist[k'][i'])
  {
  }

  lemma ParkKeeps(s: RState, T: Tables, k: InstId, m: Msg, busy: set<InstId>)
    requires Inv(s, T, busy) && ParkedMsg(s, T, m) && !IsParked(s.waitlist, m.Id()) && !s.Has(k) && k.rep != s.id
    ensures Inv(Park(s, k, m), T, busy) && Step(s, Park(s, k, m), {m.Id()})
  {
    hide Core, Base, Untallied, TablesOK, WF, InstOK, Genuine, Outbox, ParkedOK, IsParked, Step, WFMsg;
    var t := Park(s, k, m);
    Open(s, T, busy);
    GenuineWF(m, T, s.n, s.id);
    ParkWF(s, k, m);
    ParkParked(s, T, k, m);
    ParkStep(s, k, m);
    SameSpaceCore(s, t, T, busy, busy);
    hide ParkedMsg;
    QuietOut(s, t, T, busy);
  }

  lemma ParkParked(s: RState, T: Tables, k: InstId, m: Msg)
    requires ParkedOK(s, T) && ParkedMsg(s, T, m) && !IsParked(s.waitlist, m.Id()) && !s.Has(k) && k.rep != s.id
    ensures ParkedOK(Park(s, k, m), T)
  {
    var t := Park(s, k, m);
    ParkSlots(s, k, m);
    assert t.space == s.space && t.id == s.id && t.n == s.n && t.waitlist.Keys == s.waitlist.Keys + {k};
    hide Genuine, Park, Slot;
    forall k', i' | Slot(t.waitlist, k', i') ensures ParkedMsg(t, T, t.waitlist[k'][i']) {
      if Slot(s.waitlist, k', i') { assert ParkedMsg(s, T, s.waitlist[k'][i']); }
    }
  }

  lemma ParkStep(s: RState, k: InstId, m: Msg)
    ensures Step(s, Park(s, k, m), {m.Id()})
  {
    var t := Park(s, k, m);
    ParkSlots(s, k, m);
    forall x ensures IsParked(t.waitlist, x) <==> x == m.Id() || IsParked(s.waitlist, x) {
      if IsParked(s.waitlist, x) {
        var k', i' :| Slot(s.waitlist, k', i') && s.waitlist[k'][i'].Id() == x;
        assert Slot(t.waitlist, k', i');
      }
    }
    hide IsParked, Slot;
  }

  lemma ScanRowMissing(s: RState, c: Command, k: nat, j: nat, hi: int)
    ensures var r := ScanRow(s, c, k, j, hi); r.Missing? ==> !s.Has(r.at) && r.at.rep == k
    decreases hi - j
  {
  }

  lemma ScanMissing(s: RState, c: Command, deps: seq<int>, own: seq<int>, k: nat)
    requires |deps| == |own| == s.n && forall j :: 0 <= j < s.n ==> deps[j] >= -1
    ensures var r := ScanRows(s, c, deps, own, k); r.Missing? ==> !s.Has(r.at) && r.at.rep >= k
    decreases s.n - k
  {
    if k < s.n {
      ScanRowMissing(s, c, k, deps[k] + 1, own[k]);
    }
  }

  lemma PriorityWaits(s: RState, m: Msg, dep: int, i: nat)
    requires WF(s) && WFMsg(m, s.n) && dep >= -1
    ensures var v := Priority(s, m, dep, i);
            v.waitFor.Some? ==> !s.Has(v.waitFor.value) && v.waitFor.value.rep > m.rep
    decreases |m.cmds| - i
  {
    if i < |m.cmds| {
      var c := m.cmds[i];
      var d := LatestConflict(s.conflicts[s.id], c);
      PriorityWaits(s, m, dep, i + 1);
      if d > dep {
        assert c.key in s.conflicts[s.id];
        var own := s.space[InstId(s.id, d)];
        ScanMissing(s, c, m.deps, own.deps, m.rep + 1);
        PriorityWaits(s, m, d, i + 1);
      }
    }
  }

  // ---- Answering ----

  ghost predicate Fresh(s: RState, T: Tables, m: Msg) {
    && Genuine(m, T, s.n, s.id) && m.cmds != [] && m.rep != s.id
    && !s.Has(m.Id()) && !IsParked(s.waitlist, m.Id())
  }

  ghost predicate AllFresh(s: RState, T: Tables, ws: seq<Msg>) {
    && (forall w <- ws :: Fresh(s, T, w))
    && (forall i, j :: 0 <= i < j < |ws| ==> ws[i].Id() != ws[j].Id())
  }

  ghost function Ids(ws: seq<Msg>): set<InstId> {
    set w <- ws :: w.Id()
  }

  // Facts about the state in which a proposal is accepted.
  ghost predicate Acceptable(s: RState, T: Tables, m: Msg) {
    && Fresh(s, T, m) && m.Id() in s.space
    && (s.id < m.rep ==> |s.space[m.Id()].deps| == s.n && s.space[m.Id()].deps[s.id] >= T.props[m.Id()].deps[s.id])
  }

  // Filling the unknown columns from the proposal leaves every vote in place.
  lemma FilledColumns(id: nat, n: nat, e: Instance, T: Tables, x: InstId, m: Msg)
    requires WFInstance(e, n) && TablesOK(T, n) && ColumnsOK(id, n, e, T, x) && e.cmds == [] && id < n
    requires |m.deps| == n && m.deps == T.props[x].deps && id != x.rep
    requires id < x.rep ==> e.deps[id] >= T.props[x].deps[id]
    ensures var f := e.(deps := FillDeps(e.deps, m.deps), cmds := T.props[x].cmds, status := PreAcceptedEq);
            WFInstance(f, n) && ColumnsOK(id, n, f, T, x) && (id < x.rep ==> f.deps[id] == e.deps[id])
  {
    assert ProposalOK(T.props[x], x, n);
  }

  lemma AcceptInst(s: RState, T: Tables, m: Msg)
    requires Base(s, T) && Acceptable(s, T, m) && WF(Accept(s, m))
    ensures InstOK(Accept(s, m), T, m.Id())
    ensures s.id < m.rep ==> s.id < |Accept(s, m).space[m.Id()].deps|
    ensures s.id < m.rep ==> Accept(s, m).space[m.Id()].deps[s.id] == s.space[m.Id()].deps[s.id]
    ensures !Accept(s, m).Done(m.Id()) && Accept(s, m).Has(m.Id())
  {
    hide RowsOK, LogOK, Tally, WFRow, IsParked, Record, HigherReached, FillDeps, ColumnsOK;
    assert InstOK(s, T, m.Id());
    FilledColumns(s.id, s.n, s.space[m.Id()], T, m.Id(), m);
    hide TablesOK;
  }

  lemma AcceptChanges(s: RState, m: Msg)
    requires WF(s) && WFMsg(m, s.n) && m.Id() in s.space && !s.Done(m.Id()) && m.cmds != []
    ensures OneChanged(s, Accept(s, m), m.Id())
    ensures Accept(s, m).space[m.Id()].preAcceptOKs == s.space[m.Id()].preAcceptOKs
  {
    hide WFRow, Record, FillDeps;
  }

  lemma AcceptCore(s: RState, T: Tables, m: Msg, busy: set<InstId>)
    requires Core(s, T, busy, busy) && Acceptable(s, T, m) && Untallied(s, {})
    ensures WF(Accept(s, m)) && Core(Accept(s, m), T, busy + {m.Id()}, busy + {m.Id()})
    ensures s.id < m.rep ==> s.id < |Accept(s, m).space[m.Id()].deps|
    ensures s.id < m.rep ==> Accept(s, m).space[m.Id()].deps[s.id] == s.space[m.Id()].deps[s.id]
    ensures Accept(s, m).Has(m.Id()) && OneChanged(s, Accept(s, m), m.Id())
  {
    var t := Accept(s, m);
    AcceptWF(s, m);
    AcceptInst(s, T, m);
    hide TablesOK, InstOK, RowsOK, LogOK, IsParked, Fresh;
    DoneHas(s, T, m.Id());
    AcceptChanges(s, m);
    assert s.space[m.Id()].preAcceptOKs == 0;
    hide Accept, WF, OneChanged, Untallied, Tallied, Live;
    PointBase(s, t, T, m.Id());
    PointTallies(s, t, m.Id(), busy, busy + {m.Id()}, busy);
  }

  lemma AcceptKeeps(s: RState, T: Tables, m: Msg, busy: set<InstId>)
    requires Inv(s, T, busy) && Acceptable(s, T, m) && WF(s) && WFMsg(m, s.n) && m.Id() in s.space
    ensures WF(Accept(s, m)) && Inv(Accept(s, m), T, busy + {m.Id()})
    ensures AllFresh(Accept(s, m), T, Waiting(s, m.Id()))
    ensures Accept(s, m).Has(m.Id()) && OneChanged(s, Accept(s, m), m.Id())
    ensures s.id < m.rep ==> s.id < |Accept(s, m).space[m.Id()].deps|
    ensures s.id < m.rep ==> Accept(s, m).space[m.Id()].deps[s.id] == s.space[m.Id()].deps[s.id]
  {
    hide Core, Base, Untallied, TablesOK, WF, InstOK, Outbox, ParkedOK, OneChanged, IsParked, AllFresh, Genuine;
    var t := Accept(s, m);
    var x := m.Id();
    Open(s, T, busy);
    AcceptCore(s, T, m, busy);
    AcceptLists(s, m);
    AcceptHas(s, t, x);
    hide Accept, WFMsg;
    AcceptOut(s, t, T, x, busy);
    AcceptParked(s, t, T, x);
  }

  lemma GenuineWF(m: Msg, T: Tables, n: nat, to: nat)
    requires Genuine(m, T, n, to)
    ensures WFMsg(m, n) && m.Id() in T.props && m.sender != to && to < n
  {
  }

  lemma AcceptLists(s: RState, m: Msg)
    requires WF(s) && WFMsg(m, s.n) && m.Id() in s.space
    ensures Accept(s, m).out == s.out && Accept(s, m).waitlist == s.waitlist - {m.Id()}
  {
  }

  lemma AcceptHas(s: RState, t: RState, x: InstId)
    requires OneChanged(s, t, x) && t.Has(x)
    ensures forall y :: t.Has(y) <==> s.Has(y) || y == x
    ensures forall y :: s.Has(y) && y != x ==> y in t.space && t.space[y] == s.space[y]
    ensures s.space.Keys <= t.space.Keys && t.id == s.id && t.n == s.n && t.log == s.log
  {
  }

  lemma AcceptOut(s: RState, t: RState, T: Tables, x: InstId, busy: set<InstId>)
    requires Outbox(s, T, busy) && t.out == s.out && t.id == s.id && t.n == s.n && !s.Has(x)
    requires forall y :: t.Has(y) <==> s.Has(y) || y == x
    requires forall y :: s.Has(y) && y != x ==> y in t.space && t.space[y] == s.space[y]
    ensures Outbox(t, T, busy + {x})
  {
    forall p | p in t.out ensures p.to < t.n && p.to != t.id && Authored(t, T, p.msg) {
      assert Authored(s, T, p.msg);
    }
  }

  lemma AcceptParked(s: RState, t: RState, T: Tables, x: InstId)
    requires ParkedOK(s, T) && t.waitlist == s.waitlist - {x} && t.id == s.id && t.n == s.n
    requires !s.Has(x) && !IsParked(s.waitlist, x)
    requires forall y :: t.Has(y) <==> s.Has(y) || y == x
    requires s.space.Keys <= t.space.Keys
    ensures ParkedOK(t, T) && AllFresh(t, T, Waiting(s, x))
  {
    hide Genuine;
    forall k, i | Slot(t.waitlist, k, i)
      ensures Slot(s.waitlist, k, i) && k != x && t.waitlist[k][i] == s.waitlist[k][i]
    {
    }
    forall k, i | Slot(t.waitlist, k, i) ensures ParkedMsg(t, T, t.waitlist[k][i]) {
      assert ParkedMsg(s, T, s.waitlist[k][i]);
    }
    var ws := Waiting(s, x);
    forall i | 0 <= i < |ws| ensures Fresh(t, T, ws[i]) {
      assert Slot(s.waitlist, x, i);
      assert ParkedMsg(s, T, s.waitlist[x][i]);
    }
    forall i, j | 0 <= i < j < |ws| ensures ws[i].Id() != ws[j].Id() {
      assert Slot(s.waitlist, x, i) && Slot(s.waitlist, x, j);
    }
  }

  // Accepting and then retrying what was parked behind it, as one step.
  lemma AcceptRetryStep(s: RState, m: Msg, u: RState)
    requires WF(s) && WFMsg(m, s.n) && m.Id() in s.space && OneChanged(s, Accept(s, m), m.Id())
    requires Accept(s, m).Has(m.Id()) && !s.Has(m.Id())
    requires Step(Accept(s, m), u, Ids(Waiting(s, m.Id())))
    ensures Step(s, u, {m.Id()})
  {
    var t := Accept(s, m);
    var x := m.Id();
    AcceptLists(s, m);
    AcceptHas(s, t, x);
    PointDone(s, t, x);
    hide Accept, OneChanged, WF;
    forall y ensures IsParked(s.waitlist, y) <==> IsParked(t.waitlist, y) || y in Ids(Waiting(s, x)) {
      SplitParked(s.waitlist, x, y);
    }
    hide IsParked, Ids;
    assert forall y :: s.Has(y) ==> t.Has(y) && SameAnswer(s, t, y);
  }

  lemma SplitParked(w: map<InstId, seq<Msg>>, x: InstId, y: InstId)
    ensures IsParked(w, y) <==> IsParked(w - {x}, y) || y in Ids(if x in w then w[x] else [])
  {
    var v := w - {x};
    var ws := if x in w then w[x] else [];
    if IsParked(w, y) {
      var k, i :| Slot(w, k, i) && w[k][i].Id() == y;
      if k == x { assert w[k][i] in ws; } else { assert Slot(v, k, i); }
    }
    if IsParked(v, y) {
      var k, i :| Slot(v, k, i) && v[k][i].Id() == y;
      assert Slot(w, k, i);
    }
    if y in Ids(ws) {
      var i :| 0 <= i < |ws| && ws[i].Id() == y;
      assert Slot(w, x, i);
    }
  }

  // ---- Replying ----

  lemma SentConcat(a: seq<Packet>, b: seq<Packet>, to: nat, x: InstId)
    ensures Sent(a + b, to, x) == Sent(a, to, x) + Sent(b, to, x)
    decreases |b|
  {
    if b == [] {
      assert a + b == a;
    } else {
      assert (a + b)[..|a + b| - 1] == a + b[..|b| - 1];
      SentConcat(a, b[..|b| - 1], to, x);
    }
  }

  lemma SentBroadcast(s: RState, m: Msg, peers: nat, to: nat, x: InstId)
    ensures Sent(Broadcast(s.id, m, peers), to, x) == if to < peers && to != s.id && x == m.Id() then 1 else 0
    decreases peers
  {
    if peers > 0 {
      var prev := Broadcast(s.id, m, peers - 1);
      SentBroadcast(s, m, peers - 1, to, x);
      if peers - 1 == s.id {
        assert prev + [] == prev;
      } else {
        assert (prev + [Packet(peers - 1, m)])[..|prev|] == prev;
      }
    }
  }

  lemma BroadcastPackets(s: RState, m: Msg, peers: nat)
    ensures forall p <- Broadcast(s.id, m, peers) :: p.msg == m && p.to < peers && p.to != s.id
    decreases peers
  {
    if peers > 0 { BroadcastPackets(s, m, peers - 1); }
  }

  lemma SendOut(s: RState, t: RState, T: Tables, m: Msg, busy: set<InstId>)
    requires Outbox(s, T, busy + {m.Id()}) && t == s.(out := s.out + Broadcast(s.id, m, s.n))
    requires s.Has(m.Id()) && m.Id() !in busy && Authored(s, T, m)
    ensures Outbox(t, T, busy)
  {
    hide Sent, Authored, Broadcast, WFMsg;
    forall to: nat, x: InstId
      ensures Sent(t.out, to, x) == if to < t.n && to != t.id && t.Has(x) && x !in busy then 1 else 0
    {
      SentConcat(s.out, Broadcast(s.id, m, s.n), to, x);
      SentBroadcast(s, m, s.n, to, x);
    }
    BroadcastPackets(s, m, s.n);
    forall p | p in t.out ensures p.to < t.n && p.to != t.id && Authored(t, T, p.msg) {
      if p in s.out { SameAuthor(s, t, T, p.msg); } else { SameAuthor(s, t, T, m); }
    }
  }

  lemma SameAuthor(s: RState, t: RState, T: Tables, m: Msg)
    requires Authored(s, T, m) && t.id == s.id && t.n == s.n && t.space == s.space
    ensures Authored(t, T, m)
  {
    hide WFMsg;
  }

  // ---- Counting a vote ----

  lemma TallyMono(reach: seq<bool>, i: nat)
    requires i < |reach|
    ensures Tally(reach[i := true]) >= Tally(reach)
    decreases |reach|
  {
    var k := |reach| - 1;
    if i < k {
      assert reach[i := true][..k] == reach[..k][i := true];
      TallyMono(reach[..k], i);
    } else {
      assert reach[i := true][..k] == reach[..k];
    }
  }

  lemma ReachedInst(s: RState, T: Tables, m: Msg)
    requires Base(s, T) && Genuine(m, T, s.n, s.id) && m.Id() in s.space && WF(Reached(s, m))
    requires m.cmds != [] ==> m.rep != s.id
    ensures InstOK(Reached(s, m), T, m.Id())
    ensures s.Done(m.Id()) ==> Reached(s, m).space[m.Id()].deps == s.space[m.Id()].deps
  {
    hide RowsOK, LogOK, WFRow, Tally, ColumnsOK, TablesOK, ReachedInstance;
    var e := s.space[m.Id()];
    assert InstOK(s, T, m.Id());
    ReachedTally(s.id, s.n, e, m);
    ReachedColumns(s.id, s.n, e, T, m);
    hide Genuine;
  }

  lemma ReachedTally(id: nat, n: nat, e: Instance, m: Msg)
    requires WFInstance(e, n) && WFMsg(m, n) && id < n
    ensures var f := ReachedInstance(id, e, m);
            && Tally(f.reach) >= Tally(e.reach) && |f.reach| == n && f.reach[id]
            && f.status == e.status && f.cmds == e.cmds
  {
    hide Tally;
    TallyMono(e.reach, id);
    TallyMono(e.reach[id := true], m.rep);
    TallyMono(e.reach[id := true][m.rep := true], m.sender);
  }

  lemma ReachedColumns(id: nat, n: nat, e: Instance, T: Tables, m: Msg)
    requires WFInstance(e, n) && TablesOK(T, n) && Genuine(m, T, n, id) && id < n
    requires ColumnsOK(id, n, e, T, m.Id())
    ensures var f := ReachedInstance(id, e, m);
            && WFInstance(f, n) && ColumnsOK(id, n, f, T, m.Id())
            && (HigherReached(e, m.rep) ==> f.deps == e.deps && HigherReached(f, m.rep))
  {
  }

  lemma ReachedChanges(s: RState, m: Msg)
    requires WF(s) && WFMsg(m, s.n) && m.Id() in s.space && m.sender != s.id
    requires s.Done(m.Id()) ==> Reached(s, m).space[m.Id()].deps == s.space[m.Id()].deps
    ensures var t := Reached(s, m);
            && OneChanged(s, t, m.Id()) && OwnColumnKept(s, t)
            && t.out == s.out && t.waitlist == s.waitlist && t.space.Keys == s.space.Keys
            && t.space[m.Id()].preAcceptOKs == s.space[m.Id()].preAcceptOKs
  {
    hide WFRow;
  }

  // ---- Finish: count, then commit if possible ----

  ghost predicate FinishPre(s: RState, T: Tables, m: Msg, busy: set<InstId>) {
    && Core(s, T, busy, busy + {m.Id()}) && Untallied(s, {})
    && OwnOK(s, T) && ParkedOK(s, T) && Outbox(s, T, busy) && (forall x <- busy :: s.Has(x))
    && Genuine(m, T, s.n, s.id) && m.Id() in s.space && m.Id() !in busy
    && WF(s) && WFMsg(m, s.n)
  }

  lemma ReachedCore(s: RState, T: Tables, m: Msg, busy: set<InstId>)
    requires Core(s, T, busy, busy + {m.Id()}) && Untallied(s, {})
    requires WF(s) && WFMsg(m, s.n) && m.Id() in s.space && m.Id() !in busy && WF(Reached(s, m))
    requires InstOK(Reached(s, m), T, m.Id()) && OneChanged(s, Reached(s, m), m.Id())
    requires Reached(s, m).space[m.Id()].preAcceptOKs == s.space[m.Id()].preAcceptOKs
    requires Reached(s, m).space[m.Id()].cmds == s.space[m.Id()].cmds
    ensures Core(Reached(s, m), T, busy, busy + {m.Id()})
  {
    var t := Reached(s, m);
    hide TablesOK, InstOK, RowsOK, LogOK, OneChanged, Reached, WF;
    PointBase(s, t, T, m.Id());
    hide Base, Tallied, Live;
    PointTallies(s, t, m.Id(), busy, busy, busy + {m.Id()});
    assert busy + {m.Id()} + {m.Id()} == busy + {m.Id()};
  }

  // Handlers that leave answers, wait list and outbox alone keep the clauses about them.
  lemma FrameKeeps(s: RState, t: RState, T: Tables, busy: set<InstId>)
    requires OwnOK(s, T) && ParkedOK(s, T) && Outbox(s, T, busy) && (forall x <- busy :: s.Has(x))
    requires OwnColumnKept(s, t) && t.out == s.out && t.waitlist == s.waitlist && s.space.Keys <= t.space.Keys
    ensures OwnOK(t, T) && ParkedOK(t, T) && Outbox(t, T, busy) && (forall x <- busy :: t.Has(x))
  {
    QuietOut(s, t, T, busy) by { hide ParkedOK; }
    hide Outbox;
    QuietParked(s, t, T);
    hide ParkedOK;
  }

  lemma QuietStep(s: RState, t: RState)
    requires OwnColumnKept(s, t) && t.out == s.out && t.waitlist == s.waitlist && s.log <= t.log
    requires forall x :: s.Done(x) ==> t.Done(x) && t.space[x].deps == s.space[x].deps
    ensures Step(s, t, {})
  {
    hide IsParked;
  }

  lemma CommitFrameKept(s: RState, t: RState)
    requires CommitFrame(s, t)
    ensures OwnColumnKept(s, t) && t.out == s.out && t.waitlist == s.waitlist && t.space.Keys == s.space.Keys
    ensures s.log <= t.log && forall x :: s.Done(x) ==> t.Done(x) && t.space[x].deps == s.space[x].deps
  {
    forall y ensures t.Has(y) <==> s.Has(y) {
      if y in s.space { assert SameBody(s.space[y], t.space[y]); }
    }
    forall y | y in s.space ensures s.Has(y) ==> SameAnswer(s, t, y) && |t.space[y].deps| == |s.space[y].deps| {
      assert SameBody(s.space[y], t.space[y]);
    }
    forall y | s.Done(y) ensures t.Done(y) && t.space[y].deps == s.space[y].deps {
      assert SameBody(s.space[y], t.space[y]);
    }
  }

  lemma FinishKeeps(s: RState, T: Tables, m: Msg, busy: set<InstId>)
    requires FinishPre(s, T, m, busy) && WF(s) && WFMsg(m, s.n) && m.Id() in s.space
    requires m.cmds != [] ==> m.rep != s.id
    ensures Inv(Finish(s, m), T, busy) && Step(s, Finish(s, m), {})
  {
    ReachedPart(s, T, m, busy);
    hide FinishPre, WF, Reached, Core, Step, WFMsg, OwnOK, ParkedOK, Outbox, Untallied;
    CommitPart(Reached(s, m), T, m.Id(), busy);
    StepTrans(s, Reached(s, m), Finish(s, m), {}, {});
    var none: set<InstId> := {};
    assert none + none == none;
  }

  lemma ReachedPart(s: RState, T: Tables, m: Msg, busy: set<InstId>)
    requires FinishPre(s, T, m, busy) && WF(s) && WFMsg(m, s.n) && m.Id() in s.space
    requires m.cmds != [] ==> m.rep != s.id
    ensures var t := Reached(s, m);
            && WF(t) && m.Id() in t.space && m.Id() !in busy && Step(s, t, {})
            && Core(t, T, busy, busy + {m.Id()})
            && OwnOK(t, T) && ParkedOK(t, T) && Outbox(t, T, busy) && (forall x <- busy :: t.Has(x))
  {
    var t := Reached(s, m);
    ReachedWF(s, m);
    hide WF, TablesOK, RowsOK, LogOK, Outbox, ParkedOK, OwnOK, Tallied, Live, Untallied;
    ReachedInst(s, T, m);
    GenuineWF(m, T, s.n, s.id);
    ReachedChanges(s, m);
    PointDone(s, t, m.Id());
    hide Genuine, Reached, InstOK, OneChanged, Base, Step;
    ReachedCore(s, T, m, busy);
    FrameKeeps(s, t, T, busy);
    QuietStep(s, t);
  }

  lemma CommitPart(s: RState, T: Tables, x: InstId, busy: set<InstId>)
    requires WF(s) && x in s.space && x !in busy && Core(s, T, busy, busy + {x})
    requires OwnOK(s, T) && ParkedOK(s, T) && Outbox(s, T, busy) && (forall y <- busy :: s.Has(y))
    ensures var t := if s.space[x].status == Committed || s.space[x].cmds == [] then s else Commit(s, x);
            Inv(t, T, busy) && Step(s, t, {})
  {
    hide OwnOK, ParkedOK, Outbox, Base, Tallied, Live, Untallied, WF, Step;
    if s.space[x].status == Committed || s.space[x].cmds == [] {
      StayStep(s);
      Unstale(s, x, busy);
    } else {
      var t := Commit(s, x);
      CommitCore(s, T, x, busy);
      CommitFrameKept(s, t);
      hide Commit, CommitFrame, Core;
      FrameKeeps(s, t, T, busy);
      QuietStep(s, t);
      hide OwnColumnKept;
    }
  }

  lemma CommitCore(s: RState, T: Tables, x: InstId, busy: set<InstId>)
    requires WF(s) && x in s.space && s.space[x].cmds != [] && x !in busy && Core(s, T, busy, busy + {x})
    ensures Core(Commit(s, x), T, busy, busy)
  {
    hide Base, Tallied, Live, Untallied, WF, Commit, CommitFrame;
    CommitKeeps(s, T, x, busy);
    CommitLive(s, T, x, busy, busy);
  }

  lemma Unstale(s: RState, x: InstId, busy: set<InstId>)
    requires WF(s) && x in s.space && Tallied(s, busy + {x}) && Live(s, busy + {x})
    requires s.space[x].status == Committed || s.space[x].cmds == []
    ensures Tallied(s, busy) && Live(s, busy)
  {
    hide Tally;
    assert !(s.space[x].cmds != [] && CanCommit(s, x));
    hide CanCommit, WF;
  }

  // ---- The handler ----

  lemma AnswerKeeps(s: RState, T: Tables, m: Msg, dep: int, busy: set<InstId>)
    requires Inv(s, T, busy + {m.Id()}) && m.Id() !in busy && s.Has(m.Id())
    requires WF(s) && WFMsg(m, s.n) && Genuine(m, T, s.n, s.id) && m.cmds != [] && m.rep != s.id
    requires dep >= -1 && (s.id < m.rep ==> s.space[m.Id()].deps[s.id] == dep)
    ensures Inv(Answer(s, m, dep), T, busy) && Step(s, Answer(s, m, dep), {})
  {
    var v := Vote(s, m, dep);
    var t := s.(out := s.out + Broadcast(s.id, v, s.n));
    GenuineWF(m, T, s.n, s.id);
    assert Authored(s, T, v) by { hide Inv, Broadcast, Genuine; }
    hide Inv, Core, OwnOK, ParkedOK, Outbox, Untallied, Genuine, Authored, Broadcast, Vote, WF, WFMsg, Step, Finish;
    SendPart(s, t, T, m, v, busy);
    FinishKeeps(t, T, m, busy);
    StepTrans(s, t, Finish(t, m), {}, {});
    var none: set<InstId> := {};
    assert none + none == none;
  }

  lemma SendPart(s: RState, t: RState, T: Tables, m: Msg, v: Msg, busy: set<InstId>)
    requires Inv(s, T, busy + {m.Id()}) && m.Id() !in busy && s.Has(m.Id()) && WF(s) && WFMsg(m, s.n)
    requires Genuine(m, T, s.n, s.id) && v.Id() == m.Id() && Authored(s, T, v)
    requires t == s.(out := s.out + Broadcast(s.id, v, s.n))
    ensures WF(t) && FinishPre(t, T, m, busy) && Step(s, t, {}) && t.Has(m.Id())
  {
    hide Core, OwnOK, ParkedOK, Outbox, Base, Untallied, Genuine, Authored, IsParked, Broadcast, WFMsg, Step;
    Open(s, T, busy + {m.Id()});
    SendOut(s, t, T, v, busy);
    SendWF(s, t);
    hide WF;
    SendCore(s, t, T, m.Id(), busy);
    SendRest(s, t, T);
  }

  ghost predicate OnlyOut(s: RState, t: RState) {
    t == s.(out := t.out) && s.out <= t.out
  }

  lemma SendWF(s: RState, t: RState)
    requires WF(s) && t == s.(out := t.out)
    ensures WF(t)
  {
  }

  lemma SendCore(s: RState, t: RState, T: Tables, x: InstId, busy: set<InstId>)
    requires Core(s, T, busy + {x}, busy + {x}) && WF(t) && t == s.(out := t.out) && Untallied(s, {})
    ensures Core(t, T, busy, busy + {x}) && Untallied(t, {})
  {
    SameSpaceCore(s, t, T, busy + {x}, busy + {x});
    hide Base, Tallied, Live, WF;
  }

  lemma SendRest(s: RState, t: RState, T: Tables)
    requires OnlyOut(s, t) && OwnOK(s, T) && ParkedOK(s, T)
    ensures OwnOK(t, T) && ParkedOK(t, T) && Step(s, t, {})
    ensures t.id == s.id && t.n == s.n && t.space == s.space
  {
    QuietParked(s, t, T);
    hide ParkedOK, IsParked;
  }

  lemma JudgeKeeps(s: RState, T: Tables, m: Msg, busy: set<InstId>)
    requires Inv(s, T, busy) && Fresh(s, T, m) && WF(s) && WFMsg(m, s.n)
    ensures var (s1, v) := Judge(s, m);
            && WF(s1) && Inv(s1, T, busy) && Step(s, s1, {}) && Acceptable(s1, T, m)
            && s1.id == s.id && s1.n == s.n && s1.waitlist == s.waitlist && v.dep >= -1
            && (s.id < m.rep ==> |s1.space[m.Id()].deps| == s1.n && s1.space[m.Id()].deps[s1.id] == v.dep)
            && (v.waitFor.Some? ==> s.id < m.rep && !s1.Has(v.waitFor.value) && v.waitFor.value.rep > m.rep)
  {
    hide Inv, IsParked, Step;
    var x := m.Id();
    assert m.deps == T.props[x].deps && x in T.props;
    hide Genuine;
    TouchKeeps(s, T, x, busy);
    TouchWF(s, x);
    if m.rep > s.id {
      PriorityStep(s, Touch(s, x), T, m, busy);
    }
  }

  lemma PriorityStep(s: RState, s0: RState, T: Tables, m: Msg, busy: set<InstId>)
    requires Inv(s0, T, busy) && WF(s0) && WFMsg(m, s0.n) && m.Id() in s0.space && !s0.Has(m.Id())
    requires s0.id < m.rep && Step(s, s0, {})
    ensures var v := Priority(s0, m, m.deps[s0.id], 0); var s1 := SetDep(s0, m.Id(), s0.id, v.dep);
            && WF(s1) && Inv(s1, T, busy) && Step(s, s1, {}) && v.dep >= m.deps[s0.id]
            && (forall y :: s1.Has(y) <==> s0.Has(y))
            && (v.waitFor.Some? ==> !s1.Has(v.waitFor.value) && v.waitFor.value.rep > m.rep)
  {
    hide Inv, IsParked, Step;
    var v := Priority(s0, m, m.deps[s0.id], 0);
    PriorityWaits(s0, m, m.deps[s0.id], 0);
    hide Priority;
    SetDepKeeps(s0, T, m.Id(), v.dep, busy);
    SetDepWF(s0, m.Id(), s0.id, v.dep);
    hide WF, WFMsg;
    StepTrans(s, s0, SetDep(s0, m.Id(), s0.id, v.dep), {}, {});
    var none: set<InstId> := {};
    assert none + none == none;
  }

  lemma HandleKeeps(s: RState, T: Tables, m: Msg, busy: set<InstId>)
    requires Inv(s, T, busy) && WF(s) && WFMsg(m, s.n) && Genuine(m, T, s.n, s.id)
    requires if m.cmds == [] then m.Id() !in busy else Fresh(s, T, m)
    ensures Inv(Handle(s, m), T, busy)
    ensures Step(s, Handle(s, m), if m.cmds == [] then {} else {m.Id()})
    ensures m.cmds != [] && Judge(s, m).1.waitFor.None? ==> AnsweredWith(Handle(s, m), m.Id(), Judge(s, m).1.dep)
    decreases |WaitSlots(s.waitlist)| + 1, 0
  {
    var none: set<InstId> := {};
    hide Inv, Step, WF, Genuine, WFMsg, Fresh, IsParked, WaitSlots, Judge, Accept, HandleAll, Answer;
    hide OneChanged, AllFresh, Ids, Acceptable, Park, Waiting;
    if m.cmds == [] {
      hide Handle;
      VoteKeeps(s, T, m, busy);
    } else {
      var (s1, v) := Judge(s, m);
      JudgeKeeps(s, T, m, busy);
      if v.waitFor.Some? {
        ParkStepOf(s1, T, v.waitFor.value, m, busy);
        StepTrans(s, s1, Park(s1, v.waitFor.value, m), {}, {m.Id()});
        assert none + {m.Id()} == {m.Id()};
      } else {
        var ws := Waiting(s1, m.Id());
        var s2 := Accept(s1, m);
        AcceptKeeps(s1, T, m, busy);
        AcceptLists(s1, m);
        AcceptSame(s1, m);
        PopFreesSlots(s1, m.Id());
        AllFreshWF(s2, T, ws);
        HandleAllKeeps(s2, T, ws, busy + {m.Id()});
        FinishHandle(s, s1, T, m, v.dep, HandleAll(s2, ws), busy);
      }
    }
  }

  lemma AllFreshWF(s: RState, T: Tables, ws: seq<Msg>)
    requires AllFresh(s, T, ws)
    ensures forall w <- ws :: WFMsg(w, s.n)
  {
    forall w | w in ws ensures WFMsg(w, s.n) {
      assert Fresh(s, T, w);
    }
  }

  lemma ParkStepOf(s: RState, T: Tables, k: InstId, m: Msg, busy: set<InstId>)
    requires Inv(s, T, busy) && Acceptable(s, T, m) && s.id < m.rep && !s.Has(k) && k.rep != s.id
    ensures Inv(Park(s, k, m), T, busy) && Step(s, Park(s, k, m), {m.Id()})
  {
    hide Inv, Step, Genuine, IsParked;
    ParkKeeps(s, T, k, m, busy);
  }

  lemma VoteKeeps(s: RState, T: Tables, m: Msg, busy: set<InstId>)
    requires Inv(s, T, busy) && WF(s) && WFMsg(m, s.n) && Genuine(m, T, s.n, s.id)
    requires m.cmds == [] && m.Id() !in busy
    ensures Inv(Handle(s, m), T, busy) && Step(s, Handle(s, m), {})
  {
    GenuineWF(m, T, s.n, s.id);
    TouchKeeps(s, T, m.Id(), busy);
    TouchWF(s, m.Id());
    var t := Touch(s, m.Id());
    hide Inv, Step, Genuine, Finish;
    assert WFMsg(m, t.n);
    hide WF, Touch, WFMsg;
    InvFinishPre(t, T, m, busy);
    FinishKeeps(t, T, m, busy);
    StepTrans(s, t, Finish(t, m), {}, {});
    var none: set<InstId> := {};
    assert none + none == none;
  }

  lemma InvFinishPre(s: RState, T: Tables, m: Msg, busy: set<InstId>)
    requires Inv(s, T, busy) && WF(s) && WFMsg(m, s.n) && Genuine(m, T, s.n, s.id)
    requires m.Id() in s.space && m.Id() !in busy
    ensures FinishPre(s, T, m, busy)
  {
    hide Base, OwnOK, ParkedOK, Outbox, Genuine, WFMsg, CanCommit, Tally;
    Open(s, T, busy);
    WeakenStale(s, busy, m.Id());
    hide Tallied, Live, WF, Untallied;
  }

  lemma WeakenStale(s: RState, stale: set<InstId>, x: InstId)
    requires WF(s) && Tallied(s, stale) && Live(s, stale)
    ensures Tallied(s, stale + {x}) && Live(s, stale + {x})
  {
    hide CanCommit, Tally, WF;
  }

  predicate AnsweredWith(s: RState, x: InstId, dep: int) {
    s.Has(x) && (s.id < x.rep ==> s.id < |s.space[x].deps| && s.space[x].deps[s.id] == dep)
  }

  lemma StepAnswer(s: RState, t: RState, ids: set<InstId>, x: InstId, dep: int)
    requires Step(s, t, ids) && AnsweredWith(s, x, dep)
    ensures AnsweredWith(t, x, dep) && t.id == s.id && t.n == s.n
  {
    hide IsParked;
    assert SameAnswer(s, t, x);
  }

  lemma NotBusy(s: RState, T: Tables, busy: set<InstId>, x: InstId)
    requires Inv(s, T, busy) && !s.Has(x)
    ensures x !in busy
  {
    hide Core, OwnOK, ParkedOK, Outbox;
  }

  lemma FinishHandle(s: RState, s1: RState, T: Tables, m: Msg, dep: int, s3: RState, busy: set<InstId>)
    requires WF(s1) && WFMsg(m, s1.n) && m.Id() in s1.space
    requires Inv(s1, T, busy) && Step(s, s1, {}) && Acceptable(s1, T, m) && dep >= -1
    requires OneChanged(s1, Accept(s1, m), m.Id()) && AnsweredWith(Accept(s1, m), m.Id(), dep)
    requires Step(Accept(s1, m), s3, Ids(Waiting(s1, m.Id()))) && Inv(s3, T, busy + {m.Id()}) && WF(s3)
    requires m.Id() in s3.space && s3.n == s1.n
    ensures Inv(Answer(s3, m, dep), T, busy) && Step(s, Answer(s3, m, dep), {m.Id()})
    ensures AnsweredWith(Answer(s3, m, dep), m.Id(), dep)
  {
    hide Inv, Step, Genuine, OneChanged, IsParked, Accept, WF, Answer, Ids, Waiting, WFMsg;
    NotBusy(s1, T, busy, m.Id());
    AcceptRetryStep(s1, m, s3);
    StepAnswer(Accept(s1, m), s3, Ids(Waiting(s1, m.Id())), m.Id(), dep);
    AcceptSame(s1, m);
    AnswerKeeps(s3, T, m, dep, busy);
    StepAnswer(s3, Answer(s3, m, dep), {}, m.Id(), dep);
    StepTrans(s1, s3, Answer(s3, m, dep), {m.Id()}, {});
    StepTrans(s, s1, Answer(s3, m, dep), {}, {m.Id()} + {});
    assert {} + ({m.Id()} + {}) == {m.Id()};
  }

  lemma AcceptSame(s: RState, m: Msg)
    requires WF(s) && WFMsg(m, s.n) && m.Id() in s.space
    ensures Accept(s, m).id == s.id && Accept(s, m).n == s.n
  {
  }

  lemma HandleAllKeeps(s: RState, T: Tables, ws: seq<Msg>, busy: set<InstId>)
    requires Inv(s, T, busy) && WF(s) && AllFresh(s, T, ws) && (forall w <- ws :: WFMsg(w, s.n))
    ensures Inv(HandleAll(s, ws), T, busy) && Step(s, HandleAll(s, ws), Ids(ws))
    decreases |WaitSlots(s.waitlist)| + |ws|, |ws|
  {
    hide Inv, Step, WF, Genuine, WFMsg, IsParked, WaitSlots;
    if ws == [] {
      StayStep(s);
      assert Ids(ws) == {};
    } else {
      var w := ws[0];
      assert Fresh(s, T, w);
      var t := Handle(s, w);
      HandleKeeps(s, T, w, busy);
      hide Handle;
      StillFresh(s, T, ws, t);
      HandleAllKeeps(t, T, ws[1..], busy);
      StepTrans(s, t, HandleAll(t, ws[1..]), {w.Id()}, Ids(ws[1..]));
      assert Ids(ws) == {w.Id()} + Ids(ws[1..]) by { assert ws == [w] + ws[1..]; }
    }
  }

  lemma StillFresh(s: RState, T: Tables, ws: seq<Msg>, t: RState)
    requires ws != [] && AllFresh(s, T, ws) && Step(s, t, {ws[0].Id()})
    ensures AllFresh(t, T, ws[1..])
  {
    hide Genuine, IsParked;
    forall i | 0 <= i < |ws[1..]| ensures Fresh(t, T, ws[1..][i]) {
      assert Fresh(s, T, ws[i + 1]) && ws[0].Id() != ws[i + 1].Id();
    }
  }
}
