/** When PPaxos parks a proposal (updatePriority of eppaxos/epaxos.go): exactly when a later own
    conflict that does not depend on it may be ordered by an instance the replica does not know. */
module PPaxosParking {
  import opened Options
  import opened PPaxos
  import opened PPaxosCoverage
  import opened Store

  // ---- What stops the scan ----

  // k lies above the first vector and up to the second, in row p or a later one.
  predicate Between(low: seq<int>, high: seq<int>, p: nat, k: InstId) {
    p <= k.rep < |low| == |high| && low[k.rep] < k.inst <= high[k.rep]
  }

  predicate Sooner(j: InstId, k: InstId) { j.rep < k.rep || (j.rep == k.rep && j.inst < k.inst) }

  ghost predicate Stops(s: RState, c: Command, k: InstId) { s.Has(k) ==> Interferes(s.space[k].cmds, c) }

  // k is the first instance in between, row by row, that is unknown or interferes.
  ghost predicate FirstStop(s: RState, c: Command, low: seq<int>, high: seq<int>, p: nat, k: InstId) {
    Between(low, high, p, k) && Stops(s, c, k) && forall j :: Between(low, high, p, j) && Sooner(j, k) ==> !Stops(s, c, j)
  }

  ghost predicate NoStop(s: RState, c: Command, low: seq<int>, high: seq<int>, p: nat) {
    forall j :: Between(low, high, p, j) ==> !Stops(s, c, j)
  }

  lemma {:induction false} RowStops(s: RState, c: Command, k: nat, j: nat, hi: int)
    ensures match ScanRow(s, c, k, j, hi)
            case Clear => forall i: nat :: j <= i <= hi ==> !Stops(s, c, InstId(k, i))
            case Missing(y) => y.rep == k && j <= y.inst <= hi && !s.Has(y) && Stops(s, c, y) && forall i: nat :: j <= i < y.inst ==> !Stops(s, c, InstId(k, i))
            case Hit => exists y: InstId :: y.rep == k && j <= y.inst <= hi && s.Has(y) && Stops(s, c, y)
                                            && forall i: nat :: j <= i < y.inst ==> !Stops(s, c, InstId(k, i))
    decreases hi - j
  {
    hide Interferes;
    if j <= hi {
      var y := InstId(k, j);
      if s.Has(y) && !Interferes(s.space[y].cmds, c) {
        RowStops(s, c, k, j + 1, hi);
      } else if s.Has(y) {
        assert y.rep == k && Stops(s, c, y);
      }
    }
  }

  lemma RowFirst(s: RState, c: Command, low: seq<int>, high: seq<int>, p: nat, y: InstId)
    requires p < |low| == |high| && y.rep == p && low[p] < y.inst <= high[p] && Stops(s, c, y)
    requires forall i: nat :: low[p] + 1 <= i < y.inst ==> !Stops(s, c, InstId(p, i))
    ensures FirstStop(s, c, low, high, p, y)
  {
    hide Stops;
    forall j | Between(low, high, p, j) && Sooner(j, y) ensures !Stops(s, c, j) { assert j == InstId(p, j.inst); }
  }

  lemma NextRow(s: RState, c: Command, low: seq<int>, high: seq<int>, p: nat)
    requires p < |low| == |high| && forall i: nat :: low[p] + 1 <= i <= high[p] ==> !Stops(s, c, InstId(p, i))
    ensures NoStop(s, c, low, high, p + 1) ==> NoStop(s, c, low, high, p)
    ensures forall k :: FirstStop(s, c, low, high, p + 1, k) ==> FirstStop(s, c, low, high, p, k)
  {
    hide Stops;
    forall j | Between(low, high, p, j) && !Between(low, high, p + 1, j) ensures !Stops(s, c, j) { assert j == InstId(p, j.inst); }
  }

  lemma {:induction false} ScanStops(s: RState, c: Command, low: seq<int>, high: seq<int>, p: nat)
    requires |low| == |high| == s.n && forall j :: 0 <= j < s.n ==> low[j] >= -1
    ensures match ScanRows(s, c, low, high, p)
            case Clear => NoStop(s, c, low, high, p)
            case Missing(k) => FirstStop(s, c, low, high, p, k) && !s.Has(k)
            case Hit => exists k :: FirstStop(s, c, low, high, p, k) && s.Has(k)
    decreases s.n - p
  {
    hide Interferes, Stops, ScanRow, FirstStop, NoStop;
    if p < s.n {
      RowStops(s, c, p, low[p] + 1, high[p]);
      match ScanRow(s, c, p, low[p] + 1, high[p])
      case Clear =>
        ScanStops(s, c, low, high, p + 1);
        NextRow(s, c, low, high, p);
      case Missing(y) =>
        RowFirst(s, c, low, high, p, y);
      case Hit =>
        var y: InstId :| y.rep == p && low[p] + 1 <= y.inst <= high[p] && s.Has(y) && Stops(s, c, y)
                         && forall i: nat :: low[p] + 1 <= i < y.inst ==> !Stops(s, c, InstId(p, i));
        RowFirst(s, c, low, high, p, y);
    } else {
      NothingBetween(s, c, low, high, p);
    }
  }

  lemma NothingBetween(s: RState, c: Command, low: seq<int>, high: seq<int>, p: nat)
    requires p >= |low|
    ensures NoStop(s, c, low, high, p)
  {
  }

  lemma FirstIsUnique(s: RState, c: Command, low: seq<int>, high: seq<int>, p: nat, j: InstId, k: InstId)
    requires FirstStop(s, c, low, high, p, j) && FirstStop(s, c, low, high, p, k)
    ensures j == k && !NoStop(s, c, low, high, p)
  {
    hide Stops;
    assert j == k || Sooner(j, k) || Sooner(k, j);
  }

  // ---- What parks a proposal ----

  ghost function OwnConflict(s: RState, c: Command): int
    requires WF(s)
  {
    LatestConflict(s.conflicts[s.id], c)
  }

  // The dependency of the answer after the first l commands: the proposer's own value for this column, or
  // the highest decisive conflict.
  ghost predicate DepSoFar(s: RState, m: Msg, l: nat, dep: int)
    requires WF(s) && WFMsg(m, s.n) && l <= |m.cmds|
  {
    && dep >= m.deps[s.id]
    && (dep == m.deps[s.id] || exists i :: 0 <= i < l && Decisive(s, m, m.cmds[i]) && dep == OwnConflict(s, m.cmds[i]))
    && forall i :: 0 <= i < l && Decisive(s, m, m.cmds[i]) ==> OwnConflict(s, m.cmds[i]) <= dep
  }

  // An own conflict above dep that does not depend on the proposal.
  ghost predicate Undecided(s: RState, m: Msg, c: Command, dep: int)
    requires WF(s) && WFMsg(m, s.n)
  {
    var d := OwnConflict(s, c);
    d >= 0 && d > dep && InstId(s.id, d) in s.space && s.space[InstId(s.id, d)].deps[m.rep] < m.inst
  }

  // Command l must wait for k: its conflict is undecided, and the first instance above the proposal's
  // dependencies and up to those of the conflict that is unknown or interferes is k, which is unknown.
  ghost predicate WaitsAt(s: RState, m: Msg, l: nat, k: InstId)
    requires WF(s) && WFMsg(m, s.n) && l < |m.cmds|
  {
    var c := m.cmds[l];
    exists dep :: DepSoFar(s, m, l, dep) && Undecided(s, m, c, dep)
      && FirstStop(s, c, m.deps, s.space[InstId(s.id, OwnConflict(s, c))].deps, m.rep + 1, k) && !s.Has(k)
  }

  // The first command that must wait decides where the proposal is parked.
  ghost predicate Parks(s: RState, m: Msg, k: InstId)
    requires WF(s) && WFMsg(m, s.n)
  {
    exists l :: 0 <= l < |m.cmds| && WaitsAt(s, m, l, k) && forall i, j :: 0 <= i < l ==> !WaitsAt(s, m, i, j)
  }

  lemma DepUnique(s: RState, m: Msg, l: nat, a: int, b: int)
    requires WF(s) && WFMsg(m, s.n) && l <= |m.cmds| && DepSoFar(s, m, l, a) && DepSoFar(s, m, l, b)
    ensures a == b
  {
    hide Decisive, OwnConflict, WF;
  }

  lemma WaitsIs(s: RState, m: Msg, l: nat, dep: int)
    requires WF(s) && WFMsg(m, s.n) && l < |m.cmds| && DepSoFar(s, m, l, dep)
    ensures var c := m.cmds[l];
            forall k :: WaitsAt(s, m, l, k) <==>
              Undecided(s, m, c, dep) && FirstStop(s, c, m.deps, s.space[InstId(s.id, OwnConflict(s, c))].deps, m.rep + 1, k) && !s.Has(k)
  {
    forall e | DepSoFar(s, m, l, e) ensures e == dep { DepUnique(s, m, l, e, dep); }
    hide DepSoFar, FirstStop, OwnConflict, WF;
  }

  lemma NextDep(s: RState, m: Msg, l: nat, dep: int)
    requires WF(s) && WFMsg(m, s.n) && l < |m.cmds| && DepSoFar(s, m, l, dep)
    ensures DepSoFar(s, m, l + 1, if DecidesAt(s, m, dep, m.cmds[l]) then OwnConflict(s, m.cmds[l]) else dep)
  {
    hide Decisive, LatestConflict, WF;
  }

  lemma DecisiveIs(s: RState, m: Msg, c: Command, dep: int)
    requires WF(s) && WFMsg(m, s.n) && dep >= -1
    ensures DecidesAt(s, m, dep, c) ==> Undecided(s, m, c, dep)
    ensures OwnConflict(s, c) > dep ==> OwnConflict(s, c) >= 0 && InstId(s.id, OwnConflict(s, c)) in s.space
    ensures Undecided(s, m, c, dep) ==>
              var own := s.space[InstId(s.id, OwnConflict(s, c))];
              (DecidesAt(s, m, dep, c) <==> Interferes(own.cmds, c) && NoStop(s, c, m.deps, own.deps, m.rep + 1))
  {
    assert WFRow(s.space, s.id, s.conflicts[s.id]);
    hide Interferes;
    if Undecided(s, m, c, dep) {
      var own := s.space[InstId(s.id, OwnConflict(s, c))];
      assert |own.deps| == s.n;
      NoStopIs(s, c, m.deps, own.deps, m.rep);
    }
  }

  lemma NoStopIs(s: RState, c: Command, low: seq<int>, high: seq<int>, p: nat)
    requires |low| == |high| == s.n && forall j :: 0 <= j < s.n ==> low[j] >= -1
    ensures NoStop(s, c, low, high, p + 1) <==>
              forall k, j :: p < k < s.n && low[k] < j <= high[k] ==> s.Has(InstId(k, j)) && !Interferes(s.space[InstId(k, j)].cmds, c)
  {
    hide Interferes;
    if NoStop(s, c, low, high, p + 1) {
      forall k, j | p < k < s.n && low[k] < j <= high[k] ensures s.Has(InstId(k, j)) && !Interferes(s.space[InstId(k, j)].cmds, c) {
        assert Between(low, high, p + 1, InstId(k, j));
      }
    } else {
      var y :| Between(low, high, p + 1, y) && Stops(s, c, y);
      assert y == InstId(y.rep, y.inst);
    }
  }

  // What the scan says about the first stop.
  lemma ScanSays(s: RState, c: Command, low: seq<int>, high: seq<int>, p: nat)
    requires |low| == |high| == s.n && forall j :: 0 <= j < s.n ==> low[j] >= -1
    ensures ScanRows(s, c, low, high, p).Clear? <==> NoStop(s, c, low, high, p)
    ensures forall k :: FirstStop(s, c, low, high, p, k) && !s.Has(k) <==> ScanRows(s, c, low, high, p) == Missing(k)
  {
    hide ScanRows, FirstStop, NoStop;
    ScanStops(s, c, low, high, p);
    forall j, k | FirstStop(s, c, low, high, p, j) && FirstStop(s, c, low, high, p, k)
      ensures j == k && !NoStop(s, c, low, high, p)
    {
      FirstIsUnique(s, c, low, high, p, j, k);
    }
  }

  lemma PriorityStep(s: RState, m: Msg, l: nat, dep: int)
    requires WF(s) && WFMsg(m, s.n) && l < |m.cmds| && dep >= -1
    ensures var c := m.cmds[l];
            Priority(s, m, dep, l) ==
              if !Undecided(s, m, c, dep) then Priority(s, m, dep, l + 1)
              else
                var own := s.space[InstId(s.id, OwnConflict(s, c))];
                match ScanRows(s, c, m.deps, own.deps, m.rep + 1)
                case Missing(k) => Verdict(dep, Some(k))
                case Hit => Priority(s, m, dep, l + 1)
                case Clear => Priority(s, m, if Interferes(own.cmds, c) then OwnConflict(s, c) else dep, l + 1)
  {
    assert WFRow(s.space, s.id, s.conflicts[s.id]);
    hide ScanRows, Interferes;
  }

  // One command: what the scan finds decides between waiting, raising the dependency and going on.
  lemma CommandTurn(s: RState, m: Msg, l: nat, dep: int) returns (w: Option<InstId>, next: int)
    requires WF(s) && WFMsg(m, s.n) && l < |m.cmds| && dep >= -1 && DepSoFar(s, m, l, dep)
    ensures w.Some? ==> Priority(s, m, dep, l) == Verdict(dep, w) && forall j :: WaitsAt(s, m, l, j) <==> j == w.value
    ensures w.None? ==> next >= -1 && DepSoFar(s, m, l + 1, next) && Priority(s, m, dep, l) == Priority(s, m, next, l + 1)
    ensures w.None? ==> forall j :: !WaitsAt(s, m, l, j)
  {
    var c := m.cmds[l];
    w, next := None, if DecidesAt(s, m, dep, c) then OwnConflict(s, c) else dep;
    NextDep(s, m, l, dep);
    WaitsIs(s, m, l, dep);
    DecisiveIs(s, m, c, dep);
    PriorityStep(s, m, l, dep);
    hide WaitsAt, DepSoFar, DecidesAt, Interferes, FirstStop, NoStop, WFRow, LatestConflict, ScanRows, Priority;
    if Undecided(s, m, c, dep) {
      var high := s.space[InstId(s.id, OwnConflict(s, c))].deps;
      assert |high| == s.n;
      ScanSays(s, c, m.deps, high, m.rep + 1);
      var scan := ScanRows(s, c, m.deps, high, m.rep + 1);
      w := if scan.Missing? then Some(scan.at) else None;
    }
  }

  // ---- The whole scan ----

  ghost predicate NoneWaits(s: RState, m: Msg, l: nat)
    requires WF(s) && WFMsg(m, s.n) && l <= |m.cmds|
  {
    forall i, j :: 0 <= i < l ==> !WaitsAt(s, m, i, j)
  }

  lemma {:induction false} ParkedFrom(s: RState, m: Msg, l: nat, dep: int)
    requires WF(s) && WFMsg(m, s.n) && l <= |m.cmds| && dep >= -1 && DepSoFar(s, m, l, dep) && NoneWaits(s, m, l)
    ensures var v := Priority(s, m, dep, l);
            && (v.waitFor.None? <==> NoneWaits(s, m, |m.cmds|))
            && (v.waitFor.None? ==> DepSoFar(s, m, |m.cmds|, v.dep))
            && (forall k :: v.waitFor == Some(k) <==> Parks(s, m, k))
    decreases |m.cmds| - l
  {
    hide WaitsAt, DepSoFar, WF;
    if l == |m.cmds| {
      assert Priority(s, m, dep, l) == Verdict(dep, None);
      forall k ensures !Parks(s, m, k) { NoneParks(s, m, k); }
    } else {
      var w, next := CommandTurn(s, m, l, dep);
      if w.Some? {
        forall k ensures Parks(s, m, k) <==> k == w.value { ParksFirst(s, m, l, w.value, k); }
        assert WaitsAt(s, m, l, w.value);
      } else {
        ParkedFrom(s, m, l + 1, next);
      }
    }
  }

  lemma NoneParks(s: RState, m: Msg, k: InstId)
    requires WF(s) && WFMsg(m, s.n) && NoneWaits(s, m, |m.cmds|)
    ensures !Parks(s, m, k)
  {
    hide WaitsAt, WF;
  }

  lemma ParksFirst(s: RState, m: Msg, l: nat, w: InstId, k: InstId)
    requires WF(s) && WFMsg(m, s.n) && l < |m.cmds| && NoneWaits(s, m, l) && forall j :: WaitsAt(s, m, l, j) <==> j == w
    ensures Parks(s, m, k) <==> k == w
  {
    hide WaitsAt, WF;
    assert WaitsAt(s, m, l, w);
    if Parks(s, m, k) {
      var i :| 0 <= i < |m.cmds| && WaitsAt(s, m, i, k) && forall i', j :: 0 <= i' < i ==> !WaitsAt(s, m, i', j);
      assert i == l;
    }
  }

  // A proposal is parked exactly under the instance that the first command which must wait waits for.
  // Otherwise it is answered, with the highest decisive conflict of all its commands.
  lemma ParkedExactly(s: RState, m: Msg)
    requires WF(s) && WFMsg(m, s.n)
    ensures var v := Priority(s, m, m.deps[s.id], 0);
            && (forall k :: v.waitFor == Some(k) <==> Parks(s, m, k))
            && (v.waitFor.None? <==> forall l, k :: 0 <= l < |m.cmds| ==> !WaitsAt(s, m, l, k))
            && (v.waitFor.None? ==> DepSoFar(s, m, |m.cmds|, v.dep))
  {
    hide WaitsAt, Parks;
    ParkedFrom(s, m, 0, m.deps[s.id]);
  }

  // ---- What an answer leaves unordered ----

  lemma {:induction false} DepExists(s: RState, m: Msg, l: nat) returns (dep: int)
    requires WF(s) && WFMsg(m, s.n) && l <= |m.cmds|
    ensures DepSoFar(s, m, l, dep)
  {
    hide Decisive, LatestConflict, WFRow, WFInstance;
    if l == 0 {
      dep := m.deps[s.id];
    } else {
      dep := DepExists(s, m, l - 1);
      NextDep(s, m, l - 1, dep);
      dep := if DecidesAt(s, m, dep, m.cmds[l - 1]) then OwnConflict(s, m.cmds[l - 1]) else dep;
    }
  }

  lemma DepGrows(s: RState, m: Msg, l: nat, a: int, h: nat, b: int)
    requires WF(s) && WFMsg(m, s.n) && l <= h <= |m.cmds| && DepSoFar(s, m, l, a) && DepSoFar(s, m, h, b)
    ensures a <= b
  {
    hide Decisive, LatestConflict, WF;
  }

  // Every own conflict above the answer is ordered otherwise: it depends on the proposal, or does not
  // interfere, or an interfering instance lies between the proposal's dependencies and its own.
  ghost predicate Ordered(s: RState, m: Msg, c: Command)
    requires WF(s) && WFMsg(m, s.n)
  {
    var d := OwnConflict(s, c);
    && d >= 0 && InstId(s.id, d) in s.space
    && var own := s.space[InstId(s.id, d)];
       || own.deps[m.rep] >= m.inst
       || !Interferes(own.cmds, c)
       || exists k :: Between(m.deps, own.deps, m.rep + 1, k) && s.Has(k) && Interferes(s.space[k].cmds, c)
  }

  lemma OrdersAt(s: RState, m: Msg, l: nat, dep: int)
    requires WF(s) && WFMsg(m, s.n) && l < |m.cmds| && dep >= -1 && DepSoFar(s, m, l, dep)
    requires OwnConflict(s, m.cmds[l]) > dep && !DecidesAt(s, m, dep, m.cmds[l]) && forall k :: !WaitsAt(s, m, l, k)
    ensures Ordered(s, m, m.cmds[l])
  {
    var c := m.cmds[l];
    DecisiveIs(s, m, c, dep);
    WaitsIs(s, m, l, dep);
    hide WaitsAt, DepSoFar, DecidesAt, Interferes, FirstStop, NoStop, WFRow, OwnConflict;
    var own := s.space[InstId(s.id, OwnConflict(s, c))];
    if own.deps[m.rep] < m.inst && Interferes(own.cmds, c) {
      assert Undecided(s, m, c, dep) && |own.deps| == s.n;
      var k := StopThere(s, c, m.deps, own.deps, m.rep + 1);
    }
  }

  // If a proposal is answered, every own conflict above the answer is ordered otherwise.
  lemma AnswerOrders(s: RState, m: Msg, l: nat)
    requires WF(s) && WFMsg(m, s.n) && l < |m.cmds| && Priority(s, m, m.deps[s.id], 0).waitFor.None?
    requires OwnConflict(s, m.cmds[l]) > Priority(s, m, m.deps[s.id], 0).dep
    ensures Ordered(s, m, m.cmds[l])
  {
    hide WaitsAt, Priority, OwnConflict, Ordered, Decisive, WFRow, WFInstance;
    var v := Priority(s, m, m.deps[s.id], 0).dep;
    ParkedExactly(s, m);
    var dep := DepExists(s, m, l);
    DepGrows(s, m, l, dep, |m.cmds|, v);
    assert dep >= -1;
    assert !DecidesAt(s, m, dep, m.cmds[l]) by { NotAbove(s, m, l, v); }
    OrdersAt(s, m, l, dep);
  }

  lemma NotAbove(s: RState, m: Msg, l: nat, v: int)
    requires WF(s) && WFMsg(m, s.n) && l < |m.cmds| && DepSoFar(s, m, |m.cmds|, v) && OwnConflict(s, m.cmds[l]) > v
    ensures !Decisive(s, m, m.cmds[l])
  {
    hide Decisive, WF;
  }

  lemma StopThere(s: RState, c: Command, low: seq<int>, high: seq<int>, p: nat) returns (k: InstId)
    requires |low| == |high| == s.n && (forall j :: 0 <= j < s.n ==> low[j] >= -1) && !NoStop(s, c, low, high, p)
    requires forall k :: FirstStop(s, c, low, high, p, k) ==> s.Has(k)
    ensures Between(low, high, p, k) && s.Has(k) && Interferes(s.space[k].cmds, c)
  {
    hide Interferes, ScanRows;
    ScanStops(s, c, low, high, p);
    k :| FirstStop(s, c, low, high, p, k);
  }
}
