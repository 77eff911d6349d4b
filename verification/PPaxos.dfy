/** The PPaxos replica (eppaxos/epaxos.go) on values: its state, and what each handler
    computes. The class in PPaxosReplica.dfy runs these handlers in place. */
module PPaxos {
  import opened Options
  import opened Store

  datatype InstId = InstId(rep: nat, inst: nat)

  // NONE, PREACCEPTED, PREACCEPTED_EQ, COMMITTED: the statuses the commit path uses.
  datatype Status = Empty | PreAccepted | PreAcceptedEq | Committed

  datatype Instance = Instance(
    cmds: seq<Command>,
    status: Status,
    deps: seq<int>,
    reach: seq<bool>,
    priorityOKs: bool,
    preAcceptOKs: nat)

  datatype InstPair = InstPair(last: int, lastWrite: int)

  // PreAcceptReply: a proposal when it carries commands, a vote when it carries none.
  datatype Msg = Msg(rep: nat, inst: nat, cmds: seq<Command>, deps: seq<int>, senderDep: int, sender: nat) {
    function Id(): InstId { InstId(rep, inst) }
  }

  datatype Packet = Packet(to: nat, msg: Msg)

  // `out` and `log` record everything this replica has sent and committed, in order.
  datatype RState = RState(
    id: nat,
    n: nat,
    space: map<InstId, Instance>,
    crt: seq<int>,
    upTo: seq<int>,
    conflicts: seq<map<Key, InstPair>>,
    waitlist: map<InstId, seq<Msg>>,
    out: seq<Packet>,
    log: seq<InstId>)
  {
    predicate Has(x: InstId) { x in space && space[x].cmds != [] }
    predicate Done(x: InstId) { x in space && space[x].status == Committed }
  }

  predicate WFInstance(e: Instance, n: nat) {
    |e.deps| == n && |e.reach| == n && forall j :: 0 <= j < n ==> e.deps[j] >= -1
  }

  predicate WFMsg(m: Msg, n: nat) {
    m.rep < n && m.sender < n && m.senderDep >= -1 && |m.deps| == n && forall j :: 0 <= j < n ==> m.deps[j] >= -1
  }

  predicate WFRow(space: map<InstId, Instance>, q: nat, row: map<Key, InstPair>) {
    forall k <- row ::
      && row[k].last >= 0 && row[k].lastWrite >= -1
      && InstId(q, row[k].last) in space
      && (row[k].lastWrite >= 0 ==> InstId(q, row[k].lastWrite) in space)
  }

  predicate WF(s: RState) {
    && s.id < s.n && |s.crt| == s.n && |s.upTo| == s.n && |s.conflicts| == s.n
    && (forall x <- s.space :: x.rep < s.n && WFInstance(s.space[x], s.n))
    && (forall q :: 0 <= q < s.n ==> s.upTo[q] >= -1 && s.crt[q] >= -1)
    && (forall q :: 0 <= q < s.n ==> WFRow(s.space, q, s.conflicts[q]))
    && (forall k <- s.waitlist, m <- s.waitlist[k] :: WFMsg(m, s.n))
  }

  function NewInstance(n: nat): Instance {
    Instance([], Empty, seq(n, _ => -1), seq(n, _ => false), false, 0)
  }

  function InitState(id: nat, n: nat): RState {
    RState(id, n, map[], seq(n, _ => -1), seq(n, _ => -1), seq(n, _ => map[]), map[], [], [])
  }

  // ---- Conflict table ----

  predicate Interferes(cmds: seq<Command>, c: Command) {
    exists l :: 0 <= l < |cmds| && cmds[l].key == c.key && (cmds[l].op != GET || c.op != GET)
  }

  function RecordCmd(row: map<Key, InstPair>, c: Command, inst: nat): map<Key, InstPair> {
    if c.key in row then
      var p := row[c.key];
      row[c.key := InstPair(if p.last < inst then inst else p.last,
                            if p.lastWrite < inst && c.op != GET then inst else p.lastWrite)]
    else row[c.key := InstPair(inst, if c.op != GET then inst else -1)]
  }

  function Record(row: map<Key, InstPair>, cmds: seq<Command>, inst: nat): map<Key, InstPair>
    decreases |cmds|
  {
    if cmds == [] then row
    else RecordCmd(Record(row, cmds[..|cmds| - 1], inst), cmds[|cmds| - 1], inst)
  }

  function LatestConflict(row: map<Key, InstPair>, c: Command): int {
    if c.key !in row then -1 else if c.op != GET then row[c.key].last else row[c.key].lastWrite
  }

  // ---- updateAttributes ----

  function MaxDeps(a: seq<int>, b: seq<int>): seq<int>
    requires |a| == |b|
  {
    seq(|a|, j requires 0 <= j < |a| => if b[j] > a[j] then b[j] else a[j])
  }

  function AttrCmd(s: RState, c: Command, deps: seq<int>, q: nat): (r: seq<int>)
    requires WF(s) && q < s.n && |deps| == s.n
    requires forall j :: 0 <= j < s.n ==> deps[j] >= -1
    ensures |r| == s.n && forall j :: 0 <= j < s.n ==> r[j] >= deps[j]
  {
    var d := LatestConflict(s.conflicts[q], c);
    if d > deps[q] then MaxDeps(deps[q := d], s.space[InstId(q, d)].deps) else deps
  }

  function AttrRow(s: RState, cmds: seq<Command>, deps: seq<int>, q: nat): (r: seq<int>)
    requires WF(s) && q < s.n && |deps| == s.n
    requires forall j :: 0 <= j < s.n ==> deps[j] >= -1
    ensures |r| == s.n && forall j :: 0 <= j < s.n ==> r[j] >= deps[j]
    decreases |cmds|
  {
    if cmds == [] then deps
    else AttrCmd(s, cmds[|cmds| - 1], AttrRow(s, cmds[..|cmds| - 1], deps, q), q)
  }

  // Rows 0..rows of the scan. The proposer's own call passes replica == id, so no row is skipped there.
  function Attributes(s: RState, cmds: seq<Command>, deps: seq<int>, replica: nat, rows: nat): (r: seq<int>)
    requires WF(s) && rows <= s.n && |deps| == s.n
    requires forall j :: 0 <= j < s.n ==> deps[j] >= -1
    ensures |r| == s.n && forall j :: 0 <= j < s.n ==> r[j] >= deps[j]
    decreases rows
  {
    if rows == 0 then deps
    else
      var prev := Attributes(s, cmds, deps, replica, rows - 1);
      if s.id != replica && rows - 1 == replica then prev else AttrRow(s, cmds, prev, rows - 1)
  }

  // ---- updatePriority ----

  datatype Scan = Clear | Hit | Missing(at: InstId)

  function ScanRow(s: RState, c: Command, k: nat, j: nat, hi: int): Scan
    decreases hi - j
  {
    if j > hi then Clear
    else if !s.Has(InstId(k, j)) then Missing(InstId(k, j))
    else if Interferes(s.space[InstId(k, j)].cmds, c) then Hit
    else ScanRow(s, c, k, j + 1, hi)
  }

  function ScanRows(s: RState, c: Command, deps: seq<int>, own: seq<int>, k: nat): Scan
    requires |deps| == |own| == s.n && forall j :: 0 <= j < s.n ==> deps[j] >= -1
    decreases s.n - k
  {
    if k >= s.n then Clear
    else
      var r := ScanRow(s, c, k, deps[k] + 1, own[k]);
      if r.Clear? then ScanRows(s, c, deps, own, k + 1) else r
  }

  datatype Verdict = Verdict(dep: int, waitFor: Option<InstId>)

  function Priority(s: RState, m: Msg, dep: int, i: nat): (v: Verdict)
    requires WF(s) && WFMsg(m, s.n) && dep >= -1
    ensures v.dep >= dep
    decreases |m.cmds| - i
  {
    if i >= |m.cmds| then Verdict(dep, None)
    else
      var c := m.cmds[i];
      var d := LatestConflict(s.conflicts[s.id], c);
      if d <= dep || s.space[InstId(s.id, d)].deps[m.rep] >= m.inst then Priority(s, m, dep, i + 1)
      else
        var own := s.space[InstId(s.id, d)];
        match ScanRows(s, c, m.deps, own.deps, m.rep + 1)
        case Missing(k) => Verdict(dep, Some(k))
        case Hit => Priority(s, m, dep, i + 1)
        case Clear => Priority(s, m, if Interferes(own.cmds, c) then d else dep, i + 1)
  }

  // ---- Commit ----

  function Tally(reach: seq<bool>): nat
    decreases |reach|
  {
    if reach == [] then 0 else Tally(reach[..|reach| - 1]) + if reach[|reach| - 1] then 1 else 0
  }

  lemma {:induction false} TallyIs(reach: seq<bool>)
    ensures Tally(reach) == |set i | 0 <= i < |reach| && reach[i]|
    decreases |reach|
  {
    var all := set i | 0 <= i < |reach| && reach[i];
    if reach == [] {
      assert all == {};
    } else {
      var p := reach[..|reach| - 1];
      TallyIs(p);
      var before := set i | 0 <= i < |p| && p[i];
      assert all == before + (if reach[|p|] then {|p|} else {});
    }
  }

  predicate HigherReached(e: Instance, rep: nat)
    requires rep <= |e.reach|
  {
    forall i :: 0 <= i < rep ==> e.reach[i]
  }

  predicate DepsDone(s: RState, e: Instance)
    requires |e.deps| == s.n == |s.upTo|
  {
    forall q :: 0 <= q < s.n ==> e.deps[q] <= s.upTo[q]
  }

  function Above(space: map<InstId, Instance>, row: nat, c: int): set<InstId> {
    set x | x in space && x.rep == row && x.inst > c
  }

  function Advance(space: map<InstId, Instance>, row: nat, c: int): (r: int)
    requires c >= -1
    ensures r >= c
    decreases |Above(space, row, c)|
  {
    var next := InstId(row, c + 1);
    if next in space && space[next].status == Committed then
      assert Above(space, row, c) == Above(space, row, c + 1) + {next};
      Advance(space, row, c + 1)
    else c
  }

  function Pending(s: RState): set<InstId> {
    set x | x in s.space && s.space[x].status != Committed
  }

  function Counted(e: Instance, rep: nat): Instance
    requires rep <= |e.reach|
  {
    e.(preAcceptOKs := Tally(e.reach), priorityOKs := HigherReached(e, rep))
  }

  // The fields Commit leaves alone, and the sense in which it only moves forward.
  ghost predicate CommitFrame(s: RState, t: RState) {
    && t.id == s.id && t.n == s.n && t.crt == s.crt && t.conflicts == s.conflicts
    && t.waitlist == s.waitlist && t.out == s.out && s.log <= t.log
    && t.space.Keys == s.space.Keys
    && (forall x <- s.space :: SameBody(s.space[x], t.space[x]))
    && |t.upTo| == |s.upTo| && (forall q :: 0 <= q < |s.upTo| ==> t.upTo[q] >= s.upTo[q])
  }

  ghost predicate SameBody(e: Instance, f: Instance) {
    f.cmds == e.cmds && f.deps == e.deps && f.reach == e.reach && (e.status == Committed ==> f.status == Committed)
  }

  predicate CanCommit(s: RState, x: InstId)
    requires WF(s) && x in s.space
  {
    var e := s.space[x];
    HigherReached(e, x.rep) && DepsDone(s, e) && Tally(e.reach) > s.n / 2 && e.status != Committed
  }

  // The commit test written out: every higher-priority replica reached, a majority reached, every
  // dependency committed.
  ghost predicate Ready(s: RState, x: InstId)
    requires WF(s) && x in s.space
  {
    var e := s.space[x];
    && (forall i :: 0 <= i < x.rep ==> e.reach[i])
    && |set i | 0 <= i < s.n && e.reach[i]| > s.n / 2
    && (forall q :: 0 <= q < s.n ==> e.deps[q] <= s.upTo[q])
  }

  lemma TestIsReady(s: RState, x: InstId)
    requires WF(s) && x in s.space
    ensures CanCommit(s, x) <==> Ready(s, x) && !s.Done(x)
  {
    var e := s.space[x];
    TallyIs(e.reach);
    assert |e.reach| == s.n;
    hide Tally, WFRow;
  }

  function Refresh(s: RState, x: InstId): RState
    requires WF(s) && x in s.space
  {
    s.(space := s.space[x := Counted(s.space[x], x.rep)])
  }

  function Decide(s: RState, x: InstId): RState
    requires WF(s) && x in s.space
  {
    var space := s.space[x := s.space[x].(status := Committed)];
    s.(space := space, upTo := s.upTo[x.rep := Advance(space, x.rep, s.upTo[x.rep])], log := s.log + [x])
  }

  predicate IsHit(s: RState, y: InstId, x: InstId)
    requires WF(s) && x.rep < s.n
  {
    && y in s.space
    && s.space[y].preAcceptOKs > s.n / 2 && s.space[y].priorityOKs
    && s.space[y].deps[x.rep] == x.inst && s.space[y].status != Committed
  }

  function FirstHit(s: RState, x: InstId, p: nat, j: nat): (r: Option<nat>)
    requires WF(s) && x.rep < s.n && p < s.n
    ensures r.Some? ==> j <= r.value <= s.crt[p] && IsHit(s, InstId(p, r.value), x)
    ensures forall y: InstId :: y.rep == p && j <= y.inst <= s.crt[p] && (r.Some? ==> y.inst < r.value) ==> !IsHit(s, y, x)
    decreases s.crt[p] - j
  {
    if j > s.crt[p] then None
    else if IsHit(s, InstId(p, j), x) then Some(j)
    else FirstHit(s, x, p, j + 1)
  }

  lemma RefreshFrame(s: RState, x: InstId)
    requires WF(s) && x in s.space
    ensures WF(Refresh(s, x)) && CommitFrame(s, Refresh(s, x)) && Pending(Refresh(s, x)) == Pending(s)
  {
  }

  lemma DecideFrame(s: RState, x: InstId)
    requires WF(s) && x in s.space && s.space[x].status != Committed
    ensures WF(Decide(s, x)) && CommitFrame(s, Decide(s, x)) && Pending(Decide(s, x)) == Pending(s) - {x}
  {
  }

  lemma FrameTransitive(s: RState, t: RState, u: RState)
    requires CommitFrame(s, t) && CommitFrame(t, u)
    ensures CommitFrame(s, u)
  {
    forall x | x in s.space ensures SameBody(s.space[x], u.space[x]) {
      assert x in t.space;
    }
  }

  // Commit: refresh the tallies, commit if allowed, then retry the first waiting instance of every row.
  function Commit(s: RState, x: InstId): (t: RState)
    requires WF(s) && x in s.space
    ensures WF(t) && CommitFrame(s, t) && Pending(t) <= Pending(s)
    decreases |Pending(s)|, 0
  {
    RefreshFrame(s, x);
    var s1 := Refresh(s, x);
    if CanCommit(s, x) then
      DecideFrame(s1, x);
      var s2 := Decide(s1, x);
      FrameTransitive(s, s1, s2);
      var t := Wake(s2, x, 0);
      FrameTransitive(s, s2, t);
      t
    else s1
  }

  function Wake(s: RState, x: InstId, p: nat): (t: RState)
    requires WF(s) && x in s.space && p <= s.n
    ensures WF(t) && CommitFrame(s, t) && Pending(t) <= Pending(s)
    decreases |Pending(s)|, s.n - p + 1
  {
    if p == s.n then s
    else
      match FirstHit(s, x, p, s.space[x].deps[p] + 1)
      case None => Wake(s, x, p + 1)
      case Some(j) =>
        var s1 := Commit(s, InstId(p, j));
        SubsetSmaller(Pending(s1), Pending(s));
        var t := Wake(s1, x, p + 1);
        FrameTransitive(s, s1, t);
        t
  }

  lemma SubsetSmaller<T>(a: set<T>, b: set<T>)
    requires a <= b
    ensures |a| <= |b|
  {
    assert b == a + (b - a);
  }

  // ---- handlePropose ----

  function Broadcast(id: nat, m: Msg, peers: nat): seq<Packet> {
    if peers == 0 then []
    else Broadcast(id, m, peers - 1) + if peers - 1 == id then [] else [Packet(peers - 1, m)]
  }

  function Propose(s: RState, cmds: seq<Command>): RState
    requires WF(s)
  {
    var inst := s.crt[s.id] + 1;
    var x := InstId(s.id, inst);
    var blank := NewInstance(s.n).(cmds := cmds, status := PreAccepted);
    var s1 := s.(crt := s.crt[s.id := inst], space := s.space[x := blank]);
    var deps := Attributes(s1, cmds, blank.deps, s.id, s.n)[s.id := inst - 1];
    var e := blank.(deps := deps, reach := blank.reach[s.id := true]);
    var m := Msg(s.id, inst, cmds, deps, 0, s.id);
    s1.(space := s.space[x := e],
        conflicts := s.conflicts[s.id := Record(s.conflicts[s.id], cmds, inst)],
        out := s.out + Broadcast(s.id, m, s.n))
  }

  // ---- handlePreAcceptReply ----

  function Touch(s: RState, x: InstId): RState {
    if x in s.space then s else s.(space := s.space[x := NewInstance(s.n)])
  }

  function SetDep(s: RState, x: InstId, j: nat, d: int): RState
    requires x in s.space && j < |s.space[x].deps|
  {
    s.(space := s.space[x := s.space[x].(deps := s.space[x].deps[j := d])])
  }

  function Park(s: RState, k: InstId, m: Msg): RState {
    s.(waitlist := s.waitlist[k := (if k in s.waitlist then s.waitlist[k] else []) + [m]])
  }

  function Waiting(s: RState, x: InstId): seq<Msg> {
    if x in s.waitlist then s.waitlist[x] else []
  }

  function FillDeps(deps: seq<int>, from: seq<int>): seq<int>
    requires |deps| == |from|
  {
    seq(|deps|, j requires 0 <= j < |deps| => if deps[j] == -1 then from[j] else deps[j])
  }

  // Everything between the decision to answer and the retry of the parked proposals.
  function Accept(s: RState, m: Msg): RState
    requires WF(s) && WFMsg(m, s.n) && m.Id() in s.space
  {
    var x := m.Id();
    var e := s.space[x].(deps := FillDeps(s.space[x].deps, m.deps), cmds := m.cmds, status := PreAcceptedEq);
    s.(crt := if m.inst > s.crt[m.rep] then s.crt[m.rep := m.inst] else s.crt,
       space := s.space[x := e],
       conflicts := s.conflicts[m.rep := Record(s.conflicts[m.rep], m.cmds, m.inst)],
       waitlist := s.waitlist - {x})
  }

  function Vote(s: RState, m: Msg, dep: int): Msg {
    Msg(m.rep, m.inst, [], seq(s.n, _ => 0), dep, s.id)
  }

  function ReachedInstance(id: nat, e: Instance, m: Msg): Instance
    requires id < |e.reach| && m.rep < |e.reach| && m.sender < |e.reach| == |e.deps|
  {
    e.(reach := e.reach[id := true][m.rep := true][m.sender := true],
       deps := if m.sender < m.rep then e.deps[m.sender := m.senderDep] else e.deps)
  }

  function Reached(s: RState, m: Msg): RState
    requires WF(s) && WFMsg(m, s.n) && m.Id() in s.space
  {
    s.(space := s.space[m.Id() := ReachedInstance(s.id, s.space[m.Id()], m)])
  }

  // ---- The wait list bounds the recursion ----

  ghost function WaitSlots(w: map<InstId, seq<Msg>>): set<(InstId, int)> {
    set k, i | k in w && 0 <= i < |w[k]| :: (k, i)
  }

  lemma {:induction false} Slots(k: InstId, n: nat)
    ensures |set i | 0 <= i < n :: (k, i)| == n
  {
    if n > 0 {
      Slots(k, n - 1);
      assert (set i | 0 <= i < n :: (k, i)) == (set i | 0 <= i < n - 1 :: (k, i)) + {(k, n - 1)};
    }
  }

  lemma ParkAddsSlot(s: RState, k: InstId, m: Msg)
    ensures |WaitSlots(Park(s, k, m).waitlist)| == |WaitSlots(s.waitlist)| + 1
  {
    var w := s.waitlist;
    var n := if k in w then |w[k]| else 0;
    assert WaitSlots(Park(s, k, m).waitlist) == WaitSlots(w) + {(k, n)};
  }

  lemma PopFreesSlots(s: RState, x: InstId)
    ensures |WaitSlots(s.waitlist - {x})| + |Waiting(s, x)| == |WaitSlots(s.waitlist)|
  {
    var w := s.waitlist;
    var n := |Waiting(s, x)|;
    Slots(x, n);
    var freed := set i | 0 <= i < n :: (x, i);
    assert WaitSlots(w) == WaitSlots(w - {x}) + freed;
    assert WaitSlots(w - {x}) !! freed;
  }

  ghost predicate Grows(s: RState, t: RState) {
    t.id == s.id && t.n == s.n && s.space.Keys <= t.space.Keys
  }

  lemma TouchWF(s: RState, x: InstId)
    requires WF(s) && x.rep < s.n
    ensures WF(Touch(s, x)) && Grows(s, Touch(s, x)) && Touch(s, x).waitlist == s.waitlist
  {
    var t := Touch(s, x);
    forall q | 0 <= q < t.n ensures WFRow(t.space, q, t.conflicts[q]) {
      assert WFRow(s.space, q, s.conflicts[q]);
    }
  }

  lemma SetDepWF(s: RState, x: InstId, j: nat, d: int)
    requires WF(s) && x in s.space && j < s.n && d >= -1
    ensures WF(SetDep(s, x, j, d)) && Grows(s, SetDep(s, x, j, d))
  {
    var t := SetDep(s, x, j, d);
    forall q | 0 <= q < t.n ensures WFRow(t.space, q, t.conflicts[q]) {
      assert WFRow(s.space, q, s.conflicts[q]);
    }
  }

  lemma RecordWF(space: map<InstId, Instance>, q: nat, row: map<Key, InstPair>, cmds: seq<Command>, inst: nat)
    requires WFRow(space, q, row) && InstId(q, inst) in space
    ensures WFRow(space, q, Record(row, cmds, inst))
    decreases |cmds|
  {
    if cmds != [] {
      RecordWF(space, q, row, cmds[..|cmds| - 1], inst);
    }
  }

  lemma ParkWF(s: RState, k: InstId, m: Msg)
    requires WF(s) && WFMsg(m, s.n)
    ensures WF(Park(s, k, m))
  {
    var t := Park(s, k, m);
    forall k', m' | k' in t.waitlist && m' in t.waitlist[k'] ensures WFMsg(m', t.n) {
      if k' in s.waitlist && m' in s.waitlist[k'] {
      } else {
        assert m' == m;
      }
    }
  }

  lemma AcceptWF(s: RState, m: Msg)
    requires WF(s) && WFMsg(m, s.n) && m.Id() in s.space
    ensures WF(Accept(s, m)) && Grows(s, Accept(s, m))
  {
    var t := Accept(s, m);
    forall q | 0 <= q < t.n ensures WFRow(t.space, q, t.conflicts[q]) {
      assert WFRow(s.space, q, s.conflicts[q]);
      if q == m.rep { RecordWF(s.space, q, s.conflicts[q], m.cmds, m.inst); }
    }
  }

  lemma ReachedWF(s: RState, m: Msg)
    requires WF(s) && WFMsg(m, s.n) && m.Id() in s.space
    ensures WF(Reached(s, m)) && Grows(s, Reached(s, m))
  {
    var t := Reached(s, m);
    forall q | 0 <= q < t.n ensures WFRow(t.space, q, t.conflicts[q]) {
      assert WFRow(s.space, q, s.conflicts[q]);
    }
  }

  lemma ProposeWF(s: RState, cmds: seq<Command>)
    requires WF(s)
    ensures WF(Propose(s, cmds))
  {
    var t := Propose(s, cmds);
    var x := InstId(s.id, s.crt[s.id] + 1);
    forall q | 0 <= q < t.n ensures WFRow(t.space, q, t.conflicts[q]) {
      assert WFRow(s.space, q, s.conflicts[q]);
      if q == s.id { RecordWF(t.space, q, s.conflicts[q], cmds, x.inst); }
    }
  }

  // The state in which the answer is decided, and the dependency it carries.
  function Judge(s: RState, m: Msg): (r: (RState, Verdict))
    requires WF(s) && WFMsg(m, s.n)
    ensures WF(r.0) && Grows(s, r.0) && m.Id() in r.0.space && r.0.waitlist == s.waitlist
  {
    TouchWF(s, m.Id());
    var s0 := Touch(s, m.Id());
    if m.rep > s.id then
      var v := Priority(s0, m, m.deps[s.id], 0);
      SetDepWF(s0, m.Id(), s.id, v.dep);
      (SetDep(s0, m.Id(), s.id, v.dep), v)
    else (s0, Verdict(0, None))
  }

  function Finish(s: RState, m: Msg): (t: RState)
    requires WF(s) && WFMsg(m, s.n) && m.Id() in s.space
    ensures WF(t) && Grows(s, t) && t.waitlist == s.waitlist
  {
    ReachedWF(s, m);
    var s1 := Reached(s, m);
    if s1.space[m.Id()].status == Committed || s1.space[m.Id()].cmds == [] then s1 else Commit(s1, m.Id())
  }

  function Handle(s: RState, m: Msg): (t: RState)
    requires WF(s) && WFMsg(m, s.n)
    ensures WF(t) && Grows(s, t) && |WaitSlots(t.waitlist)| <= |WaitSlots(s.waitlist)| + 1
    decreases |WaitSlots(s.waitlist)| + 1, 0
  {
    if m.cmds == [] then
      TouchWF(s, m.Id());
      Finish(Touch(s, m.Id()), m)
    else
      var (s1, v) := Judge(s, m);
      if v.waitFor.Some? then
        ParkWF(s1, v.waitFor.value, m);
        ParkAddsSlot(s1, v.waitFor.value, m);
        Park(s1, v.waitFor.value, m)
      else
        AcceptWF(s1, m);
        PopFreesSlots(s1, m.Id());
        Answer(HandleAll(Accept(s1, m), Waiting(s1, m.Id())), m, v.dep)
  }

  // Reply to everyone, count the sender, and try to commit.
  function Answer(s: RState, m: Msg, dep: int): (t: RState)
    requires WF(s) && WFMsg(m, s.n) && m.Id() in s.space
    ensures WF(t) && Grows(s, t) && t.waitlist == s.waitlist
  {
    Finish(s.(out := s.out + Broadcast(s.id, Vote(s, m, dep), s.n)), m)
  }

  function HandleAll(s: RState, ws: seq<Msg>): (t: RState)
    requires WF(s) && forall w <- ws :: WFMsg(w, s.n)
    ensures WF(t) && Grows(s, t) && |WaitSlots(t.waitlist)| <= |WaitSlots(s.waitlist)| + |ws|
    decreases |WaitSlots(s.waitlist)| + |ws|, |ws|
  {
    if ws == [] then s else HandleAll(Handle(s, ws[0]), ws[1..])
  }
}
