/** Counting votes around a leader's message (replica/mset.go), and the comparison of
    dependency lists that decides which votes count (sppaxos/defs.go, swift/swift.go). */
module MsgSets {
  import opened CommandIds
  import opened Options
  import opened Store

  // ---- Dependency lists ----

  ghost function Elems(s: seq<CommandId>): set<CommandId> {
    set x | x in s
  }

  method Contains(d: seq<CommandId>, id: CommandId) returns (found: bool)
    ensures found <==> id in Elems(d)
  {
    for i := 0 to |d|
      invariant forall j :: 0 <= j < i ==> d[j] != id
    {
      if d[i] == id {
        return true;
      }
    }
    return false;
  }

  // Compares position by position, keeping what only one list has shown so far.
  method Equals(dep1: seq<CommandId>, dep2: seq<CommandId>) returns (eq: bool)
    ensures eq ==> Elems(dep1) == Elems(dep2) && |dep1| == |dep2|
    ensures NoRepeats(dep1) && NoRepeats(dep2) ==> (eq <==> Elems(dep1) == Elems(dep2))
    ensures NoRepeats(dep1) || AllSame(dep1) ==> (eq <==> SameSet(dep1, dep2))
    ensures eq == EqualLists(dep1, dep2)
  {
    if NoRepeats(dep1) || AllSame(dep1) { ExactOn(dep1, dep2); }
    if |dep1| != |dep2| {
      if NoRepeats(dep1) && NoRepeats(dep2) {
        ElemsSize(dep1);
        ElemsSize(dep2);
      }
      return false;
    }
    var seen1: set<CommandId>, seen2: set<CommandId> := {}, {};
    for i := 0 to |dep1|
      invariant (seen1, seen2) == Seen(dep1[..i], dep2[..i])
    {
      assert dep1[..i + 1][..i] == dep1[..i] && dep2[..i + 1][..i] == dep2[..i];
      if dep1[i] == dep2[i] {
        continue;
      }
      if dep1[i] in seen2 {
        seen2 := seen2 - {dep1[i]};
      } else {
        seen1 := seen1 + {dep1[i]};
      }
      if dep2[i] in seen1 {
        seen1 := seen1 - {dep2[i]};
      } else {
        seen2 := seen2 + {dep2[i]};
      }
    }
    assert dep1[..|dep1|] == dep1 && dep2[..|dep1|] == dep2;
    SeenCovers(dep1, dep2);
    if NoRepeats(dep1) && NoRepeats(dep2) { SeenExact(dep1, dep2); }
    eq := |seen1| == |seen2| && |seen1| == 0;
  }

  // The two running sets after comparing two lists of one length.
  function Seen(a: seq<CommandId>, b: seq<CommandId>): (set<CommandId>, set<CommandId>)
    requires |a| == |b|
  {
    if a == [] then ({}, {})
    else Toggle(Seen(a[..|a| - 1], b[..|b| - 1]), a[|a| - 1], b[|b| - 1])
  }

  function Toggle(s: (set<CommandId>, set<CommandId>), x: CommandId, y: CommandId): (set<CommandId>, set<CommandId>) {
    if x == y then s
    else
      var (t1, t2) := if x in s.1 then (s.0, s.1 - {x}) else (s.0 + {x}, s.1);
      if y in t1 then (t1 - {y}, t2) else (t1, t2 + {y})
  }

  function EqualLists(a: seq<CommandId>, b: seq<CommandId>): bool {
    |a| == |b| && Seen(a, b) == ({}, {})
  }

  // What one list has and the other has not is still marked.
  lemma {:induction false} SeenCovers(a: seq<CommandId>, b: seq<CommandId>)
    requires |a| == |b|
    ensures forall x <- a :: x in b || x in Seen(a, b).0
    ensures forall y <- b :: y in a || y in Seen(a, b).1
    ensures Seen(a, b).0 <= Elems(a) && Seen(a, b).1 <= Elems(b)
  {
    if a != [] {
      var p, q := a[..|a| - 1], b[..|b| - 1];
      SeenCovers(p, q);
      assert a == p + [a[|a| - 1]] && b == q + [b[|b| - 1]];
    }
  }

  lemma {:induction false} SeenExact(a: seq<CommandId>, b: seq<CommandId>)
    requires |a| == |b| && NoRepeats(a) && NoRepeats(b)
    ensures Seen(a, b) == (Elems(a) - Elems(b), Elems(b) - Elems(a))
  {
    if a == [] {
      assert Elems(a) == {} == Elems(b);
      assert Elems(a) - Elems(b) == {} == Elems(b) - Elems(a);
    } else {
      var p, q := a[..|a| - 1], b[..|b| - 1];
      var x, y := a[|a| - 1], b[|b| - 1];
      SeenExact(p, q);
      assert a == p + [x] && b == q + [y];
      assert Elems(a) == Elems(p) + {x} && Elems(b) == Elems(q) + {y};
      hide Elems, Toggle;
      ToggleExact(Elems(p), Elems(q), x, y);
    }
  }

  lemma ToggleExact(A: set<CommandId>, B: set<CommandId>, x: CommandId, y: CommandId)
    requires x !in A && y !in B
    ensures Toggle((A - B, B - A), x, y) == (A + {x} - (B + {y}), B + {y} - (A + {x}))
  {
    var t := Toggle((A - B, B - A), x, y);
    assert t.0 == A + {x} - (B + {y});
    assert t.1 == B + {y} - (A + {x});
  }

  lemma ElemsSize(s: seq<CommandId>)
    requires NoRepeats(s)
    ensures |Elems(s)| == |s|
  {
    DistinctSize(s);
  }

  lemma SeenThree(a: CommandId, b: CommandId, c: CommandId, d: CommandId, e: CommandId, f: CommandId)
    ensures Seen([a, c, e], [b, d, f]) == Toggle(Toggle(Toggle(({}, {}), a, b), c, d), e, f)
  {
    assert [a][..0] == [] && [b][..0] == [];
    assert Seen([a], [b]) == Toggle(({}, {}), a, b);
    assert [a, c][..1] == [a] && [b, d][..1] == [b];
    assert [a, c, e][..2] == [a, c] && [b, d, f][..2] == [b, d];
  }

  predicate AllSame(a: seq<CommandId>) {
    forall i, j :: 0 <= i < |a| && 0 <= j < |a| ==> a[i] == a[j]
  }

  // What the test is meant to tell: the same commands, in lists of one length.
  ghost predicate SameSet(a: seq<CommandId>, b: seq<CommandId>) {
    |a| == |b| && Elems(a) == Elems(b)
  }

  lemma {:induction false} SeenSame(p: seq<CommandId>)
    ensures Seen(p, p) == ({}, {})
  {
    if p != [] { SeenSame(p[..|p| - 1]); }
  }

  lemma {:induction false} SeenTail(p: seq<CommandId>, q: seq<CommandId>, t: seq<CommandId>)
    requires |p| == |q|
    ensures Seen(p + t, q + t) == Seen(p, q)
    decreases |t|
  {
    if t == [] {
      assert p + t == p && q + t == q;
    } else {
      var u := t[..|t| - 1];
      SeenTail(p, q, u);
      assert (p + t)[..|p + t| - 1] == p + u && (q + t)[..|q + t| - 1] == q + u;
    }
  }

  lemma {:induction false} ElemsAtMost(s: seq<CommandId>)
    ensures |Elems(s)| <= |s|
    decreases |s|
  {
    if s == [] {
      assert Elems(s) == {};
    } else {
      var p := s[..|s| - 1];
      ElemsAtMost(p);
      assert s == p + [s[|s| - 1]];
      assert Elems(s) == Elems(p) + {s[|s| - 1]};
    }
  }

  lemma RepeatShrinks(s: seq<CommandId>, i: nat, j: nat)
    requires i < j < |s| && s[i] == s[j]
    ensures |Elems(s)| < |s|
  {
    var r := s[..j] + s[j + 1..];
    assert forall k :: 0 <= k < |r| ==> r[k] == s[if k < j then k else k + 1];
    forall x | x in s ensures x in r {
      var k :| 0 <= k < |s| && s[k] == x;
      assert x == r[if k == j then i else if k < j then k else k - 1];
    }
    assert Elems(s) == Elems(r);
    ElemsAtMost(r);
  }

  // A list without repetitions shares its set and length only with lists without repetitions.
  lemma SameSetDistinct(a: seq<CommandId>, b: seq<CommandId>)
    requires NoRepeats(a) && SameSet(a, b)
    ensures NoRepeats(b)
  {
    ElemsSize(a);
    forall i: nat, j: nat | i < j < |b| && b[i] == b[j] ensures false {
      RepeatShrinks(b, i, j);
    }
  }

  // On such lists, and on lists of one command, the test is exact.
  lemma ExactOn(a: seq<CommandId>, b: seq<CommandId>)
    requires NoRepeats(a) || AllSame(a)
    ensures EqualLists(a, b) <==> SameSet(a, b)
  {
    if |a| == |b| {
      SeenCovers(a, b);
      if SameSet(a, b) {
        if NoRepeats(a) {
          SameSetDistinct(a, b);
          SeenExact(a, b);
          assert Elems(a) - Elems(b) == {} == Elems(b) - Elems(a);
        } else {
          forall k | 0 <= k < |b| ensures b[k] == a[k] {
            assert b[k] in Elems(b);
          }
          assert a == b;
          SeenSame(a);
        }
      }
    }
  }

  // On every other list the test rejects some list of the same length and the same commands.
  lemma RepetitionsMislead(a: seq<CommandId>) returns (b: seq<CommandId>)
    requires !NoRepeats(a) && !AllSame(a)
    ensures SameSet(a, b) && !EqualLists(a, b)
  {
    var i, j :| 0 <= i < j < |a| && a[i] == a[j];
    var k := OtherThan(a, i);
    var x, y := a[j], a[k];
    b := a[j := y];
    assert k != j && b[i] == x && b[k] == y;
    forall z ensures z in a <==> z in b {
      if z in a { var m :| 0 <= m < |a| && a[m] == z; assert b[if m == j then i else m] == z; }
    }
    assert Elems(a) == Elems(b);
    var p, t := a[..j], a[j + 1..];
    assert a == (p + [x]) + t && b == (p + [y]) + t;
    SeenTail(p + [x], p + [y], t);
    SeenSame(p);
    assert (p + [x])[..j] == p && (p + [y])[..j] == p;
    assert Seen(p + [x], p + [y]) == Toggle(({}, {}), x, y);
    assert x in Toggle(({}, {}), x, y).0;
  }

  lemma OtherThan(a: seq<CommandId>, i: nat) returns (k: nat)
    requires i < |a| && !AllSame(a)
    ensures k < |a| && a[k] != a[i]
  {
    var p, q :| 0 <= p < |a| && 0 <= q < |a| && a[p] != a[q];
    k := if a[p] != a[i] then p else q;
  }

  // The test tells, against every other list, whether the commands are the same, if and only if
  // this list has no repetitions or names one command only.
  lemma EqualsExact(a: seq<CommandId>)
    ensures (forall b :: EqualLists(a, b) <==> SameSet(a, b)) <==> NoRepeats(a) || AllSame(a)
  {
    if NoRepeats(a) || AllSame(a) {
      forall b ensures EqualLists(a, b) <==> SameSet(a, b) { ExactOn(a, b); }
    } else {
      var b := RepetitionsMislead(a);
    }
  }

  function NilDepOfCmdId(id: CommandId): seq<CommandId> {
    [id]
  }

  predicate IsNilDepOfCmdId(id: CommandId, dep: seq<CommandId>) {
    |dep| == 1 && dep[0] == id
  }

  // The marker for "no list" is recognised, and is no command's own list of others.
  lemma NilDepRecognised(id: CommandId, dep: seq<CommandId>)
    ensures IsNilDepOfCmdId(id, dep) <==> dep == NilDepOfCmdId(id)
    ensures IsNilDepOfCmdId(id, dep) ==> id in dep
  {
  }

  // ---- Message sets ----

  datatype Quorum = Majority(size: nat) | Members(q: set<Int32>) {
    function Size(): nat { if Majority? then size else |q| }
    predicate Has(rep: Int32) { Majority? || rep in q }
  }

  datatype Votes<M> = Votes(msgs: map<Int32, M>, leaderMsg: Option<M>)

  // What Add leaves, and whether the message was kept.
  function Filtered<M>(accept: (M, Option<M>) -> bool, msgs: map<Int32, M>, leaderMsg: Option<M>): map<Int32, M> {
    map r | r in msgs && accept(msgs[r], leaderMsg) :: msgs[r]
  }

  predicate Counts<M>(q: Quorum, v: Votes<M>, rep: Int32) {
    q.Has(rep) && !(v.leaderMsg.Some? && rep in v.msgs)
  }

  function Added<M>(q: Quorum, accept: (M, Option<M>) -> bool, v: Votes<M>, rep: Int32, isLeader: bool, msg: M): Votes<M> {
    if !Counts(q, v, rep) then v
    else if isLeader then Votes(Filtered(accept, v.msgs, Some(msg)), Some(msg))
    else if accept(msg, v.leaderMsg) then v.(msgs := v.msgs[rep := msg])
    else v
  }

  predicate Fires<M>(q: Quorum, v: Votes<M>) {
    |v.msgs| >= q.Size() || (|v.msgs| >= q.Size() - 1 && v.leaderMsg.Some?)
  }

  // Who has answered: the senders of the kept messages, and the leader once its message is there.
  ghost function Voters<M>(v: Votes<M>, leader: Int32): set<Int32> {
    v.msgs.Keys + if v.leaderMsg.Some? then {leader} else {}
  }

  lemma VotersCount<M>(v: Votes<M>)
    ensures forall leader :: leader !in v.msgs ==> |Voters(v, leader)| == |v.msgs| + if v.leaderMsg.Some? then 1 else 0
  {
    assert |v.msgs.Keys| == |v.msgs|;
  }

  class MsgSet<M> {
    var q: Quorum
    var msgs: map<Int32, M>
    var leaderMsg: Option<M>
    var accept: (M, Option<M>) -> bool

    ghost function Value(): Votes<M>
      reads this
    {
      Votes(msgs, leaderMsg)
    }

    constructor (q: Quorum, accept: (M, Option<M>) -> bool)
      ensures this.q == q && this.accept == accept && Value() == Votes(map[], None)
    {
      this.q, this.accept := q, accept;
      msgs, leaderMsg := map[], None;
    }

    method Reinit(q: Quorum, accept: (M, Option<M>) -> bool)
      modifies this
      ensures this.q == q && this.accept == accept && Value() == Votes(map[], None)
    {
      this.q, this.accept := q, accept;
      leaderMsg := None;
      while msgs != map[]
        invariant this.q == q && this.accept == accept && leaderMsg == None
        decreases |msgs|
      {
        var rep :| rep in msgs;
        msgs := msgs - {rep};
      }
    }

    // `fired` says that the handler runs, `m` what it is given.
    method Add(rep: Int32, isLeader: bool, msg: M) returns (added: bool, fired: bool, m: seq<M>, ghost from: seq<Int32>)
      modifies this
      ensures q == old(q) && accept == old(accept)
      ensures Value() == Added(q, accept, old(Value()), rep, isLeader, msg)
      ensures added <==> Counts(q, old(Value()), rep) && (isLeader || accept(msg, old(leaderMsg)))
      ensures fired <==> Counts(q, old(Value()), rep) && Fires(q, Value())
      ensures forall leader :: leader !in msgs ==>
                (fired <==> q.Has(rep) && !(old(leaderMsg).Some? && rep in old(msgs)) && |Voters(Value(), leader)| >= q.Size())
      ensures fired ==> |m| == |from| && NoRepeats(from) && (forall r :: r in from <==> r in msgs)
                        && forall i :: 0 <= i < |m| ==> from[i] in msgs && m[i] == msgs[from[i]]
    {
      added, fired, m, from := false, false, [], [];
      if !q.Has(rep) {
        return;
      }
      if leaderMsg.Some? && rep in msgs {
        return;
      }
      if isLeader {
        leaderMsg := Some(msg);
        FilterMsgs();
        added := true;
      } else if accept(msg, leaderMsg) {
        msgs := msgs[rep := msg];
        added := true;
      }
      VotersCount(Value());
      if |msgs| >= q.Size() || (|msgs| >= q.Size() - 1 && leaderMsg.Some?) {
        fired := true;
        m, from := Listed();
      }
    }

    // Keeps the messages the new leader message accepts.
    method FilterMsgs()
      modifies this`msgs
      ensures msgs == Filtered(accept, old(msgs), leaderMsg)
    {
      var newMsgs: map<Int32, M> := map[];
      var rest := msgs.Keys;
      while rest != {}
        invariant rest <= msgs.Keys && msgs == old(msgs)
        invariant newMsgs == map r | r in msgs && r !in rest && accept(msgs[r], leaderMsg) :: msgs[r]
        decreases rest
      {
        var r :| r in rest;
        if r !in newMsgs && accept(msgs[r], leaderMsg) {
          newMsgs := newMsgs[r := msgs[r]];
        }
        rest := rest - {r};
      }
      msgs := newMsgs;
    }

    method Listed() returns (m: seq<M>, ghost from: seq<Int32>)
      ensures |m| == |from| && NoRepeats(from) && (forall r :: r in from <==> r in msgs)
      ensures forall i :: 0 <= i < |m| ==> from[i] in msgs && m[i] == msgs[from[i]]
    {
      m, from := [], [];
      var rest := msgs.Keys;
      while rest != {}
        invariant rest <= msgs.Keys && |m| == |from| && NoRepeats(from)
        invariant forall r :: r in from <==> r in msgs && r !in rest
        invariant forall i :: 0 <= i < |m| ==> from[i] in msgs && m[i] == msgs[from[i]]
        decreases rest
      {
        var r :| r in rest;
        m, from := m + [msgs[r]], from + [r];
        rest := rest - {r};
      }
    }
  }

  // ---- Runs of a message set, with the acceptance test of SwiftPaxos ----

  // A fast ack carries its sender's list, or none when it stands for a slow ack.
  datatype Ack = Ack(dep: Option<seq<CommandId>>)

  function DepOf(a: Ack): seq<CommandId> {
    if a.dep.Some? then a.dep.value else []
  }

  predicate AcceptAck(msg: Ack, leaderMsg: Option<Ack>) {
    leaderMsg.None? || msg.dep.None? || EqualLists(DepOf(leaderMsg.value), msg.dep.value)
  }

  datatype Receipt = Receipt(rep: Int32, isLeader: bool, msg: Ack)

  function RunAdds(q: Quorum, es: seq<Receipt>): Votes<Ack> {
    if es == [] then Votes(map[], None)
    else
      var e := es[|es| - 1];
      Added(q, AcceptAck, RunAdds(q, es[..|es| - 1]), e.rep, e.isLeader, e.msg)
  }

  // Exactly the leader's messages are added with the leader flag.
  predicate Flagged(es: seq<Receipt>, leader: Int32) {
    forall e <- es :: e.isLeader <==> e.rep == leader
  }

  predicate Answered(es: seq<Receipt>, rep: Int32, msg: Ack) {
    exists e <- es :: e.rep == rep && e.msg == msg
  }

  // A vote counts if it has no list, or the same commands in its list as the leader.
  predicate Agrees(msg: Ack, leaderMsg: Ack) {
    msg.dep.None? || EqualLists(DepOf(leaderMsg), msg.dep.value)
  }

  ghost predicate VotesSound(q: Quorum, leader: Int32, es: seq<Receipt>, v: Votes<Ack>) {
    && (forall r <- v.msgs :: q.Has(r) && r != leader && Answered(es, r, v.msgs[r]))
    && (v.leaderMsg.Some? ==> q.Has(leader) && Answered(es, leader, v.leaderMsg.value)
                              && forall r <- v.msgs :: Agrees(v.msgs[r], v.leaderMsg.value))
  }

  lemma {:induction false} RunSound(q: Quorum, leader: Int32, es: seq<Receipt>)
    requires Flagged(es, leader)
    ensures VotesSound(q, leader, es, RunAdds(q, es))
  {
    if es != [] {
      var p, e := es[..|es| - 1], es[|es| - 1];
      assert es == p + [e];
      RunSound(q, leader, p);
      assert e in es && (e.isLeader <==> e.rep == leader);
      AnsweredMore(p, e);
      hide Answered, Added, RunAdds;
      AddSound(q, leader, p, es, RunAdds(q, p), e);
    }
  }

  lemma AnsweredMore(p: seq<Receipt>, e: Receipt)
    ensures Answered(p + [e], e.rep, e.msg) && forall r, m :: Answered(p, r, m) ==> Answered(p + [e], r, m)
  {
    var es := p + [e];
    assert e in es;
    forall r, m | Answered(p, r, m) ensures Answered(es, r, m) {
      var f :| f in p && f.rep == r && f.msg == m;
      assert f in es;
    }
  }

  lemma AddSound(q: Quorum, leader: Int32, p: seq<Receipt>, es: seq<Receipt>, v: Votes<Ack>, e: Receipt)
    requires VotesSound(q, leader, p, v) && (e.isLeader <==> e.rep == leader)
    requires Answered(es, e.rep, e.msg) && forall r, m :: Answered(p, r, m) ==> Answered(es, r, m)
    ensures VotesSound(q, leader, es, Added(q, AcceptAck, v, e.rep, e.isLeader, e.msg))
  {
    hide Answered, EqualLists;
  }

  // When the handler runs with a leader message, a full quorum counting the leader has answered,
  // and every counted answer carries no list or the leader's set of dependencies.
  lemma QuorumAnswered(q: Quorum, leader: Int32, es: seq<Receipt>) returns (voters: set<Int32>)
    requires Flagged(es, leader) && Fires(q, RunAdds(q, es)) && RunAdds(q, es).leaderMsg.Some?
    ensures |voters| >= q.Size() && leader in voters && forall r <- voters :: q.Has(r)
    ensures var v := RunAdds(q, es);
            && Answered(es, leader, v.leaderMsg.value)
            && forall r <- voters :: r == leader
                 || (r in v.msgs && Answered(es, r, v.msgs[r])
                     && (v.msgs[r].dep.None? || Elems(v.msgs[r].dep.value) == Elems(DepOf(v.leaderMsg.value))))
  {
    var v := RunAdds(q, es);
    RunSound(q, leader, es);
    voters := v.msgs.Keys + {leader};
    assert |voters| == |v.msgs.Keys| + 1;
    assert |v.msgs.Keys| == |v.msgs|;
    hide RunAdds, Answered;
    forall r | r in v.msgs ensures v.msgs[r].dep.None? || Elems(v.msgs[r].dep.value) == Elems(DepOf(v.leaderMsg.value)) {
      if v.msgs[r].dep.Some? { ListsCover(DepOf(v.leaderMsg.value), v.msgs[r].dep.value); }
    }
  }

  // In any run a quorum has answered exactly when the handler's guard holds.
  lemma HandlerRuns(q: Quorum, leader: Int32, es: seq<Receipt>)
    requires Flagged(es, leader)
    ensures Fires(q, RunAdds(q, es)) <==> |Voters(RunAdds(q, es), leader)| >= q.Size()
  {
    RunSound(q, leader, es);
    VotersCount(RunAdds(q, es));
    hide RunAdds, Answered;
  }

  // ---- Which answers are kept ----

  // s[j] is the first answer of r in s that agrees with the leader's message.
  ghost predicate FirstAgreeing(s: seq<Receipt>, r: Int32, leaderMsg: Ack, j: nat) {
    && j < |s| && s[j].rep == r && Agrees(s[j].msg, leaderMsg)
    && forall l :: 0 <= l < j ==> !(s[l].rep == r && Agrees(s[l].msg, leaderMsg))
  }

  // s[j] is the last answer of r in s.
  ghost predicate LastOf(s: seq<Receipt>, r: Int32, j: nat) {
    j < |s| && s[j].rep == r && forall l :: j < l < |s| ==> s[l].rep != r
  }

  // Without a leader's message the last answer of every member is kept.
  lemma {:induction false} KeptBefore(q: Quorum, leader: Int32, es: seq<Receipt>)
    requires Flagged(es, leader) && forall e <- es :: e.rep != leader
    ensures var v := RunAdds(q, es);
            && v.leaderMsg.None?
            && (forall r :: r in v.msgs <==> q.Has(r) && exists e :: e in es && e.rep == r)
            && forall r, j: nat :: r in v.msgs && LastOf(es, r, j) ==> v.msgs[r] == es[j].msg
  {
    if es != [] {
      var p, e := es[..|es| - 1], es[|es| - 1];
      assert es == p + [e] && e in es;
      KeptBefore(q, leader, p);
      forall r, j: nat | LastOf(es, r, j) ensures if j == |p| then r == e.rep else LastOf(p, r, j) && r != e.rep {
        if j < |p| { assert es[|p|].rep != r; }
      }
      assert forall f :: f in es <==> f in p || f == e;
    }
  }

  // v has what u kept before the leader's message L and agrees with it, and else the first later
  // answer of each member that agrees.
  ghost predicate KeptSince(q: Quorum, u: Votes<Ack>, L: Ack, s: seq<Receipt>, v: Votes<Ack>) {
    && v.leaderMsg == Some(L)
    && forall r :: if r in u.msgs && Agrees(u.msgs[r], L) then r in v.msgs && v.msgs[r] == u.msgs[r]
                   else (r in v.msgs <==> q.Has(r) && exists j :: FirstAgreeing(s, r, L, j))
                        && forall j: nat :: r in v.msgs && FirstAgreeing(s, r, L, j) ==> v.msgs[r] == s[j].msg
  }

  // After the leader's last message an answer of a member is kept exactly if it agrees: the one kept
  // before, or else the first that comes later.
  lemma {:induction false} KeptAfter(q: Quorum, leader: Int32, p: seq<Receipt>, e: Receipt, s: seq<Receipt>)
    requires Flagged(p + [e] + s, leader) && e.rep == leader && q.Has(leader) && forall f <- s :: f.rep != leader
    ensures KeptSince(q, RunAdds(q, p), e.msg, s, RunAdds(q, p + [e] + s))
    decreases |s|
  {
    var es := p + [e] + s;
    if s == [] {
      assert es[..|es| - 1] == p && es[|es| - 1] == e && e in es;
      assert p + ([e] + s) == es;
      FlaggedPrefix(p, [e] + s, leader);
      RunSound(q, leader, p);
    } else {
      var t, f := s[..|s| - 1], s[|s| - 1];
      assert es[..|es| - 1] == p + [e] + t && es[|es| - 1] == f && f in s && f in es;
      assert (p + [e] + t) + [f] == es && t + [f] == s;
      FlaggedPrefix(p + [e] + t, [f], leader);
      KeptAfter(q, leader, p, e, t);
      hide KeptSince, EqualLists, Added;
      KeptStep(q, RunAdds(q, p), e.msg, t, f, RunAdds(q, p + [e] + t));
    }
  }

  lemma KeptStep(q: Quorum, u: Votes<Ack>, L: Ack, t: seq<Receipt>, f: Receipt, v: Votes<Ack>)
    requires KeptSince(q, u, L, t, v)
    ensures KeptSince(q, u, L, t + [f], Added(q, AcceptAck, v, f.rep, false, f.msg))
  {
    hide EqualLists, FirstAgreeing;
    var s, w := t + [f], Added(q, AcceptAck, v, f.rep, false, f.msg);
    assert AcceptAck(f.msg, v.leaderMsg) <==> Agrees(f.msg, L);
    hide Agrees, AcceptAck;
    forall r | !(r in u.msgs && Agrees(u.msgs[r], L))
      ensures r in w.msgs <==> q.Has(r) && exists j :: FirstAgreeing(s, r, L, j)
      ensures forall j: nat :: r in w.msgs && FirstAgreeing(s, r, L, j) ==> j < |s| && w.msgs[r] == s[j].msg
    {
      NextAgreeing(t, f, L, r);
    }
  }

  // The first agreeing answer of r stays the first; f is it if there was none.
  lemma NextAgreeing(t: seq<Receipt>, f: Receipt, L: Ack, r: Int32)
    ensures (exists j :: FirstAgreeing(t + [f], r, L, j)) <==> (exists j :: FirstAgreeing(t, r, L, j)) || (r == f.rep && Agrees(f.msg, L))
    ensures forall j: nat :: FirstAgreeing(t + [f], r, L, j) ==>
              j <= |t| && (if j < |t| then FirstAgreeing(t, r, L, j) && (t + [f])[j] == t[j] else r == f.rep && (t + [f])[j] == f && forall i :: !FirstAgreeing(t, r, L, i))
  {
    hide Agrees;
    var s := t + [f];
    assert forall j: nat :: j < |t| ==> s[j] == t[j] && (FirstAgreeing(s, r, L, j) <==> FirstAgreeing(t, r, L, j));
    if r == f.rep && Agrees(f.msg, L) {
      if l: nat :| l < |t| && t[l].rep == r && Agrees(t[l].msg, L) {
        FirstOf(t, r, L, l);
      } else {
        assert FirstAgreeing(s, r, L, |t|);
      }
    }
  }

  lemma {:induction false} FirstOf(t: seq<Receipt>, r: Int32, L: Ack, l: nat)
    requires l < |t| && t[l].rep == r && Agrees(t[l].msg, L)
    ensures exists j :: FirstAgreeing(t, r, L, j)
    decreases l
  {
    hide Agrees;
    if k: nat :| k < l && t[k].rep == r && Agrees(t[k].msg, L) {
      FirstOf(t, r, L, k);
    } else {
      assert FirstAgreeing(t, r, L, l);
    }
  }

  lemma FlaggedPrefix(a: seq<Receipt>, b: seq<Receipt>, leader: Int32)
    requires Flagged(a + b, leader)
    ensures Flagged(a, leader)
  {
    assert forall e <- a :: e in a + b;
  }

  lemma ListsCover(a: seq<CommandId>, b: seq<CommandId>)
    ensures EqualLists(a, b) ==> Elems(a) == Elems(b)
    ensures NoRepeats(a) && NoRepeats(b) ==> (EqualLists(a, b) <==> Elems(a) == Elems(b))
  {
    if |a| == |b| {
      SeenCovers(a, b);
      if NoRepeats(a) && NoRepeats(b) {
        SeenExact(a, b);
        if Elems(a) == Elems(b) { assert Elems(a) - Elems(b) == {} == Elems(b) - Elems(a); }
      }
    } else if NoRepeats(a) && NoRepeats(b) {
      ElemsSize(a);
      ElemsSize(b);
    }
  }

  // A member's first answer after the leader's counts if it has no list, or one the test accepts.
  predicate AnswerIn(q: Quorum, v: Votes<Ack>, rep: Int32, msg: Ack) {
    rep in Added(q, AcceptAck, v, rep, false, msg).msgs
  }

  // An answer without a list, or with the leader's commands in a list of the same length.
  ghost predicate SameAnswer(msg: Ack, leaderMsg: Ack) {
    msg.dep.None? || SameSet(DepOf(leaderMsg), msg.dep.value)
  }

  // Exactly the answers that agree with the leader count, whatever they are, if and only if the
  // leader's list has no repetitions or names one command only.
  lemma AnswerCounts(q: Quorum, v: Votes<Ack>, rep: Int32)
    requires q.Has(rep) && v.leaderMsg.Some? && rep !in v.msgs
    ensures (forall msg :: AnswerIn(q, v, rep, msg) <==> SameAnswer(msg, v.leaderMsg.value))
              <==> NoRepeats(DepOf(v.leaderMsg.value)) || AllSame(DepOf(v.leaderMsg.value))
    ensures forall msg :: AnswerIn(q, v, rep, msg) ==> msg.dep.None? || Elems(msg.dep.value) == Elems(DepOf(v.leaderMsg.value))
  {
    var L := DepOf(v.leaderMsg.value);
    forall msg ensures AnswerIn(q, v, rep, msg) <==> msg.dep.None? || EqualLists(L, msg.dep.value) {
    }
    forall b ensures EqualLists(L, b) ==> Elems(b) == Elems(L) { ListsCover(L, b); }
    EqualsExact(L);
    if !(NoRepeats(L) || AllSame(L)) {
      var b := RepetitionsMislead(L);
      assert AnswerIn(q, v, rep, Ack(Some(b))) != SameAnswer(Ack(Some(b)), v.leaderMsg.value);
    }
  }
}
