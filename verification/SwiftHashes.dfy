/** The per-key hash logs of a SwiftPaxos replica (getDepAndHashes, recordLeaderHash and
    updateLogs of swift/swift.go): how proposals and the leader's hashes reach them. */
module SwiftHashes {
  import opened CommandIds
  import opened HashLogSpec
  import opened Store
  import opened SwiftDeps

  // ---- The logs ----

  type Logs = map<Key, Log>
  type Histories = map<Key, seq<Event>>

  function LogAt(logs: Logs, k: Key): Log {
    if k in logs then logs[k] else EMPTY
  }

  ghost function EventsAt(h: Histories, k: Key): seq<Event> {
    if k in h then h[k] else []
  }

  lemma LogPut(logs: Logs, key: Key, l: Log)
    ensures forall k: Key :: LogAt(logs[key := l], k) == if k == key then l else LogAt(logs, k)
  {
    var m := logs[key := l];
    forall k: Key ensures LogAt(m, k) == if k == key then l else LogAt(logs, k) {
      assert k in m <==> k in logs || k == key;
    }
  }

  lemma EventsPut(h: Histories, key: Key, es: seq<Event>)
    ensures forall k: Key :: EventsAt(h[key := es], k) == if k == key then es else EventsAt(h, k)
  {
    var m := h[key := es];
    forall k: Key ensures EventsAt(m, k) == if k == key then es else EventsAt(h, k) {
      assert k in m <==> k in h || k == key;
    }
  }

  // Pending in the log of each of its keys: exactly the commands proposed here and not yet recorded.
  ghost predicate PendingExact(logs: Logs, proposes: map<CommandId, Command>, recorded: set<CommandId>)
    requires forall id <- proposes :: proposes[id].Valid()
  {
    forall k, id :: id in LogAt(logs, k).pending <==> id in proposes && k in KeysOf(proposes[id]) && id !in recorded
  }

  ghost predicate LogsOK(d: Digest, logs: Logs, events: Histories) {
    forall k: Key :: LogAt(logs, k) == Run(d, EventsAt(events, k)) && WellFormed(d, LogAt(logs, k)) && LogAt(logs, k).upd == map[]
  }

  // What Propose returned for each command on each of its keys.
  type Answers = map<(Key, CommandId), SHash>

  // The recorded answers are those of the appends in the histories.
  ghost predicate AnswersOK(d: Digest, events: Histories, answers: Answers) {
    forall k: Key, i :: 0 <= i < |EventsAt(events, k)| && EventsAt(events, k)[i].Append? ==>
      Answered(d, EventsAt(events, k), i, k, answers)
  }

  ghost predicate Answered(d: Digest, es: seq<Event>, i: int, k: Key, answers: Answers)
    requires 0 <= i < |es|
  {
    (k, es[i].id) in answers && answers[(k, es[i].id)] == AppendHash(d, Run(d, es[..i]), es[i].id)
  }

  // A leader applies no hashes but its own.
  ghost predicate OnlyAppends(events: Histories) {
    forall k: Key, i :: 0 <= i < |EventsAt(events, k)| ==> EventsAt(events, k)[i].Append?
  }

  datatype Waiting = Waiting(seqnum: int, hashes: seq<SHash>)

  class HashTracker {
    const d: Digest
    const isLeader: bool
    var hlog: Logs
    var proposes: map<CommandId, Command>
    var pendingHashUpds: map<CommandId, Waiting>
    // The commands whose leader hash has been applied, and what happened to each log.
    ghost var recorded: set<CommandId>
    ghost var events: Histories
    ghost var answers: Answers

    ghost predicate Valid()
      reads this
    {
      && (forall id <- proposes :: proposes[id].Valid())
      && LogsOK(d, hlog, events) && PendingExact(hlog, proposes, recorded)
      && AnswersOK(d, events, answers) && (isLeader ==> OnlyAppends(events))
      && (forall k <- answers :: k.1 in proposes)
      && (forall id <- recorded :: id in proposes)
      && (isLeader || forall id <- pendingHashUpds :: id !in proposes)
    }

    constructor (d: Digest, isLeader: bool)
      ensures Valid() && this.d == d && this.isLeader == isLeader && hlog == map[] && proposes == map[] && pendingHashUpds == map[]
    {
      this.d, this.isLeader := d, isLeader;
      hlog, proposes, pendingHashUpds, recorded, events, answers := map[], map[], map[], {}, map[], map[];
    }

    // The hash part of getDepAndHashes.
    method AppendAll(ks: seq<Key>, id: CommandId) returns (hashes: seq<SHash>)
      requires NoRepeats(ks)
      modifies this`hlog, this`events
      ensures |hashes| == |ks| && forall i :: 0 <= i < |ks| ==> hashes[i] == AppendHash(d, LogAt(old(hlog), ks[i]), id)
      ensures forall k: Key :: LogAt(hlog, k) == if k in ks then Appended(d, LogAt(old(hlog), k), id) else LogAt(old(hlog), k)
      ensures forall k: Key :: EventsAt(events, k) == EventsAt(old(events), k) + if k in ks then [Append(id)] else []
    {
      hide Appended, AppendHash, LogAt, EventsAt;
      hashes := [];
      for n := 0 to |ks|
        invariant |hashes| == n && forall i :: 0 <= i < n ==> hashes[i] == AppendHash(d, LogAt(old(hlog), ks[i]), id)
        invariant forall k: Key :: LogAt(hlog, k) == if k in ks[..n] then Appended(d, LogAt(old(hlog), k), id) else LogAt(old(hlog), k)
        invariant forall k: Key :: EventsAt(events, k) == EventsAt(old(events), k) + if k in ks[..n] then [Append(id)] else []
      {
        var key := ks[n];
        assert ks[..n + 1] == ks[..n] + [key] && key !in ks[..n];
        var l := LogAt(hlog, key);
        LogPut(hlog, key, Appended(d, l, id));
        EventsPut(events, key, EventsAt(events, key) + [Append(id)]);
        hashes := hashes + [AppendHash(d, l, id)];
        hlog := hlog[key := Appended(d, l, id)];
        events := events[key := EventsAt(events, key) + [Append(id)]];
      }
      assert ks[..|ks|] == ks;
    }

    // updateLogs; a wrong number of hashes is fatal.
    method UpdateLogs(cmd: Command, id: CommandId, s: int, hs: seq<SHash>) returns (ok: bool)
      requires cmd.Valid()
      modifies this`hlog, this`events
      ensures ok <==> |KeysOf(cmd)| == |hs|
      ensures !ok ==> hlog == old(hlog) && events == old(events)
      ensures ok ==> forall i :: 0 <= i < |hs| ==> LogAt(hlog, KeysOf(cmd)[i]) == Updated(d, LogAt(old(hlog), KeysOf(cmd)[i]), id, s, hs[i], true)
      ensures ok ==> forall i :: 0 <= i < |hs| ==> EventsAt(events, KeysOf(cmd)[i]) == EventsAt(old(events), KeysOf(cmd)[i]) + [Update(id, s, hs[i])]
      ensures forall k: Key :: k !in KeysOf(cmd) ==> LogAt(hlog, k) == LogAt(old(hlog), k) && EventsAt(events, k) == EventsAt(old(events), k)
    {
      hide Updated, KeysOf, LogAt, EventsAt;
      var ks := KeysOf(cmd);
      KeysDistinct(cmd);
      if |ks| != |hs| {
        return false;
      }
      for n := 0 to |ks|
        invariant forall i :: 0 <= i < n ==> LogAt(hlog, ks[i]) == Updated(d, LogAt(old(hlog), ks[i]), id, s, hs[i], true)
        invariant forall i :: 0 <= i < n ==> EventsAt(events, ks[i]) == EventsAt(old(events), ks[i]) + [Update(id, s, hs[i])]
        invariant forall k: Key :: k !in ks[..n] ==> LogAt(hlog, k) == LogAt(old(hlog), k) && EventsAt(events, k) == EventsAt(old(events), k)
      {
        var key := ks[n];
        assert ks[..n + 1] == ks[..n] + [key] && key !in ks[..n];
        var l := LogAt(hlog, key);
        LogPut(hlog, key, Updated(d, l, id, s, hs[n], true));
        EventsPut(events, key, EventsAt(events, key) + [Update(id, s, hs[n])]);
        hlog := hlog[key := Updated(d, l, id, s, hs[n], true)];
        events := events[key := EventsAt(events, key) + [Update(id, s, hs[n])]];
      }
      assert ks[..|ks|] == ks;
      return true;
    }

    // The leader's hashes for a command arrive once; they wait until the command is proposed here.
    method RecordLeaderHash(id: CommandId, s: int, hs: seq<SHash>) returns (ok: bool)
      requires Valid() && !isLeader && id !in recorded && (id in proposes ==> id !in pendingHashUpds)
      modifies this`hlog, this`events, this`pendingHashUpds, this`recorded
      ensures Valid() && (ok <==> id !in proposes || |KeysOf(proposes[id])| == |hs|)
      ensures pendingHashUpds == if id in proposes then old(pendingHashUpds) else old(pendingHashUpds)[id := Waiting(s, hs)]
      ensures recorded == if id in proposes && ok then old(recorded) + {id} else old(recorded)
      ensures id in proposes && ok ==> forall i :: 0 <= i < |hs| ==>
                EventsAt(events, KeysOf(proposes[id])[i]) == EventsAt(old(events), KeysOf(proposes[id])[i]) + [Update(id, s, hs[i])]
      ensures forall k: Key :: id !in proposes || k !in KeysOf(proposes[id]) || !ok ==>
                EventsAt(events, k) == EventsAt(old(events), k)
    {
      if id !in proposes {
        pendingHashUpds := pendingHashUpds[id := Waiting(s, hs)];
        return true;
      }
      ghost var logs, hist := hlog, events;
      ok := UpdateLogs(proposes[id], id, s, hs);
      if ok {
        RecordKeeps(d, logs, hist, hlog, events, proposes, recorded, id, s, hs);
        RecordAnswers(d, hist, events, answers, KeysOf(proposes[id]), id, s, hs);
        recorded := recorded + {id};
      }
    }

    // A proposal: append it to the logs of its keys, then apply the leader's hashes if they were first.
    method Propose(cmd: Command, id: CommandId) returns (hashes: seq<SHash>, ok: bool)
      requires Valid() && cmd.Valid() && id !in proposes
      modifies this
      ensures Valid() && proposes == old(proposes)[id := cmd]
      ensures |hashes| == |KeysOf(cmd)| && forall i :: 0 <= i < |hashes| ==> hashes[i] == AppendHash(d, LogAt(old(hlog), KeysOf(cmd)[i]), id)
      ensures forall i :: 0 <= i < |KeysOf(cmd)| ==> (KeysOf(cmd)[i], id) in answers && answers[(KeysOf(cmd)[i], id)] == hashes[i]
      ensures forall k <- old(answers) :: k in answers && answers[k] == old(answers)[k]
      ensures var waits := id in old(pendingHashUpds) && !isLeader;
              && (ok <==> !waits || |old(pendingHashUpds)[id].hashes| == |KeysOf(cmd)|)
              && pendingHashUpds == (if waits then old(pendingHashUpds) - {id} else old(pendingHashUpds))
              && forall i :: 0 <= i < |KeysOf(cmd)| ==>
                   EventsAt(events, KeysOf(cmd)[i]) == EventsAt(old(events), KeysOf(cmd)[i]) + [Append(id)]
                     + (if waits && ok then [Update(id, old(pendingHashUpds)[id].seqnum, old(pendingHashUpds)[id].hashes[i])] else [])
    {
      hide LogsOK, PendingExact, AnswersOK, OnlyAppends, AnswersWith, KeysOf, LogAt, EventsAt, AppendHash, Appended;
      KeysDistinct(cmd);
      ghost var logs, hist, props := hlog, events, proposes;
      proposes := proposes[id := cmd];
      hashes := AppendAll(KeysOf(cmd), id);
      ProposeKeeps(d, logs, hist, hlog, events, props, recorded, id, cmd);
      ProposeAnswers(d, logs, hist, events, answers, props, KeysOf(cmd), id, hashes);
      answers := AnswersWith(answers, KeysOf(cmd), id, hashes);
      ok := true;
      if id in pendingHashUpds && !isLeader {
        var upd := pendingHashUpds[id];
        pendingHashUpds := pendingHashUpds - {id};
        ok := RecordLeaderHash(id, upd.seqnum, upd.hashes);
      }
    }
  }

  // Appending a new command to the logs of its keys.
  lemma ProposeKeeps(d: Digest, logs: Logs, hist: Histories, logs2: Logs, hist2: Histories,
                     proposes: map<CommandId, Command>, recorded: set<CommandId>, id: CommandId, cmd: Command)
    requires (forall x <- proposes :: proposes[x].Valid()) && cmd.Valid() && id !in proposes && (forall x <- recorded :: x in proposes)
    requires LogsOK(d, logs, hist) && PendingExact(logs, proposes, recorded)
    requires forall k: Key :: LogAt(logs2, k) == if k in KeysOf(cmd) then Appended(d, LogAt(logs, k), id) else LogAt(logs, k)
    requires forall k: Key :: EventsAt(hist2, k) == EventsAt(hist, k) + if k in KeysOf(cmd) then [Append(id)] else []
    ensures LogsOK(d, logs2, hist2) && PendingExact(logs2, proposes[id := cmd], recorded)
  {
    hide KeysOf, LogAt, EventsAt, WellFormed, Appended;
    forall k: Key
      ensures LogAt(logs2, k) == Run(d, EventsAt(hist2, k)) && WellFormed(d, LogAt(logs2, k)) && LogAt(logs2, k).upd == map[]
      ensures forall x :: x in LogAt(logs2, k).pending <==> x in LogAt(logs, k).pending || (x == id && k in KeysOf(cmd))
    {
      assert id !in LogAt(logs, k).pending;
      if k in KeysOf(cmd) {
        AppendPending(d, LogAt(logs, k), id);
        RunNext(d, EventsAt(hist, k), Append(id));
      } else {
        assert EventsAt(hist2, k) == EventsAt(hist, k);
      }
    }
    hide Run;
  }

  lemma AppendPending(d: Digest, l: Log, id: CommandId)
    requires WellFormed(d, l) && l.upd == map[] && id !in l.pending
    ensures var m := Appended(d, l, id);
            WellFormed(d, m) && m.upd == map[] && forall x :: x in m.pending <==> x in l.pending || x == id
  {
    AppendedKeeps(d, l, id);
  }

  lemma RunNext(d: Digest, es: seq<Event>, e: Event)
    ensures Run(d, es + [e]) == Step(d, Run(d, es), e)
  {
    assert (es + [e])[..|es|] == es;
    hide Step;
  }

  // Applying the leader's hashes of a pending command saves nothing for later.
  lemma RecordKeeps(d: Digest, logs: Logs, hist: Histories, logs2: Logs, hist2: Histories,
                    proposes: map<CommandId, Command>, recorded: set<CommandId>, id: CommandId, s: int, hs: seq<SHash>)
    requires (forall x <- proposes :: proposes[x].Valid()) && id in proposes && id !in recorded
    requires LogsOK(d, logs, hist) && PendingExact(logs, proposes, recorded) && |KeysOf(proposes[id])| == |hs|
    requires forall i :: 0 <= i < |hs| ==>
               LogAt(logs2, KeysOf(proposes[id])[i]) == Updated(d, LogAt(logs, KeysOf(proposes[id])[i]), id, s, hs[i], true)
    requires forall i :: 0 <= i < |hs| ==>
               EventsAt(hist2, KeysOf(proposes[id])[i]) == EventsAt(hist, KeysOf(proposes[id])[i]) + [Update(id, s, hs[i])]
    requires forall k: Key :: k !in KeysOf(proposes[id]) ==> LogAt(logs2, k) == LogAt(logs, k) && EventsAt(hist2, k) == EventsAt(hist, k)
    ensures LogsOK(d, logs2, hist2) && PendingExact(logs2, proposes, recorded + {id})
  {
    hide KeysOf, LogAt, EventsAt, WellFormed, Updated, Run;
    var ks := KeysOf(proposes[id]);
    forall k: Key
      ensures LogAt(logs2, k) == Run(d, EventsAt(hist2, k)) && WellFormed(d, LogAt(logs2, k)) && LogAt(logs2, k).upd == map[]
      ensures forall x :: x in LogAt(logs2, k).pending <==> x in LogAt(logs, k).pending && x != id
    {
      assert k in ks <==> id in LogAt(logs, k).pending;
      if k in ks {
        var i :| 0 <= i < |ks| && ks[i] == k;
        UpdatePending(d, LogAt(logs, k), id, s, hs[i]);
        RunNext(d, EventsAt(hist, k), Update(id, s, hs[i]));
      }
    }
  }

  lemma UpdatePending(d: Digest, l: Log, id: CommandId, s: int, h: SHash)
    requires WellFormed(d, l) && l.upd == map[] && id in l.pending
    ensures var m := Updated(d, l, id, s, h, true);
            WellFormed(d, m) && m.upd == map[] && forall x :: x in m.pending <==> x in l.pending && x != id
  {
    UpdatedKeeps(d, l, id, s, h, true);
    forall x ensures x in Without(l.pending, id) <==> x in l.pending && x != id { WithoutMembers(l.pending, id, x); }
  }

  // The answers after a proposal with these keys got these hashes.
  ghost function AnswersWith(answers: Answers, ks: seq<Key>, id: CommandId, hashes: seq<SHash>): Answers
    requires |ks| == |hashes|
  {
    if ks == [] then answers
    else AnswersWith(answers, ks[..|ks| - 1], id, hashes[..|ks| - 1])[(ks[|ks| - 1], id) := hashes[|ks| - 1]]
  }

  lemma {:induction false} AnswersAt(answers: Answers, ks: seq<Key>, id: CommandId, hashes: seq<SHash>)
    requires |ks| == |hashes| && NoRepeats(ks) && forall k <- answers :: k.1 != id
    ensures var m := AnswersWith(answers, ks, id, hashes);
            && (forall i :: 0 <= i < |ks| ==> (ks[i], id) in m && m[(ks[i], id)] == hashes[i])
            && (forall k <- answers :: k in m && m[k] == answers[k])
            && (forall k <- m :: k in answers || k.1 == id)
    decreases |ks|
  {
    if ks != [] {
      AnswersAt(answers, ks[..|ks| - 1], id, hashes[..|ks| - 1]);
    }
  }

  lemma ProposeAnswers(d: Digest, logs: Logs, hist: Histories, hist2: Histories, answers: Answers,
                       proposes: map<CommandId, Command>, ks: seq<Key>, id: CommandId, hashes: seq<SHash>)
    requires AnswersOK(d, hist, answers) && LogsOK(d, logs, hist) && (forall k <- answers :: k.1 in proposes) && id !in proposes
    requires NoRepeats(ks) && |hashes| == |ks| && forall i :: 0 <= i < |ks| ==> hashes[i] == AppendHash(d, LogAt(logs, ks[i]), id)
    requires forall k: Key :: EventsAt(hist2, k) == EventsAt(hist, k) + if k in ks then [Append(id)] else []
    ensures var m := AnswersWith(answers, ks, id, hashes);
            && AnswersOK(d, hist2, m) && (OnlyAppends(hist) ==> OnlyAppends(hist2))
            && (forall k <- m :: k.1 in proposes || k.1 == id)
            && (forall i :: 0 <= i < |ks| ==> (ks[i], id) in m && m[(ks[i], id)] == hashes[i])
            && (forall k <- answers :: k in m && m[k] == answers[k])
  {
    hide AnswersWith, Run, AppendHash, EventsAt, LogAt, WellFormed, Answered;
    var m := AnswersWith(answers, ks, id, hashes);
    AnswersAt(answers, ks, id, hashes);
    forall k: Key, i | 0 <= i < |EventsAt(hist2, k)| && EventsAt(hist2, k)[i].Append? ensures Answered(d, EventsAt(hist2, k), i, k, m) {
      var es, es2 := EventsAt(hist, k), EventsAt(hist2, k);
      if i < |es| {
        assert es2[i] == es[i] && Answered(d, es, i, k, answers);
        AnswerStands(d, es, es2, i, k, answers, m);
      } else {
        var j :| 0 <= j < |ks| && ks[j] == k;
        NewAnswer(d, es, es2, k, m, id, hashes[j]);
      }
    }
  }

  lemma AnswerStands(d: Digest, es: seq<Event>, es2: seq<Event>, i: nat, k: Key, answers: Answers, m: Answers)
    requires i < |es| <= |es2| && es2[..|es|] == es && Answered(d, es, i, k, answers)
    requires forall q <- answers :: q in m && m[q] == answers[q]
    ensures Answered(d, es2, i, k, m)
  {
    assert es2[..i] == es[..i] && es2[i] == es[i];
  }

  lemma NewAnswer(d: Digest, es: seq<Event>, es2: seq<Event>, k: Key, m: Answers, id: CommandId, h: SHash)
    requires es2 == es + [Append(id)] && (k, id) in m && m[(k, id)] == h == AppendHash(d, Run(d, es), id)
    ensures Answered(d, es2, |es|, k, m)
  {
    assert es2[..|es|] == es;
  }

  lemma RecordAnswers(d: Digest, hist: Histories, hist2: Histories, answers: Answers, ks: seq<Key>, id: CommandId, s: int, hs: seq<SHash>)
    requires AnswersOK(d, hist, answers) && |ks| == |hs|
    requires forall i :: 0 <= i < |hs| ==> EventsAt(hist2, ks[i]) == EventsAt(hist, ks[i]) + [Update(id, s, hs[i])]
    requires forall k: Key :: k !in ks ==> EventsAt(hist2, k) == EventsAt(hist, k)
    ensures AnswersOK(d, hist2, answers)
  {
    hide Run, AppendHash, EventsAt, Answered;
    forall k: Key, i | 0 <= i < |EventsAt(hist2, k)| && EventsAt(hist2, k)[i].Append? ensures Answered(d, EventsAt(hist2, k), i, k, answers) {
      var es, es2 := EventsAt(hist, k), EventsAt(hist2, k);
      if k in ks {
        var j :| 0 <= j < |ks| && ks[j] == k;
        assert es2 == es + [Update(id, s, hs[j])];
      }
      assert Answered(d, es, i, k, answers);
      AnswerStands(d, es, es2, i, k, answers, answers);
    }
  }

  // On each key, a follower that appends in the leader's order and applies its hashes in increasing
  // sequence number has returned, for every command, the hash that the leader returned.
  lemma KeyAgreement(leader: HashTracker, follower: HashTracker, k: Key, order: seq<CommandId>, sn: seq<int>, id: CommandId)
    requires leader.Valid() && follower.Valid() && leader.d == follower.d && leader.isLeader
    requires LeaderOrder(order, sn) && Follows(leader.d, order, sn, EventsAt(leader.events, k)) && Follows(leader.d, order, sn, EventsAt(follower.events, k))
    requires Appends(EventsAt(leader.events, k), id) && Appends(EventsAt(follower.events, k), id)
    ensures (k, id) in leader.answers && (k, id) in follower.answers && leader.answers[(k, id)] == follower.answers[(k, id)]
  {
    var es, fs := EventsAt(leader.events, k), EventsAt(follower.events, k);
    hide LogsOK, PendingExact, EventsAt, LeaderOrder, Follows, Run, AppendHash;
    var i :| 0 <= i < |es| && es[i] == Append(id);
    var j :| 0 <= j < |fs| && fs[j] == Append(id);
    assert Answered(leader.d, es, i, k, leader.answers);
    assert Answered(follower.d, fs, j, k, follower.answers);
    HashAgreement(leader.d, order, sn, es, fs, i, j);
  }
}
