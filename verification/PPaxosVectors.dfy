/** What updateAttributes of PPaxos computes (eppaxos/epaxos.go), turn by turn: where a command has
    a later conflict than the column holds, the conflict and its own dependencies are taken over. */
module PPaxosVectors {
  import opened PPaxos
  import opened PPaxosCoverage
  import opened PPaxosGlobal
  import opened PPaxosKnown
  import opened PPaxosLocal
  import opened Store

  // One command in one row: a later conflict d raises its own column to d, and every column to d's dependencies.
  ghost predicate Turn(s: RState, q: nat, c: Command, a: seq<int>, b: seq<int>)
    requires q < s.n == |s.conflicts|
  {
    var d := LatestConflict(s.conflicts[q], c);
    && |a| == |b| == s.n
    && if d > a[q] then
         && d >= 0 && InstId(q, d) in s.space && |s.space[InstId(q, d)].deps| == s.n
         && forall j :: 0 <= j < s.n ==>
              var kept := if j == q then d else a[j];
              var dep := s.space[InstId(q, d)].deps[j];
              b[j] == if dep > kept then dep else kept
       else b == a
  }

  predicate Skipped(s: RState, replica: nat, q: nat) { s.id != replica && q == replica }

  // w[q][i] is the vector before command i in row q, deps the first and r the last of all.
  ghost predicate Turns(s: RState, cmds: seq<Command>, replica: nat, deps: seq<int>, rows: nat, w: seq<seq<seq<int>>>, r: seq<int>)
    requires rows <= s.n == |s.conflicts|
  {
    && |w| == rows + 1 && (forall q :: 0 <= q <= rows ==> |w[q]| == |cmds| + 1)
    && w[0][0] == deps && w[rows][0] == r
    && (forall q :: 0 <= q < rows ==> w[q][|cmds|] == w[q + 1][0])
    && forall q, i :: 0 <= q < rows && 0 <= i < |cmds| ==>
         if Skipped(s, replica, q) then w[q][i + 1] == w[q][i] else Turn(s, q, cmds[i], w[q][i], w[q][i + 1])
  }

  lemma TurnIs(s: RState, c: Command, a: seq<int>, q: nat)
    requires WF(s) && q < s.n && |a| == s.n && forall j :: 0 <= j < s.n ==> a[j] >= -1
    ensures Turn(s, q, c, a, AttrCmd(s, c, a, q))
  {
    assert WFRow(s.space, q, s.conflicts[q]);
  }

  lemma {:induction false} RowTurns(s: RState, cmds: seq<Command>, deps: seq<int>, q: nat) returns (v: seq<seq<int>>)
    requires WF(s) && q < s.n && |deps| == s.n && forall j :: 0 <= j < s.n ==> deps[j] >= -1
    ensures |v| == |cmds| + 1 && v[0] == deps && v[|cmds|] == AttrRow(s, cmds, deps, q)
    ensures forall i :: 0 <= i < |cmds| ==> Turn(s, q, cmds[i], v[i], v[i + 1])
    decreases |cmds|
  {
    hide WF, Turn, LatestConflict;
    if cmds == [] {
      v := [deps];
    } else {
      var p, c := cmds[..|cmds| - 1], cmds[|cmds| - 1];
      var u := RowTurns(s, p, deps, q);
      TurnIs(s, c, AttrRow(s, p, deps, q), q);
      v := u + [AttrRow(s, cmds, deps, q)];
    }
  }

  lemma {:induction false} AttributesTurns(s: RState, cmds: seq<Command>, deps: seq<int>, replica: nat, rows: nat) returns (w: seq<seq<seq<int>>>)
    requires WF(s) && rows <= s.n && |deps| == s.n && forall j :: 0 <= j < s.n ==> deps[j] >= -1
    ensures Turns(s, cmds, replica, deps, rows, w, Attributes(s, cmds, deps, replica, rows))
    decreases rows
  {
    hide WFRow, WFInstance, WFMsg, Turn, AttrRow, LatestConflict;
    var r := Attributes(s, cmds, deps, replica, rows);
    if rows == 0 {
      w := [seq(|cmds| + 1, _ => deps)];
    } else {
      var u := AttributesTurns(s, cmds, deps, replica, rows - 1);
      var prev := Attributes(s, cmds, deps, replica, rows - 1);
      var v;
      if Skipped(s, replica, rows - 1) {
        v := seq(|cmds| + 1, _ => prev);
      } else {
        v := RowTurns(s, cmds, prev, rows - 1);
      }
      w := u[..rows - 1] + [v, seq(|cmds| + 1, _ => r)];
    }
  }

  // ---- What that means for the result ----

  lemma {:induction false} RowRises(s: RState, cmds: seq<Command>, replica: nat, deps: seq<int>, rows: nat, w: seq<seq<seq<int>>>, r: seq<int>, q: nat, i: nat, l: nat)
    requires rows <= s.n == |s.conflicts| && |deps| == s.n && Turns(s, cmds, replica, deps, rows, w, r) && q < rows && i <= l <= |cmds| && |w[q][i]| == s.n
    ensures |w[q][l]| == s.n && forall j :: 0 <= j < s.n ==> w[q][l][j] >= w[q][i][j]
    decreases l
  {
    if i < l {
      RowRises(s, cmds, replica, deps, rows, w, r, q, i, l - 1);
      assert if Skipped(s, replica, q) then w[q][l - 1 + 1] == w[q][l - 1] else Turn(s, q, cmds[l - 1], w[q][l - 1], w[q][l - 1 + 1]);
      hide Turns, LatestConflict;
    }
  }

  lemma {:induction false} VectorsRise(s: RState, cmds: seq<Command>, replica: nat, deps: seq<int>, rows: nat, w: seq<seq<seq<int>>>, r: seq<int>, q: nat, i: nat)
    requires rows <= s.n == |s.conflicts| && |deps| == s.n && Turns(s, cmds, replica, deps, rows, w, r) && q <= rows && i <= |cmds| && (q == rows ==> i == 0) && |w[q][i]| == s.n
    ensures |r| == s.n && forall j :: 0 <= j < s.n ==> r[j] >= w[q][i][j]
    decreases rows - q
  {
    if q < rows {
      RowRises(s, cmds, replica, deps, rows, w, r, q, i, |cmds|);
      hide Turn;
      VectorsRise(s, cmds, replica, deps, rows, w, r, q + 1, 0);
    }
  }

  lemma {:induction false} VectorsWide(s: RState, cmds: seq<Command>, replica: nat, deps: seq<int>, rows: nat, w: seq<seq<seq<int>>>, r: seq<int>, q: nat)
    requires rows <= s.n == |s.conflicts| && |deps| == s.n && Turns(s, cmds, replica, deps, rows, w, r) && q <= rows
    ensures |w[q][0]| == s.n
    decreases q
  {
    if q > 0 {
      VectorsWide(s, cmds, replica, deps, rows, w, r, q - 1);
      RowRises(s, cmds, replica, deps, rows, w, r, q - 1, 0, |cmds|);
    }
  }

  // r reaches d in row q and everything d depends on.
  ghost predicate Merged(s: RState, q: nat, d: int, r: seq<int>) {
    && d >= 0 && InstId(q, d) in s.space && q < |r| == |s.space[InstId(q, d)].deps|
    && r[q] >= d && forall j :: 0 <= j < |r| ==> r[j] >= s.space[InstId(q, d)].deps[j]
  }

  // If c has a later conflict in row q than vector a holds, r reaches it and everything it depends on.
  ghost predicate TakesIn(s: RState, q: nat, c: Command, a: seq<int>, r: seq<int>)
    requires q < s.n == |s.conflicts|
  {
    var d := LatestConflict(s.conflicts[q], c);
    |r| == s.n == |a| && (d > a[q] ==> Merged(s, q, d, r))
  }

  // The result takes over every dependency of every conflict that was taken.
  lemma TakesOver(s: RState, cmds: seq<Command>, replica: nat, deps: seq<int>, w: seq<seq<seq<int>>>, r: seq<int>, q: nat, i: nat)
    requires s.n == |s.conflicts| && |deps| == s.n && Turns(s, cmds, replica, deps, s.n, w, r) && q < s.n && i < |cmds| && !Skipped(s, replica, q)
    ensures TakesIn(s, q, cmds[i], w[q][i], r)
  {
    VectorsWide(s, cmds, replica, deps, s.n, w, r, q);
    RowRises(s, cmds, replica, deps, s.n, w, r, q, 0, i);
    RowRises(s, cmds, replica, deps, s.n, w, r, q, 0, i + 1);
    assert Turn(s, q, cmds[i], w[q][i], w[q][i + 1]);
    if i + 1 < |cmds| || q < s.n { NextRises(s, cmds, replica, deps, w, r, q, i + 1); }
    hide Turns, LatestConflict;
  }

  lemma NextRises(s: RState, cmds: seq<Command>, replica: nat, deps: seq<int>, w: seq<seq<seq<int>>>, r: seq<int>, q: nat, i: nat)
    requires s.n == |s.conflicts| && |deps| == s.n && Turns(s, cmds, replica, deps, s.n, w, r) && q < s.n && i <= |cmds| && |w[q][i]| == s.n
    ensures |r| == s.n && forall j :: 0 <= j < s.n ==> r[j] >= w[q][i][j]
  {
    VectorsRise(s, cmds, replica, deps, s.n, w, r, q, i);
  }

  // A column of a vector is the given value, a conflict in that row, or a dependency of a conflict.
  ghost predicate Founded(s: RState, cmds: seq<Command>, replica: nat, deps: seq<int>, j: nat, x: int)
    requires s.n == |s.conflicts| && j < |deps|
  {
    x == deps[j] || exists q: nat, l: nat :: FromConflict(s, cmds, replica, q, l, j, x)
  }

  ghost predicate FromConflict(s: RState, cmds: seq<Command>, replica: nat, q: nat, l: nat, j: nat, x: int)
    requires s.n == |s.conflicts|
  {
    && q < s.n && l < |cmds| && !Skipped(s, replica, q)
    && var d := LatestConflict(s.conflicts[q], cmds[l]);
       && d >= 0 && InstId(q, d) in s.space
       && ((j == q && x == d) || (j < |s.space[InstId(q, d)].deps| && x == s.space[InstId(q, d)].deps[j]))
  }

  lemma {:induction false} NothingElse(s: RState, cmds: seq<Command>, replica: nat, deps: seq<int>, rows: nat, w: seq<seq<seq<int>>>, r: seq<int>, q: nat, i: nat, j: nat)
    requires rows <= s.n == |s.conflicts| && |deps| == s.n && Turns(s, cmds, replica, deps, rows, w, r) && q <= rows && i <= |cmds| && (q == rows ==> i == 0) && j < s.n
    ensures |w[q][i]| == s.n && Founded(s, cmds, replica, deps, j, w[q][i][j])
    decreases q, i
  {
    hide LatestConflict;
    if i > 0 {
      NothingElse(s, cmds, replica, deps, rows, w, r, q, i - 1, j);
      assert if Skipped(s, replica, q) then w[q][i - 1 + 1] == w[q][i - 1] else Turn(s, q, cmds[i - 1], w[q][i - 1], w[q][i - 1 + 1]);
      hide Turns;
      if !Skipped(s, replica, q) && LatestConflict(s.conflicts[q], cmds[i - 1]) > w[q][i - 1][q] && w[q][i][j] != w[q][i - 1][j] {
        assert FromConflict(s, cmds, replica, q, i - 1, j, w[q][i][j]);
      }
    } else if q > 0 {
      NothingElse(s, cmds, replica, deps, rows, w, r, q - 1, |cmds|, j);
    }
  }

  // updateAttributes, both ways: what it takes over, and that it takes nothing else.
  lemma AttributesExact(s: RState, cmds: seq<Command>, deps: seq<int>, replica: nat) returns (w: seq<seq<seq<int>>>)
    requires WF(s) && |deps| == s.n && forall j :: 0 <= j < s.n ==> deps[j] >= -1
    ensures var r := Attributes(s, cmds, deps, replica, s.n);
            && Turns(s, cmds, replica, deps, s.n, w, r)
            && (forall q, i :: 0 <= q < s.n && 0 <= i < |cmds| && !Skipped(s, replica, q) ==> TakesIn(s, q, cmds[i], w[q][i], r))
            && forall j: nat :: j < s.n ==> Founded(s, cmds, replica, deps, j, r[j])
  {
    w := AttributesTurns(s, cmds, deps, replica, s.n);
    var r := Attributes(s, cmds, deps, replica, s.n);
    hide Attributes, Turn, Founded, TakesIn, LatestConflict, WFRow, WFInstance, WFMsg;
    forall q, i | 0 <= q < s.n && 0 <= i < |cmds| && !Skipped(s, replica, q)
      ensures TakesIn(s, q, cmds[i], w[q][i], r)
    {
      TakesOver(s, cmds, replica, deps, w, r, q, i);
    }
    forall j: nat | j < s.n ensures Founded(s, cmds, replica, deps, j, r[j]) {
      NothingElse(s, cmds, replica, deps, s.n, w, r, s.n, 0, j);
    }
  }
}
