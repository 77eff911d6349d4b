/** The invariants of the component search of epaxos/exec.go, on values: the stack with
    its indices, the instances already executed, and the calls still open. */
module EPaxosTarjan {
  import opened EPaxosGraph

  // The stack, the Index field of each of its instances, and the executed instances.
  datatype View = View(stack: seq<InstId>, ix: seq<int>, done: set<InstId>)

  ghost predicate Shape(G: Graph, v: View) {
    && |v.ix| == |v.stack|
    && (forall a, b :: 0 <= a < b < |v.ix| ==> v.ix[a] < v.ix[b])
    && (forall a, b :: 0 <= a < b < |v.stack| ==> v.stack[a] != v.stack[b])
    && (forall a :: 0 <= a < |v.stack| ==> v.stack[a] !in v.done)
    && Closed(G, v.done)
  }

  // Every stack element reaches everything above it.
  ghost predicate Upward(G: Graph, v: View) {
    forall a, b :: 0 <= a < b < |v.stack| ==> Reach(G, v.stack[a], v.stack[b])
  }

  // ... and reaches an open call at or below it.
  ghost predicate Downward(G: Graph, v: View, gray: set<InstId>) {
    forall b :: 0 <= b < |v.stack| ==> Anchored(G, v, gray, b)
  }

  ghost predicate Anchored(G: Graph, v: View, gray: set<InstId>, b: int)
    requires 0 <= b < |v.stack|
  {
    exists a :: 0 <= a <= b && v.stack[a] in gray && Reach(G, v.stack[b], v.stack[a])
  }

  // Finished calls have every successor on the stack or executed.
  ghost predicate Explored(G: Graph, v: View, gray: set<InstId>) {
    forall b, y :: 0 <= b < |v.stack| && v.stack[b] !in gray && Edge(G, v.stack[b], y) ==> y in v.stack || y in v.done
  }

  ghost predicate Search(G: Graph, v: View, gray: set<InstId>) {
    && Shape(G, v) && Upward(G, v) && Downward(G, v, gray) && Explored(G, v, gray)
    && (forall x <- gray :: x in v.stack)
  }

  // Everything on the stack reaches x: the condition to visit x.
  ghost predicate AllReach(G: Graph, v: View, x: InstId) {
    forall b :: 0 <= b < |v.stack| ==> Reach(G, v.stack[b], x)
  }

  function Pushed(v: View, x: InstId, i: int): View {
    View(v.stack + [x], v.ix + [i], v.done)
  }

  lemma Push(G: Graph, v: View, gray: set<InstId>, x: InstId, i: int)
    requires Search(G, v, gray) && AllReach(G, v, x) && x !in v.stack && x !in v.done
    requires forall a :: 0 <= a < |v.ix| ==> v.ix[a] < i
    ensures Search(G, Pushed(v, x, i), gray + {x})
  {
    var w := Pushed(v, x, i);
    hide Reach, Edge;
    ReachSelf(G, x);
    forall b | 0 <= b < |w.stack| ensures Anchored(G, w, gray + {x}, b) {
      if b < |v.stack| {
        assert Anchored(G, v, gray, b);
        var a :| 0 <= a <= b && v.stack[a] in gray && Reach(G, v.stack[b], v.stack[a]);
        assert w.stack[a] in gray + {x} && Reach(G, w.stack[b], w.stack[a]);
      } else {
        assert w.stack[b] == x;
      }
    }
    forall b, y | 0 <= b < |w.stack| && w.stack[b] !in gray + {x} && Edge(G, w.stack[b], y)
      ensures y in w.stack || y in w.done
    {
      assert v.stack[b] !in gray;
    }
    forall z | z in gray + {x} ensures z in w.stack {
      if z != x { assert z in v.stack; }
    }
  }

  // The innermost open call x is reached from the whole stack, hence so are its successors.
  lemma TopReached(G: Graph, v: View, gray: set<InstId>, p: nat, y: InstId)
    requires Search(G, v, gray) && p < |v.stack| && Edge(G, v.stack[p], y)
    requires forall a :: p < a < |v.stack| ==> v.stack[a] !in gray
    ensures AllReach(G, v, y)
  {
    hide Edge, Reach;
    ReachEdge(G, v.stack[p], y);
    forall b | 0 <= b < |v.stack| ensures Reach(G, v.stack[b], y) {
      assert Anchored(G, v, gray, b);
      var a :| 0 <= a <= b && v.stack[a] in gray && Reach(G, v.stack[b], v.stack[a]);
      assert a <= p;
      if a < p { ReachTrans(G, v.stack[a], v.stack[p], y); }
      ReachTrans(G, v.stack[b], v.stack[a], y);
    }
  }

  // ---- What one call leaves behind ----

  // Edges from position `from` upward into the part below p lead to an index of at least low.
  ghost predicate Bounded(G: Graph, v: View, p: nat, from: nat, low: int) {
    forall b, a :: from <= b < |v.stack| && 0 <= a < p && a < |v.stack| && a < |v.ix| && Edge(G, v.stack[b], v.stack[a]) ==> v.ix[a] >= low
  }

  // The lowlink is the index of something below that x reaches.
  ghost predicate LowReached(G: Graph, v: View, x: InstId, low: int, upto: nat) {
    exists a :: 0 <= a < upto && a < |v.stack| && a < |v.ix| && v.ix[a] == low && Reach(G, x, v.stack[a])
  }

  ghost predicate Extends(v: View, w: View) {
    v.stack <= w.stack && v.ix <= w.ix && v.done <= w.done
  }

  // A successful call either executed x and restored the stack, or left x and its subtree on it.
  ghost predicate Visited(G: Graph, v: View, w: View, gray: set<InstId>, x: InstId, low: int) {
    && Search(G, w, gray) && Extends(v, w)
    && (forall b :: |v.stack| <= b < |w.stack| ==> w.stack[b] !in gray)
    && if x in w.done then w.stack == v.stack && (forall a :: 0 <= a < |w.ix| ==> w.ix[a] < low)
       else |v.stack| < |w.stack| && w.stack[|v.stack|] == x && low < w.ix[|v.stack|]
            && LowReached(G, w, x, low, |v.stack|) && Bounded(G, w, |v.stack|, |v.stack|, low)
  }

  // The state of an open call x at position p, with the successors in `seen` handled.
  ghost predicate Open(G: Graph, v: View, gray: set<InstId>, x: InstId, p: nat, low: int, seen: set<InstId>) {
    && Search(G, v, gray) && p < |v.stack| && v.stack[p] == x && x in gray
    && (forall a :: p < a < |v.stack| ==> v.stack[a] !in gray)
    && low <= v.ix[p] && LowReached(G, v, x, low, p + 1)
    && Bounded(G, v, p, p + 1, low)
    && (forall y <- seen :: y in v.done || y in v.stack)
    && (forall a :: 0 <= a < p && v.stack[a] in seen ==> v.ix[a] >= low)
  }

  lemma Opened(G: Graph, v: View, gray: set<InstId>, x: InstId, i: int)
    requires Search(G, v, gray) && AllReach(G, v, x) && x !in v.stack && x !in v.done && x !in gray
    requires forall a :: 0 <= a < |v.ix| ==> v.ix[a] < i
    ensures Open(G, Pushed(v, x, i), gray + {x}, x, |v.stack|, i, {})
  {
    Push(G, v, gray, x, i);
    ReachSelf(G, x);
    hide Search, Reach, Edge;
    var w := Pushed(v, x, i);
    assert w.ix[|v.stack|] == i && w.stack[|v.stack|] == x by { assert |v.ix| == |v.stack| by { SameLength(G, v, gray); } }
  }

  lemma SameLength(G: Graph, v: View, gray: set<InstId>)
    requires Search(G, v, gray)
    ensures |v.ix| == |v.stack| && Shape(G, v)
  {
  }

  // A successor already on the stack lowers the lowlink to its index.
  lemma SeeStacked(G: Graph, v: View, gray: set<InstId>, x: InstId, p: nat, low: int, seen: set<InstId>, c: nat)
    requires Open(G, v, gray, x, p, low, seen) && c < |v.stack| && |v.ix| == |v.stack| && Edge(G, x, v.stack[c])
    ensures Open(G, v, gray, x, p, if v.ix[c] < low then v.ix[c] else low, seen + {v.stack[c]})
  {
    SameLength(G, v, gray);
    hide Search, Reach, Edge;
    var low' := if v.ix[c] < low then v.ix[c] else low;
    ReachEdge(G, x, v.stack[c]);
    if v.ix[c] < low {
      assert c <= p;
      assert LowReached(G, v, x, low', p + 1);
    }
    assert forall a :: 0 <= a < p && v.stack[a] == v.stack[c] ==> a == c;
  }

  lemma SeeDone(G: Graph, v: View, gray: set<InstId>, x: InstId, p: nat, low: int, seen: set<InstId>, y: InstId)
    requires Open(G, v, gray, x, p, low, seen) && y in v.done
    ensures Open(G, v, gray, x, p, low, seen + {y})
  {
    SameLength(G, v, gray);
    hide Search, Reach, Edge, LowReached, Bounded;
  }

  // A successor visited by a nested call passes its lowlink on.
  lemma SeeChild(G: Graph, v: View, w: View, gray: set<InstId>, x: InstId, p: nat, low: int, seen: set<InstId>, y: InstId, lowY: int)
    requires Open(G, v, gray, x, p, low, seen) && Visited(G, v, w, gray, y, lowY) && Edge(G, x, y)
    ensures Open(G, w, gray, x, p, if lowY < low then lowY else low, seen + {y})
  {
    SameLength(G, v, gray);
    SameLength(G, w, gray);
    hide Search, Reach, Edge, Shape;
    ChildLow(G, v, w, gray, x, p, low, seen, y, lowY);
    ChildBound(G, v, w, gray, x, p, low, seen, y, lowY);
    ChildSeen(G, v, w, gray, x, p, low, seen, y, lowY);
    ChildShape(G, v, w, gray, x, p, low, seen, y, lowY);
    hide LowReached, Bounded, Visited, Extends;
  }

  lemma ChildShape(G: Graph, v: View, w: View, gray: set<InstId>, x: InstId, p: nat, low: int, seen: set<InstId>, y: InstId, lowY: int)
    requires Open(G, v, gray, x, p, low, seen) && Visited(G, v, w, gray, y, lowY)
    requires |v.ix| == |v.stack| && |w.ix| == |w.stack|
    ensures Search(G, w, gray) && p < |w.stack| && w.stack[p] == x && x in gray && w.ix[p] >= low
    ensures forall a :: p < a < |w.stack| ==> w.stack[a] !in gray
  {
    hide Search, LowReached, Bounded;
    assert forall a :: 0 <= a < |v.stack| ==> w.stack[a] == v.stack[a] && w.ix[a] == v.ix[a];
  }

  lemma ChildSeen(G: Graph, v: View, w: View, gray: set<InstId>, x: InstId, p: nat, low: int, seen: set<InstId>, y: InstId, lowY: int)
    requires Open(G, v, gray, x, p, low, seen) && Visited(G, v, w, gray, y, lowY)
    requires Shape(G, v) && Shape(G, w) && |v.ix| == |v.stack| && |w.ix| == |w.stack|
    ensures forall z <- seen + {y} :: z in w.done || z in w.stack
    ensures forall a :: 0 <= a < p && w.stack[a] in seen + {y} ==> w.ix[a] >= if lowY < low then lowY else low
  {
    hide Search, LowReached, Bounded, Edge;
    forall z | z in seen + {y} ensures z in w.done || z in w.stack {
      if z == y && z !in w.done {
        assert w.stack[|v.stack|] == y;
      } else if z in v.stack {
        var a :| 0 <= a < |v.stack| && v.stack[a] == z;
        assert w.stack[a] == z;
      }
    }
    forall a | 0 <= a < p && w.stack[a] in seen + {y} ensures w.ix[a] >= if lowY < low then lowY else low {
      assert w.stack[a] == v.stack[a] && w.ix[a] == v.ix[a];
      StackedNotDone(G, w, a);
    }
  }

  lemma StackedNotDone(G: Graph, w: View, a: nat)
    requires Shape(G, w) && a < |w.stack|
    ensures w.stack[a] !in w.done
  {
  }

  lemma ChildLow(G: Graph, v: View, w: View, gray: set<InstId>, x: InstId, p: nat, low: int, seen: set<InstId>, y: InstId, lowY: int)
    requires Open(G, v, gray, x, p, low, seen) && Visited(G, v, w, gray, y, lowY) && Edge(G, x, y)
    requires Shape(G, v) && Shape(G, w)
    ensures LowReached(G, w, x, if lowY < low then lowY else low, p + 1)
  {
    hide Search, Bounded, Edge, Reach;
    assert w.ix[p] == v.ix[p] >= low;
    if lowY < low {
      if y in w.done {
        assert false;
      } else {
        var a :| 0 <= a < |v.stack| && w.ix[a] == lowY && Reach(G, y, w.stack[a]);
        assert a <= p by { assert w.ix[a] < low <= v.ix[p] == w.ix[p]; }
        ReachEdge(G, x, y);
        ReachTrans(G, x, y, w.stack[a]);
      }
    } else {
      var a :| 0 <= a < p + 1 && v.ix[a] == low && Reach(G, x, v.stack[a]);
      assert w.ix[a] == low && w.stack[a] == v.stack[a];
    }
  }

  lemma ChildBound(G: Graph, v: View, w: View, gray: set<InstId>, x: InstId, p: nat, low: int, seen: set<InstId>, y: InstId, lowY: int)
    requires Open(G, v, gray, x, p, low, seen) && Visited(G, v, w, gray, y, lowY)
    requires Shape(G, v) && Shape(G, w)
    ensures Bounded(G, w, p, p + 1, if lowY < low then lowY else low)
  {
    hide Search, Edge, Reach, LowReached;
    forall b, a | p + 1 <= b < |w.stack| && 0 <= a < p && Edge(G, w.stack[b], w.stack[a])
      ensures w.ix[a] >= if lowY < low then lowY else low
    {
      assert w.stack[a] == v.stack[a] && w.ix[a] == v.ix[a];
      if b < |v.stack| { assert w.stack[b] == v.stack[b]; }
    }
  }

  // ---- Closing a call ----

  ghost predicate AllSeen(G: Graph, x: InstId, seen: set<InstId>) {
    forall y :: Edge(G, x, y) ==> y in seen
  }

  // A lowlink below the index: the call ends with x still on the stack.
  lemma Leave(G: Graph, u: View, v: View, gray: set<InstId>, x: InstId, p: nat, low: int, seen: set<InstId>)
    requires Open(G, v, gray + {x}, x, p, low, seen) && AllSeen(G, x, seen) && x !in gray
    requires Extends(u, v) && |u.stack| == |u.ix| == p && |v.ix| == |v.stack| && low < v.ix[p]
    ensures Visited(G, u, v, gray, x, low)
  {
    hide Search, Reach, Edge, LowReached, Bounded, Shape;
    SameLength(G, v, gray + {x});
    StackedNotDone(G, v, p);
    LeaveSearch(G, v, gray, x, p, low, seen);
    LeaveLow(G, v, x, p, low);
    LeaveBound(G, v, gray, x, p, low, seen);
    hide Open, AllSeen;
  }

  lemma LeaveLow(G: Graph, v: View, x: InstId, p: nat, low: int)
    requires LowReached(G, v, x, low, p + 1) && p < |v.ix| && low < v.ix[p]
    ensures LowReached(G, v, x, low, p)
  {
  }

  lemma LeaveBound(G: Graph, v: View, gray: set<InstId>, x: InstId, p: nat, low: int, seen: set<InstId>)
    requires Open(G, v, gray + {x}, x, p, low, seen) && AllSeen(G, x, seen) && |v.ix| == |v.stack|
    ensures Bounded(G, v, p, p, low)
  {
    hide Search, LowReached, Edge;
  }

  lemma LeaveSearch(G: Graph, v: View, gray: set<InstId>, x: InstId, p: nat, low: int, seen: set<InstId>)
    requires Open(G, v, gray + {x}, x, p, low, seen) && AllSeen(G, x, seen) && x !in gray && low < v.ix[p]
    requires Shape(G, v)
    ensures Search(G, v, gray)
  {
    hide Reach, Edge, Bounded;
    var c :| 0 <= c < p + 1 && v.ix[c] == low && Reach(G, x, v.stack[c]);
    assert c < p;
    forall b | 0 <= b < |v.stack| ensures Anchored(G, v, gray, b) {
      LeaveAnchor(G, v, gray, x, p, c, b);
    }
    hide Shape, LowReached;
    forall b, y | 0 <= b < |v.stack| && v.stack[b] !in gray && Edge(G, v.stack[b], y)
      ensures y in v.stack || y in v.done
    {
      if v.stack[b] == x { assert y in seen; }
    }
  }

  lemma LeaveAnchor(G: Graph, v: View, gray: set<InstId>, x: InstId, p: nat, c: nat, b: nat)
    requires Downward(G, v, gray + {x}) && p < |v.stack| && v.stack[p] == x && c < p && Reach(G, x, v.stack[c])
    requires forall a, b :: 0 <= a < b < |v.stack| ==> v.stack[a] != v.stack[b]
    requires b < |v.stack|
    ensures Anchored(G, v, gray, b)
  {
    hide Reach;
    assert Anchored(G, v, gray + {x}, b);
    var a :| 0 <= a <= b && v.stack[a] in gray + {x} && Reach(G, v.stack[b], v.stack[a]);
    if v.stack[a] == x {
      assert a == p;
      assert Anchored(G, v, gray + {x}, c);
      var g :| 0 <= g <= c && v.stack[g] in gray + {x} && Reach(G, v.stack[c], v.stack[g]);
      assert v.stack[g] != x;
      ReachTrans(G, v.stack[b], x, v.stack[c]);
      ReachTrans(G, v.stack[b], v.stack[c], v.stack[g]);
    }
  }

  // ---- Popping a component ----

  function Popped(v: View, p: nat): View
    requires p <= |v.stack| && p <= |v.ix|
  {
    View(v.stack[..p], v.ix[..p], v.done + set b | p <= b < |v.stack| :: v.stack[b])
  }

  lemma EdgeStays(G: Graph, v: View, gray: set<InstId>, x: InstId, p: nat, low: int, seen: set<InstId>, b: nat, a: nat)
    requires Open(G, v, gray + {x}, x, p, low, seen) && AllSeen(G, x, seen) && low == v.ix[p] && Shape(G, v)
    requires p <= b < |v.stack| && a < |v.stack| && Edge(G, v.stack[b], v.stack[a])
    ensures a >= p
  {
    hide Edge, Reach, LowReached, Closed, Search;
    assert forall c :: 0 <= c < p ==> v.ix[c] < v.ix[p];
    assert forall c :: 0 <= c < p && Edge(G, v.stack[b], v.stack[c]) ==> v.ix[c] >= low;
  }

  // A lowlink equal to the index closes the segment under dependencies, up to what is executed.
  lemma SegmentClosed(G: Graph, v: View, gray: set<InstId>, x: InstId, p: nat, low: int, seen: set<InstId>)
    requires Open(G, v, gray + {x}, x, p, low, seen) && AllSeen(G, x, seen) && low == v.ix[p]
    requires Shape(G, v)
    ensures Closed(G, Popped(v, p).done)
  {
    var D := Popped(v, p).done;
    hide Edge, Reach, LowReached;
    forall u, y | u in D && Edge(G, u, y) ensures y in D {
      if u !in v.done {
        var b :| p <= b < |v.stack| && v.stack[b] == u;
        assert y in v.stack || y in v.done by {
          if b == p { assert y in seen; } else { assert v.stack[b] !in gray + {x}; }
        }
        if y !in v.done {
          var a :| 0 <= a < |v.stack| && v.stack[a] == y;
          EdgeStays(G, v, gray, x, p, low, seen, b, a);
        }
      }
    }
  }

  // Every element of the segment reaches x: its anchor is not below x, or the search would escape.
  lemma SegmentReaches(G: Graph, v: View, gray: set<InstId>, x: InstId, p: nat, b: nat)
    requires Search(G, v, gray + {x}) && p < |v.stack| && v.stack[p] == x && p <= b < |v.stack|
    requires forall a :: p < a < |v.stack| ==> v.stack[a] !in gray + {x}
    requires p <= |v.ix| && Closed(G, Popped(v, p).done)
    ensures Reach(G, v.stack[b], x)
  {
    hide Reach, Edge;
    assert Anchored(G, v, gray + {x}, b);
    var a :| 0 <= a <= b && v.stack[a] in gray + {x} && Reach(G, v.stack[b], v.stack[a]);
    SegmentDistinct(G, v, p, a);
    ReachStays(G, Popped(v, p).done, v.stack[b], v.stack[a]);
  }

  lemma SegmentDistinct(G: Graph, v: View, p: nat, a: nat)
    requires Shape(G, v) && a < |v.stack| && p <= |v.stack|
    ensures a < p ==> v.stack[a] !in Popped(v, p).done
  {
    hide Closed;
  }

  lemma SegmentIsScc(G: Graph, v: View, gray: set<InstId>, x: InstId, p: nat, low: int, seen: set<InstId>)
    requires Open(G, v, gray + {x}, x, p, low, seen) && AllSeen(G, x, seen) && low == v.ix[p]
    ensures p <= |v.stack| && ExactScc(G, v.stack[p..])
  {
    hide Search, Edge, Reach, LowReached, Bounded, Shape, SameScc, Popped;
    SameLength(G, v, gray + {x});
    SegmentClosed(G, v, gray, x, p, low, seen);
    var seg := v.stack[p..];
    forall y, z | y in seg ensures z in seg <==> SameScc(G, y, z) {
      var b :| 0 <= b < |seg| && seg[b] == y;
      SegmentMember(G, v, gray, x, p, p + b, z);
    }
    hide Open, AllSeen, Closed;
  }

  lemma SegmentMember(G: Graph, v: View, gray: set<InstId>, x: InstId, p: nat, b: nat, z: InstId)
    requires Search(G, v, gray + {x}) && Shape(G, v) && p < |v.stack| && v.stack[p] == x && p <= b < |v.stack|
    requires forall a :: p < a < |v.stack| ==> v.stack[a] !in gray + {x}
    requires p <= |v.ix| && Closed(G, Popped(v, p).done)
    ensures z in v.stack[p..] <==> SameScc(G, v.stack[b], z)
  {
    hide Search, Edge, Reach, Shape, SameScc, Popped, Closed;
    SegmentReaches(G, v, gray, x, p, b);
    XReaches(G, v, gray + {x}, p, b);
    if z in v.stack[p..] {
      var c :| p <= c < |v.stack| && v.stack[c] == z;
      SegmentReaches(G, v, gray, x, p, c);
      XReaches(G, v, gray + {x}, p, c);
      ThroughX(G, x, v.stack[b], z);
    }
    if SameScc(G, v.stack[b], z) { StaysInSegment(G, v, p, b, z); }
  }

  lemma ThroughX(G: Graph, x: InstId, y: InstId, z: InstId)
    requires Reach(G, x, y) && Reach(G, y, x) && Reach(G, x, z) && Reach(G, z, x)
    ensures SameScc(G, y, z)
  {
    hide Reach;
    ReachTrans(G, y, x, z);
    ReachTrans(G, z, x, y);
  }

  lemma StaysInSegment(G: Graph, v: View, p: nat, b: nat, z: InstId)
    requires Shape(G, v) && p <= b < |v.stack| && Closed(G, Popped(v, p).done) && SameScc(G, v.stack[b], z)
    ensures z in v.stack[p..]
  {
    hide Reach, Edge, Closed;
    ReachStays(G, Popped(v, p).done, v.stack[b], z);
    if z in v.done {
      ReachStays(G, v.done, z, v.stack[b]) by { assert Closed(G, v.done) by { ShapeClosed(G, v); } }
    } else {
      var c :| p <= c < |v.stack| && v.stack[c] == z;
      assert v.stack[p..][c - p] == z;
    }
  }

  lemma ShapeClosed(G: Graph, v: View)
    requires Shape(G, v)
    ensures Closed(G, v.done)
  {
  }

  lemma XReaches(G: Graph, v: View, gray: set<InstId>, p: nat, b: nat)
    requires Search(G, v, gray) && p <= b < |v.stack|
    ensures Reach(G, v.stack[p], v.stack[b])
  {
    hide Reach;
    if p == b { ReachSelf(G, v.stack[p]); }
  }

  lemma Pop(G: Graph, u: View, v: View, gray: set<InstId>, x: InstId, p: nat, low: int, seen: set<InstId>)
    requires Open(G, v, gray + {x}, x, p, low, seen) && AllSeen(G, x, seen) && x !in gray && low == v.ix[p]
    requires Extends(u, v) && |u.stack| == |u.ix| == p && |v.ix| == |v.stack|
    ensures Visited(G, u, Popped(v, p), gray, x, low)
  {
    hide Search, Reach, Edge, LowReached, Bounded, Closed, Shape;
    SameLength(G, v, gray + {x});
    SegmentClosed(G, v, gray, x, p, low, seen);
    var w := Popped(v, p);
    assert v.stack[p] in w.done;
    assert w.stack == u.stack && w.ix == u.ix;
    assert forall a :: 0 <= a < p ==> w.ix[a] < low by { IncreasingTo(G, v, p); }
    PopSearch(G, v, gray, x, p);
    hide Open, AllSeen;
  }

  lemma IncreasingTo(G: Graph, v: View, p: nat)
    requires Shape(G, v) && p < |v.ix|
    ensures forall a :: 0 <= a < p ==> v.ix[a] < v.ix[p]
  {
  }

  lemma PopSearch(G: Graph, v: View, gray: set<InstId>, x: InstId, p: nat)
    requires Search(G, v, gray + {x}) && p < |v.stack| && v.stack[p] == x && x !in gray && |v.ix| == |v.stack|
    requires forall a :: p < a < |v.stack| ==> v.stack[a] !in gray + {x}
    requires Closed(G, Popped(v, p).done)
    ensures Search(G, Popped(v, p), gray)
  {
    var w := Popped(v, p);
    hide Reach, Edge, Closed, Shape, Explored, Anchored;
    PopShape(G, v, p);
    assert forall a, b :: 0 <= a < b < |v.stack| ==> v.stack[a] != v.stack[b] by { ShapeDistinct(G, v); }
    forall b | 0 <= b < p ensures Anchored(G, w, gray, b) {
      PopAnchor(G, v, gray, x, p, b);
    }
    PopExplores(G, v, gray, x, p);
    PopGray(v, gray, x, p);
  }

  lemma ShapeDistinct(G: Graph, v: View)
    requires Shape(G, v)
    ensures forall a, b :: 0 <= a < b < |v.stack| ==> v.stack[a] != v.stack[b]
  {
  }

  lemma PopExplores(G: Graph, v: View, gray: set<InstId>, x: InstId, p: nat)
    requires Explored(G, v, gray + {x}) && p < |v.stack| && v.stack[p] == x && |v.ix| == |v.stack|
    requires forall a, b :: 0 <= a < b < |v.stack| ==> v.stack[a] != v.stack[b]
    ensures Explored(G, Popped(v, p), gray)
  {
    var w := Popped(v, p);
    hide Edge, Explored;
    forall b, y | 0 <= b < |w.stack| && w.stack[b] !in gray && Edge(G, w.stack[b], y) ensures y in w.stack || y in w.done {
      PopExplored(G, v, gray, x, p, b, y);
    }
    ExploredIntro(G, w, gray);
  }

  lemma ExploredIntro(G: Graph, v: View, gray: set<InstId>)
    requires forall b, y :: 0 <= b < |v.stack| && v.stack[b] !in gray && Edge(G, v.stack[b], y) ==> y in v.stack || y in v.done
    ensures Explored(G, v, gray)
  {
  }

  lemma PopGray(v: View, gray: set<InstId>, x: InstId, p: nat)
    requires p < |v.stack| && v.stack[p] == x && x !in gray && forall z <- gray + {x} :: z in v.stack
    requires forall a :: p < a < |v.stack| ==> v.stack[a] !in gray + {x}
    ensures forall z <- gray :: z in v.stack[..p]
  {
    forall z | z in gray ensures z in v.stack[..p] {
      var a :| 0 <= a < |v.stack| && v.stack[a] == z;
      assert v.stack[..p][a] == z;
    }
  }

  lemma PopShape(G: Graph, v: View, p: nat)
    requires Shape(G, v) && p <= |v.stack| && Closed(G, Popped(v, p).done)
    ensures Shape(G, Popped(v, p))
  {
    hide Edge, Closed;
  }

  lemma PopAnchor(G: Graph, v: View, gray: set<InstId>, x: InstId, p: nat, b: nat)
    requires Downward(G, v, gray + {x}) && p < |v.stack| && v.stack[p] == x && |v.ix| == |v.stack| && b < p
    requires forall a, b :: 0 <= a < b < |v.stack| ==> v.stack[a] != v.stack[b]
    ensures Anchored(G, Popped(v, p), gray, b)
  {
    hide Reach;
    assert Anchored(G, v, gray + {x}, b);
    var a :| 0 <= a <= b && v.stack[a] in gray + {x} && Reach(G, v.stack[b], v.stack[a]);
    assert Popped(v, p).stack[a] == v.stack[a];
  }

  lemma PopExplored(G: Graph, v: View, gray: set<InstId>, x: InstId, p: nat, b: nat, y: InstId)
    requires Explored(G, v, gray + {x}) && p < |v.stack| && v.stack[p] == x && |v.ix| == |v.stack| && b < p
    requires v.stack[b] !in gray && v.stack[b] != x && Edge(G, v.stack[b], y)
    ensures y in v.stack[..p] || y in Popped(v, p).done
  {
    if y in v.stack {
      var a :| 0 <= a < |v.stack| && v.stack[a] == y;
      if a < p { assert v.stack[..p][a] == y; }
    }
  }
}
