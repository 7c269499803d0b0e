/** The paint walk of hydron-ui/src/surface.rs over the node graph: a
    stack seeded with the root, each popped node drawn and its children
    pushed in list order, so the last-listed child is drawn first.
    `PaintOrder` is the order in which the walk meets nodes when the graph
    below the start node is acyclic. */
module Traversal {
  import opened Geometry
  import opened Styles
  import opened Elements
  import opened LayoutSpec
  import opened Sequences

  /** The largest rank among the nodes of `s`. */
  function MaxRank(rank: seq<nat>, s: seq<nat>): (r: nat)
    requires forall k :: 0 <= k < |s| ==> s[k] < |rank|
    ensures forall k :: 0 <= k < |s| ==> rank[s[k]] <= r
    ensures |s| > 0 ==> exists k :: 0 <= k < |s| && r == rank[s[k]]
  {
    if |s| == 0 then 0
    else
      var m := MaxRank(rank, s[..|s| - 1]);
      assert forall k :: 0 <= k < |s| - 1 ==> s[..|s| - 1][k] == s[k];
      Max(rank[s[|s| - 1]], m)
  }

  predicate AllRanked(kids: seq<seq<nat>>, rank: seq<nat>, s: seq<nat>) {
    forall k :: 0 <= k < |s| ==> Ranked(kids, rank, s[k])
  }

  /** The nodes the walk meets from `p`: `p` itself, then everything below
      its last child, ..., then everything below its first child. */
  function PaintOrder(kids: seq<seq<nat>>, rank: seq<nat>, p: nat): (o: seq<nat>)
    requires Ranked(kids, rank, p)
    ensures |o| >= 1 && o[0] == p
    ensures ChildrenIn(o, |kids|)
    decreases rank[p], 1
  {
    if |kids[p]| == 0 then [p]
    else
      assert AllRanked(kids, rank, kids[p]);
      [p] + StackOrder(kids, rank, kids[p])
  }

  /** The nodes the walk meets from a whole stack (top last). */
  function StackOrder(kids: seq<seq<nat>>, rank: seq<nat>, s: seq<nat>): (o: seq<nat>)
    requires AllRanked(kids, rank, s)
    ensures ChildrenIn(o, |kids|)
    decreases MaxRank(rank, s), 2, |s|
  {
    if |s| == 0 then []
    else
      var n := |s| - 1;
      PrefixRanked(kids, rank, s);
      PaintOrder(kids, rank, s[n]) + StackOrder(kids, rank, s[..n])
  }

  /** Pushing `b` on top of `a` means `b` is walked first. */
  lemma {:induction false} StackOrderAppend(kids: seq<seq<nat>>, rank: seq<nat>, a: seq<nat>, b: seq<nat>)
    requires AllRanked(kids, rank, a) && AllRanked(kids, rank, b)
    ensures AllRanked(kids, rank, a + b)
    ensures StackOrder(kids, rank, a + b) == StackOrder(kids, rank, b) + StackOrder(kids, rank, a)
    decreases |b|
  {
    assert AllRanked(kids, rank, a + b) by {
      forall k | 0 <= k < |a + b| ensures Ranked(kids, rank, (a + b)[k]) {
        if k < |a| { assert (a + b)[k] == a[k]; } else { assert (a + b)[k] == b[k - |a|]; }
      }
    }
    if |b| == 0 {
      assert a + b == a;
    } else {
      var n := |b| - 1;
      assert AllRanked(kids, rank, b[..n]) by {
        forall k | 0 <= k < n ensures Ranked(kids, rank, b[..n][k]) {
          assert b[..n][k] == b[k];
        }
      }
      assert (a + b)[..|a + b| - 1] == a + b[..n];
      assert (a + b)[|a + b| - 1] == b[n];
      StackOrderAppend(kids, rank, a, b[..n]);
    }
  }

  /** Every child of a node in `o` occurs in `o` after it. */
  predicate ChildrenAfter(kids: seq<seq<nat>>, o: seq<nat>)
    requires ChildrenIn(o, |kids|)
  {
    forall k, j :: 0 <= k < |o| && 0 <= j < |kids[o[k]]| ==>
      exists l :: k < l < |o| && o[l] == kids[o[k]][j]
  }

  /** Every node in `o` is one of `roots` or a child of a node before it. */
  predicate ParentBefore(kids: seq<seq<nat>>, o: seq<nat>, roots: seq<nat>)
    requires ChildrenIn(o, |kids|)
  {
    forall k :: 0 <= k < |o| ==> o[k] in roots || exists l :: 0 <= l < k && o[k] in kids[o[l]]
  }

  lemma ChildAfter(kids: seq<seq<nat>>, o: seq<nat>, k: nat, j: nat)
    requires ChildrenIn(o, |kids|) && ChildrenAfter(kids, o)
    requires k < |o| && j < |kids[o[k]]|
    ensures exists l :: k < l < |o| && o[l] == kids[o[k]][j]
  {
    // names the child outside the quantifier, so that it can be matched
    assert kids[o[k]][j] in kids[o[k]];
  }

  lemma ParentOf(kids: seq<seq<nat>>, o: seq<nat>, roots: seq<nat>, k: nat)
    requires ChildrenIn(o, |kids|) && ParentBefore(kids, o, roots) && k < |o|
    ensures o[k] in roots || exists l :: 0 <= l < k && o[k] in kids[o[l]]
  {
  }

  lemma ChildrenAfterConcat(kids: seq<seq<nat>>, x: seq<nat>, y: seq<nat>)
    requires ChildrenIn(x, |kids|) && ChildrenIn(y, |kids|)
    requires ChildrenAfter(kids, x) && ChildrenAfter(kids, y)
    ensures ChildrenIn(x + y, |kids|) && ChildrenAfter(kids, x + y)
  {
    var o := x + y;
    assert forall k :: 0 <= k < |x| ==> o[k] == x[k];
    assert forall k :: |x| <= k < |o| ==> o[k] == y[k - |x|];
    forall k, j | 0 <= k < |o| && 0 <= j < |kids[o[k]]|
      ensures exists l :: k < l < |o| && o[l] == kids[o[k]][j]
    {
      if k < |x| {
        assert o[k] == x[k] && 0 <= j < |kids[x[k]]|;
        ChildAfter(kids, x, k, j);
        var l :| k < l < |x| && x[l] == kids[x[k]][j];
        assert o[l] == x[l];
      } else {
        var i := k - |x|;
        assert o[k] == y[i] && 0 <= j < |kids[y[i]]|;
        ChildAfter(kids, y, i, j);
        var l :| i < l < |y| && y[l] == kids[y[i]][j];
        assert o[|x| + l] == y[l];
      }
    }
  }

  lemma ChildrenAfterCons(kids: seq<seq<nat>>, p: nat, s: seq<nat>)
    requires p < |kids| && ChildrenIn(s, |kids|) && ChildrenAfter(kids, s)
    requires forall c :: c in kids[p] ==> c in s
    ensures ChildrenIn([p] + s, |kids|) && ChildrenAfter(kids, [p] + s)
  {
    var o := [p] + s;
    assert forall k :: 0 < k < |o| ==> o[k] == s[k - 1];
    forall k, j | 0 <= k < |o| && 0 <= j < |kids[o[k]]|
      ensures exists l :: k < l < |o| && o[l] == kids[o[k]][j]
    {
      if k == 0 {
        assert kids[p][j] in kids[p];
        var l :| 0 <= l < |s| && s[l] == kids[p][j];
        assert o[l + 1] == s[l];
      } else {
        ChildAfter(kids, s, k - 1, j);
        var l :| k - 1 < l < |s| && s[l] == kids[s[k - 1]][j];
        assert o[l + 1] == s[l];
      }
    }
  }

  lemma ParentBeforeConcat(kids: seq<seq<nat>>, x: seq<nat>, rx: seq<nat>, y: seq<nat>, ry: seq<nat>)
    requires ChildrenIn(x, |kids|) && ChildrenIn(y, |kids|)
    requires ParentBefore(kids, x, rx) && ParentBefore(kids, y, ry)
    ensures ChildrenIn(x + y, |kids|) && ParentBefore(kids, x + y, rx + ry)
  {
    var o := x + y;
    assert forall k :: 0 <= k < |x| ==> o[k] == x[k];
    assert forall k :: |x| <= k < |o| ==> o[k] == y[k - |x|];
    forall k | 0 <= k < |o| ensures o[k] in rx + ry || exists l :: 0 <= l < k && o[k] in kids[o[l]] {
      if k < |x| {
        if x[k] !in rx {
          ParentOf(kids, x, rx, k);
          var l :| 0 <= l < k && x[k] in kids[x[l]];
          assert o[l] == x[l];
        }
      } else {
        if y[k - |x|] !in ry {
          ParentOf(kids, y, ry, k - |x|);
          var l :| 0 <= l < k - |x| && y[k - |x|] in kids[y[l]];
          assert o[|x| + l] == y[l];
        }
      }
    }
  }

  lemma ParentBeforeCons(kids: seq<seq<nat>>, p: nat, s: seq<nat>)
    requires p < |kids| && ChildrenIn(s, |kids|) && ParentBefore(kids, s, kids[p])
    ensures ChildrenIn([p] + s, |kids|) && ParentBefore(kids, [p] + s, [p])
  {
    var o := [p] + s;
    assert forall k :: 0 < k < |o| ==> o[k] == s[k - 1];
    forall k | 0 <= k < |o| ensures o[k] in [p] || exists l :: 0 <= l < k && o[k] in kids[o[l]] {
      if k > 0 {
        if s[k - 1] !in kids[p] {
          ParentOf(kids, s, kids[p], k - 1);
          var l :| 0 <= l < k - 1 && s[k - 1] in kids[s[l]];
          assert o[l + 1] == s[l];
        } else {
          assert o[k] in kids[o[0]];
        }
      }
    }
  }

  /** Every child of a node met is met later (a child is always drawn over
      its parent), and every node met is the start or a child of a node met
      before it (the walk reaches nothing that is not below its start). */
  lemma PaintOrderShape(kids: seq<seq<nat>>, rank: seq<nat>, p: nat)
    requires Ranked(kids, rank, p)
    ensures ChildrenAfter(kids, PaintOrder(kids, rank, p))
    ensures ParentBefore(kids, PaintOrder(kids, rank, p), [p])
  {
    PaintChildrenAfter(kids, rank, p);
    PaintParentBefore(kids, rank, p);
  }

  lemma {:induction false} PaintChildrenAfter(kids: seq<seq<nat>>, rank: seq<nat>, p: nat)
    requires Ranked(kids, rank, p)
    ensures ChildrenAfter(kids, PaintOrder(kids, rank, p))
    decreases rank[p], 1
  {
    if |kids[p]| == 0 {
      assert PaintOrder(kids, rank, p) == [p];
    } else {
      assert AllRanked(kids, rank, kids[p]);
      var s := StackOrder(kids, rank, kids[p]);
      StackChildrenAfter(kids, rank, kids[p]);
      StackOrderCovers(kids, rank, kids[p]);
      ChildrenAfterCons(kids, p, s);
    }
  }

  lemma {:induction false} StackChildrenAfter(kids: seq<seq<nat>>, rank: seq<nat>, s: seq<nat>)
    requires AllRanked(kids, rank, s)
    ensures ChildrenAfter(kids, StackOrder(kids, rank, s))
    decreases MaxRank(rank, s), 2, |s|
  {
    if |s| > 0 {
      var n := |s| - 1;
      PrefixRanked(kids, rank, s);
      var x := PaintOrder(kids, rank, s[n]);
      var y := StackOrder(kids, rank, s[..n]);
      PaintChildrenAfter(kids, rank, s[n]);
      StackChildrenAfter(kids, rank, s[..n]);
      ChildrenAfterConcat(kids, x, y);
    }
  }

  lemma {:induction false} PaintParentBefore(kids: seq<seq<nat>>, rank: seq<nat>, p: nat)
    requires Ranked(kids, rank, p)
    ensures ParentBefore(kids, PaintOrder(kids, rank, p), [p])
    decreases rank[p], 1
  {
    if |kids[p]| == 0 {
      assert PaintOrder(kids, rank, p) == [p];
    } else {
      assert AllRanked(kids, rank, kids[p]);
      var s := StackOrder(kids, rank, kids[p]);
      StackParentBefore(kids, rank, kids[p]);
      ParentBeforeCons(kids, p, s);
    }
  }

  lemma {:induction false} StackParentBefore(kids: seq<seq<nat>>, rank: seq<nat>, s: seq<nat>)
    requires AllRanked(kids, rank, s)
    ensures ParentBefore(kids, StackOrder(kids, rank, s), s)
    decreases MaxRank(rank, s), 2, |s|
  {
    if |s| > 0 {
      var n := |s| - 1;
      PrefixRanked(kids, rank, s);
      var x := PaintOrder(kids, rank, s[n]);
      var y := StackOrder(kids, rank, s[..n]);
      PaintParentBefore(kids, rank, s[n]);
      StackParentBefore(kids, rank, s[..n]);
      ParentBeforeConcat(kids, x, [s[n]], y, s[..n]);
      assert s[..n] + [s[n]] == s;
      ParentBeforeWider(kids, x + y, [s[n]] + s[..n], s);
    }
  }

  /** Every node of the stack is met. */
  lemma {:induction false} StackOrderCovers(kids: seq<seq<nat>>, rank: seq<nat>, s: seq<nat>)
    requires AllRanked(kids, rank, s)
    ensures forall c :: c in s ==> c in StackOrder(kids, rank, s)
    decreases |s|
  {
    if |s| > 0 {
      var n := |s| - 1;
      PrefixRanked(kids, rank, s);
      var x := PaintOrder(kids, rank, s[n]);
      var y := StackOrder(kids, rank, s[..n]);
      StackOrderCovers(kids, rank, s[..n]);
      assert StackOrder(kids, rank, s) == x + y;
      assert s == s[..n] + [s[n]];
      forall c | c in s ensures c in x + y {
        if c == s[n] { assert (x + y)[0] == c; }
        else {
          assert c in s[..n];
          assert c in y;
        }
      }
    }
  }

  /** The stack without its top is ranked no higher. */
  lemma PrefixRanked(kids: seq<seq<nat>>, rank: seq<nat>, s: seq<nat>)
    requires AllRanked(kids, rank, s) && |s| > 0
    ensures AllRanked(kids, rank, s[..|s| - 1])
    ensures MaxRank(rank, s[..|s| - 1]) <= MaxRank(rank, s)
  {
    var n := |s| - 1;
    forall k | 0 <= k < n ensures Ranked(kids, rank, s[..n][k]) && rank[s[..n][k]] <= MaxRank(rank, s) {
      assert s[..n][k] == s[k];
    }
  }

  /** `ParentBefore` still holds with more roots. */
  lemma ParentBeforeWider(kids: seq<seq<nat>>, o: seq<nat>, roots: seq<nat>, wider: seq<nat>)
    requires ChildrenIn(o, |kids|) && ParentBefore(kids, o, roots)
    requires forall c :: c in roots ==> c in wider
    ensures ParentBefore(kids, o, wider)
  {
  }

  /** The commands painting `order` queues: one `DrawRect` per node with a
      solid background, in order. */
  function Drawing(rects: seq<Rect>, styles: seq<Style>, order: seq<nat>): (cs: seq<Command>)
    requires |rects| == |styles| && ChildrenIn(order, |rects|)
    ensures |cs| <= |order|
  {
    if |order| == 0 then []
    else
      var n := |order| - 1;
      assert ChildrenIn(order[..n], |rects|) by {
        forall k | 0 <= k < n ensures order[..n][k] < |rects| { assert order[..n][k] == order[k]; }
      }
      Drawing(rects, styles, order[..n]) + PaintCommands(rects[order[n]], styles[order[n]])
  }

  lemma {:induction false} DrawingAppend(rects: seq<Rect>, styles: seq<Style>, a: seq<nat>, b: seq<nat>)
    requires |rects| == |styles| && ChildrenIn(a, |rects|) && ChildrenIn(b, |rects|)
    ensures ChildrenIn(a + b, |rects|)
    ensures Drawing(rects, styles, a + b) == Drawing(rects, styles, a) + Drawing(rects, styles, b)
    decreases |b|
  {
    assert ChildrenIn(a + b, |rects|) by {
      forall k | 0 <= k < |a + b| ensures (a + b)[k] < |rects| {
        if k < |a| { assert (a + b)[k] == a[k]; } else { assert (a + b)[k] == b[k - |a|]; }
      }
    }
    if |b| == 0 {
      assert a + b == a;
    } else {
      var n := |b| - 1;
      assert ChildrenIn(b[..n], |rects|) by {
        forall k | 0 <= k < n ensures b[..n][k] < |rects| { assert b[..n][k] == b[k]; }
      }
      assert (a + b)[..|a + b| - 1] == a + b[..n];
      assert (a + b)[|a + b| - 1] == b[n];
      DrawingAppend(rects, styles, a, b[..n]);
    }
  }

  /** A stack holding just `p` is walked as `p`'s paint order. */
  lemma SingleStackOrder(kids: seq<seq<nat>>, rank: seq<nat>, p: nat)
    requires Ranked(kids, rank, p)
    ensures AllRanked(kids, rank, [p])
    ensures StackOrder(kids, rank, [p]) == PaintOrder(kids, rank, p)
  {
    assert [p][..0] == [];
    assert PaintOrder(kids, rank, p) + [] == PaintOrder(kids, rank, p);
  }

  /** One round of the paint walk: popping the top `x` of a non-empty
      stack and pushing `x`'s children draws `x` first and leaves the rest
      of the drawing to the new stack, which has less left to walk. */
  lemma PaintStep(kids: seq<seq<nat>>, rank: seq<nat>, rects: seq<Rect>, styles: seq<Style>, s: seq<nat>)
    requires |rects| == |styles| == |kids| && |s| > 0 && AllRanked(kids, rank, s)
    ensures AllRanked(kids, rank, s[..|s| - 1] + kids[s[|s| - 1]])
    ensures |StackOrder(kids, rank, s[..|s| - 1] + kids[s[|s| - 1]])| < |StackOrder(kids, rank, s)|
    ensures Drawing(rects, styles, StackOrder(kids, rank, s))
         == PaintCommands(rects[s[|s| - 1]], styles[s[|s| - 1]])
            + Drawing(rects, styles, StackOrder(kids, rank, s[..|s| - 1] + kids[s[|s| - 1]]))
  {
    var n := |s| - 1;
    var x := s[n];
    var rest := s[..n];
    assert AllRanked(kids, rank, rest) by {
      forall k | 0 <= k < n ensures Ranked(kids, rank, rest[k]) { assert rest[k] == s[k]; }
    }
    assert Ranked(kids, rank, x);
    assert AllRanked(kids, rank, kids[x]);
    StackOrderAppend(kids, rank, rest, kids[x]);
    var below := StackOrder(kids, rank, kids[x]);
    var later := StackOrder(kids, rank, rest);
    assert PaintOrder(kids, rank, x) == [x] + below;
    assert StackOrder(kids, rank, s) == PaintOrder(kids, rank, x) + later;
    DrawingAppend(rects, styles, [x], below);
    DrawingAppend(rects, styles, [x] + below, later);
    DrawingAppend(rects, styles, below, later);
    assert [x][..0] == [];
    assert Drawing(rects, styles, [x]) == PaintCommands(rects[x], styles[x]);
    AppendAssoc(Drawing(rects, styles, [x]), Drawing(rects, styles, below), Drawing(rects, styles, later));
  }

  // ---------------------------------------------------------------------
  // On a tree every node is painted once

  /** Every node is listed at most once, in at most one child list: the
      child lists form a forest. */
  predicate ListedOnce(kids: seq<seq<nat>>) {
    forall y, z, i, j ::
      (0 <= y < |kids| && 0 <= z < |kids| && 0 <= i < |kids[y]| && 0 <= j < |kids[z]| && kids[y][i] == kids[z][j])
      ==> y == z && i == j
  }

  /** A node the walk from `a` meets is ranked, and ranked no higher than `a`. */
  lemma {:induction false} BelowRanked(kids: seq<seq<nat>>, rank: seq<nat>, a: nat, k: nat)
    requires Ranked(kids, rank, a) && k < |PaintOrder(kids, rank, a)|
    ensures Ranked(kids, rank, PaintOrder(kids, rank, a)[k])
    ensures rank[PaintOrder(kids, rank, a)[k]] <= rank[a]
    decreases k
  {
    var o := PaintOrder(kids, rank, a);
    if o[k] != a {
      PaintParentBefore(kids, rank, a);
      var l :| 0 <= l < k && o[k] in kids[o[l]];
      BelowRanked(kids, rank, a, l);
    }
  }

  /** The node the walk from `a` meets just before reaching `x` by a child
      link, when `x` is not `a` itself. */
  lemma ParentBelow(kids: seq<seq<nat>>, rank: seq<nat>, a: nat, x: nat) returns (y: nat)
    requires Ranked(kids, rank, a) && x in PaintOrder(kids, rank, a) && x != a
    ensures y in PaintOrder(kids, rank, a) && x in kids[y]
    ensures Ranked(kids, rank, y) && rank[x] < rank[y] <= rank[a]
  {
    var o := PaintOrder(kids, rank, a);
    var k :| 0 <= k < |o| && o[k] == x;
    PaintParentBefore(kids, rank, a);
    var l :| 0 <= l < k && x in kids[o[l]];
    y := o[l];
    BelowRanked(kids, rank, a, l);
  }

  /** On a forest, two walks that meet a common node start one below the other. */
  lemma {:induction false} CommonBelow(kids: seq<seq<nat>>, rank: seq<nat>, a: nat, b: nat, x: nat)
    requires ListedOnce(kids) && Ranked(kids, rank, a) && Ranked(kids, rank, b)
    requires x in PaintOrder(kids, rank, a) && x in PaintOrder(kids, rank, b)
    ensures a in PaintOrder(kids, rank, b) || b in PaintOrder(kids, rank, a)
    decreases if x < |rank| && rank[x] <= rank[a] then rank[a] - rank[x] else 0
  {
    if x != a && x != b {
      var y := ParentBelow(kids, rank, a, x);
      var z := ParentBelow(kids, rank, b, x);
      var i :| 0 <= i < |kids[y]| && kids[y][i] == x;
      var j :| 0 <= j < |kids[z]| && kids[z][j] == x;
      assert y == z;
      CommonBelow(kids, rank, a, b, y);
    }
  }

  /** On a forest, the walk from one child of `p` never meets a sibling. */
  lemma NoSiblingBelow(kids: seq<seq<nat>>, rank: seq<nat>, p: nat, i: nat, j: nat)
    requires ListedOnce(kids) && Ranked(kids, rank, p)
    requires i < |kids[p]| && j < |kids[p]| && i != j
    ensures kids[p][j] !in PaintOrder(kids, rank, kids[p][i])
  {
    var a, b := kids[p][i], kids[p][j];
    if b in PaintOrder(kids, rank, a) {
      assert b != a;
      var y := ParentBelow(kids, rank, a, b);
      assert false;
    }
  }

  /** A node the walk from a stack meets is met by the walk from one of
      its entries. */
  lemma {:induction false} StackOrderFrom(kids: seq<seq<nat>>, rank: seq<nat>, s: seq<nat>, x: nat)
    requires AllRanked(kids, rank, s) && x in StackOrder(kids, rank, s)
    ensures exists m :: 0 <= m < |s| && x in PaintOrder(kids, rank, s[m])
    decreases |s|
  {
    var n := |s| - 1;
    PrefixRanked(kids, rank, s);
    if x !in PaintOrder(kids, rank, s[n]) {
      StackOrderFrom(kids, rank, s[..n], x);
      var m :| 0 <= m < n && x in PaintOrder(kids, rank, s[..n][m]);
      assert s[..n][m] == s[m];
    }
  }

  /** On a forest, the walk from `p` meets every node once: the paint loop
      draws each node below the root exactly once. */
  lemma {:induction false} PaintOrderDistinct(kids: seq<seq<nat>>, rank: seq<nat>, p: nat)
    requires ListedOnce(kids) && Ranked(kids, rank, p)
    ensures Distinct(PaintOrder(kids, rank, p))
    decreases rank[p], 1
  {
    if |kids[p]| > 0 {
      assert AllRanked(kids, rank, kids[p]);
      assert kids[p][..|kids[p]|] == kids[p];
      StackOrderDistinct(kids, rank, p, |kids[p]|);
      var s := StackOrder(kids, rank, kids[p]);
      forall x | x in [p] ensures x !in s {
        if p in s {
          StackOrderFrom(kids, rank, kids[p], p);
          var m :| 0 <= m < |kids[p]| && p in PaintOrder(kids, rank, kids[p][m]);
          var k :| 0 <= k < |PaintOrder(kids, rank, kids[p][m])| && PaintOrder(kids, rank, kids[p][m])[k] == p;
          BelowRanked(kids, rank, kids[p][m], k);
          assert false;
        }
      }
      DistinctConcat([p], s);
    }
  }

  /** The same for the walk from the first `n` children of `p`. */
  lemma {:induction false} StackOrderDistinct(kids: seq<seq<nat>>, rank: seq<nat>, p: nat, n: nat)
    requires ListedOnce(kids) && Ranked(kids, rank, p) && n <= |kids[p]|
    ensures AllRanked(kids, rank, kids[p][..n])
    ensures Distinct(StackOrder(kids, rank, kids[p][..n]))
    decreases rank[p], 0, n
  {
    var s := kids[p][..n];
    assert AllRanked(kids, rank, s) by {
      forall k | 0 <= k < n ensures Ranked(kids, rank, s[k]) { assert s[k] == kids[p][k]; }
    }
    if n > 0 {
      var m := n - 1;
      assert s[..m] == kids[p][..m];
      assert s[m] == kids[p][m];
      PrefixRanked(kids, rank, s);
      PaintOrderDistinct(kids, rank, kids[p][m]);
      StackOrderDistinct(kids, rank, p, m);
      var x := PaintOrder(kids, rank, kids[p][m]);
      var y := StackOrder(kids, rank, kids[p][..m]);
      forall c | c in x ensures c !in y {
        if c in y {
          StackOrderFrom(kids, rank, kids[p][..m], c);
          var l :| 0 <= l < m && c in PaintOrder(kids, rank, kids[p][..m][l]);
          assert kids[p][..m][l] == kids[p][l];
          CommonBelow(kids, rank, kids[p][m], kids[p][l], c);
          NoSiblingBelow(kids, rank, p, m, l);
          NoSiblingBelow(kids, rank, p, l, m);
          assert false;
        }
      }
      DistinctConcat(x, y);
    }
  }
}
