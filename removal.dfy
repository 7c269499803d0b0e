/** The removal walk of hydron-ui/src/surface.rs: a stack seeded with the
    node to remove; each popped node is unlinked from the list of the parent
    its link names (first occurrence only), its own list is pushed and
    cleared, and its index is freed. The walk needs no acyclicity to end:
    every iteration pops one entry and pushes only entries it deletes from
    the lists. `Closed` and `Grown` say which nodes it frees, whatever the
    graph; on an acyclic graph they are the nodes below the start. */
module Removal {
  import opened Options
  import opened Elements
  import opened LayoutSpec
  import opened Traversal
  import opened Sequences

  /** `Vec::remove_item`: drops the first occurrence of `v`, if any. */
  function RemoveFirst(s: seq<nat>, v: nat): (r: seq<nat>)
    ensures v !in s ==> r == s
    ensures |r| == if v in s then |s| - 1 else |s|
    ensures forall x :: x in r ==> x in s
    ensures forall x :: x in s && x != v ==> x in r
  {
    if |s| == 0 then []
    else if s[0] == v then
      assert s == [s[0]] + s[1..];
      s[1..]
    else
      var r := [s[0]] + RemoveFirst(s[1..], v);
      assert s == [s[0]] + s[1..];
      r
  }

  /** It is the first occurrence that goes. */
  lemma {:induction false} RemoveFirstSplit(s: seq<nat>, v: nat, i: nat)
    requires i < |s| && s[i] == v && v !in s[..i]
    ensures RemoveFirst(s, v) == s[..i] + s[i + 1..]
  {
    if i == 0 {
      assert s[..0] + s[1..] == s[1..];
    } else {
      assert s[0] in s[..i];
      assert s[1..][..i - 1] == s[1..i];
      assert forall x :: x in s[1..i] ==> x in s[..i];
      RemoveFirstSplit(s[1..], v, i - 1);
      assert s[1..][i..] == s[i + 1..];
      assert [s[0]] + s[1..i] == s[..i];
    }
  }

  /** `RemoveFirst` keeps a list free of duplicates, and then no
      occurrence of the value is left. */
  lemma {:induction false} RemoveFirstDistinct(s: seq<nat>, v: nat)
    requires Distinct(s)
    ensures Distinct(RemoveFirst(s, v)) && v !in RemoveFirst(s, v)
    decreases |s|
  {
    if |s| > 0 && s[0] != v {
      assert Distinct(s[1..]) by {
        forall i, j | 0 <= i < j < |s[1..]| ensures s[1..][i] != s[1..][j] {
          assert s[1..][i] == s[i + 1] && s[1..][j] == s[j + 1];
        }
      }
      RemoveFirstDistinct(s[1..], v);
      assert s[0] !in s[1..] by {
        forall k | 0 <= k < |s[1..]| ensures s[1..][k] != s[0] { assert s[1..][k] == s[k + 1]; }
      }
      DistinctConcat([s[0]], RemoveFirst(s[1..], v));
    } else if |s| > 0 {
      assert s[0] !in s[1..] by {
        forall k | 0 <= k < |s[1..]| ensures s[1..][k] != s[0] { assert s[1..][k] == s[k + 1]; }
      }
    }
  }

  /** `s` after `RemoveFirst` of each entry of `vs`, in order. */
  function RemoveEach(s: seq<nat>, vs: seq<nat>): (r: seq<nat>)
    ensures forall x :: x in r ==> x in s
    ensures forall x :: x in s && x !in vs ==> x in r
    decreases |vs|
  {
    if |vs| == 0 then s
    else
      var n := |vs| - 1;
      assert forall x :: x in vs[..n] ==> x in vs;
      RemoveFirst(RemoveEach(s, vs[..n]), vs[n])
  }

  /** The nodes of `freed`, in order, whose recorded parent is `y`: those
      a walk that freed `freed` has unlinked from `y`'s list. */
  function ParentedBy(parents: seq<Option<nat>>, freed: seq<nat>, y: nat): (r: seq<nat>)
    requires ChildrenIn(freed, |parents|)
    ensures forall k :: 0 <= k < |r| ==> r[k] in freed && r[k] < |parents| && parents[r[k]] == Some(y)
    decreases |freed|
  {
    if |freed| == 0 then []
    else
      var n := |freed| - 1;
      assert forall k :: 0 <= k < n ==> freed[..n][k] == freed[k];
      var r := ParentedBy(parents, freed[..n], y);
      assert forall x :: x in freed[..n] ==> x in freed;
      if parents[freed[n]] == Some(y) then r + [freed[n]] else r
  }

  /** Total length of all child lists; removal walks at most this many
      nodes beyond its start. */
  function TotalChildren(kids: seq<seq<nat>>): (t: nat)
    ensures |kids| > 0 ==> t >= |kids[|kids| - 1]|
  {
    if |kids| == 0 then 0 else TotalChildren(kids[..|kids| - 1]) + |kids[|kids| - 1]|
  }

  lemma {:induction false} TotalChildrenUpdate(kids: seq<seq<nat>>, i: nat, x: seq<nat>)
    requires i < |kids|
    ensures TotalChildren(kids[i := x]) + |kids[i]| == TotalChildren(kids) + |x|
    decreases |kids|
  {
    var n := |kids| - 1;
    if i < n {
      assert kids[i := x][..n] == kids[..n][i := x];
      TotalChildrenUpdate(kids[..n], i, x);
    } else {
      assert kids[i := x][..n] == kids[..n];
    }
  }

  /** Every original child of a freed node is freed too. */
  predicate Closed(kids: seq<seq<nat>>, freed: seq<nat>)
    requires ChildrenIn(freed, |kids|)
  {
    forall k, c :: 0 <= k < |freed| && c in kids[freed[k]] ==> c in freed
  }

  /** The walk starts at `start` and every later node is an original child
      of a node freed before it. */
  predicate Grown(kids: seq<seq<nat>>, freed: seq<nat>, start: nat)
    requires ChildrenIn(freed, |kids|)
  {
    && |freed| > 0 && freed[0] == start
    && forall k :: 0 < k < |freed| ==> exists l :: 0 <= l < k && freed[k] in kids[freed[l]]
  }

  /** On an acyclic graph the nodes a removal frees are exactly the nodes a
      paint from the same node would draw. */
  lemma FreedAreBelow(kids: seq<seq<nat>>, rank: seq<nat>, freed: seq<nat>, start: nat)
    requires Ranked(kids, rank, start)
    requires ChildrenIn(freed, |kids|)
    requires Closed(kids, freed) && Grown(kids, freed, start)
    ensures forall x :: x in freed <==> x in PaintOrder(kids, rank, start)
  {
    var o := PaintOrder(kids, rank, start);
    forall k | 0 <= k < |o| ensures o[k] in freed {
      OrderPrefixFreed(kids, rank, freed, start, k);
    }
    forall k | 0 <= k < |freed| ensures freed[k] in o {
      FreedPrefixInOrder(kids, rank, freed, start, k);
    }
  }

  lemma {:induction false} OrderPrefixFreed(kids: seq<seq<nat>>, rank: seq<nat>, freed: seq<nat>, start: nat, k: nat)
    requires Ranked(kids, rank, start)
    requires ChildrenIn(freed, |kids|)
    requires Closed(kids, freed) && Grown(kids, freed, start)
    requires k < |PaintOrder(kids, rank, start)|
    ensures PaintOrder(kids, rank, start)[k] in freed
    decreases k
  {
    var o := PaintOrder(kids, rank, start);
    if k > 0 && o[k] != start {
      PaintOrderShape(kids, rank, start);
      var l :| 0 <= l < k && o[k] in kids[o[l]];
      OrderPrefixFreed(kids, rank, freed, start, l);
    }
  }

  lemma {:induction false} FreedPrefixInOrder(kids: seq<seq<nat>>, rank: seq<nat>, freed: seq<nat>, start: nat, k: nat)
    requires Ranked(kids, rank, start)
    requires ChildrenIn(freed, |kids|)
    requires Grown(kids, freed, start)
    requires k < |freed|
    ensures freed[k] in PaintOrder(kids, rank, start)
    decreases k
  {
    var o := PaintOrder(kids, rank, start);
    if k > 0 {
      var l :| 0 <= l < k && freed[k] in kids[freed[l]];
      FreedPrefixInOrder(kids, rank, freed, start, l);
      var i :| 0 <= i < |o| && o[i] == freed[l];
      var j :| 0 <= j < |kids[o[i]]| && kids[o[i]][j] == freed[k];
      PaintOrderShape(kids, rank, start);
      var m :| i < m < |o| && o[m] == kids[o[i]][j];
    }
  }

  // ---------------------------------------------------------------------
  // One iteration of the walk, on the child lists as values

  predicate ParentsIn(parents: seq<Option<nat>>, bound: nat) {
    forall y :: 0 <= y < |parents| && parents[y].Some? ==> parents[y].value < bound
  }

  /** The lists after node `x` is unlinked from the list of its recorded
      parent. */
  function Unlinked(kids: seq<seq<nat>>, parents: seq<Option<nat>>, x: nat): (u: seq<seq<nat>>)
    requires x < |parents| && ParentsIn(parents, |kids|)
    ensures |u| == |kids|
    ensures forall y, c :: 0 <= y < |kids| && c in u[y] ==> c in kids[y]
    ensures forall y, c :: 0 <= y < |kids| && c in kids[y] && c != x ==> c in u[y]
    ensures forall y :: 0 <= y < |kids| && parents[x] != Some(y) ==> u[y] == kids[y]
    ensures forall y :: 0 <= y < |kids| && kids[y] == [] ==> u[y] == []
  {
    if parents[x].Some? then
      var p := parents[x].value;
      kids[p := RemoveFirst(kids[p], x)]
    else kids
  }

  /** The walk's bookkeeping between iterations, relative to the lists
      `orig` it started from: `freed` are the nodes freed so far (in
      order), `stack` the nodes queued, `via` and `queuedVia` positions in
      `freed` of a node whose original list holds each freed and queued
      node (from the second freed node on). */
  predicate WalkInv(orig: seq<seq<nat>>, kids: seq<seq<nat>>, parents: seq<Option<nat>>,
                    freed: seq<nat>, stack: seq<nat>, via: seq<nat>, queuedVia: seq<nat>, start: nat)
  {
    && |kids| == |orig| && |parents| == |orig| && ParentsIn(parents, |orig|)
    && (forall y :: 0 <= y < |kids| ==> ChildrenIn(kids[y], |kids|))
    && ChildrenIn(stack, |orig|) && ChildrenIn(freed, |orig|)
    && Reached(orig, kids, freed, stack)
    && Shrunk(orig, kids, freed, parents)
    && Traced(orig, freed, stack, via, queuedVia, start)
  }

  /** The original children of a freed node are freed or queued, and a
      node not yet freed still lists its original children that are not
      freed. */
  predicate Reached(orig: seq<seq<nat>>, kids: seq<seq<nat>>, freed: seq<nat>, stack: seq<nat>)
    requires |kids| == |orig| && ChildrenIn(freed, |orig|)
  {
    && (forall k, c :: 0 <= k < |freed| && c in orig[freed[k]] ==> c in freed || c in stack)
    && (forall y, c :: 0 <= y < |kids| && y !in freed && c in orig[y] && c !in freed ==> c in kids[y])
  }

  /** Lists only lose entries; freed nodes have empty lists; a list is
      untouched unless it is a freed node's or a freed node's recorded
      parent's. */
  predicate Shrunk(orig: seq<seq<nat>>, kids: seq<seq<nat>>, freed: seq<nat>, parents: seq<Option<nat>>)
    requires |kids| == |orig| && |parents| == |orig| && ChildrenIn(freed, |orig|)
  {
    && (forall y, c :: 0 <= y < |kids| && c in kids[y] ==> c in orig[y])
    && (forall y :: y in freed ==> kids[y] == [])
    && (forall y :: (0 <= y < |kids| && y !in freed && (forall z :: z in freed ==> parents[z] != Some(y))) ==>
          kids[y] == orig[y])
  }

  predicate Traced(orig: seq<seq<nat>>, freed: seq<nat>, stack: seq<nat>, via: seq<nat>, queuedVia: seq<nat>, start: nat)
    requires ChildrenIn(freed, |orig|)
  {
    && (|freed| == 0 ==> stack == [start])
    && (|freed| > 0 ==> freed[0] == start)
    && |via| == |freed| + 1 && |queuedVia| == |stack|
    && (forall k :: 0 < k < |freed| ==> via[k] < k && freed[k] in orig[freed[via[k]]])
    && (|freed| > 0 ==> forall k :: 0 <= k < |stack| ==>
          queuedVia[k] < |freed| && stack[k] in orig[freed[queuedVia[k]]])
  }

  /** A list not freed is its original with the first occurrence of each
      freed node whose recorded parent it is removed, in the order freed. */
  predicate Unlinks(orig: seq<seq<nat>>, kids: seq<seq<nat>>, parents: seq<Option<nat>>, freed: seq<nat>)
    requires |kids| == |orig| && ChildrenIn(freed, |parents|)
  {
    forall y :: 0 <= y < |kids| && y !in freed ==> kids[y] == RemoveEach(orig[y], ParentedBy(parents, freed, y))
  }

  /** The lists form a forest and every listed node records the node that
      lists it as its parent: what `set_parent` builds when each node is
      given one parent. */
  predicate Tree(orig: seq<seq<nat>>, parents: seq<Option<nat>>) {
    && ListedOnce(orig)
    && forall y, c :: 0 <= y < |orig| && c in orig[y] ==> c < |parents| && parents[c] == Some(y)
  }

  /** On a tree: nothing is freed or queued twice, no list holds a
      duplicate, a freed node is listed nowhere, and once the start is
      freed neither is a queued one. */
  predicate Untangled(kids: seq<seq<nat>>, freed: seq<nat>, stack: seq<nat>) {
    && Distinct(freed) && Distinct(stack)
    && (forall x :: x in stack ==> x !in freed)
    && (forall y :: 0 <= y < |kids| ==> Distinct(kids[y]))
    && (forall y, c :: 0 <= y < |kids| && c in kids[y] ==> c !in freed)
    && (|freed| > 0 ==> forall y, c :: 0 <= y < |kids| && c in kids[y] ==> c !in stack)
  }

  function Repeat(v: nat, n: nat): (r: seq<nat>)
    ensures |r| == n && forall k :: 0 <= k < n ==> r[k] == v
  {
    seq(n, _ => v)
  }

  lemma ChildrenInConcat(a: seq<nat>, b: seq<nat>, bound: nat)
    requires ChildrenIn(a, bound) && ChildrenIn(b, bound)
    ensures ChildrenIn(a + b, bound)
  {
    forall k | 0 <= k < |a + b| ensures (a + b)[k] < bound {
      if k < |a| { assert (a + b)[k] == a[k]; } else { assert (a + b)[k] == b[k - |a|]; }
    }
  }

  lemma WalkStart(orig: seq<seq<nat>>, parents: seq<Option<nat>>, start: nat)
    requires |parents| == |orig| && ParentsIn(parents, |orig|) && start < |orig|
    requires forall y :: 0 <= y < |orig| ==> ChildrenIn(orig[y], |orig|)
    ensures WalkInv(orig, orig, parents, [], [start], [0], [0], start)
  {
  }

  lemma StepReached(orig: seq<seq<nat>>, kids: seq<seq<nat>>, parents: seq<Option<nat>>,
                    freed: seq<nat>, rest: seq<nat>, x: nat)
    requires |kids| == |orig| && |parents| == |orig| && ParentsIn(parents, |orig|)
    requires ChildrenIn(freed, |orig|) && x < |orig|
    requires Reached(orig, kids, freed, rest + [x])
    ensures var u := Unlinked(kids, parents, x);
      Reached(orig, u[x := []], freed + [x], rest + u[x])
  {
    var u := Unlinked(kids, parents, x);
    var kids', freed', stack' := u[x := []], freed + [x], rest + u[x];
    forall k, c | 0 <= k < |freed'| && c in orig[freed'[k]] ensures c in freed' || c in stack' {
      if k < |freed| {
        assert freed'[k] == freed[k];
        assert c in freed || c in rest + [x];
      } else if c != x {
        if x in freed {
          var i :| 0 <= i < |freed| && freed[i] == x;
          assert c in freed || c in rest + [x];
        } else if c !in freed {
          assert c in kids[x];
          assert c in u[x];
        }
      }
    }
  }

  lemma StepShrunk(orig: seq<seq<nat>>, kids: seq<seq<nat>>, parents: seq<Option<nat>>, freed: seq<nat>, x: nat)
    requires |kids| == |orig| && |parents| == |orig| && ParentsIn(parents, |orig|)
    requires ChildrenIn(freed, |orig|) && x < |orig|
    requires Shrunk(orig, kids, freed, parents)
    ensures var u := Unlinked(kids, parents, x);
      Shrunk(orig, u[x := []], freed + [x], parents)
  {
    var u := Unlinked(kids, parents, x);
    var kids', freed' := u[x := []], freed + [x];
    forall y | y in freed' ensures kids'[y] == [] {
      if y != x { assert y in freed; }
    }
    forall y | 0 <= y < |kids'| && y !in freed' && (forall z :: z in freed' ==> parents[z] != Some(y))
      ensures kids'[y] == orig[y]
    {
      assert x in freed';
      assert forall z :: z in freed ==> z in freed';
    }
  }

  lemma StepTraced(orig: seq<seq<nat>>, kids: seq<seq<nat>>, parents: seq<Option<nat>>,
                   freed: seq<nat>, stack: seq<nat>, via: seq<nat>, queuedVia: seq<nat>, start: nat)
    requires WalkInv(orig, kids, parents, freed, stack, via, queuedVia, start) && |stack| > 0
    ensures var n := |stack| - 1;
      var x := stack[n];
      var u := Unlinked(kids, parents, x);
      Traced(orig, freed + [x], stack[..n] + u[x], via[..|freed|] + [queuedVia[n]] + [0],
             queuedVia[..n] + Repeat(|freed|, |u[x]|), start)
  {
    var n := |stack| - 1;
    var x := stack[n];
    var u := Unlinked(kids, parents, x);
    var freed', stack' := freed + [x], stack[..n] + u[x];
    var via', queuedVia' := via[..|freed|] + [queuedVia[n]] + [0], queuedVia[..n] + Repeat(|freed|, |u[x]|);
    forall k | 0 < k < |freed'| ensures via'[k] < k && freed'[k] in orig[freed'[via'[k]]] {
      if k < |freed| {
        assert via'[k] == via[k] && freed'[k] == freed[k] && freed'[via[k]] == freed[via[k]];
      } else {
        assert via'[k] == queuedVia[n] && freed'[queuedVia[n]] == freed[queuedVia[n]];
      }
    }
    forall k | 0 <= k < |stack'| ensures queuedVia'[k] < |freed'| && stack'[k] in orig[freed'[queuedVia'[k]]] {
      if k < n {
        assert |freed| > 0;
        assert stack'[k] == stack[k] && queuedVia'[k] == queuedVia[k];
      } else {
        assert stack'[k] == u[x][k - n] && queuedVia'[k] == |freed|;
        assert u[x][k - n] in u[x];
      }
    }
  }

  /** Every list names existing nodes only. */
  predicate ListsIn(kids: seq<seq<nat>>) {
    forall y :: 0 <= y < |kids| ==> ChildrenIn(kids[y], |kids|)
  }

  /** Unlinking and clearing `x` keeps every list in range and moves the
      entries of `x`'s list to the stack, while at least as many leave the
      lists overall. */
  lemma StepLists(kids: seq<seq<nat>>, parents: seq<Option<nat>>, x: nat)
    requires |parents| == |kids| && ParentsIn(parents, |kids|) && x < |kids|
    requires forall y :: 0 <= y < |kids| ==> ChildrenIn(kids[y], |kids|)
    ensures var u := Unlinked(kids, parents, x);
      && ChildrenIn(u[x], |kids|)
      && ListsIn(u[x := []])
      && TotalChildren(u[x := []]) + |u[x]| <= TotalChildren(kids)
  {
    var u := Unlinked(kids, parents, x);
    assert ChildrenIn(u[x], |kids|) by {
      forall k | 0 <= k < |u[x]| ensures u[x][k] < |kids| { assert u[x][k] in u[x]; }
    }
    var kids': seq<seq<nat>> := u[x := []];
    forall y | 0 <= y < |kids| ensures ChildrenIn(kids'[y], |kids|) {
      forall k | 0 <= k < |kids'[y]| ensures kids'[y][k] < |kids| {
        assert kids'[y][k] in u[y];
      }
    }
    if parents[x].Some? {
      TotalChildrenUpdate(kids, parents[x].value, RemoveFirst(kids[parents[x].value], x));
    }
    TotalChildrenUpdate(u, x, []);
  }

  /** One iteration keeps the bookkeeping and shrinks `|stack|` plus the
      total length of all lists, so the walk ends on any graph. */
  lemma WalkStep(orig: seq<seq<nat>>, kids: seq<seq<nat>>, parents: seq<Option<nat>>,
                 freed: seq<nat>, stack: seq<nat>, via: seq<nat>, queuedVia: seq<nat>, start: nat)
    requires WalkInv(orig, kids, parents, freed, stack, via, queuedVia, start) && |stack| > 0
    ensures var n := |stack| - 1;
      var x := stack[n];
      var u := Unlinked(kids, parents, x);
      && WalkInv(orig, u[x := []], parents, freed + [x], stack[..n] + u[x],
                 via[..|freed|] + [queuedVia[n]] + [0], queuedVia[..n] + Repeat(|freed|, |u[x]|), start)
      && |stack[..n] + u[x]| + TotalChildren(u[x := []]) < |stack| + TotalChildren(kids)
  {
    var n := |stack| - 1;
    var x := stack[n];
    assert stack == stack[..n] + [x];
    StepReached(orig, kids, parents, freed, stack[..n], x);
    StepShrunk(orig, kids, parents, freed, x);
    StepTraced(orig, kids, parents, freed, stack, via, queuedVia, start);
    StepLists(kids, parents, x);
    var u := Unlinked(kids, parents, x);
    ChildrenInConcat(stack[..n], u[x], |orig|);
    ChildrenInConcat(freed, [x], |orig|);
  }

  /** One iteration unlinks `x` from the list of its recorded parent only. */
  lemma StepUnlinks(orig: seq<seq<nat>>, kids: seq<seq<nat>>, parents: seq<Option<nat>>, freed: seq<nat>, x: nat)
    requires |kids| == |orig| && |parents| == |orig| && ParentsIn(parents, |orig|)
    requires ChildrenIn(freed, |orig|) && x < |orig|
    requires Unlinks(orig, kids, parents, freed)
    ensures ChildrenIn(freed + [x], |orig|)
    ensures var u := Unlinked(kids, parents, x);
      Unlinks(orig, u[x := []], parents, freed + [x])
  {
    ChildrenInConcat(freed, [x], |orig|);
    var u := Unlinked(kids, parents, x);
    var freed' := freed + [x];
    assert freed'[..|freed|] == freed;
    forall y | 0 <= y < |kids| && y !in freed'
      ensures u[x := []][y] == RemoveEach(orig[y], ParentedBy(parents, freed', y))
    {
      assert y !in freed && y != x;
      var l := ParentedBy(parents, freed, y);
      if parents[x] == Some(y) {
        assert ParentedBy(parents, freed', y) == l + [x];
        assert (l + [x])[..|l|] == l;
      } else {
        assert ParentedBy(parents, freed', y) == l;
      }
    }
  }

  /** On a tree a node leaves every list when it is unlinked. */
  lemma UnlinkedGone(orig: seq<seq<nat>>, kids: seq<seq<nat>>, parents: seq<Option<nat>>, x: nat, y: nat)
    requires |kids| == |orig| && |parents| == |orig| && ParentsIn(parents, |orig|) && x < |orig| && y < |orig|
    requires Tree(orig, parents) && forall z :: 0 <= z < |kids| ==> Distinct(kids[z])
    requires forall z, c :: 0 <= z < |kids| && c in kids[z] ==> c in orig[z]
    ensures x !in Unlinked(kids, parents, x)[y]
  {
    var u := Unlinked(kids, parents, x);
    if x in u[y] {
      assert x in orig[y];
      RemoveFirstDistinct(kids[y], x);
      assert false;
    }
  }

  /** On a tree, unlinking `x` leaves every list free of duplicates and
      without `x`. */
  lemma UnlinkedClean(orig: seq<seq<nat>>, kids: seq<seq<nat>>, parents: seq<Option<nat>>, x: nat)
    requires |kids| == |orig| && |parents| == |orig| && ParentsIn(parents, |orig|) && x < |orig|
    requires Tree(orig, parents) && forall z :: 0 <= z < |kids| ==> Distinct(kids[z])
    requires forall z, c :: 0 <= z < |kids| && c in kids[z] ==> c in orig[z]
    ensures var u := Unlinked(kids, parents, x);
      forall y :: 0 <= y < |kids| ==> Distinct(u[y]) && x !in u[y]
  {
    var u := Unlinked(kids, parents, x);
    forall y | 0 <= y < |kids| ensures Distinct(u[y]) && x !in u[y] {
      UnlinkedGone(orig, kids, parents, x, y);
      if parents[x] == Some(y) { RemoveFirstDistinct(kids[y], x); }
    }
  }

  /** On a tree one iteration frees a node not freed before and queues
      nodes neither freed nor queued. */
  lemma StepUntangled(orig: seq<seq<nat>>, kids: seq<seq<nat>>, parents: seq<Option<nat>>,
                      freed: seq<nat>, stack: seq<nat>)
    requires |kids| == |orig| && |parents| == |orig| && ParentsIn(parents, |orig|)
    requires ChildrenIn(stack, |orig|) && |stack| > 0 && (|freed| == 0 ==> |stack| == 1)
    requires forall z, c :: 0 <= z < |kids| && c in kids[z] ==> c in orig[z]
    requires Tree(orig, parents) && Untangled(kids, freed, stack)
    ensures var n := |stack| - 1;
      var x := stack[n];
      var u := Unlinked(kids, parents, x);
      Untangled(u[x := []], freed + [x], stack[..n] + u[x])
  {
    var n := |stack| - 1;
    var x := stack[n];
    var u := Unlinked(kids, parents, x);
    UnlinkedClean(orig, kids, parents, x);
    StepQueue(kids, freed, stack, u[x]);
    StepListsClean(orig, kids, parents, freed, stack, u);
  }

  /** The freed nodes and the stack after one iteration that pops `x`
      and queues `q`, a duplicate-free part of `x`'s list without `x`. */
  lemma StepQueue(kids: seq<seq<nat>>, freed: seq<nat>, stack: seq<nat>, q: seq<nat>)
    requires |stack| > 0 && (|freed| == 0 ==> |stack| == 1) && Untangled(kids, freed, stack)
    requires stack[|stack| - 1] < |kids| && Distinct(q) && stack[|stack| - 1] !in q
    requires forall c :: c in q ==> c in kids[stack[|stack| - 1]]
    ensures var n := |stack| - 1;
      && Distinct(freed + [stack[n]]) && Distinct(stack[..n] + q)
      && forall c :: c in stack[..n] + q ==> c !in freed + [stack[n]]
  {
    var n := |stack| - 1;
    var x := stack[n];
    var rest := stack[..n];
    assert stack == rest + [x];
    assert Distinct(rest) by {
      forall i, j | 0 <= i < j < |rest| ensures rest[i] != rest[j] { assert rest[i] == stack[i] && rest[j] == stack[j]; }
    }
    assert x !in rest by {
      forall k | 0 <= k < n ensures rest[k] != x { assert rest[k] == stack[k]; }
    }
    assert |freed| == 0 ==> rest == [];
    forall c | c in q ensures c !in freed && c !in rest {
      assert c in kids[x];
      assert |freed| > 0 ==> c !in stack;
      assert c in rest ==> c in stack;
    }
    DistinctConcat(freed, [x]);
    DistinctConcat(rest, q);
  }

  /** The lists after one iteration hold no duplicate, no freed node and
      no queued node. */
  lemma StepListsClean(orig: seq<seq<nat>>, kids: seq<seq<nat>>, parents: seq<Option<nat>>,
                   freed: seq<nat>, stack: seq<nat>, u: seq<seq<nat>>)
    requires |kids| == |orig| && |parents| == |orig| && ParentsIn(parents, |orig|)
    requires |stack| > 0 && stack[|stack| - 1] < |orig| && (|freed| == 0 ==> |stack| == 1)
    requires u == Unlinked(kids, parents, stack[|stack| - 1])
    requires forall z, c :: 0 <= z < |kids| && c in kids[z] ==> c in orig[z]
    requires Tree(orig, parents) && Untangled(kids, freed, stack)
    requires forall y :: 0 <= y < |kids| ==> Distinct(u[y]) && stack[|stack| - 1] !in u[y]
    ensures var n := |stack| - 1;
      var x := stack[n];
      var kids' := u[x := []];
      && (forall y :: 0 <= y < |kids'| ==> Distinct(kids'[y]))
      && (forall y, c :: 0 <= y < |kids'| && c in kids'[y] ==> c !in freed + [x])
      && (forall y, c :: 0 <= y < |kids'| && c in kids'[y] ==> c !in stack[..n] + u[x])
  {
    var n := |stack| - 1;
    var x := stack[n];
    var kids' := u[x := []];
    assert |freed| == 0 ==> stack[..n] == [];
    assert stack == stack[..n] + [x];
    forall y, c | 0 <= y < |kids'| && c in kids'[y] ensures c !in freed + [x] && c !in stack[..n] + u[x] {
      assert y != x && c in u[y] && c in kids[y] && c in orig[y];
      assert c < |parents| && parents[c] == Some(y);
      assert |freed| > 0 ==> c !in stack;
      assert c in stack[..n] ==> c in stack;
      if c in u[x] {
        assert false;
      }
    }
  }

  /** At the end of the walk the freed nodes are exactly the nodes reachable
      from the start in the original lists. */
  lemma WalkEnd(orig: seq<seq<nat>>, kids: seq<seq<nat>>, parents: seq<Option<nat>>,
                freed: seq<nat>, via: seq<nat>, queuedVia: seq<nat>, start: nat)
    requires WalkInv(orig, kids, parents, freed, [], via, queuedVia, start)
    ensures Closed(orig, freed) && Grown(orig, freed, start)
  {
    forall k | 0 < k < |freed| ensures exists l :: 0 <= l < k && freed[k] in orig[freed[l]] {
      assert freed[k] in orig[freed[via[k]]];
    }
  }

  /** The walk's state between iterations as one value. */
  datatype Walk = Walk(kids: seq<seq<nat>>, freed: seq<nat>, stack: seq<nat>, via: seq<nat>, queuedVia: seq<nat>)

  predicate Walking(orig: seq<seq<nat>>, parents: seq<Option<nat>>, start: nat, w: Walk) {
    && WalkInv(orig, w.kids, parents, w.freed, w.stack, w.via, w.queuedVia, start)
    && Unlinks(orig, w.kids, parents, w.freed)
    && (Tree(orig, parents) ==> Untangled(w.kids, w.freed, w.stack))
  }

  function FirstWalk(orig: seq<seq<nat>>, start: nat): Walk {
    Walk(orig, [], [start], [0], [0])
  }

  /** One iteration: pop `x`, unlink it, queue its list, clear it, free it. */
  function NextWalk(orig: seq<seq<nat>>, parents: seq<Option<nat>>, start: nat, w: Walk): Walk
    requires Walking(orig, parents, start, w) == true && |w.stack| > 0
  {
    var n := |w.stack| - 1;
    var x := w.stack[n];
    var u := Unlinked(w.kids, parents, x);
    Walk(u[x := []], w.freed + [x], w.stack[..n] + u[x],
         w.via[..|w.freed|] + [w.queuedVia[n]] + [0], w.queuedVia[..n] + Repeat(|w.freed|, |u[x]|))
  }

  function WalkMeasure(w: Walk): nat {
    |w.stack| + TotalChildren(w.kids)
  }

  lemma FirstWalkStarts(orig: seq<seq<nat>>, parents: seq<Option<nat>>, start: nat)
    requires |parents| == |orig| && ParentsIn(parents, |orig|) && start < |orig|
    requires forall y :: 0 <= y < |orig| ==> ChildrenIn(orig[y], |orig|)
    ensures Walking(orig, parents, start, FirstWalk(orig, start)) == true
  {
    WalkStart(orig, parents, start);
    if Tree(orig, parents) {
      forall y | 0 <= y < |orig| ensures Distinct(orig[y]) {
        forall i, j | 0 <= i < j < |orig[y]| ensures orig[y][i] != orig[y][j] { }
      }
    }
  }

  lemma NextWalkKeeps(orig: seq<seq<nat>>, parents: seq<Option<nat>>, start: nat, w: Walk)
    requires Walking(orig, parents, start, w) == true && |w.stack| > 0
    ensures Walking(orig, parents, start, NextWalk(orig, parents, start, w)) == true
    ensures WalkMeasure(NextWalk(orig, parents, start, w)) < WalkMeasure(w)
    ensures w.stack[|w.stack| - 1] < |w.kids| == |parents| && ParentsIn(parents, |w.kids|)
  {
    WalkStep(orig, w.kids, parents, w.freed, w.stack, w.via, w.queuedVia, start);
    StepUnlinks(orig, w.kids, parents, w.freed, w.stack[|w.stack| - 1]);
    if Tree(orig, parents) {
      StepUntangled(orig, w.kids, parents, w.freed, w.stack);
    }
  }

  /** What a whole removal from `start` does to the child lists and the
      free list: the free list grows by the freed nodes, which are exactly
      those reachable from `start` in the original lists (`Closed`,
      `Grown`); freed nodes have empty lists; every other list is its
      original with each freed node whose recorded parent it is unlinked
      once (`Unlinks`), so it keeps every child that was not freed; and on
      a tree no node is freed twice. */
  predicate Removed(orig: seq<seq<nat>>, kids: seq<seq<nat>>, parents: seq<Option<nat>>,
                    free: seq<nat>, free': seq<nat>, start: nat)
  {
    && |kids| == |orig| && |parents| == |orig|
    && |free'| > |free| && free'[..|free|] == free
    && ChildrenIn(free'[|free|..], |orig|)
    && Closed(orig, free'[|free|..]) && Grown(orig, free'[|free|..], start)
    && Shrunk(orig, kids, free'[|free|..], parents)
    && Unlinks(orig, kids, parents, free'[|free|..])
    && (forall y, c :: 0 <= y < |kids| && y !in free'[|free|..] && c in orig[y] && c !in free'[|free|..] ==> c in kids[y])
    && (Tree(orig, parents) ==> Distinct(free'[|free|..]))
  }

  lemma LastWalkEnds(orig: seq<seq<nat>>, parents: seq<Option<nat>>, start: nat, w: Walk, free: seq<nat>)
    requires Walking(orig, parents, start, w) == true && |w.stack| == 0
    ensures Removed(orig, w.kids, parents, free, free + w.freed, start)
  {
    WalkEnd(orig, w.kids, parents, w.freed, w.via, w.queuedVia, start);
    assert (free + w.freed)[|free|..] == w.freed;
    assert (free + w.freed)[..|free|] == free;
  }

  /** On a tree, the removed node's parent, when it survives, loses
      exactly the first occurrence of the removed node. */
  lemma RemovalUnlinksStart(orig: seq<seq<nat>>, kids: seq<seq<nat>>, parents: seq<Option<nat>>,
                            free: seq<nat>, free': seq<nat>, start: nat, p: nat)
    requires Removed(orig, kids, parents, free, free', start) && Tree(orig, parents)
    requires start < |parents| && parents[start] == Some(p) && p < |kids| && p !in free'[|free|..]
    ensures kids[p] == RemoveFirst(orig[p], start)
  {
    var freed := free'[|free|..];
    UnlinksStart(orig, kids, parents, freed, start, p);
  }

  lemma UnlinksStart(orig: seq<seq<nat>>, kids: seq<seq<nat>>, parents: seq<Option<nat>>,
                     freed: seq<nat>, start: nat, p: nat)
    requires |kids| == |orig| && |parents| == |orig| && ChildrenIn(freed, |orig|)
    requires Grown(orig, freed, start) && Unlinks(orig, kids, parents, freed) && Tree(orig, parents)
    requires parents[start] == Some(p) && p < |kids| && p !in freed
    ensures kids[p] == RemoveFirst(orig[p], start)
  {
    OnlyStartParented(orig, parents, freed, start, p, |freed|);
    assert freed[..|freed|] == freed;
    var l := ParentedBy(parents, freed, p);
    assert l == [start];
    assert kids[p] == RemoveEach(orig[p], l);
    assert l[..0] == [];
    assert RemoveEach(orig[p], l) == RemoveFirst(RemoveEach(orig[p], []), start);
  }

  /** Of the first `k` freed nodes, only the start records `p` as parent. */
  lemma {:induction false} OnlyStartParented(orig: seq<seq<nat>>, parents: seq<Option<nat>>, freed: seq<nat>,
                                            start: nat, p: nat, k: nat)
    requires |parents| == |orig| && ChildrenIn(freed, |orig|) && Grown(orig, freed, start) && Tree(orig, parents)
    requires parents[start] == Some(p) && p !in freed && 0 < k <= |freed|
    ensures ChildrenIn(freed[..k], |parents|)
    ensures ParentedBy(parents, freed[..k], p) == [start]
    decreases k
  {
    var f := freed[..k];
    assert forall i :: 0 <= i < k ==> f[i] == freed[i];
    if k > 1 {
      OnlyStartParented(orig, parents, freed, start, p, k - 1);
      assert f[..k - 1] == freed[..k - 1];
      var l :| 0 <= l < k - 1 && freed[k - 1] in orig[freed[l]];
      assert parents[freed[k - 1]] == Some(freed[l]);
    } else {
      assert f[..0] == [];
    }
  }
}
