/** What a layout pass of hydron-ui/src/surface.rs computes.

    The surface drives its elements with three explicit stacks; this module
    states, by plain recursion over the node tree, what that traversal
    amounts to (`LayNode`, `Drive`), and then what the stack machine still
    has to do from any intermediate configuration (`Finish`). The method
    `Surface.Layout` is proved to run one `MachineStep` per iteration and to
    keep `Finish` constant, so it ends in the state `LayNode` describes.

    Acyclicity, which the source leaves to its callers, is witnessed by a
    rank: every child listed by a reachable node has a smaller rank. */
module LayoutSpec {
  import opened Options
  import opened Geometry
  import opened Contexts
  import opened Elements

  /** Below `p` every listed child exists and has a smaller rank, so the
      part of the graph reachable from `p` has no cycle. */
  predicate Ranked(kids: seq<seq<nat>>, rank: seq<nat>, p: nat)
    decreases if p < |rank| then rank[p] else 0
  {
    && p < |kids| && |rank| == |kids|
    && forall j :: 0 <= j < |kids[p]| ==>
         kids[p][j] < |kids| && rank[kids[p][j]] < rank[p] && Ranked(kids, rank, kids[p][j])
  }

  /** Every node reachable from `p` has an element that supports its number
      of children (the default and fixed variants panic beyond one). */
  predicate Fits(elements: seq<Element>, kids: seq<seq<nat>>, rank: seq<nat>, p: nat)
    requires Ranked(kids, rank, p)
    decreases rank[p]
  {
    && p < |elements|
    && SupportsChildren(elements[p], |kids[p]|)
    && forall j :: 0 <= j < |kids[p]| ==> Fits(elements, kids, rank, kids[p][j])
  }

  predicate Layable(elements: seq<Element>, kids: seq<seq<nat>>, rank: seq<nat>, p: nat) {
    Ranked(kids, rank, p) && Fits(elements, kids, rank, p)
  }

  predicate SameKinds(a: seq<Element>, b: seq<Element>) {
    |a| == |b| && forall i :: 0 <= i < |a| ==> SameKind(a[i], b[i])
  }

  lemma SameKindsTransitive(a: seq<Element>, b: seq<Element>, c: seq<Element>)
    requires SameKinds(a, b) && SameKinds(b, c)
    ensures SameKinds(a, c)
  {
    forall i | 0 <= i < |a| ensures SameKind(a[i], c[i]) {
      assert SameKind(a[i], b[i]) && SameKind(b[i], c[i]);
    }
  }

  /** Layout changes element state, never element kinds, so what could be
      laid out still can. */
  lemma {:induction false} FitsSameKinds(a: seq<Element>, b: seq<Element>, kids: seq<seq<nat>>, rank: seq<nat>, p: nat)
    requires Ranked(kids, rank, p) && SameKinds(a, b) && Fits(a, kids, rank, p)
    ensures Fits(b, kids, rank, p)
    decreases rank[p]
  {
    assert SameKind(a[p], b[p]);
    forall j | 0 <= j < |kids[p]| ensures Fits(b, kids, rank, kids[p][j]) {
      FitsSameKinds(a, b, kids, rank, kids[p][j]);
    }
  }

  /** Elements and rectangles, both indexed by node. */
  datatype LState = LState(elements: seq<Element>, rects: seq<Rect>)

  /** A resolved node: the state after its pass, its size, and how many
      element calls the pass took. */
  datatype Resolved = Resolved(state: LState, size: Size, steps: nat)

  predicate Shaped(kids: seq<seq<nat>>, rank: seq<nat>, st: LState) {
    && |st.elements| == |kids| && |st.rects| == |kids| && |rank| == |kids|
    && forall q :: 0 <= q < |kids| ==> ChildrenIn(kids[q], |kids|)
  }

  /** What a pass over `p` may change: element state and rectangles of
      nodes ranked below `p`, `p`'s own element, and `p`'s size, never its
      offset (that is its parent's to set). */
  predicate Framed(kids: seq<seq<nat>>, rank: seq<nat>, st: LState, st': LState, p: nat)
    requires Shaped(kids, rank, st) && p < |kids|
  {
    && Shaped(kids, rank, st')
    && SameKinds(st.elements, st'.elements)
    && (forall i :: 0 <= i < |kids| && rank[i] >= rank[p] && i != p ==>
          st'.elements[i] == st.elements[i] && st'.rects[i] == st.rects[i])
    && st'.rects[p].x == st.rects[p].x && st'.rects[p].y == st.rects[p].y
  }

  lemma FramedTransitive(kids: seq<seq<nat>>, rank: seq<nat>, s1: LState, s2: LState, s3: LState, p: nat, q: nat)
    requires Shaped(kids, rank, s1) && p < |kids| && q < |kids| && (q == p || rank[q] < rank[p])
    requires Framed(kids, rank, s1, s2, q) && Framed(kids, rank, s2, s3, p)
    requires q != p ==> s2.elements[p] == s1.elements[p] && s2.rects[p] == s1.rects[p]
    ensures Framed(kids, rank, s1, s3, p)
  {
    SameKindsTransitive(s1.elements, s2.elements, s3.elements);
  }

  /** The pass over node `p` under constraint `c`, from its first call. */
  function LayNode(kids: seq<seq<nat>>, rank: seq<nat>, st: LState, p: nat, c: Constraint): (r: Resolved)
    requires Shaped(kids, rank, st) && p < |kids| && Layable(st.elements, kids, rank, p)
    ensures Framed(kids, rank, st, r.state, p)
    ensures SizeOf(r.state.rects[p]) == r.size
    ensures r.steps >= 1
    decreases rank[p], 1, 0
  {
    Drive(kids, rank, st, p, c, None)
  }

  /** The rest of the pass over `p`, starting with a call that hands it
      `requested`: on `LayoutChild` the child's whole pass comes first, then
      `p` is called again with the child's size; on `Done` the size is
      recorded as `p`'s width and height. */
  function Drive(kids: seq<seq<nat>>, rank: seq<nat>, st: LState, p: nat, c: Constraint, requested: Option<Size>): (r: Resolved)
    requires Shaped(kids, rank, st) && p < |kids| && Layable(st.elements, kids, rank, p)
    requires requested.Some? ==> Resumable(st.elements[p], |kids[p]|)
    ensures Framed(kids, rank, st, r.state, p)
    ensures SizeOf(r.state.rects[p]) == r.size
    ensures r.steps >= 1
    decreases rank[p], 0, Pending(st.elements[p], |kids[p]|, requested.Some?)
  {
    assert CanLayout(st.elements[p], st.rects, kids[p], requested);
    var s := ElementLayout(st.elements[p], c, st.rects, kids[p], requested);
    var st1 := LState(st.elements[p := s.element], s.rects);
    StepFramed(kids, rank, st, p, c, requested, s);
    match s.result
    case Done(size) =>
      var st2 := LState(st1.elements, WithSize(st1.rects, p, size.width, size.height));
      SizedFramed(kids, rank, st, st1, st2, p);
      Resolved(st2, size, 1)
    case LayoutChild(ch, cc) =>
      assert Ranked(kids, rank, ch) && rank[ch] < rank[p];
      FitsSameKinds(st.elements, st1.elements, kids, rank, ch);
      var r1 := LayNode(kids, rank, st1, ch, cc);
      FitsSameKinds(st1.elements, r1.state.elements, kids, rank, p);
      var r2 := Drive(kids, rank, r1.state, p, c, Some(r1.size));
      FramedTransitive(kids, rank, st1, r1.state, r2.state, p, ch);
      FramedTransitive(kids, rank, st, st1, r2.state, p, p);
      Resolved(r2.state, r2.size, 1 + r1.steps + r2.steps)
  }

  /** One element call leaves a state the pass over `p` may reach: only
      `p`'s element and the rectangles of its children change, and kinds
      are kept. */
  lemma StepFramed(kids: seq<seq<nat>>, rank: seq<nat>, st: LState, p: nat, c: Constraint, requested: Option<Size>, s: Step)
    requires Shaped(kids, rank, st) && p < |kids| && Layable(st.elements, kids, rank, p)
    requires CanLayout(st.elements[p], st.rects, kids[p], requested)
    requires s == ElementLayout(st.elements[p], c, st.rects, kids[p], requested)
    ensures Framed(kids, rank, st, LState(st.elements[p := s.element], s.rects), p)
    ensures s.rects[p] == st.rects[p]
    ensures Layable(st.elements[p := s.element], kids, rank, p)
  {
    var st1 := LState(st.elements[p := s.element], s.rects);
    assert SameKinds(st.elements, st1.elements);
    assert p !in kids[p];
    FitsSameKinds(st.elements, st1.elements, kids, rank, p);
  }

  /** Recording `p`'s size keeps the pass within its frame. */
  lemma SizedFramed(kids: seq<seq<nat>>, rank: seq<nat>, st: LState, st1: LState, st2: LState, p: nat)
    requires Shaped(kids, rank, st) && p < |kids| && Framed(kids, rank, st, st1, p)
    requires st2.elements == st1.elements && |st2.rects| == |st1.rects|
    requires st2.rects[p].x == st1.rects[p].x && st2.rects[p].y == st1.rects[p].y
    requires forall j :: 0 <= j < |st1.rects| && j != p ==> st2.rects[j] == st1.rects[j]
    ensures Framed(kids, rank, st, st2, p)
  {
  }

  // ---------------------------------------------------------------------
  // The stack machine of `Surface::layout`

  /** One configuration of the loop: the state, the pending nodes and their
      constraints (top of stack last), and the result stack. */
  datatype Machine = Machine(state: LState, nodes: seq<nat>, constraints: seq<Constraint>, results: seq<Size>)

  /** The stack discipline the loop keeps: the two work stacks move in
      step, at most one result waits, each pending node lies strictly below
      the one beneath it, and every node under the top is a parent paused
      on a child request. */
  predicate MachineInv(kids: seq<seq<nat>>, rank: seq<nat>, m: Machine) {
    && Shaped(kids, rank, m.state)
    && |m.nodes| == |m.constraints|
    && |m.results| <= 1
    && (forall k :: 0 <= k < |m.nodes| ==>
          m.nodes[k] < |kids| && Layable(m.state.elements, kids, rank, m.nodes[k]))
    && (forall k, l :: 0 <= k < l < |m.nodes| ==> rank[m.nodes[l]] < rank[m.nodes[k]])
    && (forall k :: 0 <= k < |m.nodes| - 1 ==> Resumable(m.state.elements[m.nodes[k]], |kids[m.nodes[k]]|))
    && (|m.results| == 1 && |m.nodes| > 0 ==>
          Resumable(m.state.elements[m.nodes[|m.nodes| - 1]], |kids[m.nodes[|m.nodes| - 1]]|))
  }

  /** What the loop ends with from configuration `m`, and after how many
      iterations: the top node's pass runs to completion (from its first
      call, or resumed with the waiting result), its size becomes the
      waiting result of the node beneath, and so on down the stack. */
  function Finish(kids: seq<seq<nat>>, rank: seq<nat>, m: Machine): (r: (LState, nat))
    requires MachineInv(kids, rank, m)
    ensures |m.nodes| > 0 ==> r.1 >= 1
    decreases |m.nodes|
  {
    if |m.nodes| == 0 then (m.state, 0)
    else
      var n := |m.nodes| - 1;
      var r := TopPass(kids, rank, m);
      var rest := Machine(r.state, m.nodes[..n], m.constraints[..n], [r.size]);
      FinishFrame(kids, rank, m, r.state, r.size);
      var f := Finish(kids, rank, rest);
      (f.0, r.steps + f.1)
  }

  /** Completing the top node's pass keeps the discipline for the nodes
      beneath it, which it cannot touch. */
  lemma FinishFrame(kids: seq<seq<nat>>, rank: seq<nat>, m: Machine, st': LState, sz: Size)
    requires MachineInv(kids, rank, m) && |m.nodes| > 0
    requires Framed(kids, rank, m.state, st', m.nodes[|m.nodes| - 1])
    ensures var n := |m.nodes| - 1;
      MachineInv(kids, rank, Machine(st', m.nodes[..n], m.constraints[..n], [sz]))
  {
    var n := |m.nodes| - 1;
    var p := m.nodes[n];
    forall k | 0 <= k < n
      ensures Layable(st'.elements, kids, rank, m.nodes[k])
      ensures st'.elements[m.nodes[k]] == m.state.elements[m.nodes[k]]
    {
      FitsSameKinds(m.state.elements, st'.elements, kids, rank, m.nodes[k]);
    }
  }

  /** One iteration of the loop: pop a node, its constraint and (if any)
      the waiting result; call the element; on `LayoutChild` push the node
      back and the child above it, on `Done` record the size and leave it
      as the waiting result. */
  function MachineStep(kids: seq<seq<nat>>, rank: seq<nat>, m: Machine): Machine
    requires MachineInv(kids, rank, m) && |m.nodes| > 0
  {
    var n := |m.nodes| - 1;
    var p, c := m.nodes[n], m.constraints[n];
    var requested := if |m.results| == 0 then None else Some(m.results[0]);
    assert Fits(m.state.elements, kids, rank, p);
    var s := ElementLayout(m.state.elements[p], c, m.state.rects, kids[p], requested);
    var elements' := m.state.elements[p := s.element];
    match s.result
    case LayoutChild(ch, cc) =>
      Machine(LState(elements', s.rects), m.nodes[..n] + [p, ch], m.constraints[..n] + [c, cc], [])
    case Done(size) =>
      Machine(LState(elements', WithSize(s.rects, p, size.width, size.height)), m.nodes[..n], m.constraints[..n], [size])
  }

  /** `Finish` of a non-empty configuration, one level unfolded. */
  lemma FinishUnfold(kids: seq<seq<nat>>, rank: seq<nat>, m: Machine)
    requires MachineInv(kids, rank, m) && |m.nodes| > 0
    ensures var n := |m.nodes| - 1;
      var r := TopPass(kids, rank, m);
      var rest := Machine(r.state, m.nodes[..n], m.constraints[..n], [r.size]);
      && MachineInv(kids, rank, rest)
      && Finish(kids, rank, m) == (Finish(kids, rank, rest).0, r.steps + Finish(kids, rank, rest).1)
  {
    var n := |m.nodes| - 1;
    var r := TopPass(kids, rank, m);
    FinishFrame(kids, rank, m, r.state, r.size);
  }

  /** The element call the top of a configuration makes next. */
  function TopCall(kids: seq<seq<nat>>, rank: seq<nat>, m: Machine): Step
    requires MachineInv(kids, rank, m) && |m.nodes| > 0
  {
    var n := |m.nodes| - 1;
    var p := m.nodes[n];
    var requested := if |m.results| == 0 then None else Some(m.results[0]);
    assert Fits(m.state.elements, kids, rank, p);
    ElementLayout(m.state.elements[p], m.constraints[n], m.state.rects, kids[p], requested)
  }

  /** The top's pass, from the call it makes next. */
  function TopPass(kids: seq<seq<nat>>, rank: seq<nat>, m: Machine): (r: Resolved)
    requires MachineInv(kids, rank, m) && |m.nodes| > 0
    ensures Framed(kids, rank, m.state, r.state, m.nodes[|m.nodes| - 1])
  {
    var n := |m.nodes| - 1;
    Drive(kids, rank, m.state, m.nodes[n], m.constraints[n], if |m.results| == 0 then None else Some(m.results[0]))
  }

  lemma StepDone(kids: seq<seq<nat>>, rank: seq<nat>, m: Machine)
    requires MachineInv(kids, rank, m) && |m.nodes| > 0 && TopCall(kids, rank, m).result.Done?
    ensures MachineInv(kids, rank, MachineStep(kids, rank, m))
    ensures Finish(kids, rank, MachineStep(kids, rank, m)).0 == Finish(kids, rank, m).0
    ensures Finish(kids, rank, MachineStep(kids, rank, m)).1 + 1 == Finish(kids, rank, m).1
  {
    var n := |m.nodes| - 1;
    var d := TopPass(kids, rank, m);
    assert MachineStep(kids, rank, m) == Machine(d.state, m.nodes[..n], m.constraints[..n], [d.size]);
    FinishUnfold(kids, rank, m);
  }

  /** A round whose top call asks for a child pushes the child above its
      parent, with the child's constraint and no reported size. */
  lemma StepChildShape(kids: seq<seq<nat>>, rank: seq<nat>, m: Machine)
    requires MachineInv(kids, rank, m) && |m.nodes| > 0 && TopCall(kids, rank, m).result.LayoutChild?
    ensures var s := TopCall(kids, rank, m);
            MachineStep(kids, rank, m)
            == Machine(LState(m.state.elements[m.nodes[|m.nodes| - 1] := s.element], s.rects),
                       m.nodes + [s.result.child], m.constraints + [s.result.constraint], [])
  {
    var n := |m.nodes| - 1;
    var s := TopCall(kids, rank, m);
    assert m.nodes[..n] + [m.nodes[n], s.result.child] == m.nodes + [s.result.child];
    assert m.constraints[..n] + [m.constraints[n], s.result.constraint] == m.constraints + [s.result.constraint];
  }

  lemma StepChildInv(kids: seq<seq<nat>>, rank: seq<nat>, m: Machine)
    requires MachineInv(kids, rank, m) && |m.nodes| > 0 && TopCall(kids, rank, m).result.LayoutChild?
    ensures MachineInv(kids, rank, MachineStep(kids, rank, m))
  {
    var n := |m.nodes| - 1;
    var p := m.nodes[n];
    var s := TopCall(kids, rank, m);
    var ch := s.result.child;
    var st1 := LState(m.state.elements[p := s.element], s.rects);
    StepChildShape(kids, rank, m);
    var m' := MachineStep(kids, rank, m);
    assert SameKinds(m.state.elements, st1.elements);
    assert Fits(m.state.elements, kids, rank, p);
    assert Ranked(kids, rank, ch) && rank[ch] < rank[p];
    forall k | 0 <= k < |m'.nodes|
      ensures m'.nodes[k] < |kids| && Layable(st1.elements, kids, rank, m'.nodes[k])
    {
      if k < n + 1 {
        FitsSameKinds(m.state.elements, st1.elements, kids, rank, m.nodes[k]);
      } else {
        FitsSameKinds(m.state.elements, st1.elements, kids, rank, ch);
      }
    }
  }

  /** The top's pass when its call asks for a child, unfolded: the child's
      whole pass, then the top resumed with the child's size. */
  lemma TopPassChild(kids: seq<seq<nat>>, rank: seq<nat>, m: Machine)
    requires MachineInv(kids, rank, m) && |m.nodes| > 0 && TopCall(kids, rank, m).result.LayoutChild?
    ensures var n := |m.nodes| - 1;
            var s := TopCall(kids, rank, m);
            var st1 := LState(m.state.elements[m.nodes[n] := s.element], s.rects);
            && Shaped(kids, rank, st1) && s.result.child < |kids|
            && Layable(st1.elements, kids, rank, s.result.child)
            && var r1 := LayNode(kids, rank, st1, s.result.child, s.result.constraint);
               && Layable(r1.state.elements, kids, rank, m.nodes[n])
               && Resumable(r1.state.elements[m.nodes[n]], |kids[m.nodes[n]]|)
               && var r2 := Drive(kids, rank, r1.state, m.nodes[n], m.constraints[n], Some(r1.size));
                  TopPass(kids, rank, m) == Resolved(r2.state, r2.size, 1 + r1.steps + r2.steps)
  {
    var n := |m.nodes| - 1;
    var p := m.nodes[n];
    var s := TopCall(kids, rank, m);
    var st1 := LState(m.state.elements[p := s.element], s.rects);
    assert Fits(m.state.elements, kids, rank, p);
    assert SameKinds(m.state.elements, st1.elements);
    assert Ranked(kids, rank, s.result.child) && rank[s.result.child] < rank[p];
    FitsSameKinds(m.state.elements, st1.elements, kids, rank, s.result.child);
    var r1 := LayNode(kids, rank, st1, s.result.child, s.result.constraint);
    SameKindsTransitive(m.state.elements, st1.elements, r1.state.elements);
    FitsSameKinds(m.state.elements, r1.state.elements, kids, rank, p);
  }

  lemma StepChild(kids: seq<seq<nat>>, rank: seq<nat>, m: Machine)
    requires MachineInv(kids, rank, m) && |m.nodes| > 0 && TopCall(kids, rank, m).result.LayoutChild?
    ensures MachineInv(kids, rank, MachineStep(kids, rank, m))
    ensures Finish(kids, rank, MachineStep(kids, rank, m)).0 == Finish(kids, rank, m).0
    ensures Finish(kids, rank, MachineStep(kids, rank, m)).1 + 1 == Finish(kids, rank, m).1
  {
    var n := |m.nodes| - 1;
    var p, c := m.nodes[n], m.constraints[n];
    var s := TopCall(kids, rank, m);
    var ch, cc := s.result.child, s.result.constraint;
    var st1 := LState(m.state.elements[p := s.element], s.rects);
    StepChildShape(kids, rank, m);
    StepChildInv(kids, rank, m);
    TopPassChild(kids, rank, m);
    var m' := MachineStep(kids, rank, m);
    var r1 := LayNode(kids, rank, st1, ch, cc);
    assert m'.nodes[..n + 1] == m.nodes && m'.constraints[..n + 1] == m.constraints;
    assert TopPass(kids, rank, m') == r1;
    FinishUnfold(kids, rank, m');
    var up := Machine(r1.state, m.nodes, m.constraints, [r1.size]);
    FinishUnfold(kids, rank, up);
    FinishUnfold(kids, rank, m);
  }

  /** Each iteration keeps the discipline, leaves the final state unchanged
      and brings it one iteration closer: the explicit stacks compute
      exactly the recursive pass. */
  lemma StepKeepsFinish(kids: seq<seq<nat>>, rank: seq<nat>, m: Machine)
    requires MachineInv(kids, rank, m) && |m.nodes| > 0
    ensures MachineInv(kids, rank, MachineStep(kids, rank, m))
    ensures Finish(kids, rank, MachineStep(kids, rank, m)).0 == Finish(kids, rank, m).0
    ensures Finish(kids, rank, MachineStep(kids, rank, m)).1 + 1 == Finish(kids, rank, m).1
  {
    if TopCall(kids, rank, m).result.Done? {
      StepDone(kids, rank, m);
    } else {
      StepChild(kids, rank, m);
    }
  }

  /** The whole pass `Surface::layout` runs from a root: the root is placed
      at the origin with the surface's size and driven under the fixed
      constraint of that size. */
  function LayoutPass(kids: seq<seq<nat>>, rank: seq<nat>, st: LState, root: nat, size: Size): (r: Resolved)
    requires Shaped(kids, rank, st) && root < |kids| && Layable(st.elements, kids, rank, root)
    ensures Shaped(kids, rank, r.state)
    ensures r.state.rects[root] == Rect(0, 0, r.size.width, r.size.height)
    ensures forall i :: 0 <= i < |kids| && rank[i] >= rank[root] && i != root ==>
              r.state.elements[i] == st.elements[i] && r.state.rects[i] == st.rects[i]
  {
    var rects := WithPosition(WithSize(st.rects, root, size.width, size.height), root, 0, 0);
    LayNode(kids, rank, LState(st.elements, rects), root, Fixed(size.width, size.height))
  }

  /** The initial configuration of the loop for that pass, and what it ends with. */
  lemma InitialMachine(kids: seq<seq<nat>>, rank: seq<nat>, st: LState, root: nat, size: Size)
    requires Shaped(kids, rank, st) && root < |kids| && Layable(st.elements, kids, rank, root)
    ensures var rects := WithPosition(WithSize(st.rects, root, size.width, size.height), root, 0, 0);
      var m := Machine(LState(st.elements, rects), [root], [Fixed(size.width, size.height)], []);
      && MachineInv(kids, rank, m)
      && Finish(kids, rank, m).0 == LayoutPass(kids, rank, st, root, size).state
  {
    var rects := WithPosition(WithSize(st.rects, root, size.width, size.height), root, 0, 0);
    var m := Machine(LState(st.elements, rects), [root], [Fixed(size.width, size.height)], []);
    assert MachineInv(kids, rank, m);
    var r := TopPass(kids, rank, m);
    FinishFrame(kids, rank, m, r.state, r.size);
    assert Finish(kids, rank, Machine(r.state, [], [], [r.size])).0 == r.state;
  }
}
