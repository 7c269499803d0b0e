/** hydron-ui/src/surface.rs: the retained node store. Nodes are indices
    into parallel tables (elements, child lists, parent links, styles, and
    the rectangle table of the layout context); freed indices are recycled
    last-in first-out. */
module Surfaces {
  import opened Options
  import opened Geometry
  import opened Styles
  import opened Contexts
  import opened Elements
  import opened LayoutSpec
  import opened Traversal
  import opened Removal
  import opened Sequences

  class Surface {
    var size: Size
    var rootIndex: Option<nat>
    var elements: seq<Element>
    var children: seq<seq<nat>>
    var parents: seq<Option<nat>>
    var styles: seq<Style>
    var layoutContext: LayoutContext
    var renderContext: RenderContext
    var freeList: seq<nat>

    /** The tables stay parallel and every stored index addresses a node:
        the source indexes them all without checks. */
    predicate Valid()
      reads this, layoutContext
    {
      && |children| == |elements| && |parents| == |elements|
      && |styles| == |elements| && |layoutContext.data| == |elements|
      && (forall x :: 0 <= x < |children| ==> ChildrenIn(children[x], |elements|))
      && (forall x :: 0 <= x < |parents| && parents[x].Some? ==> parents[x].value < |elements|)
      && ChildrenIn(freeList, |elements|)
    }

    /** The layout state as one value. */
    function LayoutState(): LState
      reads this, layoutContext
    {
      LState(elements, layoutContext.data)
    }

    constructor (size: Size)
      ensures Valid()
      ensures this.size == size && rootIndex == None
      ensures elements == [] && children == [] && parents == [] && styles == [] && freeList == []
      ensures layoutContext.data == [] && renderContext.commands == []
      ensures fresh(layoutContext) && fresh(renderContext)
    {
      this.size := size;
      rootIndex := None;
      elements := [];
      children := [];
      parents := [];
      styles := [];
      layoutContext := new LayoutContext();
      renderContext := new RenderContext();
      freeList := [];
    }

    method GetSize() returns (s: Size)
      ensures s == size
    {
      s := size;
    }

    method Resize(size: Size)
      modifies this
      ensures this.size == size
      ensures rootIndex == old(rootIndex) && elements == old(elements) && children == old(children)
      ensures parents == old(parents) && styles == old(styles) && freeList == old(freeList)
      ensures layoutContext == old(layoutContext) && renderContext == old(renderContext)
    {
      this.size := size;
    }

    method SetStyle(index: nat, style: Style)
      requires index < |styles|
      modifies this
      ensures styles == old(styles)[index := style]
      ensures size == old(size) && rootIndex == old(rootIndex) && elements == old(elements)
      ensures children == old(children) && parents == old(parents) && freeList == old(freeList)
      ensures layoutContext == old(layoutContext) && renderContext == old(renderContext)
    {
      styles := styles[index := style];
    }

    /** Any index is accepted; a root that names no node makes the next
        layout or paint fail. */
    method SetRoot(index: nat)
      modifies this
      ensures rootIndex == Some(index)
      ensures size == old(size) && elements == old(elements) && styles == old(styles)
      ensures children == old(children) && parents == old(parents) && freeList == old(freeList)
      ensures layoutContext == old(layoutContext) && renderContext == old(renderContext)
    {
      rootIndex := Some(index);
    }

    /** Appends the child to the parent's list (duplicates included) and
        overwrites the child's parent link; the old parent keeps listing it. */
    method SetParent(childIndex: nat, parentIndex: nat)
      requires Valid() && childIndex < |elements| && parentIndex < |elements|
      modifies this
      ensures Valid()
      ensures children == old(children)[parentIndex := old(children)[parentIndex] + [childIndex]]
      ensures parents == old(parents)[childIndex := Some(parentIndex)]
      ensures size == old(size) && rootIndex == old(rootIndex) && elements == old(elements)
      ensures styles == old(styles) && freeList == old(freeList)
      ensures layoutContext == old(layoutContext) && renderContext == old(renderContext)
    {
      children := children[parentIndex := children[parentIndex] + [childIndex]];
      parents := parents[childIndex := Some(parentIndex)];
    }

    /** Reuses the most recently freed index when there is one (new element,
        empty style, zero rectangle; its child list and parent link are left
        as they were), otherwise appends a fresh node at the end. */
    method Insert(element: Element) returns (index: nat)
      requires Valid()
      modifies this, layoutContext
      ensures Valid() && index < |elements|
      ensures old(freeList) != [] ==>
        && index == old(freeList)[|old(freeList)| - 1]
        && freeList == old(freeList)[..|old(freeList)| - 1]
        && elements == old(elements)[index := element]
        && styles == old(styles)[index := EmptyStyle()]
        && layoutContext.data == old(layoutContext.data)[index := Rect(0, 0, 0, 0)]
        && children == old(children) && parents == old(parents)
      ensures old(freeList) == [] ==>
        && index == |old(elements)|
        && freeList == []
        && elements == old(elements) + [element]
        && styles == old(styles) + [EmptyStyle()]
        && layoutContext.data == old(layoutContext.data) + [Rect(0, 0, 0, 0)]
        && children == old(children) + [[]] && parents == old(parents) + [None]
      ensures size == old(size) && rootIndex == old(rootIndex)
      ensures layoutContext == old(layoutContext) && renderContext == old(renderContext)
    {
      if |freeList| > 0 {
        index := freeList[|freeList| - 1];
        freeList := freeList[..|freeList| - 1];
        elements := elements[index := element];
        styles := styles[index := EmptyStyle()];
        layoutContext.SetSize(index, 0, 0);
        layoutContext.PositionChild(index, 0, 0);
        return;
      }
      index := |elements|;
      layoutContext.Insert(Rect(0, 0, 0, 0));
      elements := elements + [element];
      children := children + [[]];
      parents := parents + [None];
      styles := styles + [EmptyStyle()];
    }

    /** Frees `index` and everything below it: each node met is unlinked
        from the list of the parent its link names, its own children are
        queued and its list cleared, and its index is pushed on the free
        list. The nodes freed are exactly those reachable from `index` in
        the child lists as they were (`Closed` and `Grown`), the root is
        dropped if among them, every surviving list loses exactly the first
        occurrence of each freed node recording it as parent (`Unlinks`),
        and on a tree no node is freed twice (see `Removed`). */
    method Remove(index: nat)
      requires Valid() && index < |elements|
      modifies this`children, this`freeList, this`rootIndex
      ensures Valid()
      ensures Removed(old(children), children, parents, old(freeList), freeList, index)
      ensures rootIndex == if old(rootIndex).Some? && old(rootIndex).value in freeList[|old(freeList)|..]
                           then None else old(rootIndex)
    {
      ghost var w := RemoveWalk(index);
      LastWalkEnds(old(children), parents, index, w, old(freeList));
      ChildrenInConcat(old(freeList), w.freed, |elements|);
    }

    /** The loop of `Surface::remove`: a stack of nodes still to free,
        starting with `index`; `w` is the walk it performed. */
    method RemoveWalk(index: nat) returns (ghost w: Walk)
      requires Valid() && index < |elements|
      modifies this`children, this`freeList, this`rootIndex
      ensures Walking(old(children), parents, index, w) == true
      ensures |w.stack| == 0 && children == w.kids && freeList == old(freeList) + w.freed
      ensures rootIndex == if old(rootIndex).Some? && old(rootIndex).value in w.freed then None else old(rootIndex)
    {
      var stack := [index];
      w := FirstWalk(children, index);
      FirstWalkStarts(children, parents, index);
      while |stack| > 0
        // compared with `true` so that the verifier checks it as one fact
        // rather than conjunct by conjunct
        invariant Walking(old(children), parents, index, w) == true
        invariant stack == w.stack && children == w.kids && freeList == old(freeList) + w.freed
        invariant rootIndex == if old(rootIndex).Some? && old(rootIndex).value in w.freed then None else old(rootIndex)
        decreases WalkMeasure(w)
      {
        NextWalkKeeps(old(children), parents, index, w);
        ghost var freedBefore := w.freed;
        var n := |stack| - 1;
        var x := stack[n];
        stack := stack[..n];
        var queued := FreeNode(x);
        stack := stack + queued;
        w := NextWalk(old(children), parents, index, w);
        AppendAssoc(old(freeList), freedBefore, [x]);
      }
    }

    /** The body of `Surface::remove`'s loop for one popped node `x`: drop
        the root if it is `x`, unlink `x` from its recorded parent's list,
        hand back `x`'s list to be queued and clear it, free `x`. */
    method FreeNode(x: nat) returns (queued: seq<nat>)
      requires x < |children| && |parents| == |children| && ParentsIn(parents, |children|)
      modifies this`children, this`freeList, this`rootIndex
      ensures queued == Unlinked(old(children), parents, x)[x]
      ensures children == Unlinked(old(children), parents, x)[x := []]
      ensures freeList == old(freeList) + [x]
      ensures rootIndex == if old(rootIndex) == Some(x) then None else old(rootIndex)
    {
      if rootIndex.Some? && rootIndex.value == x {
        rootIndex := None;
      }
      if parents[x].Some? {
        var p := parents[x].value;
        children := children[p := RemoveFirst(children[p], x)];
      }
      queued := children[x];
      children := children[x := []];
      freeList := freeList + [x];
    }

    /** `Surface::layout`: with a root, the root is given the surface size at
        the origin and every reachable node is driven by the explicit stacks
        until the root reports; the result is the recursive pass
        `LayoutPass`. Without a root nothing changes. */
    method Layout(ghost rank: seq<nat>)
      requires Valid()
      requires rootIndex.Some? ==> Layable(elements, children, rank, rootIndex.value)
      modifies this, layoutContext
      ensures size == old(size) && rootIndex == old(rootIndex) && children == old(children)
      ensures parents == old(parents) && styles == old(styles) && freeList == old(freeList)
      ensures layoutContext == old(layoutContext) && renderContext == old(renderContext)
      ensures Valid()
      ensures rootIndex.None? ==> elements == old(elements) && layoutContext.data == old(layoutContext.data)
      ensures rootIndex.Some? ==>
        LayoutState() == LayoutPass(children, rank, old(LayoutState()), rootIndex.value, size).state
    {
      if rootIndex.Some? {
        var i := rootIndex.value;
        ghost var st := LayoutState();
        assert Shaped(children, rank, st);
        var indexStack: seq<nat> := [];
        var constraintStack: seq<Constraint> := [];
        var resultStack: seq<Size> := [];

        indexStack := indexStack + [i];
        layoutContext.SetSize(i, size.width, size.height);
        layoutContext.PositionChild(i, 0, 0);
        constraintStack := constraintStack + [Fixed(size.width, size.height)];

        InitialMachine(children, rank, st, i, size);
        ghost var m0 := Machine(LayoutState(), indexStack, constraintStack, resultStack);
        while |indexStack| > 0
          invariant Valid()
          invariant size == old(size) && rootIndex == old(rootIndex) && children == old(children)
          invariant parents == old(parents) && styles == old(styles) && freeList == old(freeList)
          invariant layoutContext == old(layoutContext) && renderContext == old(renderContext)
          invariant MachineInv(children, rank, Machine(LayoutState(), indexStack, constraintStack, resultStack))
          invariant Finish(children, rank, Machine(LayoutState(), indexStack, constraintStack, resultStack)).0
                    == Finish(children, rank, m0).0
          decreases Finish(children, rank, Machine(LayoutState(), indexStack, constraintStack, resultStack)).1
        {
          ghost var m := Machine(LayoutState(), indexStack, constraintStack, resultStack);
          StepKeepsFinish(children, rank, m);
          indexStack, constraintStack, resultStack := LayoutIteration(rank, indexStack, constraintStack, resultStack);
        }
      }
    }

    /** One iteration of the loop of `Surface::layout`: pop a node, its
        constraint and the waiting result, if any; call the element; on
        `LayoutChild` push the node back with the child above it, on `Done`
        record the size and leave it as the waiting result. */
    method LayoutIteration(ghost rank: seq<nat>, indexStack: seq<nat>, constraintStack: seq<Constraint>, resultStack: seq<Size>)
      returns (indexStack': seq<nat>, constraintStack': seq<Constraint>, resultStack': seq<Size>)
      requires Valid() && |indexStack| > 0
      requires MachineInv(children, rank, Machine(LayoutState(), indexStack, constraintStack, resultStack))
      modifies this, layoutContext
      ensures size == old(size) && rootIndex == old(rootIndex) && children == old(children)
      ensures parents == old(parents) && styles == old(styles) && freeList == old(freeList)
      ensures layoutContext == old(layoutContext) && renderContext == old(renderContext)
      ensures Valid()
      ensures Machine(LayoutState(), indexStack', constraintStack', resultStack')
              == MachineStep(children, rank, old(Machine(LayoutState(), indexStack, constraintStack, resultStack)))
    {
      var n := |indexStack| - 1;
      var index := indexStack[n];
      indexStack' := indexStack[..n];
      var constraint := constraintStack[n];
      constraintStack' := constraintStack[..n];
      var requested: Option<Size> := None;
      resultStack' := resultStack;
      if |resultStack'| > 0 {
        requested := Some(resultStack'[|resultStack'| - 1]);
        resultStack' := resultStack'[..|resultStack'| - 1];
      }
      assert Fits(elements, children, rank, index);
      var element, result := Elements.Layout(elements[index], constraint, layoutContext, children[index], requested);
      elements := elements[index := element];
      match result {
        case LayoutChild(childIndex, childConstraint) =>
          indexStack' := indexStack' + [index];
          constraintStack' := constraintStack' + [constraint];
          indexStack' := indexStack' + [childIndex];
          constraintStack' := constraintStack' + [childConstraint];
        case Done(resultSize) =>
          layoutContext.SetSize(index, resultSize.width, resultSize.height);
          resultStack' := resultStack' + [resultSize];
      }
    }

    /** `Surface::paint`: with a root, every node reachable from it is
        painted in `PaintOrder` (the root first, a child always after its
        parent); the buffer, with whatever was queued before, is handed
        over and left empty. */
    method Paint(ghost rank: seq<nat>) returns (commands: seq<Command>)
      requires Valid()
      requires rootIndex.Some? ==> Ranked(children, rank, rootIndex.value)
      modifies renderContext
      ensures commands == old(renderContext.commands) +
        if rootIndex.Some? then Drawing(layoutContext.data, styles, PaintOrder(children, rank, rootIndex.value)) else []
      ensures renderContext.commands == []
    {
      if rootIndex.Some? {
        var i := rootIndex.value;
        var indexStack: seq<nat> := [];
        indexStack := indexStack + [i];
        SingleStackOrder(children, rank, i);
        AppendAssoc(old(renderContext.commands), [], Drawing(layoutContext.data, styles, PaintOrder(children, rank, i)));
        while |indexStack| > 0
          invariant AllRanked(children, rank, indexStack)
          invariant renderContext.commands + Drawing(layoutContext.data, styles, StackOrder(children, rank, indexStack))
                    == old(renderContext.commands) + Drawing(layoutContext.data, styles, PaintOrder(children, rank, i))
          decreases |StackOrder(children, rank, indexStack)|
        {
          PaintStep(children, rank, layoutContext.data, styles, indexStack);
          ghost var before := renderContext.commands;
          var n := |indexStack| - 1;
          var index := indexStack[n];
          indexStack := indexStack[..n];
          var rect := layoutContext.GetRect(index);
          Elements.Paint(elements[index], rect, renderContext, styles[index]);
          indexStack := indexStack + children[index];
          AppendAssoc(before, PaintCommands(rect, styles[index]),
                      Drawing(layoutContext.data, styles, StackOrder(children, rank, indexStack)));
        }
      }
      commands := renderContext.GetCommands();
    }
  }
}
