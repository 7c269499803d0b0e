/** The window set up by hydron/src/main.rs: a 1024 x 768 surface whose
    root is a white box holding a horizontal flex container with four
    fixed-size children of width 200 and heights 100, 200, 300 and 400,
    coloured red, green, blue and grey. The lemmas below work out what one
    layout pass and one paint pass of that surface produce. */
module Demo {
  import opened Options
  import opened Geometry
  import opened Styles
  import opened Contexts
  import opened Elements
  import opened LayoutSpec
  import opened Traversal
  import opened Surfaces

  const Kids: seq<seq<nat>> := [[1], [2, 3, 4, 5], [], [], [], []]
  const Rank: seq<nat> := [2, 1, 0, 0, 0, 0]
  const Nodes: seq<Element> :=
    [BoxElement, FlexElement(Horizontal, 0, 0, 0),
     FixedElement(200, 100), FixedElement(200, 200), FixedElement(200, 300), FixedElement(200, 400)]
  const Blank: seq<Rect> := [Rect(0, 0, 0, 0), Rect(0, 0, 0, 0), Rect(0, 0, 0, 0),
                             Rect(0, 0, 0, 0), Rect(0, 0, 0, 0), Rect(0, 0, 0, 0)]

  /** The constraint the root box hands the flex container, and the slot
      constraint the container hands each of its four children. */
  const Outer: Constraint := NewConstraint(0, 1024, 0, 768)
  const Slot: Constraint := NewConstraint(256, 256, 0, 768)

  lemma DemoShaped(st: LState)
    requires |st.elements| == 6 && |st.rects| == 6
    ensures Shaped(Kids, Rank, st)
  {
    forall q | 0 <= q < 6 ensures ChildrenIn(Kids[q], 6) { }
  }

  /** A fixed element without children resolves in one call: its own size
      clamped to the maxima, recorded as its width and height. */
  lemma FixedLeafPass(st: LState, i: nat, c: Constraint)
    requires Shaped(Kids, Rank, st) && 2 <= i < 6 && st.elements[i] == Nodes[i]
    ensures Layable(st.elements, Kids, Rank, i)
    ensures var s := Clamped(Nodes[i].width, Nodes[i].height, c);
      LayNode(Kids, Rank, st, i, c) == Resolved(LState(st.elements, WithSize(st.rects, i, s.width, s.height)), s, 1)
  {
    assert Kids[i] == [];
    assert Layable(st.elements, Kids, Rank, i);
  }

  /** The flex container after its `k`-th call: waiting on child `k`, its
      slot 256 wide, its minor extent the tallest child seen so far. */
  function FlexAt(k: nat): Element {
    FlexElement(Horizontal, k, 256, 100 * k)
  }

  function ElementsAt(k: nat): seq<Element> {
    Nodes[1 := FlexAt(k)]
  }

  /** The rectangles once the first `k` children are sized. */
  function RectsAt(k: nat): (r: seq<Rect>)
    ensures |r| == 6
  {
    seq(6, i => if i == 0 then Rect(0, 0, 1024, 768)
                else if 2 <= i < k + 2 then Rect(0, 0, 200, 100 * (i - 1))
                else Rect(0, 0, 0, 0))
  }

  lemma FlexLayable(es: seq<Element>)
    requires |es| == 6 && es[0] == BoxElement && es[1].FlexElement? && es[2..] == Nodes[2..]
    ensures Layable(es, Kids, Rank, 1) && Layable(es, Kids, Rank, 0)
  {
    forall i | 2 <= i < 6 ensures Ranked(Kids, Rank, i) && Fits(es, Kids, Rank, i) {
      assert Kids[i] == [] && es[i] == es[2..][i - 2];
    }
    assert Ranked(Kids, Rank, 1) && Fits(es, Kids, Rank, 1);
    assert Ranked(Kids, Rank, 0) && Fits(es, Kids, Rank, 0);
  }

  /** The container's first call fixes the slot width at 1024 / 4 = 256
      and asks for child 2 under the slot constraint; the child takes
      200 x 100 and the container is called again with that size. */
  lemma FlexFirstRound()
    ensures Shaped(Kids, Rank, LState(Nodes, RectsAt(0))) && Layable(Nodes, Kids, Rank, 1)
    ensures Shaped(Kids, Rank, LState(ElementsAt(0), RectsAt(1))) && Layable(ElementsAt(0), Kids, Rank, 1)
    ensures var r := Drive(Kids, Rank, LState(ElementsAt(0), RectsAt(1)), 1, Outer, Some(Size(200, 100)));
      LayNode(Kids, Rank, LState(Nodes, RectsAt(0)), 1, Outer) == Resolved(r.state, r.size, r.steps + 2)
  {
    FlexLayable(Nodes);
    FlexLayable(ElementsAt(0));
    DemoShaped(LState(Nodes, RectsAt(0)));
    DemoShaped(LState(ElementsAt(0), RectsAt(0)));
    DemoShaped(LState(ElementsAt(0), RectsAt(1)));
    var s := ElementLayout(Nodes[1], Outer, RectsAt(0), Kids[1], None);
    assert s == Step(FlexAt(0), RectsAt(0), LayoutChild(2, Slot));
    FixedLeafPass(LState(ElementsAt(0), RectsAt(0)), 2, Slot);
    assert WithSize(RectsAt(0), 2, 200, 100) == RectsAt(1);
  }

  /** Resumed with child `k`'s size, the container records the tallest
      height so far and asks for the next child, which takes 200 wide and
      100 more in height. */
  lemma FlexResumeRound(k: nat)
    requires 1 <= k <= 3
    ensures Shaped(Kids, Rank, LState(ElementsAt(k - 1), RectsAt(k))) && Layable(ElementsAt(k - 1), Kids, Rank, 1)
    ensures Shaped(Kids, Rank, LState(ElementsAt(k), RectsAt(k + 1))) && Layable(ElementsAt(k), Kids, Rank, 1)
    ensures var r := Drive(Kids, Rank, LState(ElementsAt(k), RectsAt(k + 1)), 1, Outer, Some(Size(200, 100 * (k + 1))));
      Drive(Kids, Rank, LState(ElementsAt(k - 1), RectsAt(k)), 1, Outer, Some(Size(200, 100 * k)))
        == Resolved(r.state, r.size, r.steps + 2)
  {
    FlexLayable(ElementsAt(k - 1));
    FlexLayable(ElementsAt(k));
    DemoShaped(LState(ElementsAt(k - 1), RectsAt(k)));
    DemoShaped(LState(ElementsAt(k), RectsAt(k)));
    DemoShaped(LState(ElementsAt(k), RectsAt(k + 1)));
    FlexResumeStep(k);
    FixedLeafPass(LState(ElementsAt(k), RectsAt(k)), k + 2, Slot);
    RectsGrow(k);
  }

  /** One resumed call of the container on its own. */
  lemma FlexResumeStep(k: nat)
    requires 1 <= k <= 3
    ensures ElementsAt(k - 1)[1] == FlexAt(k - 1) && ElementsAt(k - 1)[1 := FlexAt(k)] == ElementsAt(k)
    ensures ElementLayout(FlexAt(k - 1), Outer, RectsAt(k), Kids[1], Some(Size(200, 100 * k)))
         == Step(FlexAt(k), RectsAt(k), LayoutChild(k + 2, Slot))
  {
  }

  lemma RectsGrow(k: nat)
    requires 1 <= k <= 3
    ensures Nodes[k + 2] == FixedElement(200, 100 * (k + 1))
    ensures WithSize(RectsAt(k), k + 2, 200, 100 * (k + 1)) == RectsAt(k + 1)
  {
  }

  /** The container's rectangles after its pass: every child centred in
      its 256-wide slot (padding 28), the container 1024 wide and as tall as
      its tallest child. */
  const FlexDone: seq<Rect> :=
    [Rect(0, 0, 1024, 768), Rect(0, 0, 1024, 400), Rect(28, 0, 200, 100),
     Rect(284, 0, 200, 200), Rect(540, 0, 200, 300), Rect(796, 0, 200, 400)]

  /** Resumed with the last child's size, the container places all four
      children and reports the full width by the tallest height. */
  lemma FlexLastRound()
    ensures Shaped(Kids, Rank, LState(ElementsAt(3), RectsAt(4))) && Layable(ElementsAt(3), Kids, Rank, 1)
    ensures Drive(Kids, Rank, LState(ElementsAt(3), RectsAt(4)), 1, Outer, Some(Size(200, 400)))
         == Resolved(LState(ElementsAt(4), FlexDone), Size(1024, 400), 1)
  {
    FlexLayable(ElementsAt(3));
    DemoShaped(LState(ElementsAt(3), RectsAt(4)));
    FlexLastStep();
    assert WithSize(FlexDone[1 := Rect(0, 0, 0, 0)], 1, 1024, 400) == FlexDone;
  }

  /** The container's last call: every child is placed in its slot. */
  lemma FlexLastStep()
    ensures ElementsAt(3)[1] == FlexAt(3) && ElementsAt(3)[1 := FlexAt(4)] == ElementsAt(4)
    ensures ElementLayout(FlexAt(3), Outer, RectsAt(4), Kids[1], Some(Size(200, 400)))
         == Step(FlexAt(4), FlexDone[1 := Rect(0, 0, 0, 0)], Done(Size(1024, 400)))
  {
    FlexPlaces();
  }

  /** Placing the four sized children: slot `j` starts at 256 * j and the
      child is centred in it, (256 - 200) / 2 = 28 further on. */
  lemma FlexPlaces()
    ensures PlaceFrom(Horizontal, 256, Kids[1], RectsAt(4), 0) == FlexDone[1 := Rect(0, 0, 0, 0)]
  {
    var rs := RectsAt(4);
    var p1 := WithPosition(rs, 2, 28, 0);
    var p2 := WithPosition(p1, 3, 284, 0);
    var p3 := WithPosition(p2, 4, 540, 0);
    var p4 := WithPosition(p3, 5, 796, 0);
    assert PlaceFrom(Horizontal, 256, Kids[1], p4, 4) == p4;
    assert PlaceFrom(Horizontal, 256, Kids[1], p3, 3) == p4;
    assert PlaceFrom(Horizontal, 256, Kids[1], p2, 2) == p4;
    assert PlaceFrom(Horizontal, 256, Kids[1], p1, 1) == p4;
    assert PlaceFrom(Horizontal, 256, Kids[1], rs, 0) == p4;
    assert p4 == FlexDone[1 := Rect(0, 0, 0, 0)];
  }

  /** The container's whole pass: nine calls (five of its own, one per
      child), ending with the children at x = 28, 284, 540 and 796. */
  lemma FlexPass()
    ensures Shaped(Kids, Rank, LState(Nodes, RectsAt(0))) && Layable(Nodes, Kids, Rank, 1)
    ensures LayNode(Kids, Rank, LState(Nodes, RectsAt(0)), 1, Outer)
         == Resolved(LState(ElementsAt(4), FlexDone), Size(1024, 400), 9)
  {
    FlexFirstRound();
    FlexResumeRound(1);
    FlexResumeRound(2);
    FlexResumeRound(3);
    FlexLastRound();
  }

  /** The rectangles after the whole layout pass: the container's size
      1024 x 400 is also what the root box reports, so it replaces the
      root's 1024 x 768. */
  const Laid: seq<Rect> :=
    [Rect(0, 0, 1024, 400), Rect(0, 0, 1024, 400), Rect(28, 0, 200, 100),
     Rect(284, 0, 200, 200), Rect(540, 0, 200, 300), Rect(796, 0, 200, 400)]

  /** The layout pass of the demo surface from blank rectangles: eleven
      calls in all, ending with the table above. */
  lemma DemoLayout()
    ensures Shaped(Kids, Rank, LState(Nodes, Blank)) && Layable(Nodes, Kids, Rank, 0)
    ensures LayoutPass(Kids, Rank, LState(Nodes, Blank), 0, Size(1024, 768))
         == Resolved(LState(ElementsAt(4), Laid), Size(1024, 400), 11)
  {
    FlexLayable(Nodes);
    DemoShaped(LState(Nodes, Blank));
    RootSteps();
    RootFirst();
    FlexPass();
    RootResumed();
  }

  /** The root box's first call hands the pass to the container, then
      the root is resumed with the container's size. */
  lemma RootFirst()
    ensures Shaped(Kids, Rank, LState(Nodes, RectsAt(0))) && Layable(Nodes, Kids, Rank, 0)
    ensures Shaped(Kids, Rank, LState(ElementsAt(4), FlexDone)) && Layable(ElementsAt(4), Kids, Rank, 0)
    ensures var r2 := Drive(Kids, Rank, LState(ElementsAt(4), FlexDone), 0, Fixed(1024, 768), Some(Size(1024, 400)));
      LayNode(Kids, Rank, LState(Nodes, RectsAt(0)), 0, Fixed(1024, 768)) == Resolved(r2.state, r2.size, 10 + r2.steps)
  {
    RootSetup();
    RootSteps();
    FlexPass();
  }

  lemma RootSetup()
    ensures Shaped(Kids, Rank, LState(Nodes, RectsAt(0))) && Layable(Nodes, Kids, Rank, 0)
    ensures Shaped(Kids, Rank, LState(ElementsAt(4), FlexDone)) && Layable(ElementsAt(4), Kids, Rank, 0)
    ensures Nodes[0] == BoxElement && Nodes[0 := BoxElement] == Nodes && ElementsAt(4)[0] == BoxElement
  {
    FlexLayable(Nodes);
    FlexLayable(ElementsAt(4));
    DemoShaped(LState(Nodes, RectsAt(0)));
    DemoShaped(LState(ElementsAt(4), FlexDone));
  }

  /** The root box resumed with the container's size. */
  lemma RootResumed()
    ensures Shaped(Kids, Rank, LState(ElementsAt(4), FlexDone)) && Layable(ElementsAt(4), Kids, Rank, 0)
    ensures Drive(Kids, Rank, LState(ElementsAt(4), FlexDone), 0, Fixed(1024, 768), Some(Size(1024, 400)))
         == Resolved(LState(ElementsAt(4), Laid), Size(1024, 400), 1)
  {
    FlexLayable(ElementsAt(4));
    DemoShaped(LState(ElementsAt(4), FlexDone));
    RootSteps();
  }

  /** The root box's two calls: it asks for its one child under its own
      maxima, then reports the child's size as its own. */
  lemma RootSteps()
    ensures WithPosition(WithSize(Blank, 0, 1024, 768), 0, 0, 0) == RectsAt(0)
    ensures ElementLayout(BoxElement, Fixed(1024, 768), RectsAt(0), Kids[0], None)
         == Step(BoxElement, RectsAt(0), LayoutChild(1, Outer))
    ensures ElementLayout(BoxElement, Fixed(1024, 768), FlexDone, Kids[0], Some(Size(1024, 400)))
         == Step(BoxElement, FlexDone, Done(Size(1024, 400)))
    ensures WithSize(FlexDone, 0, 1024, 400) == Laid
  {
    assert WithPosition(FlexDone, 1, 0, 0) == FlexDone;
  }

  // ---------------------------------------------------------------------
  // Painting

  /** A solid fill and no border on any side. */
  function Filled(r: real, g: real, b: real): (s: Style)
    ensures s.background == BackgroundColor(Rgba(r, g, b, 1.0))
  {
    Style(BackgroundColor(Rgba(r, g, b, 1.0)), Trbl(NoBorder, NoBorder, NoBorder, NoBorder))
  }

  /** White root, unstyled container, then red, green, blue and grey. */
  const Styled: seq<Style> :=
    [Filled(1.0, 1.0, 1.0), EmptyStyle(), Filled(1.0, 0.0, 0.0),
     Filled(0.0, 1.0, 0.0), Filled(0.0, 0.0, 1.0), Filled(0.5, 0.5, 0.5)]

  /** The root first, then the container, then its children from the
      last to the first. */
  lemma DemoPaintOrder()
    ensures Ranked(Kids, Rank, 0)
    ensures PaintOrder(Kids, Rank, 0) == [0, 1, 5, 4, 3, 2]
  {
    FlexLayable(Nodes);
    FlexChildrenOrder();
    assert Kids[1] == [2, 3, 4, 5] && Kids[0] == [1];
    SingleStackOrder(Kids, Rank, 1);
    assert PaintOrder(Kids, Rank, 1) == [1, 5, 4, 3, 2];
  }

  /** The container's children are walked from the last to the first. */
  lemma FlexChildrenOrder()
    ensures AllRanked(Kids, Rank, [2, 3, 4, 5])
    ensures StackOrder(Kids, Rank, [2, 3, 4, 5]) == [5, 4, 3, 2]
  {
    LeafOrder(2);
    LeafOrder(3);
    LeafOrder(4);
    LeafOrder(5);
    StackOrderAppend(Kids, Rank, [2], [3]);
    assert [2] + [3] == [2, 3];
    StackOrderAppend(Kids, Rank, [2, 3], [4]);
    assert [2, 3] + [4] == [2, 3, 4];
    StackOrderAppend(Kids, Rank, [2, 3, 4], [5]);
    assert [2, 3, 4] + [5] == [2, 3, 4, 5];
  }

  lemma LeafOrder(i: nat)
    requires 2 <= i < 6
    ensures AllRanked(Kids, Rank, [i]) && StackOrder(Kids, Rank, [i]) == [i]
  {
    assert Kids[i] == [];
    assert Ranked(Kids, Rank, i);
    SingleStackOrder(Kids, Rank, i);
  }

  /** What one frame draws: the white root over the container's full
      extent, then the grey, blue, green and red children at their slots;
      the unstyled container draws nothing. */
  const Frame: seq<Command> :=
    [DrawRect(Rect(0, 0, 1024, 400), Rgba(1.0, 1.0, 1.0, 1.0)),
     DrawRect(Rect(796, 0, 200, 400), Rgba(0.5, 0.5, 0.5, 1.0)),
     DrawRect(Rect(540, 0, 200, 300), Rgba(0.0, 0.0, 1.0, 1.0)),
     DrawRect(Rect(284, 0, 200, 200), Rgba(0.0, 1.0, 0.0, 1.0)),
     DrawRect(Rect(28, 0, 200, 100), Rgba(1.0, 0.0, 0.0, 1.0))]

  lemma DemoDrawing()
    ensures Drawing(Laid, Styled, [0, 1, 5, 4, 3, 2]) == Frame
  {
    var o := [0, 1, 5, 4, 3, 2];
    assert o[..5] == [0, 1, 5, 4, 3] && o[..4] == [0, 1, 5, 4] && o[..3] == [0, 1, 5];
    assert o[..2] == [0, 1] && o[..1] == [0];
    assert [0, 1, 5, 4, 3][..4] == [0, 1, 5, 4] && [0, 1, 5, 4][..3] == [0, 1, 5];
    assert [0, 1, 5][..2] == [0, 1] && [0, 1][..1] == [0] && [0][..0] == [];
    assert Drawing(Laid, Styled, [0]) == Frame[..1];
    assert Drawing(Laid, Styled, [0, 1]) == Frame[..1];
    assert Drawing(Laid, Styled, [0, 1, 5]) == Frame[..2];
    assert Drawing(Laid, Styled, [0, 1, 5, 4]) == Frame[..3];
    assert Drawing(Laid, Styled, [0, 1, 5, 4, 3]) == Frame[..4];
  }

  // ---------------------------------------------------------------------
  // The program's set-up and one frame

  /** One `insert` followed by `set_style` on a surface with nothing
      freed: the node is appended with the given style. */
  method Append(surface: Surface, element: Element, style: Style) returns (index: nat)
    requires surface.Valid() && surface.freeList == []
    modifies surface, surface.layoutContext
    ensures surface.Valid() && index == |old(surface.elements)|
    ensures surface.elements == old(surface.elements) + [element]
    ensures surface.styles == old(surface.styles) + [style]
    ensures surface.children == old(surface.children) + [[]]
    ensures surface.layoutContext.data == old(surface.layoutContext.data) + [Rect(0, 0, 0, 0)]
    ensures surface.freeList == [] && surface.rootIndex == old(surface.rootIndex) && surface.size == old(surface.size)
    ensures surface.layoutContext == old(surface.layoutContext) && surface.renderContext == old(surface.renderContext)
    ensures surface.renderContext.commands == old(surface.renderContext.commands)
  {
    index := surface.Insert(element);
    surface.SetStyle(index, style);
  }

  /** The surface the program builds: a white root box, a horizontal
      container below it, and four coloured fixed-size children below the
      container, inserted and linked in that order. */
  method Build() returns (surface: Surface)
    ensures fresh(surface) && fresh(surface.layoutContext) && fresh(surface.renderContext)
    ensures surface.Valid()
    ensures surface.elements == Nodes && surface.children == Kids && surface.styles == Styled
    ensures surface.layoutContext.data == Blank && surface.rootIndex == Some(0)
    ensures surface.size == Size(1024, 768) && surface.renderContext.commands == []
  {
    surface := BuildNodes();
    surface.SetParent(2, 1);
    assert surface.children[1] == [2];
    assert surface.children == [[1], [2], [], [], [], []];
    surface.SetParent(3, 1);
    assert surface.children[1] == [2, 3];
    assert surface.children == [[1], [2, 3], [], [], [], []];
    surface.SetParent(4, 1);
    assert surface.children[1] == [2, 3, 4];
    assert surface.children == [[1], [2, 3, 4], [], [], [], []];
    surface.SetParent(5, 1);
    assert surface.children[1] == [2, 3, 4, 5];
  }

  /** The program's six inserts, the root and its style, and the
      container linked under the root, call for call; the children are
      linked by `Build`. */
  method BuildNodes() returns (surface: Surface)
    ensures fresh(surface) && fresh(surface.layoutContext) && fresh(surface.renderContext)
    ensures surface.Valid()
    ensures surface.elements == Nodes && surface.children == [[1], [], [], [], [], []] && surface.styles == Styled
    ensures surface.layoutContext.data == Blank && surface.rootIndex == Some(0)
    ensures surface.size == Size(1024, 768) && surface.renderContext.commands == []
  {
    surface := new Surface(Size(1024, 768));
    var root := surface.Insert(BoxElement);
    surface.SetRoot(root);
    surface.SetStyle(root, Filled(1.0, 1.0, 1.0));
    var flex := surface.Insert(NewFlex(Horizontal));
    surface.SetParent(flex, root);
    assert surface.children[0] == [1];
    assert surface.children == [[1], []];
    var red := Append(surface, FixedElement(200, 100), Filled(1.0, 0.0, 0.0));
    var green := Append(surface, FixedElement(200, 200), Filled(0.0, 1.0, 0.0));
    var blue := Append(surface, FixedElement(200, 300), Filled(0.0, 0.0, 1.0));
    var grey := Append(surface, FixedElement(200, 400), Filled(0.5, 0.5, 0.5));
  }

  /** One frame of the program: one layout pass and one paint pass of the
      surface it builds; the commands handed to the renderer are exactly
      `Frame`. */
  method DemoFrame() returns (commands: seq<Command>)
    ensures commands == Frame
  {
    var surface := Build();
    DemoLayout();
    surface.Layout(Rank);
    DemoPaintOrder();
    DemoDrawing();
    commands := surface.Paint(Rank);
  }
}
