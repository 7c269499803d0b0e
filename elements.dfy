/** The layout-element protocol (hydron-ui/src/layout.rs) and its three
    variants: the generic default (used by the box element), the fixed-size
    element (hydron-ui/src/elements/fixed_element.rs) and the flex container
    (hydron-ui/src/elements/flex_element.rs).

    Each variant is a constructor of `Element`, carrying the private state
    the source keeps in the element's struct. One call of `layout` is the
    pure function `ElementLayout`, returning the element's new state, the
    new rectangle table and the `LayoutResult`; the method `Layout` performs
    the same call in place on a `LayoutContext`. */
module Elements {
  import opened Options
  import opened Geometry
  import opened Styles
  import opened Contexts

  function Max(a: nat, b: nat): (m: nat)
    ensures m >= a && m >= b && (m == a || m == b)
  {
    if a >= b then a else b
  }

  function Min(a: nat, b: nat): (m: nat)
    ensures m <= a && m <= b && (m == a || m == b)
  {
    if a <= b then a else b
  }

  // ---------------------------------------------------------------------
  // Axis helpers of the flex container

  datatype Axis = Horizontal | Vertical

  /** The extent of a (width, height) pair along the axis. */
  function Major(axis: Axis, width: nat, height: nat): nat {
    match axis
    case Horizontal => width
    case Vertical => height
  }

  /** The extent of a (width, height) pair across the axis. */
  function Minor(axis: Axis, width: nat, height: nat): nat {
    match axis
    case Horizontal => height
    case Vertical => width
  }

  /** Builds a (width, height) pair from its major and minor extents; it is
      the inverse of `Major` and `Minor` taken together. */
  function Pack(axis: Axis, major: nat, minor: nat): (p: (nat, nat))
    ensures Major(axis, p.0, p.1) == major && Minor(axis, p.0, p.1) == minor
  {
    match axis
    case Horizontal => (major, minor)
    case Vertical => (minor, major)
  }

  /** Any pair is the packing of its own major and minor extents. */
  lemma PackOfExtents(axis: Axis, width: nat, height: nat)
    ensures Pack(axis, Major(axis, width, height), Minor(axis, width, height)) == (width, height)
  {
  }

  // ---------------------------------------------------------------------
  // Elements and results

  datatype Element =
    | BoxElement
    | FixedElement(width: nat, height: nat)
    | FlexElement(direction: Axis, ix: nat, majorPerFlex: nat, minor: nat)

  /** `FlexElement::new`: the re-entry state starts at zero. */
  function NewFlex(direction: Axis): (e: Element)
    ensures e.FlexElement? && e.direction == direction
    ensures e.ix == 0 && e.majorPerFlex == 0 && e.minor == 0
  {
    FlexElement(direction, 0, 0, 0)
  }

  datatype LayoutResult = Done(size: Size) | LayoutChild(child: nat, constraint: Constraint)

  /** Outcome of one `layout` call: the element's state after the call, the
      rectangle table after its `position_child` writes, and the result. */
  datatype Step = Step(element: Element, rects: seq<Rect>, result: LayoutResult)

  /** Same variant and same construction parameters; only re-entry state
      may differ. Layout never changes what kind of element a node is. */
  predicate SameKind(a: Element, b: Element) {
    match a
    case BoxElement => b.BoxElement?
    case FixedElement(w, h) => b == FixedElement(w, h)
    case FlexElement(d, _, _, _) => b.FlexElement? && b.direction == d
  }

  /** The default and fixed variants panic (`unimplemented!`) beyond one child. */
  predicate SupportsChildren(e: Element, n: nat) {
    e.FlexElement? || n <= 1
  }

  /** Re-entry state that lets a resumed call index its children: a flex
      container must still be waiting on one of them. */
  predicate Resumable(e: Element, n: nat) {
    e.FlexElement? ==> e.ix < n
  }

  predicate ChildrenIn(kids: seq<nat>, bound: nat) {
    forall k :: 0 <= k < |kids| ==> kids[k] < bound
  }

  /** Everything a `layout` call indexes exists. */
  predicate CanLayout(e: Element, rects: seq<Rect>, kids: seq<nat>, requested: Option<Size>) {
    && SupportsChildren(e, |kids|)
    && (requested.Some? ==> Resumable(e, |kids|))
    && match e
       case FlexElement(_, ix, _, _) =>
         requested.Some? && ix + 1 == |kids| ==> ChildrenIn(kids, |rects|)
       case _ =>
         requested.Some? && |kids| == 1 ==> kids[0] < |rects|
  }

  /** Calls still to come in this pass, counting the next one: the measure
      by which every pass ends. */
  function Pending(e: Element, n: nat, resumed: bool): nat {
    match e
    case FlexElement(_, ix, _, _) =>
      if resumed then (if ix < n then n - ix else 0) else n + 1
    case _ => if resumed then 1 else 2
  }

  // ---------------------------------------------------------------------
  // The three variants, one call each

  /** Default `layout` of layout.rs: with no child, the constraint's minimum;
      with one, ask for it under the parent's maxima, then place it at the
      origin and report the child's own size. */
  function DefaultLayout(c: Constraint, rects: seq<Rect>, kids: seq<nat>, requested: Option<Size>): (s: (seq<Rect>, LayoutResult))
    requires |kids| <= 1
    requires |kids| == 1 && requested.Some? ==> kids[0] < |rects|
    ensures s.1.Done? <==> |kids| == 0 || requested.Some?
    ensures s.1.LayoutChild? ==> s.1.child == kids[0] && s.0 == rects
    ensures |kids| == 0 ==> s.0 == rects && s.1.size.width == c.minWidth && s.1.size.height == c.minHeight
    ensures |kids| == 1 && requested.Some? ==> s.1.size == requested.value
  {
    if |kids| == 0 then
      (rects, Done(Size(c.minWidth, c.minHeight)))
    else if requested.Some? then
      (WithPosition(rects, kids[0], 0, 0), Done(requested.value))
    else
      (rects, LayoutChild(kids[0], NewConstraint(0, c.maxWidth, 0, c.maxHeight)))
  }

  /** The fixed element's intrinsic size clamped to the constraint's maxima
      (never raised to the minima). */
  function Clamped(width: nat, height: nat, c: Constraint): (s: Size)
    ensures s.width <= c.maxWidth && s.height <= c.maxHeight
    ensures s.width <= width && s.height <= height
    ensures s.width == width || s.width == c.maxWidth
    ensures s.height == height || s.height == c.maxHeight
  {
    Size(Min(width, c.maxWidth), Min(height, c.maxHeight))
  }

  /** `layout` of fixed_element.rs: its clamped size whether or not it has
      a child; a child is asked for under that size with no minimum, then
      placed at the origin. */
  function FixedLayout(width: nat, height: nat, c: Constraint, rects: seq<Rect>, kids: seq<nat>, requested: Option<Size>): (s: (seq<Rect>, LayoutResult))
    requires |kids| <= 1
    requires |kids| == 1 && requested.Some? ==> kids[0] < |rects|
    ensures s.1.Done? <==> |kids| == 0 || requested.Some?
    ensures s.1.LayoutChild? ==> s.1.child == kids[0] && s.0 == rects
    ensures |kids| == 0 ==> s.0 == rects
    ensures s.1.Done? ==> s.1.size.width == Min(width, c.maxWidth) && s.1.size.height == Min(height, c.maxHeight)
  {
    var size := Clamped(width, height, c);
    if |kids| == 0 then
      (rects, Done(size))
    else if requested.Some? then
      (WithPosition(rects, kids[0], 0, 0), Done(size))
    else
      (rects, LayoutChild(kids[0], NewConstraint(0, size.width, 0, size.height)))
  }

  /** The default element's two calls with one child: the child is asked
      for under the parent's maxima with no minimum, then placed at the
      parent's origin, and the parent takes the size the child reported;
      so a child that keeps to what it was offered keeps the parent within
      the parent's own maxima. */
  lemma DefaultReportsChild(c: Constraint, rects: seq<Rect>, child: nat, size: Size)
    requires child < |rects|
    ensures var ask := DefaultLayout(c, rects, [child], None);
      && ask.0 == rects && ask.1.LayoutChild? && ask.1.child == child
      && ask.1.constraint.minWidth == 0 && ask.1.constraint.minHeight == 0
      && ask.1.constraint.maxWidth == c.maxWidth && ask.1.constraint.maxHeight == c.maxHeight
    ensures var done := DefaultLayout(c, rects, [child], Some(size));
      && done.1 == Done(size)
      && done.0[child].x == 0 && done.0[child].y == 0 && SizeOf(done.0[child]) == SizeOf(rects[child])
      && (Admits(DefaultLayout(c, rects, [child], None).1.constraint, size) ==>
            done.1.size.width <= c.maxWidth && done.1.size.height <= c.maxHeight)
  {
  }

  /** The fixed element's two calls with one child: the child may grow up
      to the element's clamped size and no further, and the element then
      reports that clamped size, whatever the child reported. */
  lemma FixedBoundsChild(width: nat, height: nat, c: Constraint, rects: seq<Rect>, child: nat, size: Size)
    requires child < |rects|
    ensures var ask := FixedLayout(width, height, c, rects, [child], None);
            var done := FixedLayout(width, height, c, rects, [child], Some(size));
      && ask.1.LayoutChild? && ask.1.child == child && done.1.Done?
      && ask.1.constraint.minWidth == 0 && ask.1.constraint.minHeight == 0
      && ask.1.constraint.maxWidth == done.1.size.width && ask.1.constraint.maxHeight == done.1.size.height
      && done.1.size == FixedLayout(width, height, c, rects, [], None).1.size
      && done.1.size.width <= c.maxWidth && done.1.size.height <= c.maxHeight
      && done.0[child].x == 0 && done.0[child].y == 0
  {
  }

  /** The fixed element is clamped to the maxima only, so a constraint
      with larger minima gets a size it does not admit. */
  lemma FixedIgnoresMinima()
    ensures var c := NewConstraint(50, 100, 50, 100);
      && FixedLayout(10, 10, c, [], [], None).1 == Done(Size(10, 10))
      && !Admits(c, Size(10, 10))
  {
    assert Clamped(10, 10, NewConstraint(50, 100, 50, 100)) == Size(10, 10);
  }

  /** The slot constraint a flex container gives each child: exactly
      `majorPerFlex` along the axis, the container's own range across it. */
  function SlotConstraint(direction: Axis, majorPerFlex: nat, c: Constraint): (r: Constraint)
    ensures Major(direction, r.minWidth, r.minHeight) == majorPerFlex
    ensures Major(direction, r.maxWidth, r.maxHeight) == majorPerFlex
    ensures Minor(direction, r.minWidth, r.minHeight) == Minor(direction, c.minWidth, c.minHeight)
    ensures Minor(direction, r.maxWidth, r.maxHeight) == Minor(direction, c.maxWidth, c.maxHeight)
  {
    match direction
    case Horizontal => NewConstraint(majorPerFlex, majorPerFlex, c.minHeight, c.maxHeight)
    case Vertical => NewConstraint(c.minWidth, c.maxWidth, majorPerFlex, majorPerFlex)
  }

  /** Centring offset of a child inside its slot; nothing when it does not fit. */
  function Padding(slot: nat, childMajor: nat): (p: nat)
    ensures slot > childMajor ==> childMajor + 2 * p <= slot <= childMajor + 2 * p + 1
    ensures slot <= childMajor ==> p == 0
  {
    if slot > childMajor then (slot - childMajor) / 2 else 0
  }

  /** Where the flex container puts its `k`-th child, of rectangle `r`. */
  function SlotOrigin(direction: Axis, majorPerFlex: nat, k: nat, r: Rect): (nat, nat) {
    Pack(direction, k * majorPerFlex + Padding(majorPerFlex, Major(direction, r.width, r.height)), 0)
  }

  /** Child `j` is the last occurrence of its node in `kids`. */
  predicate LastOccurrence(kids: seq<nat>, j: nat)
    requires j < |kids|
  {
    forall m :: j < m < |kids| ==> kids[m] != kids[j]
  }

  /** Node `i` is not listed in `kids` from position `k` on. */
  predicate UnlistedFrom(kids: seq<nat>, k: nat, i: nat) {
    forall m :: k <= m < |kids| ==> kids[m] != i
  }

  /** The flex container's closing loop from child `k` on: each child is
      placed at its slot origin, sizes untouched (see `PlaceFromPlaces`). */
  function PlaceFrom(direction: Axis, majorPerFlex: nat, kids: seq<nat>, rects: seq<Rect>, k: nat): (r: seq<Rect>)
    requires k <= |kids| && ChildrenIn(kids, |rects|)
    ensures |r| == |rects|
    decreases |kids| - k
  {
    if k == |kids| then rects
    else
      var origin := SlotOrigin(direction, majorPerFlex, k, rects[kids[k]]);
      PlaceFrom(direction, majorPerFlex, kids, WithPosition(rects, kids[k], origin.0, origin.1), k + 1)
  }

  /** The closing loop writes offsets only. */
  lemma {:induction false} PlaceFromKeepsSizes(direction: Axis, majorPerFlex: nat, kids: seq<nat>, rects: seq<Rect>, k: nat, i: nat)
    requires k <= |kids| && ChildrenIn(kids, |rects|) && i < |rects|
    ensures SizeOf(PlaceFrom(direction, majorPerFlex, kids, rects, k)[i]) == SizeOf(rects[i])
    decreases |kids| - k
  {
    if k < |kids| {
      var origin := SlotOrigin(direction, majorPerFlex, k, rects[kids[k]]);
      PlaceFromKeepsSizes(direction, majorPerFlex, kids, WithPosition(rects, kids[k], origin.0, origin.1), k + 1, i);
    }
  }

  /** The closing loop leaves a node it does not list untouched. */
  lemma {:induction false} PlaceFromUnlisted(direction: Axis, majorPerFlex: nat, kids: seq<nat>, rects: seq<Rect>, k: nat, i: nat)
    requires k <= |kids| && ChildrenIn(kids, |rects|) && i < |rects| && UnlistedFrom(kids, k, i)
    ensures PlaceFrom(direction, majorPerFlex, kids, rects, k)[i] == rects[i]
    decreases |kids| - k
  {
    if k < |kids| {
      var origin := SlotOrigin(direction, majorPerFlex, k, rects[kids[k]]);
      PlaceFromUnlisted(direction, majorPerFlex, kids, WithPosition(rects, kids[k], origin.0, origin.1), k + 1, i);
    }
  }

  /** The closing loop from the first child, as a frame condition. */
  lemma PlaceFromFrame(direction: Axis, majorPerFlex: nat, kids: seq<nat>, rects: seq<Rect>)
    requires ChildrenIn(kids, |rects|)
    ensures var r := PlaceFrom(direction, majorPerFlex, kids, rects, 0);
      && (forall i :: 0 <= i < |rects| ==> SizeOf(r[i]) == SizeOf(rects[i]))
      && (forall i :: 0 <= i < |rects| && i !in kids ==> r[i] == rects[i])
  {
    forall i | 0 <= i < |rects|
      ensures SizeOf(PlaceFrom(direction, majorPerFlex, kids, rects, 0)[i]) == SizeOf(rects[i])
    {
      PlaceFromKeepsSizes(direction, majorPerFlex, kids, rects, 0, i);
    }
    forall i | 0 <= i < |rects| && i !in kids
      ensures PlaceFrom(direction, majorPerFlex, kids, rects, 0)[i] == rects[i]
    {
      PlaceFromUnlisted(direction, majorPerFlex, kids, rects, 0, i);
    }
  }

  /** The closing loop puts child `j` at its slot origin; a child listed
      twice keeps the position of its last occurrence. */
  lemma {:induction false} PlaceFromPlaces(direction: Axis, majorPerFlex: nat, kids: seq<nat>, rects: seq<Rect>, k: nat, j: nat)
    requires k <= j < |kids| && ChildrenIn(kids, |rects|) && LastOccurrence(kids, j)
    ensures var r := PlaceFrom(direction, majorPerFlex, kids, rects, k);
      (r[kids[j]].x, r[kids[j]].y) == SlotOrigin(direction, majorPerFlex, j, rects[kids[j]])
    decreases |kids| - k
  {
    var origin := SlotOrigin(direction, majorPerFlex, k, rects[kids[k]]);
    var next := WithPosition(rects, kids[k], origin.0, origin.1);
    if j == k {
      assert UnlistedFrom(kids, k + 1, kids[k]);
      PlaceFromUnlisted(direction, majorPerFlex, kids, next, k + 1, kids[k]);
    } else {
      PlaceFromPlaces(direction, majorPerFlex, kids, next, k + 1, j);
      assert SizeOf(next[kids[j]]) == SizeOf(rects[kids[j]]);
    }
  }

  /** `FlexElement::layout`. */
  function FlexLayout(direction: Axis, ix: nat, majorPerFlex: nat, minor: nat, c: Constraint,
                      rects: seq<Rect>, kids: seq<nat>, requested: Option<Size>): (s: Step)
    requires requested.Some? ==> ix < |kids|
    requires requested.Some? && ix + 1 == |kids| ==> ChildrenIn(kids, |rects|)
    ensures |s.rects| == |rects|
    ensures forall i :: 0 <= i < |rects| ==> SizeOf(s.rects[i]) == SizeOf(rects[i])
    ensures forall i :: 0 <= i < |rects| && i !in kids ==> s.rects[i] == rects[i]
  {
    if requested.Some? then
      var minor' := Max(minor, Minor(direction, requested.value.width, requested.value.height));
      var ix' := ix + 1;
      if ix' == |kids| then
        PlaceFromFrame(direction, majorPerFlex, kids, rects);
        var placed := PlaceFrom(direction, majorPerFlex, kids, rects, 0);
        var wh := Pack(direction, Major(direction, c.maxWidth, c.maxHeight), minor');
        Step(FlexElement(direction, ix', majorPerFlex, minor'), placed, Done(Size(wh.0, wh.1)))
      else
        Step(FlexElement(direction, ix', majorPerFlex, minor'), rects,
             LayoutChild(kids[ix'], SlotConstraint(direction, majorPerFlex, c)))
    else if |kids| == 0 then
      Step(FlexElement(direction, ix, majorPerFlex, minor), rects, Done(Size(c.minWidth, c.minHeight)))
    else
      var minor' := Minor(direction, c.minWidth, c.minHeight);
      var majorPerFlex' := Major(direction, c.maxWidth, c.maxHeight) / |kids|;
      Step(FlexElement(direction, 0, majorPerFlex', minor'), rects,
           LayoutChild(kids[0], SlotConstraint(direction, majorPerFlex', c)))
  }

  /** The flex container's first call on `n > 0` children: it splits its
      maximum along the axis into `n` equal slots, which together never
      exceed that maximum and leave less than one more slot unused, and asks
      for its first child under the first slot. */
  lemma FlexSlotsFit(direction: Axis, ix: nat, majorPerFlex: nat, minor: nat, c: Constraint, rects: seq<Rect>, kids: seq<nat>)
    requires |kids| > 0
    ensures var s := FlexLayout(direction, ix, majorPerFlex, minor, c, rects, kids, None);
      && s.element.FlexElement? && s.element.ix == 0
      && |kids| * s.element.majorPerFlex <= Major(direction, c.maxWidth, c.maxHeight)
      && Major(direction, c.maxWidth, c.maxHeight) < |kids| * (s.element.majorPerFlex + 1)
      && s.result == LayoutChild(kids[0], SlotConstraint(direction, s.element.majorPerFlex, c))
  {
  }

  /** The largest minor extent among `base` and the sizes reported so far:
      what the flex container keeps in `minor` during a pass. */
  function MaxMinor(direction: Axis, base: nat, sizes: seq<Size>): (m: nat)
    ensures m >= base
    ensures forall k :: 0 <= k < |sizes| ==> m >= Minor(direction, sizes[k].width, sizes[k].height)
    ensures m == base || exists k :: 0 <= k < |sizes| && m == Minor(direction, sizes[k].width, sizes[k].height)
    decreases |sizes|
  {
    if |sizes| == 0 then base
    else
      var n := |sizes| - 1;
      var m := MaxMinor(direction, base, sizes[..n]);
      assert forall k :: 0 <= k < n ==> sizes[..n][k] == sizes[k];
      Max(m, Minor(direction, sizes[n].width, sizes[n].height))
  }

  /** A resumed call of the flex container: it counts the child that
      reported and keeps the largest minor extent; then it either asks
      for the next child under the same slot, leaving the table alone, or,
      after the last child, places every child at its slot and reports the
      whole maximum along the axis by the largest minor extent. */
  lemma FlexResumes(direction: Axis, ix: nat, majorPerFlex: nat, minor: nat, c: Constraint,
                    rects: seq<Rect>, kids: seq<nat>, size: Size)
    requires ix < |kids| && ChildrenIn(kids, |rects|)
    ensures var s := FlexLayout(direction, ix, majorPerFlex, minor, c, rects, kids, Some(size));
      var minor' := Max(minor, Minor(direction, size.width, size.height));
      && s.element == FlexElement(direction, ix + 1, majorPerFlex, minor')
      && (ix + 1 < |kids| ==>
            s.rects == rects && s.result == LayoutChild(kids[ix + 1], SlotConstraint(direction, majorPerFlex, c)))
      && (ix + 1 == |kids| ==>
            && s.rects == PlaceFrom(direction, majorPerFlex, kids, rects, 0)
            && s.result.Done?
            && Major(direction, s.result.size.width, s.result.size.height) == Major(direction, c.maxWidth, c.maxHeight)
            && Minor(direction, s.result.size.width, s.result.size.height) == minor')
  {
  }

  /** A flex container driven through a pass over `n > 0` children: its
      first call, then `k` resumed calls answered with `sizes[0]`, ...,
      `sizes[k - 1]`. */
  function FlexRounds(direction: Axis, c: Constraint, rects: seq<Rect>, kids: seq<nat>, sizes: seq<Size>, k: nat): (s: Step)
    requires 0 < |kids| && ChildrenIn(kids, |rects|) && k <= |sizes| && k <= |kids|
    ensures s.element.FlexElement? && s.element.ix == k && |s.rects| == |rects|
    decreases k
  {
    if k == 0 then
      FlexLayout(direction, 0, 0, 0, c, rects, kids, None)
    else
      var prev := FlexRounds(direction, c, rects, kids, sizes, k - 1);
      var e := prev.element;
      FlexLayout(direction, e.ix, e.majorPerFlex, e.minor, c, prev.rects, kids, Some(sizes[k - 1]))
  }

  /** Until all `n` children have reported, the flex container asks for
      the next one in list order, under the same slot, with the table
      untouched, and keeps the largest minor extent reported so far (never
      below the constraint's minimum across the axis). */
  lemma {:induction false} FlexAsksInOrder(direction: Axis, c: Constraint, rects: seq<Rect>, kids: seq<nat>, sizes: seq<Size>, k: nat)
    requires 0 < |kids| && ChildrenIn(kids, |rects|) && k <= |sizes| && k < |kids|
    ensures var s := FlexRounds(direction, c, rects, kids, sizes, k);
      var mpf := Major(direction, c.maxWidth, c.maxHeight) / |kids|;
      && s.element == FlexElement(direction, k, mpf, MaxMinor(direction, Minor(direction, c.minWidth, c.minHeight), sizes[..k]))
      && s.rects == rects
      && s.result == LayoutChild(kids[k], SlotConstraint(direction, mpf, c))
    decreases k
  {
    if k == 0 {
      FlexSlotsFit(direction, 0, 0, 0, c, rects, kids);
      assert sizes[..0] == [];
    } else {
      FlexAsksInOrder(direction, c, rects, kids, sizes, k - 1);
      var prev := FlexRounds(direction, c, rects, kids, sizes, k - 1);
      var e := prev.element;
      assert sizes[..k][..k - 1] == sizes[..k - 1] && sizes[..k][k - 1] == sizes[k - 1];
      FlexResumes(direction, e.ix, e.majorPerFlex, e.minor, c, prev.rects, kids, sizes[k - 1]);
    }
  }

  /** The `n`-th answer ends the pass: every child placed at its slot, and
      the container reports the whole maximum along its axis by the
      largest minor extent seen. */
  lemma FlexPassEnds(direction: Axis, c: Constraint, rects: seq<Rect>, kids: seq<nat>, sizes: seq<Size>, k: nat)
    requires 0 < k == |kids| <= |sizes| && ChildrenIn(kids, |rects|)
    ensures var s := FlexRounds(direction, c, rects, kids, sizes, k);
      var mpf := Major(direction, c.maxWidth, c.maxHeight) / |kids|;
      var minor := MaxMinor(direction, Minor(direction, c.minWidth, c.minHeight), sizes[..k]);
      && s.element == FlexElement(direction, k, mpf, minor)
      && s.rects == PlaceFrom(direction, mpf, kids, rects, 0)
      && s.result.Done?
      && Major(direction, s.result.size.width, s.result.size.height) == Major(direction, c.maxWidth, c.maxHeight)
      && Minor(direction, s.result.size.width, s.result.size.height) == minor
  {
    var mpf := Major(direction, c.maxWidth, c.maxHeight) / |kids|;
    var minor := MaxMinor(direction, Minor(direction, c.minWidth, c.minHeight), sizes[..k - 1]);
    FlexAsksInOrder(direction, c, rects, kids, sizes, k - 1);
    FlexRoundsUnfold(direction, c, rects, kids, sizes, k, mpf, minor);
    assert sizes[..k][..k - 1] == sizes[..k - 1] && sizes[..k][k - 1] == sizes[k - 1];
    FlexResumes(direction, k - 1, mpf, minor, c, rects, kids, sizes[k - 1]);
  }

  /** One resumed call past a state that asks for more. */
  lemma FlexRoundsUnfold(direction: Axis, c: Constraint, rects: seq<Rect>, kids: seq<nat>, sizes: seq<Size>, k: nat,
                         mpf: nat, minor: nat)
    requires 0 < k <= |kids| && k <= |sizes| && ChildrenIn(kids, |rects|)
    requires FlexRounds(direction, c, rects, kids, sizes, k - 1).element == FlexElement(direction, k - 1, mpf, minor)
    requires FlexRounds(direction, c, rects, kids, sizes, k - 1).rects == rects
    ensures FlexRounds(direction, c, rects, kids, sizes, k)
         == FlexLayout(direction, k - 1, mpf, minor, c, rects, kids, Some(sizes[k - 1]))
  {
  }

  /** The flex container's slots stay within its maximum along the axis:
      child `k` of `n` starts at most at the end of its slot, which is at
      most the maximum, and the part of the child that fits the slot ends
      there too. */
  lemma FlexOffsetsFit(maxMajor: nat, n: nat, k: nat, childMajor: nat)
    requires k < n
    ensures var mpf := maxMajor / n;
      k * mpf + Padding(mpf, childMajor) + Min(childMajor, mpf) <= (k + 1) * mpf <= maxMajor
  {
    var mpf := maxMajor / n;
    assert n * mpf <= maxMajor;
    assert n * mpf == (k + 1) * mpf + (n - k - 1) * mpf;
    assert (k + 1) * mpf == k * mpf + mpf;
  }

  /** One `layout` call of any element, dispatched on its variant. Whatever
      the variant, only child offsets are written, a requested child is one
      of the node's own children, and each request brings the pass closer
      to its end. */
  function ElementLayout(e: Element, c: Constraint, rects: seq<Rect>, kids: seq<nat>, requested: Option<Size>): (s: Step)
    requires CanLayout(e, rects, kids, requested)
    ensures SameKind(e, s.element)
    ensures |s.rects| == |rects|
    ensures forall i :: 0 <= i < |rects| ==> SizeOf(s.rects[i]) == SizeOf(rects[i])
    ensures forall i :: 0 <= i < |rects| && i !in kids ==> s.rects[i] == rects[i]
    ensures s.result.LayoutChild? ==>
      && s.result.child in kids
      && Resumable(s.element, |kids|)
      && Pending(s.element, |kids|, true) < Pending(e, |kids|, requested.Some?)
  {
    match e
    case BoxElement =>
      var (r, res) := DefaultLayout(c, rects, kids, requested);
      Step(e, r, res)
    case FixedElement(w, h) =>
      var (r, res) := FixedLayout(w, h, c, rects, kids, requested);
      Step(e, r, res)
    case FlexElement(d, ix, mpf, minor) =>
      FlexLayout(d, ix, mpf, minor, c, rects, kids, requested)
  }

  // ---------------------------------------------------------------------
  // The same call, in place

  /** The flex container's closing `for` loop, writing offsets into the
      shared context as it goes. */
  method PositionChildren(direction: Axis, majorPerFlex: nat, context: LayoutContext, kids: seq<nat>)
    requires ChildrenIn(kids, |context.data|)
    modifies context
    ensures context.data == PlaceFrom(direction, majorPerFlex, kids, old(context.data), 0)
  {
    var major := 0;
    var k := 0;
    while k < |kids|
      invariant 0 <= k <= |kids|
      invariant major == k * majorPerFlex
      invariant |context.data| == |old(context.data)|
      invariant PlaceFrom(direction, majorPerFlex, kids, context.data, k)
             == PlaceFrom(direction, majorPerFlex, kids, old(context.data), 0)
    {
      var child := kids[k];
      var childSize := context.GetChildSize(child);
      var childMajor := Major(direction, childSize.width, childSize.height);
      var padding := if majorPerFlex > childMajor then (majorPerFlex - childMajor) / 2 else 0;
      var xy := Pack(direction, major + padding, 0);
      assert xy == SlotOrigin(direction, majorPerFlex, k, context.data[child]);
      context.PositionChild(child, xy.0, xy.1);
      major := major + majorPerFlex;
      assert major == (k + 1) * majorPerFlex;
      k := k + 1;
    }
  }

  /** `layout` on a node's element: returns the element's new state and
      the result, and performs the element's `position_child` writes. */
  method Layout(e: Element, c: Constraint, context: LayoutContext, kids: seq<nat>, requested: Option<Size>)
      returns (e': Element, result: LayoutResult)
    requires CanLayout(e, context.data, kids, requested)
    modifies context
    ensures e' == ElementLayout(e, c, old(context.data), kids, requested).element
    ensures result == ElementLayout(e, c, old(context.data), kids, requested).result
    ensures context.data == ElementLayout(e, c, old(context.data), kids, requested).rects
  {
    e' := e;
    match e {
      case BoxElement =>
        if |kids| == 0 {
          result := Done(Size(c.minWidth, c.minHeight));
        } else if requested.Some? {
          context.PositionChild(kids[0], 0, 0);
          result := Done(requested.value);
        } else {
          result := LayoutChild(kids[0], NewConstraint(0, c.maxWidth, 0, c.maxHeight));
        }
      case FixedElement(width, height) =>
        var constrainedWidth := Min(width, c.maxWidth);
        var constrainedHeight := Min(height, c.maxHeight);
        if |kids| == 0 {
          result := Done(Size(constrainedWidth, constrainedHeight));
        } else if requested.Some? {
          context.PositionChild(kids[0], 0, 0);
          result := Done(Size(constrainedWidth, constrainedHeight));
        } else {
          result := LayoutChild(kids[0], NewConstraint(0, constrainedWidth, 0, constrainedHeight));
        }
      case FlexElement(direction, ix, majorPerFlex, minor) =>
        var ix', majorPerFlex', minor' := ix, majorPerFlex, minor;
        if requested.Some? {
          minor' := Max(minor', Minor(direction, requested.value.width, requested.value.height));
          ix' := ix' + 1;
          if ix' == |kids| {
            PositionChildren(direction, majorPerFlex', context, kids);
            var maxMajor := Major(direction, c.maxWidth, c.maxHeight);
            var wh := Pack(direction, maxMajor, minor');
            e' := FlexElement(direction, ix', majorPerFlex', minor');
            result := Done(Size(wh.0, wh.1));
            return;
          }
        } else {
          if |kids| == 0 {
            result := Done(Size(c.minWidth, c.minHeight));
            return;
          }
          ix' := 0;
          minor' := Minor(direction, c.minWidth, c.minHeight);
          var maxMajor := Major(direction, c.maxWidth, c.maxHeight);
          majorPerFlex' := maxMajor / |kids|;
        }
        var childConstraint := match direction
          case Horizontal => NewConstraint(majorPerFlex', majorPerFlex', c.minHeight, c.maxHeight)
          case Vertical => NewConstraint(c.minWidth, c.maxWidth, majorPerFlex', majorPerFlex');
        e' := FlexElement(direction, ix', majorPerFlex', minor');
        result := LayoutChild(kids[ix'], childConstraint);
    }
  }

  // ---------------------------------------------------------------------
  // Default paint

  /** Default `paint` of layout.rs: one filled rectangle for a solid
      background, nothing for no background or an image. */
  function PaintCommands(rect: Rect, style: Style): (cs: seq<Command>)
    ensures |cs| <= 1
    ensures |cs| == 1 <==> style.background.BackgroundColor?
    ensures forall k :: 0 <= k < |cs| ==> cs[k] == DrawRect(rect, style.background.color)
  {
    match style.background
    case BackgroundColor(color) => [DrawRect(rect, color)]
    case _ => []
  }

  method Paint(e: Element, rect: Rect, context: RenderContext, style: Style)
    modifies context
    ensures context.commands == old(context.commands) + PaintCommands(rect, style)
  {
    match style.background {
      case BackgroundColor(color) => context.AddCommand(DrawRect(rect, color));
      case _ =>
    }
  }
}
