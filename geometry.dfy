/** Pixel-space value types of the scene graph: sizes, rectangles and the
    min/max box a parent offers a child during layout. All quantities are
    unsigned machine integers in the source; they are `nat` here, and no
    operation of the core can overflow them (see README). */
module Geometry {

  datatype Size = Size(width: nat, height: nat)

  datatype Rect = Rect(x: nat, y: nat, width: nat, height: nat)

  /** Admissible size range offered to a child; min <= max is expected of
      callers but never checked. */
  datatype Constraint = Constraint(minWidth: nat, maxWidth: nat, minHeight: nat, maxHeight: nat)

  /** `Constraint::new`: the four bounds, in argument order. */
  function NewConstraint(minWidth: nat, maxWidth: nat, minHeight: nat, maxHeight: nat): (c: Constraint)
    ensures c.minWidth == minWidth && c.maxWidth == maxWidth
    ensures c.minHeight == minHeight && c.maxHeight == maxHeight
  {
    Constraint(minWidth, maxWidth, minHeight, maxHeight)
  }

  /** `Constraint::fixed`: both axes pinned to one exact size. */
  function Fixed(width: nat, height: nat): (c: Constraint)
    ensures IsFixed(c)
    ensures c.minWidth == width && c.minHeight == height
  {
    Constraint(width, width, height, height)
  }

  /** `Constraint::is_fixed`: both axes admit exactly one value. */
  predicate IsFixed(c: Constraint) {
    c.minWidth == c.maxWidth && c.minHeight == c.maxHeight
  }

  /** A constraint is fixed exactly when it is `Fixed` of its own minima. */
  lemma FixedCharacterisation(c: Constraint)
    ensures IsFixed(c) <==> c == Fixed(c.minWidth, c.minHeight)
  {
  }

  /** The only fixed constraint admitting a given size is `Fixed` of that size. */
  lemma FixedIsUnique(c: Constraint, s: Size)
    requires IsFixed(c) && Admits(c, s)
    ensures c == Fixed(s.width, s.height)
  {
  }

  /** A size lies within a constraint's bounds on both axes. */
  predicate Admits(c: Constraint, s: Size) {
    c.minWidth <= s.width <= c.maxWidth && c.minHeight <= s.height <= c.maxHeight
  }

  function SizeOf(r: Rect): (s: Size)
    ensures s.width == r.width && s.height == r.height
  {
    Size(r.width, r.height)
  }
}
