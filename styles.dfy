/** Per-node visual attributes and the one drawing command of the core.
    Colours are floating-point quadruples in the source; they are carried
    here as plain data and nothing is proved about their values. */
module Styles {
  import opened Geometry

  datatype Rgba = Rgba(r: real, g: real, b: real, a: real)

  datatype Border = NoBorder | BorderColor(color: Rgba)

  datatype Background = NoBackground | BackgroundColor(color: Rgba) | BackgroundImage(image: nat)

  /** Top, right, bottom, left. */
  datatype Trbl<T> = Trbl(top: T, right: T, bottom: T, left: T)

  datatype Style = Style(background: Background, border: Trbl<Border>)

  /** `Style::empty`: no fill and no border on any side. */
  function EmptyStyle(): (s: Style)
    ensures s.background == NoBackground
    ensures s.border.top == s.border.right == s.border.bottom == s.border.left == NoBorder
  {
    Style(NoBackground, Trbl(NoBorder, NoBorder, NoBorder, NoBorder))
  }

  /** What the external renderer is asked to draw. */
  datatype Command = DrawRect(rect: Rect, color: Rgba)
}
