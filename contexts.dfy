/** The two side tables of the surface (hydron-ui/src/surface.rs):
    resolved rectangles addressed by node index, and the command buffer
    that a paint pass fills and drains. */
module Contexts {
  import opened Geometry
  import opened Styles

  /** The rectangle table after `set_size(i, w, h)`: only the width and
      height of entry `i` change. */
  function WithSize(rects: seq<Rect>, i: nat, w: nat, h: nat): (r: seq<Rect>)
    requires i < |rects|
    ensures |r| == |rects|
    ensures r[i].x == rects[i].x && r[i].y == rects[i].y
    ensures r[i].width == w && r[i].height == h
    ensures forall j :: 0 <= j < |rects| && j != i ==> r[j] == rects[j]
  {
    rects[i := rects[i].(width := w, height := h)]
  }

  /** The rectangle table after `position_child(i, x, y)`: only the offset
      of entry `i` changes. */
  function WithPosition(rects: seq<Rect>, i: nat, x: nat, y: nat): (r: seq<Rect>)
    requires i < |rects|
    ensures |r| == |rects|
    ensures r[i].x == x && r[i].y == y
    ensures r[i].width == rects[i].width && r[i].height == rects[i].height
    ensures forall j :: 0 <= j < |rects| && j != i ==> r[j] == rects[j]
  {
    rects[i := rects[i].(x := x, y := y)]
  }

  /** Sizing and positioning touch disjoint fields, so their order does not
      matter, and a size reads back as written whatever was positioned after. */
  lemma SizeAndPositionCommute(rects: seq<Rect>, i: nat, j: nat, w: nat, h: nat, x: nat, y: nat)
    requires i < |rects| && j < |rects|
    ensures WithPosition(WithSize(rects, i, w, h), j, x, y) == WithSize(WithPosition(rects, j, x, y), i, w, h)
    ensures SizeOf(WithPosition(WithSize(rects, i, w, h), j, x, y)[i]) == Size(w, h)
  {
  }

  class LayoutContext {
    var data: seq<Rect>

    constructor ()
      ensures data == []
    {
      data := [];
    }

    method Insert(rect: Rect)
      modifies this
      ensures data == old(data) + [rect]
    {
      data := data + [rect];
    }

    method GetRect(index: nat) returns (r: Rect)
      requires index < |data|
      ensures r == data[index]
    {
      r := data[index];
    }

    method SetSize(index: nat, width: nat, height: nat)
      requires index < |data|
      modifies this
      ensures data == WithSize(old(data), index, width, height)
    {
      data := data[index := data[index].(width := width, height := height)];
    }

    method GetChildSize(index: nat) returns (s: Size)
      requires index < |data|
      ensures s == Size(data[index].width, data[index].height)
    {
      var rect := data[index];
      s := Size(rect.width, rect.height);
    }

    method PositionChild(index: nat, x: nat, y: nat)
      requires index < |data|
      modifies this
      ensures data == WithPosition(old(data), index, x, y)
    {
      data := data[index := data[index].(x := x, y := y)];
    }
  }

  class RenderContext {
    var commands: seq<Command>

    constructor ()
      ensures commands == []
    {
      commands := [];
    }

    method AddCommand(command: Command)
      modifies this
      ensures commands == old(commands) + [command]
    {
      commands := commands + [command];
    }

    /** Hands over every queued command, oldest first, and leaves the
        buffer empty. */
    method GetCommands() returns (swapped: seq<Command>)
      modifies this
      ensures swapped == old(commands)
      ensures commands == []
    {
      swapped := commands;
      commands := [];
    }
  }
}
