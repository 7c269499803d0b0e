# hydron core, modelled in Dafny

hydron is a retained-mode UI toolkit in Rust. This project models two of
its parts and proves properties about them.

**The scene graph of `hydron-ui`.** A `Surface` stores nodes in parallel
tables indexed by node number: elements, child lists, parent links and
styles. It also keeps a free list of recycled indices, a root index and two
side tables. The first side table is a `LayoutContext`, the rectangle of
every node. The second is a `RenderContext`, a queue of drawing commands.
- `layout` drives the elements through a re-entrant protocol. It uses three
  explicit stacks: pending nodes, their constraints, and one waiting result.
  An element either reports its size (`Done`) or asks for one of its
  children to be laid out first (`LayoutChild`). It is then called again
  with that child's size.
- `paint` walks the graph from the root with a stack and queues one filled
  rectangle per node with a solid background.
- `remove` frees a node and everything below it.

The three element variants are the default box (`layout.rs`), the
fixed-size element and the flex container.

**The template front end of `hydron-template`.**
- A nom-style parser reads a slice of token trees into a `Tag` tree:
  properties `name = { value }`, and content made of brace groups and
  child tags.
- The AST visitor supplies default traversals.
- The code printer turns a tree into Rust source text. A tag whose name
  starts with a lower-case letter becomes a boxed virtual element.

Files and modules:
- `geometry.dfy` (`Geometry`): sizes, rectangles, constraints.
- `styles.dfy` (`Styles`): colours, styles, drawing commands, as data only.
- `contexts.dfy` (`Contexts`): the two side tables, as classes.
- `elements.dfy` (`Elements`): the element protocol and its three variants.
  Each call is a pure function, `ElementLayout`, with the in-place method
  `Layout` proved against it.
- `layout_spec.dfy` (`LayoutSpec`): the layout pass by plain recursion
  (`LayNode`, `Drive`, `LayoutPass`). It also defines what the stack machine
  still has to do from any configuration (`Finish`).
- `traversal.dfy` (`Traversal`): the paint order and the commands it
  queues.
- `removal.dfy` (`Removal`): the removal walk, described as values.
- `surface.dfy` (`Surfaces`): the `Surface` class. Its loops are proved
  against the modules above.
- `demo.dfy` (`Demo`): the window the program's `main` builds, one layout
  pass and one paint pass of it, worked out.
- `template_ast.dfy` (`Ast`), `parser.dfy` (`Parser`), `parser_lemmas.dfy`
  (`ParserLemmas`), `code_printer.dfy` (`CodePrinting`): the template side.
- `options.dfy` (`Options`) and `sequences.dfy` (`Sequences`): small
  shared helpers.

Acyclicity is never checked by the source. The model witnesses it with a
ghost `rank`: every child listed by a reachable node has a smaller rank.
`layout` and `paint` take the rank as a ghost argument. `remove` needs none.
Its walk is proved to end on any graph, and the nodes it frees are
characterised whatever the graph is.

## Model

| member | source | states |
|---|---|---|
| Geometry.NewConstraint | hydron-ui/src/constraint.rs:10-17 | the four bounds are stored in argument order |
| Geometry.Fixed | hydron-ui/src/constraint.rs:19-26 | the result is fixed and its minima are the given width and height |
| Geometry.FixedCharacterisation | hydron-ui/src/constraint.rs:28-30 | `is_fixed` holds exactly when the constraint equals `fixed` of its own minima |
| Geometry.FixedIsUnique | hydron-ui/src/constraint.rs:19-30 | the only fixed constraint admitting a size is `fixed` of that size |
| Contexts.SizeAndPositionCommute | hydron-ui/src/surface.rs:28-41 | `set_size` and `position_child` touch disjoint fields; they commute, and a size reads back as written |
| Contexts.LayoutContext.constructor | hydron-ui/src/surface.rs:14-18 | a new table is empty |
| Contexts.LayoutContext.Insert | hydron-ui/src/surface.rs:20-22 | the rectangle is appended |
| Contexts.LayoutContext.GetRect | hydron-ui/src/surface.rs:24-26 | returns the stored rectangle of the index |
| Contexts.LayoutContext.SetSize | hydron-ui/src/surface.rs:28-31 | only the width and height of that entry change |
| Contexts.LayoutContext.GetChildSize | hydron-ui/src/surface.rs:33-36 | returns the width and height of that entry |
| Contexts.LayoutContext.PositionChild | hydron-ui/src/surface.rs:38-41 | only the offset of that entry changes |
| Contexts.RenderContext.constructor | hydron-ui/src/surface.rs:49-53 | a new queue is empty |
| Contexts.RenderContext.AddCommand | hydron-ui/src/surface.rs:55-57 | the command is queued last |
| Contexts.RenderContext.GetCommands | hydron-ui/src/surface.rs:59-63 | hands over every queued command, oldest first, and leaves the queue empty |
| Elements.Pack | hydron-ui/src/elements/flex_element.rs:12-31 | packing is the inverse of taking the major and minor extents |
| Elements.PackOfExtents | hydron-ui/src/elements/flex_element.rs:12-31 | every pair is the packing of its own extents |
| Elements.NewFlex | hydron-ui/src/elements/flex_element.rs:42-49 | a new container has the given direction and zero re-entry state |
| Elements.Clamped | hydron-ui/src/elements/fixed_element.rs:22-23 | the fixed size is the intrinsic size cut down to the maxima on each axis, never raised |
| Elements.DefaultLayout | hydron-ui/src/layout.rs:25-40 | reports `Done` exactly when the box has no child or is resumed; with no child, the constraint's minima and an untouched table; resumed, the child's own size; a request names the only child and leaves the table alone |
| Elements.FixedLayout | hydron-ui/src/elements/fixed_element.rs:21-38 | reports `Done` exactly when the element has no child or is resumed, always with the intrinsic size cut to the maxima; with no child the table is untouched; a request names the only child and leaves the table alone |
| Elements.DefaultReportsChild | hydron-ui/src/layout.rs:25-40 | with one child, the box asks for it under its maxima with no minimum; resumed, it places the child at the origin and reports the child's size; a child that keeps to its offer keeps the box within the box's maxima |
| Elements.FixedBoundsChild | hydron-ui/src/elements/fixed_element.rs:21-38 | with one child, the child may grow to the clamped size and no further; the element then reports its clamped size, whatever the child reported |
| Elements.FixedIgnoresMinima | hydron-ui/src/elements/fixed_element.rs:21-25 | a concrete constraint whose minima exceed the intrinsic size gets a reported size it does not admit |
| Elements.SlotConstraint | hydron-ui/src/elements/flex_element.rs:88-91 | each child's slot is exactly `major_per_flex` along the axis and the container's own range across it |
| Elements.Padding | hydron-ui/src/elements/flex_element.rs:64-68 | a child narrower than its slot is centred, with at most one unit of rounding; a wider one gets no padding |
| Elements.PlaceFromKeepsSizes | hydron-ui/src/elements/flex_element.rs:60-72 | the closing loop writes offsets only |
| Elements.PlaceFromUnlisted | hydron-ui/src/elements/flex_element.rs:60-72 | a node the loop does not list is untouched |
| Elements.PlaceFromFrame | hydron-ui/src/elements/flex_element.rs:60-72 | from the first child, sizes are kept and non-children are untouched |
| Elements.PlaceFrom | hydron-ui/src/elements/flex_element.rs:60-72 | the closing loop keeps the table's length; what it writes is stated by the four `PlaceFrom…` lemmas |
| Elements.PlaceFromPlaces | hydron-ui/src/elements/flex_element.rs:60-72 | child `j` ends at its slot origin `j * major_per_flex + padding`; a child listed twice keeps its last position |
| Elements.FlexSlotsFit | hydron-ui/src/elements/flex_element.rs:77-92 | the first call splits the maximum into equal slots that together fit it and leave less than one slot per child unused, then asks for the first child under the first slot |
| Elements.FlexLayout | hydron-ui/src/elements/flex_element.rs:53-93 | only child offsets change, sizes are kept, and nodes outside the child list are untouched; the first call is `FlexSlotsFit`, a resumed call `FlexResumes`, a whole pass `FlexAsksInOrder` and `FlexPassEnds` |
| Elements.MaxMinor | hydron-ui/src/elements/flex_element.rs:55-56 | the running minor extent is at least its start and every reported minor extent, and equals one of them |
| Elements.FlexResumes | hydron-ui/src/elements/flex_element.rs:54-76 | a resumed call counts the child and keeps the larger minor extent; before the last child it asks for the next one under the same slot with the table untouched; after the last it places every child at its slot and reports the whole maximum along the axis by the largest minor extent |
| Elements.FlexRounds | hydron-ui/src/elements/flex_element.rs:53-93 | after the first call and `k` resumed calls the container has counted `k` children and kept the table's length |
| Elements.FlexAsksInOrder | hydron-ui/src/elements/flex_element.rs:54-92 | through a pass over `n` children, the `k`-th call asks for child `k` under the slot of `max / n`, with the table untouched and the largest minor extent reported so far, never below the minimum across the axis |
| Elements.FlexPassEnds | hydron-ui/src/elements/flex_element.rs:54-76 | the `n`-th answer places every child at its slot and reports the maximum along the axis by the largest minor extent of all `n` answers |
| Elements.FlexOffsetsFit | hydron-ui/src/elements/flex_element.rs:64-71 | child `k` of `n` starts at `k * major_per_flex + padding` and, if it keeps to its slot, ends within slot `k`, which ends within the maximum along the axis |
| Elements.ElementLayout | hydron-ui/src/layout.rs:25-40 | for every variant: the kind is kept, only child offsets are written, a requested child is one of the node's children, and each request lowers the pending-call measure |
| Elements.PositionChildren | hydron-ui/src/elements/flex_element.rs:60-72 | the in-place loop leaves the table exactly as the closing-loop function describes |
| Elements.Layout | hydron-ui/src/elements/flex_element.rs:53-93 | the in-place call returns the new element state and result, and leaves the table, as `ElementLayout` |
| Elements.PaintCommands | hydron-ui/src/layout.rs:17-22 | one `DrawRect` of the node's rectangle exactly when the background is a solid colour, else nothing |
| Elements.Paint | hydron-ui/src/layout.rs:17-22 | the commands of `PaintCommands` are appended to the queue |
| LayoutSpec.FitsSameKinds | hydron-ui/src/surface.rs:138-161 | layout never changes an element's kind, so what could be laid out still can |
| LayoutSpec.LayNode | hydron-ui/src/surface.rs:138-161 | a node's pass changes only nodes ranked below it, its own element and its own size, never its offset, and records the size it returns |
| LayoutSpec.Drive | hydron-ui/src/surface.rs:138-161 | the same frame for a pass resumed with a child's size |
| LayoutSpec.LayoutPass | hydron-ui/src/surface.rs:127-163 | after a pass the root sits at the origin with the size it reported; nodes not below the root are untouched |
| LayoutSpec.Finish | hydron-ui/src/surface.rs:138-161 | with a pending node, the loop still has at least one iteration to run |
| LayoutSpec.MachineStep | hydron-ui/src/surface.rs:139-160 | one iteration pops the top node, its constraint and the waiting result, calls the element once, and pushes the node and the requested child back or records the size as the waiting result; `StepKeepsFinish` proves what it keeps |
| LayoutSpec.TopPass | hydron-ui/src/surface.rs:138-161 | the top node's remaining pass stays within its frame |
| LayoutSpec.StepKeepsFinish | hydron-ui/src/surface.rs:138-161 | one loop iteration keeps the stack discipline, leaves the final state unchanged and lowers the iteration count by one |
| LayoutSpec.InitialMachine | hydron-ui/src/surface.rs:133-136 | the loop's starting configuration keeps the discipline and ends in `LayoutPass` |
| Traversal.MaxRank | hydron-ui/src/surface.rs:112-121 | the largest rank on the stack bounds every entry and is reached by one |
| Traversal.PaintOrder | hydron-ui/src/surface.rs:107-125 | the order in which `paint` visits nodes from a root: the root first, then only existing nodes |
| Traversal.StackOrder | hydron-ui/src/surface.rs:112-121 | the order in which the loop visits a stack, top first; only existing nodes |
| Traversal.Drawing | hydron-ui/src/surface.rs:113-119 | the commands queued while painting an order: at most one per node |
| Traversal.StackOrderAppend | hydron-ui/src/surface.rs:120 | pushing a list on the stack means that list is walked first |
| Traversal.PaintOrderShape | hydron-ui/src/surface.rs:107-125 | every child of a painted node is painted after it; every painted node is the root or a child of a node painted before it |
| Traversal.StackOrderCovers | hydron-ui/src/surface.rs:112-121 | every node pushed is painted |
| Traversal.DrawingAppend | hydron-ui/src/surface.rs:112-121 | painting two orders one after the other queues their commands one after the other |
| Traversal.SingleStackOrder | hydron-ui/src/surface.rs:109-110 | a stack holding just the root is walked in the root's paint order |
| Traversal.PaintStep | hydron-ui/src/surface.rs:113-120 | one round paints the top node and leaves a stack whose walk paints the rest, and the walk shrinks |
| Traversal.BelowRanked | hydron-ui/src/surface.rs:107-125 | every node painted from a root ranks no higher than the root |
| Traversal.CommonBelow | hydron-ui/src/surface.rs:107-125 | when every node is listed once, two roots that paint a common node lie one below the other |
| Traversal.PaintOrderDistinct | hydron-ui/src/surface.rs:107-125 | when every node is listed once (a tree), `paint` visits each reachable node exactly once |
| Traversal.StackOrderDistinct | hydron-ui/src/surface.rs:112-121 | the same for the walk of a prefix of one node's child list |
| Removal.RemoveFirst | hydron-ui/src/surface.rs:202 | `remove_item` drops one entry when the value is present and none otherwise, and keeps every other value |
| Removal.RemoveFirstSplit | hydron-ui/src/surface.rs:202 | the entry dropped is the first occurrence |
| Removal.RemoveFirstDistinct | hydron-ui/src/surface.rs:202 | on a list without duplicates, `remove_item` leaves no copy of the value and no duplicates |
| Removal.RemoveEach | hydron-ui/src/surface.rs:201-203 | removing several values, one `remove_item` each, adds nothing and keeps every value not removed |
| Removal.ParentedBy | hydron-ui/src/surface.rs:201 | the freed nodes whose recorded parent is a given node, in the order they were freed |
| Removal.TotalChildrenUpdate | hydron-ui/src/surface.rs:205-206 | replacing one list changes the total list length by the difference |
| Removal.FreedAreBelow | hydron-ui/src/surface.rs:188-210 | on an acyclic graph, the nodes a removal frees are exactly the nodes a paint from the same node reaches |
| Removal.Unlinked | hydron-ui/src/surface.rs:201-203 | unlinking `x` touches only the list of its recorded parent, removes nothing but `x`, and adds nothing |
| Removal.NextWalkKeeps | hydron-ui/src/surface.rs:192-209 | one iteration keeps the walk's bookkeeping and lowers its measure, so the walk ends on any graph |
| Removal.StepUnlinks | hydron-ui/src/surface.rs:193-208 | after each iteration every surviving list is its original with one `remove_item` per freed node recorded as its child |
| Removal.UnlinkedClean | hydron-ui/src/surface.rs:201-203 | on a tree, after a node is unlinked no list still holds it, and every list stays free of duplicates |
| Removal.StepUntangled | hydron-ui/src/surface.rs:192-209 | on a tree, each iteration keeps the freed nodes and the stack free of duplicates and of each other, and keeps every list free of duplicates and of freed nodes |
| Removal.WalkEnd | hydron-ui/src/surface.rs:188-210 | when the stack is empty, the freed nodes are closed under the original child lists and each was reached from the start |
| Removal.LastWalkEnds | hydron-ui/src/surface.rs:188-210 | the finished walk is a `Removed` transition: the free list grows by exactly the nodes reachable from the start; every surviving list is its original with the freed children it recorded unlinked, and keeps every child that survives; on a tree no node is freed twice |
| Removal.RemovalUnlinksStart | hydron-ui/src/surface.rs:201-203 | on a tree, the removed node's surviving parent loses exactly that one listing |
| Surfaces.Surface.constructor | hydron-ui/src/surface.rs:81-93 | an empty store of the given size, with no root and empty side tables |
| Surfaces.Surface.GetSize | hydron-ui/src/surface.rs:95-97 | returns the surface size |
| Surfaces.Surface.Resize | hydron-ui/src/surface.rs:99-101 | only the size changes |
| Surfaces.Surface.SetStyle | hydron-ui/src/surface.rs:103-105 | only that node's style changes |
| Surfaces.Surface.SetRoot | hydron-ui/src/surface.rs:165-167 | only the root changes; any index is accepted |
| Surfaces.Surface.SetParent | hydron-ui/src/surface.rs:212-215 | the child is appended to the parent's list, duplicates included, and its parent link is overwritten; the store stays valid |
| Surfaces.Surface.Insert | hydron-ui/src/surface.rs:170-186 | reuses the most recently freed index when there is one, with the new element, an empty style and a zero rectangle, keeping its old links; otherwise appends a fresh node |
| Surfaces.Surface.Remove | hydron-ui/src/surface.rs:188-210 | frees exactly the nodes reachable from the index in the old child lists; each surviving list loses one listing per freed node that recorded it as parent and keeps every surviving child; on a tree no node is freed twice, and with `RemovalUnlinksStart` the surviving parent loses exactly the removed node; the root is cleared if it was freed |
| Surfaces.Surface.RemoveWalk | hydron-ui/src/surface.rs:189-209 | the loop runs the walk to its end |
| Surfaces.Surface.FreeNode | hydron-ui/src/surface.rs:193-208 | one popped node is unlinked, its list queued and cleared, its index freed, and the root cleared if it was this node |
| Surfaces.Surface.Layout | hydron-ui/src/surface.rs:127-163 | with a root, the store ends in the state of the recursive pass `LayoutPass` from the surface size; without one nothing changes |
| Surfaces.Surface.LayoutIteration | hydron-ui/src/surface.rs:139-160 | one loop iteration performs `MachineStep` on the three stacks and the store |
| Surfaces.Surface.Paint | hydron-ui/src/surface.rs:107-125 | returns the queue as it was, followed by one command per styled node in paint order, and leaves the queue empty; on a tree that order holds each reachable node once (`PaintOrderDistinct`) |
| Demo.DemoLayout | hydron/src/main.rs:66-102 | the demo window's layout pass takes eleven calls; the children sit at x = 28, 284, 540 and 796; the root and container end at 1024 x 400, not the 1024 x 768 the root was fixed to |
| Demo.DemoPaintOrder | hydron/src/main.rs:99-102 | the demo is painted root, container, then children from last to first |
| Demo.DemoDrawing | hydron/src/main.rs:66-102 | one frame of the demo queues the white root, then the grey, blue, green and red rectangles |
| Demo.Build | hydron/src/main.rs:66-102 | the program's inserts, root, styles and links, made call for call in the program's order, build exactly the demo store |
| Demo.DemoFrame | hydron/src/main.rs:122-123 | one layout pass and one paint pass of the built surface return exactly the demo frame |
| Ast.Visit | hydron-template/src/ast.rs:28-30 | `visit` makes exactly one call, `visit_tag` of the whole tree |
| Ast.DefaultVisitTag | hydron-template/src/ast.rs:32-35 | the default `visit_tag` visits the name, then the property list, and not the content |
| Ast.DefaultVisitTagProperties | hydron-template/src/ast.rs:37-41 | one property visit per property, in list order |
| Ast.DefaultVisitTagContent | hydron-template/src/ast.rs:51-56 | a child goes to `visit_tag`, an escaped block to `visit_escaped`, exactly one call |
| Ast.DefaultVisitSkipsContent | hydron-template/src/ast.rs:28-41 | the default visit calls each property once in order, never reaches content, and gives the same trace whatever the content |
| Parser.MatchPunct | hydron-template/src/parser.rs:48-63 | panics exactly on an empty slice; succeeds exactly on that punctuation with that spacing, consuming one token |
| Parser.MatchIdent | hydron-template/src/parser.rs:65-72 | panics exactly on an empty slice; succeeds exactly on an identifier, consuming it |
| Parser.MatchGroup | hydron-template/src/parser.rs:74-85 | panics exactly on an empty slice; succeeds exactly on a group with that delimiter, consuming it |
| Parser.ParseProperty | hydron-template/src/parser.rs:87-97 | succeeds exactly on `ident = {group}`; panics exactly when the slice ends inside that shape |
| Parser.ParseProperties | hydron-template/src/parser.rs:99-103 | never a recoverable failure; what is left is a suffix, empty only if the input was |
| Parser.ParseOpenTag | hydron-template/src/parser.rs:128-138 | success means `<`, an identifier, the property list, then `>` |
| Parser.ParseCloseTag | hydron-template/src/parser.rs:140-150 | succeeds exactly on `< / ident >`, consuming those four tokens |
| Parser.ParseStandaloneTag | hydron-template/src/parser.rs:166-179 | success means `<`, an identifier, the property list, then `/ >`, and gives a tag without content; what is left is exactly what follows the `/ >` |
| Parser.ParseTag | hydron-template/src/parser.rs:181-186 | success consumes at least one token and leaves a suffix |
| Parser.ParseContainerTag | hydron-template/src/parser.rs:152-164 | success consumes at least one token and leaves a suffix |
| Parser.ParseTagContent | hydron-template/src/parser.rs:119-126 | never a recoverable failure; what is left is a suffix, empty only if the input was |
| Parser.ParseContentItem | hydron-template/src/parser.rs:105-117 | success consumes at least one token and leaves a suffix |
| Parser.Parse | hydron-template/src/parser.rs:195-197 | `parse` is defined exactly where `parse_tag` succeeds, so the `unwrap` cannot panic, and returns the tag it read; `ParseRoundTrip` proves it returns any written-out tree |
| Parser.StandaloneReads | hydron-template/src/parser.rs:166-186 | `< name props / >` is read by the standalone form |
| Parser.ContainerReads | hydron-template/src/parser.rs:152-186 | `< name props >` ends the standalone attempt, and the container form reads open tag, content and close tag |
| Parser.CloseIsNoItem | hydron-template/src/parser.rs:105-126 | `< /` starts neither an escaped block nor a child tag |
| Parser.Many0Properties | hydron-template/src/parser.rs:9-46 | the expanded loop computes `ParseProperties` |
| Parser.Many0TagContent | hydron-template/src/parser.rs:9-46 | the expanded loop computes `ParseTagContent` |
| ParserLemmas.PropertiesRoundTrip | hydron-template/src/parser.rs:87-103 | the tokens of a property list, followed by anything but an identifier, parse back to that list and stop right there |
| ParserLemmas.ContentsRoundTrip | hydron-template/src/parser.rs:105-126 | the tokens of a content list, followed by a close tag, parse back to that list |
| ParserLemmas.ItemRoundTrip | hydron-template/src/parser.rs:105-117 | one content item's tokens parse back to it |
| ParserLemmas.TagRoundTrip | hydron-template/src/parser.rs:128-186 | every tree's tokens parse back to the tree, with what follows left unread |
| ParserLemmas.ContainerRoundTrip | hydron-template/src/parser.rs:152-164 | the same for a tag with content |
| ParserLemmas.CloseRoundTrip | hydron-template/src/parser.rs:140-150 | a close tag's tokens parse back to its name |
| ParserLemmas.ParseRoundTrip | hydron-template/src/parser.rs:195-197 | `parse` succeeds on a written-out tree and returns it |
| ParserLemmas.UnfinishedTagPanics | hydron-template/src/parser.rs:48-63 | `<a` panics: the property loop reads past the end of the slice |
| ParserLemmas.CloseNameUnchecked | hydron-template/src/parser.rs:152-164 | `<a></b>` is accepted as an `a` tag; close names are not compared |
| ParserLemmas.LastItemNotConsumed | hydron-template/src/parser.rs:9-46 | a property that uses up the slice is kept, but the reported rest still holds its tokens |
| CodePrinting.VirtualElementName | hydron-template/src/code_printer.rs:46-54 | the name gains the suffix `Element`; its first letter is upper-cased (a lower-case one becomes upper-case) and the rest of the name is kept |
| CodePrinting.VirtualNameInjective | hydron-template/src/code_printer.rs:46-54 | two lower-case names with the same virtual name are the same name |
| CodePrinting.Spaces | hydron-template/src/code_printer.rs:39-43 | the indentation is exactly `n` characters, every one a space |
| CodePrinting.TagTextFrame | hydron-template/src/code_printer.rs:57-122 | the printed text starts with the indentation and the boxed virtual name or the plain name, and ends with `})` or `}` |
| CodePrinting.PropertiesTextAppend | hydron-template/src/code_printer.rs:130-135 | printing a property list is printing its halves one after the other |
| CodePrinting.ContentsTextAppend | hydron-template/src/code_printer.rs:75-79 | printing a content list is printing its halves one after the other |
| CodePrinting.PropertyEmbedded | hydron-template/src/code_printer.rs:57-122 | each property appears, as `visit_tag_property` prints it, at a computed offset of the tag's text |
| CodePrinting.ItemEmbedded | hydron-template/src/code_printer.rs:57-122 | each content item appears, followed by a comma, at a computed offset of the tag's text |
| CodePrinting.EmptyElementText | hydron-template/src/code_printer.rs:57-91 | `<div/>` prints as a boxed `DivElement` with an empty `children` list |
| CodePrinting.TagText | hydron-template/src/code_printer.rs:57-122 | the text `visit_tag` prints at an indentation: opening line, properties, children list, content and closing; `TagTextFrame`, `PropertyEmbedded` and `ItemEmbedded` state where each piece lies |
| CodePrinting.CodePrinter.constructor | hydron-template/src/code_printer.rs:11-16 | indentation zero and an empty buffer |
| CodePrinting.CodePrinter.Generate | hydron-template/src/code_printer.rs:18-21 | the tree's text is appended to the buffer, which is never cleared, and the whole buffer is returned |
| CodePrinting.CodePrinter.Print | hydron-template/src/code_printer.rs:23-25 | the text is appended |
| CodePrinting.CodePrinter.Println | hydron-template/src/code_printer.rs:27-29 | `\r\n` is appended |
| CodePrinting.CodePrinter.PushIndentation | hydron-template/src/code_printer.rs:31-33 | the indentation grows by four |
| CodePrinting.CodePrinter.PopIndentation | hydron-template/src/code_printer.rs:35-37 | the indentation shrinks by four |
| CodePrinting.CodePrinter.PrintIndentation | hydron-template/src/code_printer.rs:39-43 | as many spaces as the indentation are appended |
| CodePrinting.CodePrinter.Visit | hydron-template/src/ast.rs:28-30 | the tree's text is appended and the indentation restored |
| CodePrinting.CodePrinter.VisitTag | hydron-template/src/code_printer.rs:57-122 | the tag's text, for both the boxed and the plain branch, is appended and the indentation restored |
| CodePrinting.CodePrinter.VisitContents | hydron-template/src/code_printer.rs:75-79 | each item's text followed by a comma is appended |
| CodePrinting.CodePrinter.VisitTagProperties | hydron-template/src/ast.rs:37-41 | each property's text is appended, in list order |
| CodePrinting.CodePrinter.VisitTagContent | hydron-template/src/ast.rs:51-56 | a child's tag text or an escaped block's text is appended |
| CodePrinting.CodePrinter.VisitEscaped | hydron-template/src/code_printer.rs:124-128 | a line break, the indentation, then the stream's text |
| CodePrinting.CodePrinter.VisitTagProperty | hydron-template/src/code_printer.rs:130-135 | indentation, `name: value,`, then a line break |
| CodePrinting.GenerateTwice | hydron-template/src/code_printer.rs:18-21 | a printer reused for the same tree returns the text twice over the second time, because the buffer is never cleared |

## Left out

- The renderer, the window and event loop of the program, and the
  resize-on-event path of `main` are not part of this model. `main` is used
  only for the window it builds and for one layout and paint per frame.
- Colours are `real` values that are carried through and never computed
  with. Borders and styles are data only (`Style::empty` is a plain value).
- `Box<dyn LayoutElement>` dispatch is a datatype with one constructor per
  variant. `BoxElement` uses the trait's default methods.
- Integer width: sizes and offsets are `nat`. No operation of the core
  subtracts below zero on the inputs it accepts, and the flex slots stay
  within the constraint's maximum along the axis (`FlexOffsetsFit`), so
  `usize` does not overflow there. `pop_indentation` below 4 is a
  precondition.
- Panics are preconditions of the model:
  - an out-of-range index;
  - a default or fixed element with more than one child (`unimplemented!`);
  - a resumed flex container past its last child;
  - a tag name that is empty when printed (`WellNamed`);
  - `parse` on input it cannot read (`unwrap`).
  The token matchers' panic on an empty slice is modelled as the `Panic`
  outcome, because combinators decide whether it is reached.
- Cyclic child graphs: `layout` and `paint` loop forever on them in the
  source. The model requires a rank, which excludes cycles. A DAG, where a
  node is listed twice, is allowed and is painted and laid out once per
  listing.
- nom's `Incomplete` and `Failure` are never produced by these parsers and
  are not modelled. Token trees are kept shallow: a group's inner stream is
  the text it prints as, which is what the printer emits.
- `char::is_lowercase` and `to_uppercase` are restricted to ASCII letters.
  Other characters are neither lower-case nor changed, so a non-ASCII
  initial takes the plain branch here.
- CodePrinting.TagText: the printed text is not proved to have balanced
  brackets. The model states where each piece lies (`PropertyEmbedded`,
  `ItemEmbedded`, `TagTextFrame`), not a bracket count.
- CodePrinting.CodePrinter.VisitTag: the run of prints in each branch is
  grouped into three helper methods. Each prints the same sequence of
  strings as the source.
- Behaviour of the code a reader may not expect, which the model keeps:
  - `insert` into a freed slot keeps that slot's old child list and parent
    link.
  - A laid-out rectangle does not always satisfy its constraint. The fixed
    element is never raised to the minima (`FixedIgnoresMinima`). The flex
    container reports its maximum along the axis. The demo root reports
    1024 x 400 under a fixed 1024 x 768 (`DemoLayout`).
  - `generate` never clears the buffer (`GenerateTwice`).
  - Consecutive child tags are printed with no line break between them.
