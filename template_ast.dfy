/** hydron-template/src/ast.rs: the tree a template parses into, and the
    dispatch of the default `AstVisitor` methods. A token stream that is
    kept verbatim (a property's value or an escaped block) is carried as
    the text it prints as. */
module Ast {
  datatype Stream = Stream(text: string)

  datatype Identifier = Identifier(name: string)

  datatype Property = Property(name: Identifier, value: Stream)

  datatype TagContent = Escaped(stream: Stream) | Child(tag: Tag)

  datatype Tag = Tag(name: Identifier, properties: seq<Property>, content: seq<TagContent>)

  /** A call of one of the visitor's overridable methods, with its argument. */
  datatype Call =
    | VisitTag(tag: Tag)
    | VisitIdentifier(identifier: Identifier)
    | VisitTagProperties(properties: seq<Property>)
    | VisitTagProperty(property: Property)
    | VisitEscaped(stream: Stream)

  /** The calls `visit` makes: it hands the tree straight to `visit_tag`. */
  function Visit(ast: Tag): seq<Call> {
    [VisitTag(ast)]
  }

  /** The calls the default `visit_tag` makes: the name, then the property
      list; the content is not visited. */
  function DefaultVisitTag(tag: Tag): seq<Call> {
    [VisitIdentifier(tag.name), VisitTagProperties(tag.properties)]
  }

  /** The calls the default `visit_tag_properties` makes, one per property
      in list order. */
  function DefaultVisitTagProperties(properties: seq<Property>): (calls: seq<Call>)
    ensures |calls| == |properties|
    ensures forall i :: 0 <= i < |properties| ==> calls[i] == VisitTagProperty(properties[i])
  {
    if |properties| == 0 then []
    else DefaultVisitTagProperties(properties[..|properties| - 1]) + [VisitTagProperty(properties[|properties| - 1])]
  }

  /** The call the default `visit_tag_content` makes: a child tag goes to
      `visit_tag`, an escaped block to `visit_escaped`. */
  function DefaultVisitTagContent(content: TagContent): (calls: seq<Call>)
    ensures |calls| == 1
    ensures content.Child? <==> calls[0].VisitTag?
    ensures content.Child? ==> calls[0] == VisitTag(content.tag)
    ensures content.Escaped? ==> calls[0] == VisitEscaped(content.stream)
  {
    match content
    case Child(tag) => [VisitTag(tag)]
    case Escaped(stream) => [VisitEscaped(stream)]
  }

  /** Everything a visitor that overrides nothing ends up calling on a
      tree: the hooks reached through `visit`, with the default bodies
      unfolded. */
  function DefaultTrace(ast: Tag): seq<Call> {
    Visit(ast) + DefaultVisitTag(ast) + DefaultVisitTagProperties(ast.properties)
  }

  /** The default visit of a tree calls each property exactly once, in
      list order, and never reaches a child or an escaped block: two
      trees that differ only in their content give the same trace. */
  lemma DefaultVisitSkipsContent(ast: Tag, content: seq<TagContent>)
    ensures |DefaultTrace(ast)| == 3 + |ast.properties|
    ensures forall i :: 0 <= i < |ast.properties| ==> DefaultTrace(ast)[3 + i] == VisitTagProperty(ast.properties[i])
    ensures forall i :: 0 <= i < |DefaultTrace(ast)| ==> !DefaultTrace(ast)[i].VisitEscaped?
    ensures DefaultTrace(ast.(content := content)) == DefaultTrace(ast)[0 := VisitTag(ast.(content := content))]
  {
    var t := DefaultTrace(ast);
    var ps := DefaultVisitTagProperties(ast.properties);
    assert forall i :: 3 <= i < |t| ==> t[i] == ps[i - 3];
  }
}
