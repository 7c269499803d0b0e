/** hydron-template/src/code_printer.rs: the visitor that turns a parsed
    template into Rust source text that builds the element tree. `TagText`
    and its helpers say which text a tree prints as; the `CodePrinter`
    class appends that text to its buffer one `print` at a time, as the
    source does, and its methods are proved to append exactly it. */
module CodePrinting {
  import opened Ast
  import opened Sequences

  const Newline := "\r\n"

  /** `char::is_lowercase`, restricted to ASCII letters. */
  predicate IsLower(c: char) {
    'a' <= c <= 'z'
  }

  /** `char::to_uppercase`, restricted to ASCII letters; any other
      character is kept as it is. */
  function ToUpper(c: char): char {
    if IsLower(c) then (c as int - 32) as char else c
  }

  /** `to_virtual_element_name`: the first character upper-cased, the rest
      of the name, then "Element". An empty name panics in the source. */
  function VirtualElementName(name: string): (v: string)
    requires |name| > 0
    ensures |v| == |name| + 7
    ensures v[|name|..] == "Element"
    ensures v[0] == ToUpper(name[0]) && v[1..|name|] == name[1..]
    ensures IsLower(name[0]) ==> 'A' <= v[0] <= 'Z'
  {
    [ToUpper(name[0])] + name[1..] + "Element"
  }

  /** Two element tags whose names start with a lower-case letter get
      the same virtual element name only when their names are the same. */
  lemma VirtualNameInjective(a: string, b: string)
    requires |a| > 0 && |b| > 0 && IsLower(a[0]) && IsLower(b[0])
    requires VirtualElementName(a) == VirtualElementName(b)
    ensures a == b
  {
    var v := VirtualElementName(a);
    assert v[0] == ToUpper(a[0]) == ToUpper(b[0]);
    assert a[1..] == v[1..|a|] == b[1..];
    HeadTail(a);
    HeadTail(b);
  }

  /** What `print_indentation` appends: `n` spaces. */
  function Spaces(n: nat): (s: string)
    ensures |s| == n
    ensures forall i :: 0 <= i < n ==> s[i] == ' '
  {
    if n == 0 then "" else Spaces(n - 1) + " "
  }

  /** Every tag in the tree has a non-empty name: `visit_tag` unwraps the
      first character of each name it prints. */
  predicate WellNamed(tag: Tag)
    decreases tag
  {
    |tag.name.name| > 0 && forall i :: 0 <= i < |tag.content| ==> WellNamedItem(tag.content[i])
  }

  predicate WellNamedItem(item: TagContent)
    decreases item
  {
    item.Child? ==> WellNamed(item.tag)
  }

  /** What `visit_tag_property` appends at indentation `k`. */
  function PropertyText(property: Property, k: nat): string {
    Spaces(k) + (property.name.name + ": " + property.value.text + ",") + Newline
  }

  /** What the default `visit_tag_properties` loop appends. */
  function PropertiesText(properties: seq<Property>, k: nat): string {
    if |properties| == 0 then ""
    else PropertiesText(properties[..|properties| - 1], k) + PropertyText(properties[|properties| - 1], k)
  }

  /** The text before a tag's properties. A tag whose name starts with a
      lower-case letter is a virtual element and is boxed. */
  function OpenText(tag: Tag, k: nat): string
    requires |tag.name.name| > 0
  {
    if IsLower(tag.name.name[0]) then Spaces(k) + ("Box::new(" + VirtualElementName(tag.name.name) + " {") + Newline
    else Spaces(k) + (tag.name.name + " {") + Newline
  }

  /** The text between the properties and the first content item. */
  function ChildrenOpenText(tag: Tag, k: nat): string
    requires |tag.name.name| > 0
  {
    if IsLower(tag.name.name[0]) then Newline + Spaces(k + 4) + "children: vec![" + Newline
    else Spaces(k + 4) + "children: vec![" + Newline
  }

  /** The text after the last content item. */
  function CloseText(tag: Tag, k: nat): string
    requires |tag.name.name| > 0
  {
    Newline + Spaces(k + 4) + "]," + Newline + Spaces(k) + (if IsLower(tag.name.name[0]) then "})" else "}")
  }

  /** What `visit_tag` appends for a tree printed at indentation `k`:
      properties one level in, content two levels in. */
  function TagText(tag: Tag, k: nat): string
    requires WellNamed(tag)
    decreases tag
  {
    OpenText(tag, k) + PropertiesText(tag.properties, k + 4) + ChildrenOpenText(tag, k)
      + ContentsText(tag.content, k + 8) + CloseText(tag, k)
  }

  /** What the loop over a tag's content appends: each item followed by
      one comma. */
  function ContentsText(content: seq<TagContent>, k: nat): string
    requires forall i :: 0 <= i < |content| ==> WellNamedItem(content[i])
    decreases content
  {
    if |content| == 0 then ""
    else ContentsText(content[..|content| - 1], k) + ContentText(content[|content| - 1], k) + ","
  }

  /** What `visit_tag_content` appends: a child tag is printed by
      `visit_tag`, an escaped block by `visit_escaped` on a line of its own. */
  function ContentText(item: TagContent, k: nat): string
    requires WellNamedItem(item)
    decreases item
  {
    match item
    case Child(tag) => TagText(tag, k)
    case Escaped(stream) => Newline + Spaces(k) + stream.text
  }

  /** The printed text starts with the tag's indentation and the boxed
      virtual element name or the verbatim name, and ends with the matching
      closing brace: `})` for a boxed element, `}` otherwise. */
  lemma TagTextFrame(tag: Tag, k: nat)
    requires WellNamed(tag)
    ensures var text := TagText(tag, k);
      var name := tag.name.name;
      if IsLower(name[0]) then
        var head := Spaces(k) + ("Box::new(" + VirtualElementName(name) + " {") + Newline;
        |text| >= |head| + 2 && text[..|head|] == head && text[|text| - 2..] == "})"
      else
        var head := Spaces(k) + (name + " {") + Newline;
        |text| >= |head| + 1 && text[..|head|] == head && text[|text| - 1..] == "}"
  {
    var text := TagText(tag, k);
    var open := OpenText(tag, k);
    var middle := PropertiesText(tag.properties, k + 4) + ChildrenOpenText(tag, k) + ContentsText(tag.content, k + 8);
    var close := CloseText(tag, k);
    var brace := if IsLower(tag.name.name[0]) then "})" else "}";
    var inner := Newline + Spaces(k + 4) + "]," + Newline + Spaces(k);
    Regroup(open, PropertiesText(tag.properties, k + 4), ChildrenOpenText(tag, k), ContentsText(tag.content, k + 8), close);
    PrefixOf(open, middle + close);
    AppendAssoc(open, middle, close);
    assert close == inner + brace;
    AppendAssoc(open + middle, inner, brace);
    SuffixOf(open + middle + inner, brace);
  }

  /** Printing a list of properties is printing its two halves one after
      the other. */
  lemma {:induction false} PropertiesTextAppend(a: seq<Property>, b: seq<Property>, k: nat)
    ensures PropertiesText(a + b, k) == PropertiesText(a, k) + PropertiesText(b, k)
    decreases |b|
  {
    if |b| == 0 {
      assert a + b == a;
    } else {
      var last := |b| - 1;
      assert (a + b)[..|a + b| - 1] == a + b[..last];
      PropertiesTextAppend(a, b[..last], k);
      AppendAssoc(PropertiesText(a, k), PropertiesText(b[..last], k), PropertyText(b[last], k));
    }
  }

  /** Printing a list of content items is printing its two halves one
      after the other. */
  lemma {:induction false} ContentsTextAppend(a: seq<TagContent>, b: seq<TagContent>, k: nat)
    requires forall i :: 0 <= i < |a| ==> WellNamedItem(a[i])
    requires forall i :: 0 <= i < |b| ==> WellNamedItem(b[i])
    ensures forall i :: 0 <= i < |a + b| ==> WellNamedItem((a + b)[i])
    ensures ContentsText(a + b, k) == ContentsText(a, k) + ContentsText(b, k)
    decreases |b|
  {
    if |b| == 0 {
      assert a + b == a;
    } else {
      var last := |b| - 1;
      assert (a + b)[..|a + b| - 1] == a + b[..last];
      ContentsTextAppend(a, b[..last], k);
      AppendAssoc(ContentsText(a, k), ContentsText(b[..last], k), ContentText(b[last], k) + ",");
    }
  }

  /** Each property is printed exactly as `visit_tag_property` prints it,
      one level deeper than its tag, somewhere inside the tag's text. */
  lemma PropertyEmbedded(tag: Tag, i: nat, k: nat)
    requires WellNamed(tag) && i < |tag.properties|
    ensures var text := TagText(tag, k);
      var at := |OpenText(tag, k) + PropertiesText(tag.properties[..i], k + 4)|;
      var one := PropertyText(tag.properties[i], k + 4);
      at + |one| <= |text| && text[at..at + |one|] == one
  {
    var ps := tag.properties;
    var one := PropertyText(ps[i], k + 4);
    assert ps == ps[..i + 1] + ps[i + 1..];
    assert ps[..i + 1][..i] == ps[..i];
    PropertiesTextAppend(ps[..i + 1], ps[i + 1..], k + 4);
    var before := OpenText(tag, k) + PropertiesText(ps[..i], k + 4);
    var after := PropertiesText(ps[i + 1..], k + 4) + (ChildrenOpenText(tag, k) + ContentsText(tag.content, k + 8) + CloseText(tag, k));
    SplicedMiddle(OpenText(tag, k), PropertiesText(ps[..i], k + 4), one, PropertiesText(ps[i + 1..], k + 4),
      ChildrenOpenText(tag, k), ContentsText(tag.content, k + 8), CloseText(tag, k));
    assert TagText(tag, k) == before + one + after;
    InfixOf(before, one, after);
  }

  /** Each content item is printed exactly as `visit_tag_content` prints
      it, two levels deeper than its tag, and is followed by one comma. */
  lemma ItemEmbedded(tag: Tag, i: nat, k: nat)
    requires WellNamed(tag) && i < |tag.content|
    ensures var text := TagText(tag, k);
      var at := |OpenText(tag, k) + PropertiesText(tag.properties, k + 4) + ChildrenOpenText(tag, k) + ContentsText(tag.content[..i], k + 8)|;
      var one := ContentText(tag.content[i], k + 8) + ",";
      at + |one| <= |text| && text[at..at + |one|] == one
  {
    var cs := tag.content;
    var one := ContentText(cs[i], k + 8) + ",";
    assert cs == cs[..i + 1] + cs[i + 1..];
    assert cs[..i + 1][..i] == cs[..i];
    ContentsTextAppend(cs[..i + 1], cs[i + 1..], k + 8);
    var before := OpenText(tag, k) + PropertiesText(tag.properties, k + 4) + ChildrenOpenText(tag, k) + ContentsText(cs[..i], k + 8);
    var after := ContentsText(cs[i + 1..], k + 8) + CloseText(tag, k);
    AppendAssoc(ContentsText(cs[..i], k + 8), ContentText(cs[i], k + 8), ",");
    SplicedLate(OpenText(tag, k), PropertiesText(tag.properties, k + 4), ChildrenOpenText(tag, k), ContentsText(cs[..i], k + 8), one,
      ContentsText(cs[i + 1..], k + 8), CloseText(tag, k));
    assert TagText(tag, k) == before + one + after;
    InfixOf(before, one, after);
  }

  /** An empty element prints as a boxed virtual element with an empty
      property block and an empty children list. */
  lemma EmptyElementText()
    ensures TagText(Tag(Identifier("div"), [], []), 0)
      == "Box::new(DivElement {\r\n\r\n    children: vec![\r\n\r\n    ],\r\n})"
  {
    EmptyElementOpen();
    EmptyElementChildrenOpen();
    EmptyElementClose();
  }

  lemma EmptyElementOpen()
    ensures OpenText(Tag(Identifier("div"), [], []), 0) == "Box::new(DivElement {\r\n"
  {
    DivName();
  }

  lemma DivName()
    ensures VirtualElementName("div") == "DivElement"
  {
    assert ToUpper('d') == 'D';
    assert "div"[1..] == "iv";
  }

  lemma EmptyElementChildrenOpen()
    ensures ChildrenOpenText(Tag(Identifier("div"), [], []), 0) == "\r\n    children: vec![\r\n"
  {
    assert Spaces(4) == "    ";
  }

  lemma EmptyElementClose()
    ensures CloseText(Tag(Identifier("div"), [], []), 0) == "\r\n    ],\r\n})"
  {
    assert Spaces(4) == "    ";
  }

  /** The printer of code_printer.rs: the current indentation and the text
      printed so far. */
  class CodePrinter {
    var indentation: nat
    var result: string

    constructor ()
      ensures indentation == 0 && result == ""
    {
      indentation := 0;
      result := "";
    }

    /** Visits the tree and returns the whole buffer, which is never
        cleared: it still holds what earlier calls printed. */
    method Generate(tag: Tag) returns (output: string)
      requires WellNamed(tag)
      modifies this
      ensures output == result == old(result) + TagText(tag, old(indentation))
      ensures indentation == old(indentation)
    {
      Visit(tag);
      output := result;
    }

    method Print(content: string)
      modifies this`result
      ensures result == old(result) + content
    {
      result := result + content;
    }

    method Println()
      modifies this`result
      ensures result == old(result) + Newline
    {
      result := result + Newline;
    }

    method PushIndentation()
      modifies this`indentation
      ensures indentation == old(indentation) + 4
    {
      indentation := indentation + 4;
    }

    /** `usize` subtraction: below 4 the source panics. */
    method PopIndentation()
      requires indentation >= 4
      modifies this`indentation
      ensures indentation == old(indentation) - 4
    {
      indentation := indentation - 4;
    }

    method PrintIndentation()
      modifies this`result
      ensures result == old(result) + Spaces(indentation)
    {
      for i := 0 to indentation
        invariant result == old(result) + Spaces(i)
      {
        AppendAssoc(old(result), Spaces(i), " ");
        Print(" ");
      }
    }

    /** `visit`: straight to `visit_tag`. */
    method Visit(ast: Tag)
      requires WellNamed(ast)
      modifies this
      ensures result == old(result) + TagText(ast, old(indentation))
      ensures indentation == old(indentation)
    {
      VisitTag(ast);
    }

    /** `visit_tag`: both branches leave the indentation as they found it.
        The runs of prints between the visits of the properties and the
        content are the methods below, each taking the branch on the
        name's first letter that `visit_tag` takes once. */
    method VisitTag(tag: Tag)
      requires WellNamed(tag)
      modifies this
      ensures result == old(result) + TagText(tag, old(indentation))
      ensures indentation == old(indentation)
      decreases tag, 2
    {
      var k := indentation;
      ghost var s0 := result;
      PrintOpen(tag);
      ghost var s1 := result;
      VisitTagProperties(tag.properties);
      ghost var s2 := result;
      PrintChildrenOpen(tag);
      ghost var s3 := result;
      VisitContents(tag.content);
      ghost var s4 := result;
      PrintClose(tag);
      Chain(s0, s1, s2, s3, s4, result, OpenText(tag, k), PropertiesText(tag.properties, k + 4),
        ChildrenOpenText(tag, k), ContentsText(tag.content, k + 8), CloseText(tag, k));
    }

    /** The prints before the properties: the name, boxed when it starts
        with a lower-case letter, and one level more of indentation. */
    method PrintOpen(tag: Tag)
      requires |tag.name.name| > 0
      modifies this
      ensures result == old(result) + OpenText(tag, old(indentation))
      ensures indentation == old(indentation) + 4
    {
      var name := tag.name.name;
      PrintIndentation();
      ghost var head := result;
      if IsLower(name[0]) {
        var elementName := VirtualElementName(name);
        Print("Box::new(" + elementName + " {");
      } else {
        Print(name + " {");
      }
      PushIndentation();
      Println();
      Flatten3(old(result), Spaces(old(indentation)), result[|head|..|result| - 2], Newline);
    }

    /** The prints between the properties and the content, ending two
        levels in. */
    method PrintChildrenOpen(tag: Tag)
      requires |tag.name.name| > 0 && indentation >= 4
      modifies this
      ensures result == old(result) + ChildrenOpenText(tag, old(indentation) - 4)
      ensures indentation == old(indentation) + 4
    {
      ghost var s0 := result;
      if IsLower(tag.name.name[0]) {
        Println();
      } else {
        PopIndentation();
        PushIndentation();
      }
      ghost var s1 := result;
      PrintIndentation();
      Print("children: vec![");
      Println();
      PushIndentation();
      AppendAssoc(s1, Spaces(old(indentation)), "children: vec![");
      AppendAssoc(s1, Spaces(old(indentation)) + "children: vec![", Newline);
      AppendAssoc(s0, s1[|s0|..], Spaces(old(indentation)) + "children: vec![" + Newline);
    }

    /** The prints after the content, back at the tag's own indentation. */
    method PrintClose(tag: Tag)
      requires |tag.name.name| > 0 && indentation >= 8
      modifies this
      ensures result == old(result) + CloseText(tag, old(indentation) - 8)
      ensures indentation == old(indentation) - 8
    {
      var k := indentation - 8;
      ghost var s0 := result;
      if IsLower(tag.name.name[0]) {
        PopIndentation();
        Println();
        PrintIndentation();
        Print("],");
        PopIndentation();
        Println();
        PrintIndentation();
        Print("})");
        Flatten6(s0, Newline, Spaces(k + 4), "],", Newline, Spaces(k), "})");
      } else {
        Println();
        PopIndentation();
        PrintIndentation();
        Print("],");
        Println();
        PopIndentation();
        PrintIndentation();
        Print("}");
        Flatten6(s0, Newline, Spaces(k + 4), "],", Newline, Spaces(k), "}");
      }
    }

    /** The `for c in &tag.content` loop of `visit_tag`. */
    method VisitContents(content: seq<TagContent>)
      requires forall i :: 0 <= i < |content| ==> WellNamedItem(content[i])
      modifies this
      ensures result == old(result) + ContentsText(content, old(indentation))
      ensures indentation == old(indentation)
      decreases content, 1
    {
      for i := 0 to |content|
        invariant indentation == old(indentation)
        invariant result == old(result) + ContentsText(content[..i], indentation)
      {
        assert content[..i + 1][..i] == content[..i];
        var before := result;
        VisitTagContent(content[i]);
        Print(",");
        AppendAssoc(before, ContentText(content[i], indentation), ",");
        AppendAssoc(old(result), ContentsText(content[..i], indentation), ContentText(content[i], indentation) + ",");
      }
      assert content[..|content|] == content;
    }

    /** The default `visit_tag_properties`: each property in list order. */
    method VisitTagProperties(properties: seq<Property>)
      modifies this`result
      ensures result == old(result) + PropertiesText(properties, indentation)
    {
      for i := 0 to |properties|
        invariant result == old(result) + PropertiesText(properties[..i], indentation)
      {
        assert properties[..i + 1][..i] == properties[..i];
        AppendAssoc(old(result), PropertiesText(properties[..i], indentation), PropertyText(properties[i], indentation));
        VisitTagProperty(properties[i]);
      }
      assert properties[..|properties|] == properties;
    }

    /** The default `visit_tag_content`: a child goes to `visit_tag`, an
        escaped block to `visit_escaped`. */
    method VisitTagContent(item: TagContent)
      requires WellNamedItem(item)
      modifies this
      ensures result == old(result) + ContentText(item, old(indentation))
      ensures indentation == old(indentation)
      decreases item, 0
    {
      match item
      case Child(tag) =>
        VisitTag(tag);
      case Escaped(stream) =>
        VisitEscaped(stream);
    }

    method VisitEscaped(stream: Stream)
      modifies this`result
      ensures result == old(result) + ContentText(Escaped(stream), indentation)
    {
      Println();
      PrintIndentation();
      Print(stream.text);
    }

    method VisitTagProperty(property: Property)
      modifies this`result
      ensures result == old(result) + PropertyText(property, indentation)
    {
      PrintIndentation();
      Print(property.name.name + ": " + property.value.text + ",");
      Println();
    }
  }

  /** A printer that generates the same tree twice returns the first
      text again, followed by a second copy. */
  method GenerateTwice(tag: Tag) returns (first: string, second: string)
    requires WellNamed(tag)
    ensures first == TagText(tag, 0)
    ensures second == first + first
  {
    var printer := new CodePrinter();
    first := printer.Generate(tag);
    second := printer.Generate(tag);
  }
}
