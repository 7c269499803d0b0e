/** What the template parser makes of its input. Written out as
    `<name p={v} ... />` when it has no content and as
    `<name ...> content </name>` otherwise, every tree parses back to
    itself, whatever follows it; a few malformed inputs show where the
    parser is lenient and where it panics. */
module ParserLemmas {
  import opened Ast
  import opened Parser
  import opened Sequences

  function PropertyTokens(p: Property): seq<Token> {
    [Ident(p.name.name), Punct('=', Alone), Group(Brace, p.value)]
  }

  function PropertiesTokens(ps: seq<Property>): seq<Token>
    decreases |ps|
  {
    if |ps| == 0 then [] else PropertyTokens(ps[0]) + PropertiesTokens(ps[1..])
  }

  function CloseTokens(name: Identifier): seq<Token> {
    [Punct('<', Alone), Punct('/', Alone), Ident(name.name), Punct('>', Alone)]
  }

  function TagTokens(t: Tag): (ts: seq<Token>)
    ensures |ts| >= 4 && ts[0] == Punct('<', Alone)
    decreases t
  {
    [Punct('<', Alone), Ident(t.name.name)] + PropertiesTokens(t.properties) +
    if |t.content| == 0 then [Punct('/', Alone), Punct('>', Alone)]
    else [Punct('>', Alone)] + ContentsTokens(t.content) + CloseTokens(t.name)
  }

  function ContentTokens(c: TagContent): (ts: seq<Token>)
    ensures |ts| >= 1 && (c.Child? <==> !ts[0].Group?)
    decreases c
  {
    match c
    case Escaped(s) => [Group(Brace, s)]
    case Child(t) => TagTokens(t)
  }

  function ContentsTokens(cs: seq<TagContent>): seq<Token>
    decreases cs
  {
    if |cs| == 0 then [] else ContentTokens(cs[0]) + ContentsTokens(cs[1..])
  }

  /** A property list followed by anything but an identifier reads back as
      that list, and the loop stops right before what follows. */
  lemma {:induction false} PropertiesRoundTrip(ps: seq<Property>, tail: seq<Token>)
    requires |tail| > 0 && !tail[0].Ident?
    ensures ParseProperties(PropertiesTokens(ps) + tail) == Parsed(tail, ps)
    decreases |ps|
  {
    var input := PropertiesTokens(ps) + tail;
    if |ps| == 0 {
      assert input == tail;
      PropertiesStop(tail);
    } else {
      var more := PropertiesTokens(ps[1..]) + tail;
      AppendAssoc(PropertyTokens(ps[0]), PropertiesTokens(ps[1..]), tail);
      assert input[3..] == more;
      assert ParseProperty(input) == Parsed(more, ps[0]);
      PropertiesStep(input);
      PropertiesRoundTrip(ps[1..], tail);
      HeadTail(ps);
    }
  }

  /** A content list followed by a close tag reads back as that list. */
  lemma {:induction false} ContentsRoundTrip(cs: seq<TagContent>, tail: seq<Token>)
    requires |tail| >= 2 && tail[0] == Punct('<', Alone) && tail[1] == Punct('/', Alone)
    ensures ParseTagContent(ContentsTokens(cs) + tail) == Parsed(tail, cs)
    decreases cs, 0
  {
    var input := ContentsTokens(cs) + tail;
    if |cs| == 0 {
      assert input == tail;
      CloseIsNoItem(tail);
      TagContentStop(tail);
    } else {
      var more := ContentsTokens(cs[1..]) + tail;
      AppendAssoc(ContentTokens(cs[0]), ContentsTokens(cs[1..]), tail);
      ItemRoundTrip(cs[0], more);
      TagContentStep(input);
      ContentsRoundTrip(cs[1..], tail);
      HeadTail(cs);
    }
  }

  lemma {:induction false} ItemRoundTrip(c: TagContent, more: seq<Token>)
    requires |more| > 0
    ensures ParseContentItem(ContentTokens(c) + more) == Parsed(more, c)
    decreases c, 0
  {
    var input := ContentTokens(c) + more;
    match c
    case Escaped(s) =>
      assert input[1..] == more;
    case Child(t) =>
      TagRoundTrip(t, more);
  }

  /** Every tree parses back from its tokens, with what follows left
      unread. */
  lemma {:induction false} TagRoundTrip(t: Tag, rest: seq<Token>)
    ensures ParseTag(TagTokens(t) + rest) == Parsed(rest, t)
    decreases t, 1
  {
    if |t.content| == 0 {
      var input := TagTokens(t) + rest;
      var tail := [Punct('/', Alone), Punct('>', Alone)] + rest;
      TagSplit(t, rest, tail);
      PropertiesRoundTrip(t.properties, tail);
      StandaloneReads(input, t.name.name, t.properties, rest);
    } else {
      ContainerRoundTrip(t, rest);
    }
  }

  /** The container form of the round trip: properties, then the content
      list, then the close tag. */
  lemma {:induction false} ContainerRoundTrip(t: Tag, rest: seq<Token>)
    requires |t.content| > 0
    ensures ParseTag(TagTokens(t) + rest) == Parsed(rest, t)
    decreases t, 0
  {
    var input := TagTokens(t) + rest;
    var close := CloseTokens(t.name) + rest;
    var body := ContentsTokens(t.content) + close;
    var tail := [Punct('>', Alone)] + body;
    TagSplit(t, rest, tail);
    PropertiesRoundTrip(t.properties, tail);
    ContentsRoundTrip(t.content, close);
    CloseRoundTrip(t.name, rest);
    assert tail[1..] == body;
    ContainerReads(input, t.name.name, t.properties, tail, t.content, close, rest);
  }

  /** Where the property tokens of a written-out tag start and end. */
  lemma TagSplit(t: Tag, rest: seq<Token>, tail: seq<Token>)
    requires tail == if |t.content| == 0 then [Punct('/', Alone), Punct('>', Alone)] + rest
                     else [Punct('>', Alone)] + (ContentsTokens(t.content) + (CloseTokens(t.name) + rest))
    ensures |TagTokens(t) + rest| >= 2
    ensures (TagTokens(t) + rest)[0] == Punct('<', Alone) && (TagTokens(t) + rest)[1] == Ident(t.name.name)
    ensures (TagTokens(t) + rest)[2..] == PropertiesTokens(t.properties) + tail
  {
    var props := PropertiesTokens(t.properties);
    var head := [Punct('<', Alone), Ident(t.name.name)];
    var cs := ContentsTokens(t.content);
    var cl := CloseTokens(t.name);
    var x := if |t.content| == 0 then [Punct('/', Alone), Punct('>', Alone)]
             else [Punct('>', Alone)] + cs + cl;
    assert TagTokens(t) == head + props + x;
    AppendAssoc(head + props, x, rest);
    AppendAssoc(head, props, x + rest);
    if |t.content| > 0 {
      AppendAssoc([Punct('>', Alone)] + cs, cl, rest);
      AppendAssoc([Punct('>', Alone)], cs, cl + rest);
    }
    assert x + rest == tail;
    SuffixOf(head, props + tail);
  }

  lemma CloseRoundTrip(name: Identifier, rest: seq<Token>)
    ensures ParseCloseTag(CloseTokens(name) + rest) == Parsed(rest, name)
  {
    var input := CloseTokens(name) + rest;
    assert input[4..] == rest;
  }

  /** `parse` of a written-out tree returns that tree; tokens after it are
      ignored. */
  lemma ParseRoundTrip(t: Tag, rest: seq<Token>)
    ensures ParseTag(TagTokens(t) + rest).Parsed?
    ensures Parse(TagTokens(t) + rest) == t
  {
    TagRoundTrip(t, rest);
  }

  // ---------------------------------------------------------------------
  // Malformed input

  /** `<a` runs the property list into the end of the slice, and the
      unchecked read of the first token panics. */
  lemma UnfinishedTagPanics()
    ensures ParseTag([Punct('<', Alone), Ident("a")]) == Panic
  {
    var input := [Punct('<', Alone), Ident("a")];
    assert input[1..][1..] == [];
    assert ParseProperty([]) == Panic;
    assert ParseProperties([]) == Panic;
  }

  /** The close tag's name is not compared with the open tag's:
      `<a></b>` reads as an `a` tag without content. */
  lemma CloseNameUnchecked()
    ensures ParseTag([Punct('<', Alone), Ident("a"), Punct('>', Alone),
                      Punct('<', Alone), Punct('/', Alone), Ident("b"), Punct('>', Alone)])
         == Parsed([], Tag(Identifier("a"), [], []))
  {
    var input := [Punct('<', Alone), Ident("a"), Punct('>', Alone),
                  Punct('<', Alone), Punct('/', Alone), Ident("b"), Punct('>', Alone)];
    var close := input[3..];
    assert close == CloseTokens(Identifier("b")) + [];
    CloseRoundTrip(Identifier("b"), []);
    assert input[2..][1..] == close;
    PropertiesStop(input[2..]);
    CloseIsNoItem(close);
    TagContentStop(close);
    ContainerReads(input, "a", [], input[2..], [], close, []);
  }

  /** The loop's quirk: a property that uses up the slice is kept, but the
      rest reported still holds its three tokens. */
  lemma LastItemNotConsumed(name: string, value: Stream)
    ensures var input := [Ident(name), Punct('=', Alone), Group(Brace, value)];
      ParseProperties(input) == Parsed(input, [Property(Identifier(name), value)])
  {
    var input := [Ident(name), Punct('=', Alone), Group(Brace, value)];
    assert input[3..] == [];
    assert ParseProperty(input) == Parsed([], Property(Identifier(name), value));
  }
}
