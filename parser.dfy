/** hydron-template/src/parser.rs: the template's tag syntax read from a
    slice of token trees, combinator by combinator. Every production either
    succeeds with the unconsumed rest and a value, fails with nom's
    recoverable `Err::Error` (`Mismatch`), or panics: each of the three
    token matchers reads the first token without a length check, so an
    empty slice aborts the whole parse (`Panic`), whatever combinator it
    sits under. */
module Parser {
  import opened Ast

  datatype Spacing = Alone | Joint

  datatype Delimiter = Parenthesis | Brace | Bracket | NoDelimiter

  /** A token tree. A group's inner stream is never looked into by the
      parser, so it is kept as the text it prints as. */
  datatype Token =
    | Punct(ch: char, spacing: Spacing)
    | Ident(text: string)
    | Group(delimiter: Delimiter, stream: Stream)
    | Literal(text: string)

  datatype Outcome<T> = Parsed(rest: seq<Token>, value: T) | Mismatch | Panic

  /** `r` is what is left of `s` after a prefix was consumed. */
  predicate Suffix(r: seq<Token>, s: seq<Token>) {
    |r| <= |s| && r == s[|s| - |r|..]
  }

  /** What is left of what is left of `c` is left of `c`. */
  lemma SuffixTransitive(a: seq<Token>, b: seq<Token>, c: seq<Token>)
    requires Suffix(a, b) && Suffix(b, c)
    ensures Suffix(a, c)
  {
    assert c[|c| - |b|..][|b| - |a|..] == c[|c| - |a|..];
  }

  /** Dropping a prefix leaves a suffix. */
  lemma SuffixDrop(s: seq<Token>, n: nat)
    requires n <= |s|
    ensures Suffix(s[n..], s)
  {
  }

  /** A failure handed on unchanged by the enclosing `do_parse!`. */
  function Fail<T, U>(r: Outcome<T>): (f: Outcome<U>)
    requires !r.Parsed?
    ensures f.Panic? <==> r.Panic?
    ensures !f.Parsed?
  {
    if r.Panic? then Panic else Mismatch
  }

  // ---------------------------------------------------------------------
  // The three token matchers

  function MatchPunct(input: seq<Token>, c: char, spacing: Spacing): (r: Outcome<char>)
    ensures r.Panic? <==> |input| == 0
    ensures r.Parsed? <==> |input| > 0 && input[0] == Punct(c, spacing)
    ensures r.Parsed? ==> r.rest == input[1..] && r.value == c
  {
    if |input| == 0 then Panic
    else match input[0]
      case Punct(ch, s) =>
        if c != ch then Mismatch
        else if spacing != s then Mismatch
        else Parsed(input[1..], ch)
      case _ => Mismatch
  }

  function MatchIdent(input: seq<Token>): (r: Outcome<string>)
    ensures r.Panic? <==> |input| == 0
    ensures r.Parsed? <==> |input| > 0 && input[0].Ident?
    ensures r.Parsed? ==> r.rest == input[1..] && r.value == input[0].text
  {
    if |input| == 0 then Panic
    else match input[0]
      case Ident(text) => Parsed(input[1..], text)
      case _ => Mismatch
  }

  function MatchGroup(input: seq<Token>, delimiter: Delimiter): (r: Outcome<Stream>)
    ensures r.Panic? <==> |input| == 0
    ensures r.Parsed? <==> |input| > 0 && input[0].Group? && input[0].delimiter == delimiter
    ensures r.Parsed? ==> r.rest == input[1..] && r.value == input[0].stream
  {
    if |input| == 0 then Panic
    else match input[0]
      case Group(d, stream) =>
        if delimiter != d then Mismatch
        else Parsed(input[1..], stream)
      case _ => Mismatch
  }

  // ---------------------------------------------------------------------
  // Properties

  /** `name = { value }`. */
  function ParseProperty(input: seq<Token>): (r: Outcome<Property>)
    ensures r.Parsed? <==>
      && |input| >= 3 && input[0].Ident? && input[1] == Punct('=', Alone)
      && input[2].Group? && input[2].delimiter == Brace
    ensures r.Parsed? ==> r.rest == input[3..] && r.value == Property(Identifier(input[0].text), input[2].stream)
    ensures r.Panic? <==>
      || |input| == 0
      || (input[0].Ident? && |input| == 1)
      || (input[0].Ident? && input[1] == Punct('=', Alone) && |input| == 2)
  {
    var name := MatchIdent(input);
    if !name.Parsed? then Fail(name) else
    var eq := MatchPunct(name.rest, '=', Alone);
    if !eq.Parsed? then Fail(eq) else
    var value := MatchGroup(eq.rest, Brace);
    if !value.Parsed? then Fail(value) else
    Parsed(value.rest, Property(Identifier(name.value), value.value))
  }

  /** `many0Tokens!(parse_property)`: properties for as long as they parse.
      A recoverable failure ends the list; an item that leaves nothing, or
      consumes nothing, is kept but the rest reported is the input from
      before it. */
  function ParseProperties(input: seq<Token>): (r: Outcome<seq<Property>>)
    ensures !r.Mismatch?
    ensures r.Parsed? ==> Suffix(r.rest, input) && (|r.rest| > 0 <==> |input| > 0)
    decreases |input|
  {
    var item := ParseProperty(input);
    if item.Panic? then Panic
    else if item.Mismatch? then Parsed(input, [])
    else if |item.rest| == 0 || |item.rest| == |input| then Parsed(input, [item.value])
    else
      var more := ParseProperties(item.rest);
      if more.Panic? then Panic else Parsed(more.rest, [item.value] + more.value)
  }

  // ---------------------------------------------------------------------
  // Tags

  /** `< name properties >`. */
  function ParseOpenTag(input: seq<Token>): (r: Outcome<(Identifier, seq<Property>)>)
    ensures r.Parsed? ==>
      && |input| >= 3 && input[0] == Punct('<', Alone) && input[1].Ident?
      && r.value.0 == Identifier(input[1].text)
      && ParseProperties(input[2..]).Parsed? && ParseProperties(input[2..]).value == r.value.1
      && |ParseProperties(input[2..]).rest| > 0 && ParseProperties(input[2..]).rest[0] == Punct('>', Alone)
      && r.rest == ParseProperties(input[2..]).rest[1..]
      && Suffix(r.rest, input) && |r.rest| < |input| - 2
  {
    var open := MatchPunct(input, '<', Alone);
    if !open.Parsed? then Fail(open) else
    var name := MatchIdent(open.rest);
    if !name.Parsed? then Fail(name) else
    var properties := ParseProperties(name.rest);
    if !properties.Parsed? then Fail(properties) else
    var close := MatchPunct(properties.rest, '>', Alone);
    if !close.Parsed? then Fail(close) else
    SuffixDrop(properties.rest, 1);
    SuffixTransitive(close.rest, properties.rest, input[2..]);
    SuffixTransitive(close.rest, input[2..], input);
    Parsed(close.rest, (Identifier(name.value), properties.value))
  }

  /** `< / name >`; the name is read but not compared with anything. */
  function ParseCloseTag(input: seq<Token>): (r: Outcome<Identifier>)
    ensures r.Parsed? <==>
      && |input| >= 4 && input[0] == Punct('<', Alone) && input[1] == Punct('/', Alone)
      && input[2].Ident? && input[3] == Punct('>', Alone)
    ensures r.Parsed? ==> r.rest == input[4..] && r.value == Identifier(input[2].text)
  {
    var open := MatchPunct(input, '<', Alone);
    if !open.Parsed? then Fail(open) else
    var slash := MatchPunct(open.rest, '/', Alone);
    if !slash.Parsed? then Fail(slash) else
    var name := MatchIdent(slash.rest);
    if !name.Parsed? then Fail(name) else
    var close := MatchPunct(name.rest, '>', Alone);
    if !close.Parsed? then Fail(close) else
    Parsed(close.rest, Identifier(name.value))
  }

  /** `< name properties / >`, a tag without content. */
  function ParseStandaloneTag(input: seq<Token>): (r: Outcome<Tag>)
    ensures r.Parsed? ==>
      && |input| >= 4 && input[0] == Punct('<', Alone) && input[1].Ident?
      && r.value.name == Identifier(input[1].text) && r.value.content == []
      && ParseProperties(input[2..]).Parsed? && ParseProperties(input[2..]).value == r.value.properties
      && |ParseProperties(input[2..]).rest| >= 2
      && ParseProperties(input[2..]).rest[0] == Punct('/', Alone)
      && ParseProperties(input[2..]).rest[1] == Punct('>', Alone)
      && r.rest == ParseProperties(input[2..]).rest[2..]
      && Suffix(r.rest, input) && |r.rest| < |input| - 3
  {
    var open := MatchPunct(input, '<', Alone);
    if !open.Parsed? then Fail(open) else
    var name := MatchIdent(open.rest);
    if !name.Parsed? then Fail(name) else
    var properties := ParseProperties(name.rest);
    if !properties.Parsed? then Fail(properties) else
    var slash := MatchPunct(properties.rest, '/', Alone);
    if !slash.Parsed? then Fail(slash) else
    var close := MatchPunct(slash.rest, '>', Alone);
    if !close.Parsed? then Fail(close) else
    assert close.rest == properties.rest[2..];
    SuffixDrop(properties.rest, 2);
    SuffixTransitive(close.rest, properties.rest, input[2..]);
    SuffixTransitive(close.rest, input[2..], input);
    Parsed(close.rest, Tag(Identifier(name.value), properties.value, []))
  }

  /** `alt!(parse_standalone_tag | parse_container_tag)`: the standalone
      form is tried first; only its recoverable failure lets the container
      form be tried. */
  function ParseTag(input: seq<Token>): (r: Outcome<Tag>)
    ensures r.Parsed? ==> Suffix(r.rest, input) && |r.rest| < |input|
    decreases |input|, 3
  {
    var standalone := ParseStandaloneTag(input);
    if !standalone.Mismatch? then standalone
    else ParseContainerTag(input)
  }

  /** Open tag, content, close tag; the content becomes the tag's. */
  function ParseContainerTag(input: seq<Token>): (r: Outcome<Tag>)
    ensures r.Parsed? ==> Suffix(r.rest, input) && |r.rest| < |input|
    decreases |input|, 2
  {
    var open := ParseOpenTag(input);
    if !open.Parsed? then Fail(open) else
    var content := ParseTagContent(open.rest);
    if !content.Parsed? then Fail(content) else
    var close := ParseCloseTag(content.rest);
    if !close.Parsed? then Fail(close) else
    SuffixDrop(content.rest, 4);
    SuffixTransitive(close.rest, content.rest, open.rest);
    SuffixTransitive(close.rest, open.rest, input);
    Parsed(close.rest, Tag(open.value.0, open.value.1, content.value))
  }

  /** `many0Tokens!(alt!(parse_escaped_group | parse_child_tag))`, with the
      same stopping rules as the property list. */
  function ParseTagContent(input: seq<Token>): (r: Outcome<seq<TagContent>>)
    ensures !r.Mismatch?
    ensures r.Parsed? ==> Suffix(r.rest, input) && (|r.rest| > 0 <==> |input| > 0)
    decreases |input|, 6
  {
    var item := ParseContentItem(input);
    if item.Panic? then Panic
    else if item.Mismatch? then Parsed(input, [])
    else if |item.rest| == 0 || |item.rest| == |input| then Parsed(input, [item.value])
    else
      var more := ParseTagContent(item.rest);
      if more.Panic? then Panic else Parsed(more.rest, [item.value] + more.value)
  }

  /** One content item: a brace group kept verbatim, else a child tag. */
  function ParseContentItem(input: seq<Token>): (r: Outcome<TagContent>)
    ensures r.Parsed? ==> Suffix(r.rest, input) && |r.rest| < |input|
    decreases |input|, 5
  {
    var escaped := MatchGroup(input, Brace);
    if escaped.Parsed? then Parsed(escaped.rest, Escaped(escaped.value))
    else if escaped.Panic? then Panic
    else
      var child := ParseTag(input);
      if !child.Parsed? then Fail(child) else Parsed(child.rest, Child(child.value))
  }

  /** `parse`: the first tag of the slice, trailing tokens ignored; any
      failure is a panic (`unwrap`), so success is the caller's burden. */
  function Parse(tree: seq<Token>): Tag
    requires ParseTag(tree).Parsed?
  {
    ParseTag(tree).value
  }

  // ---------------------------------------------------------------------
  // Each tag production on the shape it reads

  lemma StandaloneReads(input: seq<Token>, name: string, properties: seq<Property>, rest: seq<Token>)
    requires |input| >= 2 && input[0] == Punct('<', Alone) && input[1] == Ident(name)
    requires ParseProperties(input[2..]) == Parsed([Punct('/', Alone), Punct('>', Alone)] + rest, properties)
    ensures ParseTag(input) == ParseStandaloneTag(input) == Parsed(rest, Tag(Identifier(name), properties, []))
  {
    var after := [Punct('/', Alone), Punct('>', Alone)] + rest;
    assert after[2..] == rest;
    StandaloneTagReads(input, name, properties, after);
  }

  lemma StandaloneTagReads(input: seq<Token>, name: string, properties: seq<Property>, after: seq<Token>)
    requires |input| >= 2 && input[0] == Punct('<', Alone) && input[1] == Ident(name)
    requires ParseProperties(input[2..]) == Parsed(after, properties)
    requires |after| >= 2 && after[0] == Punct('/', Alone) && after[1] == Punct('>', Alone)
    ensures ParseStandaloneTag(input) == Parsed(after[2..], Tag(Identifier(name), properties, []))
  {
    assert input[1..][1..] == input[2..];
    assert after[1..][1..] == after[2..];
  }

  /** An open tag ends the standalone attempt, and the container form is
      read instead. */
  lemma ContainerReads(input: seq<Token>, name: string, properties: seq<Property>, after: seq<Token>,
                       content: seq<TagContent>, close: seq<Token>, rest: seq<Token>)
    requires |input| >= 2 && input[0] == Punct('<', Alone) && input[1] == Ident(name)
    requires ParseProperties(input[2..]) == Parsed(after, properties)
    requires |after| >= 1 && after[0] == Punct('>', Alone)
    requires ParseTagContent(after[1..]) == Parsed(close, content)
    requires ParseCloseTag(close).Parsed? && ParseCloseTag(close).rest == rest
    ensures ParseTag(input) == Parsed(rest, Tag(Identifier(name), properties, content))
  {
    assert input[1..][1..] == input[2..];
    assert MatchPunct(after, '/', Alone) == Mismatch;
    assert ParseStandaloneTag(input) == Mismatch;
    assert ParseOpenTag(input) == Parsed(after[1..], (Identifier(name), properties));
  }

  /** `< /` starts neither an escaped block nor a tag. */
  lemma CloseIsNoItem(tail: seq<Token>)
    requires |tail| >= 2 && tail[0] == Punct('<', Alone) && tail[1] == Punct('/', Alone)
    ensures ParseContentItem(tail) == Mismatch
  {
    assert ParseStandaloneTag(tail) == Mismatch;
    assert ParseOpenTag(tail) == Mismatch;
    assert ParseTag(tail) == Mismatch;
  }

  // ---------------------------------------------------------------------
  // The `many0Tokens!` loop

  /** `o` with `items` put in front of the list it carries. */
  function Prepend<T>(items: seq<T>, o: Outcome<seq<T>>): Outcome<seq<T>> {
    match o
    case Parsed(rest, values) => Parsed(rest, items + values)
    case Mismatch => Mismatch
    case Panic => Panic
  }

  lemma PrependTwice<T>(a: seq<T>, b: seq<T>, o: Outcome<seq<T>>)
    ensures Prepend(a, Prepend(b, o)) == Prepend(a + b, o)
  {
    if o.Parsed? {
      assert a + (b + o.value) == a + b + o.value;
    }
  }

  lemma PrependEmpty<T>(o: Outcome<seq<T>>)
    ensures Prepend([], o) == o
  {
    if o.Parsed? {
      assert [] + o.value == o.value;
    }
  }

  /** One more item read by the loop that goes on. */
  lemma PropertiesStep(input: seq<Token>)
    requires ParseProperty(input).Parsed?
    requires 0 < |ParseProperty(input).rest| < |input|
    ensures ParseProperties(input) == Prepend([ParseProperty(input).value], ParseProperties(ParseProperty(input).rest))
  {
  }

  lemma TagContentStep(input: seq<Token>)
    requires ParseContentItem(input).Parsed?
    requires 0 < |ParseContentItem(input).rest| < |input|
    ensures ParseTagContent(input) == Prepend([ParseContentItem(input).value], ParseTagContent(ParseContentItem(input).rest))
  {
  }

  /** A recoverable failure of the first item ends the loop at once. */
  lemma PropertiesStop(input: seq<Token>)
    requires ParseProperty(input).Mismatch?
    ensures ParseProperties(input) == Parsed(input, [])
  {
  }

  lemma TagContentStop(input: seq<Token>)
    requires ParseContentItem(input).Mismatch?
    ensures ParseTagContent(input) == Parsed(input, [])
  {
  }

  lemma PrependNothing<T>(a: seq<T>, rest: seq<Token>)
    ensures Prepend(a, Parsed(rest, [])) == Parsed(rest, a)
  {
    assert a + [] == a;
  }

  /** The loop `parse_properties` expands to: it keeps the items parsed so
      far and the input still to read, and computes `ParseProperties`. */
  method Many0Properties(input: seq<Token>) returns (r: Outcome<seq<Property>>)
    ensures r == ParseProperties(input)
  {
    var items: seq<Property> := [];
    var rest := input;
    PrependEmpty(ParseProperties(input));
    while true
      invariant ParseProperties(input) == Prepend(items, ParseProperties(rest))
      decreases |rest|
    {
      var item := ParseProperty(rest);
      match item {
        case Parsed(i, o) =>
          if |i| == 0 || |i| == |rest| {
            items := items + [o];
            return Parsed(rest, items);
          }
          PropertiesStep(rest);
          PrependTwice(items, [o], ParseProperties(i));
          items := items + [o];
          rest := i;
        case Mismatch =>
          PrependNothing(items, rest);
          return Parsed(rest, items);
        case Panic =>
          return Panic;
      }
    }
  }

  /** The loop `parse_tag_content` expands to, computing `ParseTagContent`. */
  method Many0TagContent(input: seq<Token>) returns (r: Outcome<seq<TagContent>>)
    ensures r == ParseTagContent(input)
  {
    var items: seq<TagContent> := [];
    var rest := input;
    PrependEmpty(ParseTagContent(input));
    while true
      invariant ParseTagContent(input) == Prepend(items, ParseTagContent(rest))
      decreases |rest|
    {
      var item := ParseContentItem(rest);
      match item {
        case Parsed(i, o) =>
          if |i| == 0 || |i| == |rest| {
            items := items + [o];
            return Parsed(rest, items);
          }
          TagContentStep(rest);
          PrependTwice(items, [o], ParseTagContent(i));
          items := items + [o];
          rest := i;
        case Mismatch =>
          PrependNothing(items, rest);
          return Parsed(rest, items);
        case Panic =>
          return Panic;
      }
    }
  }
}
