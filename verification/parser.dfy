/** The format-string grammar: literal text is a maximal run without `{`; a placeholder is
    `{name[:digits][?]}`. Each parser is a function from the input to what it leaves unread and
    what it produced, in the combinator style of the source. */
module Parser {
  import opened Errors
  import opened Decimal

  type u8 = x: nat | x < 256

  datatype Tag = Artist | Album | Disc(leading: u8) | Track(leading: u8) | Title | Ext

  datatype Placeholder = Required(tag: Tag) | Optional(tag: Tag) {
    /** `is_optional` */
    predicate IsOptional()
      ensures IsOptional() <==> this == Optional(tag)
    {
      Optional?
    }

    /** `is_tag`: the wrapped tag equals `t`, width included. */
    predicate IsTag(t: Tag)
      ensures IsTag(t) <==> this == Required(t) || this == Optional(t)
    {
      tag == t
    }

    /** `into_tag` */
    function IntoTag(): (t: Tag)
      ensures this == Required(t) || this == Optional(t)
    {
      tag
    }
  }

  datatype BasicComponent = Literal(text: string) | Slot(placeholder: Placeholder)

  datatype FsComponent = Dir(parts: seq<BasicComponent>) | File(parts: seq<BasicComponent>)

  /** The outcome of a parser: the unread input and the value; the recoverable "no match" that
      `alt`, `opt` and `many1` step over; or the panic of an `unwrap`, which nothing recovers from. */
  datatype Parse<+T> = Parsed(rest: string, value: T) | NoMatch | Panic

  predicate HasPrefix(s: string, p: string) { |p| <= |s| && s[..|p|] == p }

  /** `char(c)` would match: the input starts with `c`. */
  predicate StartsWithChar(s: string, c: char) { s != [] && s[0] == c }

  /** The identifiers `tag_ident` tries, in its order. */
  const TagNames: seq<string> := ["ext", "disc", "disk", "track", "title", "album", "artist"]

  /** `tag(name)`: consumes `name` when the input starts with it. */
  function Keyword(name: string, input: string): (r: Parse<string>)
    ensures r.Parsed? <==> HasPrefix(input, name)
    ensures r.Parsed? ==> r.value == name && input == name + r.rest
    ensures !r.Panic?
  {
    if HasPrefix(input, name) then
      assert input == name + input[|name|..];
      Parsed(input[|name|..], name)
    else NoMatch
  }

  /** `alt((a, b))`: the second alternative is taken only when the first does not match. */
  function Alt<T>(a: Parse<T>, b: Parse<T>): Parse<T>
  {
    if a.NoMatch? then b else a
  }

  /** `alt((tag(n0), tag(n1), ...))` over the keywords `names`, tried in order. */
  function FirstKeyword(names: seq<string>, input: string): (r: Parse<string>)
    ensures !r.Panic?
    ensures r.Parsed? ==> r.value in names && input == r.value + r.rest
  {
    if names == [] then NoMatch
    else Alt(Keyword(names[0], input), FirstKeyword(names[1..], input))
  }

  /** `names[k]` is the first keyword of `names` the input starts with. */
  predicate FirstMatchAt(names: seq<string>, input: string, k: nat)
  {
    k < |names| && HasPrefix(input, names[k]) && forall j :: 0 <= j < k ==> !HasPrefix(input, names[j])
  }

  /** The alternation finds the first keyword in order that the input starts with. */
  lemma {:induction false} FirstKeywordAt(names: seq<string>, input: string, k: nat)
    requires FirstMatchAt(names, input, k)
    ensures FirstKeyword(names, input) == Parsed(input[|names[k]|..], names[k])
  {
    if k > 0 {
      assert forall j :: 0 <= j < k - 1 ==> names[1..][j] == names[j + 1];
      FirstKeywordAt(names[1..], input, k - 1);
    }
  }

  /** The alternation fails exactly when the input starts with none of the keywords. */
  lemma {:induction false} FirstKeywordNone(names: seq<string>, input: string)
    ensures FirstKeyword(names, input).NoMatch? <==> forall i :: 0 <= i < |names| ==> !HasPrefix(input, names[i])
  {
    if names != [] {
      FirstKeywordNone(names[1..], input);
      assert forall i :: 1 <= i < |names| ==> names[i] == names[1..][i - 1];
    }
  }

  /** `tag_ident` */
  function TagIdent(input: string): Parse<string>
  {
    FirstKeyword(TagNames, input)
  }

  /** `tag_ident` fails only on input starting with no tag name, and otherwise reads the first
      name in the source's order that the input starts with. */
  lemma TagIdentSpec(input: string, k: nat)
    ensures TagIdent(input).NoMatch? <==> forall i :: 0 <= i < |TagNames| ==> !HasPrefix(input, TagNames[i])
    ensures FirstMatchAt(TagNames, input, k) ==> TagIdent(input) == Parsed(input[|TagNames[k]|..], TagNames[k])
  {
    FirstKeywordNone(TagNames, input);
    if FirstMatchAt(TagNames, input, k) {
      FirstKeywordAt(TagNames, input, k);
    }
  }

  /** The identifier a tag is written with; `disc` stands for both spellings. */
  function TagName(t: Tag): string
  {
    match t
    case Artist => "artist"
    case Album => "album"
    case Disc(_) => "disc"
    case Track(_) => "track"
    case Title => "title"
    case Ext => "ext"
  }

  /** `Tag::from(&str)`: width 0; `disk` gives the same tag as `disc`. The source reaches
      `unreachable!()` for other text, so callers pass only identifiers `tag_ident` accepted. */
  function TagFrom(ident: string): (t: Tag)
    requires ident in TagNames
    ensures TagName(t) == (if ident == "disk" then "disc" else ident)
    ensures (t.Disc? || t.Track?) ==> t.leading == 0
  {
    match ident
    case "artist" => Artist
    case "album" => Album
    case "disc" => Disc(0)
    case "disk" => Disc(0)
    case "track" => Track(0)
    case "title" => Title
    case "ext" => Ext
  }

  /** Length of the longest prefix whose characters all satisfy `keep`. */
  function Span(s: string, keep: char -> bool): (n: nat)
    ensures n <= |s|
    ensures forall i :: 0 <= i < n ==> keep(s[i])
    ensures n < |s| ==> !keep(s[n])
  {
    if s == [] || !keep(s[0]) then 0 else 1 + Span(s[1..], keep)
  }

  lemma {:induction false} SpanStops(d: string, rest: string, keep: char -> bool)
    requires forall i :: 0 <= i < |d| ==> keep(d[i])
    requires rest == [] || !keep(rest[0])
    ensures Span(d + rest, keep) == |d|
  {
    if d == [] {
      assert d + rest == rest;
    } else {
      assert (d + rest)[1..] == d[1..] + rest;
      SpanStops(d[1..], rest, keep);
    }
  }

  predicate HasWidthSuffix(input: string) { |input| >= 2 && input[0] == ':' && IsDigit(input[1]) }

  /** `tag_leading`: an optional `:` followed by one or more digits, read as a u8; without it the
      width is 0 and nothing is consumed. Digits whose value does not fit in a u8 panic. */
  function TagLeading(input: string): (r: Parse<u8>)
    ensures !r.NoMatch?
    ensures r.Parsed? ==> |r.rest| <= |input|
    ensures !HasWidthSuffix(input) ==> r == Parsed(input, 0)
  {
    if HasWidthSuffix(input) then
      var n := Span(input[1..], IsDigit);
      var digits := input[1..1 + n];
      assert AllDigits(digits);
      if Value(digits) < 256 then Parsed(input[1 + n..], Value(digits)) else Panic
    else Parsed(input, 0)
  }

  /** A colon and a maximal run of digits: their value when it fits in a u8, else the panic. */
  lemma {:induction false} TagLeadingDigits(digits: string, rest: string)
    requires |digits| > 0 && AllDigits(digits)
    requires rest == [] || !IsDigit(rest[0])
    ensures TagLeading(":" + digits + rest) == if Value(digits) < 256 then Parsed(rest, Value(digits)) else Panic
  {
    var input := ":" + digits + rest;
    assert input[1..] == digits + rest;
    SpanStops(digits, rest, IsDigit);
    assert input[1..1 + |digits|] == digits;
    assert input[1 + |digits|..] == rest;
  }

  /** `tag_complete`: an identifier, and a width suffix only after `disc`, `disk` or `track`. */
  function TagComplete(input: string): (r: Parse<Tag>)
    ensures r.Parsed? ==> |r.rest| <= |input|
    ensures r.NoMatch? <==> TagIdent(input).NoMatch?
  {
    match TagIdent(input)
    case NoMatch => NoMatch
    case Panic => Panic
    case Parsed(rest, ident) =>
      match TagFrom(ident)
      case Disc(_) =>
        (match TagLeading(rest)
         case Parsed(rest', leading) => Parsed(rest', Disc(leading))
         case _ => Panic)
      case Track(_) =>
        (match TagLeading(rest)
         case Parsed(rest', leading) => Parsed(rest', Track(leading))
         case _ => Panic)
      case tag => Parsed(rest, tag)
  }

  /** `placeholder`: a complete tag, then `?` marks it optional, except after `ext`, where the
      `?` is left unread. */
  function ParsePlaceholder(input: string): (r: Parse<Placeholder>)
    ensures r.Parsed? ==> |r.rest| <= |input|
    ensures r.Parsed? ==> r.value != Optional(Ext)
  {
    match TagComplete(input)
    case NoMatch => NoMatch
    case Panic => Panic
    case Parsed(rest, tag) =>
      if tag == Ext then Parsed(rest, Required(tag))
      else if StartsWithChar(rest, '?') then Parsed(rest[1..], Optional(tag))
      else Parsed(rest, Required(tag))
  }

  /** `placeholder` after a tag it read: the `?` decides the kind, except after `ext`. */
  lemma {:induction false} PlaceholderOfTag(input: string, t: Tag, after: string)
    requires TagComplete(input) == Parsed(after, t)
    ensures ParsePlaceholder(input) ==
      if t != Ext && StartsWithChar(after, '?') then Parsed(after[1..], Optional(t)) else Parsed(after, Required(t))
  {
  }

  predicate NotBrace(c: char) { c != '{' }

  /** A literal as the grammar produces it: non-empty and without `{`. */
  predicate LiteralOk(t: string) { t != "" && '{' !in t }

  predicate ComponentOk(c: BasicComponent)
  {
    match c
    case Literal(t) => LiteralOk(t)
    case Slot(p) => p != Optional(Ext)
  }

  /** `take_till1(|c| c == '{')`, mapped to a literal component. */
  function LiteralComponent(input: string): (r: Parse<BasicComponent>)
    ensures r.NoMatch? <==> input == [] || input[0] == '{'
    ensures r.Parsed? ==> |r.rest| < |input| && r.value.Literal?
  {
    if input == [] || input[0] == '{' then NoMatch
    else
      var n := Span(input, NotBrace);
      Parsed(input[n..], Literal(input[..n]))
  }

  /** The literal read is the maximal run before the next `{`. */
  lemma LiteralComponentSpec(input: string)
    requires LiteralComponent(input).Parsed?
    ensures var r := LiteralComponent(input);
      LiteralOk(r.value.text) && input == r.value.text + r.rest && (r.rest == [] || r.rest[0] == '{')
  {
    var n := Span(input, NotBrace);
    assert input == input[..n] + input[n..];
    assert forall i :: 0 <= i < n ==> input[..n][i] == input[i];
  }

  /** `delimited(char('{'), placeholder, char('}'))`, mapped to a placeholder component. */
  function BracedComponent(input: string): (r: Parse<BasicComponent>)
    ensures r.Parsed? ==> |r.rest| < |input| && StartsWithChar(input, '{') && r.value.Slot? && ComponentOk(r.value)
  {
    if input == [] || input[0] != '{' then NoMatch
    else
      match ParsePlaceholder(input[1..])
      case Parsed(rest, p) =>
        if StartsWithChar(rest, '}') then Parsed(rest[1..], Slot(p)) else NoMatch
      case NoMatch => NoMatch
      case Panic => Panic
  }

  /** `component`: a maximal run of text without `{`, or a placeholder between braces. */
  function Component(input: string): (r: Parse<BasicComponent>)
    ensures r.Parsed? ==> |r.rest| < |input|
  {
    Alt(LiteralComponent(input), BracedComponent(input))
  }

  /** What a component is: a literal exactly when the input does not start with `{`, then running
      to the next `{`; nothing matches on empty input. */
  lemma ComponentSpec(input: string)
    ensures input == [] ==> Component(input).NoMatch?
    ensures Component(input).NoMatch? ==> input == [] || input[0] == '{'
    ensures Component(input).Parsed? ==>
      ComponentOk(Component(input).value) && (Component(input).value.Literal? <==> input[0] != '{')
    ensures Component(input).Parsed? && Component(input).value.Literal? ==>
      input == Component(input).value.text + Component(input).rest
      && (Component(input).rest == [] || Component(input).rest[0] == '{')
  {
    if LiteralComponent(input).Parsed? {
      LiteralComponentSpec(input);
    }
  }

  /** Every component is well formed and no two literals are adjacent. */
  predicate TailOk(cs: seq<BasicComponent>)
  {
    && (forall i :: 0 <= i < |cs| ==> ComponentOk(cs[i]))
    && (forall i :: 0 <= i < |cs| - 1 ==> !(cs[i].Literal? && cs[i + 1].Literal?))
  }

  /** What `parse_format_string` can return: at least one component, each well formed. */
  predicate WellFormed(cs: seq<BasicComponent>) { |cs| > 0 && TailOk(cs) }

  lemma TailOkCons(c: BasicComponent, cs: seq<BasicComponent>)
    requires ComponentOk(c) && TailOk(cs)
    requires cs != [] ==> !(c.Literal? && cs[0].Literal?)
    ensures TailOk([c] + cs)
  {
    var r := [c] + cs;
    assert forall i :: 1 <= i < |r| ==> r[i] == cs[i - 1];
  }

  /** The loop inside `many1` after its first item: repeat `component` until it does not match. */
  function Many(input: string): (r: Parse<seq<BasicComponent>>)
    ensures !r.NoMatch?
    decreases |input|
  {
    match Component(input)
    case NoMatch => Parsed(input, [])
    case Panic => Panic
    case Parsed(rest, c) =>
      match Many(rest)
      case Parsed(rest', cs) => Parsed(rest', [c] + cs)
      case _ => Panic
  }

  /** `many` stops only where no component matches; what it read is well formed, and its first
      component is a literal exactly when the input does not start with `{`. */
  lemma {:induction false} ManySpec(input: string)
    ensures Many(input).Parsed? ==>
      var r := Many(input);
      TailOk(r.value) && Component(r.rest).NoMatch?
      && (r.value == [] ==> r.rest == input)
      && (r.value != [] ==> input != [] && (r.value[0].Literal? <==> input[0] != '{'))
    decreases |input|
  {
    ComponentSpec(input);
    match Component(input)
    case NoMatch =>
    case Panic =>
    case Parsed(rest, c) =>
      ManySpec(rest);
      match Many(rest)
      case Parsed(rest', cs) =>
        if cs != [] {
          ComponentSpec(rest);
        }
        TailOkCons(c, cs);
      case _ =>
  }

  /** `components`, that is `many1(component)`. */
  function Components(input: string): Parse<seq<BasicComponent>>
  {
    match Component(input)
    case NoMatch => NoMatch
    case Panic => Panic
    case Parsed(rest, c) =>
      match Many(rest)
      case Parsed(rest', cs) => Parsed(rest', [c] + cs)
      case _ => Panic
  }

  /** `many1` fails only when not even one component matches; otherwise it reads a well-formed
      list and stops where no component matches. */
  lemma ComponentsSpec(input: string)
    ensures Components(input).NoMatch? <==> Component(input).NoMatch?
    ensures Components(input).Parsed? ==> WellFormed(Components(input).value) && Component(Components(input).rest).NoMatch?
  {
    ComponentSpec(input);
    match Component(input)
    case NoMatch =>
    case Panic =>
    case Parsed(rest, c) =>
      ManySpec(rest);
      match Many(rest)
      case Parsed(rest', cs) =>
        if cs != [] {
          ComponentSpec(rest);
        }
        TailOkCons(c, cs);
      case _ =>
  }

  /** `parse_format_string`: the components, or FailedToParse when not even one component parses
      or input is left over. The width panic surfaces as WidthOverflow. */
  function ParseFormatString(input: string): (r: Result<seq<BasicComponent>>)
    ensures r.Failure? ==> r.error == FailedToParse || r.error == WidthOverflow
  {
    match Components(input)
    case NoMatch => Failure(FailedToParse)
    case Panic => Failure(WidthOverflow)
    case Parsed(rest, cs) => if rest != [] then Failure(FailedToParse) else Success(cs)
  }

  /** A successful parse is well formed; input no component starts on (such as the empty
      string) fails to parse. */
  lemma ParseFormatStringSpec(input: string)
    ensures ParseFormatString(input).Success? ==> WellFormed(ParseFormatString(input).value)
    ensures Component(input).NoMatch? ==> ParseFormatString(input) == Failure(FailedToParse)
    ensures ParseFormatString("") == Failure(FailedToParse)
  {
    ComponentsSpec(input);
    ComponentSpec("");
  }

  // ---------------------------------------------------------------------------------------
  // Rendering components back to text, and the round trip through the parser.

  /** The width a numbered tag carries, 0 for the others. */
  function Leading(t: Tag): u8
  {
    match t
    case Disc(w) => w
    case Track(w) => w
    case _ => 0
  }

  /** The `:digits` suffix of a width; nothing for width 0. */
  function WidthText(w: u8): string
  {
    if w == 0 then "" else ":" + ToDecimal(w)
  }

  function RenderTag(t: Tag): string
  {
    TagName(t) + WidthText(Leading(t))
  }

  function RenderPlaceholder(p: Placeholder): string
  {
    RenderTag(p.tag) + (if p.Optional? then "?" else "")
  }

  function RenderComponent(c: BasicComponent): string
  {
    match c
    case Literal(t) => t
    case Slot(p) => "{" + RenderPlaceholder(p) + "}"
  }

  function Render(cs: seq<BasicComponent>): string
  {
    if cs == [] then "" else RenderComponent(cs[0]) + Render(cs[1..])
  }

  lemma Assoc(a: string, b: string, c: string)
    ensures (a + b) + c == a + (b + c)
  {
  }

  lemma RenderCons(cs: seq<BasicComponent>, tail: string)
    requires cs != []
    ensures Render(cs) + tail == RenderComponent(cs[0]) + (Render(cs[1..]) + tail)
  {
    assert Render(cs) == RenderComponent(cs[0]) + Render(cs[1..]);
    Assoc(RenderComponent(cs[0]), Render(cs[1..]), tail);
  }

  lemma {:induction false} RenderPrepend(c: BasicComponent, cs: seq<BasicComponent>)
    ensures Render([c] + cs) == RenderComponent(c) + Render(cs)
  {
    assert ([c] + cs)[1..] == cs;
  }

  /** Each tag's identifier is read back whatever follows it. */
  lemma {:induction false} TagIdentOfName(t: Tag, rest: string)
    ensures TagIdent(TagName(t) + rest) == Parsed(rest, TagName(t))
  {
    var name := TagName(t);
    var input := name + rest;
    assert input[..|name|] == name;
    assert input[|name|..] == rest;
    assert input[0] == name[0] && input[1] == name[1] && input[2] == name[2];
    var k: nat :=
      match t
      case Ext => 0
      case Disc(_) => 1
      case Track(_) => 3
      case Title => 4
      case Album => 5
      case Artist => 6;
    if t.Title? {
      assert input[3] == name[3];
    }
    FirstKeywordAt(TagNames, input, k);
  }

  /** A rendered width suffix is read back as the width. */
  lemma {:induction false} TagLeadingOfWidth(w: u8, rest: string)
    requires rest == [] || !(IsDigit(rest[0]) || rest[0] == ':')
    ensures TagLeading(WidthText(w) + rest) == Parsed(rest, w)
  {
    if w != 0 {
      var d := ToDecimal(w);
      assert WidthText(w) + rest == ":" + d + rest;
      TagLeadingDigits(d, rest);
    } else {
      assert WidthText(w) + rest == rest;
    }
  }

  /** A rendered tag is read back as that tag when anything but a digit or `:` follows it. */
  lemma {:induction false} TagCompleteOfRender(t: Tag, after: string)
    requires after == [] || !(IsDigit(after[0]) || after[0] == ':')
    ensures TagComplete(RenderTag(t) + after) == Parsed(after, t)
  {
    var suffix := WidthText(Leading(t));
    assert RenderTag(t) + after == TagName(t) + (suffix + after);
    TagIdentOfName(t, suffix + after);
    if t.Disc? || t.Track? {
      assert TagFrom(TagName(t)) == if t.Disc? then Disc(0) else Track(0);
      TagLeadingOfWidth(t.leading, after);
    } else {
      assert suffix + after == after;
      assert TagFrom(TagName(t)) == t;
    }
  }

  lemma {:induction false} OptionalRoundTrip(t: Tag, closing: string)
    requires t != Ext
    ensures ParsePlaceholder(RenderTag(t) + ("?" + closing)) == Parsed(closing, Optional(t))
  {
    var after := "?" + closing;
    TagCompleteOfRender(t, after);
    assert after[1..] == closing;
    PlaceholderOfTag(RenderTag(t) + after, t, after);
  }

  lemma {:induction false} RequiredRoundTrip(t: Tag, closing: string)
    requires StartsWithChar(closing, '}')
    ensures ParsePlaceholder(RenderTag(t) + closing) == Parsed(closing, Required(t))
  {
    TagCompleteOfRender(t, closing);
    PlaceholderOfTag(RenderTag(t) + closing, t, closing);
  }

  lemma {:induction false} PlaceholderRoundTrip(p: Placeholder, more: string)
    requires p != Optional(Ext)
    ensures ParsePlaceholder(RenderPlaceholder(p) + "}" + more) == Parsed("}" + more, p)
  {
    var closing := "}" + more;
    var mark: string := if p.Optional? then "?" else "";
    Assoc(RenderPlaceholder(p), "}", more);
    Assoc(RenderTag(p.tag), mark, closing);
    if p.Optional? {
      OptionalRoundTrip(p.tag, closing);
    } else {
      assert mark + closing == closing;
      RequiredRoundTrip(p.tag, closing);
    }
  }

  lemma {:induction false} LiteralRoundTrip(t: string, rest: string)
    requires LiteralOk(t)
    requires rest == [] || rest[0] == '{'
    ensures LiteralComponent(t + rest) == Parsed(rest, Literal(t))
  {
    var input := t + rest;
    assert forall i :: 0 <= i < |t| ==> NotBrace(t[i]);
    SpanStops(t, rest, NotBrace);
    assert input[..|t|] == t && input[|t|..] == rest;
    assert input[0] == t[0];
  }

  lemma {:induction false} SlotRoundTrip(p: Placeholder, rest: string)
    requires p != Optional(Ext)
    ensures BracedComponent("{" + (RenderPlaceholder(p) + "}" + rest)) == Parsed(rest, Slot(p))
  {
    var input := "{" + (RenderPlaceholder(p) + "}" + rest);
    assert input[1..] == RenderPlaceholder(p) + "}" + rest;
    PlaceholderRoundTrip(p, rest);
    assert ("}" + rest)[1..] == rest;
  }

  lemma {:induction false} ComponentRoundTrip(c: BasicComponent, rest: string)
    requires ComponentOk(c)
    requires c.Literal? ==> rest == [] || rest[0] == '{'
    ensures Component(RenderComponent(c) + rest) == Parsed(rest, c)
  {
    match c
    case Literal(t) =>
      LiteralRoundTrip(t, rest);
    case Slot(p) =>
      var input := RenderComponent(c) + rest;
      assert input == "{" + (RenderPlaceholder(p) + "}" + rest);
      SlotRoundTrip(p, rest);
  }

  /** The components after the first of a well-formed list keep the adjacency rule. */
  lemma {:induction false} NextStartsWithBrace(cs: seq<BasicComponent>, tail: string)
    requires TailOk(cs) && cs != []
    requires cs[|cs| - 1].Literal? ==> tail == [] || tail[0] == '{'
    ensures TailOk(cs[1..])
    ensures cs[1..] != [] && cs[1..][|cs[1..]| - 1].Literal? ==> tail == [] || tail[0] == '{'
    ensures cs[0].Literal? ==> Render(cs[1..]) + tail == [] || (Render(cs[1..]) + tail)[0] == '{'
  {
    assert forall i :: 0 <= i < |cs| - 1 ==> cs[1..][i] == cs[i + 1];
    if cs[0].Literal? && |cs| > 1 {
      assert !cs[1].Literal?;
      assert Render(cs[1..]) == RenderComponent(cs[1]) + Render(cs[1..][1..]);
    }
  }

  /** `many` reads back rendered components and stops at input no component accepts. */
  lemma {:induction false} ManyRoundTrip(cs: seq<BasicComponent>, tail: string)
    requires TailOk(cs)
    requires Component(tail).NoMatch?
    requires cs != [] && cs[|cs| - 1].Literal? ==> tail == [] || tail[0] == '{'
    ensures Many(Render(cs) + tail) == Parsed(tail, cs)
  {
    if cs == [] {
      assert Render(cs) + tail == tail;
    } else {
      var rest := Render(cs[1..]) + tail;
      RenderCons(cs, tail);
      NextStartsWithBrace(cs, tail);
      ComponentRoundTrip(cs[0], rest);
      ManyRoundTrip(cs[1..], tail);
      assert [cs[0]] + cs[1..] == cs;
    }
  }

  /** Components followed by input no component accepts: parsing stops there, and succeeds
      exactly when nothing follows. */
  lemma {:induction false} LeftoverAfter(cs: seq<BasicComponent>, tail: string)
    requires WellFormed(cs)
    requires Component(tail).NoMatch?
    requires cs[|cs| - 1].Literal? ==> tail == [] || tail[0] == '{'
    ensures ParseFormatString(Render(cs) + tail) == if tail == [] then Success(cs) else Failure(FailedToParse)
  {
    ComponentsRoundTrip(cs, tail);
  }

  /** `many1` reads back well-formed components up to input no component accepts. */
  lemma {:induction false} ComponentsRoundTrip(cs: seq<BasicComponent>, tail: string)
    requires WellFormed(cs)
    requires Component(tail).NoMatch?
    requires cs[|cs| - 1].Literal? ==> tail == [] || tail[0] == '{'
    ensures Components(Render(cs) + tail) == Parsed(tail, cs)
  {
    var rest := Render(cs[1..]) + tail;
    RenderCons(cs, tail);
    NextStartsWithBrace(cs, tail);
    ComponentRoundTrip(cs[0], rest);
    ManyRoundTrip(cs[1..], tail);
    ComponentsStep(Render(cs) + tail, rest, tail, cs);
  }

  lemma ComponentsStep(input: string, rest: string, tail: string, cs: seq<BasicComponent>)
    requires cs != []
    requires Component(input) == Parsed(rest, cs[0]) && Many(rest) == Parsed(tail, cs[1..])
    ensures Components(input) == Parsed(tail, cs)
  {
    assert [cs[0]] + cs[1..] == cs;
  }

  /** Parsing the text of well-formed components gives exactly those components back. */
  lemma {:induction false} RoundTrip(cs: seq<BasicComponent>)
    requires WellFormed(cs)
    ensures ParseFormatString(Render(cs)) == Success(cs)
  {
    ComponentSpec("");
    LeftoverAfter(cs, "");
    assert Render(cs) + "" == Render(cs);
  }

  // ---------------------------------------------------------------------------------------
  // Properties the unit tests and the grammar promise.

  /** `disk` is read as the same tag as `disc`, whatever follows. */
  lemma {:induction false} DiskIsDisc(rest: string)
    ensures TagFrom("disk") == TagFrom("disc") == Disc(0)
    ensures TagComplete("disk" + rest) == TagComplete("disc" + rest)
  {
    var a := "disk" + rest;
    assert a[..4] == "disk" && a[4..] == rest && a[3] == 'k' && a[0] == 'd';
    FirstKeywordAt(TagNames, a, 2);
    TagIdentOfName(Disc(0), rest);
  }

  /** A width is read only after `disc`, `disk` and `track`: after other names a `:` is left unread. */
  lemma {:induction false} NoWidthOnPlainTag(t: Tag, rest: string)
    requires !(t.Disc? || t.Track?)
    ensures TagComplete(TagName(t) + rest) == Parsed(rest, t)
  {
    TagIdentOfName(t, rest);
    assert TagFrom(TagName(t)) == t;
  }

  /** `{ext?` never closes: no component starts there, so no format string does either. */
  lemma {:induction false} OptionalExtFails(more: string)
    ensures Component("{ext?" + more).NoMatch?
    ensures ParseFormatString("{ext?" + more) == Failure(FailedToParse)
  {
    var input := "{ext?" + more;
    var after := "?" + more;
    assert input[1..] == RenderTag(Ext) + after;
    TagCompleteOfRender(Ext, after);
    PlaceholderOfTag(input[1..], Ext, after);
    assert !StartsWithChar(after, '}');
    assert BracedComponent(input).NoMatch?;
    ParseFormatStringSpec(input);
  }

  lemma {:induction false} TrackOverflowPanics(digits: string, more: string)
    requires |digits| > 0 && AllDigits(digits) && Value(digits) >= 256
    requires more == [] || !IsDigit(more[0])
    ensures TagComplete("track" + (":" + digits + more)) == Panic
  {
    TagIdentOfName(Track(0), ":" + digits + more);
    TagLeadingDigits(digits, more);
  }

  /** A width whose digits exceed 255 is the source's `unwrap` panic, reported as WidthOverflow. */
  lemma {:induction false} WidthOverflowFails(digits: string, more: string)
    requires |digits| > 0 && AllDigits(digits) && Value(digits) >= 256
    requires more == [] || !IsDigit(more[0])
    ensures ParseFormatString("{track:" + digits + more) == Failure(WidthOverflow)
  {
    var input := "{track:" + digits + more;
    assert input[1..] == "track" + (":" + digits + more);
    TrackOverflowPanics(digits, more);
    assert BracedComponent(input) == Panic;
    assert LiteralComponent(input).NoMatch?;
  }

  // ---------------------------------------------------------------------------------------
  // The unit tests of the parser, as lemmas.

  lemma TagLeadingVectors()
    ensures TagLeading(":2") == Parsed("", 2)
    ensures TagLeading("a:2") == Parsed("a:2", 0)
    ensures TagLeading("?}") == Parsed("?}", 0)
    ensures TagLeading(":2?}") == Parsed("?}", 2)
  {
    TagLeadingDigits("2", "");
    assert ":2" == ":" + "2" + "";
    TagLeadingDigits("2", "?}");
    assert ":2?}" == ":" + "2" + "?}";
  }

  lemma TagCompleteArtist(text: string)
    requires text == "artist"
    ensures TagComplete(text) == Parsed("", Artist)
  {
    var empty: string := [];
    NoWidthOnPlainTag(Artist, empty);
    assert TagName(Artist) == "artist";
    assert text == TagName(Artist) + empty;
  }

  lemma TagCompleteDiscWidth(text: string)
    requires text == "disc:2"
    ensures TagComplete(text) == Parsed("", Disc(2))
  {
    var t := Disc(2);
    var after: string := [];
    TagCompleteOfRender(t, after);
    RenderTagText(t, "disc:2");
    assert text == RenderTag(t) + after;
  }

  lemma TagCompleteTrackWidth(text: string)
    requires text == "track:3?}"
    ensures TagComplete(text) == Parsed("?}", Track(3))
  {
    var t := Track(3);
    var after: string := "?}";
    TagCompleteOfRender(t, after);
    RenderTagText(t, "track:3");
    assert text == RenderTag(t) + after;
  }

  lemma TagCompleteDisk(text: string)
    requires text == "disk"
    ensures TagComplete(text) == Parsed("", Disc(0))
  {
    var empty: string := [];
    DiskIsDisc(empty);
    TagCompleteOfRender(Disc(0), empty);
    RenderTagText(Disc(0), "disc");
    assert text == "disk" + empty;
  }

  lemma PlaceholderOptionalArtist(text: string)
    requires text == "artist?"
    ensures ParsePlaceholder(text) == Parsed("", Optional(Artist))
  {
    var t := Artist;
    var after: string := "?";
    TagCompleteOfRender(t, after);
    RenderTagText(t, "artist");
    assert text == RenderTag(t) + after;
    PlaceholderOfTag(text, t, after);
  }

  lemma PlaceholderRequiredAlbum(text: string)
    requires text == "album}"
    ensures ParsePlaceholder(text) == Parsed("}", Required(Album))
  {
    var t := Album;
    var after: string := "}";
    TagCompleteOfRender(t, after);
    RenderTagText(t, "album");
    assert text == RenderTag(t) + after;
    PlaceholderOfTag(text, t, after);
  }

  lemma PlaceholderOptionalDisc(text: string)
    requires text == "disc:2?"
    ensures ParsePlaceholder(text) == Parsed("", Optional(Disc(2)))
  {
    var t := Disc(2);
    var after: string := "?";
    TagCompleteOfRender(t, after);
    RenderTagText(t, "disc:2");
    assert text == RenderTag(t) + after;
    PlaceholderOfTag(text, t, after);
  }

  lemma PlaceholderOptionalTrack(text: string)
    requires text == "track?}"
    ensures ParsePlaceholder(text) == Parsed("}", Optional(Track(0)))
  {
    var t := Track(0);
    var after: string := "?}";
    TagCompleteOfRender(t, after);
    RenderTagText(t, "track");
    assert text == RenderTag(t) + after;
    PlaceholderOfTag(text, t, after);
  }

  lemma ComponentLiteral(text: string)
    requires text == "foo"
    ensures Component(text) == Parsed("", Literal("foo"))
  {
    var t := "foo";
    var empty: string := [];
    LiteralRoundTrip(t, empty);
    assert text == t + empty;
  }

  lemma ComponentLiteralBeforeBrace(text: string)
    requires text == "foo{artist?}"
    ensures Component(text) == Parsed("{artist?}", Literal("foo"))
  {
    var t := "foo";
    var rest := "{artist?}";
    LiteralRoundTrip(t, rest);
    assert text == t + rest;
  }

  lemma ComponentSlot(text: string)
    requires text == "{artist}"
    ensures Component(text) == Parsed("", Slot(Required(Artist)))
  {
    var c := Slot(Required(Artist));
    var empty: string := [];
    ComponentRoundTrip(c, empty);
    SlotText(c, "{artist}");
    assert text == RenderComponent(c) + empty;
  }

  lemma ComponentSlotWidth(text: string)
    requires text == "{track:2}"
    ensures Component(text) == Parsed("", Slot(Required(Track(2))))
  {
    var c := Slot(Required(Track(2)));
    var empty: string := [];
    ComponentRoundTrip(c, empty);
    SlotText(c, "{track:2}");
    assert text == RenderComponent(c) + empty;
  }

  /** The text of one rendered tag, for the examples above. */
  lemma RenderTagText(t: Tag, shown: string)
    requires (t, shown) in {(Disc(2), "disc:2"), (Track(3), "track:3"), (Artist, "artist"),
                            (Album, "album"), (Track(0), "track"), (Disc(0), "disc")}
    ensures RenderTag(t) == shown
  {
    assert ToDecimal(2) == "2" && ToDecimal(3) == "3";
  }

  /** The text of one rendered slot, for the examples above. */
  lemma SlotText(c: BasicComponent, shown: string)
    requires (c, shown) in {(Slot(Required(Artist)), "{artist}"), (Slot(Required(Track(2))), "{track:2}")}
    ensures RenderComponent(c) == shown
  {
    assert ToDecimal(2) == "2";
  }

  /**
   * The template of the components test, as the parser is expected to return it,
   * written as a chain of one-element prefixes so that rendering it unfolds one
   * component at a time.
   */
  const UsualTemplate: seq<BasicComponent> :=
    [Slot(Required(Artist))] + ([Literal("/")] + ([Slot(Required(Album))] + ([Literal("/")] +
    ([Slot(Optional(Track(2)))] + ([Literal(" - ")] + ([Slot(Required(Title))] + ([Literal(".")] +
    ([Slot(Required(Ext))] + []))))))))

  lemma {:induction false} RenderNine(c0: BasicComponent, c1: BasicComponent, c2: BasicComponent,
                                      c3: BasicComponent, c4: BasicComponent, c5: BasicComponent,
                                      c6: BasicComponent, c7: BasicComponent, c8: BasicComponent)
    ensures Render([c0] + ([c1] + ([c2] + ([c3] + ([c4] + ([c5] + ([c6] + ([c7] + ([c8] + []))))))))) ==
      RenderComponent(c0) + (RenderComponent(c1) + (RenderComponent(c2) + (RenderComponent(c3) +
      (RenderComponent(c4) + (RenderComponent(c5) + (RenderComponent(c6) + (RenderComponent(c7) +
      (RenderComponent(c8) + ""))))))))
  {
    var s8: seq<BasicComponent> := [c8] + [];
    RenderPrepend(c8, []);
    var s7 := [c7] + s8;
    RenderPrepend(c7, s8);
    var s6 := [c6] + s7;
    RenderPrepend(c6, s7);
    var s5 := [c5] + s6;
    RenderPrepend(c5, s6);
    var s4 := [c4] + s5;
    RenderPrepend(c4, s5);
    var s3 := [c3] + s4;
    RenderPrepend(c3, s4);
    var s2 := [c2] + s3;
    RenderPrepend(c2, s3);
    var s1 := [c1] + s2;
    RenderPrepend(c1, s2);
    RenderPrepend(c0, s1);
  }

  lemma ArtistPiece()
    ensures RenderComponent(Slot(Required(Artist))) == "{artist}"
  {
  }

  lemma AlbumPiece()
    ensures RenderComponent(Slot(Required(Album))) == "{album}"
  {
  }

  lemma TrackPiece()
    ensures RenderComponent(Slot(Optional(Track(2)))) == "{track:2?}"
  {
    assert ToDecimal(2) == "2";
  }

  lemma TitlePiece()
    ensures RenderComponent(Slot(Required(Title))) == "{title}"
  {
  }

  lemma ExtPiece()
    ensures RenderComponent(Slot(Required(Ext))) == "{ext}"
  {
  }

  lemma UsualTemplateWellFormed()
    ensures WellFormed(UsualTemplate)
  {
    assert forall i :: 0 <= i < |UsualTemplate| ==> ComponentOk(UsualTemplate[i]);
  }

  lemma UsualTemplateText()
    ensures Render(UsualTemplate) == "{artist}/{album}/{track:2?} - {title}.{ext}"
  {
    RenderNine(Slot(Required(Artist)), Literal("/"), Slot(Required(Album)), Literal("/"), Slot(Optional(Track(2))), Literal(" - "), Slot(Required(Title)), Literal("."), Slot(Required(Ext)));
    ArtistPiece();
    AlbumPiece();
    TrackPiece();
    TitlePiece();
    ExtPiece();
    var back := RenderComponent(Slot(Optional(Track(2)))) + (RenderComponent(Literal(" - ")) + (RenderComponent(Slot(Required(Title))) + (RenderComponent(Literal(".")) + (RenderComponent(Slot(Required(Ext))) + ""))));
    ConcatBack(back, RenderComponent(Slot(Optional(Track(2)))), RenderComponent(Literal(" - ")), RenderComponent(Slot(Required(Title))), RenderComponent(Literal(".")), RenderComponent(Slot(Required(Ext))));
    TemplateHalves();
    ConcatFront(Render(UsualTemplate), RenderComponent(Slot(Required(Artist))), RenderComponent(Literal("/")), RenderComponent(Slot(Required(Album))), RenderComponent(Literal("/")), back);
  }

  lemma ConcatFront(all: string, t0: string, t1: string, t2: string, t3: string, back: string)
    requires all == t0 + (t1 + (t2 + (t3 + back)))
    requires t0 == "{artist}" && t1 == "/" && t2 == "{album}" && t3 == "/"
    ensures all == "{artist}/{album}/" + back
  {
  }

  lemma TemplateHalves()
    ensures "{artist}/{album}/" + "{track:2?} - {title}.{ext}" == "{artist}/{album}/{track:2?} - {title}.{ext}"
  {
  }

  lemma ConcatBack(all: string, t4: string, t5: string, t6: string, t7: string, t8: string)
    requires all == t4 + (t5 + (t6 + (t7 + (t8 + ""))))
    requires t4 == "{track:2?}" && t5 == " - " && t6 == "{title}" && t7 == "." && t8 == "{ext}"
    ensures all == "{track:2?} - {title}.{ext}"
  {
  }

  /** The components test: the usual template parses into its nine components. */
  lemma ComponentsExample(text: string)
    requires text == "{artist}/{album}/{track:2?} - {title}.{ext}"
    ensures ParseFormatString(text) == Success(UsualTemplate)
  {
    UsualTemplateText();
    UsualTemplateWellFormed();
    RoundTrip(UsualTemplate);
  }

  /** Text without placeholders is one literal. */
  lemma WithoutPlaceholders()
    ensures ParseFormatString("hello world") == Success([Literal("hello world")])
  {
    var text := "hello world";
    var cs := [Literal(text)];
    assert cs[1..] == [];
    assert Render(cs) == text + "";
    assert text + "" == text;
    RoundTrip(cs);
  }
}
