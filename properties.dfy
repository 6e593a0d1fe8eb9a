/**
  What the serializer promises, proved about the markup functions: the class
  filter, the colour class, the copied attributes, whitelist closure of the
  whole output, the unwrap rule, the shape of inline, block and list output,
  and the trimmed result of the driver.
 */
module SerializerProperties {
  import opened Wrappers
  import opened Dom
  import opened JsString
  import opened Policy
  import opened ColorScan
  import opened Markup
  import opened Serializer

  // ----- The class filter -----

  /** Filtering distributes over concatenation, so it keeps the relative order of the tokens it keeps. */
  lemma {:induction false} FilterAppend(a: seq<string>, b: seq<string>)
    ensures FilterClasses(a + b) == FilterClasses(a) + FilterClasses(b)
    decreases |b|
  {
    if b == [] {
      assert a + b == a;
    } else {
      var init, last := b[..|b| - 1], b[|b| - 1];
      assert a + b == (a + init) + [last];
      assert b == init + [last];
      FilterAppend(a, init);
      ConcatAssoc(FilterClasses(a), FilterClasses(init), if IsStyleClass(last) then [last] else []);
    }
  }

  /** A permitted token is kept as often as it occurs; any other token, the empty one included, is dropped. */
  lemma {:induction false} FilterCount(tokens: seq<string>, t: string)
    ensures multiset(FilterClasses(tokens))[t] == if IsStyleClass(t) then multiset(tokens)[t] else 0
    ensures t in FilterClasses(tokens) <==> t in tokens && IsStyleClass(t)
    decreases |tokens|
  {
    if tokens != [] {
      var init, last := tokens[..|tokens| - 1], tokens[|tokens| - 1];
      assert tokens == init + [last];
      FilterCount(init, t);
    }
  }

  /** A list of permitted tokens passes the filter unchanged. */
  lemma {:induction false} FilterKeepsPermitted(tokens: seq<string>)
    requires forall k | 0 <= k < |tokens| :: IsStyleClass(tokens[k])
    ensures FilterClasses(tokens) == tokens
    decreases |tokens|
  {
    if tokens != [] {
      var init, last := tokens[..|tokens| - 1], tokens[|tokens| - 1];
      assert tokens == init + [last];
      FilterKeepsPermitted(init);
    }
  }

  /** Filtering twice is filtering once. */
  lemma FilterIdempotent(tokens: seq<string>)
    ensures FilterClasses(FilterClasses(tokens)) == FilterClasses(tokens)
  {
    FilterKeepsPermitted(FilterClasses(tokens));
  }

  /** A colour class written in the `class` attribute never survives the filter. */
  lemma FilterDropsColorClasses(tokens: seq<string>, c: string)
    requires IsColorClass(c)
    ensures c !in FilterClasses(tokens)
  {
    ColorClassesAreNotStyleClasses(c);
    FilterCount(tokens, c);
  }

  /** Neither a space nor a line break occurs in `t`. */
  predicate NoLayoutChar(t: string) { forall k | 0 <= k < |t| :: t[k] != ' ' && t[k] != '\n' }

  lemma StyleClassHasNoLayout(t: string)
    requires IsStyleClass(t)
    ensures NoLayoutChar(t)
  {
    if t == "divColorBlu" || t == "divColorYlw" || t == "pBeforeUl" || t == "exempleTextItalic" || t == "ulFleche" {
      LeadingStyleClassesHaveNoLayout(t);
    } else {
      TrailingStyleClassesHaveNoLayout(t);
    }
  }

  lemma LeadingStyleClassesHaveNoLayout(t: string)
    requires t == "divColorBlu" || t == "divColorYlw" || t == "pBeforeUl" || t == "exempleTextItalic" || t == "ulFleche"
    ensures NoLayoutChar(t)
  {
    if t == "divColorBlu" { assert NoLayoutChar("divColorBlu"); }
    if t == "divColorYlw" { assert NoLayoutChar("divColorYlw"); }
    if t == "pBeforeUl" { assert NoLayoutChar("pBeforeUl"); }
    if t == "exempleTextItalic" { assert NoLayoutChar("exempleTextItalic"); }
    if t == "ulFleche" { assert NoLayoutChar("ulFleche"); }
  }

  lemma TrailingStyleClassesHaveNoLayout(t: string)
    requires t == "ulFlecheCount" || t == "surlignJaune" || t == "surlignBleu" || t == "noteinfoInTab"
      || t == "blockquoteEncadreInfo"
    ensures NoLayoutChar(t)
  {
    if t == "ulFlecheCount" { assert NoLayoutChar("ulFlecheCount"); }
    if t == "surlignJaune" { assert NoLayoutChar("surlignJaune"); }
    if t == "surlignBleu" { assert NoLayoutChar("surlignBleu"); }
    if t == "noteinfoInTab" { assert NoLayoutChar("noteinfoInTab"); }
    if t == "blockquoteEncadreInfo" { assert NoLayoutChar("blockquoteEncadreInfo"); }
  }

  lemma ColorClassHasNoLayout(t: string)
    requires IsColorClass(t)
    ensures NoLayoutChar(t)
  {
    if t == "text-bluSmall" { assert NoLayoutChar("text-bluSmall"); }
    if t == "text-yllwDark" { assert NoLayoutChar("text-yllwDark"); }
    if t == "text-purpleSmall" { assert NoLayoutChar("text-purpleSmall"); }
    if t == "text-cuivreDark" { assert NoLayoutChar("text-cuivreDark"); }
    if t == "text-purplDark" { assert NoLayoutChar("text-purplDark"); }
    if t == "text-cuivreSmall" { assert NoLayoutChar("text-cuivreSmall"); }
    if t == "text-bluDark" { assert NoLayoutChar("text-bluDark"); }
  }

  /** No class name of the tables contains a space or a line break. */
  lemma TokenHasNoLayout(t: string)
    requires IsStyleClass(t) || IsColorClass(t)
    ensures ' ' !in t && '\n' !in t
  {
    if IsStyleClass(t) { StyleClassHasNoLayout(t); } else { ColorClassHasNoLayout(t); }
  }

  /**
    A class attribute that already lists only permitted names, joined by single
    spaces, yields the same class list again.
   */
  lemma ClassListIdempotent(attrs: map<string, string>, tokens: seq<string>)
    requires |tokens| >= 1 && forall k | 0 <= k < |tokens| :: IsStyleClass(tokens[k])
    requires "class" in attrs && attrs["class"] == Join(tokens, ' ')
    ensures BlockClasses(attrs) == tokens
  {
    forall k | 0 <= k < |tokens| ensures ' ' !in tokens[k] {
      TokenHasNoLayout(tokens[k]);
    }
    SplitJoin(tokens, ' ');
    FilterKeepsPermitted(tokens);
  }

  // ----- The colour class -----

  /**
    The inline classes are the block classes followed by the colour class, if
    any. Since the filter never keeps a colour class, the colour class is always
    appended, after all filtered tokens.
   */
  lemma InlineClassesShape(attrs: map<string, string>)
    ensures InlineClasses(attrs) == BlockClasses(attrs) +
      match StyleColorClass(attrs) case Some(c) => [c] case None => []
  {
    if StyleColorClass(attrs).Some? {
      FilterDropsColorClasses(ClassTokens(attrs), StyleColorClass(attrs).value);
    }
  }

  /** A colour class occurs at most once among the inline classes, and once exactly when the style names it. */
  lemma ColorClassAtMostOnce(attrs: map<string, string>, c: string)
    requires IsColorClass(c)
    ensures multiset(InlineClasses(attrs))[c] == if StyleColorClass(attrs) == Some(c) then 1 else 0
  {
    InlineClassesShape(attrs);
    ColorClassesAreNotStyleClasses(c);
    FilterCount(ClassTokens(attrs), c);
  }

  /** A block element never carries a colour class, whatever its style says. */
  lemma BlockClassesHaveNoColor(attrs: map<string, string>)
    ensures forall k | 0 <= k < |BlockClasses(attrs)| :: IsStyleClass(BlockClasses(attrs)[k])
    ensures forall k | 0 <= k < |BlockClasses(attrs)| :: !IsColorClass(BlockClasses(attrs)[k])
  {
    var b := BlockClasses(attrs);
    forall k | 0 <= k < |b| ensures !IsColorClass(b[k]) {
      if IsColorClass(b[k]) { ColorClassesAreNotStyleClasses(b[k]); }
    }
  }

  // ----- Copied attributes -----

  /** Every copied attribute is a listed name the element carries, with its value verbatim. */
  lemma {:induction false} PresentAttrsSound(names: seq<string>, attrs: map<string, string>)
    ensures forall k | 0 <= k < |PresentAttrs(names, attrs)| ::
      PresentAttrs(names, attrs)[k].Plain? && PresentAttrs(names, attrs)[k].name in names
      && PresentAttrs(names, attrs)[k].name in attrs
      && PresentAttrs(names, attrs)[k].value == attrs[PresentAttrs(names, attrs)[k].name]
    decreases |names|
  {
    if names != [] {
      PresentAttrsSound(names[..|names| - 1], attrs);
    }
  }

  /** Every listed name the element carries is copied. */
  lemma {:induction false} PresentAttrsComplete(names: seq<string>, attrs: map<string, string>, n: string)
    requires n in names && n in attrs
    ensures Plain(n, attrs[n]) in PresentAttrs(names, attrs)
    decreases |names|
  {
    var init, last := names[..|names| - 1], names[|names| - 1];
    assert names == init + [last];
    if n != last {
      PresentAttrsComplete(init, attrs, n);
    }
  }

  /** The attribute a name contributes: itself with its value when present, nothing when absent. */
  function Copied(n: string, attrs: map<string, string>): seq<Attr>
  {
    if n in attrs then [Plain(n, attrs[n])] else []
  }

  /** An anchor copies `href`, `target`, `rel` in that order and only when present; no other tag copies anything. */
  lemma AnchorAttrsExplicit(tag: string, attrs: map<string, string>)
    ensures AnchorAttrs(tag, attrs) ==
      if tag == "a" then Copied("href", attrs) + Copied("target", attrs) + Copied("rel", attrs) else []
  {
    if tag == "a" {
      var names := ["href", "target", "rel"];
      assert names[..2] == ["href", "target"] && names[..2][..1] == ["href"] && names[..2][..1][..0] == [];
      assert PresentAttrs(names[..1], attrs) == Copied("href", attrs);
      assert PresentAttrs(names[..2], attrs) == Copied("href", attrs) + Copied("target", attrs);
    }
  }

  // ----- Whitelist closure -----

  /** A class token the output may carry: a permitted name or a colour class. */
  predicate TokenPermitted(t: string) { IsStyleClass(t) || IsColorClass(t) }

  /** An emitted attribute is a class list of permitted tokens or a name the tag's table lists. */
  predicate AttrPermitted(tag: string, a: Attr) {
    match a
    case ClassList(tokens) => forall k | 0 <= k < |tokens| :: TokenPermitted(tokens[k])
    case Plain(name, _) => name in AllowedAttrs(tag)
  }

  predicate AttrsPermitted(tag: string, attrs: seq<Attr>) {
    forall k | 0 <= k < |attrs| :: AttrPermitted(tag, attrs[k])
  }

  predicate PiecePermitted(p: Piece) {
    p.Open? ==> AttrsPermitted(p.tag, p.attrs)
  }

  /** Every opening tag of the markup carries only whitelisted classes and attributes. */
  predicate Whitelisted(ps: seq<Piece>) {
    forall k | 0 <= k < |ps| :: PiecePermitted(ps[k])
  }

  lemma WhitelistedAppend(a: seq<Piece>, b: seq<Piece>)
    requires Whitelisted(a) && Whitelisted(b)
    ensures Whitelisted(a + b)
  {
    forall k | 0 <= k < |a + b| ensures PiecePermitted((a + b)[k]) {
      if k < |a| { assert (a + b)[k] == a[k]; } else { assert (a + b)[k] == b[k - |a|]; }
    }
  }

  lemma AttrsPermittedAppend(tag: string, a: seq<Attr>, b: seq<Attr>)
    requires AttrsPermitted(tag, a) && AttrsPermitted(tag, b)
    ensures AttrsPermitted(tag, a + b)
  {
    forall k | 0 <= k < |a + b| ensures AttrPermitted(tag, (a + b)[k]) {
      if k < |a| { assert (a + b)[k] == a[k]; } else { assert (a + b)[k] == b[k - |a|]; }
    }
  }

  /** Each inline class is a permitted name that survived the filter or the colour class of the style. */
  lemma InlineClassesPermitted(attrs: map<string, string>)
    ensures forall k | 0 <= k < |InlineClasses(attrs)| :: TokenPermitted(InlineClasses(attrs)[k])
  {
    InlineClassesShape(attrs);
    var b := BlockClasses(attrs);
    forall k | 0 <= k < |InlineClasses(attrs)| ensures TokenPermitted(InlineClasses(attrs)[k]) {
      if k < |b| { assert InlineClasses(attrs)[k] == b[k]; }
    }
  }

  /** The copied attributes carry names from the tag's table only. */
  lemma AnchorAttrsPermitted(tag: string, attrs: map<string, string>)
    ensures AttrsPermitted(tag, AnchorAttrs(tag, attrs))
  {
    PresentAttrsSound(AllowedAttrs(tag), attrs);
  }

  /** The attributes of an inline element: permitted tokens, a colour class, and the tag's listed names. */
  lemma InlineAttrsPermitted(tag: string, attrs: map<string, string>)
    ensures AttrsPermitted(tag, InlineAttrs(tag, attrs))
  {
    InlineClassesPermitted(attrs);
    AnchorAttrsPermitted(tag, attrs);
    AttrsPermittedAppend(tag, ClassAttrs(InlineClasses(attrs)), AnchorAttrs(tag, attrs));
  }

  /** The attributes of a block element: permitted tokens and the tag's listed names. */
  lemma BlockAttrsPermitted(tag: string, attrs: map<string, string>)
    ensures AttrsPermitted(tag, BlockAttrs(tag, attrs))
  {
    AnchorAttrsPermitted(tag, attrs);
    AttrsPermittedAppend(tag, ClassAttrs(BlockClasses(attrs)), AnchorAttrs(tag, attrs));
  }

  lemma {:induction false} InlineMarkupWhitelisted(cs: seq<Node>)
    ensures Whitelisted(InlineMarkup(cs))
    decreases cs
  {
    if cs != [] {
      InlineMarkupWhitelisted(cs[..|cs| - 1]);
      NodeMarkupWhitelisted(cs[|cs| - 1]);
      WhitelistedAppend(InlineMarkup(cs[..|cs| - 1]), NodeMarkup(cs[|cs| - 1]));
    }
  }

  lemma {:induction false} NodeMarkupWhitelisted(n: Node)
    ensures Whitelisted(NodeMarkup(n))
    decreases n
  {
    match n
    case Text(_) =>
    case Other =>
    case Element(tag, attrs, children) =>
      InlineMarkupWhitelisted(children);
      InlineAttrsPermitted(tag, attrs);
      var a := InlineAttrs(tag, attrs);
      if !(tag == "span" && a == []) {
        WhitelistedAppend([Open(tag, a)], InlineMarkup(children));
        WhitelistedAppend([Open(tag, a)] + InlineMarkup(children), [Close(tag)]);
      }
  }

  lemma {:induction false} BlockMarkupWhitelisted(n: Node, depth: nat)
    requires n.Element?
    ensures Whitelisted(BlockMarkup(n, depth))
    decreases n
  {
    BlockAttrsPermitted(n.tag, n.attrs);
    var a := BlockAttrs(n.tag, n.attrs);
    if IsListTag(n.tag) {
      ListItemsWhitelisted(n.children, depth + 1);
      var head := [Indent(depth), Open(n.tag, a), Newline];
      WhitelistedAppend(head, ListItemsMarkup(n.children, depth + 1));
      WhitelistedAppend(head + ListItemsMarkup(n.children, depth + 1), [Indent(depth), Close(n.tag), Newline]);
    } else {
      InlineMarkupWhitelisted(n.children);
      WhitelistedAppend([Indent(depth), Open(n.tag, a)], InlineMarkup(n.children));
      WhitelistedAppend([Indent(depth), Open(n.tag, a)] + InlineMarkup(n.children), [Close(n.tag), Newline]);
    }
  }

  lemma {:induction false} ListItemsWhitelisted(cs: seq<Node>, depth: nat)
    ensures Whitelisted(ListItemsMarkup(cs, depth))
    decreases cs
  {
    if cs != [] {
      var init, last := cs[..|cs| - 1], cs[|cs| - 1];
      ListItemsWhitelisted(init, depth);
      if IsListItem(last) {
        BlockMarkupWhitelisted(last, depth);
        WhitelistedAppend(ListItemsMarkup(init, depth), BlockMarkup(last, depth));
      } else {
        assert ListItemsMarkup(cs, depth) == ListItemsMarkup(init, depth) + [];
      }
    }
  }

  /** Whitelist closure of the whole output: every tag the driver emits carries only permitted classes and attributes. */
  lemma {:induction false} DocumentWhitelisted(fragment: seq<Node>)
    ensures Whitelisted(DocumentMarkup(fragment))
    decreases |fragment|
  {
    if fragment != [] {
      var init, last := fragment[..|fragment| - 1], fragment[|fragment| - 1];
      DocumentWhitelisted(init);
      if last.Element? {
        BlockMarkupWhitelisted(last, 0);
        WhitelistedAppend(DocumentMarkup(init), BlockMarkup(last, 0));
      } else {
        assert DocumentMarkup(fragment) == DocumentMarkup(init) + [];
      }
    }
  }

  // ----- Inline mode -----

  lemma {:induction false} InlineMarkupAppend(a: seq<Node>, b: seq<Node>)
    ensures InlineMarkup(a + b) == InlineMarkup(a) + InlineMarkup(b)
    decreases |b|
  {
    if b == [] {
      assert a + b == a;
    } else {
      var init, last := b[..|b| - 1], b[|b| - 1];
      assert (a + b)[..|a + b| - 1] == a + init;
      assert (a + b)[|a + b| - 1] == last;
      InlineMarkupAppend(a, init);
      ConcatAssoc(InlineMarkup(a), InlineMarkup(init), NodeMarkup(last));
    }
  }

  /** Inline serialization of a run of siblings is the concatenation of their serializations. */
  lemma InlineHtmlAppend(a: seq<Node>, b: seq<Node>)
    ensures InlineHtml(a + b) == InlineHtml(a) + InlineHtml(b)
  {
    InlineMarkupAppend(a, b);
    RenderAppend(InlineMarkup(a), InlineMarkup(b));
  }

  /** A text node contributes its data verbatim, unescaped; a node that is neither text nor element contributes nothing. */
  lemma InlineLeaves(cs: seq<Node>, data: string)
    ensures InlineHtml(cs + [Text(data)]) == InlineHtml(cs) + data
    ensures InlineHtml(cs + [Other]) == InlineHtml(cs)
  {
    InlineHtmlSnoc(cs, Text(data));
    RenderOne(Chars(data));
    InlineHtmlSnoc(cs, Other);
  }

  /**
    The unwrap rule: a `span` contributes exactly its children's inline markup
    if and only if no class survives the filter and the style names no palette
    colour (a span has no copied attributes).
   */
  lemma SpanUnwrapIff(attrs: map<string, string>, children: seq<Node>)
    ensures NodeMarkup(Element("span", attrs, children)) == InlineMarkup(children)
      <==> BlockClasses(attrs) == [] && StyleColorClass(attrs).None?
  {
    InlineClassesShape(attrs);
    var a := InlineAttrs("span", attrs);
    if a != [] {
      assert |NodeMarkup(Element("span", attrs, children))| == |InlineMarkup(children)| + 2;
    }
  }

  /** Every element but `span` is wrapped in its tags, even with no attributes; `ul` and `ol` included. */
  lemma NonSpanWrapped(tag: string, attrs: map<string, string>, children: seq<Node>)
    requires tag != "span"
    ensures InlineHtml([Element(tag, attrs, children)])
         == OpenTag(tag, RenderAttrs(InlineAttrs(tag, attrs))) + InlineHtml(children) + CloseTag(tag)
  {
    InlineHtmlSnoc([], Element(tag, attrs, children));
    assert [] + [Element(tag, attrs, children)] == [Element(tag, attrs, children)];
    ElementHtml(tag, attrs, children);
  }

  /** The pieces inline mode emits: text and tags, never indentation or a line break. */
  predicate InlinePiece(p: Piece) { p.Chars? || p.Open? || p.Close? }

  predicate AllInline(ps: seq<Piece>) { forall k | 0 <= k < |ps| :: InlinePiece(ps[k]) }

  lemma AllInlineAppend(a: seq<Piece>, b: seq<Piece>)
    requires AllInline(a) && AllInline(b)
    ensures AllInline(a + b)
  {
    forall k | 0 <= k < |a + b| ensures InlinePiece((a + b)[k]) {
      if k < |a| { assert (a + b)[k] == a[k]; } else { assert (a + b)[k] == b[k - |a|]; }
    }
  }

  lemma {:induction false} InlineMarkupHasNoLayout(cs: seq<Node>)
    ensures AllInline(InlineMarkup(cs))
    decreases cs
  {
    if cs != [] {
      InlineMarkupHasNoLayout(cs[..|cs| - 1]);
      NodeMarkupHasNoLayout(cs[|cs| - 1]);
      AllInlineAppend(InlineMarkup(cs[..|cs| - 1]), NodeMarkup(cs[|cs| - 1]));
    }
  }

  lemma {:induction false} NodeMarkupHasNoLayout(n: Node)
    ensures AllInline(NodeMarkup(n))
    decreases n
  {
    match n
    case Text(_) =>
    case Other =>
    case Element(tag, attrs, children) =>
      InlineMarkupHasNoLayout(children);
      var a := InlineAttrs(tag, attrs);
      if !(tag == "span" && a == []) {
        AllInlineAppend([Open(tag, a)], InlineMarkup(children));
        AllInlineAppend([Open(tag, a)] + InlineMarkup(children), [Close(tag)]);
      }
  }

  // ----- Line breaks -----

  predicate AttrNewlineFree(a: Attr) {
    match a
    case ClassList(tokens) => forall k | 0 <= k < |tokens| :: '\n' !in tokens[k]
    case Plain(name, value) => '\n' !in name && '\n' !in value
  }

  /** A piece that renders without a line break; only `Newline` and text or names holding one fail. */
  predicate PieceNewlineFree(p: Piece) {
    match p
    case Chars(text) => '\n' !in text
    case Open(tag, attrs) => '\n' !in tag && forall k | 0 <= k < |attrs| :: AttrNewlineFree(attrs[k])
    case Close(tag) => '\n' !in tag
    case Indent(_) => true
    case Newline => false
  }

  predicate AllNewlineFree(ps: seq<Piece>) { forall k | 0 <= k < |ps| :: PieceNewlineFree(ps[k]) }

  /** A tree whose text, tag names and attribute values hold no line break. */
  predicate TreeNewlineFree(n: Node)
    decreases n
  {
    match n
    case Text(data) => '\n' !in data
    case Other => true
    case Element(tag, attrs, children) =>
      '\n' !in tag && (forall name | name in attrs :: '\n' !in attrs[name])
      && forall i | 0 <= i < |children| :: TreeNewlineFree(children[i])
  }

  lemma {:induction false} JoinKeepsOut(parts: seq<string>, sep: char, c: char)
    requires sep != c && forall k | 0 <= k < |parts| :: c !in parts[k]
    ensures c !in Join(parts, sep)
    decreases |parts|
  {
    if |parts| > 1 {
      JoinKeepsOut(parts[1..], sep, c);
    }
  }

  lemma {:induction false} RenderAttrsNewlineFree(attrs: seq<Attr>)
    requires forall k | 0 <= k < |attrs| :: AttrNewlineFree(attrs[k])
    ensures '\n' !in RenderAttrs(attrs)
    decreases |attrs|
  {
    if attrs != [] {
      RenderAttrsNewlineFree(attrs[..|attrs| - 1]);
      match attrs[|attrs| - 1]
      case ClassList(tokens) => JoinKeepsOut(tokens, ' ', '\n');
      case Plain(_, _) =>
    }
  }

  lemma {:induction false} RenderNewlineFree(ps: seq<Piece>)
    requires AllNewlineFree(ps)
    ensures '\n' !in Render(ps)
    decreases |ps|
  {
    if ps != [] {
      RenderNewlineFree(ps[..|ps| - 1]);
      match ps[|ps| - 1]
      case Open(_, attrs) => RenderAttrsNewlineFree(attrs);
      case Chars(_) =>
      case Close(_) =>
      case Indent(_) =>
    }
  }

  lemma AllNewlineFreeAppend(a: seq<Piece>, b: seq<Piece>)
    requires AllNewlineFree(a) && AllNewlineFree(b)
    ensures AllNewlineFree(a + b)
  {
    forall k | 0 <= k < |a + b| ensures PieceNewlineFree((a + b)[k]) {
      if k < |a| { assert (a + b)[k] == a[k]; } else { assert (a + b)[k] == b[k - |a|]; }
    }
  }

  predicate AttrsNewlineFree(attrs: seq<Attr>) { forall k | 0 <= k < |attrs| :: AttrNewlineFree(attrs[k]) }

  lemma AttrsNewlineFreeAppend(a: seq<Attr>, b: seq<Attr>)
    requires AttrsNewlineFree(a) && AttrsNewlineFree(b)
    ensures AttrsNewlineFree(a + b)
  {
    forall k | 0 <= k < |a + b| ensures AttrNewlineFree((a + b)[k]) {
      if k < |a| { assert (a + b)[k] == a[k]; } else { assert (a + b)[k] == b[k - |a|]; }
    }
  }

  lemma ClassAttrsNewlineFree(classes: seq<string>)
    requires forall k | 0 <= k < |classes| :: TokenPermitted(classes[k])
    ensures AttrsNewlineFree(ClassAttrs(classes))
  {
    forall m | 0 <= m < |classes| ensures '\n' !in classes[m] { TokenHasNoLayout(classes[m]); }
  }

  /** Copied names come from the table, copied values from the element. */
  lemma AnchorAttrsNewlineFree(tag: string, attrs: map<string, string>)
    requires forall name | name in attrs :: '\n' !in attrs[name]
    ensures AttrsNewlineFree(AnchorAttrs(tag, attrs))
  {
    PresentAttrsSound(AllowedAttrs(tag), attrs);
  }

  lemma InlineAttrsNewlineFree(tag: string, attrs: map<string, string>)
    requires forall name | name in attrs :: '\n' !in attrs[name]
    ensures AttrsNewlineFree(InlineAttrs(tag, attrs))
  {
    InlineClassesPermitted(attrs);
    ClassAttrsNewlineFree(InlineClasses(attrs));
    AnchorAttrsNewlineFree(tag, attrs);
    AttrsNewlineFreeAppend(ClassAttrs(InlineClasses(attrs)), AnchorAttrs(tag, attrs));
  }

  lemma BlockAttrsNewlineFree(tag: string, attrs: map<string, string>)
    requires forall name | name in attrs :: '\n' !in attrs[name]
    ensures AttrsNewlineFree(BlockAttrs(tag, attrs))
  {
    ClassAttrsNewlineFree(BlockClasses(attrs));
    AnchorAttrsNewlineFree(tag, attrs);
    AttrsNewlineFreeAppend(ClassAttrs(BlockClasses(attrs)), AnchorAttrs(tag, attrs));
  }

  lemma {:induction false} InlineMarkupNewlineFree(cs: seq<Node>)
    requires forall i | 0 <= i < |cs| :: TreeNewlineFree(cs[i])
    ensures AllNewlineFree(InlineMarkup(cs))
    decreases cs
  {
    if cs != [] {
      InlineMarkupNewlineFree(cs[..|cs| - 1]);
      NodeMarkupNewlineFree(cs[|cs| - 1]);
      AllNewlineFreeAppend(InlineMarkup(cs[..|cs| - 1]), NodeMarkup(cs[|cs| - 1]));
    }
  }

  lemma {:induction false} NodeMarkupNewlineFree(n: Node)
    requires TreeNewlineFree(n)
    ensures AllNewlineFree(NodeMarkup(n))
    decreases n
  {
    match n
    case Text(_) =>
    case Other =>
    case Element(tag, attrs, children) =>
      InlineMarkupNewlineFree(children);
      var a := InlineAttrs(tag, attrs);
      if !(tag == "span" && a == []) {
        InlineAttrsNewlineFree(tag, attrs);
        AllNewlineFreeAppend([Open(tag, a)], InlineMarkup(children));
        AllNewlineFreeAppend([Open(tag, a)] + InlineMarkup(children), [Close(tag)]);
      }
  }

  /** Inline mode adds no line break: its output holds one only where the tree's text or attributes do. */
  lemma InlineHtmlHasNoNewline(cs: seq<Node>)
    requires forall i | 0 <= i < |cs| :: TreeNewlineFree(cs[i])
    ensures '\n' !in InlineHtml(cs)
  {
    InlineMarkupNewlineFree(cs);
    RenderNewlineFree(InlineMarkup(cs));
  }

  // ----- Block mode -----

  /**
    A block that is not a list is one line: indentation, the opening tag with
    its block attributes, the inline serialization of its children, the closing
    tag and a line break.
   */
  lemma BlockIsOneLine(n: Node, depth: nat)
    requires n.Element? && !IsListTag(n.tag)
    ensures Render(BlockMarkup(n, depth)) == Pad(depth) + OpenTag(n.tag, RenderAttrs(BlockAttrs(n.tag, n.attrs)))
      + InlineHtml(n.children) + CloseTag(n.tag) + "\n"
  {
    BlockLineText(n.tag, BlockAttrs(n.tag, n.attrs), depth, InlineMarkup(n.children));
  }

  lemma LineHasOneNewline(pad: string, tag: string, attrText: string, inner: string)
    requires '\n' !in pad && '\n' !in tag && '\n' !in attrText && '\n' !in inner
    ensures var r := pad + OpenTag(tag, attrText) + inner + CloseTag(tag) + "\n";
      r[|r| - 1] == '\n' && '\n' !in r[..|r| - 1]
  {
    var line := pad + OpenTag(tag, attrText) + inner + CloseTag(tag);
    assert (line + "\n")[..|line|] == line;
  }

  /** The final line break of such a block is its only one when the tree holds none. */
  lemma BlockLineHasOneNewline(n: Node, depth: nat)
    requires n.Element? && !IsListTag(n.tag) && TreeNewlineFree(n)
    ensures var r := Render(BlockMarkup(n, depth));
      r != [] && r[|r| - 1] == '\n' && '\n' !in r[..|r| - 1]
  {
    var a := BlockAttrs(n.tag, n.attrs);
    BlockIsOneLine(n, depth);
    BlockAttrsNewlineFree(n.tag, n.attrs);
    RenderAttrsNewlineFree(a);
    InlineHtmlHasNoNewline(n.children);
    assert forall k | 0 <= k < |Pad(depth)| :: Pad(depth)[k] != '\n';
    LineHasOneNewline(Pad(depth), n.tag, RenderAttrs(a), InlineHtml(n.children));
  }

  /**
    A list opens on its own line, puts its items one level deeper, and closes
    on its own line at its own indentation.
   */
  lemma ListBlockShape(n: Node, depth: nat)
    requires n.Element? && IsListTag(n.tag)
    ensures Render(BlockMarkup(n, depth)) == Pad(depth) + OpenTag(n.tag, RenderAttrs(BlockAttrs(n.tag, n.attrs))) + "\n"
      + Render(ListItemsMarkup(n.children, depth + 1)) + Pad(depth) + CloseTag(n.tag) + "\n"
  {
    ListBlockText(n.tag, BlockAttrs(n.tag, n.attrs), depth, ListItemsMarkup(n.children, depth + 1));
  }

  /** The `li` element children, in order. */
  function ListItemChildren(cs: seq<Node>): seq<Node>
  {
    if cs == [] then []
    else
      var init, last := cs[..|cs| - 1], cs[|cs| - 1];
      ListItemChildren(init) + if IsListItem(last) then [last] else []
  }

  lemma {:induction false} ListItemChildrenAreTheItems(cs: seq<Node>)
    ensures forall k | 0 <= k < |ListItemChildren(cs)| :: IsListItem(ListItemChildren(cs)[k]) && ListItemChildren(cs)[k] in cs
    ensures forall c | c in cs && IsListItem(c) :: c in ListItemChildren(cs)
    decreases |cs|
  {
    if cs != [] {
      var init, last := cs[..|cs| - 1], cs[|cs| - 1];
      assert cs == init + [last];
      ListItemChildrenAreTheItems(init);
    }
  }

  /**
    The items keep document order and multiplicity: the items of a
    concatenation are the items of each part, concatenated, and a single child
    is its own item exactly when it is an `li` element.
   */
  lemma {:induction false} ListItemChildrenAppend(a: seq<Node>, b: seq<Node>)
    ensures ListItemChildren(a + b) == ListItemChildren(a) + ListItemChildren(b)
    decreases |b|
  {
    if b == [] {
      assert a + b == a;
    } else {
      var init, last := b[..|b| - 1], b[|b| - 1];
      assert a + b == (a + init) + [last];
      assert b == init + [last];
      ListItemChildrenAppend(a, init);
      ConcatAssoc(ListItemChildren(a), ListItemChildren(init), if IsListItem(last) then [last] else []);
    }
  }

  lemma ListItemChildOne(c: Node)
    ensures ListItemChildren([c]) == if IsListItem(c) then [c] else []
  {
    assert [c][..0] == [];
  }

  /** A list's children other than `li` elements contribute nothing. */
  lemma {:induction false} ListItemsSkipOthers(cs: seq<Node>, depth: nat)
    ensures ListItemsMarkup(cs, depth) == ListItemsMarkup(ListItemChildren(cs), depth)
    decreases |cs|
  {
    if cs != [] {
      var init, last := cs[..|cs| - 1], cs[|cs| - 1];
      var r := ListItemChildren(init);
      ListItemsSkipOthers(init, depth);
      if IsListItem(last) {
        assert (r + [last])[..|r|] == r;
      } else {
        assert ListItemChildren(cs) == r + [] == r;
        assert ListItemsMarkup(cs, depth) == ListItemsMarkup(init, depth) + [] == ListItemsMarkup(init, depth);
      }
    }
  }

  /** Whatever its style, a block's class list holds permitted names only, so never a colour class. */
  lemma BlockNeverColored(n: Node, depth: nat)
    requires n.Element?
    ensures BlockMarkup(n, depth)[1] == Open(n.tag, ClassAttrs(BlockClasses(n.attrs)) + AnchorAttrs(n.tag, n.attrs))
    ensures forall k | 0 <= k < |BlockClasses(n.attrs)| :: !IsColorClass(BlockClasses(n.attrs)[k])
  {
    BlockClassesHaveNoColor(n.attrs);
  }

  // ----- The driver -----

  /** The element nodes of the fragment, in order. */
  function ElementChildren(fragment: seq<Node>): seq<Node>
  {
    if fragment == [] then []
    else
      var init, last := fragment[..|fragment| - 1], fragment[|fragment| - 1];
      ElementChildren(init) + if last.Element? then [last] else []
  }

  /** Top-level text and other non-elements are ignored. */
  lemma {:induction false} DocumentIgnoresNonElements(fragment: seq<Node>)
    ensures DocumentMarkup(fragment) == DocumentMarkup(ElementChildren(fragment))
    decreases |fragment|
  {
    if fragment != [] {
      var init, last := fragment[..|fragment| - 1], fragment[|fragment| - 1];
      var r := ElementChildren(init);
      DocumentIgnoresNonElements(init);
      if last.Element? {
        assert (r + [last])[..|r|] == r;
      } else {
        assert ElementChildren(fragment) == r + [] == r;
        assert DocumentMarkup(fragment) == DocumentMarkup(init) + [] == DocumentMarkup(init);
      }
    }
  }

  /** A rendering that opens with `<` and ends in `>` and a line break. */
  predicate Framed(r: string) { |r| >= 2 && r[0] == '<' && r[|r| - 2] == '>' && r[|r| - 1] == '\n' }

  lemma FramedTags(tag: string, attrText: string, mid: string)
    ensures Framed(OpenTag(tag, attrText) + mid + CloseTag(tag) + "\n")
  {
    var r := OpenTag(tag, attrText) + mid + CloseTag(tag) + "\n";
    assert r == "<" + (tag + attrText + ">" + mid + "</" + tag) + ">\n";
  }

  lemma FramedAppend(a: string, b: string)
    requires a == "" || Framed(a)
    requires Framed(b)
    ensures Framed(a + b)
  {
    if a == "" { assert a + b == b; } else { assert (a + b)[0] == a[0]; }
  }

  /*
    The top-level lemmas below take the block depth (and, in `Unindented`, the
    indentation) as a parameter fixed by `requires depth == 0` rather than as
    the literal `0`. With the literal, the verifier unfolds the markup at every
    depth it can name; with the parameter, the terms stay those of
    `BlockMarkup(n, depth)` and the value enters only through plain string
    facts. Callers pass `0`.
   */

  /** A top-level block starts with its opening tag and ends with its closing tag and a line break. */
  lemma Unindented(pad: string, o: string, items: string, c: string)
    requires pad == ""
    ensures pad + o + "\n" + items + pad + c + "\n" == o + ("\n" + items) + c + "\n"
  {
    assert pad + o == o;
    assert o + "\n" + items + pad == o + ("\n" + items);
  }

  lemma BlockFramedAt(n: Node, depth: nat)
    requires n.Element? && depth == 0
    ensures Framed(Render(BlockMarkup(n, depth)))
  {
    var a := RenderAttrs(BlockAttrs(n.tag, n.attrs));
    if IsListTag(n.tag) {
      var items := Render(ListItemsMarkup(n.children, depth + 1));
      ListBlockShape(n, depth);
      Unindented(Pad(depth), OpenTag(n.tag, a), items, CloseTag(n.tag));
      FramedTags(n.tag, a, "\n" + items);
    } else {
      BlockIsOneLine(n, depth);
      assert Pad(depth) + OpenTag(n.tag, a) == OpenTag(n.tag, a);
      FramedTags(n.tag, a, InlineHtml(n.children));
    }
  }

  lemma BlockFramed(n: Node)
    requires n.Element?
    ensures Framed(Render(BlockMarkup(n, 0)))
  {
    BlockFramedAt(n, 0);
  }


  /** The concatenated blocks are empty or framed. */
  lemma {:induction false} DocumentFramedOrEmpty(fragment: seq<Node>)
    ensures Render(DocumentMarkup(fragment)) == "" || Framed(Render(DocumentMarkup(fragment)))
    decreases |fragment|
  {
    if fragment != [] {
      var init, last := fragment[..|fragment| - 1], fragment[|fragment| - 1];
      assert fragment == init + [last];
      DocumentFramedOrEmpty(init);
      DocumentSnoc(init, last);
      var ri := Render(DocumentMarkup(init));
      if last.Element? {
        BlockFramed(last);
        FramedAppend(ri, Render(BlockMarkup(last, 0)));
      } else {
        assert ri + "" == ri;
      }
    }
  }

  /** The concatenated blocks are empty exactly when there is no element, and framed otherwise. */
  lemma {:induction false} DocumentFramed(fragment: seq<Node>)
    ensures Render(DocumentMarkup(fragment)) == "" <==> forall k | 0 <= k < |fragment| :: !fragment[k].Element?
    ensures Render(DocumentMarkup(fragment)) != "" ==> Framed(Render(DocumentMarkup(fragment)))
    decreases |fragment|
  {
    DocumentFramedOrEmpty(fragment);
    if fragment != [] {
      var init, last := fragment[..|fragment| - 1], fragment[|fragment| - 1];
      assert fragment == init + [last];
      DocumentFramed(init);
      DocumentSnoc(init, last);
      if last.Element? {
        BlockFramed(last);
      }
    }
  }


  /** The text without its last character, the empty text unchanged. */
  function DropLast(r: string): string
  {
    if r == "" then "" else r[..|r| - 1]
  }

  lemma TrimFramed(r: string)
    requires r == "" || Framed(r)
    ensures Trim(r) == DropLast(r)
  {
    if r == "" {
      assert TrimStart(r) == r && TrimEnd(r) == r;
    } else {
      assert !IsJsSpace(r[0]) && IsJsSpace(r[|r| - 1]) && !IsJsSpace(r[|r| - 2]);
      TrimDropsFinalSpace(r);
    }
  }

  /** The final `trim()` removes exactly the last line break, and nothing at all from the empty result. */
  lemma PrettyDropsFinalNewline(fragment: seq<Node>)
    ensures Pretty(fragment) == DropLast(Render(DocumentMarkup(fragment)))
  {
    DocumentFramedOrEmpty(fragment);
    TrimFramed(Render(DocumentMarkup(fragment)));
  }

  /** The result is empty exactly when the fragment has no element; otherwise it starts with `<` and ends with `>`, no line break. */
  lemma PrettyEmptyIffNoElement(fragment: seq<Node>)
    ensures Pretty(fragment) == "" <==> forall k | 0 <= k < |fragment| :: !fragment[k].Element?
    ensures Pretty(fragment) != "" ==>
      Pretty(fragment)[0] == '<' && Pretty(fragment)[|Pretty(fragment)| - 1] == '>'
  {
    PrettyDropsFinalNewline(fragment);
    DocumentFramed(fragment);
    DropFrame(Pretty(fragment), Render(DocumentMarkup(fragment)));
  }

  lemma DropFrame(p: string, r: string)
    requires p == DropLast(r)
    requires r != "" ==> Framed(r)
    ensures p == "" <==> r == ""
    ensures p != "" ==> p[0] == '<' && p[|p| - 1] == '>'
  {
  }
}
