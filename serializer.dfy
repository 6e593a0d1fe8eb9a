/**
  The sanitising pretty-printer: `serializeInline`, `serializeBlock` and
  `prettyHTML`. The functions give the markup each produces; the methods are
  the accumulating loops, each proved to yield the rendering of that markup.
 */
module Serializer {
  import opened Wrappers
  import opened Dom
  import opened JsString
  import opened Policy
  import opened ColorScan
  import opened Markup

  // ----- Attribute computation -----

  /** `getAttribute('class').split(' ')`, or no tokens when there is no class attribute. */
  function ClassTokens(attrs: map<string, string>): seq<string>
  {
    if "class" in attrs then Split(attrs["class"], ' ') else []
  }

  /** `.filter(cls => STYLE_CLASSES.includes(cls))`: keeps permitted tokens, in order, duplicates included. */
  function FilterClasses(tokens: seq<string>): (r: seq<string>)
    ensures |r| <= |tokens|
    ensures forall k | 0 <= k < |r| :: IsStyleClass(r[k])
  {
    if tokens == [] then []
    else
      var init, last := tokens[..|tokens| - 1], tokens[|tokens| - 1];
      assert tokens == init + [last];
      FilterClasses(init) + if IsStyleClass(last) then [last] else []
  }

  /** The colour class named by the first `color:#hex` the `style` attribute contains, if the palette has it. */
  function StyleColorClass(attrs: map<string, string>): (r: Option<string>)
    ensures r.Some? ==> "style" in attrs && IsColorClass(r.value)
  {
    if "style" !in attrs then None
    else
      match FindColor(attrs["style"])
      case None => None
      case Some(hex) => ColorClassFor(LowerAsciiString(hex))
  }

  /** The classes of an inline element: filtered tokens, then the style's colour class unless already present. */
  function InlineClasses(attrs: map<string, string>): seq<string>
  {
    var allowed := FilterClasses(ClassTokens(attrs));
    match StyleColorClass(attrs)
    case Some(c) => if c in allowed then allowed else allowed + [c]
    case None => allowed
  }

  /** The classes of a block element: filtered tokens only, the style is not consulted. */
  function BlockClasses(attrs: map<string, string>): seq<string>
  {
    FilterClasses(ClassTokens(attrs))
  }

  /** A class attribute is emitted only when some class survived. */
  function ClassAttrs(classes: seq<string>): seq<Attr>
  {
    if |classes| > 0 then [ClassList(classes)] else []
  }

  /** The listed attributes the element carries, in list order, values copied verbatim. */
  function PresentAttrs(names: seq<string>, attrs: map<string, string>): seq<Attr>
  {
    if names == [] then []
    else
      var init, last := names[..|names| - 1], names[|names| - 1];
      PresentAttrs(init, attrs) + if last in attrs then [Plain(last, attrs[last])] else []
  }

  function AnchorAttrs(tag: string, attrs: map<string, string>): seq<Attr>
  {
    PresentAttrs(AllowedAttrs(tag), attrs)
  }

  function InlineAttrs(tag: string, attrs: map<string, string>): seq<Attr>
  {
    ClassAttrs(InlineClasses(attrs)) + AnchorAttrs(tag, attrs)
  }

  function BlockAttrs(tag: string, attrs: map<string, string>): seq<Attr>
  {
    ClassAttrs(BlockClasses(attrs)) + AnchorAttrs(tag, attrs)
  }

  // ----- Inline mode -----

  /** The inline markup of a run of sibling nodes, in document order. */
  function InlineMarkup(cs: seq<Node>): seq<Piece>
    decreases cs
  {
    if cs == [] then [] else InlineMarkup(cs[..|cs| - 1]) + NodeMarkup(cs[|cs| - 1])
  }

  /** Text is copied, other non-elements vanish, an attribute-less span is unwrapped, any other element is wrapped. */
  function NodeMarkup(n: Node): seq<Piece>
    decreases n
  {
    match n
    case Text(data) => [Chars(data)]
    case Other => []
    case Element(tag, attrs, children) =>
      var a := InlineAttrs(tag, attrs);
      if tag == "span" && a == [] then InlineMarkup(children)
      else [Open(tag, a)] + InlineMarkup(children) + [Close(tag)]
  }

  /** What `serializeInline` returns for an element with these children. */
  function InlineHtml(cs: seq<Node>): string
  {
    Render(InlineMarkup(cs))
  }

  // ----- Block mode and the driver -----

  predicate IsListTag(tag: string) { tag == "ul" || tag == "ol" }

  predicate IsListItem(n: Node) { n.Element? && n.tag == "li" }

  /** A list puts its items on their own lines one level deeper; any other block is one line. */
  function BlockMarkup(n: Node, depth: nat): seq<Piece>
    requires n.Element?
    decreases n
  {
    var a := BlockAttrs(n.tag, n.attrs);
    if IsListTag(n.tag) then
      [Indent(depth), Open(n.tag, a), Newline] + ListItemsMarkup(n.children, depth + 1)
        + [Indent(depth), Close(n.tag), Newline]
    else
      [Indent(depth), Open(n.tag, a)] + InlineMarkup(n.children) + [Close(n.tag), Newline]
  }

  /** The `li` element children as blocks at `depth`; every other child is skipped. */
  function ListItemsMarkup(cs: seq<Node>, depth: nat): seq<Piece>
    decreases cs
  {
    if cs == [] then []
    else
      var init, last := cs[..|cs| - 1], cs[|cs| - 1];
      ListItemsMarkup(init, depth) + if IsListItem(last) then BlockMarkup(last, depth) else []
  }

  /** The element nodes of the parsed fragment as top-level blocks; text at the top is ignored. */
  function DocumentMarkup(fragment: seq<Node>): seq<Piece>
  {
    if fragment == [] then []
    else
      var init, last := fragment[..|fragment| - 1], fragment[|fragment| - 1];
      DocumentMarkup(init) + if last.Element? then BlockMarkup(last, 0) else []
  }

  /** What `prettyHTML` returns for the nodes the HTML parses into. */
  function Pretty(fragment: seq<Node>): string
  {
    Trim(Render(DocumentMarkup(fragment)))
  }

  // ----- Rendering helpers -----

  lemma RenderWrapped(tag: string, a: seq<Attr>, inner: seq<Piece>)
    ensures Render([Open(tag, a)] + inner + [Close(tag)])
         == OpenTag(tag, RenderAttrs(a)) + Render(inner) + CloseTag(tag)
  {
    RenderAppend([Open(tag, a)] + inner, [Close(tag)]);
    RenderAppend([Open(tag, a)], inner);
    RenderOne(Open(tag, a));
    RenderOne(Close(tag));
  }

  /** The text one inline element contributes, in the terms of lines 186-191. */
  lemma ElementHtml(tag: string, attrs: map<string, string>, children: seq<Node>)
    ensures var a := RenderAttrs(InlineAttrs(tag, attrs));
      Render(NodeMarkup(Element(tag, attrs, children)))
        == if tag == "span" && a == "" then InlineHtml(children)
           else OpenTag(tag, a) + InlineHtml(children) + CloseTag(tag)
  {
    RenderAttrsEmpty(InlineAttrs(tag, attrs));
    RenderWrapped(tag, InlineAttrs(tag, attrs), InlineMarkup(children));
  }

  lemma ListItemsSnoc(cs: seq<Node>, c: Node, depth: nat)
    ensures Render(ListItemsMarkup(cs + [c], depth))
         == Render(ListItemsMarkup(cs, depth)) + if IsListItem(c) then Render(BlockMarkup(c, depth)) else ""
  {
    assert (cs + [c])[..|cs|] == cs;
    if IsListItem(c) {
      RenderAppend(ListItemsMarkup(cs, depth), BlockMarkup(c, depth));
    } else {
      assert ListItemsMarkup(cs + [c], depth) == ListItemsMarkup(cs, depth) + [];
      assert ListItemsMarkup(cs, depth) + [] == ListItemsMarkup(cs, depth);
    }
  }

  lemma DocumentSnoc(cs: seq<Node>, c: Node)
    ensures Render(DocumentMarkup(cs + [c]))
         == Render(DocumentMarkup(cs)) + if c.Element? then Render(BlockMarkup(c, 0)) else ""
  {
    assert (cs + [c])[..|cs|] == cs;
    if c.Element? {
      RenderAppend(DocumentMarkup(cs), BlockMarkup(c, 0));
    } else {
      assert DocumentMarkup(cs + [c]) == DocumentMarkup(cs) + [];
      assert DocumentMarkup(cs) + [] == DocumentMarkup(cs);
    }
  }

  lemma RenderThree(p: Piece, q: Piece, r: Piece)
    ensures Render([p, q, r]) == RenderPiece(p) + RenderPiece(q) + RenderPiece(r)
  {
    assert [p, q, r][..2] == [p, q];
    assert [p, q][..1] == [p];
    RenderOne(p);
  }

  lemma InlineHtmlSnoc(cs: seq<Node>, c: Node)
    ensures InlineHtml(cs + [c]) == InlineHtml(cs) + Render(NodeMarkup(c))
  {
    assert (cs + [c])[..|cs|] == cs;
    RenderAppend(InlineMarkup(cs), NodeMarkup(c));
  }

  lemma ClassAttrsText(classes: seq<string>)
    ensures RenderAttrs(ClassAttrs(classes)) == if |classes| > 0 then ClassText(classes) else ""
  {
    if |classes| > 0 { assert [ClassList(classes)][..0] == []; }
  }

  lemma BlockLineText(tag: string, a: seq<Attr>, depth: nat, inner: seq<Piece>)
    ensures Render([Indent(depth), Open(tag, a)] + inner + [Close(tag), Newline])
         == Pad(depth) + OpenTag(tag, RenderAttrs(a)) + Render(inner) + CloseTag(tag) + "\n"
  {
    var open := [Indent(depth), Open(tag, a)];
    assert open[..1] == [Indent(depth)];
    RenderOne(Indent(depth));
    assert [Close(tag), Newline][..1] == [Close(tag)];
    RenderOne(Close(tag));
    RenderAppend(open, inner);
    RenderAppend(open + inner, [Close(tag), Newline]);
  }

  lemma ListBlockText(tag: string, a: seq<Attr>, depth: nat, items: seq<Piece>)
    ensures Render([Indent(depth), Open(tag, a), Newline] + items + [Indent(depth), Close(tag), Newline])
         == Pad(depth) + OpenTag(tag, RenderAttrs(a)) + "\n" + Render(items) + Pad(depth) + CloseTag(tag) + "\n"
  {
    var head := [Indent(depth), Open(tag, a), Newline];
    var tail := [Indent(depth), Close(tag), Newline];
    RenderThree(Indent(depth), Open(tag, a), Newline);
    RenderThree(Indent(depth), Close(tag), Newline);
    RenderAppend(head, items);
    RenderAppend(head + items, tail);
  }

  // ----- The serializer as written: accumulating loops -----

  /** The loop that copies the tag's whitelisted attributes that are present (lines 180-184 and 207-211). */
  method CopyAllowedAttrs(tag: string, attrs: map<string, string>) returns (s: string)
    ensures s == RenderAttrs(AnchorAttrs(tag, attrs))
  {
    s := "";
    var names := AllowedAttrs(tag);
    for i := 0 to |names|
      invariant s == RenderAttrs(PresentAttrs(names[..i], attrs))
    {
      assert names[..i + 1][..i] == names[..i];
      var name := names[i];
      if name in attrs {
        assert PresentAttrs(names[..i + 1], attrs) == PresentAttrs(names[..i], attrs) + [Plain(name, attrs[name])];
        s := s + AttrText(name, attrs[name]);
      } else {
        assert PresentAttrs(names[..i + 1], attrs) == PresentAttrs(names[..i], attrs) + [];
      }
    }
    assert names[..|names|] == names;
  }

  /** The attribute string of an inline element: colour lookup, class filter, colour push, copied attributes. */
  method InlineAttributes(tag: string, attrs: map<string, string>) returns (s: string)
    ensures s == RenderAttrs(InlineAttrs(tag, attrs))
  {
    var colorClass: Option<string> := None;
    if "style" in attrs {
      var found := FindColor(attrs["style"]);
      if found.Some? {
        colorClass := ColorClassFor(LowerAsciiString(found.value));
      }
    }
    var allowed: seq<string> := [];
    if "class" in attrs {
      allowed := FilterClasses(Split(attrs["class"], ' '));
    }
    if colorClass.Some? && colorClass.value !in allowed {
      allowed := allowed + [colorClass.value];
    }
    assert allowed == InlineClasses(attrs);
    s := "";
    if |allowed| > 0 {
      s := s + ClassText(allowed);
    }
    ClassAttrsText(allowed);
    var copied := CopyAllowedAttrs(tag, attrs);
    RenderAttrsAppend(ClassAttrs(allowed), AnchorAttrs(tag, attrs));
    s := s + copied;
  }

  /** The attribute string of a block element: class filter and copied attributes, no colour. */
  method BlockAttributes(tag: string, attrs: map<string, string>) returns (s: string)
    ensures s == RenderAttrs(BlockAttrs(tag, attrs))
  {
    s := "";
    var classes: seq<string> := [];
    if "class" in attrs {
      classes := FilterClasses(Split(attrs["class"], ' '));
      if |classes| > 0 {
        s := s + ClassText(classes);
      }
    }
    assert classes == BlockClasses(attrs);
    ClassAttrsText(classes);
    var copied := CopyAllowedAttrs(tag, attrs);
    RenderAttrsAppend(ClassAttrs(classes), AnchorAttrs(tag, attrs));
    s := s + copied;
  }

  /** `serializeInline(node)`: the inline rendering of the node's children. */
  method SerializeInline(node: Node) returns (html: string)
    ensures html == InlineHtml(Children(node))
    decreases node
  {
    html := "";
    var children := Children(node);
    for i := 0 to |children|
      invariant html == InlineHtml(children[..i])
    {
      var child := children[i];
      assert children[..i + 1] == children[..i] + [child];
      InlineHtmlSnoc(children[..i], child);
      match child {
        case Text(data) =>
          RenderOne(Chars(data));
          html := html + data;
        case Other =>
          assert NodeMarkup(child) == [];
        case Element(tag, attrs, grandchildren) =>
          var a := InlineAttributes(tag, attrs);
          var inner := SerializeInline(child);
          ElementHtml(tag, attrs, grandchildren);
          if tag == "span" && a == "" {
            html := html + inner;
          } else {
            html := html + (OpenTag(tag, a) + inner + CloseTag(tag));
          }
      }
    }
    assert children[..|children|] == children;
  }

  /** `serializeBlock(node, indent)` for an element node. */
  method SerializeBlock(node: Node, indent: nat) returns (html: string)
    requires node.Element?
    ensures html == Render(BlockMarkup(node, indent))
    decreases node
  {
    var pad := Pad(indent);
    var tag := node.tag;
    var attrs := BlockAttributes(tag, node.attrs);
    if tag == "ul" || tag == "ol" {
      html := pad + OpenTag(tag, attrs) + "\n";
      var items := SerializeListItems(node.children, indent + 1);
      html := html + items;
      ListBlockText(tag, BlockAttrs(tag, node.attrs), indent, ListItemsMarkup(node.children, indent + 1));
      html := html + pad + CloseTag(tag) + "\n";
      return;
    }
    var inner := SerializeInline(node);
    BlockLineText(tag, BlockAttrs(tag, node.attrs), indent, InlineMarkup(node.children));
    if tag == "li" {
      html := pad + OpenTag("li", attrs) + inner + CloseTag("li") + "\n";
      return;
    }
    html := pad + OpenTag(tag, attrs) + inner + CloseTag(tag) + "\n";
  }

  /** The `forEach` of a list block: each `li` element child serialized at `depth`, every other child skipped. */
  method SerializeListItems(children: seq<Node>, depth: nat) returns (html: string)
    ensures html == Render(ListItemsMarkup(children, depth))
    decreases children
  {
    html := "";
    for i := 0 to |children|
      invariant html == Render(ListItemsMarkup(children[..i], depth))
    {
      var li := children[i];
      assert children[..i + 1] == children[..i] + [li];
      ListItemsSnoc(children[..i], li, depth);
      if li.Element? && li.tag == "li" {
        var item := SerializeBlock(li, depth);
        html := html + item;
      }
    }
    assert children[..|children|] == children;
  }

  /** `prettyHTML(html)` on the nodes the HTML parses into. */
  method PrettyHtml(fragment: seq<Node>) returns (out: string)
    ensures out == Pretty(fragment)
  {
    var result := "";
    for i := 0 to |fragment|
      invariant result == Render(DocumentMarkup(fragment[..i]))
    {
      var node := fragment[i];
      assert fragment[..i + 1] == fragment[..i] + [node];
      DocumentSnoc(fragment[..i], node);
      if node.Element? {
        var block := SerializeBlock(node, 0);
        result := result + block;
      }
    }
    assert fragment[..|fragment|] == fragment;
    out := Trim(result);
  }
}
