/**
  Concrete inputs and the exact text the serializer produces for them: span
  unwrapping, the colour lookup and its quirks, list layout, the anchor
  attributes, and a re-serialization that is not a fixed point. Each example
  is a general lemma about a shape of input, then the concrete instance.

  As in the driver's lemmas, a depth or indentation that is a constant of the
  example is a parameter fixed by a `requires` (`depth == 0`, `depth == 1`,
  `indent == "  "`); the literal enters only in string lemmas (`OneLevel`,
  `Indented`) and at the outermost call, which keeps each proof small.
 */
module Scenarios {
  import opened Wrappers
  import opened Dom
  import opened JsString
  import opened Policy
  import opened ColorScan
  import opened Markup
  import opened Serializer
  import opened SerializerProperties

  // ----- Inline elements around one text node -----

  lemma OneText(data: string)
    ensures InlineHtml([Text(data)]) == data
  {
    InlineLeaves([], data);
    assert [] + [Text(data)] == [Text(data)];
  }

  /** A span whose attributes yield nothing is replaced by its text. */
  lemma UnwrappedText(attrs: map<string, string>, data: string)
    requires InlineAttrs("span", attrs) == []
    ensures Render(NodeMarkup(Element("span", attrs, [Text(data)]))) == data
  {
    OneText(data);
    ElementHtml("span", attrs, [Text(data)]);
  }

  /** An element whose attributes render to a non-empty string is wrapped around its text. */
  lemma WrappedText(tag: string, attrs: map<string, string>, a: string, data: string)
    requires RenderAttrs(InlineAttrs(tag, attrs)) == a && a != ""
    ensures Render(NodeMarkup(Element(tag, attrs, [Text(data)]))) == OpenTag(tag, a) + data + CloseTag(tag)
  {
    OneText(data);
    ElementHtml(tag, attrs, [Text(data)]);
  }

  lemma NoClassNoBlockClasses(attrs: map<string, string>)
    requires "class" !in attrs
    ensures BlockClasses(attrs) == []
  {
  }

  /** Without `class`, a span whose style names palette colour `c` carries exactly that class. */
  lemma ColorOnlyAttrs(attrs: map<string, string>, c: string)
    requires "class" !in attrs && StyleColorClass(attrs) == Some(c)
    ensures InlineAttrs("span", attrs) == [ClassList([c])]
  {
    NoClassNoBlockClasses(attrs);
    assert InlineClasses(attrs) == [c];
  }

  /** ... and is printed as `<span class="c">data</span>`. */
  lemma ColoredText(attrs: map<string, string>, c: string, data: string)
    requires "class" !in attrs && StyleColorClass(attrs) == Some(c)
    ensures Render(NodeMarkup(Element("span", attrs, [Text(data)])))
         == OpenTag("span", ClassText([c])) + data + CloseTag("span")
  {
    ColorOnlyAttrs(attrs, c);
    ClassAttrsText([c]);
    WrappedText("span", attrs, ClassText([c]), data);
  }

  lemma NoAttributesOnSpan()
    ensures InlineAttrs("span", map[]) == []
  {
  }

  /** `<span>hello</span>` is unwrapped to `hello`. */
  lemma SpanUnwrapped()
    ensures InlineHtml([Element("span", map[], [Text("hello")])]) == "hello"
  {
    var span := Element("span", map[], [Text("hello")]);
    NoAttributesOnSpan();
    UnwrappedText(map[], "hello");
    InlineHtmlSnoc([], span);
    assert [] + [span] == [span];
  }

  // ----- The colour lookup -----

  lemma PlainColorMatch()
    ensures MatchAt("color:#1B8B84", 0) == Some("#1B8B84")
  {
    var s := "color:#1B8B84";
    assert PrefixAt(s, 0, 5, 6);
    assert GroupAt(s, 6, "#1B8B84");
    MatchAtComplete(s, 0, "#1B8B84");
  }

  /** `color:#1B8B84` yields the group `#1B8B84`, case kept. */
  lemma PlainColorFound()
    ensures FindColor("color:#1B8B84") == Some("#1B8B84")
  {
    PlainColorMatch();
  }

  lemma BlueLowered()
    ensures LowerAsciiString("#1B8B84") == "#1b8b84"
  {
  }

  lemma BlueInPalette()
    ensures ColorClassFor("#1b8b84") == Some("text-bluSmall")
  {
  }

  /** The colour class comes from the lower-cased group of the style attribute. */
  lemma StyleLookup(attrs: map<string, string>, group: string)
    requires "style" in attrs && FindColor(attrs["style"]) == Some(group)
    ensures StyleColorClass(attrs) == ColorClassFor(LowerAsciiString(group))
  {
  }

  /** `color:#1B8B84` names `text-bluSmall`. */
  lemma PlainColorClass()
    ensures StyleColorClass(map["style" := "color:#1B8B84"]) == Some("text-bluSmall")
  {
    var attrs := map["style" := "color:#1B8B84"];
    assert attrs["style"] == "color:#1B8B84";
    PlainColorFound();
    StyleLookup(attrs, "#1B8B84");
    BlueLowered();
    BlueInPalette();
  }

  lemma BlueClassText()
    ensures ClassText(["text-bluSmall"]) == " class=\"text-bluSmall\""
  {
    assert Join(["text-bluSmall"], ' ') == "text-bluSmall";
  }

  lemma BlueSpanText()
    ensures OpenTag("span", " class=\"text-bluSmall\"") + "x" + CloseTag("span") == "<span class=\"text-bluSmall\">x</span>"
  {
    assert OpenTag("span", " class=\"text-bluSmall\"") == "<span class=\"text-bluSmall\">";
    assert CloseTag("span") == "</span>";
  }

  /** `<span style="color:#1B8B84">x</span>` becomes `<span class="text-bluSmall">x</span>`. */
  lemma ColoredSpan()
    ensures Render(NodeMarkup(Element("span", map["style" := "color:#1B8B84"], [Text("x")])))
         == "<span class=\"text-bluSmall\">x</span>"
  {
    PlainColorClass();
    ColoredText(map["style" := "color:#1B8B84"], "text-bluSmall", "x");
    BlueClassText();
    BlueSpanText();
  }

  /** No match can start where neither `c` nor `C` stands. */
  lemma NoWordStart(s: string, q: nat)
    requires q < |s| && s[q] != 'c' && s[q] != 'C'
    ensures MatchAt(s, q).None?
  {
  }

  /** ... nor where the next character is neither `o` nor `O`. */
  lemma NoWordSecond(s: string, q: nat)
    requires q + 1 < |s| && s[q + 1] != 'o' && s[q + 1] != 'O'
    ensures MatchAt(s, q).None?
  {
  }

  lemma BackgroundNoEarlierMatch()
    ensures NoMatchBetween("background-color: #a58f22", 0, 11)
  {
    var s := "background-color: #a58f22";
    forall q | 0 <= q < 11 ensures MatchAt(s, q).None? {
      if q == 0 { NoWordStart(s, 0); }
      else if q == 1 { NoWordStart(s, 1); }
      else if q == 2 { NoWordSecond(s, 2); }
      else if q == 3 { NoWordStart(s, 3); }
      else if q == 4 { NoWordStart(s, 4); }
      else if q == 5 { NoWordStart(s, 5); }
      else if q == 6 { NoWordStart(s, 6); }
      else if q == 7 { NoWordStart(s, 7); }
      else if q == 8 { NoWordStart(s, 8); }
      else if q == 9 { NoWordStart(s, 9); }
      else { NoWordStart(s, 10); }
    }
  }

  lemma BackgroundMatchAt11()
    ensures MatchAt("background-color: #a58f22", 11) == Some("#a58f22")
  {
    var s := "background-color: #a58f22";
    assert PrefixAt(s, 11, 16, 18);
    assert GroupAt(s, 18, "#a58f22");
    MatchAtComplete(s, 11, "#a58f22");
  }

  /** The unanchored pattern finds `color` inside `background-color`. */
  lemma BackgroundColorMatches()
    ensures FindColor("background-color: #a58f22") == Some("#a58f22")
  {
    BackgroundNoEarlierMatch();
    BackgroundMatchAt11();
    LeftmostFromFindsFirst("background-color: #a58f22", 0, 11);
  }

  lemma GreedyMatch()
    ensures MatchAt("color:#1b8b84ff", 0) == Some("#1b8b84")
  {
    var s := "color:#1b8b84ff";
    assert PrefixAt(s, 0, 5, 6);
    assert GroupAt(s, 6, "#1b8b84");
    MatchAtComplete(s, 0, "#1b8b84");
  }

  /** At most six hex digits are taken, so `#1b8b84ff` yields `#1b8b84`. */
  lemma GreedySixDigits()
    ensures FindColor("color:#1b8b84ff") == Some("#1b8b84")
  {
    GreedyMatch();
  }

  lemma UnmappedMatch()
    ensures FindColor("color:#123456") == Some("#123456")
  {
    var s := "color:#123456";
    assert PrefixAt(s, 0, 5, 6);
    assert GroupAt(s, 6, "#123456");
    MatchAtComplete(s, 0, "#123456");
  }

  lemma UnmappedLowered()
    ensures LowerAsciiString("#123456") == "#123456"
  {
  }

  lemma UnmappedNotInPalette()
    ensures ColorClassFor("#123456") == None
  {
  }

  /** A colour the palette lacks adds no class. */
  lemma UnmappedColor()
    ensures StyleColorClass(map["style" := "color:#123456"]) == None
  {
    var attrs := map["style" := "color:#123456"];
    assert attrs["style"] == "color:#123456";
    UnmappedMatch();
    StyleLookup(attrs, "#123456");
    UnmappedLowered();
    UnmappedNotInPalette();
  }

  /** `<span style="color:#123456">x</span>` keeps no class and is unwrapped to `x`. */
  lemma UnmappedColorSpan()
    ensures Render(NodeMarkup(Element("span", map["style" := "color:#123456"], [Text("x")]))) == "x"
  {
    var attrs := map["style" := "color:#123456"];
    UnmappedColor();
    assert InlineAttrs("span", attrs) == [];
    UnwrappedText(attrs, "x");
  }

  // ----- Re-serializing emitted output -----

  lemma ColorClassDropped()
    ensures InlineAttrs("span", map["class" := "text-bluSmall"]) == []
  {
    var attrs := map["class" := "text-bluSmall"];
    SplitNoSeparator("text-bluSmall", ' ');
    assert ClassTokens(attrs) == ["text-bluSmall"];
    FilterDropsColorClasses(["text-bluSmall"], "text-bluSmall");
  }

  /**
    Emitted output is not a fixed point: `<span class="text-bluSmall">x</span>`,
    serialized again, loses its colour class and is unwrapped to `x`.
   */
  lemma ColorClassNotStable()
    ensures Render(NodeMarkup(Element("span", map["class" := "text-bluSmall"], [Text("x")]))) == "x"
  {
    ColorClassDropped();
    UnwrappedText(map["class" := "text-bluSmall"], "x");
  }

  // ----- Anchors -----

  /** An anchor without `class` or `style` that has all three listed attributes carries exactly those, in list order. */
  lemma AnchorAttrList(attrs: map<string, string>)
    requires "class" !in attrs && "style" !in attrs
    requires "href" in attrs && "target" in attrs && "rel" in attrs
    ensures InlineAttrs("a", attrs) == [Plain("href", attrs["href"]), Plain("target", attrs["target"]), Plain("rel", attrs["rel"])]
  {
    AnchorAttrsExplicit("a", attrs);
    NoClassNoBlockClasses(attrs);
    assert InlineClasses(attrs) == [];
  }

  lemma RenderThreeAttrs(h: Attr, t: Attr, r: Attr)
    ensures RenderAttrs([h, t, r]) == RenderAttr(h) + RenderAttr(t) + RenderAttr(r)
  {
    assert [h, t, r][..2] == [h, t] && [h, t][..1] == [h] && [h][..0] == [];
    assert RenderAttrs([h]) == RenderAttr(h);
    assert RenderAttrs([h, t]) == RenderAttr(h) + RenderAttr(t);
  }

  /** `onclick` is dropped from `<a href target rel onclick>`. */
  lemma AnchorDropsOnclick()
    ensures var attrs := map["href" := "https://x", "target" := "_blank", "rel" := "noopener noreferrer",
                             "onclick" := "evil()"];
      RenderAttrs(InlineAttrs("a", attrs))
        == AttrText("href", "https://x") + AttrText("target", "_blank") + AttrText("rel", "noopener noreferrer")
  {
    var attrs := map["href" := "https://x", "target" := "_blank", "rel" := "noopener noreferrer",
                     "onclick" := "evil()"];
    AnchorAttrList(attrs);
    RenderThreeAttrs(Plain("href", "https://x"), Plain("target", "_blank"), Plain("rel", "noopener noreferrer"));
  }

  // ----- Lists -----

  /** An attribute-less `li` holding one text node is one indented line. */
  lemma ItemLine(data: string, depth: nat)
    ensures Render(BlockMarkup(Element("li", map[], [Text(data)]), depth))
         == Pad(depth) + OpenTag("li", "") + data + CloseTag("li") + "\n"
  {
    assert BlockAttrs("li", map[]) == [];
    OneText(data);
    BlockIsOneLine(Element("li", map[], [Text(data)]), depth);
  }

  lemma OneItem(a: Node, depth: nat)
    requires IsListItem(a)
    ensures Render(ListItemsMarkup([a], depth)) == Render(BlockMarkup(a, depth))
  {
    ListItemsSnoc([], a, depth);
    assert [] + [a] == [a];
  }

  lemma SecondItem(a: Node, b: Node, depth: nat)
    requires IsListItem(b)
    ensures Render(ListItemsMarkup([a, b], depth)) == Render(ListItemsMarkup([a], depth)) + Render(BlockMarkup(b, depth))
  {
    ListItemsSnoc([a], b, depth);
    assert [a] + [b] == [a, b];
  }

  /** Two items render as two lines, in order. */
  lemma TwoItems(a: Node, b: Node, depth: nat)
    requires IsListItem(a) && IsListItem(b)
    ensures Render(ListItemsMarkup([a, b], depth)) == Render(BlockMarkup(a, depth)) + Render(BlockMarkup(b, depth))
  {
    OneItem(a, depth);
    SecondItem(a, b, depth);
  }

  /** A fragment of one element is that element's block. */
  lemma LoneBlock(n: Node, depth: nat)
    requires n.Element? && depth == 0
    ensures Render(DocumentMarkup([n])) == Render(BlockMarkup(n, depth))
  {
    DocumentSnoc([], n);
    assert [] + [n] == [n];
  }

  /** A list whose attributes yield nothing is its opening line, its item lines and its closing line. */
  lemma ListLines(ul: Node, depth: nat)
    requires ul.Element? && IsListTag(ul.tag) && RenderAttrs(BlockAttrs(ul.tag, ul.attrs)) == ""
    ensures Render(BlockMarkup(ul, depth)) == Pad(depth) + OpenTag(ul.tag, "") + "\n"
      + Render(ListItemsMarkup(ul.children, depth + 1)) + Pad(depth) + CloseTag(ul.tag) + "\n"
  {
    ListBlockShape(ul, depth);
  }

  lemma TopLevel(o: string, r: string, c: string)
    ensures Pad(0) + o + "\n" + r + Pad(0) + c + "\n" == o + "\n" + r + c + "\n"
  {
    assert Pad(0) == "";
    assert "" + o == o;
    assert o + "\n" + r + "" == o + "\n" + r;
  }

  lemma ItemText(data: string, indent: string)
    ensures indent + OpenTag("li", "") + data + CloseTag("li") + "\n" == indent + "<li>" + data + "</li>\n"
  {
    assert OpenTag("li", "") == "<li>" && CloseTag("li") == "</li>";
  }

  lemma ListText(items: string)
    ensures OpenTag("ul", "") + "\n" + items + CloseTag("ul") + "\n" == "<ul>\n" + items + "</ul>" + "\n"
  {
    assert OpenTag("ul", "") == "<ul>" && CloseTag("ul") == "</ul>";
  }

  lemma DropNewline(p: string)
    ensures (p + "\n")[..|p + "\n"| - 1] == p
  {
  }

  /** A rendering that ends in its one final line break is printed without it. */
  lemma PrettyOf(fragment: seq<Node>, p: string)
    requires Render(DocumentMarkup(fragment)) == p + "\n"
    ensures Pretty(fragment) == p
  {
    PrettyDropsFinalNewline(fragment);
    DropNewline(p);
  }

  /** Two attribute-less items holding one text node each. */
  lemma TwoItemLines(x: string, y: string, depth: nat)
    ensures Render(ListItemsMarkup([Element("li", map[], [Text(x)]), Element("li", map[], [Text(y)])], depth))
         == Pad(depth) + "<li>" + x + "</li>\n" + (Pad(depth) + "<li>" + y + "</li>\n")
  {
    ItemLine(x, depth);
    ItemLine(y, depth);
    ItemText(x, Pad(depth));
    ItemText(y, Pad(depth));
    TwoItems(Element("li", map[], [Text(x)]), Element("li", map[], [Text(y)]), depth);
  }

  /** An attribute-less `ul` at the top level (`depth` is zero). */
  lemma TopListText(ul: Node, depth: nat)
    requires ul.Element? && ul.tag == "ul" && ul.attrs == map[] && depth == 0
    ensures Render(BlockMarkup(ul, depth)) == "<ul>\n" + Render(ListItemsMarkup(ul.children, depth + 1)) + "</ul>" + "\n"
  {
    var items := Render(ListItemsMarkup(ul.children, depth + 1));
    assert BlockAttrs("ul", map[]) == [];
    ListLines(ul, depth);
    TopLevel(OpenTag("ul", ""), items, CloseTag("ul"));
    ListText(items);
  }

  /** A fragment holding one attribute-less `ul`; `depth` is the top level, zero. */
  lemma LoneListText(ul: Node, depth: nat)
    requires ul.Element? && ul.tag == "ul" && ul.attrs == map[] && depth == 0
    ensures Render(DocumentMarkup([ul])) == "<ul>\n" + Render(ListItemsMarkup(ul.children, depth + 1)) + "</ul>" + "\n"
  {
    TopListText(ul, depth);
    LoneBlock(ul, depth);
  }

  lemma OneLevel(depth: nat)
    requires depth == 1
    ensures Pad(depth) == "  "
  {
  }

  lemma Indented(indent: string, x: string, y: string)
    requires indent == "  "
    ensures "<ul>\n" + (indent + "<li>" + x + "</li>\n" + (indent + "<li>" + y + "</li>\n")) + "</ul>" + "\n"
         == "<ul>\n" + ("  <li>" + x + "</li>\n" + ("  <li>" + y + "</li>\n")) + "</ul>" + "\n"
  {
  }

  /** The rendering of a top-level `ul` holding two attribute-less items, each one text node. */
  lemma TwoItemDocument(ul: Node, x: string, y: string, depth: nat)
    requires depth == 0 && ul.Element? && ul.tag == "ul" && ul.attrs == map[]
    requires ul.children == [Element("li", map[], [Text(x)]), Element("li", map[], [Text(y)])]
    ensures Render(DocumentMarkup([ul])) == "<ul>\n" + ("  <li>" + x + "</li>\n" + ("  <li>" + y + "</li>\n")) + "</ul>" + "\n"
  {
    LoneListText(ul, depth);
    TwoItemLines(x, y, depth + 1);
    OneLevel(depth + 1);
    Indented(Pad(depth + 1), x, y);
  }

  /** A list of two attribute-less items, each one text node, is printed on four lines. */
  lemma TwoItemList(x: string, y: string)
    ensures Pretty([Element("ul", map[], [Element("li", map[], [Text(x)]), Element("li", map[], [Text(y)])])])
         == "<ul>\n" + ("  <li>" + x + "</li>\n" + ("  <li>" + y + "</li>\n")) + "</ul>"
  {
    var ul := Element("ul", map[], [Element("li", map[], [Text(x)]), Element("li", map[], [Text(y)])]);
    TwoItemDocument(ul, x, y, 0);
    PrettyOf([ul], "<ul>\n" + ("  <li>" + x + "</li>\n" + ("  <li>" + y + "</li>\n")) + "</ul>");
  }

  lemma TwoItemsText()
    ensures "<ul>\n" + ("  <li>" + "A" + "</li>\n" + ("  <li>" + "B" + "</li>\n")) + "</ul>"
         == "<ul>\n  <li>A</li>\n  <li>B</li>\n</ul>"
  {
  }

  /** `<ul><li>A</li><li>B</li></ul>` is printed on four lines, items indented by two spaces. */
  lemma ListExample()
    ensures Pretty([Element("ul", map[], [Element("li", map[], [Text("A")]), Element("li", map[], [Text("B")])])])
         == "<ul>\n  <li>A</li>\n  <li>B</li>\n</ul>"
  {
    TwoItemList("A", "B");
    TwoItemsText();
  }
}
