/**
  The serializer's output before it is flattened to text: opening tags with
  their attribute lists, closing tags, text runs, indentation and line
  breaks. `Render` gives the exact characters the serializer concatenates.
 */
module Markup {
  import opened JsString

  /** An emitted attribute: the class list, or a copied `name="value"` pair. */
  datatype Attr = ClassList(tokens: seq<string>) | Plain(name: string, value: string)

  datatype Piece =
    | Chars(text: string)                       // text content, copied verbatim
    | Open(tag: string, attrs: seq<Attr>)      // `<tag attrs>`
    | Close(tag: string)                        // `</tag>`
    | Indent(depth: nat)                        // two spaces per block level
    | Newline

  /** ` class="a b"`: the tokens joined by single spaces. */
  function ClassText(tokens: seq<string>): string
  {
    " class=\"" + Join(tokens, ' ') + "\""
  }

  /** ` name="value"`; values are not escaped. */
  function AttrText(name: string, value: string): string
  {
    " " + name + "=\"" + value + "\""
  }

  /** `<tag attrs>` for an already rendered attribute string. */
  function OpenTag(tag: string, attrText: string): string
  {
    "<" + tag + attrText + ">"
  }

  function CloseTag(tag: string): string
  {
    "</" + tag + ">"
  }

  function RenderAttr(a: Attr): string
  {
    match a
    case ClassList(tokens) => ClassText(tokens)
    case Plain(name, value) => AttrText(name, value)
  }

  function RenderAttrs(attrs: seq<Attr>): string
  {
    if attrs == [] then "" else RenderAttrs(attrs[..|attrs| - 1]) + RenderAttr(attrs[|attrs| - 1])
  }

  function RenderPiece(p: Piece): string
  {
    match p
    case Chars(text) => text
    case Open(tag, attrs) => OpenTag(tag, RenderAttrs(attrs))
    case Close(tag) => CloseTag(tag)
    case Indent(depth) => Pad(depth)
    case Newline => "\n"
  }

  function Render(ps: seq<Piece>): string
  {
    if ps == [] then "" else Render(ps[..|ps| - 1]) + RenderPiece(ps[|ps| - 1])
  }

  /** An attribute string is empty exactly when no attribute is emitted: the `!attrs` test of the unwrap rule. */
  lemma {:induction false} RenderAttrsEmpty(attrs: seq<Attr>)
    ensures RenderAttrs(attrs) == "" <==> attrs == []
  {
    if attrs != [] {
      var last := attrs[|attrs| - 1];
      assert RenderAttr(last) != "" by {
        match last
        case ClassList(tokens) =>
        case Plain(name, value) =>
      }
      assert |RenderAttrs(attrs)| >= |RenderAttr(last)|;
    }
  }

  /** Concatenation regroups; stated once so that proofs need not re-derive it element by element. */
  lemma ConcatAssoc<T>(p: seq<T>, q: seq<T>, r: seq<T>)
    ensures (p + q) + r == p + (q + r)
  {
  }

  lemma {:induction false} RenderAttrsAppend(a: seq<Attr>, b: seq<Attr>)
    ensures RenderAttrs(a + b) == RenderAttrs(a) + RenderAttrs(b)
    decreases |b|
  {
    if b == [] {
      assert a + b == a;
    } else {
      var b', x := b[..|b| - 1], b[|b| - 1];
      assert (a + b)[..|a + b| - 1] == a + b';
      assert (a + b)[|a + b| - 1] == x;
      RenderAttrsAppend(a, b');
      ConcatAssoc(RenderAttrs(a), RenderAttrs(b'), RenderAttr(x));
    }
  }

  /** Rendering is a homomorphism from piece sequences to strings. */
  lemma {:induction false} RenderAppend(a: seq<Piece>, b: seq<Piece>)
    ensures Render(a + b) == Render(a) + Render(b)
    decreases |b|
  {
    if b == [] {
      assert a + b == a;
    } else {
      var b', x := b[..|b| - 1], b[|b| - 1];
      assert (a + b)[..|a + b| - 1] == a + b';
      assert (a + b)[|a + b| - 1] == x;
      RenderAppend(a, b');
      ConcatAssoc(Render(a), Render(b'), RenderPiece(x));
    }
  }

  lemma RenderOne(p: Piece)
    ensures Render([p]) == RenderPiece(p)
  {
    assert [p][..0] == [];
  }
}
