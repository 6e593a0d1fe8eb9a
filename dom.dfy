/**
  The parsed DOM tree the serializer reads. HTML parsing happens outside the
  model; tag names arrive already lower-cased, and because the HTML parser
  keeps only the first of repeated attributes, an element's attributes are a
  map from name to value.
 */
module Dom {
  datatype Node =
    | Text(data: string)
    | Element(tag: string, attrs: map<string, string>, children: seq<Node>)
    | Other  // comments, processing instructions and the like

  /** `node.childNodes`: only elements have children. */
  function Children(n: Node): (r: seq<Node>)
    ensures !n.Element? ==> r == []
  {
    if n.Element? then n.children else []
  }
}
