/**
  The attribute table lookup as the source writes it. `ALLOWED_ATTRS[tag]` reads
  a property of a plain object literal, so a tag that names a member of
  `Object.prototype` finds that inherited member instead of `undefined`. Every
  such member is truthy and none has a `forEach` method, so the copy loop
  throws a `TypeError`. A parsed HTML tag name is lower case and starts with a
  letter; every other member name holds a capital or starts with `_`, so the
  only member an element can name is `constructor`.
 */
module PrototypeLookup {
  import opened Wrappers
  import opened Markup
  import opened Policy
  import opened Serializer

  /** What reading a property of the object literal `{ a: [...] }` yields. */
  datatype Property = Undefined | OwnList(names: seq<string>) | Inherited(key: string)

  /** The property names every plain object inherits from `Object.prototype`. */
  const PrototypeMembers: set<string> := {
    "constructor", "__proto__", "__defineGetter__", "__defineSetter__", "__lookupGetter__",
    "__lookupSetter__", "hasOwnProperty", "isPrototypeOf", "propertyIsEnumerable",
    "toLocaleString", "toString", "valueOf"
  }

  /** `ALLOWED_ATTRS[tag]` with the prototype chain: the own key `a`, then the inherited members, then `undefined`. */
  function AttrTableLookup(tag: string): (r: Property)
    ensures r.OwnList? <==> tag == "a"
    ensures r.Inherited? <==> tag in PrototypeMembers
  {
    if tag == "a" then OwnList(["href", "target", "rel"])
    else if tag in PrototypeMembers then Inherited(tag)
    else Undefined
  }

  /**
    Lines 180-184 as written: `None` stands for the `TypeError` that calling
    `forEach` on an inherited member throws; `undefined` skips the copy.
   */
  function CopyAttrsAsWritten(tag: string, attrs: map<string, string>): Option<seq<Attr>>
  {
    match AttrTableLookup(tag)
    case Undefined => Some([])
    case OwnList(names) => Some(PresentAttrs(names, attrs))
    case Inherited(_) => None
  }

  /** An element named `constructor` makes the serializer throw instead of dropping its attributes. */
  lemma ConstructorTagThrows(attrs: map<string, string>)
    ensures CopyAttrsAsWritten("constructor", attrs) == None
    ensures AnchorAttrs("constructor", attrs) == []
  {
    assert "constructor" in PrototypeMembers;
  }

  /**
    The written lookup fails exactly on the inherited member names; on every
    other tag it copies what the own-property lookup of the model copies.
   */
  lemma AsWrittenAgreesElsewhere(tag: string, attrs: map<string, string>)
    ensures CopyAttrsAsWritten(tag, attrs).None? <==> tag in PrototypeMembers
    ensures tag !in PrototypeMembers ==> CopyAttrsAsWritten(tag, attrs) == Some(AnchorAttrs(tag, attrs))
  {
    assert "a" !in PrototypeMembers;
  }
}
