/**
  The whitelist tables of the serializer: the colour palette and its class
  names, the list of permitted class names, and the per-tag attribute table.
 */
module Policy {
  import opened Wrappers

  /** Lower-case `#rrggbb` colour -> the class name that stands for it. */
  const ColorClassMap: map<string, string> := map[
    "#1b8b84" := "text-bluSmall",
    "#a58f22" := "text-yllwDark",
    "#a12879" := "text-purpleSmall",
    "#d16e4a" := "text-cuivreDark",
    "#88165a" := "text-purplDark",
    "#db825e" := "text-cuivreSmall",
    "#1c706c" := "text-bluDark"
  ]

  /** `Object.values(COLOR_CLASS_MAP)`, in insertion order. */
  const ColorClasses: seq<string> := [
    "text-bluSmall", "text-yllwDark", "text-purpleSmall", "text-cuivreDark",
    "text-purplDark", "text-cuivreSmall", "text-bluDark"
  ]

  /**
    An element of the class list. The list holds ten class names and, as its
    last element, the colour-class list itself as ONE nested array.
   */
  datatype ClassEntry = Name(name: string) | Nested(names: seq<string>)

  const StyleClasses: seq<ClassEntry> := [
    Name("divColorBlu"), Name("divColorYlw"), Name("pBeforeUl"), Name("exempleTextItalic"),
    Name("ulFleche"), Name("ulFlecheCount"), Name("surlignJaune"), Name("surlignBleu"),
    Name("noteinfoInTab"), Name("blockquoteEncadreInfo"), Nested(ColorClasses)
  ]

  /**
    `STYLE_CLASSES.includes(cls)` for a string `cls`: the ten class names, and
    nothing else (see `IncludesMatchesOnlyNames`).
   */
  predicate IsStyleClass(cls: string) {
    cls == "divColorBlu" || cls == "divColorYlw" || cls == "pBeforeUl" || cls == "exempleTextItalic"
    || cls == "ulFleche" || cls == "ulFlecheCount" || cls == "surlignJaune" || cls == "surlignBleu"
    || cls == "noteinfoInTab" || cls == "blockquoteEncadreInfo"
  }

  /**
    Strict equality never holds between a string and an array, so `includes`
    finds a string exactly when it is one of the `Name` entries.
   */
  lemma IncludesMatchesOnlyNames(cls: string)
    ensures IsStyleClass(cls) <==> Name(cls) in StyleClasses
  {
    if Name(cls) in StyleClasses {
      var k :| 0 <= k < |StyleClasses| && StyleClasses[k] == Name(cls);
      assert k < 10;
    }
  }

  /** One of the seven colour class names. */
  predicate IsColorClass(cls: string) {
    cls == "text-bluSmall" || cls == "text-yllwDark" || cls == "text-purpleSmall" || cls == "text-cuivreDark"
    || cls == "text-purplDark" || cls == "text-cuivreSmall" || cls == "text-bluDark"
  }

  /** The colour class names are exactly the values of the palette, and exactly the list `ColorClasses`. */
  lemma ColorClassesAreThePaletteValues(cls: string)
    ensures IsColorClass(cls) <==> cls in ColorClassMap.Values
    ensures IsColorClass(cls) <==> cls in ColorClasses
  {
    if cls in ColorClassMap.Values {
      var hex :| hex in ColorClassMap && ColorClassMap[hex] == cls;
    }
    if IsColorClass(cls) {
      if cls == "text-bluSmall" { assert ColorClassMap["#1b8b84"] == cls; }
      else if cls == "text-yllwDark" { assert ColorClassMap["#a58f22"] == cls; }
      else if cls == "text-purpleSmall" { assert ColorClassMap["#a12879"] == cls; }
      else if cls == "text-cuivreDark" { assert ColorClassMap["#d16e4a"] == cls; }
      else if cls == "text-purplDark" { assert ColorClassMap["#88165a"] == cls; }
      else if cls == "text-cuivreSmall" { assert ColorClassMap["#db825e"] == cls; }
      else { assert ColorClassMap["#1c706c"] == cls; }
    }
  }

  /** No colour class is a permitted class name: the nested array hides them from `includes`. */
  lemma ColorClassesAreNotStyleClasses(cls: string)
    requires IsColorClass(cls)
    ensures !IsStyleClass(cls)
  {
    assert cls[0] == 't';
  }

  /** `COLOR_CLASS_MAP[color] || null`. */
  function ColorClassFor(hex: string): (r: Option<string>)
    ensures r.Some? <==> hex in ColorClassMap
    ensures r.Some? ==> IsColorClass(r.value)
  {
    if hex in ColorClassMap then Some(ColorClassMap[hex]) else None
  }

  /** `ALLOWED_ATTRS[tag]` read as an own property: only anchors have a list. */
  function AllowedAttrs(tag: string): (r: seq<string>)
  {
    if tag == "a" then ["href", "target", "rel"] else []
  }
}
