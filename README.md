# Sanitising HTML pretty-printer of the IT editor

`main.js` turns the DOM tree of the rich-text editor into a constrained,
pretty-printed HTML string. The model covers:

- the whitelist tables;
- the inline serializer `serializeInline`;
- the block serializer `serializeBlock`;
- the driver `prettyHTML`.

**The whitelist tables** (`Policy`):
- the seven-colour palette `COLOR_CLASS_MAP`;
- the class list `STYLE_CLASSES`. Its last element is the colour-class list itself, nested as ONE array, so `includes` never finds a colour class in it;
- the attribute table `ALLOWED_ATTRS`.

**The input** (`Dom`) is the parsed tree: text nodes, elements with a lower-case tag, an attribute map and children, and every other node kind as `Other`.

**The serializer** (`Serializer`) is written twice:
- Specification functions give the output as a sequence of markup pieces (`Markup`: opening tags with attribute lists, closing tags, text, indentation, line breaks). `Render` flattens the pieces to the exact text the source concatenates.
- Methods follow the source's accumulating `forEach` loops. Each method is proved to return the rendering of its specification function.

**The colour lookup** `style.match(/color\s*:\s*(#[0-9a-fA-F]{3,6})/i)` is a leftmost-match scanner (`ColorScan`). It is proved equal to a declarative statement of what the pattern matches: sound, complete, leftmost, and greedy up to six digits. It keeps the pattern's lack of an anchor, so it also matches inside `background-color`.

**The string primitives** the code relies on are stated on `seq<char>` (`JsString`): `split(' ')`, `join(' ')`, `'  '.repeat(n)`, `trim()` with the JavaScript whitespace set, and ASCII lower-casing.

**The proved properties** (`SerializerProperties`):
- every opening tag the serializer builds carries only whitelisted classes and attributes (values are not escaped, see Left out);
- the class filter's counting behaviour and its idempotence;
- where the colour class goes;
- the anchor attributes;
- the span-unwrap rule, as an if-and-only-if;
- inline output adds no layout;
- the line structure of blocks and lists;
- the driver's trimmed result.

**Concrete inputs** (`Scenarios`) show exact output:
- the list example;
- colour spans, including an unmapped colour;
- colour matches inside `background-color`, and a match that takes six of eight hex digits;
- the dropped `onclick`;
- a re-serialization that is not a fixed point.

`PrototypeLookup` models the attribute-table lookup as JavaScript performs it, with the prototype chain; see Findings.

Two behaviours of the code worth stating; the model follows the code in both:
- Classes are split on a single space, not on any whitespace. So a tab-separated class list is one token and is dropped, and empty tokens occur (and are dropped).
- Re-serializing emitted output is not a fixed point: an emitted colour class does not survive a second pass (`Scenarios.ColorClassNotStable`). Class-list idempotence holds for the permitted style names only (`SerializerProperties.ClassListIdempotent`).

## Model

| member | source | states |
|---|---|---|
| Policy.IncludesMatchesOnlyNames | main.js:34 | a string is found by `STYLE_CLASSES.includes` exactly when it is one of the ten class names; the nested colour array matches no string |
| Policy.ColorClassesAreThePaletteValues | main.js:23-32 | the colour class names are exactly the values of the palette and exactly the elements of `COLOR_CLASSES` |
| Policy.ColorClassesAreNotStyleClasses | main.js:32-34 | no colour class name is a permitted class name |
| Policy.ColorClassFor | main.js:163 | the lookup yields a class exactly when the lower-cased hex is a palette key, and that class is a colour class |
| JsString.LowerAsciiString | main.js:162 | `toLowerCase` of the captured group keeps its length and lowers each ASCII capital, leaving every other character |
| JsString.Split | main.js:169-170 | `split(' ')` yields at least one piece and no piece contains a space |
| JsString.JoinSplit | main.js:169-177 | joining the pieces of a split with the same separator gives back the string |
| JsString.SplitJoin | main.js:169-177 | splitting a join of separator-free pieces gives back the pieces |
| JsString.Pad | main.js:198 | the indentation at depth d is 2·d spaces |
| JsString.TrimDropsFinalSpace | main.js:236 | `trim()` of a text starting with a non-space and ending in one space after a non-space removes exactly that last character |
| ColorScan.SkipSpaces | main.js:159 | `\s*` stops at the first non-whitespace character and skips only whitespace |
| ColorScan.SkipSpacesStopsAt | main.js:159 | the greedy `\s*` has only one stopping point |
| ColorScan.HexRun | main.js:159 | the hex run is at most the limit long, holds only hex digits, and stops at the limit, the end, or a non-hex character |
| ColorScan.HexRunStopsAt | main.js:159 | the greedy `{3,6}` run has only one length |
| ColorScan.MatchAtSound | main.js:159 | every group the scanner captures at a position is a match of the pattern there |
| ColorScan.MatchAtComplete | main.js:159 | every match of the pattern at a position is what the scanner captures there |
| ColorScan.LeftmostFrom | main.js:159 | the search returns a position where the pattern matches with no match before it, or reports that nothing matches |
| ColorScan.LeftmostFromFindsFirst | main.js:159 | a match with no match before it is the one the search finds |
| ColorScan.FindColorIsLeftmostMatch | main.js:159 | a found group is the group of a match with no earlier match of any group; no group found means no match anywhere |
| ColorScan.FoundGroupShape | main.js:159 | a captured group is `#` followed by three to six hex digits |
| Markup.RenderAttrsEmpty | main.js:186 | the attribute string is empty exactly when no attribute is emitted |
| Markup.RenderAppend | main.js:145-193 | concatenating piece lists concatenates their renderings |
| Serializer.FilterClasses | main.js:169-170 | the filter keeps no more tokens than it is given, and each kept token is a permitted class name |
| Serializer.StyleColorClass | main.js:157-164 | a colour class is found only when a `style` attribute exists, and it is a colour class |
| Policy.AllowedAttrs | main.js:138 | definition of the own-property read of `ALLOWED_ATTRS`: `href`, `target`, `rel` for `a`, nothing otherwise; characterised by `SerializerProperties.AnchorAttrsExplicit` and `PrototypeLookup.AsWrittenAgreesElsewhere` |
| JsString.Join | main.js:177 | definition of `join(' ')`; characterised by `JsString.JoinSplit` and `JsString.SplitJoin` |
| JsString.Trim | main.js:236 | definition of `trim()` over the JavaScript whitespace set; characterised by `JsString.TrimDropsFinalSpace` and `SerializerProperties.TrimFramed` |
| ColorScan.FindColor | main.js:159 | definition of the captured group of `style.match(...)`; characterised by `ColorScan.FindColorIsLeftmostMatch` and `ColorScan.FoundGroupShape` |
| Serializer.InlineClasses | main.js:157-175 | definition of the inline class list; characterised by `SerializerProperties.InlineClassesShape`, `ColorClassAtMostOnce` and `InlineClassesPermitted` |
| Serializer.BlockClasses | main.js:202-205 | definition of the block class list; characterised by `SerializerProperties.BlockClassesHaveNoColor`, `ClassListIdempotent` and `FilterCount` |
| Serializer.PresentAttrs | main.js:180-184 | definition of the attribute copy over a name list; characterised by `SerializerProperties.PresentAttrsSound` and `PresentAttrsComplete` |
| Serializer.AnchorAttrs | main.js:180-184 | definition of the copied attributes of a tag; characterised by `SerializerProperties.AnchorAttrsExplicit` and `AnchorAttrsPermitted` |
| Serializer.InlineAttrs | main.js:153-184 | definition of an inline element's attribute list (classes, then copied attributes); characterised by `SerializerProperties.InlineAttrsPermitted` and `SpanUnwrapIff` |
| Serializer.BlockAttrs | main.js:200-211 | definition of a block element's attribute list; characterised by `SerializerProperties.BlockAttrsPermitted` and `BlockNeverColored` |
| Serializer.InlineMarkup | main.js:145-193 | definition of the inline markup of a run of siblings; characterised by `SerializerProperties.InlineMarkupAppend`, `InlineMarkupWhitelisted`, `InlineMarkupHasNoLayout` and `Serializer.SerializeInline` |
| Serializer.NodeMarkup | main.js:147-191 | definition of the markup one child contributes; characterised by `SerializerProperties.InlineLeaves`, `SpanUnwrapIff`, `NonSpanWrapped` and `NodeMarkupWhitelisted` |
| Serializer.BlockMarkup | main.js:197-225 | definition of a block's markup at a depth; characterised by `SerializerProperties.ListBlockShape`, `BlockIsOneLine`, `BlockMarkupWhitelisted` and `Serializer.SerializeBlock` |
| Serializer.ListItemsMarkup | main.js:215-219 | definition of a list's item markup; characterised by `SerializerProperties.ListItemsSkipOthers`, `ListItemsWhitelisted` and `Serializer.SerializeListItems` |
| Serializer.DocumentMarkup | main.js:232-235 | definition of the driver's concatenated blocks; characterised by `SerializerProperties.DocumentIgnoresNonElements`, `DocumentFramed` and `DocumentWhitelisted` |
| Serializer.Pretty | main.js:229-237 | definition of `prettyHTML` on the parsed nodes; characterised by `SerializerProperties.PrettyDropsFinalNewline`, `PrettyEmptyIffNoElement` and `Serializer.PrettyHtml` |
| PrototypeLookup.CopyAttrsAsWritten | main.js:180-184 | definition of the attribute copy with the prototype-chain lookup, `None` standing for the thrown `TypeError`; characterised by `PrototypeLookup.ConstructorTagThrows` and `AsWrittenAgreesElsewhere` |
| Serializer.CopyAllowedAttrs | main.js:180-184 | the copy loop yields the rendering of the present whitelisted attributes, in table order |
| Serializer.InlineAttributes | main.js:153-184 | the attribute string built by colour lookup, class filter, colour push and copy loop is the rendering of the inline attribute list |
| Serializer.BlockAttributes | main.js:200-211 | the block attribute string is the rendering of the filtered classes and the copied attributes, with no colour |
| Serializer.SerializeInline | main.js:144-194 | the accumulating loop over the children returns the rendering of their inline markup |
| Serializer.SerializeBlock | main.js:197-225 | the block serializer returns the rendering of the block markup at the given depth |
| Serializer.SerializeListItems | main.js:215-219 | the list loop returns the rendering of the `li` children at the deeper level |
| Serializer.PrettyHtml | main.js:229-237 | the driver returns the trimmed rendering of the element children at depth zero |
| Serializer.ElementHtml | main.js:186-191 | an element contributes its children's inline text alone when it is a span with an empty attribute string, and otherwise its children wrapped in its tags |
| SerializerProperties.FilterAppend | main.js:169-170 | filtering distributes over concatenation, so kept tokens keep their relative order |
| SerializerProperties.FilterCount | main.js:169-170 | a permitted token is kept exactly as often as it occurs; every other token, the empty one included, never survives |
| SerializerProperties.FilterKeepsPermitted | main.js:169-170 | a list of permitted tokens passes the filter unchanged |
| SerializerProperties.FilterIdempotent | main.js:169-170 | filtering twice is filtering once |
| SerializerProperties.FilterDropsColorClasses | main.js:34 | a colour class written in `class` never survives the filter |
| SerializerProperties.StyleClassHasNoLayout | main.js:34 | no permitted class name holds a space or a line break |
| SerializerProperties.ColorClassHasNoLayout | main.js:24-30 | no colour class name holds a space or a line break |
| SerializerProperties.TokenHasNoLayout | main.js:24-34 | no class name of either table holds a space or a line break |
| SerializerProperties.ClassListIdempotent | main.js:202-205 | a class attribute listing only permitted names, joined by single spaces, yields the same class list again |
| SerializerProperties.InlineClassesShape | main.js:157-175 | the inline classes are the filtered tokens, followed by the style's colour class when there is one |
| SerializerProperties.ColorClassAtMostOnce | main.js:173-175 | a colour class occurs once among the inline classes if the style names it, and otherwise not at all |
| SerializerProperties.BlockClassesHaveNoColor | main.js:202-205 | every block class is a permitted name and none is a colour class |
| SerializerProperties.PresentAttrsSound | main.js:180-184 | every copied attribute is a listed name the element carries, with its value copied verbatim |
| SerializerProperties.PresentAttrsComplete | main.js:180-184 | every listed name the element carries is copied |
| SerializerProperties.AnchorAttrsExplicit | main.js:138 | an `a` copies `href`, `target`, `rel` in that order, each only when present; every other tag copies nothing |
| SerializerProperties.InlineClassesPermitted | main.js:167-178 | every inline class is a permitted name or a colour class |
| SerializerProperties.AnchorAttrsPermitted | main.js:180-184 | copied attributes carry only names from the tag's table |
| SerializerProperties.InlineAttrsPermitted | main.js:153-184 | every attribute of an inline element is a class list of permitted tokens or a name in the tag's table |
| SerializerProperties.BlockAttrsPermitted | main.js:200-211 | every attribute of a block element is a class list of permitted tokens or a name in the tag's table |
| SerializerProperties.InlineMarkupWhitelisted | main.js:144-194 | every opening tag in inline output carries only whitelisted classes and attributes |
| SerializerProperties.NodeMarkupWhitelisted | main.js:146-191 | every opening tag one child contributes carries only whitelisted classes and attributes |
| SerializerProperties.BlockMarkupWhitelisted | main.js:197-225 | every opening tag of a block, its list items included, carries only whitelisted classes and attributes |
| SerializerProperties.ListItemsWhitelisted | main.js:215-219 | every opening tag of a list's items carries only whitelisted classes and attributes |
| SerializerProperties.DocumentWhitelisted | main.js:229-237 | every opening tag the driver emits carries only whitelisted classes and attributes |
| SerializerProperties.InlineMarkupAppend | main.js:146-192 | the inline markup of a run of siblings is the concatenation of their markups, in document order |
| SerializerProperties.InlineHtmlAppend | main.js:146-192 | the inline text of a run of siblings is the concatenation of their texts |
| SerializerProperties.InlineLeaves | main.js:147-151 | a text node adds its data verbatim with no escaping; a node that is neither text nor element adds nothing |
| SerializerProperties.SpanUnwrapIff | main.js:186-190 | a span contributes exactly its children's markup if and only if no class survives and the style names no palette colour |
| SerializerProperties.NonSpanWrapped | main.js:191 | every element other than `span`, `ul` and `ol` included, is wrapped in its tags even with no attributes |
| SerializerProperties.InlineMarkupHasNoLayout | main.js:146-191 | inline markup holds text and tags only, never indentation or a line break |
| SerializerProperties.NodeMarkupHasNoLayout | main.js:146-191 | one child's inline markup holds text and tags only |
| SerializerProperties.InlineHtmlHasNoNewline | main.js:146-193 | the inline text holds no line break when the tree's text and attributes hold none |
| SerializerProperties.BlockIsOneLine | main.js:223-224 | a block that is not a list renders as indentation, opening tag with block attributes, inline text of its children, closing tag and a line break |
| SerializerProperties.BlockLineHasOneNewline | main.js:223-224 | such a block ends in its only line break when the tree holds none |
| SerializerProperties.ListBlockShape | main.js:213-222 | a list renders as its indented opening line, its items one level deeper, and its closing line at its own indentation |
| SerializerProperties.ListItemChildrenAreTheItems | main.js:215-216 | every item a list visits is one of its `li` element children, and every `li` element child is visited |
| SerializerProperties.ListItemChildrenAppend | main.js:215-219 | the items keep document order and multiplicity: the items of a concatenation are the items of each part, concatenated |
| SerializerProperties.ListItemChildOne | main.js:216 | a single child is an item exactly when it is an `li` element |
| SerializerProperties.ListItemsSkipOthers | main.js:215-219 | a list's children that are not `li` elements contribute nothing |
| SerializerProperties.BlockNeverColored | main.js:200-206 | a block's opening tag carries the filtered classes and copied attributes only, never a colour class |
| SerializerProperties.DocumentIgnoresNonElements | main.js:233-235 | top-level text and other non-elements do not change the driver's output |
| SerializerProperties.BlockFramed | main.js:213-224 | a top-level block starts with `<` and ends with `>` and a line break |
| SerializerProperties.DocumentFramedOrEmpty | main.js:232-235 | the concatenated top-level blocks are empty or start with `<` and end with `>` and a line break |
| SerializerProperties.DocumentFramed | main.js:232-235 | the concatenated blocks are empty exactly when the fragment has no element, and framed otherwise |
| SerializerProperties.TrimFramed | main.js:236 | `trim()` removes exactly the final line break of a framed text and leaves the empty text empty |
| SerializerProperties.PrettyDropsFinalNewline | main.js:236 | the driver's result is the concatenated blocks without their final line break |
| SerializerProperties.PrettyEmptyIffNoElement | main.js:229-237 | the result is empty exactly when the fragment has no element; otherwise it starts with `<` and ends with `>`, with no trailing line break |
| Scenarios.SpanUnwrapped | main.js:186-190 | `<span>hello</span>` is printed as `hello` |
| Scenarios.UnwrappedText | main.js:186-190 | a span whose attributes yield nothing is replaced by its text |
| Scenarios.WrappedText | main.js:191 | an element with a non-empty attribute string is wrapped around its text |
| Scenarios.ColorOnlyAttrs | main.js:157-178 | without `class`, a span whose style names palette colour c carries exactly the class c |
| Scenarios.PlainColorFound | main.js:159 | `color:#1B8B84` yields the group `#1B8B84`, case kept |
| Scenarios.PlainColorClass | main.js:159-163 | `color:#1B8B84` names `text-bluSmall` |
| Scenarios.ColoredSpan | main.js:157-191 | `<span style="color:#1B8B84">x</span>` is printed as `<span class="text-bluSmall">x</span>` |
| Scenarios.BackgroundColorMatches | main.js:159 | the unanchored pattern finds `color` inside `background-color` |
| Scenarios.GreedySixDigits | main.js:159 | at most six hex digits are taken, so `#1b8b84ff` yields `#1b8b84` |
| Scenarios.UnmappedColor | main.js:161-163 | a colour missing from the palette adds no class |
| Scenarios.UnmappedColorSpan | main.js:161-190 | `<span style="color:#123456">x</span>` keeps no class and is printed as `x` |
| Scenarios.ColorClassDropped | main.js:34 | a span whose class attribute is `text-bluSmall` gets no attributes |
| Scenarios.ColorClassNotStable | main.js:34 | `<span class="text-bluSmall">x</span>`, serialized again, is printed as `x`: output is not a fixed point |
| Scenarios.AnchorAttrList | main.js:180-184 | an anchor without `class` or `style` that has all three listed attributes carries exactly those, in table order |
| Scenarios.AnchorDropsOnclick | main.js:180-184 | `onclick` is dropped from an anchor, and `href`, `target`, `rel` are kept in that order |
| Scenarios.ItemLine | main.js:223 | an attribute-less `li` holding one text node is one indented line |
| Scenarios.TwoItems | main.js:215-219 | two items render as two lines, in document order |
| Scenarios.LoneBlock | main.js:233-235 | a fragment holding one element renders as that element's block |
| Scenarios.PrettyOf | main.js:236 | a rendering ending in one final line break is printed without it |
| Scenarios.TwoItemList | main.js:213-236 | a top-level list of two attribute-less items, each holding one text node, is printed on four lines |
| Scenarios.ListExample | main.js:213-236 | `<ul><li>A</li><li>B</li></ul>` is printed as `<ul>`, two items indented by two spaces, `</ul>`, with no final line break |
| PrototypeLookup.AttrTableLookup | main.js:138 | reading the table finds an own list exactly for `a`, and an inherited member exactly for the `Object.prototype` member names |
| PrototypeLookup.ConstructorTagThrows | main.js:180-184 | an element named `constructor` makes the copy throw, where the intended lookup copies nothing |
| PrototypeLookup.AsWrittenAgreesElsewhere | main.js:207-211 | the lookup as written fails exactly on the inherited member names; on every other tag it copies what the own-property lookup copies |

## Left out

- Editor configuration and plugin wiring (main.js:1-21, 35-127): third-party configuration data with no logic.
- Editor creation, the `change:data` subscription and the write to `#html-output` (main.js:129-136): UI and event plumbing.
- HTML parsing through `innerHTML` (main.js:230-231): the parsed node sequence is the input of `Serializer.Pretty` and `Serializer.PrettyHtml`.
- The parser's restructuring of invalid nesting is not modelled, because the input is taken as already parsed.
- `ALLOWED_COLORS` (main.js:33) is never read, so it is not modelled.
- `toLowerCase` of tag names (main.js:152, 199, 216): tags are assumed to arrive in lower case, as the HTML parser delivers them.
- `PrototypeLookup.AttrTableLookup`: the prototype-member set covers only the members of `Object.prototype`. An engine's non-standard extra members are not listed.
- A general regular-expression engine (main.js:159): the one pattern is a dedicated scanner. Case folding of the pattern letters is ASCII only, as for a pattern without the `u` flag.
- Escaping: text and attribute values are copied verbatim (main.js:147, 182), so no escaping or injection property is stated.
- A base configuration without the colour palette: only the colour-aware tables appear in the code.
- String representation: strings are sequences of Unicode scalar values, not UTF-16 code units. Lone surrogates in text are not represented.
- Attributes are a map from name to value. The parser keeps only the first of repeated attributes, and the code reads attributes by name only, so source order is not needed.
- `Serializer.SerializeListItems`: the inner `forEach` of lines 215-219 is its own method rather than a loop inside `Serializer.SerializeBlock`. The output is the same.
- `SerializerProperties.InlineHtmlHasNoNewline`: proved only for trees whose text, tag names and attribute values hold no line break. It is weaker than "a line break appears only where the text holds one", because the lemma does not track where in the output a line break comes from.
- `SerializerProperties.BlockLineHasOneNewline`: stated under the same hypothesis, for the same reason.
- The own-property lookup: everywhere but `PrototypeLookup`, `ALLOWED_ATTRS[tag]` is read as an own property (`Policy.AllowedAttrs`), the evidently intended behaviour; see Findings.

## Findings

| source | as written | input that shows it | evidently intended | confidence | as-written member | corrected member |
|---|---|---|---|---|---|---|
| main.js:180-184 | `ALLOWED_ATTRS[tag]` reads a plain object literal, so the tag `constructor` finds the inherited `Object.prototype.constructor`, a truthy function without `forEach`, and the copy loop throws a `TypeError` (likewise at lines 207-211) | an element `<constructor>x</constructor>` in the HTML string passed to `prettyHTML` (whether the editor's schema can produce such an element is not shown) | a tag with no entry in the table copies no attribute | not executed | PrototypeLookup.ConstructorTagThrows | SerializerProperties.AnchorAttrsExplicit |
