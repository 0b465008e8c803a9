# akt-browser document pipeline, modelled in Dafny

This project models the document pipeline of the toy terminal browser
akt-browser:

- the markup grammar that turns a page into a DOM forest;
- the DOM tree with its `inner_text`, `inner_html` and `to_string`
  serialiser, and the in-place `set_inner_html`;
- the `<style>`/`<script>` search of `Document`;
- the stylesheet grammar and selector matching;
- the style cascade, which builds a styled tree from a DOM tree and a
  stylesheet;
- the tree walk behind the script-visible `document.all` and
  `document.getElementById`;
- the response-type names and scheme dispatch of `fetch`;
- `resolves_path`.

One Dafny module stands for each source file. The shared modules are:

- `Parsing`: the parser outcome `Parsed<T>`, with a `committed` flag on
  failure. The flag is what decides what `many`, `sep_by`, `sep_end_by`,
  `optional` and `choice` do next. `Result` and `Option` are here too.
- `Chars`: the character classes `letter`, `digit` and `space`, `Span`,
  `Join` and `Concat`.

The grammars are total functions from the input to a `Parsed` outcome. They
reproduce the combinator library's consumed-versus-empty failure semantics,
so the model stops a repetition where the original stops and fails where the
original fails.

The model keeps the source's form:

- Parsers, serialisers and searches are pure functions.
- The two places that change state are imperative:
  - `set_inner_html` reassigns the `children` field of a `LiveNode` object.
  - The nested insertion loops of `to_styled_node` are a `method`, and so is
    the push/extend loop of `map_mut`.
- Each method is proved against a specification function (`Properties`,
  `Styled`, `StyledChildren`, `Walk`). The lemmas state the source's promises
  about those functions:
  - last write wins, with no inheritance;
  - the styled tree mirrors the DOM;
  - every non-root node is visited twice;
  - the walk has 2·size−1 entries.

The grammars are paired with the printers:

- Printing a well-formed element with `to_string` and parsing it back with
  `element` gives the same element (`HtmlRoundTrip.ToStringRoundTrip`).
- Printing a stylesheet and parsing it gives the same rules
  (`CssText.ParsePrinted`).
- The tests in the source are proved as lemmas on their literal inputs
  (`HtmlExamples`, `CssExamples`).

Three behaviours of the code are not what its signatures and names
suggest. The model follows the code:

- **HTML parse errors never surface.** `parse` returns
  `Result<_, HTMLParseError>`, yet `nodes` is
  `attempt(many(choice((attempt(element()), attempt(text())))))`, so it never
  fails. `parse` and `set_inner_html` therefore always succeed, and markup
  with mismatched tags ends the forest early instead of failing
  (`HtmlExamples.MismatchedForest`). The same holds for `set_inner_html`,
  which replaces the children rather than leaving them untouched.
- **A bad document style sheet drops the defaults.** If the document's
  style sheet fails to parse, the whole stylesheet is empty, the default
  rules included (`Style.BrokenStyleDropsDefaults`).
- **`~=` ignores the selector's value.** At `src/core/css.rs:88` the
  closure's parameter `value` shadows the selector's `value`. A `~=`
  selector holds when the attribute's whole value is one
  whitespace-separated token (`Css.ContainIgnoresValue`).

## Model

| member | source | states |
|---|---|---|
| Html.Unescape | src/core/html.rs:149 | replacing `&quot;` by `"` never lengthens the value and keeps a non-empty value non-empty |
| Html.ParseAttribute | src/core/html.rs:142-159 | the attribute rule fails without consuming input exactly when the input does not start with a letter; success consumes input |
| Chars.SkipSpaces | src/core/html.rs:107 | skipping white space never lengthens the input and leaves input that does not start with white space |
| Chars.SkipSpacesSplit | src/core/css.rs:140-146 | what is skipped is a white-space prefix: the input is that prefix followed by the rest |
| Chars.SkipSpacesOf | src/core/css.rs:145 | white space followed by non-white-space is skipped exactly |
| Chars.SkipSpacesIdempotent | src/core/css.rs:145 | skipping white space twice is skipping it once |
| Chars.SkipSpacesPrefix | src/core/html.rs:107 | extra leading white space does not change what the skip leaves |
| Html.ParseQuotedValue | src/core/html.rs:148-150 | a quoted value is non-empty and consumes input |
| Html.ParseAttributeList | src/core/html.rs:126-139 | `sep_by` over attributes never consumes more than its input |
| Html.MoreAttributes | src/core/html.rs:131-134 | the separator-then-attribute repetition never consumes more than its input |
| Html.ToAttrMap | src/core/html.rs:135-138 | the collected map holds exactly the names of the pairs, and each name maps to the value of its last pair, so a repeated attribute keeps its last value |
| Html.ParseOpenTag | src/core/html.rs:99-112 | a successful open tag has a non-empty letters tag name and consumes input |
| Html.ParseCloseTag | src/core/html.rs:115-123 | a close tag is exactly `</` letters `>` and nothing else |
| Html.ParseText | src/core/html.rs:90-96 | text succeeds iff the input starts with a character other than `<`, takes the maximal `<`-free run verbatim as a Text node, and stops before `<` |
| Html.ParseElement | src/core/html.rs:60-80 | a successful element consumes input |
| Html.ParseNodes | src/core/html.rs:82-88 | the node sequence never fails and leaves a suffix of the input |
| Html.ParseWithoutNormalization | src/core/html.rs:50-57 | the node sequence of the input is returned and no error ever surfaces |
| Html.Parse | src/core/html.rs:30-47 | url and document_uri are the response URL; one top-level node is the root as-is, any other count is wrapped in an attribute-less `html` element in order |
| HtmlRoundTrip.UnescapeNoEntity | src/core/html.rs:149 | a value without `&quot;` is unchanged by the replacement |
| HtmlRoundTrip.Escape | src/core/html.rs:149 | writing every `"` as `&quot;` never shortens the value and leaves no `"` in it |
| HtmlRoundTrip.UnescapeEscape | src/core/html.rs:149 | the `&quot;` replacement undoes that escaping for every value without the entity |
| HtmlRoundTrip.TextOf | src/core/html.rs:95 | a `<`-free non-empty run followed by `<` or the end is read as one Text node holding the run |
| HtmlRoundTrip.QuotedValueOf | src/core/html.rs:148-150 | a quoted run without `"` or `&quot;` reads back unchanged, the closing quote consumed |
| HtmlRoundTrip.QuotedRawOf | src/core/html.rs:148-150 | a quoted run without `"` reads as its unescaped text |
| HtmlRoundTrip.AttributeOf | src/core/html.rs:142-159 | `name="value"` reads as the pair (name, value) |
| HtmlRoundTrip.MoreAttributesOf | src/core/html.rs:131-134 | space-separated attributes are all read, in order, up to a non-letter non-space |
| HtmlRoundTrip.AttributeListOf | src/core/html.rs:126-139 | a space-joined attribute list reads back as exactly those pairs |
| HtmlRoundTrip.AttributeListEmpty | src/core/html.rs:131-134 | input that does not start with a letter gives the empty attribute list without consuming anything |
| HtmlRoundTrip.ToAttrMapEntries | src/core/html.rs:135-138 | collecting a map's entries, in iteration order, gives back the same map |
| HtmlRoundTrip.RepeatedAttributeLastWins | src/core/html.rs:135-138 | `id="a" id="b"` collects to the map with `id` = `b` |
| HtmlRoundTrip.OpenTagOf | src/core/html.rs:99-112 | the printed open tag of a letters tag with readable attributes reads back as that tag and attribute map |
| HtmlRoundTrip.OpenTagBare | src/core/html.rs:99-112 | `<tag>` reads as the tag with no attributes |
| HtmlRoundTrip.OpenTagWith | src/core/html.rs:99-112 | `<tag a="x" b="y">` reads as the tag with the map of those pairs |
| HtmlRoundTrip.CloseTagOf | src/core/html.rs:115-123 | `</tag>` reads as tag |
| HtmlRoundTrip.ElementRoundTrip | src/core/html.rs:60-80 | `element` reads the `to_string` of a well-formed element back as the same element, leaving what follows unread |
| HtmlRoundTrip.NodesStop | src/core/html.rs:87 | at the end of input or at a close tag the node sequence is empty and consumes nothing |
| HtmlRoundTrip.ForestRoundTrip | src/core/html.rs:82-88 | `nodes` reads the concatenated `to_string` of a well-formed forest back as that forest, stopping at a close tag or the end |
| HtmlRoundTrip.InnerHtmlRoundTrip | src/core/dom/node.rs:31-39 | re-parsing the `inner_html` of a well-formed element gives its children |
| HtmlRoundTrip.ToStringRoundTrip | src/core/dom/node.rs:48-77 | re-parsing the `to_string` of a well-formed element gives the element and no leftover input |
| HtmlExamples.AttributePlain | src/core/html.rs:262-266 | `test="foobar"` reads as (`test`, `foobar`) |
| HtmlExamples.AttributesPlain | src/core/html.rs:252-258 | `attributes` on `test="foobar"` reads the single pair (`test`, `foobar`), collected to the map {test: foobar}, and leaves nothing |
| HtmlExamples.AttributeSpaced | src/core/html.rs:268-271 | `test = "foobar"` reads as (`test`, `foobar`): spaces around `=` are skipped |
| HtmlExamples.SpacedAttributeOf | src/core/html.rs:151-158 | a name, a space, `=`, a space and a quoted value read as the name and the unescaped value |
| HtmlExamples.AttributeEntities | src/core/html.rs:273-276 | `test = "&quot;&quot;"` reads as (`test`, `""`) |
| HtmlExamples.OpenTagPlain | src/core/html.rs:222-225 | `<p>` reads as `p` with no attributes |
| HtmlExamples.OpenTagOneAttribute | src/core/html.rs:227-234 | `<p id="test">` reads as `p` with id=test |
| HtmlExamples.OpenTagTwoAttributes | src/core/html.rs:236-242 | `<p id="test" class="sample">` reads as `p` with both pairs |
| HtmlExamples.CloseTagPlain | src/core/html.rs:246-248 | `</p>` reads as `p` |
| HtmlExamples.TextRuns | src/core/html.rs:204-216 | `Hello World` reads whole; `Hello World<` leaves the `<` |
| HtmlExamples.EmptyElement | src/core/html.rs:183-186 | `<p></p>` reads as an empty `p` element |
| HtmlExamples.TextElement | src/core/html.rs:188-198 | `<p>Hello World</p>` reads as `p` holding one Text node |
| HtmlExamples.MismatchedTags | src/core/html.rs:65-79 | open and close names that differ make `element` fail after consuming input |
| HtmlExamples.MismatchedExample | src/core/html.rs:200 | `<p>Hello World</div>` is rejected by `element` |
| HtmlExamples.MismatchedForest | src/core/html.rs:87 | `nodes` on `<p>Hello World</div>` gives the empty forest and no error |
| HtmlExamples.AttributeWithoutEquals | src/core/html.rs:151-158 | a name followed by anything other than spaces or `=` is a committed failure |
| HtmlExamples.QuoteInValueBreaksRoundTrip | src/core/dom/node.rs:57 | a value containing `"` is printed unescaped, so the printed element no longer parses |
| DomNode.NewElement | src/core/html.rs:68 | `Element::new` builds an element node with exactly that tag, attribute map and children |
| DomNode.InnerText | src/core/dom/node.rs:18-29 | a node without children has empty `inner_text` |
| DomNode.InnerTextIsDescendantTexts | src/core/dom/node.rs:18-29 | `inner_text` is the concatenation, in document order and without separators, of the data of every Text descendant |
| DomNode.SubtreeText | src/core/dom/node.rs:23-26 | a Text child contributes its data and an element child its own `inner_text`, which is the text of its subtree |
| DomNode.Entries | src/core/dom/node.rs:52-56 | the attribute iteration lists every entry of the map exactly once |
| DomNode.AttrTexts | src/core/dom/node.rs:57 | each attribute prints as `k="v"`, in iteration order |
| DomNode.ToString | src/core/dom/node.rs:48-77 | a Text node prints as its data; an element prints as `<tag`, then its children's markup, then `</tag>` |
| DomNode.ToStringShape | src/core/dom/node.rs:68-72 | both open-tag forms, with and without attributes, give that shape |
| DomNode.InnerHtml | src/core/dom/node.rs:31-39 | a childless node has empty `inner_html` |
| DomNode.ToStringNoAttributes | src/core/dom/node.rs:68-72 | without attributes the open tag is `<tag>`, with no space before `>` |
| DomText.NewText | src/core/dom/text.rs:9-14 | `Text::new` is total: a Text node holding the argument unchanged, with no children |
| DomText.NewTextToString | src/core/dom/node.rs:74 | a Text node prints as its data, verbatim and unescaped |
| DomEdit.LiveNode.constructor | src/core/dom/node.rs:11-15 | a live node holds the node's type and children |
| DomEdit.LiveNode.SetInnerHtml | src/core/dom/node.rs:41-45 | the children become the parsed forest, the node type is untouched, the call succeeds, and re-setting a well-formed element's own `inner_html` changes nothing |
| DomDocument.NewDocument | src/core/dom/document.rs:11-17 | the three fields are stored unchanged |
| DomDocument.Intl | src/core/dom/document.rs:23-39 | the search yields the `inner_text` of each outermost tagged element of the subtree, in document order |
| DomDocument.IntlChildren | src/core/dom/document.rs:30-38 | over a child list the search yields the texts of the outermost tagged elements of each child in turn |
| DomDocument.OutermostStep | src/core/dom/document.rs:24-38 | a tagged root is the only outermost element and the search stops there; otherwise it descends into the children |
| DomDocument.MarkedNodes | src/core/dom/document.rs:30-38 | the marked listing visits the subtree in document order |
| DomDocument.OutermostTagged | src/core/dom/document.rs:24-27 | each outermost element carries the tag and belongs to the tree |
| DomDocument.OutermostUnnested | src/core/dom/document.rs:23-39 | without nesting, the outermost tagged elements are all the tagged elements |
| DomDocument.CollectTagInners | src/core/dom/document.rs:19-39 | the result is the `inner_text` of each outermost tagged element (one with no tagged ancestor), in document order; a tagged root yields exactly its own text; a tree without the tag yields nothing; every result is the text of a tagged element |
| DomDocument.GetScriptInners | src/core/dom/document.rs:41-43 | the `inner_text` of each outermost `script` element of the document tree, in document order, each one the text of a `script` element |
| DomDocument.GetStyleInners | src/core/dom/document.rs:45-47 | the `inner_text` of each outermost `style` element of the document tree, in document order, each one the text of a `style` element |
| DomDocument.IntlNoMatch | src/core/dom/document.rs:23-39 | no tagged node in the subtree means an empty result; Text nodes contribute nothing |
| DomDocument.IntlSound | src/core/dom/document.rs:23-39 | every string found is the `inner_text` of a tagged element of the subtree |
| DomDocument.IntlUnnested | src/core/dom/document.rs:23-39 | when tagged elements are not nested, the search yields the `inner_text` of every tagged element in document order (a corollary of `Intl`'s contract and `OutermostUnnested`) |
| DomDocument.NestedTagExample | src/core/dom/document.rs:24-27 | a `style` inside a `style` is not searched on its own: only the outer one's whole text is returned |
| Css.SplitAsciiWhitespace | src/core/css.rs:90 | the tokens are non-empty and free of ASCII whitespace, and there are none iff the input is all ASCII whitespace |
| Css.WholeIsToken | src/core/css.rs:88-92 | a value is one of its own tokens iff it is non-empty and has no ASCII whitespace |
| Css.SplitRun | src/core/css.rs:90 | a white-space run, a token, then white space or the end splits into that token followed by the split of the rest |
| Css.SelectorMatches | src/core/css.rs:67-104 | the universal selector matches every node; a Text node is matched only by it |
| Css.AnySelectorMatches | src/core/css.rs:33 | `any` holds iff some selector of the list matches |
| Css.RuleMatches | src/core/css.rs:32-34 | a rule matches iff one of its selectors matches; a rule without selectors matches nothing |
| Css.ContainMatches | src/core/css.rs:85-94 | `tag[attr~=v]` holds iff the tag matches and the attribute exists, is non-empty and has no ASCII whitespace |
| Css.ContainIgnoresValue | src/core/css.rs:75-94 | the selector's value never changes the outcome of a `~=` match |
| Css.ClassIsWholeAttribute | src/core/css.rs:99-101 | a class selector compares the whole `class` attribute: `.a` does not match `class="a b"` |
| Css.Whitespaces | src/core/css.rs:140-146 | `whitespaces` always succeeds, returns the longest white-space prefix and the rest unchanged |
| Css.ParseCssValue | src/core/css.rs:281-295 | a value fails without consuming iff the input starts with neither a letter nor a digit; a keyword is a non-empty letter run |
| Css.ParseDeclaration | src/core/css.rs:266-278 | a declaration fails without consuming iff no letter leads; its name is a non-empty letter run |
| Css.ParseDeclarations | src/core/css.rs:254-263 | `sep_end_by` fails only after consuming input |
| Css.MoreDeclarations | src/core/css.rs:259-262 | the repetition keeps the declarations read so far as a prefix and fails only after consuming input |
| Css.ParseAttributePart | src/core/css.rs:213-219 | once `[` is read any failure is committed; success is an attribute selector on the given tag |
| Css.ParseClassSelector | src/core/css.rs:204-207 | after `.` the letters are required; success is a class selector |
| Css.ParseTypeOrAttribute | src/core/css.rs:209-244 | fails without consuming iff no letter leads; success is a type or attribute selector |
| Css.ParseSimpleSelector | src/core/css.rs:196-251 | fails without consuming iff the input starts with none of `*`, `.` or a letter |
| Css.ParseSelectors | src/core/css.rs:176-185 | `sep_by` fails only after consuming input |
| Css.MoreSelectors | src/core/css.rs:181-184 | after a `,` a selector must follow; failures are committed |
| Css.ParseRule | src/core/css.rs:156-173 | a rule fails without consuming only when the input starts with neither a selector nor `{` |
| Css.ManyRules | src/core/css.rs:153 | `many(rule)` keeps the rules read so far as a prefix; only a failure after consuming input fails the list |
| Css.ParseRules | src/core/css.rs:148-154 | `rules` fails only after consuming input |
| Css.Parse | src/core/css.rs:132-137 | `parse` succeeds iff the rules parse, and then holds exactly those rules; input after them is dropped |
| CssText.NatText | src/core/css.rs:290 | the printed digits of n parse back to n |
| CssText.CssValueOf | src/core/css.rs:281-295 | a printed keyword or `<digits>em` reads back as the same value |
| CssText.LengthOf | src/core/css.rs:289-293 | `<digits>em` reads as `Length(n, Em)` |
| CssText.DeclarationOf | src/core/css.rs:266-278 | `name ws : ws value` reads back as that declaration, for any white space around `:` |
| CssText.MoreDeclarationsOf | src/core/css.rs:259-262 | `; `-separated declarations are all read, in order |
| CssText.DeclarationsOf | src/core/css.rs:254-263 | a printed declaration list reads back as exactly those declarations, an optional trailing `;` consumed |
| CssText.AttributePartOf | src/core/css.rs:213-219 | `attr=v]` and `attr~=v]` read back as the attribute test with that operator |
| CssText.AttributeSelectorOf | src/core/css.rs:209-244 | `tag[attr=v]` and `tag[attr~=v]` read back as the attribute selector |
| CssText.TypeSelectorOf | src/core/css.rs:243 | a letters tag without `[` reads as a type selector, with the white space after it consumed |
| CssText.ClassSelectorOf | src/core/css.rs:204-207 | `.letters` reads as a class selector |
| CssText.SelectorOf | src/core/css.rs:196-251 | every printed selector reads back as itself |
| CssText.MoreSelectorsOf | src/core/css.rs:181-184 | `, `-separated selectors are all read, in order |
| CssText.SelectorsOf | src/core/css.rs:176-185 | a printed selector list reads back as exactly those selectors |
| CssText.BlockOf | src/core/css.rs:164-167 | a declaration block with any inner white space and an optional final `;` reads as its declarations up to `}` |
| CssText.RuleOf | src/core/css.rs:156-173 | `selectors ws { ws declarations ws }` reads back as that rule |
| CssText.PrintedRuleOf | src/core/css.rs:156-173 | a printed rule reads back as itself, leaving what follows |
| CssText.ManyRulesOf | src/core/css.rs:153 | printed rules are all read, in order, before whatever follows |
| CssText.ParsePrinted | src/core/css.rs:132-137 | parsing a printed stylesheet gives back the same stylesheet |
| CssText.ParsePrintedThen | src/core/css.rs:135 | whatever text follows printed rules, a successful parse begins with exactly those rules |
| CssExamples.OneEm | src/core/css.rs:442-444 | `1em` reads as `Length(1, Em)` |
| CssExamples.DisplayFlex | src/core/css.rs:425-438 | `display: flex` reads as the keyword declaration |
| CssExamples.TwoDeclarations | src/core/css.rs:404-421 | `display: flex; width: 16em; }` reads as the two declarations and stops at `}` |
| CssExamples.TwoAttributeSelectors | src/core/css.rs:379-400 | `a[display=flex], div[background~=g] {` reads as the Eq and Contain selectors and stops at `{` |
| CssExamples.ClassRule | src/core/css.rs:353-375 | `.test { display: flex; width: 1em }` reads as the class rule with both declarations |
| CssExamples.FirstTestRuleOf | src/core/css.rs:304-323 | the first rule of the stylesheet test reads as the `div[display=flex]` rule |
| CssExamples.SecondTestRuleOf | src/core/css.rs:324-332 | `.rule { backgound: none;  }` reads as the class rule |
| CssExamples.TwoRuleSheet | src/core/css.rs:302-334 | the two-rule stylesheet test parses to exactly the asserted stylesheet |
| CssExamples.WhitespaceRuns | src/core/css.rs:338-349 | `whitespaces` takes spaces, tabs, CR and LF, and stops before `444` |
| CssExamples.ContainExamples | src/core/css.rs:85-94 | `div[background~=g]` matches `background="red"` and not `background="g r"` |
| CssExamples.EqExamples | src/core/css.rs:82-84 | `div[display=flex]` needs the tag and exactly that attribute value |
| Style.DisplayOf | src/core/style.rs:32-41 | Block iff `display` is the keyword `block`, None iff it is `none`; anything else, a length or no `display` gives Inline |
| Style.Properties | src/core/style.rs:67-75 | a property exists iff some matching rule declares it: no default and no inheritance |
| Style.ComputeProperties | src/core/style.rs:71-75 | the nested insertion loops compute the properties of the node |
| Style.Styled | src/core/style.rs:67-89 | the styled tree has the DOM's shape: same node type, the node's own properties, same number and order of children, node by node |
| Style.StyledChildren | src/core/style.rs:84-89 | styling a node sequence keeps its length, and the i-th styled node mirrors the i-th node under the same sheet |
| Style.ToStyledNode | src/core/style.rs:67-82 | `to_styled_node` builds the styled tree of the node |
| Style.ToStyledNodes | src/core/style.rs:84-89 | `to_styled_nodes` styles each node, in order |
| Style.ToStyledDocument | src/core/style.rs:53-65 | the document element is styled with the default sheet plus the document's style text, or with no rules when that does not parse |
| Style.SheetOf | src/core/style.rs:53-59 | the sheet is the default rules followed by the rules parsed from the joined `style` texts, or empty when those do not parse |
| Style.InsertLastWins | src/core/style.rs:71-75 | after the inserts a name holds the value of its last declaration; undeclared names keep their value |
| Style.InsertDeclaredIgnoresStart | src/core/style.rs:73 | the value of a declared name does not depend on the map inserted into |
| Style.LaterRuleWins | src/core/style.rs:71-75 | once a matching rule declares a name, the rules before it have no say in its value |
| Style.PropertiesOwnType | src/core/style.rs:67-75 | a node's properties depend only on its own tag and attributes and the sheet, never on ancestors or children |
| Style.EmptySheetInline | src/core/style.rs:59 | with no rules every node has an empty property map and displays Inline |
| Style.DefaultSheetRules | src/core/style.rs:44-51 | the default sheet reads as `script, style { display: none }` then `p, div { display: block }`, and the parse continues after it |
| Style.ManyRulesAfter | src/core/css.rs:153 | `many(rule)` adds the same rules after whatever was read before |
| Style.NoStyleDefaultsOnly | src/core/style.rs:53-59 | a document without style elements gets exactly the default rules |
| Style.BrokenStyleDropsDefaults | src/core/style.rs:59 | a document whose style text is `p {` gets no rules at all, the defaults included |
| Style.UnclosedRuleFails | src/core/css.rs:161-168 | `p {` fails to parse after consuming input |
| Style.DefaultDisplay | src/core/style.rs:44-51 | under the default rules, script and style display None, p and div Block, everything else Inline |
| Style.DocumentOverridesDefaults | src/core/style.rs:54-58 | a declaration of a matching document rule overrides the defaults and all earlier rules |
| Style.AppendedRuleWins | src/core/style.rs:71-75 | rules appended after others decide every name they declare |
| JsDocument.MapMut | src/javascript/extensions/document.rs:233-246 | the loop's output is `f(child)` then the walk of that child, for each child in order, then `f(node)` |
| JsDocument.Walk | src/javascript/extensions/document.rs:233-246 | the output has 2·size−1 entries and ends with `f(root)` |
| JsDocument.WalkIsMapOfVisits | src/javascript/extensions/document.rs:233-246 | `f` is applied once per visited node, in visit order |
| JsDocument.VisitsCount | src/javascript/extensions/document.rs:239-244 | the root is visited once and every other node of the tree twice |
| JsDocument.VisitsMembers | src/javascript/extensions/document.rs:233-246 | a node is visited iff it belongs to the tree |
| JsDocument.Id | src/javascript/extensions/document.rs:153 | `Element::id` is the `id` attribute when present |
| JsDocument.Elements | src/javascript/extensions/document.rs:106-109 | the filter keeps exactly the element nodes |
| JsDocument.FirstWithId | src/javascript/extensions/document.rs:165-168 | a found node is one of the nodes and has the id; nothing is found iff no node has it |
| JsDocument.FirstWithIdSpec | src/javascript/extensions/document.rs:165-168 | `find_map` gives the first element with the id: no earlier node has it |
| JsDocument.All | src/javascript/extensions/document.rs:84-109 | no document gives nothing; otherwise the element nodes in walk order |
| JsDocument.KeepSome | src/javascript/extensions/document.rs:106-109 | the `filter_map` loop keeps exactly the elements of the visited nodes, in order |
| JsDocument.AllMembers | src/javascript/extensions/document.rs:97-109 | `all` holds exactly the elements of the tree |
| JsDocument.GetElementById | src/javascript/extensions/document.rs:137-168 | no document gives nothing; otherwise the first element in walk order whose id is the argument |
| JsDocument.GetElementByIdSpec | src/javascript/extensions/document.rs:150-168 | the result is an element of the tree with that id, and there is none only when no element of the tree has it |
| JsDocument.SetInnerHtmlFromScript | src/javascript/extensions/document.rs:55-65 | the children become the parsed forest, the node type is kept, and a re-render is requested |
| Fetch.ParseResponseTypeAccepts | src/core/fetch.rs:32-43 | exactly the four lower-case names are accepted, and anything else gives `invalid response type` |
| Fetch.ResponseTypeName | src/core/fetch.rs:21-43 | `from_str(to_string(t)) == Ok(t)` for every variant |
| Fetch.ResponseTypeNameInjective | src/core/fetch.rs:21-30 | distinct variants display differently |
| Fetch.NewRequest | src/core/fetch.rs:52-56 | the URL is stored unchanged |
| Fetch.FetchResource | src/core/fetch.rs:85-123 | success iff the URL parses with scheme `file` and the file reads; every error carries no response |
| Fetch.FetchFileRead | src/core/fetch.rs:88-97 | a read file gives a Basic, status-OK response with no headers, the bytes read and the parsed URL |
| Fetch.FetchFileUnreadable | src/core/fetch.rs:98 | a failed read is `NetworkError` with no response |
| Fetch.FetchBadUrl | src/core/fetch.rs:117-121 | an unparsable URL is `URLParseError` carrying the parser's error |
| Fetch.FetchUnsupportedScheme | src/core/fetch.rs:101-115 | `http` and `https` are refused as `http(s)`, other schemes under their own name, without reading anything |
| Utils.PushPath | src/utils.rs:10 | pushing a relative path puts one `/` between base and path unless the base is empty or ends in `/` |
| Utils.ResolvesPath | src/utils.rs:3-13 | the target is returned unchanged iff it is `http://` or `https://`; otherwise the result starts with `file://` and ends with the target |
| Utils.ResolvesAbsolute | src/utils.rs:7-8 | a target starting with `/` becomes `file://` followed by it |
| Utils.ResolvesRelative | src/utils.rs:9-12 | a relative target becomes `file://`, the base directory, then the target at the end |
| Utils.BaseOnlyForRelative | src/utils.rs:3-13 | the base directory matters only for relative targets |

## Left out

- Layout, terminal UI, CLI, event loop and the V8 runtime glue are outside
  this model. That includes the raw-pointer node references, `request_rerender`
  (reduced to a returned flag) and the logging of a failed `innerHTML` set.
- `src/core/dom/element.rs` is not part of this model. An element is a tag
  name plus an attribute map. `Element::id` is taken to be the value of the
  `id` attribute (`JsDocument.Id`).
- `Url::parse` and `fs::read` are passed in as functions. A URL is reduced
  to its scheme and path.
- The UTF-8 decoding `unwrap` in `parse_without_normalziation` is not
  modelled. The input is a character sequence from the start.
- `letter()` is restricted to ASCII letters. The original accepts every
  Unicode alphabetic character. `space()` follows the Unicode White_Space
  list.
- The `usize` of a length is an unbounded natural. The overflow `unwrap`
  on very long digit runs is not modelled.
- `HashMap` iteration order is unspecified. `DomNode.Entries` picks some
  order without repetition, so no lemma depends on which one.
- `PathBuf::push` is modelled as string joining with one `/`
  (`Utils.PushPath`). Its replacement of the base by an absolute pushed
  path cannot arise here, since absolute targets never reach it.
  `to_str().unwrap()` is not modelled.
- The error values of the parsers do not carry positions or messages. A
  failure is `Fail(committed)`, and the top-level errors are a single
  `InvalidResourceError`.
- The styled node stores a copy of the DOM node type, not a reference to it.
- `Html.ParseAttributeList`, `Html.MoreAttributes`, `Html.ParseOpenTag`,
  `Html.ParseElement` and `Html.ParseNodes`: their own contracts only bound
  what they consume. What they read is stated by `HtmlRoundTrip.AttributeListOf`,
  `HtmlRoundTrip.OpenTagOf`, `HtmlRoundTrip.ElementRoundTrip` and
  `HtmlRoundTrip.ForestRoundTrip`.
- `Css.ParseDeclarations`, `Css.MoreDeclarations`, `Css.ParseSelectors`,
  `Css.MoreSelectors` and `Css.ParseRules`: their own contracts only say that
  failures are committed. What they read is stated by `CssText.DeclarationsOf`,
  `CssText.SelectorsOf`, `CssText.ManyRulesOf` and `CssText.ParsePrinted`.
- `DomNode.InnerText`, `DomNode.InnerHtml`: their own contracts cover only
  the childless case. The general statement is
  `DomNode.InnerTextIsDescendantTexts` and `HtmlRoundTrip.InnerHtmlRoundTrip`.
- `Chars.SkipSpaces`: its own contract says only that it never lengthens the
  input and that no white space is left at the head. `Chars.SkipSpacesSplit`
  states that what it removes is a white-space prefix of the input; a
  quantified contract on the function itself made the grammar proofs too
  costly to check.
- `Html.Unescape`: its own contract only bounds the length.
  `HtmlRoundTrip.UnescapeEscape` states that it undoes the `"` to `&quot;`
  escaping for every value without the entity, and
  `HtmlRoundTrip.UnescapeNoEntity` that entity-free text is unchanged.
- `Css.SplitAsciiWhitespace`: its own contract states the shape of the tokens
  and that there are none exactly for blank input. Where the input splits is
  stated by `Css.SplitRun`.
- `Fetch.ParseResponseType` carries no contract of its own, because a contract
  mentioning `Fetch.ResponseTypeName` would make the two functions depend on
  each other. `Fetch.ParseResponseTypeAccepts` states what it accepts and
  rejects, and `Fetch.ResponseTypeName` that it inverts the display names.
- The discriminant 200 of `HTTPStatus::OK` (`src/core/fetch.rs:8-11`) is not
  modelled, because nothing in this core reads it. The variant is
  `Fetch.HttpStatus.StatusOk`, the status of every file response
  (`Fetch.FetchFileRead`).
