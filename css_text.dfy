/**
 * A printed form of stylesheets and the proof that the grammar reads it back.
 * The composition lemmas take the white space between tokens as parameters,
 * so they also cover hand-written sheets whose spacing differs from the
 * printed form.
 */
module CssText {
  import opened Chars
  import opened Parsing
  import opened Css

  predicate Word(w: string) {
    w != [] && AllLetters(w)
  }

  function DigitChar(d: nat): (c: char)
    requires d < 10
    ensures IsDigit(c) && c as int - '0' as int == d
  {
    ('0' as int + d) as char
  }

  /** The decimal digits of `n`, without leading zeros. */
  function NatText(n: nat): (r: string)
    ensures r != [] && AllDigits(r) && DecimalValue(r) == n
  {
    if n < 10 then [DigitChar(n)]
    else
      var r := NatText(n / 10) + [DigitChar(n % 10)];
      assert r[..|r| - 1] == NatText(n / 10);
      r
  }

  function ValueText(v: CssValue): string {
    match v
    case Keyword(w) => w
    case Length(n, _) => NatText(n) + "em"
  }

  predicate ValueOk(v: CssValue) {
    v.Keyword? ==> Word(v.word)
  }

  function DeclarationText(d: Declaration): string {
    d.name + (":" + (" " + ValueText(d.value)))
  }

  predicate DeclarationOk(d: Declaration) {
    Word(d.name) && ValueOk(d.value)
  }

  predicate DeclarationsOk(ds: seq<Declaration>) {
    forall i :: 0 <= i < |ds| ==> DeclarationOk(ds[i])
  }

  /** Declarations separated by `; `. */
  function DeclarationsText(ds: seq<Declaration>): string {
    if ds == [] then "" else DeclarationText(ds[0]) + DeclarationsTail(ds[1..])
  }

  function DeclarationsTail(ds: seq<Declaration>): string {
    if ds == [] then "" else "; " + (DeclarationText(ds[0]) + DeclarationsTail(ds[1..]))
  }

  function OpText(op: AttributeSelectorOp): string {
    match op
    case Eq => "="
    case Contain => "~="
  }

  function SelectorText(sel: SimpleSelector): string {
    match sel
    case UniversalSelector => "*"
    case TypeSelector(tag) => tag
    case AttributeSelector(tag, op, attribute, value) => tag + ("[" + (attribute + (OpText(op) + (value + "]"))))
    case ClassSelector(c) => "." + c
  }

  predicate SelectorOk(sel: SimpleSelector) {
    match sel
    case UniversalSelector => true
    case TypeSelector(tag) => Word(tag)
    case AttributeSelector(tag, _, attribute, value) => Word(tag) && Word(attribute) && Word(value)
    case ClassSelector(c) => Word(c)
  }

  predicate SelectorsOk(sels: seq<SimpleSelector>) {
    forall i :: 0 <= i < |sels| ==> SelectorOk(sels[i])
  }

  /** Selectors separated by `, `. */
  function SelectorsText(sels: seq<SimpleSelector>): string {
    if sels == [] then "" else SelectorText(sels[0]) + SelectorsTail(sels[1..])
  }

  function SelectorsTail(sels: seq<SimpleSelector>): string {
    if sels == [] then "" else ", " + (SelectorText(sels[0]) + SelectorsTail(sels[1..]))
  }

  /** `selectors { declarations }`. */
  function RuleText(r: Rule): string {
    SelectorsText(r.selectors) + (" " + ("{" + (" " + (DeclarationsText(r.declarations) + (" " + "}")))))
  }

  predicate RuleOk(r: Rule) {
    SelectorsOk(r.selectors) && DeclarationsOk(r.declarations)
  }

  predicate RulesOk(rs: seq<Rule>) {
    forall i :: 0 <= i < |rs| ==> RuleOk(rs[i])
  }

  /** Each rule on a line of its own. */
  function RulesText(rs: seq<Rule>): string {
    if rs == [] then "" else RuleText(rs[0]) + ("\n" + RulesText(rs[1..]))
  }

  // ----------------------------------------------------------------- values

  /** A printed value starts with a letter or a digit. */
  lemma ValueTextStart(v: CssValue)
    requires ValueOk(v)
    ensures ValueText(v) != [] && (IsLetter(ValueText(v)[0]) || IsDigit(ValueText(v)[0]))
  {
  }

  lemma CssValueOf(v: CssValue, t: string)
    requires ValueOk(v)
    requires v.Keyword? ==> t == [] || !IsLetter(t[0])
    ensures ParseCssValue(ValueText(v) + t) == Done(v, t)
  {
    match v
    case Keyword(w) =>
      SpanOf(w, t, Letters);
      SplitAt(w, t);
    case Length(n, unit) =>
      assert ValueText(v) + t == NatText(n) + "em" + t;
      LengthOf(n, t);
      assert unit == Em;
  }

  lemma LengthOf(n: nat, t: string)
    ensures ParseCssValue(NatText(n) + "em" + t) == Done(Length(n, Em), t)
  {
    var digits := NatText(n);
    var s := digits + ("em" + t);
    assert digits + "em" + t == s;
    SpanOf([], s, Letters);
    SpanOf(digits, "em" + t, Digits);
    SplitAt(digits, "em" + t);
  }

  // ----------------------------------------------------------- declarations

  /** `name w1 : w2 value`, followed by anything that cannot extend a keyword. */
  lemma DeclarationOf(s: string, d: Declaration, w1: string, w2: string, t: string)
    requires DeclarationOk(d) && AllSpaces(w1) && AllSpaces(w2)
    requires d.value.Keyword? ==> t == [] || !IsLetter(t[0])
    requires s == d.name + (w1 + (":" + (w2 + (ValueText(d.value) + t))))
    ensures ParseDeclaration(s) == Done(d, t)
  {
    var value := ValueText(d.value) + t;
    var colon := ":" + (w2 + value);
    var tail := w1 + colon;
    assert tail[0] == if w1 == [] then ':' else w1[0];
    SpanOf(d.name, tail, Letters);
    SplitAt(d.name, tail);
    SkipSpacesOf(w1, colon);
    ValueTextStart(d.value);
    assert value[0] == ValueText(d.value)[0];
    assert colon[1..] == w2 + value;
    SkipSpacesOf(w2, value);
    CssValueOf(d.value, t);
  }

  /** What may follow a list of declarations: the `;` it ends with, if any, is consumed with the white space after it. */
  function AfterDeclarations(t: string): string {
    var u := SkipSpaces(t);
    if u != [] && u[0] == ';' then SkipSpaces(u[1..]) else u
  }

  predicate EndsDeclarations(t: string) {
    (t == [] || !IsLetter(t[0]))
    && (AfterDeclarations(t) == [] || !IsLetter(AfterDeclarations(t)[0]))
  }

  lemma DeclarationsOkTail(ds: seq<Declaration>)
    requires ds != [] && DeclarationsOk(ds)
    ensures DeclarationOk(ds[0]) && DeclarationsOk(ds[1..])
  {
    assert forall i :: 0 <= i < |ds| - 1 ==> ds[1..][i] == ds[i + 1];
  }

  /** What follows a declaration inside a list: another `;`, or the end of the list. */
  lemma DeclarationFollow(ds: seq<Declaration>, t: string)
    requires EndsDeclarations(t)
    ensures var more := DeclarationsTail(ds) + t; more == [] || !IsLetter(more[0])
  {
  }

  lemma DeclarationTextAppend(d: Declaration, t: string)
    ensures DeclarationText(d) + t == d.name + ("" + (":" + (" " + (ValueText(d.value) + t))))
  {
    var v := ValueText(d.value);
    Assoc(d.name, ":" + (" " + v), t);
    Assoc(":", " " + v, t);
    Assoc(" ", v, t);
    assert "" + (":" + (" " + (v + t))) == ":" + (" " + (v + t));
  }

  lemma DeclarationsTextAppend(ds: seq<Declaration>, t: string)
    requires ds != []
    ensures DeclarationsText(ds) + t == DeclarationText(ds[0]) + (DeclarationsTail(ds[1..]) + t)
  {
    Assoc(DeclarationText(ds[0]), DeclarationsTail(ds[1..]), t);
  }

  lemma DeclarationsTailAppend(ds: seq<Declaration>, t: string)
    requires ds != []
    ensures DeclarationsTail(ds) + t == ";" + (" " + (DeclarationText(ds[0]) + (DeclarationsTail(ds[1..]) + t)))
  {
  }

  lemma MoreDeclarationsEnd(t: string, acc: seq<Declaration>)
    requires EndsDeclarations(t)
    ensures MoreDeclarations(SkipSpaces(t), acc) == Done(acc, AfterDeclarations(t))
  {
  }

  /** One `;`, the space after it and one declaration are consumed, and the list goes on after them. */
  lemma MoreDeclarationsStep(s: string, d: Declaration, more: string, acc: seq<Declaration>)
    requires DeclarationOk(d) && (more == [] || !IsLetter(more[0]))
    requires s == ";" + (" " + (DeclarationText(d) + more))
    ensures MoreDeclarations(SkipSpaces(s), acc) == MoreDeclarations(SkipSpaces(more), acc + [d])
  {
    var first := DeclarationText(d) + more;
    SkipSpacesNone(s);
    assert s[1..] == " " + first;
    DeclarationTextAppend(d, more);
    assert first[0] == d.name[0];
    SkipSpacesOf(" ", first);
    DeclarationOf(first, d, "", " ", more);
  }

  lemma {:induction false} MoreDeclarationsOf(s: string, ds: seq<Declaration>, acc: seq<Declaration>, t: string)
    requires DeclarationsOk(ds) && EndsDeclarations(t)
    requires s == DeclarationsTail(ds) + t
    ensures MoreDeclarations(SkipSpaces(s), acc) == Done(acc + ds, AfterDeclarations(t))
    decreases ds
  {
    if ds == [] {
      assert s == t && acc + ds == acc;
      MoreDeclarationsEnd(t, acc);
    } else {
      DeclarationsOkTail(ds);
      var more := DeclarationsTail(ds[1..]) + t;
      DeclarationsTailAppend(ds, t);
      DeclarationFollow(ds[1..], t);
      MoreDeclarationsStep(s, ds[0], more, acc);
      MoreDeclarationsOf(more, ds[1..], acc + [ds[0]], t);
      AppendFirst(acc, ds);
    }
  }

  /** A list of declarations is read back, and the rest is what follows it. */
  lemma DeclarationsOf(s: string, ds: seq<Declaration>, t: string)
    requires DeclarationsOk(ds) && EndsDeclarations(t)
    requires s == DeclarationsText(ds) + t
    ensures ParseDeclarations(s) == Done(ds, if ds == [] then t else AfterDeclarations(t))
  {
    if ds == [] {
      assert s == t;
    } else {
      SomeDeclarationsOf(s, ds, t);
    }
  }

  lemma SomeDeclarationsOf(s: string, ds: seq<Declaration>, t: string)
    requires ds != [] && DeclarationsOk(ds) && EndsDeclarations(t)
    requires s == DeclarationsText(ds) + t
    ensures ParseDeclarations(s) == Done(ds, AfterDeclarations(t))
  {
    DeclarationsOkTail(ds);
    var d := ds[0];
    var more := DeclarationsTail(ds[1..]) + t;
    assert ParseDeclaration(s) == Done(d, more) by {
      DeclarationsTextAppend(ds, t);
      DeclarationTextAppend(d, more);
      DeclarationFollow(ds[1..], t);
      DeclarationOf(s, d, "", " ", more);
    }
    DeclarationsStep(s, d, more);
    MoreDeclarationsOf(more, ds[1..], [d], t);
    assert [d] + ds[1..] == ds;
  }

  /** A list whose first declaration reads goes on with the rest after it. */
  lemma DeclarationsStep(s: string, d: Declaration, rest: string)
    requires ParseDeclaration(s) == Done(d, rest)
    ensures ParseDeclarations(s) == MoreDeclarations(SkipSpaces(rest), [d])
  {
  }

  // -------------------------------------------------------------- selectors

  /** What may follow a selector without extending it. */
  predicate EndsSelector(sel: SimpleSelector, t: string) {
    ((sel.ClassSelector? || sel.TypeSelector?) ==> t == [] || !IsLetter(t[0]))
    && (sel.TypeSelector? ==> SkipSpaces(t) == [] || SkipSpaces(t)[0] != '[')
  }

  /** The rest after a selector: a type selector takes the white space after it. */
  function AfterSelector(sel: SimpleSelector, t: string): string {
    if sel.TypeSelector? then SkipSpaces(t) else t
  }

  lemma SelectorTextStart(sel: SimpleSelector)
    requires SelectorOk(sel)
    ensures SelectorText(sel) != []
    ensures var c := SelectorText(sel)[0]; c == '*' || c == '.' || IsLetter(c)
  {
  }

  lemma AttributePartOf(tag: string, s: string, attribute: string, op: AttributeSelectorOp, value: string, t: string)
    requires Word(attribute) && Word(value)
    requires s == attribute + (OpText(op) + (value + ("]" + t)))
    ensures ParseAttributePart(tag, s) == Done(AttributeSelector(tag, op, attribute, value), t)
  {
    var valueText := value + ("]" + t);
    var afterName := OpText(op) + valueText;
    OpTextStart(op, valueText);
    SpanOf(attribute, afterName, Letters);
    SplitAt(attribute, afterName);
    SpanOf(value, "]" + t, Letters);
    SplitAt(value, "]" + t);
    assert ("]" + t)[1..] == t;
  }

  /** The operator is recognised from its first one or two characters. */
  lemma OpTextStart(op: AttributeSelectorOp, t: string)
    ensures var s := OpText(op) + t;
      && s != [] && !IsLetter(s[0])
      && (s[0] == '=' <==> op.Eq?)
      && (op.Contain? ==> |s| >= 2 && s[0] == '~' && s[1] == '=')
      && s[|OpText(op)|..] == t
  {
  }

  lemma AttributeTextAppend(sel: SimpleSelector, t: string)
    requires sel.AttributeSelector?
    ensures SelectorText(sel) + t
            == sel.tagName + ("[" + (sel.attribute + (OpText(sel.op) + (sel.value + ("]" + t)))))
  {
  }

  lemma AttributeSelectorOf(sel: SimpleSelector, t: string)
    requires sel.AttributeSelector? && SelectorOk(sel)
    ensures ParseSimpleSelector(SelectorText(sel) + t) == Done(sel, t)
  {
    var part := sel.attribute + (OpText(sel.op) + (sel.value + ("]" + t)));
    var s := sel.tagName + ("[" + part);
    AttributeTextAppend(sel, t);
    assert part[0] == sel.attribute[0];
    assert s[0] == sel.tagName[0];
    SimpleSelectorLetter(s);
    TypeThenAttribute(s, sel.tagName, part);
    AttributePartOf(sel.tagName, part, sel.attribute, sel.op, sel.value, t);
  }

  /** A selector that starts with a letter is a type or attribute selector. */
  lemma SimpleSelectorLetter(s: string)
    requires s != [] && IsLetter(s[0])
    ensures ParseSimpleSelector(s) == ParseTypeOrAttribute(s)
  {
  }

  /** A tag name directly followed by `[` starts the attribute part. */
  lemma TypeThenAttribute(s: string, tag: string, part: string)
    requires Word(tag) && part != [] && IsLetter(part[0])
    requires s == tag + ("[" + part)
    ensures ParseTypeOrAttribute(s) == ParseAttributePart(tag, part)
  {
    var bracket := "[" + part;
    SpanOf(tag, bracket, Letters);
    SplitAt(tag, bracket);
    SkipSpacesNone(bracket);
    assert bracket[1..] == part;
    SkipSpacesNone(part);
  }

  lemma TypeSelectorOf(tag: string, t: string)
    requires Word(tag) && EndsSelector(TypeSelector(tag), t)
    ensures ParseSimpleSelector(tag + t) == Done(TypeSelector(tag), SkipSpaces(t))
  {
    assert (tag + t)[0] == tag[0];
    SpanOf(tag, t, Letters);
    SplitAt(tag, t);
  }

  lemma ClassSelectorOf(c: string, t: string)
    requires Word(c) && (t == [] || !IsLetter(t[0]))
    ensures ParseSimpleSelector("." + c + t) == Done(ClassSelector(c), t)
  {
    var s := "." + (c + t);
    assert "." + c + t == s;
    assert s[1..] == c + t;
    SpanOf(c, t, Letters);
    SplitAt(c, t);
  }

  lemma SelectorOf(sel: SimpleSelector, t: string)
    requires SelectorOk(sel) && EndsSelector(sel, t)
    ensures ParseSimpleSelector(SelectorText(sel) + t) == Done(sel, AfterSelector(sel, t))
  {
    match sel
    case UniversalSelector =>
      assert ("*" + t)[1..] == t;
    case TypeSelector(tag) =>
      TypeSelectorOf(tag, t);
    case ClassSelector(c) =>
      ClassSelectorOf(c, t);
    case AttributeSelector(_, _, _, _) =>
      AttributeSelectorOf(sel, t);
  }

  /** What may follow a selector list: nothing that starts a selector, extends one, or continues the list. */
  predicate EndsSelectors(t: string) {
    (t == [] || (!IsLetter(t[0]) && t[0] != '*' && t[0] != '.'))
    && (SkipSpaces(t) == [] || (SkipSpaces(t)[0] != '[' && SkipSpaces(t)[0] != ','))
  }

  lemma SelectorsOkTail(sels: seq<SimpleSelector>)
    requires sels != [] && SelectorsOk(sels)
    ensures SelectorOk(sels[0]) && SelectorsOk(sels[1..])
  {
    assert forall i :: 0 <= i < |sels| - 1 ==> sels[1..][i] == sels[i + 1];
  }

  lemma SelectorsTextAppend(sels: seq<SimpleSelector>, t: string)
    requires sels != []
    ensures SelectorsText(sels) + t == SelectorText(sels[0]) + (SelectorsTail(sels[1..]) + t)
  {
  }

  lemma SelectorsTailAppend(sels: seq<SimpleSelector>, t: string)
    requires sels != []
    ensures SelectorsTail(sels) + t == "," + (" " + (SelectorText(sels[0]) + (SelectorsTail(sels[1..]) + t)))
  {
  }

  /** What follows a selector inside a list: another `,`, or the end of the list. */
  lemma SelectorFollow(sel: SimpleSelector, sels: seq<SimpleSelector>, t: string)
    requires EndsSelectors(t)
    ensures EndsSelector(sel, SelectorsTail(sels) + t)
    ensures SkipSpaces(AfterSelector(sel, SelectorsTail(sels) + t)) == SkipSpaces(SelectorsTail(sels) + t)
  {
    var more := SelectorsTail(sels) + t;
    if sels != [] {
      assert more[0] == ',';
      SkipSpacesNone(more);
    } else {
      assert more == t;
    }
    SkipSpacesIdempotent(more);
  }

  /** One `,`, the space after it and one selector are consumed, and the list goes on after them. */
  lemma MoreSelectorsStep(s: string, sel: SimpleSelector, more: string, acc: seq<SimpleSelector>)
    requires SelectorOk(sel) && EndsSelector(sel, more)
    requires s == "," + (" " + (SelectorText(sel) + more))
    ensures MoreSelectors(SkipSpaces(s), acc) == MoreSelectors(SkipSpaces(AfterSelector(sel, more)), acc + [sel])
  {
    var first := SelectorText(sel) + more;
    SkipSpacesNone(s);
    assert s[1..] == " " + first;
    SelectorTextStart(sel);
    assert first[0] == SelectorText(sel)[0];
    SkipSpacesOf(" ", first);
    SelectorOf(sel, more);
  }

  lemma {:induction false} MoreSelectorsOf(s: string, sels: seq<SimpleSelector>, acc: seq<SimpleSelector>, t: string)
    requires SelectorsOk(sels) && EndsSelectors(t)
    requires s == SelectorsTail(sels) + t
    ensures MoreSelectors(SkipSpaces(s), acc) == Done(acc + sels, SkipSpaces(t))
    decreases sels
  {
    if sels == [] {
      assert s == t && acc + sels == acc;
    } else {
      SelectorsOkTail(sels);
      var more := SelectorsTail(sels[1..]) + t;
      SelectorsTailAppend(sels, t);
      SelectorFollow(sels[0], sels[1..], t);
      MoreSelectorsStep(s, sels[0], more, acc);
      MoreSelectorsOf(more, sels[1..], acc + [sels[0]], t);
      AppendFirst(acc, sels);
    }
  }

  /** A selector list is read back; after a non-empty list the white space that follows is taken too. */
  lemma SelectorsOf(s: string, sels: seq<SimpleSelector>, t: string)
    requires SelectorsOk(sels) && EndsSelectors(t)
    requires s == SelectorsText(sels) + t
    ensures ParseSelectors(s) == Done(sels, if sels == [] then t else SkipSpaces(t))
  {
    if sels == [] {
      assert s == t;
    } else {
      SelectorsOkTail(sels);
      var sel := sels[0];
      var more := SelectorsTail(sels[1..]) + t;
      SelectorsTextAppend(sels, t);
      SelectorFollow(sel, sels[1..], t);
      SelectorOf(sel, more);
      MoreSelectorsOf(more, sels[1..], [sel], t);
      assert [sel] + sels[1..] == sels;
    }
  }

  // ------------------------------------------------------------------ rules

  /** What may stand between the last declaration and `}`: white space, or one `;` and white space. */
  predicate InnerEnd(inner: string, ds: seq<Declaration>) {
    AllSpaces(inner) || (ds != [] && inner != [] && inner[0] == ';' && AllSpaces(inner[1..]))
  }

  lemma InnerEndOf(inner: string, ds: seq<Declaration>, t: string)
    requires InnerEnd(inner, ds)
    ensures EndsDeclarations(inner + ("}" + t))
    ensures AfterDeclarations(inner + ("}" + t)) == "}" + t
  {
    var close := "}" + t;
    if AllSpaces(inner) {
      SkipSpacesOf(inner, close);
    } else {
      var s := inner + close;
      SkipSpacesNone(s);
      assert s[1..] == inner[1..] + close;
      SkipSpacesOf(inner[1..], close);
    }
  }

  lemma AllSpacesAppend(a: string, b: string)
    requires AllSpaces(a) && AllSpaces(b)
    ensures AllSpaces(a + b)
  {
    forall i | 0 <= i < |a + b| ensures IsSpace((a + b)[i]) {
      if i < |a| {
        assert (a + b)[i] == a[i];
      } else {
        assert (a + b)[i] == b[i - |a|];
      }
    }
  }

  /** The block after `{`: white space, the declarations, their end, and `}`. */
  lemma BlockOf(b: string, ds: seq<Declaration>, w2: string, inner: string, t: string)
    requires DeclarationsOk(ds) && AllSpaces(w2) && InnerEnd(inner, ds)
    requires b == w2 + (DeclarationsText(ds) + (inner + ("}" + t)))
    ensures ParseDeclarations(SkipSpaces(b)).Done?
    ensures ParseDeclarations(SkipSpaces(b)).value == ds
    ensures SkipSpaces(ParseDeclarations(SkipSpaces(b)).rest) == "}" + t
  {
    var close := "}" + t;
    var end := inner + close;
    InnerEndOf(inner, ds, t);
    SkipSpacesNone(close);
    if ds == [] {
      assert b == (w2 + inner) + close;
      AllSpacesAppend(w2, inner);
      SkipSpacesOf(w2 + inner, close);
      DeclarationsOf(close, ds, close);
    } else {
      var body := DeclarationsText(ds) + end;
      assert body[0] == ds[0].name[0];
      SkipSpacesOf(w2, body);
      DeclarationsOf(body, ds, end);
    }
  }

  /** A rule with any white space around `{`, and an optional `;` before `}`. */
  lemma RuleOf(s: string, r: Rule, w1: string, w2: string, inner: string, t: string)
    requires RuleOk(r) && AllSpaces(w1) && AllSpaces(w2) && InnerEnd(inner, r.declarations)
    requires s == SelectorsText(r.selectors) + (w1 + ("{" + (w2 + (DeclarationsText(r.declarations) + (inner + ("}" + t))))))
    ensures ParseRule(s) == Done(r, t)
  {
    var b := w2 + (DeclarationsText(r.declarations) + (inner + ("}" + t)));
    var open := "{" + b;
    var after := w1 + open;
    assert after[0] == if w1 == [] then '{' else w1[0];
    SkipSpacesOf(w1, open);
    SelectorsOf(s, r.selectors, after);
    SkipSpacesNone(open);
    BlockOf(b, r.declarations, w2, inner, t);
    RuleSteps(s, r, b, t);
  }

  /** The rule grammar in order: selectors, `{`, declarations, `}`. */
  lemma RuleSteps(s: string, r: Rule, b: string, t: string)
    requires ParseSelectors(s).Done? && ParseSelectors(s).value == r.selectors
    requires SkipSpaces(ParseSelectors(s).rest) == "{" + b
    requires ParseDeclarations(SkipSpaces(b)).Done? && ParseDeclarations(SkipSpaces(b)).value == r.declarations
    requires SkipSpaces(ParseDeclarations(SkipSpaces(b)).rest) == "}" + t
    ensures ParseRule(s) == Done(r, t)
  {
    assert ("{" + b)[1..] == b;
    assert ("}" + t)[1..] == t;
  }

  lemma RuleTextAppend(r: Rule, t: string)
    ensures RuleText(r) + t
            == SelectorsText(r.selectors) + (" " + ("{" + (" " + (DeclarationsText(r.declarations) + (" " + ("}" + t))))))
  {
  }

  /** The printed rule, after any white space before it is skipped, reads back. */
  lemma PrintedRuleOf(r: Rule, t: string)
    requires RuleOk(r)
    ensures ParseRule(SkipSpaces(RuleText(r) + t)) == Done(r, t)
  {
    var rest := "{" + (" " + (DeclarationsText(r.declarations) + (" " + ("}" + t))));
    RuleTextAppend(r, t);
    if r.selectors == [] {
      assert RuleText(r) + t == " " + rest;
      SkipSpacesOf(" ", rest);
      assert rest == SelectorsText(r.selectors) + ("" + rest);
      RuleOf(rest, r, "", " ", " ", t);
    } else {
      var s := RuleText(r) + t;
      SelectorTextStart(r.selectors[0]);
      SelectorsTextAppend(r.selectors, " " + rest);
      assert s[0] == SelectorText(r.selectors[0])[0];
      SkipSpacesNone(s);
      RuleOf(s, r, " ", " ", " ", t);
    }
  }

  lemma RulesOkTail(rs: seq<Rule>)
    requires rs != [] && RulesOk(rs)
    ensures RuleOk(rs[0]) && RulesOk(rs[1..])
  {
    assert forall i :: 0 <= i < |rs| - 1 ==> rs[1..][i] == rs[i + 1];
  }

  lemma RulesTextAppend(rs: seq<Rule>, t: string)
    requires rs != []
    ensures RulesText(rs) + t == RuleText(rs[0]) + ("\n" + (RulesText(rs[1..]) + t))
  {
    var a := RuleText(rs[0]);
    var b := RulesText(rs[1..]);
    assert RulesText(rs) == a + ("\n" + b);
    Assoc(a, "\n" + b, t);
    Assoc("\n", b, t);
  }

  /** One rule read, the rules after it are read from what follows it, past white space. */
  lemma ManyRulesStep(s: string, acc: seq<Rule>, r: Rule, rest: string)
    requires ParseRule(s) == Parsing.Done(r, rest)
    ensures ManyRules(s, acc) == ManyRules(SkipSpaces(rest), acc + [r])
  {
  }

  /** A sheet that opens with a rule reads that rule first, then goes on past white space. */
  lemma ParseRulesFirst(s: string, r: Rule, rest: string)
    requires s == [] || !IsSpace(s[0])
    requires ParseRule(s) == Parsing.Done(r, rest)
    ensures ParseRules(s) == ManyRules(SkipSpaces(rest), [r])
  {
    SkipSpacesNone(s);
    ManyRulesStep(s, [], r, rest);
    assert [] + [r] == [r];
  }

  /** A rule that takes the whole input is the last one read. */
  lemma LastRuleOf(s: string, acc: seq<Rule>, r: Rule)
    requires ParseRule(s) == Parsing.Done(r, "")
    ensures ManyRules(s, acc) == Done(acc + [r], "")
  {
    ManyRulesStep(s, acc, r, "");
    ManyRulesEnd(acc + [r]);
  }

  /** Reading rules stops, keeping what it has, at the end of the input. */
  lemma ManyRulesEnd(acc: seq<Rule>)
    ensures ManyRules("", acc) == Done(acc, "")
  {
  }

  /** Printed rules are read back in order, and reading then goes on with what follows them. */
  lemma {:induction false} ManyRulesOf(rs: seq<Rule>, acc: seq<Rule>, t: string)
    requires RulesOk(rs)
    ensures ManyRules(SkipSpaces(RulesText(rs) + t), acc) == ManyRules(SkipSpaces(t), acc + rs)
    decreases rs
  {
    if rs == [] {
      assert RulesText(rs) + t == t && acc + rs == acc;
    } else {
      RulesOkTail(rs);
      var more := RulesText(rs[1..]) + t;
      RulesTextAppend(rs, t);
      PrintedRuleOf(rs[0], "\n" + more);
      SkipSpacesPrefix("\n", more);
      ManyRulesOf(rs[1..], acc + [rs[0]], t);
      AppendFirst(acc, rs);
    }
  }

  /** Reading a printed stylesheet gives it back. */
  lemma ParsePrinted(sheet: Stylesheet)
    requires RulesOk(sheet.rules)
    ensures Parse(RulesText(sheet.rules)) == Ok(sheet)
  {
    ManyRulesOf(sheet.rules, [], "");
    assert RulesText(sheet.rules) + "" == RulesText(sheet.rules);
    assert [] + sheet.rules == sheet.rules;
  }

  /**
   * Whatever text follows printed rules, reading fails or yields those rules
   * first, in order.
   */
  lemma ParsePrintedThen(rs: seq<Rule>, t: string)
    requires RulesOk(rs)
    ensures Parse(RulesText(rs) + t).Ok? ==> |Parse(RulesText(rs) + t).value.rules| >= |rs|
                                              && Parse(RulesText(rs) + t).value.rules[..|rs|] == rs
  {
    ManyRulesOf(rs, [], t);
    assert [] + rs == rs;
  }
}
