/**
 * The stylesheet language: its data model, what each selector kind matches,
 * and the combinator grammar that reads a stylesheet. Each grammar rule is a
 * function from the input to a `Parsed` outcome whose failure records whether
 * input had been consumed, which is what decides between stopping a list and
 * failing the whole parse.
 */
module Css {
  import opened Chars
  import opened Parsing
  import opened DomNode

  datatype Unit = Em

  /** A letters-only keyword such as `flex`, or a length such as `16em`. */
  datatype CssValue = Keyword(word: string) | Length(amount: nat, unit: Unit)

  datatype Declaration = Declaration(name: string, value: CssValue)

  /** `=` and `~=` in an attribute selector. */
  datatype AttributeSelectorOp = Eq | Contain

  datatype SimpleSelector =
    | UniversalSelector
    | TypeSelector(tagName: string)
    | AttributeSelector(tagName: string, op: AttributeSelectorOp, attribute: string, value: string)
    | ClassSelector(className: string)

  datatype Rule = Rule(selectors: seq<SimpleSelector>, declarations: seq<Declaration>)

  datatype Stylesheet = Stylesheet(rules: seq<Rule>)

  datatype CssParseError = InvalidResourceError

  // ------------------------------------------------------------- matching

  predicate NoAsciiWhitespace(w: string) {
    forall j :: 0 <= j < |w| ==> !IsAsciiWhitespace(w[j])
  }

  /** `str::split_ascii_whitespace`: the maximal runs of characters other than ASCII whitespace, in order. */
  function SplitAsciiWhitespace(s: string): (r: seq<string>)
    ensures forall i :: 0 <= i < |r| ==> r[i] != [] && |r[i]| <= |s| && NoAsciiWhitespace(r[i])
    ensures r == [] <==> AllAsciiWhitespace(s)
    decreases |s|
  {
    if s == [] then []
    else if IsAsciiWhitespace(s[0]) then
      assert AllAsciiWhitespace(s) <==> AllAsciiWhitespace(s[1..]) by {
        assert forall j :: 1 <= j < |s| ==> s[j] == s[1..][j - 1];
      }
      SplitAsciiWhitespace(s[1..])
    else
      var n := Span(s, NonAsciiWhitespace);
      [s[..n]] + SplitAsciiWhitespace(s[n..])
  }

  predicate AllAsciiWhitespace(w: string) {
    forall j :: 0 <= j < |w| ==> IsAsciiWhitespace(w[j])
  }

  /**
   * The tokens are the runs between white space: leading white space is
   * dropped, and a run ended by white space or the end of input is the next token.
   */
  lemma {:induction false} SplitRun(w: string, t: string, rest: string)
    requires AllAsciiWhitespace(w) && t != [] && NoAsciiWhitespace(t)
    requires rest == [] || IsAsciiWhitespace(rest[0])
    ensures SplitAsciiWhitespace(w + t + rest) == [t] + SplitAsciiWhitespace(rest)
  {
    if w == [] {
      assert w + t + rest == t + rest;
      SpanOf(t, rest, NonAsciiWhitespace);
      assert (t + rest)[..|t|] == t && (t + rest)[|t|..] == rest;
    } else {
      assert (w + t + rest)[0] == w[0] && (w + t + rest)[1..] == w[1..] + t + rest;
      SplitRun(w[1..], t, rest);
    }
  }

  /** Splitting a string that holds no ASCII whitespace gives that string alone. */
  lemma SplitWord(v: string)
    requires v != [] && NoAsciiWhitespace(v)
    ensures SplitAsciiWhitespace(v) == [v]
  {
    SpanOf(v, [], NonAsciiWhitespace);
    assert v[..|v|] == v && v[|v|..] == [];
  }

  /** A string is one of its own tokens exactly when it is non-empty and has no ASCII whitespace. */
  lemma WholeIsToken(v: string)
    ensures v in SplitAsciiWhitespace(v) <==> v != [] && NoAsciiWhitespace(v)
  {
    if v != [] && NoAsciiWhitespace(v) {
      SplitWord(v);
    }
  }

  /**
   * `SimpleSelector::matches`. The universal selector matches every node;
   * every other kind matches element nodes only.
   */
  predicate SelectorMatches(sel: SimpleSelector, n: Node)
    ensures sel.UniversalSelector? ==> SelectorMatches(sel, n)
    ensures n.nodeType.Text? ==> (SelectorMatches(sel, n) <==> sel.UniversalSelector?)
  {
    match sel
    case UniversalSelector => true
    case TypeSelector(tag) => n.nodeType.Element? && n.nodeType.tagName == tag
    case AttributeSelector(tag, op, attribute, value) =>
      n.nodeType.Element? && n.nodeType.tagName == tag &&
      (match op
       case Eq => attribute in n.nodeType.attributes && n.nodeType.attributes[attribute] == value
       // the closure's own parameter is named `value`, so each token is compared
       // with the attribute's whole value and the selector's value is never read
       case Contain =>
         attribute in n.nodeType.attributes
         && n.nodeType.attributes[attribute] in SplitAsciiWhitespace(n.nodeType.attributes[attribute]))
    case ClassSelector(className) =>
      n.nodeType.Element? && "class" in n.nodeType.attributes && n.nodeType.attributes["class"] == className
  }

  /** `self.selectors.iter().any(...)`: some selector of the list matches. */
  predicate AnySelectorMatches(sels: seq<SimpleSelector>, n: Node)
    ensures AnySelectorMatches(sels, n) <==> exists i :: 0 <= i < |sels| && SelectorMatches(sels[i], n)
  {
    if sels == [] then false
    else
      assert forall i :: 1 <= i < |sels| ==> sels[1..][i - 1] == sels[i];
      SelectorMatches(sels[0], n) || AnySelectorMatches(sels[1..], n)
  }

  /** `Rule::matches`: one of the rule's selectors matches, so a rule without selectors matches nothing. */
  predicate RuleMatches(r: Rule, n: Node)
    ensures RuleMatches(r, n) <==> exists i :: 0 <= i < |r.selectors| && SelectorMatches(r.selectors[i], n)
    ensures r.selectors == [] ==> !RuleMatches(r, n)
  {
    AnySelectorMatches(r.selectors, n)
  }

  /**
   * `tag[attr~=value]` holds when the tag matches and the attribute is present,
   * non-empty and free of ASCII whitespace, whatever `value` is.
   */
  lemma ContainMatches(tag: string, attribute: string, value: string, n: Node)
    ensures SelectorMatches(AttributeSelector(tag, Contain, attribute, value), n)
            <==> n.nodeType.Element? && n.nodeType.tagName == tag && attribute in n.nodeType.attributes
                 && n.nodeType.attributes[attribute] != [] && NoAsciiWhitespace(n.nodeType.attributes[attribute])
  {
    if n.nodeType.Element? && attribute in n.nodeType.attributes {
      WholeIsToken(n.nodeType.attributes[attribute]);
    }
  }

  /** The selector's value plays no part in a `~=` match. */
  lemma ContainIgnoresValue(tag: string, attribute: string, v1: string, v2: string, n: Node)
    ensures SelectorMatches(AttributeSelector(tag, Contain, attribute, v1), n)
            == SelectorMatches(AttributeSelector(tag, Contain, attribute, v2), n)
  {
    ContainMatches(tag, attribute, v1, n);
    ContainMatches(tag, attribute, v2, n);
  }

  /** A class selector compares the whole `class` attribute: `.a` does not match `class="a b"`. */
  lemma ClassIsWholeAttribute()
    ensures !SelectorMatches(ClassSelector("a"), NewElement("p", map["class" := "a b"], []))
    ensures SelectorMatches(ClassSelector("a b"), NewElement("p", map["class" := "a b"], []))
  {
    assert "a b" != "a";
  }

  // -------------------------------------------------------------- grammar

  /** `whitespaces`: the longest run of white space, returned with the rest. */
  function Whitespaces(s: string): (r: Parsed<string>)
    ensures r.Done? && s == r.value + r.rest && AllSpaces(r.value)
    ensures r.rest == [] || !IsSpace(r.rest[0])
  {
    SkipSpacesSplit(s);
    Done(s[..|s| - |SkipSpaces(s)|], SkipSpaces(s))
  }

  /** `css_value`: `many1(letter)` as a keyword, else `many1(digit)` followed by `em`. */
  function ParseCssValue(s: string): (r: Parsed<CssValue>)
    ensures r.Fail? && !r.committed <==> s == [] || (!IsLetter(s[0]) && !IsDigit(s[0]))
    ensures r.Done? ==> |r.rest| < |s|
    ensures r.Done? && r.value.Keyword? ==> r.value.word != [] && AllLetters(r.value.word)
  {
    var n := Span(s, Letters);
    if n > 0 then Done(Keyword(s[..n]), s[n..])
    else
      var d := Span(s, Digits);
      if d == 0 then Fail(false)
      else
        var unit := s[d..];
        if |unit| >= 2 && unit[0] == 'e' && unit[1] == 'm' then Done(Length(DecimalValue(s[..d]), Em), unit[2..])
        else Fail(true)
  }

  /** `declaration`: a letters name, optional white space, `:`, optional white space, a value. */
  function ParseDeclaration(s: string): (r: Parsed<Declaration>)
    ensures r.Fail? && !r.committed <==> s == [] || !IsLetter(s[0])
    ensures r.Done? ==> |r.rest| < |s| && r.value.name != [] && AllLetters(r.value.name)
  {
    var n := Span(s, Letters);
    if n == 0 then Fail(false)
    else
      var name := s[..n];
      assert AllLetters(name) by {
        assert forall i :: 0 <= i < n ==> name[i] == s[i];
      }
      var colon := SkipSpaces(s[n..]);
      if colon == [] || colon[0] != ':' then Fail(true)
      else
        var value := ParseCssValue(SkipSpaces(colon[1..]));
        if value.Fail? then Fail(true)
        else Done(Declaration(name, value.value), value.rest)
  }

  /**
   * `declarations`: `sep_end_by(declaration.skip(ws), char(';').skip(ws))`.
   * No declaration at all gives the empty list.
   */
  function ParseDeclarations(s: string): (r: Parsed<seq<Declaration>>)
    ensures r.Done? ==> |r.rest| <= |s|
    ensures r.Fail? ==> r.committed
  {
    match ParseDeclaration(s)
    case Fail(c) => if c then Fail(true) else Done([], s)
    case Done(d, rest) => MoreDeclarations(SkipSpaces(rest), [d])
  }

  /**
   * The rest of the list: a `;` and the white space after it are consumed;
   * then a declaration follows, or nothing does (a trailing `;`).
   */
  function MoreDeclarations(s: string, acc: seq<Declaration>): (r: Parsed<seq<Declaration>>)
    ensures r.Done? ==> |r.rest| <= |s| && |r.value| >= |acc| && r.value[..|acc|] == acc
    ensures r.Fail? ==> r.committed
    decreases |s|
  {
    if s == [] || s[0] != ';' then Done(acc, s)
    else
      var next := SkipSpaces(s[1..]);
      match ParseDeclaration(next)
      case Fail(c) => if c then Fail(true) else Done(acc, next)
      case Done(d, rest) =>
        var r := MoreDeclarations(SkipSpaces(rest), acc + [d]);
        assert r.Done? ==> r.value[..|acc|] == r.value[..|acc + [d]|][..|acc|];
        r
  }

  /** The `[attr=value]` or `[attr~=value]` part, after `[` and its white space: nothing may fail here without committing. */
  function ParseAttributePart(tag: string, s: string): (r: Parsed<SimpleSelector>)
    ensures r.Fail? ==> r.committed
    ensures r.Done? ==> |r.rest| < |s| && r.value.AttributeSelector? && r.value.tagName == tag
  {
    var n := Span(s, Letters);
    if n == 0 then Fail(true)
    else
      var afterName := s[n..];
      if afterName == [] then Fail(true)
      else
        var opLength := if afterName[0] == '=' then 1
                        else if |afterName| >= 2 && afterName[0] == '~' && afterName[1] == '=' then 2
                        else 0;
        if opLength == 0 then Fail(true)
        else
          var op := if opLength == 1 then Eq else Contain;
          var valueText := afterName[opLength..];
          var m := Span(valueText, Letters);
          if m == 0 || m == |valueText| || valueText[m] != ']' then Fail(true)
          else Done(AttributeSelector(tag, op, s[..n], valueText[..m]), valueText[m + 1..])
  }

  /** The class selector: `.` and letters; after the `.` the letters are required. */
  function ParseClassSelector(s: string): (r: Parsed<SimpleSelector>)
    requires s != [] && s[0] == '.'
    ensures r.Fail? ==> r.committed
    ensures r.Done? ==> |r.rest| < |s| && r.value.ClassSelector?
  {
    var body := s[1..];
    var n := Span(body, Letters);
    if n == 0 then Fail(true) else Done(ClassSelector(body[..n]), body[n..])
  }

  /**
   * The type-or-attribute selector: a letters tag name with the white space
   * after it, then optionally a bracketed attribute test; once `[` is read the
   * test must complete.
   */
  function ParseTypeOrAttribute(s: string): (r: Parsed<SimpleSelector>)
    ensures r.Fail? && !r.committed <==> s == [] || !IsLetter(s[0])
    ensures r.Done? ==> |r.rest| < |s| && (r.value.TypeSelector? || r.value.AttributeSelector?)
  {
    var n := Span(s, Letters);
    if n == 0 then Fail(false)
    else
      var afterTag := SkipSpaces(s[n..]);
      if afterTag == [] || afterTag[0] != '[' then Done(TypeSelector(s[..n]), afterTag)
      else ParseAttributePart(s[..n], SkipSpaces(afterTag[1..]))
  }

  /** `simple_selector`: the universal, class, or type-or-attribute selector, tried in that order. */
  function ParseSimpleSelector(s: string): (r: Parsed<SimpleSelector>)
    ensures r.Fail? && !r.committed <==> s == [] || (s[0] != '*' && s[0] != '.' && !IsLetter(s[0]))
    ensures r.Done? ==> |r.rest| < |s|
  {
    if s == [] then Fail(false)
    else if s[0] == '*' then Done(UniversalSelector, s[1..])
    else if s[0] == '.' then ParseClassSelector(s)
    else ParseTypeOrAttribute(s)
  }

  /** `selectors`: `sep_by(selector.skip(ws), char(',').skip(ws))`; after a `,` another selector must follow. */
  function ParseSelectors(s: string): (r: Parsed<seq<SimpleSelector>>)
    ensures r.Done? ==> |r.rest| <= |s|
    ensures r.Fail? ==> r.committed
  {
    match ParseSimpleSelector(s)
    case Fail(c) => if c then Fail(true) else Done([], s)
    case Done(x, rest) => MoreSelectors(SkipSpaces(rest), [x])
  }

  function MoreSelectors(s: string, acc: seq<SimpleSelector>): (r: Parsed<seq<SimpleSelector>>)
    ensures r.Done? ==> |r.rest| <= |s|
    ensures r.Fail? ==> r.committed
    decreases |s|
  {
    if s == [] || s[0] != ',' then Done(acc, s)
    else
      match ParseSimpleSelector(SkipSpaces(s[1..]))
      case Fail(_) => Fail(true)
      case Done(x, rest) => MoreSelectors(SkipSpaces(rest), acc + [x])
  }

  /**
   * `rule`: selectors, `{`, declarations, `}`, with white space allowed after
   * each. It fails without committing only when it consumed nothing, which
   * means the input does not start with `{` or a selector.
   */
  function ParseRule(s: string): (r: Parsed<Rule>)
    ensures r.Done? ==> |r.rest| < |s|
    ensures r.Fail? && !r.committed ==> ParseSimpleSelector(s).Fail? && (s == [] || s[0] != '{')
  {
    match ParseSelectors(s)
    case Fail(_) => Fail(true)
    case Done(selectors, afterSelectors) =>
      var open := SkipSpaces(afterSelectors);
      if open == [] || open[0] != '{' then Fail(|open| < |s|)
      else
        match ParseDeclarations(SkipSpaces(open[1..]))
        case Fail(_) => Fail(true)
        case Done(declarations, afterDeclarations) =>
          var close := SkipSpaces(afterDeclarations);
          if close == [] || close[0] != '}' then Fail(true)
          else Done(Rule(selectors, declarations), close[1..])
  }

  /** `many(rule.skip(ws))`: rules are read until one fails; a failure that consumed input fails the list. */
  function ManyRules(s: string, acc: seq<Rule>): (r: Parsed<seq<Rule>>)
    ensures r.Done? ==> |r.value| >= |acc| && r.value[..|acc|] == acc
    ensures r.Fail? ==> r.committed
    decreases |s|
  {
    match ParseRule(s)
    case Fail(c) => if c then Fail(true) else Done(acc, s)
    case Done(rule, rest) =>
      var r := ManyRules(SkipSpaces(rest), acc + [rule]);
      assert r.Done? ==> r.value[..|acc|] == r.value[..|acc + [rule]|][..|acc|];
      r
  }

  /** `rules`: leading white space, then the rules. */
  function ParseRules(s: string): (r: Parsed<seq<Rule>>)
    ensures r.Fail? ==> r.committed
  {
    ManyRules(SkipSpaces(s), [])
  }

  /** `parse`: the rules read from the front of `raw`; whatever follows them is dropped. */
  function Parse(raw: string): (r: Result<Stylesheet, CssParseError>)
    ensures r.Ok? <==> ParseRules(raw).Done?
    ensures r.Ok? ==> r.value.rules == ParseRules(raw).value
  {
    match ParseRules(raw)
    case Done(rules, _) => Ok(Stylesheet(rules))
    case Fail(_) => Err(InvalidResourceError)
  }
}
