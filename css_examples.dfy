/**
 * The stylesheet grammar on the inputs of the original unit tests, and the
 * selector kinds on small nodes. Each reading is derived from the token
 * lemmas of `CssText`.
 */
module CssExamples {
  import opened Chars
  import opened Parsing
  import opened DomNode
  import opened Css
  import opened CssText

  /** `1em` is the length one em. */
  lemma OneEm()
    ensures ParseCssValue("1em") == Done(Length(1, Em), "")
  {
    assert NatText(1) == "1";
    assert NatText(1) + "em" + "" == "1em";
    LengthOf(1, "");
  }

  /** `display: flex` is one declaration, with nothing left over. */
  lemma DisplayFlex()
    ensures ParseDeclaration("display: flex") == Done(Declaration("display", Keyword("flex")), "")
  {
    var d := Declaration("display", Keyword("flex"));
    assert "display: flex" == d.name + ("" + (":" + (" " + (ValueText(d.value) + ""))));
    DeclarationOf("display: flex", d, "", " ", "");
  }

  /** `display: flex; width: 16em; }` is two declarations; the trailing `;` and its space are consumed, `}` is left. */
  lemma TwoDeclarations()
    ensures ParseDeclarations("display: flex; width: 16em; }")
            == Done([Declaration("display", Keyword("flex")), Declaration("width", Length(16, Em))], "}")
  {
    var ds := [Declaration("display", Keyword("flex")), Declaration("width", Length(16, Em))];
    TwoDeclarationsText();
    TwoDeclarationsInput();
    SemicolonSpaceBrace();
    TwoDeclarationsOk();
    DeclarationsOf("display: flex; width: 16em; }", ds, "; }");
  }

  lemma TwoDeclarationsInput()
    ensures "display: flex; width: 16em; }" == "display: flex; width: 16em" + "; }"
  {
  }

  lemma TwoDeclarationsOk()
    ensures DeclarationsOk([Declaration("display", Keyword("flex")), Declaration("width", Length(16, Em))])
  {
    var ds := [Declaration("display", Keyword("flex")), Declaration("width", Length(16, Em))];
    assert ds[0].name == "display" && ds[1].name == "width";
    assert ds[0].value == Keyword("flex") && ds[1].value.Length?;
  }

  lemma TwoDeclarationsText()
    ensures DeclarationsText([Declaration("display", Keyword("flex")), Declaration("width", Length(16, Em))])
            == "display: flex; width: 16em"
  {
    var d0, d1 := Declaration("display", Keyword("flex")), Declaration("width", Length(16, Em));
    TwoDeclarationsJoin(d0, d1);
    SixteenEm();
    assert DeclarationText(d0) == "display: flex";
    assert DeclarationText(d1) == "width: 16em";
    assert "display: flex; width: 16em" == "display: flex" + ("; " + "width: 16em");
  }

  /** Two declarations are printed with `; ` between them. */
  lemma TwoDeclarationsJoin(a: Declaration, b: Declaration)
    ensures DeclarationsText([a, b]) == DeclarationText(a) + ("; " + DeclarationText(b))
  {
    var ds := [a, b];
    assert ds[1..] == [b] && ds[1..][1..] == [];
    assert DeclarationsTail([b]) == "; " + (DeclarationText(b) + "");
  }

  lemma SixteenEm()
    ensures ValueText(Length(16, Em)) == "16em"
  {
    assert NatText(1) == "1" && NatText(6) == "6";
    assert NatText(16) == "16";
  }

  /** After declarations, `; }` is skipped up to the `}`. */
  lemma SemicolonSpaceBrace()
    ensures EndsDeclarations("; }") && AfterDeclarations("; }") == "}"
  {
    SkipSpacesNone("; }");
    assert "; }"[1..] == " }";
    SkipSpacesOf(" ", "}");
  }

  const EqFlex: SimpleSelector := AttributeSelector("a", Eq, "display", "flex")

  const ContainG: SimpleSelector := AttributeSelector("div", Contain, "background", "g")

  lemma EqFlexText()
    ensures SelectorText(EqFlex) == "a[display=flex]"
  {
  }

  lemma ContainGText()
    ensures SelectorText(ContainG) == "div[background~=g]"
  {
  }

  lemma SelectorsInput()
    ensures "a[display=flex], div[background~=g] {" == "a[display=flex]" + (", " + ("div[background~=g]" + " {"))
  {
  }

  /** `a[display=flex], div[background~=g] {` is two attribute selectors; `{` is left. */
  lemma TwoAttributeSelectors()
    ensures ParseSelectors("a[display=flex], div[background~=g] {") == Done([EqFlex, ContainG], "{")
  {
    var sels := [EqFlex, ContainG];
    EqFlexText();
    ContainGText();
    SelectorsInput();
    assert sels[1..] == [ContainG] && sels[1..][1..] == [];
    assert SelectorsTail(sels[1..]) == ", " + ("div[background~=g]" + "");
    assert SelectorsText(sels) == "a[display=flex]" + (", " + ("div[background~=g]" + ""));
    assert SkipSpaces(" {") == "{" by {
      SkipSpacesOf(" ", "{");
    }
    assert SelectorsOk(sels) by {
      assert forall i :: 0 <= i < |sels| ==> sels[i] in {EqFlex, ContainG};
    }
    SelectorsOf("a[display=flex], div[background~=g] {", sels, " {");
  }

  const FlexAndWidth: seq<Declaration> := [Declaration("display", Keyword("flex")), Declaration("width", Length(1, Em))]

  lemma FlexText()
    ensures DeclarationText(FlexAndWidth[0]) == "display: flex"
  {
  }

  lemma WidthText()
    ensures DeclarationText(FlexAndWidth[1]) == "width: 1em"
  {
    assert NatText(1) == "1";
  }

  lemma FlexAndWidthText()
    ensures DeclarationsText(FlexAndWidth) == "display: flex; width: 1em"
  {
    FlexText();
    WidthText();
    assert FlexAndWidth[1..] == [FlexAndWidth[1]] && FlexAndWidth[1..][1..] == [];
    assert DeclarationsText(FlexAndWidth) == "display: flex" + ("; " + ("width: 1em" + ""));
    assert "display: flex; width: 1em" == "display: flex" + ("; " + ("width: 1em" + ""));
  }

  lemma FlexAndWidthOk()
    ensures DeclarationsOk(FlexAndWidth)
  {
    assert forall i :: 0 <= i < |FlexAndWidth| ==> FlexAndWidth[i] in {FlexAndWidth[0], FlexAndWidth[1]};
  }

  lemma ClassRuleInput()
    ensures ".test { display: flex; width: 1em }" == ".test" + (" " + ("{" + (" " + ("display: flex; width: 1em" + (" " + ("}" + ""))))))
  {
    var x := ".test { display: flex; width: 1em }";
    assert x == ".test { " + "display: flex; width: 1em" + " }";
    assert ".test { " == ".test" + " { ";
    SpacedBlockLayout(".test", "display: flex; width: 1em");
  }

  /** `selectors { declarations }` on one line, with the concatenation nested to the right. */
  lemma SpacedBlockLayout(selectors: string, declarations: string)
    ensures selectors + " { " + declarations + " }"
            == selectors + (" " + ("{" + (" " + (declarations + (" " + ("}" + ""))))))
  {
    assert " { " == " " + ("{" + " ") && " }" == " " + ("}" + "");
  }

  /** `.test { display: flex; width: 1em }` is one class rule with two declarations. */
  lemma ClassRule()
    ensures ParseRule(".test { display: flex; width: 1em }") == Done(Rule([ClassSelector("test")], FlexAndWidth), "")
  {
    var r := Rule([ClassSelector("test")], FlexAndWidth);
    FlexAndWidthText();
    FlexAndWidthOk();
    ClassRuleInput();
    assert SelectorsText(r.selectors) == ".test" by {
      assert SelectorText(r.selectors[0]) == ".test";
      assert r.selectors[1..] == [];
    }
    RuleOf(".test { display: flex; width: 1em }", r, " ", " ", " ", "");
  }

  const FirstTestRule: Rule :=
    Rule([AttributeSelector("div", Eq, "display", "flex")],
         [Declaration("background", Keyword("red")), Declaration("width", Length(1, Em))])

  const SecondTestRule: Rule := Rule([ClassSelector("rule")], [Declaration("backgound", Keyword("none"))])

  lemma FirstTestRuleText()
    ensures SelectorsText(FirstTestRule.selectors) == "div[display=flex]"
    ensures DeclarationsText(FirstTestRule.declarations) == "background: red; width: 1em"
    ensures RuleOk(FirstTestRule)
  {
    FirstTestSelectorsText();
    FirstTestDeclarationsText();
    FirstTestRuleOk();
  }

  lemma FirstTestSelectorsText()
    ensures SelectorsText(FirstTestRule.selectors) == "div[display=flex]"
  {
    var r := FirstTestRule;
    assert SelectorText(r.selectors[0]) == "div[display=flex]" && r.selectors[1..] == [];
  }

  lemma FirstTestDeclarationsText()
    ensures DeclarationsText(FirstTestRule.declarations) == "background: red; width: 1em"
  {
    var ds := FirstTestRule.declarations;
    var first := "background" + (":" + (" " + "red"));
    var second := "width" + (":" + (" " + "1em"));
    assert NatText(1) == "1";
    assert DeclarationText(ds[0]) == first && DeclarationText(ds[1]) == second;
    assert ds[1..] == [ds[1]] && ds[1..][1..] == [];
    assert DeclarationsText(ds) == first + ("; " + (second + ""));
    assert "background: red; width: 1em" == "background: red" + "; " + "width: 1em";
  }

  lemma FirstTestRuleOk()
    ensures RuleOk(FirstTestRule)
  {
    var r := FirstTestRule;
    assert SelectorsOk(r.selectors) by {
      assert forall i :: 0 <= i < |r.selectors| ==> r.selectors[i] == r.selectors[0];
    }
    assert DeclarationsOk(r.declarations) by {
      assert forall i :: 0 <= i < |r.declarations| ==> r.declarations[i] in {r.declarations[0], r.declarations[1]};
    }
  }

  lemma FirstTestRuleInput(t: string)
    ensures "div[display=flex] { background: red; width: 1em }" + t
            == "div[display=flex]" + (" " + ("{" + (" " + ("background: red; width: 1em" + (" " + ("}" + t))))))
  {
    assert "div[display=flex] { background: red; width: 1em }"
           == "div[display=flex]" + " { " + "background: red; width: 1em" + " }";
  }

  lemma FirstTestRuleOf(t: string)
    ensures ParseRule("div[display=flex] { background: red; width: 1em }" + t) == Done(FirstTestRule, t)
  {
    FirstTestRuleText();
    FirstTestRuleInput(t);
    RuleOf("div[display=flex] { background: red; width: 1em }" + t, FirstTestRule, " ", " ", " ", t);
  }

  lemma SecondTestRuleOf()
    ensures ParseRule(".rule { backgound: none;  }") == Done(SecondTestRule, "")
  {
    SecondTestRuleText();
    SecondTestRuleInput();
    assert InnerEnd(";  ", SecondTestRule.declarations) by {
      assert AllSpaces(";  "[1..]);
    }
    RuleOf(".rule { backgound: none;  }", SecondTestRule, " ", " ", ";  ", "");
  }

  lemma SecondTestRuleText()
    ensures SelectorsText(SecondTestRule.selectors) == ".rule"
    ensures DeclarationsText(SecondTestRule.declarations) == "backgound: none"
    ensures RuleOk(SecondTestRule)
  {
    var r := SecondTestRule;
    assert DeclarationText(r.declarations[0]) == "backgound: none" && r.declarations[1..] == [];
    assert SelectorText(r.selectors[0]) == ".rule" && r.selectors[1..] == [];
    assert forall i :: 0 <= i < |r.selectors| ==> r.selectors[i] == r.selectors[0];
    assert forall i :: 0 <= i < |r.declarations| ==> r.declarations[i] == r.declarations[0];
  }

  lemma SecondTestRuleStart()
    ensures ".rule { backgound: none;  }"[0] == '.'
  {
    SecondTestRuleInput();
    assert ".rule"[0] == '.';
  }

  lemma SecondTestRuleInput()
    ensures ".rule { backgound: none;  }" == ".rule" + (" " + ("{" + (" " + ("backgound: none" + (";  " + ("}" + ""))))))
  {
    assert ".rule { backgound: none;  }" == ".rule" + " { " + "backgound: none" + ";  }";
    assert " { " == " " + ("{" + " ") && ";  }" == ";  " + ("}" + "");
  }

  /** A sheet opening with the first test rule reads it, then carries on after it. */
  lemma FirstTestRuleLeads(t: string)
    ensures ParseRules("div[display=flex] { background: red; width: 1em }" + t) == ManyRules(SkipSpaces(t), [FirstTestRule])
  {
    FirstTestRuleStart(t);
    FirstTestRuleOf(t);
    ParseRulesFirst("div[display=flex] { background: red; width: 1em }" + t, FirstTestRule, t);
  }

  lemma FirstTestRuleStart(t: string)
    ensures ("div[display=flex] { background: red; width: 1em }" + t)[0] == 'd'
  {
    FirstTestRuleInput(t);
    assert "div[display=flex]"[0] == 'd';
  }

  /** After the first test rule, a space and the second test rule end the sheet. */
  lemma SecondTestRuleEnds()
    ensures ManyRules(SkipSpaces(" " + ".rule { backgound: none;  }"), [FirstTestRule]) == Done([FirstTestRule, SecondTestRule], "")
  {
    var second := ".rule { backgound: none;  }";
    SecondTestRuleStart();
    SkipSpacesOf(" ", second);
    SecondTestRuleOf();
    LastRuleOf(second, [FirstTestRule], SecondTestRule);
    assert [FirstTestRule] + [SecondTestRule] == [FirstTestRule, SecondTestRule];
  }

  /** The two-rule sheet of the original test reads as exactly those two rules, in order. */
  lemma TwoRuleSheet()
    ensures Css.Parse("div[display=flex] { background: red; width: 1em }" + (" " + ".rule { backgound: none;  }"))
            == Ok(Stylesheet([FirstTestRule, SecondTestRule]))
  {
    FirstTestRuleLeads(" " + ".rule { backgound: none;  }");
    SecondTestRuleEnds();
  }

  /** `whitespaces` takes spaces, tabs, line feeds and carriage returns, and stops at anything else. */
  lemma WhitespaceRuns()
    ensures Whitespaces("  \t\n  \r\n ") == Done("  \t\n  \r\n ", "")
    ensures Whitespaces("  \t\n 444 \r\n ") == Done("  \t\n ", "444 \r\n ")
  {
    WhitespaceOnly();
    WhitespaceThenDigits();
  }

  lemma WhitespaceOnly()
    ensures Whitespaces("  \t\n  \r\n ") == Done("  \t\n  \r\n ", "")
  {
    assert AllSpaces("  \t\n  \r\n ");
    SkipSpacesOf("  \t\n  \r\n ", "");
    assert "  \t\n  \r\n " + "" == "  \t\n  \r\n ";
  }

  lemma WhitespaceThenDigits()
    ensures Whitespaces("  \t\n 444 \r\n ") == Done("  \t\n ", "444 \r\n ")
  {
    assert AllSpaces("  \t\n ");
    SkipSpacesOf("  \t\n ", "444 \r\n ");
    assert "  \t\n " + "444 \r\n " == "  \t\n 444 \r\n ";
  }

  // ------------------------------------------------------------ matching

  /**
   * `div[background~=g]` matches a `div` whose `background` is `red`, since the
   * value `g` is never consulted, and does not match one whose `background`
   * is `g r`, although `g` is one of its tokens.
   */
  lemma ContainExamples()
    ensures SelectorMatches(AttributeSelector("div", Contain, "background", "g"),
                            NewElement("div", map["background" := "red"], []))
    ensures !SelectorMatches(AttributeSelector("div", Contain, "background", "g"),
                             NewElement("div", map["background" := "g r"], []))
  {
    ContainMatches("div", "background", "g", NewElement("div", map["background" := "red"], []));
    ContainMatches("div", "background", "g", NewElement("div", map["background" := "g r"], []));
    assert IsAsciiWhitespace("g r"[1]);
  }

  /** `div[display=flex]` needs the tag and the exact attribute value. */
  lemma EqExamples()
    ensures SelectorMatches(AttributeSelector("div", Eq, "display", "flex"), NewElement("div", map["display" := "flex"], []))
    ensures !SelectorMatches(AttributeSelector("div", Eq, "display", "flex"), NewElement("p", map["display" := "flex"], []))
    ensures !SelectorMatches(AttributeSelector("div", Eq, "display", "flex"), NewElement("div", map["display" := "flex x"], []))
    ensures !SelectorMatches(AttributeSelector("div", Eq, "display", "flex"), NewElement("div", map[], []))
  {
    assert "p" != "div";
    assert "flex x" != "flex";
  }
}
