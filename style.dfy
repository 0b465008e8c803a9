/**
 * The style cascade: every DOM node gets the declarations of the rules that
 * match it, in rule order, later ones overwriting earlier ones of the same
 * name. Nothing is inherited; the styled tree has the shape of the DOM tree.
 * The stylesheet is a built-in default sheet followed by the document's own
 * `<style>` text, read as one text.
 */
module Style {
  import opened Chars
  import Parsing
  import opened DomNode
  import opened DomDocument
  import opened Css
  import opened CssText

  /** `PropertyMap`: declaration name to value. */
  type PropertyMap = map<string, CssValue>

  datatype Display = Inline | Block | None

  /** A styled node: the DOM node's type, its computed properties, and the styled children. */
  datatype StyledNode = StyledNode(nodeType: NodeType, properties: PropertyMap, children: seq<StyledNode>)

  datatype StyledDocument = StyledDocument(documentElement: StyledNode)

  /**
   * `StyledNode::display`: the keyword `block` gives Block and `none` gives None;
   * any other keyword, a length, or no `display` property at all gives Inline.
   */
  function DisplayOf(n: StyledNode): (d: Display)
    ensures d == Block <==> "display" in n.properties && n.properties["display"] == Keyword("block")
    ensures d == None <==> "display" in n.properties && n.properties["display"] == Keyword("none")
  {
    if "display" in n.properties then
      match n.properties["display"]
      case Keyword(s) => if s == "block" then Block else if s == "none" then None else Inline
      case Length(_, _) => Inline
    else Inline
  }

  // ------------------------------------------------------------- the cascade

  /** The declarations of the rules that match `n`, rule by rule in sheet order. */
  function MatchedDeclarations(rules: seq<Rule>, n: Node): (ds: seq<Declaration>)
  {
    if rules == [] then []
    else (if RuleMatches(rules[0], n) then rules[0].declarations else []) + MatchedDeclarations(rules[1..], n)
  }

  /** `props.insert(name, value)` for each declaration in order. */
  function Insert(props: PropertyMap, ds: seq<Declaration>): (r: PropertyMap)
    decreases ds
  {
    if ds == [] then props else Insert(props[ds[0].name := ds[0].value], ds[1..])
  }

  /** The property map `to_styled_node` computes for `n`. */
  function Properties(rules: seq<Rule>, n: Node): (props: PropertyMap)
    ensures forall k :: k in props <==> Declares(MatchedDeclarations(rules, n), k)
  {
    var ds := MatchedDeclarations(rules, n);
    assert forall k :: k in Insert(map[], ds) <==> Declares(ds, k) by {
      forall k ensures k in Insert(map[], ds) <==> Declares(ds, k) {
        InsertLastWins(map[], ds, k);
      }
    }
    Insert(map[], ds)
  }

  /**
   * The two loops of `to_styled_node`: over the matching rules in order, and
   * over each one's declarations in order, inserting every one into the map.
   */
  method ComputeProperties(n: Node, sheet: Stylesheet) returns (props: PropertyMap)
    ensures props == Properties(sheet.rules, n)
  {
    props := map[];
    var i := 0;
    while i < |sheet.rules|
      invariant 0 <= i <= |sheet.rules|
      invariant props == Properties(sheet.rules[..i], n)
    {
      var rule := sheet.rules[i];
      PropertiesNext(sheet.rules, i, n);
      if RuleMatches(rule, n) {
        ghost var start := props;
        var j := 0;
        while j < |rule.declarations|
          invariant 0 <= j <= |rule.declarations|
          invariant props == Insert(start, rule.declarations[..j])
        {
          var d := rule.declarations[j];
          InsertNext(start, rule.declarations, j);
          props := props[d.name := d.value];
          j := j + 1;
        }
        assert rule.declarations[..j] == rule.declarations;
      }
      i := i + 1;
    }
    assert sheet.rules[..i] == sheet.rules;
  }

  /** The styled tree `to_styled_node` builds, as a function of the DOM node and the sheet. */
  function Styled(n: Node, sheet: Stylesheet): (s: StyledNode)
    ensures Mirrors(s, n, sheet)
    decreases n
  {
    StyledNode(n.nodeType, Properties(sheet.rules, n), StyledChildren(n.children, sheet))
  }

  function StyledChildren(ns: seq<Node>, sheet: Stylesheet): (ss: seq<StyledNode>)
    ensures |ss| == |ns| && forall i :: 0 <= i < |ns| ==> Mirrors(ss[i], ns[i], sheet)
    decreases ns
  {
    if ns == [] then []
    else
      var ss := [Styled(ns[0], sheet)] + StyledChildren(ns[1..], sheet);
      assert forall i :: 0 < i < |ns| ==> ss[i] == StyledChildren(ns[1..], sheet)[i - 1] && ns[i] == ns[1..][i - 1];
      ss
  }

  /** `to_styled_node`: the children are styled first, then the node's own properties are computed. */
  method ToStyledNode(n: Node, sheet: Stylesheet) returns (s: StyledNode)
    ensures s == Styled(n, sheet)
    decreases n
  {
    var children := ToStyledNodes(n.children, sheet);
    var props := ComputeProperties(n, sheet);
    s := StyledNode(n.nodeType, props, children);
  }

  /** `to_styled_nodes`: each node styled, in order. */
  method ToStyledNodes(ns: seq<Node>, sheet: Stylesheet) returns (ss: seq<StyledNode>)
    ensures ss == StyledChildren(ns, sheet)
    decreases ns
  {
    ss := [];
    var i := 0;
    while i < |ns|
      invariant 0 <= i <= |ns|
      invariant ss + StyledChildren(ns[i..], sheet) == StyledChildren(ns, sheet)
    {
      StyledChildrenAt(ns, i, sheet);
      var s := ToStyledNode(ns[i], sheet);
      Assoc(ss, [s], StyledChildren(ns[i + 1..], sheet));
      ss := ss + [s];
      i := i + 1;
    }
    assert ns[i..] == [];
  }

  lemma StyledChildrenAt(ns: seq<Node>, i: nat, sheet: Stylesheet)
    requires i < |ns|
    ensures StyledChildren(ns[i..], sheet) == [Styled(ns[i], sheet)] + StyledChildren(ns[i + 1..], sheet)
  {
    assert ns[i..][1..] == ns[i + 1..] && ns[i..][0] == ns[i];
  }

  // ----------------------------------------------------------- the stylesheet

  /** `DEFAULT_STYLESHEET`. */
  const DefaultStylesheet: string :=
    "\n" +
    "script, style {\n" +
    "    display: none;\n" +
    "}\n" +
    "p, div {\n" +
    "    display: block;\n" +
    "}\n"

  /** The two rules of the default sheet. */
  const DefaultRules: seq<Rule> := [
    Rule([TypeSelector("script"), TypeSelector("style")], [Declaration("display", Keyword("none"))]),
    Rule([TypeSelector("p"), TypeSelector("div")], [Declaration("display", Keyword("block"))])
  ]

  /** The text handed to the stylesheet grammar: the default sheet, a line break, the document's style texts joined by line breaks. */
  function StyleText(d: Document): string {
    DefaultStylesheet + "\n" + Join(GetStyleInners(d), "\n")
  }

  /**
   * The stylesheet in force: the default rules followed by the document's own
   * rules when the style text reads; when it does not, there are no rules at
   * all, so the default rules are lost too.
   */
  function SheetOf(d: Document): (sheet: Stylesheet)
    ensures var own := Css.Parse(Join(GetStyleInners(d), "\n"));
            sheet.rules == if own.Ok? then DefaultRules + own.value.rules else []
  {
    var j := Join(GetStyleInners(d), "\n");
    DefaultSheetRules(j);
    ManyRulesAfter(SkipSpaces(j), DefaultRules);
    match Css.Parse(StyleText(d))
    case Ok(s) => s
    case Err(_) => Stylesheet([])
  }

  /** `to_styled_document`. */
  method ToStyledDocument(d: Document) returns (sd: StyledDocument)
    ensures sd.documentElement == Styled(d.documentElement, SheetOf(d))
  {
    var text := DefaultStylesheet + "\n" + Join(GetStyleInners(d), "\n");
    var parsed := Css.Parse(text);
    var sheet := if parsed.Ok? then parsed.value else Stylesheet([]);
    var root := ToStyledNode(d.documentElement, sheet);
    sd := StyledDocument(root);
  }

  // ----------------------------------------------------- lemmas: the cascade

  lemma {:induction false} MatchedDeclarationsAppend(a: seq<Rule>, b: seq<Rule>, n: Node)
    ensures MatchedDeclarations(a + b, n) == MatchedDeclarations(a, n) + MatchedDeclarations(b, n)
  {
    if a == [] {
      assert a + b == b;
    } else {
      assert (a + b)[1..] == a[1..] + b;
      MatchedDeclarationsAppend(a[1..], b, n);
    }
  }

  lemma MatchedOne(rule: Rule, n: Node)
    ensures MatchedDeclarations([rule], n) == if RuleMatches(rule, n) then rule.declarations else []
  {
    assert [rule][1..] == [];
  }

  /** Inserting one more declaration is one more map update. */
  lemma InsertNext(props: PropertyMap, ds: seq<Declaration>, j: nat)
    requires j < |ds|
    ensures Insert(props, ds[..j + 1]) == Insert(props, ds[..j])[ds[j].name := ds[j].value]
  {
    var d := ds[j];
    InsertAppend(props, ds[..j], [d]);
    assert ds[..j + 1] == ds[..j] + [d];
    assert [d][1..] == [];
  }

  /** One more rule adds its declarations when it matches, and nothing otherwise. */
  lemma PropertiesNext(rules: seq<Rule>, i: nat, n: Node)
    requires i < |rules|
    ensures Properties(rules[..i + 1], n)
            == if RuleMatches(rules[i], n) then Insert(Properties(rules[..i], n), rules[i].declarations)
               else Properties(rules[..i], n)
  {
    var rule := rules[i];
    MatchedDeclarationsAppend(rules[..i], [rule], n);
    MatchedOne(rule, n);
    assert rules[..i + 1] == rules[..i] + [rule];
    var before := MatchedDeclarations(rules[..i], n);
    if RuleMatches(rule, n) {
      InsertAppend(map[], before, rule.declarations);
    } else {
      assert before + [] == before;
    }
  }

  lemma {:induction false} InsertAppend(props: PropertyMap, a: seq<Declaration>, b: seq<Declaration>)
    ensures Insert(props, a + b) == Insert(Insert(props, a), b)
    decreases a
  {
    if a == [] {
      assert a + b == b;
    } else {
      assert (a + b)[1..] == a[1..] + b;
      InsertAppend(props[a[0].name := a[0].value], a[1..], b);
    }
  }

  /** Some declaration of `ds` has the name `k`. */
  predicate Declares(ds: seq<Declaration>, k: string) {
    exists i :: 0 <= i < |ds| && ds[i].name == k
  }

  /**
   * Last write wins: after inserting `ds`, a name holds the value of its last
   * declaration in `ds`; a name `ds` does not declare keeps what it had.
   */
  lemma {:induction false} InsertLastWins(props: PropertyMap, ds: seq<Declaration>, k: string)
    ensures k in Insert(props, ds) <==> k in props || Declares(ds, k)
    ensures forall i :: 0 <= i < |ds| && ds[i].name == k && (forall j :: i < j < |ds| ==> ds[j].name != k)
                        ==> Insert(props, ds)[k] == ds[i].value
    ensures !Declares(ds, k) && k in props ==> Insert(props, ds)[k] == props[k]
    decreases ds
  {
    if ds != [] {
      var p := props[ds[0].name := ds[0].value];
      InsertLastWins(p, ds[1..], k);
      assert Declares(ds, k) <==> ds[0].name == k || Declares(ds[1..], k) by {
        if Declares(ds, k) {
          var i :| 0 <= i < |ds| && ds[i].name == k;
          if i > 0 {
            assert ds[1..][i - 1].name == k;
          }
        }
        if Declares(ds[1..], k) {
          var i :| 0 <= i < |ds[1..]| && ds[1..][i].name == k;
          assert ds[i + 1].name == k;
        }
      }
      forall i | 0 <= i < |ds| && ds[i].name == k && (forall j :: i < j < |ds| ==> ds[j].name != k)
        ensures Insert(props, ds)[k] == ds[i].value
      {
        if i > 0 {
          assert ds[1..][i - 1] == ds[i];
          assert forall j :: i - 1 < j < |ds[1..]| ==> ds[1..][j].name != k by {
            forall j | i - 1 < j < |ds[1..]| ensures ds[1..][j].name != k {
              assert ds[1..][j] == ds[j + 1];
            }
          }
        } else {
          assert !Declares(ds[1..], k) by {
            forall j | 0 <= j < |ds[1..]| ensures ds[1..][j].name != k {
              assert ds[1..][j] == ds[j + 1];
            }
          }
        }
      }
    }
  }

  /** A name that `ds` declares ends up with a value that does not depend on the map `ds` was inserted into. */
  lemma InsertDeclaredIgnoresStart(p: PropertyMap, q: PropertyMap, ds: seq<Declaration>, k: string)
    requires Declares(ds, k)
    ensures k in Insert(p, ds) && k in Insert(q, ds) && Insert(p, ds)[k] == Insert(q, ds)[k]
  {
    var i := LastDeclaration(ds, k);
    InsertLastWins(p, ds, k);
    InsertLastWins(q, ds, k);
  }

  /** The position of the last declaration of `k` in `ds`. */
  lemma {:induction false} LastDeclaration(ds: seq<Declaration>, k: string) returns (i: nat)
    requires Declares(ds, k)
    ensures i < |ds| && ds[i].name == k && forall j :: i < j < |ds| ==> ds[j].name != k
  {
    if ds[|ds| - 1].name == k {
      i := |ds| - 1;
    } else {
      var front := ds[..|ds| - 1];
      assert Declares(front, k) by {
        var m :| 0 <= m < |ds| && ds[m].name == k;
        assert front[m] == ds[m];
      }
      i := LastDeclaration(front, k);
      assert front[i] == ds[i];
      forall j | i < j < |ds| ensures ds[j].name != k {
        if j < |ds| - 1 {
          assert front[j] == ds[j];
        }
      }
    }
  }

  /**
   * Later rules win: once a rule at index `j` matches `n` and declares `k`,
   * the rules before it have no say in the value of `k`.
   */
  lemma LaterRuleWins(rules: seq<Rule>, j: nat, n: Node, k: string)
    requires j < |rules| && RuleMatches(rules[j], n) && Declares(rules[j].declarations, k)
    ensures k in Properties(rules, n) && k in Properties(rules[j..], n)
    ensures Properties(rules, n)[k] == Properties(rules[j..], n)[k]
  {
    var before := MatchedDeclarations(rules[..j], n);
    var after := MatchedDeclarations(rules[j..], n);
    assert rules == rules[..j] + rules[j..];
    MatchedDeclarationsAppend(rules[..j], rules[j..], n);
    InsertAppend(map[], before, after);
    assert rules[j..] == [rules[j]] + rules[j + 1..];
    MatchedDeclarationsAppend([rules[j]], rules[j + 1..], n);
    assert MatchedDeclarations([rules[j]], n) == rules[j].declarations;
    assert Declares(after, k) by {
      var i :| 0 <= i < |rules[j].declarations| && rules[j].declarations[i].name == k;
      assert after[i] == rules[j].declarations[i];
    }
    InsertDeclaredIgnoresStart(Insert(map[], before), map[], after, k);
  }

  /** Whether a selector matches looks at the node's own type only. */
  lemma {:induction false} MatchesOwnType(sels: seq<SimpleSelector>, a: Node, b: Node)
    requires a.nodeType == b.nodeType
    ensures AnySelectorMatches(sels, a) == AnySelectorMatches(sels, b)
  {
    if sels != [] {
      MatchesOwnType(sels[1..], a, b);
    }
  }

  /**
   * No inheritance: a node's properties depend on its own tag and attributes
   * and the sheet, not on its ancestors, its children or where it stands.
   */
  lemma {:induction false} PropertiesOwnType(rules: seq<Rule>, a: Node, b: Node)
    requires a.nodeType == b.nodeType
    ensures Properties(rules, a) == Properties(rules, b)
  {
    assert MatchedDeclarations(rules, a) == MatchedDeclarations(rules, b) by {
      MatchedOwnType(rules, a, b);
    }
  }

  lemma {:induction false} MatchedOwnType(rules: seq<Rule>, a: Node, b: Node)
    requires a.nodeType == b.nodeType
    ensures MatchedDeclarations(rules, a) == MatchedDeclarations(rules, b)
  {
    if rules != [] {
      MatchesOwnType(rules[0].selectors, a, b);
      MatchedOwnType(rules[1..], a, b);
    }
  }

  // ------------------------------------------------ lemmas: the styled tree

  /** `s` is the styled form of `n`: same node type, its own computed properties, and children styled pairwise. */
  predicate Mirrors(s: StyledNode, n: Node, sheet: Stylesheet)
    decreases n
  {
    s.nodeType == n.nodeType && s.properties == Properties(sheet.rules, n)
    && |s.children| == |n.children|
    && forall i :: 0 <= i < |n.children| ==> Mirrors(s.children[i], n.children[i], sheet)
  }

  /** With no rules at all every node has an empty property map and displays Inline. */
  lemma EmptySheetInline(n: Node)
    ensures Styled(n, Stylesheet([])).properties == map[]
    ensures DisplayOf(Styled(n, Stylesheet([]))) == Inline
  {
  }

  // -------------------------------------------- lemmas: the default sheet

  /** The first default rule, `script, style { display: none; }`, as it is laid out in the default sheet. */
  lemma FirstDefaultRuleOf(t: string)
    ensures ParseRule(FirstDefaultRuleText + t) == Parsing.Done(DefaultRules[0], t)
  {
    FirstDefaultRuleLayout(t);
    FirstDefaultRuleParts();
    RuleOf(FirstDefaultRuleText + t, DefaultRules[0], " ", "\n    ", ";\n", t);
  }

  lemma FirstDefaultRuleLayout(t: string)
    ensures FirstDefaultRuleText + t
            == "script, style" + (" " + ("{" + ("\n    " + ("display: none" + (";\n" + ("}" + t))))))
  {
    assert "script, style {\n" == "script, style" + " {\n";
    assert "    display: none;\n" == "    " + "display: none" + ";\n";
    DefaultRuleLayout("script, style", "display: none", t);
  }

  lemma FirstDefaultRuleParts()
    ensures SelectorsText(DefaultRules[0].selectors) == "script, style"
    ensures DeclarationsText(DefaultRules[0].declarations) == "display: none"
    ensures RuleOk(DefaultRules[0])
  {
    TwoTypeSelectors("script", "style");
    OneKeywordDeclaration("display", "none");
  }

  /** The second default rule, `p, div { display: block; }`, as it is laid out in the default sheet. */
  lemma SecondDefaultRuleOf(t: string)
    ensures ParseRule(SecondDefaultRuleText + t) == Parsing.Done(DefaultRules[1], t)
  {
    SecondDefaultRuleLayout(t);
    SecondDefaultRuleParts();
    RuleOf(SecondDefaultRuleText + t, DefaultRules[1], " ", "\n    ", ";\n", t);
  }

  lemma SecondDefaultRuleLayout(t: string)
    ensures SecondDefaultRuleText + t
            == "p, div" + (" " + ("{" + ("\n    " + ("display: block" + (";\n" + ("}" + t))))))
  {
    assert "p, div {\n" == "p, div" + " {\n";
    assert "    display: block;\n" == "    " + "display: block" + ";\n";
    DefaultRuleLayout("p, div", "display: block", t);
  }

  lemma SecondDefaultRuleParts()
    ensures SelectorsText(DefaultRules[1].selectors) == "p, div"
    ensures DeclarationsText(DefaultRules[1].declarations) == "display: block"
    ensures RuleOk(DefaultRules[1])
  {
    TwoTypeSelectors("p", "div");
    OneKeywordDeclaration("display", "block");
  }

  /** Two type selectors are printed with `, ` between them. */
  lemma TwoTypeSelectors(a: string, b: string)
    requires Word(a) && Word(b)
    ensures SelectorsText([TypeSelector(a), TypeSelector(b)]) == a + ", " + b
    ensures SelectorsOk([TypeSelector(a), TypeSelector(b)])
  {
    var sels := [TypeSelector(a), TypeSelector(b)];
    assert sels[1..] == [TypeSelector(b)] && sels[1..][1..] == [];
    assert SelectorsTail(sels[1..]) == ", " + (b + "");
  }

  /** A single keyword declaration is printed as `name: keyword`. */
  lemma OneKeywordDeclaration(name: string, keyword: string)
    requires Word(name) && Word(keyword)
    ensures DeclarationsText([Declaration(name, Keyword(keyword))]) == name + ": " + keyword
    ensures DeclarationsOk([Declaration(name, Keyword(keyword))])
  {
    var ds := [Declaration(name, Keyword(keyword))];
    assert ds[1..] == [];
    assert DeclarationText(ds[0]) == name + (":" + (" " + keyword));
  }

  /** A default rule's lines: the selectors and ` {`, the indented declaration and `;`, then `}`. */
  lemma DefaultRuleLayout(selectors: string, declaration: string, t: string)
    ensures (selectors + " {\n") + ("    " + declaration + ";\n") + "}" + t
            == selectors + (" " + ("{" + ("\n    " + (declaration + (";\n" + ("}" + t))))))
  {
    assert " {\n" == " " + ("{" + "\n");
    assert "\n" + "    " == "\n    ";
  }

  const FirstDefaultRuleText: string := "script, style {\n" + "    display: none;\n" + "}"

  const SecondDefaultRuleText: string := "p, div {\n" + "    display: block;\n" + "}"

  /** The default sheet is a line break, the first rule, a line break, the second rule and a line break. */
  lemma DefaultStylesheetLayout(t: string)
    ensures DefaultStylesheet + "\n" + t
            == "\n" + (FirstDefaultRuleText + ("\n" + (SecondDefaultRuleText + ("\n\n" + t))))
  {
    SheetLayout("\n", "script, style {\n", "    display: none;\n", "p, div {\n", "    display: block;\n", t);
  }

  /** Two three-line rules, each line ending in a line break, regrouped rule by rule. */
  lemma SheetLayout(a: string, l1: string, l2: string, l4: string, l5: string, t: string)
    ensures a + l1 + l2 + "}\n" + l4 + l5 + "}\n" + "\n" + t
            == a + ((l1 + l2 + "}") + ("\n" + ((l4 + l5 + "}") + ("\n\n" + t))))
  {
    var f := l1 + l2 + "}";
    var g := l4 + l5 + "}";
    assert "}\n" == "}" + "\n" && "\n\n" == "\n" + "\n";
    assert a + l1 + l2 + "}\n" == a + f + "\n";
    assert a + l1 + l2 + "}\n" + l4 + l5 + "}\n" == a + f + "\n" + g + "\n";
  }

  /** The default sheet reads as its two rules, and reading goes on with the document's text. */
  lemma DefaultSheetRules(t: string)
    ensures ParseRules(DefaultStylesheet + "\n" + t) == ManyRules(SkipSpaces(t), DefaultRules)
  {
    var s2 := SecondDefaultRuleText + ("\n\n" + t);
    DefaultStylesheetLayout(t);
    FirstDefaultStep(s2);
    SecondDefaultStep(t);
  }

  lemma FirstDefaultStep(s2: string)
    ensures ManyRules(SkipSpaces("\n" + (FirstDefaultRuleText + ("\n" + s2))), []) == ManyRules(SkipSpaces("\n" + s2), [DefaultRules[0]])
  {
    var s1 := FirstDefaultRuleText + ("\n" + s2);
    assert FirstDefaultRuleText[0] == 's';
    SkipSpacesOf("\n", s1);
    FirstDefaultRuleOf("\n" + s2);
    ManyRulesStep(s1, [], DefaultRules[0], "\n" + s2);
    assert [] + [DefaultRules[0]] == [DefaultRules[0]];
  }

  lemma SecondDefaultStep(t: string)
    ensures ManyRules(SkipSpaces("\n" + (SecondDefaultRuleText + ("\n\n" + t))), [DefaultRules[0]]) == ManyRules(SkipSpaces(t), DefaultRules)
  {
    var s2 := SecondDefaultRuleText + ("\n\n" + t);
    assert SecondDefaultRuleText[0] == 'p';
    SkipSpacesOf("\n", s2);
    SecondDefaultRuleOf("\n\n" + t);
    ManyRulesStep(s2, [DefaultRules[0]], DefaultRules[1], "\n\n" + t);
    SkipSpacesPrefix("\n\n", t);
    assert [DefaultRules[0]] + [DefaultRules[1]] == DefaultRules;
  }

  /** Reading rules with rules already gathered is reading them afresh after those. */
  lemma {:induction false} ManyRulesAfter(s: string, acc: seq<Rule>)
    ensures ManyRules(s, acc).Done? == ManyRules(s, []).Done?
    ensures ManyRules(s, acc).Done? ==> ManyRules(s, acc).value == acc + ManyRules(s, []).value
    decreases |s|
  {
    match ParseRule(s)
    case Fail(_) =>
      assert acc + [] == acc;
    case Done(rule, rest) =>
      var next := SkipSpaces(rest);
      ManyRulesStep(s, acc, rule, rest);
      ManyRulesStep(s, [], rule, rest);
      assert [] + [rule] == [rule];
      ManyRulesAfter(next, acc + [rule]);
      ManyRulesAfter(next, [rule]);
      if ManyRules(next, []).Done? {
        Assoc(acc, [rule], ManyRules(next, []).value);
      }
  }

  /** A document without style text is styled by the default rules alone. */
  lemma NoStyleDefaultsOnly(d: Document)
    requires GetStyleInners(d) == []
    ensures SheetOf(d).rules == DefaultRules
  {
    assert Css.Parse("").value.rules == [];
  }

  /** A document style text that does not read, such as an unclosed block, leaves the page with no rules. */
  lemma BrokenStyleDropsDefaults(d: Document)
    requires GetStyleInners(d) == ["p {"]
    ensures SheetOf(d).rules == []
  {
    assert Join(["p {"], "\n") == "p {";
    UnclosedRuleFails();
  }

  /** `p {` opens a block that never closes, so the sheet does not read. */
  lemma UnclosedRuleFails()
    ensures Css.Parse("p {").Err?
  {
    UnclosedRuleSelectors();
    assert "{"[1..] == "";
    assert ParseDeclarations("") == Parsing.Done([], "");
    assert ParseRule("p {") == Parsing.Fail(true);
    SkipSpacesNone("p {");
  }

  lemma UnclosedRuleSelectors()
    ensures ParseSelectors("p {") == Parsing.Done([TypeSelector("p")], "{")
  {
    assert ParseSimpleSelector("p {") == Parsing.Done(TypeSelector("p"), "{") by {
      assert "p" + " {" == "p {";
      SpanOf("p", " {", Letters);
      assert "p {"[..1] == "p" && "p {"[1..] == " {";
      SkipSpacesOf(" ", "{");
    }
  }

  lemma TwoSelectors(a: SimpleSelector, b: SimpleSelector, n: Node)
    ensures AnySelectorMatches([a, b], n) <==> SelectorMatches(a, n) || SelectorMatches(b, n)
  {
    assert [b][1..] == [] && !AnySelectorMatches([], n);
    assert AnySelectorMatches([b], n) == SelectorMatches(b, n);
    assert [a, b][1..] == [b];
  }

  /** Under the default rules `script` and `style` display None, `p` and `div` Block, everything else Inline. */
  lemma DefaultDisplay(n: Node)
    ensures var display := DisplayOf(Styled(n, Stylesheet(DefaultRules)));
            if HasTag(n, "script") || HasTag(n, "style") then display == None
            else if HasTag(n, "p") || HasTag(n, "div") then display == Block
            else display == Inline
  {
    var ds := DefaultMatched(n);
    var props := Styled(n, Stylesheet(DefaultRules)).properties;
    assert props == Insert(map[], ds);
    if ds != [] {
      assert ds[1..] == [];
    }
  }

  /** The declarations the default rules give a node: one `display`, or none. */
  lemma DefaultMatched(n: Node) returns (ds: seq<Declaration>)
    ensures ds == MatchedDeclarations(DefaultRules, n)
    ensures ds == if HasTag(n, "script") || HasTag(n, "style") then [Declaration("display", Keyword("none"))]
                  else if HasTag(n, "p") || HasTag(n, "div") then [Declaration("display", Keyword("block"))]
                  else []
  {
    var r1 := DefaultRules[0];
    var r2 := DefaultRules[1];
    TwoSelectors(TypeSelector("script"), TypeSelector("style"), n);
    TwoSelectors(TypeSelector("p"), TypeSelector("div"), n);
    var m1 := if RuleMatches(r1, n) then r1.declarations else [];
    var m2 := if RuleMatches(r2, n) then r2.declarations else [];
    assert MatchedDeclarations(DefaultRules, n) == m1 + m2 by {
      assert DefaultRules[1..] == [r2] && DefaultRules[1..][1..] == [];
      assert MatchedDeclarations([r2], n) == m2 + MatchedDeclarations([], n);
    }
    ds := m1 + m2;
    if RuleMatches(r1, n) {
      assert !RuleMatches(r2, n);
      assert ds == r1.declarations;
    } else if RuleMatches(r2, n) {
      assert ds == r2.declarations;
    } else {
      assert ds == [];
    }
  }

  /**
   * The document's rules come after the default ones: a document rule that
   * matches a node and declares a property decides it, whatever the defaults say.
   */
  lemma DocumentOverridesDefaults(d: Document, own: seq<Rule>, j: nat, n: Node, k: string)
    requires Css.Parse(Join(GetStyleInners(d), "\n")) == Parsing.Ok(Stylesheet(own))
    requires j < |own| && RuleMatches(own[j], n) && Declares(own[j].declarations, k)
    ensures k in Properties(SheetOf(d).rules, n) && k in Properties(own[j..], n)
    ensures Properties(SheetOf(d).rules, n)[k] == Properties(own[j..], n)[k]
  {
    AppendedRuleWins(DefaultRules, own, j, n, k);
  }

  /** A matching rule of the appended sheet decides each property it declares, whatever came before. */
  lemma AppendedRuleWins(before: seq<Rule>, own: seq<Rule>, j: nat, n: Node, k: string)
    requires j < |own| && RuleMatches(own[j], n) && Declares(own[j].declarations, k)
    ensures k in Properties(before + own, n) && k in Properties(own[j..], n)
    ensures Properties(before + own, n)[k] == Properties(own[j..], n)[k]
  {
    var rules := before + own;
    assert rules[|before| + j] == own[j];
    LaterRuleWins(rules, |before| + j, n, k);
    assert rules[|before| + j..] == own[j..];
  }
}
