/**
 * The grammar on the inputs of the markup parser's own unit tests, derived
 * from the token lemmas rather than by evaluating the parser.
 */
module HtmlExamples {
  import opened Chars
  import opened Parsing
  import opened DomNode
  import opened DomText
  import opened Html
  import opened HtmlRoundTrip

  /** An attribute with one space on each side of `=`. */
  lemma SpacedAttributeOf(s: string, k: string, v: string, t: string)
    requires k != [] && AllLetters(k) && v != [] && (forall i :: 0 <= i < |v| ==> v[i] != '"')
    requires s == k + (" " + ("=" + (" " + ("\"" + (v + ("\"" + t))))))
    ensures ParseAttribute(s) == Done((k, Unescape(v)), t)
  {
    var quoted := "\"" + (v + ("\"" + t));
    var afterEq := " " + quoted;
    var tail := " " + ("=" + afterEq);
    SplitAt(k, tail);
    SpanOf(k, tail, Letters);
    SkipSpacesOf(" ", "=" + afterEq);
    SplitAt("=", afterEq);
    SkipSpacesOf(" ", quoted);
    QuotedRawOf(quoted, v, t);
  }

  /** `test="foobar"` reads as the pair (`test`, `foobar`). */
  lemma AttributePlain()
    ensures ParseAttribute("test=\"foobar\"") == Done(("test", "foobar"), "")
  {
    LiteralAttributePlain();
    FoobarPlain();
    AttributeOf("test=\"foobar\"", "test", "foobar", "");
  }

  /** `attributes` on `test="foobar"` reads the map {test: foobar} and leaves nothing. */
  lemma AttributesPlain()
    ensures ParseAttributeList("test=\"foobar\"") == Done([("test", "foobar")], "")
    ensures ToAttrMap([("test", "foobar")]) == map["test" := "foobar"]
  {
    AttributePlain();
    AttributeListStep("test=\"foobar\"", ("test", "foobar"), "");
    MoreAttributesEnd("", [("test", "foobar")]);
  }

  /** `test = "foobar"`: spaces around `=` are skipped. */
  lemma AttributeSpaced()
    ensures ParseAttribute("test = \"foobar\"") == Done(("test", "foobar"), "")
  {
    LiteralAttributeSpaced();
    FoobarPlain();
    SpacedAttributeOf("test = \"foobar\"", "test", "foobar", "");
    UnescapeNoEntity("foobar");
  }

  /** `test = "&quot;&quot;"`: each `&quot;` becomes one `"`. */
  lemma AttributeEntities()
    ensures ParseAttribute("test = \"&quot;&quot;\"") == Done(("test", "\"\""), "")
  {
    LiteralAttributeEntities();
    SpacedAttributeOf("test = \"&quot;&quot;\"", "test", "&quot;&quot;", "");
    UnescapeTwoEntities();
  }

  /** `<p>` is a bare open tag. */
  lemma OpenTagPlain()
    ensures ParseOpenTag("<p>") == Done(("p", map[]), "")
  {
    LiteralOpenTagPlain();
    OpenTagBare("<p>", "p", "");
  }

  /** `<p id="test">` carries its one attribute. */
  lemma OpenTagOneAttribute()
    ensures ParseOpenTag("<p id=\"test\">") == Done(("p", map["id" := "test"]), "")
  {
    var es := [("id", "test")];
    LiteralOpenTagOne();
    AllAttrOkOne();
    OpenTagWith("<p id=\"test\">", "p", es, "");
    assert ToAttrMap(es) == map["id" := "test"];
  }

  /** `<p id="test" class="sample">` carries both attributes. */
  lemma OpenTagTwoAttributes()
    ensures ParseOpenTag("<p id=\"test\" class=\"sample\">")
            == Done(("p", map["id" := "test", "class" := "sample"]), "")
  {
    var es := [("id", "test"), ("class", "sample")];
    LiteralOpenTagTwo();
    AllAttrOkTwo();
    OpenTagWith("<p id=\"test\" class=\"sample\">", "p", es, "");
    ToAttrMapTwo();
  }

  /** `</p>` is the close tag of `p`. */
  lemma CloseTagPlain()
    ensures ParseCloseTag("</p>") == Done("p", "")
  {
    LiteralCloseTag();
    CloseTagOf("</p>", "p", "");
  }

  /** A text run stops before `<` and leaves it unread. */
  lemma TextRuns()
    ensures ParseText("Hello World") == Done(NewText("Hello World"), "")
    ensures ParseText("Hello World<") == Done(NewText("Hello World"), "<")
  {
    LiteralText();
    TextOf("Hello World", "");
    TextOf("Hello World", "<");
  }

  /** `<p></p>` reads as an empty `p` element. */
  lemma EmptyElement()
    ensures ParseElement("<p></p>") == Done(NewElement("p", map[], []), "")
  {
    var empty := NewElement("p", map[], []);
    ToStringNoAttributes("p", []);
    LiteralEmptyElement();
    ToStringRoundTrip(empty);
  }

  /** `<p>Hello World</p>` reads as a `p` element holding one text node. */
  lemma TextElement()
    ensures ParseElement("<p>Hello World</p>") == Done(NewElement("p", map[], [NewText("Hello World")]), "")
  {
    var hello := NewElement("p", map[], [NewText("Hello World")]);
    ToStringNoAttributes("p", [NewText("Hello World")]);
    HelloHtml();
    LiteralTextElement();
    HelloWellFormed();
    ToStringRoundTrip(hello);
  }

  /** Open and close tag names that differ make the element fail, after consuming input. */
  lemma MismatchedTags(s: string, open: string, m: AttrMap, cs: seq<Node>, close: string, t: string)
    requires open != [] && AllLetters(open) && AttrsOk(m) && WellFormedForest(cs)
    requires close != [] && AllLetters(close) && open != close
    requires s == OpenText(open, m) + (ChildrenHtml(cs) + ("<" + ("/" + (close + (">" + t)))))
    ensures ParseElement(s) == Fail(true)
  {
    var closeText := "<" + ("/" + (close + (">" + t)));
    var afterOpen := ChildrenHtml(cs) + closeText;
    OpenTagOf(s, open, m, afterOpen);
    ForestRoundTrip(afterOpen, cs, closeText);
    CloseTagOf(closeText, close, t);
  }

  /** `<p>Hello World</div>` is rejected. */
  lemma MismatchedExample()
    ensures ParseElement("<p>Hello World</div>").Fail?
  {
    var cs := [NewText("Hello World")];
    HelloHtml();
    BareOpenText();
    LiteralMismatch();
    HelloWellFormed();
    MismatchedTags("<p>Hello World</div>", "p", map[], cs, "div", "");
  }

  /**
   * Mismatched markup is no error for `nodes`: the element alternative fails,
   * the text alternative cannot start at `<`, and the forest simply ends, empty.
   */
  lemma MismatchedForest()
    ensures ParseNodes("<p>Hello World</div>") == ([], "<p>Hello World</div>")
  {
    MismatchedExample();
    LiteralMismatch();
    BareOpenText();
  }

  // ------------------------------------------------ the literals, split up

  lemma LiteralAttributePlain()
    ensures "test=\"foobar\"" == "test" + ("=" + ("\"" + ("foobar" + ("\"" + ""))))
  {
  }

  lemma LiteralAttributeSpaced()
    ensures "test = \"foobar\"" == "test" + (" " + ("=" + (" " + ("\"" + ("foobar" + ("\"" + ""))))))
  {
  }

  lemma LiteralAttributeEntities()
    ensures "test = \"&quot;&quot;\""
            == "test" + (" " + ("=" + (" " + ("\"" + ("&quot;&quot;" + ("\"" + ""))))))
  {
  }

  lemma FoobarPlain()
    ensures AllLetters("test") && NoEntity("foobar") && forall i :: 0 <= i < 6 ==> "foobar"[i] != '"'
  {
  }

  lemma UnescapeTwoEntities()
    ensures Unescape("&quot;&quot;") == "\"\""
  {
    var v := "&quot;&quot;";
    assert QuotAt(v) && v[6..] == "&quot;";
    assert QuotAt(v[6..]) && v[6..][6..] == [];
  }

  lemma LiteralOpenTagPlain()
    ensures "<p>" == "<" + ("p" + (">" + ""))
  {
  }

  lemma LiteralOpenTagOne()
    ensures "<p id=\"test\">" == "<" + ("p" + (" " + (Join(AttrTexts([("id", "test")]), " ") + (">" + ""))))
  {
    assert AttrText(("id", "test")) == "id=\"test\"";
    assert AttrTexts([("id", "test")]) == ["id=\"test\""];
  }

  lemma LiteralOpenTagTwo()
    ensures "<p id=\"test\" class=\"sample\">"
            == "<" + ("p" + (" " + (Join(AttrTexts([("id", "test"), ("class", "sample")]), " ") + (">" + ""))))
  {
    TwoAttrTexts();
    TwoAttrOpenTag(Join(AttrTexts([("id", "test"), ("class", "sample")]), " "));
  }

  lemma TwoAttrOpenTag(x: string)
    requires x == "id=\"test\" class=\"sample\""
    ensures "<p id=\"test\" class=\"sample\">" == "<" + ("p" + (" " + (x + (">" + ""))))
  {
    assert ">" + "" == ">";
    assert "<" + ("p" + (" " + (x + ">"))) == "<p " + x + ">";
    assert "<p " + x + ">" == "<p id=\"test\" class=\"sample\">";
  }

  lemma TwoAttrTexts()
    ensures Join(AttrTexts([("id", "test"), ("class", "sample")]), " ") == "id=\"test\" class=\"sample\""
  {
    var es := [("id", "test"), ("class", "sample")];
    assert AttrText(es[0]) == "id=\"test\"";
    assert AttrText(es[1]) == "class=\"sample\"";
    assert AttrTexts(es[1..]) == ["class=\"sample\""];
    assert AttrTexts(es) == ["id=\"test\"", "class=\"sample\""];
  }

  lemma AllAttrOkOne()
    ensures AllAttrOk([("id", "test")])
  {
    assert NoEntity("test");
  }

  lemma AllAttrOkTwo()
    ensures AllAttrOk([("id", "test"), ("class", "sample")])
  {
    assert NoEntity("test") && NoEntity("sample");
  }

  lemma ToAttrMapTwo()
    ensures ToAttrMap([("id", "test"), ("class", "sample")]) == map["id" := "test", "class" := "sample"]
  {
    var es := [("id", "test"), ("class", "sample")];
    assert es[..1] == [("id", "test")];
  }

  lemma LiteralCloseTag()
    ensures "</p>" == "<" + ("/" + ("p" + (">" + "")))
  {
  }

  lemma LiteralText()
    ensures "Hello World" + "" == "Hello World" && "Hello World" + "<" == "Hello World<"
    ensures forall i :: 0 <= i < |"Hello World"| ==> "Hello World"[i] != '<'
  {
  }

  lemma LiteralEmptyElement()
    ensures "<" + "p" + ">" + ChildrenHtml([]) + "</" + "p" + ">" == "<p></p>"
  {
  }

  lemma HelloHtml()
    ensures ChildrenHtml([NewText("Hello World")]) == "Hello World"
  {
    NewTextToString("Hello World");
  }

  lemma LiteralTextElement()
    ensures "<" + "p" + ">" + "Hello World" + "</" + "p" + ">" == "<p>Hello World</p>"
  {
  }

  lemma HelloWellFormed()
    ensures WellFormedForest([NewText("Hello World")])
  {
    LiteralText();
    assert WellFormed(NewText("Hello World"));
  }

  lemma BareOpenText()
    ensures OpenText("p", map[]) == "<p>"
  {
    assert Entries(map[]) == [];
  }

  lemma LiteralMismatch()
    ensures "<p>Hello World</div>" == "<p>" + ("Hello World" + ("<" + ("/" + ("div" + (">" + "")))))
  {
  }

  // ------------------------------------- a `"` in a value is not re-escaped

  /** The entries of a one-attribute map. */
  lemma EntriesSingle(k: string, v: string)
    ensures Entries(map[k := v]) == [(k, v)]
  {
    var m := map[k := v];
    var es := Entries(m);
    assert k in m;
    var i :| 0 <= i < |es| && es[i].0 == k;
    DistinctKeysBound(es, m.Keys);
  }

  /** A sequence of pairs with distinct names, all drawn from `ks`, is no longer than `ks` is large. */
  lemma {:induction false} DistinctKeysBound(es: seq<(string, string)>, ks: set<string>)
    requires forall i :: 0 <= i < |es| ==> es[i].0 in ks
    requires forall i, j :: 0 <= i < j < |es| ==> es[i].0 != es[j].0
    ensures |es| <= |ks|
  {
    if es != [] {
      var tail := es[1..];
      forall i | 0 <= i < |tail| ensures tail[i].0 in ks - {es[0].0} {
        assert tail[i] == es[i + 1];
      }
      DistinctKeysBound(tail, ks - {es[0].0});
    }
  }

  /** A name followed by something other than spaces or `=` is a committed failure. */
  lemma AttributeWithoutEquals(s: string, k: string, t: string)
    requires k != [] && AllLetters(k)
    requires t != [] && !IsLetter(t[0]) && !IsSpace(t[0]) && t[0] != '='
    requires s == k + t
    ensures ParseAttribute(s) == Fail(true)
  {
    SplitAt(k, t);
    SpanOf(k, t, Letters);
    SpanOf([], t, Spaces);
    assert SkipSpaces(t) == t;
  }

  lemma LiteralQuoted()
    ensures ToString(NewElement("p", map["x" := "a\"b"], []))
            == "<" + ("p" + (" " + ("x" + ("=" + ("\"" + ("a" + ("\"" + ("b" + "\"></p>"))))))))
  {
    var m := map["x" := "a\"b"];
    var n := NewElement("p", m, []);
    var close := "<" + ("/" + ("p" + (">" + "")));
    QuotedAttrsText();
    ToStringElementAppend(n, "");
    assert ChildrenHtml([]) + close == close;
    OpenTextAppend("p", m, close);
    assert ToString(n) + "" == ToString(n);
    QuotedTail(AttrsText(m), close);
  }

  lemma QuotedTail(a: string, close: string)
    requires a == "x=\"a\"b\"" && close == "<" + ("/" + ("p" + (">" + "")))
    ensures a + (">" + close) == "x" + ("=" + ("\"" + ("a" + ("\"" + ("b" + "\"></p>")))))
  {
    assert close == "</p>";
    assert a + (">" + close) == "x=\"a\"b\"></p>";
  }

  lemma QuotedAttrsText()
    ensures AttrsText(map["x" := "a\"b"]) == "x=\"a\"b\""
  {
    EntriesSingle("x", "a\"b");
    assert AttrTexts([("x", "a\"b")]) == [AttrText(("x", "a\"b"))];
  }

  /**
   * The element `p` whose attribute `x` has the value `a"b` is written as
   * `<p x="a"b"></p>`, which `element` rejects: the value ends at the second
   * `"`, and the `b` after it starts an attribute without `=`.
   */
  lemma QuoteInValueBreaksRoundTrip()
    ensures ParseElement(ToString(NewElement("p", map["x" := "a\"b"], []))) == Fail(true)
  {
    var attrs := "x" + ("=" + ("\"" + ("a" + ("\"" + ("b" + "\"></p>")))));
    LiteralQuoted();
    QuotedAttributeList();
    OneSpaceSkipped(attrs);
    OpenTagAttributesFail("<" + ("p" + (" " + attrs)), "p", " " + attrs);
  }

  lemma OneSpaceSkipped(s: string)
    requires s != [] && !IsSpace(s[0])
    ensures SkipSpaces(" " + s) == s
  {
    SkipSpacesOf(" ", s);
  }

  /** An open tag whose attribute list fails makes the element fail, committed. */
  lemma OpenTagAttributesFail(s: string, tag: string, after: string)
    requires tag != [] && AllLetters(tag)
    requires after == [] || !IsLetter(after[0])
    requires s == "<" + (tag + after)
    requires ParseAttributeList(SkipSpaces(after)).Fail?
    ensures ParseElement(s) == Fail(true)
  {
    var body := tag + after;
    SplitAt("<", body);
    SplitAt(tag, after);
    SpanOf(tag, after, Letters);
    assert ParseOpenTag(s) == Fail(true);
  }

  /** `x="a"b"…`: the first attribute reads as `x="a"`, then `b` fails without `=`. */
  lemma QuotedAttributeList()
    ensures ParseAttributeList("x" + ("=" + ("\"" + ("a" + ("\"" + ("b" + "\"></p>")))))) == Fail(true)
  {
    var rest := "b" + "\"></p>";
    var attrs := "x" + ("=" + ("\"" + ("a" + ("\"" + rest))));
    assert NoEntity("a");
    AttributeOf(attrs, "x", "a", rest);
    QuoteBreaksAttribute(rest);
    AttributeListStep(attrs, ("x", "a"), rest);
  }

  lemma QuoteBreaksAttribute(rest: string)
    requires rest == "b" + "\"></p>"
    ensures MoreAttributes(rest, [("x", "a")]) == Fail(true)
  {
    AttributeWithoutEquals(rest, "b", "\"></p>");
    MoreAttributesFail(rest, [("x", "a")]);
  }

  /** An attribute that fails after consuming, with no space before it, fails the whole list. */
  lemma MoreAttributesFail(s: string, acc: seq<(string, string)>)
    requires s != [] && !IsSpace(s[0])
    requires ParseAttribute(s) == Fail(true)
    ensures MoreAttributes(s, acc) == Fail(true)
  {
    SpanOf([], s, Spaces);
    assert s[0..] == s;
  }
}
