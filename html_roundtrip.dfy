/**
 * Serialising and re-parsing markup. For a well-formed node, `element`
 * applied to its `to_string` gives the node back, and `nodes` applied to
 * `inner_html` gives back the children; a `"` in an attribute value breaks it,
 * since values are written out without re-escaping.
 */
module HtmlRoundTrip {
  import opened Chars
  import opened Parsing
  import opened DomNode
  import opened DomText
  import opened Html

  /** `v` holds no occurrence of the entity `&quot;`. */
  predicate NoEntity(v: string) {
    v == [] || (!QuotAt(v) && NoEntity(v[1..]))
  }

  /** An attribute the grammar can read back: letters name, non-empty value without `"` or `&quot;`. */
  predicate AttrOk(k: string, v: string) {
    k != [] && AllLetters(k) && v != [] && (forall i :: 0 <= i < |v| ==> v[i] != '"') && NoEntity(v)
  }

  predicate AttrsOk(m: AttrMap) {
    forall k :: k in m ==> AttrOk(k, m[k])
  }

  /**
   * The nodes whose serialisation the grammar reads back: letters tag names,
   * readable attributes, non-empty text without `<`, childless text nodes, and
   * never two text nodes side by side (a text run is maximal).
   */
  predicate WellFormed(n: Node)
    decreases n
  {
    match n.nodeType
    case Text(d) => d != [] && (forall i :: 0 <= i < |d| ==> d[i] != '<') && n.children == []
    case Element(tag, attrs) =>
      tag != [] && AllLetters(tag) && AttrsOk(attrs) && WellFormedForest(n.children)
  }

  predicate WellFormedForest(cs: seq<Node>)
    decreases cs
  {
    (forall i :: 0 <= i < |cs| ==> WellFormed(cs[i]))
    && (forall i :: 0 <= i < |cs| - 1 ==> !(cs[i].nodeType.Text? && cs[i + 1].nodeType.Text?))
  }

  // ----------------------------------------------------------- tokens

  lemma {:induction false} UnescapeNoEntity(v: string)
    requires NoEntity(v)
    ensures Unescape(v) == v
  {
    if v != [] {
      UnescapeNoEntity(v[1..]);
    }
  }

  /** Escaping for the `replace` to undo: every `"` written as `&quot;`. */
  function Escape(v: string): (r: string)
    ensures |r| >= |v|
    ensures forall i :: 0 <= i < |r| ==> r[i] != '"'
  {
    if v == [] then []
    else
      var head := if v[0] == '"' then "&quot;" else [v[0]];
      var r := head + Escape(v[1..]);
      assert forall i :: |head| <= i < |r| ==> r[i] == Escape(v[1..])[i - |head|];
      r
  }

  /** An escaped text that does not start with `&` starts with the original's first character. */
  lemma EscapeHead(w: string)
    requires Escape(w) != [] && Escape(w)[0] != '&'
    ensures w != [] && w[0] != '"' && w[0] == Escape(w)[0] && Escape(w)[1..] == Escape(w[1..])
  {
  }

  /** The entity can only appear in an escaped text where it already stood in the original. */
  lemma QuotEscaped(v: string)
    requires v != [] && v[0] != '"' && QuotAt(Escape(v))
    ensures QuotAt(v)
  {
    var e := Escape(v);
    assert e == [v[0]] + Escape(v[1..]);
    assert e[1..] == Escape(v[1..]);
    EscapeHead(v[1..]);
    assert v[1..][1..] == v[2..];
    EscapeHead(v[2..]);
    assert v[2..][1..] == v[3..];
    EscapeHead(v[3..]);
    assert v[3..][1..] == v[4..];
    EscapeHead(v[4..]);
    assert v[4..][1..] == v[5..];
    EscapeHead(v[5..]);
  }

  /** Unescaping undoes escaping, for every value in which the entity does not already stand. */
  lemma {:induction false} UnescapeEscape(v: string)
    requires NoEntity(v)
    ensures Unescape(Escape(v)) == v
  {
    if v != [] {
      var e := Escape(v);
      UnescapeEscape(v[1..]);
      if v[0] == '"' {
        assert e == "&quot;" + Escape(v[1..]);
        assert QuotAt(e) && e[6..] == Escape(v[1..]);
      } else {
        assert e == [v[0]] + Escape(v[1..]);
        if QuotAt(e) {
          QuotEscaped(v);
          assert false;
        }
        assert e[1..] == Escape(v[1..]);
      }
    }
  }

  lemma TextOf(d: string, t: string)
    requires d != [] && forall i :: 0 <= i < |d| ==> d[i] != '<'
    requires t == [] || t[0] == '<'
    ensures ParseText(d + t) == Done(NewText(d), t)
  {
    SpanOf(d, t, AllBut('<'));
    assert (d + t)[..|d|] == d && (d + t)[|d|..] == t;
  }

  lemma QuotedValueOf(s: string, v: string, t: string)
    requires v != [] && (forall i :: 0 <= i < |v| ==> v[i] != '"') && NoEntity(v)
    requires s == "\"" + (v + ("\"" + t))
    ensures ParseQuotedValue(s) == Done(v, t)
  {
    QuotedRawOf(s, v, t);
    UnescapeNoEntity(v);
  }

  lemma QuotedRawOf(s: string, v: string, t: string)
    requires v != [] && (forall i :: 0 <= i < |v| ==> v[i] != '"')
    requires s == "\"" + (v + ("\"" + t))
    ensures ParseQuotedValue(s) == Done(Unescape(v), t)
  {
    assert s[1..] == v + ("\"" + t);
    SpanOf(v, "\"" + t, AllBut('"'));
    assert s[1..1 + |v|] == v;
    assert s[|v| + 2..] == t;
  }

  lemma AttributeOf(s: string, k: string, v: string, t: string)
    requires AttrOk(k, v)
    requires s == k + ("=" + ("\"" + (v + ("\"" + t))))
    ensures ParseAttribute(s) == Done((k, v), t)
  {
    var tail := "=" + ("\"" + (v + ("\"" + t)));
    SpanOf(k, tail, Letters);
    assert s[|k|..] == tail && s[..|k|] == k;
    SpanOf([], tail, Spaces);
    assert SkipSpaces(s[|k|..]) == tail;
    var afterEq := "\"" + (v + ("\"" + t));
    assert tail[1..] == afterEq;
    SpanOf([], afterEq, Spaces);
    assert SkipSpaces(afterEq) == afterEq;
    QuotedValueOf(afterEq, v, t);
  }

  /** `AttrText(e) + t`, with the concatenation nested to the right. */
  lemma AttrTextAppend(e: (string, string), t: string)
    ensures AttrText(e) + t == e.0 + ("=" + ("\"" + (e.1 + ("\"" + t))))
  {
  }

  /** Each attribute preceded by one space, as they follow the first one in the open tag. */
  function SpacedTail(es: seq<(string, string)>): string {
    if es == [] then "" else " " + (AttrText(es[0]) + SpacedTail(es[1..]))
  }

  lemma {:induction false} JoinSpaced(es: seq<(string, string)>)
    requires es != []
    ensures Join(AttrTexts(es), " ") == AttrText(es[0]) + SpacedTail(es[1..])
  {
    if |es| > 1 {
      JoinSpaced(es[1..]);
      assert AttrTexts(es)[1..] == AttrTexts(es[1..]);
    }
  }

  predicate AllAttrOk(es: seq<(string, string)>) {
    forall i :: 0 <= i < |es| ==> AttrOk(es[i].0, es[i].1)
  }

  /** What may follow an attribute list: nothing, or a character that is neither a letter nor a space. */
  predicate EndsAttributes(t: string) {
    t == [] || (!IsLetter(t[0]) && !IsSpace(t[0]))
  }

  lemma SpacedTailCons(es: seq<(string, string)>, t: string)
    requires es != []
    ensures SpacedTail(es) + t
            == " " + (es[0].0 + ("=" + ("\"" + (es[0].1 + ("\"" + (SpacedTail(es[1..]) + t))))))
  {
    AttrTextAppend(es[0], SpacedTail(es[1..]) + t);
  }

  /** One space and one readable attribute are consumed, and the list goes on after them. */
  lemma MoreAttributesStep(s: string, e: (string, string), more: string, acc: seq<(string, string)>)
    requires AttrOk(e.0, e.1)
    requires s == " " + (e.0 + ("=" + ("\"" + (e.1 + ("\"" + more)))))
    ensures MoreAttributes(s, acc) == MoreAttributes(more, acc + [e])
  {
    var first := e.0 + ("=" + ("\"" + (e.1 + ("\"" + more))));
    assert first[0] == e.0[0];
    SpanOf(" ", first, Spaces);
    assert s[1..] == first;
    AttributeOf(first, e.0, e.1, more);
  }

  lemma MoreAttributesEnd(t: string, acc: seq<(string, string)>)
    requires EndsAttributes(t)
    ensures MoreAttributes(t, acc) == Done(acc, t)
  {
    SpanOf([], t, Spaces);
    assert t[0..] == t;
  }

  lemma {:induction false} MoreAttributesOf(s: string, es: seq<(string, string)>, acc: seq<(string, string)>, t: string)
    requires AllAttrOk(es) && EndsAttributes(t)
    requires s == SpacedTail(es) + t
    ensures MoreAttributes(s, acc) == Done(acc + es, t)
    decreases es, 1
  {
    if es == [] {
      assert s == t;
      MoreAttributesEnd(t, acc);
      assert acc + es == acc;
    } else {
      MoreAttributesCons(s, es, acc, t);
    }
  }

  lemma {:induction false} MoreAttributesCons(s: string, es: seq<(string, string)>, acc: seq<(string, string)>, t: string)
    requires es != [] && AllAttrOk(es) && EndsAttributes(t)
    requires s == SpacedTail(es) + t
    ensures MoreAttributes(s, acc) == Done(acc + es, t)
    decreases es, 0
  {
    var more := SpacedTail(es[1..]) + t;
    var acc' := acc + [es[0]];
    SpacedTailCons(es, t);
    MoreAttributesStep(s, es[0], more, acc);
    AllAttrOkTail(es);
    MoreAttributesOf(more, es[1..], acc', t);
    AppendFirst(acc, es);
  }

  lemma AllAttrOkTail(es: seq<(string, string)>)
    requires es != [] && AllAttrOk(es)
    ensures AllAttrOk(es[1..])
  {
    forall i | 0 <= i < |es| - 1 ensures AttrOk(es[1..][i].0, es[1..][i].1) {
      assert es[1..][i] == es[i + 1];
    }
  }

  /** A list whose first attribute reads goes on with the attributes after it. */
  lemma AttributeListStep(s: string, e: (string, string), rest: string)
    requires ParseAttribute(s) == Done(e, rest)
    ensures ParseAttributeList(s) == MoreAttributes(rest, [e])
  {
  }

  lemma AttributeListOf(s: string, es: seq<(string, string)>, t: string)
    requires es != [] && AllAttrOk(es) && EndsAttributes(t)
    requires s == Join(AttrTexts(es), " ") + t
    ensures ParseAttributeList(s) == Done(es, t)
  {
    JoinSpaced(es);
    var more := SpacedTail(es[1..]) + t;
    AttrTextAppend(es[0], more);
    assert AttrOk(es[0].0, es[0].1);
    AttributeOf(s, es[0].0, es[0].1, more);
    AttributeListStep(s, es[0], more);
    AllAttrOkTail(es);
    MoreAttributesOf(more, es[1..], [es[0]], t);
    assert [es[0]] + es[1..] == es;
  }

  /** A name given twice keeps the later value, as `<p id="a" id="b">` has the id `b`. */
  lemma RepeatedAttributeLastWins()
    ensures ToAttrMap([("id", "a"), ("id", "b")]) == map["id" := "b"]
  {
    assert [("id", "a"), ("id", "b")][..1] == [("id", "a")];
    assert [("id", "a")][..0] == [];
  }

  lemma ToAttrMapEntries(m: AttrMap)
    ensures ToAttrMap(Entries(m)) == m
  {
    ToAttrMapEnumeration(m, Entries(m));
  }

  /** Collecting an enumeration of the entries of `m` without repeated names gives `m` back. */
  lemma ToAttrMapEnumeration(m: AttrMap, es: seq<(string, string)>)
    requires forall i :: 0 <= i < |es| ==> es[i].0 in m && m[es[i].0] == es[i].1
    requires forall i, j :: 0 <= i < j < |es| ==> es[i].0 != es[j].0
    requires forall k :: k in m ==> exists i :: 0 <= i < |es| && es[i].0 == k
    ensures ToAttrMap(es) == m
  {
    ToAttrMapCovers(m, es);
    ToAttrMapWithin(m, es);
    SameEntries(m, ToAttrMap(es));
  }

  lemma ToAttrMapCovers(m: AttrMap, es: seq<(string, string)>)
    requires forall i :: 0 <= i < |es| ==> es[i].0 in m && m[es[i].0] == es[i].1
    requires forall i, j :: 0 <= i < j < |es| ==> es[i].0 != es[j].0
    requires forall k :: k in m ==> exists i :: 0 <= i < |es| && es[i].0 == k
    ensures forall k :: k in m ==> k in ToAttrMap(es) && ToAttrMap(es)[k] == m[k]
  {
    var r := ToAttrMap(es);
    forall k | k in m ensures k in r && r[k] == m[k] {
      var i :| 0 <= i < |es| && es[i].0 == k;
      assert forall j :: i < j < |es| ==> es[j].0 != es[i].0;
      assert r[es[i].0] == es[i].1;
    }
  }

  lemma ToAttrMapWithin(m: AttrMap, es: seq<(string, string)>)
    requires forall i :: 0 <= i < |es| ==> es[i].0 in m
    ensures forall k :: k in ToAttrMap(es) ==> k in m
  {
    var r := ToAttrMap(es);
    forall k | k in r ensures k in m {
      var i :| 0 <= i < |es| && es[i].0 == k;
    }
  }

  lemma SameEntries(m: AttrMap, r: AttrMap)
    requires forall k :: k in m ==> k in r && r[k] == m[k]
    requires forall k :: k in r ==> k in m
    ensures r == m
  {
    assert r.Keys == m.Keys;
  }

  /** The open tag `to_string` writes for an element. */
  ghost function OpenText(tag: string, m: AttrMap): string {
    if AttrsText(m) != "" then "<" + tag + " " + AttrsText(m) + ">" else "<" + tag + ">"
  }

  /** `OpenText(tag, m) + t`, with the concatenation nested to the right. */
  lemma OpenTextAppend(tag: string, m: AttrMap, t: string)
    ensures AttrsText(m) == "" ==> OpenText(tag, m) + t == "<" + (tag + (">" + t))
    ensures AttrsText(m) != "" ==> OpenText(tag, m) + t == "<" + (tag + (" " + (AttrsText(m) + (">" + t))))
  {
    var a := AttrsText(m);
    if a != "" {
      assert OpenText(tag, m) == "<" + tag + " " + a + ">";
      Assoc("<" + tag + " " + a, ">", t);
      Assoc("<" + tag + " ", a, ">" + t);
      Assoc("<" + tag, " ", a + (">" + t));
      Assoc("<", tag, " " + (a + (">" + t)));
    } else {
      assert OpenText(tag, m) == "<" + tag + ">";
      Assoc("<" + tag, ">", t);
      Assoc("<", tag, ">" + t);
    }
  }

  lemma OpenTagOf(s: string, tag: string, m: AttrMap, t: string)
    requires tag != [] && AllLetters(tag) && AttrsOk(m)
    requires s == OpenText(tag, m) + t
    ensures ParseOpenTag(s) == Done((tag, m), t)
  {
    var es := Entries(m);
    ToAttrMapEntries(m);
    OpenTextAppend(tag, m, t);
    AttrsTextEmpty(m);
    if AttrsText(m) == "" {
      OpenTagBare(s, tag, t);
    } else {
      assert es != [];
      assert AllAttrOk(es);
      OpenTagWith(s, tag, es, t);
    }
  }

  /** The attribute text is empty exactly when the map is. */
  lemma AttrsTextEmpty(m: AttrMap)
    ensures AttrsText(m) == "" <==> Entries(m) == []
  {
    var es := Entries(m);
    if es != [] {
      JoinSpaced(es);
      assert |AttrText(es[0])| > 0;
    }
  }

  /**
   * An open tag: `<`, the tag name, then whatever the attribute list reads
   * after the spaces, closed by `>`.
   */
  lemma OpenTagSteps(s: string, tag: string, after: string, pairs: seq<(string, string)>, t: string)
    requires tag != [] && AllLetters(tag)
    requires after == [] || !IsLetter(after[0])
    requires s == "<" + (tag + after)
    requires ParseAttributeList(SkipSpaces(after)) == Done(pairs, ">" + t)
    ensures ParseOpenTag(s) == Done((tag, ToAttrMap(pairs)), t)
  {
    var body := tag + after;
    SplitAt("<", body);
    SplitAt(tag, after);
    SpanOf(tag, after, Letters);
    assert (">" + t)[1..] == t;
  }

  /** An open tag without attributes. */
  lemma OpenTagBare(s: string, tag: string, t: string)
    requires tag != [] && AllLetters(tag)
    requires s == "<" + (tag + (">" + t))
    ensures ParseOpenTag(s) == Done((tag, ToAttrMap([])), t)
  {
    var after := ">" + t;
    SpanOf([], after, Spaces);
    assert SkipSpaces(after) == after;
    AttributeListEmpty(after);
    OpenTagSteps(s, tag, after, [], t);
  }

  /** An open tag whose attributes, written out in the order `es`, follow one space. */
  lemma OpenTagWith(s: string, tag: string, es: seq<(string, string)>, t: string)
    requires tag != [] && AllLetters(tag) && es != [] && AllAttrOk(es)
    requires s == "<" + (tag + (" " + (Join(AttrTexts(es), " ") + (">" + t))))
    ensures ParseOpenTag(s) == Done((tag, ToAttrMap(es)), t)
  {
    var inside := Join(AttrTexts(es), " ") + (">" + t);
    AttributesStart(es, ">" + t);
    SpanOf(" ", inside, Spaces);
    SplitAt(" ", inside);
    assert SkipSpaces(" " + inside) == inside;
    AttributeListOf(inside, es, ">" + t);
    OpenTagSteps(s, tag, " " + inside, es, t);
  }

  /** Written-out attributes start with the first name's first letter. */
  lemma AttributesStart(es: seq<(string, string)>, t: string)
    requires es != [] && AllAttrOk(es)
    ensures Join(AttrTexts(es), " ") + t != []
    ensures (Join(AttrTexts(es), " ") + t)[0] == es[0].0[0]
    ensures !IsSpace(es[0].0[0])
  {
    JoinSpaced(es);
    AttrTextAppend(es[0], SpacedTail(es[1..]) + t);
    assert AttrOk(es[0].0, es[0].1);
  }

  /** A list that does not begin with a letter holds no attribute and consumes nothing. */
  lemma AttributeListEmpty(s: string)
    requires s == [] || !IsLetter(s[0])
    ensures ParseAttributeList(s) == Done([], s)
  {
  }

  lemma CloseTagOf(s: string, tag: string, t: string)
    requires tag != [] && AllLetters(tag)
    requires s == "<" + ("/" + (tag + (">" + t)))
    ensures ParseCloseTag(s) == Done(tag, t)
  {
    assert s[2..] == tag + (">" + t);
    SpanOf(tag, ">" + t, Letters);
    assert s[2..2 + |tag|] == tag && s[3 + |tag|..] == t;
  }

  // ----------------------------------------------------------- trees

  /** The serialisation of an element followed by `t`: open tag, children, close tag, `t`. */
  lemma ToStringElementAppend(n: Node, t: string)
    requires n.nodeType.Element?
    ensures ToString(n) + t
            == OpenText(n.nodeType.tagName, n.nodeType.attributes)
               + (ChildrenHtml(n.children) + ("<" + ("/" + (n.nodeType.tagName + (">" + t)))))
  {
    var tag := n.nodeType.tagName;
    var o := OpenText(tag, n.nodeType.attributes);
    var inner := ChildrenHtml(n.children);
    var x := tag + (">" + t);
    assert ToString(n) == o + inner + "</" + tag + ">";
    Assoc(o + inner + "</" + tag, ">", t);
    Assoc(o + inner + "</", tag, ">" + t);
    Assoc(o + inner, "</", x);
    Assoc(o, inner, "</" + x);
    assert "</" == "<" + "/";
    Assoc("<", "/", x);
  }

  /** A well-formed element's serialisation parses back to the element, whatever follows it. */
  lemma {:induction false} ElementRoundTrip(s: string, n: Node, t: string)
    requires WellFormed(n) && n.nodeType.Element?
    requires s == ToString(n) + t
    ensures ParseElement(s) == Done(n, t)
    decreases n, 1
  {
    var tag, attrs := n.nodeType.tagName, n.nodeType.attributes;
    var close := "<" + ("/" + (tag + (">" + t)));
    var afterOpen := ChildrenHtml(n.children) + close;
    ToStringElementAppend(n, t);
    OpenTagOf(s, tag, attrs, afterOpen);
    ForestRoundTrip(afterOpen, n.children, close);
    CloseTagOf(close, tag, t);
  }

  /** What follows the children of an element (its close tag) or the end of the input. */
  predicate EndsNodes(t: string) {
    t == [] || (|t| >= 2 && t[0] == '<' && t[1] == '/')
  }

  lemma NodesStop(t: string)
    requires EndsNodes(t)
    ensures ParseNodes(t) == ([], t)
  {
  }

  /** `ChildrenHtml(cs) + t` splits after the first node. */
  lemma ChildrenHtmlAppend(cs: seq<Node>, t: string)
    requires cs != []
    ensures ChildrenHtml(cs) + t == ToString(cs[0]) + (ChildrenHtml(cs[1..]) + t)
  {
  }

  /** The concatenated serialisations of a well-formed forest parse back to the forest. */
  lemma {:induction false} ForestRoundTrip(s: string, cs: seq<Node>, t: string)
    requires WellFormedForest(cs) && EndsNodes(t)
    requires s == ChildrenHtml(cs) + t
    ensures ParseNodes(s) == (cs, t)
    decreases cs, 0
  {
    if cs == [] {
      assert s == t;
      NodesStop(t);
    } else {
      var more := ChildrenHtml(cs[1..]) + t;
      ChildrenHtmlAppend(cs, t);
      assert WellFormedForest(cs[1..]);
      ForestRoundTrip(more, cs[1..], t);
      if cs[0].nodeType.Element? {
        ElementRoundTrip(s, cs[0], more);
      } else {
        TextFirst(s, cs, more, t);
      }
      NodesCons(s, cs, more, t);
    }
  }

  /** A forest that opens with a text node: `element` fails and `text` takes that node whole. */
  lemma TextFirst(s: string, cs: seq<Node>, more: string, t: string)
    requires WellFormedForest(cs) && EndsNodes(t) && cs != [] && cs[0].nodeType.Text?
    requires more == ChildrenHtml(cs[1..]) + t && s == ToString(cs[0]) + more
    ensures ParseElement(s).Fail? && ParseText(s) == Done(cs[0], more)
  {
    if cs[1..] != [] {
      ChildrenHtmlAppend(cs[1..], t);
      ToStringElementAppend(cs[1], ChildrenHtml(cs[2..]) + t);
    }
    TextNodeFirst(s, cs[0], more);
  }

  /** `nodes` reads the first node of `cs`, then the rest of the forest. */
  lemma NodesCons(s: string, cs: seq<Node>, more: string, t: string)
    requires cs != [] && ParseNodes(more) == (cs[1..], t)
    requires ParseElement(s) == Done(cs[0], more)
             || (ParseElement(s).Fail? && ParseText(s) == Done(cs[0], more))
    ensures ParseNodes(s) == (cs, t)
  {
    FirstRest(cs);
    if ParseElement(s).Done? {
      NodesAfterElement(s);
    } else {
      NodesAfterText(s);
    }
  }

  lemma FirstRest<T>(es: seq<T>)
    requires es != []
    ensures [es[0]] + es[1..] == es
  {
  }

  /** `nodes` after an element: that element, then whatever `nodes` reads after it. */
  lemma NodesAfterElement(s: string)
    requires ParseElement(s).Done?
    ensures var e := ParseElement(s);
            ParseNodes(s) == ([e.value] + ParseNodes(e.rest).0, ParseNodes(e.rest).1)
  {
  }

  /** `nodes` where no element starts but a text run does: that text, then whatever follows. */
  lemma NodesAfterText(s: string)
    requires ParseElement(s).Fail? && ParseText(s).Done?
    ensures var e := ParseText(s);
            ParseNodes(s) == ([e.value] + ParseNodes(e.rest).0, ParseNodes(e.rest).1)
  {
  }

  /** A text node followed by a tag or the end: `element` fails on it and `text` takes it whole. */
  lemma TextNodeFirst(s: string, c: Node, more: string)
    requires WellFormed(c) && c.nodeType.Text?
    requires more == [] || more[0] == '<'
    requires s == ToString(c) + more
    ensures ParseElement(s).Fail? && ParseText(s) == Done(c, more)
  {
    var d := c.nodeType.data;
    assert s == d + more;
    TextOf(d, more);
  }

  /** `nodes` applied to the `inner_html` of a well-formed node gives back its children. */
  lemma InnerHtmlRoundTrip(n: Node)
    requires WellFormed(n) && n.nodeType.Element?
    ensures ParseWithoutNormalization(InnerHtml(n)) == Ok(n.children)
  {
    ForestRoundTrip(InnerHtml(n), n.children, "");
  }

  /** `element` applied to `to_string` of a well-formed element gives it back with nothing left over. */
  lemma ToStringRoundTrip(n: Node)
    requires WellFormed(n) && n.nodeType.Element?
    ensures ParseElement(ToString(n)) == Done(n, "")
  {
    ElementRoundTrip(ToString(n), n, "");
  }
}
