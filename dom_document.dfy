/**
 * The `Document` record and the tag-content search used to find the inline
 * scripts and style sheets of a page.
 */
module DomDocument {
  import opened DomNode

  datatype Document = Document(url: string, documentUri: string, documentElement: Node)

  /** `Document::new`: stores its three arguments unchanged. */
  function NewDocument(url: string, documentUri: string, documentElement: Node): (d: Document)
    ensures d.url == url && d.documentUri == documentUri && d.documentElement == documentElement
  {
    Document(url, documentUri, documentElement)
  }

  predicate HasTag(n: Node, tag: string) {
    n.nodeType.Element? && n.nodeType.tagName == tag
  }

  /**
   * `Document::intl`: a node with the requested tag yields its `inner_text` and
   * is not searched further; any other node yields the results of its children
   * in order. So the result is the text of every outermost tagged element.
   */
  function Intl(n: Node, tag: string): (r: seq<string>)
    ensures r == InnerTexts(Outermost(n, tag))
    decreases n
  {
    OutermostStep(n, tag);
    if HasTag(n, tag) then [InnerText(n)] else IntlChildren(n.children, tag)
  }

  function IntlChildren(cs: seq<Node>, tag: string): (r: seq<string>)
    ensures r == InnerTexts(Unshadowed(MarkedForest(cs, false, tag), tag))
    decreases cs
  {
    if cs == [] then []
    else
      UnshadowedAppend(Marked(cs[0], false, tag), MarkedForest(cs[1..], false, tag), tag);
      InnerTextsAppend(Outermost(cs[0], tag), Unshadowed(MarkedForest(cs[1..], false, tag), tag));
      Intl(cs[0], tag) + IntlChildren(cs[1..], tag)
  }

  /** `Document::collect_tag_inners`: the search starts at the document element, which may itself match. */
  function CollectTagInners(d: Document, tag: string): (r: seq<string>)
    ensures r == InnerTexts(Outermost(d.documentElement, tag))
    ensures HasTag(d.documentElement, tag) ==> r == [InnerText(d.documentElement)]
    ensures Tagged(Subtree(d.documentElement), tag) == [] ==> r == []
    ensures forall s :: s in r ==> s in InnerTexts(Tagged(Subtree(d.documentElement), tag))
  {
    IntlNoMatch(d.documentElement, tag);
    IntlSound(d.documentElement, tag);
    Intl(d.documentElement, tag)
  }

  /** `Document::get_script_inners`: the text of every outermost `script` element, in document order. */
  function GetScriptInners(d: Document): (r: seq<string>)
    ensures r == InnerTexts(Outermost(d.documentElement, "script"))
    ensures forall s :: s in r ==> s in InnerTexts(Tagged(Subtree(d.documentElement), "script"))
  {
    CollectTagInners(d, "script")
  }

  /** `Document::get_style_inners`: the text of every outermost `style` element, in document order. */
  function GetStyleInners(d: Document): (r: seq<string>)
    ensures r == InnerTexts(Outermost(d.documentElement, "style"))
    ensures forall s :: s in r ==> s in InnerTexts(Tagged(Subtree(d.documentElement), "style"))
  {
    CollectTagInners(d, "style")
  }

  // ------------------------------------------------- outermost tagged elements

  /**
   * Every node of the subtree of `n` in document order, paired with whether
   * one of its ancestors carries the tag; `above` says whether one above `n` does.
   */
  function Marked(n: Node, above: bool, tag: string): (r: seq<(Node, bool)>)
    decreases n
  {
    [(n, above)] + MarkedForest(n.children, above || HasTag(n, tag), tag)
  }

  function MarkedForest(cs: seq<Node>, above: bool, tag: string): (r: seq<(Node, bool)>)
    decreases cs
  {
    if cs == [] then [] else Marked(cs[0], above, tag) + MarkedForest(cs[1..], above, tag)
  }

  /** The nodes of `ps` that carry the tag and have no tagged ancestor, in order. */
  function Unshadowed(ps: seq<(Node, bool)>, tag: string): (r: seq<Node>)
    ensures |r| <= |ps|
  {
    if ps == [] then []
    else (if HasTag(ps[0].0, tag) && !ps[0].1 then [ps[0].0] else []) + Unshadowed(ps[1..], tag)
  }

  /** The elements of the tree carrying the tag that are not inside another such element, in document order. */
  function Outermost(n: Node, tag: string): (r: seq<Node>)
  {
    Unshadowed(Marked(n, false, tag), tag)
  }

  function Firsts(ps: seq<(Node, bool)>): (r: seq<Node>)
    ensures |r| == |ps| && forall i :: 0 <= i < |ps| ==> r[i] == ps[i].0
  {
    if ps == [] then [] else [ps[0].0] + Firsts(ps[1..])
  }

  lemma {:induction false} UnshadowedAppend(a: seq<(Node, bool)>, b: seq<(Node, bool)>, tag: string)
    ensures Unshadowed(a + b, tag) == Unshadowed(a, tag) + Unshadowed(b, tag)
  {
    if a == [] {
      assert a + b == b;
    } else {
      assert (a + b)[0] == a[0] && (a + b)[1..] == a[1..] + b;
      UnshadowedAppend(a[1..], b, tag);
    }
  }

  /** Below a tagged element nothing is outermost. */
  lemma {:induction false} ShadowedSubtree(n: Node, tag: string)
    ensures Unshadowed(Marked(n, true, tag), tag) == []
    decreases n
  {
    UnshadowedAppend([(n, true)], MarkedForest(n.children, true, tag), tag);
    ShadowedForest(n.children, tag);
  }

  lemma {:induction false} ShadowedForest(cs: seq<Node>, tag: string)
    ensures Unshadowed(MarkedForest(cs, true, tag), tag) == []
    decreases cs
  {
    if cs != [] {
      UnshadowedAppend(Marked(cs[0], true, tag), MarkedForest(cs[1..], true, tag), tag);
      ShadowedSubtree(cs[0], tag);
      ShadowedForest(cs[1..], tag);
    }
  }

  /** A tagged root is the only outermost element; otherwise the outermost elements are its children's. */
  lemma OutermostStep(n: Node, tag: string)
    ensures HasTag(n, tag) ==> Outermost(n, tag) == [n]
    ensures !HasTag(n, tag) ==> Outermost(n, tag) == Unshadowed(MarkedForest(n.children, false, tag), tag)
  {
    var rest := MarkedForest(n.children, HasTag(n, tag), tag);
    UnshadowedAppend([(n, false)], rest, tag);
    if HasTag(n, tag) {
      ShadowedForest(n.children, tag);
    }
  }

  /** `Marked` lists the subtree in document order. */
  lemma {:induction false} MarkedNodes(n: Node, above: bool, tag: string)
    ensures Firsts(Marked(n, above, tag)) == Subtree(n)
    decreases n
  {
    MarkedForestNodes(n.children, above || HasTag(n, tag), tag);
    FirstsAppend([(n, above)], MarkedForest(n.children, above || HasTag(n, tag), tag));
  }

  lemma {:induction false} MarkedForestNodes(cs: seq<Node>, above: bool, tag: string)
    ensures Firsts(MarkedForest(cs, above, tag)) == Forest(cs)
    decreases cs
  {
    if cs != [] {
      MarkedNodes(cs[0], above, tag);
      MarkedForestNodes(cs[1..], above, tag);
      FirstsAppend(Marked(cs[0], above, tag), MarkedForest(cs[1..], above, tag));
    }
  }

  lemma FirstsAppend(a: seq<(Node, bool)>, b: seq<(Node, bool)>)
    ensures Firsts(a + b) == Firsts(a) + Firsts(b)
  {
    assert Firsts(a + b) == Firsts(a) + Firsts(b) by {
      assert |Firsts(a + b)| == |a + b|;
      forall i | 0 <= i < |a + b| ensures Firsts(a + b)[i] == (Firsts(a) + Firsts(b))[i] {
        if i >= |a| {
          assert (a + b)[i] == b[i - |a|];
        }
      }
    }
  }

  lemma {:induction false} UnshadowedMembers(ps: seq<(Node, bool)>, tag: string, x: Node)
    ensures x in Unshadowed(ps, tag) ==> HasTag(x, tag) && x in Firsts(ps)
  {
    if ps != [] {
      UnshadowedMembers(ps[1..], tag, x);
      assert Firsts(ps) == [ps[0].0] + Firsts(ps[1..]);
    }
  }

  /** Each outermost element is an element of the tree carrying the tag. */
  lemma OutermostTagged(n: Node, tag: string, x: Node)
    ensures x in Outermost(n, tag) ==> HasTag(x, tag) && x in Subtree(n)
  {
    UnshadowedMembers(Marked(n, false, tag), tag, x);
    MarkedNodes(n, false, tag);
  }

  /** Without nesting, the outermost tagged elements are all the tagged elements. */
  lemma {:induction false} OutermostUnnested(n: Node, tag: string)
    requires Unnested(n, tag)
    ensures Outermost(n, tag) == Tagged(Subtree(n), tag)
    decreases n
  {
    OutermostStep(n, tag);
    TaggedAppend([n], Descendants(n), tag);
    if HasTag(n, tag) {
      assert Tagged([n], tag) == [n];
    } else {
      assert Tagged([n], tag) == [];
      ForestUnnested(n.children, tag);
    }
  }

  lemma {:induction false} ForestUnnested(cs: seq<Node>, tag: string)
    requires forall i :: 0 <= i < |cs| ==> Unnested(cs[i], tag)
    ensures Unshadowed(MarkedForest(cs, false, tag), tag) == Tagged(Forest(cs), tag)
    decreases cs
  {
    if cs != [] {
      OutermostUnnested(cs[0], tag);
      ForestUnnested(cs[1..], tag);
      UnshadowedAppend(Marked(cs[0], false, tag), MarkedForest(cs[1..], false, tag), tag);
      assert Forest(cs) == Subtree(cs[0]) + Forest(cs[1..]);
      TaggedAppend(Subtree(cs[0]), Forest(cs[1..]), tag);
    }
  }

  // ------------------------------------------------------------------ lemmas

  /** The nodes of `ns` that carry the tag, in order. */
  function Tagged(ns: seq<Node>, tag: string): (r: seq<Node>)
    ensures |r| <= |ns|
  {
    if ns == [] then [] else (if HasTag(ns[0], tag) then [ns[0]] else []) + Tagged(ns[1..], tag)
  }

  function InnerTexts(ns: seq<Node>): (r: seq<string>)
    ensures |r| == |ns|
  {
    if ns == [] then [] else [InnerText(ns[0])] + InnerTexts(ns[1..])
  }

  lemma {:induction false} TaggedAppend(a: seq<Node>, b: seq<Node>, tag: string)
    ensures Tagged(a + b, tag) == Tagged(a, tag) + Tagged(b, tag)
  {
    if a == [] {
      assert a + b == b;
    } else {
      var c := a + b;
      assert c[0] == a[0] && c[1..] == a[1..] + b;
      var h := if HasTag(a[0], tag) then [a[0]] else [];
      assert Tagged(c, tag) == h + Tagged(c[1..], tag);
      assert Tagged(a, tag) == h + Tagged(a[1..], tag);
      TaggedAppend(a[1..], b, tag);
      assert h + (Tagged(a[1..], tag) + Tagged(b, tag)) == (h + Tagged(a[1..], tag)) + Tagged(b, tag);
    }
  }

  lemma {:induction false} InnerTextsAppend(a: seq<Node>, b: seq<Node>)
    ensures InnerTexts(a + b) == InnerTexts(a) + InnerTexts(b)
  {
    if a == [] {
      assert a + b == b;
    } else {
      assert (a + b)[1..] == a[1..] + b;
      InnerTextsAppend(a[1..], b);
    }
  }

  /** When nothing in the tree carries the tag, the search finds nothing. */
  lemma {:induction false} IntlNoMatch(n: Node, tag: string)
    ensures Tagged(Subtree(n), tag) == [] ==> Intl(n, tag) == []
    decreases n
  {
    if Tagged(Subtree(n), tag) == [] {
      TaggedAppend([n], Descendants(n), tag);
      IntlChildrenNoMatch(n.children, tag);
    }
  }

  lemma {:induction false} IntlChildrenNoMatch(cs: seq<Node>, tag: string)
    ensures Tagged(Forest(cs), tag) == [] ==> IntlChildren(cs, tag) == []
    decreases cs
  {
    if cs != [] && Tagged(Forest(cs), tag) == [] {
      TaggedAppend([cs[0]] + Descendants(cs[0]), Forest(cs[1..]), tag);
      IntlNoMatch(cs[0], tag);
      IntlChildrenNoMatch(cs[1..], tag);
    }
  }

  /** Every string found is the `inner_text` of some element of the tree that carries the tag. */
  lemma {:induction false} IntlSound(n: Node, tag: string)
    ensures forall s :: s in Intl(n, tag) ==> s in InnerTexts(Tagged(Subtree(n), tag))
    decreases n
  {
    TaggedAppend([n], Descendants(n), tag);
    if HasTag(n, tag) {
      assert Tagged([n], tag) == [n];
    } else {
      assert Tagged([n], tag) == [];
      assert Tagged(Subtree(n), tag) == Tagged(Forest(n.children), tag);
      IntlChildrenSound(n.children, tag);
    }
  }

  lemma {:induction false} IntlChildrenSound(cs: seq<Node>, tag: string)
    ensures forall s :: s in IntlChildren(cs, tag) ==> s in InnerTexts(Tagged(Forest(cs), tag))
    decreases cs
  {
    if cs != [] {
      IntlSound(cs[0], tag);
      IntlChildrenSound(cs[1..], tag);
      assert Forest(cs) == Subtree(cs[0]) + Forest(cs[1..]);
      TaggedAppend(Subtree(cs[0]), Forest(cs[1..]), tag);
      InnerTextsAppend(Tagged(Subtree(cs[0]), tag), Tagged(Forest(cs[1..]), tag));
    }
  }

  /** No element carrying the tag has a descendant carrying it too. */
  predicate Unnested(n: Node, tag: string)
    decreases n
  {
    (HasTag(n, tag) ==> Tagged(Descendants(n), tag) == [])
    && forall i :: 0 <= i < |n.children| ==> Unnested(n.children[i], tag)
  }

  /**
   * When matching elements are not nested, the search yields the `inner_text`
   * of every element carrying the tag, in document order.
   */
  lemma IntlUnnested(n: Node, tag: string)
    requires Unnested(n, tag)
    ensures Intl(n, tag) == InnerTexts(Tagged(Subtree(n), tag))
  {
    OutermostUnnested(n, tag);
  }

  /** A `style` inside a `style`: only the outer one is reported, and its text includes the inner one's. */
  lemma NestedTagExample()
    ensures var inner := Node(Element("style", map[]), [Node(Text("b"), [])]);
            var outer := Node(Element("style", map[]), [Node(Text("a"), []), inner]);
            Intl(outer, "style") == ["ab"] && Outermost(outer, "style") == [outer]
            && Tagged(Subtree(outer), "style") == [outer, inner]
  {
    var b := Node(Text("b"), []);
    var a := Node(Text("a"), []);
    var inner := Node(Element("style", map[]), [b]);
    var outer := Node(Element("style", map[]), [a, inner]);
    NestedText(a, b, inner, outer);
    NestedTagged(a, b, inner, outer);
    OutermostStep(outer, "style");
  }

  lemma NestedText(a: Node, b: Node, inner: Node, outer: Node)
    requires a == Node(Text("a"), []) && b == Node(Text("b"), [])
    requires inner == Node(Element("style", map[]), [b]) && outer == Node(Element("style", map[]), [a, inner])
    ensures InnerText(outer) == "ab"
  {
    assert ChildrenText([b]) == "b";
    assert [a, inner][1..] == [inner];
    assert ChildrenText([inner]) == "b";
    assert ChildrenText([a, inner]) == "a" + "b";
  }

  lemma NestedTagged(a: Node, b: Node, inner: Node, outer: Node)
    requires a == Node(Text("a"), []) && b == Node(Text("b"), [])
    requires inner == Node(Element("style", map[]), [b]) && outer == Node(Element("style", map[]), [a, inner])
    ensures Tagged(Subtree(outer), "style") == [outer, inner]
  {
    NestedSubtree(a, b, inner, outer);
    TaggedAppend([outer, a], [inner, b], "style");
    TaggedAppend([outer], [a], "style");
    TaggedAppend([inner], [b], "style");
    assert [outer, a] == [outer] + [a] && [inner, b] == [inner] + [b];
  }

  lemma NestedSubtree(a: Node, b: Node, inner: Node, outer: Node)
    requires a == Node(Text("a"), []) && b == Node(Text("b"), [])
    requires inner == Node(Element("style", map[]), [b]) && outer == Node(Element("style", map[]), [a, inner])
    ensures Subtree(outer) == [outer, a] + [inner, b]
  {
    assert Forest([b]) == [b];
    assert Forest([inner]) == [inner, b];
    assert Forest([a, inner]) == [a] + Forest([inner]);
  }
}
