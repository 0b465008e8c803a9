/**
 * The DOM tree: a node is an element (tag name and attribute map) or a text
 * run, and owns an ordered sequence of children. The queries `inner_text`,
 * `inner_html` and the `to_string` serialiser are pure recursive maps and joins.
 */
module DomNode {
  import opened Chars

  /** `AttrMap`: attribute name to value, keys unique, order irrelevant. */
  type AttrMap = map<string, string>

  datatype NodeType = Element(tagName: string, attributes: AttrMap) | Text(data: string)

  datatype Node = Node(nodeType: NodeType, children: seq<Node>)

  /** `Element::new(tag_name, attributes, children)`: an element node owning `children`. */
  function NewElement(tagName: string, attributes: AttrMap, children: seq<Node>): (n: Node)
    ensures n.nodeType.Element? && n.nodeType.tagName == tagName
    ensures n.nodeType.attributes == attributes && n.children == children
  {
    Node(Element(tagName, attributes), children)
  }

  // ---------------------------------------------------------------- inner_text

  /** `Node::inner_text`: the text of a Text child is taken as is, an element child is descended into. */
  function InnerText(n: Node): (r: string)
    ensures n.children == [] ==> r == ""
    decreases n
  {
    ChildrenText(n.children)
  }

  function ChildrenText(cs: seq<Node>): (r: string)
    decreases cs
  {
    if cs == [] then ""
    else
      (match cs[0].nodeType
       case Text(d) => d
       case Element(_, _) => InnerText(cs[0]))
      + ChildrenText(cs[1..])
  }

  // ------------------------------------------------- document-order traversal

  /** All nodes strictly below `n`, in document (pre-)order. */
  function Descendants(n: Node): (r: seq<Node>)
    decreases n
  {
    Forest(n.children)
  }

  /** Every node of the forest `cs`, in document order: each tree's root before its descendants. */
  function Forest(cs: seq<Node>): (r: seq<Node>)
    ensures |r| >= |cs|
    decreases cs
  {
    if cs == [] then [] else [cs[0]] + Descendants(cs[0]) + Forest(cs[1..])
  }

  /** `n` followed by all its descendants, in document order. */
  function Subtree(n: Node): (r: seq<Node>)
    ensures |r| > 0 && r[0] == n
  {
    [n] + Descendants(n)
  }

  /** Text nodes never own children (true of every node the markup grammar and `Text::new` build). */
  predicate TextLeaves(n: Node)
    decreases n
  {
    (n.nodeType.Text? ==> n.children == [])
    && forall i :: 0 <= i < |n.children| ==> TextLeaves(n.children[i])
  }

  /** The payloads of the Text nodes among `ns`, in order. */
  function TextData(ns: seq<Node>): (r: seq<string>)
    ensures |r| <= |ns|
  {
    if ns == [] then []
    else (if ns[0].nodeType.Text? then [ns[0].nodeType.data] else []) + TextData(ns[1..])
  }

  lemma {:induction false} TextDataAppend(a: seq<Node>, b: seq<Node>)
    ensures TextData(a + b) == TextData(a) + TextData(b)
  {
    if a == [] {
      assert a + b == b;
    } else {
      var c := a + b;
      assert c[0] == a[0] && c[1..] == a[1..] + b;
      var h := if a[0].nodeType.Text? then [a[0].nodeType.data] else [];
      assert TextData(c) == h + TextData(c[1..]);
      assert TextData(a) == h + TextData(a[1..]);
      TextDataAppend(a[1..], b);
      assert h + (TextData(a[1..]) + TextData(b)) == (h + TextData(a[1..])) + TextData(b);
    }
  }

  /**
   * `inner_text` is the concatenation, in document order and without separators,
   * of the payloads of all Text descendants.
   */
  lemma {:induction false} InnerTextIsDescendantTexts(n: Node)
    requires TextLeaves(n)
    ensures InnerText(n) == Concat(TextData(Descendants(n)))
    decreases n
  {
    ChildrenTextIsForestTexts(n.children);
  }

  lemma {:induction false} ChildrenTextIsForestTexts(cs: seq<Node>)
    requires forall i :: 0 <= i < |cs| ==> TextLeaves(cs[i])
    ensures ChildrenText(cs) == Concat(TextData(Forest(cs)))
    decreases cs
  {
    if cs != [] {
      var c := cs[0];
      SubtreeText(c);
      ChildrenTextIsForestTexts(cs[1..]);
      assert Forest(cs) == Subtree(c) + Forest(cs[1..]);
      TextDataAppend(Subtree(c), Forest(cs[1..]));
      ConcatAppend(TextData(Subtree(c)), TextData(Forest(cs[1..])));
    }
  }

  /** The text a child contributes to `inner_text` is that of the Text nodes of its subtree. */
  lemma {:induction false} SubtreeText(c: Node)
    requires TextLeaves(c)
    ensures Concat(TextData(Subtree(c))) == match c.nodeType case Text(d) => d case Element(_, _) => InnerText(c)
    decreases c
  {
    TextDataAppend([c], Descendants(c));
    ConcatAppend(TextData([c]), TextData(Descendants(c)));
    if c.nodeType.Text? {
      assert Descendants(c) == [];
      assert TextData([c]) == [c.nodeType.data];
    } else {
      ChildrenTextIsForestTexts(c.children);
      assert TextData([c]) == [];
    }
  }

  // ------------------------------------------------------ to_string, inner_html

  /**
   * The attribute entries in the map's iteration order. A `HashMap` iterates in
   * an order that is fixed for a map but unspecified, so this picks some order.
   */
  ghost function Entries(m: AttrMap): (r: seq<(string, string)>)
    ensures |r| == |KeyOrder(m.Keys)|
    ensures forall i :: 0 <= i < |r| ==> r[i].0 in m && m[r[i].0] == r[i].1
    ensures forall i, j :: 0 <= i < j < |r| ==> r[i].0 != r[j].0
    ensures forall k :: k in m ==> exists i :: 0 <= i < |r| && r[i].0 == k
  {
    var ks := KeyOrder(m.Keys);
    PairsOfKeys(ks, m);
    Pairs(ks, m)
  }

  /** Pairing an enumeration of the keys of `m` lists every entry of `m` once. */
  lemma PairsOfKeys(ks: seq<string>, m: AttrMap)
    requires forall i :: 0 <= i < |ks| ==> ks[i] in m.Keys
    requires forall i, j :: 0 <= i < j < |ks| ==> ks[i] != ks[j]
    requires forall k :: k in m.Keys ==> exists i :: 0 <= i < |ks| && ks[i] == k
    ensures var r := Pairs(ks, m);
      && (forall i :: 0 <= i < |r| ==> r[i].0 in m && m[r[i].0] == r[i].1)
      && (forall i, j :: 0 <= i < j < |r| ==> r[i].0 != r[j].0)
      && (forall k :: k in m ==> exists i :: 0 <= i < |r| && r[i].0 == k)
  {
    var r := Pairs(ks, m);
    forall k | k in m ensures exists i :: 0 <= i < |r| && r[i].0 == k {
      var i :| 0 <= i < |ks| && ks[i] == k;
      assert r[i].0 == k;
    }
  }

  /** Each key of `ks` paired with its value in `m`, in the order of `ks`. */
  ghost function Pairs(ks: seq<string>, m: AttrMap): (r: seq<(string, string)>)
    requires forall i :: 0 <= i < |ks| ==> ks[i] in m
    ensures |r| == |ks|
    ensures forall i :: 0 <= i < |r| ==> r[i].0 == ks[i] && r[i].1 == m[ks[i]]
  {
    if ks == [] then [] else [(ks[0], m[ks[0]])] + Pairs(ks[1..], m)
  }

  /** Some enumeration, without repetition, of the set `ks`. */
  ghost function KeyOrder(ks: set<string>): (r: seq<string>)
    ensures forall i :: 0 <= i < |r| ==> r[i] in ks
    ensures forall i, j :: 0 <= i < j < |r| ==> r[i] != r[j]
    ensures forall k :: k in ks ==> exists i :: 0 <= i < |r| && r[i] == k
    decreases ks
  {
    if ks == {} then []
    else
      var k :| k in ks;
      var tail := KeyOrder(ks - {k});
      var r := [k] + tail;
      assert forall k' :: k' in ks ==> exists i :: 0 <= i < |r| && r[i] == k' by {
        forall k' | k' in ks ensures exists i :: 0 <= i < |r| && r[i] == k' {
          if k' == k {
            assert r[0] == k';
          } else {
            assert k' in ks - {k};
            var i :| 0 <= i < |tail| && tail[i] == k';
            assert r[i + 1] == k';
          }
        }
      }
      r
  }

  /** `k="v"`, with `v` emitted verbatim (a `"` in it is not re-escaped). */
  function AttrText(e: (string, string)): string {
    e.0 + "=\"" + e.1 + "\""
  }

  function AttrTexts(es: seq<(string, string)>): (r: seq<string>)
    ensures |r| == |es|
    ensures forall i :: 0 <= i < |es| ==> r[i] == AttrText(es[i])
  {
    if es == [] then [] else [AttrText(es[0])] + AttrTexts(es[1..])
  }

  /** The attribute part of an open tag: the entries joined by single spaces. */
  ghost function AttrsText(m: AttrMap): string {
    Join(AttrTexts(Entries(m)), " ")
  }

  /** `ToString::to_string` for `Node`. */
  ghost function ToString(n: Node): (r: string)
    ensures n.nodeType.Text? ==> r == n.nodeType.data
    ensures n.nodeType.Element? ==> ElementShaped(r, n.nodeType.tagName, ChildrenHtml(n.children))
    decreases n
  {
    match n.nodeType
    case Text(d) => d
    case Element(tag, attrs) =>
      var a := AttrsText(attrs);
      var inner := ChildrenHtml(n.children);
      ToStringShape(tag, a, inner);
      if a != "" then "<" + tag + " " + a + ">" + inner + "</" + tag + ">"
      else "<" + tag + ">" + inner + "</" + tag + ">"
  }

  /** `r` opens with `<tag` and ends with `inner` followed by the close tag. */
  predicate ElementShaped(r: string, tag: string, inner: string) {
    var close := "</" + tag + ">";
    StartsWith(r, "<" + tag) && |r| >= |close| + |inner| && r[|r| - |close| - |inner|..] == inner + close
  }

  /** Both forms of an element's markup are shaped so. */
  lemma ToStringShape(tag: string, a: string, inner: string)
    ensures ElementShaped("<" + tag + " " + a + ">" + inner + "</" + tag + ">", tag, inner)
    ensures ElementShaped("<" + tag + ">" + inner + "</" + tag + ">", tag, inner)
  {
    var close := "</" + tag + ">";
    var o1 := "<" + tag + " " + a + ">";
    var o2 := "<" + tag + ">";
    ShapeOf(o1, tag, inner);
    ShapeOf(o2, tag, inner);
    assert o1 + inner + "</" + tag + ">" == o1 + inner + close;
    assert o2 + inner + "</" + tag + ">" == o2 + inner + close;
  }

  lemma ShapeOf(open: string, tag: string, inner: string)
    requires |open| > |tag| && open[..|tag| + 1] == "<" + tag
    ensures ElementShaped(open + inner + ("</" + tag + ">"), tag, inner)
  {
    var close := "</" + tag + ">";
    assert open + inner + close == open + (inner + close);
    assert (open + (inner + close))[..|tag| + 1] == open[..|tag| + 1];
  }

  /** The concatenation of `to_string` of each node, in order. */
  ghost function ChildrenHtml(cs: seq<Node>): (r: string)
    decreases cs
  {
    if cs == [] then "" else ToString(cs[0]) + ChildrenHtml(cs[1..])
  }

  /** `Node::inner_html`. */
  ghost function InnerHtml(n: Node): (r: string)
    ensures n.children == [] ==> r == ""
  {
    ChildrenHtml(n.children)
  }

  /** With no attributes the open tag has no space before `>`. */
  lemma ToStringNoAttributes(tag: string, cs: seq<Node>)
    ensures ToString(NewElement(tag, map[], cs)) == "<" + tag + ">" + ChildrenHtml(cs) + "</" + tag + ">"
  {
    assert Entries(map[]) == [];
  }
}
