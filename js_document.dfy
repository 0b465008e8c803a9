/**
 * The tree walk behind the script-visible `document.all` and
 * `document.getElementById`, and the `innerHTML` setter. The engine objects
 * the walk wraps nodes into are abstracted into the function `f`.
 */
module JsDocument {
  import opened Parsing
  import opened DomNode
  import opened DomDocument
  import opened DomEdit
  import Html
  import Chars

  // ------------------------------------------------------------ map_mut

  /**
   * The sequence `map_mut` returns: for each child in order, `f(child)` and
   * then the walk of that child; finally `f(node)`.
   */
  function Walk<T>(n: Node, f: Node -> T): (r: seq<T>)
    ensures |r| == 2 * |Subtree(n)| - 1 && r[|r| - 1] == f(n)
    decreases n
  {
    WalkChildren(n.children, f) + [f(n)]
  }

  function WalkChildren<T>(cs: seq<Node>, f: Node -> T): (r: seq<T>)
    ensures |r| == 2 * |Forest(cs)|
    decreases cs
  {
    if cs == [] then [] else [f(cs[0])] + Walk(cs[0], f) + WalkChildren(cs[1..], f)
  }

  /** `map_mut`: a loop over the children that pushes and extends, then one last push. */
  method MapMut<T>(n: Node, f: Node -> T) returns (v: seq<T>)
    ensures v == Walk(n, f)
    decreases n
  {
    v := [];
    var i := 0;
    while i < |n.children|
      invariant 0 <= i <= |n.children|
      invariant v + WalkChildren(n.children[i..], f) == WalkChildren(n.children, f)
    {
      var child := n.children[i];
      WalkChildrenAt(n.children, i, f);
      var sub := MapMut(child, f);
      Chars.Assoc3(v, [f(child)], sub, WalkChildren(n.children[i + 1..], f));
      v := v + [f(child)] + sub;
      i := i + 1;
    }
    assert n.children[i..] == [];
    v := v + [f(n)];
  }

  lemma WalkChildrenAt<T>(cs: seq<Node>, i: nat, f: Node -> T)
    requires i < |cs|
    ensures WalkChildren(cs[i..], f) == [f(cs[i])] + Walk(cs[i], f) + WalkChildren(cs[i + 1..], f)
  {
    assert cs[i..][0] == cs[i] && cs[i..][1..] == cs[i + 1..];
  }

  /** The nodes in the order `map_mut` hands them to `f`. */
  function Visits(n: Node): (r: seq<Node>)
  {
    Walk(n, x => x)
  }

  function MapSeq<T>(ns: seq<Node>, f: Node -> T): (r: seq<T>)
    ensures |r| == |ns| && forall i :: 0 <= i < |ns| ==> r[i] == f(ns[i])
  {
    if ns == [] then [] else [f(ns[0])] + MapSeq(ns[1..], f)
  }

  lemma MapSeqAppend<T>(a: seq<Node>, b: seq<Node>, f: Node -> T)
    ensures MapSeq(a + b, f) == MapSeq(a, f) + MapSeq(b, f)
  {
  }

  /** `map_mut` calls `f` once per entry of `Visits`, in that order. */
  lemma {:induction false} WalkIsMapOfVisits<T>(n: Node, f: Node -> T)
    ensures Walk(n, f) == MapSeq(Visits(n), f)
    decreases n
  {
    WalkChildrenIsMap(n.children, f);
    MapSeqAppend(WalkChildren(n.children, x => x), [n], f);
  }

  lemma {:induction false} WalkChildrenIsMap<T>(cs: seq<Node>, f: Node -> T)
    ensures WalkChildren(cs, f) == MapSeq(WalkChildren(cs, x => x), f)
    decreases cs
  {
    if cs != [] {
      var id := (x: Node) => x;
      WalkIsMapOfVisits(cs[0], f);
      WalkChildrenIsMap(cs[1..], f);
      MapSeqAppend([cs[0]] + Walk(cs[0], id), WalkChildren(cs[1..], id), f);
      MapSeqAppend([cs[0]], Walk(cs[0], id), f);
    }
  }

  /**
   * Every node of the subtree is visited, the root once and every other node
   * twice: as a child of its parent, and again at the end of its own walk.
   */
  lemma {:induction false} VisitsCount(n: Node)
    ensures multiset(Visits(n)) == multiset(Subtree(n)) + multiset(Descendants(n))
    decreases n
  {
    ForestVisitsCount(n.children);
  }

  lemma {:induction false} ForestVisitsCount(cs: seq<Node>)
    ensures multiset(WalkChildren(cs, x => x)) == multiset(Forest(cs)) + multiset(Forest(cs))
    decreases cs
  {
    if cs != [] {
      VisitsCount(cs[0]);
      ForestVisitsCount(cs[1..]);
    }
  }

  /** A node is visited exactly when it belongs to the subtree. */
  lemma VisitsMembers(n: Node, x: Node)
    ensures x in Visits(n) <==> x in Subtree(n)
  {
    VisitsCount(n);
    assert x in Visits(n) <==> x in multiset(Visits(n));
    assert x in Subtree(n) <==> x in multiset(Subtree(n));
    assert x in Descendants(n) ==> x in Subtree(n);
  }

  // ------------------------------------------------------------ the lookups

  predicate IsElement(n: Node) {
    n.nodeType.Element?
  }

  /** `Element::id`: the value of the `id` attribute, if any. */
  function Id(n: Node): (r: Option<string>)
    requires IsElement(n)
    ensures r.Some? <==> "id" in n.nodeType.attributes
    ensures r.Some? ==> r.value == n.nodeType.attributes["id"]
  {
    if "id" in n.nodeType.attributes then Some(n.nodeType.attributes["id"]) else None
  }

  predicate HasId(n: Node, id: string) {
    IsElement(n) && Id(n) == Some(id)
  }

  /** The element nodes of `ns`, in order. */
  function Elements(ns: seq<Node>): (r: seq<Node>)
    ensures forall x :: x in r <==> x in ns && IsElement(x)
  {
    if ns == [] then []
    else
      assert ns == [ns[0]] + ns[1..];
      (if IsElement(ns[0]) then [ns[0]] else []) + Elements(ns[1..])
  }

  /** The first node of `ns` that is an element with the given id; none only when no node has it. */
  function FirstWithId(ns: seq<Node>, id: string): (r: Option<Node>)
    ensures r.Some? ==> r.value in ns && HasId(r.value, id)
    ensures r.None? <==> forall i :: 0 <= i < |ns| ==> !HasId(ns[i], id)
  {
    if ns == [] then None
    else
      assert forall i :: 1 <= i < |ns| ==> ns[i] == ns[1..][i - 1];
      if HasId(ns[0], id) then Some(ns[0]) else FirstWithId(ns[1..], id)
  }

  /** What `FirstWithId` finds stands before every other node with that id. */
  lemma {:induction false} FirstWithIdSpec(ns: seq<Node>, id: string)
    ensures FirstWithId(ns, id).Some? ==>
              exists i :: 0 <= i < |ns| && ns[i] == FirstWithId(ns, id).value
                          && forall j :: 0 <= j < i ==> !HasId(ns[j], id)
  {
    if ns != [] {
      FirstWithIdSpec(ns[1..], id);
      if !HasId(ns[0], id) && FirstWithId(ns, id).Some? {
        var i :| 0 <= i < |ns[1..]| && ns[1..][i] == FirstWithId(ns, id).value
                 && forall j :: 0 <= j < i ==> !HasId(ns[1..][j], id);
        assert forall j :: 0 <= j < i + 1 ==> !HasId(ns[j], id) by {
          forall j | 0 <= j < i + 1 ensures !HasId(ns[j], id) {
            if j > 0 {
              assert ns[j] == ns[1..][j - 1];
            }
          }
        }
        assert ns[i + 1] == FirstWithId(ns, id).value;
      }
    }
  }

  /** The value `f` hands back for `all`: the node itself when it is an element. */
  function ElementOrNone(n: Node): Option<Node> {
    if IsElement(n) then Some(n) else None
  }

  /** The value `f` hands back for `getElementById(id)`. */
  function ById(id: string): Node -> Option<Node> {
    n => if HasId(n, id) then Some(n) else None
  }

  /**
   * The `all` accessor: the element nodes in walk order (so every element but
   * the root twice), or nothing when no document is loaded.
   */
  method All(document: Option<Document>) returns (r: Option<seq<Node>>)
    ensures document.None? ==> r.None?
    ensures document.Some? ==> r == Some(Elements(Visits(document.value.documentElement)))
  {
    if document.None? {
      return None;
    }
    var wrapped := MapMut(document.value.documentElement, ElementOrNone);
    ghost var visits := Visits(document.value.documentElement);
    WalkIsMapOfVisits(document.value.documentElement, ElementOrNone);
    var all := KeepSome(wrapped, visits);
    r := Some(all);
  }

  /** `.filter_map(|n| n).collect()` over the values `f` handed back for `all`. */
  method KeepSome(wrapped: seq<Option<Node>>, ghost visits: seq<Node>) returns (all: seq<Node>)
    requires wrapped == MapSeq(visits, ElementOrNone)
    ensures all == Elements(visits)
  {
    all := [];
    var i := 0;
    while i < |wrapped|
      invariant 0 <= i <= |wrapped| && |wrapped| == |visits|
      invariant all + Elements(visits[i..]) == Elements(visits)
    {
      ElementsAt(visits, i);
      assert wrapped[i] == ElementOrNone(visits[i]);
      if wrapped[i].Some? {
        Chars.Assoc(all, [visits[i]], Elements(visits[i + 1..]));
        all := all + [wrapped[i].value];
      }
      i := i + 1;
    }
    assert visits[i..] == [] && Elements([]) == [];
    assert all + [] == all;
  }

  lemma ElementsAt(ns: seq<Node>, i: nat)
    requires i < |ns|
    ensures Elements(ns[i..]) == (if IsElement(ns[i]) then [ns[i]] else []) + Elements(ns[i + 1..])
  {
    assert ns[i..][1..] == ns[i + 1..] && ns[i..][0] == ns[i];
  }

  /** `all` holds exactly the elements of the document tree. */
  lemma AllMembers(root: Node, x: Node)
    ensures x in Elements(Visits(root)) <==> x in Subtree(root) && IsElement(x)
  {
    VisitsMembers(root, x);
  }

  /**
   * `getElementById`: the first element with that id in walk order, or
   * nothing (`undefined`) when there is none or no document is loaded.
   */
  method GetElementById(document: Option<Document>, id: string) returns (r: Option<Node>)
    ensures document.None? ==> r.None?
    ensures document.Some? ==> r == FirstWithId(Visits(document.value.documentElement), id)
  {
    if document.None? {
      return None;
    }
    var f := ById(id);
    var wrapped := MapMut(document.value.documentElement, f);
    ghost var visits := Visits(document.value.documentElement);
    WalkIsMapOfVisits(document.value.documentElement, f);
    var i := 0;
    while i < |wrapped|
      invariant 0 <= i <= |wrapped| && |wrapped| == |visits|
      invariant FirstWithId(visits[i..], id) == FirstWithId(visits, id)
    {
      assert visits[i..][1..] == visits[i + 1..];
      if wrapped[i].Some? {
        assert wrapped[i] == f(visits[i]) && visits[i..][0] == visits[i];
        return wrapped[i];
      }
      i := i + 1;
    }
    assert visits[i..] == [];
    r := None;
  }

  /** `getElementById` finds an element of the tree with that id, and finds none only when there is none. */
  lemma GetElementByIdSpec(root: Node, id: string)
    ensures FirstWithId(Visits(root), id).Some? ==>
              FirstWithId(Visits(root), id).value in Subtree(root) && HasId(FirstWithId(Visits(root), id).value, id)
    ensures FirstWithId(Visits(root), id).None? <==> forall x :: x in Subtree(root) ==> !HasId(x, id)
  {
    var vs := Visits(root);
    FirstWithIdSpec(vs, id);
    forall x ensures x in vs <==> x in Subtree(root) {
      VisitsMembers(root, x);
    }
  }

  /**
   * The `innerHTML` setter: the children are replaced by the parsed markup,
   * a failure would only be logged, and a re-render is requested either way.
   */
  method SetInnerHtmlFromScript(node: LiveNode, value: string) returns (rerender: bool)
    modifies node
    ensures rerender
    ensures node.nodeType == old(node.nodeType)
    ensures node.children == Html.ParseNodes(value).0
  {
    var _ := node.SetInnerHtml(value);
    rerender := true;
  }
}
