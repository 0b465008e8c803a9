/**
 * A node held by mutable reference, as the script bindings hold it: its
 * children are replaced in place by `set_inner_html`.
 */
module DomEdit {
  import opened Parsing
  import opened DomNode
  import opened Html
  import opened HtmlRoundTrip

  class LiveNode {
    var nodeType: NodeType
    var children: seq<Node>

    constructor (n: Node)
      ensures nodeType == n.nodeType && children == n.children
    {
      nodeType := n.nodeType;
      children := n.children;
    }

    /** The node as a value, as it stands now. */
    function Value(): (n: Node)
      reads this
      ensures n.nodeType == nodeType && n.children == children
    {
      Node(nodeType, children)
    }

    /**
     * `Node::set_inner_html`: the children become the forest `nodes` reads
     * from `html`; the node's own type is untouched. `nodes` never fails, so
     * the `?` exit that would leave the children as they were never fires.
     * Re-setting the current `inner_html` of a well-formed element changes nothing.
     */
    method SetInnerHtml(html: string) returns (r: Result<(), HtmlParseError>)
      modifies this
      ensures r.Ok?
      ensures nodeType == old(nodeType) && children == ParseNodes(html).0
      ensures WellFormed(old(Value())) && old(nodeType).Element? && html == InnerHtml(old(Value()))
              ==> children == old(children)
    {
      ghost var before := Value();
      var nodes := ParseWithoutNormalization(html).value;
      children := nodes;
      r := Ok(());
      if WellFormed(before) && before.nodeType.Element? && html == InnerHtml(before) {
        InnerHtmlRoundTrip(before);
      }
    }
  }
}
