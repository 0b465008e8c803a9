/** `Text::new`: the constructor of text nodes. */
module DomText {
  import opened DomNode

  /** A Text node holding `text` unchanged and no children; defined for every string, the empty one included. */
  function NewText(text: string): (n: Node)
    ensures n.nodeType == Text(text) && n.children == []
    ensures TextLeaves(n) && InnerText(n) == "" && Descendants(n) == []
  {
    Node(Text(text), [])
  }

  /** A text node serialises to its payload, verbatim and unescaped. */
  lemma NewTextToString(text: string)
    ensures ToString(NewText(text)) == text
  {
  }
}
