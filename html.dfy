/**
 * The markup grammar: a recursive-descent parser over characters, written
 * with parser combinators in the original. Each rule below is a function from
 * the input to a `Parsed` outcome; `nodes` never fails, since every
 * alternative it repeats is wrapped in `attempt`.
 */
module Html {
  import opened Chars
  import opened Parsing
  import opened DomNode
  import opened DomText
  import opened DomDocument

  datatype HtmlParseError = InvalidResourceError

  /** `s` begins with the entity `&quot;`. */
  predicate QuotAt(s: string) {
    |s| >= 6 && s[0] == '&' && s[1] == 'q' && s[2] == 'u' && s[3] == 'o' && s[4] == 't' && s[5] == ';'
  }

  /** `x.replace("&quot;", "\"")`: every occurrence, left to right, without overlap. */
  function Unescape(s: string): (r: string)
    ensures |r| <= |s|
    ensures s != [] ==> r != []
  {
    if QuotAt(s) then "\"" + Unescape(s[6..])
    else if s == [] then []
    else [s[0]] + Unescape(s[1..])
  }

  /** `attribute`: letters, optional spaces, `=`, optional spaces, then a quoted value. */
  function ParseAttribute(s: string): (r: Parsed<(string, string)>)
    ensures (r.Fail? && !r.committed) <==> (s == [] || !IsLetter(s[0]))
    ensures r.Done? ==> |r.rest| < |s|
  {
    var n := Span(s, Letters);
    if n == 0 then Fail(false)
    else
      var afterName := SkipSpaces(s[n..]);
      if afterName == [] || afterName[0] != '=' then Fail(true)
      else
        match ParseQuotedValue(SkipSpaces(afterName[1..]))
        case Fail(_) => Fail(true)
        case Done(v, rest) => Done((s[..n], v), rest)
  }

  /** `between(char('"'), char('"'), many1(satisfy(|c| c != '"')))`, then `&quot;` unescaped. */
  function ParseQuotedValue(s: string): (r: Parsed<string>)
    ensures r.Done? ==> |r.rest| < |s| && r.value != []
  {
    if s == [] || s[0] != '"' then Fail(false)
    else
      var body := s[1..];
      var k := Span(body, AllBut('"'));
      if k == 0 || k == |body| then Fail(true)
      else Done(Unescape(body[..k]), body[k + 1..])
  }

  /**
   * `attributes`: `sep_by(attribute(), many(space))`. A first attribute that
   * fails before consuming anything gives the empty list; a separator that
   * consumed whitespace commits to another attribute.
   */
  function ParseAttributeList(s: string): (r: Parsed<seq<(string, string)>>)
    ensures r.Done? ==> |r.rest| <= |s|
  {
    match ParseAttribute(s)
    case Fail(c) => if c then Fail(true) else Done([], s)
    case Done(a, rest) => MoreAttributes(rest, [a])
  }

  function MoreAttributes(s: string, acc: seq<(string, string)>): (r: Parsed<seq<(string, string)>>)
    ensures r.Done? ==> |r.rest| <= |s|
    decreases |s|
  {
    var w := Span(s, Spaces);
    match ParseAttribute(s[w..])
    case Done(a, rest) => MoreAttributes(rest, acc + [a])
    case Fail(c) => if c || w > 0 then Fail(true) else Done(acc, s)
  }

  /** Collecting the pairs into an `AttrMap`: a later pair for the same name replaces an earlier one. */
  function ToAttrMap(pairs: seq<(string, string)>): (m: AttrMap)
    ensures forall i :: 0 <= i < |pairs| ==> pairs[i].0 in m
    ensures forall k :: k in m ==> exists i :: 0 <= i < |pairs| && pairs[i].0 == k
    ensures forall i :: 0 <= i < |pairs| && (forall j :: i < j < |pairs| ==> pairs[j].0 != pairs[i].0)
                        ==> m[pairs[i].0] == pairs[i].1
  {
    if pairs == [] then map[]
    else
      var last := pairs[|pairs| - 1];
      var front := pairs[..|pairs| - 1];
      var m := ToAttrMap(front);
      assert forall i :: 0 <= i < |pairs| - 1 ==> front[i] == pairs[i];
      var r := m[last.0 := last.1];
      assert forall i :: 0 <= i < |pairs| && (forall j :: i < j < |pairs| ==> pairs[j].0 != pairs[i].0)
                         ==> r[pairs[i].0] == pairs[i].1 by {
        forall i | 0 <= i < |pairs| && (forall j :: i < j < |pairs| ==> pairs[j].0 != pairs[i].0)
          ensures r[pairs[i].0] == pairs[i].1
        {
          if i < |pairs| - 1 {
            assert front[i] == pairs[i] && last.0 != pairs[i].0;
            assert forall j :: i < j < |front| ==> front[j].0 != front[i].0 by {
              forall j | i < j < |front| ensures front[j].0 != front[i].0 {
                assert front[j] == pairs[j];
              }
            }
          }
        }
      }
      r
  }

  /** `open_tag`: `<`, a letters tag name, optional spaces, the attributes, `>`. */
  function ParseOpenTag(s: string): (r: Parsed<(string, AttrMap)>)
    ensures r.Done? ==> |r.rest| < |s|
    ensures r.Done? ==> r.value.0 != [] && AllLetters(r.value.0)
  {
    if s == [] || s[0] != '<' then Fail(false)
    else
      var body := s[1..];
      var n := Span(body, Letters);
      if n == 0 then Fail(true)
      else
        match ParseAttributeList(SkipSpaces(body[n..]))
        case Fail(_) => Fail(true)
        case Done(pairs, rest) =>
          if rest != [] && rest[0] == '>' then Done((body[..n], ToAttrMap(pairs)), rest[1..])
          else Fail(true)
  }

  /** `close_tag`: exactly `<`, `/`, a letters tag name, `>`. */
  function ParseCloseTag(s: string): (r: Parsed<string>)
    ensures r.Done? ==> |r.rest| < |s|
    ensures r.Done? ==> (r.value != [] && AllLetters(r.value) && s == "</" + r.value + ">" + r.rest)
  {
    if s == [] || s[0] != '<' then Fail(false)
    else if |s| < 2 || s[1] != '/' then Fail(true)
    else
      var body := s[2..];
      var n := Span(body, Letters);
      if n == 0 || n == |body| || body[n] != '>' then Fail(true)
      else
        assert s == "</" + body[..n] + ">" + body[n + 1..];
        Done(body[..n], body[n + 1..])
  }

  /** `text`: a maximal non-empty run of characters other than `<`, kept verbatim. */
  function ParseText(s: string): (r: Parsed<Node>)
    ensures r.Done? <==> s != [] && s[0] != '<'
    ensures r.Done? ==> |r.rest| < |s|
    ensures r.Done? ==>
              var k := |s| - |r.rest|;
              r.value == NewText(s[..k]) && r.rest == s[k..]
              && (forall i :: 0 <= i < k ==> s[i] != '<')
              && (r.rest == [] || r.rest[0] == '<')
  {
    var k := Span(s, AllBut('<'));
    if k == 0 then Fail(false) else Done(NewText(s[..k]), s[k..])
  }

  /** `element`: open tag, child nodes, close tag; the two tag names must be the same string. */
  function ParseElement(s: string): (r: Parsed<Node>)
    ensures r.Done? ==> |r.rest| < |s|
    decreases |s|, 1
  {
    match ParseOpenTag(s)
    case Fail(c) => Fail(c)
    case Done(open, afterOpen) =>
      var (children, afterChildren) := ParseNodes(afterOpen);
      match ParseCloseTag(afterChildren)
      case Fail(_) => Fail(true)
      case Done(close, rest) =>
        if open.0 == close then Done(NewElement(open.0, open.1, children), rest)
        else Fail(true)
  }

  /**
   * `nodes`: `attempt(many(choice((attempt(element()), attempt(text())))))`.
   * Repeats element-or-text until neither applies, and never fails.
   */
  function ParseNodes(s: string): (r: (seq<Node>, string))
    ensures |r.1| <= |s|
    decreases |s|, 2
  {
    match ParseElement(s)
    case Done(n, rest) =>
      var (more, rest') := ParseNodes(rest);
      ([n] + more, rest')
    case Fail(_) =>
      match ParseText(s)
      case Done(t, rest) =>
        var (more, rest') := ParseNodes(rest);
        ([t] + more, rest')
      case Fail(_) => ([], s)
  }

  /**
   * `parse_without_normalziation`: the node sequence of the whole input; the
   * input left over after the last node is dropped, so no error ever surfaces.
   */
  function ParseWithoutNormalization(data: string): (r: Result<seq<Node>, HtmlParseError>)
    ensures r.Ok?
  {
    Ok(ParseNodes(data).0)
  }

  /**
   * `parse`: one top-level node becomes the document element as it is; any
   * other number of them, zero included, is wrapped in an attribute-less `html`.
   * The response URL becomes both `url` and `document_uri`.
   */
  function Parse(url: string, data: string): (r: Result<Document, HtmlParseError>)
    ensures r.Ok? && r.value.url == url && r.value.documentUri == url
    ensures var nodes := ParseNodes(data).0;
            if |nodes| == 1 then r.value.documentElement == nodes[0]
            else r.value.documentElement == NewElement("html", map[], nodes)
  {
    match ParseWithoutNormalization(data)
    case Ok(nodes) =>
      var root := if |nodes| == 1 then nodes[0] else NewElement("html", map[], nodes);
      Ok(NewDocument(url, url, root))
    case Err(e) => Err(e)
  }
}
