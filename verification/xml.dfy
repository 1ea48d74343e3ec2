/** The parsed XML document as roxmltree presents it: a tree of nodes, walked in document
    (pre-order) order. Only the queries the index reader uses are modelled. Tag and
    attribute names are local names; namespaces are not modelled. */
module Xml {
  import opened Wrappers

  datatype Node =
    | Root(children: seq<Node>)       // the document node, parent of the top-level nodes
    | Element(tag: string, attributes: map<string, string>, children: seq<Node>)
    | Text(content: string)
    | Comment(content: string)
    | ProcessingInstruction(target: string)

  /** roxmltree's `has_tag_name`: only elements have a tag name. */
  predicate HasTagName(n: Node, tag: string) {
    n.Element? && n.tag == tag
  }

  /** roxmltree's `attribute(name)`: the value of an attribute of an element. */
  function Attribute(n: Node, name: string): (r: Option<string>)
    ensures r.Some? <==> n.Element? && name in n.attributes
    ensures r.Some? ==> r.value == n.attributes[name]
  {
    if n.Element? && name in n.attributes then Some(n.attributes[name]) else None
  }

  /** roxmltree's `text()`: for an element the text of its first child when that child is a
      text node, for a text or comment node its own text, for anything else nothing. */
  function NodeText(n: Node): (r: Option<string>)
    ensures n.Element? ==> (r.Some? <==> n.children != [] && n.children[0].Text?)
    ensures n.Element? && r.Some? ==> r.value == n.children[0].content
    ensures n.Root? || n.ProcessingInstruction? ==> r == None
  {
    match n
    case Element(_, _, cs) => if cs != [] && cs[0].Text? then Some(cs[0].content) else None
    case Text(t) => Some(t)
    case Comment(t) => Some(t)
    case _ => None
  }

  /** roxmltree's `descendants()`: the node itself followed by the descendants of each child
      in turn, that is, the subtree in pre-order. */
  function Descendants(n: Node): (r: seq<Node>)
    ensures r != [] && r[0] == n
    decreases n, 1
  {
    match n
    case Root(cs) => [n] + DescendantsOfAll(cs)
    case Element(_, _, cs) => [n] + DescendantsOfAll(cs)
    case _ => [n]
  }

  /** The descendants of each node of `ns` in turn. */
  function DescendantsOfAll(ns: seq<Node>): (r: seq<Node>)
    ensures |r| >= |ns|
    decreases ns, 0
  {
    if ns == [] then [] else Descendants(ns[0]) + DescendantsOfAll(ns[1..])
  }

  /** The position of the first node of `ns` tagged `tag`. */
  function FirstTagged(ns: seq<Node>, tag: string): (r: Option<nat>)
    ensures r.Some? ==> r.value < |ns| && HasTagName(ns[r.value], tag)
    ensures r.Some? ==> forall j :: 0 <= j < r.value ==> !HasTagName(ns[j], tag)
    ensures r.None? ==> forall j :: 0 <= j < |ns| ==> !HasTagName(ns[j], tag)
  {
    if ns == [] then None
    else if HasTagName(ns[0], tag) then Some(0)
    else match FirstTagged(ns[1..], tag)
      case None => None
      case Some(k) => Some(k + 1)
  }

  /** `node.descendants().find(|n| n.has_tag_name(tag))`: the first node tagged `tag` in
      pre-order, the node itself included. */
  function FindDescendant(n: Node, tag: string): (r: Option<Node>)
    ensures r.Some? ==> HasTagName(r.value, tag) && r.value in Descendants(n)
    ensures r.None? <==> forall j :: 0 <= j < |Descendants(n)| ==> !HasTagName(Descendants(n)[j], tag)
  {
    match FirstTagged(Descendants(n), tag)
    case None => None
    case Some(k) => Some(Descendants(n)[k])
  }

  /** The search starts with the node itself: a node tagged `tag` finds itself. */
  lemma FindDescendantSelf(n: Node, tag: string)
    requires HasTagName(n, tag)
    ensures FindDescendant(n, tag) == Some(n)
  {
  }

  /** The children of a document or element node; other nodes have none. */
  function ChildrenOf(n: Node): seq<Node>
  {
    match n
    case Root(cs) => cs
    case Element(_, _, cs) => cs
    case _ => []
  }
}
