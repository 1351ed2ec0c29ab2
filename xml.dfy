/** The element tree the parsers walk, in place of a parsed XML document:
    elements with a local name, attributes keyed by local name and ordered
    children, and text nodes. Comments and processing instructions are not
    represented. */
module Xml {
  import opened Wrappers

  datatype Node =
    | Element(name: string, attrs: map<string, string>, children: seq<Node>)
    | Text(content: string)

  /** A part of the archive as the XML reader sees it: either a document
      with its root element, or text the reader rejects. */
  datatype XmlPart = Wellformed(root: Node) | Malformed

  /** The local tag name; text nodes have the empty name. */
  function Name(n: Node): string {
    if n.Element? then n.name else ""
  }

  function Children(n: Node): seq<Node> {
    if n.Element? then n.children else []
  }

  function Attr(n: Node, key: string): (r: Option<string>)
    ensures r.Some? <==> n.Element? && key in n.attrs
  {
    if n.Element? && key in n.attrs then Some(n.attrs[key]) else None
  }

  /** Every node of the subtree in document order, the node itself first
      (`descendants()`). */
  function Descendants(n: Node): (r: seq<Node>)
    ensures |r| >= 1 && r[0] == n
    decreases n, 1
  {
    match n
    case Element(_, _, cs) => [n] + DescendantsOf(cs)
    case Text(_) => [n]
  }

  function DescendantsOf(ns: seq<Node>): (r: seq<Node>)
    decreases ns, 0
  {
    if ns == [] then [] else Descendants(ns[0]) + DescendantsOf(ns[1..])
  }

  /** The first child with the given name (`children().find(...)`). */
  function FirstNamed(ns: seq<Node>, name: string): (r: Option<Node>)
    ensures r.Some? ==> Name(r.value) == name
  {
    if ns == [] then None
    else if Name(ns[0]) == name then Some(ns[0])
    else FirstNamed(ns[1..], name)
  }

  /** `FirstNamed` finds the earliest child with that name, and finds
      nothing exactly when no child has it. */
  lemma {:induction false} FirstNamedMeaning(ns: seq<Node>, name: string)
    ensures FirstNamed(ns, name).None? <==> forall k | 0 <= k < |ns| :: Name(ns[k]) != name
    ensures FirstNamed(ns, name).Some? ==>
              exists k | 0 <= k < |ns| :: ns[k] == FirstNamed(ns, name).value
                                          && forall j | 0 <= j < k :: Name(ns[j]) != name
  {
    if ns != [] && Name(ns[0]) != name {
      FirstNamedMeaning(ns[1..], name);
      if FirstNamed(ns, name).Some? {
        var k :| 0 <= k < |ns[1..]| && ns[1..][k] == FirstNamed(ns, name).value
                 && forall j | 0 <= j < k :: Name(ns[1..][j]) != name;
        assert ns[k + 1] == ns[1..][k];
        assert forall j | 1 <= j < k + 1 :: ns[j] == ns[1..][j - 1];
      }
    } else if ns != [] {
      assert ns[0] == FirstNamed(ns, name).value;
    }
  }

  predicate HasChildNamed(n: Node, name: string) {
    exists k | 0 <= k < |Children(n)| :: Name(Children(n)[k]) == name
  }

  /** The first child named `name`, then its attribute `key`. */
  function FirstChildAttr(ns: seq<Node>, name: string, key: string): Option<string> {
    match FirstNamed(ns, name)
    case None => None
    case Some(c) => Attr(c, key)
  }
}
