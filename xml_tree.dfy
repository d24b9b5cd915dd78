/** The XML element tree as a value: every element owns its children. */
module XmlTree {
  import opened Wrappers

  /** An element: its Clark-notation tag (`{uri}local`, or a bare local name
      outside any namespace), its prefix-to-URI declarations, its attributes
      (keyed by Clark-notation names), its direct text, and its children in
      document order. The default namespace is declared under the prefix "". */
  datatype Node = Node(
    tag: string,
    nsmap: map<string, string>,
    attrs: map<string, string>,
    text: Option<string>,
    children: seq<Node>)

  /** An element with nothing but a tag. */
  function Bare(tag: string): Node
  {
    Node(tag, map[], map[], None, [])
  }

  /** lxml's `element.get(name)`. */
  function Get(n: Node, name: string): (r: Option<string>)
    ensures r.Some? <==> name in n.attrs
  {
    if name in n.attrs then Some(n.attrs[name]) else None
  }

  /** lxml's `parent.append(child)`. */
  function AppendChild(parent: Node, child: Node): (r: Node)
    ensures r.children == parent.children + [child]
    ensures r.(children := parent.children) == parent
  {
    parent.(children := parent.children + [child])
  }

  /** Python's truth value of `element.text`: present and non-empty. */
  predicate HasText(n: Node)
  {
    n.text.Some? && n.text.value != ""
  }

  /** The text of an element, with an absent text read as "". */
  function TextOf(n: Node): string
  {
    if n.text.Some? then n.text.value else ""
  }

  /** lxml's `element.iter()`: the element, then its descendants, in document
      order. */
  function Iter(n: Node): (r: seq<Node>)
    ensures |r| > 0 && r[0] == n
    decreases n, 1
  {
    [n] + IterAll(n.children)
  }

  /** The `Iter` of each element of a list, one after the other. */
  function IterAll(ns: seq<Node>): seq<Node>
    decreases ns, 0
  {
    if ns == [] then [] else Iter(ns[0]) + IterAll(ns[1..])
  }

  lemma {:induction false} IterAllAppend(a: seq<Node>, b: seq<Node>)
    ensures IterAll(a + b) == IterAll(a) + IterAll(b)
  {
    if a == [] {
      assert a + b == b;
    } else {
      assert (a + b)[1..] == a[1..] + b;
      IterAllAppend(a[1..], b);
    }
  }

  lemma {:induction false} IterAllSingle(n: Node)
    ensures IterAll([n]) == Iter(n)
  {
    assert [n][1..] == [];
  }

  /** The elements of `ns` whose tag is `tag`, in order. */
  function WithTag(ns: seq<Node>, tag: string): (r: seq<Node>)
    ensures |r| <= |ns|
    ensures forall i :: 0 <= i < |r| ==> r[i].tag == tag
  {
    if ns == [] then []
    else if ns[0].tag == tag then [ns[0]] + WithTag(ns[1..], tag)
    else WithTag(ns[1..], tag)
  }

  lemma {:induction false} WithTagAppend(a: seq<Node>, b: seq<Node>, tag: string)
    ensures WithTag(a + b, tag) == WithTag(a, tag) + WithTag(b, tag)
  {
    if a == [] {
      assert a + b == b;
    } else {
      assert (a + b)[1..] == a[1..] + b;
      WithTagAppend(a[1..], b, tag);
    }
  }

  /** Membership in `WithTag` is exactly membership with the right tag. */
  lemma {:induction false} WithTagMembers(ns: seq<Node>, tag: string, n: Node)
    ensures n in WithTag(ns, tag) <==> n in ns && n.tag == tag
  {
    if ns != [] {
      WithTagMembers(ns[1..], tag, n);
      assert ns == [ns[0]] + ns[1..];
    }
  }
}
