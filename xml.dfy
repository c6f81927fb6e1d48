/**
  An abstract XML element tree standing in for the parsed `lxml` nodes the
  readers walk. Tags and attribute names are qualified as `lxml` reports
  them, `{namespace}local`, so that a prefixed xpath step such as `o:item`
  is the comparison of a tag with `Q(NS_OPF, "item")`. The only xpath forms the
  readers use are child steps (`a/b`), the root test (`/a`), the
  descendant search (`//a`) and `string(.)`, and each is defined here.
*/
module Xml {
  import opened Wrappers
  import opened Util

  const NS_CONTAINER: string := "urn:oasis:names:tc:opendocument:xmlns:container"
  const NS_DC: string := "http://purl.org/dc/elements/1.1/"
  const NS_DS: string := "http://www.w3.org/2000/09/xmldsig#"
  const NS_ENC: string := "http://www.w3.org/2001/04/xmlenc#"
  const NS_EPUB: string := "http://www.idpf.org/2007/ops"
  const NS_METADATA: string := "http://www.idpf.org/2013/metadata"
  const NS_NCX: string := "http://www.daisy.org/z3986/2005/ncx/"
  const NS_OPF: string := "http://www.idpf.org/2007/opf"
  const NS_RENDITION: string := "http://www.idpf.org/2013/rendition"
  const NS_SMIL: string := "http://www.w3.org/ns/SMIL"
  const NS_XHTML: string := "http://www.w3.org/1999/xhtml"
  const NS_XML: string := "http://www.w3.org/XML/1998/namespace"

  /** A qualified name in `lxml`'s notation. */
  function Q(ns: string, local: string): string
  {
    "{" + ns + "}" + local
  }

  /** Names in the same namespace are equal only when their local parts are. */
  lemma QLocalDistinct(ns: string, a: string, b: string)
    requires a != b
    ensures Q(ns, a) != Q(ns, b)
  {
    assert Q(ns, a)[|ns| + 2..] == a;
    assert Q(ns, b)[|ns| + 2..] == b;
  }

  /**
    An element: its tag, its attributes, the text before its first child,
    the text after its own end tag (its tail), and its element children in
    document order.
  */
  datatype Node = Node(tag: string, attrs: map<string, string>, text: Option<string>,
                       tail: Option<string>, children: seq<Node>)

  /** `node.get(name)`. */
  function Attr(n: Node, name: string): (r: Option<string>)
    ensures r.Some? <==> name in n.attrs
    ensures r.Some? ==> r.value == n.attrs[name]
  {
    if name in n.attrs then Some(n.attrs[name]) else None
  }

  /** The test of the xpath step `tag`. */
  function HasTag(tag: string): Node -> bool
  {
    (c: Node) => c.tag == tag
  }

  /** The xpath child step `tag`: the children with that tag, in document order. */
  function Children(n: Node, tag: string): (r: seq<Node>)
    ensures |r| <= |n.children|
  {
    Filter(n.children, HasTag(tag))
  }

  /** The child step keeps exactly the children with that tag. */
  lemma ChildrenFacts(n: Node, tag: string)
    ensures forall c :: c in Children(n, tag) ==> c in n.children && c.tag == tag
    ensures forall i :: 0 <= i < |n.children| && n.children[i].tag == tag ==> n.children[i] in Children(n, tag)
  {
    FilterFacts(n.children, HasTag(tag));
  }

  /** The child step `tag` applied to each node of a node list, results concatenated in order. */
  function ChildrenOfAll(ns: seq<Node>, tag: string): (r: seq<Node>)
    ensures forall c :: c in r ==> c.tag == tag
  {
    if ns == [] then []
    else
      ChildrenFacts(ns[0], tag);
      Children(ns[0], tag) + ChildrenOfAll(ns[1..], tag)
  }

  /** The two-step path `a/b` from `n`. */
  function Path2(n: Node, a: string, b: string): (r: seq<Node>)
    ensures forall c :: c in r ==> c.tag == b
  {
    ChildrenOfAll(Children(n, a), b)
  }

  /** The three-step path `a/b/c` from `n`. */
  function Path3(n: Node, a: string, b: string, c: string): (r: seq<Node>)
    ensures forall x :: x in r ==> x.tag == c
  {
    ChildrenOfAll(Path2(n, a, b), c)
  }

  /** The elements of the tree rooted at `n` in document order (pre-order), `n` first. */
  function Subtree(n: Node): (r: seq<Node>)
    ensures r != [] && r[0] == n
    decreases n, 1
  {
    [n] + SubtreesOf(n.children)
  }

  /** The elements of each tree in `ns`, in document order. */
  function SubtreesOf(ns: seq<Node>): seq<Node>
    decreases ns, 0
  {
    if ns == [] then [] else Subtree(ns[0]) + SubtreesOf(ns[1..])
  }

  /** The absolute descendant search `//tag` over the document whose root element is `root`. */
  function DescendantsTagged(root: Node, tag: string): (r: seq<Node>)
    ensures forall x :: x in r ==> x.tag == tag && x in Subtree(root)
  {
    FilterFacts(Subtree(root), HasTag(tag));
    Filter(Subtree(root), HasTag(tag))
  }

  /** The xpath `string(.)` of an element: all text content below it, in document order. */
  function StringValue(n: Node): string
    decreases n, 1
  {
    n.text.GetOr("") + TextOfChildren(n.children)
  }

  /** The text of each child followed by that child's tail. */
  function TextOfChildren(ns: seq<Node>): string
    decreases ns, 0
  {
    if ns == [] then "" else StringValue(ns[0]) + ns[0].tail.GetOr("") + TextOfChildren(ns[1..])
  }

  /** The descendant search always reaches the root element itself when its tag matches. */
  lemma DescendantsTaggedRoot(root: Node, tag: string)
    requires root.tag == tag
    ensures DescendantsTagged(root, tag) != [] && DescendantsTagged(root, tag)[0] == root
  {
    FilterAppend([root], SubtreesOf(root.children), HasTag(tag));
  }

  /** The child step distributes over concatenation of the node lists it is applied to. */
  lemma {:induction false} ChildrenOfAllAppend(a: seq<Node>, b: seq<Node>, tag: string)
    ensures ChildrenOfAll(a + b, tag) == ChildrenOfAll(a, tag) + ChildrenOfAll(b, tag)
    decreases |a|
  {
    if a == [] {
      assert a + b == b;
    } else {
      assert (a + b)[0] == a[0];
      assert (a + b)[1..] == a[1..] + b;
      ChildrenOfAllAppend(a[1..], b, tag);
    }
  }

  /** Each node of `a/b` is a child of some `a` child of `n`. */
  lemma Path2Grandchild(n: Node, a: string, b: string, c: Node)
    requires c in Path2(n, a, b)
    ensures exists m :: m in n.children && c in m.children
  {
    GrandchildOfAll(Children(n, a), b, c);
    ChildrenFacts(n, a);
  }

  lemma {:induction false} GrandchildOfAll(ns: seq<Node>, tag: string, c: Node)
    requires c in ChildrenOfAll(ns, tag)
    ensures exists m :: m in ns && c in m.children
    decreases |ns|
  {
    ChildrenFacts(ns[0], tag);
    if c !in Children(ns[0], tag) {
      GrandchildOfAll(ns[1..], tag, c);
      var m :| m in ns[1..] && c in m.children;
      assert m in ns;
    }
  }
}
