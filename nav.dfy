/**
  The EPUB 3 Navigation Document (EPUB Content Documents 3.0, section 2.2):
  its `<nav>` elements, each with an optional heading title and an
  `ol/li` tree of entries whose label and target come from a `<span>` or
  an `<a>`.
*/
module Nav {
  import opened Wrappers
  import opened Util
  import opened Xml

  const E_NAV := Q(NS_XHTML, "nav")
  const E_SPAN := Q(NS_XHTML, "span")
  const E_A := Q(NS_XHTML, "a")
  const E_OL := Q(NS_XHTML, "ol")
  const E_LI := Q(NS_XHTML, "li")
  const A_EPUB_TYPE := Q(NS_EPUB, "type")

  /** The heading levels a `<nav>` title may come from, in order of precedence. */
  const HEADINGS: seq<string> := [Q(NS_XHTML, "h1"), Q(NS_XHTML, "h2"), Q(NS_XHTML, "h3"),
                                  Q(NS_XHTML, "h4"), Q(NS_XHTML, "h5"), Q(NS_XHTML, "h6")]

  const V_NAV_TOC := "toc"
  const V_NAV_LANDMARKS := "landmarks"
  const V_NAV_PAGE_LIST := "page-list"

  /** An `<li>` entry: the target and label of its `<a>` or `<span>`, and its nested entries. */
  datatype NavNode = NavNode(epubType: Option<string>, href: Option<string>, id: Option<string>,
                             labelText: Option<string>, children: seq<NavNode>)

  /** A `<nav>` element with the internal path of the document holding it. */
  datatype NavElement = NavElement(internalPath: Option<string>, epubType: Option<string>,
                                   id: Option<string>, title: Option<string>, children: seq<NavNode>)

  /** The Navigation Document: its `<nav>` elements in document order. */
  datatype NavDocument = NavDocument(internalPath: Option<string>, navs: seq<NavElement>)

  /** `NavNode.add_child`: the child goes at the end; nothing else changes. */
  function AddNodeChild(node: NavNode, child: NavNode): (r: NavNode)
    ensures |r.children| == |node.children| + 1 && r.children[..|node.children|] == node.children
    ensures r.children[|node.children|] == child
    ensures r.(children := node.children) == node
  {
    node.(children := node.children + [child])
  }

  /** `NavElement.add_child`: the child goes at the end; nothing else changes. */
  function AddElementChild(nav: NavElement, child: NavNode): (r: NavElement)
    ensures |r.children| == |nav.children| + 1 && r.children[..|nav.children|] == nav.children
    ensures r.children[|nav.children|] == child
    ensures r.(children := nav.children) == nav
  {
    nav.(children := nav.children + [child])
  }

  /** `NavDocument.add_nav`: the nav goes at the end; nothing else changes. */
  function AddNav(doc: NavDocument, nav: NavElement): (r: NavDocument)
    ensures |r.navs| == |doc.navs| + 1 && r.navs[..|doc.navs|] == doc.navs
    ensures r.navs[|doc.navs|] == nav
    ensures r.internalPath == doc.internalPath
  {
    doc.(navs := doc.navs + [nav])
  }

  // ---------------------------------------------------------------------
  // li entries
  // ---------------------------------------------------------------------

  /** The first child with tag `tag`, if any. */
  function FirstChild(n: Node, tag: string): (r: Option<Node>)
    ensures r.None? <==> Children(n, tag) == []
    ensures r.Some? ==> r.value == Children(n, tag)[0]
  {
    var cs := Children(n, tag);
    if |cs| > 0 then Some(cs[0]) else None
  }

  /**
    The element that supplies label and id: the first `<a>` when there is
    one, otherwise the first `<span>`, otherwise none.
  */
  function LabelSource(n: Node): Option<Node>
  {
    if FirstChild(n, E_A).Some? then FirstChild(n, E_A) else FirstChild(n, E_SPAN)
  }

  /** The entry read from the `<li>` element `n`, before its nested entries are read. */
  function EntryHead(n: Node): NavNode
  {
    var a := FirstChild(n, E_A);
    var source := LabelSource(n);
    NavNode(if a.Some? then Attr(a.value, A_EPUB_TYPE) else None,
            if a.Some? then Attr(a.value, "href") else None,
            if source.Some? then Attr(source.value, "id") else None,
            if source.Some? then Some(StringValue(source.value)) else None,
            [])
  }

  /** The entry read from the `<li>` element `n`, its nested entries read recursively. */
  function NavNodeOf(n: Node): NavNode
    decreases n, 2
  {
    EntryHead(n).(children := ListsOf(n.children))
  }

  /** The entries of the `ol` elements among `cs`, list after list. */
  function ListsOf(cs: seq<Node>): seq<NavNode>
    decreases cs, 1
  {
    if cs == [] then []
    else
      var last := cs[|cs| - 1];
      ListsOf(cs[..|cs| - 1]) + (if last.tag == E_OL then ItemsOf(last.children) else [])
  }

  /** The entries read from the `li` elements among `cs`, in order. */
  function ItemsOf(cs: seq<Node>): seq<NavNode>
    decreases cs, 0
  {
    if cs == [] then []
    else
      var last := cs[|cs| - 1];
      ItemsOf(cs[..|cs| - 1]) + (if last.tag == E_LI then [NavNodeOf(last)] else [])
  }

  /** The entry read from each element of `ns`, in order. */
  function NavNodesOf(ns: seq<Node>): (r: seq<NavNode>)
    ensures |r| == |ns| && forall i :: 0 <= i < |ns| ==> r[i] == NavNodeOf(ns[i])
  {
    seq(|ns|, i requires 0 <= i < |ns| => NavNodeOf(ns[i]))
  }

  lemma NavNodesOfAppend(a: seq<Node>, b: seq<Node>)
    ensures NavNodesOf(a + b) == NavNodesOf(a) + NavNodesOf(b)
  {
    var r, t := NavNodesOf(a + b), NavNodesOf(a) + NavNodesOf(b);
    forall i | 0 <= i < |r|
      ensures r[i] == t[i]
    {
      if i < |a| {
        assert (a + b)[i] == a[i];
      } else {
        assert (a + b)[i] == b[i - |a|];
      }
    }
  }

  /** The entries of one list are read from exactly its `li` children, in order. */
  lemma {:induction false} ItemsOfLi(cs: seq<Node>)
    ensures ItemsOf(cs) == NavNodesOf(Filter(cs, HasTag(E_LI)))
    decreases |cs|
  {
    if cs != [] {
      var init, c := cs[..|cs| - 1], cs[|cs| - 1];
      assert cs == init + [c];
      assert ItemsOf(cs) == ItemsOf(init) + (if c.tag == E_LI then [NavNodeOf(c)] else []);
      ItemsOfLi(init);
      FilterAppend(init, [c], HasTag(E_LI));
      FilterSingle(c, HasTag(E_LI));
      var f := Filter(init, HasTag(E_LI));
      assert Filter(cs, HasTag(E_LI)) == f + Filter([c], HasTag(E_LI));
      NavNodesOfAppend(f, Filter([c], HasTag(E_LI)));
      if c.tag == E_LI {
        assert NavNodesOf([c]) == [NavNodeOf(c)];
      } else {
        assert NavNodesOf([]) == [];
      }
    }
  }

  /** The nested entries are read from exactly the `ol/li` path, in document order. */
  lemma {:induction false} ListsOfPath(cs: seq<Node>)
    ensures ListsOf(cs) == NavNodesOf(ChildrenOfAll(Filter(cs, HasTag(E_OL)), E_LI))
    decreases |cs|
  {
    if cs != [] {
      var init, c := cs[..|cs| - 1], cs[|cs| - 1];
      assert cs == init + [c];
      ListsOfPath(init);
      FilterAppend(init, [c], HasTag(E_OL));
      FilterSingle(c, HasTag(E_OL));
      var lists := Filter(init, HasTag(E_OL));
      ChildrenOfAllAppend(lists, Filter([c], HasTag(E_OL)), E_LI);
      if c.tag == E_OL {
        assert ChildrenOfAll([c], E_LI) == Children(c, E_LI) + ChildrenOfAll([], E_LI);
        ItemsOfLi(c.children);
        NavNodesOfAppend(ChildrenOfAll(lists, E_LI), Children(c, E_LI));
      } else {
        assert ChildrenOfAll(lists + [], E_LI) == ChildrenOfAll(lists, E_LI) by {
          assert lists + [] == lists;
        }
      }
    }
  }

  lemma ListsOfChildren(n: Node)
    ensures ListsOf(n.children) == NavNodesOf(Path2(n, E_OL, E_LI))
  {
    ListsOfPath(n.children);
  }

  /**
    `NavNode.parse_object`: a `<span>` gives label and id; an `<a>`, when
    present, overrides both and gives href and epub:type; then one child per
    `ol/li`, each parsed recursively and appended in document order.
  */
  method ParseNode(n: Node) returns (r: NavNode)
    ensures r == NavNodeOf(n)
    decreases n, 1
  {
    r := NavNode(None, None, None, None, []);
    var spans := Children(n, E_SPAN);
    if |spans| > 0 {
      r := r.(labelText := Some(StringValue(spans[0])), id := Attr(spans[0], "id"));
    }
    var anchors := Children(n, E_A);
    if |anchors| > 0 {
      r := r.(labelText := Some(StringValue(anchors[0])), id := Attr(anchors[0], "id"),
              href := Attr(anchors[0], "href"), epubType := Attr(anchors[0], A_EPUB_TYPE));
    }
    assert r == EntryHead(n);
    r := ReadNodeItems(r, n);
  }

  /** The `ol/li` loop of `NavNode.parse_object`. */
  method ReadNodeItems(node0: NavNode, n: Node) returns (r: NavNode)
    ensures r == node0.(children := node0.children + ListsOf(n.children))
    decreases n, 0
  {
    r := node0;
    var items := Path2(n, E_OL, E_LI);
    var i := 0;
    while i < |items|
      invariant 0 <= i <= |items|
      invariant r == node0.(children := node0.children + NavNodesOf(items[..i]))
    {
      Path2Grandchild(n, E_OL, E_LI, items[i]);
      assert items[..i + 1] == items[..i] + [items[i]];
      NavNodesOfAppend(items[..i], [items[i]]);
      var child := ParseNode(items[i]);
      r := AddNodeChild(r, child);
      i := i + 1;
    }
    assert items[..i] == items;
    ListsOfChildren(n);
  }

  /**
    The `<a>` takes precedence over the `<span>`: with an `<a>` the entry's
    label, id, href and epub:type all come from it (an `<a>` without id
    clears the span's id); with only a `<span>` there is no href and no
    epub:type; with neither, no label either.
  */
  lemma AnchorOverridesSpan(n: Node)
    ensures Children(n, E_A) != [] ==>
              var a := Children(n, E_A)[0];
              NavNodeOf(n).labelText == Some(StringValue(a)) && NavNodeOf(n).id == Attr(a, "id") &&
              NavNodeOf(n).href == Attr(a, "href") && NavNodeOf(n).epubType == Attr(a, A_EPUB_TYPE)
    ensures Children(n, E_A) == [] ==> NavNodeOf(n).href == None && NavNodeOf(n).epubType == None
    ensures Children(n, E_A) == [] && Children(n, E_SPAN) != [] ==>
              NavNodeOf(n).labelText == Some(StringValue(Children(n, E_SPAN)[0])) &&
              NavNodeOf(n).id == Attr(Children(n, E_SPAN)[0], "id")
    ensures Children(n, E_A) == [] && Children(n, E_SPAN) == [] ==>
              NavNodeOf(n).labelText == None && NavNodeOf(n).id == None
  {
  }

  /** An entry has one nested entry per `ol/li` grandchild, in document order. */
  lemma NavNodeChildren(n: Node)
    ensures |NavNodeOf(n).children| == |Path2(n, E_OL, E_LI)|
    ensures forall i :: 0 <= i < |Path2(n, E_OL, E_LI)| ==>
              NavNodeOf(n).children[i] == NavNodeOf(Path2(n, E_OL, E_LI)[i])
  {
    ListsOfChildren(n);
  }

  // ---------------------------------------------------------------------
  // nav elements
  // ---------------------------------------------------------------------

  /** The title from the first of `levels` that has a heading child: that heading's string value. */
  function TitleFrom(n: Node, levels: seq<string>): Option<string>
    decreases |levels|
  {
    if levels == [] then None
    else if FirstChild(n, levels[0]).Some? then Some(StringValue(FirstChild(n, levels[0]).value))
    else TitleFrom(n, levels[1..])
  }

  /**
    The heading rule: the title is the string value of the first heading
    of the highest level present, whatever the document order of the
    headings; without any heading it is None.
  */
  lemma {:induction false} TitleFromRule(n: Node, levels: seq<string>)
    ensures TitleFrom(n, levels).None? <==> forall k :: 0 <= k < |levels| ==> Children(n, levels[k]) == []
    ensures TitleFrom(n, levels).Some? ==>
              exists k :: 0 <= k < |levels| && Children(n, levels[k]) != [] &&
                          TitleFrom(n, levels) == Some(StringValue(Children(n, levels[k])[0])) &&
                          forall j :: 0 <= j < k ==> Children(n, levels[j]) == []
    decreases |levels|
  {
    if levels != [] && FirstChild(n, levels[0]).None? {
      TitleFromRule(n, levels[1..]);
      if TitleFrom(n, levels[1..]).Some? {
        var k :| 0 <= k < |levels[1..]| && Children(n, levels[1..][k]) != [] &&
                 TitleFrom(n, levels[1..]) == Some(StringValue(Children(n, levels[1..][k])[0])) &&
                 forall j :: 0 <= j < k ==> Children(n, levels[1..][j]) == [];
        assert forall j :: 0 <= j < k + 1 ==> Children(n, levels[j]) == [] by {
          forall j | 0 <= j < k + 1 ensures Children(n, levels[j]) == [] {
            if j > 0 { assert levels[j] == levels[1..][j - 1]; }
          }
        }
        assert levels[k + 1] == levels[1..][k];
      } else {
        assert forall k :: 0 <= k < |levels| ==> Children(n, levels[k]) == [] by {
          forall k | 0 <= k < |levels| ensures Children(n, levels[k]) == [] {
            if k > 0 { assert levels[k] == levels[1..][k - 1]; }
          }
        }
      }
    }
  }

  /** The title of a `<nav>`: from its first heading of the highest level among h1 to h6. */
  function TitleOf(n: Node): Option<string>
  {
    TitleFrom(n, HEADINGS)
  }

  /** The `<nav>` element `n` of the document at `internalPath`. */
  function NavElementOf(n: Node, internalPath: Option<string>): NavElement
  {
    NavElement(internalPath, Attr(n, A_EPUB_TYPE), Attr(n, "id"), TitleOf(n), ListsOf(n.children))
  }

  /** The heading-search loop of `NavElement.parse_object`: h1 first, stopping at the first level found. */
  method ReadTitle(n: Node) returns (title: Option<string>)
    ensures title == TitleOf(n)
  {
    title := None;
    var i := 0;
    while i < |HEADINGS|
      invariant 0 <= i <= |HEADINGS|
      invariant title == None && TitleFrom(n, HEADINGS[i..]) == TitleOf(n)
    {
      assert HEADINGS[i..][1..] == HEADINGS[i + 1..];
      var hs := Children(n, HEADINGS[i]);
      if |hs| > 0 {
        title := Some(StringValue(hs[0]));
        break;
      }
      i := i + 1;
    }
  }

  /**
    `NavElement.parse_object`: epub:type and id of the `<nav>`, its title,
    then one entry per `ol/li`, in document order.
  */
  method ParseElement(n: Node, internalPath: Option<string>) returns (r: NavElement)
    ensures r == NavElementOf(n, internalPath)
  {
    r := NavElement(internalPath, Attr(n, A_EPUB_TYPE), Attr(n, "id"), None, []);
    var title := ReadTitle(n);
    r := r.(title := title);
    ghost var head := r;
    var items := Path2(n, E_OL, E_LI);
    var i := 0;
    while i < |items|
      invariant 0 <= i <= |items|
      invariant r == head.(children := NavNodesOf(items[..i]))
    {
      assert items[..i + 1] == items[..i] + [items[i]];
      NavNodesOfAppend(items[..i], [items[i]]);
      var child := ParseNode(items[i]);
      r := AddElementChild(r, child);
      i := i + 1;
    }
    assert items[..i] == items;
    ListsOfChildren(n);
    assert r == head.(children := ListsOf(n.children));
  }

  /**
    A nav's title follows the heading rule over h1 to h6, and it has one
    entry per `ol/li` grandchild, in document order.
  */
  lemma NavElementShape(n: Node, internalPath: Option<string>)
    ensures NavElementOf(n, internalPath).title.None? <==>
              forall k :: 0 <= k < |HEADINGS| ==> Children(n, HEADINGS[k]) == []
    ensures NavElementOf(n, internalPath).title.Some? ==>
              exists k :: 0 <= k < |HEADINGS| && Children(n, HEADINGS[k]) != [] &&
                          NavElementOf(n, internalPath).title == Some(StringValue(Children(n, HEADINGS[k])[0])) &&
                          forall j :: 0 <= j < k ==> Children(n, HEADINGS[j]) == []
    ensures NavElementOf(n, internalPath).children == NavNodesOf(Path2(n, E_OL, E_LI))
  {
    TitleFromRule(n, HEADINGS);
    ListsOfChildren(n);
  }

  // ---------------------------------------------------------------------
  // The Navigation Document
  // ---------------------------------------------------------------------

  /** The nav read from each element of `ns`, in order. */
  function NavElementsOf(ns: seq<Node>, internalPath: Option<string>): (r: seq<NavElement>)
    ensures |r| == |ns| && forall i :: 0 <= i < |ns| ==> r[i] == NavElementOf(ns[i], internalPath)
  {
    seq(|ns|, i requires 0 <= i < |ns| => NavElementOf(ns[i], internalPath))
  }

  lemma NavElementsOfAppend(a: seq<Node>, b: seq<Node>, internalPath: Option<string>)
    ensures NavElementsOf(a + b, internalPath) == NavElementsOf(a, internalPath) + NavElementsOf(b, internalPath)
  {
    var r, t := NavElementsOf(a + b, internalPath), NavElementsOf(a, internalPath) + NavElementsOf(b, internalPath);
    forall i | 0 <= i < |r|
      ensures r[i] == t[i]
    {
      if i < |a| {
        assert (a + b)[i] == a[i];
      } else {
        assert (a + b)[i] == b[i - |a|];
      }
    }
  }

  /** The document whose root element is `root`: every `<nav>` anywhere in it, in document order. */
  function DocumentOf(root: Node, internalPath: Option<string>): NavDocument
  {
    NavDocument(internalPath, NavElementsOf(DescendantsTagged(root, E_NAV), internalPath))
  }

  /** `NavDocument.parse_object`: each `<nav>` found by `//nav` parsed and appended in order. */
  method Parse(root: Node, internalPath: Option<string>) returns (doc: NavDocument)
    ensures doc == DocumentOf(root, internalPath)
  {
    doc := NavDocument(internalPath, []);
    var navArr := DescendantsTagged(root, E_NAV);
    doc := ReadNavs(doc, navArr);
  }

  /** The loop of `NavDocument.parse_object` over the found `<nav>` elements. */
  method ReadNavs(doc0: NavDocument, navArr: seq<Node>) returns (doc: NavDocument)
    ensures doc.internalPath == doc0.internalPath
    ensures doc.navs == doc0.navs + NavElementsOf(navArr, doc0.internalPath)
  {
    doc := doc0;
    var i := 0;
    while i < |navArr|
      invariant 0 <= i <= |navArr|
      invariant doc.internalPath == doc0.internalPath
      invariant doc.navs == doc0.navs + NavElementsOf(navArr[..i], doc0.internalPath)
    {
      assert navArr[..i + 1] == navArr[..i] + [navArr[i]];
      NavElementsOfAppend(navArr[..i], [navArr[i]], doc0.internalPath);
      var nav := ParseElement(navArr[i], doc.internalPath);
      assert NavElementsOf([navArr[i]], doc0.internalPath) == [nav];
      doc := AddNav(doc, nav);
      i := i + 1;
    }
    assert navArr[..i] == navArr;
  }

  /**
    The parsed navs are the `<nav>` elements of the tree, all of them and
    in document order, and every one carries the document's internal path.
  */
  lemma DocumentNavs(root: Node, internalPath: Option<string>)
    ensures |DocumentOf(root, internalPath).navs| == |DescendantsTagged(root, E_NAV)|
    ensures forall i :: 0 <= i < |DocumentOf(root, internalPath).navs| ==>
              DocumentOf(root, internalPath).navs[i].internalPath == internalPath
    ensures root.tag == E_NAV ==> DocumentOf(root, internalPath).navs[0] == NavElementOf(root, internalPath)
  {
    if root.tag == E_NAV {
      DescendantsTaggedRoot(root, E_NAV);
    }
  }

  /** `nav_by_id`: the first nav whose id equals `id` (None matches a nav without id), or None. */
  function NavById(doc: NavDocument, id: Option<string>): (r: Option<NavElement>)
    ensures r.None? <==> forall i :: 0 <= i < |doc.navs| ==> doc.navs[i].id != id
    ensures r.Some? ==> exists k :: 0 <= k < |doc.navs| && doc.navs[k] == r.value && r.value.id == id &&
                                    forall j :: 0 <= j < k ==> doc.navs[j].id != id
  {
    var keep := (e: NavElement) => e.id == id;
    FirstMatchFacts(doc.navs, keep);
    FirstMatch(doc.navs, keep)
  }

  /** `nav_by_epub_type`: the first nav whose epub:type is exactly `epubType`, or None. */
  function NavByEpubType(doc: NavDocument, epubType: Option<string>): (r: Option<NavElement>)
    ensures r.None? <==> forall i :: 0 <= i < |doc.navs| ==> doc.navs[i].epubType != epubType
    ensures r.Some? ==> exists k :: 0 <= k < |doc.navs| && doc.navs[k] == r.value &&
                                    r.value.epubType == epubType &&
                                    forall j :: 0 <= j < k ==> doc.navs[j].epubType != epubType
  {
    var keep := (e: NavElement) => e.epubType == epubType;
    FirstMatchFacts(doc.navs, keep);
    FirstMatch(doc.navs, keep)
  }

  /** `toc`: the first nav of epub:type `toc`, or None. */
  function TocNav(doc: NavDocument): (r: Option<NavElement>)
    ensures r.None? <==> forall i :: 0 <= i < |doc.navs| ==> doc.navs[i].epubType != Some(V_NAV_TOC)
    ensures r.Some? ==> exists k :: 0 <= k < |doc.navs| && doc.navs[k] == r.value &&
                                    r.value.epubType == Some(V_NAV_TOC) &&
                                    forall j :: 0 <= j < k ==> doc.navs[j].epubType != Some(V_NAV_TOC)
  {
    NavByEpubType(doc, Some(V_NAV_TOC))
  }

  /** `landmarks`: the first nav of epub:type `landmarks`, or None. */
  function LandmarksNav(doc: NavDocument): (r: Option<NavElement>)
    ensures r.None? <==> forall i :: 0 <= i < |doc.navs| ==> doc.navs[i].epubType != Some(V_NAV_LANDMARKS)
    ensures r.Some? ==> exists k :: 0 <= k < |doc.navs| && doc.navs[k] == r.value &&
                                    r.value.epubType == Some(V_NAV_LANDMARKS) &&
                                    forall j :: 0 <= j < k ==> doc.navs[j].epubType != Some(V_NAV_LANDMARKS)
  {
    NavByEpubType(doc, Some(V_NAV_LANDMARKS))
  }

  /** `page_list`: the first nav of epub:type `page-list`, or None. */
  function PageListNav(doc: NavDocument): (r: Option<NavElement>)
    ensures r.None? <==> forall i :: 0 <= i < |doc.navs| ==> doc.navs[i].epubType != Some(V_NAV_PAGE_LIST)
    ensures r.Some? ==> exists k :: 0 <= k < |doc.navs| && doc.navs[k] == r.value &&
                                    r.value.epubType == Some(V_NAV_PAGE_LIST) &&
                                    forall j :: 0 <= j < k ==> doc.navs[j].epubType != Some(V_NAV_PAGE_LIST)
  {
    NavByEpubType(doc, Some(V_NAV_PAGE_LIST))
  }
}
