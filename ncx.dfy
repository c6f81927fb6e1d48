/**
  The EPUB 2 NCX table of contents: the `<ncx>` root with its `dtb:*`
  head metadata, document title and author, and the `<navPoint>` tree of
  its first `<navMap>`.
*/
module Ncx {
  import opened Wrappers
  import opened Util
  import opened Xml

  const E_NCX := Q(NS_NCX, "ncx")
  const E_HEAD := Q(NS_NCX, "head")
  const E_META := Q(NS_NCX, "meta")
  const E_DOCTITLE := Q(NS_NCX, "docTitle")
  const E_DOCAUTHOR := Q(NS_NCX, "docAuthor")
  const E_TEXT := Q(NS_NCX, "text")
  const E_NAVMAP := Q(NS_NCX, "navMap")
  const E_NAVPOINT := Q(NS_NCX, "navPoint")
  const E_NAVLABEL := Q(NS_NCX, "navLabel")
  const E_CONTENT := Q(NS_NCX, "content")
  const A_XML_LANG := Q(NS_XML, "lang")

  const DTB_UID := "dtb:uid"
  const DTB_DEPTH := "dtb:depth"
  const DTB_TOTALPAGECOUNT := "dtb:totalPageCount"
  const DTB_MAXPAGENUMBER := "dtb:maxPageNumber"
  const DTB_GENERATOR := "dtb:generator"

  /** A `<navPoint>`: its attributes, its target, its label and its nested points. */
  datatype NCXTocNode = NCXTocNode(id: Option<string>, playOrder: Option<string>, src: Option<string>,
                                   text: Option<string>, children: seq<NCXTocNode>)

  /** The NCX document. */
  datatype NCXToc = NCXToc(internalPath: Option<string>, id: Option<string>, version: Option<string>,
                           xmlLang: Option<string>, dtbUid: Option<string>, dtbDepth: Option<string>,
                           dtbTotalPageCount: Option<string>, dtbMaxPageNumber: Option<string>,
                           dtbGenerator: Option<string>, docTitle: Option<string>,
                           docAuthor: Option<string>, children: seq<NCXTocNode>)

  /** `NCXTocNode.add_child`: the child goes at the end; nothing else changes. */
  function AddNodeChild(node: NCXTocNode, child: NCXTocNode): (r: NCXTocNode)
    ensures |r.children| == |node.children| + 1 && r.children[..|node.children|] == node.children
    ensures r.children[|node.children|] == child
    ensures r.(children := node.children) == node
  {
    node.(children := node.children + [child])
  }

  /** `NCXToc.add_child`: the child goes at the end; nothing else changes. */
  function AddTocChild(toc: NCXToc, child: NCXTocNode): (r: NCXToc)
    ensures |r.children| == |toc.children| + 1 && r.children[..|toc.children|] == toc.children
    ensures r.children[|toc.children|] == child
    ensures r.(children := toc.children) == toc
  {
    toc.(children := toc.children + [child])
  }

  // ---------------------------------------------------------------------
  // navPoint
  // ---------------------------------------------------------------------

  /** The stripped text of the first `navLabel/text`, if any. */
  function LabelOf(n: Node): Option<string>
  {
    var texts := Path2(n, E_NAVLABEL, E_TEXT);
    if |texts| > 0 then SafeStrip(texts[0].text) else None
  }

  /** The `src` of the first `content` child, if any. */
  function SrcOf(n: Node): Option<string>
  {
    var contents := Children(n, E_CONTENT);
    if |contents| > 0 then Attr(contents[0], "src") else None
  }

  /** The node read from the `<navPoint>` element `n`, its nested points read recursively. */
  function NodeOf(n: Node): NCXTocNode
    decreases n, 1
  {
    NCXTocNode(Attr(n, "id"), Attr(n, "playOrder"), SrcOf(n), LabelOf(n), PointsOf(n.children))
  }

  /** The nodes read from the `navPoint` elements among `cs`, in order. */
  function PointsOf(cs: seq<Node>): seq<NCXTocNode>
    decreases cs, 0
  {
    if cs == [] then []
    else PointsOf(cs[..|cs| - 1]) + (if cs[|cs| - 1].tag == E_NAVPOINT then [NodeOf(cs[|cs| - 1])] else [])
  }

  /** The node read from each element of `ns`, in order. */
  function NodesOf(ns: seq<Node>): (r: seq<NCXTocNode>)
    ensures |r| == |ns| && forall i :: 0 <= i < |ns| ==> r[i] == NodeOf(ns[i])
  {
    seq(|ns|, i requires 0 <= i < |ns| => NodeOf(ns[i]))
  }

  lemma NodesOfSnoc(ns: seq<Node>, x: Node)
    ensures NodesOf(ns + [x]) == NodesOf(ns) + [NodeOf(x)]
  {
  }

  /** The nested points are read from exactly the `navPoint` children, in document order. */
  lemma {:induction false} PointsOfNavPoints(cs: seq<Node>)
    ensures PointsOf(cs) == NodesOf(Filter(cs, HasTag(E_NAVPOINT)))
    decreases |cs|
  {
    if cs != [] {
      var init, c := cs[..|cs| - 1], cs[|cs| - 1];
      assert cs == init + [c];
      PointsOfNavPoints(init);
      FilterAppend(init, [c], HasTag(E_NAVPOINT));
      FilterSingle(c, HasTag(E_NAVPOINT));
    }
  }

  /**
    `NCXTocNode.parse_object`: id and play order, then the label and the
    target when present, then one child per `navPoint` child, each parsed
    recursively and appended in document order.
  */
  method ParseNode(n: Node) returns (r: NCXTocNode)
    ensures r == NodeOf(n)
    decreases n, 1
  {
    r := NCXTocNode(Attr(n, "id"), Attr(n, "playOrder"), None, None, []);
    var textArr := Path2(n, E_NAVLABEL, E_TEXT);
    if |textArr| > 0 {
      r := r.(text := SafeStrip(textArr[0].text));
    }
    var contentArr := Children(n, E_CONTENT);
    if |contentArr| > 0 {
      r := r.(src := Attr(contentArr[0], "src"));
    }
    r := ReadChildPoints(r, n);
  }

  /** The `navPoint` loop of `NCXTocNode.parse_object`: each child point parsed and appended in order. */
  method ReadChildPoints(node0: NCXTocNode, n: Node) returns (r: NCXTocNode)
    ensures r == node0.(children := node0.children + PointsOf(n.children))
    decreases n, 0
  {
    r := node0;
    var navPoints := Children(n, E_NAVPOINT);
    var i := 0;
    while i < |navPoints|
      invariant 0 <= i <= |navPoints|
      invariant r == node0.(children := node0.children + NodesOf(navPoints[..i]))
    {
      ChildrenFacts(n, E_NAVPOINT);
      assert navPoints[i] in n.children;
      assert navPoints[..i + 1] == navPoints[..i] + [navPoints[i]];
      NodesOfSnoc(navPoints[..i], navPoints[i]);
      var child := ParseNode(navPoints[i]);
      r := AddNodeChild(r, child);
      i := i + 1;
    }
    assert navPoints[..i] == navPoints;
    PointsOfChildren(n);
  }

  lemma PointsOfChildren(n: Node)
    ensures PointsOf(n.children) == NodesOf(Children(n, E_NAVPOINT))
  {
    PointsOfNavPoints(n.children);
  }

  /**
    A parsed node has one child per `navPoint` child, in document order,
    and its label, when present, carries no surrounding whitespace.
  */
  lemma NodeOfShape(n: Node)
    ensures |NodeOf(n).children| == |Children(n, E_NAVPOINT)|
    ensures forall i :: 0 <= i < |Children(n, E_NAVPOINT)| ==>
              NodeOf(n).children[i] == NodeOf(Children(n, E_NAVPOINT)[i])
    ensures NodeOf(n).text.Some? ==> Strip(NodeOf(n).text.value) == NodeOf(n).text.value
  {
    PointsOfNavPoints(n.children);
    var texts := Path2(n, E_NAVLABEL, E_TEXT);
    if |texts| > 0 && texts[0].text.Some? {
      StripIdempotent(texts[0].text.value);
    }
  }

  // ---------------------------------------------------------------------
  // The NCX document
  // ---------------------------------------------------------------------

  /** One pass of the `head/meta` loop: a known `dtb:*` name sets its field to the content. */
  function ApplyMeta(toc: NCXToc, meta: Node): NCXToc
  {
    var name := Attr(meta, "name");
    var content := Attr(meta, "content");
    if name == Some(DTB_UID) then toc.(dtbUid := content)
    else if name == Some(DTB_DEPTH) then toc.(dtbDepth := content)
    else if name == Some(DTB_TOTALPAGECOUNT) then toc.(dtbTotalPageCount := content)
    else if name == Some(DTB_MAXPAGENUMBER) then toc.(dtbMaxPageNumber := content)
    else if name == Some(DTB_GENERATOR) then toc.(dtbGenerator := content)
    else toc
  }

  /** The whole `head/meta` loop. */
  function ApplyMetas(toc: NCXToc, metas: seq<Node>): NCXToc
    decreases |metas|
  {
    if metas == [] then toc else ApplyMeta(ApplyMetas(toc, metas[..|metas| - 1]), metas[|metas| - 1])
  }

  /** The `dtb:*` field of `toc` that the meta name `name` sets. */
  function DtbField(toc: NCXToc, name: string): Option<string>
    requires name in {DTB_UID, DTB_DEPTH, DTB_TOTALPAGECOUNT, DTB_MAXPAGENUMBER, DTB_GENERATOR}
  {
    if name == DTB_UID then toc.dtbUid
    else if name == DTB_DEPTH then toc.dtbDepth
    else if name == DTB_TOTALPAGECOUNT then toc.dtbTotalPageCount
    else if name == DTB_MAXPAGENUMBER then toc.dtbMaxPageNumber
    else toc.dtbGenerator
  }

  predicate Named(meta: Node, name: string)
  {
    Attr(meta, "name") == Some(name)
  }

  /**
    After the meta loop each `dtb:*` field holds the content of the last
    meta with that name (None when that meta has no content), or its old
    value when no meta has that name.
  */
  lemma {:induction false} LastMetaWins(toc: NCXToc, metas: seq<Node>, name: string)
    requires name in {DTB_UID, DTB_DEPTH, DTB_TOTALPAGECOUNT, DTB_MAXPAGENUMBER, DTB_GENERATOR}
    ensures DtbField(ApplyMetas(toc, metas), name) ==
              match LastMatch(metas, (m: Node) => Named(m, name))
              case Some(m) => Attr(m, "content")
              case None => DtbField(toc, name)
    decreases |metas|
  {
    if metas != [] {
      var init, last := metas[..|metas| - 1], metas[|metas| - 1];
      LastMetaWins(toc, init, name);
      MetaSetsField(ApplyMetas(toc, init), last, name);
    }
  }

  /** One meta sets the field of `name` exactly when it carries that name. */
  lemma MetaSetsField(toc: NCXToc, meta: Node, name: string)
    requires name in {DTB_UID, DTB_DEPTH, DTB_TOTALPAGECOUNT, DTB_MAXPAGENUMBER, DTB_GENERATOR}
    ensures DtbField(ApplyMeta(toc, meta), name) == if Named(meta, name) then Attr(meta, "content") else DtbField(toc, name)
  {
    assert |DTB_UID| == 7 && |DTB_DEPTH| == 9 && |DTB_TOTALPAGECOUNT| == 18 && |DTB_MAXPAGENUMBER| == 17 &&
           |DTB_GENERATOR| == 13;
  }

  /** The meta loop changes no field other than the five `dtb:*` ones. */
  lemma {:induction false} MetasKeepOtherFields(toc: NCXToc, metas: seq<Node>)
    ensures var t := ApplyMetas(toc, metas);
            t.internalPath == toc.internalPath && t.id == toc.id && t.version == toc.version &&
            t.xmlLang == toc.xmlLang && t.docTitle == toc.docTitle && t.docAuthor == toc.docAuthor &&
            t.children == toc.children
    decreases |metas|
  {
    if metas != [] {
      MetasKeepOtherFields(toc, metas[..|metas| - 1]);
      MetaKeepsOtherFields(ApplyMetas(toc, metas[..|metas| - 1]), metas[|metas| - 1]);
    }
  }

  /** One meta changes no field other than the five `dtb:*` ones. */
  lemma MetaKeepsOtherFields(toc: NCXToc, meta: Node)
    ensures var t := ApplyMeta(toc, meta);
            t.internalPath == toc.internalPath && t.id == toc.id && t.version == toc.version &&
            t.xmlLang == toc.xmlLang && t.docTitle == toc.docTitle && t.docAuthor == toc.docAuthor &&
            t.children == toc.children
  {
  }

  /** The text of the first `docTitle/text`, if any. */
  function TitleOf(root: Node): Option<string>
  {
    var titles := Path2(root, E_DOCTITLE, E_TEXT);
    if |titles| > 0 then titles[0].text else None
  }

  /** The text of the first `docAuthor/text`, if any. */
  function AuthorOf(root: Node): Option<string>
  {
    var authors := Path2(root, E_DOCAUTHOR, E_TEXT);
    if |authors| > 0 then authors[0].text else None
  }

  /** The top-level points: those of the first `navMap`, none without one. */
  function NavChildrenOf(root: Node): seq<NCXTocNode>
  {
    var navMaps := Children(root, E_NAVMAP);
    if |navMaps| > 0 then NodesOf(Children(navMaps[0], E_NAVPOINT)) else []
  }

  /** The document before its `head/meta` loop: the root's attributes only. */
  function BaseOf(root: Node, internalPath: Option<string>): NCXToc
  {
    NCXToc(internalPath, Attr(root, "id"), Attr(root, "version"), Attr(root, A_XML_LANG),
           None, None, None, None, None, None, None, [])
  }

  /** The document read from the `<ncx>` root `root`. */
  function TocOf(root: Node, internalPath: Option<string>): NCXToc
  {
    ApplyMetas(BaseOf(root, internalPath), Path2(root, E_HEAD, E_META)).(
      docTitle := TitleOf(root), docAuthor := AuthorOf(root), children := NavChildrenOf(root))
  }

  /** The `head/meta` loop of `NCXToc.parse_object`. */
  method ReadMetas(toc0: NCXToc, metas: seq<Node>) returns (toc: NCXToc)
    ensures toc == ApplyMetas(toc0, metas)
  {
    toc := toc0;
    var i := 0;
    while i < |metas|
      invariant 0 <= i <= |metas|
      invariant toc == ApplyMetas(toc0, metas[..i])
    {
      assert metas[..i + 1][..i] == metas[..i];
      var name := Attr(metas[i], "name");
      var content := Attr(metas[i], "content");
      if name == Some(DTB_UID) {
        toc := toc.(dtbUid := content);
      } else if name == Some(DTB_DEPTH) {
        toc := toc.(dtbDepth := content);
      } else if name == Some(DTB_TOTALPAGECOUNT) {
        toc := toc.(dtbTotalPageCount := content);
      } else if name == Some(DTB_MAXPAGENUMBER) {
        toc := toc.(dtbMaxPageNumber := content);
      } else if name == Some(DTB_GENERATOR) {
        toc := toc.(dtbGenerator := content);
      }
      i := i + 1;
    }
    assert metas[..i] == metas;
  }

  /** The `navPoint` loop of `NCXToc.parse_object`: each point parsed and appended in order. */
  method ReadNavPoints(toc0: NCXToc, navMap: Node) returns (toc: NCXToc)
    ensures toc == toc0.(children := toc0.children + NodesOf(Children(navMap, E_NAVPOINT)))
  {
    toc := toc0;
    var navPoints := Children(navMap, E_NAVPOINT);
    var i := 0;
    while i < |navPoints|
      invariant 0 <= i <= |navPoints|
      invariant toc == toc0.(children := toc0.children + NodesOf(navPoints[..i]))
    {
      assert navPoints[..i + 1] == navPoints[..i] + [navPoints[i]];
      NodesOfSnoc(navPoints[..i], navPoints[i]);
      var child := ParseNode(navPoints[i]);
      toc := AddTocChild(toc, child);
      i := i + 1;
    }
    assert navPoints[..i] == navPoints;
  }

  /** The `docTitle/text` and `docAuthor/text` reads of `NCXToc.parse_object`. */
  method ReadTitleAuthor(toc0: NCXToc, root: Node) returns (toc: NCXToc)
    requires toc0.docTitle == None && toc0.docAuthor == None
    ensures toc == toc0.(docTitle := TitleOf(root), docAuthor := AuthorOf(root))
  {
    toc := toc0;
    var titles := Path2(root, E_DOCTITLE, E_TEXT);
    if |titles| > 0 {
      toc := toc.(docTitle := titles[0].text);
    }
    var authors := Path2(root, E_DOCAUTHOR, E_TEXT);
    if |authors| > 0 {
      toc := toc.(docAuthor := authors[0].text);
    }
  }

  /** The `navMap` step of `NCXToc.parse_object`: only the first `navMap` is read. */
  method ReadNavMap(toc0: NCXToc, root: Node) returns (toc: NCXToc)
    requires toc0.children == []
    ensures toc == toc0.(children := NavChildrenOf(root))
  {
    toc := toc0;
    var navMaps := Children(root, E_NAVMAP);
    if |navMaps| > 0 {
      ghost var points := NodesOf(Children(navMaps[0], E_NAVPOINT));
      assert NavChildrenOf(root) == points;
      toc := ReadNavPoints(toc, navMaps[0]);
      assert toc0.children + points == points;
    }
  }

  /**
    `NCXToc.parse_object`: the root must be `<ncx>`; the `dtb:*` metadata,
    title, author and the points of the first `navMap` are then read.
  */
  method Parse(root: Node, internalPath: Option<string>) returns (r: Result<NCXToc>)
    ensures root.tag != E_NCX ==> r == Fail(MissingElement("ncx"))
    ensures root.tag == E_NCX ==> r == Ok(TocOf(root, internalPath))
  {
    if root.tag != E_NCX {
      return Fail(MissingElement("ncx"));
    }
    var base := BaseOf(root, internalPath);
    var metas := Path2(root, E_HEAD, E_META);
    var toc := ReadMetas(base, metas);
    MetasKeepOtherFields(base, metas);
    ghost var afterMetas := toc;
    toc := ReadTitleAuthor(toc, root);
    toc := ReadNavMap(toc, root);
    r := Ok(toc);
  }

  /**
    A parsed NCX has one top-level node per `navPoint` of its first
    `navMap`, in document order, and none without a `navMap`.
  */
  lemma TocChildren(root: Node, internalPath: Option<string>)
    ensures Children(root, E_NAVMAP) == [] ==> TocOf(root, internalPath).children == []
    ensures Children(root, E_NAVMAP) != [] ==>
              var points := Children(Children(root, E_NAVMAP)[0], E_NAVPOINT);
              |TocOf(root, internalPath).children| == |points| &&
              forall i :: 0 <= i < |points| ==> TocOf(root, internalPath).children[i] == NodeOf(points[i])
  {
  }

  /**
    Each `dtb:*` field of a parsed NCX holds the content of the last
    `head/meta` carrying its name, and is None when no meta carries it.
  */
  lemma TocDtbField(root: Node, internalPath: Option<string>, name: string)
    requires name in {DTB_UID, DTB_DEPTH, DTB_TOTALPAGECOUNT, DTB_MAXPAGENUMBER, DTB_GENERATOR}
    ensures DtbField(TocOf(root, internalPath), name) ==
              match LastMatch(Path2(root, E_HEAD, E_META), (m: Node) => Named(m, name))
              case Some(m) => Attr(m, "content")
              case None => None
  {
    var metas := Path2(root, E_HEAD, E_META);
    LastMetaWins(BaseOf(root, internalPath), metas, name);
    var applied := ApplyMetas(BaseOf(root, internalPath), metas);
    assert DtbField(TocOf(root, internalPath), name) == DtbField(applied, name);
  }
}
