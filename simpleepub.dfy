/**
  The simplified interface for a publication with one rendition: a
  publication read with media overlays off unless told otherwise, whose
  queries go to the default rendition, and whose resolved table of
  contents and landmarks have every reference rewritten relative to the
  container root.
*/
module SimpleEpub {
  import opened Wrappers
  import opened Util
  import opened Xml
  import opened Paths
  import Nav
  import Ncx
  import opened Renditions
  import Publications
  import Obfuscation
  import OpfEntities
  import OpfPacDocument
  import OpfSpine

  const DC_IDENTIFIER := Q(NS_DC, "identifier")
  const DC_TITLE := Q(NS_DC, "title")
  const DC_LANGUAGE := Q(NS_DC, "language")
  const DC_CREATOR := Q(NS_DC, "creator")
  const DC_DATE := Q(NS_DC, "date")
  const DC_DESCRIPTION := Q(NS_DC, "description")
  const DC_PUBLISHER := Q(NS_DC, "publisher")
  const DC_RIGHTS := Q(NS_DC, "rights")
  const DC_SOURCE := Q(NS_DC, "source")
  const DC_SUBJECT := Q(NS_DC, "subject")
  const DC_TYPE := Q(NS_DC, "type")

  // ---------------------------------------------------------------------
  // Parsing options
  // ---------------------------------------------------------------------

  /** The options the publication is read with: media overlays off when none are given. */
  function DefaultOptions(parsingOptions: Option<seq<string>>): seq<string>
  {
    if parsingOptions.None? then [Publications.NO_MEDIA_OVERLAY] else parsingOptions.value
  }

  /** By default every optional step of the parse runs except the media overlays. */
  lemma DefaultOptionsSkipMediaOverlays()
    ensures var o := DefaultOptions(None);
            !Publications.Enabled(o, Publications.MEDIA_OVERLAY, Publications.NO_MEDIA_OVERLAY) &&
            Publications.Enabled(o, Publications.NAV, Publications.NO_NAV) &&
            Publications.Enabled(o, Publications.NCX, Publications.NO_NCX) &&
            Publications.Enabled(o, Publications.ENCRYPTION, Publications.NO_ENCRYPTION) &&
            Publications.Enabled(o, Publications.MULTIPLE_RENDITIONS, Publications.NO_MULTIPLE_RENDITIONS) &&
            Publications.Enabled(o, Publications.ASSET_REFS, Publications.NO_ASSET_REFS)
  {
  }

  // ---------------------------------------------------------------------
  // Resolving references (`_resolve_reference`)
  // ---------------------------------------------------------------------

  /** One reference: a present one is resolved against the directory of `base`; an absent one stays absent. */
  function ResolveRef(base: Option<string>, ref: Option<string>): Option<string>
  {
    if ref.None? then None else NormJoinParent(base, ref)
  }

  /** Every reference of `refs`, in order. */
  function ResolveRefs(base: Option<string>, refs: seq<Option<string>>): (r: seq<Option<string>>)
    ensures |r| == |refs| && forall i :: 0 <= i < |refs| ==> r[i] == ResolveRef(base, refs[i])
  {
    seq(|refs|, i requires 0 <= i < |refs| => ResolveRef(base, refs[i]))
  }

  lemma ResolveRefsAppend(base: Option<string>, a: seq<Option<string>>, b: seq<Option<string>>)
    ensures ResolveRefs(base, a + b) == ResolveRefs(base, a) + ResolveRefs(base, b)
  {
  }

  /** A navigation entry and all the entries under it, with their `href` resolved. */
  function ResolveNavNode(base: Option<string>, n: Nav.NavNode): Nav.NavNode
    decreases n, 1
  {
    n.(href := ResolveRef(base, n.href), children := ResolveNavNodes(base, n.children))
  }

  function ResolveNavNodes(base: Option<string>, ns: seq<Nav.NavNode>): (r: seq<Nav.NavNode>)
    decreases ns, 0
    ensures |r| == |ns| && forall i :: 0 <= i < |ns| ==> r[i] == ResolveNavNode(base, ns[i])
  {
    if ns == [] then [] else [ResolveNavNode(base, ns[0])] + ResolveNavNodes(base, ns[1..])
  }

  /** The `href` of every entry of a tree, in document order: an entry before the entries under it. */
  function NavHrefs(n: Nav.NavNode): seq<Option<string>>
    decreases n, 1
  {
    [n.href] + NavHrefsOf(n.children)
  }

  function NavHrefsOf(ns: seq<Nav.NavNode>): seq<Option<string>>
    decreases ns, 0
  {
    if ns == [] then [] else NavHrefs(ns[0]) + NavHrefsOf(ns[1..])
  }

  /** A tree with every `href` erased: everything but the references. */
  function NavShape(n: Nav.NavNode): Nav.NavNode
    decreases n, 1
  {
    n.(href := None, children := NavShapes(n.children))
  }

  function NavShapes(ns: seq<Nav.NavNode>): seq<Nav.NavNode>
    decreases ns, 0
  {
    if ns == [] then [] else [NavShape(ns[0])] + NavShapes(ns[1..])
  }

  /**
    Resolution rewrites every `href` of the tree, each on its own, and
    nothing else: the shape, labels, ids and types stay.
  */
  lemma {:induction false} ResolveNavNodeFacts(base: Option<string>, n: Nav.NavNode)
    ensures NavHrefs(ResolveNavNode(base, n)) == ResolveRefs(base, NavHrefs(n))
    ensures NavShape(ResolveNavNode(base, n)) == NavShape(n)
    decreases n, 1
  {
    ResolveNavNodesFacts(base, n.children);
    ResolveRefsAppend(base, [n.href], NavHrefsOf(n.children));
  }

  lemma {:induction false} ResolveNavNodesFacts(base: Option<string>, ns: seq<Nav.NavNode>)
    ensures NavHrefsOf(ResolveNavNodes(base, ns)) == ResolveRefs(base, NavHrefsOf(ns))
    ensures NavShapes(ResolveNavNodes(base, ns)) == NavShapes(ns)
    decreases ns, 0
  {
    if ns != [] {
      var r := ResolveNavNodes(base, ns);
      assert r[0] == ResolveNavNode(base, ns[0]) && r[1..] == ResolveNavNodes(base, ns[1..]);
      ResolveNavNodeFacts(base, ns[0]);
      ResolveNavNodesFacts(base, ns[1..]);
      ResolveRefsAppend(base, NavHrefs(ns[0]), NavHrefsOf(ns[1..]));
    }
  }

  /** An NCX point and all the points under it, with their `src` resolved. */
  function ResolveNcxNode(base: Option<string>, n: Ncx.NCXTocNode): Ncx.NCXTocNode
    decreases n, 1
  {
    n.(src := ResolveRef(base, n.src), children := ResolveNcxNodes(base, n.children))
  }

  function ResolveNcxNodes(base: Option<string>, ns: seq<Ncx.NCXTocNode>): (r: seq<Ncx.NCXTocNode>)
    decreases ns, 0
    ensures |r| == |ns| && forall i :: 0 <= i < |ns| ==> r[i] == ResolveNcxNode(base, ns[i])
  {
    if ns == [] then [] else [ResolveNcxNode(base, ns[0])] + ResolveNcxNodes(base, ns[1..])
  }

  /** The `src` of every point of a tree, in document order. */
  function NcxSrcs(n: Ncx.NCXTocNode): seq<Option<string>>
    decreases n, 1
  {
    [n.src] + NcxSrcsOf(n.children)
  }

  function NcxSrcsOf(ns: seq<Ncx.NCXTocNode>): seq<Option<string>>
    decreases ns, 0
  {
    if ns == [] then [] else NcxSrcs(ns[0]) + NcxSrcsOf(ns[1..])
  }

  /** A tree with every `src` erased. */
  function NcxShape(n: Ncx.NCXTocNode): Ncx.NCXTocNode
    decreases n, 1
  {
    n.(src := None, children := NcxShapes(n.children))
  }

  function NcxShapes(ns: seq<Ncx.NCXTocNode>): seq<Ncx.NCXTocNode>
    decreases ns, 0
  {
    if ns == [] then [] else [NcxShape(ns[0])] + NcxShapes(ns[1..])
  }

  /** Resolution rewrites every `src` of the tree, each on its own, and nothing else. */
  lemma {:induction false} ResolveNcxNodeFacts(base: Option<string>, n: Ncx.NCXTocNode)
    ensures NcxSrcs(ResolveNcxNode(base, n)) == ResolveRefs(base, NcxSrcs(n))
    ensures NcxShape(ResolveNcxNode(base, n)) == NcxShape(n)
    decreases n, 1
  {
    ResolveNcxNodesFacts(base, n.children);
    ResolveRefsAppend(base, [n.src], NcxSrcsOf(n.children));
  }

  lemma {:induction false} ResolveNcxNodesFacts(base: Option<string>, ns: seq<Ncx.NCXTocNode>)
    ensures NcxSrcsOf(ResolveNcxNodes(base, ns)) == ResolveRefs(base, NcxSrcsOf(ns))
    ensures NcxShapes(ResolveNcxNodes(base, ns)) == NcxShapes(ns)
    decreases ns, 0
  {
    if ns != [] {
      var r := ResolveNcxNodes(base, ns);
      assert r[0] == ResolveNcxNode(base, ns[0]) && r[1..] == ResolveNcxNodes(base, ns[1..]);
      ResolveNcxNodeFacts(base, ns[0]);
      ResolveNcxNodesFacts(base, ns[1..]);
      ResolveRefsAppend(base, NcxSrcs(ns[0]), NcxSrcsOf(ns[1..]));
    }
  }

  /** The loop of `resolved_toc` over the top-level entries of a `<nav>`. */
  method ResolveNavChildren(base: Option<string>, nodes: seq<Nav.NavNode>) returns (r: seq<Nav.NavNode>)
    ensures r == ResolveNavNodes(base, nodes)
  {
    r := nodes;
    var i := 0;
    while i < |nodes|
      invariant 0 <= i <= |nodes| && |r| == |nodes|
      invariant forall j :: 0 <= j < i ==> r[j] == ResolveNavNode(base, nodes[j])
      invariant forall j :: i <= j < |nodes| ==> r[j] == nodes[j]
    {
      r := r[i := ResolveNavNode(base, nodes[i])];
      i := i + 1;
    }
  }

  /** The loop of `resolved_toc` over the top-level points of an NCX. */
  method ResolveNcxChildren(base: Option<string>, nodes: seq<Ncx.NCXTocNode>) returns (r: seq<Ncx.NCXTocNode>)
    ensures r == ResolveNcxNodes(base, nodes)
  {
    r := nodes;
    var i := 0;
    while i < |nodes|
      invariant 0 <= i <= |nodes| && |r| == |nodes|
      invariant forall j :: 0 <= j < i ==> r[j] == ResolveNcxNode(base, nodes[j])
      invariant forall j :: i <= j < |nodes| ==> r[j] == nodes[j]
    {
      r := r[i := ResolveNcxNode(base, nodes[i])];
      i := i + 1;
    }
  }

  // ---------------------------------------------------------------------
  // Resolved tables of contents
  // ---------------------------------------------------------------------

  /** A `<nav>` whose entries are resolved against the document holding it. */
  function ResolveNavElement(nav: Nav.NavElement): Nav.NavElement
  {
    nav.(children := ResolveNavNodes(nav.internalPath, nav.children))
  }

  /** An NCX whose points are resolved against the NCX document. */
  function ResolveNcxToc(toc: Ncx.NCXToc): Ncx.NCXToc
  {
    toc.(children := ResolveNcxNodes(toc.internalPath, toc.children))
  }

  /** A table of contents with every reference resolved against its own document. */
  function ResolveToc(t: Toc): Toc
  {
    match t
    case NavToc(nav) => NavToc(ResolveNavElement(nav))
    case NcxToc(ncx) => NcxToc(ResolveNcxToc(ncx))
  }

  /** The path references of a table of contents are resolved against. */
  function TocBase(t: Toc): Option<string>
  {
    if t.NavToc? then t.nav.internalPath else t.ncx.internalPath
  }

  /** Every reference of a table of contents, in document order. */
  function TocRefs(t: Toc): seq<Option<string>>
  {
    if t.NavToc? then NavHrefsOf(t.nav.children) else NcxSrcsOf(t.ncx.children)
  }

  /** A table of contents with its references erased. */
  function TocShape(t: Toc): Toc
  {
    match t
    case NavToc(nav) => NavToc(nav.(children := NavShapes(nav.children)))
    case NcxToc(ncx) => NcxToc(ncx.(children := NcxShapes(ncx.children)))
  }

  /**
    Resolving a table of contents resolves each of its references against
    its own document, in order, and changes nothing else.
  */
  lemma ResolveTocFacts(t: Toc)
    ensures TocRefs(ResolveToc(t)) == ResolveRefs(TocBase(t), TocRefs(t))
    ensures TocShape(ResolveToc(t)) == TocShape(t)
    ensures TocBase(ResolveToc(t)) == TocBase(t)
  {
    if t.NavToc? {
      ResolveNavNodesFacts(t.nav.internalPath, t.nav.children);
    } else {
      ResolveNcxNodesFacts(t.ncx.internalPath, t.ncx.children);
    }
  }

  /** A document at the container root resolves a reference to its normal form, so twice is once. */
  lemma ResolveRefAtRoot(b: string, ref: Option<string>)
    requires '/' !in b
    ensures ResolveRef(Some(b), ResolveRef(Some(b), ref)) == ResolveRef(Some(b), ref)
  {
    if ref.Some? {
      NormJoinParentAtRoot(b, ref.value);
      NormJoinParentAtRoot(b, NormPath(ref.value));
      NormPathIdempotent(ref.value);
    }
  }

  lemma {:induction false} ResolveNavNodeAtRoot(b: string, n: Nav.NavNode)
    requires '/' !in b
    ensures ResolveNavNode(Some(b), ResolveNavNode(Some(b), n)) == ResolveNavNode(Some(b), n)
    decreases n, 1
  {
    ResolveRefAtRoot(b, n.href);
    ResolveNavNodesAtRoot(b, n.children);
  }

  lemma {:induction false} ResolveNavNodesAtRoot(b: string, ns: seq<Nav.NavNode>)
    requires '/' !in b
    ensures ResolveNavNodes(Some(b), ResolveNavNodes(Some(b), ns)) == ResolveNavNodes(Some(b), ns)
    decreases ns, 0
  {
    forall i | 0 <= i < |ns|
      ensures ResolveNavNode(Some(b), ResolveNavNode(Some(b), ns[i])) == ResolveNavNode(Some(b), ns[i])
    {
      ResolveNavNodeAtRoot(b, ns[i]);
    }
  }

  lemma {:induction false} ResolveNcxNodeAtRoot(b: string, n: Ncx.NCXTocNode)
    requires '/' !in b
    ensures ResolveNcxNode(Some(b), ResolveNcxNode(Some(b), n)) == ResolveNcxNode(Some(b), n)
    decreases n, 1
  {
    ResolveRefAtRoot(b, n.src);
    ResolveNcxNodesAtRoot(b, n.children);
  }

  lemma {:induction false} ResolveNcxNodesAtRoot(b: string, ns: seq<Ncx.NCXTocNode>)
    requires '/' !in b
    ensures ResolveNcxNodes(Some(b), ResolveNcxNodes(Some(b), ns)) == ResolveNcxNodes(Some(b), ns)
    decreases ns, 0
  {
    forall i | 0 <= i < |ns|
      ensures ResolveNcxNode(Some(b), ResolveNcxNode(Some(b), ns[i])) == ResolveNcxNode(Some(b), ns[i])
    {
      ResolveNcxNodeAtRoot(b, ns[i]);
    }
  }

  /** When the table of contents sits at the container root, resolving it twice is resolving it once. */
  lemma ResolveTocAtRoot(t: Toc)
    requires TocBase(t).Some? && '/' !in TocBase(t).value
    ensures ResolveToc(ResolveToc(t)) == ResolveToc(t)
  {
    if t.NavToc? {
      ResolveNavNodesAtRoot(t.nav.internalPath.value, t.nav.children);
    } else {
      ResolveNcxNodesAtRoot(t.ncx.internalPath.value, t.ncx.children);
    }
  }

  /** Segments joined by `/` form a path normpath leaves alone. */
  lemma NormalSegments(cs: seq<string>)
    requires cs != [] && forall i :: 0 <= i < |cs| ==> Segment(cs[i])
    ensures NormPath(JoinWith(cs, '/')) == JoinWith(cs, '/')
  {
    assert Normal(cs, 0);
    JoinWithHead(cs);
    assert Slashes(0) + JoinWith(cs, '/') == JoinWith(cs, '/');
    NormPathOfNormal(0, cs);
  }

  /** A plain reference from a document in the directory `dir` lands in `dir`. */
  lemma ResolveInDirectory(dir: string, file: string, q: string)
    requires Segment(dir) && '/' !in file && q != "" && q[0] != '/'
    ensures ResolveRef(Some(dir + "/" + file), Some(q)) == Some(NormPath(dir + "/" + q))
  {
    assert dir[|dir| - 1] in dir;
    assert !StartsWith(q, "/") by { assert q[..1][0] == q[0]; }
    NormJoinParentSibling(dir, file, q);
  }

  /** Two segments joined by `/`. */
  lemma JoinPair(a: string, b: string)
    ensures JoinWith([a, b], '/') == a + "/" + b
  {
    assert [a, b][1..] == [b];
  }

  /** A segment `q` referenced from `dir/file` resolves to `dir/q`. */
  lemma ResolveSegmentOnce(dir: string, file: string, q: string)
    requires Segment(dir) && '/' !in file && Segment(q)
    ensures ResolveRef(Some(dir + "/" + file), Some(q)) == Some(dir + "/" + q)
  {
    JoinPair(dir, q);
    NormalSegments([dir, q]);
    ResolveInDirectory(dir, file, q);
  }

  /** The path `dir/q` referenced from `dir/file` resolves to `dir/dir/q`. */
  lemma ResolveSegmentTwice(dir: string, file: string, q: string)
    requires Segment(dir) && '/' !in file && Segment(q)
    ensures ResolveRef(Some(dir + "/" + file), Some(dir + "/" + q)) == Some(dir + "/" + dir + "/" + q)
  {
    var once := dir + "/" + q;
    JoinPair(dir, q);
    assert JoinWith([dir, dir, q], '/') == dir + "/" + once by {
      assert [dir, dir, q][1..] == [dir, q];
    }
    NormalSegments([dir, dir, q]);
    assert once[0] == dir[0];
    ResolveInDirectory(dir, file, once);
    assert dir + "/" + once == dir + "/" + dir + "/" + q;
  }

  /**
    Below the container root it is not: a plain reference `q` from a
    document in the directory `dir` resolves to `dir/q`, and resolving
    that again gives `dir/dir/q`, a different path.
  */
  lemma ResolveRefTwiceBelowRoot(dir: string, file: string, q: string)
    requires Segment(dir) && '/' !in file && Segment(q)
    ensures ResolveRef(Some(dir + "/" + file), Some(q)) == Some(dir + "/" + q)
    ensures ResolveRef(Some(dir + "/" + file), Some(dir + "/" + q)) == Some(dir + "/" + dir + "/" + q)
    ensures dir + "/" + dir + "/" + q != dir + "/" + q
  {
    ResolveSegmentOnce(dir, file, q);
    ResolveSegmentTwice(dir, file, q);
    assert |dir + "/" + dir + "/" + q| > |dir + "/" + q|;
  }

  /** A one-entry table of contents in `dir/file` pointing at `q`. */
  function SubdirectoryToc(dir: string, file: string, q: string): Toc
  {
    NavToc(Nav.NavElement(Some(dir + "/" + file), Some(Nav.V_NAV_TOC), None, None,
                          [Nav.NavNode(None, Some(q), None, None, [])]))
  }

  /** Resolving that table of contents a second time moves its entry to a path that was never referenced. */
  lemma ResolveTocTwiceBelowRoot(dir: string, file: string, q: string)
    requires Segment(dir) && '/' !in file && Segment(q)
    ensures TocRefs(ResolveToc(SubdirectoryToc(dir, file, q))) == [Some(dir + "/" + q)]
    ensures TocRefs(ResolveToc(ResolveToc(SubdirectoryToc(dir, file, q)))) == [Some(dir + "/" + dir + "/" + q)]
    ensures ResolveToc(ResolveToc(SubdirectoryToc(dir, file, q))) != ResolveToc(SubdirectoryToc(dir, file, q))
  {
    ResolveRefTwiceBelowRoot(dir, file, q);
    var t := SubdirectoryToc(dir, file, q);
    ResolveTocFacts(t);
    ResolveTocFacts(ResolveToc(t));
    var node := t.nav.children[0];
    assert NavHrefs(node) == [Some(q)] by {
      assert NavHrefsOf(node.children) == [];
    }
    assert t.nav.children[1..] == [];
    assert TocRefs(t) == NavHrefs(node) + [];
  }

  // ---------------------------------------------------------------------
  // Resolving one `<nav>` of a Navigation Document in place
  // ---------------------------------------------------------------------

  /** The position of the first `<nav>` of epub:type `t`, or -1. */
  function NavIndex(doc: Nav.NavDocument, t: string): (k: int)
    ensures -1 <= k < |doc.navs|
    ensures k == -1 <==> forall i :: 0 <= i < |doc.navs| ==> doc.navs[i].epubType != Some(t)
    ensures k >= 0 ==> doc.navs[k].epubType == Some(t) && forall j :: 0 <= j < k ==> doc.navs[j].epubType != Some(t)
  {
    IndexWhere(doc.navs, (e: Nav.NavElement) => e.epubType == Some(t))
  }

  /** The document whose first `<nav>` of epub:type `t` has its entries resolved; the same document without one. */
  function ResolveNavOfType(doc: Nav.NavDocument, t: string): Nav.NavDocument
  {
    var k := NavIndex(doc, t);
    if k < 0 then doc else doc.(navs := doc.navs[k := ResolveNavElement(doc.navs[k])])
  }

  /** The lookup by epub:type finds the `<nav>` at the first position of that type. */
  lemma NavByEpubTypeAt(doc: Nav.NavDocument, t: Option<string>, k: nat)
    requires k < |doc.navs| && doc.navs[k].epubType == t
    requires forall j :: 0 <= j < k ==> doc.navs[j].epubType != t
    ensures Nav.NavByEpubType(doc, t) == Some(doc.navs[k])
  {
    var r := Nav.NavByEpubType(doc, t);
    var k' :| 0 <= k' < |doc.navs| && doc.navs[k'] == r.value && r.value.epubType == t &&
              forall j :: 0 <= j < k' ==> doc.navs[j].epubType != t;
    assert k' == k;
  }

  /**
    After resolving the first `<nav>` of epub:type `t`, looking that type
    up gives the resolved `<nav>`, and looking up any other type gives
    what it gave before.
  */
  lemma ResolveNavOfTypeFacts(doc: Nav.NavDocument, t: string, other: Option<string>)
    ensures var n := Nav.NavByEpubType(doc, Some(t));
            Nav.NavByEpubType(ResolveNavOfType(doc, t), Some(t)) ==
              if n.Some? then Some(ResolveNavElement(n.value)) else None
    ensures other != Some(t) ==>
              Nav.NavByEpubType(ResolveNavOfType(doc, t), other) == Nav.NavByEpubType(doc, other)
    ensures ResolveNavOfType(doc, t).internalPath == doc.internalPath
    ensures |ResolveNavOfType(doc, t).navs| == |doc.navs|
  {
    ResolveNavOfTypeKeepsTypes(doc, t);
    ResolveNavOfTypeFound(doc, t);
    if other != Some(t) {
      ResolveNavOfTypeOther(doc, t, other);
    }
  }

  /** Resolving keeps the document's path, its number of `<nav>`s and the type of each. */
  lemma ResolveNavOfTypeKeepsTypes(doc: Nav.NavDocument, t: string)
    ensures var doc' := ResolveNavOfType(doc, t);
            doc'.internalPath == doc.internalPath && |doc'.navs| == |doc.navs| &&
            forall i :: 0 <= i < |doc.navs| ==> doc'.navs[i].epubType == doc.navs[i].epubType
  {
  }

  /** Looking up `t` after resolving gives the resolved `<nav>`. */
  lemma ResolveNavOfTypeFound(doc: Nav.NavDocument, t: string)
    ensures var n := Nav.NavByEpubType(doc, Some(t));
            Nav.NavByEpubType(ResolveNavOfType(doc, t), Some(t)) ==
              if n.Some? then Some(ResolveNavElement(n.value)) else None
  {
    var k := NavIndex(doc, t);
    if k >= 0 {
      var doc' := ResolveNavOfType(doc, t);
      ResolveNavOfTypeKeepsTypes(doc, t);
      NavByEpubTypeAt(doc, Some(t), k);
      NavByEpubTypeAt(doc', Some(t), k);
    }
  }

  /** Looking up another type after resolving gives what it gave before. */
  lemma ResolveNavOfTypeOther(doc: Nav.NavDocument, t: string, other: Option<string>)
    requires other != Some(t)
    ensures Nav.NavByEpubType(ResolveNavOfType(doc, t), other) == Nav.NavByEpubType(doc, other)
  {
    var doc' := ResolveNavOfType(doc, t);
    ResolveNavOfTypeKeepsTypes(doc, t);
    var r := Nav.NavByEpubType(doc, other);
    if r.Some? {
      var k' :| 0 <= k' < |doc.navs| && doc.navs[k'] == r.value && r.value.epubType == other &&
                forall j :: 0 <= j < k' ==> doc.navs[j].epubType != other;
      NavByEpubTypeAt(doc', other, k');
      if NavIndex(doc, t) >= 0 {
        assert doc'.navs[k'] == doc.navs[k'];
      }
    }
  }

  // ---------------------------------------------------------------------
  // `get_dc_metadatum`
  // ---------------------------------------------------------------------

  /** What `get_dc_metadatum` returns: the entries, the first text, or the non-empty texts. */
  datatype DcValue = Entries(entries: seq<OpfEntities.OPFMetadatum>) | First(text: Option<string>) | Texts(texts: seq<string>)

  /** The text of the first entry, which may be absent or empty; None without entries. */
  function FirstText(entries: seq<OpfEntities.OPFMetadatum>): Option<string>
  {
    if entries == [] then None else entries[0].entry.text
  }

  /** The texts of `entries` that are present and not empty, in order. */
  function NonEmptyTexts(entries: seq<OpfEntities.OPFMetadatum>): (r: seq<string>)
    ensures |r| <= |entries|
  {
    if entries == [] then []
    else
      var t := entries[|entries| - 1].entry.text;
      NonEmptyTexts(entries[..|entries| - 1]) + (if t.Some? && |t.value| > 0 then [t.value] else [])
  }

  /**
    The list holds exactly the present, non-empty texts: every element is
    one, every one is an element.
  */
  lemma {:induction false} NonEmptyTextsMembers(entries: seq<OpfEntities.OPFMetadatum>)
    ensures forall s :: s in NonEmptyTexts(entries) ==>
              s != "" && exists i :: 0 <= i < |entries| && entries[i].entry.text == Some(s)
    ensures forall i :: 0 <= i < |entries| && entries[i].entry.text.Some? && entries[i].entry.text.value != "" ==>
              entries[i].entry.text.value in NonEmptyTexts(entries)
    decreases |entries|
  {
    if entries != [] {
      var init := entries[..|entries| - 1];
      NonEmptyTextsMembers(init);
      assert forall i :: 0 <= i < |init| ==> init[i] == entries[i];
    }
  }

  /** When the first entry has a non-empty text, the list of texts starts with it: the two forms agree. */
  lemma {:induction false} NonEmptyTextsHead(entries: seq<OpfEntities.OPFMetadatum>)
    requires FirstText(entries).Some? && FirstText(entries).value != ""
    ensures NonEmptyTexts(entries) != [] && NonEmptyTexts(entries)[0] == FirstText(entries).value
    decreases |entries|
  {
    if |entries| > 1 {
      var init := entries[..|entries| - 1];
      assert init[0] == entries[0];
      NonEmptyTextsHead(init);
    }
  }

  /** The accumulator loop of `get_dc_metadatum`. */
  method CollectTexts(entries: seq<OpfEntities.OPFMetadatum>) returns (acc: seq<string>)
    ensures acc == NonEmptyTexts(entries)
  {
    acc := [];
    var i := 0;
    while i < |entries|
      invariant 0 <= i <= |entries|
      invariant acc == NonEmptyTexts(entries[..i])
    {
      assert entries[..i + 1][..i] == entries[..i];
      var text := entries[i].entry.text;
      if text.Some? && |text.value| > 0 {
        acc := acc + [text.value];
      }
      i := i + 1;
    }
    assert entries[..i] == entries;
  }

  // ---------------------------------------------------------------------
  // The simplified publication
  // ---------------------------------------------------------------------

  class SimpleEPUB {
    const ebook: Publications.Publication

    /**
      A publication with the given options, media overlays off when none
      are given. Reading it is `ebook.Parse()`.
    */
    constructor (path: Option<string>, files: map<string, Publications.FileEntry>, parsingOptions: Option<seq<string>>)
      ensures fresh(ebook) && ebook.path == path && ebook.files == files
      ensures ebook.parsingOptions == DefaultOptions(parsingOptions) && ebook.Empty()
    {
      ebook := new Publications.Publication(path, files, Some(DefaultOptions(parsingOptions)));
    }

    /** The objects the default rendition's metadata queries read. */
    function MetadataFrame(): set<object>
      reads this, ebook, ebook.container, ebook.container.renditions
    {
      var p := ebook.DefaultPackage();
      if p == null then {} else {p.metadata}
    }

    /** `toc`: the default rendition's table of contents; raises without a rendition. */
    function Toc(): (r: Result<Option<Toc>>)
      reads this, ebook, ebook.container, ebook.container.renditions
      ensures r.Fail? <==> ebook.container.renditions == []
      ensures r.Ok? ==> r.value == ebook.container.renditions[0].Toc()
    {
      var d := ebook.container.DefaultRendition();
      if d == null then Fail(NoneAccess) else Ok(d.Toc())
    }

    /** `landmarks`: the default rendition's landmarks `<nav>`; raises without a rendition. */
    function Landmarks(): (r: Result<Option<Nav.NavElement>>)
      reads this, ebook, ebook.container, ebook.container.renditions
      ensures r.Fail? <==> ebook.container.renditions == []
      ensures r.Ok? ==> r.value == ebook.container.renditions[0].Landmarks()
    {
      var d := ebook.container.DefaultRendition();
      if d == null then Fail(NoneAccess) else Ok(d.Landmarks())
    }

    /**
      `resolved_toc`: the table of contents with every reference resolved
      against its document. The entries are rewritten where they are
      stored, in the default rendition, so the table of contents is the
      resolved one afterwards and a second call resolves it again.
    */
    method ResolvedToc() returns (r: Result<Option<Toc>>)
      modifies if ebook.container.renditions != [] then {ebook.container.renditions[0]} else {}
      ensures r.Fail? <==> ebook.container.renditions == []
      ensures r.Ok? ==>
                var d := ebook.container.renditions[0];
                var toc := old(d.Toc());
                r.value == (if toc.Some? then Some(ResolveToc(toc.value)) else None) &&
                d.navDocument == (if old(d.navDocument).Some?
                                  then Some(ResolveNavOfType(old(d.navDocument).value, Nav.V_NAV_TOC)) else None) &&
                d.ncxToc == (if old(d.navDocument).None? && old(d.ncxToc).Some?
                             then Some(ResolveNcxToc(old(d.ncxToc).value)) else old(d.ncxToc)) &&
                d.moDocuments == old(d.moDocuments) && d.pacDocument == old(d.pacDocument)
      ensures r.Ok? ==> ebook.container.renditions[0].Toc() == r.value &&
                        ebook.container.renditions[0].Landmarks() == old(ebook.container.renditions[0].Landmarks())
    {
      var d := ebook.container.DefaultRendition();
      if d == null {
        return Fail(NoneAccess);
      }
      var toc := d.Toc();
      if toc.None? {
        return Ok(None);
      }
      if d.navDocument.Some? {
        var doc := d.navDocument.value;
        var k := NavIndex(doc, Nav.V_NAV_TOC);
        NavByEpubTypeAt(doc, Some(Nav.V_NAV_TOC), k);
        ResolveNavOfTypeFacts(doc, Nav.V_NAV_TOC, Some(Nav.V_NAV_LANDMARKS));
        var nav := doc.navs[k];
        var children := ResolveNavChildren(nav.internalPath, nav.children);
        d.navDocument := Some(doc.(navs := doc.navs[k := nav.(children := children)]));
        r := Ok(Some(NavToc(nav.(children := children))));
      } else {
        var ncx := d.ncxToc.value;
        var children := ResolveNcxChildren(ncx.internalPath, ncx.children);
        d.ncxToc := Some(ncx.(children := children));
        r := Ok(Some(NcxToc(ncx.(children := children))));
      }
    }

    /**
      `resolved_landmarks`: the landmarks `<nav>` with every reference
      resolved, rewritten where it is stored as for the table of contents.
    */
    method ResolvedLandmarks() returns (r: Result<Option<Nav.NavElement>>)
      modifies if ebook.container.renditions != [] then {ebook.container.renditions[0]} else {}
      ensures r.Fail? <==> ebook.container.renditions == []
      ensures r.Ok? ==>
                var d := ebook.container.renditions[0];
                var landmarks := old(d.Landmarks());
                r.value == (if landmarks.Some? then Some(ResolveNavElement(landmarks.value)) else None) &&
                d.navDocument == (if old(d.navDocument).Some?
                                  then Some(ResolveNavOfType(old(d.navDocument).value, Nav.V_NAV_LANDMARKS)) else None) &&
                d.ncxToc == old(d.ncxToc) && d.moDocuments == old(d.moDocuments) && d.pacDocument == old(d.pacDocument)
      ensures r.Ok? ==> ebook.container.renditions[0].Landmarks() == r.value
    {
      var d := ebook.container.DefaultRendition();
      if d == null {
        return Fail(NoneAccess);
      }
      var landmarks := d.Landmarks();
      if landmarks.None? {
        return Ok(None);
      }
      var doc := d.navDocument.value;
      var k := NavIndex(doc, Nav.V_NAV_LANDMARKS);
      NavByEpubTypeAt(doc, Some(Nav.V_NAV_LANDMARKS), k);
      ResolveNavOfTypeFacts(doc, Nav.V_NAV_LANDMARKS, None);
      var nav := doc.navs[k];
      var children := ResolveNavChildren(nav.internalPath, nav.children);
      d.navDocument := Some(doc.(navs := doc.navs[k := nav.(children := children)]));
      r := Ok(Some(nav.(children := children)));
    }

    /**
      The resolved table of contents as a copy: every reference of the
      default rendition's table of contents resolved against its document,
      in order, with nothing else changed and nothing stored.
    */
    function ResolvedTocCopy(): (r: Result<Option<Toc>>)
      reads this, ebook, ebook.container, ebook.container.renditions
      ensures r.Fail? <==> ebook.container.renditions == []
      ensures r.Ok? ==> (r.value.None? <==> ebook.container.renditions[0].Toc().None?)
      ensures r.Ok? && r.value.Some? ==>
                var toc := ebook.container.renditions[0].Toc().value;
                TocRefs(r.value.value) == ResolveRefs(TocBase(toc), TocRefs(toc)) &&
                TocShape(r.value.value) == TocShape(toc) && TocBase(r.value.value) == TocBase(toc)
    {
      var d := ebook.container.DefaultRendition();
      if d == null then Fail(NoneAccess)
      else
        var toc := d.Toc();
        if toc.None? then Ok(None)
        else
          ResolveTocFacts(toc.value);
          Ok(Some(ResolveToc(toc.value)))
    }

    /**
      `get_dc_metadatum`: the default rendition's metadata with that tag;
      as strings, the first one's text, or every present non-empty text.
      It raises when the default rendition has no package document.
    */
    method GetDcMetadatum(tag: string, onlyFirst: bool, asString: bool) returns (r: Result<DcValue>)
      ensures r.Fail? <==> ebook.DefaultPackage() == null
      ensures r.Ok? && !asString ==> r.value == Entries(ebook.DefaultPackage().metadata.MetadataByTag(tag))
      ensures r.Ok? && asString && onlyFirst ==>
                r.value.First? &&
                r.value.text == FirstText(ebook.DefaultPackage().metadata.MetadataByTag(tag)) &&
                (r.value.text.Some? ==> exists x :: x in ebook.DefaultPackage().metadata.metadata &&
                                                    x.entry.tag == tag && x.entry.text == r.value.text) &&
                ((forall x :: x in ebook.DefaultPackage().metadata.metadata ==> x.entry.tag != tag) ==> r.value.text.None?)
      ensures r.Ok? && asString && !onlyFirst ==>
                r.value == Texts(NonEmptyTexts(ebook.DefaultPackage().metadata.MetadataByTag(tag)))
    {
      var p := ebook.DefaultPackage();
      if p == null {
        return Fail(NoneAccess);
      }
      var titles := p.metadata.MetadataByTag(tag);
      if !asString {
        return Ok(Entries(titles));
      }
      if |titles| > 0 {
        if onlyFirst {
          r := Ok(First(titles[0].entry.text));
        } else {
          var acc := CollectTexts(titles);
          r := Ok(Texts(acc));
        }
      } else {
        if onlyFirst {
          r := Ok(First(None));
        } else {
          r := Ok(Texts([]));
        }
      }
    }

    /** The first text of the metadata with that tag, as `get_dc_metadatum` gives it. */
    function FirstDc(tag: string): (r: Result<Option<string>>)
      reads this, ebook, ebook.container, ebook.container.renditions, MetadataFrame()
      ensures r.Fail? <==> ebook.DefaultPackage() == null
      ensures r.Ok? ==> r.value == FirstText(ebook.DefaultPackage().metadata.MetadataByTag(tag))
    {
      var p := ebook.DefaultPackage();
      if p == null then Fail(NoneAccess) else Ok(FirstText(p.metadata.MetadataByTag(tag)))
    }

    function Identifier(): Result<Option<string>>
      reads this, ebook, ebook.container, ebook.container.renditions, MetadataFrame()
    {
      FirstDc(DC_IDENTIFIER)
    }

    function Title(): Result<Option<string>>
      reads this, ebook, ebook.container, ebook.container.renditions, MetadataFrame()
    {
      FirstDc(DC_TITLE)
    }

    function Language(): Result<Option<string>>
      reads this, ebook, ebook.container, ebook.container.renditions, MetadataFrame()
    {
      FirstDc(DC_LANGUAGE)
    }

    /** `author`: the first `dc:creator`. */
    function Author(): Result<Option<string>>
      reads this, ebook, ebook.container, ebook.container.renditions, MetadataFrame()
    {
      FirstDc(DC_CREATOR)
    }

    function Date(): Result<Option<string>>
      reads this, ebook, ebook.container, ebook.container.renditions, MetadataFrame()
    {
      FirstDc(DC_DATE)
    }

    function Description(): Result<Option<string>>
      reads this, ebook, ebook.container, ebook.container.renditions, MetadataFrame()
    {
      FirstDc(DC_DESCRIPTION)
    }

    function Publisher(): Result<Option<string>>
      reads this, ebook, ebook.container, ebook.container.renditions, MetadataFrame()
    {
      FirstDc(DC_PUBLISHER)
    }

    function Rights(): Result<Option<string>>
      reads this, ebook, ebook.container, ebook.container.renditions, MetadataFrame()
    {
      FirstDc(DC_RIGHTS)
    }

    function Source(): Result<Option<string>>
      reads this, ebook, ebook.container, ebook.container.renditions, MetadataFrame()
    {
      FirstDc(DC_SOURCE)
    }

    function Type(): Result<Option<string>>
      reads this, ebook, ebook.container, ebook.container.renditions, MetadataFrame()
    {
      FirstDc(DC_TYPE)
    }

    /** `subjects`: every present, non-empty `dc:subject` text. */
    method Subjects() returns (r: Result<seq<string>>)
      ensures r.Fail? <==> ebook.DefaultPackage() == null
      ensures r.Ok? ==> r.value == NonEmptyTexts(ebook.DefaultPackage().metadata.MetadataByTag(DC_SUBJECT))
    {
      var v := GetDcMetadatum(DC_SUBJECT, false, true);
      if v.Fail? {
        return Fail(v.error);
      }
      r := Ok(v.value.texts);
    }

    // -------------------------------------------------------------------
    // Assets
    // -------------------------------------------------------------------

    /**
      `asset_contents`: the contents of the asset at that path, None when
      there is no such asset or reading it raises.
    */
    function AssetContents(internalPath: Option<string>, sha1: string -> Obfuscation.Digest): (r: Option<Obfuscation.Bytes>)
      reads this, ebook, ebook.assets.Values
      ensures internalPath !in ebook.assets ==> r.None?
      ensures internalPath in ebook.assets ==>
                var c := ebook.assets[internalPath].Contents(Publications.ReadFile(ebook.files, internalPath), sha1);
                r == if c.Ok? then c.value else None
    {
      if internalPath !in ebook.assets then None
      else
        var c := ebook.assets[internalPath].Contents(Publications.ReadFile(ebook.files, internalPath), sha1);
        if c.Ok? then c.value else None
    }

    /** An asset read from a path and not obfuscated has exactly the bytes of its file. */
    lemma AssetContentsPlain(internalPath: Option<string>, sha1: string -> Obfuscation.Digest)
      requires ebook.Valid() && ebook.path.Some? && internalPath in ebook.assets
      requires ebook.assets[internalPath].obfuscationKey.None?
      ensures AssetContents(internalPath, sha1) == Publications.ReadFile(ebook.files, internalPath)
    {
    }

    /** The contents of an obfuscated asset, obfuscated again with the same key, give back the file's bytes. */
    lemma AssetContentsRoundTrip(internalPath: Option<string>, sha1: string -> Obfuscation.Digest)
      requires ebook.Valid() && ebook.path.Some? && internalPath in ebook.assets
      requires ebook.assets[internalPath].obfuscationKey.Some? && AssetContents(internalPath, sha1).Some?
      ensures var a := ebook.assets[internalPath];
              Obfuscation.Obfuscate(AssetContents(internalPath, sha1), a.obfuscationKey.value, a.obfuscationAlgorithm, sha1)
                == Ok(Publications.ReadFile(ebook.files, internalPath))
    {
      var a := ebook.assets[internalPath];
      a.ContentsRoundTrip(Publications.ReadFile(ebook.files, internalPath), sha1);
    }

    /** `cover_image`: the contents of the asset at the cover image's path; None when anything on the way fails. */
    function CoverImage(sha1: string -> Obfuscation.Digest): (r: Option<Obfuscation.Bytes>)
      reads this, ebook, ebook.container, ebook.container.renditions, ebook.assets.Values
      reads if ebook.DefaultPackage() != null
            then {ebook.DefaultPackage(), ebook.DefaultPackage().manifest, ebook.DefaultPackage().metadata} else {}
      ensures r.Some? ==> ebook.InternalPathCoverImage() in ebook.assets
      ensures r == AssetContents(ebook.InternalPathCoverImage(), sha1)
    {
      AssetContents(ebook.InternalPathCoverImage(), sha1)
    }

    // -------------------------------------------------------------------
    // Spine
    // -------------------------------------------------------------------

    /** `resolved_spine`: the internal paths of the spine's items, in spine order; raises without a package document. */
    method ResolvedSpine() returns (r: Result<seq<Option<string>>>)
      ensures r.Fail? <==> ebook.DefaultPackage() == null
      ensures r.Ok? ==> var p := ebook.DefaultPackage();
                        r.value == OpfPacDocument.SpinePaths(p.manifest.items, p.spine.itemrefs, p.internalPath) &&
                        |r.value| <= |p.spine.itemrefs|
    {
      var p := ebook.DefaultPackage();
      if p == null {
        return Fail(NoneAccess);
      }
      var paths := p.FilesReferencedSpine();
      r := Ok(paths);
    }

    /** `resolved_spine_linear`: the same for the linear itemrefs, a subsequence of the whole spine's paths. */
    method ResolvedSpineLinear() returns (r: Result<seq<Option<string>>>)
      ensures r.Fail? <==> ebook.DefaultPackage() == null
      ensures r.Ok? ==> var p := ebook.DefaultPackage();
                        r.value == OpfPacDocument.SpinePaths(p.manifest.items, OpfSpine.Linear(p.spine.itemrefs), p.internalPath) &&
                        IsSubsequence(r.value, OpfPacDocument.SpinePaths(p.manifest.items, p.spine.itemrefs, p.internalPath))
    {
      var p := ebook.DefaultPackage();
      if p == null {
        return Fail(NoneAccess);
      }
      var paths := p.FilesReferencedSpineLinear();
      r := Ok(paths);
    }

    /** `spine_index_by_internal_path`: the spine index of the item at that path, -1 without one. */
    method SpineIndexByInternalPath(internalPath: Option<string>) returns (r: Result<int>)
      ensures r.Fail? <==> ebook.DefaultPackage() == null
      ensures r.Ok? ==> var p := ebook.DefaultPackage();
                        -1 <= r.value < |p.spine.itemrefs| &&
                        (p.ItemByInternalPath(internalPath).None? ==> r.value == -1) &&
                        (p.ItemByInternalPath(internalPath).Some? ==>
                           r.value == OpfSpine.IndexOfIdref(p.spine.itemrefs, p.ItemByInternalPath(internalPath).value.id))
    {
      var p := ebook.DefaultPackage();
      if p == null {
        return Fail(NoneAccess);
      }
      var i := p.SpineIndexByInternalPath(internalPath);
      r := Ok(i);
    }

    /** `spine_linear_index_by_internal_path`: the same in the linear spine. */
    method SpineLinearIndexByInternalPath(internalPath: Option<string>) returns (r: Result<int>)
      ensures r.Fail? <==> ebook.DefaultPackage() == null
      ensures r.Ok? ==> var p := ebook.DefaultPackage();
                        -1 <= r.value < |OpfSpine.Linear(p.spine.itemrefs)| &&
                        (p.ItemByInternalPath(internalPath).None? ==> r.value == -1) &&
                        (p.ItemByInternalPath(internalPath).Some? ==>
                           r.value == OpfSpine.IndexOfIdref(OpfSpine.Linear(p.spine.itemrefs), p.ItemByInternalPath(internalPath).value.id))
    {
      var p := ebook.DefaultPackage();
      if p == null {
        return Fail(NoneAccess);
      }
      var i := p.SpineLinearIndexByInternalPath(internalPath);
      r := Ok(i);
    }
  }
}
