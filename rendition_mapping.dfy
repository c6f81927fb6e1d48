/**
  The Rendition Mapping Document of EPUB 3 Multiple-Rendition
  Publications: an XHTML page whose `<nav epub:type="resource-map">`
  lists, per `<ul>`, the equivalent locations in each rendition.
*/
module RenditionMapping {
  import opened Wrappers
  import opened Xml

  const E_HTML := Q(NS_XHTML, "html")
  const E_BODY := Q(NS_XHTML, "body")
  const E_NAV := Q(NS_XHTML, "nav")
  const E_UL := Q(NS_XHTML, "ul")
  const E_LI := Q(NS_XHTML, "li")
  const E_A := Q(NS_XHTML, "a")
  const A_EPUB_TYPE := Q(NS_EPUB, "type")
  const A_EPUB_RENDITION := Q(NS_EPUB, "rendition")
  const V_RESOURCE_MAP := "resource-map"

  /** One `<a>` of a location: the rendition it points into and the target there. */
  datatype RMPoint = RMPoint(epubRendition: Option<string>, href: Option<string>)

  /** One `<ul>`: its points, one per `li/a`. */
  datatype RMLocation = RMLocation(points: seq<RMPoint>)

  /** The document: the type of its `<nav>` (set only for a resource map) and its locations. */
  datatype RMDocument = RMDocument(internalPath: Option<string>, epubType: Option<string>,
                                   locations: seq<RMLocation>)

  /** `RMDocument.add_location`: the location goes at the end; nothing else changes. */
  function AddLocation(doc: RMDocument, location: RMLocation): (r: RMDocument)
    ensures |r.locations| == |doc.locations| + 1 && r.locations[..|doc.locations|] == doc.locations
    ensures r.locations[|doc.locations|] == location
    ensures r.(locations := doc.locations) == doc
  {
    doc.(locations := doc.locations + [location])
  }

  /** The point read from an `<a>`. */
  function PointOf(a: Node): RMPoint
  {
    RMPoint(Attr(a, A_EPUB_RENDITION), Attr(a, "href"))
  }

  /** The location read from a `<ul>`: one point per `li/a`, in document order. */
  function LocationOf(ul: Node): (r: RMLocation)
    ensures |r.points| == |Path2(ul, E_LI, E_A)|
    ensures forall i :: 0 <= i < |r.points| ==> r.points[i] == PointOf(Path2(ul, E_LI, E_A)[i])
  {
    var anchors := Path2(ul, E_LI, E_A);
    RMLocation(seq(|anchors|, i requires 0 <= i < |anchors| => PointOf(anchors[i])))
  }

  /** The location read from each `<ul>` of `uls`, in order. */
  function LocationsOf(uls: seq<Node>): (r: seq<RMLocation>)
    ensures |r| == |uls| && forall i :: 0 <= i < |uls| ==> r[i] == LocationOf(uls[i])
  {
    seq(|uls|, i requires 0 <= i < |uls| => LocationOf(uls[i]))
  }

  lemma LocationsOfAppend(a: seq<Node>, b: seq<Node>)
    ensures LocationsOf(a + b) == LocationsOf(a) + LocationsOf(b)
  {
    var r, t := LocationsOf(a + b), LocationsOf(a) + LocationsOf(b);
    forall i | 0 <= i < |r|
      ensures r[i] == t[i]
    {
      if i < |a| {
        assert (a + b)[i] == a[i];
      } else {
        assert (a + b)[i] == b[i - |a|];
      }
    }
  }

  /** The absolute path `/html/body/nav` from the document whose root element is `root`. */
  function NavPath(root: Node): seq<Node>
  {
    if root.tag == E_HTML then Path2(root, E_BODY, E_NAV) else []
  }

  /**
    The document read from the root element `root`: the first
    `/html/body/nav` is required; only a nav of epub:type `resource-map`
    gives the document a type and locations.
  */
  function DocumentOf(root: Node, internalPath: Option<string>): Result<RMDocument>
  {
    var navs := NavPath(root);
    if navs == [] then Fail(MissingElement("nav"))
    else if Attr(navs[0], A_EPUB_TYPE) == Some(V_RESOURCE_MAP) then
      Ok(RMDocument(internalPath, Some(V_RESOURCE_MAP), LocationsOf(Children(navs[0], E_UL))))
    else Ok(RMDocument(internalPath, None, []))
  }

  /** The `<ul>` loop of `RMDocument.parse_object`: one location per `<ul>`, appended in order. */
  method ReadLocations(doc0: RMDocument, uls: seq<Node>) returns (doc: RMDocument)
    ensures doc == doc0.(locations := doc0.locations + LocationsOf(uls))
  {
    doc := doc0;
    var i := 0;
    while i < |uls|
      invariant 0 <= i <= |uls|
      invariant doc == doc0.(locations := doc0.locations + LocationsOf(uls[..i]))
    {
      assert uls[..i + 1] == uls[..i] + [uls[i]];
      LocationsOfAppend(uls[..i], [uls[i]]);
      doc := AddLocation(doc, LocationOf(uls[i]));
      i := i + 1;
    }
    assert uls[..i] == uls;
  }

  /** `RMDocument.parse_object`. */
  method Parse(root: Node, internalPath: Option<string>) returns (r: Result<RMDocument>)
    ensures r == DocumentOf(root, internalPath)
  {
    var navArr := NavPath(root);
    if |navArr| < 1 {
      return Fail(MissingElement("nav"));
    }
    var nav := navArr[0];
    var doc := RMDocument(internalPath, None, []);
    var epubType := Attr(nav, A_EPUB_TYPE);
    if epubType == Some(V_RESOURCE_MAP) {
      doc := doc.(epubType := epubType);
      doc := ReadLocations(doc, Children(nav, E_UL));
      assert [] + LocationsOf(Children(nav, E_UL)) == LocationsOf(Children(nav, E_UL));
    }
    r := Ok(doc);
  }

  /**
    The parse fails exactly when there is no `/html/body/nav`. A parsed
    document either is a resource map, with one location per `<ul>` of the
    nav in document order, or has no type and no locations.
  */
  lemma ResourceMapGate(root: Node, internalPath: Option<string>)
    ensures DocumentOf(root, internalPath).Fail? <==> NavPath(root) == []
    ensures DocumentOf(root, internalPath).Ok? ==>
              var doc := DocumentOf(root, internalPath).value;
              var nav := NavPath(root)[0];
              doc.internalPath == internalPath &&
              (doc.epubType == Some(V_RESOURCE_MAP) <==> Attr(nav, A_EPUB_TYPE) == Some(V_RESOURCE_MAP)) &&
              (doc.epubType == None <==> Attr(nav, A_EPUB_TYPE) != Some(V_RESOURCE_MAP)) &&
              (doc.epubType == None ==> doc.locations == []) &&
              (doc.epubType != None ==> |doc.locations| == |Children(nav, E_UL)|)
  {
  }
}
