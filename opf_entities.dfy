/**
  The entries of a Package Document (EPUB Publications 3.0, section 3, and
  the EPUB 2 OPF): manifest items, spine itemrefs, metadata entries,
  metadata links and guide references. Attributes are copied once, when
  the entry is built from its element, so they are constant fields; the
  refinement lists (and an item's asset) are the only state that changes
  afterwards.
*/
module OpfEntities {
  import opened Wrappers
  import opened Util
  import opened Xml
  import opened Assets

  /** Whether the space-separated token list `properties` holds `token` (`token in properties.split(" ")`). */
  predicate HasToken(properties: Option<string>, token: string)
  {
    properties.Some? && token in SplitOn(properties.value, ' ')
  }

  /** A token list built by joining space-free tokens holds exactly those tokens. */
  lemma HasTokenExact(tokens: seq<string>, token: string)
    requires tokens != [] && forall t :: t in tokens ==> ' ' !in t
    ensures HasToken(Some(JoinWith(tokens, ' ')), token) <==> token in tokens
  {
    SplitJoin(tokens, ' ');
  }

  /** A token is never a part of a longer token: `cover` is not a property of `cover-image`. */
  lemma HasTokenNotPrefix()
    ensures !HasToken(Some("cover-image"), "cover")
    ensures HasToken(Some("cover-image"), "cover-image")
  {
    SplitOnNone("cover-image", ' ');
  }

  /** A property holding a space is never present: tokens are space-free. */
  lemma HasTokenSpaceFree(properties: Option<string>, token: string)
    requires ' ' in token
    ensures !HasToken(properties, token)
  {
    if properties.Some? {
      SplitOnFacts(properties.value, ' ');
    }
  }

  // ---------------------------------------------------------------------
  // Manifest items
  // ---------------------------------------------------------------------

  const PROPERTY_COVER_IMAGE: string := "cover-image"
  const PROPERTY_NAV: string := "nav"

  class OPFItem {
    const fallback: Option<string>
    const href: Option<string>
    const id: Option<string>
    const mediaOverlay: Option<string>
    const mediaType: Option<string>
    const properties: Option<string>
    const internalPath: Option<string>
    var refinements: seq<Refiner>
    var asset: Asset?

    /** An item built from no element: every attribute None and no refinements. */
    constructor Empty(internalPath: Option<string>)
      ensures fallback.None? && href.None? && id.None? && mediaOverlay.None?
      ensures mediaType.None? && properties.None?
      ensures this.internalPath == internalPath && refinements == [] && asset == null
    {
      fallback := None;
      href := None;
      id := None;
      mediaOverlay := None;
      mediaType := None;
      properties := None;
      this.internalPath := internalPath;
      refinements := [];
      asset := null;
    }

    /** `parse_object`: the attributes are copied verbatim from the `<item>` element. */
    constructor FromNode(n: Node, internalPath: Option<string>)
      ensures ParsedFrom(n, internalPath)
      ensures refinements == [] && asset == null
    {
      fallback := Attr(n, "fallback");
      href := Attr(n, "href");
      id := Attr(n, "id");
      mediaOverlay := Attr(n, "media-overlay");
      mediaType := Attr(n, "media-type");
      properties := Attr(n, "properties");
      this.internalPath := internalPath;
      refinements := [];
      asset := null;
    }

    /** The constant fields are those of the element `n`. */
    ghost predicate ParsedFrom(n: Node, internalPath: Option<string>)
    {
      fallback == Attr(n, "fallback") && href == Attr(n, "href") && id == Attr(n, "id") &&
      mediaOverlay == Attr(n, "media-overlay") && mediaType == Attr(n, "media-type") &&
      properties == Attr(n, "properties") && this.internalPath == internalPath
    }

    /** `has_property`: exact membership in the space-split `properties`, False without it. */
    predicate HasProperty(p: string)
    {
      HasToken(properties, p)
    }

    /** `add_refinement`: one more refinement, at the end; the earlier ones stay in place. */
    method AddRefinement(r: Refiner)
      modifies this
      ensures refinements == old(refinements) + [r]
      ensures asset == old(asset)
    {
      refinements := refinements + [r];
    }
  }

  // ---------------------------------------------------------------------
  // Spine itemrefs
  // ---------------------------------------------------------------------

  /** An `<itemref>` of the spine. */
  datatype OPFItemref = OPFItemref(id: Option<string>, idref: Option<string>,
                                   linear: Option<string>, properties: Option<string>)
  {
    /** `has_property`: exact membership in the space-split `properties`, False without it. */
    predicate HasProperty(p: string)
    {
      HasToken(properties, p)
    }
  }

  /** A fresh itemref: every attribute None. */
  const EMPTY_ITEMREF: OPFItemref := OPFItemref(None, None, None, None)

  /** `parse_object` of an `<itemref>`: id, idref, linear and properties copied; an absent one stays None. */
  function ItemrefOf(n: Node): (r: OPFItemref)
    ensures r.id.Some? <==> "id" in n.attrs
    ensures r.idref.Some? <==> "idref" in n.attrs
    ensures r.linear.Some? <==> "linear" in n.attrs
    ensures r.properties.Some? <==> "properties" in n.attrs
    ensures r.linear.Some? ==> r.linear.value == n.attrs["linear"]
  {
    OPFItemref(Attr(n, "id"), Attr(n, "idref"), Attr(n, "linear"), Attr(n, "properties"))
  }

  // ---------------------------------------------------------------------
  // Metadata entries, links, guide references
  // ---------------------------------------------------------------------

  /** The three kinds of metadatum: a `dc:*` element, an EPUB 2 `<meta>` and an EPUB 3 `<meta>`. */
  datatype MetaEntry =
    | OPFDC(dir: Option<string>, id: Option<string>, event: Option<string>, fileAs: Option<string>,
            role: Option<string>, scheme: Option<string>, tag: string, text: Option<string>,
            lang: Option<string>)
    | OPFMeta2(content: Option<string>, id: Option<string>, name: Option<string>, tag: string,
               text: Option<string>)
    | OPFMeta3(dir: Option<string>, id: Option<string>, property: Option<string>,
               refinesValue: Option<string>, scheme: Option<string>, tag: string,
               text: Option<string>, lang: Option<string>)

  /** A `dc:*` element: its attributes, its tag and its stripped text. */
  function DCOf(n: Node): (r: MetaEntry)
    ensures r.OPFDC? && r.tag == n.tag && r.text == SafeStrip(n.text) && r.id == Attr(n, "id")
  {
    OPFDC(Attr(n, "dir"), Attr(n, "id"), Attr(n, Q(NS_OPF, "event")), Attr(n, Q(NS_OPF, "file-as")),
          Attr(n, Q(NS_OPF, "role")), Attr(n, Q(NS_OPF, "scheme")), n.tag, SafeStrip(n.text),
          Attr(n, Q(NS_XML, "lang")))
  }

  /**
    A `<meta>` element: one with a `property` attribute is an EPUB 3
    entry, one without is an EPUB 2 entry.
  */
  function MetaOf(n: Node): (r: MetaEntry)
    ensures r.OPFMeta3? <==> "property" in n.attrs
    ensures r.OPFMeta2? <==> "property" !in n.attrs
    ensures r.tag == n.tag && r.text == SafeStrip(n.text) && r.id == Attr(n, "id")
    ensures r.OPFMeta3? ==> r.property == Attr(n, "property") && r.refinesValue == Attr(n, "refines")
    ensures r.OPFMeta2? ==> r.content == Attr(n, "content") && r.name == Attr(n, "name")
  {
    if Attr(n, "property").None? then
      OPFMeta2(Attr(n, "content"), Attr(n, "id"), Attr(n, "name"), n.tag, SafeStrip(n.text))
    else
      OPFMeta3(Attr(n, "dir"), Attr(n, "id"), Attr(n, "property"), Attr(n, "refines"),
               Attr(n, "scheme"), n.tag, SafeStrip(n.text), Attr(n, Q(NS_XML, "lang")))
  }

  /** A `<link>` of the metadata. It is not a metadatum and carries no refinements. */
  datatype OPFLink = OPFLink(href: Option<string>, id: Option<string>, mediaType: Option<string>,
                             refinesValue: Option<string>, rel: Option<string>)

  function LinkOf(n: Node): (r: OPFLink)
    ensures r.refinesValue == Attr(n, "refines") && r.href == Attr(n, "href") && r.rel == Attr(n, "rel")
  {
    OPFLink(Attr(n, "href"), Attr(n, "id"), Attr(n, "media-type"), Attr(n, "refines"), Attr(n, "rel"))
  }

  /** A `<reference>` of the EPUB 2 guide. */
  datatype OPFReference = OPFReference(href: Option<string>, id: Option<string>,
                                       title: Option<string>, kind: Option<string>)

  function ReferenceOf(n: Node): (r: OPFReference)
    ensures r.href == Attr(n, "href") && r.id == Attr(n, "id")
    ensures r.title == Attr(n, "title") && r.kind == Attr(n, "type")
  {
    OPFReference(Attr(n, "href"), Attr(n, "id"), Attr(n, "title"), Attr(n, "type"))
  }

  /** What can refine an item or a metadatum: an EPUB 3 metadatum (the object itself) or a link. */
  datatype Refiner = ByMeta(meta: OPFMetadatum) | ByLink(link: OPFLink)
  {
    /** The `refines` attribute of the refiner. */
    function RefinesValue(): Option<string>
    {
      match this
      case ByMeta(m) => if m.entry.OPFMeta3? then m.entry.refinesValue else None
      case ByLink(l) => l.refinesValue
    }
  }

  /** A metadatum: a metadata entry with the list of refinements attached to it. */
  class OPFMetadatum {
    const entry: MetaEntry
    var refinements: seq<Refiner>

    /** A fresh metadatum has no refinements. */
    constructor (entry: MetaEntry)
      ensures this.entry == entry && refinements == []
    {
      this.entry := entry;
      refinements := [];
    }

    /** `add_refinement`: the very refiner passed becomes the last refinement; earlier ones stay in place and in order. */
    method AddRefinement(r: Refiner)
      modifies this
      ensures refinements == old(refinements) + [r]
      ensures |refinements| == |old(refinements)| + 1 && refinements[|refinements| - 1] == r
    {
      refinements := refinements + [r];
    }
  }
}
