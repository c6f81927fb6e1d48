/**
  A rendition of the publication: the attributes of its `<rootfile>` in
  `META-INF/container.xml`, and the documents the publication parse
  attaches to it (package document, navigation document, NCX, media
  overlays).
*/
module Renditions {
  import opened Wrappers
  import opened Xml
  import MediaOverlay
  import Nav
  import Ncx
  import OpfPacDocument

  const A_FULL_PATH := "full-path"
  const A_MEDIA_TYPE := "media-type"
  const A_NS_ACCESSMODE := Q(NS_RENDITION, "accessMode")
  const A_NS_LABEL := Q(NS_RENDITION, "label")
  const A_NS_LANGUAGE := Q(NS_RENDITION, "language")
  const A_NS_LAYOUT := Q(NS_RENDITION, "layout")
  const A_NS_MEDIA := Q(NS_RENDITION, "media")

  /** What `toc` returns: the toc `<nav>` of an EPUB 3 rendition or the NCX of an EPUB 2 one. */
  datatype Toc = NavToc(nav: Nav.NavElement) | NcxToc(ncx: Ncx.NCXToc)

  class Rendition {
    const internalPath: Option<string>
    const fullPath: Option<string>
    const mediaType: Option<string>
    const renditionAccessMode: Option<string>
    const renditionLabel: Option<string>
    const renditionLanguage: Option<string>
    const renditionLayout: Option<string>
    const renditionMedia: Option<string>
    var moDocuments: seq<MediaOverlay.MODocument>
    var navDocument: Option<Nav.NavDocument>
    var ncxToc: Option<Ncx.NCXToc>
    var pacDocument: OpfPacDocument.OPFPacDocument?

    /**
      The rendition of a `<rootfile>`: its internal path and full path are
      both the `full-path` attribute, and the `rendition:*` attributes are
      copied; it starts with no documents attached.
    */
    constructor (rootfile: Node)
      ensures FromRootfile(rootfile) && Initial()
    {
      internalPath := Attr(rootfile, A_FULL_PATH);
      fullPath := Attr(rootfile, A_FULL_PATH);
      mediaType := Attr(rootfile, A_MEDIA_TYPE);
      renditionAccessMode := Attr(rootfile, A_NS_ACCESSMODE);
      renditionLabel := Attr(rootfile, A_NS_LABEL);
      renditionLanguage := Attr(rootfile, A_NS_LANGUAGE);
      renditionLayout := Attr(rootfile, A_NS_LAYOUT);
      renditionMedia := Attr(rootfile, A_NS_MEDIA);
      moDocuments := [];
      navDocument := None;
      ncxToc := None;
      pacDocument := null;
    }

    /** The attributes read from `rootfile`. */
    ghost predicate FromRootfile(rootfile: Node)
    {
      internalPath == Attr(rootfile, A_FULL_PATH) && fullPath == Attr(rootfile, A_FULL_PATH) &&
      mediaType == Attr(rootfile, A_MEDIA_TYPE) &&
      renditionAccessMode == Attr(rootfile, A_NS_ACCESSMODE) && renditionLabel == Attr(rootfile, A_NS_LABEL) &&
      renditionLanguage == Attr(rootfile, A_NS_LANGUAGE) && renditionLayout == Attr(rootfile, A_NS_LAYOUT) &&
      renditionMedia == Attr(rootfile, A_NS_MEDIA)
    }

    /** No media overlay, and no navigation, NCX or package document yet. */
    ghost predicate Initial()
      reads this
    {
      moDocuments == [] && navDocument.None? && ncxToc.None? && pacDocument == null
    }

    /** `add_mo_document`: the document goes at the end; nothing else changes. */
    method AddMoDocument(doc: MediaOverlay.MODocument)
      modifies this
      ensures moDocuments == old(moDocuments) + [doc]
      ensures navDocument == old(navDocument) && ncxToc == old(ncxToc) && pacDocument == old(pacDocument)
    {
      moDocuments := moDocuments + [doc];
    }

    /**
      `toc`: with a navigation document, its toc `<nav>`, even when it has
      none; the NCX only when there is no navigation document.
    */
    function Toc(): (r: Option<Toc>)
      reads this
      ensures navDocument.Some? ==> (r.None? <==> Nav.TocNav(navDocument.value).None?)
      ensures navDocument.Some? && r.Some? ==>
                r.value.NavToc? &&
                exists k :: 0 <= k < |navDocument.value.navs| && navDocument.value.navs[k] == r.value.nav &&
                            r.value.nav.epubType == Some(Nav.V_NAV_TOC) &&
                            forall j :: 0 <= j < k ==> navDocument.value.navs[j].epubType != Some(Nav.V_NAV_TOC)
      ensures navDocument.None? ==> (r.None? <==> ncxToc.None?)
      ensures navDocument.None? && r.Some? ==> r.value == NcxToc(ncxToc.value)
    {
      if navDocument.Some? then
        var nav := Nav.TocNav(navDocument.value);
        if nav.Some? then Some(NavToc(nav.value)) else None
      else if ncxToc.Some? then Some(NcxToc(ncxToc.value))
      else None
    }

    /** `landmarks`: the landmarks `<nav>` of the navigation document; None without one. */
    function Landmarks(): (r: Option<Nav.NavElement>)
      reads this
      ensures navDocument.None? ==> r.None?
      ensures r.Some? ==>
                navDocument.Some? &&
                exists k :: 0 <= k < |navDocument.value.navs| && navDocument.value.navs[k] == r.value &&
                            r.value.epubType == Some(Nav.V_NAV_LANDMARKS) &&
                            forall j :: 0 <= j < k ==> navDocument.value.navs[j].epubType != Some(Nav.V_NAV_LANDMARKS)
      ensures navDocument.Some? && r.None? ==>
                forall i :: 0 <= i < |navDocument.value.navs| ==> navDocument.value.navs[i].epubType != Some(Nav.V_NAV_LANDMARKS)
    {
      if navDocument.Some? then Nav.LandmarksNav(navDocument.value) else None
    }
  }
}
