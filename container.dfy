/**
  `META-INF/container.xml`: one rendition per usable `<rootfile>`, in
  document order, and the Rendition Mapping Document named by a
  `rel="mapping"` link.
*/
module ContainerXml {
  import opened Wrappers
  import opened Util
  import opened Xml
  import MediaTypes
  import opened RenditionMapping
  import opened Renditions

  const E_CONTAINER := Q(NS_CONTAINER, "container")
  const E_ROOTFILES := Q(NS_CONTAINER, "rootfiles")
  const E_ROOTFILE := Q(NS_CONTAINER, "rootfile")
  const E_LINK := Q(NS_CONTAINER, "link")
  const V_REL_MAPPING := "mapping"

  /** A `<rootfile>` gives a rendition only when it has both a `full-path` and a `media-type`. */
  predicate IsRenditionRootfile(rootfile: Node)
  {
    Attr(rootfile, A_FULL_PATH).Some? && Attr(rootfile, A_MEDIA_TYPE).Some?
  }

  /** A `<link>` names the mapping document when its rel is `mapping`, its type XHTML, and it has an href. */
  predicate IsMappingLink(link: Node)
  {
    Attr(link, "rel") == Some(V_REL_MAPPING) && Attr(link, A_MEDIA_TYPE) == Some(MediaTypes.XHTML) &&
    Attr(link, "href").Some?
  }

  /** The (not yet parsed) mapping document a link names: only its internal path is set. */
  function MappingDocument(link: Node): RMDocument
  {
    RMDocument(Attr(link, "href"), None, [])
  }

  /** The mapping document left by the link loop: the last mapping link wins; None without one. */
  function MappingDocumentOf(links: seq<Node>): (r: Option<RMDocument>)
    ensures r.None? <==> forall i :: 0 <= i < |links| ==> !IsMappingLink(links[i])
    ensures r.Some? ==> exists k :: 0 <= k < |links| && IsMappingLink(links[k]) && r.value == MappingDocument(links[k]) &&
                                    forall j :: k < j < |links| ==> !IsMappingLink(links[j])
  {
    var last := LastMatch(links, IsMappingLink);
    if last.Some? then Some(MappingDocument(last.value)) else None
  }

  lemma MappingDocumentSnoc(links: seq<Node>, link: Node)
    ensures MappingDocumentOf(links + [link]) ==
              if IsMappingLink(link) then Some(MappingDocument(link)) else MappingDocumentOf(links)
  {
    assert (links + [link])[..|links|] == links;
  }

  /** The usable rootfiles of `rootfiles`, in order. */
  function AcceptedRootfiles(rootfiles: seq<Node>): seq<Node>
    decreases |rootfiles|
  {
    if rootfiles == [] then []
    else
      var last := rootfiles[|rootfiles| - 1];
      AcceptedRootfiles(rootfiles[..|rootfiles| - 1]) + (if IsRenditionRootfile(last) then [last] else [])
  }

  /** The usable rootfiles are the rootfiles filtered by the rendition test. */
  lemma {:induction false} AcceptedIsFilter(rootfiles: seq<Node>)
    ensures AcceptedRootfiles(rootfiles) == Filter(rootfiles, IsRenditionRootfile)
    decreases |rootfiles|
  {
    if rootfiles != [] {
      var init, last := rootfiles[..|rootfiles| - 1], rootfiles[|rootfiles| - 1];
      assert rootfiles == init + [last];
      AcceptedIsFilter(init);
      FilterAppend(init, [last], IsRenditionRootfile);
      FilterSingle(last, IsRenditionRootfile);
    }
  }

  /** The `rootfiles/rootfile` elements under the root. */
  function RootfilesOf(root: Node): seq<Node>
  {
    Path2(root, E_ROOTFILES, E_ROOTFILE)
  }

  class Container {
    const internalPath: Option<string>
    var renditions: seq<Rendition>
    var rmDocument: Option<RMDocument>

    /** An empty container: no renditions and no mapping document. */
    constructor (internalPath: Option<string>)
      ensures this.internalPath == internalPath && renditions == [] && rmDocument.None?
    {
      this.internalPath := internalPath;
      renditions := [];
      rmDocument := None;
    }

    /** `add_rendition`: the rendition goes at the end; nothing else changes. */
    method AddRendition(rendition: Rendition)
      modifies this
      ensures renditions == old(renditions) + [rendition] && rmDocument == old(rmDocument)
    {
      renditions := renditions + [rendition];
    }

    /** `default_rendition`: the first rendition, or null when there is none. */
    function DefaultRendition(): (r: Rendition?)
      reads this
      ensures r == null <==> renditions == []
      ensures r != null ==> r == renditions[0]
    {
      if |renditions| > 0 then renditions[0] else null
    }

    /** The renditions are the ones read from `rootfiles`, one each, in order, with nothing attached yet. */
    ghost predicate RenditionsFrom(rootfiles: seq<Node>)
      reads this, renditions
    {
      |renditions| == |rootfiles| &&
      forall i :: 0 <= i < |renditions| ==> renditions[i].FromRootfile(rootfiles[i]) && renditions[i].Initial()
    }

    /** `_parse_rootfile`: a usable `<rootfile>` appends a new rendition; any other is ignored. */
    method ParseRootfile(rootfile: Node)
      modifies this
      ensures rmDocument == old(rmDocument)
      ensures !IsRenditionRootfile(rootfile) ==> renditions == old(renditions)
      ensures IsRenditionRootfile(rootfile) ==>
                |renditions| == |old(renditions)| + 1 && renditions[..|old(renditions)|] == old(renditions) &&
                fresh(renditions[|old(renditions)|]) &&
                renditions[|old(renditions)|].FromRootfile(rootfile) && renditions[|old(renditions)|].Initial()
    {
      var fullPath := Attr(rootfile, A_FULL_PATH);
      var mediaType := Attr(rootfile, A_MEDIA_TYPE);
      if fullPath.Some? && mediaType.Some? {
        var rendition := new Rendition(rootfile);
        renditions := renditions + [rendition];
      }
    }

    /** `_parse_link`: a mapping link replaces the mapping document; any other link is ignored. */
    method ParseLink(link: Node)
      modifies this
      ensures renditions == old(renditions)
      ensures rmDocument == if IsMappingLink(link) then Some(MappingDocument(link)) else old(rmDocument)
    {
      var rel := Attr(link, "rel");
      var href := Attr(link, "href");
      var mediaType := Attr(link, A_MEDIA_TYPE);
      if rel == Some(V_REL_MAPPING) && mediaType == Some(MediaTypes.XHTML) && href.Some? {
        rmDocument := Some(RMDocument(href, None, []));
      }
    }

    /** The `<rootfile>` loop of `parse_object`. */
    method ParseRootfiles(rootfiles: seq<Node>)
      requires renditions == []
      modifies this
      ensures rmDocument == old(rmDocument)
      ensures RenditionsFrom(AcceptedRootfiles(rootfiles))
      ensures NoDuplicates(renditions) && forall x :: x in renditions ==> fresh(x)
    {
      ghost var accepted: seq<Node> := [];
      var i := 0;
      while i < |rootfiles|
        invariant 0 <= i <= |rootfiles|
        invariant rmDocument == old(rmDocument)
        invariant accepted == AcceptedRootfiles(rootfiles[..i])
        invariant RenditionsFrom(accepted)
        invariant NoDuplicates(renditions) && forall x :: x in renditions ==> fresh(x)
      {
        assert rootfiles[..i + 1][..i] == rootfiles[..i];
        ghost var before := renditions;
        ParseRootfile(rootfiles[i]);
        if IsRenditionRootfile(rootfiles[i]) {
          ghost var added := renditions[|before|];
          assert renditions == before + [added];
          assert added !in before;
          accepted := accepted + [rootfiles[i]];
          assert RenditionsFrom(accepted);
        } else {
          assert renditions == before;
        }
        i := i + 1;
      }
      assert rootfiles[..i] == rootfiles;
    }

    /** The `<link>` loop of `parse_object`. */
    method ParseLinks(links: seq<Node>)
      requires rmDocument.None?
      modifies this
      ensures renditions == old(renditions)
      ensures rmDocument == MappingDocumentOf(links)
    {
      var i := 0;
      while i < |links|
        invariant 0 <= i <= |links|
        invariant renditions == old(renditions)
        invariant rmDocument == MappingDocumentOf(links[..i])
      {
        assert links[..i + 1] == links[..i] + [links[i]];
        MappingDocumentSnoc(links[..i], links[i]);
        ParseLink(links[i]);
        i := i + 1;
      }
      assert links[..i] == links;
    }

    /**
      `parse_object`: the root must be `<container>`; then one rendition per
      usable `rootfiles/rootfile`, in order, and the mapping document of the
      last mapping link.
    */
    static method Parse(root: Node, internalPath: Option<string>) returns (r: Result<Container>)
      ensures r.Fail? <==> root.tag != E_CONTAINER
      ensures r.Ok? ==> fresh(r.value) && r.value.internalPath == internalPath
      ensures r.Ok? ==> r.value.RenditionsFrom(Filter(RootfilesOf(root), IsRenditionRootfile))
      ensures r.Ok? ==> NoDuplicates(r.value.renditions) && forall x :: x in r.value.renditions ==> fresh(x)
      ensures r.Ok? ==> r.value.rmDocument == MappingDocumentOf(Children(root, E_LINK))
    {
      if root.tag != E_CONTAINER {
        return Fail(MissingElement("container"));
      }
      var c := new Container(internalPath);
      c.ParseRootfiles(RootfilesOf(root));
      AcceptedIsFilter(RootfilesOf(root));
      c.ParseLinks(Children(root, E_LINK));
      r := Ok(c);
    }
  }
}
