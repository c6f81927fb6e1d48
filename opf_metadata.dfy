/** The `<metadata>` of a Package Document: the metadata entries and the links. */
module OpfMetadata {
  import opened Wrappers
  import opened Util
  import opened Xml
  import opened OpfEntities

  /** The Dublin Core elements, in the order the parser visits them. */
  const DC_ELEMENTS: seq<string> := ["contributor", "coverage", "creator", "date", "description",
                                     "format", "identifier", "language", "publisher", "relation",
                                     "rights", "source", "subject", "title", "type"]

  const META_NAME_COVER: string := "cover"
  const DCTERMS_MODIFIED: string := "dcterms:modified"

  /** The `dc:*` children of `n`, grouped by element name in the order of `names`, each group in document order. */
  function DcNodes(n: Node, names: seq<string>): (r: seq<Node>)
    ensures forall x :: x in r ==> x in n.children
  {
    if names == [] then []
    else
      ChildrenFacts(n, Q(NS_DC, names[0]));
      Children(n, Q(NS_DC, names[0])) + DcNodes(n, names[1..])
  }

  function MetaNodes(n: Node): seq<Node>
  {
    Children(n, Q(NS_OPF, "meta"))
  }

  function LinkNodes(n: Node): seq<Node>
  {
    Children(n, Q(NS_OPF, "link"))
  }

  /** Entry `i` of the list is the parse of element `i`: `dc:*` entries first, then `<meta>` entries. */
  ghost predicate EntriesFrom(metadata: seq<OPFMetadatum>, dcNodes: seq<Node>, metaNodes: seq<Node>)
  {
    |metadata| <= |dcNodes| + |metaNodes| &&
    (forall i :: 0 <= i < |metadata| && i < |dcNodes| ==> metadata[i].entry == DCOf(dcNodes[i])) &&
    (forall i :: |dcNodes| <= i < |metadata| ==> metadata[i].entry == MetaOf(metaNodes[i - |dcNodes|]))
  }

  /** `safe_first` on the refiners: the first metadatum with that id. */
  function MetadatumWithId(metadata: seq<OPFMetadatum>, id: Option<string>): (r: Option<OPFMetadatum>)
    ensures r.None? <==> forall i :: 0 <= i < |metadata| ==> metadata[i].entry.id != id
    ensures r.Some? ==> exists k :: 0 <= k < |metadata| && metadata[k] == r.value && r.value.entry.id == id &&
                                    forall j :: 0 <= j < k ==> metadata[j].entry.id != id
  {
    var keep := (e: OPFMetadatum) => e.entry.id == id;
    FirstMatchFacts(metadata, keep);
    FirstMatch(metadata, keep)
  }

  class OPFMetadata {
    const internalPath: Option<string>
    const id: Option<string>
    const dir: Option<string>
    const lang: Option<string>
    var metadata: seq<OPFMetadatum>
    var links: seq<OPFLink>

    constructor (internalPath: Option<string>, id: Option<string>, dir: Option<string>, lang: Option<string>)
      ensures this.internalPath == internalPath && this.id == id && this.dir == dir && this.lang == lang
      ensures metadata == [] && links == []
    {
      this.internalPath := internalPath;
      this.id := id;
      this.dir := dir;
      this.lang := lang;
      metadata := [];
      links := [];
    }

    /**
      `parse_object`: every `dc:*` entry, grouped by element name in
      Dublin Core order, then every `<meta>` in document order (EPUB 3
      entries when they carry `property`, EPUB 2 otherwise); `<link>`
      elements go to the links only.
    */
    static method Parse(n: Node, internalPath: Option<string>) returns (m: OPFMetadata)
      ensures fresh(m) && m.ParsedFrom(n, internalPath)
      ensures forall i :: 0 <= i < |m.metadata| ==> fresh(m.metadata[i]) && m.metadata[i].refinements == []
    {
      m := new OPFMetadata(internalPath, Attr(n, "id"), Attr(n, "dir"), Attr(n, Q(NS_XML, "lang")));
      m.AppendAllEntries(DcNodes(n, DC_ELEMENTS), MetaNodes(n));
      m.AppendLinks(LinkNodes(n));
    }

    /** The metadata are the parse of `n`: its attributes, the entries, then the links, each in order. */
    ghost predicate ParsedFrom(n: Node, internalPath: Option<string>)
      reads this
    {
      this.internalPath == internalPath &&
      id == Attr(n, "id") && dir == Attr(n, "dir") && lang == Attr(n, Q(NS_XML, "lang")) &&
      |metadata| == |DcNodes(n, DC_ELEMENTS)| + |MetaNodes(n)| &&
      EntriesFrom(metadata, DcNodes(n, DC_ELEMENTS), MetaNodes(n)) &&
      |links| == |LinkNodes(n)| &&
      forall i :: 0 <= i < |links| ==> links[i] == LinkOf(LinkNodes(n)[i])
    }

    /** The two entry loops of `parse_object`, on an object without entries yet. */
    method AppendAllEntries(dcNodes: seq<Node>, metaNodes: seq<Node>)
      requires metadata == []
      modifies this
      ensures links == old(links) && |metadata| == |dcNodes| + |metaNodes|
      ensures EntriesFrom(metadata, dcNodes, metaNodes)
      ensures forall i :: 0 <= i < |metadata| ==> fresh(metadata[i]) && metadata[i].refinements == []
    {
      AppendEntries(dcNodes, true);
      ghost var afterDc := metadata;
      AppendEntries(metaNodes, false);
      assert forall i :: 0 <= i < |dcNodes| ==> metadata[i] == afterDc[i] by {
        assert metadata[..|dcNodes|] == afterDc;
      }
    }

    /** The loop of `parse_object` over `<link>` elements. */
    method AppendLinks(nodes: seq<Node>)
      modifies this
      ensures metadata == old(metadata) && |links| == |old(links)| + |nodes|
      ensures links[..|old(links)|] == old(links)
      ensures forall i :: 0 <= i < |nodes| ==> links[|old(links)| + i] == LinkOf(nodes[i])
    {
      var k := 0;
      while k < |nodes|
        invariant 0 <= k <= |nodes| && |links| == |old(links)| + k && metadata == old(metadata)
        invariant links[..|old(links)|] == old(links)
        invariant forall i :: 0 <= i < k ==> links[|old(links)| + i] == LinkOf(nodes[i])
      {
        AddLink(LinkOf(nodes[k]));
        k := k + 1;
      }
    }

    /** The loops of `parse_object` that turn elements into metadata: `dc:*` entries or `<meta>` entries. */
    method AppendEntries(nodes: seq<Node>, dc: bool)
      modifies this
      ensures links == old(links) && |metadata| == |old(metadata)| + |nodes|
      ensures metadata[..|old(metadata)|] == old(metadata)
      ensures forall i :: 0 <= i < |nodes| ==>
                metadata[|old(metadata)| + i].entry == (if dc then DCOf(nodes[i]) else MetaOf(nodes[i]))
      ensures forall i :: |old(metadata)| <= i < |metadata| ==> fresh(metadata[i]) && metadata[i].refinements == []
    {
      var k := 0;
      while k < |nodes|
        invariant 0 <= k <= |nodes| && |metadata| == |old(metadata)| + k && links == old(links)
        invariant metadata[..|old(metadata)|] == old(metadata)
        invariant forall i :: 0 <= i < k ==>
                    metadata[|old(metadata)| + i].entry == (if dc then DCOf(nodes[i]) else MetaOf(nodes[i]))
        invariant forall i :: |old(metadata)| <= i < |metadata| ==> fresh(metadata[i]) && metadata[i].refinements == []
      {
        var entry := new OPFMetadatum(if dc then DCOf(nodes[k]) else MetaOf(nodes[k]));
        AddMetadatum(entry);
        k := k + 1;
      }
    }

    /** `add_metadatum`: the metadatum goes at the end. */
    method AddMetadatum(metadatum: OPFMetadatum)
      modifies this
      ensures metadata == old(metadata) + [metadatum] && links == old(links)
    {
      metadata := metadata + [metadatum];
    }

    /** `add_link`: the link goes at the end. */
    method AddLink(link: OPFLink)
      modifies this
      ensures links == old(links) + [link] && metadata == old(metadata)
    {
      links := links + [link];
    }

    /** `metadatum_by_id`: the first metadatum with that id (None matches one without id), or None. */
    function MetadatumById(id: Option<string>): (r: Option<OPFMetadatum>)
      reads this
      ensures r.None? <==> forall i :: 0 <= i < |metadata| ==> metadata[i].entry.id != id
      ensures r.Some? ==> exists k :: 0 <= k < |metadata| && metadata[k] == r.value && r.value.entry.id == id &&
                                      forall j :: 0 <= j < k ==> metadata[j].entry.id != id
    {
      MetadatumWithId(metadata, id)
    }

    /** `metadata_by_tag`: the metadata with exactly that tag, in order. */
    function MetadataByTag(tag: string): (r: seq<OPFMetadatum>)
      reads this
      ensures forall x :: x in r ==> x in metadata && x.entry.tag == tag
      ensures forall i :: 0 <= i < |metadata| && metadata[i].entry.tag == tag ==> metadata[i] in r
      ensures IsSubsequence(r, metadata)
      ensures forall i :: 0 <= i < |metadata| && metadata[i].entry.tag == tag ==> multiset(r)[metadata[i]] == multiset(metadata)[metadata[i]]
    {
      var keep := (e: OPFMetadatum) => e.entry.tag == tag;
      FilterFacts(metadata, keep);
      FilterOrder(metadata, keep);
      Filter(metadata, keep)
    }

    /** `metadata_by_property`: the EPUB 3 entries with that property, in order; no other kind ever matches. */
    function MetadataByProperty(p: string): (r: seq<OPFMetadatum>)
      reads this
      ensures forall x :: x in r ==> x in metadata && x.entry.OPFMeta3? && x.entry.property == Some(p)
      ensures forall i :: 0 <= i < |metadata| && metadata[i].entry.OPFMeta3? && metadata[i].entry.property == Some(p) ==>
                metadata[i] in r
      ensures IsSubsequence(r, metadata)
      ensures forall i :: 0 <= i < |metadata| && metadata[i].entry.OPFMeta3? && metadata[i].entry.property == Some(p) ==>
                multiset(r)[metadata[i]] == multiset(metadata)[metadata[i]]
    {
      var keep := (e: OPFMetadatum) => e.entry.OPFMeta3? && e.entry.property == Some(p);
      FilterFacts(metadata, keep);
      FilterOrder(metadata, keep);
      Filter(metadata, keep)
    }

    /** `cover_image_item_id`: the content of the first EPUB 2 meta named `cover`, or None. */
    function CoverImageItemId(): (r: Option<string>)
      reads this
      ensures (forall i :: 0 <= i < |metadata| ==>
                !(metadata[i].entry.OPFMeta2? && metadata[i].entry.name == Some(META_NAME_COVER))) ==> r.None?
      ensures r.Some? ==> exists k :: 0 <= k < |metadata| && metadata[k].entry.OPFMeta2? &&
                                      metadata[k].entry.name == Some(META_NAME_COVER) &&
                                      r == metadata[k].entry.content &&
                                      forall j :: 0 <= j < k ==>
                                        !(metadata[j].entry.OPFMeta2? && metadata[j].entry.name == Some(META_NAME_COVER))
      ensures forall k :: 0 <= k < |metadata| && metadata[k].entry.OPFMeta2? && metadata[k].entry.name == Some(META_NAME_COVER) &&
                          (forall j :: 0 <= j < k ==> !(metadata[j].entry.OPFMeta2? && metadata[j].entry.name == Some(META_NAME_COVER))) ==>
                            r == metadata[k].entry.content
    {
      var keep := (e: OPFMetadatum) => e.entry.OPFMeta2? && e.entry.name == Some(META_NAME_COVER);
      FirstMatchFacts(metadata, keep);
      match FirstMatch(metadata, keep)
      case Some(m) => m.entry.content
      case None => None
    }

    /** `dcterms_modified`: the text of the first EPUB 3 meta with property `dcterms:modified`, or None. */
    function DctermsModified(): (r: Option<string>)
      reads this
      ensures (forall i :: 0 <= i < |metadata| ==>
                !(metadata[i].entry.OPFMeta3? && metadata[i].entry.property == Some(DCTERMS_MODIFIED))) ==> r.None?
      ensures r.Some? ==> exists k :: 0 <= k < |metadata| && metadata[k].entry.OPFMeta3? &&
                                      metadata[k].entry.property == Some(DCTERMS_MODIFIED) &&
                                      r == metadata[k].entry.text &&
                                      forall j :: 0 <= j < k ==>
                                        !(metadata[j].entry.OPFMeta3? && metadata[j].entry.property == Some(DCTERMS_MODIFIED))
      ensures forall k :: 0 <= k < |metadata| && metadata[k].entry.OPFMeta3? && metadata[k].entry.property == Some(DCTERMS_MODIFIED) &&
                          (forall j :: 0 <= j < k ==> !(metadata[j].entry.OPFMeta3? && metadata[j].entry.property == Some(DCTERMS_MODIFIED))) ==>
                            r == metadata[k].entry.text
    {
      var keep := (e: OPFMetadatum) => e.entry.OPFMeta3? && e.entry.property == Some(DCTERMS_MODIFIED);
      FirstMatchFacts(metadata, keep);
      match FirstMatch(metadata, keep)
      case Some(m) => m.entry.text
      case None => None
    }
  }
}
