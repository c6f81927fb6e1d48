/** The `<manifest>` of a Package Document: its items in document order, and the lookups over them. */
module OpfManifest {
  import opened Wrappers
  import opened Util
  import opened Xml
  import opened Paths
  import opened OpfEntities
  import MediaTypes

  /** The `o:item` children of a `<manifest>` element. */
  function ItemNodes(n: Node): seq<Node>
  {
    Children(n, Q(NS_OPF, "item"))
  }

  /**
    The internal path given to an item: its href resolved against the
    manifest's path when both are set, None otherwise. This is exactly
    `norm_join_parent`, which is None as soon as one argument is.
  */
  function ItemPath(manifestPath: Option<string>, href: Option<string>): (r: Option<string>)
    ensures r == NormJoinParent(manifestPath, href)
  {
    if manifestPath.Some? && href.Some? then NormJoinParent(manifestPath, href) else None
  }

  /** Item `i` was built from element `i`, with the internal path `ItemPath` gives it. */
  ghost predicate ItemsParsedFrom(items: seq<OPFItem>, nodes: seq<Node>, manifestPath: Option<string>)
  {
    |items| <= |nodes| &&
    forall i :: 0 <= i < |items| ==>
      items[i].ParsedFrom(nodes[i], ItemPath(manifestPath, Attr(nodes[i], "href")))
  }

  /** A new item: no refinements and no asset yet. */
  ghost predicate Unrefined(item: OPFItem)
    reads item
  {
    item.refinements == [] && item.asset == null
  }

  /** The first item whose id equals `id` (None matches an item without id), or None. */
  function ItemWithId(items: seq<OPFItem>, id: Option<string>): (r: Option<OPFItem>)
    ensures r.None? <==> forall i :: 0 <= i < |items| ==> items[i].id != id
    ensures r.Some? ==> exists k :: 0 <= k < |items| && items[k] == r.value && r.value.id == id &&
                                    forall j :: 0 <= j < k ==> items[j].id != id
  {
    var keep := (e: OPFItem) => e.id == id;
    FirstMatchFacts(items, keep);
    FirstMatch(items, keep)
  }

  /** The first item with that internal path, or None. */
  function ItemWithInternalPath(items: seq<OPFItem>, internalPath: Option<string>): (r: Option<OPFItem>)
    ensures r.None? <==> forall i :: 0 <= i < |items| ==> items[i].internalPath != internalPath
    ensures r.Some? ==> exists k :: 0 <= k < |items| && items[k] == r.value && r.value.internalPath == internalPath &&
                                    forall j :: 0 <= j < k ==> items[j].internalPath != internalPath
  {
    FirstMatchFacts(items, HasInternalPath(internalPath));
    FirstMatch(items, HasInternalPath(internalPath))
  }

  /** The first of `items` carrying the property token `p`, or None. */
  function ItemWithPropertyIn(items: seq<OPFItem>, p: string): Option<OPFItem>
  {
    FirstMatch(items, HasPropertyToken(p))
  }

  /** The test of `item_by_internal_path`. */
  function HasInternalPath(internalPath: Option<string>): OPFItem -> bool
  {
    (e: OPFItem) => e.internalPath == internalPath
  }

  /** The test of `cover_image_item` and `nav_document_item`: the item carries the property token `p`. */
  function HasPropertyToken(p: string): OPFItem -> bool
  {
    (e: OPFItem) => e.HasProperty(p)
  }

  /** The test of `items_by_media_type`. */
  function HasMediaType(mediaType: Option<string>): OPFItem -> bool
  {
    (e: OPFItem) => e.mediaType == mediaType
  }

  /** The items of `items` with exactly that media type, in order. */
  function ItemsWithMediaType(items: seq<OPFItem>, mediaType: Option<string>): seq<OPFItem>
  {
    Filter(items, HasMediaType(mediaType))
  }

  class OPFManifest {
    const internalPath: Option<string>
    const id: Option<string>
    var items: seq<OPFItem>

    constructor (internalPath: Option<string>, id: Option<string>)
      ensures this.internalPath == internalPath && this.id == id && items == []
    {
      this.internalPath := internalPath;
      this.id := id;
      items := [];
    }

    /**
      `parse_object`: one item per `<item>` child, in document order, each
      with the internal path `ItemPath` gives it. Building an item cannot
      fail here, so none is skipped.
    */
    static method Parse(n: Node, internalPath: Option<string>) returns (m: OPFManifest)
      ensures fresh(m) && m.ParsedFrom(n, internalPath)
      ensures forall i :: 0 <= i < |m.items| ==> fresh(m.items[i]) && Unrefined(m.items[i])
    {
      var nodes := ItemNodes(n);
      m := new OPFManifest(internalPath, Attr(n, "id"));
      var k := 0;
      while k < |nodes|
        invariant 0 <= k <= |nodes| && |m.items| == k
        invariant fresh(m) && m.internalPath == internalPath && m.id == Attr(n, "id")
        invariant ItemsParsedFrom(m.items, nodes, internalPath)
        invariant forall i :: 0 <= i < k ==> fresh(m.items[i]) && Unrefined(m.items[i])
      {
        var href := Attr(nodes[k], "href");
        var path := ItemPath(internalPath, href);
        var item := new OPFItem.FromNode(nodes[k], path);
        m.AddItem(item);
        k := k + 1;
      }
    }

    /** The manifest is the parse of `n`: its id, and one item per `<item>` child, in order. */
    ghost predicate ParsedFrom(n: Node, internalPath: Option<string>)
      reads this
    {
      this.internalPath == internalPath && id == Attr(n, "id") &&
      |items| == |ItemNodes(n)| && ItemsParsedFrom(items, ItemNodes(n), internalPath)
    }

    /** `len(manifest)`. */
    function Length(): (r: nat)
      reads this
      ensures r == |items|
    {
      |items|
    }

    /** `add_item`: the item goes at the end. */
    method AddItem(item: OPFItem)
      modifies this
      ensures items == old(items) + [item]
      ensures Length() == old(Length()) + 1
    {
      items := items + [item];
    }

    /** `item_by_id`: the first item whose id equals `id` (None matches an item without id), or None. */
    function ItemById(id: Option<string>): (r: Option<OPFItem>)
      reads this
      ensures r.None? <==> forall i :: 0 <= i < |items| ==> items[i].id != id
      ensures r.Some? ==> exists k :: 0 <= k < |items| && items[k] == r.value && r.value.id == id &&
                                      forall j :: 0 <= j < k ==> items[j].id != id
    {
      ItemWithId(items, id)
    }

    /** `item_by_internal_path`: the first item with that internal path, or None. */
    function ItemByInternalPath(internalPath: Option<string>): (r: Option<OPFItem>)
      reads this
      ensures r == ItemWithInternalPath(items, internalPath)
      ensures r.None? <==> forall i :: 0 <= i < |items| ==> items[i].internalPath != internalPath
      ensures r.Some? ==> exists k :: 0 <= k < |items| && items[k] == r.value &&
                                      r.value.internalPath == internalPath &&
                                      forall j :: 0 <= j < k ==> items[j].internalPath != internalPath
    {
      FirstMatchFacts(items, HasInternalPath(internalPath));
      ItemWithInternalPath(items, internalPath)
    }

    /** `items_by_media_type`: the items with exactly that media type, in manifest order. */
    function ItemsByMediaType(mediaType: Option<string>): (r: seq<OPFItem>)
      reads this
      ensures forall x :: x in r ==> x in items && x.mediaType == mediaType
      ensures forall i :: 0 <= i < |items| && items[i].mediaType == mediaType ==> items[i] in r
      ensures IsSubsequence(r, items)
      ensures forall i :: 0 <= i < |items| && items[i].mediaType == mediaType ==> multiset(r)[items[i]] == multiset(items)[items[i]]
    {
      FilterFacts(items, HasMediaType(mediaType));
      FilterOrder(items, HasMediaType(mediaType));
      ItemsWithMediaType(items, mediaType)
    }

    /** The first item carrying the property token `p`, or None. */
    function ItemWithProperty(p: string): (r: Option<OPFItem>)
      reads this
      ensures r.None? <==> forall i :: 0 <= i < |items| ==> !items[i].HasProperty(p)
      ensures r.Some? ==> exists k :: 0 <= k < |items| && items[k] == r.value && r.value.HasProperty(p) &&
                                      forall j :: 0 <= j < k ==> !items[j].HasProperty(p)
    {
      FirstMatchFacts(items, HasPropertyToken(p));
      ItemWithPropertyIn(items, p)
    }

    /** The early-return scan of `cover_image_item` and `nav_document_item`. */
    method ScanForProperty(p: string) returns (r: Option<OPFItem>)
      ensures r == ItemWithProperty(p)
    {
      var k := 0;
      while k < |items|
        invariant 0 <= k <= |items|
        invariant forall j :: 0 <= j < k ==> !items[j].HasProperty(p)
      {
        var item := items[k];
        if item.properties.Some? && p in SplitOn(item.properties.value, ' ') {
          assert items[k].HasProperty(p);
          return Some(item);
        }
        k := k + 1;
      }
      return None;
    }

    /** `cover_image_item`: the first item whose property tokens include `cover-image`, or None. */
    method CoverImageItem() returns (r: Option<OPFItem>)
      ensures r == ItemWithProperty(PROPERTY_COVER_IMAGE)
      ensures r.Some? ==> r.value in items && r.value.HasProperty(PROPERTY_COVER_IMAGE)
    {
      r := ScanForProperty(PROPERTY_COVER_IMAGE);
    }

    /** `nav_document_item`: the first item whose property tokens include `nav`, or None. */
    method NavDocumentItem() returns (r: Option<OPFItem>)
      ensures r == ItemWithProperty(PROPERTY_NAV)
      ensures r.Some? ==> r.value in items && r.value.HasProperty(PROPERTY_NAV)
    {
      r := ScanForProperty(PROPERTY_NAV);
    }

    /** `mo_items`: the items that name a media overlay, in manifest order. */
    function MoItems(): (r: seq<OPFItem>)
      reads this
      ensures forall x :: x in r ==> x in items && x.mediaOverlay.Some?
      ensures forall i :: 0 <= i < |items| && items[i].mediaOverlay.Some? ==> items[i] in r
      ensures IsSubsequence(r, items)
      ensures forall i :: 0 <= i < |items| && items[i].mediaOverlay.Some? ==> multiset(r)[items[i]] == multiset(items)[items[i]]
    {
      var keep := (e: OPFItem) => e.mediaOverlay.Some?;
      FilterFacts(items, keep);
      FilterOrder(items, keep);
      Filter(items, keep)
    }

    /** `smil_items`, and `mo_document_items`, which is the same list: the SMIL items in manifest order. */
    function SmilItems(): (r: seq<OPFItem>)
      reads this
      ensures r == ItemsByMediaType(Some(MediaTypes.SMIL))
      ensures forall x :: x in r ==> x in items && x.mediaType == Some(MediaTypes.SMIL)
    {
      ItemsWithMediaType(items, Some(MediaTypes.SMIL))
    }
  }
}
