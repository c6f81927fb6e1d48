/**
  The OPF Package Document: the `<package>` element with its required
  `<metadata>`, `<manifest>` and `<spine>`, its optional `<guide>`, the
  unique identifier, and the refinement pass that attaches each EPUB 3
  `<meta refines="#X">` and each `<link refines="#X">` to the metadatum or
  manifest item with id X.
*/
module OpfPacDocument {
  import opened Wrappers
  import opened Util
  import opened Xml
  import opened Paths
  import opened Assets
  import opened OpfEntities
  import opened OpfManifest
  import opened OpfSpine
  import opened OpfMetadata
  import opened OpfGuide
  import MediaTypes

  // ---------------------------------------------------------------------
  // Refinement resolution
  // ---------------------------------------------------------------------

  /** Where a refiner is attached: a metadatum, a manifest item, or nowhere. */
  datatype Target = ToMetadatum(metadatum: OPFMetadatum) | ToItem(item: OPFItem) | Untargeted

  /** A `refines` value that names an id: it exists and starts with `#`. */
  predicate IsFragmentRef(refinesAttr: Option<string>)
  {
    refinesAttr.Some? && |refinesAttr.value| > 0 && refinesAttr.value[0] == '#'
  }

  /**
    `_resolve_refinement`: for `#X`, the first metadatum with id X if there
    is one, else the first manifest item with id X, else nowhere. Anything
    that is not `#...` (None, the empty string, a bare id) goes nowhere.
  */
  function TargetOf(metas: seq<OPFMetadatum>, items: seq<OPFItem>, refinesAttr: Option<string>): Target
  {
    if !IsFragmentRef(refinesAttr) then Untargeted
    else
      var x := Some(refinesAttr.value[1..]);
      match MetadatumWithId(metas, x)
      case Some(m) => ToMetadatum(m)
      case None =>
        match ItemWithId(items, x)
        case Some(it) => ToItem(it)
        case None => Untargeted
  }

  /** The cases of `TargetOf`: metadata first, then items, and nothing for anything but `#X`. */
  lemma TargetOfCases(metas: seq<OPFMetadatum>, items: seq<OPFItem>, refinesAttr: Option<string>)
    ensures var t := TargetOf(metas, items, refinesAttr);
            (!IsFragmentRef(refinesAttr) ==> t == Untargeted) &&
            (IsFragmentRef(refinesAttr) ==>
              var x := Some(refinesAttr.value[1..]);
              (t.ToMetadatum? <==> exists i :: 0 <= i < |metas| && metas[i].entry.id == x) &&
              (t.ToMetadatum? ==> t.metadatum in metas && t.metadatum.entry.id == x) &&
              (t.ToItem? <==> (forall i :: 0 <= i < |metas| ==> metas[i].entry.id != x) &&
                              exists j :: 0 <= j < |items| && items[j].id == x) &&
              (t.ToItem? ==> t.item in items && t.item.id == x))
  {
  }

  /** The refiners, among `refiners` and in their order, that resolve to `t`. */
  function TargetedAt(metas: seq<OPFMetadatum>, items: seq<OPFItem>, refiners: seq<Refiner>, t: Target): seq<Refiner>
  {
    if refiners == [] then []
    else
      var x := refiners[|refiners| - 1];
      TargetedAt(metas, items, refiners[..|refiners| - 1], t) +
      (if TargetOf(metas, items, x.RefinesValue()) == t then [x] else [])
  }

  /** `TargetedAt` keeps exactly the refiners that resolve to `t`. */
  lemma {:induction false} TargetedAtMembers(metas: seq<OPFMetadatum>, items: seq<OPFItem>, refiners: seq<Refiner>, t: Target)
    ensures forall x :: x in TargetedAt(metas, items, refiners, t) <==>
                        x in refiners && TargetOf(metas, items, x.RefinesValue()) == t
  {
    if refiners != [] {
      var init := refiners[..|refiners| - 1];
      TargetedAtMembers(metas, items, init, t);
      assert refiners == init + [refiners[|refiners| - 1]];
    }
  }

  lemma TargetedAtAppend(metas: seq<OPFMetadatum>, items: seq<OPFItem>, refiners: seq<Refiner>, x: Refiner, t: Target)
    ensures TargetedAt(metas, items, refiners + [x], t) ==
            TargetedAt(metas, items, refiners, t) + (if TargetOf(metas, items, x.RefinesValue()) == t then [x] else [])
  {
    assert (refiners + [x])[..|refiners|] == refiners;
  }

  /** One step of the refinement loop, for one object: resolving refiner `k` extends what it holds by at most that refiner. */
  lemma AttachStep(metas: seq<OPFMetadatum>, items: seq<OPFItem>, refiners: seq<Refiner>, k: nat,
                   prior: seq<Refiner>, mid: seq<Refiner>, now: seq<Refiner>, t: Target)
    requires k < |refiners|
    requires mid == prior + TargetedAt(metas, items, refiners[..k], t)
    requires now == mid + (if TargetOf(metas, items, refiners[k].RefinesValue()) == t then [refiners[k]] else [])
    ensures now == prior + TargetedAt(metas, items, refiners[..k + 1], t)
  {
    var x := refiners[k];
    var before := TargetedAt(metas, items, refiners[..k], t);
    var added := if TargetOf(metas, items, x.RefinesValue()) == t then [x] else [];
    assert refiners[..k + 1] == refiners[..k] + [x];
    TargetedAtAppend(metas, items, refiners[..k], x, t);
    assert TargetedAt(metas, items, refiners[..k + 1], t) == before + added;
    SeqAssoc(prior, before, added);
  }

  lemma SeqAssoc<T>(a: seq<T>, b: seq<T>, c: seq<T>)
    ensures (a + b) + c == a + (b + c)
  {
  }

  /** An EPUB 3 metadatum, the only kind that can refine another entry. */
  function IsMeta3(m: OPFMetadatum): bool
  {
    m.entry.OPFMeta3?
  }

  /** The refiners the pass visits: the EPUB 3 metadata in order, then every link in order. */
  function Refiners(metas: seq<OPFMetadatum>, links: seq<OPFLink>): (r: seq<Refiner>)
    ensures forall x :: x in r && x.ByMeta? ==> x.meta in metas && x.meta.entry.OPFMeta3?
    ensures forall i :: 0 <= i < |metas| && metas[i].entry.OPFMeta3? ==> ByMeta(metas[i]) in r
    ensures forall i :: 0 <= i < |links| ==> ByLink(links[i]) in r
    ensures |r| == |Filter(metas, IsMeta3)| + |links|
  {
    FilterFacts(metas, IsMeta3);
    var metaRefiners := seq(|Filter(metas, IsMeta3)|,
                            i requires 0 <= i < |Filter(metas, IsMeta3)| =>
                              ByMeta(Filter(metas, IsMeta3)[i]));
    var linkRefiners := seq(|links|, i requires 0 <= i < |links| => ByLink(links[i]));
    assert forall i :: 0 <= i < |links| ==> linkRefiners[i] == ByLink(links[i]);
    assert forall i :: 0 <= i < |metas| && metas[i].entry.OPFMeta3? ==> ByMeta(metas[i]) in metaRefiners by {
      var f := Filter(metas, IsMeta3);
      forall i | 0 <= i < |metas| && metas[i].entry.OPFMeta3? ensures ByMeta(metas[i]) in metaRefiners {
        var k :| 0 <= k < |f| && f[k] == metas[i];
        assert metaRefiners[k] == ByMeta(metas[i]);
      }
    }
    assert forall x :: x in metaRefiners ==> x.ByMeta? && x.meta in metas && x.meta.entry.OPFMeta3? by {
      var f := Filter(metas, IsMeta3);
      forall x | x in metaRefiners ensures x.ByMeta? && x.meta in metas && x.meta.entry.OPFMeta3? {
        var k :| 0 <= k < |metaRefiners| && metaRefiners[k] == x;
        assert f[k] in f;
      }
    }
    assert forall x :: x in linkRefiners ==> x.ByLink?;
    metaRefiners + linkRefiners
  }

  /** A refiner is attached to at most one object: its target is unique. */
  lemma AttachedOnce(metas: seq<OPFMetadatum>, items: seq<OPFItem>, refiners: seq<Refiner>, x: Refiner, t1: Target, t2: Target)
    requires x in TargetedAt(metas, items, refiners, t1) && x in TargetedAt(metas, items, refiners, t2)
    ensures t1 == t2
  {
    TargetedAtMembers(metas, items, refiners, t1);
    TargetedAtMembers(metas, items, refiners, t2);
  }

  /** A `#X` with a metadatum of id X attaches there even when an item also has id X. */
  lemma MetadatumBeforeItem(metas: seq<OPFMetadatum>, items: seq<OPFItem>, x: string, k: nat)
    requires k < |metas| && metas[k].entry.id == Some(x)
    ensures TargetOf(metas, items, Some("#" + x)).ToMetadatum?
    ensures TargetOf(metas, items, Some("#" + x)).metadatum.entry.id == Some(x)
  {
    assert ("#" + x)[1..] == x;
  }

  /** A `refines` without the leading `#`, or an empty one, attaches nowhere, even if it is an existing id. */
  lemma BareIdIgnored(metas: seq<OPFMetadatum>, items: seq<OPFItem>, x: string)
    requires x == [] || x[0] != '#'
    ensures TargetOf(metas, items, Some(x)) == Untargeted
  {
  }

  // ---------------------------------------------------------------------
  // Paths
  // ---------------------------------------------------------------------

  /** The path the `files_referenced_*` loops record for an href: resolved when the document has a path. */
  function ResolveHref(documentPath: Option<string>, href: Option<string>): (r: Option<string>)
    ensures documentPath.None? ==> r == href
    ensures documentPath.Some? ==> r == NormJoinParent(documentPath, href) && (r.None? <==> href.None?)
  {
    if documentPath.Some? then NormJoinParent(documentPath, href) else href
  }

  /** Whether the itemref's idref names a manifest item. */
  predicate Resolves(items: seq<OPFItem>, itemref: OPFItemref)
  {
    ItemWithId(items, itemref.idref).Some?
  }

  /** What `_files_referenced_spine` records for one itemref: the path of its item, or nothing. */
  function SpineEntry(items: seq<OPFItem>, itemref: OPFItemref, documentPath: Option<string>): (r: seq<Option<string>>)
    ensures |r| <= 1
  {
    match ItemWithId(items, itemref.idref)
    case None => []
    case Some(it) => [ResolveHref(documentPath, it.href)]
  }

  /** `_files_referenced_spine`: one path per itemref whose idref names an item, in spine order. */
  function SpinePaths(items: seq<OPFItem>, itemrefs: seq<OPFItemref>, documentPath: Option<string>): (r: seq<Option<string>>)
    ensures |r| <= |itemrefs|
  {
    if itemrefs == [] then []
    else SpineEntry(items, itemrefs[0], documentPath) + SpinePaths(items, itemrefs[1..], documentPath)
  }

  /** One entry exactly when the idref names a manifest item. */
  lemma SpineEntryResolves(items: seq<OPFItem>, itemref: OPFItemref, documentPath: Option<string>)
    ensures |SpineEntry(items, itemref, documentPath)| == if Resolves(items, itemref) then 1 else 0
  {
  }

  /** Exactly one path per resolving itemref: unresolved idrefs are skipped, nothing else is. */
  lemma {:induction false} SpinePathsCount(items: seq<OPFItem>, itemrefs: seq<OPFItemref>, documentPath: Option<string>)
    ensures |SpinePaths(items, itemrefs, documentPath)| == |Filter(itemrefs, (x: OPFItemref) => Resolves(items, x))|
  {
    if itemrefs != [] {
      SpinePathsCount(items, itemrefs[1..], documentPath);
      SpineEntryResolves(items, itemrefs[0], documentPath);
    }
  }

  /** When every idref resolves, there is one path per itemref. */
  lemma {:induction false} SpinePathsAllResolve(items: seq<OPFItem>, itemrefs: seq<OPFItemref>, documentPath: Option<string>)
    requires forall i :: 0 <= i < |itemrefs| ==> Resolves(items, itemrefs[i])
    ensures |SpinePaths(items, itemrefs, documentPath)| == |itemrefs|
  {
    if itemrefs != [] {
      assert forall i :: 0 <= i < |itemrefs[1..]| ==> Resolves(items, itemrefs[1..][i]) by {
        forall i | 0 <= i < |itemrefs[1..]| ensures Resolves(items, itemrefs[1..][i]) {
          assert itemrefs[1..][i] == itemrefs[i + 1];
        }
      }
      SpinePathsAllResolve(items, itemrefs[1..], documentPath);
      SpineEntryResolves(items, itemrefs[0], documentPath);
      assert Resolves(items, itemrefs[0]);
    }
  }

  lemma {:induction false} SpinePathsAppend(items: seq<OPFItem>, itemrefs: seq<OPFItemref>, x: OPFItemref, documentPath: Option<string>)
    ensures SpinePaths(items, itemrefs + [x], documentPath) ==
            SpinePaths(items, itemrefs, documentPath) + SpineEntry(items, x, documentPath)
  {
    if itemrefs == [] {
      assert itemrefs + [x] == [x];
      assert [x][1..] == [];
    } else {
      assert (itemrefs + [x])[1..] == itemrefs[1..] + [x];
      SpinePathsAppend(items, itemrefs[1..], x, documentPath);
    }
  }

  lemma {:induction false} SubsequenceStep<T>(a: seq<T>, b: seq<T>, e: seq<T>)
    requires IsSubsequence(a, b) && |e| <= 1
    ensures IsSubsequence(e + a, e + b) && IsSubsequence(a, e + b)
  {
    if e != [] {
      assert (e + b)[1..] == b;
      assert (e + a)[1..] == a;
    } else {
      assert e + a == a;
      assert e + b == b;
    }
  }

  /** Unfolding the linear spine by one itemref. */
  lemma SpinePathsOfLinear(items: seq<OPFItem>, itemrefs: seq<OPFItemref>, documentPath: Option<string>)
    requires itemrefs != []
    ensures SpinePaths(items, Linear(itemrefs), documentPath) ==
            (if itemrefs[0].linear != Some(LINEAR_NO) then SpineEntry(items, itemrefs[0], documentPath) else []) +
            SpinePaths(items, Linear(itemrefs[1..]), documentPath)
  {
    if itemrefs[0].linear != Some(LINEAR_NO) {
      assert Linear(itemrefs) == [itemrefs[0]] + Linear(itemrefs[1..]);
      assert ([itemrefs[0]] + Linear(itemrefs[1..]))[1..] == Linear(itemrefs[1..]);
    } else {
      assert Linear(itemrefs) == Linear(itemrefs[1..]);
    }
  }

  /** The files of the linear spine are a subsequence of the files of the whole spine. */
  lemma {:induction false} LinearFilesSubsequence(items: seq<OPFItem>, itemrefs: seq<OPFItemref>, documentPath: Option<string>)
    ensures IsSubsequence(SpinePaths(items, Linear(itemrefs), documentPath), SpinePaths(items, itemrefs, documentPath))
  {
    if itemrefs != [] {
      LinearFilesSubsequence(items, itemrefs[1..], documentPath);
      SpinePathsOfLinear(items, itemrefs, documentPath);
      SubsequenceStep(SpinePaths(items, Linear(itemrefs[1..]), documentPath),
                      SpinePaths(items, itemrefs[1..], documentPath),
                      SpineEntry(items, itemrefs[0], documentPath));
      if itemrefs[0].linear == Some(LINEAR_NO) {
        assert [] + SpinePaths(items, Linear(itemrefs[1..]), documentPath) == SpinePaths(items, Linear(itemrefs[1..]), documentPath);
      }
    }
  }

  ghost predicate MetasUnrefined(metas: seq<OPFMetadatum>)
    reads metas
  {
    forall m :: m in metas ==> m.refinements == []
  }

  ghost predicate ItemsUnrefined(items: seq<OPFItem>)
    reads items
  {
    forall it :: it in items ==> it.refinements == []
  }

  class OPFPacDocument {
    const internalPath: Option<string>
    const id: Option<string>
    const dir: Option<string>
    const xmlLang: Option<string>
    const prefix: Option<string>
    const version: Option<string>
    const uniqueIdentifier: Option<string>
    const metadata: OPFMetadata
    const manifest: OPFManifest
    const spine: OPFSpine
    const guide: OPFGuide?

    constructor (internalPath: Option<string>, package: Node, uniqueIdentifier: Option<string>,
                 metadata: OPFMetadata, manifest: OPFManifest, spine: OPFSpine, guide: OPFGuide?)
      ensures this.internalPath == internalPath && AttributesOf(package)
      ensures this.uniqueIdentifier == uniqueIdentifier
      ensures this.metadata == metadata && this.manifest == manifest && this.spine == spine && this.guide == guide
    {
      this.internalPath := internalPath;
      id := Attr(package, "id");
      dir := Attr(package, "dir");
      xmlLang := Attr(package, Q(NS_XML, "lang"));
      prefix := Attr(package, "prefix");
      version := Attr(package, "version");
      this.uniqueIdentifier := uniqueIdentifier;
      this.metadata := metadata;
      this.manifest := manifest;
      this.spine := spine;
      this.guide := guide;
    }

    /** The attributes copied from the `<package>` element. */
    ghost predicate AttributesOf(package: Node)
    {
      id == Attr(package, "id") && dir == Attr(package, "dir") && xmlLang == Attr(package, Q(NS_XML, "lang")) &&
      prefix == Attr(package, "prefix") && version == Attr(package, "version")
    }

    /**
      `parse_object`: `root` must be `<package>` and must hold `<manifest>`,
      `<metadata>` and `<spine>` (the first of each is parsed); a missing
      one fails the parse. The first `<guide>`, if any, is parsed too. The
      unique identifier is the text of the first metadatum whose id is the
      package's `unique-identifier`. Then every EPUB 3 metadatum and every
      link is attached to the object its `refines` names.
    */
    static method Parse(root: Node, internalPath: Option<string>) returns (r: Result<OPFPacDocument>)
      ensures root.tag != Q(NS_OPF, "package") ==> r == Fail(MissingElement("package"))
      ensures root.tag == Q(NS_OPF, "package") && Children(root, Q(NS_OPF, "manifest")) == [] ==>
                r == Fail(MissingElement("manifest"))
      ensures r.Ok? <==> root.tag == Q(NS_OPF, "package") && Children(root, Q(NS_OPF, "manifest")) != [] &&
                         Children(root, Q(NS_OPF, "metadata")) != [] && Children(root, Q(NS_OPF, "spine")) != []
      ensures r.Ok? ==> fresh(r.value) && r.value.internalPath == internalPath && r.value.Parsed(root)
      ensures r.Ok? ==> fresh(r.value.manifest.items) && r.value.RefinementsResolved()
    {
      if root.tag != Q(NS_OPF, "package") {
        return Fail(MissingElement("package"));
      }
      if Children(root, Q(NS_OPF, "manifest")) == [] {
        return Fail(MissingElement("manifest"));
      }
      if Children(root, Q(NS_OPF, "metadata")) == [] {
        return Fail(MissingElement("metadata"));
      }
      if Children(root, Q(NS_OPF, "spine")) == [] {
        return Fail(MissingElement("spine"));
      }
      var doc := Build(root, internalPath);
      return Ok(doc);
    }

    /** The successful path of `parse_object`: the parts, the unique identifier, then the refinement pass. */
    static method Build(root: Node, internalPath: Option<string>) returns (doc: OPFPacDocument)
      requires Children(root, Q(NS_OPF, "manifest")) != [] && Children(root, Q(NS_OPF, "metadata")) != []
      requires Children(root, Q(NS_OPF, "spine")) != []
      ensures fresh(doc) && doc.internalPath == internalPath && doc.Parsed(root)
      ensures fresh(doc.manifest.items) && doc.RefinementsResolved()
    {
      var spine := OPFSpine.Parse(Children(root, Q(NS_OPF, "spine"))[0], internalPath);
      var guide := ParseGuide(root, internalPath);
      var manifest, metadata := ParseEntries(root, internalPath);
      var uid := UniqueIdentifierOf(metadata.metadata, Attr(root, "unique-identifier"));
      doc := new OPFPacDocument(internalPath, root, uid, metadata, manifest, spine, guide);
      assert doc.Parsed(root);
      assert doc.Unresolved();
      assert fresh(doc.metadata.metadata) && fresh(doc.manifest.items);
      doc.ResolveRefinements();
    }

    /** The `<manifest>` and `<metadata>` parts: fresh items and metadata, none refined yet. */
    static method ParseEntries(root: Node, internalPath: Option<string>) returns (manifest: OPFManifest, metadata: OPFMetadata)
      requires Children(root, Q(NS_OPF, "manifest")) != [] && Children(root, Q(NS_OPF, "metadata")) != []
      ensures fresh(manifest) && manifest.ParsedFrom(Children(root, Q(NS_OPF, "manifest"))[0], internalPath)
      ensures fresh(metadata) && metadata.ParsedFrom(Children(root, Q(NS_OPF, "metadata"))[0], internalPath)
      ensures fresh(manifest.items) && ItemsUnrefined(manifest.items)
      ensures fresh(metadata.metadata) && MetasUnrefined(metadata.metadata)
    {
      manifest := OPFManifest.Parse(Children(root, Q(NS_OPF, "manifest"))[0], internalPath);
      assert fresh(manifest.items) && ItemsUnrefined(manifest.items);
      metadata := OPFMetadata.Parse(Children(root, Q(NS_OPF, "metadata"))[0], internalPath);
    }

    /** The optional `<guide>`: the first one is parsed, and without one the guide stays null. */
    static method ParseGuide(root: Node, internalPath: Option<string>) returns (guide: OPFGuide?)
      ensures guide == null <==> Children(root, Q(NS_OPF, "guide")) == []
      ensures guide != null ==> fresh(guide) && guide.ParsedFrom(Children(root, Q(NS_OPF, "guide"))[0], internalPath)
    {
      guide := null;
      var guideNodes := Children(root, Q(NS_OPF, "guide"));
      if guideNodes != [] {
        guide := OPFGuide.Parse(guideNodes[0], internalPath);
      }
    }

    /** No metadatum and no item holds a refinement yet. */
    ghost predicate Unresolved()
      reads this, metadata, manifest, metadata.metadata, manifest.items
    {
      MetasUnrefined(metadata.metadata) && ItemsUnrefined(manifest.items)
    }

    /** The two refinement loops of `parse_object`, run on the parsed metadata and manifest. */
    method ResolveRefinements()
      requires Unresolved()
      modifies metadata.metadata, manifest.items
      ensures unchanged(this, metadata, manifest, spine) && (guide != null ==> unchanged(guide))
      ensures RefinementsResolved()
    {
      ResolveAll(metadata.metadata, manifest.items, Refiners(metadata.metadata, metadata.links));
    }

    /** The parts of the document are the parses of the first `<manifest>`, `<metadata>`, `<spine>` and `<guide>` children of `<package>`. */
    ghost predicate Parsed(root: Node)
      reads this, metadata, manifest, spine, guide
    {
      AttributesOf(root) &&
      Children(root, Q(NS_OPF, "manifest")) != [] && Children(root, Q(NS_OPF, "metadata")) != [] &&
      Children(root, Q(NS_OPF, "spine")) != [] &&
      manifest.ParsedFrom(Children(root, Q(NS_OPF, "manifest"))[0], internalPath) &&
      metadata.ParsedFrom(Children(root, Q(NS_OPF, "metadata"))[0], internalPath) &&
      spine.ParsedFrom(Children(root, Q(NS_OPF, "spine"))[0], internalPath) &&
      (guide == null <==> Children(root, Q(NS_OPF, "guide")) == []) &&
      (guide != null ==> guide.ParsedFrom(Children(root, Q(NS_OPF, "guide"))[0], internalPath)) &&
      uniqueIdentifier == UniqueIdentifierOf(metadata.metadata, Attr(root, "unique-identifier"))
    }

    /** Every metadatum and every item holds exactly the refiners that resolve to it, in pass order. */
    ghost predicate RefinementsResolved()
      reads this, metadata, manifest, metadata.metadata, manifest.items
    {
      var refiners := Refiners(metadata.metadata, metadata.links);
      (forall m :: m in metadata.metadata ==>
         m.refinements == TargetedAt(metadata.metadata, manifest.items, refiners, ToMetadatum(m))) &&
      (forall it :: it in manifest.items ==>
         it.refinements == TargetedAt(metadata.metadata, manifest.items, refiners, ToItem(it)))
    }

    /** Every metadatum holds its refinements from `before`, then the refiners among `refiners` that resolve to it. */
    static ghost predicate MetasAttached(metas: seq<OPFMetadatum>, items: seq<OPFItem>, refiners: seq<Refiner>,
                                         before: map<OPFMetadatum, seq<Refiner>>)
      reads metas
    {
      forall m :: m in metas ==> m in before && m.refinements == before[m] + TargetedAt(metas, items, refiners, ToMetadatum(m))
    }

    /** Every item holds its refinements from `before`, then the refiners among `refiners` that resolve to it. */
    static ghost predicate ItemsAttached(metas: seq<OPFMetadatum>, items: seq<OPFItem>, refiners: seq<Refiner>,
                                        before: map<OPFItem, seq<Refiner>>)
      reads items
    {
      forall it :: it in items ==> it in before && it.refinements == before[it] + TargetedAt(metas, items, refiners, ToItem(it))
    }

    /** `_resolve_refinement` for one refiner: at most one object gets it appended. */
    static method ResolveRefinement(metas: seq<OPFMetadatum>, items: seq<OPFItem>, x: Refiner)
      modifies metas, items
      ensures forall m :: m in metas ==>
                m.refinements == old(m.refinements) + (if TargetOf(metas, items, x.RefinesValue()) == ToMetadatum(m) then [x] else [])
      ensures forall it :: it in items ==>
                it.refinements == old(it.refinements) + (if TargetOf(metas, items, x.RefinesValue()) == ToItem(it) then [x] else [])
      ensures forall it :: it in items ==> it.asset == old(it.asset)
    {
      var refinesAttr := x.RefinesValue();
      if refinesAttr.Some? && |refinesAttr.value| > 0 && refinesAttr.value[0] == '#' {
        var refinesId := Some(refinesAttr.value[1..]);
        var refined := MetadatumWithId(metas, refinesId);
        if refined.Some? {
          refined.value.AddRefinement(x);
          return;
        }
        var item := ItemWithId(items, refinesId);
        if item.Some? {
          item.value.AddRefinement(x);
        }
      }
    }

    /** The refinement loops of `parse_object`: every refiner is resolved, in order. */
    static method ResolveAll(metas: seq<OPFMetadatum>, items: seq<OPFItem>, refiners: seq<Refiner>)
      modifies metas, items
      ensures forall m :: m in metas ==>
                m.refinements == old(m.refinements) + TargetedAt(metas, items, refiners, ToMetadatum(m))
      ensures forall it :: it in items ==>
                it.refinements == old(it.refinements) + TargetedAt(metas, items, refiners, ToItem(it))
      ensures forall it :: it in items ==> it.asset == old(it.asset)
    {
      ghost var metas0: map<OPFMetadatum, seq<Refiner>> := map m: OPFMetadatum | m in metas :: m.refinements;
      ghost var items0: map<OPFItem, seq<Refiner>> := map it: OPFItem | it in items :: it.refinements;
      ghost var assets0: map<OPFItem, Asset?> := map it: OPFItem | it in items :: it.asset;
      var k := 0;
      while k < |refiners|
        invariant 0 <= k <= |refiners|
        invariant MetasAttached(metas, items, refiners[..k], metas0)
        invariant ItemsAttached(metas, items, refiners[..k], items0)
        invariant forall it :: it in items ==> it in assets0 && it.asset == assets0[it]
      {
        var x := refiners[k];
        ghost var metasMid: map<OPFMetadatum, seq<Refiner>> := map m: OPFMetadatum | m in metas :: m.refinements;
        ghost var itemsMid: map<OPFItem, seq<Refiner>> := map it: OPFItem | it in items :: it.refinements;
        ResolveRefinement(metas, items, x);
        forall m | m in metas
          ensures m.refinements == metas0[m] + TargetedAt(metas, items, refiners[..k + 1], ToMetadatum(m))
        {
          AttachStep(metas, items, refiners, k, metas0[m], metasMid[m], m.refinements, ToMetadatum(m));
        }
        forall it | it in items
          ensures it.refinements == items0[it] + TargetedAt(metas, items, refiners[..k + 1], ToItem(it))
        {
          AttachStep(metas, items, refiners, k, items0[it], itemsMid[it], it.refinements, ToItem(it));
        }
        k := k + 1;
      }
      assert refiners[..k] == refiners;
    }

    /** `relative_path_cover_image`: the href of the `cover-image` item, else that of the item the EPUB 2 cover meta names, else None. */
    function RelativePathCoverImage(): (r: Option<string>)
      reads this, manifest, metadata
      ensures manifest.ItemWithProperty(PROPERTY_COVER_IMAGE).Some? &&
              manifest.ItemWithProperty(PROPERTY_COVER_IMAGE).value.href.Some? ==>
                r == manifest.ItemWithProperty(PROPERTY_COVER_IMAGE).value.href
      ensures !(manifest.ItemWithProperty(PROPERTY_COVER_IMAGE).Some? &&
                manifest.ItemWithProperty(PROPERTY_COVER_IMAGE).value.href.Some?) ==>
                r == match ItemWithId(manifest.items, metadata.CoverImageItemId())
                     case Some(it) => it.href
                     case None => None
      ensures r.Some? ==> exists k :: 0 <= k < |manifest.items| && manifest.items[k].href == r &&
                            (manifest.items[k].HasProperty(PROPERTY_COVER_IMAGE) ||
                             manifest.items[k].id == metadata.CoverImageItemId())
    {
      var epub3 := manifest.ItemWithProperty(PROPERTY_COVER_IMAGE);
      if epub3.Some? && epub3.value.href.Some? then epub3.value.href
      else
        match ItemWithId(manifest.items, metadata.CoverImageItemId())
        case Some(it) => it.href
        case None => None
    }

    /** `internal_path_cover_image`. */
    function InternalPathCoverImage(): (r: Option<string>)
      reads this, manifest, metadata
      ensures r.None? <==> internalPath.None? || RelativePathCoverImage().None?
      ensures r == NormJoinParent(internalPath, RelativePathCoverImage())
    {
      RelativeToInternal(RelativePathCoverImage())
    }

    /** `relative_path_nav_document`: the href of the first `nav` item, or None. */
    function RelativePathNavDocument(): (r: Option<string>)
      reads this, manifest
      ensures (forall i :: 0 <= i < |manifest.items| ==> !manifest.items[i].HasProperty(PROPERTY_NAV)) ==> r.None?
      ensures r.Some? ==> exists k :: 0 <= k < |manifest.items| && manifest.items[k].href == r &&
                            manifest.items[k].HasProperty(PROPERTY_NAV) &&
                            forall j :: 0 <= j < k ==> !manifest.items[j].HasProperty(PROPERTY_NAV)
      ensures forall k :: 0 <= k < |manifest.items| && manifest.items[k].HasProperty(PROPERTY_NAV) &&
                          (forall j :: 0 <= j < k ==> !manifest.items[j].HasProperty(PROPERTY_NAV)) ==>
                            r == manifest.items[k].href
    {
      match manifest.ItemWithProperty(PROPERTY_NAV)
      case Some(it) => it.href
      case None => None
    }

    /** `internal_path_nav_document`. */
    function InternalPathNavDocument(): (r: Option<string>)
      reads this, manifest
      ensures r.None? <==> internalPath.None? || RelativePathNavDocument().None?
      ensures r == NormJoinParent(internalPath, RelativePathNavDocument())
    {
      RelativeToInternal(RelativePathNavDocument())
    }

    /** `relative_path_ncx_toc`: the href of the first item whose id is the spine's `toc`, or None. */
    function RelativePathNcxToc(): (r: Option<string>)
      reads this, manifest, spine
      ensures (forall i :: 0 <= i < |manifest.items| ==> manifest.items[i].id != spine.toc) ==> r.None?
      ensures r.Some? ==> exists k :: 0 <= k < |manifest.items| && manifest.items[k].href == r &&
                            manifest.items[k].id == spine.toc &&
                            forall j :: 0 <= j < k ==> manifest.items[j].id != spine.toc
      ensures forall k :: 0 <= k < |manifest.items| && manifest.items[k].id == spine.toc &&
                          (forall j :: 0 <= j < k ==> manifest.items[j].id != spine.toc) ==>
                            r == manifest.items[k].href
    {
      match ItemWithId(manifest.items, spine.toc)
      case Some(it) => it.href
      case None => None
    }

    /** `internal_path_ncx_toc`. */
    function InternalPathNcxToc(): (r: Option<string>)
      reads this, manifest, spine
      ensures r.None? <==> internalPath.None? || RelativePathNcxToc().None?
      ensures r == NormJoinParent(internalPath, RelativePathNcxToc())
    {
      RelativeToInternal(RelativePathNcxToc())
    }

    /** `relative_to_internal`: `norm_join_parent` of the document's path and `path`. */
    function RelativeToInternal(path: Option<string>): (r: Option<string>)
      ensures r.None? <==> internalPath.None? || path.None?
      ensures r.Some? ==> NormPath(r.value) == r.value
      ensures r == NormJoinParent(internalPath, path)
    {
      if internalPath.Some? && path.Some? then
        NormJoinParentNormal(internalPath, path);
        NormJoinParent(internalPath, path)
      else None
    }

    /** `files_referenced_manifest`: one path per manifest item, in manifest order. */
    method FilesReferencedManifest() returns (r: seq<Option<string>>)
      ensures |r| == |manifest.items|
      ensures forall i :: 0 <= i < |r| ==> r[i] == ResolveHref(internalPath, manifest.items[i].href)
    {
      var accumulator: seq<Option<string>> := [];
      var k := 0;
      while k < |manifest.items|
        invariant 0 <= k <= |manifest.items| && |accumulator| == k
        invariant forall i :: 0 <= i < k ==> accumulator[i] == ResolveHref(internalPath, manifest.items[i].href)
      {
        var path := manifest.items[k].href;
        if internalPath.Some? {
          path := RelativeToInternal(path);
        }
        accumulator := accumulator + [path];
        k := k + 1;
      }
      return accumulator;
    }

    /** The accumulator loop of `_files_referenced_spine`. */
    method FilesReferencedSpineOf(itemrefs: seq<OPFItemref>) returns (r: seq<Option<string>>)
      ensures r == SpinePaths(manifest.items, itemrefs, internalPath)
    {
      var accumulator: seq<Option<string>> := [];
      var k := 0;
      while k < |itemrefs|
        invariant 0 <= k <= |itemrefs|
        invariant accumulator == SpinePaths(manifest.items, itemrefs[..k], internalPath)
      {
        assert itemrefs[..k + 1] == itemrefs[..k] + [itemrefs[k]];
        SpinePathsAppend(manifest.items, itemrefs[..k], itemrefs[k], internalPath);
        ghost var entry := SpineEntry(manifest.items, itemrefs[k], internalPath);
        var item := ItemWithId(manifest.items, itemrefs[k].idref);
        if item.Some? {
          var path := item.value.href;
          if internalPath.Some? {
            path := RelativeToInternal(path);
          }
          assert entry == [path];
          accumulator := accumulator + [path];
        } else {
          assert entry == [];
        }
        k := k + 1;
      }
      assert itemrefs[..k] == itemrefs;
      return accumulator;
    }

    /** `files_referenced_spine`. */
    method FilesReferencedSpine() returns (r: seq<Option<string>>)
      ensures r == SpinePaths(manifest.items, spine.itemrefs, internalPath)
      ensures |r| <= |spine.itemrefs|
    {
      r := FilesReferencedSpineOf(spine.itemrefs);
    }

    /** `files_referenced_spine_linear`: the same paths for the linear itemrefs only. */
    method FilesReferencedSpineLinear() returns (r: seq<Option<string>>)
      ensures r == SpinePaths(manifest.items, Linear(spine.itemrefs), internalPath)
      ensures IsSubsequence(r, SpinePaths(manifest.items, spine.itemrefs, internalPath))
    {
      LinearFilesSubsequence(manifest.items, spine.itemrefs, internalPath);
      r := FilesReferencedSpineOf(spine.LinearItemrefs());
    }

    /** `item_by_internal_path`: the first manifest item with that internal path, or None. */
    function ItemByInternalPath(path: Option<string>): (r: Option<OPFItem>)
      reads this, manifest
      ensures r.None? <==> forall i :: 0 <= i < |manifest.items| ==> manifest.items[i].internalPath != path
      ensures r.Some? ==> exists k :: 0 <= k < |manifest.items| && manifest.items[k] == r.value &&
                            r.value.internalPath == path &&
                            forall j :: 0 <= j < k ==> manifest.items[j].internalPath != path
    {
      manifest.ItemByInternalPath(path)
    }

    /** `spine_index_by_internal_path`: -1 without such an item, else the spine index of the item's id. */
    method SpineIndexByInternalPath(path: Option<string>) returns (r: int)
      ensures (forall i :: 0 <= i < |manifest.items| ==> manifest.items[i].internalPath != path) ==> r == -1
      ensures ItemByInternalPath(path).Some? ==> r == IndexOfIdref(spine.itemrefs, ItemByInternalPath(path).value.id)
      ensures -1 <= r < |spine.itemrefs|
    {
      var item := ItemByInternalPath(path);
      if item.Some? {
        r := spine.IndexByIdref(item.value.id);
      } else {
        r := -1;
      }
    }

    /** `spine_linear_index_by_internal_path`: the same in the linear spine. */
    method SpineLinearIndexByInternalPath(path: Option<string>) returns (r: int)
      ensures (forall i :: 0 <= i < |manifest.items| ==> manifest.items[i].internalPath != path) ==> r == -1
      ensures ItemByInternalPath(path).Some? ==> r == IndexOfIdref(Linear(spine.itemrefs), ItemByInternalPath(path).value.id)
      ensures -1 <= r < |Linear(spine.itemrefs)|
    {
      var item := ItemByInternalPath(path);
      if item.Some? {
        r := spine.LinearIndexByIdref(item.value.id);
      } else {
        r := -1;
      }
    }

    /**
      What the package document says does not change while its own objects
      are left as they are, whatever else changes (the assets of its items,
      for one).
    */
    twostate lemma Kept(root: Node)
      requires unchanged(this, manifest, metadata, spine) && (guide != null ==> unchanged(guide))
      ensures old(Parsed(root)) ==> Parsed(root)
    {
    }

    /** The paths the package document names depend on its own path, its manifest items and its spine's `toc` alone. */
    lemma PathsIn()
      ensures InternalPathNavDocument() == NavDocumentPathIn(internalPath, manifest.items)
      ensures InternalPathNcxToc() == NcxTocPathIn(internalPath, manifest.items, spine.toc)
      ensures manifest.SmilItems() == ItemsWithMediaType(manifest.items, Some(MediaTypes.SMIL))
    {
    }
  }

  /** `internal_path_nav_document` of a package document at `internalPath` whose manifest lists `items`. */
  function NavDocumentPathIn(internalPath: Option<string>, items: seq<OPFItem>): Option<string>
  {
    var it := ItemWithPropertyIn(items, PROPERTY_NAV);
    if internalPath.Some? && it.Some? && it.value.href.Some? then NormJoinParent(internalPath, it.value.href) else None
  }

  /** `internal_path_ncx_toc` of a package document at `internalPath` whose manifest lists `items` and whose spine names `toc`. */
  function NcxTocPathIn(internalPath: Option<string>, items: seq<OPFItem>, toc: Option<string>): Option<string>
  {
    var it := ItemWithId(items, toc);
    if internalPath.Some? && it.Some? && it.value.href.Some? then NormJoinParent(internalPath, it.value.href) else None
  }

  /** The unique identifier: the text of the first metadatum with that id (None matches one without id), or None. */
  function UniqueIdentifierOf(metas: seq<OPFMetadatum>, uid: Option<string>): (r: Option<string>)
    ensures (forall i :: 0 <= i < |metas| ==> metas[i].entry.id != uid) ==> r.None?
    ensures r.Some? ==> exists k :: 0 <= k < |metas| && metas[k].entry.id == uid && metas[k].entry.text == r &&
                                    forall j :: 0 <= j < k ==> metas[j].entry.id != uid
  ensures forall k :: 0 <= k < |metas| && metas[k].entry.id == uid &&
                      (forall j :: 0 <= j < k ==> metas[j].entry.id != uid) ==>
                        r == metas[k].entry.text
  {
    match MetadatumWithId(metas, uid)
    case Some(m) => m.entry.text
    case None => None
  }
}
