/**
  The publication: every asset of the container by internal path, the
  parsed `META-INF/container.xml` with its renditions, and the optional
  `META-INF/metadata.xml` and `META-INF/encryption.xml`.

  The container (ZIP file or directory) is a snapshot `files` from path to
  contents; a well-formed XML file carries the tree lxml builds from it.
*/
module Publications {
  import opened Wrappers
  import opened Util
  import opened Xml
  import opened Paths
  import Obfuscation
  import MediaTypes
  import opened Assets
  import ContainerXml
  import opened Renditions
  import MetadataXml
  import EncryptionXml
  import RenditionMapping
  import Nav
  import Ncx
  import MediaOverlay
  import OpfPacDocument
  import OpfManifest
  import OpfEntities

  const INTERNAL_PATH_MIMETYPE := "mimetype"
  const INTERNAL_PATH_CONTAINER_XML := "META-INF/container.xml"
  const INTERNAL_PATH_ENCRYPTION_XML := "META-INF/encryption.xml"
  const INTERNAL_PATH_METADATA_XML := "META-INF/metadata.xml"

  // The parsing options and their negations.
  const ASSET_REFS := "asset_refs"
  const NO_ASSET_REFS := "no_asset_refs"
  const ENCRYPTION := "encryption"
  const NO_ENCRYPTION := "no_encryption"
  const MEDIA_OVERLAY := "media_overlay"
  const NO_MEDIA_OVERLAY := "no_media_overlay"
  const MULTIPLE_RENDITIONS := "multiple_renditions"
  const NO_MULTIPLE_RENDITIONS := "no_multiple_renditions"
  const NCX := "ncx"
  const NO_NCX := "no_ncx"
  const NAV := "nav"
  const NO_NAV := "no_nav"

  /** An optional step runs when it is listed, or when its negation is not: by default every step runs. */
  predicate Enabled(options: seq<string>, on: string, off: string)
  {
    on in options || off !in options
  }

  // ---------------------------------------------------------------------
  // The container's files
  // ---------------------------------------------------------------------

  /** A file of the container: its bytes and, when they are well-formed XML, their tree. */
  datatype FileEntry = FileEntry(data: Obfuscation.Bytes, xml: Option<Node>)

  /** What an XML file of the container gives: no contents, contents lxml rejects, or a tree. */
  datatype XmlDoc = Absent | Malformed | Tree(root: Node)

  /** The contents an asset at `p` reads: None without a path or without such a file. */
  function ReadFile(files: map<string, FileEntry>, p: Option<string>): Option<Obfuscation.Bytes>
  {
    if p.Some? && p.value in files then Some(files[p.value].data) else None
  }

  /** The XML document at `p`. */
  function XmlAt(files: map<string, FileEntry>, p: Option<string>): XmlDoc
  {
    if ReadFile(files, p).None? then Absent
    else if files[p.value].xml.None? then Malformed
    else Tree(files[p.value].xml.value)
  }

  /** `metadata.xml`: None when the file is absent; its parse otherwise. */
  function MetadataAt(files: map<string, FileEntry>): Result<Option<MetadataXml.Metadata>>
  {
    match XmlAt(files, Some(INTERNAL_PATH_METADATA_XML))
    case Absent => Ok(None)
    case Malformed => Fail(MalformedXml)
    case Tree(root) =>
      var m := MetadataXml.MetadataOf(root, Some(INTERNAL_PATH_METADATA_XML));
      if m.Ok? then Ok(Some(m.value)) else Fail(m.error)
  }

  /** The mapping document after its parse: kept as the container named it when its file is absent. */
  function RmDocumentAt(files: map<string, FileEntry>, rmd: Option<RenditionMapping.RMDocument>)
    : Result<Option<RenditionMapping.RMDocument>>
  {
    if rmd.None? then Ok(None)
    else
      match XmlAt(files, rmd.value.internalPath)
      case Absent => Ok(rmd)
      case Malformed => Fail(MalformedXml)
      case Tree(root) =>
        var d := RenditionMapping.DocumentOf(root, rmd.value.internalPath);
        if d.Ok? then Ok(Some(d.value)) else Fail(d.error)
  }

  /** `encryption.xml`: None when the file is absent; its parse otherwise. */
  function EncryptionAt(files: map<string, FileEntry>): Result<Option<EncryptionXml.Encryption>>
  {
    match XmlAt(files, Some(INTERNAL_PATH_ENCRYPTION_XML))
    case Absent => Ok(None)
    case Malformed => Fail(MalformedXml)
    case Tree(root) =>
      var e := EncryptionXml.EncryptionOf(root, Some(INTERNAL_PATH_ENCRYPTION_XML));
      if e.Ok? then Ok(Some(e.value)) else Fail(e.error)
  }

  /** `container.xml` does not read: its contents are not XML, or their root is not `<container>`. */
  predicate ContainerFails(files: map<string, FileEntry>)
  {
    var doc := XmlAt(files, Some(INTERNAL_PATH_CONTAINER_XML));
    doc.Malformed? || (doc.Tree? && doc.root.tag != ContainerXml.E_CONTAINER)
  }

  /** The mapping document `container.xml` names; None when the file is absent. */
  function NamedRmDocument(files: map<string, FileEntry>): Option<RenditionMapping.RMDocument>
  {
    var doc := XmlAt(files, Some(INTERNAL_PATH_CONTAINER_XML));
    if doc.Tree? then ContainerXml.MappingDocumentOf(Children(doc.root, ContainerXml.E_LINK)) else None
  }

  /** The asset key the mapping document `rmd` adds: its path, when a file is there. */
  function RmKeys(files: map<string, FileEntry>, rmd: Option<RenditionMapping.RMDocument>): set<Option<string>>
  {
    if rmd.Some? && XmlAt(files, rmd.value.internalPath).Tree? then {rmd.value.internalPath} else {}
  }

  /** The root element parses as a package document: `<package>` with a manifest, a metadata and a spine. */
  predicate IsPackage(root: Node)
  {
    root.tag == Q(NS_OPF, "package") && Children(root, Q(NS_OPF, "manifest")) != [] &&
    Children(root, Q(NS_OPF, "metadata")) != [] && Children(root, Q(NS_OPF, "spine")) != []
  }

  /** The Navigation Document at `p`: an empty one when the file is absent. */
  function NavDocumentAt(files: map<string, FileEntry>, p: Option<string>): Result<Nav.NavDocument>
  {
    match XmlAt(files, p)
    case Absent => Ok(Nav.NavDocument(p, []))
    case Malformed => Fail(MalformedXml)
    case Tree(root) => Ok(Nav.DocumentOf(root, p))
  }

  /** An NCX built from no file: every value None and no points. */
  function EmptyNcxToc(p: Option<string>): Ncx.NCXToc
  {
    Ncx.NCXToc(p, None, None, None, None, None, None, None, None, None, None, [])
  }

  /** The NCX at `p`: an empty one when the file is absent. */
  function NcxTocAt(files: map<string, FileEntry>, p: Option<string>): Result<Ncx.NCXToc>
  {
    match XmlAt(files, p)
    case Absent => Ok(EmptyNcxToc(p))
    case Malformed => Fail(MalformedXml)
    case Tree(root) => if root.tag != Ncx.E_NCX then Fail(MissingElement("ncx")) else Ok(Ncx.TocOf(root, p))
  }

  /**
    The Media Overlay Document at `p`: an empty one when the file is
    absent, and None, so that it is skipped, when its parse raises.
  */
  function MoDocumentAt(files: map<string, FileEntry>, p: Option<string>): Option<MediaOverlay.MODocument>
  {
    match XmlAt(files, p)
    case Absent => Some(MediaOverlay.MODocument(p, None, None, None, None))
    case Malformed => None
    case Tree(root) =>
      var d := MediaOverlay.DocumentOf(root, p);
      if d.Ok? then Some(d.value) else None
  }

  /** The documents kept from the Media Overlay paths `ps`, in order. */
  function MoDocumentsAt(files: map<string, FileEntry>, ps: seq<Option<string>>): (r: seq<MediaOverlay.MODocument>)
    ensures |r| <= |ps|
    decreases |ps|
  {
    if ps == [] then []
    else
      var d := MoDocumentAt(files, ps[|ps| - 1]);
      MoDocumentsAt(files, ps[..|ps| - 1]) + (if d.Some? then [d.value] else [])
  }

  /** The paths among `ps` whose Media Overlay Document is kept: exactly those that get an asset. */
  function MoKeys(files: map<string, FileEntry>, ps: seq<Option<string>>): set<Option<string>>
  {
    set p | p in ps && MoDocumentAt(files, p).Some?
  }

  /** One more Media Overlay path: its document, when kept, comes last, and its path joins the keys. */
  lemma MoSnoc(files: map<string, FileEntry>, ps: seq<Option<string>>, p: Option<string>)
    ensures var d := MoDocumentAt(files, p);
            MoDocumentsAt(files, ps + [p]) == MoDocumentsAt(files, ps) + (if d.Some? then [d.value] else []) &&
            MoKeys(files, ps + [p]) == MoKeys(files, ps) + (if d.Some? then {p} else {})
  {
    assert (ps + [p])[..|ps|] == ps;
  }

  /** A kept Media Overlay Document carries the path it was read from. */
  lemma {:induction false} MoDocumentsPaths(files: map<string, FileEntry>, ps: seq<Option<string>>)
    ensures forall d :: d in MoDocumentsAt(files, ps) ==> d.internalPath in MoKeys(files, ps)
    decreases |ps|
  {
    if ps != [] {
      var init := ps[..|ps| - 1];
      MoDocumentsPaths(files, init);
      assert ps == init + [ps[|ps| - 1]];
      forall d | d in MoDocumentsAt(files, ps) ensures d.internalPath in MoKeys(files, ps) {
        if d in MoDocumentsAt(files, init) {
          assert d.internalPath in MoKeys(files, init);
        }
      }
    }
  }

  /** The internal path of each Media Overlay item, resolved against the package document's path. */
  function SmilPaths(opfPath: Option<string>, items: seq<OpfEntities.OPFItem>): (r: seq<Option<string>>)
    ensures |r| == |items| && forall i :: 0 <= i < |items| ==> r[i] == NormJoinParent(opfPath, items[i].href)
  {
    seq(|items|, i requires 0 <= i < |items| => NormJoinParent(opfPath, items[i].href))
  }

  /** The internal paths of the Media Overlay Documents (`mo_document_items`) of a package document at `opfPath` listing `items`. */
  function MoPathsIn(opfPath: Option<string>, items: seq<OpfEntities.OPFItem>): seq<Option<string>>
  {
    SmilPaths(opfPath, OpfManifest.ItemsWithMediaType(items, Some(MediaTypes.SMIL)))
  }

  /** The asset keys of the manifest items. */
  function ItemKeys(opfPath: Option<string>, items: seq<OpfEntities.OPFItem>): set<Option<string>>
    decreases |items|
  {
    if items == [] then {}
    else ItemKeys(opfPath, items[..|items| - 1]) + {NormJoinParent(opfPath, items[|items| - 1].href)}
  }

  /** The assets `after` are those of `before`, with new ones at `keys`. */
  ghost predicate Registers(before: map<Option<string>, Asset>, after: map<Option<string>, Asset>,
                            keys: set<Option<string>>)
  {
    after.Keys == before.Keys + keys && forall k :: k in after && k !in keys ==> after[k] == before[k]
  }

  /** Two rounds of registration are one, at the keys of both. */
  lemma RegistersCompose(a0: map<Option<string>, Asset>, a1: map<Option<string>, Asset>, a2: map<Option<string>, Asset>,
                         k1: set<Option<string>>, k2: set<Option<string>>)
    requires Registers(a0, a1, k1) && Registers(a1, a2, k2)
    ensures Registers(a0, a2, k1 + k2)
  {
  }

  // ---------------------------------------------------------------------
  // Publication-wide values
  // ---------------------------------------------------------------------

  /**
    `unique_identifier`: the one of `metadata.xml` whenever that file was
    parsed, even when it has none; the default rendition's otherwise.
  */
  function UniqueIdentifierFrom(metadata: Option<MetadataXml.Metadata>, pacUid: Option<string>): Option<string>
  {
    if metadata.Some? then metadata.value.uniqueIdentifier else pacUid
  }

  /** `dcterms_modified`: the date of `metadata.xml` when it has one; the default rendition's otherwise. */
  function DctermsModifiedFrom(metadata: Option<MetadataXml.Metadata>, pacModified: Option<string>): Option<string>
  {
    if metadata.Some? && metadata.value.dctermsModified.Some? then metadata.value.dctermsModified else pacModified
  }

  /**
    `release_identifier`: with `metadata.xml`, its Release Identifier;
    without it, the unique identifier followed by `@` and the date when
    both are known; in every case with the spaces removed.
  */
  function ReleaseIdentifierFrom(metadata: Option<MetadataXml.Metadata>, pacUid: Option<string>,
                                 pacModified: Option<string>): (r: Option<string>)
    ensures r.None? <==> (if metadata.Some? then MetadataXml.ReleaseIdentifier(metadata.value.uniqueIdentifier,
                                                                             metadata.value.dctermsModified).None?
                          else pacUid.None?)
  {
    var uid := UniqueIdentifierFrom(metadata, pacUid);
    var rid :=
      if metadata.Some? then MetadataXml.ReleaseIdentifier(uid, metadata.value.dctermsModified)
      else
        var modified := DctermsModifiedFrom(metadata, pacModified);
        if modified.Some? && uid.Some? then Some(uid.value + "@" + modified.value) else uid;
    if rid.Some? then Some(RemoveAll(rid.value, " ")) else None
  }

  /** The Release Identifier never contains a space. */
  lemma ReleaseIdentifierSpaceless(metadata: Option<MetadataXml.Metadata>, pacUid: Option<string>,
                                   pacModified: Option<string>)
    ensures ReleaseIdentifierFrom(metadata, pacUid, pacModified).Some? ==>
              ' ' !in ReleaseIdentifierFrom(metadata, pacUid, pacModified).value
  {
    var r := ReleaseIdentifierFrom(metadata, pacUid, pacModified);
    if r.Some? {
      var uid := UniqueIdentifierFrom(metadata, pacUid);
      var rid :=
        if metadata.Some? then MetadataXml.ReleaseIdentifier(uid, metadata.value.dctermsModified)
        else
          var modified := DctermsModifiedFrom(metadata, pacModified);
          if modified.Some? && uid.Some? then Some(uid.value + "@" + modified.value) else uid;
      RemoveAllChar(rid.value, ' ');
    }
  }

  /**
    How the Release Identifier is assembled from the publication's unique
    identifier and date, for identifiers and dates without spaces. Without
    `metadata.xml` the date joins only a present identifier; with it, an
    absent identifier reads `None`, and a date of the default rendition
    never joins.
  */
  lemma ReleaseIdentifierParts(metadata: Option<MetadataXml.Metadata>, pacUid: Option<string>,
                               pacModified: Option<string>)
    requires var u := UniqueIdentifierFrom(metadata, pacUid); u.Some? ==> ' ' !in u.value
    requires var d := DctermsModifiedFrom(metadata, pacModified); d.Some? ==> ' ' !in d.value
    ensures var u, d := UniqueIdentifierFrom(metadata, pacUid), DctermsModifiedFrom(metadata, pacModified);
            var r := ReleaseIdentifierFrom(metadata, pacUid, pacModified);
            (metadata.None? && u.Some? && d.Some? ==> r == Some(u.value + "@" + d.value)) &&
            (metadata.None? && d.None? ==> r == u) &&
            (metadata.None? && u.None? ==> r.None?) &&
            (metadata.Some? && metadata.value.dctermsModified.Some? ==>
               r == Some(MetadataXml.PyStr(u) + "@" + d.value)) &&
            (metadata.Some? && metadata.value.dctermsModified.None? ==> r == u)
  {
    var u, d := UniqueIdentifierFrom(metadata, pacUid), DctermsModifiedFrom(metadata, pacModified);
    if u.Some? {
      RemoveAllAbsent(u.value, " ", ' ');
    }
    if d.Some? {
      var s := MetadataXml.PyStr(u) + "@" + d.value;
      assert ' ' !in MetadataXml.PyStr(u);
      assert ' ' !in s;
      RemoveAllAbsent(s, " ", ' ');
    }
  }

  /** Where an asset listed in `encryption.xml` ends up: IDPF obfuscation wins over Adobe's. */
  function StampedAlgorithm(enc: EncryptionXml.Encryption, k: Option<string>): (r: Option<string>)
    ensures r.None? <==> k.None? || (k.value !in EncryptionXml.IdpfObfuscatedAssets(enc) &&
                                     k.value !in EncryptionXml.AdobeObfuscatedAssets(enc))
  {
    if k.Some? && k.value in EncryptionXml.IdpfObfuscatedAssets(enc) then Some(Obfuscation.IDPF)
    else if k.Some? && k.value in EncryptionXml.AdobeObfuscatedAssets(enc) then Some(Obfuscation.ADOBE)
    else None
  }

  /**
    An asset gets Adobe obfuscation exactly when some entry of
    `encryption.xml` marks it Adobe and none marks it IDPF.
  */
  lemma StampedAdobeIff(enc: EncryptionXml.Encryption, p: string)
    ensures StampedAlgorithm(enc, Some(p)) == Some(Obfuscation.ADOBE) <==>
              (exists i :: 0 <= i < |enc.encryptedDatas| &&
                 EncryptionXml.Covers(enc.encryptedDatas[i], Obfuscation.ALGORITHM_URI_ADOBE) &&
                 enc.encryptedDatas[i].cipherReferenceUri == Some(p)) &&
              (forall i :: (0 <= i < |enc.encryptedDatas| &&
                              EncryptionXml.Covers(enc.encryptedDatas[i], Obfuscation.ALGORITHM_URI_IDPF)) ==>
                 enc.encryptedDatas[i].cipherReferenceUri != Some(p))
  {
    EncryptionXml.ObfuscatedUrisMembers(enc.encryptedDatas, Obfuscation.ALGORITHM_URI_ADOBE, p);
    EncryptionXml.ObfuscatedUrisMembers(enc.encryptedDatas, Obfuscation.ALGORITHM_URI_IDPF, p);
    assert Obfuscation.ADOBE != Obfuscation.IDPF by {
      assert Obfuscation.ADOBE[0] != Obfuscation.IDPF[0];
    }
  }

  // ---------------------------------------------------------------------
  // The publication
  // ---------------------------------------------------------------------

  /** The unique identifier of a package document; None without one. */
  function PacUid(p: OpfPacDocument.OPFPacDocument?): Option<string>
  {
    if p == null then None else p.uniqueIdentifier
  }

  /** The `dcterms:modified` date of a package document; None without one. */
  function PacModified(p: OpfPacDocument.OPFPacDocument?): Option<string>
    reads if p != null then {p.metadata} else {}
  {
    if p == null then None else p.metadata.DctermsModified()
  }

  /**
    What `parse_rendition` leaves in one rendition, as values: its package
    document, that document's manifest items, and the Navigation Document,
    NCX and Media Overlay Documents the rendition holds.
  */
  datatype RenditionView = RenditionView(opf: OpfPacDocument.OPFPacDocument?, items: seq<OpfEntities.OPFItem>,
                                         nav: Option<Nav.NavDocument>, ncx: Option<Ncx.NCXToc>,
                                         mo: seq<MediaOverlay.MODocument>)

  /** The options a publication keeps: none given means none. */
  function OptionsOf(parsingOptions: Option<seq<string>>): seq<string>
  {
    if parsingOptions.Some? then parsingOptions.value else []
  }

  class Publication {
    const path: Option<string>
    const files: map<string, FileEntry>
    const parsingOptions: seq<string>
    var assets: map<Option<string>, Asset>
    var container: ContainerXml.Container
    var metadata: Option<MetadataXml.Metadata>
    var encryption: Option<EncryptionXml.Encryption>

    /**
      A publication before `parse`: no assets, an empty container,
      no `metadata.xml` and no `encryption.xml`.
    */
    constructor (path: Option<string>, files: map<string, FileEntry>, parsingOptions: Option<seq<string>>)
      ensures this.path == path && this.files == files && this.parsingOptions == OptionsOf(parsingOptions)
      ensures Empty() && fresh(container)
    {
      this.path := path;
      this.files := files;
      this.parsingOptions := OptionsOf(parsingOptions);
      assets := map[];
      container := new ContainerXml.Container(None);
      metadata := None;
      encryption := None;
    }

    /** Nothing read yet. */
    ghost predicate Empty()
      reads this, container
    {
      assets == map[] && container.renditions == [] && container.rmDocument.None? &&
      metadata.None? && encryption.None?
    }

    /** Every asset is keyed by its internal path and reads the container at that path. */
    ghost predicate Valid()
      reads this
    {
      forall k :: k in assets ==>
        assets[k].internalPath == k && assets[k].relativePath == k && assets[k].absolutePath == path &&
        assets[k].data.None?
    }

    /** No asset is obfuscated. */
    ghost predicate Unobfuscated()
      reads this, assets.Values
    {
      forall k :: k in assets ==> assets[k].obfuscationAlgorithm.None? && assets[k].obfuscationKey.None?
    }

    /** Every asset is either a new object or one held before. */
    twostate predicate AssetsFresh()
      reads this
    {
      forall a :: a in assets.Values ==> fresh(a) || a in old(assets.Values)
    }

    /** `self.assets[key] = Asset(...)`: a new, unobfuscated asset for the file at `key`. */
    method RegisterAsset(key: Option<string>)
      requires Valid() && Unobfuscated()
      modifies this
      ensures AssetsFresh()
      ensures Valid() && Unobfuscated() && Registers(old(assets), assets, {key}) && fresh(assets[key])
      ensures container == old(container) && metadata == old(metadata) && encryption == old(encryption)
    {
      var a := new Asset(path, key, key, None);
      assets := assets[key := a];
    }

    /** The `<rootfile>` renditions of `container.xml`, as `Container.parse_object` reads them. */
    ghost predicate ContainerRead(root: Node, renditions: seq<Rendition>)
    {
      var accepted := Filter(ContainerXml.RootfilesOf(root), ContainerXml.IsRenditionRootfile);
      root.tag == ContainerXml.E_CONTAINER &&
      |renditions| == |accepted| &&
      forall i :: 0 <= i < |accepted| ==> renditions[i].FromRootfile(accepted[i])
    }

    /**
      Parse `container.xml`: an absent file gives an empty container; a
      file that does not parse as a container fails.
    */
    method ParseContainerXml() returns (res: Result<()>)
      requires Valid() && Unobfuscated()
      modifies this
      ensures AssetsFresh()
      ensures metadata == old(metadata) && encryption == old(encryption)
      ensures res.Fail? <==> (XmlAt(files, Some(INTERNAL_PATH_CONTAINER_XML)).Malformed? ||
                              (XmlAt(files, Some(INTERNAL_PATH_CONTAINER_XML)).Tree? &&
                               XmlAt(files, Some(INTERNAL_PATH_CONTAINER_XML)).root.tag != ContainerXml.E_CONTAINER))
      ensures res.Ok? ==> Valid() && Unobfuscated() &&
                          Registers(old(assets), assets, {Some(INTERNAL_PATH_CONTAINER_XML)})
      ensures res.Ok? ==> fresh(container) && container.internalPath == Some(INTERNAL_PATH_CONTAINER_XML)
      ensures res.Ok? ==> NoDuplicates(container.renditions) &&
                          forall x :: x in container.renditions ==> fresh(x) && x.Initial()
      ensures res.Ok? && XmlAt(files, Some(INTERNAL_PATH_CONTAINER_XML)).Absent? ==>
                container.renditions == [] && container.rmDocument.None?
      ensures res.Ok? && XmlAt(files, Some(INTERNAL_PATH_CONTAINER_XML)).Tree? ==>
                var root := XmlAt(files, Some(INTERNAL_PATH_CONTAINER_XML)).root;
                ContainerRead(root, container.renditions) &&
                container.rmDocument == ContainerXml.MappingDocumentOf(Children(root, ContainerXml.E_LINK))
    {
      var ip := Some(INTERNAL_PATH_CONTAINER_XML);
      var doc := XmlAt(files, ip);
      if doc.Malformed? {
        return Fail(MalformedXml);
      } else if doc.Absent? {
        container := new ContainerXml.Container(ip);
      } else {
        var c := ContainerXml.Container.Parse(doc.root, ip);
        if c.Fail? {
          return Fail(c.error);
        }
        container := c.value;
      }
      RegisterAsset(ip);
      res := Ok(());
    }

    /** The `metadata.xml` half of `parse_multiple_renditions`: read only when the file is present. */
    method ParseMetadataXml() returns (res: Result<()>)
      requires Valid() && Unobfuscated()
      modifies this
      ensures AssetsFresh()
      ensures container == old(container) && encryption == old(encryption)
      ensures res.Fail? <==> MetadataAt(files).Fail?
      ensures res.Ok? ==> metadata == (if MetadataAt(files).value.Some? then MetadataAt(files).value else old(metadata))
      ensures res.Ok? ==> Valid() && Unobfuscated() &&
                          Registers(old(assets), assets,
                                    if MetadataAt(files).value.Some? then {Some(INTERNAL_PATH_METADATA_XML)} else {})
    {
      var ip := Some(INTERNAL_PATH_METADATA_XML);
      var doc := XmlAt(files, ip);
      if doc.Malformed? {
        return Fail(MalformedXml);
      } else if doc.Tree? {
        var m := MetadataXml.Parse(doc.root, ip);
        if m.Fail? {
          return Fail(m.error);
        }
        metadata := Some(m.value);
        RegisterAsset(ip);
      }
      res := Ok(());
    }

    /** The mapping-document half of `parse_multiple_renditions`: its file replaces the document the container named. */
    method ParseRmDocument() returns (res: Result<()>)
      requires Valid() && Unobfuscated()
      modifies this, container
      ensures AssetsFresh()
      ensures container == old(container) && container.renditions == old(container.renditions)
      ensures metadata == old(metadata) && encryption == old(encryption)
      ensures res.Fail? <==> RmDocumentAt(files, old(container.rmDocument)).Fail?
      ensures res.Ok? ==> container.rmDocument == RmDocumentAt(files, old(container.rmDocument)).value
      ensures res.Ok? ==>
                var rmd := old(container.rmDocument);
                Valid() && Unobfuscated() &&
                Registers(old(assets), assets,
                          RmKeys(files, rmd))
    {
      var rmd := container.rmDocument;
      if rmd.Some? {
        var ip := rmd.value.internalPath;
        var doc := XmlAt(files, ip);
        if doc.Malformed? {
          return Fail(MalformedXml);
        } else if doc.Tree? {
          var d := RenditionMapping.Parse(doc.root, ip);
          if d.Fail? {
            return Fail(d.error);
          }
          container.rmDocument := Some(d.value);
          RegisterAsset(ip);
        }
      }
      res := Ok(());
    }

    /**
      `parse_multiple_renditions`: read `metadata.xml`, when present, and
      replace the mapping document named by the container with its parse,
      when its file is present.
    */
    method ParseMultipleRenditions() returns (res: Result<()>)
      requires Valid() && Unobfuscated()
      modifies this, container
      ensures AssetsFresh()
      ensures container == old(container) && container.renditions == old(container.renditions)
      ensures encryption == old(encryption)
      ensures res.Fail? <==> (MetadataAt(files).Fail? || RmDocumentAt(files, old(container.rmDocument)).Fail?)
      ensures res.Ok? ==> metadata == (if MetadataAt(files).value.Some? then MetadataAt(files).value else old(metadata))
      ensures res.Ok? ==> container.rmDocument == RmDocumentAt(files, old(container.rmDocument)).value
      ensures res.Ok? ==>
                var rmd := old(container.rmDocument);
                Valid() && Unobfuscated() &&
                Registers(old(assets), assets,
                          (if MetadataAt(files).value.Some? then {Some(INTERNAL_PATH_METADATA_XML)} else {}) +
                          RmKeys(files, rmd))
    {
      ghost var rmd := container.rmDocument;
      res := ParseMetadataXml();
      if res.Fail? {
        return;
      }
      ghost var mid := assets;
      ghost var k1: set<Option<string>> := if MetadataAt(files).value.Some? then {Some(INTERNAL_PATH_METADATA_XML)} else {};
      assert container.rmDocument == rmd;
      res := ParseRmDocument();
      if res.Ok? {
        RegistersCompose(old(assets), mid, assets, k1,
                         RmKeys(files, rmd));
      }
    }

    /**
      The package document of the rendition whose full path is `opfPath`.
      A missing file fails here. `parse_rendition` instead keeps an empty
      package document for it, which raises at its first use by the
      manifest-asset or the Media Overlay step, and not at all when both
      are switched off.
    */
    method ReadPackage(opfPath: Option<string>) returns (res: Result<OpfPacDocument.OPFPacDocument>)
      ensures res.Ok? <==> XmlAt(files, opfPath).Tree? && IsPackage(XmlAt(files, opfPath).root)
      ensures XmlAt(files, opfPath).Malformed? ==> res == Fail(MalformedXml)
      ensures res.Ok? ==> fresh(res.value) && fresh(res.value.manifest.items) &&
                          res.value.internalPath == opfPath &&
                          res.value.Parsed(XmlAt(files, opfPath).root) && res.value.RefinementsResolved()
    {
      var doc := XmlAt(files, opfPath);
      if doc.Absent? {
        return Fail(NoneAccess);
      } else if doc.Malformed? {
        return Fail(MalformedXml);
      }
      res := OpfPacDocument.OPFPacDocument.Parse(doc.root, opfPath);
    }

    /** One asset per manifest item, at the item's href resolved against the package document. */
    method RegisterItems(opfPath: Option<string>, items: seq<OpfEntities.OPFItem>)
      requires Valid() && Unobfuscated()
      modifies this, items
      ensures AssetsFresh()
      ensures Valid() && Unobfuscated() && Registers(old(assets), assets, ItemKeys(opfPath, items))
      ensures forall k :: k in ItemKeys(opfPath, items) ==> fresh(assets[k])
      ensures forall i :: 0 <= i < |items| ==>
                items[i].asset != null && fresh(items[i].asset) &&
                items[i].asset.internalPath == NormJoinParent(opfPath, items[i].href)
      ensures forall it :: it in items ==> it.refinements == old(it.refinements)
      ensures container == old(container) && metadata == old(metadata) && encryption == old(encryption)
    {
      var i := 0;
      while i < |items|
        invariant 0 <= i <= |items|
        invariant Valid() && Unobfuscated() && Registers(old(assets), assets, ItemKeys(opfPath, items[..i]))
        invariant AssetsFresh()
        invariant forall k :: k in ItemKeys(opfPath, items[..i]) ==> fresh(assets[k])
        invariant forall j :: 0 <= j < i ==>
                    items[j].asset != null && fresh(items[j].asset) &&
                    items[j].asset.internalPath == NormJoinParent(opfPath, items[j].href)
        invariant forall it :: it in items ==> it.refinements == old(it.refinements)
        invariant container == old(container) && metadata == old(metadata) && encryption == old(encryption)
      {
        var key := NormJoinParent(opfPath, items[i].href);
        assert items[..i + 1][..i] == items[..i];
        assert ItemKeys(opfPath, items[..i + 1]) == ItemKeys(opfPath, items[..i]) + {key};
        ghost var before := assets;
        label Step:
        RegisterAsset(key);
        RegistersCompose(old(assets), before, assets, ItemKeys(opfPath, items[..i]), {key});
        forall a | a in assets.Values ensures fresh(a) || a in old(assets.Values) {
          assert fresh@Step(a) || a in before.Values;
        }
        forall k | k in ItemKeys(opfPath, items[..i + 1]) ensures fresh(assets[k]) {
          if k != key {
            assert assets[k] == before[k];
          }
        }
        items[i].asset := assets[key];
        forall j | 0 <= j < i + 1
          ensures items[j].asset != null && fresh(items[j].asset) &&
                  items[j].asset.internalPath == NormJoinParent(opfPath, items[j].href)
        {
          if items[j] == items[i] {
            assert items[j].asset == assets[key];
          }
        }
        i := i + 1;
      }
      assert items[..i] == items;
    }

    /** The Navigation Document at `ip`, as `NavDocument(string=...)` builds it. */
    method ReadNav(ip: Option<string>) returns (res: Result<Nav.NavDocument>)
      ensures res == NavDocumentAt(files, ip)
    {
      var doc := XmlAt(files, ip);
      if doc.Malformed? {
        return Fail(MalformedXml);
      } else if doc.Absent? {
        return Ok(Nav.NavDocument(ip, []));
      }
      var nav := Nav.Parse(doc.root, ip);
      res := Ok(nav);
    }

    /** The NCX at `ip`, as `NCXToc(string=...)` builds it. */
    method ReadNcx(ip: Option<string>) returns (res: Result<Ncx.NCXToc>)
      ensures res == NcxTocAt(files, ip)
    {
      var doc := XmlAt(files, ip);
      if doc.Malformed? {
        return Fail(MalformedXml);
      } else if doc.Absent? {
        return Ok(EmptyNcxToc(ip));
      }
      res := Ncx.Parse(doc.root, ip);
    }

    /** The Media Overlay Document at `ip`; None when its parse raises. */
    method ReadMo(ip: Option<string>) returns (res: Option<MediaOverlay.MODocument>)
      ensures res == MoDocumentAt(files, ip)
    {
      var doc := XmlAt(files, ip);
      if doc.Malformed? {
        return None;
      } else if doc.Absent? {
        return Some(MediaOverlay.MODocument(ip, None, None, None, None));
      }
      var d := MediaOverlay.Parse(doc.root, ip);
      res := if d.Ok? then Some(d.value) else None;
    }

    /** The Navigation Document step of `parse_rendition`, for the document the package names at `ip`. */
    method ParseNav(r: Rendition, ip: Option<string>) returns (res: Result<()>)
      requires Valid() && Unobfuscated()
      modifies this, r
      ensures AssetsFresh()
      ensures container == old(container) && metadata == old(metadata) && encryption == old(encryption)
      ensures r.moDocuments == old(r.moDocuments) && r.ncxToc == old(r.ncxToc) && r.pacDocument == old(r.pacDocument)
      ensures var on := Enabled(parsingOptions, NAV, NO_NAV) && ip.Some?;
              (res.Fail? <==> on && NavDocumentAt(files, ip).Fail?) &&
              (res.Ok? ==> Valid() && Unobfuscated() && Registers(old(assets), assets, if on then {ip} else {}) &&
                           r.navDocument == if on then Some(NavDocumentAt(files, ip).value) else old(r.navDocument))
    {
      if Enabled(parsingOptions, NAV, NO_NAV) && ip.Some? {
        var nav := ReadNav(ip);
        if nav.Fail? {
          return Fail(nav.error);
        }
        RegisterAsset(ip);
        r.navDocument := Some(nav.value);
      }
      res := Ok(());
    }

    /** The NCX step of `parse_rendition`, for the document the package names at `ip`. */
    method ParseNcx(r: Rendition, ip: Option<string>) returns (res: Result<()>)
      requires Valid() && Unobfuscated()
      modifies this, r
      ensures AssetsFresh()
      ensures container == old(container) && metadata == old(metadata) && encryption == old(encryption)
      ensures r.moDocuments == old(r.moDocuments) && r.navDocument == old(r.navDocument) && r.pacDocument == old(r.pacDocument)
      ensures var on := Enabled(parsingOptions, NCX, NO_NCX) && ip.Some?;
              (res.Fail? <==> on && NcxTocAt(files, ip).Fail?) &&
              (res.Ok? ==> Valid() && Unobfuscated() && Registers(old(assets), assets, if on then {ip} else {}) &&
                           r.ncxToc == if on then Some(NcxTocAt(files, ip).value) else old(r.ncxToc))
    {
      if Enabled(parsingOptions, NCX, NO_NCX) && ip.Some? {
        var ncx := ReadNcx(ip);
        if ncx.Fail? {
          return Fail(ncx.error);
        }
        RegisterAsset(ip);
        r.ncxToc := Some(ncx.value);
      }
      res := Ok(());
    }

    /**
      One step of the Media Overlay loop: after the documents at `done`,
      the document at `p`, when it reads, is added to the rendition and
      gets an asset.
    */
    method ParseMoDocument(r: Rendition, ghost a0: map<Option<string>, Asset>,
                           ghost mo0: seq<MediaOverlay.MODocument>, ghost done: seq<Option<string>>, p: Option<string>)
      requires Valid() && Unobfuscated() && Registers(a0, assets, MoKeys(files, done))
      requires r.moDocuments == mo0 + MoDocumentsAt(files, done)
      modifies this, r
      ensures AssetsFresh()
      ensures Valid() && Unobfuscated() && Registers(a0, assets, MoKeys(files, done + [p]))
      ensures r.moDocuments == mo0 + MoDocumentsAt(files, done + [p])
      ensures r.navDocument == old(r.navDocument) && r.ncxToc == old(r.ncxToc) && r.pacDocument == old(r.pacDocument)
      ensures container == old(container) && metadata == old(metadata) && encryption == old(encryption)
    {
      MoSnoc(files, done, p);
      var d := ReadMo(p);
      if d.Some? {
        RegisterAsset(p);
        RegistersCompose(a0, old(assets), assets, MoKeys(files, done), {p});
        r.AddMoDocument(d.value);
      } else {
        assert MoKeys(files, done + [p]) == MoKeys(files, done);
      }
    }

    /**
      The Media Overlay loop of `parse_rendition`: each document that reads
      is added to the rendition, in order, and gets an asset; one whose
      parse raises is skipped.
    */
    method ParseMoDocuments(r: Rendition, paths: seq<Option<string>>)
      requires Valid() && Unobfuscated()
      modifies this, r
      ensures AssetsFresh()
      ensures Valid() && Unobfuscated() && Registers(old(assets), assets, MoKeys(files, paths))
      ensures r.moDocuments == old(r.moDocuments) + MoDocumentsAt(files, paths)
      ensures r.navDocument == old(r.navDocument) && r.ncxToc == old(r.ncxToc) && r.pacDocument == old(r.pacDocument)
      ensures container == old(container) && metadata == old(metadata) && encryption == old(encryption)
    {
      var i := 0;
      while i < |paths|
        invariant 0 <= i <= |paths|
        invariant Valid() && Unobfuscated() && Registers(old(assets), assets, MoKeys(files, paths[..i]))
        invariant AssetsFresh()
        invariant r.moDocuments == old(r.moDocuments) + MoDocumentsAt(files, paths[..i])
        invariant r.navDocument == old(r.navDocument) && r.ncxToc == old(r.ncxToc) && r.pacDocument == old(r.pacDocument)
        invariant container == old(container) && metadata == old(metadata) && encryption == old(encryption)
      {
        assert paths[..i + 1] == paths[..i] + [paths[i]];
        ghost var before := assets;
        label Step:
        ParseMoDocument(r, old(assets), old(r.moDocuments), paths[..i], paths[i]);
        forall a | a in assets.Values ensures fresh(a) || a in old(assets.Values) {
          assert fresh@Step(a) || a in before.Values;
        }
        i := i + 1;
      }
      assert paths[..i] == paths;
    }

    /** The asset keys `parse_rendition` adds for the Navigation Document, the NCX and the Media Overlay Documents. */
    ghost function DocumentKeys(navPath: Option<string>, ncxPath: Option<string>, smilPaths: seq<Option<string>>)
      : set<Option<string>>
    {
      (if Enabled(parsingOptions, NAV, NO_NAV) && navPath.Some? then {navPath} else {}) +
      (if Enabled(parsingOptions, NCX, NO_NCX) && ncxPath.Some? then {ncxPath} else {}) +
      (if Enabled(parsingOptions, MEDIA_OVERLAY, NO_MEDIA_OVERLAY) then MoKeys(files, smilPaths) else {})
    }

    /** The asset keys `parse_rendition` adds for the files a package document at `opfPath` references. */
    ghost function ReferencedKeys(opfPath: Option<string>, items: seq<OpfEntities.OPFItem>, navPath: Option<string>,
                                  ncxPath: Option<string>, smilPaths: seq<Option<string>>): set<Option<string>>
    {
      (if Enabled(parsingOptions, ASSET_REFS, NO_ASSET_REFS) then ItemKeys(opfPath, items) else {}) +
      DocumentKeys(navPath, ncxPath, smilPaths)
    }

    /** The rendition's documents fail to read: the Navigation Document or the NCX is on and raises. */
    ghost predicate DocumentsFail(navPath: Option<string>, ncxPath: Option<string>)
    {
      (Enabled(parsingOptions, NAV, NO_NAV) && navPath.Some? && NavDocumentAt(files, navPath).Fail?) ||
      (Enabled(parsingOptions, NCX, NO_NCX) && ncxPath.Some? && NcxTocAt(files, ncxPath).Fail?)
    }

    /**
      `nav`, `ncx` and `mo` are the documents read from the files, each when
      its option is on and, for the Navigation Document and the NCX, when
      the package names one; otherwise what was held before (`nav0`,
      `ncx0`, `mo0`). Media Overlay Documents are appended.
    */
    ghost predicate DocumentsAre(nav: Option<Nav.NavDocument>, ncx: Option<Ncx.NCXToc>, mo: seq<MediaOverlay.MODocument>,
                                 nav0: Option<Nav.NavDocument>, ncx0: Option<Ncx.NCXToc>, mo0: seq<MediaOverlay.MODocument>,
                                 navPath: Option<string>, ncxPath: Option<string>, smilPaths: seq<Option<string>>)
    {
      (if Enabled(parsingOptions, NAV, NO_NAV) && navPath.Some?
       then NavDocumentAt(files, navPath).Ok? && nav == Some(NavDocumentAt(files, navPath).value)
       else nav == nav0) &&
      (if Enabled(parsingOptions, NCX, NO_NCX) && ncxPath.Some?
       then NcxTocAt(files, ncxPath).Ok? && ncx == Some(NcxTocAt(files, ncxPath).value)
       else ncx == ncx0) &&
      mo == mo0 + if Enabled(parsingOptions, MEDIA_OVERLAY, NO_MEDIA_OVERLAY) then MoDocumentsAt(files, smilPaths) else []
    }

    /** The rendition holds the documents `DocumentsAre` describes. */
    ghost predicate DocumentsRead(r: Rendition, nav0: Option<Nav.NavDocument>, ncx0: Option<Ncx.NCXToc>,
                                  mo0: seq<MediaOverlay.MODocument>,
                                  navPath: Option<string>, ncxPath: Option<string>, smilPaths: seq<Option<string>>)
      reads r
    {
      DocumentsAre(r.navDocument, r.ncxToc, r.moDocuments, nav0, ncx0, mo0, navPath, ncxPath, smilPaths)
    }

    /** With asset references on, every item links to an asset at its href resolved against the package at `opfPath`. */
    ghost predicate ItemAssetsLinked(opfPath: Option<string>, items: seq<OpfEntities.OPFItem>)
      reads items
    {
      Enabled(parsingOptions, ASSET_REFS, NO_ASSET_REFS) ==>
        forall it :: it in items ==> it.asset != null && it.asset.internalPath == NormJoinParent(opfPath, it.href)
    }

    /** The asset keys the Navigation Document and NCX steps add. */
    ghost function TocKeys(navPath: Option<string>, ncxPath: Option<string>): set<Option<string>>
    {
      (if Enabled(parsingOptions, NAV, NO_NAV) && navPath.Some? then {navPath} else {}) +
      (if Enabled(parsingOptions, NCX, NO_NCX) && ncxPath.Some? then {ncxPath} else {})
    }

    /** The Navigation Document and NCX steps of `parse_rendition`, each when its option is on. */
    method ParseTocDocuments(r: Rendition, navPath: Option<string>, ncxPath: Option<string>)
      returns (res: Result<()>)
      requires Valid() && Unobfuscated()
      modifies this, r
      ensures AssetsFresh()
      ensures container == old(container) && metadata == old(metadata) && encryption == old(encryption)
      ensures r.pacDocument == old(r.pacDocument) && r.moDocuments == old(r.moDocuments)
      ensures res.Fail? <==> DocumentsFail(navPath, ncxPath)
      ensures res.Ok? ==> Valid() && Unobfuscated() && Registers(old(assets), assets, TocKeys(navPath, ncxPath))
      ensures res.Ok? ==> DocumentsRead(r, old(r.navDocument), old(r.ncxToc), r.moDocuments, navPath, ncxPath, [])
    {
      res := ParseNav(r, navPath);
      if res.Fail? {
        return;
      }
      ghost var before := assets;
      res := ParseNcx(r, ncxPath);
      if res.Ok? {
        RegistersCompose(old(assets), before, assets,
                         if Enabled(parsingOptions, NAV, NO_NAV) && navPath.Some? then {navPath} else {},
                         if Enabled(parsingOptions, NCX, NO_NCX) && ncxPath.Some? then {ncxPath} else {});
      }
    }

    /**
      The Navigation Document, NCX and Media Overlay steps of
      `parse_rendition`, each when its option is on.
    */
    method ParseDocuments(r: Rendition, navPath: Option<string>, ncxPath: Option<string>, smilPaths: seq<Option<string>>)
      returns (res: Result<()>)
      requires Valid() && Unobfuscated()
      modifies this, r
      ensures AssetsFresh()
      ensures container == old(container) && metadata == old(metadata) && encryption == old(encryption)
      ensures r.pacDocument == old(r.pacDocument)
      ensures res.Fail? <==> DocumentsFail(navPath, ncxPath)
      ensures res.Ok? ==> Valid() && Unobfuscated() && Registers(old(assets), assets, DocumentKeys(navPath, ncxPath, smilPaths))
      ensures res.Ok? ==> DocumentsRead(r, old(r.navDocument), old(r.ncxToc), old(r.moDocuments), navPath, ncxPath, smilPaths)
    {
      res := ParseTocDocuments(r, navPath, ncxPath);
      if res.Fail? {
        return;
      }
      if Enabled(parsingOptions, MEDIA_OVERLAY, NO_MEDIA_OVERLAY) {
        ghost var before := assets;
        ParseMoDocuments(r, smilPaths);
        RegistersCompose(old(assets), before, assets, TocKeys(navPath, ncxPath), MoKeys(files, smilPaths));
      }
    }

    /**
      The steps of `parse_rendition` after the package document: one asset
      per manifest item when asset references are on, then the documents.
    */
    method ParseReferenced(r: Rendition, opfPath: Option<string>, items: seq<OpfEntities.OPFItem>,
                           navPath: Option<string>, ncxPath: Option<string>, smilPaths: seq<Option<string>>)
      returns (res: Result<()>)
      requires Valid() && Unobfuscated()
      modifies this, r, items
      ensures AssetsFresh()
      ensures container == old(container) && metadata == old(metadata) && encryption == old(encryption)
      ensures r.pacDocument == old(r.pacDocument)
      ensures res.Fail? <==> DocumentsFail(navPath, ncxPath)
      ensures res.Ok? ==> Valid() && Unobfuscated() &&
                          Registers(old(assets), assets, ReferencedKeys(opfPath, items, navPath, ncxPath, smilPaths))
      ensures res.Ok? ==> ItemAssetsLinked(opfPath, items)
      ensures res.Ok? ==> DocumentsRead(r, old(r.navDocument), old(r.ncxToc), old(r.moDocuments), navPath, ncxPath, smilPaths)
    {
      ghost var keys: set<Option<string>> := {};
      if Enabled(parsingOptions, ASSET_REFS, NO_ASSET_REFS) {
        RegisterItems(opfPath, items);
        keys := ItemKeys(opfPath, items);
      }
      ghost var before := assets;
      res := ParseDocuments(r, navPath, ncxPath, smilPaths);
      if res.Ok? {
        RegistersCompose(old(assets), before, assets, keys, DocumentKeys(navPath, ncxPath, smilPaths));
      }
    }

    /**
      The package document at `opfPath`, listing `items`, gets its asset;
      then the files it references are read.
    */
    method AttachPackageTo(r: Rendition, opfPath: Option<string>, items: seq<OpfEntities.OPFItem>,
                           navPath: Option<string>, ncxPath: Option<string>, smilPaths: seq<Option<string>>)
      returns (res: Result<()>)
      requires Valid() && Unobfuscated()
      modifies this, r, set it | it in items
      ensures AssetsFresh()
      ensures container == old(container) && metadata == old(metadata) && encryption == old(encryption)
      ensures r.pacDocument == old(r.pacDocument)
      ensures res.Fail? <==> DocumentsFail(navPath, ncxPath)
      ensures res.Ok? ==> Valid() && Unobfuscated() &&
                          Registers(old(assets), assets, {opfPath} + ReferencedKeys(opfPath, items, navPath, ncxPath, smilPaths))
      ensures res.Ok? ==> ItemAssetsLinked(opfPath, items)
      ensures res.Ok? ==> DocumentsRead(r, old(r.navDocument), old(r.ncxToc), old(r.moDocuments), navPath, ncxPath, smilPaths)
    {
      RegisterAsset(opfPath);
      ghost var before := assets;
      res := ParseReferenced(r, opfPath, items, navPath, ncxPath, smilPaths);
      if res.Ok? {
        RegistersCompose(old(assets), before, assets, {opfPath}, ReferencedKeys(opfPath, items, navPath, ncxPath, smilPaths));
      }
    }

    /**
      The rendition `r` holds the package document `opf` read at `opfPath`,
      and the publication holds what it references: one asset for the
      package and one for each referenced file (`assets0` being the assets
      before), the item links, and the documents (`nav0`, `ncx0`, `mo0`
      being what the rendition held before).
    */
    ghost predicate PackageRead(r: Rendition, opfPath: Option<string>, opf: OpfPacDocument.OPFPacDocument,
                                assets0: map<Option<string>, Asset>, nav0: Option<Nav.NavDocument>,
                                ncx0: Option<Ncx.NCXToc>, mo0: seq<MediaOverlay.MODocument>)
      reads this, r, opf.manifest, opf.manifest.items
    {
      var items := opf.manifest.items;
      var navPath := OpfPacDocument.NavDocumentPathIn(opf.internalPath, items);
      var ncxPath := OpfPacDocument.NcxTocPathIn(opf.internalPath, items, opf.spine.toc);
      var smilPaths := MoPathsIn(opfPath, items);
      r.pacDocument == opf &&
      Registers(assets0, assets, {opfPath} + ReferencedKeys(opfPath, items, navPath, ncxPath, smilPaths)) &&
      ItemAssetsLinked(opfPath, items) &&
      DocumentsRead(r, nav0, ncx0, mo0, navPath, ncxPath, smilPaths)
    }

    /**
      The steps of `parse_rendition` once the package document `opf` at
      `opfPath` is read: its asset, its attachment to the rendition, then
      the files it references.
    */
    method AttachPackage(r: Rendition, opfPath: Option<string>, opf: OpfPacDocument.OPFPacDocument)
      returns (res: Result<()>)
      requires Valid() && Unobfuscated()
      modifies this, r, opf.manifest.items
      ensures AssetsFresh()
      ensures container == old(container) && metadata == old(metadata) && encryption == old(encryption)
      ensures r.pacDocument == opf
      ensures unchanged(opf, opf.manifest, opf.metadata, opf.spine) && (opf.guide != null ==> unchanged(opf.guide))
      ensures res.Fail? <==> DocumentsFail(OpfPacDocument.NavDocumentPathIn(opf.internalPath, opf.manifest.items),
                                           OpfPacDocument.NcxTocPathIn(opf.internalPath, opf.manifest.items, opf.spine.toc))
      ensures res.Ok? ==> Valid() && Unobfuscated() &&
                          PackageRead(r, opfPath, opf, old(assets), old(r.navDocument), old(r.ncxToc), old(r.moDocuments))
    {
      opf.PathsIn();
      var navPath, ncxPath := opf.InternalPathNavDocument(), opf.InternalPathNcxToc();
      var smilPaths := SmilPaths(opfPath, opf.manifest.SmilItems());
      r.pacDocument := opf;
      res := AttachPackageTo(r, opfPath, opf.manifest.items, navPath, ncxPath, smilPaths);
    }

    /**
      `parse_rendition`: only a rendition whose media type is the package
      document's is read. Its package document is attached; then, each
      when its option is on, one asset per manifest item, the Navigation
      Document, the NCX and the Media Overlay Documents.
    */
    method ParseRendition(r: Rendition) returns (res: Result<()>)
      requires Valid() && Unobfuscated()
      modifies this, r
      ensures AssetsFresh()
      ensures container == old(container) && metadata == old(metadata) && encryption == old(encryption)
      ensures r.mediaType != Some(MediaTypes.OPF) ==> res.Ok? && assets == old(assets) && unchanged(r)
      ensures r.mediaType == Some(MediaTypes.OPF) && !(XmlAt(files, r.fullPath).Tree? && IsPackage(XmlAt(files, r.fullPath).root)) ==>
                res.Fail?
      ensures r.mediaType == Some(MediaTypes.OPF) && XmlAt(files, r.fullPath).Tree? && IsPackage(XmlAt(files, r.fullPath).root) ==>
                var opf := r.pacDocument;
                opf != null && opf.internalPath == r.fullPath &&
                (res.Fail? <==> DocumentsFail(OpfPacDocument.NavDocumentPathIn(opf.internalPath, opf.manifest.items),
                                              OpfPacDocument.NcxTocPathIn(opf.internalPath, opf.manifest.items, opf.spine.toc)))
      ensures res.Ok? ==> Valid() && Unobfuscated()
      ensures res.Ok? && r.mediaType == Some(MediaTypes.OPF) ==>
                var opf := r.pacDocument;
                opf != null && fresh(opf) && opf.internalPath == r.fullPath &&
                XmlAt(files, r.fullPath).Tree? && opf.Parsed(XmlAt(files, r.fullPath).root) &&
                PackageRead(r, r.fullPath, opf, old(assets), old(r.navDocument), old(r.ncxToc), old(r.moDocuments))
    {
      if r.mediaType != Some(MediaTypes.OPF) {
        return Ok(());
      }
      var opfRead := ReadPackage(r.fullPath);
      if opfRead.Fail? {
        return Fail(opfRead.error);
      }
      var opf := opfRead.value;
      label L:
      res := AttachPackage(r, r.fullPath, opf);
      opf.Kept@L(XmlAt(files, r.fullPath).root);
    }

    // -------------------------------------------------------------------
    // encryption.xml
    // -------------------------------------------------------------------

    /**
      The loop of `parse_encryption` over one list of obfuscated paths:
      every asset at a listed path gets `algorithm` and `key`; the others
      keep theirs.
    */
    method Stamp(uris: seq<string>, algorithm: string, key: Option<string>)
      requires Valid()
      modifies assets.Values
      ensures forall k :: k in assets ==>
                if k.Some? && k.value in uris
                then assets[k].obfuscationAlgorithm == Some(algorithm) && assets[k].obfuscationKey == key
                else assets[k].obfuscationAlgorithm == old(assets[k].obfuscationAlgorithm) &&
                     assets[k].obfuscationKey == old(assets[k].obfuscationKey)
    {
      var i := 0;
      while i < |uris|
        invariant 0 <= i <= |uris|
        invariant forall k :: k in assets ==>
                    if k.Some? && k.value in uris[..i]
                    then assets[k].obfuscationAlgorithm == Some(algorithm) && assets[k].obfuscationKey == key
                    else assets[k].obfuscationAlgorithm == old(assets[k].obfuscationAlgorithm) &&
                         assets[k].obfuscationKey == old(assets[k].obfuscationKey)
      {
        var u := Some(uris[i]);
        assert uris[..i + 1] == uris[..i] + [uris[i]];
        if u in assets {
          var a := assets[u];
          assert forall k :: k in assets && k != u ==> assets[k] != a;
          a.obfuscationKey := key;
          a.obfuscationAlgorithm := Some(algorithm);
        }
        i := i + 1;
      }
      assert uris[..i] == uris;
    }

    /** The default rendition's package document: null without a rendition, or before that rendition is read. */
    function DefaultPackage(): (r: OpfPacDocument.OPFPacDocument?)
      reads this, container, container.renditions
      ensures container.renditions == [] ==> r == null
      ensures container.renditions != [] ==> r == container.renditions[0].pacDocument
    {
      var d := container.DefaultRendition();
      if d == null then null else d.pacDocument
    }

    /**
      `unique_identifier`: the one of `metadata.xml` whenever that file was
      read, even when it has none; the default rendition's otherwise.
    */
    function UniqueIdentifier(): (r: Option<string>)
      reads this, container, container.renditions
      ensures metadata.Some? ==> r == metadata.value.uniqueIdentifier
      ensures metadata.None? && DefaultPackage() == null ==> r.None?
      ensures metadata.None? && DefaultPackage() != null ==> r == DefaultPackage().uniqueIdentifier
    {
      UniqueIdentifierFrom(metadata, PacUid(DefaultPackage()))
    }

    /**
      `parse_encryption`: an absent `encryption.xml` changes nothing.
      Otherwise it is kept and gets an asset, and every asset it lists as
      obfuscated gets the publication's unique identifier as key and its
      algorithm, IDPF winning over Adobe.
    */
    method ParseEncryption() returns (res: Result<()>)
      requires Valid() && Unobfuscated()
      modifies this, assets.Values
      ensures container == old(container) && metadata == old(metadata)
      ensures container.renditions == old(container.renditions) && container.rmDocument == old(container.rmDocument)
      ensures res.Fail? <==> EncryptionAt(files).Fail?
      ensures res.Ok? && EncryptionAt(files).value.None? ==>
                encryption == old(encryption) && assets == old(assets) && Valid() && Unobfuscated()
      ensures res.Ok? && EncryptionAt(files).value.Some? ==>
                var enc := EncryptionAt(files).value.value;
                encryption == Some(enc) && Valid() &&
                Registers(old(assets), assets, {Some(INTERNAL_PATH_ENCRYPTION_XML)}) &&
                forall k :: k in assets ==>
                  assets[k].obfuscationAlgorithm == StampedAlgorithm(enc, k) &&
                  assets[k].obfuscationKey == if StampedAlgorithm(enc, k).Some? then old(UniqueIdentifier()) else None
    {
      var ip := Some(INTERNAL_PATH_ENCRYPTION_XML);
      var uid := UniqueIdentifier();
      var doc := XmlAt(files, ip);
      if doc.Absent? {
        return Ok(());
      } else if doc.Malformed? {
        return Fail(MalformedXml);
      }
      var e := EncryptionXml.Parse(doc.root, ip);
      if e.Fail? {
        return Fail(e.error);
      }
      encryption := Some(e.value);
      RegisterAsset(ip);
      StampAll(e.value, uid);
      res := Ok(());
    }

    /** Both loops of `parse_encryption`: Adobe's list first, then the IDPF list, which therefore wins. */
    method StampAll(enc: EncryptionXml.Encryption, key: Option<string>)
      requires Valid() && Unobfuscated()
      modifies assets.Values
      ensures Valid()
      ensures forall k :: k in assets ==>
                assets[k].obfuscationAlgorithm == StampedAlgorithm(enc, k) &&
                assets[k].obfuscationKey == if StampedAlgorithm(enc, k).Some? then key else None
    {
      Stamp(EncryptionXml.AdobeObfuscatedAssets(enc), Obfuscation.ADOBE, key);
      Stamp(EncryptionXml.IdpfObfuscatedAssets(enc), Obfuscation.IDPF, key);
    }

    // -------------------------------------------------------------------
    // The renditions
    // -------------------------------------------------------------------

    /** The rendition holds what `v` records, and, with asset references on, the items of `v` link to their assets. */
    ghost predicate Shows(r: Rendition, v: RenditionView)
      reads r, (if v.opf != null then {v.opf.manifest} else {}), v.items
    {
      r.pacDocument == v.opf && (v.opf != null ==> v.opf.manifest.items == v.items) &&
      r.navDocument == v.nav && r.ncxToc == v.ncx && r.moDocuments == v.mo &&
      ItemAssetsLinked(r.fullPath, v.items)
    }

    /**
      `v` is what `parse_rendition` reads for `r`, a rendition with nothing
      attached: nothing for another media type; for the package document's
      media type, the package document at its full path (with the
      attributes of its `<package>` element) and the documents it names.
    */
    ghost predicate ViewRead(r: Rendition, v: RenditionView)
    {
      match v
      case RenditionView(opf, items, nav, ncx, mo) =>
        if r.mediaType != Some(MediaTypes.OPF) then opf == null && items == [] && nav.None? && ncx.None? && mo == []
        else
          var doc := XmlAt(files, r.fullPath);
          opf != null && opf.internalPath == r.fullPath && doc.Tree? && IsPackage(doc.root) && opf.AttributesOf(doc.root) &&
          DocumentsAre(nav, ncx, mo, None, None, [], OpfPacDocument.NavDocumentPathIn(r.fullPath, items),
                       OpfPacDocument.NcxTocPathIn(r.fullPath, items, opf.spine.toc), MoPathsIn(r.fullPath, items))
    }

    /** The asset keys `parse_rendition` adds for `r` when it reads `v`. */
    ghost function ViewKeys(r: Rendition, v: RenditionView): set<Option<string>>
    {
      if r.mediaType != Some(MediaTypes.OPF) || v.opf == null then {}
      else
        {r.fullPath} + ReferencedKeys(r.fullPath, v.items, OpfPacDocument.NavDocumentPathIn(r.fullPath, v.items),
                                      OpfPacDocument.NcxTocPathIn(r.fullPath, v.items, v.opf.spine.toc),
                                      MoPathsIn(r.fullPath, v.items))
    }

    /** The asset keys added for all of `rs`. */
    ghost function AllKeys(rs: seq<Rendition>, vs: seq<RenditionView>): set<Option<string>>
      requires |rs| == |vs|
      decreases |rs|
    {
      if rs == [] then {} else AllKeys(rs[..|rs| - 1], vs[..|vs| - 1]) + ViewKeys(rs[|rs| - 1], vs[|vs| - 1])
    }

    /** The keys of every rendition are among the keys of all of them. */
    lemma {:induction false} AllKeysAt(rs: seq<Rendition>, vs: seq<RenditionView>, j: nat)
      requires |rs| == |vs| && j < |rs|
      ensures ViewKeys(rs[j], vs[j]) <= AllKeys(rs, vs)
      decreases |rs|
    {
      if j < |rs| - 1 {
        AllKeysAt(rs[..|rs| - 1], vs[..|vs| - 1], j);
      }
    }

    /** `parse_rendition` on a rendition with nothing attached yet, as `parse` calls it; `v` records what it read. */
    method ParseInitialRendition(r: Rendition) returns (res: Result<()>, ghost v: RenditionView)
      requires Valid() && Unobfuscated() && r.Initial()
      modifies this, r
      ensures AssetsFresh()
      ensures container == old(container) && metadata == old(metadata) && encryption == old(encryption)
      ensures res.Ok? ==> Valid() && Unobfuscated() && Shows(r, v) && ViewRead(r, v) &&
                          Registers(old(assets), assets, ViewKeys(r, v))
    {
      res := ParseRendition(r);
      v := RenditionView(r.pacDocument, if r.pacDocument != null then r.pacDocument.manifest.items else [],
                         r.navDocument, r.ncxToc, r.moDocuments);
    }

    /** One more rendition read adds its own keys to those of the others. */
    lemma AllKeysSnoc(rs: seq<Rendition>, vs: seq<RenditionView>, r: Rendition, v: RenditionView)
      requires |rs| == |vs|
      ensures AllKeys(rs + [r], vs + [v]) == AllKeys(rs, vs) + ViewKeys(r, v)
    {
      assert (rs + [r])[..|rs|] == rs && (vs + [v])[..|vs|] == vs;
    }

    /**
      One rendition read during the rendition loop: its keys join those
      registered since `a0`, those before it keep what they show and those
      after it stay as they were.
    */
    method ParseRenditionAt(renditions: seq<Rendition>, ghost views: seq<RenditionView>, i: nat,
                            ghost a0: map<Option<string>, Asset>)
      returns (res: Result<()>, ghost v: RenditionView)
      requires Valid() && Unobfuscated()
      requires i < |renditions| && |views| == i && NoDuplicates(renditions)
      requires Registers(a0, assets, AllKeys(renditions[..i], views))
      requires forall j :: i <= j < |renditions| ==> renditions[j].Initial()
      modifies this, renditions[i]
      ensures AssetsFresh()
      ensures container == old(container) && metadata == old(metadata) && encryption == old(encryption)
      ensures res.Ok? ==> Valid() && Unobfuscated() && Shows(renditions[i], v) && ViewRead(renditions[i], v) &&
                          Registers(a0, assets, AllKeys(renditions[..i + 1], views + [v]))
      ensures forall j :: 0 <= j < i && old(Shows(renditions[j], views[j])) ==> Shows(renditions[j], views[j])
      ensures forall j :: i < j < |renditions| ==> renditions[j].Initial()
    {
      ghost var before := assets;
      res, v := ParseInitialRendition(renditions[i]);
      if res.Ok? {
        AllKeysSnoc(renditions[..i], views, renditions[i], v);
        assert renditions[..i + 1] == renditions[..i] + [renditions[i]];
        RegistersCompose(a0, before, assets, AllKeys(renditions[..i], views), ViewKeys(renditions[i], v));
      }
    }

    /**
      One round of the rendition loop: the views of the renditions read so
      far grow by the one at `i`.
    */
    method ParseRenditionRound(renditions: seq<Rendition>, ghost views: seq<RenditionView>, i: nat,
                               ghost a0: map<Option<string>, Asset>)
      returns (res: Result<()>, ghost views': seq<RenditionView>)
      requires Valid() && Unobfuscated()
      requires i < |renditions| && |views| == i && NoDuplicates(renditions)
      requires Registers(a0, assets, AllKeys(renditions[..i], views))
      requires forall j :: 0 <= j < i ==> ViewRead(renditions[j], views[j]) && Shows(renditions[j], views[j])
      requires forall j :: i <= j < |renditions| ==> renditions[j].Initial()
      modifies this, renditions[i]
      ensures AssetsFresh()
      ensures container == old(container) && metadata == old(metadata) && encryption == old(encryption)
      ensures res.Ok? ==> Valid() && Unobfuscated() && |views'| == i + 1 &&
                          Registers(a0, assets, AllKeys(renditions[..i + 1], views'))
      ensures res.Ok? ==> forall j :: 0 <= j <= i ==> ViewRead(renditions[j], views'[j]) && Shows(renditions[j], views'[j])
      ensures forall j :: i < j < |renditions| ==> renditions[j].Initial()
    {
      ghost var v;
      res, v := ParseRenditionAt(renditions, views, i, a0);
      views' := views + [v];
    }

    /**
      The rendition loop of `parse`: the first `count` renditions, in
      order; the first failure stops it. `views` records what each read.
    */
    method ParseRenditions(count: nat) returns (res: Result<()>, ghost views: seq<RenditionView>)
      requires Valid() && Unobfuscated()
      requires count <= |container.renditions| && NoDuplicates(container.renditions)
      requires forall x :: x in container.renditions ==> x.Initial()
      modifies this, set x | x in container.renditions
      ensures AssetsFresh()
      ensures container == old(container) && metadata == old(metadata) && encryption == old(encryption)
      ensures container.renditions == old(container.renditions) && container.rmDocument == old(container.rmDocument)
      ensures res.Ok? ==> Valid() && Unobfuscated()
      ensures res.Ok? ==> |views| == count && Registers(old(assets), assets, AllKeys(container.renditions[..count], views))
      ensures res.Ok? ==> forall j :: 0 <= j < count ==> ViewRead(container.renditions[j], views[j])
      ensures res.Ok? ==> forall j :: 0 <= j < count ==> Shows(container.renditions[j], views[j])
      ensures res.Ok? ==> forall j :: count <= j < |container.renditions| ==> container.renditions[j].Initial()
    {
      var renditions := container.renditions;
      views := [];
      var i := 0;
      while i < count
        invariant 0 <= i <= count
        invariant container == old(container) && metadata == old(metadata) && encryption == old(encryption)
        invariant container.renditions == renditions && container.rmDocument == old(container.rmDocument)
        invariant Valid() && Unobfuscated()
        invariant AssetsFresh()
        invariant |views| == i && Registers(old(assets), assets, AllKeys(renditions[..i], views))
        invariant forall j :: 0 <= j < i ==> ViewRead(renditions[j], views[j])
        invariant forall j :: 0 <= j < i ==> Shows(renditions[j], views[j])
        invariant forall j :: i <= j < |renditions| ==> renditions[j].Initial()
      {
        res, views := ParseRenditionRound(renditions, views, i, old(assets));
        if res.Fail? {
          return;
        }
        i := i + 1;
      }
      res := Ok(());
    }

    // -------------------------------------------------------------------
    // parse
    // -------------------------------------------------------------------

    /** The asset keys of the steps before the renditions: `mimetype`, `container.xml`, `metadata.xml` and the mapping document. */
    ghost function FrontKeys(): set<Option<string>>
    {
      {Some(INTERNAL_PATH_MIMETYPE), Some(INTERNAL_PATH_CONTAINER_XML)} +
      if Enabled(parsingOptions, MULTIPLE_RENDITIONS, NO_MULTIPLE_RENDITIONS)
      then (if MetadataAt(files).Ok? && MetadataAt(files).value.Some? then {Some(INTERNAL_PATH_METADATA_XML)} else {}) +
           RmKeys(files, NamedRmDocument(files))
      else {}
    }

    /**
      The renditions as `parse` reads them from `container.xml`: those of
      its usable `<rootfile>` elements, each once, and none when the file
      is absent.
    */
    ghost predicate RenditionsParsed(renditions: seq<Rendition>)
    {
      var doc := XmlAt(files, Some(INTERNAL_PATH_CONTAINER_XML));
      NoDuplicates(renditions) &&
      (doc.Absent? ==> renditions == []) &&
      (doc.Tree? ==> ContainerRead(doc.root, renditions))
    }

    /**
      `metadata.xml` and the mapping document as `parse` leaves them: read
      from their files with multiple renditions on; otherwise no
      `metadata.xml` and the mapping document as `container.xml` names it.
    */
    ghost predicate FrontRead(metadata: Option<MetadataXml.Metadata>, rmDocument: Option<RenditionMapping.RMDocument>)
    {
      if Enabled(parsingOptions, MULTIPLE_RENDITIONS, NO_MULTIPLE_RENDITIONS)
      then MetadataAt(files).Ok? && metadata == MetadataAt(files).value &&
           RmDocumentAt(files, NamedRmDocument(files)).Ok? &&
           rmDocument == RmDocumentAt(files, NamedRmDocument(files)).value
      else metadata.None? && rmDocument == NamedRmDocument(files)
    }

    /** The first two steps of `parse`: the `mimetype` asset, then `container.xml`. */
    method ParseStart() returns (res: Result<()>)
      requires Empty()
      modifies this
      ensures AssetsFresh()
      ensures metadata.None? && encryption.None?
      ensures res.Fail? <==> ContainerFails(files)
      ensures res.Ok? ==> Valid() && Unobfuscated() &&
                          assets.Keys == {Some(INTERNAL_PATH_MIMETYPE), Some(INTERNAL_PATH_CONTAINER_XML)}
      ensures res.Ok? ==> fresh(container) && container.internalPath == Some(INTERNAL_PATH_CONTAINER_XML)
      ensures res.Ok? ==> RenditionsParsed(container.renditions) && container.rmDocument == NamedRmDocument(files)
      ensures res.Ok? ==> forall x :: x in container.renditions ==> fresh(x) && x.Initial()
    {
      RegisterAsset(Some(INTERNAL_PATH_MIMETYPE));
      res := ParseContainerXml();
    }

    /**
      The steps of `parse` before the renditions: the `mimetype` asset,
      `container.xml`, then, with multiple renditions on, `metadata.xml`
      and the mapping document.
    */
    method ParseFront() returns (res: Result<()>)
      requires Empty()
      modifies this
      ensures AssetsFresh()
      ensures encryption.None?
      ensures ContainerFails(files) ==> res.Fail?
      ensures res.Ok? ==> Valid() && Unobfuscated() && assets.Keys == FrontKeys()
      ensures res.Ok? ==> fresh(container) && container.internalPath == Some(INTERNAL_PATH_CONTAINER_XML)
      ensures res.Ok? ==> RenditionsParsed(container.renditions) && FrontRead(metadata, container.rmDocument)
      ensures res.Ok? ==> forall x :: x in container.renditions ==> fresh(x) && x.Initial()
    {
      res := ParseStart();
      if res.Fail? || !Enabled(parsingOptions, MULTIPLE_RENDITIONS, NO_MULTIPLE_RENDITIONS) {
        return;
      }
      ghost var a := assets;
      res := ParseMultipleRenditions();
      if res.Ok? {
        RegistersCompose(map[], a, assets, a.Keys,
                         (if MetadataAt(files).value.Some? then {Some(INTERNAL_PATH_METADATA_XML)} else {}) +
                         RmKeys(files, NamedRmDocument(files)));
      }
    }

    /** How many renditions `parse` reads: every one with multiple renditions on, the first only otherwise. */
    function RenditionsRead(): (n: nat)
      reads this, container
      ensures n <= |container.renditions|
    {
      if Enabled(parsingOptions, MULTIPLE_RENDITIONS, NO_MULTIPLE_RENDITIONS) || |container.renditions| == 0
      then |container.renditions|
      else 1
    }

    /** The asset key of `encryption.xml`, when `parse` reads it. */
    ghost function EncryptionKeys(): set<Option<string>>
    {
      if Enabled(parsingOptions, ENCRYPTION, NO_ENCRYPTION) && EncryptionAt(files).Ok? &&
         EncryptionAt(files).value.Some?
      then {Some(INTERNAL_PATH_ENCRYPTION_XML)} else {}
    }

    /** The steps of `parse` up to the renditions: `ParseFront`, then the renditions `RenditionsRead` counts. */
    method ParseBody() returns (res: Result<()>, ghost views: seq<RenditionView>)
      requires Empty()
      modifies this
      ensures AssetsFresh()
      ensures encryption.None?
      ensures ContainerFails(files) ==> res.Fail?
      ensures res.Ok? ==> Valid() && Unobfuscated() && fresh(container) &&
                          container.internalPath == Some(INTERNAL_PATH_CONTAINER_XML)
      ensures res.Ok? ==> RenditionsParsed(container.renditions) && FrontRead(metadata, container.rmDocument)
      ensures res.Ok? ==> |views| == RenditionsRead() &&
                          assets.Keys == FrontKeys() + AllKeys(container.renditions[..RenditionsRead()], views)
      ensures res.Ok? ==> forall j :: 0 <= j < RenditionsRead() ==>
                            ViewRead(container.renditions[j], views[j]) && Shows(container.renditions[j], views[j])
      ensures res.Ok? ==> forall j :: RenditionsRead() <= j < |container.renditions| ==> container.renditions[j].Initial()
    {
      views := [];
      res := ParseFront();
      if res.Fail? {
        return;
      }
      ghost var a := assets;
      res, views := ParseRenditions(RenditionsRead());
    }

    /**
      The last step of `parse`: `encryption.xml`, when its option is on.
      The container, the renditions and the documents the earlier steps
      read stay as they are.
    */
    method ParseEncryptionLast(ghost views: seq<RenditionView>) returns (res: Result<()>)
      requires Valid() && Unobfuscated() && encryption.None? && |views| == RenditionsRead()
      requires forall j :: 0 <= j < RenditionsRead() ==> Shows(container.renditions[j], views[j])
      requires forall j :: RenditionsRead() <= j < |container.renditions| ==> container.renditions[j].Initial()
      modifies this, assets.Values
      ensures container == old(container) && metadata == old(metadata)
      ensures container.renditions == old(container.renditions) && container.rmDocument == old(container.rmDocument)
      ensures res.Ok? ==> Valid() && assets.Keys == old(assets.Keys) + EncryptionKeys()
      ensures res.Ok? ==> if Enabled(parsingOptions, ENCRYPTION, NO_ENCRYPTION)
                          then EncryptionAt(files).Ok? && encryption == EncryptionAt(files).value
                          else encryption.None?
      ensures forall j :: 0 <= j < RenditionsRead() ==> Shows(container.renditions[j], views[j])
      ensures forall j :: RenditionsRead() <= j < |container.renditions| ==> container.renditions[j].Initial()
      ensures res.Ok? && encryption.None? ==> Unobfuscated()
      ensures res.Ok? && encryption.Some? ==>
                forall k :: k in assets ==>
                  assets[k].obfuscationAlgorithm == StampedAlgorithm(encryption.value, k) &&
                  assets[k].obfuscationKey == if StampedAlgorithm(encryption.value, k).Some? then UniqueIdentifier() else None
    {
      if Enabled(parsingOptions, ENCRYPTION, NO_ENCRYPTION) {
        res := ParseEncryption();
      } else {
        res := Ok(());
      }
    }

    /**
      `parse`: the `mimetype` asset and `container.xml`; with multiple
      renditions on, `metadata.xml`, the mapping document and every
      rendition, otherwise the first rendition only; then, when its option
      is on, `encryption.xml`, whose obfuscated assets get the
      publication's unique identifier as key. The first failure stops it.
      `views` records what each rendition read.
    */
    method Parse() returns (res: Result<()>, ghost views: seq<RenditionView>)
      requires Empty()
      modifies this
      ensures ContainerFails(files) ==> res.Fail?
      ensures res.Ok? ==> Valid() && fresh(container) && container.internalPath == Some(INTERNAL_PATH_CONTAINER_XML)
      ensures res.Ok? ==> RenditionsParsed(container.renditions) && FrontRead(metadata, container.rmDocument)
      ensures res.Ok? ==> |views| == RenditionsRead() &&
                          assets.Keys == FrontKeys() + AllKeys(container.renditions[..RenditionsRead()], views) +
                                         EncryptionKeys()
      ensures res.Ok? ==> forall j :: 0 <= j < RenditionsRead() ==>
                            ViewRead(container.renditions[j], views[j]) && Shows(container.renditions[j], views[j])
      ensures res.Ok? ==> forall j :: RenditionsRead() <= j < |container.renditions| ==> container.renditions[j].Initial()
      ensures res.Ok? ==> if Enabled(parsingOptions, ENCRYPTION, NO_ENCRYPTION)
                          then EncryptionAt(files).Ok? && encryption == EncryptionAt(files).value
                          else encryption.None?
      ensures res.Ok? && encryption.None? ==> Unobfuscated()
      ensures res.Ok? && encryption.Some? ==>
                forall k :: k in assets ==>
                  assets[k].obfuscationAlgorithm == StampedAlgorithm(encryption.value, k) &&
                  assets[k].obfuscationKey == if StampedAlgorithm(encryption.value, k).Some? then UniqueIdentifier() else None
    {
      res, views := ParseBody();
      if res.Fail? {
        return;
      }
      ghost var rs, md, rm := container.renditions, metadata, container.rmDocument;
      assert RenditionsParsed(rs) && FrontRead(md, rm);
      res := ParseEncryptionLast(views);
      assert container.renditions == rs && metadata == md && container.rmDocument == rm;
    }

    // -------------------------------------------------------------------
    // Publication-wide values
    // -------------------------------------------------------------------

    /** `version`: the `version` attribute of the default rendition's package document; None without one. */
    function Version(): (r: Option<string>)
      reads this, container, container.renditions
      ensures DefaultPackage() == null ==> r.None?
    {
      var p := DefaultPackage();
      if p == null then None else p.version
    }

    /**
      Once the default rendition is read, the version is the `version`
      attribute of the `<package>` element at its full path, and None when
      that rendition is not a package document.
    */
    lemma VersionRead(v: RenditionView)
      requires container.renditions != [] && ViewRead(container.renditions[0], v) && Shows(container.renditions[0], v)
      ensures var r := container.renditions[0];
              if r.mediaType == Some(MediaTypes.OPF)
              then XmlAt(files, r.fullPath).Tree? && Version() == Attr(XmlAt(files, r.fullPath).root, "version")
              else Version().None?
    {
    }

    /**
      `dcterms_modified`: the date of `metadata.xml` when it has one; the
      default rendition's package document's otherwise.
    */
    function DctermsModified(): (r: Option<string>)
      reads this, container, container.renditions, if DefaultPackage() != null then {DefaultPackage().metadata} else {}
      ensures metadata.Some? && metadata.value.dctermsModified.Some? ==> r == metadata.value.dctermsModified
      ensures !(metadata.Some? && metadata.value.dctermsModified.Some?) && DefaultPackage() == null ==> r.None?
      ensures !(metadata.Some? && metadata.value.dctermsModified.Some?) && DefaultPackage() != null ==>
                r == DefaultPackage().metadata.DctermsModified()
    {
      DctermsModifiedFrom(metadata, PacModified(DefaultPackage()))
    }

    /**
      `release_identifier`: the unique identifier and the date joined by
      `@`, without spaces; it is absent exactly when the unique identifier
      is, except that with `metadata.xml` a date alone still gives one.
    */
    function ReleaseIdentifier(): (r: Option<string>)
      reads this, container, container.renditions, if DefaultPackage() != null then {DefaultPackage().metadata} else {}
      ensures r.Some? ==> ' ' !in r.value
      ensures metadata.None? ==> (r.None? <==> UniqueIdentifier().None?)
      ensures metadata.Some? ==> (r.None? <==> UniqueIdentifier().None? && metadata.value.dctermsModified.None?)
    {
      ReleaseIdentifierSpaceless(metadata, PacUid(DefaultPackage()), PacModified(DefaultPackage()));
      ReleaseIdentifierFrom(metadata, PacUid(DefaultPackage()), PacModified(DefaultPackage()))
    }

    /** `internal_path_cover_image`: the cover image of the default rendition's package document; None without one. */
    function InternalPathCoverImage(): (r: Option<string>)
      reads this, container, container.renditions
      reads if DefaultPackage() != null then {DefaultPackage(), DefaultPackage().manifest, DefaultPackage().metadata} else {}
      ensures DefaultPackage() == null ==> r.None?
      ensures DefaultPackage() != null ==>
                (r.None? <==> DefaultPackage().internalPath.None? || DefaultPackage().RelativePathCoverImage().None?)
      ensures DefaultPackage() != null ==>
                r == NormJoinParent(DefaultPackage().internalPath, DefaultPackage().RelativePathCoverImage())
    {
      var p := DefaultPackage();
      if p == null then None else p.InternalPathCoverImage()
    }
  }
}
