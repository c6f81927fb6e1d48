# yael in Dafny

A Dafny model of the core of **yael** ("Yet Another EPUB Library"), a Python library that reads EPUB 3
publications (and their EPUB 2 parts) into an object tree: the publication, its `META-INF` files
(`container.xml`, `encryption.xml`, `metadata.xml`, the Rendition Mapping Document), one rendition per
`<rootfile>`, each rendition's OPF package document (metadata with refinements, manifest, spine,
guide), its Navigation Document, NCX table of contents and Media Overlay documents, and the assets,
which may be obfuscated with the Adobe or the IDPF font obfuscation algorithm. On top of this sits
`SimpleEPUB`, a facade that answers the usual questions (title, table of contents with references
resolved, spine, cover image, contents of an asset).

The model follows the source module by module:

- `util.dfy`, `paths.dfy`, `xml.dfy`, `wrappers.dfy`: the helpers of `yael/util.py` (path joining and
  normalisation, reference splitting, `safe_strip`, `safe_first`, the xpath queries as tree filters)
  over an XML element tree that stands in for lxml.
- `obfuscation.dfy`, `asset.dfy`, `mediatype.dfy`: the two obfuscation algorithms, assets and the
  media types.
- `encryption.dfy`, `metadata_xml.dfy`, `rendition_mapping.dfy`, `container.dfy`: the `META-INF` files.
- `opf_*.dfy`: the package document and its parts, as classes whose parse methods fill their fields.
- `mediaoverlay.dfy`, `nav.dfy`, `ncx.dfy`: the Media Overlay, Navigation Document and NCX trees, as
  datatypes, with the queries the library runs on them.
- `rendition.dfy`, `publication.dfy`: renditions and the publication with its parse, which reads the
  files of the container through a file map given as a parameter.
- `simpleepub.dfy`: the `SimpleEPUB` facade.

Parsing methods are proved against specification functions on the XML tree (`ensures r ==
MetadataOf(root, path)`, `ensures ParsedFrom(n, path)`), and the lemmas state what those functions
mean: last-wins and first-wins lookups, filters that keep order and exactly the passing elements,
round trips of obfuscation, resolution of references against the document that holds them.

## Model

| member | source | states |
|---|---|---|
| Util.Filter | yael/util.py:151-194 | the xpath-and-comprehension filter keeps order and never grows the list |
| Util.FilterFacts | yael/util.py:151-194 | the filter keeps exactly the elements passing the test, is empty only when none passes, and starts with the first that passes |
| Util.FilterOrder | yael/util.py:151-194 | the filter is a subsequence of its input, keeping every passing element as often as it occurs and no other |
| Util.FilterAppend | yael/util.py:151-194 | filtering distributes over concatenation |
| Util.SafeFirst | yael/util.py:116-130 | `safe_first`: None exactly for a None or empty list, the head otherwise |
| Util.FirstMatchFacts | yael/util.py:116-130 | `safe_first` of a filtered list is None exactly when nothing passes, and otherwise the first element that passes |
| Util.FirstOfFilter | yael/util.py:116-130 | the comprehension-then-`safe_first` idiom is a first-match search |
| Util.FirstMatchAppend | yael/util.py:116-130 | appending keeps an earlier first match; otherwise the new element is the match exactly when it passes |
| Util.LastMatch | yael/metadata.py:74-90 | what a loop that overwrites a value at every match leaves: None exactly when nothing matches, otherwise a matching element with no match after it |
| Util.IndexOf | yael/modocument.py:224-229 | `list.index` made total: -1 exactly when absent, otherwise the first position holding the element |
| Util.InsertAllAppend | yael/modocument.py:247-256 | inserting the keys of `a + b` into an insertion-ordered dictionary is inserting `a`, then `b` |
| Util.InsertAllFacts | yael/modocument.py:247-256 | the old keys stay in front, the keys are exactly the old and the inserted ones, and none occurs twice |
| Util.DistinctMember | yael/modocument.py:178-190 | starting from no keys, a value becomes a key exactly when it was inserted |
| Util.InsertAllFirstSeen | yael/modocument.py:178-190 | starting from no keys, the keys come out in the order in which each value was first inserted |
| Util.IndexWhere | yael/opfspine.py:113-128 | the position of the first element passing a test, -1 exactly when none passes |
| Util.Strip | yael/util.py:100-113 | `str.strip`: a slice of the input with no whitespace at either end, and only whitespace cut off |
| Util.StripIdempotent | yael/util.py:100-113 | stripping twice is stripping once |
| Util.SafeStrip | yael/util.py:100-113 | `safe_strip`: None stays None, a string is stripped |
| Util.RemoveAllChar | yael/util.py:294-306 | `replace(c, "")` leaves no `c` and keeps every other character of the input |
| Util.RemoveAllAbsent | yael/util.py:294-306 | deleting a pattern from a string that cannot contain it changes nothing |
| Util.SplitOnFacts | yael/util.py:218-241 | `split` gives one more piece than separators, no piece holds the separator, and joining the pieces gives the input back |
| Util.SplitOnSep | yael/util.py:218-241 | splitting around one separator whose left part has none is that part followed by the split of the rest |
| Util.SplitJoin | yael/util.py:218-241 | splitting a join gives back its parts when no part holds the separator |
| Util.SplitReferenceCases | yael/util.py:218-241 | `split_reference`: nothing for None and for two or more `#`; the whole string as base without a `#`; base and fragment around the single `#` otherwise, and base, `#` and fragment give the input back |
| Paths.JoinParts | yael/util.py:64-79 | `os.path.join`: an absolute second path replaces the first; otherwise the second follows the first and at most one added `/` |
| Paths.RStripSlashParts | yael/util.py:81-97 | trailing slash removal keeps a prefix that does not end in `/` and drops only slashes |
| Paths.AfterLastSlashParts | yael/util.py:81-97 | the cut of `dirname` follows a `/`, and no `/` comes after it |
| Paths.DirnamePrefix | yael/util.py:81-97 | `os.path.dirname` is a prefix of the path |
| Paths.NormPathOfNormal | yael/util.py:64-79 | a root of at most two slashes followed by normal components is a fixed point of `normpath` |
| Paths.NormPathIdempotent | yael/util.py:64-79 | `normpath` is idempotent |
| Paths.NormJoin | yael/util.py:64-79 | `norm_join`: None exactly when either argument is None |
| Paths.NormJoinParent | yael/util.py:81-97 | `norm_join_parent`: None exactly when either argument is None |
| Paths.NormJoinParentNormal | yael/util.py:81-97 | a resolved path is already normal |
| Paths.NormJoinParentSibling | yael/util.py:81-97 | a relative reference from `dir/file` resolves to the normalised `dir/reference` |
| Paths.NormJoinParentAtRoot | yael/util.py:81-97 | a reference from a file at the container root resolves to the normalised reference itself |
| Paths.NormPathCancelsParent | yael/util.py:81-97 | the documented example: `..` cancels the segment before it, so `a/../b/c` becomes `b/c` |
| Xml.ChildrenFacts | yael/util.py:151-194 | the xpath child step keeps exactly the children with that tag, in document order |
| Xml.DescendantsTaggedRoot | yael/util.py:151-194 | the descendant search `//tag` finds the root element first when its tag matches |
| Xml.ChildrenOfAllAppend | yael/util.py:151-194 | a child step applied to a list of nodes distributes over concatenation |
| Xml.Path2Grandchild | yael/util.py:151-194 | each node of a two-step path `a/b` is a grandchild of the start node |
| Obfuscation.AdobeKey | yael/util.py:291-298 | the Adobe key has no dash and no colon |
| Obfuscation.IdpfKey | yael/util.py:300-306 | the string hashed for the IDPF key has no space, tab, carriage return or line feed |
| Obfuscation.SchemeFor | yael/util.py:291-314 | `adobe` selects 64 blocks of 16 bytes and the cleaned key's bytes, `idpf` 52 blocks of 20 bytes and the SHA-1 of the cleaned key, any other name nothing |
| Obfuscation.Transform | yael/util.py:330-347 | the transform keeps the length and copies every byte past the blocks unchanged |
| Obfuscation.Obfuscate | yael/util.py:278-347 | `obfuscate_data`: no result for an unknown algorithm, a failure for missing data, the length kept otherwise, and the zero-key failure only for an Adobe key that cleans to nothing |
| Obfuscation.TransformLoop | yael/util.py:330-347 | the nested block loop and the tail copy compute the transform, and fail on a non-empty input with an empty key |
| Obfuscation.ObfuscateData | yael/util.py:278-347 | the dispatch and loops of `obfuscate_data` compute `Obfuscate` |
| Obfuscation.TransformXor | yael/util.py:334-343 | inside the blocks each byte is XORed with the key byte of its position in the block |
| Obfuscation.TransformInvolution | yael/util.py:330-347 | applying the transform twice with the same key gives back the input |
| Obfuscation.ObfuscateRoundTrip | yael/util.py:278-347 | de-obfuscating obfuscated data with the same key and algorithm returns the data |
| Obfuscation.Limits | yael/util.py:291-301 | Adobe touches the first 1024 bytes, IDPF the first 1040 |
| Obfuscation.IdpfTotal | yael/util.py:299-312 | the IDPF variant always has a twenty-byte key, so it never fails on present data |
| Assets.Asset.constructor | yael/asset.py:48-59 | a new asset holds the given paths and data and is not obfuscated |
| Assets.Asset.RawContents | yael/asset.py:186-234 | `raw_contents`: the in-memory data whenever set; nothing without an absolute path; with no data and an absolute path, exactly the read |
| Assets.Asset.Contents | yael/asset.py:160-183 | `contents`: the raw contents without a key, and with a key the raw contents passed through `obfuscate_data` |
| Assets.Asset.ContentsRoundTrip | yael/asset.py:160-183 | re-obfuscating the de-obfuscated contents gives back the raw contents |
| Assets.Asset.ContentsUnknownAlgorithm | yael/asset.py:160-183 | with a key and an unrecognised algorithm the contents are None |
| Assets.Asset.DataShadowsRead | yael/asset.py:186-234 | set data shadows the file: the contents do not depend on the read |
| MediaTypes.PrefixFamiliesDisjoint | yael/mediatype.py:111-178 | no media type is two of audio, image and video |
| MediaTypes.IsAudio | yael/mediatype.py:110-121 | `is_audio`: holds exactly for `audio/` followed by a subtype |
| MediaTypes.IsImage | yael/mediatype.py:152-163 | `is_image`: holds exactly for `image/` followed by a subtype |
| MediaTypes.IsVideo | yael/mediatype.py:166-177 | `is_video`: holds exactly for `video/` followed by a subtype |
| MediaTypes.IsFont | yael/mediatype.py:139-149 | `is_font`: true exactly for the eleven font types of FONTS (EOT, the OpenType, SFNT, SVG, TrueType and WOFF types); every font but SVG is an `application/` type, and no font is audio or video |
| MediaTypes.IsContentDocument | yael/mediatype.py:124-136 | `is_content_document`: holds exactly for SVG and XHTML |
| MediaTypes.SvgOnlyImageFont | yael/mediatype.py:139-163 | a media type is both a font and an image exactly when it is `image/svg+xml` |
| MediaTypes.SvgOnlyImageContent | yael/mediatype.py:124-163 | a media type is both a content document and an image exactly when it is `image/svg+xml` |
| MediaTypes.ContentDocuments | yael/mediatype.py:124-149 | of the content documents, exactly `image/svg+xml` is also a font |
| EncryptionXml.AddEncData | yael/encryption.py:96-103 | `add_enc_data`: the entry goes at the end and nothing else changes |
| EncryptionXml.AddEncKey | yael/encryption.py:105-112 | `add_enc_key`: the entry goes at the end and nothing else changes |
| EncryptionXml.ReadKeys | yael/encryption.py:64-76 | the `EncryptedKey` loop appends one entry per element, in document order |
| EncryptionXml.ReadDatas | yael/encryption.py:79-91 | the `EncryptedData` loop appends one entry per element, in document order |
| EncryptionXml.Parse | yael/encryption.py:52-94 | `parse_object` gives the document read from the root: a failure without `<encryption>` |
| EncryptionXml.ObfuscatedUrisMembers | yael/encryption.py:141-164 | a URI is listed exactly when some entry with that algorithm names it |
| EncryptionXml.ObfuscatedUrisAppend | yael/encryption.py:141-164 | the list follows the entries' order and grows only at the end |
| EncryptionXml.AdobeIdpfDisjoint | yael/encryption.py:141-164 | no entry counts for both algorithms, so the two lists together are no longer than the entries |
| RenditionMapping.AddLocation | yael/rmdocument.py:93-101 | `add_location`: the location goes at the end and nothing else changes |
| RenditionMapping.LocationOf | yael/rmlocation.py:46-66 | a location has one point per `li/a`, in document order |
| RenditionMapping.ReadLocations | yael/rmdocument.py:77-88 | the `<ul>` loop appends one location per `<ul>`, in order |
| RenditionMapping.Parse | yael/rmdocument.py:56-91 | `parse_object` gives the document read from the root |
| RenditionMapping.ResourceMapGate | yael/rmdocument.py:56-91 | the parse fails exactly without `/html/body/nav`; only a `resource-map` nav sets the type and yields locations |
| MetadataXml.ReadUniqueIdentifier | yael/metadata.py:68-78 | the `<dc:identifier>` loop leaves the stripped text of the last identifier whose id matches |
| MetadataXml.ReadDctermsModified | yael/metadata.py:81-90 | the `<meta>` loop leaves the stripped text of the last `dcterms:modified` meta |
| MetadataXml.Parse | yael/metadata.py:53-92 | `parse_object`: a failure without `<metadata>`, otherwise the two values the loops leave |
| MetadataXml.UniqueIdentifierLastWins | yael/metadata.py:74-78 | the unique identifier is the stripped text of the last matching identifier |
| MetadataXml.ReleaseIdentifier | yael/metadata.py:121-133 | with a date, the identifier (`None` when absent), `@` and the date; without one, the identifier |
| MetadataXml.ReleaseIdentifierParts | yael/metadata.py:121-133 | given a date, the Release Identifier ends in `@` and the date and starts with the identifier, or is `None@` and the date |
| ContainerXml.MappingDocumentOf | yael/container.py:187-202 | the mapping document is None exactly without a mapping link; otherwise that of the last mapping link |
| ContainerXml.AcceptedIsFilter | yael/container.py:163-185 | the usable rootfiles are the rootfiles with both `full-path` and `media-type`, in order |
| ContainerXml.Container.constructor | yael/container.py:59-66 | an empty container |
| ContainerXml.Container.AddRendition | yael/container.py:112-121 | `add_rendition`: the rendition goes at the end and nothing else changes |
| ContainerXml.Container.DefaultRendition | yael/container.py:153-161 | `default_rendition`: null exactly without renditions, the first otherwise |
| ContainerXml.Container.ParseRootfile | yael/container.py:163-185 | a usable `<rootfile>` appends one new rendition with its attributes; any other changes nothing |
| ContainerXml.Container.ParseLink | yael/container.py:187-202 | a mapping link replaces the mapping document; any other link changes nothing |
| ContainerXml.Container.ParseRootfiles | yael/container.py:79-110 | the rootfile loop leaves one new, distinct rendition per usable rootfile, in order |
| ContainerXml.Container.ParseLinks | yael/container.py:79-110 | the link loop leaves the mapping document of the last mapping link |
| ContainerXml.Container.Parse | yael/container.py:79-110 | `parse_object`: a failure exactly without `<container>`; otherwise the renditions of the usable rootfiles and the last mapping link's document |
| Renditions.Rendition.constructor | yael/rendition.py:31-47 | a rendition takes the attributes of its `<rootfile>` and starts with no documents |
| Renditions.Rendition.AddMoDocument | yael/rendition.py:73-81 | `add_mo_document`: the document goes at the end and nothing else changes |
| Renditions.Rendition.Toc | yael/rendition.py:230-251 | `toc`: with a navigation document its first `<nav>` of type `toc`, and None when it has none; the NCX only without a navigation document |
| Renditions.Rendition.Landmarks | yael/rendition.py:254-265 | `landmarks`: the first `<nav>` of type `landmarks` of the navigation document; None without one |
| MediaOverlay.AddChild | yael/moseq.py:74-82 | `add_child`: the child goes at the end of the children and nothing else changes |
| MediaOverlay.ParOf | yael/mopar.py:61-70 | a `par` read from an element keeps only `text` and `audio` children |
| MediaOverlay.SeqOf | yael/moseq.py:63-72 | a `seq` read from an element keeps only well-formed `seq` and `par` children, to any depth |
| MediaOverlay.ParsePar | yael/mopar.py:61-70 | the child loop of `MOPar.parse_object` builds the `par` its element is read as |
| MediaOverlay.ParseSeq | yael/moseq.py:63-72 | the child loop of `MOSeq.parse_object`, recursing into `seq` children, builds the `seq` its element is read as |
| MediaOverlay.Parse | yael/modocument.py:61-91 | `parse_object`: a failure without `<smil>` or without `<body>`, otherwise the attributes and the body read as a well-formed `seq` |
| MediaOverlay.SeqKeepsSeqAndPar | yael/moseq.py:67-72 | the children of a `seq` are its `seq` and `par` element children, filtered and read in order |
| MediaOverlay.ParKeepsTextAndAudio | yael/mopar.py:65-70 | the children of a `par` are its `text` and `audio` element children, filtered and read in order |
| MediaOverlay.AddChildSrcs | yael/moseq.py:74-82 | a child added with `add_child` contributes its sources after all earlier ones |
| MediaOverlay.LeafSrcsInDocumentOrder | yael/modocument.py:258-269 | the recursive collection visits the leaves as a walk over all elements in document order does, duplicates included |
| MediaOverlay.CollectFragments | yael/modocument.py:258-269 | `_referenced_fragment_identifiers` appends the resolved source of every `text` below the elements to the accumulator |
| MediaOverlay.CollectAudio | yael/modocument.py:247-256 | `_referenced_audio_files` inserts the resolved source of every `audio` below the elements as a dictionary key |
| MediaOverlay.ReferencedFragmentIdentifiers | yael/modocument.py:193-205 | every `text` source, resolved, in document order, duplicates kept; none without a body |
| MediaOverlay.ReferencedAudioFiles | yael/modocument.py:178-190 | the audio sources collected into an insertion-ordered dictionary; none without a body |
| MediaOverlay.AudioFilesDistinct | yael/modocument.py:178-190 | the audio files are the audio sources with duplicates removed: no path twice, every source present, in first-seen order |
| MediaOverlay.HasAudioChild | yael/mopar.py:131-138 | `has_audio_child` holds exactly when some child is an `audio` |
| MediaOverlay.EmbeddedAVIffSilentPar | yael/modocument.py:235-245 | in a well-formed tree the search succeeds exactly when some `par` below has no `audio` child |
| MediaOverlay.ParsedEmbeddedAV | yael/modocument.py:161-175 | a parsed document references embedded audio or video exactly when some `par` in its body lacks audio |
| MediaOverlay.GroupedSpec | yael/modocument.py:208-233 | the grouping's keys are the bases of the references `split_reference` accepts, in first-seen order, each with the fragments of its references in list order |
| MediaOverlay.AddFragmentKeys | yael/modocument.py:224-229 | adding a fragment inserts its base as a key |
| MediaOverlay.AddFragmentLists | yael/modocument.py:224-229 | adding a fragment extends the list of its base and no other |
| MediaOverlay.GroupedTotal | yael/modocument.py:208-233 | the grouping holds one fragment per accepted reference |
| MediaOverlay.GroupedCount | yael/modocument.py:208-233 | the grouping never holds more fragments than there are identifiers, and exactly as many when every identifier is present with at most one `#` |
| MediaOverlay.GroupFragments | yael/modocument.py:221-231 | the grouping loop computes the grouping of the identifiers |
| MediaOverlay.GroupedReferencedFragmentIdentifiers | yael/modocument.py:208-233 | `grouped_referenced_fragment_identifiers`: the grouping of the document's identifiers, with distinct keys and no more fragments than identifiers |
| Nav.AddNodeChild | yael/navnode.py:102-110 | `NavNode.add_child`: the child goes at the end, the earlier children and every other field stay |
| Nav.AddElementChild | yael/navelement.py:90-98 | `NavElement.add_child`: the child goes at the end, the earlier children and every other field stay |
| Nav.AddNav | yael/navdocument.py:73-80 | `add_nav`: the nav goes at the end, the earlier navs and the internal path stay |
| Nav.FirstChild | yael/navnode.py:60-67 | the first element of a query's result, absent exactly when the query finds nothing |
| Nav.NavNodesOf | yael/navnode.py:89-100 | one entry per `li`, read in order |
| Nav.NavNodesOfAppend | yael/navnode.py:95-100 | reading entries distributes over concatenation, so the loop may append one at a time |
| Nav.ItemsOfLi | yael/navnode.py:80-86 | the entries of one list come from exactly its `li` children, in order |
| Nav.ListsOfPath | yael/navnode.py:80-86 | the nested entries come from exactly the `ol/li` path, in document order |
| Nav.ListsOfChildren | yael/navnode.py:80-86 | the recursive reading of a node's children equals reading the `ol/li` matches |
| Nav.ParseNode | yael/navnode.py:59-100 | `NavNode.parse_object` computes the entry its `li` element is read as |
| Nav.ReadNodeItems | yael/navnode.py:87-100 | the `ol/li` loop appends the entry of every match, in order, to the existing children |
| Nav.AnchorOverridesSpan | yael/navnode.py:60-78 | the first `<a>` sets label, id, href and epub:type and overrides the first `<span>`; without an `<a>` there is no href or epub:type and a `<span>` gives label and id |
| Nav.NavNodeChildren | yael/navnode.py:80-100 | an entry has one nested entry per `ol/li` grandchild, in document order |
| Nav.TitleFromRule | yael/navelement.py:61-73 | the title is the text of the first heading of the first level, h1 to h6, that has any; None exactly when no level has one |
| Nav.ReadTitle | yael/navelement.py:61-73 | the heading loop stops at the first level found and computes the title |
| Nav.ParseElement | yael/navelement.py:57-88 | `NavElement.parse_object` computes the nav its element is read as |
| Nav.NavElementShape | yael/navelement.py:57-88 | a nav's title follows the heading rule and its entries are the `ol/li` grandchildren, read in order |
| Nav.NavElementsOf | yael/navdocument.py:62-71 | one nav per found `<nav>` element, in order, each carrying the document's internal path |
| Nav.NavElementsOfAppend | yael/navdocument.py:62-71 | reading navs distributes over concatenation |
| Nav.Parse | yael/navdocument.py:55-71 | `parse_object` computes the navigation document read from the root |
| Nav.ReadNavs | yael/navdocument.py:62-71 | the nav loop appends every found `<nav>`, read, to the existing navs and keeps the internal path |
| Nav.DocumentNavs | yael/navdocument.py:55-71 | the document has one nav per `<nav>` anywhere in the tree, the root included and first, each carrying the internal path |
| Nav.NavById | yael/navdocument.py:95-105 | `nav_by_id`: the first nav whose id is the one asked for; None exactly when no nav has it |
| Nav.NavByEpubType | yael/navdocument.py:107-118 | `nav_by_epub_type`: the first nav whose epub:type is the one asked for; None exactly when no nav has it |
| Nav.TocNav | yael/navdocument.py:139-145 | `toc`: the first nav of the document of type `toc`; None exactly when there is none |
| Nav.LandmarksNav | yael/navdocument.py:121-127 | `landmarks`: the first nav of the document of type `landmarks`; None exactly when there is none |
| Nav.PageListNav | yael/navdocument.py:130-136 | `page_list`: the first nav of the document of type `page-list`; None exactly when there is none |
| Ncx.AddNodeChild | yael/ncxtocnode.py:100-108 | `NCXTocNode.add_child`: the child goes at the end, the earlier children and every other field stay |
| Ncx.AddTocChild | yael/ncxtoc.py:165-173 | `NCXToc.add_child`: the child goes at the end, the earlier children and every other field stay |
| Ncx.NodesOf | yael/ncxtocnode.py:84-98 | one node per `navPoint`, read in order |
| Ncx.NodesOfSnoc | yael/ncxtocnode.py:91-98 | reading one more point appends its node |
| Ncx.PointsOfNavPoints | yael/ncxtocnode.py:84-98 | the nested points come from exactly the `navPoint` children, in document order |
| Ncx.PointsOfChildren | yael/ncxtocnode.py:84-98 | the recursive reading of a point's children equals reading its `navPoint` matches |
| Ncx.ParseNode | yael/ncxtocnode.py:59-98 | `NCXTocNode.parse_object` computes the node its `navPoint` is read as |
| Ncx.ReadChildPoints | yael/ncxtocnode.py:84-98 | the `navPoint` loop appends every child point, read, to the existing children |
| Ncx.NodeOfShape | yael/ncxtocnode.py:64-98 | a node has one child per `navPoint` child, in document order, and its label carries no surrounding whitespace |
| Ncx.LastMetaWins | yael/ncxtoc.py:98-117 | each `dtb:*` field holds the content of the last `head/meta` with its name, or its old value when none has it |
| Ncx.MetaSetsField | yael/ncxtoc.py:105-117 | one meta sets a field exactly when it carries that field's name |
| Ncx.MetasKeepOtherFields | yael/ncxtoc.py:98-117 | the meta loop changes no field other than the five `dtb:*` ones |
| Ncx.MetaKeepsOtherFields | yael/ncxtoc.py:105-117 | one meta changes no field other than the five `dtb:*` ones |
| Ncx.ReadMetas | yael/ncxtoc.py:98-117 | the meta loop computes the fields the metas set |
| Ncx.ReadNavPoints | yael/ncxtoc.py:148-163 | the `navPoint` loop appends every top-level point, read, in order |
| Ncx.ReadTitleAuthor | yael/ncxtoc.py:119-137 | title and author are the text of the first `docTitle/text` and `docAuthor/text`, None without one |
| Ncx.ReadNavMap | yael/ncxtoc.py:139-163 | only the first `navMap` is read, and without one there are no points |
| Ncx.Parse | yael/ncxtoc.py:84-163 | `parse_object`: a failure when the root is not `<ncx>`, otherwise the table of contents read from it |
| Ncx.TocChildren | yael/ncxtoc.py:139-163 | a parsed NCX has one top-level node per `navPoint` of its first `navMap`, none without one |
| Ncx.TocDtbField | yael/ncxtoc.py:98-117 | each `dtb:*` field of a parsed NCX is the content of the last `head/meta` with its name, None when none has it |
| OpfEntities.HasTokenExact | yael/opfitem.py:85-98 | a property list built from space-free tokens holds a property exactly when it is one of the tokens |
| OpfEntities.HasTokenNotPrefix | yael/opfitem.py:96-98 | membership is by whole token: `cover` is not a property of `cover-image`, `cover-image` is |
| OpfEntities.HasTokenSpaceFree | yael/opfitem.py:96-98 | a property containing a space is never present |
| OpfEntities.OPFItem.Empty | yael/opfitem.py:38-50 | a new item has every attribute None, no refinements and no asset |
| OpfEntities.OPFItem.FromNode | yael/opfitem.py:66-72 | `parse_object`: the six attributes are those of the `<item>` element, with no refinements and no asset |
| OpfEntities.OPFItem.AddRefinement | yael/opfitem.py:74-83 | `add_refinement`: the refinement goes at the end; the earlier ones and the asset stay |
| OpfEntities.ItemrefOf | yael/opfitemref.py:66-71 | `parse_object` of an `<itemref>`: each attribute is present exactly when the element carries it |
| OpfEntities.DCOf | yael/opfdc.py:75-84 | a `dc:*` entry keeps its tag and id, and its text stripped |
| OpfEntities.MetaOf | yael/opfmetadata.py:86-96 | a `<meta>` is an EPUB 3 entry exactly when it has `property`, an EPUB 2 entry otherwise, with the attributes of its kind |
| OpfEntities.LinkOf | yael/opflink.py:51-56 | a `<link>` keeps href, rel and refines |
| OpfEntities.ReferenceOf | yael/opfreference.py:65-69 | a `<reference>` keeps href, id, title and type |
| OpfEntities.OPFMetadatum.constructor | yael/opfmetadatum.py:37-43 | a new metadatum has no refinements |
| OpfEntities.OPFMetadatum.AddRefinement | yael/opfmetadatum.py:56-65 | `add_refinement`: the very refiner passed becomes the last refinement; the earlier ones stay in order |
| OpfGuide.ReferenceWithType | yael/opfguide.py:80-90 | the first reference with that type; None exactly when none has it |
| OpfGuide.ReferenceWithId | yael/opfguide.py:92-102 | the first reference with that id; None exactly when none has it |
| OpfGuide.OPFGuide.constructor | yael/opfguide.py:30-37 | a new guide has no references |
| OpfGuide.OPFGuide.Parse | yael/opfguide.py:39-57 | `parse_object`: the id, then one reference per `<reference>` child, in document order |
| OpfGuide.OPFGuide.Length | yael/opfguide.py:68-69 | `len` is the number of references |
| OpfGuide.OPFGuide.AddReference | yael/opfguide.py:71-78 | `add_reference`: the reference goes at the end and the length grows by one |
| OpfGuide.OPFGuide.ReferenceByType | yael/opfguide.py:80-90 | `reference_by_type`: a reference of the guide with that type, or None |
| OpfGuide.OPFGuide.ReferenceById | yael/opfguide.py:92-102 | `reference_by_id`: a reference of the guide with that id, or None |
| OpfGuide.AddThenLookupByType | yael/opfguide.py:71-90 | after `add_reference`, a lookup by its type finds the earlier reference of that type if there is one, else the new one |
| OpfGuide.AddKeepsOtherIds | yael/opfguide.py:71-102 | adding a reference leaves the lookup of any other id unchanged |
| OpfManifest.ItemPath | yael/opfmanifest.py:53-58 | an item's internal path is its href joined to the manifest's directory, None when either is missing |
| OpfManifest.ItemWithId | yael/opfmanifest.py:84-94 | the first item with that id; None exactly when none has it |
| OpfManifest.ItemWithInternalPath | yael/opfmanifest.py:108-119 | the first item with that internal path; None exactly when none has it |
| OpfManifest.OPFManifest.constructor | yael/opfmanifest.py:31-38 | a new manifest has no items |
| OpfManifest.OPFManifest.Parse | yael/opfmanifest.py:40-61 | `parse_object`: the id, then one new, unrefined item per `<item>` child, in document order, each with its internal path |
| OpfManifest.OPFManifest.Length | yael/opfmanifest.py:72-73 | `len` is the number of items |
| OpfManifest.OPFManifest.AddItem | yael/opfmanifest.py:75-82 | `add_item`: the item goes at the end and the length grows by one |
| OpfManifest.OPFManifest.ItemById | yael/opfmanifest.py:84-94 | `item_by_id`: the first item with that id; None exactly when none has it |
| OpfManifest.OPFManifest.ItemByInternalPath | yael/opfmanifest.py:108-119 | `item_by_internal_path`: the first item with that internal path; None exactly when none has it |
| OpfManifest.OPFManifest.ItemsByMediaType | yael/opfmanifest.py:96-106 | `items_by_media_type`: exactly the items with that media type, in manifest order, each as often as in the manifest |
| OpfManifest.OPFManifest.ItemWithProperty | yael/opfmanifest.py:148-175 | the first item carrying a property token; None exactly when none carries it |
| OpfManifest.OPFManifest.ScanForProperty | yael/opfmanifest.py:154-160 | the early-return scan finds the first item carrying the token |
| OpfManifest.OPFManifest.CoverImageItem | yael/opfmanifest.py:148-160 | `cover_image_item`: the first item with the `cover-image` token, or None |
| OpfManifest.OPFManifest.NavDocumentItem | yael/opfmanifest.py:163-175 | `nav_document_item`: the first item with the `nav` token, or None |
| OpfManifest.OPFManifest.MoItems | yael/opfmanifest.py:251-257 | `mo_items`: exactly the items that name a media overlay, in manifest order, each as often as in the manifest |
| OpfManifest.OPFManifest.SmilItems | yael/opfmanifest.py:260-275 | `smil_items` and `mo_document_items`: exactly the items of media type `application/smil+xml` |
| OpfMetadata.DcNodes | yael/opfmetadata.py:61-74 | the `dc:*` elements visited are children of `<metadata>` |
| OpfMetadata.MetadatumWithId | yael/opfmetadata.py:127-137 | the first metadatum with that id; None exactly when none has it |
| OpfMetadata.OPFMetadata.constructor | yael/opfmetadata.py:44-54 | new metadata have no entries and no links |
| OpfMetadata.OPFMetadata.Parse | yael/opfmetadata.py:56-112 | `parse_object`: the attributes, every `dc:*` entry grouped by element name, then every `<meta>`, then the links, each in document order and unrefined |
| OpfMetadata.OPFMetadata.AppendAllEntries | yael/opfmetadata.py:61-97 | the two entry loops: the `dc:*` entries first, then the `<meta>` entries |
| OpfMetadata.OPFMetadata.AppendLinks | yael/opfmetadata.py:99-112 | the link loop appends one link per `<link>`, in order, after the existing ones |
| OpfMetadata.OPFMetadata.AppendEntries | yael/opfmetadata.py:61-97 | an entry loop appends one new, unrefined metadatum per element, in order, after the existing ones |
| OpfMetadata.OPFMetadata.AddMetadatum | yael/opfmetadata.py:162-169 | `add_metadatum`: the metadatum goes at the end; the links stay |
| OpfMetadata.OPFMetadata.AddLink | yael/opfmetadata.py:171-178 | `add_link`: the link goes at the end; the metadata stay |
| OpfMetadata.OPFMetadata.MetadatumById | yael/opfmetadata.py:127-137 | `metadatum_by_id`: the first metadatum with that id; None exactly when none has it |
| OpfMetadata.OPFMetadata.MetadataByTag | yael/opfmetadata.py:139-148 | `metadata_by_tag`: exactly the metadata with that tag, in document order, each as often as it occurs |
| OpfMetadata.OPFMetadata.MetadataByProperty | yael/opfmetadata.py:150-160 | `metadata_by_property`: exactly the EPUB 3 metadata with that property, in document order, each as often as it occurs |
| OpfMetadata.OPFMetadata.CoverImageItemId | yael/opfmetadata.py:181-192 | `cover_image_item_id`: the content of the first EPUB 2 meta named `cover` is returned; None when there is none |
| OpfMetadata.OPFMetadata.DctermsModified | yael/opfmetadata.py:195-205 | `dcterms_modified`: the text of the first EPUB 3 meta with property `dcterms:modified` is returned; None when there is none |
| OpfSpine.IndexOfIdref | yael/opfspine.py:113-128 | the smallest position with that idref, or -1 exactly when none has it |
| OpfSpine.Linear | yael/opfspine.py:200-207 | exactly the itemrefs whose `linear` is not `no`, absent included, in spine order, each as often as it occurs |
| OpfSpine.OPFSpine.constructor | yael/opfspine.py:33-42 | a new spine has no itemrefs |
| OpfSpine.OPFSpine.Parse | yael/opfspine.py:44-64 | `parse_object`: id, page-progression-direction and toc, then one itemref per `<itemref>` child, in document order |
| OpfSpine.OPFSpine.Length | yael/opfspine.py:77-78 | `len` is the number of itemrefs |
| OpfSpine.OPFSpine.AddItemref | yael/opfspine.py:80-87 | `add_itemref`: the itemref goes at the end and the length grows by one |
| OpfSpine.OPFSpine.ItemrefById | yael/opfspine.py:89-99 | `itemref_by_id`: the first itemref with that id; None exactly when none has it |
| OpfSpine.OPFSpine.ItemrefByIdref | yael/opfspine.py:101-111 | `itemref_by_idref`: the first itemref with that idref; None exactly when none has it |
| OpfSpine.OPFSpine.LinearItemrefs | yael/opfspine.py:200-207 | `linear_itemrefs`: the linear itemrefs, never more than the spine holds |
| OpfSpine.OPFSpine.ScanIdref | yael/opfspine.py:121-128 | the counter loop returns the first position with that idref, or -1 |
| OpfSpine.OPFSpine.IndexByIdref | yael/opfspine.py:113-128 | `index_by_idref`: the first position with that idref, or -1 exactly when none has it |
| OpfSpine.OPFSpine.LinearIndexByIdref | yael/opfspine.py:130-145 | `linear_index_by_idref`: the first position with that idref in the linear spine, or -1 |
| OpfSpine.LinearIndexOfNonLinear | yael/opfspine.py:130-145 | an idref carried only by `linear="no"` itemrefs has no linear index |
| OpfSpine.LinearIndexInSpine | yael/opfspine.py:113-145 | whatever has a linear index also has a spine index |
| OpfSpine.LinearExample | yael/opfspine.py:200-207 | for linear values `yes`, `no`, absent, `no`, the linear spine is the first and the third itemref |
| OpfPacDocument.TargetOfCases | yael/opfpacdocument.py:166-180 | `#X` goes to the first metadatum with id X when there is one, else to the first item with id X, else nowhere; anything not starting with `#` goes nowhere |
| OpfPacDocument.TargetedAtMembers | yael/opfpacdocument.py:159-180 | an object receives exactly the refiners that resolve to it |
| OpfPacDocument.TargetedAtAppend | yael/opfpacdocument.py:160-164 | resolving one more refiner adds it to its target only |
| OpfPacDocument.AttachStep | yael/opfpacdocument.py:160-164 | one step of the refinement loops keeps every object's refinements equal to its earlier ones plus those resolved to it so far |
| OpfPacDocument.Refiners | yael/opfpacdocument.py:159-164 | the refiners visited are every EPUB 3 metadatum and every link, one each |
| OpfPacDocument.AttachedOnce | yael/opfpacdocument.py:166-180 | a refiner is attached to at most one object |
| OpfPacDocument.MetadatumBeforeItem | yael/opfpacdocument.py:170-174 | a `#X` naming a metadatum attaches there even when an item also has id X |
| OpfPacDocument.BareIdIgnored | yael/opfpacdocument.py:167-169 | a `refines` without the leading `#`, or an empty one, attaches nowhere, even when it is an existing id |
| OpfPacDocument.ResolveHref | yael/opfpacdocument.py:307-309 | the recorded path is the href itself without a document path, else the href joined to the document's directory, absent exactly when the href is |
| OpfPacDocument.SpineEntry | yael/opfpacdocument.py:380-387 | one itemref records at most one path |
| OpfPacDocument.SpinePaths | yael/opfpacdocument.py:377-391 | the spine never records more paths than it has itemrefs |
| OpfPacDocument.SpineEntryResolves | yael/opfpacdocument.py:381-387 | an itemref records a path exactly when its idref names a manifest item |
| OpfPacDocument.SpinePathsCount | yael/opfpacdocument.py:377-391 | one path per itemref whose idref resolves, and no other |
| OpfPacDocument.SpinePathsAllResolve | yael/opfpacdocument.py:377-391 | when every idref resolves, one path per itemref |
| OpfPacDocument.SpinePathsAppend | yael/opfpacdocument.py:379-387 | the accumulator loop appends the path of each itemref in turn |
| OpfPacDocument.SpinePathsOfLinear | yael/opfpacdocument.py:359-375 | the linear files unfold by one itemref: its path when it is linear, then the rest |
| OpfPacDocument.LinearFilesSubsequence | yael/opfpacdocument.py:342-375 | the files of the linear spine are a subsequence of the files of the whole spine |
| OpfPacDocument.OPFPacDocument.constructor | yael/opfpacdocument.py:100-104 | the package's id, dir, xml:lang, prefix and version are those of the `<package>` element |
| OpfPacDocument.OPFPacDocument.Parse | yael/opfpacdocument.py:91-164 | `parse_object`: a failure exactly when the root is not `<package>` or lacks `<manifest>`, `<metadata>` or `<spine>`; otherwise the parts are the parses of their first elements, the unique identifier is set, and every refiner is attached to what it names |
| OpfPacDocument.OPFPacDocument.Build | yael/opfpacdocument.py:98-164 | the successful path: parsed parts and every refinement resolved |
| OpfPacDocument.OPFPacDocument.ParseEntries | yael/opfpacdocument.py:106-126 | the first `<manifest>` and `<metadata>` are parsed into new, unrefined entries |
| OpfPacDocument.OPFPacDocument.ParseGuide | yael/opfpacdocument.py:139-149 | the first `<guide>` is parsed; without one there is no guide |
| OpfPacDocument.OPFPacDocument.ResolveRefinements | yael/opfpacdocument.py:159-164 | the two refinement loops leave every metadatum and item holding exactly the refiners that resolve to it |
| OpfPacDocument.OPFPacDocument.ResolveRefinement | yael/opfpacdocument.py:166-180 | `_resolve_refinement`: at most one object gets the refiner appended, the one it resolves to |
| OpfPacDocument.OPFPacDocument.ResolveAll | yael/opfpacdocument.py:159-164 | every refiner is resolved in order: each object gains exactly those that resolve to it |
| OpfPacDocument.OPFPacDocument.RelativePathCoverImage | yael/opfpacdocument.py:183-208 | `relative_path_cover_image`: the href of the first `cover-image` item when it has one; otherwise the href of the first item whose id the EPUB 2 cover meta names, and None without such an item |
| OpfPacDocument.OPFPacDocument.InternalPathCoverImage | yael/opfpacdocument.py:211-219 | `internal_path_cover_image`: `norm_join_parent` of the document's path and the cover href; None exactly when either is missing |
| OpfPacDocument.OPFPacDocument.RelativePathNavDocument | yael/opfpacdocument.py:222-234 | the href of the first `nav` item is returned, None when there is none |
| OpfPacDocument.OPFPacDocument.InternalPathNavDocument | yael/opfpacdocument.py:237-246 | `internal_path_nav_document`: `norm_join_parent` of the document's path and the nav href; None exactly when either is missing |
| OpfPacDocument.OPFPacDocument.RelativePathNcxToc | yael/opfpacdocument.py:249-264 | the href of the first item whose id is the spine's `toc` is returned, None when there is none |
| OpfPacDocument.OPFPacDocument.InternalPathNcxToc | yael/opfpacdocument.py:267-275 | `internal_path_ncx_toc`: `norm_join_parent` of the document's path and the NCX href; None exactly when either is missing |
| OpfPacDocument.OPFPacDocument.RelativeToInternal | yael/opfpacdocument.py:277-289 | `relative_to_internal`: `norm_join_parent` of the document's path and the given path, a normalised path; None exactly when either is missing |
| OpfPacDocument.OPFPacDocument.FilesReferencedManifest | yael/opfpacdocument.py:292-314 | one path per manifest item, in manifest order |
| OpfPacDocument.OPFPacDocument.FilesReferencedSpineOf | yael/opfpacdocument.py:377-391 | the accumulator loop records the spine paths |
| OpfPacDocument.OPFPacDocument.FilesReferencedSpine | yael/opfpacdocument.py:342-356 | `files_referenced_spine`: the spine paths, never more than there are itemrefs |
| OpfPacDocument.OPFPacDocument.FilesReferencedSpineLinear | yael/opfpacdocument.py:359-375 | `files_referenced_spine_linear`: the paths of the linear itemrefs, a subsequence of the spine's |
| OpfPacDocument.OPFPacDocument.ItemByInternalPath | yael/opfpacdocument.py:393-405 | `item_by_internal_path`: the first item with that internal path; None exactly when none has it |
| OpfPacDocument.OPFPacDocument.SpineIndexByInternalPath | yael/opfpacdocument.py:407-421 | -1 without such an item, else the spine index of the item's id |
| OpfPacDocument.OPFPacDocument.SpineLinearIndexByInternalPath | yael/opfpacdocument.py:423-437 | -1 without such an item, else the linear-spine index of the item's id |
| OpfPacDocument.OPFPacDocument.Kept | yael/opfpacdocument.py:91-164 | what the parse established survives any change outside the document's own objects |
| OpfPacDocument.OPFPacDocument.PathsIn | yael/opfpacdocument.py:237-275 | the nav and NCX paths depend on the document's path, its items and the spine's `toc` alone |
| OpfPacDocument.UniqueIdentifierOf | yael/opfpacdocument.py:151-157 | the unique identifier is the text of the first metadatum whose id is the package's `unique-identifier`, returned whenever one exists, None when there is none |
| Publications.MoDocumentsAt | yael/publication.py:493-511 | the Media Overlay loop never keeps more documents than there are paths |
| Publications.MoSnoc | yael/publication.py:493-511 | one more Media Overlay path appends its document, when kept, and adds its path to the asset keys |
| Publications.MoDocumentsPaths | yael/publication.py:496-507 | every kept Media Overlay Document carries the path its asset is registered at |
| Publications.SmilPaths | yael/publication.py:496-498 | each Media Overlay path is the item's href joined to the package document's directory |
| Publications.RegistersCompose | yael/publication.py:313-359 | two rounds of asset registration are one round at the keys of both |
| Publications.ReleaseIdentifierFrom | yael/publication.py:248-278 | `release_identifier` is absent exactly when the pieces it is built from are |
| Publications.ReleaseIdentifierSpaceless | yael/publication.py:248-278 | the Release Identifier never contains a space |
| Publications.ReleaseIdentifierParts | yael/publication.py:248-278 | with `metadata.xml`, its identifier (`None` when absent), `@` and its date; without it, identifier `@` date when both are known, the identifier alone without a date |
| Publications.StampedAlgorithm | yael/publication.py:380-389 | an asset is marked obfuscated exactly when `encryption.xml` lists it under one of the two algorithms |
| Publications.StampedAdobeIff | yael/publication.py:380-389 | an asset ends up with Adobe obfuscation exactly when some entry marks it Adobe and none marks it IDPF, since the IDPF loop runs second |
| Publications.Publication.constructor | yael/publication.py:63-86 | a publication before `parse`: no assets, an empty container, no `metadata.xml` and no `encryption.xml`; absent options mean none (the source parses at construction when a path is given) |
| Publications.Publication.RegisterAsset | yael/publication.py:320-324 | `self.assets[key] = Asset(...)`: a new, unobfuscated asset at that key; every other asset stays |
| Publications.Publication.ParseContainerXml | yael/publication.py:326-336 | `container.xml` is registered and parsed: a failure exactly when its contents are not XML or their root is not `<container>`; otherwise one new rendition per usable rootfile and the named mapping document |
| Publications.Publication.ParseMetadataXml | yael/publication.py:395-407 | `metadata.xml` is read and registered only when present, and its parse failure is the step's failure |
| Publications.Publication.ParseRmDocument | yael/publication.py:409-424 | the mapping document's file, when present, replaces the document the container named and is registered |
| Publications.Publication.ParseMultipleRenditions | yael/publication.py:391-424 | `parse_multiple_renditions`: both halves, failing exactly when one of them does; the renditions are not touched |
| Publications.Publication.ReadPackage | yael/publication.py:437 | the package document read from a rendition's full path, failing exactly when the file is not a package document, an absent file included |
| Publications.Publication.RegisterItems | yael/publication.py:442-453 | with asset references on, one new asset per manifest item at its resolved href, linked from the item; refinements untouched |
| Publications.Publication.ReadNav | yael/publication.py:465-467 | the Navigation Document at a path |
| Publications.Publication.ReadNcx | yael/publication.py:482-484 | the NCX at a path |
| Publications.Publication.ReadMo | yael/publication.py:496-505 | the Media Overlay Document at a path, None when its parse raises |
| Publications.Publication.ParseNav | yael/publication.py:455-470 | when the nav option is on and the package names a Navigation Document, it is read, registered and attached; otherwise nothing changes |
| Publications.Publication.ParseNcx | yael/publication.py:472-487 | when the NCX option is on and the package names an NCX, it is read, registered and attached; otherwise nothing changes |
| Publications.Publication.ParseMoDocuments | yael/publication.py:489-511 | every Media Overlay Document that reads is appended, in manifest order, and registered; one that raises is skipped |
| Publications.Publication.ParseTocDocuments | yael/publication.py:455-487 | the Navigation Document and NCX steps together, failing exactly when one of them raises |
| Publications.Publication.ParseDocuments | yael/publication.py:455-511 | the three document steps of `parse_rendition`, failing exactly when the Navigation Document or the NCX raises |
| Publications.Publication.ParseReferenced | yael/publication.py:442-511 | the manifest assets, then the documents: every item links to its asset and the documents are those read |
| Publications.Publication.AttachPackageTo | yael/publication.py:440-511 | with the package attached, every asset and document `parse_rendition` reads is registered |
| Publications.Publication.AttachPackage | yael/publication.py:437-511 | the parse of a package document is kept while its assets and documents are added |
| Publications.Publication.ParseRendition | yael/publication.py:426-511 | `parse_rendition`: a rendition that is not OPF is left alone; an OPF one whose file is absent or not a package document fails; once the package document reads, it fails exactly when an enabled Navigation Document or NCX at the package's nav or NCX path does not parse; on success its package, assets and documents are read |
| Publications.Publication.Stamp | yael/publication.py:380-389 | one obfuscation loop: every listed asset that exists gets the key and the algorithm; no other asset changes |
| Publications.Publication.DefaultPackage | yael/publication.py:187-194 | the default rendition's package document, null without a rendition |
| Publications.Publication.UniqueIdentifier | yael/publication.py:197-222 | `unique_identifier`: that of `metadata.xml` whenever that file was parsed, else that of the default rendition, else None |
| Publications.Publication.ParseEncryption | yael/publication.py:361-389 | `parse_encryption`: nothing without `encryption.xml`; otherwise it is registered and every asset it lists is stamped, IDPF over Adobe, with the unique identifier as key |
| Publications.Publication.StampAll | yael/publication.py:380-389 | the two loops: an asset listed for IDPF gets IDPF, one listed only for Adobe gets Adobe, every other asset stays unobfuscated |
| Publications.Publication.AllKeysAt | yael/publication.py:344-345 | the asset keys of each rendition are among those of all renditions read |
| Publications.Publication.ParseInitialRendition | yael/publication.py:344-349 | `parse_rendition` on a rendition with nothing attached yet keeps every earlier asset and adds its own |
| Publications.Publication.AllKeysSnoc | yael/publication.py:344-345 | one more rendition read adds its own asset keys to those of the others |
| Publications.Publication.ParseRenditionAt | yael/publication.py:344-345 | one round of the rendition loop: earlier renditions keep what they hold and the asset keys grow by this rendition's |
| Publications.Publication.ParseRenditionRound | yael/publication.py:344-345 | one round of the rendition loop keeps every rendition read so far as it was read |
| Publications.Publication.ParseRenditions | yael/publication.py:339-349 | the rendition loop: the first renditions, in order, each read and registered; the rest left untouched |
| Publications.Publication.ParseStart | yael/publication.py:318-336 | the `mimetype` asset, then `container.xml`: a failure exactly when `container.xml` does not read |
| Publications.Publication.ParseFront | yael/publication.py:318-342 | everything before the renditions: the `mimetype` and `container.xml` assets, and `metadata.xml` and the mapping document when multiple renditions are on |
| Publications.Publication.RenditionsRead | yael/publication.py:339-349 | every rendition with multiple renditions on, at most the first one otherwise |
| Publications.Publication.ParseBody | yael/publication.py:318-349 | the steps of `parse` up to the renditions |
| Publications.Publication.ParseEncryptionLast | yael/publication.py:351-355 | with the encryption option on, `parse_encryption` runs last and leaves the renditions as read |
| Publications.Publication.Parse | yael/publication.py:313-359 | `parse`: a failure whenever `container.xml` does not read; otherwise the container, `metadata.xml`, the renditions the options select, each read and registered, and the obfuscation `encryption.xml` assigns |
| Publications.Publication.Version | yael/publication.py:182-194 | `version`: None without a default package document |
| Publications.Publication.VersionRead | yael/publication.py:182-194 | after the parse, `version` is the `version` attribute of the default rendition's `<package>` |
| Publications.Publication.DctermsModified | yael/publication.py:225-245 | `dcterms_modified`: the date of `metadata.xml` when it has one, else that of the default rendition, else None |
| Publications.Publication.ReleaseIdentifier | yael/publication.py:248-278 | `release_identifier`: never contains a space, and is absent exactly when its pieces are |
| Publications.Publication.InternalPathCoverImage | yael/publication.py:300-311 | `internal_path_cover_image`: the package path of the default rendition joined with its cover image's href (the package document's `internal_path_cover_image`), None without a default package |
| SimpleEpub.DefaultOptionsSkipMediaOverlays | yael/simpleepub.py:41-48 | without options, a simple EPUB reads everything except the Media Overlays |
| SimpleEpub.ResolveRefs | yael/simpleepub.py:319-329 | one resolved reference per reference, in order |
| SimpleEpub.ResolveRefsAppend | yael/simpleepub.py:328-329 | resolving distributes over concatenation |
| SimpleEpub.ResolveNavNodes | yael/simpleepub.py:244-245 | one resolved entry per entry, in order |
| SimpleEpub.ResolveNavNodeFacts | yael/simpleepub.py:319-329 | `_resolve_reference` on a nav entry rewrites every `href` of the subtree on its own, in document order, and nothing else |
| SimpleEpub.ResolveNavNodesFacts | yael/simpleepub.py:319-329 | the same for a list of entries |
| SimpleEpub.ResolveNcxNodes | yael/simpleepub.py:244-245 | one resolved point per point, in order |
| SimpleEpub.ResolveNcxNodeFacts | yael/simpleepub.py:319-329 | `_resolve_reference` on an NCX point rewrites every `src` of the subtree on its own, in document order, and nothing else |
| SimpleEpub.ResolveNcxNodesFacts | yael/simpleepub.py:319-329 | the same for a list of points |
| SimpleEpub.ResolveNavChildren | yael/simpleepub.py:244-245 | the loop over the top-level entries resolves each |
| SimpleEpub.ResolveNcxChildren | yael/simpleepub.py:244-245 | the loop over the top-level points resolves each |
| SimpleEpub.ResolveTocFacts | yael/simpleepub.py:241-246 | the resolved table of contents has every reference resolved against its own document, and is otherwise the same |
| SimpleEpub.ResolveRefAtRoot | yael/simpleepub.py:319-329 | for a document at the container root, resolving a reference twice is resolving it once |
| SimpleEpub.ResolveNavNodeAtRoot | yael/simpleepub.py:319-329 | the same for a nav entry and its subtree |
| SimpleEpub.ResolveNavNodesAtRoot | yael/simpleepub.py:319-329 | the same for a list of nav entries |
| SimpleEpub.ResolveNcxNodeAtRoot | yael/simpleepub.py:319-329 | the same for an NCX point and its subtree |
| SimpleEpub.ResolveNcxNodesAtRoot | yael/simpleepub.py:319-329 | the same for a list of NCX points |
| SimpleEpub.ResolveTocAtRoot | yael/simpleepub.py:241-246 | a table of contents at the container root resolved twice is resolved once |
| SimpleEpub.NormalSegments | yael/util.py:64-79 | plain segments joined by `/` are already normal |
| SimpleEpub.ResolveInDirectory | yael/util.py:81-97 | a relative reference from a document in a directory lands in that directory |
| SimpleEpub.JoinPair | yael/util.py:64-79 | two segments joined by `/` |
| SimpleEpub.ResolveSegmentOnce | yael/simpleepub.py:319-329 | a segment `q` referenced from `dir/file` resolves to `dir/q` |
| SimpleEpub.ResolveSegmentTwice | yael/simpleepub.py:319-329 | the path `dir/q` referenced from `dir/file` resolves to `dir/dir/q` |
| SimpleEpub.ResolveRefTwiceBelowRoot | yael/simpleepub.py:319-329 | below the root, resolving twice moves a reference: `dir/q`, then `dir/dir/q` |
| SimpleEpub.ResolveTocTwiceBelowRoot | yael/simpleepub.py:231-246 | a table of contents in a subdirectory resolved a second time points somewhere else |
| SimpleEpub.NavIndex | yael/navdocument.py:107-118 | the position of the first nav of a type, -1 exactly when there is none |
| SimpleEpub.NavByEpubTypeAt | yael/navdocument.py:107-118 | the lookup by type finds the nav at that first position |
| SimpleEpub.ResolveNavOfTypeFacts | yael/simpleepub.py:241-272 | resolving the nav of one type in place resolves exactly that nav; the lookup of any other type is unchanged |
| SimpleEpub.ResolveNavOfTypeKeepsTypes | yael/simpleepub.py:241-272 | resolving keeps the document's path, its number of navs and the type of each |
| SimpleEpub.ResolveNavOfTypeFound | yael/simpleepub.py:241-272 | after resolving, the lookup of that type gives the resolved nav |
| SimpleEpub.ResolveNavOfTypeOther | yael/simpleepub.py:241-272 | after resolving, the lookup of another type gives what it gave before |
| SimpleEpub.NonEmptyTexts | yael/simpleepub.py:352-356 | never more texts than entries |
| SimpleEpub.NonEmptyTextsMembers | yael/simpleepub.py:352-356 | exactly the present, non-empty texts of the entries are collected |
| SimpleEpub.NonEmptyTextsHead | yael/simpleepub.py:348-356 | when the first entry's text is non-empty, the list of texts starts with it |
| SimpleEpub.CollectTexts | yael/simpleepub.py:352-356 | the accumulator loop collects the present, non-empty texts in order |
| SimpleEpub.SimpleEPUB.constructor | yael/simpleepub.py:41-48 | a simple EPUB wraps a publication, not yet parsed, with the given options, or with the Media Overlays off |
| SimpleEpub.SimpleEPUB.Toc | yael/simpleepub.py:222-229 | `toc`: the default rendition's table of contents; a failure exactly when there is no rendition |
| SimpleEpub.SimpleEPUB.Landmarks | yael/simpleepub.py:249-255 | `landmarks`: the default rendition's landmarks nav; a failure exactly when there is no rendition |
| SimpleEpub.SimpleEPUB.ResolvedToc | yael/simpleepub.py:232-246 | `resolved_toc`: the table of contents with every reference resolved, stored back into the default rendition, whose landmarks stay |
| SimpleEpub.SimpleEPUB.ResolvedLandmarks | yael/simpleepub.py:258-272 | `resolved_landmarks`: the landmarks with every reference resolved, stored back into the default rendition |
| SimpleEpub.SimpleEPUB.ResolvedTocCopy | yael/simpleepub.py:232-246 | the resolved table of contents as a copy: every reference resolved against its document, the rest unchanged, nothing stored |
| SimpleEpub.SimpleEPUB.GetDcMetadatum | yael/simpleepub.py:331-361 | `get_dc_metadatum`: the metadata with that tag; as strings, the first one's text (None without one) or every present non-empty text in order; a failure exactly without a package document |
| SimpleEpub.SimpleEPUB.FirstDc | yael/simpleepub.py:100-196 | the `dc:*` properties: the first text of the metadata with that tag |
| SimpleEpub.SimpleEPUB.Subjects | yael/simpleepub.py:181-187 | `subjects`: every present, non-empty `dc:subject` text |
| SimpleEpub.SimpleEPUB.AssetContents | yael/simpleepub.py:363-376 | `asset_contents`: None without an asset at that path, otherwise the asset's contents |
| SimpleEpub.SimpleEPUB.AssetContentsPlain | yael/simpleepub.py:363-376 | an unobfuscated asset has exactly the bytes of its file |
| SimpleEpub.SimpleEPUB.AssetContentsRoundTrip | yael/simpleepub.py:363-376 | the contents of an obfuscated asset, obfuscated again with the same key, give back the file's bytes |
| SimpleEpub.SimpleEPUB.CoverImage | yael/simpleepub.py:207-219 | `cover_image`: the contents of the asset at the cover image's path |
| SimpleEpub.SimpleEPUB.ResolvedSpine | yael/simpleepub.py:275-282 | `resolved_spine`: the spine's files of the default package document; a failure exactly without one |
| SimpleEpub.SimpleEPUB.ResolvedSpineLinear | yael/simpleepub.py:297-305 | `resolved_spine_linear`: the files of the linear itemrefs, a subsequence of the spine's files; a failure exactly without a package document |
| SimpleEpub.SimpleEPUB.SpineIndexByInternalPath | yael/simpleepub.py:284-294 | the spine index of the first item at that path's id, -1 without such an item |
| SimpleEpub.SimpleEPUB.SpineLinearIndexByInternalPath | yael/simpleepub.py:307-317 | the index in the linear spine of the first item at that path's id, -1 without such an item |

## Left out

- Reading and writing files: the ZIP container, the unpacked directory and `manifestation` are replaced by a map from internal paths to file contents, given as a parameter; writing a publication out is not modelled.
- `Asset.raw_contents` reading from the ZIP or the directory: the read is a parameter (`read`) of `RawContents` and `Contents`, so a read failure is the value None.
- The clip-time properties of Media Overlay `<audio>` elements, which convert clock values to floating-point seconds.
- lxml: XML text is not parsed; documents are given as element trees (`Xml.Node`) and the xpath queries as filters over them. A file whose bytes lxml cannot parse is a file without a tree.
- SHA-1: the digest used by the IDPF key derivation is a parameter of the model, not computed.
- The Python 2 / Python 3 branches between `str` and `bytes` in `obfuscate_data`: the Adobe key is taken as the code point of each character modulo 256.
- `clip_time_seconds`, `parse_viewport_string`, `is_valid`, `safe_len`, `directory_size` and `list_all_files` in `yael/util.py`: string-to-number parsing with floating point, regular expressions and directory walks, none of which the parse depends on.
- `json_object`, `__str__` and the `size` properties of every class: serialisation and file sizes are outside the model.
- `OPFManifest.font_items`: it reads an attribute `media_type` that items do not have, so it raises on any manifest with an item; no model of it is given.
- `OPFManifest` audio, content document, image, video, scripted, MathML and SVG item lists: only the item lookups by id, path and property used by the renditions are modelled.
- The `asset` back-reference that the parse sets on the container, `encryption.xml`, `metadata.xml`, the mapping, package, Navigation, NCX and Media Overlay documents: only the manifest items' `asset` is modelled; every asset is in the publication's map under its path.
- The Media Overlay, Navigation Document, NCX and Rendition Mapping trees are values (datatypes), not objects with identity; nothing in the library updates a node of them in place except the reference resolution of `SimpleEPUB`, which is modelled by rebuilding the tree and storing it back.
- Publications.Publication.ReadPackage: a rendition whose package file is absent fails here, and so do `ParseRendition` and `Parse`. `parse_rendition` keeps an empty package document for it instead (no manifest, no metadata, no spine). That document raises in the manifest-asset and Media Overlay steps, but with `NO_ASSET_REFS` and `NO_MEDIA_OVERLAY` both set the source parse succeeds; the model does not have that empty package document.
- Publications.Publication.constructor: the source parses at construction when given a path (and raises when the path does not exist); the model's constructor only builds the unparsed publication, and `Parse` is a separate call. File existence is not modelled: the files are a parameter.
- SimpleEpub.SimpleEPUB.constructor: for the same reason the wrapped publication is not parsed by the constructor; `Parse` on it is a separate call.
- Publications.Publication.Parse: modelled only on a new, empty publication; its failures are characterised only for a `container.xml` that does not read, not for a failure inside a later file.
- The `SimpleEPUB` properties that only delegate to the publication (`version`, `dcterms_modified`, `unique_identifier`, `release_identifier`, `internal_path_cover_image`, `manifestation`) are not repeated on the facade; the publication's own members model five of them (`Publications.Publication.Version`, `UniqueIdentifier`, `DctermsModified`, `ReleaseIdentifier`, `InternalPathCoverImage`).
- SimpleEpub.SimpleEPUB.FirstDc: the `dc:*` properties (`identifier`, `title`, `language`, `author`, `date`, `description`, `publisher`, `rights`, `source`, `type`) are one member parameterised by the tag, not ten.

## Findings

| source | as written | input that shows it | evidently intended | confidence | as-written member | corrected member |
|---|---|---|---|---|---|---|
| yael/simpleepub.py:232-246 | `resolved_toc` (and `resolved_landmarks`) resolves each reference against the document's directory and writes the result back into the stored tree, so every access resolves again what was already resolved | a Navigation Document at `dir/nav.xhtml` with an entry `href="q"`: the first access gives `dir/q`, the second `dir/dir/q` | every access gives the same resolved copy and the stored tree stays as read | medium, not executed | SimpleEpub.SimpleEPUB.ResolvedToc, SimpleEpub.ResolveTocTwiceBelowRoot | SimpleEpub.SimpleEPUB.ResolvedTocCopy |
