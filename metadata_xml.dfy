/**
  `META-INF/metadata.xml` of a Multiple-Rendition Publication: the
  publication-wide unique identifier, the `dcterms:modified` date and the
  Release Identifier built from the two.
*/
module MetadataXml {
  import opened Wrappers
  import opened Util
  import opened Xml

  const E_METADATA := Q(NS_METADATA, "metadata")
  const E_IDENTIFIER := Q(NS_DC, "identifier")
  const E_META := Q(NS_METADATA, "meta")
  const A_UNIQUE_IDENTIFIER := "unique-identifier"
  const V_DCTERMS_MODIFIED := "dcterms:modified"

  /** The document: the two values it carries, each None when absent. */
  datatype Metadata = Metadata(internalPath: Option<string>, uniqueIdentifier: Option<string>,
                               dctermsModified: Option<string>)

  /**
    The identifier test: the `id` attribute equals `uid`, where an absent
    `id` equals an absent `unique-identifier`.
  */
  function IdIs(uid: Option<string>): Node -> bool
  {
    (n: Node) => Attr(n, "id") == uid
  }

  /** The `<meta>` test: its `property` is `dcterms:modified`. */
  function IsModifiedMeta(n: Node): bool
  {
    Attr(n, "property") == Some(V_DCTERMS_MODIFIED)
  }

  /** The stripped text of the last node of `ns` passing `p`; None when there is none. */
  function LastStrippedText(ns: seq<Node>, p: Node -> bool): (r: Option<string>)
    ensures (forall i :: 0 <= i < |ns| ==> !p(ns[i])) ==> r.None?
    ensures r.Some? ==> exists k :: 0 <= k < |ns| && p(ns[k]) && ns[k].text.Some? &&
                                    r.value == Strip(ns[k].text.value) &&
                                    forall j :: k < j < |ns| ==> !p(ns[j])
  {
    var m := LastMatch(ns, p);
    if m.Some? then SafeStrip(m.value.text) else None
  }

  /** One step of a last-wins loop: a passing node overwrites the value, a failing one keeps it. */
  lemma LastStrippedTextSnoc(ns: seq<Node>, n: Node, p: Node -> bool)
    ensures LastStrippedText(ns + [n], p) == if p(n) then SafeStrip(n.text) else LastStrippedText(ns, p)
  {
    assert (ns + [n])[..|ns|] == ns;
  }

  /** The publication's unique identifier: the last `<dc:identifier>` whose id is the root's `unique-identifier`. */
  function UniqueIdentifierOf(root: Node): Option<string>
  {
    LastStrippedText(Children(root, E_IDENTIFIER), IdIs(Attr(root, A_UNIQUE_IDENTIFIER)))
  }

  /** The modification date: the last `<meta property="dcterms:modified">`. */
  function DctermsModifiedOf(root: Node): Option<string>
  {
    LastStrippedText(Children(root, E_META), IsModifiedMeta)
  }

  /** The document read from the root element `root`, which must be `<metadata>`. */
  function MetadataOf(root: Node, internalPath: Option<string>): Result<Metadata>
  {
    if root.tag != E_METADATA then Fail(MissingElement("metadata"))
    else Ok(Metadata(internalPath, UniqueIdentifierOf(root), DctermsModifiedOf(root)))
  }

  /** One step of the `<dc:identifier>` loop: an identifier whose id matches overwrites the value. */
  lemma IdentifierSnoc(ns: seq<Node>, n: Node, uid: Option<string>)
    ensures LastStrippedText(ns + [n], IdIs(uid)) ==
              if Attr(n, "id") == uid then SafeStrip(n.text) else LastStrippedText(ns, IdIs(uid))
  {
    LastStrippedTextSnoc(ns, n, IdIs(uid));
  }

  /** The `<dc:identifier>` loop: every identifier whose id matches overwrites the value. */
  method ReadUniqueIdentifier(identifiers: seq<Node>, uid: Option<string>) returns (v: Option<string>)
    ensures v == LastStrippedText(identifiers, IdIs(uid))
  {
    v := None;
    var i := 0;
    while i < |identifiers|
      invariant 0 <= i <= |identifiers|
      invariant v == LastStrippedText(identifiers[..i], IdIs(uid))
    {
      var identifier := identifiers[i];
      assert identifiers[..i + 1] == identifiers[..i] + [identifier];
      IdentifierSnoc(identifiers[..i], identifier, uid);
      var iId := Attr(identifier, "id");
      if iId == uid {
        v := SafeStrip(identifier.text);
      }
      i := i + 1;
    }
    assert identifiers[..i] == identifiers;
  }

  /** The `<meta>` loop: every `dcterms:modified` meta overwrites the value. */
  method ReadDctermsModified(metas: seq<Node>) returns (v: Option<string>)
    ensures v == LastStrippedText(metas, IsModifiedMeta)
  {
    v := None;
    var i := 0;
    while i < |metas|
      invariant 0 <= i <= |metas|
      invariant v == LastStrippedText(metas[..i], IsModifiedMeta)
    {
      var meta := metas[i];
      assert metas[..i + 1] == metas[..i] + [meta];
      LastStrippedTextSnoc(metas[..i], meta, IsModifiedMeta);
      var prop := Attr(meta, "property");
      if prop == Some(V_DCTERMS_MODIFIED) {
        v := SafeStrip(meta.text);
      }
      i := i + 1;
    }
    assert metas[..i] == metas;
  }

  /** `Metadata.parse_object`. */
  method Parse(root: Node, internalPath: Option<string>) returns (r: Result<Metadata>)
    ensures r == MetadataOf(root, internalPath)
  {
    if root.tag != E_METADATA {
      return Fail(MissingElement("metadata"));
    }
    var uIId := Attr(root, A_UNIQUE_IDENTIFIER);
    var uid := ReadUniqueIdentifier(Children(root, E_IDENTIFIER), uIId);
    var modified := ReadDctermsModified(Children(root, E_META));
    r := Ok(Metadata(internalPath, uid, modified));
  }

  /**
    The unique identifier, as the parse leaves it: absent when no identifier
    matches; otherwise the stripped text of the last matching one, which
    may itself be absent.
  */
  lemma UniqueIdentifierLastWins(root: Node, k: nat)
    requires k < |Children(root, E_IDENTIFIER)|
    requires Attr(Children(root, E_IDENTIFIER)[k], "id") == Attr(root, A_UNIQUE_IDENTIFIER)
    requires forall j :: k < j < |Children(root, E_IDENTIFIER)| ==>
               Attr(Children(root, E_IDENTIFIER)[j], "id") != Attr(root, A_UNIQUE_IDENTIFIER)
    ensures UniqueIdentifierOf(root) == SafeStrip(Children(root, E_IDENTIFIER)[k].text)
  {
    var ids := Children(root, E_IDENTIFIER);
    var p := IdIs(Attr(root, A_UNIQUE_IDENTIFIER));
    var m := LastMatch(ids, p);
    assert p(ids[k]);
    var k' :| 0 <= k' < |ids| && ids[k'] == m.value && p(ids[k']) && forall j :: k' < j < |ids| ==> !p(ids[j]);
    assert k' == k;
  }

  /** Python's `"%s" % x` of an optional string: None is rendered as `None`. */
  function PyStr(s: Option<string>): (r: string)
    ensures s.Some? ==> r == s.value
    ensures s.None? ==> r == "None"
  {
    if s.Some? then s.value else "None"
  }

  /**
    `v_release_identifier`: `<unique identifier>@<dcterms:modified>` when
    the date is present, the unique identifier alone otherwise.
  */
  function ReleaseIdentifier(uid: Option<string>, modified: Option<string>): (r: Option<string>)
    ensures modified.None? ==> r == uid
    ensures modified.Some? ==> r.Some? && r.value == PyStr(uid) + "@" + modified.value
  {
    if modified.Some? then Some(PyStr(uid) + "@" + modified.value) else uid
  }

  /**
    Given a date, the Release Identifier always ends in `@` and the date,
    and starts with the identifier, or with the word `None` when the
    identifier is absent.
  */
  lemma ReleaseIdentifierParts(uid: Option<string>, modified: string)
    ensures var r := ReleaseIdentifier(uid, Some(modified)).value;
            r[|r| - |modified| - 1] == '@' && r[|r| - |modified|..] == modified &&
            (uid.Some? ==> r[..|uid.value|] == uid.value) &&
            (uid.None? ==> r == "None@" + modified)
  {
    var r := ReleaseIdentifier(uid, Some(modified)).value;
    assert r == PyStr(uid) + "@" + modified;
    assert r[|r| - |modified|..] == modified;
    if uid.Some? {
      assert r[..|uid.value|] == uid.value;
    }
  }
}
