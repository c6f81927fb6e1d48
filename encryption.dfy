/**
  `META-INF/encryption.xml`: the encrypted keys and encrypted data entries
  of the container, and the lists of assets obfuscated with the Adobe and
  the IDPF font-obfuscation algorithms.
*/
module EncryptionXml {
  import opened Wrappers
  import opened Util
  import opened Xml
  import opened Obfuscation

  const E_ENCRYPTION := Q(NS_CONTAINER, "encryption")
  const E_ENCRYPTEDKEY := Q(NS_ENC, "EncryptedKey")
  const E_ENCRYPTEDDATA := Q(NS_ENC, "EncryptedData")
  const E_ENCRYPTIONMETHOD := Q(NS_ENC, "EncryptionMethod")
  const E_CIPHERDATA := Q(NS_ENC, "CipherData")
  const E_CIPHERREFERENCE := Q(NS_ENC, "CipherReference")
  const E_CIPHERVALUE := Q(NS_ENC, "CipherValue")
  const E_KEYINFO := Q(NS_DS, "KeyInfo")
  const E_RETRIEVALMETHOD := Q(NS_DS, "RetrievalMethod")
  const E_KEYNAME := Q(NS_DS, "KeyName")

  /** An `<enc:EncryptedData>` entry. */
  datatype EncData = EncData(id: Option<string>, encryptionMethodAlgorithm: Option<string>,
                             retrievalMethodType: Option<string>, retrievalMethodUri: Option<string>,
                             cipherReferenceUri: Option<string>)

  /** An `<enc:EncryptedKey>` entry. */
  datatype EncKey = EncKey(id: Option<string>, encryptionMethodAlgorithm: Option<string>,
                           keyName: Option<string>, cipherValue: Option<string>)

  /** The document: its entries, each list in document order. */
  datatype Encryption = Encryption(internalPath: Option<string>, encryptedDatas: seq<EncData>,
                                   encryptedKeys: seq<EncKey>)

  /** `add_enc_data`: the entry goes at the end; nothing else changes. */
  function AddEncData(enc: Encryption, data: EncData): (r: Encryption)
    ensures |r.encryptedDatas| == |enc.encryptedDatas| + 1
    ensures r.encryptedDatas[..|enc.encryptedDatas|] == enc.encryptedDatas
    ensures r.encryptedDatas[|enc.encryptedDatas|] == data
    ensures r.(encryptedDatas := enc.encryptedDatas) == enc
  {
    enc.(encryptedDatas := enc.encryptedDatas + [data])
  }

  /** `add_enc_key`: the entry goes at the end; nothing else changes. */
  function AddEncKey(enc: Encryption, key: EncKey): (r: Encryption)
    ensures |r.encryptedKeys| == |enc.encryptedKeys| + 1
    ensures r.encryptedKeys[..|enc.encryptedKeys|] == enc.encryptedKeys
    ensures r.encryptedKeys[|enc.encryptedKeys|] == key
    ensures r.(encryptedKeys := enc.encryptedKeys) == enc
  {
    enc.(encryptedKeys := enc.encryptedKeys + [key])
  }

  /** The attribute `name` of the first node of `ns`, if any. */
  function FirstAttr(ns: seq<Node>, name: string): Option<string>
  {
    if |ns| > 0 then Attr(ns[0], name) else None
  }

  /** The text of the first node of `ns`, if any. */
  function FirstText(ns: seq<Node>): Option<string>
  {
    if |ns| > 0 then ns[0].text else None
  }

  /** The entry read from an `<enc:EncryptedData>` element. */
  function EncDataOf(n: Node): EncData
  {
    var retrieval := Path2(n, E_KEYINFO, E_RETRIEVALMETHOD);
    EncData(Attr(n, "Id"), FirstAttr(Children(n, E_ENCRYPTIONMETHOD), "Algorithm"),
            FirstAttr(retrieval, "Type"), FirstAttr(retrieval, "URI"),
            FirstAttr(Path2(n, E_CIPHERDATA, E_CIPHERREFERENCE), "URI"))
  }

  /** The entry read from an `<enc:EncryptedKey>` element. */
  function EncKeyOf(n: Node): EncKey
  {
    EncKey(Attr(n, "Id"), FirstAttr(Children(n, E_ENCRYPTIONMETHOD), "Algorithm"),
           FirstText(Path2(n, E_KEYINFO, E_KEYNAME)), FirstText(Path2(n, E_CIPHERDATA, E_CIPHERVALUE)))
  }

  function EncDatasOf(ns: seq<Node>): (r: seq<EncData>)
    ensures |r| == |ns| && forall i :: 0 <= i < |ns| ==> r[i] == EncDataOf(ns[i])
  {
    seq(|ns|, i requires 0 <= i < |ns| => EncDataOf(ns[i]))
  }

  function EncKeysOf(ns: seq<Node>): (r: seq<EncKey>)
    ensures |r| == |ns| && forall i :: 0 <= i < |ns| ==> r[i] == EncKeyOf(ns[i])
  {
    seq(|ns|, i requires 0 <= i < |ns| => EncKeyOf(ns[i]))
  }

  lemma EncKeysOfAppend(a: seq<Node>, b: seq<Node>)
    ensures EncKeysOf(a + b) == EncKeysOf(a) + EncKeysOf(b)
  {
    var r, t := EncKeysOf(a + b), EncKeysOf(a) + EncKeysOf(b);
    forall i | 0 <= i < |r|
      ensures r[i] == t[i]
    {
      if i < |a| {
        assert (a + b)[i] == a[i];
      } else {
        assert (a + b)[i] == b[i - |a|];
      }
    }
  }

  lemma EncDatasOfAppend(a: seq<Node>, b: seq<Node>)
    ensures EncDatasOf(a + b) == EncDatasOf(a) + EncDatasOf(b)
  {
    var r, t := EncDatasOf(a + b), EncDatasOf(a) + EncDatasOf(b);
    forall i | 0 <= i < |r|
      ensures r[i] == t[i]
    {
      if i < |a| {
        assert (a + b)[i] == a[i];
      } else {
        assert (a + b)[i] == b[i - |a|];
      }
    }
  }

  /**
    The document read from the root element `root`: the root must be
    `<encryption>`; its entries are read in document order.
  */
  function EncryptionOf(root: Node, internalPath: Option<string>): Result<Encryption>
  {
    if root.tag != E_ENCRYPTION then Fail(MissingElement("encryption"))
    else Ok(Encryption(internalPath, EncDatasOf(Children(root, E_ENCRYPTEDDATA)),
                       EncKeysOf(Children(root, E_ENCRYPTEDKEY))))
  }

  /** The `EncryptedKey` loop of `Encryption.parse_object`. */
  method ReadKeys(enc0: Encryption, nodes: seq<Node>) returns (enc: Encryption)
    ensures enc == enc0.(encryptedKeys := enc0.encryptedKeys + EncKeysOf(nodes))
  {
    enc := enc0;
    var i := 0;
    while i < |nodes|
      invariant 0 <= i <= |nodes|
      invariant enc == enc0.(encryptedKeys := enc0.encryptedKeys + EncKeysOf(nodes[..i]))
    {
      assert nodes[..i + 1] == nodes[..i] + [nodes[i]];
      EncKeysOfAppend(nodes[..i], [nodes[i]]);
      enc := AddEncKey(enc, EncKeyOf(nodes[i]));
      i := i + 1;
    }
    assert nodes[..i] == nodes;
  }

  /** The `EncryptedData` loop of `Encryption.parse_object`. */
  method ReadDatas(enc0: Encryption, nodes: seq<Node>) returns (enc: Encryption)
    ensures enc == enc0.(encryptedDatas := enc0.encryptedDatas + EncDatasOf(nodes))
  {
    enc := enc0;
    var i := 0;
    while i < |nodes|
      invariant 0 <= i <= |nodes|
      invariant enc == enc0.(encryptedDatas := enc0.encryptedDatas + EncDatasOf(nodes[..i]))
    {
      assert nodes[..i + 1] == nodes[..i] + [nodes[i]];
      EncDatasOfAppend(nodes[..i], [nodes[i]]);
      enc := AddEncData(enc, EncDataOf(nodes[i]));
      i := i + 1;
    }
    assert nodes[..i] == nodes;
  }

  /** `Encryption.parse_object`: the root must be `<encryption>`; keys, then data entries. */
  method Parse(root: Node, internalPath: Option<string>) returns (r: Result<Encryption>)
    ensures r == EncryptionOf(root, internalPath)
  {
    if root.tag != E_ENCRYPTION {
      return Fail(MissingElement("encryption"));
    }
    var enc := Encryption(internalPath, [], []);
    enc := ReadKeys(enc, Children(root, E_ENCRYPTEDKEY));
    enc := ReadDatas(enc, Children(root, E_ENCRYPTEDDATA));
    assert [] + EncKeysOf(Children(root, E_ENCRYPTEDKEY)) == EncKeysOf(Children(root, E_ENCRYPTEDKEY));
    assert [] + EncDatasOf(Children(root, E_ENCRYPTEDDATA)) == EncDatasOf(Children(root, E_ENCRYPTEDDATA));
    r := Ok(enc);
  }

  // ---------------------------------------------------------------------
  // Obfuscated assets
  // ---------------------------------------------------------------------

  /** The entry declares `algorithm` and names the asset it covers. */
  predicate Covers(d: EncData, algorithm: string)
  {
    d.encryptionMethodAlgorithm == Some(algorithm) && d.cipherReferenceUri.Some?
  }

  /** The cipher-reference URIs of the entries that use `algorithm` and name an asset, in order. */
  function ObfuscatedUris(datas: seq<EncData>, algorithm: string): seq<string>
    decreases |datas|
  {
    if datas == [] then []
    else
      var last := datas[|datas| - 1];
      ObfuscatedUris(datas[..|datas| - 1], algorithm) +
        (if Covers(last, algorithm) then [last.cipherReferenceUri.value] else [])
  }

  /** `adobe_obfuscated_assets`. */
  function AdobeObfuscatedAssets(enc: Encryption): seq<string>
  {
    ObfuscatedUris(enc.encryptedDatas, ALGORITHM_URI_ADOBE)
  }

  /** `idpf_obfuscated_assets`. */
  function IdpfObfuscatedAssets(enc: Encryption): seq<string>
  {
    ObfuscatedUris(enc.encryptedDatas, ALGORITHM_URI_IDPF)
  }

  /** A URI is listed exactly when some entry with that algorithm names it. */
  lemma {:induction false} ObfuscatedUrisMembers(datas: seq<EncData>, algorithm: string, uri: string)
    ensures uri in ObfuscatedUris(datas, algorithm) <==>
              exists i :: 0 <= i < |datas| && Covers(datas[i], algorithm) && datas[i].cipherReferenceUri == Some(uri)
    decreases |datas|
  {
    if datas != [] {
      var init := datas[..|datas| - 1];
      ObfuscatedUrisMembers(init, algorithm, uri);
      if uri in ObfuscatedUris(init, algorithm) {
        var i :| 0 <= i < |init| && Covers(init[i], algorithm) && init[i].cipherReferenceUri == Some(uri);
        assert datas[i] == init[i];
      }
      if exists i :: 0 <= i < |datas| && Covers(datas[i], algorithm) && datas[i].cipherReferenceUri == Some(uri) {
        var i :| 0 <= i < |datas| && Covers(datas[i], algorithm) && datas[i].cipherReferenceUri == Some(uri);
        if i < |init| {
          assert init[i] == datas[i];
        }
      }
    }
  }

  /** The list keeps the entries' order: it grows only at the end as entries are added. */
  lemma ObfuscatedUrisAppend(datas: seq<EncData>, d: EncData, algorithm: string)
    ensures ObfuscatedUris(datas + [d], algorithm) ==
              ObfuscatedUris(datas, algorithm) + (if Covers(d, algorithm) then [d.cipherReferenceUri.value] else [])
  {
    assert (datas + [d])[..|datas|] == datas;
  }

  /** No entry counts for both algorithms, so the two lists together are no longer than the entries. */
  lemma {:induction false} AdobeIdpfDisjoint(datas: seq<EncData>)
    ensures forall i :: 0 <= i < |datas| ==> !(Covers(datas[i], ALGORITHM_URI_ADOBE) && Covers(datas[i], ALGORITHM_URI_IDPF))
    ensures |ObfuscatedUris(datas, ALGORITHM_URI_ADOBE)| + |ObfuscatedUris(datas, ALGORITHM_URI_IDPF)| <= |datas|
    decreases |datas|
  {
    assert ALGORITHM_URI_ADOBE[7] != ALGORITHM_URI_IDPF[7];
    if datas != [] {
      AdobeIdpfDisjoint(datas[..|datas| - 1]);
    }
  }
}
