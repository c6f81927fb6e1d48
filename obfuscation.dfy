/**
  `obfuscate_data`: the block-limited XOR transform behind Adobe font
  mangling and the font obfuscation of section 4 of EPUB Open Container
  Format 3.0. The first `outer_max` blocks of `inner_max` bytes are XORed
  with the key, byte `i` of a block with key byte `i mod |key|`; every
  later byte is copied. SHA-1 is a parameter of the model.
*/
module Obfuscation {
  import opened Wrappers
  import opened Util

  type Byte = bv8
  type Bytes = seq<Byte>

  /** A SHA-1 digest: twenty bytes. */
  type Digest = s: Bytes | |s| == 20 witness seq(20, _ => 0)

  /** The algorithm names an asset can carry. */
  const ADOBE: string := "adobe"
  const IDPF: string := "idpf"

  /** The `EncryptionMethod` URIs that select each algorithm in `encryption.xml`. */
  const ALGORITHM_URI_IDPF: string := "http://www.idpf.org/2008/embedding"
  const ALGORITHM_URI_ADOBE: string := "http://ns.adobe.com/pdf/enc#RC"

  /** The two recognised algorithms and their block layouts. */
  datatype Algorithm = Adobe | Idpf
  {
    /** Number of obfuscated blocks. */
    function OuterMax(): int { if Adobe? then 64 else 52 }
    /** Bytes per block. */
    function InnerMax(): int { if Adobe? then 16 else 20 }
  }

  /** An algorithm together with the key bytes it derived. */
  datatype Scheme = Scheme(alg: Algorithm, keyData: Bytes)
  {
    /** Number of leading bytes the transform touches. */
    function Limit(): int { alg.OuterMax() * alg.InnerMax() }

    /** The key byte combined with byte `i` of the data. */
    function KeyByte(i: nat): Byte
      requires keyData != []
    {
      keyData[(i % alg.InnerMax()) % |keyData|]
    }
  }

  /** The byte of a string: its code point modulo 256. */
  function KeyBytes(s: string): (r: Bytes)
    ensures |r| == |s|
  {
    seq(|s|, i requires 0 <= i < |s| => ((s[i] as int) % 256) as bv8)
  }

  /** The Adobe key: the identifier without `urn:uuid:`, dashes and colons. */
  function AdobeKey(key: string): (r: string)
    ensures '-' !in r && ':' !in r
  {
    var k := RemoveAll(RemoveAll(RemoveAll(key, "urn:uuid:"), "-"), ":");
    RemoveAllChar(RemoveAll(key, "urn:uuid:"), '-');
    RemoveAllChar(RemoveAll(RemoveAll(key, "urn:uuid:"), "-"), ':');
    k
  }

  /** The string hashed for the IDPF key: the identifier without space, tab, carriage return and line feed. */
  function IdpfKey(key: string): (r: string)
    ensures ' ' !in r && '\t' !in r && '\r' !in r && '\n' !in r
  {
    var k1 := RemoveAll(key, " ");
    var k2 := RemoveAll(k1, "\t");
    var k3 := RemoveAll(k2, "\r");
    var k4 := RemoveAll(k3, "\n");
    RemoveAllChar(key, ' ');
    RemoveAllChar(k1, '\t');
    RemoveAllChar(k2, '\r');
    RemoveAllChar(k3, '\n');
    k4
  }

  /** The block layout and key bytes selected by the algorithm name, None for any other name. */
  function SchemeFor(algorithm: Option<string>, key: string, sha1: string -> Digest): (r: Option<Scheme>)
    ensures algorithm == Some(ADOBE) ==> r == Some(Scheme(Adobe, KeyBytes(AdobeKey(key))))
    ensures algorithm == Some(IDPF) ==> r == Some(Scheme(Idpf, sha1(IdpfKey(key))))
    ensures r.None? <==> algorithm != Some(ADOBE) && algorithm != Some(IDPF)
  {
    if algorithm == Some(ADOBE) then Some(Scheme(Adobe, KeyBytes(AdobeKey(key))))
    else if algorithm == Some(IDPF) then Some(Scheme(Idpf, sha1(IdpfKey(key))))
    else None
  }

  /** The transform on the bytes themselves; defined unless a non-empty input meets an empty key. */
  function Transform(data: Bytes, sc: Scheme): (r: Bytes)
    requires sc.keyData != [] || data == []
    ensures |r| == |data|
    ensures forall i :: sc.Limit() <= i < |data| ==> r[i] == data[i]
  {
    seq(|data|, i requires 0 <= i < |data| =>
      if i < sc.Limit() then data[i] ^ sc.KeyByte(i) else data[i])
  }

  /**
    `obfuscate_data(data, key, algorithm)`: None for an unknown algorithm;
    a failure when the data is None (`len(None)`) or when a non-empty input
    meets an empty key (`x % 0`); the transformed bytes otherwise.
  */
  function Obfuscate(data: Option<Bytes>, key: string, algorithm: Option<string>,
                     sha1: string -> Digest): (r: Result<Option<Bytes>>)
    ensures SchemeFor(algorithm, key, sha1).None? ==> r == Ok(None)
    ensures SchemeFor(algorithm, key, sha1).Some? && data.None? ==> r == Fail(NoneAccess)
    ensures r.Ok? && r.value.Some? ==> data.Some? && |r.value.value| == |data.value|
    ensures r == Fail(ZeroKeyLength) ==> algorithm == Some(ADOBE) && AdobeKey(key) == [] && data.Some? && data.value != []
  {
    match SchemeFor(algorithm, key, sha1)
    case None => Ok(None)
    case Some(sc) =>
      if data.None? then Fail(NoneAccess)
      else if sc.keyData == [] && data.value != [] then Fail(ZeroKeyLength)
      else Ok(Some(Transform(data.value, sc)))
  }

  // ---------------------------------------------------------------------
  // The loop of the source, proved against Transform
  // ---------------------------------------------------------------------

  lemma BlockPosition(outer: int, inner: int, alg: Algorithm)
    requires 0 <= outer < alg.OuterMax() && 0 <= inner < alg.InnerMax()
    ensures (outer * alg.InnerMax() + inner) % alg.InnerMax() == inner
    ensures outer * alg.InnerMax() + inner < alg.OuterMax() * alg.InnerMax()
  {
    if alg.Adobe? {
      assert (outer * 16 + inner) % 16 == inner;
    } else {
      assert (outer * 20 + inner) % 20 == inner;
    }
  }

  /** The nested block loop and the tail copy of `obfuscate_data`, on known bytes and scheme. */
  method TransformLoop(byteData: Bytes, sc: Scheme) returns (r: Result<Bytes>)
    ensures sc.keyData == [] && byteData != [] ==> r == Fail(ZeroKeyLength)
    ensures sc.keyData != [] || byteData == [] ==> r == Ok(Transform(byteData, sc))
  {
    var keyData := sc.keyData;
    var keySize := |keyData|;
    ghost var spec := if keySize > 0 || byteData == [] then Transform(byteData, sc) else [];
    var outerMax := sc.alg.OuterMax();
    var innerMax := sc.alg.InnerMax();
    var i := 0;
    var outer := 0;
    var accumulator: Bytes := [];
    while outer < outerMax && i < |byteData|
      invariant 0 <= outer <= outerMax
      invariant 0 <= i <= |byteData| && i <= outer * innerMax
      invariant i == outer * innerMax || i == |byteData|
      invariant keySize > 0 || byteData == [] ==> accumulator == spec[..i]
      invariant keySize == 0 ==> i == 0
    {
      var inner := 0;
      while inner < innerMax && i < |byteData|
        invariant 0 <= inner <= innerMax
        invariant i == outer * innerMax + inner && i <= |byteData|
        invariant keySize > 0 || byteData == [] ==> accumulator == spec[..i]
        invariant keySize == 0 ==> i == 0
      {
        BlockPosition(outer, inner, sc.alg);
        var sourceByte := byteData[i];
        if keySize == 0 {
          return Fail(ZeroKeyLength);
        }
        var keyByte := keyData[inner % keySize];
        var obfuscatedByte := sourceByte ^ keyByte;
        accumulator := accumulator + [obfuscatedByte];
        inner := inner + 1;
        i := i + 1;
      }
      outer := outer + 1;
    }
    assert i < |byteData| ==> i >= sc.Limit();
    while i < |byteData|
      invariant 0 <= i <= |byteData|
      invariant i < |byteData| ==> i >= sc.Limit()
      invariant keySize > 0 || byteData == [] ==> accumulator == spec[..i]
    {
      accumulator := accumulator + [byteData[i]];
      i := i + 1;
    }
    if keySize == 0 && byteData != [] {
      // the block loop always visits byte 0 of a non-empty input
      assert false;
    }
    assert accumulator == spec;
    return Ok(accumulator);
  }

  /** `obfuscate_data` with its algorithm dispatch, proved equal to `Obfuscate`. */
  method ObfuscateData(data: Option<Bytes>, key: string, algorithm: Option<string>,
                       sha1: string -> Digest) returns (r: Result<Option<Bytes>>)
    ensures r == Obfuscate(data, key, algorithm, sha1)
  {
    var sc: Scheme;
    if algorithm == Some(ADOBE) {
      sc := Scheme(Adobe, KeyBytes(AdobeKey(key)));
    } else if algorithm == Some(IDPF) {
      sc := Scheme(Idpf, sha1(IdpfKey(key)));
    } else {
      return Ok(None);
    }
    if data.None? {
      return Fail(NoneAccess);
    }
    var out := TransformLoop(data.value, sc);
    if out.Fail? {
      return Fail(out.error);
    }
    return Ok(Some(out.value));
  }

  // ---------------------------------------------------------------------
  // Properties
  // ---------------------------------------------------------------------

  /** Inside the limit each byte is XORed with the key byte of its position in the block. */
  lemma TransformXor(data: Bytes, sc: Scheme, i: int)
    requires sc.keyData != [] && 0 <= i < |data| && i < sc.Limit()
    ensures Transform(data, sc)[i] == data[i] ^ sc.keyData[(i % sc.alg.InnerMax()) % |sc.keyData|]
  {
  }

  lemma XorTwice(a: Byte, k: Byte)
    ensures (a ^ k) ^ k == a
  {
  }

  /** Applying the transform twice with the same scheme gives back the input. */
  lemma TransformInvolution(data: Bytes, sc: Scheme)
    requires sc.keyData != [] || data == []
    ensures Transform(Transform(data, sc), sc) == data
  {
    var once := Transform(data, sc);
    var twice := Transform(once, sc);
    forall i | 0 <= i < |data| ensures twice[i] == data[i] {
      if i < sc.Limit() {
        XorTwice(data[i], sc.KeyByte(i));
      }
    }
  }

  /** De-obfuscating obfuscated data with the same key and algorithm returns the data. */
  lemma ObfuscateRoundTrip(data: Bytes, key: string, algorithm: Option<string>, sha1: string -> Digest)
    requires Obfuscate(Some(data), key, algorithm, sha1).Ok?
    requires Obfuscate(Some(data), key, algorithm, sha1).value.Some?
    ensures Obfuscate(Obfuscate(Some(data), key, algorithm, sha1).value, key, algorithm, sha1)
            == Ok(Some(data))
  {
    var sc := SchemeFor(algorithm, key, sha1).value;
    TransformInvolution(data, sc);
  }

  /** The number of bytes each algorithm touches: 1024 for Adobe, 1040 for IDPF. */
  lemma Limits(key: string, sha1: string -> Digest)
    ensures SchemeFor(Some(ADOBE), key, sha1).value.Limit() == 1024
    ensures SchemeFor(Some(IDPF), key, sha1).value.Limit() == 1040
  {
  }

  /** The IDPF variant always has a twenty-byte key, so it never fails on present data. */
  lemma IdpfTotal(data: Bytes, key: string, sha1: string -> Digest)
    ensures Obfuscate(Some(data), key, Some(IDPF), sha1).Ok?
    ensures Obfuscate(Some(data), key, Some(IDPF), sha1).value.Some?
  {
  }
}
