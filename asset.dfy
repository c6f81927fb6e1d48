/**
  An asset of the publication: a file of the container, backed either by
  bytes set in memory or by a read of the container, and optionally
  obfuscated. The file-system or ZIP read is a parameter: `read` is what
  that read yields, None when it fails.
*/
module Assets {
  import opened Wrappers
  import opened Obfuscation

  class Asset {
    const absolutePath: Option<string>
    const relativePath: Option<string>
    const internalPath: Option<string>
    const data: Option<Bytes>
    var obfuscationAlgorithm: Option<string>
    var obfuscationKey: Option<string>

    /** A new asset is not obfuscated. */
    constructor (absolutePath: Option<string>, relativePath: Option<string>,
                 internalPath: Option<string>, data: Option<Bytes>)
      ensures this.absolutePath == absolutePath && this.relativePath == relativePath
      ensures this.internalPath == internalPath && this.data == data
      ensures obfuscationAlgorithm.None? && obfuscationKey.None?
    {
      this.absolutePath := absolutePath;
      this.relativePath := relativePath;
      this.internalPath := internalPath;
      this.data := data;
      obfuscationAlgorithm := None;
      obfuscationKey := None;
    }

    /**
      `raw_contents`: the in-memory data whenever it is set; otherwise the
      result of reading the file, and nothing without an absolute path.
      It never fails.
    */
    function RawContents(read: Option<Bytes>): (r: Option<Bytes>)
      ensures data.Some? ==> r == data
      ensures data.None? && absolutePath.None? ==> r.None?
      ensures data.None? && absolutePath.Some? ==> r == read
      ensures r.Some? ==> r == data || r == read
    {
      if data.Some? then data
      else if absolutePath.None? then None
      else read
    }

    /**
      `contents`: the raw contents, passed through `obfuscate_data` with the
      asset's key and algorithm when a key is set.
    */
    function Contents(read: Option<Bytes>, sha1: string -> Digest): (r: Result<Option<Bytes>>)
      reads this
      ensures obfuscationKey.None? ==> r == Ok(RawContents(read))
      ensures obfuscationKey.Some? ==>
                r == Obfuscate(RawContents(read), obfuscationKey.value, obfuscationAlgorithm, sha1)
    {
      if obfuscationKey.None? then Ok(RawContents(read))
      else Obfuscate(RawContents(read), obfuscationKey.value, obfuscationAlgorithm, sha1)
    }

    /** Re-obfuscating the de-obfuscated contents gives back the raw contents. */
    lemma ContentsRoundTrip(read: Option<Bytes>, sha1: string -> Digest)
      requires obfuscationKey.Some?
      requires Contents(read, sha1).Ok? && Contents(read, sha1).value.Some?
      ensures Obfuscate(Contents(read, sha1).value, obfuscationKey.value, obfuscationAlgorithm, sha1)
              == Ok(RawContents(read))
    {
      ObfuscateRoundTrip(RawContents(read).value, obfuscationKey.value, obfuscationAlgorithm, sha1);
    }

    /** With a key and an unrecognised algorithm the contents are None. */
    lemma ContentsUnknownAlgorithm(read: Option<Bytes>, sha1: string -> Digest)
      requires obfuscationKey.Some?
      requires obfuscationAlgorithm != Some(ADOBE) && obfuscationAlgorithm != Some(IDPF)
      ensures Contents(read, sha1) == Ok(None)
    {
    }

    /** Whatever a read would yield, set data shadows it: the contents depend on the data alone. */
    lemma DataShadowsRead(read1: Option<Bytes>, read2: Option<Bytes>, sha1: string -> Digest)
      requires data.Some?
      ensures Contents(read1, sha1) == Contents(read2, sha1)
    {
    }
  }
}
