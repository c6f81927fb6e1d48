/** Media types the publication model dispatches on, and the media-type predicates. */
module MediaTypes {
  import opened Util

  const JPEG: string := "image/jpeg"
  /** An alias of JPEG. */
  const JPG: string := "image/jpeg"
  const MPEG_AUDIO: string := "audio/mpeg"
  /** An alias of MPEG_AUDIO. */
  const MP3: string := "audio/mpeg"
  const NCX: string := "application/x-dtbncx+xml"
  const OPF: string := "application/oebps-package+xml"
  const SMIL: string := "application/smil+xml"
  const SVG: string := "image/svg+xml"
  const XHTML: string := "application/xhtml+xml"

  const EOT: string := "application/vnd.ms-fontobject"
  const OTF: string := "application/vnd.ms-opentype"
  const OTF_ALT: string := "application/x-font-opentype"
  const OTF_ALT_2: string := "application/font-otf"
  const OTF_ALT_3: string := "application/x-font-otf"
  const SFNT: string := "application/font-sfnt"
  const TTF: string := "application/x-font-ttf"
  const TTF_ALT: string := "application/x-font-truetype"
  const WOFF: string := "application/font-woff"
  const WOFF_ALT: string := "application/x-font-woff"

  const FONTS: seq<string> := [EOT, OTF, OTF_ALT, OTF_ALT_2, OTF_ALT_3, SFNT, SVG, TTF, TTF_ALT, WOFF, WOFF_ALT]
  const CONTENT_DOCUMENTS: seq<string> := [SVG, XHTML]

  /** `is_audio`: the media type is `audio/` followed by a subtype. */
  function IsAudio(mediaType: string): (r: bool)
    ensures r <==> |mediaType| >= 6 && mediaType == "audio/" + mediaType[6..]
  {
    StartsWith(mediaType, "audio/")
  }

  /** `is_image`: the media type is `image/` followed by a subtype. */
  function IsImage(mediaType: string): (r: bool)
    ensures r <==> |mediaType| >= 6 && mediaType == "image/" + mediaType[6..]
  {
    StartsWith(mediaType, "image/")
  }

  /** `is_video`: the media type is `video/` followed by a subtype. */
  function IsVideo(mediaType: string): (r: bool)
    ensures r <==> |mediaType| >= 6 && mediaType == "video/" + mediaType[6..]
  {
    StartsWith(mediaType, "video/")
  }

  /**
    `is_font`: membership in FONTS. Every font type but SVG is an
    `application/` type, and no font is audio or video.
  */
  function IsFont(mediaType: string): (r: bool)
    ensures r <==> mediaType == EOT || mediaType == OTF || mediaType == OTF_ALT || mediaType == OTF_ALT_2 ||
                   mediaType == OTF_ALT_3 || mediaType == SFNT || mediaType == SVG || mediaType == TTF ||
                   mediaType == TTF_ALT || mediaType == WOFF || mediaType == WOFF_ALT
    ensures r ==> mediaType == SVG || StartsWith(mediaType, "application/")
    ensures r ==> !IsAudio(mediaType) && !IsVideo(mediaType)
  {
    if mediaType in FONTS then
      assert mediaType == SVG || mediaType[..12] == "application/";
      assert mediaType[1] == 'm' || mediaType[1] == 'p';
      true
    else false
  }

  /** `is_content_document`: membership in CONTENT_DOCUMENTS, that is SVG and XHTML. */
  function IsContentDocument(mediaType: string): (r: bool)
    ensures r <==> mediaType == SVG || mediaType == XHTML
  {
    mediaType in CONTENT_DOCUMENTS
  }

  /** The prefix families are disjoint: no media type is two of audio, image and video. */
  lemma PrefixFamiliesDisjoint(mediaType: string)
    ensures !(IsAudio(mediaType) && IsImage(mediaType))
    ensures !(IsAudio(mediaType) && IsVideo(mediaType))
    ensures !(IsImage(mediaType) && IsVideo(mediaType))
  {
    if IsAudio(mediaType) {
      assert mediaType[0] == 'a';
    } else if IsImage(mediaType) {
      assert mediaType[0] == 'i';
    }
  }

  /** SVG is the one image type that is also a font. */
  lemma SvgOnlyImageFont(mediaType: string)
    ensures IsFont(mediaType) && IsImage(mediaType) <==> mediaType == SVG
  {
    if mediaType == SVG {
      assert SVG == "image/" + SVG[6..];
      assert SVG in FONTS;
    } else if IsImage(mediaType) {
      assert mediaType[0] == 'i';
    }
  }

  /** Of the content documents, exactly SVG is also an image. */
  lemma SvgOnlyImageContent(mediaType: string)
    ensures IsContentDocument(mediaType) && IsImage(mediaType) <==> mediaType == SVG
  {
    if mediaType == SVG {
      assert SVG == "image/" + SVG[6..];
    } else if mediaType == XHTML {
      assert XHTML[0] == 'a';
    }
  }

  /** Of the content documents, exactly SVG is also a font. */
  lemma ContentDocuments(mediaType: string)
    ensures IsContentDocument(mediaType) && IsFont(mediaType) <==> mediaType == SVG
  {
    if mediaType == SVG {
      assert SVG in FONTS;
    } else if mediaType == XHTML {
      assert XHTML != EOT && XHTML != OTF && XHTML != SFNT && XHTML != TTF && XHTML != WOFF;
      assert XHTML[13] != OTF_ALT[13] && XHTML[13] != OTF_ALT_2[13] && XHTML[13] != OTF_ALT_3[13];
      assert XHTML[13] != TTF_ALT[13] && XHTML[13] != WOFF_ALT[13];
    }
  }
}
