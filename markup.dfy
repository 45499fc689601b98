/**
 * Documents as the viewer and the editor handle them: the text outside the media
 * elements, and each media element (`img`, `video`, `audio`, `source`) as its tag and
 * a map from attribute name to value, in document order. Parsing into and serialising
 * out of a detached `div` is the identity on this representation.
 */
module Markup {
  import opened JsText

  /** An element's attributes by name. */
  type Attrs = map<string, string>

  /** The media elements the viewer's queries tell apart; a `source` is told apart by its parent. */
  datatype MediaTag = Img | Video | Audio | VideoSource | AudioSource | OtherSource

  /** A media element. */
  datatype Element = Element(tag: MediaTag, attrs: Attrs)

  /** A document: the markup around the media elements, and the media elements in order. */
  datatype Doc = Doc(markup: string, media: seq<Element>)

  const SrcAttr := "src"
  const DataSrcAttr := "data-src"
  const OriginalSrcAttr := "data-original-src"
  const ResolvedPathAttr := "data-resolved-path"
  const FileNameAttr := "data-file-name"

  /** The attribute names the media code uses are five different names. */
  lemma AttrNamesDiffer()
    ensures |SrcAttr| == 3 && |DataSrcAttr| == 8 && |OriginalSrcAttr| == 17
    ensures |ResolvedPathAttr| == 18 && |FileNameAttr| == 14
  {
  }

  /** `el.getAttribute(k) || ''`: the value, or "" when the attribute is absent. */
  function AttrOr(a: Attrs, k: string): string
  {
    if k in a then a[k] else ""
  }

  /** `el.getAttribute(k)` is truthy: present with a non-empty value. */
  predicate HasValue(a: Attrs, k: string)
  {
    k in a && a[k] != ""
  }

  /** The selector `img,video,source` used by the HTML renderer and the editor. */
  predicate InImgVideoSource(tag: MediaTag)
  {
    tag != Audio
  }

  /** `/^(https?:|data:|blob:)/i`: an absolute web, data or blob URL. */
  predicate IsExternal(src: string)
  {
    StartsWithIgnoringCase(src, "http:") || StartsWithIgnoringCase(src, "https:") ||
    StartsWithIgnoringCase(src, "data:") || StartsWithIgnoringCase(src, "blob:")
  }

  /** `/^blob:/i`. */
  predicate IsBlobUrl(src: string)
  {
    StartsWithIgnoringCase(src, "blob:")
  }

  /** A hexadecimal digit of either case. */
  predicate IsHexDigit(c: char)
  {
    '0' <= AsciiLower(c) <= '9' || 'a' <= AsciiLower(c) <= 'f'
  }

  /** `/^[0-9a-f]{8}-[0-9a-f]{4}-[0-9a-f]{4}-[0-9a-f]{4}-[0-9a-f]{12}$/i`. */
  predicate IsUuidLike(s: string)
  {
    |s| == 36 &&
    forall j :: 0 <= j < 36 ==> if j in {8, 13, 18, 23} then s[j] == '-' else IsHexDigit(s[j])
  }

  /** A blob URL is external, so the media pass never resolves it. */
  lemma BlobUrlIsExternal(src: string)
    requires IsBlobUrl(src)
    ensures IsExternal(src)
  {
  }
}
