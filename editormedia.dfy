/**
 * The editor's media mapping (editor.js `_prepareHTMLContentForEditor` and
 * `_normalizeHTMLMedia`): before an HTML document goes into the editor its media
 * references become blob URLs, and before it is saved each element's persistable
 * reference is moved back into `data-src`.
 */
module EditorMedia {
  import opened Wrappers
  import opened JsText
  import opened Markup
  import opened Vfs
  import opened MediaRefs

  /** `getAttribute('data-resolved-path') || getAttribute('data-file-name') || ''`. */
  function RecordedName(a: Attrs): string
  {
    if HasValue(a, ResolvedPathAttr) then a[ResolvedPathAttr] else AttrOr(a, FileNameAttr)
  }

  /**
   * The reference an element is saved with: `data-original-src` when set; for a blob URL,
   * or a bare UUID, the recorded name; otherwise the current `src`.
   */
  function SaveTarget(a: Attrs): string
  {
    var current := AttrOr(a, SrcAttr);
    if HasValue(a, OriginalSrcAttr) then a[OriginalSrcAttr]
    else if IsBlobUrl(current) then RecordedName(a)
    else if IsUuidLike(Trim(current)) then RecordedName(a)
    else current
  }

  /**
   * One element as `_normalizeHTMLMedia` leaves it: a used `data-original-src` is removed,
   * a non-empty target goes to `data-src` and `src` is removed, and
   * `data-resolved-path` is always removed.
   */
  function NormalizedAttrs(a: Attrs): Attrs
  {
    var target := SaveTarget(a);
    var b := if HasValue(a, OriginalSrcAttr) then a - {OriginalSrcAttr} else a;
    var c := if target != "" then b[DataSrcAttr := target] - {SrcAttr} else b;
    c - {ResolvedPathAttr}
  }

  /**
   * What normalisation leaves: no `data-resolved-path` and no used `data-original-src`;
   * a non-empty target in `data-src` with `src` gone; with an empty target, `src` as it was.
   */
  lemma NormalizeShape(a: Attrs)
    ensures var r := NormalizedAttrs(a);
      ResolvedPathAttr !in r && !HasValue(r, OriginalSrcAttr) &&
      (SaveTarget(a) != "" ==> DataSrcAttr in r && r[DataSrcAttr] == SaveTarget(a) && SrcAttr !in r) &&
      (SaveTarget(a) == "" ==> AttrOr(r, SrcAttr) == AttrOr(a, SrcAttr))
  {
    AttrNamesDiffer();
  }

  /** Normalisation on the elements the editor selects (`img,video,source`). */
  function NormalizedElement(e: Element): Element
  {
    if InImgVideoSource(e.tag) then Element(e.tag, NormalizedAttrs(e.attrs)) else e
  }

  /** The body of the loop of `_normalizeHTMLMedia`, on one element. */
  method NormalizeElement(el: Element) returns (e: Element)
    ensures e == NormalizedElement(el)
  {
    e := el;
    if InImgVideoSource(el.tag) {
      var a := el.attrs;
      var current := AttrOr(a, SrcAttr);
      var targetPath := "";
      if HasValue(a, OriginalSrcAttr) {
        targetPath := a[OriginalSrcAttr];
        a := a - {OriginalSrcAttr};
      } else if IsBlobUrl(current) {
        targetPath := RecordedName(a);
      } else {
        var uuidLike := IsUuidLike(Trim(current));
        targetPath := if uuidLike then RecordedName(a) else current;
      }
      assert targetPath == SaveTarget(el.attrs);
      if targetPath != "" {
        a := a[DataSrcAttr := targetPath];
        a := a - {SrcAttr};
      }
      a := a - {ResolvedPathAttr};
      e := Element(el.tag, a);
    }
  }

  /** The loop of `_normalizeHTMLMedia` over the parsed elements, in place. */
  method NormalizeHtmlMedia(els: array<Element>)
    modifies els
    ensures forall j :: 0 <= j < els.Length ==> els[j] == NormalizedElement(old(els[j]))
  {
    var i := 0;
    while i < els.Length
      invariant 0 <= i <= els.Length
      invariant forall j :: 0 <= j < i ==> els[j] == NormalizedElement(old(els[j]))
      invariant forall j :: i <= j < els.Length ==> els[j] == old(els[j])
    {
      var e := NormalizeElement(els[i]);
      els[i] := e;
      i := i + 1;
    }
  }

  /** `_normalizeHTMLMedia(html)` on a whole document. */
  function NormalizeDoc(d: Doc): (r: Doc)
    ensures r.markup == d.markup && |r.media| == |d.media|
    ensures forall j :: 0 <= j < |d.media| ==> r.media[j] == NormalizedElement(d.media[j])
  {
    Doc(d.markup, seq(|d.media|, j requires 0 <= j < |d.media| => NormalizedElement(d.media[j])))
  }

  /** A second normalisation changes nothing. */
  lemma NormalizeIdempotent(a: Attrs)
    ensures NormalizedAttrs(NormalizedAttrs(a)) == NormalizedAttrs(a)
  {
    var n := NormalizedAttrs(a);
    if SaveTarget(a) != "" {
      assert AttrOr(n, SrcAttr) == "";
      assert !IsUuidLike(Trim(""));
      assert SaveTarget(n) == "";
    } else {
      assert AttrOr(n, SrcAttr) == AttrOr(a, SrcAttr);
      if !HasValue(a, OriginalSrcAttr) && !IsBlobUrl(AttrOr(a, SrcAttr)) && IsUuidLike(Trim(AttrOr(a, SrcAttr))) {
        assert RecordedName(a) == "";
        assert RecordedName(n) == "";
      }
      assert SaveTarget(n) == "";
    }
  }

  /**
   * Preparing for the editor and then saving restores the author's reference: a relative
   * reference resolved to a file, and not tagged before, is saved in `data-src` as it was
   * written, every attribute the viewer added is gone, and every other attribute is as
   * it was.
   */
  lemma NormalizeUndoesResolution(a: Attrs, currentPath: string, root: Entry, urlName: string -> string, token: string)
    requires SourceOf(a) != "" && !IsExternal(SourceOf(a)) && !HasValue(a, OriginalSrcAttr)
    requires IsFileAt(root, LookupSegments(Resolve(SourceOf(a), currentPath)))
    ensures var n := NormalizedAttrs(MediaRefs.Handle(a, currentPath, root, urlName, token).attrs);
      DataSrcAttr in n && n[DataSrcAttr] == SourceOf(a) && SrcAttr !in n && OriginalSrcAttr !in n && ResolvedPathAttr !in n &&
      n - {DataSrcAttr, FileNameAttr} == a - {SrcAttr, DataSrcAttr, OriginalSrcAttr, ResolvedPathAttr, FileNameAttr}
  {
    ResolvedTagsOnce(a, currentPath, root, urlName, token);
    ResolvedFrame(a, currentPath, root, urlName, token);
    NormalizeRecorded(MediaRefs.Handle(a, currentPath, root, urlName, token).attrs, a);
  }

  /**
   * Normalising attributes that record a non-empty original reference puts it in
   * `data-src` and drops `src` and the record; `k` lists the attributes the record may
   * differ from `a` in.
   */
  lemma NormalizeRecorded(h: Attrs, a: Attrs)
    requires HasValue(h, OriginalSrcAttr)
    requires var k := {SrcAttr, OriginalSrcAttr, ResolvedPathAttr, FileNameAttr}; h - k == a - k
    ensures var n := NormalizedAttrs(h);
      DataSrcAttr in n && n[DataSrcAttr] == h[OriginalSrcAttr] && SrcAttr !in n && OriginalSrcAttr !in n && ResolvedPathAttr !in n &&
      n - {DataSrcAttr, FileNameAttr} == a - {SrcAttr, DataSrcAttr, OriginalSrcAttr, ResolvedPathAttr, FileNameAttr}
  {
    AttrNamesDiffer();
    var k := {SrcAttr, OriginalSrcAttr, ResolvedPathAttr, FileNameAttr};
    var all := {SrcAttr, DataSrcAttr, OriginalSrcAttr, ResolvedPathAttr, FileNameAttr};
    assert SaveTarget(h) == h[OriginalSrcAttr];
    var n := NormalizedAttrs(h);
    assert n == (h - {OriginalSrcAttr})[DataSrcAttr := h[OriginalSrcAttr]] - {SrcAttr} - {ResolvedPathAttr};
    assert n - {DataSrcAttr, FileNameAttr} == h - all;
    assert h - all == (h - k) - {DataSrcAttr};
    assert a - all == (a - k) - {DataSrcAttr};
  }

  /**
   * A reference the viewer left as written (a plain relative `src`, neither a blob URL
   * nor UUID-shaped, with no record) is saved in `data-src` instead of `src`.
   */
  lemma NormalizeMovesPlainSource(a: Attrs)
    requires HasValue(a, SrcAttr) && !IsBlobUrl(a[SrcAttr]) && !IsUuidLike(Trim(a[SrcAttr]))
    requires !HasValue(a, OriginalSrcAttr)
    ensures var n := NormalizedAttrs(a);
      n[DataSrcAttr] == a[SrcAttr] && SrcAttr !in n &&
      n - {DataSrcAttr} == a - {SrcAttr, DataSrcAttr, ResolvedPathAttr}
  {
  }

  /** The HTML the editor is given: the document after the media pass, when there is a tree. */
  function Prepared(content: Doc, vfsRoot: Option<Entry>, currentPath: string, urlName: string -> string, next: nat): Doc
  {
    if vfsRoot.None? then content
    else Doc(content.markup, ProcessAll(content.media, HandlerIn(currentPath, vfsRoot.value, urlName), next).0)
  }

  /** The nodes the preparation makes blob URLs for: none without a tree, otherwise those of the media pass. */
  function PreparedIssued(content: Doc, vfsRoot: Option<Entry>, currentPath: string, urlName: string -> string, next: nat): seq<FileNode>
  {
    if vfsRoot.None? then [] else ProcessAll(content.media, HandlerIn(currentPath, vfsRoot.value, urlName), next).1
  }

  /** `_prepareHTMLContentForEditor(html)`: the media pass over a detached copy of the document. */
  method PrepareHtmlForEditor(content: Doc, vfsRoot: Option<Entry>, currentPath: string, urlName: string -> string, urls: BlobUrls)
    returns (prepared: Doc)
    modifies urls
    ensures prepared == Prepared(content, vfsRoot, currentPath, urlName, |old(urls.issued)|)
    ensures vfsRoot.None? ==> urls.issued == old(urls.issued)
    ensures vfsRoot.Some? ==>
      urls.issued == old(urls.issued) + ProcessAll(content.media, HandlerIn(currentPath, vfsRoot.value, urlName), |old(urls.issued)|).1
    ensures urls.issued == old(urls.issued) + PreparedIssued(content, vfsRoot, currentPath, urlName, |old(urls.issued)|)
  {
    var temp := new Element[|content.media|](j requires 0 <= j < |content.media| => content.media[j]);
    assert temp[..] == content.media;
    ProcessMediaInDom(vfsRoot, temp, currentPath, urlName, urls);
    prepared := Doc(content.markup, temp[..]);
  }
}
