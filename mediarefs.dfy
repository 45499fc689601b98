/**
 * How rendered documents reach their images, videos and audio (app.js
 * `processMediaInDOM` and its `handleElement`, and the `src` deferral in `renderHTML`):
 * a reference is resolved against the open document's folder, looked up in the folder
 * tree, tagged with where it came from, and replaced by a blob URL.
 */
module MediaRefs {
  import opened Wrappers
  import opened JsText
  import opened Markup
  import opened Vfs

  /** `currentPath.split('/').slice(0, -1)`: the folder segments of the open document. */
  function DirOf(currentPath: string): seq<string>
  {
    var parts := Split(currentPath, '/');
    parts[..|parts| - 1]
  }

  /** One step of the `../` walk: `..` pops (nothing at the root), `.` and "" are skipped, anything else is pushed. */
  function Step(dir: seq<string>, part: string): seq<string>
  {
    if part == ".." then (if dir == [] then [] else dir[..|dir| - 1])
    else if part != "." && part != "" then dir + [part]
    else dir
  }

  /** The `../` walk over all segments of a reference, from folder `dir`. */
  function Walk(dir: seq<string>, parts: seq<string>): seq<string>
    decreases |parts|
  {
    if parts == [] then dir else Walk(Step(dir, parts[0]), parts[1..])
  }

  /** The loop of the `../` branch: pop on `..`, push every other segment but `.` and "". */
  method WalkSegments(currentDir: seq<string>, parts: seq<string>) returns (dir: seq<string>)
    ensures dir == Walk(currentDir, parts)
  {
    dir := currentDir;
    var i := 0;
    while i < |parts|
      invariant 0 <= i <= |parts|
      invariant Walk(dir, parts[i..]) == Walk(currentDir, parts)
    {
      var part := parts[i];
      if part == ".." {
        if dir != [] {
          dir := dir[..|dir| - 1];
        }
      } else if part != "." && part != "" {
        dir := dir + [part];
      }
      assert parts[i..][1..] == parts[i + 1..];
      i := i + 1;
    }
  }

  /**
   * The tree path a reference `src` in the document at `currentPath` stands for: a
   * `../` reference walks from the document's folder, any other reference without a
   * leading `/` is appended to the folder, and a leading `/` is stripped.
   */
  function Resolve(src: string, currentPath: string): string
  {
    if "../" <= src then PathOf(Walk(DirOf(currentPath), Split(src, '/')))
    else if !("/" <= src) then PathOf(DirOf(currentPath) + [src])
    else src[1..]
  }

  /** The resolution step of `handleElement`. */
  method ResolveMediaPath(src: string, currentPath: string) returns (resolved: string)
    ensures resolved == Resolve(src, currentPath)
  {
    resolved := src;
    if "../" <= src {
      var dir := WalkSegments(DirOf(currentPath), Split(src, '/'));
      resolved := PathOf(dir);
    } else if !("/" <= src) {
      resolved := PathOf(DirOf(currentPath) + [src]);
    } else {
      resolved := src[1..];
    }
  }

  /** `n` copies of the segment `..`. */
  function Ups(n: nat): seq<string>
  {
    seq(n, _ => "..")
  }

  /** Pops beyond the root are absorbed: `n` leading `..` drop `n` folders, or all of them. */
  lemma {:induction false} WalkAbsorbsPops(dir: seq<string>, n: nat, rest: seq<string>)
    ensures Walk(dir, Ups(n) + rest) == Walk(dir[..if n <= |dir| then |dir| - n else 0], rest)
  {
    if n > 0 {
      var d' := Step(dir, "..");
      assert (Ups(n) + rest)[0] == "..";
      assert (Ups(n) + rest)[1..] == Ups(n - 1) + rest;
      WalkAbsorbsPops(d', n - 1, rest);
      assert d'[..if n - 1 <= |d'| then |d'| - (n - 1) else 0] == dir[..if n <= |dir| then |dir| - n else 0];
    } else {
      assert Ups(0) + rest == rest;
      assert dir[..|dir|] == dir;
    }
  }

  /** A segment the walk may add: neither empty nor `.` nor `..`. */
  predicate Clean(s: string)
  {
    s != "" && s != "." && s != ".."
  }

  /**
   * The walk never rises above the root: its result keeps a prefix of the starting folder
   * and adds only clean segments after it.
   */
  lemma {:induction false} WalkShape(dir: seq<string>, parts: seq<string>) returns (m: nat)
    ensures m <= |dir| && m <= |Walk(dir, parts)| && Walk(dir, parts)[..m] == dir[..m]
    ensures forall j :: m <= j < |Walk(dir, parts)| ==> Clean(Walk(dir, parts)[j])
    decreases |parts|
  {
    if parts == [] {
      m := |dir|;
    } else {
      var d' := Step(dir, parts[0]);
      var m' := WalkShape(d', parts[1..]);
      var w := Walk(dir, parts);
      if parts[0] != ".." && parts[0] != "." && parts[0] != "" && m' == |dir| + 1 {
        m := |dir|;
        assert w[..m] == w[..m'][..m];
        assert w[|dir|] == w[..m'][|dir|];
      } else {
        m := m';
        assert w[..m] == d'[..m];
      }
    }
  }

  /** Without `..`, the walk appends the segments other than "" and `.`. */
  lemma {:induction false} WalkWithoutUps(dir: seq<string>, parts: seq<string>)
    requires ".." !in parts
    ensures Walk(dir, parts) == dir + Keep(parts, {"", "."})
    decreases |parts|
  {
    if parts != [] {
      assert parts == [parts[0]] + parts[1..];
      WalkWithoutUps(Step(dir, parts[0]), parts[1..]);
    }
  }

  /** The folder of a document at the joined segments `dir + [name]` is `dir`. */
  lemma DirOfJoined(dir: seq<string>, name: string)
    requires forall j :: 0 <= j < |dir| ==> '/' !in dir[j]
    requires '/' !in name
    ensures DirOf(PathOf(dir + [name])) == dir
  {
    var parts := dir + [name];
    assert forall j :: 0 <= j < |parts| ==> '/' !in parts[j] by {
      forall j | 0 <= j < |parts|
        ensures '/' !in parts[j]
      {
        if j < |dir| {
          assert parts[j] == dir[j];
        }
      }
    }
    SplitJoin(parts, '/');
  }

  /**
   * A plain relative reference is appended to the document's folder: `img/pic.png` in
   * `notes/today.md` stands for `notes/img/pic.png`.
   */
  lemma ResolveRelative(src: string, dir: seq<string>, name: string)
    requires !("/" <= src) && !("../" <= src)
    requires forall j :: 0 <= j < |dir| ==> '/' !in dir[j]
    requires '/' !in name
    ensures Resolve(src, PathOf(dir + [name])) == PathOf(dir + [src])
  {
    DirOfJoined(dir, name);
  }

  /** A `../` reference walks the rest of its segments from the folder above the document's. */
  lemma ResolveUp(rest: string, dir: seq<string>, name: string)
    requires forall j :: 0 <= j < |dir| ==> '/' !in dir[j]
    requires '/' !in name
    ensures Resolve("../" + rest, PathOf(dir + [name])) ==
      PathOf(Walk(if dir == [] then [] else dir[..|dir| - 1], Split(rest, '/')))
  {
    DirOfJoined(dir, name);
    var src := "../" + rest;
    assert "../" <= src;
    assert src == ".." + ['/'] + rest;
    SplitAfterHead("..", '/', rest);
  }

  /** A root-relative reference loses exactly its one leading `/`, which does not change what the lookup follows. */
  lemma ResolveRootRelative(src: string, currentPath: string)
    requires "/" <= src
    ensures Resolve(src, currentPath) == src[1..]
    ensures LookupSegments(Resolve(src, currentPath)) == LookupSegments(src)
  {
    assert src == "" + ['/'] + src[1..];
    SplitAfterHead("", '/', src[1..]);
  }

  /** `getAttribute('src')`, falling back to `data-src` when `src` is missing or empty. */
  function SourceOf(a: Attrs): string
  {
    if AttrOr(a, SrcAttr) == "" && DataSrcAttr in a then a[DataSrcAttr] else AttrOr(a, SrcAttr)
  }

  /** `path.split('/').pop()`. */
  function LastSegment(path: string): string
  {
    var parts := Split(path, '/');
    parts[|parts| - 1]
  }

  /**
   * The record kept of where a resolved reference came from: written only when
   * `data-original-src` is not set yet, together with the resolved path and, when there
   * is none yet, the file name.
   */
  function Tagged(a: Attrs, src: string, resolved: string): Attrs
  {
    if HasValue(a, OriginalSrcAttr) then a
    else
      var b := a[OriginalSrcAttr := src][ResolvedPathAttr := resolved];
      if HasValue(a, FileNameAttr) || LastSegment(resolved) == "" then b
      else b[FileNameAttr := LastSegment(resolved)]
  }

  /** What `handleElement` does to one element: its new attributes, and the node a blob URL was made for. */
  datatype Handling = Handling(attrs: Attrs, blobFor: Option<FileNode>)

  /**
   * `handleElement(el, 'src')` with `token` as the blob URL it would create and
   * `urlName` as `new URL(src).pathname.split('/').pop()` ("" when the URL does not parse).
   */
  function Handle(a: Attrs, currentPath: string, root: Entry, urlName: string -> string, token: string): Handling
  {
    var src := SourceOf(a);
    if src == "" then Handling(a, None)
    else if IsExternal(src) then
      if HasValue(a, FileNameAttr) || urlName(src) == "" then Handling(a, None)
      else Handling(a[FileNameAttr := urlName(src)], None)
    else
      var resolved := Resolve(src, currentPath);
      var found := Lookup(root, LookupSegments(resolved));
      if found.Some? && found.value.FileEntry? then
        Handling(Tagged(a, src, resolved)[SrcAttr := token], Some(found.value.node))
      else Handling(a, None)
  }

  /** The two maps agree on every attribute but `data-file-name`. */
  predicate SameButFileName(a: Attrs, b: Attrs)
  {
    a - {FileNameAttr} == b - {FileNameAttr}
  }

  /** External references are never resolved: no blob URL, and at most `data-file-name` is added. */
  lemma ExternalNeverResolved(a: Attrs, currentPath: string, root: Entry, urlName: string -> string, token: string)
    requires IsExternal(SourceOf(a))
    ensures Handle(a, currentPath, root, urlName, token).blobFor.None?
    ensures SameButFileName(Handle(a, currentPath, root, urlName, token).attrs, a)
    ensures HasValue(a, FileNameAttr) ==> Handle(a, currentPath, root, urlName, token).attrs == a
  {
    var src := SourceOf(a);
    if !HasValue(a, FileNameAttr) && urlName(src) != "" {
      assert a[FileNameAttr := urlName(src)] - {FileNameAttr} == a - {FileNameAttr};
    }
  }

  /** An element whose reference is missing, or does not lead to a file, is left as it was. */
  lemma UnresolvedUnchanged(a: Attrs, currentPath: string, root: Entry, urlName: string -> string, token: string)
    requires !IsExternal(SourceOf(a))
    requires SourceOf(a) == "" || !IsFileAt(root, LookupSegments(Resolve(SourceOf(a), currentPath)))
    ensures Handle(a, currentPath, root, urlName, token) == Handling(a, None)
  {
  }

  /**
   * A reference that leads to a file gets the blob URL as its `src`, made for that file;
   * the original reference and the resolved path are recorded exactly when
   * `data-original-src` was not set, and an existing record is kept as it was.
   */
  lemma ResolvedTagsOnce(a: Attrs, currentPath: string, root: Entry, urlName: string -> string, token: string)
    requires SourceOf(a) != "" && !IsExternal(SourceOf(a))
    requires IsFileAt(root, LookupSegments(Resolve(SourceOf(a), currentPath)))
    ensures var h := Handle(a, currentPath, root, urlName, token);
      h.attrs[SrcAttr] == token &&
      h.blobFor == Some(Lookup(root, LookupSegments(Resolve(SourceOf(a), currentPath))).value.node)
    ensures var h := Handle(a, currentPath, root, urlName, token);
      !HasValue(a, OriginalSrcAttr) ==>
        h.attrs[OriginalSrcAttr] == SourceOf(a) && h.attrs[ResolvedPathAttr] == Resolve(SourceOf(a), currentPath)
    ensures var h := Handle(a, currentPath, root, urlName, token);
      HasValue(a, OriginalSrcAttr) ==> h.attrs == a[SrcAttr := token]
  {
  }

  /** Resolving a reference that is not recorded yet touches only `src` and the three record attributes. */
  lemma ResolvedFrame(a: Attrs, currentPath: string, root: Entry, urlName: string -> string, token: string)
    requires SourceOf(a) != "" && !IsExternal(SourceOf(a)) && !HasValue(a, OriginalSrcAttr)
    requires IsFileAt(root, LookupSegments(Resolve(SourceOf(a), currentPath)))
    ensures var k := {SrcAttr, OriginalSrcAttr, ResolvedPathAttr, FileNameAttr};
      Handle(a, currentPath, root, urlName, token).attrs - k == a - k
  {
    var k := {SrcAttr, OriginalSrcAttr, ResolvedPathAttr, FileNameAttr};
    var src := SourceOf(a);
    var resolved := Resolve(src, currentPath);
    var b := a[OriginalSrcAttr := src][ResolvedPathAttr := resolved];
    assert b - k == a - k;
    assert b[FileNameAttr := LastSegment(resolved)] - k == a - k;
    assert Tagged(a, src, resolved)[SrcAttr := token] - k == a - k;
  }

  /** An element that already carries `data-original-src` changes at most in `src` and `data-file-name`. */
  lemma RecordKept(a: Attrs, currentPath: string, root: Entry, urlName: string -> string, token: string)
    requires HasValue(a, OriginalSrcAttr)
    ensures Handle(a, currentPath, root, urlName, token).attrs - {SrcAttr, FileNameAttr} == a - {SrcAttr, FileNameAttr}
  {
    var src := SourceOf(a);
    if src != "" && IsExternal(src) && !HasValue(a, FileNameAttr) && urlName(src) != "" {
      assert a[FileNameAttr := urlName(src)] - {SrcAttr, FileNameAttr} == a - {SrcAttr, FileNameAttr};
    } else if src != "" && !IsExternal(src) {
      assert Tagged(a, src, Resolve(src, currentPath)) == a;
      assert a[SrcAttr := token] - {SrcAttr, FileNameAttr} == a - {SrcAttr, FileNameAttr};
    }
  }

  /**
   * After a pass that made a blob URL, the element's `src` is that URL, so a second pass
   * takes the external branch: it makes no blob URL and changes at most
   * `data-file-name`, and a third pass changes nothing.
   */
  lemma {:induction false} SecondPassSettles(a: Attrs, currentPath: string, root: Entry, urlName: string -> string,
                                             t1: string, t2: string, t3: string)
    requires IsBlobUrl(t1)
    ensures var h1 := Handle(a, currentPath, root, urlName, t1);
      var h2 := Handle(h1.attrs, currentPath, root, urlName, t2);
      h2.blobFor.None? && SameButFileName(h2.attrs, h1.attrs) &&
      Handle(h2.attrs, currentPath, root, urlName, t3) == Handling(h2.attrs, None)
  {
    var h1 := Handle(a, currentPath, root, urlName, t1);
    var src := SourceOf(a);
    if src != "" && !IsExternal(src) && h1.blobFor.Some? {
      assert SourceOf(h1.attrs) == t1;
      BlobUrlIsExternal(t1);
      ExternalNeverResolved(h1.attrs, currentPath, root, urlName, t2);
      var h2 := Handle(h1.attrs, currentPath, root, urlName, t2);
      assert SourceOf(h2.attrs) == t1;
      ExternalNeverResolved(h2.attrs, currentPath, root, urlName, t3);
    } else if src != "" && IsExternal(src) {
      assert SourceOf(h1.attrs) == src;
      ExternalNeverResolved(a, currentPath, root, urlName, t1);
      ExternalNeverResolved(h1.attrs, currentPath, root, urlName, t2);
    }
  }

  /** The blob URL the registry hands out `n`-th. */
  function BlobUrl(n: nat): (url: string)
    ensures IsBlobUrl(url)
  {
    "blob:" + NatToString(n)
  }

  /** Blob URLs handed out at different times differ. */
  lemma BlobUrlsDistinct(m: nat, n: nat)
    requires m != n
    ensures BlobUrl(m) != BlobUrl(n)
  {
    if BlobUrl(m) == BlobUrl(n) {
      assert BlobUrl(m)[5..] == NatToString(m);
      assert BlobUrl(n)[5..] == NatToString(n);
      NatToStringInjective(m, n);
    }
  }

  /** `URL.createObjectURL`: every call hands out a new URL and records the file node it is for. */
  class BlobUrls {
    var issued: seq<FileNode>

    constructor ()
      ensures issued == []
    {
      issued := [];
    }

    method CreateObjectUrl(node: FileNode) returns (url: string)
      modifies this
      ensures issued == old(issued) + [node] && url == BlobUrl(|old(issued)|)
    {
      url := BlobUrl(|issued|);
      issued := issued + [node];
    }
  }

  /** The nodes a handling made blob URLs for. */
  function Made(h: Handling): seq<FileNode>
  {
    if h.blobFor.Some? then [h.blobFor.value] else []
  }

  /** `handleElement(el, 'src')` on element `i`, in place. */
  method HandleElement(els: array<Element>, i: nat, currentPath: string, root: Entry, urlName: string -> string, urls: BlobUrls)
    requires i < els.Length
    modifies els, urls
    ensures var h := Handle(old(els[i].attrs), currentPath, root, urlName, BlobUrl(|old(urls.issued)|));
      els[..] == old(els[..])[i := Element(old(els[i].tag), h.attrs)] &&
      urls.issued == old(urls.issued) + Made(h)
  {
    var a := els[i].attrs;
    var src := AttrOr(a, SrcAttr);
    if src == "" && DataSrcAttr in a {
      src := a[DataSrcAttr];
    }
    if src == "" {
      return;
    }
    if IsExternal(src) {
      if !HasValue(a, FileNameAttr) {
        var namePart := urlName(src);
        if namePart != "" {
          els[i] := Element(els[i].tag, a[FileNameAttr := namePart]);
        }
      }
      return;
    }
    var resolved := ResolveMediaPath(src, currentPath);
    var mediaFile := FindFileInVfs(Some(root), resolved);
    if mediaFile.Some? && mediaFile.value.FileEntry? {
      var b := a;
      if !HasValue(a, OriginalSrcAttr) {
        b := b[OriginalSrcAttr := src][ResolvedPathAttr := resolved];
        if !HasValue(a, FileNameAttr) {
          var baseName := LastSegment(resolved);
          if baseName != "" {
            b := b[FileNameAttr := baseName];
          }
        }
      }
      var blobUrl := urls.CreateObjectUrl(mediaFile.value.node);
      els[i] := Element(els[i].tag, b[SrcAttr := blobUrl]);
    }
  }

  /** The elements `processMediaInDOM` visits: images, videos, audio, and sources inside videos or audio. */
  predicate Visited(tag: MediaTag)
  {
    tag != OtherSource
  }

  /** How a pass handles one element's attributes, given the blob URL it would hand out next. */
  type Handler = (Attrs, string) -> Handling

  /** `handleElement(el, 'src')` for the document at `currentPath` over the tree `root`. */
  function HandlerIn(currentPath: string, root: Entry, urlName: string -> string): Handler
  {
    (a: Attrs, token: string) => Handle(a, currentPath, root, urlName, token)
  }

  /** One element as the pass leaves it, when its blob URL would be `token`. */
  function Passed(e: Element, handle: Handler, token: string): Element
  {
    if Visited(e.tag) then Element(e.tag, handle(e.attrs, token).attrs) else e
  }

  /** The node the pass makes a blob URL for at one element, if any, when that URL would be `token`. */
  function Issued(e: Element, handle: Handler, token: string): seq<FileNode>
  {
    if Visited(e.tag) then Made(handle(e.attrs, token)) else []
  }

  /** The whole pass over `media`, blob URLs numbered from `next`: the new elements and the nodes URLs were made for. */
  function ProcessAll(media: seq<Element>, handle: Handler, next: nat): (r: (seq<Element>, seq<FileNode>))
    ensures |r.0| == |media|
    decreases |media|
  {
    if media == [] then ([], [])
    else
      var p := ProcessAll(media[..|media| - 1], handle, next);
      var e := media[|media| - 1];
      var token := BlobUrl(next + |p.1|);
      (p.0 + [Passed(e, handle, token)], p.1 + Issued(e, handle, token))
  }

  /** Element `i` handled when the pass visits its tag, and left alone otherwise. */
  method VisitElement(els: array<Element>, i: nat, currentPath: string, root: Entry, urlName: string -> string, urls: BlobUrls)
    requires i < els.Length
    modifies els, urls
    ensures els[..] == old(els[..])[i := Passed(old(els[i]), HandlerIn(currentPath, root, urlName), BlobUrl(|old(urls.issued)|))]
    ensures urls.issued == old(urls.issued) +
      Issued(old(els[i]), HandlerIn(currentPath, root, urlName), BlobUrl(|old(urls.issued)|))
  {
    if Visited(els[i].tag) {
      HandleElement(els, i, currentPath, root, urlName, urls);
    }
  }

  /** One turn of the media pass: element `i` is handled when visited, with the next blob URL. */
  method PassElement(els: array<Element>, i: nat, currentPath: string, root: Entry, urlName: string -> string, urls: BlobUrls,
                     ghost media: seq<Element>, ghost issued0: seq<FileNode>)
    requires i < els.Length == |media|
    requires els[..i] == ProcessAll(media[..i], HandlerIn(currentPath, root, urlName), |issued0|).0 && els[i..] == media[i..]
    requires urls.issued == issued0 + ProcessAll(media[..i], HandlerIn(currentPath, root, urlName), |issued0|).1
    modifies els, urls
    ensures els[..i + 1] == ProcessAll(media[..i + 1], HandlerIn(currentPath, root, urlName), |issued0|).0
    ensures els[i + 1..] == media[i + 1..]
    ensures urls.issued == issued0 + ProcessAll(media[..i + 1], HandlerIn(currentPath, root, urlName), |issued0|).1
  {
    ghost var before := els[..];
    ghost var issued := urls.issued;
    assert els[i] == media[i] by {
      assert els[i..][0] == media[i..][0];
    }
    VisitElement(els, i, currentPath, root, urlName, urls);
    PassStep(media, i, HandlerIn(currentPath, root, urlName), |issued0|, before, els[..], |issued|);
    PassStepIssued(media, i, HandlerIn(currentPath, root, urlName), issued0, issued, urls.issued, |issued|);
  }

  /**
   * One step of the pass, whatever the handler: replacing element `i` of a processed
   * prefix by its passed form extends the processed prefix by one element.
   */
  lemma PassStep(media: seq<Element>, i: nat, handle: Handler, n: nat, before: seq<Element>, after: seq<Element>, k: nat)
    requires i < |before| == |media|
    requires before[..i] == ProcessAll(media[..i], handle, n).0 && before[i..] == media[i..]
    requires k == n + |ProcessAll(media[..i], handle, n).1|
    requires after == before[i := Passed(before[i], handle, BlobUrl(k))]
    ensures after[..i + 1] == ProcessAll(media[..i + 1], handle, n).0
    ensures after[i + 1..] == media[i + 1..]
  {
    assert before[i] == media[i] by {
      assert before[i..][0] == media[i..][0];
    }
    ProcessAllPrefix(media, i, handle, n);
    assert after[..i + 1] == before[..i] + [after[i]];
    assert after[i + 1..] == before[i + 1..];
    assert before[i + 1..] == before[i..][1..];
  }

  /** One step of the pass, whatever the handler: the nodes made for element `i` follow those made before it. */
  lemma PassStepIssued(media: seq<Element>, i: nat, handle: Handler, issued0: seq<FileNode>,
                       issued: seq<FileNode>, issued': seq<FileNode>, k: nat)
    requires i < |media|
    requires issued == issued0 + ProcessAll(media[..i], handle, |issued0|).1
    requires k == |issued0| + |ProcessAll(media[..i], handle, |issued0|).1|
    requires issued' == issued + Issued(media[i], handle, BlobUrl(k))
    ensures issued' == issued0 + ProcessAll(media[..i + 1], handle, |issued0|).1
  {
    var p := ProcessAll(media[..i], handle, |issued0|);
    var made := Issued(media[i], handle, BlobUrl(k));
    ProcessAllPrefix(media, i, handle, |issued0|);
    assert ProcessAll(media[..i + 1], handle, |issued0|).1 == p.1 + made;
    ConcatAssoc(issued0, p.1, made);
  }

  /** Concatenation regroups. */
  lemma ConcatAssoc<T>(a: seq<T>, b: seq<T>, c: seq<T>)
    ensures (a + b) + c == a + (b + c)
  {
  }

  /** `processMediaInDOM(container, currentPath)`: nothing without a tree, otherwise every visited element in turn. */
  method ProcessMediaInDom(vfsRoot: Option<Entry>, els: array<Element>, currentPath: string, urlName: string -> string, urls: BlobUrls)
    modifies els, urls
    ensures vfsRoot.None? ==> els[..] == old(els[..]) && urls.issued == old(urls.issued)
    ensures vfsRoot.Some? ==>
      var r := ProcessAll(old(els[..]), HandlerIn(currentPath, vfsRoot.value, urlName), |old(urls.issued)|);
      els[..] == r.0 && urls.issued == old(urls.issued) + r.1
  {
    if vfsRoot.None? {
      return;
    }
    var root := vfsRoot.value;
    ghost var media := els[..];
    ghost var issued0 := urls.issued;
    var i := 0;
    while i < els.Length
      invariant 0 <= i <= els.Length
      invariant els[..i] == ProcessAll(media[..i], HandlerIn(currentPath, root, urlName), |issued0|).0
      invariant els[i..] == media[i..]
      invariant urls.issued == issued0 + ProcessAll(media[..i], HandlerIn(currentPath, root, urlName), |issued0|).1
    {
      PassElement(els, i, currentPath, root, urlName, urls, media, issued0);
      i := i + 1;
    }
    assert media[..i] == media;
    assert els[..] == els[..i];
  }

  /** An element the pass leaves as it is. */
  predicate Fixed(e: Element, handle: Handler)
  {
    !Visited(e.tag) || handle(e.attrs, "") == Handling(e.attrs, None)
  }

  /**
   * An element for which the pass makes no blob URL, changes at most
   * `data-file-name`, and leaves an element it will leave as it is.
   */
  predicate Settling(e: Element, handle: Handler)
  {
    !Visited(e.tag) ||
    (var h := handle(e.attrs, "");
     h.blobFor.None? && SameButFileName(h.attrs, e.attrs) && Fixed(Element(e.tag, h.attrs), handle))
  }

  /** A handler for which the blob URL that would be handed out matters only when one is made. */
  ghost predicate TokenFree(handle: Handler)
  {
    forall a: Attrs, token: string :: handle(a, "").blobFor.None? ==> handle(a, token) == handle(a, "")
  }

  /** A handler that leaves every element it handles with a blob URL settling. */
  ghost predicate SettlesAfterBlob(handle: Handler)
  {
    forall e: Element, token: string :: IsBlobUrl(token) ==> Settling(Passed(e, handle, token), handle)
  }

  /** The blob URL that would be handed out matters only when one is made. */
  lemma TokenIrrelevant(a: Attrs, currentPath: string, root: Entry, urlName: string -> string, token: string)
    requires Handle(a, currentPath, root, urlName, "").blobFor.None?
    ensures Handle(a, currentPath, root, urlName, token) == Handle(a, currentPath, root, urlName, "")
  {
  }

  /** `handleElement` uses the blob URL only when it makes one. */
  lemma HandlerTokenFree(currentPath: string, root: Entry, urlName: string -> string)
    ensures TokenFree(HandlerIn(currentPath, root, urlName))
  {
    var handle := HandlerIn(currentPath, root, urlName);
    forall a: Attrs, token: string | handle(a, "").blobFor.None?
      ensures handle(a, token) == handle(a, "")
    {
      TokenIrrelevant(a, currentPath, root, urlName, token);
    }
  }

  /** An element `handleElement` handled with a blob URL is settling. */
  lemma HandlerSettles(currentPath: string, root: Entry, urlName: string -> string)
    ensures SettlesAfterBlob(HandlerIn(currentPath, root, urlName))
  {
    var handle := HandlerIn(currentPath, root, urlName);
    forall e: Element, token: string | IsBlobUrl(token)
      ensures Settling(Passed(e, handle, token), handle)
    {
      if Visited(e.tag) {
        SecondPassSettles(e.attrs, currentPath, root, urlName, token, "", "");
      }
    }
  }

  /** The last element of a pass is the element as handled with the next blob URL. */
  lemma ProcessAllLast(media: seq<Element>, handle: Handler, n: nat)
    requires media != []
    ensures var p1 := ProcessAll(media[..|media| - 1], handle, n);
      ProcessAll(media, handle, n).0 == p1.0 + [Passed(media[|media| - 1], handle, BlobUrl(n + |p1.1|))]
    ensures var p1 := ProcessAll(media[..|media| - 1], handle, n);
      ProcessAll(media, handle, n).1 == p1.1 + Issued(media[|media| - 1], handle, BlobUrl(n + |p1.1|))
  {
    var p1 := ProcessAll(media[..|media| - 1], handle, n);
    var e := media[|media| - 1];
    var token := BlobUrl(n + |p1.1|);
    assert ProcessAll(media, handle, n) == (p1.0 + [Passed(e, handle, token)], p1.1 + Issued(e, handle, token));
  }

  /** A pass over the first `i + 1` elements is the pass over the first `i` followed by element `i`. */
  lemma ProcessAllPrefix(media: seq<Element>, i: nat, handle: Handler, n: nat)
    requires i < |media|
    ensures var p := ProcessAll(media[..i], handle, n);
      ProcessAll(media[..i + 1], handle, n).0 == p.0 + [Passed(media[i], handle, BlobUrl(n + |p.1|))]
    ensures var p := ProcessAll(media[..i], handle, n);
      ProcessAll(media[..i + 1], handle, n).1 == p.1 + Issued(media[i], handle, BlobUrl(n + |p.1|))
  {
    var m := media[..i + 1];
    assert m[..|m| - 1] == media[..i] && m[|m| - 1] == media[i];
    ProcessAllLast(m, handle, n);
  }

  /** Every element a whole pass leaves behind is settling. */
  lemma {:induction false} FirstPassSettles(media: seq<Element>, handle: Handler, n: nat)
    requires SettlesAfterBlob(handle)
    ensures var m1 := ProcessAll(media, handle, n).0;
      forall j :: 0 <= j < |m1| ==> Settling(m1[j], handle)
    decreases |media|
  {
    if media != [] {
      var init := media[..|media| - 1];
      FirstPassSettles(init, handle, n);
      var p1 := ProcessAll(init, handle, n);
      var m1 := ProcessAll(media, handle, n).0;
      ProcessAllLast(media, handle, n);
      var last := Passed(media[|media| - 1], handle, BlobUrl(n + |p1.1|));
      assert Settling(last, handle);
      assert m1 == p1.0 + [last];
      forall j | 0 <= j < |m1|
        ensures Settling(m1[j], handle)
      {
        if j < |m1| - 1 {
          assert m1[j] == p1.0[j];
        } else {
          assert m1[j] == last;
        }
      }
    }
  }

  /** A pass over settling elements makes no blob URL, changes at most `data-file-name`, and leaves fixed elements. */
  lemma {:induction false} SettledPass(m: seq<Element>, handle: Handler, n: nat)
    requires TokenFree(handle)
    requires forall j :: 0 <= j < |m| ==> Settling(m[j], handle)
    ensures var p := ProcessAll(m, handle, n);
      p.1 == [] &&
      forall j :: 0 <= j < |m| ==>
        p.0[j].tag == m[j].tag && SameButFileName(p.0[j].attrs, m[j].attrs) && Fixed(p.0[j], handle)
    decreases |m|
  {
    if m != [] {
      var init := m[..|m| - 1];
      var e := m[|m| - 1];
      assert forall j :: 0 <= j < |init| ==> init[j] == m[j];
      SettledPass(init, handle, n);
      var q := ProcessAll(init, handle, n);
      var p := ProcessAll(m, handle, n);
      ProcessAllLast(m, handle, n);
      assert handle(e.attrs, BlobUrl(n + |q.1|)) == handle(e.attrs, "") || !Visited(e.tag);
      forall j | 0 <= j < |m|
        ensures p.0[j].tag == m[j].tag && SameButFileName(p.0[j].attrs, m[j].attrs) && Fixed(p.0[j], handle)
      {
        if j < |m| - 1 {
          assert p.0[j] == q.0[j];
        }
      }
    }
  }

  /** A fixed element is passed as it is, whatever blob URL would come next. */
  lemma FixedPassed(e: Element, handle: Handler, token: string)
    requires TokenFree(handle) && Fixed(e, handle)
    ensures Passed(e, handle, token) == e
    ensures Issued(e, handle, token) == []
  {
    if Visited(e.tag) {
      assert handle(e.attrs, token) == handle(e.attrs, "");
    }
  }

  /** A pass over fixed elements changes nothing and makes no blob URL. */
  lemma {:induction false} FixedPass(m: seq<Element>, handle: Handler, n: nat)
    requires TokenFree(handle)
    requires forall j :: 0 <= j < |m| ==> Fixed(m[j], handle)
    ensures ProcessAll(m, handle, n) == (m, [])
    decreases |m|
  {
    if m != [] {
      var init := m[..|m| - 1];
      var e := m[|m| - 1];
      assert forall j :: 0 <= j < |init| ==> init[j] == m[j];
      FixedPass(init, handle, n);
      assert ProcessAll(init, handle, n) == (init, []);
      ProcessAllLast(m, handle, n);
      FixedPassed(e, handle, BlobUrl(n + 0));
      assert init + [e] == m;
    }
  }

  /**
   * For a handler that uses the blob URL only when it makes one and leaves what it
   * handled with one settling, a second whole pass makes no blob URL and changes at
   * most `data-file-name`, and a third changes nothing.
   */
  lemma PassesSettle(media: seq<Element>, handle: Handler, n1: nat, n2: nat, n3: nat)
    requires TokenFree(handle) && SettlesAfterBlob(handle)
    ensures var m1 := ProcessAll(media, handle, n1).0;
      var p2 := ProcessAll(m1, handle, n2);
      p2.1 == [] && |p2.0| == |m1| &&
      (forall j :: 0 <= j < |m1| ==> p2.0[j].tag == m1[j].tag && SameButFileName(p2.0[j].attrs, m1[j].attrs)) &&
      ProcessAll(p2.0, handle, n3) == (p2.0, [])
  {
    var m1 := ProcessAll(media, handle, n1).0;
    FirstPassSettles(media, handle, n1);
    assert forall j :: 0 <= j < |ProcessAll(media, handle, n1).0| ==> Settling(ProcessAll(media, handle, n1).0[j], handle);
    SettledPass(m1, handle, n2);
    var p2 := ProcessAll(m1, handle, n2);
    FixedPass(p2.0, handle, n3);
  }

  /**
   * A second whole `processMediaInDOM` pass makes no blob URL and changes at most
   * `data-file-name`; a third changes nothing.
   */
  lemma SecondWholePass(media: seq<Element>, currentPath: string, root: Entry, urlName: string -> string,
                        n1: nat, n2: nat, n3: nat)
    ensures var handle := HandlerIn(currentPath, root, urlName);
      var m1 := ProcessAll(media, handle, n1).0;
      var p2 := ProcessAll(m1, handle, n2);
      p2.1 == [] && |p2.0| == |m1| &&
      (forall j :: 0 <= j < |m1| ==> p2.0[j].tag == m1[j].tag && SameButFileName(p2.0[j].attrs, m1[j].attrs)) &&
      ProcessAll(p2.0, handle, n3) == (p2.0, [])
  {
    HandlerTokenFree(currentPath, root, urlName);
    HandlerSettles(currentPath, root, urlName);
    PassesSettle(media, HandlerIn(currentPath, root, urlName), n1, n2, n3);
  }

  /**
   * The `renderHTML` deferral for one element: a relative `src` moves to `data-src`,
   * recorded as `data-original-src` unless that attribute exists; a missing, empty or
   * external `src` is left alone.
   */
  function DeferSrc(a: Attrs): Attrs
  {
    var src := AttrOr(a, SrcAttr);
    if src == "" || IsExternal(src) then a
    else
      var b := if OriginalSrcAttr in a then a else a[OriginalSrcAttr := src];
      b[DataSrcAttr := src] - {SrcAttr}
  }

  /** Deferral on the elements `renderHTML` selects (`img,video,source`). */
  function Deferred(e: Element): Element
  {
    if InImgVideoSource(e.tag) then Element(e.tag, DeferSrc(e.attrs)) else e
  }

  /** The deferral loop over the parsed elements, in place. */
  method DeferMediaSources(els: array<Element>)
    modifies els
    ensures forall j :: 0 <= j < els.Length ==> els[j] == Deferred(old(els[j]))
  {
    var i := 0;
    while i < els.Length
      invariant 0 <= i <= els.Length
      invariant forall j :: 0 <= j < i ==> els[j] == Deferred(old(els[j]))
      invariant forall j :: i <= j < els.Length ==> els[j] == old(els[j])
    {
      var el := els[i];
      if InImgVideoSource(el.tag) {
        var a := el.attrs;
        var src := AttrOr(a, SrcAttr);
        if src != "" && !IsExternal(src) {
          if OriginalSrcAttr !in a {
            a := a[OriginalSrcAttr := src];
          }
          a := a[DataSrcAttr := src];
          a := a - {SrcAttr};
          els[i] := Element(el.tag, a);
        }
      }
      i := i + 1;
    }
  }

  /**
   * Deferral never changes what the media pass reads as the reference, leaves external
   * URLs alone, and a deferred element is not deferred again.
   */
  lemma DeferKeepsSource(a: Attrs)
    ensures SourceOf(DeferSrc(a)) == SourceOf(a)
    ensures IsExternal(AttrOr(a, SrcAttr)) ==> DeferSrc(a) == a
    ensures DeferSrc(DeferSrc(a)) == DeferSrc(a)
  {
  }

  /**
   * In `renderHTML`, a relative reference is recorded by the deferral, so the media pass
   * that follows keeps that record and does not add `data-resolved-path`.
   */
  lemma DeferThenHandle(a: Attrs, currentPath: string, root: Entry, urlName: string -> string, token: string)
    requires AttrOr(a, SrcAttr) != "" && !IsExternal(AttrOr(a, SrcAttr))
    requires OriginalSrcAttr !in a
    ensures var h := Handle(DeferSrc(a), currentPath, root, urlName, token);
      h.attrs[OriginalSrcAttr] == AttrOr(a, SrcAttr) &&
      (ResolvedPathAttr in h.attrs <==> ResolvedPathAttr in a)
  {
    var d := DeferSrc(a);
    AttrNamesDiffer();
    assert d[OriginalSrcAttr] == AttrOr(a, SrcAttr);
    assert (ResolvedPathAttr in d <==> ResolvedPathAttr in a);
    RecordKept(d, currentPath, root, urlName, token);
    KeptOutside(Handle(d, currentPath, root, urlName, token).attrs, d);
  }

  /** Two maps that agree outside `src` and `data-file-name` agree on the recorded reference and on `data-resolved-path`. */
  lemma KeptOutside(h: Attrs, d: Attrs)
    requires h - {SrcAttr, FileNameAttr} == d - {SrcAttr, FileNameAttr}
    ensures (OriginalSrcAttr in h <==> OriginalSrcAttr in d)
    ensures OriginalSrcAttr in d ==> h[OriginalSrcAttr] == d[OriginalSrcAttr]
    ensures (ResolvedPathAttr in h <==> ResolvedPathAttr in d)
  {
    AttrNamesDiffer();
    if OriginalSrcAttr in d {
      assert (d - {SrcAttr, FileNameAttr})[OriginalSrcAttr] == d[OriginalSrcAttr];
    }
    if OriginalSrcAttr in h {
      assert OriginalSrcAttr in h - {SrcAttr, FileNameAttr};
    }
    if ResolvedPathAttr in h {
      assert ResolvedPathAttr in h - {SrcAttr, FileNameAttr};
    }
    if ResolvedPathAttr in d {
      assert ResolvedPathAttr in d - {SrcAttr, FileNameAttr};
    }
  }
}
