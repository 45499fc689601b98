# OpenNotes core, modelled in Dafny

OpenNotes is a browser viewer and editor for a folder of notes. The user picks a
folder. The viewer builds an in-memory tree of it and lists each folder's
sub-folders and openable documents. It renders Markdown (with `$$…$$` display math
shielded from the Markdown renderer) and HTML. Images, video and audio referenced
by relative paths are resolved against the folder tree and shown through blob URLs.
An editing session puts a ToastUI (Markdown) or SunEditor (HTML) widget over the
viewer. Before an HTML document is saved, its media references are mapped back from
blob URLs to the paths the author wrote, and the save goes through the file node.

The project models these parts:

- `filetypes.dfy` (`FileTypes`): extensions, the `SUPPORTED` table, the embed-only
  audio extensions and the dispatch of `openFile`.
- `blockmath.dfy` (`BlockMath`): `shieldBlockMath` and `unshieldBlockMath`, as
  methods proved equal to functions, with the shape of the shielded text and the
  round trip proved.
- `vfs.dfy` (`Vfs`): the folder tree built by `buildVFSFromFileList` and the walk of
  `findFileInVFS`.
- `mediarefs.dfy` (`MediaRefs`):
  - The path resolution and tagging of `handleElement` and the whole pass of
    `processMediaInDOM`, over an array of media elements.
  - The pass is defined for any per-element handler. The lemmas about repeated
    passes need two properties of the handler, and both are proved of
    `handleElement`.
  - Blob URLs as a registry object that hands out a new URL per call.
  - The `src` to `data-src` deferral in `renderHTML`.
- `listing.dfy` (`TreeListing`): the folder listing of `populateDir`.
- `editormedia.dfy` (`EditorMedia`): `_prepareHTMLContentForEditor` and
  `_normalizeHTMLMedia`.
- `editor.dfy` (`Editor`): the `EditorModule` class.
  - Its fields are mirrored by a `Session` value.
  - Each method is stated as a transition function on that value.
  - The transitions' properties (single session, clean-up, debounce slot, library
    flags, save outcomes) are proved as lemmas.
- Supporting modules:
  - `wrappers.dfy`: `Option`, `Result`, `Outcome`.
  - `jstext.dfy`: the JavaScript string built-ins the code relies on (`indexOf`,
    `split`, `join`, `split(t).join(r)`, decimal formatting, `toLowerCase`, `trim`).
  - `markup.dfy`: documents as markup plus media elements with attribute maps.

## Model

| member | source | states |
|---|---|---|
| FileTypes.Extname | app.js:47-50 | without a dot the extension is ""; otherwise it is the lower-cased text after a dot that no later dot follows |
| FileTypes.ExtnameShape | app.js:47-50 | an extension never contains a dot or an ASCII capital |
| FileTypes.ExtnameOfJoined | app.js:47-50 | the extension of `stem.ext` is `ext` lower-cased, whatever the stem contains |
| FileTypes.SupportedPropertyAsWritten | app.js:24-30 | reading `SUPPORTED[key]` gives an own entry exactly for the five table keys, and `undefined` exactly when the key is neither a table key nor an inherited property name |
| FileTypes.SupportedExtensions | app.js:52-54 | a name is supported exactly when its lower-cased extension is md, markdown, html, htm or pdf |
| FileTypes.NoDotNotSupported | app.js:47-54 | a name without a dot is never supported, under either reading of the table |
| FileTypes.AudioNeverSupported | app.js:24-32 | mp3, wav, ogg, m4a and flac files are never supported, under either reading of the table |
| FileTypes.AudioExtsAreNoKeys | app.js:24-32 | no embed-only audio extension is an own or an inherited key of `SUPPORTED` |
| FileTypes.AsWrittenDiffersOnlyOnInherited | app.js:52-54 | the check as written and the intended check disagree exactly on the extensions "constructor" and "__proto__" |
| FileTypes.InheritedKeyCounterexample | app.js:52-54 | `x.constructor` passes the check as written but is not a supported document, and opening it shows the unsupported notice |
| FileTypes.OpenRendersExactlySupported | app.js:393-410 | `openFile` renders exactly the supported files, each with the renderer for its kind |
| FileTypes.OpenAudioNotice | app.js:393-410 | `openFile` shows the audio notice exactly for the embed-only audio extensions |
| BlockMath.ShieldBlockMath | app.js:57-83 | the scanning loop returns the text and block list of the shielding function |
| BlockMath.UnshieldBlockMath | app.js:85-93 | the replacement loop returns the unshielding function's text |
| BlockMath.ShieldStructure | app.js:57-83 | the input is gaps separated by `$$`-delimited blocks; the output is the same gaps with tokens numbered in order where the blocks were; no earlier gap and no block contains `$$`; the final gap (an unclosed `$$` and the rest) contains no closed block |
| BlockMath.BlockStructure | app.js:62-80 | a closed block found from `i` splits the rest into gap, `$$`, block, `$$`, rest; neither gap nor block contains `$$`; shielding emits gap, token, shielded rest |
| BlockMath.ShieldFromUnclosed | app.js:71-75 | after an unclosed `$$` the rest of the text is copied unchanged and no block is added |
| BlockMath.ShieldRoundTrip | app.js:57-93 | for Markdown without `[[[MATHBLOCK_`, unshielding the shielded text with its blocks gives back the Markdown |
| BlockMath.UnshieldWithoutTokens | app.js:85-93 | text without a token head is unchanged by unshielding, whatever the blocks |
| Vfs.Segments | app.js:317 | the segments of a relative path are non-empty and contain no `/` |
| Vfs.LookupSegments | app.js:620 | the segments a lookup follows are non-empty, not `.`, and contain no `/` |
| Vfs.Place | app.js:320-332 | placing one file keeps the directory's name and path |
| Vfs.PlaceFinds | app.js:320-332 | after a placement the file node is found at its segments |
| Vfs.PlaceFrame | app.js:320-332 | a placement changes no path that is neither above nor below the file's segments |
| Vfs.PlaceBeyond | app.js:323-324 | a file set over an existing entry replaces it: nothing is found below the file afterwards |
| Vfs.PlaceOnTheWay | app.js:326-330 | every directory on the way exists afterwards, and one that existed is reused with its name and path |
| Vfs.PlaceCreates | app.js:326-329 | a missing directory on the way is created, named after its segment, recording the `/`-join of the segments down to it |
| Vfs.PlaceFails | app.js:320-331 | placing fails exactly when a prefix strictly above the file already leads to a file |
| Vfs.PlaceWf | app.js:320-332 | placing a node named after its last segment and recording its joined segments keeps every path equal to the join of its segments |
| Vfs.BuildFrom | app.js:316-333 | the build keeps the root's name and path |
| Vfs.BuildWf | app.js:314-334 | every node the build creates records the `/`-join of the segments down to it and is named after its last segment |
| Vfs.BuildFinds | app.js:314-334 | a built file is found at its segments unless a later file's segments are equal to, above or below its own |
| Vfs.LastWriteWins | app.js:323-324 | of two files with the same relative path, the later one is found and the earlier one is not |
| Vfs.PlaceFilesAmong | app.js:320-332 | a placement adds no file but its own |
| Vfs.BuildSucceeds | app.js:314-334 | the build succeeds when no file's segments are a strict prefix of a later file's, and every file in the tree is one of the placed files |
| Vfs.FileNode.constructor | app.js:324 | a file node carries the name, path, handle and file it is created with |
| Vfs.PlaceFile | app.js:320-325 | a fresh node without handle, holding the file, named after the last segment and recording the joined segments, is placed from the root |
| Vfs.AddFile | app.js:316-332 | one pass of the outer loop places a file with segments and skips one without |
| Vfs.BuildVfsFromFileList | app.js:314-334 | the nodes made are fresh, hold their files and have no handle; success gives the tree of all files with segments; failure stops at the first file whose path walks through a file |
| Vfs.FindFileInVfs | app.js:613-635 | without a tree, null; otherwise the entry reached by the non-empty, non-`.` segments, giving up at a missing segment or a file |
| Vfs.KeepWithoutDots | app.js:620 | dropping `.` segments changes nothing when there are none |
| Vfs.KeepNothing | app.js:620 | a path of empty and `.` segments only has no segment to follow |
| Vfs.FindRootPath | app.js:613-635 | the lookup of a path with no segment other than empty ones and `.` returns the root |
| Vfs.FindAfterBuild | app.js:613-635 | after a build, looking up a file's relative path returns that file's node, unless a later file's path is equal to, above or below it |
| MediaRefs.WalkSegments | app.js:545-551 | the `../` loop computes the walk: `..` pops, `.` and "" are skipped, every other segment is pushed |
| MediaRefs.ResolveMediaPath | app.js:543-559 | the resolution step computes the resolved tree path of the reference |
| MediaRefs.WalkAbsorbsPops | app.js:548-550 | `n` leading `..` drop `n` folders, or all of them when there are fewer |
| MediaRefs.WalkShape | app.js:545-551 | the walk never rises above the root: it keeps a prefix of the starting folder and adds only segments that are not "", `.` or `..` |
| MediaRefs.WalkWithoutUps | app.js:548-551 | without `..` the walk appends the segments other than "" and `.` |
| MediaRefs.DirOfJoined | app.js:546 | the folder of the document at `dir/name` is `dir` |
| MediaRefs.ResolveRelative | app.js:552-554 | a plain relative reference is appended to the document's folder (`img/pic.png` in `notes/today.md` is `notes/img/pic.png`) |
| MediaRefs.ResolveUp | app.js:544-551 | a `../` reference walks its remaining segments from the folder above the document's |
| MediaRefs.ResolveRootRelative | app.js:555-558 | a leading `/` is stripped exactly once, which changes nothing the lookup follows |
| MediaRefs.ExternalNeverResolved | app.js:536-542 | an `http:`, `https:`, `data:` or `blob:` reference makes no blob URL and changes at most `data-file-name`, which it never overwrites |
| MediaRefs.UnresolvedUnchanged | app.js:530-584 | a missing reference, or one that does not lead to a file, leaves the element unchanged |
| MediaRefs.RecordKept | app.js:562-574 | an element that already carries `data-original-src` changes at most in `src` and `data-file-name` |
| MediaRefs.ResolvedFrame | app.js:562-574 | resolving a reference not yet recorded changes only `src`, `data-original-src`, `data-resolved-path` and `data-file-name` |
| MediaRefs.ResolvedTagsOnce | app.js:562-575 | a reference leading to a file gets a blob URL for that file as `src`; `data-original-src` and `data-resolved-path` are written exactly when `data-original-src` was not set, and an existing record is kept |
| MediaRefs.SecondPassSettles | app.js:536-575 | after a pass that made a blob URL, a second pass makes none and changes at most `data-file-name`, and a third changes nothing |
| MediaRefs.BlobUrl | app.js:573 | every URL handed out is a `blob:` URL |
| MediaRefs.BlobUrlsDistinct | app.js:573 | URLs handed out by different calls differ |
| MediaRefs.BlobUrls.CreateObjectUrl | app.js:573 | each call hands out the next URL and records the node it is for |
| MediaRefs.HandleElement | app.js:529-585 | handling element `i` in place changes only that element, to the handled attributes, and records the blob URL it made |
| MediaRefs.ProcessAll | app.js:588-597 | the pass yields one element per element |
| MediaRefs.VisitElement | app.js:588-596 | a visited element is handled with the next blob URL and any other element is left alone; nothing else changes |
| MediaRefs.PassElement | app.js:588-597 | one turn of the pass extends the processed prefix by one element and records that element's blob URL |
| MediaRefs.PassStep | app.js:588-597 | for any handler, replacing element `i` of a processed prefix by its handled form extends the processed prefix by one |
| MediaRefs.PassStepIssued | app.js:588-597 | for any handler, the nodes made for element `i` follow the nodes made before it |
| MediaRefs.ProcessMediaInDom | app.js:524-598 | without a tree nothing changes; otherwise the elements become the pass's elements and the registry records exactly the pass's blob URLs |
| MediaRefs.TokenIrrelevant | app.js:562-575 | the URL that would be handed out matters only when one is made |
| MediaRefs.HandlerTokenFree | app.js:529-585 | `handleElement` uses the URL it would hand out only when it makes one |
| MediaRefs.HandlerSettles | app.js:529-585 | an element `handleElement` gave a blob URL is handled again without a new URL, changes at most in `data-file-name`, and is then left as it is |
| MediaRefs.FirstPassSettles | app.js:524-597 | with such a handler, every element a whole pass leaves behind will not make a blob URL again |
| MediaRefs.SettledPass | app.js:524-597 | with a handler that uses the URL only when it makes one, a pass over such elements makes no blob URL and changes at most `data-file-name` |
| MediaRefs.FixedPassed | app.js:529-585 | an element the handler leaves as it is is passed unchanged and gets no blob URL, whatever URL would come next |
| MediaRefs.FixedPass | app.js:524-597 | a pass over elements it leaves as they are changes nothing and makes no blob URL |
| MediaRefs.PassesSettle | app.js:524-597 | for any handler with both properties, a second whole pass makes no blob URL and changes at most `data-file-name`; a third changes nothing |
| MediaRefs.SecondWholePass | app.js:524-597 | a second whole `processMediaInDOM` pass makes no blob URL and changes at most `data-file-name`; a third changes nothing |
| MediaRefs.DeferMediaSources | app.js:743-751 | the deferral loop replaces every element by its deferred form |
| MediaRefs.DeferKeepsSource | app.js:743-751 | deferral keeps the reference the media pass reads, leaves external URLs alone, and is idempotent |
| MediaRefs.DeferThenHandle | app.js:743-758 | after deferral, the media pass keeps the recorded original reference and adds no `data-resolved-path` |
| TreeListing.BelowIrreflexive | app.js:179-180 | no name sorts below itself |
| TreeListing.BelowTransitive | app.js:179-180 | the name order is transitive |
| TreeListing.BelowTotal | app.js:179-180 | any two different names are ordered |
| TreeListing.Insert | app.js:179-180 | inserting keeps every name and adds the new one |
| TreeListing.InsertSorted | app.js:179-180 | inserting a new name into a sorted list keeps it sorted |
| TreeListing.SortNames | app.js:179-180 | sorting gives a sorted permutation of the names |
| TreeListing.SortedUnique | app.js:179-180 | two sorted lists with the same names are equal |
| TreeListing.SortedSameNames | app.js:179-180 | sorting keeps exactly the names it was given |
| TreeListing.Items | app.js:182-189 | one tree item per name, in order, labelled with the name, the child path and the child node |
| TreeListing.CollectChildren | app.js:175-178 | every folder child and every file child the given file check accepts is collected once; the other files are dropped |
| TreeListing.AppendItems | app.js:182-189 | the appending loops add one tree item per name, in order |
| TreeListing.PopulateDir | app.js:169-198 | folders are listed before files, each group sorted, and exactly the files the given file check accepts are listed; the "(empty)" placeholder appears, alone, exactly when both groups are empty |
| TreeListing.ListedAsWritten | app.js:175-178 | with `isSupportedFile` as written, a file child `stem.constructor` is listed although the intended check drops it; for every extension other than "constructor" and "__proto__" both checks list the same files |
| TreeListing.ListingOrderFree | app.js:175-180 | the listing does not depend on the order the children are visited in |
| TreeListing.ListedPathIsNodePath | app.js:183-187 | in a built tree, the path the listing gives a child is the path recorded in the child's node |
| EditorMedia.NormalizeShape | editor.js:263-284 | normalisation removes `data-resolved-path` and a used `data-original-src`; a non-empty target goes to `data-src` and removes `src`; with an empty target `src` is kept |
| EditorMedia.NormalizeElement | editor.js:263-284 | the loop body computes the normalised element |
| EditorMedia.NormalizeHtmlMedia | editor.js:258-288 | every element is replaced by its normalised form, in place |
| EditorMedia.NormalizeDoc | editor.js:258-288 | the markup is kept and each media element is normalised |
| EditorMedia.NormalizeIdempotent | editor.js:263-284 | normalising twice is the same as normalising once |
| EditorMedia.NormalizeUndoesResolution | editor.js:263-284 | a reference resolved by the media pass is saved in `data-src` as written; the viewer's attributes are gone and every other attribute is kept |
| EditorMedia.NormalizeRecorded | editor.js:263-284 | attributes that record a non-empty original reference are saved with it in `data-src`, without `src` and the record |
| EditorMedia.NormalizeMovesPlainSource | editor.js:274-281 | a plain reference the viewer left as written moves from `src` to `data-src`, and nothing else changes |
| EditorMedia.PrepareHtmlForEditor | editor.js:159-170 | the editor receives the document after the media pass, and the registry records exactly that pass's blob URLs, none without a tree |
| Editor.EmptySaveShowsBackupAsWritten | editor.js:342-354 | as written, saving an empty document shows the pre-edit content instead of the empty document |
| Editor.RestoredViewShowsSaved | editor.js:342-354 | the viewer shows exactly the saved content, the snapshot only for `null`, and agrees with the code as written except for empty text |
| Editor.CleanupIdle | editor.js:359-374 | clean-up leaves an idle session with nothing pending; cleaning up twice, or from idle, changes nothing |
| Editor.ScheduleReplaces | editor.js:250-253 | a new refresh request cancels the pending one: exactly the new timer is pending |
| Editor.FireAfterCleanup | editor.js:233-253 | a firing keeps the invariant, and nothing is refreshed once the session is cleaned up |
| Editor.OpenedSession | editor.js:118-153 | a successful start edits exactly the requested node, path and type with one widget, and remembers what the viewer showed |
| Editor.StartFailedIdle | editor.js:137-152 | a failed start leaves an idle session showing what the viewer showed before |
| Editor.CancelAfterOpen | editor.js:356-357 | cancelling a started session goes back to the pre-edit view with nothing pending |
| Editor.FinishOutcomes | editor.js:290-308 | a successful finish leaves an idle session showing the saved text; a failed one shows the snapshot and keeps the session |
| Editor.FlagsNeverReset | editor.js:101-113 | no transition resets a library-loaded flag |
| Editor.EditorModule.constructor | editor.js:3-15 | a new module is idle with both library flags false |
| Editor.EditorModule.CleanupEditor | editor.js:359-374 | the pending timer is cleared, the widget unsubscribed and destroyed, and every session field reset |
| Editor.EditorModule.ScheduleMediaRefresh | editor.js:250-253 | the pending refresh is replaced by a new timer |
| Editor.EditorModule.FireRefresh | editor.js:233-234 | a timer fires and the refresh runs only for a pending timer while a path is set |
| Editor.EditorModule.EditContent | editor.js:224-226 | an edit keeps the widget and schedules a refresh |
| Editor.EditorModule.RestoreViewer | editor.js:342-354 | the viewer shows the rendered content, or the snapshot for `null`; this is the corrected reading of the empty-text check (see Findings) |
| Editor.EditorModule.CancelEditing | editor.js:356-357 | clean-up, then the snapshot is shown |
| Editor.EditorModule.BeginSession | editor.js:121-130 | the session fields take the arguments, and the viewer's content is kept as the snapshot |
| Editor.EditorModule.EnterSession | editor.js:118-130 | a running session is cleaned up, and its widget destroyed, before the fields are set |
| Editor.EditorModule.OpenToast | editor.js:203-228 | the ToastUI widget holds the content and is listened to, and a refresh is scheduled |
| Editor.EditorModule.OpenSun | editor.js:140-143 | the SunEditor widget holds the document after the media pass, and the blob registry is extended by exactly that pass's URLs |
| Editor.EditorModule.AbandonStart | editor.js:140-152 | a start that fails is cancelled, leaving an idle session |
| Editor.EditorModule.StartEditing | editor.js:118-153 | the start succeeds exactly when the type's library is there or loads; the old widget is destroyed; on success the new session holds one fresh widget with the content; on failure the session is idle; the blob registry grows only by the media pass of a successful HTML start |
| Editor.EditorModule.Save | editor.js:310-328 | the save fails without a node or file, then without a handle or save picker, then when the write fails; on success the node's file holds the content under its old name |
| Editor.EditorModule.FinishEditing | editor.js:290-308 | nothing happens outside a session; otherwise the widget's text (HTML normalised) is saved, shown (under the corrected empty-text check) and the session cleaned up with its widget destroyed, or on failure the snapshot is shown, the session kept and the node's file left as it was |

## Left out

- MediaRefs.ProcessMediaInDom: visits the media elements in document order. The
  source queries `img`, `video`, `video source`, `audio` and `audio source` one
  after the other. The order changes only which blob URL each element receives.
- MediaRefs.Handle: `new URL(src).pathname.split('/').pop()` is the parameter
  `urlName`, with "" for a URL that does not parse.
- MediaRefs.HandleElement: `URL.createObjectURL` always succeeds, so its `catch`
  is not modelled. The `load()` call on a parent video is not modelled either.
- Vfs.BuildVfsFromFileList: directories are values rebuilt along the path. The
  source updates each directory's `Map` in place. No other reference to these maps
  exists during the build, so only the in-place update itself is lost.
- `buildVFSFromDirectoryHandle`, the folder pickers and the `loadDirectory…`
  functions are not modelled. They wrap the host's file-system APIs.
- FileTypes.OpenAction: covers only the dispatch on the extension. Re-reading the
  file from its handle, reading its text and rendering it are not modelled.
- TreeListing.Below: `localeCompare` is taken as code-point order.
- JsText.ToLowerCase: lower-cases ASCII capitals and the Kelvin sign only. Other
  characters keep their case, which changes no comparison with the ASCII names the
  code compares against.
- Rendering is an opaque view of the document that was rendered. This covers
  markdown-it, KaTeX, DOMPurify and the HTML parse and serialisation, which are
  the identity on `Doc`.
- Markdown documents carry their media in the same `Doc` form as HTML.
- DOM construction, the tree items and their lazy loading, icons, the buttons,
  the title, `_toast` messages and `alert` are not modelled. They are user
  interface only.
- Editor.EditorModule.StartEditing: each call is one atomic step. The source
  awaits the library loading (editor.js:138,141) and the widget's creation. In that
  time `openFile` can call `cleanupEditor` (app.js:376-379). `_initToast` or
  `_initSun` then sets `currentEditor` while `isEditing` is false. The next
  `startEditing` then skips its clean-up and replaces a widget that is still alive
  and listened to. The invariant that a session edits exactly when it has a widget,
  and the destruction of the old widget, hold only under this atomicity.
- Editor.EditorModule.FinishEditing: each call is one atomic step. The source
  awaits `_save` (editor.js:300). A `cleanupEditor` run by `openFile` in that time
  clears `currentNode`. After a successful write, `_save` then reads the null node
  (editor.js:325), and the save is reported as failed. This interleaving is not
  modelled.
- Editor.EditorModule.FinishEditing: the viewer follows the corrected empty-text
  check of `restoreViewer` (see Findings). As written, saving an empty text shows
  the pre-edit snapshot (Editor.RestoredViewAsWritten).
- Editor.EditorModule.RestoreViewer: follows the corrected reading, where only
  `null` brings back the snapshot. As written, an empty text does too.
- TreeListing.PopulateDir: takes the file check as a parameter. The whole model uses
  the intended check, `FileTypes.IsSupportedFile`. The check as written,
  `FileTypes.IsSupportedFileAsWritten`, also lists `x.constructor` and
  `x.__proto__` files (TreeListing.ListedAsWritten).
- Editor.EditorModule.StartEditing: the `viewer not found` exception is left out.
  It is thrown before the `try`, and the model assumes the viewer element exists.
- Editor.EditorModule.RestoreViewer: the early return without a viewer element is
  left out for the same reason.
- Editor.Env: whether each widget library loads is one flag per library. This flag
  covers both the script loading and the widget's constructor.
- Editor.Env: whether a save picker exists and whether the write succeeds are two
  more flags.
- Editor.EditorModule.Save: the save picker's target file and the new `File`'s
  MIME type are not modelled.
- Editor.EditorModule.OpenSun: the 400 ms refresh that `_initSun` starts outside
  the debounce slot (editor.js:197) is not tracked.
- Editor.EditorModule.FireRefresh: `_refreshMedia` is reduced to whether it runs.
  The scan of the widget's preview panes is not modelled.
- Timer ids are a counter, and time is not modelled.
- `forceReset` is `cleanupEditor` and has no member of its own.
- `processImagesInContent` and `resolveImagePath` are kept in the source only for
  compatibility and do nothing, so they are left out.

## Findings

| source | as written | input that shows it | evidently intended | confidence | as-written member | corrected member |
|---|---|---|---|---|---|---|
| app.js:52-54 | `SUPPORTED[extname(name)] !== undefined` also reads properties inherited from `Object.prototype` | a file named `notes.constructor`: it is listed in the tree, and opening it shows "Unsupported file selected" | only the five table keys count as supported | high, not executed | FileTypes.IsSupportedFileAsWritten, FileTypes.InheritedKeyCounterexample, TreeListing.ListedAsWritten | FileTypes.IsSupportedFile, FileTypes.SupportedExtensions |
| editor.js:346-352 | `if (newContent)` treats the empty string like `null` | saving an empty Markdown document: the viewer shows the pre-edit content again, although the file now holds "" | only `null` brings back the snapshot; saved text, even empty, is rendered | high, not executed | Editor.RestoredViewAsWritten, Editor.EmptySaveShowsBackupAsWritten | Editor.RestoredView, Editor.RestoredViewShowsSaved |
