/**
 * The editing session (editor.js `EditorModule`): one editor widget at a time over the
 * viewer, a single pending media refresh, saving through the file node, and going back
 * to the viewer. The fields the class updates are mirrored by a `Session` value so that
 * each method is stated as a transition on that value and the transitions' properties
 * are proved as lemmas.
 */
module Editor {
  import opened Wrappers
  import opened Markup
  import opened Vfs
  import opened MediaRefs
  import opened EditorMedia

  /** What the viewer element shows. */
  datatype View =
    | Page(html: string)
    | EditorShell
    | Rendered(fileType: string, content: Doc)
    | TextView(content: Doc)

  /** The viewer after `renderMarkdown`, `renderHTML`, or `textContent` for any other type. */
  function Rendering(fileType: string, content: Doc): View
  {
    if fileType == "markdown" || fileType == "html" then Rendered(fileType, content) else TextView(content)
  }

  /** The document a view shows, if it shows one. */
  function Shown(v: View): Option<Doc>
  {
    match v
      case Rendered(_, c) => Some(c)
      case TextView(c) => Some(c)
      case _ => None
  }

  /** `!newContent` for a document's text: the empty string. */
  predicate IsEmptyText(d: Doc)
  {
    d.markup == [] && d.media == []
  }

  /**
   * `restoreViewer(newContent)` as written: any falsy content, the empty text included,
   * brings back the pre-edit snapshot.
   */
  function RestoredViewAsWritten(fileType: string, newContent: Option<Doc>, backup: View): View
  {
    if newContent.Some? && !IsEmptyText(newContent.value) then Rendering(fileType, newContent.value) else backup
  }

  /** `restoreViewer(newContent)`: the saved text is rendered, and only `null` brings back the pre-edit snapshot. */
  function RestoredView(fileType: string, newContent: Option<Doc>, backup: View): View
  {
    if newContent.Some? then Rendering(fileType, newContent.value) else backup
  }

  /** After saving an empty document, the viewer as written shows the old content instead of what was saved. */
  lemma EmptySaveShowsBackupAsWritten()
    ensures var saved := Doc("", []);
      var backup := Rendered("markdown", Doc("# Notes", []));
      Shown(RestoredViewAsWritten("markdown", Some(saved), backup)) == Some(Doc("# Notes", [])) &&
      Shown(RestoredViewAsWritten("markdown", Some(saved), backup)) != Some(saved)
  {
    assert Doc("# Notes", []) != Doc("", []) by {
      assert |"# Notes"| != |""|;
    }
  }

  /**
   * The viewer shows exactly what was saved, and the snapshot comes back only when no
   * content is given; the two readings differ only on the empty text.
   */
  lemma RestoredViewShowsSaved(fileType: string, c: Doc, backup: View)
    ensures Shown(RestoredView(fileType, Some(c), backup)) == Some(c)
    ensures RestoredView(fileType, None, backup) == backup
    ensures !IsEmptyText(c) ==> RestoredViewAsWritten(fileType, Some(c), backup) == RestoredView(fileType, Some(c), backup)
  {
  }

  /** An editor widget (ToastUI or SunEditor): its content, whether it is alive, and whether the session listens to it. */
  class Widget {
    const kind: string
    var content: Doc
    var live: bool
    var subscribed: bool

    constructor (kind: string, content: Doc)
      ensures this.kind == kind && this.content == content && live && !subscribed
    {
      this.kind := kind;
      this.content := content;
      live := true;
      subscribed := false;
    }

    /** `on('change', handler)`. */
    method Subscribe()
      modifies this
      ensures subscribed && live == old(live) && content == old(content)
    {
      subscribed := true;
    }

    /** `off('change', handler)`. */
    method Unsubscribe()
      modifies this
      ensures !subscribed && live == old(live) && content == old(content)
    {
      subscribed := false;
    }

    /** `destroy()`. */
    method Destroy()
      modifies this
      ensures !live && subscribed == old(subscribed) && content == old(content)
    {
      live := false;
    }

    /** The user edits the document in the widget. */
    method SetContent(c: Doc)
      modifies this
      ensures content == c && live == old(live) && subscribed == old(subscribed)
    {
      content := c;
    }
  }

  /**
   * The session fields of `EditorModule`, the viewer it draws over, the library flags,
   * the debounce slot, and the host's refresh timers that are still pending.
   */
  datatype Session = Session(
    isEditing: bool,
    editor: Option<Widget>,
    node: Option<FileNode>,
    path: string,
    fileType: string,
    backup: View,
    view: View,
    toastLoaded: bool,
    sunLoaded: bool,
    timer: Option<nat>,
    pending: set<nat>,
    nextTimer: nat,
    listening: bool)

  function TimerSet(t: Option<nat>): set<nat>
  {
    if t.Some? then {t.value} else {}
  }

  /** The pending refreshes are at most the one the debounce slot names, and timer ids are issued in order. */
  predicate TimersInv(s: Session)
  {
    s.pending <= TimerSet(s.timer) && (s.timer.Some? ==> s.timer.value < s.nextTimer)
  }

  /**
   * A session is editing exactly when it has a widget, of one of the two editable types;
   * an idle session has no node, path, type, pending refresh or change listener.
   */
  predicate Inv(s: Session)
  {
    TimersInv(s) &&
    (s.isEditing <==> s.editor.Some?) &&
    (s.editor.Some? ==> s.fileType == "markdown" || s.fileType == "html") &&
    (!s.isEditing ==> s.node.None? && s.path == "" && s.fileType == "" && s.timer.None? && !s.listening)
  }

  /** `cleanupEditor()`: clear the pending refresh and drop the widget and every session field. */
  function Cleanup(s: Session): Session
  {
    s.(isEditing := false, editor := None, node := None, path := "", fileType := "",
       timer := None, pending := s.pending - TimerSet(s.timer), listening := false)
  }

  /** `_scheduleMediaRefresh()`: cancel the pending refresh and start a new timer in the slot. */
  function Schedule(s: Session): Session
  {
    s.(timer := Some(s.nextTimer), pending := (s.pending - TimerSet(s.timer)) + {s.nextTimer}, nextTimer := s.nextTimer + 1)
  }

  /** Timer `id` fires and leaves the pending set. */
  function Fire(s: Session, id: nat): Session
  {
    s.(pending := s.pending - {id})
  }

  /** The firing runs `_refreshMedia` on the panes: only a pending timer, and only while a path is set. */
  predicate Refreshes(s: Session, id: nat)
  {
    id in s.pending && s.path != ""
  }

  /** The start of `startEditing`: clean up a running session, set the fields, keep the viewer's content and show the shell. */
  function Begin(s: Session, node: Option<FileNode>, path: string, fileType: string): Session
  {
    var t := if s.isEditing then Cleanup(s) else s;
    t.(isEditing := true, node := node, path := path, fileType := fileType, backup := t.view, view := EditorShell)
  }

  /** `cancelEditing()`: clean up, then bring back the pre-edit snapshot. */
  function Cancel(s: Session): Session
  {
    Cleanup(s).(view := s.backup)
  }

  /** The library of the type is loaded already or loads now. */
  predicate Loads(s: Session, fileType: string, toastLoads: bool, sunLoads: bool)
  {
    (fileType == "markdown" && (s.toastLoaded || toastLoads)) || (fileType == "html" && (s.sunLoaded || sunLoads))
  }

  /** A successful `startEditing`: ToastUI listens for changes and schedules a refresh; SunEditor is created as is. */
  function Opened(s: Session, node: Option<FileNode>, path: string, fileType: string, w: Widget): Session
  {
    var b := Begin(s, node, path, fileType);
    if fileType == "markdown" then WithToast(b, w) else WithSun(b, w)
  }

  /** `_toastLib()` and `_initToast(content)`: the flag, the widget, its change listener and the first refresh. */
  function WithToast(b: Session, w: Widget): Session
  {
    Schedule(b.(toastLoaded := true, editor := Some(w), listening := true))
  }

  /** `_sunLib()` and `_initSun(content)`: the flag and the widget. */
  function WithSun(b: Session, w: Widget): Session
  {
    b.(sunLoaded := true, editor := Some(w))
  }

  /** A failed `startEditing`: the session is cancelled. */
  function StartFailed(s: Session, node: Option<FileNode>, path: string, fileType: string): Session
  {
    Cancel(Begin(s, node, path, fileType))
  }

  /** A successful `finishEditing`: the saved text is shown, then the session is cleaned up. */
  function Finished(s: Session, text: Doc): Session
  {
    Cleanup(s.(view := RestoredView(s.fileType, Some(text), s.backup)))
  }

  /** A failed `finishEditing`: the pre-edit snapshot is shown and the session is kept. */
  function FinishFailed(s: Session): Session
  {
    s.(view := s.backup)
  }

  /** The text `finishEditing` saves: the Markdown as is, the HTML after normalisation. */
  function SavedText(fileType: string, content: Doc): Doc
  {
    if fileType == "markdown" then content
    else if fileType == "html" then NormalizeDoc(content)
    else Doc("", [])
  }

  /** Cleaning up leaves an idle session with nothing pending, and cleaning up again, or from idle, changes nothing. */
  lemma CleanupIdle(s: Session)
    requires TimersInv(s)
    ensures Inv(Cleanup(s)) && !Cleanup(s).isEditing && Cleanup(s).pending == {}
    ensures Cleanup(Cleanup(s)) == Cleanup(s)
    ensures Inv(s) && !s.isEditing ==> Cleanup(s) == s
  {
  }

  /** A new refresh request replaces the pending one: exactly the new timer is pending afterwards. */
  lemma ScheduleReplaces(s: Session)
    requires TimersInv(s)
    ensures Schedule(s).pending == {s.nextTimer} && Schedule(s).timer == Some(s.nextTimer)
    ensures s.timer.Some? ==> s.timer.value !in Schedule(s).pending
    ensures TimersInv(Schedule(s))
    ensures Inv(s) && s.isEditing ==> Inv(Schedule(s))
  {
  }

  /** A firing keeps the invariant, and nothing is refreshed once the session is cleaned up. */
  lemma FireAfterCleanup(s: Session, id: nat)
    requires TimersInv(s)
    ensures Inv(s) ==> Inv(Fire(s, id))
    ensures !Refreshes(Cleanup(s), id)
  {
  }

  /**
   * A successful start edits exactly the requested document with one widget, remembers
   * what the viewer showed, and keeps the invariant.
   */
  lemma OpenedSession(s: Session, node: Option<FileNode>, path: string, fileType: string, w: Widget)
    requires Inv(s)
    requires fileType == "markdown" || fileType == "html"
    ensures var t := Opened(s, node, path, fileType, w);
      Inv(t) && t.isEditing && t.editor == Some(w) && t.node == node && t.path == path && t.fileType == fileType &&
      t.backup == s.view && t.view == EditorShell
    ensures fileType == "markdown" ==> Opened(s, node, path, fileType, w).pending == {s.nextTimer}
  {
    var b := Begin(s, node, path, fileType);
    if s.isEditing {
      CleanupIdle(s);
    }
    assert TimersInv(b);
    if fileType == "markdown" {
      ScheduleReplaces(b.(toastLoaded := true, editor := Some(w), listening := true));
    }
  }

  /** A start that fails leaves an idle session showing what the viewer showed before. */
  lemma StartFailedIdle(s: Session, node: Option<FileNode>, path: string, fileType: string)
    requires Inv(s)
    ensures var t := StartFailed(s, node, path, fileType);
      Inv(t) && !t.isEditing && t.view == s.view && t.pending == {}
  {
    if s.isEditing {
      CleanupIdle(s);
    }
    CleanupIdle(Begin(s, node, path, fileType));
  }

  /** Cancelling a session that started returns the viewer to what it showed before the start. */
  lemma CancelAfterOpen(s: Session, node: Option<FileNode>, path: string, fileType: string, w: Widget)
    requires Inv(s)
    requires fileType == "markdown" || fileType == "html"
    ensures var t := Cancel(Opened(s, node, path, fileType, w));
      Inv(t) && !t.isEditing && t.view == s.view && t.pending == {}
  {
    OpenedSession(s, node, path, fileType, w);
    CleanupIdle(Opened(s, node, path, fileType, w));
  }

  /** Saving ends the session showing the saved text; a failed save shows the snapshot and keeps editing. */
  lemma FinishOutcomes(s: Session, text: Doc)
    requires Inv(s) && s.isEditing
    ensures var t := Finished(s, text);
      Inv(t) && !t.isEditing && t.pending == {} && Shown(t.view) == Some(text)
    ensures var t := FinishFailed(s);
      Inv(t) && t.isEditing && t.editor == s.editor && t.node == s.node && t.path == s.path && t.view == s.backup
  {
    CleanupIdle(s.(view := RestoredView(s.fileType, Some(text), s.backup)));
    RestoredViewShowsSaved(s.fileType, text, s.backup);
  }

  /** The library flags go from false to true at most once and are never reset. */
  lemma FlagsNeverReset(s: Session, node: Option<FileNode>, path: string, fileType: string, w: Widget, id: nat, text: Doc)
    ensures var ts := [Cleanup(s), Schedule(s), Fire(s, id), Cancel(s), Opened(s, node, path, fileType, w),
                       StartFailed(s, node, path, fileType), Finished(s, text), FinishFailed(s)];
      forall j :: 0 <= j < |ts| ==> (s.toastLoaded ==> ts[j].toastLoaded) && (s.sunLoaded ==> ts[j].sunLoaded)
  {
  }

  /** Why `_save` fails. */
  datatype SaveError = FileHandleMissing | FsaUnsupported | WriteFailed

  /** The host the session runs in: whether each library loads, whether a save picker exists, whether the write succeeds. */
  datatype Env = Env(toastLoads: bool, sunLoads: bool, hasSavePicker: bool, writeOk: bool)

  /** `_save`'s checks in order: a node with a file, then a writable handle or a save picker, then the write. */
  function SaveFailure(node: Option<FileNode>, hasFile: bool, env: Env): Option<SaveError>
  {
    if node.None? || !hasFile then Some(FileHandleMissing)
    else if node.value.handle.None? && !env.hasSavePicker then Some(FsaUnsupported)
    else if !env.writeOk then Some(WriteFailed)
    else None
  }

  /** What `finishEditing` did. */
  datatype FinishOutcome = Skipped | Saved(text: Doc) | Failed(error: SaveError)

  class EditorModule {
    var isEditing: bool
    var currentEditor: Option<Widget>
    var currentNode: Option<FileNode>
    var currentPath: string
    var currentFileType: string
    var originalViewerContent: View
    /** The viewer element's content. */
    var view: View
    var toastLoaded: bool
    var sunLoaded: bool
    var mediaDebounceTimer: Option<nat>
    /** The host's pending refresh timers started by this module. */
    var pendingRefreshes: set<nat>
    var nextTimer: nat
    /** `_onToastChange` is registered. */
    var onToastChange: bool

    function State(): Session
      reads this
    {
      Session(isEditing, currentEditor, currentNode, currentPath, currentFileType, originalViewerContent, view,
              toastLoaded, sunLoaded, mediaDebounceTimer, pendingRefreshes, nextTimer, onToastChange)
    }

    function Widgets(): set<Widget>
      reads this
    {
      if currentEditor.Some? then {currentEditor.value} else {}
    }

    function NodeSet(): set<FileNode>
      reads this
    {
      if currentNode.Some? then {currentNode.value} else {}
    }

    ghost predicate Valid()
      reads this, Widgets()
    {
      Inv(State()) && (currentEditor.Some? ==> currentEditor.value.live)
    }

    constructor (initialView: View)
      ensures State() == Session(false, None, None, "", "", Page(""), initialView, false, false, None, {}, 0, false)
      ensures Valid()
    {
      isEditing := false;
      currentEditor := None;
      currentNode := None;
      currentPath := "";
      currentFileType := "";
      originalViewerContent := Page("");
      view := initialView;
      toastLoaded := false;
      sunLoaded := false;
      mediaDebounceTimer := None;
      pendingRefreshes := {};
      nextTimer := 0;
      onToastChange := false;
    }

    /** `cleanupEditor()`. */
    method CleanupEditor()
      requires TimersInv(State())
      modifies this, Widgets()
      ensures State() == Cleanup(old(State()))
      ensures old(currentEditor).Some? ==>
        !old(currentEditor).value.live && (old(onToastChange) ==> !old(currentEditor).value.subscribed)
      ensures Valid()
    {
      if mediaDebounceTimer.Some? {
        pendingRefreshes := pendingRefreshes - {mediaDebounceTimer.value};
        mediaDebounceTimer := None;
      }
      if currentEditor.Some? && onToastChange {
        currentEditor.value.Unsubscribe();
      }
      onToastChange := false;
      if currentEditor.Some? {
        currentEditor.value.Destroy();
      }
      currentEditor := None;
      isEditing := false;
      currentNode := None;
      currentPath := "";
      currentFileType := "";
      CleanupIdle(old(State()));
    }

    /** `_scheduleMediaRefresh()`. */
    method ScheduleMediaRefresh()
      requires TimersInv(State())
      modifies this
      ensures State() == Schedule(old(State()))
    {
      if mediaDebounceTimer.Some? {
        pendingRefreshes := pendingRefreshes - {mediaDebounceTimer.value};
      }
      mediaDebounceTimer := Some(nextTimer);
      pendingRefreshes := pendingRefreshes + {nextTimer};
      nextTimer := nextTimer + 1;
    }

    /** A refresh timer fires; `ran` says whether `_refreshMedia` got past its guard. */
    method FireRefresh(id: nat) returns (ran: bool)
      requires Valid()
      modifies this
      ensures State() == Fire(old(State()), id) && ran == Refreshes(old(State()), id)
      ensures Valid()
    {
      ran := id in pendingRefreshes && currentPath != "";
      pendingRefreshes := pendingRefreshes - {id};
      FireAfterCleanup(old(State()), id);
    }

    /** The user edits the open document; both widgets schedule a refresh on change. */
    method EditContent(c: Doc)
      requires Valid() && isEditing
      modifies this, Widgets()
      ensures State() == Schedule(old(State()))
      ensures currentEditor == old(currentEditor) && currentEditor.value.content == c
      ensures Valid()
    {
      currentEditor.value.SetContent(c);
      ScheduleMediaRefresh();
      ScheduleReplaces(old(State()));
    }

    /** `restoreViewer(newContent)`, with `None` for `null`. */
    method RestoreViewer(newContent: Option<Doc>)
      modifies this
      ensures State() == old(State()).(view := RestoredView(old(currentFileType), newContent, old(originalViewerContent)))
    {
      if newContent.Some? {
        view := Rendering(currentFileType, newContent.value);
      } else {
        view := originalViewerContent;
      }
    }

    /** `cancelEditing()`: `cleanupEditor()` then `restoreViewerFromBackup()`. */
    method CancelEditing()
      requires TimersInv(State())
      modifies this, Widgets()
      ensures State() == Cancel(old(State()))
      ensures old(currentEditor).Some? ==> !old(currentEditor).value.live
      ensures Valid()
    {
      CleanupEditor();
      RestoreViewer(None);
    }

    /** The field updates at the start of `startEditing`, after any clean-up. */
    method BeginSession(node: Option<FileNode>, path: string, fileType: string)
      modifies this
      ensures State() == old(State()).(isEditing := true, node := node, path := path, fileType := fileType,
                                        backup := old(view), view := EditorShell)
    {
      isEditing := true;
      currentNode := node;
      currentPath := path;
      currentFileType := fileType;
      originalViewerContent := view;
      view := EditorShell;
    }

    /** The start of `startEditing`: a running session is cleaned up, then the fields are set. */
    method EnterSession(node: Option<FileNode>, path: string, fileType: string)
      requires Valid()
      modifies this, Widgets()
      ensures State() == Begin(old(State()), node, path, fileType) && TimersInv(State())
      ensures currentEditor.None?
      ensures old(currentEditor).Some? ==> !old(currentEditor).value.live
    {
      if isEditing {
        CleanupEditor();
      }
      BeginSession(node, path, fileType);
    }

    /** `_toastLib()` then `_initToast(content)`, once the library is there. */
    method OpenToast(ghost s: Session, node: Option<FileNode>, path: string, content: Doc) returns (w: Widget)
      requires Inv(s) && State() == Begin(s, node, path, "markdown") && TimersInv(State())
      modifies this
      ensures fresh(w) && w.content == content && w.live && w.subscribed
      ensures State() == Opened(s, node, path, "markdown", w) && currentEditor == Some(w)
      ensures Valid()
    {
      toastLoaded := true;
      w := new Widget("markdown", content);
      currentEditor := Some(w);
      onToastChange := true;
      w.Subscribe();
      ScheduleMediaRefresh();
      OpenedSession(s, node, path, "markdown", w);
    }

    /** `_sunLib()`, `_prepareHTMLContentForEditor(content)` then `_initSun(prepared)`, once the library is there. */
    method OpenSun(ghost s: Session, node: Option<FileNode>, path: string, content: Doc,
                   vfsRoot: Option<Entry>, urlName: string -> string, urls: BlobUrls) returns (w: Widget)
      requires Inv(s) && State() == Begin(s, node, path, "html")
      modifies this, urls
      ensures fresh(w) && w.live && !w.subscribed
      ensures w.content == Prepared(content, vfsRoot, path, urlName, |old(urls.issued)|)
      ensures urls.issued == old(urls.issued) + PreparedIssued(content, vfsRoot, path, urlName, |old(urls.issued)|)
      ensures State() == Opened(s, node, path, "html", w) && currentEditor == Some(w)
      ensures Valid()
    {
      sunLoaded := true;
      var prepared := PrepareHtmlForEditor(content, vfsRoot, currentPath, urlName, urls);
      w := new Widget("html", prepared);
      currentEditor := Some(w);
      OpenedSession(s, node, path, "html", w);
    }

    /** A start whose type has no editor, or whose library does not load, is cancelled. */
    method AbandonStart(ghost s: Session, node: Option<FileNode>, path: string, fileType: string)
      requires Inv(s) && State() == Begin(s, node, path, fileType) && TimersInv(State()) && currentEditor.None?
      modifies this
      ensures State() == StartFailed(s, node, path, fileType)
      ensures Valid()
    {
      CancelEditing();
      StartFailedIdle(s, node, path, fileType);
    }

    /**
     * `startEditing(node, path, content, type)`: a running session is cleaned up first; the
     * editor for the type is created with the content (HTML after the media pass), and a
     * type without an editor, or a library that does not load, cancels the session.
     */
    method StartEditing(node: Option<FileNode>, path: string, content: Doc, fileType: string, env: Env,
                        vfsRoot: Option<Entry>, urlName: string -> string, urls: BlobUrls) returns (ok: bool)
      requires Valid()
      modifies this, Widgets(), urls
      ensures Valid()
      ensures old(currentEditor).Some? ==> !old(currentEditor).value.live
      ensures ok == Loads(old(State()), fileType, env.toastLoads, env.sunLoads)
      ensures ok ==>
        currentEditor.Some? && fresh(currentEditor.value) &&
        State() == Opened(old(State()), node, path, fileType, currentEditor.value) &&
        currentEditor.value.content == (if fileType == "markdown" then content
                                        else Prepared(content, vfsRoot, path, urlName, |old(urls.issued)|)) &&
        (fileType == "markdown" <==> currentEditor.value.subscribed)
      ensures !ok ==> State() == StartFailed(old(State()), node, path, fileType)
      ensures urls.issued == old(urls.issued) +
        (if ok && fileType == "html" then PreparedIssued(content, vfsRoot, path, urlName, |old(urls.issued)|) else [])
    {
      EnterSession(node, path, fileType);
      if fileType == "markdown" && (toastLoaded || env.toastLoads) {
        var w := OpenToast(old(State()), node, path, content);
        ok := true;
      } else if fileType == "html" && (sunLoaded || env.sunLoads) {
        var w := OpenSun(old(State()), node, path, content, vfsRoot, urlName, urls);
        ok := true;
      } else {
        AbandonStart(old(State()), node, path, fileType);
        ok := false;
      }
    }

    /** `_save(content)`: the node's file is replaced by the saved content under its old name. */
    method Save(content: Doc, env: Env) returns (res: Outcome<SaveError>)
      modifies NodeSet()
      ensures var f := SaveFailure(currentNode, old(currentNode.Some? && currentNode.value.file.Some?), env);
        res == (if f.Some? then Fail(f.value) else Pass)
      ensures res.Fail? ==> currentNode.None? || currentNode.value.file == old(currentNode.value.file)
      ensures res.Pass? ==>
        currentNode.Some? && old(currentNode.value.file).Some? &&
        currentNode.value.file == Some(Blob(old(currentNode.value.file.value.name), content))
    {
      if currentNode.None? || currentNode.value.file.None? {
        return Fail(FileHandleMissing);
      }
      var node := currentNode.value;
      var name := node.file.value.name;
      if node.handle.None? && !env.hasSavePicker {
        return Fail(FsaUnsupported);
      }
      if !env.writeOk {
        return Fail(WriteFailed);
      }
      node.file := Some(Blob(name, content));
      res := Pass;
    }

    /**
     * `finishEditing()`: nothing outside a session; otherwise the widget's text (HTML
     * normalised) is saved, shown and the session cleaned up, or, when saving fails, the
     * snapshot is shown and the session kept.
     */
    method FinishEditing(env: Env) returns (outcome: FinishOutcome)
      requires Valid()
      modifies this, Widgets(), NodeSet()
      ensures Valid()
      ensures !old(isEditing) ==> outcome == Skipped && State() == old(State())
      ensures old(isEditing) && old(currentEditor).Some? ==>
        var text := SavedText(old(currentFileType), old(currentEditor.value.content));
        var f := SaveFailure(old(currentNode), old(currentNode.Some? && currentNode.value.file.Some?), env);
        outcome == (if f.Some? then Failed(f.value) else Saved(text))
      ensures outcome.Saved? ==>
        State() == Finished(old(State()), outcome.text) &&
        old(currentNode).value.file == Some(Blob(old(currentNode.value.file.value.name), outcome.text))
      ensures outcome.Saved? && old(currentEditor).Some? ==> !old(currentEditor).value.live
      ensures outcome.Failed? ==> State() == FinishFailed(old(State()))
      ensures !outcome.Saved? && old(currentNode).Some? ==> old(currentNode).value.file == old(currentNode.value.file)
    {
      if !isEditing || currentEditor.None? {
        return Skipped;
      }
      var w := currentEditor.value;
      var text := Doc("", []);
      if currentFileType == "markdown" {
        text := w.content;
      } else if currentFileType == "html" {
        var html := w.content;
        var els := new Element[|html.media|](j requires 0 <= j < |html.media| => html.media[j]);
        NormalizeHtmlMedia(els);
        text := Doc(html.markup, els[..]);
        assert text == NormalizeDoc(w.content);
      }
      assert text == SavedText(currentFileType, w.content);
      var r := Save(text, env);
      if r.Fail? {
        RestoreViewer(None);
        FinishOutcomes(old(State()), text);
        return Failed(r.error);
      }
      RestoreViewer(Some(text));
      CleanupEditor();
      FinishOutcomes(old(State()), text);
      outcome := Saved(text);
    }
  }
}
