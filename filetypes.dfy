/**
 * Which files the viewer lists and opens, decided by the lower-cased extension
 * (app.js: `SUPPORTED`, `EMBED_ONLY_AUDIO_EXTS`, `extname`, `isSupportedFile`
 * and the dispatch at the end of `openFile`).
 */
module FileTypes {
  import opened JsText

  /** The document kinds the viewer can render. */
  datatype DocType = Markdown | Html | Pdf

  /** The extension table: own keys of the `SUPPORTED` object literal. */
  const Supported: map<string, DocType> :=
    map["md" := Markdown, "markdown" := Markdown, "html" := Html, "htm" := Html, "pdf" := Pdf]

  /** Audio extensions that are only ever embedded in documents, never opened on their own. */
  const EmbedOnlyAudioExts: set<string> := {"mp3", "wav", "ogg", "m4a", "flac"}

  /** Property names every object literal inherits from `Object.prototype`. */
  const InheritedNames: set<string> :=
    {"constructor", "__proto__", "hasOwnProperty", "isPrototypeOf", "propertyIsEnumerable",
     "toLocaleString", "toString", "valueOf", "__defineGetter__", "__defineSetter__",
     "__lookupGetter__", "__lookupSetter__"}

  /** The lower-cased text after the last dot of `name`, or "" when it has no dot. */
  function Extname(name: string): (ext: string)
    ensures '.' !in name ==> ext == ""
    ensures '.' in name ==> exists i :: 0 <= i < |name| && name[i] == '.' && '.' !in name[i + 1..] && ext == ToLowerCase(name[i + 1..])
  {
    var i := LastIndexOf(name, '.');
    if i >= 0 then ToLowerCase(name[i + 1..]) else ""
  }

  /** An extension never holds a dot or an ASCII capital. */
  lemma ExtnameShape(name: string)
    ensures '.' !in Extname(name)
    ensures forall j :: 0 <= j < |Extname(name)| ==> !('A' <= Extname(name)[j] <= 'Z')
  {
    var i := LastIndexOf(name, '.');
    if i >= 0 {
      var tail := name[i + 1..];
      LowerCaseShape(tail);
      forall j | 0 <= j < |tail|
        ensures ToLowerCase(tail)[j] != '.'
      {
        assert tail[j] in tail;
      }
    }
  }

  /** The extension of `stem.ext` is `ext` lower-cased, whatever the stem holds. */
  lemma ExtnameOfJoined(stem: string, ext: string)
    requires '.' !in ext
    ensures Extname(stem + "." + ext) == ToLowerCase(ext)
  {
    var name := stem + "." + ext;
    var i := LastIndexOf(name, '.');
    assert name[|stem|] == '.';
    assert name[|stem| + 1..] == ext;
  }

  /** `SUPPORTED[key]` as the object literal answers it. */
  datatype PropertyRead = Own(docType: DocType) | InheritedMember | Undefined

  /** A property read on the `SUPPORTED` object literal: own keys first, then `Object.prototype`. */
  function SupportedPropertyAsWritten(key: string): (r: PropertyRead)
    ensures r.Own? <==> key in Supported
    ensures r.Undefined? <==> key !in Supported && key !in InheritedNames
  {
    if key in Supported then Own(Supported[key])
    else if key in InheritedNames then InheritedMember
    else Undefined
  }

  /** `isSupportedFile` as written: the read is compared with `undefined` only. */
  predicate IsSupportedFileAsWritten(name: string)
  {
    !SupportedPropertyAsWritten(Extname(name)).Undefined?
  }

  /** `isSupportedFile` as intended: the extension is one of the table's own keys. */
  predicate IsSupportedFile(name: string)
  {
    Extname(name) in Supported
  }

  /** A name is supported exactly when its extension is md, markdown, html, htm or pdf. */
  lemma SupportedExtensions(stem: string, ext: string)
    requires '.' !in ext
    ensures IsSupportedFile(stem + "." + ext) <==> ToLowerCase(ext) in {"md", "markdown", "html", "htm", "pdf"}
  {
    ExtnameOfJoined(stem, ext);
  }

  /** A name without a dot is never supported. */
  lemma NoDotNotSupported(name: string)
    requires '.' !in name
    ensures !IsSupportedFile(name) && !IsSupportedFileAsWritten(name)
  {
  }

  /** The audio extensions are never listed or opened on their own, under either reading of the table. */
  lemma {:induction false} AudioNeverSupported(stem: string, ext: string)
    requires ext in EmbedOnlyAudioExts
    ensures !IsSupportedFile(stem + "." + ext)
    ensures !IsSupportedFileAsWritten(stem + "." + ext)
  {
    assert ToLowerCase(ext) == ext by { LowerOfLowerIsSame(ext); }
    ExtnameOfJoined(stem, ext);
    AudioExtsAreNoKeys(ext);
  }

  /** No audio extension is an own or an inherited key of `SUPPORTED`. */
  lemma AudioExtsAreNoKeys(ext: string)
    requires ext in EmbedOnlyAudioExts
    ensures ext !in Supported && ext !in InheritedNames
  {
    if ext == "mp3" {} else if ext == "wav" {} else if ext == "ogg" {} else if ext == "m4a" {} else {}
  }

  /** Lower-casing a string with no ASCII capital and no Kelvin sign leaves it unchanged. */
  lemma LowerOfLowerIsSame(s: string)
    requires forall j :: 0 <= j < |s| ==> !('A' <= s[j] <= 'Z') && s[j] != '\U{212A}'
    ensures ToLowerCase(s) == s
  {
  }

  /**
   * The two readings differ exactly on the extensions "constructor" and "__proto__":
   * the only inherited property names that survive lower-casing.
   */
  lemma {:induction false} AsWrittenDiffersOnlyOnInherited(name: string)
    ensures IsSupportedFileAsWritten(name) != IsSupportedFile(name) <==> Extname(name) in {"constructor", "__proto__"}
  {
    ExtnameShape(name);
    var e := Extname(name);
    if e in InheritedNames && e != "constructor" && e != "__proto__" {
      InheritedNamesHaveCapitals(e);
    }
  }

  /** Apart from "constructor" and "__proto__", every inherited name holds an ASCII capital. */
  lemma InheritedNamesHaveCapitals(e: string)
    requires e in InheritedNames && e != "constructor" && e != "__proto__"
    ensures exists j :: 0 <= j < |e| && 'A' <= e[j] <= 'Z'
  {
    if e == "hasOwnProperty" { assert 'A' <= e[3] <= 'Z'; }
    else if e == "isPrototypeOf" { assert 'A' <= e[2] <= 'Z'; }
    else if e == "propertyIsEnumerable" { assert 'A' <= e[8] <= 'Z'; }
    else if e == "toLocaleString" { assert 'A' <= e[2] <= 'Z'; }
    else if e == "toString" { assert 'A' <= e[2] <= 'Z'; }
    else if e == "valueOf" { assert 'A' <= e[5] <= 'Z'; }
    else if e == "__defineGetter__" { assert 'A' <= e[8] <= 'Z'; }
    else if e == "__defineSetter__" { assert 'A' <= e[8] <= 'Z'; }
    else if e == "__lookupGetter__" { assert 'A' <= e[8] <= 'Z'; }
    else { assert e == "__lookupSetter__"; assert 'A' <= e[8] <= 'Z'; }
  }

  /**
   * A file named like "notes.constructor" passes the check as written, so the tree lists
   * it (`TreeListing.ListedAsWritten`), yet it is not a supported document and opening it
   * shows the unsupported notice.
   */
  lemma InheritedKeyCounterexample(stem: string)
    ensures IsSupportedFileAsWritten(stem + ".constructor")
    ensures !IsSupportedFile(stem + ".constructor")
    ensures OpenAction(stem + ".constructor") == UnsupportedNotice
  {
    ConstructorExtension(stem);
  }

  /** The extension of `stem.constructor` is "constructor". */
  lemma ConstructorExtension(stem: string)
    ensures Extname(stem + ".constructor") == "constructor"
  {
    assert ToLowerCase("constructor") == "constructor" by { LowerOfLowerIsSame("constructor"); }
    assert stem + ".constructor" == stem + "." + "constructor";
    ExtnameOfJoined(stem, "constructor");
  }

  /** What `openFile` shows for a selected file. */
  datatype OpenView = RenderMarkdown | RenderHtml | RenderPdf | AudioNotice | UnsupportedNotice

  /** The dispatch at the end of `openFile`, reading `SUPPORTED` as written. */
  function OpenAction(name: string): OpenView
  {
    var ext := Extname(name);
    var t := SupportedPropertyAsWritten(ext);
    if t == Own(Markdown) then RenderMarkdown
    else if t == Own(Html) then RenderHtml
    else if t == Own(Pdf) then RenderPdf
    else if ext in EmbedOnlyAudioExts then AudioNotice
    else UnsupportedNotice
  }

  /** `openFile` renders exactly the supported files, each with the renderer of its kind. */
  lemma OpenRendersExactlySupported(name: string)
    ensures OpenAction(name) in {RenderMarkdown, RenderHtml, RenderPdf} <==> IsSupportedFile(name)
    ensures IsSupportedFile(name) ==>
      OpenAction(name) == match Supported[Extname(name)]
        case Markdown => RenderMarkdown
        case Html => RenderHtml
        case Pdf => RenderPdf
  {
  }

  /** `openFile` shows the audio notice exactly for the embed-only audio extensions. */
  lemma OpenAudioNotice(name: string)
    ensures OpenAction(name) == AudioNotice <==> Extname(name) in EmbedOnlyAudioExts
  {
    var e := Extname(name);
    if e in EmbedOnlyAudioExts {
      AudioExtsAreNoKeys(e);
    }
  }
}
