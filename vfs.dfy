/**
 * The in-memory folder tree built from a picked folder (app.js `buildVFSFromFileList`)
 * and the segment-by-segment walk that finds a node in it (app.js `findFileInVFS`).
 * Directories are values mapping child names to entries; a file entry refers to a
 * shared `FileNode` object, whose `file` the editor replaces after a save.
 */
module Vfs {
  import opened Wrappers
  import opened JsText
  import opened Markup

  /** A writable file handle from the directory picker, as an opaque token. */
  datatype Handle = Handle(id: nat)

  /** A `File` object: its name and the document it holds. */
  datatype Blob = Blob(name: string, content: Doc)

  /** A file node of the tree. */
  class FileNode {
    const name: string
    const path: string
    const handle: Option<Handle>
    var file: Option<Blob>

    constructor (name: string, path: string, handle: Option<Handle>, file: Option<Blob>)
      ensures this.name == name && this.path == path && this.handle == handle && this.file == file
    {
      this.name := name;
      this.path := path;
      this.handle := handle;
      this.file := file;
    }
  }

  /** A tree entry: a file node, or a directory with its name, its path and its children by name. */
  datatype Entry =
    | FileEntry(node: FileNode)
    | DirEntry(name: string, path: string, children: map<string, Entry>)

  /** A file handed over by the folder picker; `relativePath` is "" when the browser supplies none. */
  datatype InputFile = InputFile(relativePath: string, blob: Blob)

  /** `file.webkitRelativePath || file.name`. */
  function RelativePathOf(f: InputFile): string
  {
    if f.relativePath != "" then f.relativePath else f.blob.name
  }

  /** `parts.filter(p => !(p in drop))`. */
  function Keep(parts: seq<string>, drop: set<string>): (r: seq<string>)
    ensures forall j :: 0 <= j < |r| ==> r[j] !in drop && r[j] in parts
  {
    if parts == [] then []
    else (if parts[0] in drop then [] else [parts[0]]) + Keep(parts[1..], drop)
  }

  /** `rel.split('/').filter(Boolean)`: the non-empty segments of a relative path. */
  function Segments(rel: string): (parts: seq<string>)
    ensures forall j :: 0 <= j < |parts| ==> parts[j] != "" && '/' !in parts[j]
  {
    Keep(Split(rel, '/'), {""})
  }

  /** `path.split('/').filter(p => p && p !== '.')`: the segments a lookup follows. */
  function LookupSegments(path: string): (parts: seq<string>)
    ensures forall j :: 0 <= j < |parts| ==> parts[j] != "" && parts[j] != "." && '/' !in parts[j]
  {
    Keep(Split(path, '/'), {"", "."})
  }

  /** `parts.join('/')`: the path recorded on a node reached by `parts`. */
  function PathOf(parts: seq<string>): string
  {
    Join(parts, "/")
  }

  /** The root before any file is added: `{ name: rootName, kind: 'directory', children: new Map(), path: '' }`. */
  function EmptyRoot(rootName: string): Entry
  {
    DirEntry(rootName, "", map[])
  }

  /** The entry reached from `e` by following `parts`, if any. */
  function Lookup(e: Entry, parts: seq<string>): Option<Entry>
    decreases |parts|
  {
    if parts == [] then Some(e)
    else match e
      case FileEntry(_) => None
      case DirEntry(_, _, ch) => if parts[0] in ch then Lookup(ch[parts[0]], parts[1..]) else None
  }

  /** Following `q` from `e` ends at a file. */
  predicate IsFileAt(e: Entry, q: seq<string>)
  {
    Lookup(e, q).Some? && Lookup(e, q).value.FileEntry?
  }

  /** Following `q` from `e` ends at a directory. */
  predicate IsDirAt(e: Entry, q: seq<string>)
  {
    Lookup(e, q).Some? && Lookup(e, q).value.DirEntry?
  }

  /** Neither segment list is a prefix of the other: the two paths lead into different subtrees. */
  predicate Incomparable(p: seq<string>, q: seq<string>)
  {
    !(p <= q) && !(q <= p)
  }

  /** Why a build stops: a path walks through a file, where the source reads `children` of a file node and throws. */
  datatype BuildError = WalkThroughFile(at: string)

  /**
   * One pass of the inner loop of `buildVFSFromFileList` from directory `dir`, which the
   * segments `done` lead to: walk the remaining segments `rest`, creating each missing
   * directory with the path of the segments so far and reusing an existing one, and set
   * the file node at the last segment, replacing whatever was there.
   */
  function Place(dir: Entry, done: seq<string>, rest: seq<string>, node: FileNode): (r: Result<Entry, BuildError>)
    requires dir.DirEntry? && rest != []
    ensures r.Ok? ==> r.value.DirEntry? && r.value.name == dir.name && r.value.path == dir.path
    decreases |rest|
  {
    var part := rest[0];
    var ch := dir.children;
    if |rest| == 1 then Ok(dir.(children := ch[part := FileEntry(node)]))
    else
      var child := if part in ch then ch[part] else DirEntry(part, PathOf(done + [part]), map[]);
      if child.FileEntry? then Err(WalkThroughFile(PathOf(done + [part])))
      else match Place(child, done + [part], rest[1..], node)
        case Err(e) => Err(e)
        case Ok(c) => Ok(dir.(children := ch[part := c]))
  }

  /** The entry `Place` puts (or finds) under `rest[0]` before descending. */
  function ChildOnTheWay(dir: Entry, done: seq<string>, rest: seq<string>): Entry
    requires dir.DirEntry? && rest != []
  {
    if rest[0] in dir.children then dir.children[rest[0]] else DirEntry(rest[0], PathOf(done + [rest[0]]), map[])
  }

  /** After a successful placement the file node sits at `rest`. */
  lemma {:induction false} PlaceFinds(dir: Entry, done: seq<string>, rest: seq<string>, node: FileNode)
    requires dir.DirEntry? && rest != [] && Place(dir, done, rest, node).Ok?
    ensures Lookup(Place(dir, done, rest, node).value, rest) == Some(FileEntry(node))
    decreases |rest|
  {
    if |rest| > 1 {
      PlaceFinds(ChildOnTheWay(dir, done, rest), done + [rest[0]], rest[1..], node);
    }
  }

  /** A placement leaves every path that is neither above nor below `rest` as it was. */
  lemma {:induction false} PlaceFrame(dir: Entry, done: seq<string>, rest: seq<string>, node: FileNode)
    requires dir.DirEntry? && rest != [] && Place(dir, done, rest, node).Ok?
    ensures forall q :: Incomparable(q, rest) ==> Lookup(Place(dir, done, rest, node).value, q) == Lookup(dir, q)
    decreases |rest|
  {
    var d' := Place(dir, done, rest, node).value;
    var part := rest[0];
    if |rest| > 1 {
      var child := ChildOnTheWay(dir, done, rest);
      PlaceFrame(child, done + [part], rest[1..], node);
      forall q | Incomparable(q, rest)
        ensures Lookup(d', q) == Lookup(dir, q)
      {
        assert q != [];
        if q[0] == part {
          assert Incomparable(q[1..], rest[1..]) by {
            assert q == [part] + q[1..] && rest == [part] + rest[1..];
          }
        }
      }
    } else {
      forall q | Incomparable(q, rest)
        ensures Lookup(d', q) == Lookup(dir, q)
      {
        assert q != [];
        assert q[0] != part by {
          assert rest == [part];
        }
      }
    }
  }

  /** Every path strictly below the placed file leads nowhere afterwards. */
  lemma {:induction false} PlaceBeyond(dir: Entry, done: seq<string>, rest: seq<string>, node: FileNode)
    requires dir.DirEntry? && rest != [] && Place(dir, done, rest, node).Ok?
    ensures forall q :: rest < q ==> Lookup(Place(dir, done, rest, node).value, q) == None
    decreases |rest|
  {
    var d' := Place(dir, done, rest, node).value;
    if |rest| > 1 {
      PlaceBeyond(ChildOnTheWay(dir, done, rest), done + [rest[0]], rest[1..], node);
      forall q | rest < q
        ensures Lookup(d', q) == None
      {
        assert rest[1..] < q[1..];
      }
    } else {
      forall q | rest < q
        ensures Lookup(d', q) == None
      {
        assert q[0] == rest[0];
        assert q[1..] != [];
      }
    }
  }

  /** Both lookups end at directories with the same name and path. */
  predicate SameHeader(a: Option<Entry>, b: Option<Entry>)
  {
    a.Some? && a.value.DirEntry? && b.Some? && b.value.DirEntry? &&
    a.value.name == b.value.name && a.value.path == b.value.path
  }

  /** The lookup ends at a directory with this name and path. */
  predicate HeaderIs(a: Option<Entry>, name: string, path: string)
  {
    a.Some? && a.value.DirEntry? && a.value.name == name && a.value.path == path
  }

  /** Following a prefix of `rest` past its first segment continues from the child on the way. */
  lemma DescendPrefix(dir: Entry, done: seq<string>, rest: seq<string>, node: FileNode, i: nat)
    requires dir.DirEntry? && |rest| > 1 && Place(dir, done, rest, node).Ok? && 0 < i < |rest|
    ensures ChildOnTheWay(dir, done, rest).DirEntry?
    ensures Place(ChildOnTheWay(dir, done, rest), done + [rest[0]], rest[1..], node).Ok?
    ensures Lookup(Place(dir, done, rest, node).value, rest[..i]) ==
      Lookup(Place(ChildOnTheWay(dir, done, rest), done + [rest[0]], rest[1..], node).value, rest[1..][..i - 1])
    ensures Lookup(dir, rest[..i]) ==
      (if rest[0] in dir.children then Lookup(ChildOnTheWay(dir, done, rest), rest[1..][..i - 1]) else None)
    ensures done + rest[..i] == done + [rest[0]] + rest[1..][..i - 1]
  {
    assert rest[..i][1..] == rest[1..][..i - 1];
    assert rest[..i] == [rest[0]] + rest[1..][..i - 1];
  }

  /**
   * Every directory on the way to the placed file exists afterwards, and one that
   * existed before keeps its name and path.
   */
  lemma {:induction false} PlaceOnTheWay(dir: Entry, done: seq<string>, rest: seq<string>, node: FileNode)
    requires dir.DirEntry? && rest != [] && Place(dir, done, rest, node).Ok?
    ensures forall i :: 0 <= i < |rest| ==> IsDirAt(Place(dir, done, rest, node).value, rest[..i])
    ensures forall i :: 0 <= i < |rest| && IsDirAt(dir, rest[..i]) ==>
      SameHeader(Lookup(Place(dir, done, rest, node).value, rest[..i]), Lookup(dir, rest[..i]))
    decreases |rest|
  {
    assert rest[..0] == [];
    if |rest| > 1 {
      var child := ChildOnTheWay(dir, done, rest);
      PlaceOnTheWay(child, done + [rest[0]], rest[1..], node);
      forall i | 0 < i < |rest|
        ensures IsDirAt(Place(dir, done, rest, node).value, rest[..i])
        ensures IsDirAt(dir, rest[..i]) ==>
          SameHeader(Lookup(Place(dir, done, rest, node).value, rest[..i]), Lookup(dir, rest[..i]))
      {
        DescendPrefix(dir, done, rest, node, i);
      }
    }
  }

  /**
   * A directory on the way to the placed file that was missing is created, named after
   * its segment, with the `/`-join of the segments down to it as its path.
   */
  lemma {:induction false} PlaceCreates(dir: Entry, done: seq<string>, rest: seq<string>, node: FileNode)
    requires dir.DirEntry? && rest != [] && Place(dir, done, rest, node).Ok?
    ensures forall i :: 0 < i < |rest| && Lookup(dir, rest[..i]).None? ==>
      HeaderIs(Lookup(Place(dir, done, rest, node).value, rest[..i]), rest[i - 1], PathOf(done + rest[..i]))
    decreases |rest|
  {
    if |rest| > 1 {
      var child := ChildOnTheWay(dir, done, rest);
      PlaceCreates(child, done + [rest[0]], rest[1..], node);
      forall i | 0 < i < |rest| && Lookup(dir, rest[..i]).None?
        ensures HeaderIs(Lookup(Place(dir, done, rest, node).value, rest[..i]), rest[i - 1], PathOf(done + rest[..i]))
      {
        DescendPrefix(dir, done, rest, node, i);
        if i == 1 {
          assert rest[..1] == [rest[0]];
        } else {
          assert rest[1..][i - 2] == rest[i - 1];
        }
      }
    }
  }


  /**
   * A placement fails exactly when one of the segment prefixes strictly above the file
   * already leads to a file.
   */
  lemma {:induction false} PlaceFails(dir: Entry, done: seq<string>, rest: seq<string>, node: FileNode)
    requires dir.DirEntry? && rest != []
    ensures Place(dir, done, rest, node).Err? <==> exists i :: 0 < i < |rest| && IsFileAt(dir, rest[..i])
    decreases |rest|
  {
    var part := rest[0];
    if |rest| > 1 {
      var child := ChildOnTheWay(dir, done, rest);
      forall i | 1 < i < |rest|
        ensures IsFileAt(dir, rest[..i]) <==> part in dir.children && IsFileAt(child, rest[1..][..i - 1])
      {
        assert rest[..i][1..] == rest[1..][..i - 1];
      }
      assert IsFileAt(dir, rest[..1]) <==> child.FileEntry? by {
        assert rest[..1] == [part] && [part][1..] == [];
        assert Lookup(dir, [part]) == if part in dir.children then Lookup(dir.children[part], []) else None;
      }
      if child.DirEntry? {
        PlaceFails(child, done + [part], rest[1..], node);
        if exists i :: 0 < i < |rest| - 1 && IsFileAt(child, rest[1..][..i]) {
          var i :| 0 < i < |rest| - 1 && IsFileAt(child, rest[1..][..i]);
          assert IsFileAt(dir, rest[..i + 1]);
        }
      }
    }
  }

  /**
   * Every node's recorded path is the `/`-join of the segments leading to it from the
   * root, and every node below the root is named after its last segment.
   */
  predicate Wf(e: Entry, at: seq<string>)
    decreases e
  {
    match e
      case FileEntry(n) => at != [] && n.name == at[|at| - 1] && n.path == PathOf(at)
      case DirEntry(name, path, ch) =>
        (at != [] ==> name == at[|at| - 1]) && path == PathOf(at) &&
        forall k :: k in ch ==> Wf(ch[k], at + [k])
  }

  /** A placement keeps the tree well-formed when the new node carries the right name and path. */
  lemma {:induction false} PlaceWf(dir: Entry, done: seq<string>, rest: seq<string>, node: FileNode)
    requires dir.DirEntry? && rest != [] && Wf(dir, done)
    requires node.name == rest[|rest| - 1] && node.path == PathOf(done + rest)
    requires Place(dir, done, rest, node).Ok?
    ensures Wf(Place(dir, done, rest, node).value, done)
    decreases |rest|
  {
    var part := rest[0];
    if |rest| > 1 {
      var child := ChildOnTheWay(dir, done, rest);
      assert done + rest == done + [part] + rest[1..];
      PlaceWf(child, done + [part], rest[1..], node);
    } else {
      assert done + rest == done + [part];
    }
  }

  /** A file of the build: its segments, its contents and the node created for it. */
  datatype Placement = Placement(parts: seq<string>, blob: Blob, node: FileNode)

  /** Every placement has at least one segment. */
  predicate Placeable(ps: seq<Placement>)
  {
    forall k :: 0 <= k < |ps| ==> ps[k].parts != []
  }

  /** The outer loop of `buildVFSFromFileList`: the placements applied in order to `root`. */
  function BuildFrom(root: Entry, ps: seq<Placement>): (r: Result<Entry, BuildError>)
    requires root.DirEntry? && Placeable(ps)
    ensures r.Ok? ==> r.value.DirEntry? && r.value.name == root.name && r.value.path == root.path
  {
    if ps == [] then Ok(root)
    else match BuildFrom(root, ps[..|ps| - 1])
      case Err(e) => Err(e)
      case Ok(t) => Place(t, [], ps[|ps| - 1].parts, ps[|ps| - 1].node)
  }

  /** Each node is named after its last segment and records the `/`-join of its segments. */
  predicate NodesNamed(ps: seq<Placement>)
    requires Placeable(ps)
  {
    forall k :: 0 <= k < |ps| ==>
      ps[k].node.name == ps[k].parts[|ps[k].parts| - 1] && ps[k].node.path == PathOf(ps[k].parts)
  }

  /** A build from a well-formed root gives a well-formed tree: every path is the join of its segments. */
  lemma {:induction false} BuildWf(root: Entry, ps: seq<Placement>)
    requires root.DirEntry? && Placeable(ps) && NodesNamed(ps) && Wf(root, [])
    requires BuildFrom(root, ps).Ok?
    ensures Wf(BuildFrom(root, ps).value, [])
  {
    if ps != [] {
      var init := ps[..|ps| - 1];
      assert Placeable(init) && NodesNamed(init);
      BuildWf(root, init);
      var last := ps[|ps| - 1];
      assert [] + last.parts == last.parts;
      PlaceWf(BuildFrom(root, init).value, [], last.parts, last.node);
    }
  }

  /**
   * After a build, a file is found at its segments unless a later file's segments lie
   * on the same line (equal, above or below); in particular a later file with the same
   * relative path takes its place.
   */
  lemma {:induction false} BuildFinds(root: Entry, ps: seq<Placement>, j: nat)
    requires root.DirEntry? && Placeable(ps) && BuildFrom(root, ps).Ok?
    requires j < |ps|
    requires forall k :: j < k < |ps| ==> Incomparable(ps[k].parts, ps[j].parts)
    ensures Lookup(BuildFrom(root, ps).value, ps[j].parts) == Some(FileEntry(ps[j].node))
  {
    var init := ps[..|ps| - 1];
    assert Placeable(init);
    var t := BuildFrom(root, init).value;
    var last := ps[|ps| - 1];
    if j == |ps| - 1 {
      PlaceFinds(t, [], last.parts, last.node);
    } else {
      BuildFinds(root, init, j);
      PlaceFrame(t, [], last.parts, last.node);
      assert Incomparable(ps[j].parts, last.parts);
    }
  }

  /** Last write wins: of two files with the same segments, the later one is found. */
  lemma LastWriteWins(root: Entry, ps: seq<Placement>, j: nat, k: nat)
    requires root.DirEntry? && Placeable(ps) && BuildFrom(root, ps).Ok?
    requires j < k < |ps| && ps[j].parts == ps[k].parts && ps[j].node != ps[k].node
    requires forall m :: k < m < |ps| ==> Incomparable(ps[m].parts, ps[k].parts)
    ensures Lookup(BuildFrom(root, ps).value, ps[j].parts) == Some(FileEntry(ps[k].node))
    ensures Lookup(BuildFrom(root, ps).value, ps[j].parts) != Some(FileEntry(ps[j].node))
  {
    BuildFinds(root, ps, k);
  }

  /** Every file in the tree sits at the segments of one of the placements. */
  ghost predicate FilesAmong(e: Entry, ps: seq<Placement>)
  {
    forall q :: IsFileAt(e, q) ==> exists j :: 0 <= j < |ps| && ps[j].parts == q
  }

  /** A placement adds no file but its own. */
  lemma PlaceFilesAmong(t: Entry, ps: seq<Placement>, p: Placement)
    requires t.DirEntry? && p.parts != [] && Place(t, [], p.parts, p.node).Ok? && FilesAmong(t, ps)
    ensures FilesAmong(Place(t, [], p.parts, p.node).value, ps + [p])
  {
    var t' := Place(t, [], p.parts, p.node).value;
    PlaceFrame(t, [], p.parts, p.node);
    PlaceBeyond(t, [], p.parts, p.node);
    PlaceOnTheWay(t, [], p.parts, p.node);
    var ps' := ps + [p];
    forall q
      ensures IsFileAt(t', q) ==> exists j :: 0 <= j < |ps'| && ps'[j].parts == q
    {
      if q == p.parts {
        assert ps'[|ps|].parts == q;
      } else if q < p.parts {
        assert q == p.parts[..|q|];
      } else if p.parts < q {
      } else {
        assert Incomparable(q, p.parts);
        if IsFileAt(t, q) {
          var j :| 0 <= j < |ps| && ps[j].parts == q;
          assert ps'[j].parts == q;
        }
      }
    }
  }

  /**
   * The build succeeds from an empty root when no file's segments are a strict prefix of
   * a later file's segments (no file name is later used as a folder), and every file in
   * the resulting tree is one of the placed files.
   */
  lemma {:induction false} BuildSucceeds(rootName: string, ps: seq<Placement>)
    requires Placeable(ps)
    requires forall j, k :: 0 <= j < k < |ps| ==> !(ps[j].parts < ps[k].parts)
    ensures BuildFrom(EmptyRoot(rootName), ps).Ok?
    ensures FilesAmong(BuildFrom(EmptyRoot(rootName), ps).value, ps)
  {
    var root := EmptyRoot(rootName);
    if ps == [] {
      forall q
        ensures !IsFileAt(root, q)
      {
      }
    } else {
      var init := ps[..|ps| - 1];
      assert Placeable(init);
      BuildSucceeds(rootName, init);
      var t := BuildFrom(root, init).value;
      var last := ps[|ps| - 1];
      forall i | 0 < i < |last.parts|
        ensures !IsFileAt(t, last.parts[..i])
      {
        assert last.parts[..i] < last.parts;
      }
      PlaceFails(t, [], last.parts, last.node);
      PlaceFilesAmong(t, init, last);
      assert init + [last] == ps;
    }
  }

  /**
   * `findFileInVFS`: nothing without a tree; otherwise follow the non-empty segments
   * other than `.` from the root, giving up as soon as the current node is not a
   * directory or lacks the next segment.
   */
  method FindFileInVfs(vfsRoot: Option<Entry>, path: string) returns (r: Option<Entry>)
    ensures vfsRoot.None? ==> r.None?
    ensures vfsRoot.Some? ==> r == Lookup(vfsRoot.value, LookupSegments(path))
  {
    if vfsRoot.None? {
      return None;
    }
    var parts := LookupSegments(path);
    var current := vfsRoot.value;
    var i := 0;
    while i < |parts|
      invariant 0 <= i <= |parts|
      invariant Lookup(vfsRoot.value, parts) == Lookup(current, parts[i..])
    {
      var part := parts[i];
      if !current.DirEntry? || part !in current.children {
        return None;
      }
      assert parts[i..][1..] == parts[i + 1..];
      current := current.children[part];
      i := i + 1;
    }
    return Some(current);
  }

  /** Dropping `.` segments changes nothing when there are none. */
  lemma {:induction false} KeepWithoutDots(parts: seq<string>)
    requires "." !in Keep(parts, {""})
    ensures Keep(parts, {"", "."}) == Keep(parts, {""})
  {
    if parts != [] {
      KeepWithoutDots(parts[1..]);
    }
  }

  /** A path made of empty and `.` segments only leads to the root. */
  lemma {:induction false} KeepNothing(parts: seq<string>)
    requires forall j :: 0 <= j < |parts| ==> parts[j] in {"", "."}
    ensures Keep(parts, {"", "."}) == []
  {
    if parts != [] {
      KeepNothing(parts[1..]);
    }
  }

  /** `findFileInVFS` returns the root for a path with no segment other than empty ones and `.`. */
  lemma FindRootPath(root: Entry, path: string)
    requires forall j :: 0 <= j < |Split(path, '/')| ==> Split(path, '/')[j] in {"", "."}
    ensures Lookup(root, LookupSegments(path)) == Some(root)
  {
    KeepNothing(Split(path, '/'));
  }

  /**
   * The lookup a media reference performs finds a built file at its relative path,
   * provided no segment is `.` and no later file lies on the same line.
   */
  lemma FindAfterBuild(root: Entry, ps: seq<Placement>, j: nat, rel: string)
    requires root.DirEntry? && Placeable(ps) && BuildFrom(root, ps).Ok?
    requires j < |ps| && ps[j].parts == Segments(rel) && "." !in Segments(rel)
    requires forall k :: j < k < |ps| ==> Incomparable(ps[k].parts, ps[j].parts)
    ensures Lookup(BuildFrom(root, ps).value, LookupSegments(rel)) == Some(FileEntry(ps[j].node))
  {
    KeepWithoutDots(Split(rel, '/'));
    BuildFinds(root, ps, j);
  }

  /** Extending the placements by one applies one more `Place` to the tree built so far. */
  lemma BuildStep(root: Entry, ps: seq<Placement>, p: Placement, t: Entry)
    requires root.DirEntry? && Placeable(ps) && p.parts != [] && BuildFrom(root, ps) == Ok(t)
    ensures Placeable(ps + [p]) && t.DirEntry?
    ensures BuildFrom(root, ps + [p]) == Place(t, [], p.parts, p.node)
    ensures BuildFrom(root, (ps + [p])[..|ps|]) == Ok(t)
  {
    assert (ps + [p])[..|ps|] == ps;
  }

  /** A node named after its last segment, recording its joined segments, keeps the placements named. */
  lemma NodesNamedAdd(ps: seq<Placement>, p: Placement)
    requires Placeable(ps) && NodesNamed(ps) && p.parts != []
    requires p.node.name == p.parts[|p.parts| - 1] && p.node.path == PathOf(p.parts)
    ensures Placeable(ps + [p]) && NodesNamed(ps + [p])
  {
  }

  /** Every node has no handle and holds its placement's file. */
  predicate NodesHold(ps: seq<Placement>)
    reads set k | 0 <= k < |ps| :: ps[k].node
  {
    forall k :: 0 <= k < |ps| ==> ps[k].node.handle == None && ps[k].node.file == Some(ps[k].blob)
  }

  /** The nodes of the placements. */
  function Nodes(ps: seq<Placement>): set<FileNode>
  {
    if ps == [] then {} else Nodes(ps[..|ps| - 1]) + {ps[|ps| - 1].node}
  }

  /** One more placement adds its node. */
  lemma NodesAdd(ps: seq<Placement>, p: Placement)
    ensures Nodes(ps + [p]) == Nodes(ps) + {p.node}
  {
    assert (ps + [p])[..|ps|] == ps;
  }

  /** A node holding its file keeps the placements holding theirs. */
  lemma NodesHoldAdd(ps: seq<Placement>, p: Placement)
    requires NodesHold(ps) && p.node.handle == None && p.node.file == Some(p.blob)
    ensures NodesHold(ps + [p])
  {
  }

  /** The segments and contents of each file with at least one segment, in order. */
  function Wanted(files: seq<InputFile>): seq<(seq<string>, Blob)>
  {
    if files == [] then []
    else
      var f := files[|files| - 1];
      var parts := Segments(RelativePathOf(f));
      Wanted(files[..|files| - 1]) + if parts == [] then [] else [(parts, f.blob)]
  }

  /** The segments and contents the placements record. */
  function Shapes(ps: seq<Placement>): seq<(seq<string>, Blob)>
  {
    seq(|ps|, k requires 0 <= k < |ps| => (ps[k].parts, ps[k].blob))
  }

  /** One more file adds its shape when it has segments. */
  lemma WantedStep(files: seq<InputFile>, j: nat)
    requires j < |files|
    ensures Wanted(files[..j + 1]) ==
      Wanted(files[..j]) + if Segments(RelativePathOf(files[j])) == [] then [] else [(Segments(RelativePathOf(files[j])), files[j].blob)]
  {
    assert files[..j + 1][..j] == files[..j];
  }

  /** One more placement adds its shape. */
  lemma ShapesStep(ps: seq<Placement>, p: Placement)
    ensures Shapes(ps + [p]) == Shapes(ps) + [(p.parts, p.blob)]
  {
  }

  /**
   * After the first `j` files: the placements are those of the files with segments,
   * each node is named after its segments, and `root` is the tree they build.
   */
  ghost predicate Built(files: seq<InputFile>, j: nat, rootName: string, placed: seq<Placement>, root: Entry)
  {
    j <= |files| && Placeable(placed) && NodesNamed(placed) && Shapes(placed) == Wanted(files[..j]) &&
    root.DirEntry? && BuildFrom(EmptyRoot(rootName), placed) == Ok(root)
  }

  /** Placing the next file extends the build, or stops it with that file as the last placement. */
  lemma BuiltStep(files: seq<InputFile>, j: nat, rootName: string, placed: seq<Placement>, root: Entry,
                  p: Placement, res: Result<Entry, BuildError>)
    requires Built(files, j, rootName, placed, root) && j < |files|
    requires p.parts == Segments(RelativePathOf(files[j])) && p.parts != [] && p.blob == files[j].blob
    requires p.node.name == p.parts[|p.parts| - 1] && p.node.path == PathOf(p.parts)
    requires res == Place(root, [], p.parts, p.node)
    ensures res.Ok? ==> Built(files, j + 1, rootName, placed + [p], res.value)
    ensures res.Err? ==> (
      Placeable(placed + [p]) && NodesNamed(placed + [p]) &&
      Shapes(placed + [p]) == Wanted(files[..j + 1]) &&
      BuildFrom(EmptyRoot(rootName), placed + [p]).Err? &&
      BuildFrom(EmptyRoot(rootName), (placed + [p])[..|placed + [p]| - 1]).Ok?)
  {
    WantedStep(files, j);
    ShapesStep(placed, p);
    NodesNamedAdd(placed, p);
    BuildStep(EmptyRoot(rootName), placed, p, root);
  }

  /** A file without segments is skipped. */
  lemma BuiltSkip(files: seq<InputFile>, j: nat, rootName: string, placed: seq<Placement>, root: Entry)
    requires Built(files, j, rootName, placed, root) && j < |files|
    requires Segments(RelativePathOf(files[j])) == []
    ensures Built(files, j + 1, rootName, placed, root)
  {
    WantedStep(files, j);
  }

  /**
   * The inner loop of `buildVFSFromFileList` for one file with segments `parts`: a new
   * node named after the last segment, recording the joined segments, with no handle,
   * placed from the root.
   */
  method PlaceFile(root: Entry, parts: seq<string>, blob: Blob) returns (r: Result<Entry, BuildError>, node: FileNode)
    requires root.DirEntry? && parts != []
    ensures fresh(node) && node.handle == None && node.file == Some(blob)
    ensures node.name == parts[|parts| - 1] && node.path == PathOf(parts)
    ensures r == Place(root, [], parts, node)
  {
    node := new FileNode(parts[|parts| - 1], PathOf(parts), None, Some(blob));
    r := Place(root, [], parts, node);
  }

  /** The placements after one more file: one more when the file has segments. */
  function Extend(ps: seq<Placement>, added: Option<Placement>): seq<Placement>
  {
    if added.Some? then ps + [added.value] else ps
  }

  /**
   * One pass of the outer loop of `buildVFSFromFileList`: a file with segments gets a
   * fresh node, named after its last segment, recording the joined segments, with no
   * handle and holding the file, and is placed; a file without segments is skipped.
   */
  method AddFile(files: seq<InputFile>, j: nat, ghost rootName: string, ghost placed: seq<Placement>, root: Entry)
    returns (res: Result<Entry, BuildError>, ghost added: Option<Placement>)
    requires Built(files, j, rootName, placed, root) && j < |files| && NodesHold(placed)
    ensures added.Some? ==> fresh(added.value.node)
    ensures NodesHold(Extend(placed, added))
    ensures res.Ok? ==> Built(files, j + 1, rootName, Extend(placed, added), res.value)
    ensures res.Err? ==> (
      added.Some? && Placeable(placed + [added.value]) && NodesNamed(placed + [added.value]) &&
      Shapes(placed + [added.value]) == Wanted(files[..j + 1]) &&
      BuildFrom(EmptyRoot(rootName), placed + [added.value]).Err? &&
      BuildFrom(EmptyRoot(rootName), (placed + [added.value])[..|placed|]).Ok?)
  {
    var f := files[j];
    var parts := Segments(RelativePathOf(f));
    if parts == [] {
      BuiltSkip(files, j, rootName, placed, root);
      return Ok(root), None;
    }
    var node;
    res, node := PlaceFile(root, parts, f.blob);
    var placement := Placement(parts, f.blob, node);
    BuiltStep(files, j, rootName, placed, root, placement, res);
    NodesHoldAdd(placed, placement);
    added := Some(placement);
  }

  /**
   * `buildVFSFromFileList`: the files are placed in order from an empty root; `placed`
   * records the nodes made for the files with segments. On failure `placed` ends with
   * the file that walked through an existing file.
   */
  method BuildVfsFromFileList(files: seq<InputFile>, rootName: string)
    returns (r: Result<Entry, BuildError>, ghost placed: seq<Placement>, ghost stop: nat)
    ensures stop <= |files| && Placeable(placed) && NodesNamed(placed) && Shapes(placed) == Wanted(files[..stop])
    ensures NodesHold(placed) && fresh(Nodes(placed))
    ensures r.Ok? ==> stop == |files| && r == BuildFrom(EmptyRoot(rootName), placed)
    ensures r.Err? ==> (
      placed != [] && BuildFrom(EmptyRoot(rootName), placed).Err? &&
      BuildFrom(EmptyRoot(rootName), placed[..|placed| - 1]).Ok?)
  {
    var root := EmptyRoot(rootName);
    placed := [];
    var j := 0;
    assert files[..0] == [];
    while j < |files|
      invariant Built(files, j, rootName, placed, root)
      invariant NodesHold(placed) && fresh(Nodes(placed))
    {
      var res;
      ghost var added;
      ghost var before := Nodes(placed);
      res, added := AddFile(files, j, rootName, placed, root);
      assert fresh(before);
      if added.Some? {
        NodesAdd(placed, added.value);
        assert fresh(before + {added.value.node});
      }
      placed := Extend(placed, added);
      if res.Err? {
        r, stop := res, j + 1;
        return;
      }
      root := res.value;
      j := j + 1;
    }
    assert files[..j] == files;
    r, stop := Ok(root), j;
  }



}
