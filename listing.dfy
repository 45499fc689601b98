/**
 * The folder listing of the tree panel (app.js `populateDir`): folders first, then the
 * files the viewer supports, each group sorted by name, with an "(empty)" placeholder
 * when nothing is listed.
 */
module TreeListing {
  import opened JsText
  import opened FileTypes
  import opened Vfs

  /**
   * `a.localeCompare(b) < 0`, taken as code-unit order: a proper prefix sorts first,
   * otherwise the first differing character decides.
   */
  predicate Below(a: string, b: string)
    decreases |a|
  {
    if a == [] then b != []
    else if b == [] then false
    else if a[0] != b[0] then a[0] < b[0]
    else Below(a[1..], b[1..])
  }

  lemma {:induction false} BelowIrreflexive(a: string)
    ensures !Below(a, a)
    decreases |a|
  {
    if a != [] {
      BelowIrreflexive(a[1..]);
    }
  }

  lemma {:induction false} BelowTransitive(a: string, b: string, c: string)
    requires Below(a, b) && Below(b, c)
    ensures Below(a, c)
    decreases |a|
  {
    if a != [] && a[0] == b[0] && b[0] == c[0] {
      BelowTransitive(a[1..], b[1..], c[1..]);
    }
  }

  lemma {:induction false} BelowTotal(a: string, b: string)
    requires a != b
    ensures Below(a, b) || Below(b, a)
    decreases |a|
  {
    if a != [] && b != [] && a[0] == b[0] {
      assert a == [a[0]] + a[1..] && b == [b[0]] + b[1..];
      BelowTotal(a[1..], b[1..]);
    }
  }

  /** Names in strictly increasing order (so each at most once). */
  predicate Sorted(s: seq<string>)
  {
    forall i, j :: 0 <= i < j < |s| ==> Below(s[i], s[j])
  }

  predicate Distinct(s: seq<string>)
  {
    forall i, j :: 0 <= i < j < |s| ==> s[i] != s[j]
  }

  /** `x` inserted into the sorted `s` before the first name it sorts below. */
  function Insert(s: seq<string>, x: string): (r: seq<string>)
    ensures multiset(r) == multiset(s) + multiset{x}
    decreases |s|
  {
    if s == [] then [x]
    else if Below(x, s[0]) then [x] + s
    else
      assert s == [s[0]] + s[1..];
      [s[0]] + Insert(s[1..], x)
  }

  lemma {:induction false} InsertSorted(s: seq<string>, x: string)
    requires Sorted(s) && x !in s
    ensures Sorted(Insert(s, x))
    decreases |s|
  {
    if s != [] {
      var r := Insert(s, x);
      if Below(x, s[0]) {
        forall j | 0 < j < |s|
          ensures Below(x, s[j])
        {
          BelowTransitive(x, s[0], s[j]);
        }
        assert forall i, j :: 0 <= i < j < |r| ==> Below(r[i], r[j]) by {
          forall i, j | 0 <= i < j < |r|
            ensures Below(r[i], r[j])
          {
            if i > 0 {
              assert r[i] == s[i - 1] && r[j] == s[j - 1];
            }
          }
        }
      } else {
        BelowTotal(x, s[0]);
        var t := Insert(s[1..], x);
        InsertSorted(s[1..], x);
        assert r == [s[0]] + t;
        forall k | 0 <= k < |t|
          ensures Below(s[0], t[k])
        {
          assert t[k] in multiset(t);
          if t[k] != x {
            assert t[k] in multiset(s[1..]);
            var m :| 0 <= m < |s[1..]| && s[1..][m] == t[k];
            assert s[m + 1] == t[k];
          }
        }
        assert forall i, j :: 0 <= i < j < |r| ==> Below(r[i], r[j]) by {
          forall i, j | 0 <= i < j < |r|
            ensures Below(r[i], r[j])
          {
            if i > 0 {
              assert r[i] == t[i - 1] && r[j] == t[j - 1];
            } else {
              assert r[j] == t[j - 1];
            }
          }
        }
      }
    }
  }

  /** `names.sort(...)` on names that are all different: the same names, in order. */
  function SortNames(s: seq<string>): (r: seq<string>)
    requires Distinct(s)
    ensures Sorted(r) && multiset(r) == multiset(s)
    decreases |s|
  {
    if s == [] then []
    else
      var init := s[..|s| - 1];
      var x := s[|s| - 1];
      assert s == init + [x];
      assert x !in init;
      var r0 := SortNames(init);
      assert x !in multiset(r0);
      InsertSorted(r0, x);
      Insert(r0, x)
  }

  /** Two sorted name lists with the same names are the same list. */
  lemma {:induction false} SortedUnique(s: seq<string>, t: seq<string>)
    requires Sorted(s) && Sorted(t)
    requires forall x :: x in s <==> x in t
    ensures s == t
    decreases |s|
  {
    if s == [] {
      forall x
        ensures x !in multiset(t)
      {
        assert x in t <==> x in s;
      }
      assert multiset(t) == multiset{};
      assert |t| == |multiset(t)| == 0;
    } else {
      assert t != [] by {
        assert s[0] in s;
      }
      assert s[0] in t;
      assert t[0] in s;
      var k :| 0 <= k < |s| && s[k] == t[0];
      var m :| 0 <= m < |t| && t[m] == s[0];
      if k > 0 && m > 0 {
        BelowTransitive(s[0], t[0], s[0]);
        BelowIrreflexive(s[0]);
      }
      assert s[0] == t[0];
      forall x
        ensures x in s[1..] <==> x in t[1..]
      {
        if x in s[1..] {
          var i :| 0 <= i < |s[1..]| && s[1..][i] == x;
          assert Below(s[0], s[i + 1]);
          BelowIrreflexive(x);
          assert x in t;
          var n :| 0 <= n < |t| && t[n] == x;
          assert n != 0;
          assert t[1..][n - 1] == x;
        }
        if x in t[1..] {
          var i :| 0 <= i < |t[1..]| && t[1..][i] == x;
          assert Below(t[0], t[i + 1]);
          BelowIrreflexive(x);
          assert x in s;
          var n :| 0 <= n < |s| && s[n] == x;
          assert n != 0;
          assert s[1..][n - 1] == x;
        }
      }
      SortedUnique(s[1..], t[1..]);
      assert s == [s[0]] + s[1..] && t == [t[0]] + t[1..];
    }
  }

  /** The folder children, by name. */
  function DirNames(c: map<string, Entry>): set<string>
  {
    set k | k in c && c[k].DirEntry?
  }

  /**
   * The file children the listing keeps: those the file check `listed` accepts. The
   * source uses `isSupportedFile`, which as written is `IsSupportedFileAsWritten` and as
   * intended is `IsSupportedFile`.
   */
  function ListedFileNames(c: map<string, Entry>, listed: string -> bool): set<string>
  {
    set k | k in c && c[k].FileEntry? && listed(k)
  }

  /** `basePath ? basePath + '/' + name : name`. */
  function ChildPath(basePath: string, name: string): string
  {
    if basePath == "" then name else basePath + "/" + name
  }

  /** One line of the listing: a tree item with its label, its path and its node, or the placeholder. */
  datatype Row = ItemRow(name: string, path: string, entry: Entry) | EmptyPlaceholder

  /** The tree items for `names`, in order. */
  function Items(c: map<string, Entry>, basePath: string, names: seq<string>): (r: seq<Row>)
    requires forall n :: n in names ==> n in c
    ensures |r| == |names|
    ensures forall i :: 0 <= i < |names| ==> r[i] == ItemRow(names[i], ChildPath(basePath, names[i]), c[names[i]])
    decreases |names|
  {
    if names == [] then []
    else Items(c, basePath, names[..|names| - 1]) + [ItemRow(names[|names| - 1], ChildPath(basePath, names[|names| - 1]), c[names[|names| - 1]])]
  }

  /** The first loop of `populateDir`: every child visited once, in some order, folders and the files `listed` accepts pushed. */
  method CollectChildren(c: map<string, Entry>, listed: string -> bool) returns (dirs: seq<string>, files: seq<string>)
    ensures Distinct(dirs) && forall n :: n in dirs <==> n in DirNames(c)
    ensures Distinct(files) && forall n :: n in files <==> n in ListedFileNames(c, listed)
  {
    var remaining := c.Keys;
    dirs := [];
    files := [];
    while remaining != {}
      invariant remaining <= c.Keys
      invariant forall n :: n in dirs <==> n in DirNames(c) && n !in remaining
      invariant forall n :: n in files <==> n in ListedFileNames(c, listed) && n !in remaining
      invariant Distinct(dirs) && Distinct(files)
      decreases |remaining|
    {
      var name :| name in remaining;
      var child := c[name];
      if child.DirEntry? {
        dirs := dirs + [name];
      } else if listed(name) {
        files := files + [name];
      }
      remaining := remaining - {name};
    }
  }

  /** A sorting loop's output holds the names its input held. */
  lemma SortedSameNames(s: seq<string>)
    requires Distinct(s)
    ensures forall n :: n in SortNames(s) <==> n in s
  {
    forall n
      ensures n in SortNames(s) <==> n in s
    {
      assert n in SortNames(s) <==> n in multiset(SortNames(s));
      assert n in s <==> n in multiset(s);
    }
  }

  /** The appending loops of `populateDir`: one tree item per name, in order. */
  method AppendItems(rows: seq<Row>, c: map<string, Entry>, basePath: string, names: seq<string>) returns (r: seq<Row>)
    requires forall n :: n in names ==> n in c
    ensures r == rows + Items(c, basePath, names)
  {
    r := rows;
    for i := 0 to |names|
      invariant r == rows + Items(c, basePath, names[..i])
    {
      assert names[..i + 1][..i] == names[..i];
      r := r + [ItemRow(names[i], ChildPath(basePath, names[i]), c[names[i]])];
    }
    assert names[..|names|] == names;
  }

  /**
   * `populateDir(containerUl, dirNode, basePath)` with the file check `listed`: the
   * children are visited in some order and split into folders and the files the check
   * accepts, each group is sorted, and the rows are the folders, then the files, or the
   * placeholder alone when both groups are empty.
   */
  method PopulateDir(dir: Entry, basePath: string, listed: string -> bool) returns (dirs: seq<string>, files: seq<string>, rows: seq<Row>)
    requires dir.DirEntry?
    ensures Sorted(dirs) && forall n :: n in dirs <==> n in DirNames(dir.children)
    ensures Sorted(files) && forall n :: n in files <==> n in ListedFileNames(dir.children, listed)
    ensures (rows == [EmptyPlaceholder]) <==> (DirNames(dir.children) == {} && ListedFileNames(dir.children, listed) == {})
    ensures rows != [EmptyPlaceholder] ==>
      (forall n :: n in dirs + files ==> n in dir.children) &&
      rows == Items(dir.children, basePath, dirs) + Items(dir.children, basePath, files)
  {
    var c := dir.children;
    dirs, files := CollectChildren(c, listed);
    SortedSameNames(dirs);
    SortedSameNames(files);
    dirs := SortNames(dirs);
    files := SortNames(files);
    rows := AppendItems([], c, basePath, dirs);
    assert rows == Items(c, basePath, dirs);
    rows := AppendItems(rows, c, basePath, files);
    GroupsEmpty(dirs, files, DirNames(c), ListedFileNames(c, listed));
    ChildrenListed(c, listed);
    if dirs == [] && files == [] {
      rows := rows + [EmptyPlaceholder];
    } else {
      assert rows[0].ItemRow?;
    }
  }

  /** Both groups are empty exactly when the name sets they hold are. */
  lemma GroupsEmpty(dirs: seq<string>, files: seq<string>, ds: set<string>, fs: set<string>)
    requires forall n :: n in dirs <==> n in ds
    requires forall n :: n in files <==> n in fs
    ensures (dirs == [] && files == []) <==> (ds == {} && fs == {})
  {
    if dirs != [] {
      assert dirs[0] in ds;
    }
    if files != [] {
      assert files[0] in fs;
    }
  }

  /** The listed folders and files are children of the folder. */
  lemma ChildrenListed(c: map<string, Entry>, listed: string -> bool)
    ensures DirNames(c) <= c.Keys && ListedFileNames(c, listed) <= c.Keys
  {
  }

  /**
   * The listing is the same whatever order the children are visited in: any two sorted
   * name lists holding the folders (or the listed files) agree.
   */
  lemma ListingOrderFree(c: map<string, Entry>, dirs1: seq<string>, dirs2: seq<string>)
    requires Sorted(dirs1) && Sorted(dirs2)
    requires forall n :: n in dirs1 <==> n in DirNames(c)
    requires forall n :: n in dirs2 <==> n in DirNames(c)
    ensures dirs1 == dirs2
  {
    SortedUnique(dirs1, dirs2);
  }

  /**
   * With the check as written, a file child named `stem.constructor` is listed, although
   * it is no supported document and the intended check drops it; for every other child
   * name the two checks list the same files.
   */
  lemma ListedAsWritten(c: map<string, Entry>, stem: string)
    requires stem + ".constructor" in c && c[stem + ".constructor"].FileEntry?
    ensures stem + ".constructor" in ListedFileNames(c, IsSupportedFileAsWritten)
    ensures stem + ".constructor" !in ListedFileNames(c, IsSupportedFile)
    ensures forall n :: Extname(n) !in {"constructor", "__proto__"} ==>
      (n in ListedFileNames(c, IsSupportedFileAsWritten) <==> n in ListedFileNames(c, IsSupportedFile))
  {
    InheritedKeyCounterexample(stem);
    forall n | Extname(n) !in {"constructor", "__proto__"}
      ensures IsSupportedFileAsWritten(n) == IsSupportedFile(n)
    {
      AsWrittenDiffersOnlyOnInherited(n);
    }
  }

  /** The path of a tree node as it records it. */
  function EntryPath(e: Entry): string
  {
    match e
      case FileEntry(n) => n.path
      case DirEntry(_, p, _) => p
  }

  lemma {:induction false} JoinAppend(parts: seq<string>, x: string, sep: string)
    requires parts != []
    ensures Join(parts + [x], sep) == Join(parts, sep) + sep + x
    decreases |parts|
  {
    if |parts| > 1 {
      assert (parts + [x])[1..] == parts[1..] + [x];
      JoinAppend(parts[1..], x, sep);
    } else {
      assert parts + [x] == [parts[0], x];
      assert [parts[0], x][1..] == [x];
    }
  }

  /**
   * In a well-formed tree whose segments are not empty, the path the listing gives a
   * child is the path recorded in the child's node.
   */
  lemma ListedPathIsNodePath(dir: Entry, at: seq<string>, name: string)
    requires dir.DirEntry? && Wf(dir, at) && name in dir.children
    requires forall j :: 0 <= j < |at| ==> at[j] != ""
    ensures ChildPath(dir.path, name) == EntryPath(dir.children[name])
  {
    var child := dir.children[name];
    assert Wf(child, at + [name]);
    assert EntryPath(child) == PathOf(at + [name]);
    if at == [] {
      assert at + [name] == [name];
    } else {
      JoinAppend(at, name, "/");
      assert |Join(at, "/")| >= |at[0]| > 0;
    }
  }
}
