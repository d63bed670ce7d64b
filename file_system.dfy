/** The part of the local file system the downloader touches, as a set of
    directory paths and a map from file paths to their contents. The
    operating system's own answers (whether a call fails) are inputs of the
    operations in module Downloader, not part of this state. */
module FileSystem {
  import opened Base

  datatype Tree = Tree(dirs: set<Path>, files: map<Path, Bytes>)

  /** `p` names an entry strictly inside directory `d`. */
  predicate Beneath(p: Path, d: Path)
  {
    |p| > |d| && p[..|d|] == d && p[|d|] == '/'
  }

  /** Being inside a directory is transitive. */
  lemma BeneathTransitive(p: Path, e: Path, d: Path)
    requires Beneath(p, e) && Beneath(e, d)
    ensures Beneath(p, d)
  {
    assert p[..|d|] == p[..|e|][..|d|];
  }

  /** A tree a real file system can hold: every directory that contains a
      directory or a file exists. */
  ghost predicate WellFormed(t: Tree)
  {
    forall p, d :: (p in t.dirs || p in t.files) && Beneath(p, d) ==> d in t.dirs
  }

  /** What `fs::remove_dir_all(d)` leaves when it succeeds: `d` and every
      directory and file beneath it are gone, and nothing else changed. */
  function WithoutSubtree(t: Tree, d: Path): Tree
  {
    Tree(set p | p in t.dirs && p != d && !Beneath(p, d),
         map p | p in t.files && !Beneath(p, d) :: t.files[p])
  }

  /** Exactly `d` and what lies beneath it is removed; every other file
      keeps its content. */
  lemma WithoutSubtreeMembers(t: Tree, d: Path, p: Path)
    ensures p in WithoutSubtree(t, d).dirs <==> p in t.dirs && p != d && !Beneath(p, d)
    ensures p in WithoutSubtree(t, d).files <==> p in t.files && !Beneath(p, d)
    ensures p in WithoutSubtree(t, d).files ==> WithoutSubtree(t, d).files[p] == t.files[p]
  {
  }

  /** The path of entry `name` inside directory `d`. */
  function Join(d: Path, name: string): (p: Path)
    ensures Beneath(p, d)
  {
    d + "/" + name
  }

  lemma JoinInjective(d: Path, a: string, b: string)
    ensures Join(d, a) == Join(d, b) ==> a == b
  {
    if Join(d, a) == Join(d, b) {
      assert a == Join(d, a)[|d| + 1..];
      assert b == Join(d, b)[|d| + 1..];
    }
  }

  /** The directories above `d/name`, for a name without `/`: `d` and the
      directories above `d`. */
  lemma BeneathJoin(a: Path, name: string, d: Path)
    requires '/' !in name
    requires Beneath(Join(a, name), d)
    ensures d == a || Beneath(a, d)
  {
    var p := Join(a, name);
    if |d| == |a| {
      assert d == p[..|a|];
    } else if |d| < |a| {
      assert a[..|d|] == p[..|d|] && a[|d|] == p[|d|];
    }
  }

  /** Files `entries` (named relative to `d`) placed inside directory `d`. */
  function Placed(d: Path, entries: map<string, Bytes>): map<Path, Bytes>
  {
    assert forall a, b :: Join(d, a) == Join(d, b) ==> a == b by {
      forall a, b ensures Join(d, a) == Join(d, b) ==> a == b { JoinInjective(d, a, b); }
    }
    map name | name in entries :: Join(d, name) := entries[name]
  }

  /** Every entry lands at its name inside `d`, and nothing lands
      outside `d`. */
  lemma PlacedMembers(d: Path, entries: map<string, Bytes>, name: string, p: Path)
    ensures name in entries ==> Join(d, name) in Placed(d, entries) && Placed(d, entries)[Join(d, name)] == entries[name]
    ensures p in Placed(d, entries) ==> Beneath(p, d)
  {
    if name in entries {
      forall other | Join(d, other) == Join(d, name) ensures other == name {
        JoinInjective(d, other, name);
      }
    }
  }

  /** Directory `d` exists and holds no directory and no file. */
  predicate IsEmptyDir(t: Tree, d: Path)
  {
    && d in t.dirs
    && (forall p :: p in t.dirs ==> !Beneath(p, d))
    && (forall p :: p in t.files ==> !Beneath(p, d))
  }

  /** The file system, updated in place by the downloader's operations. */
  class Disk {
    var dirs: set<Path>
    var files: map<Path, Bytes>

    function State(): Tree
      reads this
    {
      Tree(dirs, files)
    }

    constructor (initial: Tree)
      ensures State() == initial
    {
      dirs := initial.dirs;
      files := initial.files;
    }

    /** `Path::new(path).is_dir()`. */
    function IsDir(path: Path): bool
      reads this
    {
      path in dirs
    }

    /** A successful `fs::create_dir(path)`. */
    method MakeDir(path: Path)
      modifies this
      ensures dirs == old(dirs) + {path} && files == old(files)
    {
      dirs := dirs + {path};
    }

    /** A successful `fs::remove_dir_all(path)`. */
    method RemoveAll(path: Path)
      modifies this
      ensures State() == WithoutSubtree(old(State()), path)
    {
      var t := WithoutSubtree(State(), path);
      dirs, files := t.dirs, t.files;
    }

    /** A successful extraction into `target`: the target directory exists
        and holds the extracted files, which replace any file of the same
        path. */
    method PlaceFiles(target: Path, entries: map<string, Bytes>)
      modifies this
      ensures dirs == old(dirs) + {target} && files == old(files) + Placed(target, entries)
    {
      dirs := dirs + {target};
      files := files + Placed(target, entries);
    }

    /** `File::create(path)` followed by writes of `contents`: the file is
        truncated and then holds exactly `contents`. */
    method PutFile(path: Path, contents: Bytes)
      modifies this
      ensures dirs == old(dirs) && files == old(files)[path := contents]
    {
      files := files[path := contents];
    }
  }
}
