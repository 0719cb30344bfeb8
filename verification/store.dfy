/**
 * The WireGuard directory (WIREGUARD_PATH) as a sequential, in-memory file store:
 * a map from file path to text plus a set of directories. Each method stands for
 * the one `os`/`shutil` call the services make, with Python's failure cases
 * (a raised exception) reported as `ok == false` / `None`.
 */
module Store {
  import opened Wrappers

  /** A path below WIREGUARD_PATH, as its components; `[]` is WIREGUARD_PATH itself. */
  type Path = seq<string>

  /** Every component is a real name (no empty component). */
  predicate Proper(p: Path) {
    forall i :: 0 <= i < |p| ==> p[i] != []
  }

  /**
   * `os.path.join(WIREGUARD_PATH, *parts)` as a path: an empty component adds
   * nothing, so joining `""` names WIREGUARD_PATH itself.
   */
  function PathOf(parts: seq<string>): (p: Path)
    ensures Proper(p) && |p| <= |parts|
    ensures (forall i :: 0 <= i < |parts| ==> parts[i] != []) ==> p == parts
    ensures forall x :: x in p <==> x in parts && x != []
  {
    if parts == [] then []
    else (if parts[0] == [] then [] else [parts[0]]) + PathOf(parts[1..])
  }

  function Parent(p: Path): Path
    requires p != []
  {
    p[..|p| - 1]
  }

  /** `p` is `q` or one of its ancestors. */
  predicate IsPrefix(p: Path, q: Path) {
    |p| <= |q| && q[..|p|] == p
  }

  /** `p` and all its ancestors, WIREGUARD_PATH included. */
  function Prefixes(p: Path): set<Path> {
    set k | 0 <= k <= |p| :: p[..k]
  }

  /** A top-level path has two prefixes: itself and WIREGUARD_PATH. */
  lemma PrefixesOfOne(x: string)
    ensures Prefixes([x]) == {[], [x]}
  {
    var p: Path := [x];
    assert p[..0] == [] && p[..1] == p;
    forall q | q in Prefixes(p)
      ensures q == [] || q == p
    {
      var k :| 0 <= k <= |p| && q == p[..k];
      assert k == 0 || k == 1;
    }
  }

  predicate Distinct<T(==)>(s: seq<T>) {
    forall i, j :: 0 <= i < j < |s| ==> s[i] != s[j]
  }

  /**
   * A consistent tree: every directory but the top one and every file sits in a
   * directory, nothing is both a file and a directory, and no component is empty.
   */
  ghost predicate WellFormed(files: map<Path, string>, dirs: set<Path>) {
    && (forall p :: p in dirs ==> Proper(p) && (p != [] ==> Parent(p) in dirs))
    && (forall p :: p in files ==> Proper(p) && p != [] && Parent(p) in dirs)
    && (forall p :: p in files ==> p !in dirs)
  }

  class FileStore {
    var files: map<Path, string>
    var dirs: set<Path>

    ghost predicate Valid()
      reads this
    {
      WellFormed(files, dirs)
    }

    constructor (files0: map<Path, string>, dirs0: set<Path>)
      requires WellFormed(files0, dirs0)
      ensures Valid() && files == files0 && dirs == dirs0
    {
      files := files0;
      dirs := dirs0;
    }

    /** `os.path.exists(p)`: a file or a directory. */
    predicate Exists(p: Path)
      reads this
    {
      p in files || p in dirs
    }

    /** The names `os.listdir(WIREGUARD_PATH)` reports. */
    function RootEntries(): set<string>
      reads this
    {
      (set p | p in dirs && |p| == 1 :: p[0]) + (set p | p in files && |p| == 1 :: p[0])
    }

    /** `open(p).read()`: `None` when `p` is missing or a directory (the open raises). */
    function Read(p: Path): (r: Option<string>)
      reads this
      ensures r.Some? <==> p in files
    {
      if p in files then Some(files[p]) else None
    }

    /**
     * `os.listdir(WIREGUARD_PATH)`: `None` when the directory is missing
     * (FileNotFoundError); otherwise every entry once, in an order the
     * operating system chooses.
     */
    method ListRoot() returns (entries: Option<seq<string>>)
      ensures entries.None? <==> [] !in dirs
      ensures entries.Some? ==> Distinct(entries.value)
      ensures entries.Some? ==> forall x :: x in entries.value <==> x in RootEntries()
    {
      if [] !in dirs {
        return None;
      }
      var rest := RootEntries();
      var out := [];
      while rest != {}
        invariant Distinct(out)
        invariant forall x :: x in out ==> x !in rest
        invariant forall x :: x in RootEntries() <==> x in out || x in rest
        decreases |rest|
      {
        var x :| x in rest;
        out := out + [x];
        rest := rest - {x};
      }
      return Some(out);
    }

    /**
     * `open(p, "w").write(text)`: replaces or creates the file; raises when the
     * parent directory is missing or `p` is a directory.
     */
    method WriteFile(p: Path, text: string) returns (ok: bool)
      requires Valid() && Proper(p)
      modifies this
      ensures Valid()
      ensures ok <==> p != [] && Parent(p) in old(dirs) && p !in old(dirs)
      ensures dirs == old(dirs)
      ensures files == if ok then old(files)[p := text] else old(files)
    {
      ok := p != [] && Parent(p) in dirs && p !in dirs;
      if ok {
        files := files[p := text];
      }
    }

    /**
     * `os.makedirs(p, exist_ok=True)`: creates `p` and its missing ancestors;
     * raises when `p` or one of its ancestors is a file.
     */
    method MakeDirs(p: Path) returns (ok: bool)
      requires Valid() && Proper(p)
      modifies this
      ensures Valid()
      ensures ok <==> forall k :: 0 <= k <= |p| ==> p[..k] !in old(files)
      ensures files == old(files)
      ensures dirs == if ok then old(dirs) + Prefixes(p) else old(dirs)
    {
      ok := forall k :: 0 <= k <= |p| ==> p[..k] !in files;
      if ok {
        forall q | q in Prefixes(p) && q != []
          ensures Parent(q) in Prefixes(p)
        {
          var k :| 0 <= k <= |p| && q == p[..k];
          assert Parent(q) == p[..k - 1];
        }
        dirs := dirs + Prefixes(p);
      }
    }

    /**
     * `shutil.rmtree(p)`: removes the directory `p` and everything below it;
     * raises when `p` is not a directory.
     */
    method RemoveTree(p: Path) returns (ok: bool)
      requires Valid()
      modifies this
      ensures Valid()
      ensures ok <==> p in old(dirs)
      ensures dirs == if ok then (set q | q in old(dirs) && !IsPrefix(p, q)) else old(dirs)
      ensures files == if ok then (map q | q in old(files) && !IsPrefix(p, q) :: old(files)[q]) else old(files)
    {
      ok := p in dirs;
      if ok {
        forall q | q != [] && IsPrefix(p, Parent(q))
          ensures IsPrefix(p, q)
        {
          assert q[..|p|] == Parent(q)[..|p|];
        }
        dirs := set q | q in dirs && !IsPrefix(p, q);
        files := map q | q in files && !IsPrefix(p, q) :: files[q];
      }
    }

    /** `os.remove(p)`: removes the file `p`; raises when `p` is not a file. */
    method RemoveFile(p: Path) returns (ok: bool)
      requires Valid()
      modifies this
      ensures Valid()
      ensures ok <==> p in old(files)
      ensures dirs == old(dirs)
      ensures files == old(files) - {p}
    {
      ok := p in files;
      files := files - {p};
    }
  }
}
