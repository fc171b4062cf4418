/**
 * The photo root (`UPLOAD_DIR` on the backend, `PHOTOS_ROOT` in the engine)
 * as an abstract directory tree one level deep: the files directly in the
 * root and its sub-folders, each with its listing, in listing order.
 */
module Library {
  import opened Wrappers

  datatype Folder = Folder(name: string, files: seq<string>)

  datatype Tree = Tree(rootFiles: seq<string>, folders: seq<Folder>)

  /** A directory of the tree: the root itself or one named sub-folder. */
  datatype Dir = Root | Sub(name: string)

  /** The directory `os.path.join(root, name)` names for a name without "/": the root itself for "" and ".". */
  function NamedDir(name: string): Dir {
    if name == "" || name == "." then Root else Sub(name)
  }

  predicate Distinct<T(==)>(s: seq<T>) {
    forall i, j :: 0 <= i < j < |s| ==> s[i] != s[j]
  }

  /** What a real file system guarantees: unique names in every directory. */
  ghost predicate WellFormed(t: Tree) {
    && Distinct(t.rootFiles)
    && (forall i, j :: 0 <= i < j < |t.folders| ==> t.folders[i].name != t.folders[j].name)
    && (forall i :: 0 <= i < |t.folders| ==> Distinct(t.folders[i].files))
  }

  /** Position of the first sub-folder called `name`, or -1. */
  function FolderIndex(folders: seq<Folder>, name: string): (k: int)
    ensures -1 <= k < |folders|
    ensures k >= 0 ==> folders[k].name == name
    ensures k >= 0 ==> forall j :: 0 <= j < k ==> folders[j].name != name
    ensures k < 0 ==> forall j :: 0 <= j < |folders| ==> folders[j].name != name
  {
    if |folders| == 0 then -1
    else if folders[0].name == name then 0
    else
      var k := FolderIndex(folders[1..], name);
      if k < 0 then -1 else k + 1
  }

  /** The first position holding `name` is the one `FolderIndex` reports. */
  lemma FolderIndexIs(folders: seq<Folder>, name: string, k: int)
    requires 0 <= k < |folders| && folders[k].name == name
    requires forall j :: 0 <= j < k ==> folders[j].name != name
    ensures FolderIndex(folders, name) == k
  {
  }

  /** The listing of a directory, or None when it does not exist. */
  function Files(t: Tree, d: Dir): Option<seq<string>> {
    match d
    case Root => Some(t.rootFiles)
    case Sub(n) =>
      var k := FolderIndex(t.folders, n);
      if k < 0 then None else Some(t.folders[k].files)
  }

  /** `os.path.exists(os.path.join(d, f))` for a file `f`. */
  predicate HasFile(t: Tree, d: Dir, f: string) {
    Files(t, d).Some? && f in Files(t, d).value
  }

  /** `os.makedirs(d, exist_ok=True)`: creates an empty folder only when it is missing. */
  function MakeDirs(t: Tree, d: Dir): (r: Tree)
    ensures Files(r, d) == if Files(t, d).Some? then Files(t, d) else Some([])
    ensures forall e :: e != d ==> Files(r, e) == Files(t, e)
    ensures WellFormed(t) ==> WellFormed(r)
  {
    match d
    case Root => t
    case Sub(n) =>
      if FolderIndex(t.folders, n) >= 0 then t
      else
        var r := Tree(t.rootFiles, t.folders + [Folder(n, [])]);
        FolderIndexIs(r.folders, n, |t.folders|);
        forall e | e != d ensures Files(r, e) == Files(t, e) {
          if e.Sub? && FolderIndex(t.folders, e.name) >= 0 {
            FolderIndexIs(r.folders, e.name, FolderIndex(t.folders, e.name));
          }
        }
        r
  }

  /** Replaces the listing of an existing directory. */
  function SetFiles(t: Tree, d: Dir, fs: seq<string>): Tree
    requires Files(t, d).Some?
  {
    match d
    case Root => Tree(fs, t.folders)
    case Sub(n) =>
      var k := FolderIndex(t.folders, n);
      Tree(t.rootFiles, t.folders[k := Folder(n, fs)])
  }

  /** Replacing one listing leaves every other directory as it was. */
  lemma {:induction false} FilesAfterSet(t: Tree, d: Dir, fs: seq<string>, e: Dir)
    requires Files(t, d).Some?
    ensures Files(SetFiles(t, d, fs), e) == if e == d then Some(fs) else Files(t, e)
  {
    var r := SetFiles(t, d, fs);
    if d.Sub? && e.Sub? {
      var k := FolderIndex(t.folders, d.name);
      if e == d {
        FolderIndexIs(r.folders, d.name, k);
      } else {
        var k2 := FolderIndex(t.folders, e.name);
        if k2 >= 0 {
          FolderIndexIs(r.folders, e.name, k2);
        } else {
          assert forall j :: 0 <= j < |r.folders| ==> r.folders[j].name == t.folders[j].name;
        }
      }
    }
  }

  /** Replacing a listing by one without repeated names keeps the tree well formed. */
  lemma SetFilesWellFormed(t: Tree, d: Dir, fs: seq<string>)
    requires WellFormed(t) && Files(t, d).Some? && Distinct(fs)
    ensures WellFormed(SetFiles(t, d, fs))
  {
  }

  /** The listing without `f`. */
  function Without(fs: seq<string>, f: string): seq<string>
    decreases |fs|
  {
    if fs == [] then []
    else if fs[0] == f then Without(fs[1..], f)
    else [fs[0]] + Without(fs[1..], f)
  }

  /** Removing `f` drops exactly that name and keeps names unique. */
  lemma {:induction false} WithoutSpec(fs: seq<string>, f: string)
    ensures forall g :: g in Without(fs, f) <==> g in fs && g != f
    ensures Distinct(fs) ==> Distinct(Without(fs, f))
    decreases |fs|
  {
    if fs != [] {
      var rest := Without(fs[1..], f);
      WithoutSpec(fs[1..], f);
      assert fs == [fs[0]] + fs[1..];
      if Distinct(fs) && fs[0] != f {
        var r := [fs[0]] + rest;
        forall i, j | 0 <= i < j < |r| ensures r[i] != r[j] {
          assert r[j] == rest[j - 1];
          if i > 0 {
            assert r[i] == rest[i - 1];
          } else {
            assert fs[0] !in fs[1..];
          }
        }
      }
    }
  }

  /** The listing after writing `g` (replacing a file of that name). */
  function With(fs: seq<string>, g: string): seq<string> {
    if g in fs then fs else fs + [g]
  }

  /** Writing `g` adds exactly that name and keeps names unique. */
  lemma WithSpec(fs: seq<string>, g: string)
    ensures forall h :: h in With(fs, g) <==> h in fs || h == g
    ensures Distinct(fs) ==> Distinct(With(fs, g))
  {
  }

  /**
   * `shutil.move(src/f, dst/g)`: removes `f` from `src` and writes `g` into
   * `dst`, replacing a file of that name.
   */
  function Move(t: Tree, src: Dir, f: string, dst: Dir, g: string): Tree
    requires HasFile(t, src, f) && Files(t, dst).Some?
  {
    var t1 := SetFiles(t, src, Without(Files(t, src).value, f));
    FilesAfterSet(t, src, Without(Files(t, src).value, f), dst);
    SetFiles(t1, dst, With(Files(t1, dst).value, g))
  }

  /**
   * After a move the file is in its destination, which keeps its other
   * files; a different source loses exactly that file; every other
   * directory is untouched, and names stay unique.
   */
  lemma MoveSpec(t: Tree, src: Dir, f: string, dst: Dir, g: string)
    requires HasFile(t, src, f) && Files(t, dst).Some?
    ensures HasFile(Move(t, src, f, dst, g), dst, g)
    ensures src != dst ==> !HasFile(Move(t, src, f, dst, g), src, f)
    ensures src != dst ==> forall h :: HasFile(Move(t, src, f, dst, g), dst, h) <==> HasFile(t, dst, h) || h == g
    ensures src != dst ==> forall h :: HasFile(Move(t, src, f, dst, g), src, h) <==> HasFile(t, src, h) && h != f
    ensures forall e :: e != src && e != dst ==> Files(Move(t, src, f, dst, g), e) == Files(t, e)
    ensures WellFormed(t) ==> WellFormed(Move(t, src, f, dst, g))
  {
    var fs1 := Without(Files(t, src).value, f);
    WithoutSpec(Files(t, src).value, f);
    var t1 := SetFiles(t, src, fs1);
    FilesAfterSet(t, src, fs1, dst);
    var fs2 := With(Files(t1, dst).value, g);
    WithSpec(Files(t1, dst).value, g);
    var r := SetFiles(t1, dst, fs2);
    forall e ensures Files(r, e) == if e == dst then Some(fs2) else if e == src then Some(fs1) else Files(t, e) {
      FilesAfterSet(t1, dst, fs2, e);
      FilesAfterSet(t, src, fs1, e);
    }
    if WellFormed(t) {
      SetFilesWellFormed(t, src, fs1);
      SetFilesWellFormed(t1, dst, fs2);
    }
  }

  /** `MoveSpec` for a destination created just before the move (a new one is empty), stated against the tree before. */
  lemma MoveIntoMadeDir(t: Tree, src: Dir, f: string, dst: Dir, g: string)
    requires HasFile(MakeDirs(t, dst), src, f)
    ensures var t' := Move(MakeDirs(t, dst), src, f, dst, g);
      && HasFile(t', dst, g)
      && (src != dst ==> !HasFile(t', src, f))
      && (src != dst ==> forall h :: HasFile(t', dst, h) <==> HasFile(t, dst, h) || h == g)
      && (src != dst ==> forall h :: HasFile(t', src, h) <==> HasFile(t, src, h) && h != f)
      && (forall e :: e != src && e != dst ==> Files(t', e) == Files(t, e))
      && (WellFormed(t) ==> WellFormed(t'))
  {
    var t1 := MakeDirs(t, dst);
    MoveSpec(t1, src, f, dst, g);
  }
}
