/**
 * Directory trees and `DirectoryCopy` (the Microsoft reference recursive copy
 * used to install the patch from the Steam Workshop folder).
 *
 * A directory lists its files and its sub-directories in the order
 * `GetFiles()` and `GetDirectories()` return them; the copy visits them in that
 * order and stops at the first failure, leaving what it already copied behind.
 */
module Tree {
  import opened Wrappers

  datatype FileEntry = FileEntry(name: string, content: string)
  datatype Dir = Dir(files: seq<FileEntry>, subdirs: seq<SubDir>)
  datatype SubDir = SubDir(name: string, dir: Dir)

  /** A directory just made by `Directory.CreateDirectory`. */
  const Empty: Dir := Dir([], [])

  // ---------------------------------------------------------------------------
  // Looking things up
  // ---------------------------------------------------------------------------

  function FindFile(files: seq<FileEntry>, name: string): Option<string> {
    if |files| == 0 then None
    else if files[0].name == name then Some(files[0].content)
    else FindFile(files[1..], name)
  }

  function FindDir(subs: seq<SubDir>, name: string): Option<Dir> {
    if |subs| == 0 then None
    else if subs[0].name == name then Some(subs[0].dir)
    else FindDir(subs[1..], name)
  }

  /** Some file or folder of `d` is called `name`. */
  predicate Taken(d: Dir, name: string) {
    FindFile(d.files, name).Some? || FindDir(d.subdirs, name).Some?
  }

  /** The content of the file at relative path `path` below `d`, if there is one. */
  function FileAt(d: Dir, path: seq<string>): Option<string>
    decreases |path|
  {
    if |path| == 0 then None
    else if |path| == 1 then FindFile(d.files, path[0])
    else
      match FindDir(d.subdirs, path[0])
      case None => None
      case Some(sub) => FileAt(sub, path[1..])
  }

  /** No two entries of one folder share a name, at every level: what a real file system guarantees. */
  predicate WellFormed(d: Dir) {
    && (forall i, j :: 0 <= i < j < |d.files| ==> d.files[i].name != d.files[j].name)
    && (forall i, j :: 0 <= i < j < |d.subdirs| ==> d.subdirs[i].name != d.subdirs[j].name)
    && (forall i, j :: 0 <= i < |d.files| && 0 <= j < |d.subdirs| ==> d.files[i].name != d.subdirs[j].name)
    && (forall i :: 0 <= i < |d.subdirs| ==> WellFormed(d.subdirs[i].dir))
  }

  // ---------------------------------------------------------------------------
  // Changing a folder
  // ---------------------------------------------------------------------------

  /** Replaces the sub-folder called `name`, or adds it at the end. */
  function PutDir(subs: seq<SubDir>, name: string, sub: Dir): seq<SubDir> {
    if |subs| == 0 then [SubDir(name, sub)]
    else if subs[0].name == name then [SubDir(name, sub)] + subs[1..]
    else [subs[0]] + PutDir(subs[1..], name, sub)
  }

  /**
   * `File.WriteAllText(dir/name, text)`: creates or replaces the file; fails
   * when a folder holds that name.
   */
  function WriteFile(d: Dir, name: string, text: string): (r: Option<Dir>)
    ensures r.Some? <==> FindDir(d.subdirs, name).None?
    ensures r.Some? ==> FileAt(r.value, [name]) == Some(text)
    ensures r.Some? ==> r.value.subdirs == d.subdirs
    ensures r.Some? ==> forall n :: n != name ==> FindFile(r.value.files, n) == FindFile(d.files, n)
  {
    if FindDir(d.subdirs, name).Some? then None
    else Some(d.(files := [FileEntry(name, text)] + RemoveFile(d.files, name)))
  }

  function RemoveFile(files: seq<FileEntry>, name: string): (r: seq<FileEntry>)
    ensures FindFile(r, name).None?
    ensures forall n :: n != name ==> FindFile(r, n) == FindFile(files, n)
  {
    if |files| == 0 then []
    else if files[0].name == name then RemoveFile(files[1..], name)
    else [files[0]] + RemoveFile(files[1..], name)
  }

  // ---------------------------------------------------------------------------
  // DirectoryCopy
  // ---------------------------------------------------------------------------

  /** The destination as the copy left it, and whether the copy ran to the end. */
  datatype Copied = Copied(dest: Dir, ok: bool)

  /** The `foreach` over `GetFiles()`: `CopyTo(target, false)` raises when the name is taken. */
  function CopyFiles(files: seq<FileEntry>, dest: Dir): Copied {
    if |files| == 0 then Copied(dest, true)
    else if Taken(dest, files[0].name) then Copied(dest, false)
    else CopyFiles(files[1..], dest.(files := dest.files + [files[0]]))
  }

  /** A recursive `DirectoryCopy(src, dest, true)` once `dest` exists. */
  function CopyTree(src: Dir, dest: Dir): Copied
    decreases src
  {
    var f := CopyFiles(src.files, dest);
    if !f.ok then f else CopySubdirs(src.subdirs, f.dest)
  }

  /**
   * The `foreach` over `GetDirectories()`: the nested call creates the target
   * folder (which fails if a file holds its name) and copies into it.
   */
  function CopySubdirs(subs: seq<SubDir>, dest: Dir): Copied
    decreases subs
  {
    if |subs| == 0 then Copied(dest, true)
    else
      var name := subs[0].name;
      if FindFile(dest.files, name).Some? then Copied(dest, false)
      else
        var c := CopyTree(subs[0].dir, FindDir(dest.subdirs, name).GetOr(Empty));
        var dest' := dest.(subdirs := PutDir(dest.subdirs, name, c.dest));
        if !c.ok then Copied(dest', false) else CopySubdirs(subs[1..], dest')
  }

  /** Why a copy stopped. */
  datatype CopyError = SourceMissing | NameTaken

  /** The destination folder afterwards (`None` if it was never created) and the exception raised, if any. */
  datatype CopyResult = CopyResult(dest: Option<Dir>, error: Option<CopyError>)

  /**
   * `DirectoryCopy(sourceDirName, destDirName, copySubDirs)`: raises before
   * touching anything when the source is missing; otherwise creates the
   * destination, copies the files, then (with `copySubDirs`) each sub-folder.
   */
  function DirectoryCopy(src: Option<Dir>, dest: Option<Dir>, copySubDirs: bool): (r: CopyResult)
    ensures src.None? <==> r.error == Some(SourceMissing)
    ensures src.None? ==> r.dest == dest
    ensures src.Some? ==> r.dest.Some?
  {
    match src
    case None => CopyResult(dest, Some(SourceMissing))
    case Some(s) =>
      var f := CopyFiles(s.files, dest.GetOr(Empty));
      if !f.ok then CopyResult(Some(f.dest), Some(NameTaken))
      else if !copySubDirs then CopyResult(Some(f.dest), None)
      else
        var c := CopySubdirs(s.subdirs, f.dest);
        CopyResult(Some(c.dest), if c.ok then None else Some(NameTaken))
  }

  // ---------------------------------------------------------------------------
  // Lookup facts
  // ---------------------------------------------------------------------------

  lemma {:induction false} FindFileAppend(fs: seq<FileEntry>, f: FileEntry, n: string)
    ensures FindFile(fs + [f], n)
         == if FindFile(fs, n).Some? then FindFile(fs, n) else if f.name == n then Some(f.content) else None
  {
    if |fs| > 0 {
      assert (fs + [f])[1..] == fs[1..] + [f];
      FindFileAppend(fs[1..], f, n);
    } else {
      assert fs + [f] == [f];
    }
  }

  lemma {:induction false} FindFileConcat(a: seq<FileEntry>, b: seq<FileEntry>, n: string)
    ensures FindFile(a + b, n) == if FindFile(a, n).Some? then FindFile(a, n) else FindFile(b, n)
  {
    if |a| > 0 {
      assert (a + b)[1..] == a[1..] + b;
      FindFileConcat(a[1..], b, n);
    } else {
      assert a + b == b;
    }
  }

  lemma {:induction false} FindFileAbsent(fs: seq<FileEntry>, n: string)
    requires forall i :: 0 <= i < |fs| ==> fs[i].name != n
    ensures FindFile(fs, n).None?
  {
    if |fs| > 0 {
      FindFileAbsent(fs[1..], n);
    }
  }

  lemma {:induction false} FindDirPut(subs: seq<SubDir>, name: string, x: Dir, n: string)
    ensures FindDir(PutDir(subs, name, x), n) == if n == name then Some(x) else FindDir(subs, n)
  {
    if |subs| > 0 && subs[0].name != name {
      FindDirPut(subs[1..], name, x, n);
    }
  }

  lemma {:induction false} FindDirAbsent(subs: seq<SubDir>, n: string)
    requires forall i :: 0 <= i < |subs| ==> subs[i].name != n
    ensures FindDir(subs, n).None?
  {
    if |subs| > 0 {
      FindDirAbsent(subs[1..], n);
    }
  }

  // ---------------------------------------------------------------------------
  // The copy never overwrites
  // ---------------------------------------------------------------------------

  lemma {:induction false} CopyFilesKeeps(files: seq<FileEntry>, dest: Dir, n: string)
    ensures CopyFiles(files, dest).dest.subdirs == dest.subdirs
    ensures FindFile(dest.files, n).Some? ==> FindFile(CopyFiles(files, dest).dest.files, n) == FindFile(dest.files, n)
  {
    if |files| > 0 && !Taken(dest, files[0].name) {
      var dest' := dest.(files := dest.files + [files[0]]);
      FindFileAppend(dest.files, files[0], n);
      CopyFilesKeeps(files[1..], dest', n);
    }
  }

  lemma CopyFilesKeepsPath(files: seq<FileEntry>, dest: Dir, p: seq<string>)
    ensures FileAt(dest, p).Some? ==> FileAt(CopyFiles(files, dest).dest, p) == FileAt(dest, p)
  {
    if |p| >= 1 {
      CopyFilesKeeps(files, dest, p[0]);
    }
  }

  lemma {:induction false} CopyTreeKeeps(src: Dir, dest: Dir, p: seq<string>)
    ensures FileAt(dest, p).Some? ==> FileAt(CopyTree(src, dest).dest, p) == FileAt(dest, p)
    decreases src
  {
    CopyFilesKeepsPath(src.files, dest, p);
    var f := CopyFiles(src.files, dest);
    if f.ok {
      CopySubdirsKeeps(src.subdirs, f.dest, p);
    }
  }

  lemma {:induction false} CopySubdirsKeeps(subs: seq<SubDir>, dest: Dir, p: seq<string>)
    ensures CopySubdirs(subs, dest).dest.files == dest.files
    ensures FileAt(dest, p).Some? ==> FileAt(CopySubdirs(subs, dest).dest, p) == FileAt(dest, p)
    decreases subs
  {
    if |subs| > 0 {
      var name := subs[0].name;
      if FindFile(dest.files, name).None? {
        var target := FindDir(dest.subdirs, name).GetOr(Empty);
        var c := CopyTree(subs[0].dir, target);
        var dest' := dest.(subdirs := PutDir(dest.subdirs, name, c.dest));
        if |p| >= 2 {
          FindDirPut(dest.subdirs, name, c.dest, p[0]);
          if p[0] == name {
            CopyTreeKeeps(subs[0].dir, target, p[1..]);
          }
        }
        assert FileAt(dest, p).Some? ==> FileAt(dest', p) == FileAt(dest, p);
        if c.ok {
          CopySubdirsKeeps(subs[1..], dest', p);
        }
      }
    }
  }

  /** `CopyTo(..., false)`: whatever the outcome, a file already at the destination keeps its content. */
  lemma DirectoryCopyNeverOverwrites(src: Option<Dir>, dest: Option<Dir>, copySubDirs: bool, p: seq<string>)
    requires dest.Some? && FileAt(dest.value, p).Some?
    ensures DirectoryCopy(src, dest, copySubDirs).dest.Some?
    ensures FileAt(DirectoryCopy(src, dest, copySubDirs).dest.value, p) == FileAt(dest.value, p)
  {
    if src.Some? {
      CopyFilesKeepsPath(src.value.files, dest.value, p);
      var f := CopyFiles(src.value.files, dest.value);
      if f.ok && copySubDirs {
        CopySubdirsKeeps(src.value.subdirs, f.dest, p);
      }
    }
  }

  // ---------------------------------------------------------------------------
  // A completed copy delivers every file
  // ---------------------------------------------------------------------------

  lemma {:induction false} CopyFilesDelivers(files: seq<FileEntry>, dest: Dir, n: string)
    requires CopyFiles(files, dest).ok
    requires FindFile(files, n).Some?
    ensures FindFile(CopyFiles(files, dest).dest.files, n) == FindFile(files, n)
  {
    var dest' := dest.(files := dest.files + [files[0]]);
    if files[0].name == n {
      FindFileAppend(dest.files, files[0], n);
      CopyFilesKeeps(files[1..], dest', n);
    } else {
      CopyFilesDelivers(files[1..], dest', n);
    }
  }

  lemma {:induction false} CopyTreeDelivers(src: Dir, dest: Dir, p: seq<string>)
    requires CopyTree(src, dest).ok
    requires FileAt(src, p).Some?
    ensures FileAt(CopyTree(src, dest).dest, p) == FileAt(src, p)
    decreases src
  {
    var f := CopyFiles(src.files, dest);
    if |p| == 1 {
      CopyFilesDelivers(src.files, dest, p[0]);
      CopySubdirsKeeps(src.subdirs, f.dest, p);
    } else {
      CopyFilesKeeps(src.files, dest, p[0]);
      CopySubdirsDelivers(src.subdirs, f.dest, p);
    }
  }

  lemma {:induction false} CopySubdirsDelivers(subs: seq<SubDir>, dest: Dir, p: seq<string>)
    requires CopySubdirs(subs, dest).ok
    requires |p| >= 2 && FindDir(subs, p[0]).Some? && FileAt(FindDir(subs, p[0]).value, p[1..]).Some?
    ensures FileAt(CopySubdirs(subs, dest).dest, p) == FileAt(FindDir(subs, p[0]).value, p[1..])
    decreases subs
  {
    var name := subs[0].name;
    var target := FindDir(dest.subdirs, name).GetOr(Empty);
    var c := CopyTree(subs[0].dir, target);
    var dest' := dest.(subdirs := PutDir(dest.subdirs, name, c.dest));
    if name == p[0] {
      CopyTreeDelivers(subs[0].dir, target, p[1..]);
      FindDirPut(dest.subdirs, name, c.dest, p[0]);
      assert FileAt(dest', p) == FileAt(subs[0].dir, p[1..]);
      CopySubdirsKeeps(subs[1..], dest', p);
    } else {
      CopySubdirsDelivers(subs[1..], dest', p);
    }
  }

  /** With `copySubDirs`, a copy that raised nothing put every file of the source tree in place. */
  lemma DirectoryCopyDeliversEveryFile(src: Dir, dest: Option<Dir>, p: seq<string>)
    requires DirectoryCopy(Some(src), dest, true).error.None?
    requires FileAt(src, p).Some?
    ensures FileAt(DirectoryCopy(Some(src), dest, true).dest.value, p) == FileAt(src, p)
  {
    var f := CopyFiles(src.files, dest.GetOr(Empty));
    assert CopyTree(src, dest.GetOr(Empty)) == CopySubdirs(src.subdirs, f.dest);
    CopyTreeDelivers(src, dest.GetOr(Empty), p);
  }

  /** Without `copySubDirs`, only the top-level files are copied and the destination's folders are untouched. */
  lemma DirectoryCopyShallow(src: Dir, dest: Option<Dir>, n: string)
    requires DirectoryCopy(Some(src), dest, false).error.None?
    ensures DirectoryCopy(Some(src), dest, false).dest.value.subdirs == dest.GetOr(Empty).subdirs
    ensures FindFile(src.files, n).Some?
        ==> FindFile(DirectoryCopy(Some(src), dest, false).dest.value.files, n) == FindFile(src.files, n)
  {
    CopyFilesKeeps(src.files, dest.GetOr(Empty), n);
    if FindFile(src.files, n).Some? {
      CopyFilesDelivers(src.files, dest.GetOr(Empty), n);
    }
  }

  // ---------------------------------------------------------------------------
  // When the copy completes
  // ---------------------------------------------------------------------------

  /** No file or folder of `src` lands on a name already taken at `dest`, at any depth. */
  predicate Fits(src: Dir, dest: Dir)
    decreases src
  {
    && (forall i :: 0 <= i < |src.files| ==> !Taken(dest, src.files[i].name))
    && SubdirsFit(src.subdirs, dest)
  }

  predicate SubdirsFit(subs: seq<SubDir>, dest: Dir)
    decreases subs
  {
    forall i :: 0 <= i < |subs| ==>
      && FindFile(dest.files, subs[i].name).None?
      && Fits(subs[i].dir, FindDir(dest.subdirs, subs[i].name).GetOr(Empty))
  }

  lemma {:induction false} CopyFilesSucceeds(files: seq<FileEntry>, dest: Dir)
    requires forall i, j :: 0 <= i < j < |files| ==> files[i].name != files[j].name
    requires forall i :: 0 <= i < |files| ==> !Taken(dest, files[i].name)
    ensures CopyFiles(files, dest) == Copied(dest.(files := dest.files + files), true)
  {
    if |files| > 0 {
      var dest' := dest.(files := dest.files + [files[0]]);
      forall i | 0 <= i < |files[1..]|
        ensures !Taken(dest', files[1..][i].name)
      {
        assert files[1..][i] == files[i + 1];
        FindFileAppend(dest.files, files[0], files[1..][i].name);
      }
      CopyFilesSucceeds(files[1..], dest');
      assert dest.files + [files[0]] + files[1..] == dest.files + files;
    } else {
      assert dest.files + files == dest.files;
    }
  }

  lemma {:induction false} CopyTreeSucceeds(src: Dir, dest: Dir)
    requires WellFormed(src) && Fits(src, dest)
    ensures CopyTree(src, dest).ok
    decreases src
  {
    CopyFilesSucceeds(src.files, dest);
    var d1 := dest.(files := dest.files + src.files);
    forall i | 0 <= i < |src.subdirs|
      ensures FindFile(d1.files, src.subdirs[i].name).None?
    {
      var n := src.subdirs[i].name;
      FindFileConcat(dest.files, src.files, n);
      FindFileAbsent(src.files, n);
    }
    assert SubdirsFit(src.subdirs, d1);
    CopySubdirsSucceeds(src.subdirs, d1);
  }

  lemma {:induction false} CopySubdirsSucceeds(subs: seq<SubDir>, dest: Dir)
    requires forall i, j :: 0 <= i < j < |subs| ==> subs[i].name != subs[j].name
    requires forall i :: 0 <= i < |subs| ==> WellFormed(subs[i].dir)
    requires SubdirsFit(subs, dest)
    ensures CopySubdirs(subs, dest).ok
    decreases subs
  {
    if |subs| > 0 {
      var name := subs[0].name;
      var target := FindDir(dest.subdirs, name).GetOr(Empty);
      CopyTreeSucceeds(subs[0].dir, target);
      var c := CopyTree(subs[0].dir, target);
      var dest' := dest.(subdirs := PutDir(dest.subdirs, name, c.dest));
      var rest := subs[1..];
      forall i | 0 <= i < |rest|
        ensures FindFile(dest'.files, rest[i].name).None?
        ensures Fits(rest[i].dir, FindDir(dest'.subdirs, rest[i].name).GetOr(Empty))
      {
        assert rest[i] == subs[i + 1];
        FindDirPut(dest.subdirs, name, c.dest, rest[i].name);
      }
      CopySubdirsSucceeds(rest, dest');
    }
  }

  /** A well-formed tree fits into a folder that was just created. */
  lemma {:induction false} FitsEmpty(src: Dir)
    requires WellFormed(src)
    ensures Fits(src, Empty)
    decreases src
  {
    forall i | 0 <= i < |src.subdirs|
      ensures Fits(src.subdirs[i].dir, Empty)
    {
      FitsEmpty(src.subdirs[i].dir);
    }
  }

  /** When nothing in the source lands on a taken name, the recursive copy raises nothing. */
  lemma DirectoryCopySucceeds(src: Dir, dest: Option<Dir>)
    requires WellFormed(src) && Fits(src, dest.GetOr(Empty))
    ensures DirectoryCopy(Some(src), dest, true).error.None?
  {
    CopyTreeSucceeds(src, dest.GetOr(Empty));
  }

  /** A first install copies into a missing folder: it always completes and delivers the whole tree. */
  lemma FreshCopyCompletes(src: Dir, p: seq<string>)
    requires WellFormed(src)
    ensures DirectoryCopy(Some(src), None, true).error.None?
    ensures FileAt(DirectoryCopy(Some(src), None, true).dest.value, p) == FileAt(src, p)
  {
    FitsEmpty(src);
    DirectoryCopySucceeds(src, None);
    if FileAt(src, p).Some? {
      DirectoryCopyDeliversEveryFile(src, None, p);
    } else {
      FreshCopyAddsNothing(src, p);
    }
  }

  // ---------------------------------------------------------------------------
  // Nothing but the two trees ends up at the destination
  // ---------------------------------------------------------------------------

  lemma {:induction false} CopyFilesOrigin(files: seq<FileEntry>, dest: Dir, n: string)
    ensures var r := CopyFiles(files, dest).dest;
      FindFile(r.files, n).Some? ==> FindFile(r.files, n) == FindFile(dest.files, n) || FindFile(r.files, n) == FindFile(files, n)
  {
    if |files| > 0 && !Taken(dest, files[0].name) {
      var dest' := dest.(files := dest.files + [files[0]]);
      FindFileAppend(dest.files, files[0], n);
      CopyFilesOrigin(files[1..], dest', n);
      if files[0].name == n {
        CopyFilesKeeps(files[1..], dest', n);
      }
    }
  }

  lemma {:induction false} CopySubdirsUntouched(subs: seq<SubDir>, dest: Dir, n: string)
    requires forall i :: 0 <= i < |subs| ==> subs[i].name != n
    ensures FindDir(CopySubdirs(subs, dest).dest.subdirs, n) == FindDir(dest.subdirs, n)
    decreases subs
  {
    if |subs| > 0 && FindFile(dest.files, subs[0].name).None? {
      var name := subs[0].name;
      var c := CopyTree(subs[0].dir, FindDir(dest.subdirs, name).GetOr(Empty));
      var dest' := dest.(subdirs := PutDir(dest.subdirs, name, c.dest));
      FindDirPut(dest.subdirs, name, c.dest, n);
      if c.ok {
        CopySubdirsUntouched(subs[1..], dest', n);
      }
    }
  }

  lemma FileAtEmpty(p: seq<string>)
    ensures FileAt(Empty, p).None?
  {
  }

  lemma {:induction false} CopyTreeOrigin(src: Dir, dest: Dir, p: seq<string>)
    requires WellFormed(src)
    ensures var r := CopyTree(src, dest).dest;
      FileAt(r, p).Some? ==> FileAt(r, p) == FileAt(dest, p) || FileAt(r, p) == FileAt(src, p)
    decreases src
  {
    var f := CopyFiles(src.files, dest);
    if |p| == 1 {
      CopyFilesOrigin(src.files, dest, p[0]);
      if f.ok {
        CopySubdirsKeeps(src.subdirs, f.dest, p);
      }
    } else if |p| >= 2 {
      CopyFilesKeeps(src.files, dest, p[0]);
      assert FileAt(f.dest, p) == FileAt(dest, p);
      if f.ok {
        CopySubdirsOrigin(src.subdirs, f.dest, p);
      }
    }
  }

  lemma {:induction false} CopySubdirsOrigin(subs: seq<SubDir>, dest: Dir, p: seq<string>)
    requires |p| >= 2
    requires forall i, j :: 0 <= i < j < |subs| ==> subs[i].name != subs[j].name
    requires forall i :: 0 <= i < |subs| ==> WellFormed(subs[i].dir)
    ensures var r := CopySubdirs(subs, dest).dest;
      FileAt(r, p).Some? ==>
        || FileAt(r, p) == FileAt(dest, p)
        || (FindDir(subs, p[0]).Some? && FileAt(r, p) == FileAt(FindDir(subs, p[0]).value, p[1..]))
    decreases subs
  {
    if |subs| > 0 && FindFile(dest.files, subs[0].name).None? {
      var name := subs[0].name;
      var target := FindDir(dest.subdirs, name).GetOr(Empty);
      var c := CopyTree(subs[0].dir, target);
      var dest' := dest.(subdirs := PutDir(dest.subdirs, name, c.dest));
      FindDirPut(dest.subdirs, name, c.dest, p[0]);
      if name == p[0] {
        CopyTreeOrigin(subs[0].dir, target, p[1..]);
        FileAtEmpty(p[1..]);
        assert FileAt(dest', p) == FileAt(c.dest, p[1..]);
        if c.ok {
          forall i | 0 <= i < |subs[1..]|
            ensures subs[1..][i].name != p[0]
          {
            assert subs[1..][i] == subs[i + 1];
          }
          CopySubdirsUntouched(subs[1..], dest', p[0]);
        }
      } else {
        assert FileAt(dest', p) == FileAt(dest, p);
        if c.ok {
          CopySubdirsOrigin(subs[1..], dest', p);
        }
      }
    }
  }

  /** Every file at the destination afterwards was already there or is the source's file at that path. */
  lemma DirectoryCopyOrigin(src: Dir, dest: Option<Dir>, copySubDirs: bool, p: seq<string>)
    requires WellFormed(src)
    ensures var r := DirectoryCopy(Some(src), dest, copySubDirs).dest.value;
      FileAt(r, p).Some? ==> FileAt(r, p) == FileAt(dest.GetOr(Empty), p) || FileAt(r, p) == FileAt(src, p)
  {
    var d := dest.GetOr(Empty);
    var f := CopyFiles(src.files, d);
    if |p| >= 1 {
      CopyFilesOrigin(src.files, d, p[0]);
      CopyFilesKeeps(src.files, d, p[0]);
    }
    if f.ok && copySubDirs {
      assert CopyTree(src, d) == CopySubdirs(src.subdirs, f.dest);
      CopyTreeOrigin(src, d, p);
    }
  }

  lemma FreshCopyAddsNothing(src: Dir, p: seq<string>)
    requires WellFormed(src) && FileAt(src, p).None?
    ensures FileAt(DirectoryCopy(Some(src), None, true).dest.value, p).None?
  {
    DirectoryCopyOrigin(src, None, true, p);
    FileAtEmpty(p);
  }

  // ---------------------------------------------------------------------------
  // A clash stops the copy
  // ---------------------------------------------------------------------------

  lemma {:induction false} CopyFilesRefuses(files: seq<FileEntry>, dest: Dir, n: string)
    requires FindFile(files, n).Some? && FindFile(dest.files, n).Some?
    ensures !CopyFiles(files, dest).ok
  {
    if files[0].name != n && !Taken(dest, files[0].name) {
      FindFileAppend(dest.files, files[0], n);
      CopyFilesRefuses(files[1..], dest.(files := dest.files + [files[0]]), n);
    }
  }

  lemma {:induction false} CopyTreeRefuses(src: Dir, dest: Dir, p: seq<string>)
    requires FileAt(src, p).Some? && FileAt(dest, p).Some?
    ensures !CopyTree(src, dest).ok
    decreases src
  {
    var f := CopyFiles(src.files, dest);
    if |p| == 1 {
      CopyFilesRefuses(src.files, dest, p[0]);
    } else if f.ok {
      CopyFilesKeeps(src.files, dest, p[0]);
      CopySubdirsRefuses(src.subdirs, f.dest, p);
    }
  }

  lemma {:induction false} CopySubdirsRefuses(subs: seq<SubDir>, dest: Dir, p: seq<string>)
    requires |p| >= 2
    requires FindDir(subs, p[0]).Some? && FileAt(FindDir(subs, p[0]).value, p[1..]).Some?
    requires FindDir(dest.subdirs, p[0]).Some? && FileAt(FindDir(dest.subdirs, p[0]).value, p[1..]).Some?
    ensures !CopySubdirs(subs, dest).ok
    decreases subs
  {
    var name := subs[0].name;
    if FindFile(dest.files, name).None? {
      var target := FindDir(dest.subdirs, name).GetOr(Empty);
      var c := CopyTree(subs[0].dir, target);
      var dest' := dest.(subdirs := PutDir(dest.subdirs, name, c.dest));
      if name == p[0] {
        CopyTreeRefuses(subs[0].dir, target, p[1..]);
      } else if c.ok {
        FindDirPut(dest.subdirs, name, c.dest, p[0]);
        CopySubdirsRefuses(subs[1..], dest', p);
      }
    }
  }

  /**
   * A file of the source whose path is already a file of the destination
   * makes the copy raise: `CopyTo(path, false)` refuses to overwrite, at the
   * top level and, with `copySubDirs`, in the nested calls alike.
   */
  lemma DirectoryCopyRefusesExistingFile(src: Dir, dest: Dir, copySubDirs: bool, p: seq<string>)
    requires FileAt(src, p).Some? && FileAt(dest, p).Some?
    requires copySubDirs || |p| == 1
    ensures DirectoryCopy(Some(src), Some(dest), copySubDirs).error == Some(NameTaken)
  {
    var f := CopyFiles(src.files, dest);
    if |p| == 1 {
      CopyFilesRefuses(src.files, dest, p[0]);
    } else if f.ok {
      CopyFilesKeeps(src.files, dest, p[0]);
      CopySubdirsRefuses(src.subdirs, f.dest, p);
    }
  }

  /** Writing one file leaves every other path as it was. */
  lemma WriteFileKeepsPath(d: Dir, name: string, text: string, p: seq<string>)
    requires WriteFile(d, name, text).Some? && p != [name]
    ensures FileAt(WriteFile(d, name, text).value, p) == FileAt(d, p)
  {
    if |p| == 1 {
      assert p[0] != name;
    }
  }

  lemma {:induction false} FindDirNone(subs: seq<SubDir>, n: string)
    requires FindDir(subs, n).None?
    ensures forall i :: 0 <= i < |subs| ==> subs[i].name != n
  {
    if |subs| > 0 {
      FindDirNone(subs[1..], n);
    }
  }

  /** A fresh copy holds a sub-folder of a given name only if the source does. */
  lemma FreshCopyFolderNames(src: Dir, n: string)
    requires FindDir(src.subdirs, n).None?
    ensures FindDir(DirectoryCopy(Some(src), None, true).dest.value.subdirs, n).None?
  {
    CopyFilesKeeps(src.files, Empty, n);
    FindDirNone(src.subdirs, n);
    CopySubdirsUntouched(src.subdirs, CopyFiles(src.files, Empty).dest, n);
  }
}
