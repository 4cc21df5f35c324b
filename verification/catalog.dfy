/**
 * `MBTilesManager`: the catalogue of the MBTiles files found under
 * MBTILES_ROOT. Iterating it walks the folder, keeps the files whose
 * extension is MBTILES_EXT, opens each one and yields it unless it cannot be
 * read or its name is empty. The walk itself (`os.walk`) is an input: the
 * directories in the order visited, each with the names of its files.
 */
module Catalog {
  import opened Wrappers
  import opened Errors
  import opened Paths
  import opened Interpreter
  import opened Models

  /** One directory as the walk reports it: its path and the names of its files. */
  type WalkEntry = (Path, seq<Path>)

  /** Where an iteration stands: the paths of the stores yielded, and the error that ended it, if any. */
  datatype Listing = Listing(yielded: seq<Path>, failure: Option<Error>)

  /** What the iteration does with one walked file that has the store extension. */
  datatype Visit = Skip | Yield(path: Path) | Raise(error: Error)

  /** `os.path.splitext(filename)[1] == '.' + MBTILES_EXT`: a matching name ends in `.` and the extension. */
  predicate HasExtension(filename: Path, ext: string)
    ensures HasExtension(filename, ext) ==>
      |filename| > |ext| && filename[|filename| - |ext| - 1..] == "." + ext
  {
    SplitExtShape(filename);
    SplitExt(filename).1 == "." + ext
  }

  /**
   * A store that can be listed: it exists, its metadata can be read, and its
   * name is not empty. Without a `name` key that takes a non-empty id.
   */
  predicate Listable(fs: FileSystem, p: Path)
    ensures Listable(fs, p) ==>
      p in fs && fs[p].metadata.Some? && ("name" !in fs[p].metadata.value ==> |IdOf(Basename(p))| > 0)
  {
    p in fs && fs[p].metadata.Some? && NameOf(fs[p].metadata.value, IdOf(Basename(p))) != ""
  }

  /**
   * A store whose metadata table reads as empty is listed under its id, when
   * that is not empty, whatever its zoom-level query does.
   */
  lemma EmptyMetadataListedById(fs: FileSystem, p: Path)
    requires p in fs && fs[p].metadata == Some(map[]) && IdOf(Basename(p)) != ""
    ensures Listable(fs, p) && NameOf(fs[p].metadata.value, IdOf(Basename(p))) == IdOf(Basename(p))
  {
  }

  /**
   * One file: opening it may fail, and that error is not caught; an
   * unreadable file or an empty name is logged and skipped.
   */
  function VisitOf(fs: FileSystem, settings: Settings, path: Path): (v: Visit)
    ensures v.Yield? ==> Listable(fs, v.path)
    ensures v.Raise? <==> Resolve(fs, settings, path).Err?
  {
    match Resolve(fs, settings, path)
    case Err(e) => Raise(e)
    case Ok(full) => if Listable(fs, full) then Yield(full) else Skip
  }

  /** Advancing the iteration by one visit; an iteration that has raised stays as it is. */
  function Step(l: Listing, v: Visit): Listing
  {
    if l.failure.Some? then l
    else match v
      case Skip => l
      case Yield(p) => Listing(l.yielded + [p], None)
      case Raise(e) => Listing(l.yielded, Some(e))
  }

  /** The paths the iteration opens, in order, from listing `l`. */
  function ListPaths(l: Listing, fs: FileSystem, settings: Settings, ps: seq<Path>): Listing
    decreases |ps|
  {
    if |ps| == 0 then l
    else ListPaths(Step(l, VisitOf(fs, settings, ps[0])), fs, settings, ps[1..])
  }

  /** The walked files of one directory that have the store extension, joined to it, in order. */
  function DirCandidates(dir: Path, files: seq<Path>, ext: string): seq<Path>
    decreases |files|
  {
    if |files| == 0 then []
    else (if HasExtension(files[0], ext) then [Join(dir, files[0])] else []) + DirCandidates(dir, files[1..], ext)
  }

  /** The files of one directory, in order, from listing `l`: those without the store extension are passed over. */
  function ListFiles(l: Listing, fs: FileSystem, settings: Settings, dir: Path, files: seq<Path>): Listing
  {
    ListPaths(l, fs, settings, DirCandidates(dir, files, settings.ext))
  }

  /** The directories of a walk, in order, from listing `l`. */
  function ListWalk(l: Listing, fs: FileSystem, settings: Settings, walk: seq<WalkEntry>): Listing
    decreases |walk|
  {
    if |walk| == 0 then l
    else ListWalk(ListFiles(l, fs, settings, walk[0].0, walk[0].1), fs, settings, walk[1..])
  }

  /** The store-extension files of every walked directory, in walk order. */
  function Candidates(walk: seq<WalkEntry>, ext: string): seq<Path>
    decreases |walk|
  {
    if |walk| == 0 then [] else DirCandidates(walk[0].0, walk[0].1, ext) + Candidates(walk[1..], ext)
  }

  /** One walked file: one without the store extension is passed over, the others are visited. */
  function NextListing(l: Listing, fs: FileSystem, settings: Settings, dir: Path, file: Path): Listing
  {
    if HasExtension(file, settings.ext) then Step(l, VisitOf(fs, settings, Join(dir, file))) else l
  }

  /** Listing a directory is taking its files one at a time, as the loop of `__iter__` does. */
  lemma ListFilesStep(l: Listing, fs: FileSystem, settings: Settings, dir: Path, files: seq<Path>)
    requires |files| > 0
    ensures ListFiles(l, fs, settings, dir, files)
         == ListFiles(NextListing(l, fs, settings, dir, files[0]), fs, settings, dir, files[1..])
  {
    var ps := DirCandidates(dir, files, settings.ext);
    var rest := DirCandidates(dir, files[1..], settings.ext);
    if HasExtension(files[0], settings.ext) {
      assert ps == [Join(dir, files[0])] + rest;
      assert ps[1..] == rest;
    } else {
      assert ps == rest;
    }
  }

  /** The listable paths among `ps`, in order. */
  function Listed(fs: FileSystem, ps: seq<Path>): seq<Path>
  {
    if |ps| == 0 then []
    else (if Listable(fs, ps[0]) then [ps[0]] else []) + Listed(fs, ps[1..])
  }

  /** Visiting paths only ever adds stores: those handed out before stay, in place. */
  lemma {:induction false} PathsExtend(l: Listing, fs: FileSystem, settings: Settings, ps: seq<Path>)
    ensures l.yielded <= ListPaths(l, fs, settings, ps).yielded
    decreases |ps|
  {
    if |ps| > 0 {
      var next := Step(l, VisitOf(fs, settings, ps[0]));
      assert l.yielded <= next.yielded;
      PathsExtend(next, fs, settings, ps[1..]);
    }
  }

  /** Walking directories only ever adds stores: those handed out before stay, in place. */
  lemma {:induction false} WalkExtends(l: Listing, fs: FileSystem, settings: Settings, walk: seq<WalkEntry>)
    ensures l.yielded <= ListWalk(l, fs, settings, walk).yielded
    decreases |walk|
  {
    if |walk| > 0 {
      var next := ListFiles(l, fs, settings, walk[0].0, walk[0].1);
      PathsExtend(l, fs, settings, DirCandidates(walk[0].0, walk[0].1, settings.ext));
      WalkExtends(next, fs, settings, walk[1..]);
    }
  }

  /** Once an iteration has raised, the remaining paths do not change it. */
  lemma {:induction false} RaisedPathsFinal(l: Listing, fs: FileSystem, settings: Settings, ps: seq<Path>)
    requires l.failure.Some?
    ensures ListPaths(l, fs, settings, ps) == l
    decreases |ps|
  {
    if |ps| > 0 {
      RaisedPathsFinal(l, fs, settings, ps[1..]);
    }
  }

  /** Once an iteration has raised, the rest of the walk does not change it. */
  lemma {:induction false} RaisedWalkFinal(l: Listing, fs: FileSystem, settings: Settings, walk: seq<WalkEntry>)
    requires l.failure.Some?
    ensures ListWalk(l, fs, settings, walk) == l
    decreases |walk|
  {
    if |walk| > 0 {
      RaisedPathsFinal(l, fs, settings, DirCandidates(walk[0].0, walk[0].1, settings.ext));
      RaisedWalkFinal(l, fs, settings, walk[1..]);
    }
  }

  lemma {:induction false} PathsYieldListable(l: Listing, fs: FileSystem, settings: Settings, ps: seq<Path>)
    requires forall p :: p in l.yielded ==> Listable(fs, p)
    ensures forall p :: p in ListPaths(l, fs, settings, ps).yielded ==> Listable(fs, p)
    decreases |ps|
  {
    if |ps| > 0 {
      PathsYieldListable(Step(l, VisitOf(fs, settings, ps[0])), fs, settings, ps[1..]);
    }
  }

  lemma {:induction false} WalkYieldsListable(l: Listing, fs: FileSystem, settings: Settings, walk: seq<WalkEntry>)
    requires forall p :: p in l.yielded ==> Listable(fs, p)
    ensures forall p :: p in ListWalk(l, fs, settings, walk).yielded ==> Listable(fs, p)
    decreases |walk|
  {
    if |walk| > 0 {
      PathsYieldListable(l, fs, settings, DirCandidates(walk[0].0, walk[0].1, settings.ext));
      WalkYieldsListable(ListFiles(l, fs, settings, walk[0].0, walk[0].1), fs, settings, walk[1..]);
    }
  }

  /**
   * Every store the catalogue yields exists, can be read, and has a
   * non-empty name, whatever the walk.
   */
  lemma YieldedAreListable(fs: FileSystem, settings: Settings, walk: seq<WalkEntry>)
    ensures forall p :: p in ListWalk(Listing([], None), fs, settings, walk).yielded ==> Listable(fs, p)
  {
    WalkYieldsListable(Listing([], None), fs, settings, walk);
  }

  lemma Reassociate(a: seq<Path>, b: seq<Path>, c: seq<Path>)
    ensures a + b + c == a + (b + c)
  {
  }

  /** A path that exists is opened as it is: it is yielded when listable and skipped otherwise. */
  lemma VisitExisting(fs: FileSystem, settings: Settings, p: Path)
    requires p in fs
    ensures VisitOf(fs, settings, p) == if Listable(fs, p) then Yield(p) else Skip
  {
    ExistingNameWins(fs, settings, p);
  }

  /** Paths that all exist are never an error: exactly the listable ones are yielded. */
  lemma {:induction false} ConsistentPaths(ys: seq<Path>, fs: FileSystem, settings: Settings, ps: seq<Path>)
    requires forall p :: p in ps ==> p in fs
    ensures ListPaths(Listing(ys, None), fs, settings, ps) == Listing(ys + Listed(fs, ps), None)
    decreases |ps|
  {
    if |ps| > 0 {
      var head := if Listable(fs, ps[0]) then [ps[0]] else [];
      var rest := Listed(fs, ps[1..]);
      assert ps[0] in ps;
      VisitExisting(fs, settings, ps[0]);
      assert forall p :: p in ps[1..] ==> p in ps;
      ConsistentPaths(ys + head, fs, settings, ps[1..]);
      assert Listed(fs, ps) == head + rest;
      calc {
        ListPaths(Listing(ys, None), fs, settings, ps);
        ListPaths(Step(Listing(ys, None), VisitOf(fs, settings, ps[0])), fs, settings, ps[1..]);
        { assert Step(Listing(ys, None), VisitOf(fs, settings, ps[0])) == Listing(ys + head, None); }
        ListPaths(Listing(ys + head, None), fs, settings, ps[1..]);
        Listing(ys + head + rest, None);
        { Reassociate(ys, head, rest); }
        Listing(ys + Listed(fs, ps), None);
      }
    }
  }

  /** Opening the paths `a + b` is opening those of `a`, then those of `b`. */
  lemma {:induction false} ListPathsAppend(l: Listing, fs: FileSystem, settings: Settings, a: seq<Path>, b: seq<Path>)
    ensures ListPaths(l, fs, settings, a + b) == ListPaths(ListPaths(l, fs, settings, a), fs, settings, b)
    decreases |a|
  {
    if |a| > 0 {
      assert (a + b)[0] == a[0];
      assert (a + b)[1..] == a[1..] + b;
      ListPathsAppend(Step(l, VisitOf(fs, settings, a[0])), fs, settings, a[1..], b);
    } else {
      assert a + b == b;
    }
  }

  /** Walking directory by directory opens the store-extension files of the whole walk, in walk order. */
  lemma {:induction false} WalkOpensCandidates(l: Listing, fs: FileSystem, settings: Settings, walk: seq<WalkEntry>)
    ensures ListWalk(l, fs, settings, walk) == ListPaths(l, fs, settings, Candidates(walk, settings.ext))
    decreases |walk|
  {
    if |walk| > 0 {
      var here := DirCandidates(walk[0].0, walk[0].1, settings.ext);
      WalkOpensCandidates(ListPaths(l, fs, settings, here), fs, settings, walk[1..]);
      ListPathsAppend(l, fs, settings, here, Candidates(walk[1..], settings.ext));
    }
  }

  /**
   * When every walked store file exists (nothing disappears during the
   * walk), the iteration never raises, and it yields exactly the listable
   * files that have the store extension, in walk order.
   */
  lemma ConsistentWalk(ys: seq<Path>, fs: FileSystem, settings: Settings, walk: seq<WalkEntry>)
    requires forall p :: p in Candidates(walk, settings.ext) ==> p in fs
    ensures ListWalk(Listing(ys, None), fs, settings, walk)
         == Listing(ys + Listed(fs, Candidates(walk, settings.ext)), None)
  {
    WalkOpensCandidates(Listing(ys, None), fs, settings, walk);
    ConsistentPaths(ys, fs, settings, Candidates(walk, settings.ext));
  }

  lemma {:induction false} DottedCandidates(dir: Path, files: seq<Path>, ext: string)
    requires '.' in ext
    ensures DirCandidates(dir, files, ext) == []
    decreases |files|
  {
    if |files| > 0 {
      DottedExtensionNeverSplit(files[0], ext);
      DottedCandidates(dir, files[1..], ext);
    }
  }

  /**
   * An MBTILES_EXT setting that itself holds a dot (`"db.mbtiles"`) matches
   * no file: the catalogue is empty and never raises.
   */
  lemma {:induction false} DottedExtensionListsNothing(l: Listing, fs: FileSystem, settings: Settings, walk: seq<WalkEntry>)
    requires '.' in settings.ext
    ensures ListWalk(l, fs, settings, walk) == l
    decreases |walk|
  {
    if |walk| > 0 {
      DottedCandidates(walk[0].0, walk[0].1, settings.ext);
      DottedExtensionListsNothing(l, fs, settings, walk[1..]);
    }
  }

  /**
   * An opened store as the iteration hands it out: it reads the file at its
   * path, its metadata has been read, and no other field is cached yet.
   */
  ghost predicate Yielded(mb: MBTiles, fs: FileSystem, parsers: Parsers)
    reads mb
  {
    && mb.fullpath in fs && mb.reader == fs[mb.fullpath] && mb.parsers == parsers
    && mb.basename == Basename(mb.fullpath)
    && mb.metadataSlot.Some? && mb.metadataValue == Ok(mb.metadataSlot.value)
    && mb.boundsSlot.None? && mb.centerSlot.None? && mb.zoomSlot.None?
  }

  /** A store handed out keeps the caching invariant. */
  lemma YieldedIsValid(mb: MBTiles, fs: FileSystem, parsers: Parsers)
    requires Yielded(mb, fs, parsers)
    ensures mb.Valid()
  {
  }

  /**
   * The body of the iteration for one walked file: a file with the store
   * extension is opened (an error propagates), its name is read, and it is
   * handed out unless it is unreadable or its name is empty.
   */
  method VisitFile(fs: FileSystem, settings: Settings, parsers: Parsers, dirname: Path, filename: Path)
    returns (found: Option<MBTiles>, error: Option<Error>)
    ensures !HasExtension(filename, settings.ext) ==> found.None? && error.None?
    ensures HasExtension(filename, settings.ext) ==>
      VisitOf(fs, settings, Join(dirname, filename))
        == if error.Some? then Raise(error.value) else if found.Some? then Yield(found.value.fullpath) else Skip
    ensures found.Some? ==> fresh(found.value) && Yielded(found.value, fs, parsers)
  {
    var (name, ext) := SplitExt(filename);
    if ext != "." + settings.ext {
      return None, None;
    }
    var path := Join(dirname, filename);
    var attempt := MBTiles.Open(fs, settings, parsers, path);
    if attempt.Err? {
      return None, Some(attempt.error);
    }
    var mb := attempt.value;
    var mbName := mb.Name();
    if mbName.Ok? && mbName.value != "" {
      return Some(mb), None;
    }
    return None, None;
  }

  class MBTilesManager {
    /** The folder it lists: MBTILES_ROOT when it was created. */
    const folder: Path

    constructor (folder: Path)
      ensures this.folder == folder
    {
      this.folder := folder;
    }

    /** `MBTilesManager()`: fails with MBTilesFolderError when MBTILES_ROOT does not exist. */
    static method Open(fs: FileSystem, settings: Settings) returns (r: Result<MBTilesManager, Error>)
      ensures r.Err? <==> settings.root !in fs
      ensures r.Err? ==> r.error == FolderError
      ensures r.Ok? ==> fresh(r.value) && r.value.folder == settings.root
    {
      if settings.root !in fs {
        return Err(FolderError);
      }
      var m := new MBTilesManager(settings.root);
      return Ok(m);
    }

    /**
     * `__iter__` run to its end: the stores yielded, in order, and the error
     * that ended the iteration, if any. `walk` is what walking `folder`
     * reports. Each store has been opened afresh and has its metadata read.
     */
    method Iterate(fs: FileSystem, settings: Settings, parsers: Parsers, walk: seq<WalkEntry>)
      returns (stores: seq<MBTiles>, failure: Option<Error>)
      ensures var l := ListWalk(Listing([], None), fs, settings, walk);
        && failure == l.failure && |stores| == |l.yielded|
        && forall k :: 0 <= k < |stores| ==> stores[k].fullpath == l.yielded[k]
      ensures forall k :: 0 <= k < |stores| ==> fresh(stores[k]) && Yielded(stores[k], fs, parsers)
    {
      ghost var goal := ListWalk(Listing([], None), fs, settings, walk);
      ghost var paths: seq<Path> := [];
      stores, failure := [], None;
      var todo := walk;
      while |todo| > 0
        invariant failure.None?
        invariant ListWalk(Listing(paths, None), fs, settings, todo) == goal
        invariant |stores| == |paths| && forall k :: 0 <= k < |stores| ==> stores[k].fullpath == paths[k]
        invariant forall k :: 0 <= k < |stores| ==> fresh(stores[k]) && Yielded(stores[k], fs, parsers)
      {
        var (dirname, filenames) := todo[0];
        stores, paths, failure := ListDirectory(fs, settings, parsers, dirname, filenames, stores, paths);
        if failure.Some? {
          RaisedWalkFinal(Listing(paths, failure), fs, settings, todo[1..]);
          return;
        }
        todo := todo[1..];
      }
    }

    /** The files of one walked directory, in order, continuing from `stores`, which have the paths `paths`. */
    method ListDirectory(fs: FileSystem, settings: Settings, parsers: Parsers, dirname: Path, filenames: seq<Path>,
                         stores0: seq<MBTiles>, ghost paths0: seq<Path>)
      returns (stores: seq<MBTiles>, ghost paths: seq<Path>, failure: Option<Error>)
      requires |stores0| == |paths0| && forall k :: 0 <= k < |stores0| ==> stores0[k].fullpath == paths0[k]
      ensures ListFiles(Listing(paths0, None), fs, settings, dirname, filenames) == Listing(paths, failure)
      ensures |stores| == |paths| && forall k :: 0 <= k < |stores| ==> stores[k].fullpath == paths[k]
      ensures |stores0| <= |stores| && forall k :: 0 <= k < |stores0| ==> stores[k] == stores0[k]
      ensures forall k :: |stores0| <= k < |stores| ==> fresh(stores[k]) && Yielded(stores[k], fs, parsers)
    {
      ghost var goal := ListFiles(Listing(paths0, None), fs, settings, dirname, filenames);
      stores, paths, failure := stores0, paths0, None;
      var todo := filenames;
      while |todo| > 0
        invariant failure.None?
        invariant ListFiles(Listing(paths, None), fs, settings, dirname, todo) == goal
        invariant |stores| == |paths| && forall k :: 0 <= k < |stores| ==> stores[k].fullpath == paths[k]
        invariant |stores0| <= |stores| && forall k :: 0 <= k < |stores0| ==> stores[k] == stores0[k]
        invariant forall k :: |stores0| <= k < |stores| ==> fresh(stores[k]) && Yielded(stores[k], fs, parsers)
      {
        var filename := todo[0];
        ghost var before := Listing(paths, None);
        ListFilesStep(before, fs, settings, dirname, todo);
        var found, error := VisitFile(fs, settings, parsers, dirname, filename);
        if error.Some? {
          failure := error;
          assert NextListing(before, fs, settings, dirname, filename) == Listing(paths, failure);
          RaisedPathsFinal(Listing(paths, failure), fs, settings, DirCandidates(dirname, todo[1..], settings.ext));
          return;
        }
        if found.Some? {
          stores := stores + [found.value];
          paths := paths + [found.value.fullpath];
        }
        assert NextListing(before, fs, settings, dirname, filename) == Listing(paths, None);
        todo := todo[1..];
      }
    }
  }
}
