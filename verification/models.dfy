/**
 * The `MBTiles` class: finding a store file from a name (a path, a name under
 * MBTILES_ROOT, or such a name without its extension), the per-instance
 * caches of `metadata`, `bounds`, `center` and `zoomlevels`, and the
 * TileJSON-with-callback document `jsonp` builds.
 *
 * The filesystem is a map from every existing path to what an MBTiles reader
 * reads there. The reader's two queries, the metadata table and the zoom
 * levels of the tiles table, succeed or raise InvalidFormatError each on its
 * own; their outcomes are inputs of the model.
 */
module Models {
  import opened Wrappers
  import opened Errors
  import opened PyStrings
  import opened Paths
  import opened Interpreter

  type Path = string

  /**
   * What the reader gets from one container: the `metadata` table and the
   * zoom levels present, each `None` when that query raises InvalidFormatError.
   */
  datatype Tileset = Tileset(metadata: Option<Metadata>, zoomlevels: Option<seq<int>>)

  /** Existing paths and what reading each as an MBTiles container yields. */
  type FileSystem = map<Path, Tileset>

  /** The application settings the core reads: MBTILES_ROOT and MBTILES_EXT. */
  datatype Settings = Settings(root: Path, ext: string)

  /**
   * The store locator, first match wins: the name as given; then
   * `root/name`; then `root/name.ext`. A missing root is reported only once
   * the name itself was not found. A found path always exists.
   */
  function Resolve(fs: FileSystem, settings: Settings, name: Path): (r: Result<Path, Error>)
    ensures r.Ok? ==> r.value in fs
    ensures name in fs ==> r == Ok(name)
    ensures name !in fs && settings.root !in fs ==> r == Err(FolderError)
    ensures name !in fs && settings.root in fs && Join(settings.root, name) in fs ==> r == Ok(Join(settings.root, name))
    ensures r.Err? <==> (name !in fs && (settings.root !in fs
                         || (Join(settings.root, name) !in fs && Join(settings.root, name) + "." + settings.ext !in fs)))
    ensures r.Ok? ==> r.value in {name, Join(settings.root, name), Join(settings.root, name) + "." + settings.ext}
    ensures r.Err? ==> r.error == FolderError || r.error == NotFound(Join(settings.root, name) + "." + settings.ext)
  {
    if name in fs then Ok(name)
    else if settings.root !in fs then Err(FolderError)
    else
      var under := Join(settings.root, name);
      if under in fs then Ok(under)
      else
        var withExt := under + "." + settings.ext;
        if withExt in fs then Ok(withExt) else Err(NotFound(withExt))
  }

  /**
   * `MBTiles.__init__`'s search, as the source runs it: one candidate path
   * reassigned through the existence checks.
   */
  method Locate(fs: FileSystem, settings: Settings, name: Path) returns (r: Result<Path, Error>)
    ensures r == Resolve(fs, settings, name)
    ensures name in fs ==> r == Ok(name)
    ensures name !in fs && settings.root !in fs ==> r == Err(FolderError)
    ensures r.Ok? ==> r.value in fs
  {
    var mbtilesFile := name;
    if mbtilesFile !in fs {
      if settings.root !in fs {
        return Err(FolderError);
      }
      mbtilesFile := Join(settings.root, name);
      if mbtilesFile !in fs {
        mbtilesFile := mbtilesFile + "." + settings.ext;
        if mbtilesFile !in fs {
          return Err(NotFound(mbtilesFile));
        }
      }
    }
    return Ok(mbtilesFile);
  }

  /** An existing name is used as is, whatever the root, even a missing one. */
  lemma ExistingNameWins(fs: FileSystem, settings: Settings, name: Path)
    requires name in fs
    ensures Resolve(fs, settings, name) == Ok(name)
  {
  }

  /** What the locator finds resolves to itself: a full path is a fixed point. */
  lemma ResolveIdempotent(fs: FileSystem, settings: Settings, name: Path)
    requires Resolve(fs, settings, name).Ok?
    ensures Resolve(fs, settings, Resolve(fs, settings, name).value) == Resolve(fs, settings, name)
  {
  }

  /**
   * An absolute name is never looked up under the root (joining returns it
   * unchanged): it is found as is or with the extension appended.
   */
  lemma AbsoluteNameIgnoresRoot(fs: FileSystem, settings: Settings, name: Path)
    requires |name| > 0 && name[0] == '/'
    requires Resolve(fs, settings, name).Ok?
    ensures Resolve(fs, settings, name).value in {name, name + "." + settings.ext}
  {
  }

  /** A '/'-free file name keeps its id when joined under a directory. */
  lemma IdUnderDirectory(dir: Path, name: Path)
    requires '/' !in name
    ensures IdOf(Basename(Join(dir, name))) == IdOf(name)
  {
    BasenameOfJoin(dir, name);
  }

  /**
   * A '/'-free name with an extension (without dots) appended under a
   * directory has that name as its id, unless the name is all dots.
   */
  lemma IdWithExtension(dir: Path, name: Path, ext: string)
    requires '/' !in name && '/' !in ext && '.' !in ext
    requires !AllDots(name)
    ensures IdOf(Basename(Join(dir, name) + "." + ext)) == name
  {
    BasenameWithExtension(dir, name, ext);
    IdOfStem(name, ext);
  }

  /**
   * The id of a store found from an identifier (no `/`, as the URL pattern
   * guarantees). Found as given or under the root, the id is the
   * identifier's own `splitext` stem; found only by appending the extension
   * (one without dots), the id is the identifier itself.
   */
  lemma IdentifierId(fs: FileSystem, settings: Settings, name: Path)
    requires '/' !in name && '/' !in settings.ext && '.' !in settings.ext
    requires !AllDots(name)
    requires Resolve(fs, settings, name).Ok?
    ensures var full := Resolve(fs, settings, name).value;
      full == name || full == Join(settings.root, name) ==> IdOf(Basename(full)) == IdOf(name)
    ensures var full := Resolve(fs, settings, name).value;
      full != name && full != Join(settings.root, name) ==> IdOf(Basename(full)) == name
  {
    var full := Resolve(fs, settings, name).value;
    if full == name {
      IdUnderDirectory("", name);
    } else if full == Join(settings.root, name) {
      IdUnderDirectory(settings.root, name);
    } else {
      IdWithExtension(settings.root, name, settings.ext);
    }
  }

  /** Reading the `metadata` table: InvalidFormatError when that query fails. */
  function MetadataOf(reader: Tileset): (r: Result<Metadata, Error>)
    ensures r.Err? <==> reader.metadata.None?
    ensures r.Ok? ==> r.value == reader.metadata.value
  {
    match reader.metadata
    case None => Err(InvalidFormat)
    case Some(md) => Ok(md)
  }

  /** Reading the zoom levels of the `tiles` table: InvalidFormatError when that query fails. */
  function ZoomLevelsOf(reader: Tileset): (r: Result<seq<int>, Error>)
    ensures r.Err? <==> reader.zoomlevels.None?
    ensures r.Ok? ==> r.value == reader.zoomlevels.value
  {
    match reader.zoomlevels
    case None => Err(InvalidFormat)
    case Some(zl) => Ok(zl)
  }

  /** `bounds` of a store: reading the metadata fails first, else the metadata is interpreted. */
  function BoundsFor(reader: Tileset, p: Parsers): Result<Bounds, Error>
  {
    match reader.metadata
    case None => Err(InvalidFormat)
    case Some(md) => BoundsOf(md, p)
  }

  /**
   * The three-part branch of `center` for a store: the parts are parsed
   * before the zoom levels are read.
   */
  function KeyedCenterFor(parts: seq<string>, reader: Tileset, p: Parsers): Result<Center, Error>
    requires |parts| == 3
  {
    match reader.zoomlevels
    case Some(zl) => KeyedCenter(parts, zl, p)
    case None => if ParseReals(parts, p).None? then Err(InvalidNumber) else Err(InvalidFormat)
  }

  /** The fallback branch of `center` for a store: the bounds are computed before the zoom levels are read. */
  function BoundsCenterFor(reader: Tileset, p: Parsers): Result<Center, Error>
  {
    match reader.zoomlevels
    case Some(zl) => BoundsCenter(BoundsFor(reader, p), zl)
    case None =>
      match BoundsFor(reader, p)
      case Err(e) => Err(e)
      case Ok(_) => Err(InvalidFormat)
  }

  /** `center` of a store, failures in the order the source meets them. */
  function CenterFor(reader: Tileset, p: Parsers): Result<Center, Error>
  {
    match reader.metadata
    case None => Err(InvalidFormat)
    case Some(md) =>
      var parts := Split(Get(md, "center", ""), ',');
      if |parts| == 3 then KeyedCenterFor(parts, reader, p) else BoundsCenterFor(reader, p)
  }

  /** With both queries readable, the `center` of a store is what the interpreter gives. */
  lemma CenterForReadable(reader: Tileset, p: Parsers)
    requires reader.metadata.Some? && reader.zoomlevels.Some?
    ensures CenterFor(reader, p) == CenterOf(reader.metadata.value, reader.zoomlevels.value, p)
  {
  }

  /**
   * With unreadable zoom levels `center` still raises ValueError for a
   * three-part value that does not parse, and InvalidFormatError otherwise
   * (once the metadata is read).
   */
  lemma CenterWithoutZoomLevels(reader: Tileset, p: Parsers)
    requires reader.metadata.Some? && reader.zoomlevels.None?
    ensures var parts := Split(Get(reader.metadata.value, "center", ""), ',');
      CenterFor(reader, p) == if |parts| == 3 && ParseReals(parts, p).None? then Err(InvalidNumber)
        else if |parts| != 3 && BoundsOf(reader.metadata.value, p).Err? then Err(InvalidNumber)
        else Err(InvalidFormat)
  {
  }

  /** `middlezoom` of a store. */
  function MiddleZoomFor(reader: Tileset): Result<int, Error>
  {
    match reader.zoomlevels
    case None => Err(InvalidFormat)
    case Some(zl) => MiddleZoom(zl)
  }

  /** `minzoom` of a store: the metadata is read, then the default `zoomlevels[0]` is evaluated. */
  function MinZoomFor(reader: Tileset, p: Parsers): Result<int, Error>
  {
    match reader.metadata
    case None => Err(InvalidFormat)
    case Some(md) =>
      match reader.zoomlevels
      case None => Err(InvalidFormat)
      case Some(zl) => MinZoom(md, zl, p)
  }

  /** `maxzoom` of a store. */
  function MaxZoomFor(reader: Tileset, p: Parsers): Result<int, Error>
  {
    match reader.metadata
    case None => Err(InvalidFormat)
    case Some(md) =>
      match reader.zoomlevels
      case None => Err(InvalidFormat)
      case Some(zl) => MaxZoom(md, zl, p)
  }

  /** A JSON value as `simplejson` receives it. */
  datatype Json = JString(s: string) | JNumber(x: real) | JInteger(n: int) | JArray(items: seq<Json>)

  type Document = map<string, Json>

  /** The keys `jsonp` sets after copying the raw metadata. */
  const DerivedKeys: set<string> :=
    {"bounds", "center", "minzoom", "maxzoom", "id", "name", "scheme", "basename", "filesize", "tiles"}

  function BoundsJson(b: Bounds): Json
  {
    JArray([JNumber(b.west), JNumber(b.south), JNumber(b.east), JNumber(b.north)])
  }

  function CenterJson(c: Center): Json
  {
    JArray([JNumber(c.lon), JNumber(c.lat), JInteger(c.zoom)])
  }

  /** The `jsonp` dictionary: the raw metadata, updated with the post-processed fields, then with the additional ones. */
  function TileJson(md: Metadata, b: Bounds, c: Center, minzoom: int, maxzoom: int,
                    id: string, name: string, basename: string, filesize: int, tiles: string): (doc: Document)
    ensures doc.Keys == md.Keys + DerivedKeys
  {
    var raw := map k | k in md :: JString(md[k]);
    var processed := raw + map["bounds" := BoundsJson(b), "center" := CenterJson(c),
                               "minzoom" := JInteger(minzoom), "maxzoom" := JInteger(maxzoom)];
    processed + map["id" := JString(id), "name" := JString(name), "scheme" := JString("xyz"),
                    "basename" := JString(basename), "filesize" := JInteger(filesize),
                    "tiles" := JArray([JString(tiles)])]
  }

  /** A metadata entry whose key is not derived reaches the document unchanged, as a string. */
  lemma TileJsonKeepsRaw(md: Metadata, b: Bounds, c: Center, minzoom: int, maxzoom: int,
                         id: string, name: string, basename: string, filesize: int, tiles: string, k: string)
    requires k in md && k !in DerivedKeys
    ensures TileJson(md, b, c, minzoom, maxzoom, id, name, basename, filesize, tiles)[k] == JString(md[k])
  {
  }

  /** The post-processed fields override the metadata: bounds, center and the zoom range. */
  lemma TileJsonProcessed(md: Metadata, b: Bounds, c: Center, minzoom: int, maxzoom: int,
                          id: string, name: string, basename: string, filesize: int, tiles: string)
    ensures var doc := TileJson(md, b, c, minzoom, maxzoom, id, name, basename, filesize, tiles);
      && doc["bounds"] == BoundsJson(b) && doc["center"] == CenterJson(c)
      && doc["minzoom"] == JInteger(minzoom) && doc["maxzoom"] == JInteger(maxzoom)
  {
  }

  /** The additional fields override the metadata too; `scheme` is always `xyz`. */
  lemma TileJsonAdditional(md: Metadata, b: Bounds, c: Center, minzoom: int, maxzoom: int,
                           id: string, name: string, basename: string, filesize: int, tiles: string)
    ensures var doc := TileJson(md, b, c, minzoom, maxzoom, id, name, basename, filesize, tiles);
      && doc["id"] == JString(id) && doc["name"] == JString(name) && doc["scheme"] == JString("xyz")
      && doc["basename"] == JString(basename) && doc["filesize"] == JInteger(filesize)
      && doc["tiles"] == JArray([JString(tiles)])
  {
  }

  /**
   * The tile URL pattern with `%7B` and `%7D` turned back into `{` and `}`:
   * no escaped brace is left.
   */
  function UnescapeBraces(url: string): (r: string)
    ensures Absent(r, "%7B") && Absent(r, "%7D")
  {
    var halfway := ReplaceAll(url, "%7B", "{");
    ReplaceLeavesNoOccurrence(url, "%7B", "{", "%7B");
    var closed := ReplaceAll(halfway, "%7D", "}");
    ReplaceLeavesNoOccurrence(halfway, "%7D", "}", "%7B");
    ReplaceLeavesNoOccurrence(halfway, "%7D", "}", "%7D");
    closed
  }

  /** Percent-encoding of the braces, as URL reversing produces it. */
  function QuoteBraces(t: string): string
  {
    Expand(Expand(t, '}', "%7D"), '{', "%7B")
  }

  /**
   * Un-escaping loses nothing: on a URL without literal braces, quoting the
   * braces again gives back the URL.
   */
  lemma UnescapeBracesInverse(url: string)
    requires '{' !in url && '}' !in url
    ensures QuoteBraces(UnescapeBraces(url)) == url
  {
    var halfway := ReplaceAll(url, "%7B", "{");
    assert '}' !in halfway by {
      ReplaceDrawsFrom(url, "%7B", "{");
      assert forall i :: 0 <= i < |halfway| ==> halfway[i] in url || halfway[i] in "{";
    }
    ExpandUndoesReplace(halfway, '}', "%7D");
    ExpandUndoesReplace(url, '{', "%7B");
  }

  /** `'%s(%s);' % (callback, json)`. */
  function Envelope(callback: string, json: string): (e: string)
    ensures |e| == |callback| + |json| + 3
    ensures e[..|callback| + 1] == callback + "(" && e[|e| - 2..] == ");"
    ensures e[|callback| + 1..|e| - 2] == json
  {
    var e := callback + "(" + json + ");";
    assert e[..|callback| + 1] == callback + "(";
    assert e[|callback| + 1..|e| - 2] == json;
    e
  }


  /**
   * The whole `jsonp` result for a reader, in the order the source evaluates
   * it: metadata, bounds, center, minzoom, maxzoom; the first failure is raised.
   */
  function JsonpOf(reader: Tileset, p: Parsers, basename: string, callback: string,
                   filesize: int, reverse: string -> string, dumps: Document -> string): (r: Result<string, Error>)
    ensures r.Err? <==> MetadataOf(reader).Err? || BoundsFor(reader, p).Err? || CenterFor(reader, p).Err?
                        || MinZoomFor(reader, p).Err? || MaxZoomFor(reader, p).Err?
    ensures r.Ok? ==> |r.value| >= |callback| + 3 && r.value[..|callback| + 1] == callback + "("
                      && r.value[|r.value| - 2..] == ");"
  {
    var md :- MetadataOf(reader);
    var b :- BoundsFor(reader, p);
    var c :- CenterFor(reader, p);
    var lo :- MinZoomFor(reader, p);
    var hi :- MaxZoomFor(reader, p);
    var id := IdOf(basename);
    Ok(Envelope(callback, dumps(TileJson(md, b, c, lo, hi, id, NameOf(md, id), basename, filesize,
                                         UnescapeBraces(reverse(id))))))
  }

  /** A cache slot keeps a value once it holds one. */
  ghost predicate Kept<T>(before: Option<T>, after: Option<T>)
  {
    before.Some? ==> after == before
  }

  /** One opened MBTiles file and its per-instance caches. */
  class MBTiles {
    const fullpath: Path
    const basename: Path
    /** What the reader reads from `fullpath`; it does not change while the store is open. */
    const reader: Tileset
    const parsers: Parsers
    /** What computing each cached field afresh gives, fixed by what the reader reads. */
    ghost const metadataValue: Result<Metadata, Error> := MetadataOf(reader)
    ghost const zoomValue: Result<seq<int>, Error> := ZoomLevelsOf(reader)
    ghost const boundsValue: Result<Bounds, Error> := BoundsFor(reader, parsers)
    ghost const centerValue: Result<Center, Error> := CenterFor(reader, parsers)

    var metadataSlot: Option<Metadata>
    var boundsSlot: Option<Bounds>
    var centerSlot: Option<Center>
    var zoomSlot: Option<seq<int>>

    /** Every filled slot holds what computing its field afresh would give. */
    ghost predicate Valid()
      reads this
    {
      && (metadataSlot.Some? ==> metadataValue == Ok(metadataSlot.value))
      && (zoomSlot.Some? ==> zoomValue == Ok(zoomSlot.value))
      && (boundsSlot.Some? ==> boundsValue == Ok(boundsSlot.value))
      && (centerSlot.Some? ==> centerValue == Ok(centerSlot.value))
    }

    /** Lines 74-76 of `__init__`: record the path and its basename; nothing is read yet. */
    constructor (fullpath: Path, reader: Tileset, parsers: Parsers)
      ensures this.fullpath == fullpath && basename == Basename(fullpath)
      ensures this.reader == reader && this.parsers == parsers
      ensures metadataSlot.None? && boundsSlot.None? && centerSlot.None? && zoomSlot.None?
      ensures Valid()
    {
      this.fullpath := fullpath;
      this.basename := Basename(fullpath);
      this.reader := reader;
      this.parsers := parsers;
      metadataSlot, boundsSlot, centerSlot, zoomSlot := None, None, None, None;
    }

    /**
     * `MBTiles(name)`: locate the file, then open it. Fails exactly when the
     * locator fails, with its error; on success the store reads the file
     * found, and every cache is empty.
     */
    static method Open(fs: FileSystem, settings: Settings, parsers: Parsers, name: Path) returns (r: Result<MBTiles, Error>)
      ensures r.Err? <==> Resolve(fs, settings, name).Err?
      ensures r.Err? ==> r.error == Resolve(fs, settings, name).error
      ensures r.Ok? ==> && fresh(r.value) && r.value.Valid()
                        && r.value.fullpath == Resolve(fs, settings, name).value
                        && r.value.basename == Basename(r.value.fullpath)
                        && r.value.reader == fs[r.value.fullpath] && r.value.parsers == parsers
                        && r.value.metadataSlot.None? && r.value.boundsSlot.None?
                        && r.value.centerSlot.None? && r.value.zoomSlot.None?
    {
      var found := Locate(fs, settings, name);
      if found.Err? {
        return Err(found.error);
      }
      var mb := new MBTiles(found.value, fs[found.value], parsers);
      return Ok(mb);
    }

    /** `id`: the basename without its extension, which follows the id in the basename. */
    function Id(): (id: string)
      ensures id + SplitExt(basename).1 == basename
    {
      IdOf(basename)
    }

    /**
     * `metadata` (reified): read once, then served from the slot. A failed
     * read caches nothing; no other slot changes.
     */
    method Metadata() returns (r: Result<Metadata, Error>)
      requires Valid()
      modifies this
      ensures Valid()
      ensures r == MetadataOf(reader)
      ensures metadataSlot == (if r.Ok? then Some(r.value) else None)
      ensures old(metadataSlot).Some? ==> unchanged(this)
      ensures boundsSlot == old(boundsSlot) && centerSlot == old(centerSlot) && zoomSlot == old(zoomSlot)
    {
      if metadataSlot.Some? {
        return Ok(metadataSlot.value);
      }
      r := MetadataOf(reader);
      if r.Ok? {
        metadataSlot := Some(r.value);
      }
    }

    /** `zoomlevels` (reified): read once, then served from the slot; no other slot changes. */
    method ZoomLevels() returns (r: Result<seq<int>, Error>)
      requires Valid()
      modifies this
      ensures Valid()
      ensures r == ZoomLevelsOf(reader)
      ensures zoomSlot == (if r.Ok? then Some(r.value) else None)
      ensures old(zoomSlot).Some? ==> unchanged(this)
      ensures metadataSlot == old(metadataSlot) && boundsSlot == old(boundsSlot) && centerSlot == old(centerSlot)
    {
      if zoomSlot.Some? {
        return Ok(zoomSlot.value);
      }
      r := ZoomLevelsOf(reader);
      if r.Ok? {
        zoomSlot := Some(r.value);
      }
    }

    /**
     * `bounds` (reified): computed from the metadata once. It may fill the
     * metadata slot on the way; the center and zoom slots do not change.
     */
    method Bounds() returns (r: Result<Bounds, Error>)
      requires Valid()
      modifies this
      ensures Valid()
      ensures r == BoundsFor(reader, parsers)
      ensures boundsSlot == (if r.Ok? then Some(r.value) else None)
      ensures old(boundsSlot).Some? ==> unchanged(this)
      ensures Kept(old(metadataSlot), metadataSlot)
      ensures centerSlot == old(centerSlot) && zoomSlot == old(zoomSlot)
    {
      if boundsSlot.Some? {
        return Ok(boundsSlot.value);
      }
      var md :- Metadata();
      r := BoundsOf(md, parsers);
      if r.Ok? {
        boundsSlot := Some(r.value);
      }
    }

    /** `middlezoom`: the zoom level at index `len(zoomlevels) / 2`, one of the levels present. */
    method MiddleZoom() returns (r: Result<int, Error>)
      requires Valid()
      modifies this
      ensures Valid()
      ensures r == MiddleZoomFor(reader)
      ensures r.Ok? ==> r.value in reader.zoomlevels.value
      ensures Kept(old(zoomSlot), zoomSlot)
      ensures metadataSlot == old(metadataSlot) && boundsSlot == old(boundsSlot) && centerSlot == old(centerSlot)
    {
      var zl :- ZoomLevels();
      r := Interpreter.MiddleZoom(zl);
    }

    /**
     * `center` (reified): computed once from the metadata, the zoom levels
     * and, without a three-part `center` value, the bounds; those slots may
     * be filled on the way. The zoom of the result is one of the levels present.
     */
    method Center() returns (r: Result<Center, Error>)
      requires Valid()
      modifies this
      ensures r == CenterFor(reader, parsers)
      ensures Valid()
      ensures r.Ok? ==> r.value.zoom in reader.zoomlevels.value
      ensures centerSlot == (if r.Ok? then Some(r.value) else None)
      ensures old(centerSlot).Some? ==> unchanged(this)
      ensures Kept(old(metadataSlot), metadataSlot) && Kept(old(boundsSlot), boundsSlot) && Kept(old(zoomSlot), zoomSlot)
    {
      if centerSlot.Some? {
        return Ok(centerSlot.value);
      }
      var md :- Metadata();
      var parts := Split(Get(md, "center", ""), ',');
      if |parts| == 3 {
        r := CenterFromKey(parts);
      } else {
        r := CenterFromBounds();
      }
      if r.Ok? {
        centerSlot := Some(r.value);
      }
    }

    /** The three-part branch of `center`: parse lon, lat and zoom; replace a zoom that is not present. */
    method CenterFromKey(parts: seq<string>) returns (r: Result<Center, Error>)
      requires Valid() && |parts| == 3
      modifies this
      ensures r == KeyedCenterFor(parts, reader, parsers)
      ensures Valid()
      ensures Kept(old(zoomSlot), zoomSlot)
      ensures metadataSlot == old(metadataSlot) && boundsSlot == old(boundsSlot) && centerSlot == old(centerSlot)
    {
      var xs := ParseReals(parts, parsers);
      if xs.None? {
        return Err(InvalidNumber);
      }
      var zoom := Trunc(xs.value[2]);
      var zl :- ZoomLevels();
      if zoom !in zl {
        zoom :- MiddleZoom();
      }
      r := Ok(Interpreter.Center(xs.value[0], xs.value[1], zoom));
    }

    /** The fallback branch of `center`: the midpoint of `bounds`, at `middlezoom`. */
    method CenterFromBounds() returns (r: Result<Center, Error>)
      requires Valid()
      modifies this
      ensures r == BoundsCenterFor(reader, parsers)
      ensures Valid()
      ensures Kept(old(metadataSlot), metadataSlot) && Kept(old(boundsSlot), boundsSlot) && Kept(old(zoomSlot), zoomSlot)
      ensures centerSlot == old(centerSlot)
    {
      var b :- Bounds();
      var lat := b.south + (b.north - b.south) / 2.0;
      var lon := b.west + (b.east - b.west) / 2.0;
      var zoom :- MiddleZoom();
      r := Ok(Interpreter.Center(lon, lat, zoom));
    }

    /** `minzoom`: `int(metadata.get('minzoom', zoomlevels[0]))`. */
    method MinZoom() returns (r: Result<int, Error>)
      requires Valid()
      modifies this
      ensures Valid()
      ensures r == MinZoomFor(reader, parsers)
      ensures Kept(old(metadataSlot), metadataSlot) && Kept(old(zoomSlot), zoomSlot)
      ensures boundsSlot == old(boundsSlot) && centerSlot == old(centerSlot)
    {
      var md :- Metadata();
      var zl :- ZoomLevels();
      r := Interpreter.MinZoom(md, zl, parsers);
    }

    /** `maxzoom`: `int(metadata.get('maxzoom', zoomlevels[-1]))`. */
    method MaxZoom() returns (r: Result<int, Error>)
      requires Valid()
      modifies this
      ensures Valid()
      ensures r == MaxZoomFor(reader, parsers)
      ensures Kept(old(metadataSlot), metadataSlot) && Kept(old(zoomSlot), zoomSlot)
      ensures boundsSlot == old(boundsSlot) && centerSlot == old(centerSlot)
    {
      var md :- Metadata();
      var zl :- ZoomLevels();
      r := Interpreter.MaxZoom(md, zl, parsers);
    }

    /** `name`: the metadata `name` if present, else the id. */
    method Name() returns (r: Result<string, Error>)
      requires Valid()
      modifies this
      ensures Valid()
      ensures reader.metadata.None? ==> r == Err(InvalidFormat)
      ensures reader.metadata.Some? && "name" in reader.metadata.value ==> r == Ok(reader.metadata.value["name"])
      ensures reader.metadata.Some? && "name" !in reader.metadata.value ==> r == Ok(Id())
      ensures reader.metadata.Some? ==> r == Ok(NameOf(reader.metadata.value, Id()))
      ensures metadataSlot == reader.metadata
      ensures boundsSlot == old(boundsSlot) && centerSlot == old(centerSlot) && zoomSlot == old(zoomSlot)
    {
      var md :- Metadata();
      r := Ok(NameOf(md, Id()));
    }

    /**
     * `jsonp(callback)`: the raw metadata overlaid with the derived fields,
     * serialized and wrapped in the callback. `filesize`, URL reversing and
     * JSON serialization are given.
     */
    method Jsonp(callback: string, filesize: int, reverse: string -> string, dumps: Document -> string)
      returns (r: Result<string, Error>)
      requires Valid()
      modifies this
      ensures Valid()
      ensures r == JsonpOf(reader, parsers, basename, callback, filesize, reverse, dumps)
      ensures Kept(old(metadataSlot), metadataSlot) && Kept(old(boundsSlot), boundsSlot)
      ensures Kept(old(centerSlot), centerSlot) && Kept(old(zoomSlot), zoomSlot)
    {
      var md :- Metadata();
      var jsonp := map k | k in md :: JString(md[k]);
      var b :- Bounds();
      var c :- Center();
      var lo :- MinZoom();
      var hi :- MaxZoom();
      jsonp := jsonp + map["bounds" := BoundsJson(b), "center" := CenterJson(c),
                           "minzoom" := JInteger(lo), "maxzoom" := JInteger(hi)];
      var id := Id();
      var tilepattern := reverse(id);
      tilepattern := UnescapeBraces(tilepattern);
      var name := Name();
      assert name.Ok?;
      jsonp := jsonp + map["id" := JString(id), "name" := JString(name.value), "scheme" := JString("xyz"),
                           "basename" := JString(basename), "filesize" := JInteger(filesize),
                           "tiles" := JArray([JString(tilepattern)])];
      assert jsonp == TileJson(md, b, c, lo, hi, id, name.value, basename, filesize, tilepattern);
      r := Ok(Envelope(callback, dumps(jsonp)));
    }
  }
}
