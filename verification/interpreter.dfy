/**
 * The metadata interpreter of an MBTiles store: the fallback rules that turn
 * the raw `metadata` table (a string-to-string map) and the zoom levels
 * present in the `tiles` table into the derived fields `bounds`, `center`,
 * `minzoom`, `maxzoom`, `middlezoom`, `id` and `name`.
 *
 * Python's `float()` and `int()` on a metadata string are taken as given
 * partial functions (`Parsers`): `None` where Python raises ValueError.
 */
module Interpreter {
  import opened Wrappers
  import opened Errors
  import opened PyStrings
  import opened Paths

  /** The `metadata` table: name to value. */
  type Metadata = map<string, string>

  /**
   * Python's `float(s)` and `int(s)` on metadata strings, given as the strings
   * each accepts and the value it returns for them; on any other string it raises.
   */
  datatype Parsers = Parsers(reals: map<string, real>, ints: map<string, int>)
  {
    function ToReal(s: string): Option<real>
    {
      if s in reals then Some(reals[s]) else None
    }

    function ToInt(s: string): Option<int>
    {
      if s in ints then Some(ints[s]) else None
    }
  }

  /** (west, south, east, north) in degrees. */
  datatype Bounds = Bounds(west: real, south: real, east: real, north: real)

  /** (lon, lat, zoom). */
  datatype Center = Center(lon: real, lat: real, zoom: int)

  /** The whole-world fallback `(-180, -90, 180, 90)`. */
  const World := Bounds(-180.0, -90.0, 180.0, 90.0)

  /** Python's `md.get(key, default)`. */
  function Get(md: Metadata, key: string, default: string): string
  {
    if key in md then md[key] else default
  }

  /** Python's `map(float, parts)`: fails as soon as one part does not parse. */
  function ParseReals(parts: seq<string>, p: Parsers): (r: Option<seq<real>>)
    ensures r.Some? <==> forall i :: 0 <= i < |parts| ==> p.ToReal(parts[i]).Some?
    ensures r.Some? ==> |r.value| == |parts| && forall i :: 0 <= i < |parts| ==> p.ToReal(parts[i]) == Some(r.value[i])
  {
    if |parts| == 0 then Some([])
    else match p.ToReal(parts[0])
      case None => None
      case Some(x) =>
        match ParseReals(parts[1..], p)
        case None =>
          assert forall i :: 1 <= i < |parts| ==> parts[i] == parts[1..][i - 1];
          None
        case Some(xs) =>
          assert forall i :: 1 <= i < |parts| ==> parts[i] == parts[1..][i - 1];
          Some([x] + xs)
  }

  /** Python's `int(x)` on a float: truncation toward zero. */
  function Trunc(x: real): (n: int)
    ensures 0.0 <= x ==> n as real <= x < n as real + 1.0
    ensures x < 0.0 ==> n as real - 1.0 < x <= n as real
  {
    if 0.0 <= x then x.Floor else -((-x).Floor)
  }

  /**
   * `bounds`: the metadata value split at commas. Anything but exactly four
   * parts (a missing key gives one part) falls back to the whole world; four
   * parts are parsed in order, and a part that does not parse raises.
   */
  function BoundsOf(md: Metadata, p: Parsers): (r: Result<Bounds, Error>)
    ensures var parts := Split(Get(md, "bounds", ""), ',');
      && (|parts| != 4 ==> r == Ok(World))
      && (r.Err? <==> |parts| == 4 && exists i :: 0 <= i < 4 && p.ToReal(parts[i]).None?)
      && (r.Err? ==> r.error == InvalidNumber)
      && (r.Ok? && |parts| == 4 ==>
            && p.ToReal(parts[0]) == Some(r.value.west)
            && p.ToReal(parts[1]) == Some(r.value.south)
            && p.ToReal(parts[2]) == Some(r.value.east)
            && p.ToReal(parts[3]) == Some(r.value.north))
  {
    var parts := Split(Get(md, "bounds", ""), ',');
    if |parts| != 4 then Ok(World)
    else match ParseReals(parts, p)
      case None => Err(InvalidNumber)
      case Some(xs) => Ok(Bounds(xs[0], xs[1], xs[2], xs[3]))
  }

  /**
   * `middlezoom`: the zoom level at index `len(zoomlevels) / 2` (integer
   * division); indexing an empty list raises. When defined it is one of the
   * zoom levels.
   */
  function MiddleZoom(zl: seq<int>): (r: Result<int, Error>)
    ensures r.Err? <==> |zl| == 0
    ensures r.Err? ==> r.error == NoZoomLevels
    ensures r.Ok? ==> r.value in zl
  {
    if |zl| == 0 then Err(NoZoomLevels) else Ok(zl[|zl| / 2])
  }

  /**
   * `minzoom`: `int(metadata.get('minzoom', zoomlevels[0]))`. The default
   * argument is evaluated first, so an empty zoom list raises even when the
   * key is present; otherwise the metadata value wins, and it raises if it
   * is not an integer.
   */
  function MinZoom(md: Metadata, zl: seq<int>, p: Parsers): (r: Result<int, Error>)
    ensures |zl| == 0 ==> r == Err(NoZoomLevels)
    ensures |zl| > 0 && "minzoom" !in md ==> r == Ok(zl[0])
    ensures |zl| > 0 && "minzoom" in md ==>
      r == (match p.ToInt(md["minzoom"]) case Some(z) => Ok(z) case None => Err(InvalidNumber))
  {
    if |zl| == 0 then Err(NoZoomLevels)
    else if "minzoom" in md then
      match p.ToInt(md["minzoom"])
      case Some(z) => Ok(z)
      case None => Err(InvalidNumber)
    else Ok(zl[0])
  }

  /** `maxzoom`: as `minzoom`, with the key `maxzoom` and the default `zoomlevels[-1]`. */
  function MaxZoom(md: Metadata, zl: seq<int>, p: Parsers): (r: Result<int, Error>)
    ensures |zl| == 0 ==> r == Err(NoZoomLevels)
    ensures |zl| > 0 && "maxzoom" !in md ==> r == Ok(zl[|zl| - 1])
    ensures |zl| > 0 && "maxzoom" in md ==>
      r == (match p.ToInt(md["maxzoom"]) case Some(z) => Ok(z) case None => Err(InvalidNumber))
  {
    if |zl| == 0 then Err(NoZoomLevels)
    else if "maxzoom" in md then
      match p.ToInt(md["maxzoom"])
      case Some(z) => Ok(z)
      case None => Err(InvalidNumber)
    else Ok(zl[|zl| - 1])
  }

  /**
   * `center` from a three-part metadata value: lon and lat as parsed, and the
   * zoom truncated to an integer, replaced by `middlezoom` when it is not an
   * available level.
   */
  function KeyedCenter(parts: seq<string>, zl: seq<int>, p: Parsers): (r: Result<Center, Error>)
    requires |parts| == 3
    ensures r.Ok? ==> r.value.zoom in zl
    ensures (exists i :: 0 <= i < 3 && p.ToReal(parts[i]).None?) ==> r == Err(InvalidNumber)
    ensures (forall i :: 0 <= i < 3 ==> p.ToReal(parts[i]).Some?) ==>
      var zoom := Trunc(p.ToReal(parts[2]).value);
      && (zoom !in zl && |zl| == 0 ==> r == Err(NoZoomLevels))
      && (zoom in zl || |zl| > 0 ==>
            && r.Ok? && p.ToReal(parts[0]) == Some(r.value.lon) && p.ToReal(parts[1]) == Some(r.value.lat)
            && r.value.zoom == if zoom in zl then zoom else zl[|zl| / 2])
  {
    match ParseReals(parts, p)
    case None => Err(InvalidNumber)
    case Some(xs) =>
      var zoom := Trunc(xs[2]);
      if zoom in zl then Ok(Center(xs[0], xs[1], zoom))
      else match MiddleZoom(zl)
        case Err(e) => Err(e)
        case Ok(m) => Ok(Center(xs[0], xs[1], m))
  }

  /** `center` guessed from the bounds: their midpoint, at `middlezoom`. */
  function BoundsCenter(bounds: Result<Bounds, Error>, zl: seq<int>): (r: Result<Center, Error>)
    ensures r.Ok? ==> r.value.zoom in zl
    ensures bounds.Err? ==> r == Err(bounds.error)
    ensures bounds.Ok? && |zl| == 0 ==> r == Err(NoZoomLevels)
    ensures bounds.Ok? && |zl| > 0 ==>
      var b := bounds.value;
      r == Ok(Center((b.west + b.east) / 2.0, (b.south + b.north) / 2.0, zl[|zl| / 2]))
  {
    match bounds
    case Err(e) => Err(e)
    case Ok(b) =>
      match MiddleZoom(zl)
      case Err(e) => Err(e)
      case Ok(m) => Ok(Center(b.west + (b.east - b.west) / 2.0, b.south + (b.north - b.south) / 2.0, m))
  }

  /**
   * `center`: a three-part metadata value is used when present, otherwise
   * the center is guessed from the bounds. Whatever the path, the zoom of a
   * center is an available zoom level.
   */
  function CenterOf(md: Metadata, zl: seq<int>, p: Parsers): (r: Result<Center, Error>)
    ensures r.Ok? ==> r.value.zoom in zl
    ensures |zl| == 0 ==> r.Err?
  {
    var parts := Split(Get(md, "center", ""), ',');
    if |parts| == 3 then KeyedCenter(parts, zl, p)
    else BoundsCenter(BoundsOf(md, p), zl)
  }

  /** `id`: the basename without its extension; the id followed by the extension is the basename. */
  function IdOf(basename: string): (id: string)
    ensures id + SplitExt(basename).1 == basename
  {
    SplitExtShape(basename);
    SplitExt(basename).0
  }

  /** The id is a prefix of the basename, and what follows it is empty or a dot and an extension without dots. */
  lemma IdOfShape(basename: string)
    ensures var id := IdOf(basename);
      && |id| <= |basename| && basename[..|id|] == id
      && (id == basename || (basename[|id|] == '.' && '.' !in basename[|id| + 1..]))
  {
    SplitExtShape(basename);
    var (stem, ext) := SplitExt(basename);
    assert basename[..|stem|] == stem && basename[|stem|..] == ext;
  }

  /** A file name stem + "." + extension (no dots in the extension, a stem not all dots) has the stem as its id. */
  lemma IdOfStem(stem: string, ext: string)
    requires '/' !in stem && '/' !in ext && '.' !in ext
    requires !AllDots(stem)
    ensures IdOf(stem + "." + ext) == stem
  {
    SplitExtOfStem(stem, ext);
  }

  /** `name`: the metadata `name` if present, else the id. */
  function NameOf(md: Metadata, id: string): (name: string)
    ensures "name" in md ==> name == md["name"]
    ensures "name" !in md ==> name == id
  {
    Get(md, "name", id)
  }

  /** Zoom levels as the `tiles` table yields them: strictly ascending. */
  ghost predicate Ascending(zl: seq<int>)
  {
    forall i, j :: 0 <= i < j < |zl| ==> zl[i] < zl[j]
  }

  /** Number of zoom levels below `z`. */
  function CountBelow(zl: seq<int>, z: int): nat
  {
    if |zl| == 0 then 0 else (if zl[0] < z then 1 else 0) + CountBelow(zl[1..], z)
  }

  lemma {:induction false} CountBelowNone(zl: seq<int>, z: int)
    requires forall i :: 0 <= i < |zl| ==> z <= zl[i]
    ensures CountBelow(zl, z) == 0
  {
    if |zl| > 0 {
      CountBelowNone(zl[1..], z);
    }
  }

  /** In a strictly ascending list, exactly `k` levels lie below the one at index `k`. */
  lemma {:induction false} RankInAscending(zl: seq<int>, k: nat)
    requires Ascending(zl) && k < |zl|
    ensures CountBelow(zl, zl[k]) == k
  {
    if k == 0 {
      CountBelowNone(zl[1..], zl[0]);
    } else {
      assert zl[1..][k - 1] == zl[k];
      RankInAscending(zl[1..], k - 1);
    }
  }

  /**
   * The middle zoom is the upper median: of an ascending list, exactly
   * `len / 2` levels lie below it (for `[3, 5]` it is 5, not 3).
   */
  lemma MiddleZoomRank(zl: seq<int>)
    requires Ascending(zl) && |zl| > 0
    ensures MiddleZoom(zl).Ok? && CountBelow(zl, MiddleZoom(zl).value) == |zl| / 2
  {
    RankInAscending(zl, |zl| / 2);
  }

  /**
   * Without overrides in the metadata, `minzoom` and `maxzoom` are the
   * smallest and largest available levels, and `middlezoom` lies between them.
   */
  lemma ZoomRange(md: Metadata, zl: seq<int>, p: Parsers)
    requires Ascending(zl) && |zl| > 0
    requires "minzoom" !in md && "maxzoom" !in md
    ensures MinZoom(md, zl, p).Ok? && MaxZoom(md, zl, p).Ok? && MiddleZoom(zl).Ok?
    ensures forall z :: z in zl ==> MinZoom(md, zl, p).value <= z <= MaxZoom(md, zl, p).value
    ensures MinZoom(md, zl, p).value <= MiddleZoom(zl).value <= MaxZoom(md, zl, p).value
  {
    forall z | z in zl ensures zl[0] <= z <= zl[|zl| - 1] {
      var i :| 0 <= i < |zl| && zl[i] == z;
    }
  }

  /**
   * A three-part `center` whose parts parse keeps the parsed lon and lat; its
   * zoom is the truncated third part when that is an available level, and
   * `middlezoom` otherwise.
   */
  lemma CenterFromMetadata(md: Metadata, zl: seq<int>, p: Parsers)
    requires var parts := Split(Get(md, "center", ""), ',');
      |parts| == 3 && forall i :: 0 <= i < 3 ==> p.ToReal(parts[i]).Some?
    requires |zl| > 0
    ensures var parts := Split(Get(md, "center", ""), ',');
      var zoom := Trunc(p.ToReal(parts[2]).value);
      CenterOf(md, zl, p) == Ok(Center(p.ToReal(parts[0]).value, p.ToReal(parts[1]).value,
                                       if zoom in zl then zoom else zl[|zl| / 2]))
  {
  }

  /**
   * Without a three-part `center`, the center is the midpoint of `bounds`, at
   * the middle zoom; so it lies inside bounds that are not inverted.
   */
  lemma CenterInsideBounds(md: Metadata, zl: seq<int>, p: Parsers)
    requires |Split(Get(md, "center", ""), ',')| != 3
    requires BoundsOf(md, p).Ok? && |zl| > 0
    ensures var b := BoundsOf(md, p).value;
      var c := CenterOf(md, zl, p);
      && c == Ok(Center((b.west + b.east) / 2.0, (b.south + b.north) / 2.0, zl[|zl| / 2]))
      && (b.west <= b.east ==> b.west <= c.value.lon <= b.east)
      && (b.south <= b.north ==> b.south <= c.value.lat <= b.north)
  {
  }

  /**
   * A three-part `center` with a part that does not parse raises ValueError:
   * it does not fall back to the bounds.
   */
  lemma UnparseableCenterRaises(md: Metadata, zl: seq<int>, p: Parsers)
    requires var parts := Split(Get(md, "center", ""), ',');
      |parts| == 3 && exists i :: 0 <= i < 3 && p.ToReal(parts[i]).None?
    ensures CenterOf(md, zl, p) == Err(InvalidNumber)
  {
  }

  /** Without `bounds` metadata, bounds are the whole world. */
  lemma MissingBoundsIsWorld(md: Metadata, p: Parsers)
    requires "bounds" !in md
    ensures BoundsOf(md, p) == Ok(World)
  {
    assert Split("", ',') == [""];
  }

  /**
   * A store with neither `center` nor `bounds` metadata and zoom levels
   * `[3, 5]` is centred on (0, 0) at zoom 5.
   */
  lemma WorldCenter(md: Metadata, p: Parsers)
    requires "center" !in md && "bounds" !in md
    ensures CenterOf(md, [3, 5], p) == Ok(Center(0.0, 0.0, 5))
  {
    MissingBoundsIsWorld(md, p);
    assert Split("", ',') == [""];
  }

  /**
   * Metadata `bounds` written as `w,s,e,n` (no comma inside a part) whose
   * parts all parse yields exactly those four numbers, in that order.
   */
  lemma BoundsFromText(md: Metadata, p: Parsers, w: string, s: string, e: string, n: string)
    requires Get(md, "bounds", "") == w + "," + s + "," + e + "," + n
    requires ',' !in w && ',' !in s && ',' !in e && ',' !in n
    requires p.ToReal(w).Some? && p.ToReal(s).Some? && p.ToReal(e).Some? && p.ToReal(n).Some?
    ensures BoundsOf(md, p) == Ok(Bounds(p.ToReal(w).value, p.ToReal(s).value, p.ToReal(e).value, p.ToReal(n).value))
  {
    SplitFourParts(w, s, e, n);
  }

  /** Four comma-free parts joined by commas split back into those parts. */
  lemma SplitFourParts(w: string, s: string, e: string, n: string)
    requires ',' !in w && ',' !in s && ',' !in e && ',' !in n
    ensures Split(w + "," + s + "," + e + "," + n, ',') == [w, s, e, n]
  {
    var en := e + [','] + n;
    var sen := s + [','] + en;
    SplitWithoutSeparator(n, ',');
    SplitAfterPart(e, n, ',');
    SplitAfterPart(s, en, ',');
    SplitAfterPart(w, sen, ',');
    Regroup(w, s, e, n);
  }

  lemma Regroup(w: string, s: string, e: string, n: string)
    ensures w + "," + s + "," + e + "," + n == w + [','] + (s + [','] + (e + [','] + n))
  {
  }
}
