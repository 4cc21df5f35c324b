# django-mbtiles: the MBTiles store model in Dafny

django-mbtiles serves map tiles from MBTiles files (SQLite containers holding a
`metadata` key/value table and a `tiles` table). This project models the part of
it that has real logic, the `MBTiles` and `MBTilesManager` classes of
`mbtilesmap/models.py`, and proves what they promise:

- **Locator.** `MBTiles(name)` finds its file, first match wins: the name as
  given; then `MBTILES_ROOT/name`; then `MBTILES_ROOT/name.MBTILES_EXT`. It raises
  `MBTilesFolderError` for a missing root and `MBTilesNotFoundError` when no
  candidate exists. Modelled by `Models.Resolve` (the rule) and `Models.Locate`
  (the step-by-step search), and proved equal.
- **Identity.** `id` is `splitext(basename(fullpath))[0]`. `name` is the
  metadata `name`, or the `id` when that key is missing. `os.path.join`,
  `basename` and `splitext` are modelled in module `Paths`, following POSIX
  rules: an absolute second argument to `join` wins, and a leading dot does not
  start an extension.
- **Metadata interpreter** (module `Interpreter`). Pure functions give `bounds`,
  `center`, `minzoom`, `maxzoom` and `middlezoom` from the metadata map and the
  zoom levels:
  - `bounds` falls back to the whole world unless the value splits into four
    parts;
  - a `center` whose zoom is not available falls back to `middlezoom`;
  - the defaults `zoomlevels[0]` and `zoomlevels[-1]` are evaluated eagerly.
  
  Python's `str.split` and `str.replace` are modelled in module `PyStrings`.
- **Memoisation.** `@reify` (`metadata`, `bounds`, `center`, `zoomlevels`)
  becomes the class `Models.MBTiles` with one `Option` cache slot per field.
  - Each accessor method returns what computing the field afresh gives.
  - It fills only its own slot, and only on success.
  - It leaves the other slots unchanged, or at most fills them on the way.
  - `Valid()` states that every filled slot holds the fresh value.
- **TileJSON.** `jsonp(callback)` copies the raw metadata, overrides it with
  the derived fields, un-escapes `%7B`/`%7D` in the tile URL pattern, and wraps
  the serialized dictionary as `callback(json);`.
- **Catalogue** (module `Catalog`). `MBTilesManager()` fails when the root is
  missing. Iterating it walks the folder and keeps the files with the store
  extension. It opens each one and yields it unless it is unreadable or its
  name is empty. `MBTilesManager.Iterate` is a nested loop proved against the
  functional specification `ListWalk`, and lemmas characterise `ListWalk`:
  - in walk order, it yields exactly the listable candidate files;
  - every yielded store exists, has readable metadata and a non-empty name;
  - an uncaught locator error ends the iteration;
  - a dotted extension setting matches nothing.

The filesystem is a map from each existing path to what the MBTiles reader would
read there. The reader's two queries, the metadata table and the zoom levels,
each either succeed or raise `InvalidFormatError`, independently of each other.
A store is listed as soon as its metadata can be read: iterating never reads
the zoom levels. Python's `float()` and `int()` on metadata strings
are given as partial maps (`Interpreter.Parsers`).

## Model

| member | source | states |
|---|---|---|
| Models.Resolve | mbtilesmap/models.py:65-73 | First match wins: an existing `name` is returned as is; otherwise a missing root raises the folder error; otherwise an existing `root/name` is returned; it fails if and only if no candidate exists (or the root is missing), so an existing candidate is always found; a found path exists; the only errors are the folder error and not-found for `root/name.ext` |
| Models.Locate | mbtilesmap/models.py:65-74 | The search that reassigns one candidate path returns exactly `Resolve`; an existing name is returned as is; a missing name under a missing root raises the folder error; a found path exists |
| Models.ExistingNameWins | mbtilesmap/models.py:65-66 | An existing name is used unchanged, whatever the root, even a missing one |
| Models.ResolveIdempotent | mbtilesmap/models.py:65-74 | Locating the path the locator found finds that same path again |
| Models.AbsoluteNameIgnoresRoot | mbtilesmap/models.py:69-71 | An absolute name is never looked up under the root: it is found as given or with the extension appended |
| Models.IdUnderDirectory | mbtilesmap/models.py:75-81 | A file name without `/` keeps its id when joined under any directory |
| Models.IdWithExtension | mbtilesmap/models.py:71-81 | A name found by appending `.ext` has the name itself as its id (dot-free extension, name not all dots) |
| Models.IdentifierId | mbtilesmap/models.py:65-81 | For an identifier: found as given or under the root, the id is the identifier's own stem; found with the extension appended, the id is the identifier |
| Models.CenterForReadable | mbtilesmap/models.py:103-119 | When both reader queries succeed, a store's `center` is the interpreter's `CenterOf` of its metadata and zoom levels |
| Models.CenterWithoutZoomLevels | mbtilesmap/models.py:108-119 | With readable metadata but unreadable zoom levels, `center` raises ValueError for an unparseable three-part value or unparseable four-part bounds, and `InvalidFormatError` otherwise |
| Models.TileJson | mbtilesmap/models.py:158-176 | The document's keys are the metadata keys plus the ten derived keys, and nothing else |
| Models.TileJsonKeepsRaw | mbtilesmap/models.py:158 | A metadata entry whose key is not derived reaches the document unchanged |
| Models.TileJsonProcessed | mbtilesmap/models.py:160-165 | `bounds`, `center`, `minzoom`, `maxzoom` take the derived values, overriding the metadata |
| Models.TileJsonAdditional | mbtilesmap/models.py:169-176 | `id`, `name`, `basename`, `filesize` and `tiles` take the given values, and `scheme` is `xyz` |
| Models.UnescapeBraces | mbtilesmap/models.py:168 | No `%7B` and no `%7D` is left in the tile pattern |
| Models.Envelope | mbtilesmap/models.py:177 | `'%s(%s);'`: the callback, `(`, the JSON, then `);`; the JSON can be cut back out of the result |
| Models.JsonpOf | mbtilesmap/models.py:156-177 | Fails if and only if reading the metadata or computing bounds, center, minzoom or maxzoom fails; otherwise the result starts with `callback(` and ends with `);` |
| Models.UnescapeBracesInverse | mbtilesmap/models.py:167-168 | On a URL without literal braces, re-quoting the braces gives back the URL, so un-escaping loses nothing |
| Models.MBTiles.constructor | mbtilesmap/models.py:74-76 | Records the path and its basename; every cache is empty |
| Models.MBTiles.Open | mbtilesmap/models.py:59-76 | Fails exactly when the locator fails, with its error; on success the store reads the file found, and its caches are empty and valid |
| Models.MBTiles.Metadata | mbtilesmap/models.py:91-93 | Returns the metadata read afresh; the slot is filled exactly on success; a filled slot is served with nothing changed; no other slot changes |
| Models.MBTiles.ZoomLevels | mbtilesmap/models.py:135-137 | Same as `Metadata`, for the zoom levels |
| Models.MBTiles.Bounds | mbtilesmap/models.py:95-101 | Returns the interpreted bounds and caches them only on success; may fill the metadata slot; the center and zoom slots do not change |
| Models.MBTiles.MiddleZoom | mbtilesmap/models.py:131-133 | Returns `middlezoom`, which is one of the available zoom levels; only the zoom slot may change |
| Models.MBTiles.Center | mbtilesmap/models.py:103-119 | Returns the interpreted center, whose zoom is an available level, and caches it only on success; filled slots are kept |
| Models.MBTiles.CenterFromKey | mbtilesmap/models.py:109-115 | The three-part branch equals `KeyedCenterFor`: the parts are parsed before the zoom levels are read, then `KeyedCenter`; only the zoom slot may change |
| Models.MBTiles.CenterFromBounds | mbtilesmap/models.py:116-119 | The fallback branch equals `BoundsCenterFor`: the bounds are computed before the zoom levels are read, then `BoundsCenter`; the center slot does not change |
| Models.MBTiles.MinZoom | mbtilesmap/models.py:121-124 | Returns `minzoom` as interpreted; filled slots are kept |
| Models.MBTiles.MaxZoom | mbtilesmap/models.py:126-129 | Returns `maxzoom` as interpreted; filled slots are kept |
| Models.MBTiles.Id | mbtilesmap/models.py:78-81 | The id followed by the `splitext` extension is the basename |
| Models.MBTiles.Name | mbtilesmap/models.py:83-85 | Unreadable metadata raises; otherwise the result is the metadata `name` when present and the id when absent; the metadata slot ends up filled |
| Models.MBTiles.Jsonp | mbtilesmap/models.py:156-177 | The dictionary built in place, serialized and wrapped, equals `JsonpOf` (failures in evaluation order); filled slots are kept |
| Interpreter.ParseReals | mbtilesmap/models.py:101 | Succeeds if and only if every part parses, and then holds each part's number in order |
| Interpreter.Trunc | mbtilesmap/models.py:111 | Truncation toward zero: the result is within one of `x`, on the side of zero |
| Interpreter.BoundsOf | mbtilesmap/models.py:96-101 | Anything but four parts gives the world; with four parts it fails if and only if a part does not parse, and otherwise gives the parsed parts in order west, south, east, north |
| Interpreter.MiddleZoom | mbtilesmap/models.py:132-133 | Fails if and only if there are no zoom levels; otherwise the result is one of the levels |
| Interpreter.MinZoom | mbtilesmap/models.py:122-124 | An empty zoom list raises even when the key is present; otherwise the key's integer value (it raises if unparseable), or `zoomlevels[0]` when the key is absent |
| Interpreter.MaxZoom | mbtilesmap/models.py:127-129 | As `MinZoom`, with key `maxzoom` and the last zoom level |
| Interpreter.KeyedCenter | mbtilesmap/models.py:109-115 | A part that does not parse raises ValueError; otherwise lon and lat are the first two parts, and the zoom is the truncated third part when available, else `zoomlevels[len/2]` (an empty zoom list raises IndexError); the zoom is always an available level |
| Interpreter.BoundsCenter | mbtilesmap/models.py:116-119 | A bounds error propagates; no zoom levels raises IndexError; otherwise the center is the midpoint `((w+e)/2, (s+n)/2)` at zoom `zoomlevels[len/2]` |
| Interpreter.CenterOf | mbtilesmap/models.py:104-119 | The center's zoom is always an available level; without zoom levels there is no center |
| Interpreter.IdOf | mbtilesmap/models.py:79-81 | The id followed by the `splitext` extension is the basename |
| Interpreter.IdOfShape | mbtilesmap/models.py:79-81 | The id is a prefix of the basename; the remainder is empty, or a dot followed by a dot-free extension |
| Interpreter.IdOfStem | mbtilesmap/models.py:79-81 | `stem.ext` has id `stem` (dot-free extension, stem not all dots) |
| Interpreter.NameOf | mbtilesmap/models.py:85 | The metadata `name` when that key is present, the id otherwise |
| Interpreter.MiddleZoomRank | mbtilesmap/models.py:132-133 | Of ascending levels, exactly `len / 2` lie below `middlezoom` (the upper median) |
| Interpreter.ZoomRange | mbtilesmap/models.py:121-133 | Without overrides, `minzoom` and `maxzoom` bound every level, and `middlezoom` lies between them |
| Interpreter.CenterFromMetadata | mbtilesmap/models.py:108-115 | A parseable three-part center keeps lon and lat; the zoom is the truncated third part if available, else `zoomlevels[len/2]` |
| Interpreter.CenterInsideBounds | mbtilesmap/models.py:116-119 | Without a three-part center, the center is the midpoint of the bounds at `zoomlevels[len/2]`, and so lies inside non-inverted bounds |
| Interpreter.UnparseableCenterRaises | mbtilesmap/models.py:108-110 | A three-part center with a part that does not parse raises ValueError, whatever the zoom levels |
| Interpreter.MissingBoundsIsWorld | mbtilesmap/models.py:97-100 | Without a `bounds` key the bounds are `(-180, -90, 180, 90)` (`''.split(',')` has one part) |
| Interpreter.WorldCenter | mbtilesmap/models.py:96-119 | With neither `center` nor `bounds` and zoom levels `[3, 5]`, the center is `(0, 0, 5)` |
| Interpreter.BoundsFromText | mbtilesmap/models.py:97-101 | `bounds = "w,s,e,n"` with parseable parts gives exactly those four numbers, in that order |
| Interpreter.SplitFourParts | mbtilesmap/models.py:97 | Four comma-free parts joined by commas split back into those parts |
| PyStrings.Split | mbtilesmap/models.py:97 | `split` gives one more part than there are separators; no part holds one; joining the parts gives the input back |
| PyStrings.SplitWithoutSeparator | mbtilesmap/models.py:97 | A string without the separator splits into itself alone |
| PyStrings.SplitAfterPart | mbtilesmap/models.py:97 | `a + sep + b`, where `a` has no separator, splits into `a` followed by the parts of `b` |
| PyStrings.SplitJoinWith | mbtilesmap/models.py:97 | `split` inverts `join` on parts without the separator |
| PyStrings.ReplaceDrawsFrom | mbtilesmap/models.py:168 | Every character of `s.replace(pat, rep)` comes from `s` or `rep` |
| PyStrings.ReplaceLeavesNoOccurrence | mbtilesmap/models.py:168 | After `replace`, neither `pat` nor a string that was absent before occurs, when `rep` shares no character with it |
| PyStrings.ExpandUndoesReplace | mbtilesmap/models.py:168 | Replacing `code` by a character that did not occur is undone by expanding that character back |
| Paths.Join | mbtilesmap/models.py:69 | An absolute second argument replaces the first |
| Paths.JoinShape | mbtilesmap/models.py:69 | A joined path ends with the name; before a relative name comes the directory, with `/` added if missing |
| Paths.BasenameShape | mbtilesmap/models.py:75 | The basename is the longest `/`-free suffix of the path |
| Paths.BasenameOfJoin | mbtilesmap/models.py:75 | The basename of `dir` joined with a `/`-free name is that name |
| Paths.SplitExtShape | mbtilesmap/models.py:80 | The two halves of `splitext` concatenate to the input; a non-empty extension starts with its only dot and has no `/` |
| Paths.SplitExtOfStem | mbtilesmap/models.py:80 | `stem.ext` splits into `stem` and `.ext` (dot-free extension, stem not all dots) |
| Paths.ExtensionMatches | mbtilesmap/models.py:43-44 | `splitext` reports `.ext` if and only if the file name ends in `.ext` after a stem that is not all dots |
| Paths.DottedExtensionNeverSplit | mbtilesmap/models.py:43-44 | An extension setting containing a dot is never reported by `splitext` |
| Catalog.HasExtension | mbtilesmap/models.py:43-44 | A file name that passes the extension test ends in `.` followed by the extension |
| Catalog.Listable | mbtilesmap/models.py:46-49 | A listable path exists and its metadata can be read; without a `name` key its id is not empty |
| Catalog.EmptyMetadataListedById | mbtilesmap/models.py:46-49 | A store whose metadata reads as empty is listed under its non-empty id, whatever its zoom-level query does |
| Catalog.VisitOf | mbtilesmap/models.py:46-51 | A yielded file is listable; a file raises if and only if the locator fails on it (that error is not caught) |
| Catalog.ListFilesStep | mbtilesmap/models.py:42-45 | Listing a directory's files is taking them one at a time and passing over those without the extension |
| Catalog.PathsExtend | mbtilesmap/models.py:46-51 | Visiting paths (`ListPaths`) only appends stores: those yielded before stay, in place |
| Catalog.WalkExtends | mbtilesmap/models.py:41-51 | Walking directories (`ListWalk`) only appends stores: those yielded before stay, in place |
| Catalog.RaisedPathsFinal | mbtilesmap/models.py:46-51 | Once an error has propagated, the remaining files change nothing |
| Catalog.RaisedWalkFinal | mbtilesmap/models.py:41-51 | Once an error has propagated, the rest of the walk changes nothing |
| Catalog.PathsYieldListable | mbtilesmap/models.py:46-49 | Visiting paths adds only listable stores |
| Catalog.WalkYieldsListable | mbtilesmap/models.py:41-49 | Walking directories adds only listable stores |
| Catalog.YieldedAreListable | mbtilesmap/models.py:40-51 | Every yielded store exists, has readable metadata and has a non-empty name, whatever the walk |
| Catalog.VisitExisting | mbtilesmap/models.py:46-51 | A path that exists is opened as given: yielded when listable, skipped otherwise |
| Catalog.ConsistentPaths | mbtilesmap/models.py:46-51 | Visiting paths that all exist never raises and yields exactly the listable ones, in order |
| Catalog.ListPathsAppend | mbtilesmap/models.py:41-42 | Visiting `a + b` is visiting `a`, then `b` |
| Catalog.WalkOpensCandidates | mbtilesmap/models.py:41-45 | Walking directory by directory visits the extension-matching files of the whole walk, in walk order |
| Catalog.ConsistentWalk | mbtilesmap/models.py:40-51 | If every candidate file exists, iteration never raises and yields exactly the listable files with the store extension, in walk order |
| Catalog.DottedCandidates | mbtilesmap/models.py:43-45 | With a dotted extension setting, no file of a directory is a candidate |
| Catalog.DottedExtensionListsNothing | mbtilesmap/models.py:43-45 | With a dotted extension setting, the catalogue yields nothing and never raises |
| Catalog.VisitFile | mbtilesmap/models.py:42-51 | A file without the extension is passed over; otherwise the outcome (raise, yield, skip) is `VisitOf`; a yielded store is freshly opened with its metadata read |
| Catalog.YieldedIsValid | mbtilesmap/models.py:47-49 | A store handed out by the iteration keeps the caching invariant |
| Catalog.MBTilesManager.constructor | mbtilesmap/models.py:35 | The manager lists the given folder |
| Catalog.MBTilesManager.Open | mbtilesmap/models.py:32-35 | Fails with the folder error if and only if the root does not exist; otherwise it lists the root |
| Catalog.MBTilesManager.Iterate | mbtilesmap/models.py:40-51 | The stores handed out, and the error that ended the iteration, are exactly those of `ListWalk` over the walk; each store is freshly opened |
| Catalog.MBTilesManager.ListDirectory | mbtilesmap/models.py:42-51 | The inner loop extends the stores found so far exactly as `ListFiles` extends their paths; earlier stores are untouched |

## Left out

- Reading the container: landez's `MBTilesReader` (its SQLite queries, `tile` and `grid`, the row flip and UTF-Grid assembly) is not part of this model. What it reads is an input, the `Tileset` stored in the filesystem map. The `ExtractionError` to `MissingTileError` mapping of `tile`/`grid` (lines 139-154) is not modelled either: it only renames an exception.
- Reader contents are fixed when the store is opened; a file changing on disk while a store is open is not modelled.
- `center_tile` (lines 145-148): a floating-point Mercator projection in the foreign `GoogleProjection`.
- `filesize` (lines 87-89) is `os.path.getsize` I/O. Django's `reverse` and `simplejson.dumps` inside `jsonp` are also outside this model. All three are parameters of `Models.MBTiles.Jsonp`.
- Logging, the translated messages, and the text of `MBTilesFolderError` and `MBTilesNotFoundError` are not modelled. An error carries only its kind (and, for not-found, the last path tried).
- `all()` returns the manager itself. The class attribute `MBTiles.objects` (line 57) builds a manager when the class is defined, so a missing root raises at import. Neither is modelled.
- `os.walk` is an input: the directories in the order visited, each with its file names. Directory recursion order is whatever that input says.
- Catalog.MBTilesManager.Iterate: runs the generator to its end or to the error that ends it. A consumer that stops early sees a prefix of that result; this is not stated.
- Interpreter.Parsers: `float()` and `int()` are given as maps from the strings they accept to their values. Floating-point rounding, `inf` and `nan` are not modelled. Numbers are exact `real`s, so the center midpoint is computed exactly.
- Catalog.VisitFile: `assert mb.name` is removed when Python runs with `-O`; the model follows the assertion-enabled behaviour.
- Metadata values are strings, as the SQLite `metadata` table stores them. Zoom levels are integers, so `int(z)` on the zoom-level default returns it unchanged.
- The model follows the code on these points:
  - `float()` and `int()` on metadata values are not guarded: a value that does not parse raises `ValueError`.
  - An empty id is not rejected when a store is opened; only the catalogue skips stores with an empty name.
  - A locator error raised while iterating, e.g. for a file that vanished during the walk, is not caught, so the iteration ends there.
  - There is a single `MBTILES_ROOT`; the code has no multiple catalogues and no default-catalogue discovery.
- The reader's query outcomes are inputs: whether the metadata and zoom-level queries raise `InvalidFormatError` (an empty or non-SQLite file, a missing table) is given per path, not derived from file contents.
