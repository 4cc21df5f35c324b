/**
 * The POSIX path operations of Python's `os.path` that the tile-store code
 * calls: `join` with two arguments, `basename` and `splitext`. Paths are plain
 * strings with `/` as the separator.
 */
module Paths {

  /** Python's `s.rfind(c)`: the index of the last `c` in `s`, or -1 when there is none. */
  function RFind(s: string, c: char): (i: int)
    ensures -1 <= i < |s|
    ensures 0 <= i ==> s[i] == c
    ensures forall j :: i < j < |s| ==> s[j] != c
  {
    if |s| == 0 then -1
    else if s[|s| - 1] == c then |s| - 1
    else RFind(s[..|s| - 1], c)
  }

  /** `os.path.join(a, b)`: an absolute `b` replaces `a`. */
  function Join(a: string, b: string): (p: string)
    ensures |b| > 0 && b[0] == '/' ==> p == b
  {
    if |b| > 0 && b[0] == '/' then b
    else if |a| == 0 || a[|a| - 1] == '/' then a + b
    else a + "/" + b
  }

  /**
   * A joined path ends with the name joined, which is either the whole path
   * or follows a `/`; before a relative name comes the directory, with a `/`
   * added when it does not end in one.
   */
  lemma JoinShape(a: string, b: string)
    ensures var p := Join(a, b);
      && |b| <= |p| && p[|p| - |b|..] == b
      && (p == b || p[|p| - |b| - 1] == '/')
      && (!(|b| > 0 && b[0] == '/') ==> p[..|p| - |b|] == a || p[..|p| - |b|] == a + "/")
  {
  }

  /** `os.path.basename(p)`: everything after the last `/`. */
  function Basename(p: string): string
  {
    var sep := RFind(p, '/');
    if sep < 0 then p else p[sep + 1..]
  }

  /** A basename is the longest suffix of the path without a `/`. */
  lemma BasenameShape(p: string)
    ensures var b := Basename(p);
      && '/' !in b
      && |b| <= |p| && p[|p| - |b|..] == b
      && (|b| == |p| || p[|p| - |b| - 1] == '/')
  {
  }

  /** Every character of `s` is a dot (true of the empty string). */
  predicate AllDots(s: string)
  {
    |s| == 0 || (s[0] == '.' && AllDots(s[1..]))
  }

  /** Every character of `p` from index `lo` up to `hi` is a dot. */
  predicate AllDotsBetween(p: string, lo: int, hi: int)
    requires 0 <= lo <= hi <= |p|
    decreases hi - lo
  {
    lo == hi || (p[lo] == '.' && AllDotsBetween(p, lo + 1, hi))
  }

  lemma {:induction false} AllDotsBetweenSlice(p: string, lo: int, hi: int)
    requires 0 <= lo <= hi <= |p|
    ensures AllDotsBetween(p, lo, hi) == AllDots(p[lo..hi])
    decreases hi - lo
  {
    if lo < hi {
      AllDotsBetweenSlice(p, lo + 1, hi);
      assert p[lo..hi][1..] == p[lo + 1..hi];
    }
  }

  /** The extension `splitext` cuts off: it starts at the last dot, after the last slash. */
  lemma ExtensionShape(p: string, sep: int, dot: int)
    requires -1 <= sep < dot < |p| && p[dot] == '.'
    requires forall j :: dot < j < |p| ==> p[j] != '.'
    requires forall j :: sep < j < |p| ==> p[j] != '/'
    ensures p[..dot] + p[dot..] == p
    ensures p[dot..][0] == '.' && '.' !in p[dot..][1..] && '/' !in p[dot..]
  {
    var e := p[dot..];
    assert forall j :: 0 <= j < |e| ==> e[j] == p[dot + j];
    assert forall j :: 0 <= j < |e| - 1 ==> e[1..][j] == p[dot + 1 + j];
  }

  /**
   * `os.path.splitext(p)`: splits at the last `.` of the last path component,
   * unless only dots precede it in that component (so `.bashrc` has no
   * extension).
   */
  function SplitExt(p: string): (string, string)
  {
    var sep := RFind(p, '/');
    var dot := RFind(p, '.');
    if sep < dot && !AllDotsBetween(p, sep + 1, dot) then (p[..dot], p[dot..]) else (p, "")
  }

  /** The two halves put together give `p`; a non-empty extension starts with its only dot and holds no `/`. */
  lemma SplitExtShape(p: string)
    ensures var r := SplitExt(p);
      && r.0 + r.1 == p
      && (r.1 == "" || (r.1[0] == '.' && '.' !in r.1[1..] && '/' !in r.1))
  {
    var sep := RFind(p, '/');
    var dot := RFind(p, '.');
    if sep < dot && !AllDotsBetween(p, sep + 1, dot) {
      ExtensionShape(p, sep, dot);
    }
  }

  /** The basename of `dir` joined with a file name that holds no `/` is that file name. */
  lemma BasenameOfJoin(dir: string, name: string)
    requires '/' !in name
    ensures Basename(Join(dir, name)) == name
  {
    var p := Join(dir, name);
    var b := Basename(p);
    JoinShape(dir, name);
    BasenameShape(p);
    assert p[|p| - |b|..] == b && p[|p| - |name|..] == name;
  }

  /** Appending to a relative name appends to the joined path. */
  lemma JoinAppend(dir: string, name: string, suffix: string)
    requires |name| > 0 && name[0] != '/'
    ensures Join(dir, name + suffix) == Join(dir, name) + suffix
  {
    assert (name + suffix)[0] == name[0];
  }

  /** A name and an extension, both without `/`, joined under a directory and dotted: the basename is name.extension. */
  lemma BasenameWithExtension(dir: string, name: string, ext: string)
    requires |name| > 0 && '/' !in name && '/' !in ext
    ensures Basename(Join(dir, name) + "." + ext) == name + "." + ext
  {
    var file := name + "." + ext;
    assert '/' !in file by {
      assert forall i :: 0 <= i < |file| ==> file[i] in name || file[i] == '.' || file[i] in ext;
    }
    JoinAppend(dir, name, "." + ext);
    assert Join(dir, name) + "." + ext == Join(dir, file);
    BasenameOfJoin(dir, file);
  }

  /**
   * A file name made of a stem that is not all dots, a dot, and an extension
   * without dots splits into exactly that stem and `.` + extension.
   */
  lemma SplitExtOfStem(stem: string, ext: string)
    requires '/' !in stem && '/' !in ext && '.' !in ext
    requires !AllDots(stem)
    ensures SplitExt(stem + "." + ext) == (stem, "." + ext)
  {
    var p := stem + "." + ext;
    var dot := RFind(p, '.');
    var sep := RFind(p, '/');
    assert p[|stem|] == '.';
    assert dot == |stem|;
    assert sep == -1;
    assert p[sep + 1..dot] == stem;
    AllDotsBetweenSlice(p, sep + 1, dot);
    assert p[..dot] == stem;
    assert p[dot..] == "." + ext;
  }

  /**
   * For a file name (no `/`) and an extension without dots or slashes,
   * `splitext` reports exactly that extension if and only if the name ends in
   * `.` + extension after a stem that is not all dots.
   */
  lemma ExtensionMatches(name: string, ext: string)
    requires '/' !in name && '/' !in ext && '.' !in ext
    ensures var k := |name| - |ext| - 1;
      SplitExt(name).1 == "." + ext <==> (0 <= k && name[k..] == "." + ext && !AllDots(name[..k]))
  {
    var k := |name| - |ext| - 1;
    if 0 <= k && name[k..] == "." + ext && !AllDots(name[..k]) {
      SplitExtOfStem(name[..k], ext);
      assert name[..k] + "." + ext == name;
    }
    if SplitExt(name).1 == "." + ext {
      var sep := RFind(name, '/');
      var dot := RFind(name, '.');
      assert sep == -1;
      assert name[dot..] == "." + ext;
      assert dot == k;
      assert name[sep + 1..dot] == name[..k];
      AllDotsBetweenSlice(name, sep + 1, dot);
    }
  }

  /** An extension setting that itself contains a dot is never reported by `splitext`. */
  lemma DottedExtensionNeverSplit(p: string, ext: string)
    requires '.' in ext
    ensures SplitExt(p).1 != "." + ext
  {
    SplitExtShape(p);
    var e := "." + ext;
    assert e[1..] == ext;
  }
}
