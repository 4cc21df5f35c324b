/**
 * The Python `str` operations the tile-store code relies on: `split` with a
 * one-character separator and `replace`, together with the facts about them
 * that the model uses.
 */
module PyStrings {

  /** Number of occurrences of `c` in `s`. */
  function Count(s: string, c: char): nat
  {
    if |s| == 0 then 0 else (if s[0] == c then 1 else 0) + Count(s[1..], c)
  }

  /** Python's `sep.join(parts)`. */
  function JoinWith(parts: seq<string>, sep: char): string
  {
    if |parts| == 0 then ""
    else if |parts| == 1 then parts[0]
    else parts[0] + [sep] + JoinWith(parts[1..], sep)
  }

  /**
   * Python's `s.split(sep)` for a one-character separator: one more part than
   * there are separators (so `"".split(",") == [""]`), no part holds the
   * separator, and joining the parts back gives `s`.
   */
  function Split(s: string, sep: char): (parts: seq<string>)
    ensures |parts| == Count(s, sep) + 1
    ensures forall i :: 0 <= i < |parts| ==> sep !in parts[i]
    ensures JoinWith(parts, sep) == s
  {
    if |s| == 0 then [""]
    else
      var rest := Split(s[1..], sep);
      if s[0] == sep then
        [""] + rest
      else
        assert [s[0]] + rest[0] + JoinWith(rest, sep)[|rest[0]|..] == s by {
          JoinWithHead(rest, sep);
        }
        [[s[0]] + rest[0]] + rest[1..]
  }

  /** `JoinWith(parts)` starts with the first part, and what follows is the rest joined. */
  lemma JoinWithHead(parts: seq<string>, sep: char)
    requires |parts| >= 1
    ensures |JoinWith(parts, sep)| >= |parts[0]|
    ensures JoinWith(parts, sep) == parts[0] + JoinWith(parts, sep)[|parts[0]|..]
    ensures |parts| >= 2 ==> JoinWith(parts, sep)[|parts[0]|..] == [sep] + JoinWith(parts[1..], sep)
    ensures |parts| == 1 ==> JoinWith(parts, sep)[|parts[0]|..] == ""
  {
  }

  /** A string without the separator splits into itself alone. */
  lemma {:induction false} SplitWithoutSeparator(s: string, sep: char)
    requires sep !in s
    ensures Split(s, sep) == [s]
  {
    if |s| > 0 {
      SplitWithoutSeparator(s[1..], sep);
      assert [s[0]] + s[1..] == s;
    }
  }

  /** Splitting `a + sep + b`, where `a` has no separator, gives `a` and then the parts of `b`. */
  lemma {:induction false} SplitAfterPart(a: string, b: string, sep: char)
    requires sep !in a
    ensures Split(a + [sep] + b, sep) == [a] + Split(b, sep)
  {
    if |a| == 0 {
      assert a + [sep] + b == [sep] + b;
      assert ([sep] + b)[1..] == b;
    } else {
      var s := a + [sep] + b;
      assert s[1..] == a[1..] + [sep] + b;
      SplitAfterPart(a[1..], b, sep);
      assert [a[0]] + a[1..] == a;
    }
  }

  /** Split is the inverse of JoinWith on parts that hold no separator. */
  lemma {:induction false} SplitJoinWith(parts: seq<string>, sep: char)
    requires |parts| >= 1
    requires forall i :: 0 <= i < |parts| ==> sep !in parts[i]
    ensures Split(JoinWith(parts, sep), sep) == parts
  {
    if |parts| == 1 {
      SplitWithoutSeparator(parts[0], sep);
    } else {
      SplitJoinWith(parts[1..], sep);
      SplitAfterPart(parts[0], JoinWith(parts[1..], sep), sep);
      assert [parts[0]] + parts[1..] == parts;
    }
  }

  /**
   * Python's `s.replace(pat, rep)`: scanning left to right, every occurrence
   * of `pat` that does not overlap an earlier replaced one becomes `rep`.
   */
  function ReplaceAll(s: string, pat: string, rep: string): string
    requires |pat| > 0
    decreases |s|
  {
    if |s| < |pat| then s
    else if s[..|pat|] == pat then rep + ReplaceAll(s[|pat|..], pat, rep)
    else [s[0]] + ReplaceAll(s[1..], pat, rep)
  }

  /** Every character of `s.replace(pat, rep)` comes from `s` or from `rep`. */
  lemma {:induction false} ReplaceDrawsFrom(s: string, pat: string, rep: string)
    requires |pat| > 0
    ensures forall i :: 0 <= i < |ReplaceAll(s, pat, rep)| ==>
      ReplaceAll(s, pat, rep)[i] in s || ReplaceAll(s, pat, rep)[i] in rep
    decreases |s|
  {
    var r := ReplaceAll(s, pat, rep);
    if |s| < |pat| {
    } else if s[..|pat|] == pat {
      var tail := s[|pat|..];
      var rest := ReplaceAll(tail, pat, rep);
      ReplaceDrawsFrom(tail, pat, rep);
      forall i | 0 <= i < |r| ensures r[i] in s || r[i] in rep {
        if i < |rep| {
          assert r[i] == rep[i];
        } else {
          assert r[i] == rest[i - |rep|];
          if rest[i - |rep|] in tail {
            var j :| 0 <= j < |tail| && tail[j] == rest[i - |rep|];
            assert s[|pat| + j] == r[i];
          }
        }
      }
    } else {
      var tail := s[1..];
      var rest := ReplaceAll(tail, pat, rep);
      ReplaceDrawsFrom(tail, pat, rep);
      forall i | 0 <= i < |r| ensures r[i] in s || r[i] in rep {
        if i == 0 {
          assert r[0] == s[0];
        } else {
          assert r[i] == rest[i - 1];
          if rest[i - 1] in tail {
            var j :| 0 <= j < |tail| && tail[j] == rest[i - 1];
            assert s[1 + j] == r[i];
          }
        }
      }
    }
  }

  /** `q` occurs in `t` starting at index `i`. */
  predicate OccursAt(t: string, q: string, i: int)
  {
    0 <= i && i + |q| <= |t| && t[i..i + |q|] == q
  }

  /** `q` occurs nowhere in `t`. */
  ghost predicate Absent(t: string, q: string)
  {
    forall i :: !OccursAt(t, q, i)
  }

  /**
   * While no character of `rep` has been produced, `ReplaceAll` copies its
   * input unchanged: a prefix of the result free of `rep`'s characters is a
   * prefix of the input.
   */
  lemma {:induction false} ReplacePrefixCopied(u: string, pat: string, rep: string, k: nat)
    requires |pat| > 0 && |rep| > 0
    requires k <= |ReplaceAll(u, pat, rep)|
    requires forall j :: 0 <= j < k ==> ReplaceAll(u, pat, rep)[j] !in rep
    ensures k <= |u| && forall j :: 0 <= j < k ==> ReplaceAll(u, pat, rep)[j] == u[j]
  {
    var r := ReplaceAll(u, pat, rep);
    if |u| < |pat| {
    } else if u[..|pat|] == pat {
      assert r[0] in rep;
    } else if k > 0 {
      var tail := u[1..];
      var rt := ReplaceAll(tail, pat, rep);
      assert r == [u[0]] + rt;
      forall j | 0 <= j < k - 1 ensures rt[j] !in rep {
        assert rt[j] == r[j + 1];
      }
      ReplacePrefixCopied(tail, pat, rep, k - 1);
      forall j | 0 <= j < k ensures r[j] == u[j] {
        if 0 < j {
          assert r[j] == rt[j - 1] && u[j] == tail[j - 1];
        }
      }
    }
  }

  /** Whatever is absent from `s` is absent from each of its suffixes. */
  lemma AbsentFromSuffix(s: string, q: string, d: nat)
    requires d <= |s| && Absent(s, q)
    ensures Absent(s[d..], q)
  {
    forall i ensures !OccursAt(s[d..], q, i) {
      if 0 <= i && i + |q| <= |s| - d {
        assert s[d..][i..i + |q|] == s[i + d..i + d + |q|];
        assert !OccursAt(s, q, i + d);
      }
    }
  }

  /** Putting `rep` in front adds no `q` when `rep` shares no character with `q`. */
  lemma AbsentAfterPrefix(rep: string, rr: string, q: string)
    requires |q| > 0 && Absent(rr, q)
    requires forall j :: 0 <= j < |rep| ==> rep[j] !in q
    ensures Absent(rep + rr, q)
  {
    var r := rep + rr;
    forall i ensures !OccursAt(r, q, i) {
      if 0 <= i < |rep| && i + |q| <= |r| {
        assert q[0] in q;
        assert r[i..i + |q|][0] == rep[i] != q[0];
      } else if |rep| <= i && i + |q| <= |r| {
        assert r[i..i + |q|] == rr[i - |rep|..i - |rep| + |q|];
        assert !OccursAt(rr, q, i - |rep|);
      }
    }
  }

  /**
   * If `q` starts the result of a step that copied `s[0]`, then `q` already
   * started `s`: the rest of that occurrence was copied from `s[1..]`.
   */
  lemma OccurrenceAtFrontCopied(s: string, pat: string, rep: string, q: string)
    requires |pat| > 0 && |rep| > 0 && |q| > 0 && |s| > 0
    requires forall j :: 0 <= j < |rep| ==> rep[j] !in q
    requires OccursAt([s[0]] + ReplaceAll(s[1..], pat, rep), q, 0)
    ensures OccursAt(s, q, 0)
  {
    var rt := ReplaceAll(s[1..], pat, rep);
    FrontFreeOfRep(s[0], rt, rep, q);
    ReplacePrefixCopied(s[1..], pat, rep, |q| - 1);
    FrontCopied(s, rt, q);
  }

  /** After the first character of an occurrence of `q`, no character of `rep` appears. */
  lemma FrontFreeOfRep(c: char, rt: string, rep: string, q: string)
    requires |q| > 0 && OccursAt([c] + rt, q, 0)
    requires forall j :: 0 <= j < |rep| ==> rep[j] !in q
    ensures |q| - 1 <= |rt| && forall j :: 0 <= j < |q| - 1 ==> rt[j] !in rep
  {
    var r := [c] + rt;
    forall j | 0 <= j < |q| - 1 ensures rt[j] !in rep {
      assert rt[j] == r[..|q|][j + 1];
      OutsideDisjoint(rep, q, j + 1);
    }
  }

  /** An occurrence of `q` at the front of `[s[0]] + rt` is one of `s` when `rt` agrees with `s[1..]` that far. */
  lemma FrontCopied(s: string, rt: string, q: string)
    requires |s| > 0 && |q| > 0 && OccursAt([s[0]] + rt, q, 0)
    requires |q| - 1 <= |s| - 1 && forall j :: 0 <= j < |q| - 1 ==> rt[j] == s[1..][j]
    ensures OccursAt(s, q, 0)
  {
    var r := [s[0]] + rt;
    forall j | 0 <= j < |q| ensures s[j] == q[j] {
      if 0 < j {
        assert s[j] == s[1..][j - 1] == rt[j - 1] == r[..|q|][j];
      } else {
        assert r[..|q|][0] == s[0];
      }
    }
    assert s[..|q|] == q;
  }

  /** A character of `q` is not in `rep` when no character of `rep` is in `q`. */
  lemma OutsideDisjoint(rep: string, q: string, k: int)
    requires 0 <= k < |q|
    requires forall j :: 0 <= j < |rep| ==> rep[j] !in q
    ensures q[k] !in rep
  {
  }

  /**
   * After `s.replace(pat, rep)` no `q` remains, when `q` is `pat` itself or was
   * absent before, and `rep` shares no character with `q`.
   */
  lemma {:induction false} ReplaceLeavesNoOccurrence(s: string, pat: string, rep: string, q: string)
    requires |pat| > 0 && |rep| > 0 && |q| > 0
    requires forall j :: 0 <= j < |rep| ==> rep[j] !in q
    requires q == pat || Absent(s, q)
    ensures Absent(ReplaceAll(s, pat, rep), q)
    decreases |s|
  {
    var r := ReplaceAll(s, pat, rep);
    if |s| < |pat| {
      if q == pat {
        forall i ensures !OccursAt(r, q, i) { }
      }
    } else if s[..|pat|] == pat {
      var rest := s[|pat|..];
      if q != pat {
        AbsentFromSuffix(s, q, |pat|);
      }
      ReplaceLeavesNoOccurrence(rest, pat, rep, q);
      AbsentAfterPrefix(rep, ReplaceAll(rest, pat, rep), q);
    } else {
      var tail := s[1..];
      if q != pat {
        AbsentFromSuffix(s, q, 1);
      }
      ReplaceLeavesNoOccurrence(tail, pat, rep, q);
      var rt := ReplaceAll(tail, pat, rep);
      assert r == [s[0]] + rt;
      forall i ensures !OccursAt(r, q, i) {
        if i == 0 && OccursAt(r, q, 0) {
          OccurrenceAtFrontCopied(s, pat, rep, q);
        } else if 1 <= i && i + |q| <= |r| {
          assert r[i..i + |q|] == rt[i - 1..i - 1 + |q|];
          assert !OccursAt(rt, q, i - 1);
        }
      }
    }
  }

  /** Replaces every `c` in `t` by `code`: the reverse direction of `ReplaceAll(_, code, [c])`. */
  function Expand(t: string, c: char, code: string): string
  {
    if |t| == 0 then "" else (if t[0] == c then code else [t[0]]) + Expand(t[1..], c, code)
  }

  lemma {:induction false} ExpandAppend(a: string, b: string, c: char, code: string)
    ensures Expand(a + b, c, code) == Expand(a, c, code) + Expand(b, c, code)
  {
    if |a| > 0 {
      assert (a + b)[1..] == a[1..] + b;
      ExpandAppend(a[1..], b, c, code);
    } else {
      assert a + b == b;
    }
  }

  lemma {:induction false} ExpandWithout(t: string, c: char, code: string)
    requires c !in t
    ensures Expand(t, c, code) == t
  {
    if |t| > 0 {
      ExpandWithout(t[1..], c, code);
      assert [t[0]] + t[1..] == t;
    }
  }

  /**
   * Replacing `code` by the single character `c` loses nothing when `c` did
   * not occur before: expanding every `c` back into `code` restores the input.
   */
  lemma {:induction false} ExpandUndoesReplace(s: string, c: char, code: string)
    requires |code| > 0 && c !in s
    ensures Expand(ReplaceAll(s, code, [c]), c, code) == s
    decreases |s|
  {
    if |s| < |code| {
      ExpandWithout(s, c, code);
    } else if s[..|code|] == code {
      var rest := s[|code|..];
      ExpandUndoesReplace(rest, c, code);
      ExpandAppend([c], ReplaceAll(rest, code, [c]), c, code);
      assert Expand([c], c, code) == code + Expand([], c, code);
      assert s == code + rest;
    } else {
      var rest := s[1..];
      ExpandUndoesReplace(rest, c, code);
      ExpandAppend([s[0]], ReplaceAll(rest, code, [c]), c, code);
      assert Expand([s[0]], c, code) == [s[0]] + Expand([], c, code);
      assert s == [s[0]] + rest;
    }
  }
}
