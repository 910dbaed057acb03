/**
 * The Python `str` built-ins that the core relies on, over `string` (a sequence of
 * code points): `isspace`, `strip`, `startswith`, `endswith`, `split`, `join`,
 * `replace(old, "")`, `rindex` and slicing with a negative end.
 */
module PyStr {
  import opened Wrappers

  /** `c.isspace()`: the code points Python's `str.strip()` removes. */
  predicate IsSpace(c: char) {
    var n := c as int;
    (9 <= n <= 13) || (28 <= n <= 32) || n == 0x85 || n == 0xA0 || n == 0x1680
    || (0x2000 <= n <= 0x200A) || n == 0x2028 || n == 0x2029 || n == 0x202F
    || n == 0x205F || n == 0x3000
  }

  predicate AllSpace(s: string) {
    forall i :: 0 <= i < |s| ==> IsSpace(s[i])
  }

  /** Neither starts nor ends with whitespace: what `strip()` returns. */
  predicate IsStripped(s: string) {
    s == [] || (!IsSpace(s[0]) && !IsSpace(s[|s| - 1]))
  }

  /** `s.lstrip()`: the suffix left after the leading whitespace. */
  function TrimLeft(s: string): (r: string)
    ensures |r| <= |s| && r == s[|s| - |r|..]
    ensures AllSpace(s[..|s| - |r|])
    ensures r == [] || !IsSpace(r[0])
    decreases |s|
  {
    if |s| > 0 && IsSpace(s[0]) then
      var r := TrimLeft(s[1..]);
      assert s[..|s| - |r|] == [s[0]] + s[1..][..|s[1..]| - |r|];
      r
    else s
  }

  /** `s.rstrip()`: the prefix left before the trailing whitespace. */
  function TrimRight(s: string): (r: string)
    ensures |r| <= |s| && r == s[..|r|]
    ensures AllSpace(s[|r|..])
    ensures r == [] || !IsSpace(r[|r| - 1])
    decreases |s|
  {
    if |s| > 0 && IsSpace(s[|s| - 1]) then
      var r := TrimRight(s[..|s| - 1]);
      assert s[|r|..] == s[..|s| - 1][|r|..] + [s[|s| - 1]];
      r
    else s
  }

  /** `s` is `r` with whitespace before index `i` and after index `i + |r|`. */
  predicate PaddedAt(s: string, r: string, i: int) {
    0 <= i <= |s| - |r| && s[i..i + |r|] == r && AllSpace(s[..i]) && AllSpace(s[i + |r|..])
  }

  /** `s.strip()`. */
  function Strip(s: string): (r: string)
    ensures IsStripped(r)
    ensures |r| <= |s|
  {
    TrimRight(TrimLeft(s))
  }

  /** What `strip()` removed is whitespace on either side of its result. */
  lemma StripPads(s: string)
    ensures PaddedAt(s, Strip(s), |s| - |TrimLeft(s)|)
  {
    var l := TrimLeft(s);
    var r := TrimRight(l);
    assert Strip(s) == r;
    PadsOfParts(s, l, r);
  }

  /** A whitespace-led suffix `l` of `s` with a whitespace-trailed prefix `r` places `r` in `s` with padding. */
  lemma PadsOfParts(s: string, l: string, r: string)
    requires |l| <= |s| && l == s[|s| - |l|..] && AllSpace(s[..|s| - |l|])
    requires |r| <= |l| && r == l[..|r|] && AllSpace(l[|r|..])
    ensures PaddedAt(s, r, |s| - |l|)
  {
    var i := |s| - |l|;
    assert s[i..i + |r|] == l[..|r|];
    assert s[i + |r|..] == l[|r|..];
  }

  lemma {:induction false} TrimLeftPadding(w: string, t: string)
    requires AllSpace(w)
    requires t == [] || !IsSpace(t[0])
    ensures TrimLeft(w + t) == t
    decreases |w|
  {
    if w != [] {
      assert (w + t)[1..] == w[1..] + t;
      TrimLeftPadding(w[1..], t);
    } else {
      assert w + t == t;
    }
  }

  lemma {:induction false} TrimRightPadding(t: string, w: string)
    requires AllSpace(w)
    requires t == [] || !IsSpace(t[|t| - 1])
    ensures TrimRight(t + w) == t
    decreases |w|
  {
    if w != [] {
      assert (t + w)[..|t + w| - 1] == t + w[..|w| - 1];
      TrimRightPadding(t, w[..|w| - 1]);
    } else {
      assert t + w == t;
    }
  }

  /** `strip()` recovers the core of any whitespace-padded stripped string. */
  lemma {:induction false} StripPadded(w1: string, t: string, w2: string)
    requires AllSpace(w1) && AllSpace(w2) && IsStripped(t)
    ensures Strip(w1 + t + w2) == t
  {
    if t == [] {
      assert w1 + t + w2 == w1 + w2;
      assert AllSpace(w1 + w2);
      TrimLeftPadding(w1 + w2, []);
      assert w1 + w2 + [] == w1 + w2;
      TrimRightPadding([], []);
    } else {
      assert w1 + t + w2 == w1 + (t + w2);
      TrimLeftPadding(w1, t + w2);
      TrimRightPadding(t, w2);
    }
  }

  /** `strip()` leaves an already stripped string alone. */
  lemma StripStripped(t: string)
    requires IsStripped(t)
    ensures Strip(t) == t
  {
    StripPadded([], t, []);
    assert [] + t + [] == t;
  }

  lemma AllSpaceConcat(a: string, b: string)
    requires AllSpace(a) && AllSpace(b)
    ensures AllSpace(a + b)
  {
    forall k | 0 <= k < |a + b| ensures IsSpace((a + b)[k]) {
      if k < |a| { assert (a + b)[k] == a[k]; } else { assert (a + b)[k] == b[k - |a|]; }
    }
  }

  lemma PadThrough(w1: string, a: string, t: string, b: string, w2: string)
    requires AllSpace(w1) && AllSpace(a) && AllSpace(b) && AllSpace(w2) && IsStripped(t)
    ensures Strip(w1 + (a + t + b) + w2) == t
  {
    AllSpaceConcat(w1, a);
    AllSpaceConcat(b, w2);
    assert w1 + (a + t + b) + w2 == (w1 + a) + t + (b + w2);
    StripPadded(w1 + a, t, b + w2);
  }

  /** A padded string is its left padding, its core and its right padding. */
  lemma PaddedParts(s: string, r: string, i: int)
    requires PaddedAt(s, r, i)
    ensures s == s[..i] + r + s[i + |r|..]
  {
    assert s == s[..i] + s[i..i + |r|] + s[i + |r|..];
  }

  /** Surrounding whitespace never changes what `strip()` returns. */
  lemma StripIgnoresPadding(w1: string, s: string, w2: string)
    requires AllSpace(w1) && AllSpace(w2)
    ensures Strip(w1 + s + w2) == Strip(s)
  {
    var t := Strip(s);
    var i := |s| - |TrimLeft(s)|;
    StripPads(s);
    PaddedParts(s, t, i);
    PadThrough(w1, s[..i], t, s[i + |t|..], w2);
  }

  predicate StartsWith(s: string, prefix: string) {
    |prefix| <= |s| && s[..|prefix|] == prefix
  }

  predicate EndsWith(s: string, suffix: string) {
    |suffix| <= |s| && s[|s| - |suffix|..] == suffix
  }

  /** `sep.join(parts)` for a one-character separator. */
  function Join(parts: seq<string>, sep: char): string
    decreases |parts|
  {
    if |parts| == 0 then []
    else if |parts| == 1 then parts[0]
    else parts[0] + [sep] + Join(parts[1..], sep)
  }

  /** `s.split(sep)` for a one-character separator: every occurrence splits, empty pieces kept. */
  function Split(s: string, sep: char): (parts: seq<string>)
    ensures |parts| >= 1
    ensures forall i :: 0 <= i < |parts| ==> sep !in parts[i]
    ensures Join(parts, sep) == s
    decreases |s|
  {
    if |s| == 0 then [[]]
    else if s[0] == sep then
      var rest := Split(s[1..], sep);
      assert s == [sep] + s[1..];
      [[]] + rest
    else
      var rest := Split(s[1..], sep);
      var parts := [[s[0]] + rest[0]] + rest[1..];
      assert parts[1..] == rest[1..];
      assert s == [s[0]] + s[1..];
      parts
  }

  lemma {:induction false} SplitNoSeparator(x: string, sep: char)
    requires sep !in x
    ensures Split(x, sep) == [x]
    decreases |x|
  {
    if x != [] {
      SplitNoSeparator(x[1..], sep);
      assert x == [x[0]] + x[1..];
    }
  }

  lemma {:induction false} SplitAtSeparator(x: string, sep: char, rest: string)
    requires sep !in x
    ensures Split(x + [sep] + rest, sep) == [x] + Split(rest, sep)
    decreases |x|
  {
    var s := x + [sep] + rest;
    if x == [] {
      assert s[1..] == rest;
    } else {
      assert s[1..] == x[1..] + [sep] + rest;
      SplitAtSeparator(x[1..], sep, rest);
      assert [x[0]] + x[1..] == x;
    }
  }

  /** `sep.join(...)` then `split(sep)` gives the pieces back when none holds the separator. */
  lemma {:induction false} SplitJoin(parts: seq<string>, sep: char)
    requires |parts| >= 1
    requires forall i :: 0 <= i < |parts| ==> sep !in parts[i]
    ensures Split(Join(parts, sep), sep) == parts
    decreases |parts|
  {
    if |parts| == 1 {
      SplitNoSeparator(parts[0], sep);
    } else {
      SplitJoin(parts[1..], sep);
      SplitAtSeparator(parts[0], sep, Join(parts[1..], sep));
      assert [parts[0]] + parts[1..] == parts;
    }
  }

  lemma {:induction false} JoinAppendEmpty(parts: seq<string>, sep: char)
    requires |parts| >= 1
    ensures Join(parts + [[]], sep) == Join(parts, sep) + [sep]
    decreases |parts|
  {
    if |parts| == 1 {
      assert (parts + [[]])[1..] == [[]];
    } else {
      assert (parts + [[]])[1..] == parts[1..] + [[]];
      JoinAppendEmpty(parts[1..], sep);
    }
  }

  /** A trailing separator adds one empty piece at the end of `split`. */
  lemma SplitTrailingSeparator(s: string, sep: char)
    ensures Split(s + [sep], sep) == Split(s, sep) + [[]]
  {
    var parts := Split(s, sep) + [[]];
    JoinAppendEmpty(Split(s, sep), sep);
    assert forall i :: 0 <= i < |parts| ==> sep !in parts[i];
    SplitJoin(parts, sep);
  }

  /** `pat` occurs in `s` starting at index `i`. */
  predicate OccursAt(s: string, pat: string, i: int) {
    0 <= i <= |s| - |pat| && s[i..i + |pat|] == pat
  }

  /** Whether `pat` occurs in `s`: Python's `pat in s`. */
  ghost predicate Contains(s: string, pat: string) {
    exists i :: OccursAt(s, pat, i)
  }

  /** An occurrence in the tail of `s` is an occurrence in `s`. */
  lemma ContainsTail(s: string, pat: string)
    requires |s| > 0 && Contains(s[1..], pat)
    ensures Contains(s, pat)
  {
    var i :| OccursAt(s[1..], pat, i);
    assert s[i + 1..i + 1 + |pat|] == s[1..][i..i + |pat|];
    assert OccursAt(s, pat, i + 1);
  }

  /**
   * `s.replace(pat, "")`: scanning left to right, every non-overlapping occurrence
   * of `pat` is removed; an empty `pat` leaves `s` unchanged.
   */
  function RemoveAll(s: string, pat: string): (r: string)
    ensures |r| <= |s|
    decreases |s|
  {
    if |pat| == 0 then s
    else if |s| < |pat| then s
    else if s[..|pat|] == pat then RemoveAll(s[|pat|..], pat)
    else [s[0]] + RemoveAll(s[1..], pat)
  }

  /** Removing a pattern that does not occur changes nothing. */
  lemma {:induction false} RemoveAllAbsent(s: string, pat: string)
    requires !Contains(s, pat)
    ensures RemoveAll(s, pat) == s
    decreases |s|
  {
    if |pat| > 0 && |s| >= |pat| {
      assert !OccursAt(s, pat, 0);
      assert !Contains(s[1..], pat) by {
        if Contains(s[1..], pat) { ContainsTail(s, pat); }
      }
      RemoveAllAbsent(s[1..], pat);
      assert [s[0]] + s[1..] == s;
    }
  }

  /**
   * A removal pattern that follows a string it does not occur in goes away whole,
   * provided no occurrence can straddle the boundary: either the string ends in a
   * character the pattern lacks, or the pattern's first character appears in it only once.
   */
  lemma {:induction false} RemoveAllTrailing(x: string, pat: string)
    requires !Contains(x, pat)
    requires x == [] || x[|x| - 1] !in pat || (|pat| > 0 && pat[0] !in pat[1..])
    ensures RemoveAll(x + pat, pat) == x
    decreases |x|
  {
    // `!Contains(x, pat)` already rules out an empty `pat`, which occurs everywhere.
    assert OccursAt(x, [], 0);
    var s := x + pat;
    if x == [] {
      assert s == pat && s[..|pat|] == pat && s[|pat|..] == [];
    } else {
      // no occurrence starts at 0: it would lie inside `x` or straddle the boundary
      if |pat| <= |x| {
        assert s[..|pat|] == x[..|pat|];
        assert !OccursAt(x, pat, 0);
      } else if x[|x| - 1] !in pat {
        assert s[..|pat|][|x| - 1] == x[|x| - 1];
        assert pat[|x| - 1] in pat;
      } else {
        assert s[..|pat|][|x|] == pat[0];
        assert pat[|x|] == pat[1..][|x| - 1];
      }
      assert s[..|pat|] != pat;
      assert s[1..] == x[1..] + pat;
      assert !Contains(x[1..], pat) by {
        if Contains(x[1..], pat) { ContainsTail(x, pat); }
      }
      RemoveAllTrailing(x[1..], pat);
      assert [x[0]] + x[1..] == x;
    }
  }

  /** Removing a pattern that `s` starts with drops that occurrence and carries on after it. */
  lemma RemoveAllLeading(pat: string, rest: string)
    requires |pat| > 0
    ensures RemoveAll(pat + rest, pat) == RemoveAll(rest, pat)
  {
    assert (pat + rest)[..|pat|] == pat && (pat + rest)[|pat|..] == rest;
  }

  /** A prefix without the first character of `pat` is kept whole, and removal carries on after it. */
  lemma {:induction false} RemoveAllPast(x: string, rest: string, pat: string)
    requires |pat| > 0 && pat[0] !in x
    ensures RemoveAll(x + rest, pat) == x + RemoveAll(rest, pat)
    decreases |x|
  {
    if x == [] {
      assert x + rest == rest;
    } else {
      RemoveAllKeepsHead(x + rest, pat);
      assert (x + rest)[1..] == x[1..] + rest;
      assert pat[0] !in x[1..] by {
        assert forall k :: 0 <= k < |x[1..]| ==> x[1..][k] == x[k + 1];
      }
      RemoveAllPast(x[1..], rest, pat);
      assert [x[0]] + (x[1..] + RemoveAll(rest, pat)) == x + RemoveAll(rest, pat);
    }
  }

  /** A string whose first character does not start `pat` keeps that character. */
  lemma RemoveAllKeepsHead(s: string, pat: string)
    requires |pat| > 0 && |s| > 0 && s[0] != pat[0]
    ensures RemoveAll(s, pat) == [s[0]] + RemoveAll(s[1..], pat)
  {
    if |s| < |pat| {
      assert RemoveAll(s[1..], pat) == s[1..];
      assert [s[0]] + s[1..] == s;
    } else {
      assert s[..|pat|][0] != pat[0];
    }
  }

  /** Removing `pat` from `a + pat + b + pat`, where neither piece holds its first character, leaves `a + b`. */
  lemma RemoveAllTwice(a: string, b: string, pat: string)
    requires |pat| > 0 && pat[0] !in a && pat[0] !in b
    ensures RemoveAll(a + pat + b + pat, pat) == a + b
  {
    assert RemoveAll(pat, pat) == [] by {
      assert pat == pat + [];
      RemoveAllLeading(pat, []);
    }
    assert RemoveAll(b + pat, pat) == b by {
      RemoveAllPast(b, pat, pat);
    }
    assert RemoveAll(pat + b + pat, pat) == b by {
      assert pat + b + pat == pat + (b + pat);
      RemoveAllLeading(pat, b + pat);
    }
    assert a + pat + b + pat == a + (pat + b + pat);
    RemoveAllPast(a, pat + b + pat, pat);
  }

  /** A string that lacks some character of `pat` cannot contain `pat`. */
  lemma MissingCharacter(s: string, pat: string, k: nat)
    requires k < |pat| && pat[k] !in s
    ensures !Contains(s, pat)
  {
    forall i | 0 <= i <= |s| - |pat| ensures !OccursAt(s, pat, i) {
      assert s[i..i + |pat|][k] == s[i + k];
      assert s[i + k] in s;
    }
  }

  /** `s.rindex(c)` (None where Python raises ValueError) and `s.rfind(c)`. */
  function LastIndexOf(s: string, c: char): (r: Option<nat>)
    ensures r.None? <==> c !in s
    ensures r.Some? ==> r.value < |s| && s[r.value] == c && c !in s[r.value + 1..]
    decreases |s|
  {
    if |s| == 0 then None
    else if s[|s| - 1] == c then Some(|s| - 1)
    else
      var r := LastIndexOf(s[..|s| - 1], c);
      assert s == s[..|s| - 1] + [s[|s| - 1]];
      r
  }

  /** The last `c` is the one after which no `c` follows. */
  lemma {:induction false} LastIndexOfSeparator(x: string, c: char, y: string)
    requires c !in y
    ensures LastIndexOf(x + [c] + y, c) == Some(|x|)
    decreases |y|
  {
    var s := x + [c] + y;
    if y == [] {
      assert s[|s| - 1] == c;
    } else {
      assert s[|s| - 1] == y[|y| - 1];
      assert y[|y| - 1] in y;
      assert s[..|s| - 1] == x + [c] + y[..|y| - 1];
      LastIndexOfSeparator(x, c, y[..|y| - 1]);
    }
  }

  /** `s[:-n]` for a positive `n`: everything but the last `n` characters, or "" when shorter. */
  function DropLast(s: string, n: nat): (r: string)
    ensures |s| >= n ==> |r| == |s| - n && s == r + s[|r|..]
    ensures |s| < n ==> r == []
  {
    if |s| >= n then s[..|s| - n] else []
  }

  /** `s[lo:-n]` for non-negative `lo` and positive `n`, with Python's clamping. */
  function SliceToEnd(s: string, lo: nat, n: nat): (r: string)
    ensures lo + n <= |s| ==> r == s[lo..|s| - n]
    ensures lo + n > |s| ==> r == []
  {
    var hi := if |s| >= n then |s| - n else 0;
    if lo >= hi then [] else s[lo..hi]
  }
}
