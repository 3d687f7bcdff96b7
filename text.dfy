/**
 * The string operations the management CLI and the CSV export are built from:
 * Python's `str.split(sep)` with a one-character separator and its inverse
 * `sep.join(...)` (JavaScript's `Array.prototype.join`), `in` on strings,
 * `startswith`, `str.replace` and `str.strip()`.
 */
module Text {

  /** `s.split(sep)`: the pieces between separators; always at least one piece. */
  function Split(s: string, sep: char): (parts: seq<string>)
    ensures |parts| >= 1
    decreases |s|
  {
    if |s| == 0 then [""]
    else if s[0] == sep then [""] + Split(s[1..], sep)
    else
      var rest := Split(s[1..], sep);
      [[s[0]] + rest[0]] + rest[1..]
  }

  /** `sep.join(parts)`. */
  function Join(parts: seq<string>, sep: char): string {
    if |parts| == 0 then ""
    else if |parts| == 1 then parts[0]
    else parts[0] + [sep] + Join(parts[1..], sep)
  }

  predicate NoChar(s: string, c: char) {
    forall i :: 0 <= i < |s| ==> s[i] != c
  }

  predicate NoneHasChar(parts: seq<string>, c: char) {
    forall i :: 0 <= i < |parts| ==> NoChar(parts[i], c)
  }

  lemma NoneHasCharCons(p: string, parts: seq<string>, c: char)
    requires NoChar(p, c) && NoneHasChar(parts, c)
    ensures NoneHasChar([p] + parts, c)
  {
    var all := [p] + parts;
    forall n | 0 <= n < |all| ensures NoChar(all[n], c) {
      if n > 0 {
        assert all[n] == parts[n - 1];
      }
    }
  }

  /** Prefixing a character to the first piece prefixes it to the joined string. */
  lemma JoinPiece(c: char, rest: seq<string>, sep: char)
    requires |rest| >= 1
    ensures Join([[c] + rest[0]] + rest[1..], sep) == [c] + Join(rest, sep)
  {
    var parts := [[c] + rest[0]] + rest[1..];
    if |rest| > 1 {
      assert parts[1..] == rest[1..];
      assert Join(parts, sep) == [c] + rest[0] + [sep] + Join(rest[1..], sep);
    }
  }

  /** Splitting then joining gives back the string. */
  lemma {:induction false} JoinSplit(s: string, sep: char)
    ensures Join(Split(s, sep), sep) == s
    decreases |s|
  {
    if |s| > 0 {
      JoinSplit(s[1..], sep);
      if s[0] == sep {
        assert s == [sep] + s[1..];
      } else {
        JoinPiece(s[0], Split(s[1..], sep), sep);
        assert s == [s[0]] + s[1..];
      }
    }
  }

  /** No piece of a split contains the separator. */
  lemma {:induction false} SplitHasNoSeparator(s: string, sep: char)
    ensures NoneHasChar(Split(s, sep), sep)
    decreases |s|
  {
    if |s| > 0 {
      SplitHasNoSeparator(s[1..], sep);
    }
  }

  /** A piece free of the separator, then the separator, splits off as one piece. */
  lemma {:induction false} SplitCons(p: string, sep: char, rest: string)
    requires NoChar(p, sep)
    ensures Split(p + [sep] + rest, sep) == [p] + Split(rest, sep)
    decreases |p|
  {
    if |p| == 0 {
      assert p + [sep] + rest == [sep] + rest;
    } else {
      var s := p + [sep] + rest;
      SplitCons(p[1..], sep, rest);
      assert s[0] == p[0] && s[0] != sep;
      assert s[1..] == p[1..] + [sep] + rest;
      assert p == [p[0]] + p[1..];
    }
  }

  /** A string free of the separator splits into itself. */
  lemma {:induction false} SplitNoSeparator(p: string, sep: char)
    requires NoChar(p, sep)
    ensures Split(p, sep) == [p]
    decreases |p|
  {
    if |p| > 0 {
      SplitNoSeparator(p[1..], sep);
      assert p == [p[0]] + p[1..];
    }
  }

  /** Joining pieces free of the separator, then splitting, gives back the pieces. */
  lemma {:induction false} SplitJoin(parts: seq<string>, sep: char)
    requires |parts| >= 1
    requires NoneHasChar(parts, sep)
    ensures Split(Join(parts, sep), sep) == parts
  {
    if |parts| == 1 {
      SplitNoSeparator(parts[0], sep);
    } else {
      SplitJoin(parts[1..], sep);
      SplitCons(parts[0], sep, Join(parts[1..], sep));
      assert parts == [parts[0]] + parts[1..];
    }
  }

  lemma {:induction false} JoinAppend(parts: seq<string>, last: string, sep: char)
    requires |parts| >= 1
    ensures Join(parts + [last], sep) == Join(parts, sep) + [sep] + last
  {
    if |parts| == 1 {
      assert (parts + [last])[1..] == [last];
    } else {
      assert (parts + [last])[1..] == parts[1..] + [last];
      JoinAppend(parts[1..], last, sep);
    }
  }

  /**
   * The keys of a list of key/value entries, in order: `Object.keys` of a
   * record, the keys of a Python dictionary.
   */
  function Keys<V>(entries: seq<(string, V)>): (ks: seq<string>)
    ensures |ks| == |entries|
    ensures forall i :: 0 <= i < |entries| ==> ks[i] == entries[i].0
  {
    if |entries| == 0 then [] else [entries[0].0] + Keys(entries[1..])
  }

  /** The prefix one longer is the prefix followed by the next element. */
  lemma PrefixSnoc<T>(s: seq<T>, i: int)
    requires 0 <= i < |s|
    ensures s[..i + 1] == s[..i] + [s[i]]
  {
  }

  /** Cutting a sequence at `p` and putting the halves back together gives it back. */
  lemma CutAndRejoin<T>(s: seq<T>, p: int)
    requires 0 <= p <= |s|
    ensures s[..p] + s[p..] == s
  {
  }

  lemma KeysCons<V>(e: (string, V), rest: seq<(string, V)>)
    ensures Keys([e] + rest) == [e.0] + Keys(rest)
  {
    assert ([e] + rest)[1..] == rest;
  }

  predicate StartsWith(s: string, prefix: string) {
    |prefix| <= |s| && s[..|prefix|] == prefix
  }

  /** `pat` occurs in `s` starting at index `i`. */
  predicate MatchAt(s: string, pat: string, i: int) {
    0 <= i && i + |pat| <= |s| && s[i..i + |pat|] == pat
  }

  /** Python's `pat in s`. */
  predicate Contains(s: string, pat: string) {
    exists i | 0 <= i <= |s| :: MatchAt(s, pat, i)
  }

  /**
   * `s.replace(pat, rep)`: every occurrence found scanning from the left,
   * without overlaps, is replaced.
   */
  function ReplaceAll(s: string, pat: string, rep: string): string
    requires |pat| > 0
    decreases |s|
  {
    if |s| < |pat| then s
    else if s[..|pat|] == pat then rep + ReplaceAll(s[|pat|..], pat, rep)
    else [s[0]] + ReplaceAll(s[1..], pat, rep)
  }

  /** Replacing a pattern that does not occur changes nothing. */
  lemma {:induction false} ReplaceAbsent(s: string, pat: string, rep: string)
    requires |pat| > 0
    requires !Contains(s, pat)
    ensures ReplaceAll(s, pat, rep) == s
    decreases |s|
  {
    if |s| >= |pat| {
      assert !MatchAt(s, pat, 0);
      assert !Contains(s[1..], pat) by {
        forall i | MatchAt(s[1..], pat, i) ensures MatchAt(s, pat, i + 1) {
          assert s[i + 1..i + 1 + |pat|] == s[1..][i..i + |pat|];
        }
      }
      ReplaceAbsent(s[1..], pat, rep);
      assert s == [s[0]] + s[1..];
    }
  }

  /** No occurrence of `pat` in `s` starts before index `n`. */
  predicate NoMatchBefore(s: string, pat: string, n: int) {
    forall i :: 0 <= i < n ==> !MatchAt(s, pat, i)
  }

  lemma NoMatchBeforeTail(s: string, pat: string, n: int)
    requires |s| > 0 && n >= 1
    requires NoMatchBefore(s, pat, n)
    ensures NoMatchBefore(s[1..], pat, n - 1)
  {
    forall i | 0 <= i < n - 1 ensures !MatchAt(s[1..], pat, i) {
      assert !MatchAt(s, pat, i + 1);
      if i + |pat| <= |s[1..]| {
        assert s[1..][i..i + |pat|] == s[i + 1..i + 1 + |pat|];
      }
    }
  }

  /** An occurrence at the start is replaced and the scan resumes after it. */
  lemma ReplaceAtStart(pat: string, b: string, rep: string)
    requires |pat| > 0
    ensures ReplaceAll(pat + b, pat, rep) == rep + ReplaceAll(b, pat, rep)
  {
    var s := pat + b;
    assert s[..|pat|] == pat;
    assert s[|pat|..] == b;
  }

  /** Without an occurrence at the start, the first character is kept. */
  lemma ReplaceSkipsFirst(s: string, pat: string, rep: string)
    requires |pat| > 0 && |s| > 0
    requires !MatchAt(s, pat, 0)
    ensures ReplaceAll(s, pat, rep) == [s[0]] + ReplaceAll(s[1..], pat, rep)
  {
  }

  /**
   * The leftmost occurrence is replaced and the scan resumes after it: when `pat`
   * first occurs in `a + pat + b` right after `a`.
   */
  lemma {:induction false} ReplaceLeftmost(a: string, pat: string, b: string, rep: string)
    requires |pat| > 0
    requires NoMatchBefore(a + pat + b, pat, |a|)
    ensures ReplaceAll(a + pat + b, pat, rep) == a + rep + ReplaceAll(b, pat, rep)
    decreases |a|
  {
    if |a| == 0 {
      assert a + pat + b == pat + b;
      ReplaceAtStart(pat, b, rep);
    } else {
      var s := a + pat + b;
      assert s[1..] == a[1..] + pat + b;
      NoMatchBeforeTail(s, pat, |a|);
      ReplaceSkipsFirst(s, pat, rep);
      ReplaceLeftmost(a[1..], pat, b, rep);
      assert a == [a[0]] + a[1..];
    }
  }

  /** The whitespace `str.strip()` removes (its ASCII part: tab to carriage return, the four separators, space). */
  predicate IsSpace(c: char) {
    ('\t' <= c <= '\r') || ('\U{1C}' <= c <= '\U{1F}') || c == ' '
  }

  function StripLeft(s: string): (r: string)
    ensures |r| <= |s|
    ensures |r| > 0 ==> !IsSpace(r[0])
    ensures r == s[|s| - |r|..]
  {
    if |s| > 0 && IsSpace(s[0]) then StripLeft(s[1..]) else s
  }

  function StripRight(s: string): (r: string)
    ensures |r| <= |s|
    ensures |r| > 0 ==> !IsSpace(r[|r| - 1])
    ensures r == s[..|r|]
  {
    if |s| > 0 && IsSpace(s[|s| - 1]) then StripRight(s[..|s| - 1]) else s
  }

  /** `s.strip()`: a slice of `s` that neither starts nor ends with whitespace. */
  function Strip(s: string): (r: string)
    ensures |r| <= |s|
    ensures |r| > 0 ==> !IsSpace(r[0]) && !IsSpace(r[|r| - 1])
  {
    StripRight(StripLeft(s))
  }

  /** A string that neither starts nor ends with whitespace is its own strip. */
  lemma StripClean(s: string)
    requires |s| == 0 || (!IsSpace(s[0]) && !IsSpace(s[|s| - 1]))
    ensures Strip(s) == s
  {
  }

  /** Joining two non-empty lists puts one separator between their joins. */
  lemma {:induction false} JoinConcat(xs: seq<string>, ys: seq<string>, sep: char)
    requires |xs| >= 1 && |ys| >= 1
    ensures Join(xs + ys, sep) == Join(xs, sep) + [sep] + Join(ys, sep)
    decreases |xs|
  {
    if |xs| == 1 {
      assert (xs + ys)[1..] == ys;
    } else {
      assert (xs + ys)[1..] == xs[1..] + ys;
      JoinConcat(xs[1..], ys, sep);
    }
  }

  /** An occurrence stays an occurrence when text is added on either side. */
  lemma ContainsExtend(a: string, pat: string, b: string, c: string)
    requires Contains(b, pat)
    ensures Contains(a + b + c, pat)
  {
    var i :| 0 <= i <= |b| && MatchAt(b, pat, i);
    assert (a + b + c)[|a| + i..|a| + i + |pat|] == b[i..i + |pat|];
    assert MatchAt(a + b + c, pat, |a| + i);
  }

  /** An occurrence in `a` is one in `a + b`. */
  lemma ContainsBefore(a: string, b: string, pat: string)
    requires Contains(a, pat)
    ensures Contains(a + b, pat)
  {
    var i :| 0 <= i <= |a| && MatchAt(a, pat, i);
    assert (a + b)[i..i + |pat|] == a[i..i + |pat|];
    assert MatchAt(a + b, pat, i);
  }

  /** An occurrence in `b` is one in `a + b`. */
  lemma ContainsAfter(a: string, b: string, pat: string)
    requires Contains(b, pat)
    ensures Contains(a + b, pat)
  {
    var i :| 0 <= i <= |b| && MatchAt(b, pat, i);
    assert (a + b)[|a| + i..|a| + i + |pat|] == b[i..i + |pat|];
    assert MatchAt(a + b, pat, |a| + i);
  }

  /** A substring of a string free of `pat` is free of it too. */
  lemma NotContainsPart(a: string, b: string, c: string, pat: string)
    requires !Contains(a + b + c, pat)
    ensures !Contains(b, pat)
  {
    if Contains(b, pat) {
      ContainsExtend(a, pat, b, c);
    }
  }

  /** A string free of `pat` is free of every extension of `pat`. */
  lemma NotContainsLonger(s: string, pat: string, more: string)
    requires !Contains(s, pat)
    ensures !Contains(s, pat + more)
  {
    if Contains(s, pat + more) {
      var i :| 0 <= i <= |s| && MatchAt(s, pat + more, i);
      assert s[i..i + |pat|] == (pat + more)[..|pat|];
      assert MatchAt(s, pat, i);
    }
  }

  /** `s.replace(c, d)` for one-character `c` and `d` leaves no `c` behind. */
  lemma {:induction false} ReplaceRemovesChar(s: string, c: char, d: char)
    requires c != d
    ensures NoChar(ReplaceAll(s, [c], [d]), c)
    decreases |s|
  {
    if |s| >= 1 {
      ReplaceRemovesChar(s[1..], c, d);
      assert s[1..] == s[|[c]|..];
    }
  }

  /** The number of occurrences of `c` in `s`. */
  function CountChar(s: string, c: char): nat {
    if |s| == 0 then 0 else CountChar(s[..|s| - 1], c) + (if s[|s| - 1] == c then 1 else 0)
  }

  lemma {:induction false} CountCharAppend(a: string, b: string, c: char)
    ensures CountChar(a + b, c) == CountChar(a, c) + CountChar(b, c)
    decreases |b|
  {
    if |b| == 0 {
      assert a + b == a;
    } else {
      assert (a + b)[..|a + b| - 1] == a + b[..|b| - 1];
      CountCharAppend(a, b[..|b| - 1], c);
    }
  }

  lemma {:induction false} CountAbsentChar(s: string, c: char)
    requires NoChar(s, c)
    ensures CountChar(s, c) == 0
    decreases |s|
  {
    if |s| > 0 {
      CountAbsentChar(s[..|s| - 1], c);
    }
  }

  /** Concatenation regroups freely; stated once so that loops can cite it. */
  lemma ConcatAssoc(a: string, b: string, c: string)
    ensures (a + b) + c == a + (b + c)
  {
  }
}
