/** The Python string built-ins the chunking code calls: `str.isspace`,
    `str.strip()`, `str.split(sep)[1]` and `str.replace(p, "")`. */
module Strings {

  /** Python's `str.isspace` on one character (the Unicode whitespace set). */
  predicate IsSpace(c: char)
  {
    c == ' ' || '\t' <= c <= '\r' || '\U{1c}' <= c <= '\U{1f}'
    || c == '\U{85}' || c == '\U{a0}' || c == '\U{1680}'
    || '\U{2000}' <= c <= '\U{200a}' || c == '\U{2028}' || c == '\U{2029}'
    || c == '\U{202f}' || c == '\U{205f}' || c == '\U{3000}'
  }

  /** Every character of `s` at a position in [lo, hi) is whitespace. */
  predicate SpaceBetween(s: string, lo: int, hi: int)
    requires 0 <= lo && hi <= |s|
  {
    forall k :: lo <= k < hi ==> IsSpace(s[k])
  }

  /** Where `s.lstrip()` would start when scanning from `i`: the first
      position at or after `i` that is not whitespace. */
  function SkipSpace(s: string, i: nat): (k: nat)
    requires i <= |s|
    ensures i <= k <= |s| && SpaceBetween(s, i, k)
    ensures k == |s| || !IsSpace(s[k])
    decreases |s| - i
  {
    if i < |s| && IsSpace(s[i]) then SkipSpace(s, i + 1) else i
  }

  /** Where `s.rstrip()` would end when scanning back from `j` but not past
      `lo`: one past the last position before `j` that is not whitespace. */
  function SkipSpaceBack(s: string, lo: nat, j: nat): (k: nat)
    requires lo <= j <= |s|
    ensures lo <= k <= j && SpaceBetween(s, k, j)
    ensures k == lo || !IsSpace(s[k - 1])
  {
    if lo < j && IsSpace(s[j - 1]) then SkipSpaceBack(s, lo, j - 1) else j
  }

  /** `s.strip()`: the part of `s` between its leading and its trailing
      whitespace; it is empty exactly when `s` is all whitespace. */
  function Strip(s: string): (r: string)
    ensures exists i ::
              && 0 <= i <= |s| - |r| && s[i..i + |r|] == r
              && SpaceBetween(s, 0, i) && SpaceBetween(s, i + |r|, |s|)
    ensures r == [] || (!IsSpace(r[0]) && !IsSpace(r[|r| - 1]))
    ensures r == [] <==> SpaceBetween(s, 0, |s|)
  {
    var a := SkipSpace(s, 0);
    var b := SkipSpaceBack(s, a, |s|);
    assert a < b ==> !IsSpace(s[a]);
    s[a..b]
  }

  /** Position of the first `c` in `s`, or `|s|` when `s` has none. */
  function IndexOf(s: string, c: char): (i: nat)
    ensures i <= |s| && c !in s[..i]
    ensures i < |s| ==> s[i] == c
    ensures i == |s| ==> c !in s
  {
    if s == [] then 0
    else if s[0] == c then 0
    else
      var j := IndexOf(s[1..], c);
      assert s[..j + 1] == [s[0]] + s[1..][..j];
      assert j == |s| - 1 ==> s == [s[0]] + s[1..];
      1 + j
  }

  /** `s.split(sep)[1]`: the text between the first and the second `sep`
      (or the end of `s`). Python raises when `s` has no `sep`. */
  function SecondField(s: string, sep: char): (r: string)
    requires sep in s
    ensures sep !in r && |r| < |s|
  {
    var i := IndexOf(s, sep);
    var rest := s[i + 1..];
    var j := IndexOf(rest, sep);
    rest[..j]
  }

  /** `s.replace(p, "")`: deletes the non-overlapping occurrences of `p`,
      scanning from the left. */
  function RemoveAll(s: string, p: string): (r: string)
    requires p != []
    ensures |r| <= |s|
    decreases |s|
  {
    if |s| < |p| then s
    else if s[..|p|] == p then RemoveAll(s[|p|..], p)
    else [s[0]] + RemoveAll(s[1..], p)
  }

  /** An occurrence of `p` starts at position `k` of `s`. */
  predicate MatchAt(s: string, k: int, p: string)
  {
    0 <= k && k + |p| <= |s| && s[k..k + |p|] == p
  }

  /** No occurrence of `p` in `x + rest` starts inside `x`. */
  predicate NoMatchStartsIn(x: string, rest: string, p: string)
  {
    forall k :: 0 <= k < |x| ==> !MatchAt(x + rest, k, p)
  }

  /** Dropping the first character of `x` keeps no occurrence starting in it. */
  lemma NoMatchStartsInTail(x: string, rest: string, p: string)
    requires x != [] && NoMatchStartsIn(x, rest, p)
    ensures NoMatchStartsIn(x[1..], rest, p)
  {
    var s := x + rest;
    assert s[1..] == x[1..] + rest;
    forall k | 0 <= k < |x[1..]| ensures !MatchAt(x[1..] + rest, k, p) {
      assert !MatchAt(s, k + 1, p);
      if k + |p| <= |s| - 1 {
        assert (x[1..] + rest)[k..k + |p|] == s[k + 1..k + 1 + |p|];
      }
    }
  }

  /** Where no occurrence of `p` starts, `replace` keeps the first character. */
  lemma RemoveAllKeepsFirst(x: string, rest: string, p: string)
    requires p != [] && x != [] && NoMatchStartsIn(x, rest, p)
    ensures RemoveAll(x + rest, p) == [x[0]] + RemoveAll(x[1..] + rest, p)
  {
    var s := x + rest;
    assert !MatchAt(s, 0, p);
    assert s[1..] == x[1..] + rest;
    if |s| >= |p| {
      assert s[..|p|] != p by { assert s[0..|p|] == s[..|p|]; }
    } else {
      assert RemoveAll(s[1..], p) == s[1..];
    }
  }

  /** Text inside which no occurrence of `p` starts is left untouched by `replace`. */
  lemma {:induction false} RemoveAllKeepsPrefix(x: string, rest: string, p: string)
    requires p != [] && NoMatchStartsIn(x, rest, p)
    ensures RemoveAll(x + rest, p) == x + RemoveAll(rest, p)
    decreases |x|
  {
    if x == [] {
      assert x + rest == rest;
    } else {
      NoMatchStartsInTail(x, rest, p);
      calc {
        RemoveAll(x + rest, p);
        { RemoveAllKeepsFirst(x, rest, p); }
        [x[0]] + RemoveAll(x[1..] + rest, p);
        { RemoveAllKeepsPrefix(x[1..], rest, p); }
        [x[0]] + (x[1..] + RemoveAll(rest, p));
        { assert [x[0]] + x[1..] == x; }
        x + RemoveAll(rest, p);
      }
    }
  }

  /** Deleting `p` from `p + rest` deletes the leading copy and goes on. */
  lemma RemoveAllLeading(p: string, rest: string)
    requires p != []
    ensures RemoveAll(p + rest, p) == RemoveAll(rest, p)
  {
    assert (p + rest)[..|p|] == p;
    assert (p + rest)[|p|..] == rest;
  }

  /** Text without '-' holds no occurrence of a pattern that starts with '-'. */
  lemma NoDashNoMatch(x: string, rest: string, p: string)
    requires '-' !in x && p != [] && p[0] == '-'
    ensures NoMatchStartsIn(x, rest, p)
  {
    forall k | 0 <= k < |x| ensures !MatchAt(x + rest, k, p) {
      assert (x + rest)[k] == x[k];
    }
  }

  /** `replace` leaves text without '-' alone, and deletes a pattern that
      starts with '-' from the end of such text. */
  lemma RemoveAllDashFree(x: string, p: string)
    requires '-' !in x && p != [] && p[0] == '-'
    ensures RemoveAll(x, p) == x
    ensures RemoveAll(x + p, p) == x
  {
    NoDashNoMatch(x, [], p);
    RemoveAllKeepsPrefix(x, [], p);
    assert x + [] == x;
    NoDashNoMatch(x, p, p);
    RemoveAllKeepsPrefix(x, p, p);
    RemoveAllLeading(p, []);
    assert p + [] == p;
  }

  /** One differing character rules out an occurrence at `k`. */
  lemma NoMatchAtChar(s: string, k: int, p: string, j: int)
    requires 0 <= k && 0 <= j < |p| && k + j < |s| && s[k + j] != p[j]
    ensures !MatchAt(s, k, p)
  {
    if k + |p| <= |s| {
      assert s[k..k + |p|][j] == s[k + j];
    }
  }

  /** `s.split(sep)[1]` is the text between the first and the second `sep`
      (or the end of `s`). */
  lemma SecondFieldOf(a: string, b: string, rest: string, sep: char)
    requires sep !in a && sep !in b && (rest == [] || rest[0] == sep)
    ensures SecondField(a + [sep] + b + rest, sep) == b
  {
    var s := a + [sep] + b + rest;
    assert s[|a|] == sep && s[..|a|] == a;
    var i := IndexOf(s, sep);
    assert i == |a|;
    var tail := s[i + 1..];
    assert tail == b + rest;
    assert tail[..|b|] == b;
    var j := IndexOf(tail, sep);
    assert j == |b|;
  }

  /** `strip()` removes exactly the whitespace around a text that starts
      and ends with a non-whitespace character. */
  lemma StripOf(pre: string, t: string, post: string)
    requires SpaceBetween(pre, 0, |pre|) && SpaceBetween(post, 0, |post|)
    requires t != [] && !IsSpace(t[0]) && !IsSpace(t[|t| - 1])
    ensures Strip(pre + t + post) == t
  {
    var s := pre + t + post;
    var m := |pre| + |t|;
    assert SpaceBetween(s, 0, |pre|) by {
      forall k | 0 <= k < |pre| ensures IsSpace(s[k]) { assert s[k] == pre[k]; }
    }
    assert SpaceBetween(s, m, |s|) by {
      forall k | m <= k < |s| ensures IsSpace(s[k]) { assert s[k] == post[k - m]; }
    }
    assert s[|pre|] == t[0] && s[m - 1] == t[|t| - 1];
    var a := SkipSpace(s, 0);
    assert a == |pre|;
    var b := SkipSpaceBack(s, a, |s|);
    assert b == m;
    assert s[a..b] == t;
  }

  /** `strip()` of a text followed by one space, when the text starts and
      ends with non-whitespace, is that text. */
  lemma StripTrailingSpace(t: string)
    requires t != [] && !IsSpace(t[0]) && !IsSpace(t[|t| - 1])
    ensures Strip(t + " ") == t
  {
    assert SpaceBetween(" ", 0, 1);
    StripOf("", t, " ");
    assert "" + t + " " == t + " ";
  }

  /** The first character of a concatenation whose left part is non-empty. */
  lemma FirstOfAppend(x: string, y: string)
    requires x != []
    ensures (x + y)[0] == x[0]
  {
  }

  /** The last character of a concatenation whose right part is non-empty. */
  lemma LastOfAppend(x: string, y: string)
    requires y != []
    ensures (x + y)[|x + y| - 1] == y[|y| - 1]
  {
  }
}
