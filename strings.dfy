/** The string operations the handlers use: substring search (`in`), `split`,
    `strip`, `lower` and `replace`, stated on `seq<char>`. */
module Strings {
  import opened Models

  /** `p` occurs in `s` starting at index `k`. */
  predicate IsAt(s: string, p: string, k: nat) {
    k + |p| <= |s| && s[k..k + |p|] == p
  }

  /** Python's `p in s`. */
  predicate Contains(s: string, p: string) {
    exists k: nat :: k <= |s| && IsAt(s, p, k)
  }

  /** The first occurrence of `p` in `s` at or after index `from`. */
  function FindFrom(s: string, p: string, from: nat): Option<nat>
    decreases |s| - from
  {
    if from + |p| > |s| then None
    else if s[from..from + |p|] == p then Some(from)
    else FindFrom(s, p, from + 1)
  }

  /** The search finds the first occurrence at or after `from`, and finds
      nothing exactly when there is none. */
  lemma {:induction false} FindFromSpec(s: string, p: string, from: nat)
    decreases |s| - from
    ensures FindFrom(s, p, from).Some? ==> from <= FindFrom(s, p, from).value && IsAt(s, p, FindFrom(s, p, from).value)
    ensures FindFrom(s, p, from).Some? ==> forall j: nat :: from <= j < FindFrom(s, p, from).value ==> !IsAt(s, p, j)
    ensures FindFrom(s, p, from).None? ==> forall j: nat :: from <= j ==> !IsAt(s, p, j)
  {
    if from + |p| > |s| {
    } else if s[from..from + |p|] == p {
    } else {
      FindFromSpec(s, p, from + 1);
    }
  }

  /** The first occurrence of `p` in `s`. */
  function Find(s: string, p: string): Option<nat> {
    FindFrom(s, p, 0)
  }

  /** `Find` succeeds exactly when `p` occurs, at its first occurrence. */
  lemma FindSpec(s: string, p: string)
    ensures Find(s, p).Some? <==> Contains(s, p)
    ensures Find(s, p).Some? ==> IsAt(s, p, Find(s, p).value) && forall j: nat :: j < Find(s, p).value ==> !IsAt(s, p, j)
  {
    FindFromSpec(s, p, 0);
  }

  /** `s.split(p)[0]`: the text before the first occurrence of `p`, or all of `s`. */
  function SplitHead(s: string, p: string): string
    requires p != []  // an empty separator raises ValueError
  {
    FindSpec(s, p);
    match Find(s, p)
    case None => s
    case Some(k) => s[..k]
  }

  /** Without `p` in `s`, `split(p)[0]` is all of `s`. */
  lemma SplitHeadAbsent(s: string, p: string)
    requires p != [] && !Contains(s, p)
    ensures SplitHead(s, p) == s
  {
    FindSpec(s, p);
  }

  /** When `p` occurs, `split(p)[0]` is the prefix up to its first occurrence,
      which holds no `p` itself. */
  lemma SplitHeadFirst(s: string, p: string)
    requires p != [] && Contains(s, p)
    ensures IsAt(s, p, |SplitHead(s, p)|) && SplitHead(s, p) == s[..|SplitHead(s, p)|]
    ensures !Contains(SplitHead(s, p), p)
  {
    FindSpec(s, p);
    var k := Find(s, p).value;
    forall j: nat | j <= k ensures !IsAt(s[..k], p, j) {
      if j + |p| <= k {
        assert s[..k][j..j + |p|] == s[j..j + |p|];
        assert !IsAt(s, p, j);
      }
    }
  }

  /** `s.split(p)[1]` when `p in s`: the text between the first and the second
      occurrence of `p`, or up to the end. */
  function SplitSecond(s: string, p: string): (r: string)
    requires p != [] && Contains(s, p)
  {
    FindSpec(s, p);
    var k := Find(s, p).value;
    SplitHead(s[k + |p|..], p)
  }

  /** Python's `str.isspace()` for one character. */
  predicate IsSpace(c: char) {
    c == ' ' || ('\U{0009}' <= c <= '\U{000D}') || ('\U{001C}' <= c <= '\U{001F}')
    || c == '\U{0085}' || c == '\U{00A0}' || c == '\U{1680}'
    || ('\U{2000}' <= c <= '\U{200A}') || c == '\U{2028}' || c == '\U{2029}'
    || c == '\U{202F}' || c == '\U{205F}' || c == '\U{3000}'
  }

  function StripStart(s: string): (r: string)
    ensures r == [] || !IsSpace(r[0])
    ensures |r| <= |s| && r == s[|s| - |r|..]
  {
    if |s| > 0 && IsSpace(s[0]) then StripStart(s[1..]) else s
  }

  function StripEnd(s: string): (r: string)
    ensures r == [] || !IsSpace(r[|r| - 1])
    ensures |r| <= |s| && r == s[..|r|]
  {
    if |s| > 0 && IsSpace(s[|s| - 1]) then StripEnd(s[..|s| - 1]) else s
  }

  /** Python's `str.strip()`. */
  function Strip(s: string): (r: string) {
    StripEnd(StripStart(s))
  }

  /** Neither end of `s` is whitespace. */
  predicate IsStripped(s: string) {
    s == [] || (!IsSpace(s[0]) && !IsSpace(s[|s| - 1]))
  }

  /** Neither end of a stripped text is whitespace. */
  lemma StripIsStripped(s: string)
    ensures IsStripped(Strip(s))
  {
    var t := StripStart(s);
    var r := StripEnd(t);
    if r != [] {
      assert r[0] == t[0];
    }
  }

  /** Stripping twice is stripping once. */
  lemma StripIdempotent(s: string)
    ensures Strip(Strip(s)) == Strip(s)
  {
    StripIsStripped(s);
    assert [] + Strip(s) == Strip(s);
    StripLeadingSpaces([], Strip(s));
  }

  /** Stripping any run of leading whitespace from a stripped text gives that text back. */
  lemma {:induction false} StripLeadingSpaces(w: string, s: string)
    requires forall i :: 0 <= i < |w| ==> IsSpace(w[i])
    requires IsStripped(s)
    ensures Strip(w + s) == s
  {
    if w == [] {
      assert w + s == s;
      if s != [] {
        assert StripStart(s) == s;
      }
    } else {
      assert (w + s)[1..] == w[1..] + s;
      StripLeadingSpaces(w[1..], s);
    }
  }

  /** ASCII lower case; other characters are kept. */
  function LowerChar(c: char): char {
    if 'A' <= c <= 'Z' then (c as int + 32) as char else c
  }

  /** Python's `str.lower()` restricted to ASCII. */
  function Lower(s: string): (r: string)
    ensures |r| == |s|
    ensures forall i :: 0 <= i < |s| ==> r[i] == LowerChar(s[i])
  {
    if s == [] then [] else [LowerChar(s[0])] + Lower(s[1..])
  }

  /** `s.lower() == t`, checked character by character. */
  lemma LowerIs(s: string, t: string)
    requires |s| == |t| && forall i :: 0 <= i < |s| ==> LowerChar(s[i]) == t[i]
    ensures Lower(s) == t
  {
  }

  /** Case-insensitive substring match, as `a.lower() in b.lower()` and SQL `ILIKE '%a%'`. */
  predicate ContainsIgnoringCase(haystack: string, needle: string) {
    Contains(Lower(haystack), Lower(needle))
  }

  /** Python's `s.replace(old, new)` for one-character arguments. */
  function ReplaceChar(s: string, target: char, replacement: char): (r: string)
    ensures |r| == |s|
    ensures forall i :: 0 <= i < |s| ==> r[i] == (if s[i] == target then replacement else s[i])
  {
    if s == [] then [] else [if s[0] == target then replacement else s[0]] + ReplaceChar(s[1..], target, replacement)
  }
}
