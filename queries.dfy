/** What the handlers take from a table query: the primary keys in ascending
    order (`query.all()`) or descending order (`order_by(X.id.desc())`), list
    filters (`filter_by`, list comprehensions) and `limit`. */
module Queries {

  /** The keys in `keys` below `bound`, smallest first. */
  function IdsAscending(keys: set<nat>, bound: nat): (r: seq<nat>)
    ensures forall i, j :: 0 <= i < j < |r| ==> r[i] < r[j]
    ensures forall x :: x in r <==> x in keys && x < bound
  {
    if bound == 0 then []
    else
      var smaller := IdsAscending(keys, bound - 1);
      assert forall x :: x in smaller ==> x < bound - 1;
      assert forall i :: 0 <= i < |smaller| ==> smaller[i] in smaller;
      smaller + (if bound - 1 in keys then [bound - 1] else [])
  }

  /** The keys in `keys` below `bound`, largest first. */
  function IdsDescending(keys: set<nat>, bound: nat): (r: seq<nat>)
    ensures forall i, j :: 0 <= i < j < |r| ==> r[i] > r[j]
    ensures forall x :: x in r <==> x in keys && x < bound
  {
    if bound == 0 then []
    else
      var smaller := IdsDescending(keys, bound - 1);
      assert forall x :: x in smaller ==> x < bound - 1;
      assert forall i :: 0 <= i < |smaller| ==> smaller[i] in smaller;
      (if bound - 1 in keys then [bound - 1] else []) + smaller
  }

  /** `a` is `b` with some elements left out and the rest in their order. */
  ghost predicate IsSubsequence<T>(a: seq<T>, b: seq<T>)
    decreases |b|
  {
    if a == [] then true
    else if b == [] then false
    else if a[0] == b[0] then IsSubsequence(a[1..], b[1..])
    else IsSubsequence(a, b[1..])
  }

  /** `[x for x in s if keep(x)]`. */
  function Select<T(!new)>(s: seq<T>, keep: T -> bool): (r: seq<T>)
    ensures forall x :: x in r <==> x in s && keep(x)
    ensures |r| <= |s|
  {
    if s == [] then []
    else if keep(s[0]) then [s[0]] + Select(s[1..], keep)
    else Select(s[1..], keep)
  }

  lemma {:induction false} SelectIsSubsequence<T(!new)>(s: seq<T>, keep: T -> bool)
    ensures IsSubsequence(Select(s, keep), s)
  {
    if s != [] {
      SelectIsSubsequence(s[1..], keep);
      var r := Select(s, keep);
      if keep(s[0]) {
        assert r[0] == s[0] && r[1..] == Select(s[1..], keep);
      } else if r != [] {
        assert keep(r[0]) && r[0] != s[0];
      }
    }
  }

  /** Filtering twice is filtering once by both conditions. */
  lemma {:induction false} SelectSelect<T(!new)>(s: seq<T>, p: T -> bool, q: T -> bool, both: T -> bool)
    requires forall x :: both(x) == (p(x) && q(x))
    ensures Select(Select(s, p), q) == Select(s, both)
  {
    if s != [] {
      SelectSelect(s[1..], p, q, both);
      if p(s[0]) {
        assert Select(s, p) == [s[0]] + Select(s[1..], p);
        assert Select(s, p)[1..] == Select(s[1..], p);
      }
    }
  }

  /** A filter every element passes keeps the whole list. */
  lemma {:induction false} SelectAll<T(!new)>(s: seq<T>, keep: T -> bool)
    requires forall x :: x in s ==> keep(x)
    ensures Select(s, keep) == s
  {
    if s != [] {
      assert forall x :: x in s[1..] ==> x in s;
      SelectAll(s[1..], keep);
    }
  }

  /** Filters that agree on the elements of `s` select the same list. */
  lemma {:induction false} SelectAgree<T(!new)>(s: seq<T>, p: T -> bool, q: T -> bool)
    requires forall x :: x in s ==> p(x) == q(x)
    ensures Select(s, p) == Select(s, q)
  {
    if s != [] {
      assert forall x :: x in s[1..] ==> x in s;
      SelectAgree(s[1..], p, q);
    }
  }

  predicate StrictlyAscending(s: seq<nat>) {
    forall i, j :: 0 <= i < j < |s| ==> s[i] < s[j]
  }

  predicate StrictlyDescending(s: seq<nat>) {
    forall i, j :: 0 <= i < j < |s| ==> s[i] > s[j]
  }

  /** Filtering keeps an ascending key list ascending. */
  lemma {:induction false} SelectAscending(s: seq<nat>, keep: nat -> bool)
    requires StrictlyAscending(s)
    ensures StrictlyAscending(Select(s, keep))
  {
    if s != [] {
      var rest := Select(s[1..], keep);
      SelectAscending(s[1..], keep);
      if keep(s[0]) {
        var r := Select(s, keep);
        assert r == [s[0]] + rest;
        forall j | 0 < j < |r| ensures r[0] < r[j] {
          assert r[j] == rest[j - 1];
          assert rest[j - 1] in s[1..];
        }
      }
    }
  }

  /** Filtering keeps a descending key list descending. */
  lemma {:induction false} SelectDescending(s: seq<nat>, keep: nat -> bool)
    requires StrictlyDescending(s)
    ensures StrictlyDescending(Select(s, keep))
  {
    if s != [] {
      var rest := Select(s[1..], keep);
      SelectDescending(s[1..], keep);
      if keep(s[0]) {
        var r := Select(s, keep);
        assert r == [s[0]] + rest;
        forall j | 0 < j < |r| ensures r[0] > r[j] {
          assert r[j] == rest[j - 1];
          assert rest[j - 1] in s[1..];
        }
      }
    }
  }

  /** The number of elements of `s` that satisfy `keep`. */
  function Count<T(!new)>(s: seq<T>, keep: T -> bool): (n: nat)
    ensures n == |Select(s, keep)|
  {
    if s == [] then 0 else (if keep(s[0]) then 1 else 0) + Count(s[1..], keep)
  }

  /** Filters of which at most one holds on each element count at most the
      whole list together. */
  lemma {:induction false} CountDisjoint<T(!new)>(s: seq<T>, p: T -> bool, q: T -> bool, r: T -> bool)
    requires forall x :: !(p(x) && q(x)) && !(p(x) && r(x)) && !(q(x) && r(x))
    ensures Count(s, p) + Count(s, q) + Count(s, r) <= |s|
  {
    if s != [] {
      CountDisjoint(s[1..], p, q, r);
    }
  }

  /** `limit(n)`. */
  function Take<T>(s: seq<T>, n: nat): (r: seq<T>)
    ensures |r| == if |s| < n then |s| else n
    ensures r == s[..|r|]
  {
    if |s| <= n then s else s[..n]
  }

  /** The first `n` of a descending list are its `n` largest: whatever is left
      out is smaller than everything kept, and then `n` were kept. */
  lemma TakeLargest(s: seq<nat>, n: nat, x: nat)
    requires StrictlyDescending(s) && x in s && x !in Take(s, n)
    ensures |Take(s, n)| == n
    ensures forall j :: 0 <= j < |Take(s, n)| ==> Take(s, n)[j] > x
  {
    var k :| 0 <= k < |s| && s[k] == x;
    assert forall j :: 0 <= j < |Take(s, n)| ==> Take(s, n)[j] == s[j];
  }
}
