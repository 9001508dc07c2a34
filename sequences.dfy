/** `Array.prototype.filter` and the order-preserving subsequence relation it produces. */
module Sequences {

  /** `s.filter(p)`: the elements satisfying `p`, in their original order. */
  function Filter<T>(s: seq<T>, p: T -> bool): (r: seq<T>)
    ensures |r| <= |s|
  {
    if s == [] then []
    else if p(s[0]) then [s[0]] + Filter(s[1..], p)
    else Filter(s[1..], p)
  }

  lemma {:induction false} FilterMembership<T>(s: seq<T>, p: T -> bool, x: T)
    ensures x in Filter(s, p) <==> x in s && p(x)
  {
    if s != [] {
      FilterMembership(s[1..], p, x);
      assert s == [s[0]] + s[1..];
    }
  }

  /** `sub` is obtained from `full` by deleting elements, keeping the order of the rest. */
  predicate SubsequenceOf<T(==)>(sub: seq<T>, full: seq<T>)
    decreases |full|
  {
    if sub == [] then true
    else if full == [] then false
    else (sub[0] == full[0] && SubsequenceOf(sub[1..], full[1..])) || SubsequenceOf(sub, full[1..])
  }

  lemma {:induction false} FilterIsSubsequence<T>(s: seq<T>, p: T -> bool)
    ensures SubsequenceOf(Filter(s, p), s)
  {
    if s != [] {
      FilterIsSubsequence(s[1..], p);
      if !p(s[0]) {
        var r := Filter(s[1..], p);
        if r != [] {
          SubsequenceSkip(r, s[1..], s[0]);
        }
      }
    }
  }

  lemma {:induction false} SubsequenceSkip<T>(sub: seq<T>, full: seq<T>, x: T)
    requires SubsequenceOf(sub, full)
    ensures SubsequenceOf(sub, [x] + full)
  {
    assert ([x] + full)[1..] == full;
  }

  lemma {:induction false} SubsequenceTransitive<T>(a: seq<T>, b: seq<T>, c: seq<T>)
    requires SubsequenceOf(a, b) && SubsequenceOf(b, c)
    ensures SubsequenceOf(a, c)
    decreases |c|
  {
    if a == [] || c == [] {
    } else if b[0] == c[0] && SubsequenceOf(b[1..], c[1..]) {
      if a[0] == b[0] && SubsequenceOf(a[1..], b[1..]) {
        SubsequenceTransitive(a[1..], b[1..], c[1..]);
      } else {
        SubsequenceTransitive(a, b[1..], c[1..]);
      }
    } else {
      SubsequenceTransitive(a, b, c[1..]);
    }
  }

  /** Two filters in a row are one filter by the conjunction. */
  lemma {:induction false} FilterFilter<T>(s: seq<T>, p: T -> bool, q: T -> bool)
    ensures Filter(Filter(s, p), q) == Filter(s, x => p(x) && q(x))
  {
    if s != [] {
      FilterFilter(s[1..], p, q);
      if p(s[0]) {
        assert Filter(s, p) == [s[0]] + Filter(s[1..], p);
        assert Filter(s, p)[1..] == Filter(s[1..], p);
      }
    }
  }

  /** `s.findIndex(e => key(e) === k)`: the first index whose element has key `k`,
      or -1 when there is none. */
  function IndexOfKey<T, K(==)>(s: seq<T>, key: T -> K, k: K): (i: int)
    ensures -1 <= i < |s|
    ensures i == -1 <==> forall j :: 0 <= j < |s| ==> key(s[j]) != k
    ensures i >= 0 ==> key(s[i]) == k && forall j :: 0 <= j < i ==> key(s[j]) != k
  {
    if s == [] then -1
    else if key(s[0]) == k then 0
    else
      var r := IndexOfKey(s[1..], key, k);
      assert forall j :: 1 <= j < |s| ==> s[j] == s[1..][j - 1];
      if r < 0 then -1 else r + 1
  }

  /** Filtering a list with one more element at the end. */
  lemma {:induction false} FilterSnoc<T>(s: seq<T>, x: T, p: T -> bool)
    ensures Filter(s + [x], p) == Filter(s, p) + (if p(x) then [x] else [])
  {
    if s == [] {
      assert s + [x] == [x];
    } else {
      assert (s + [x])[1..] == s[1..] + [x];
      FilterSnoc(s[1..], x, p);
    }
  }

  /** Filtering drops something exactly when some element fails the predicate. */
  lemma {:induction false} FilterShorterIff<T>(s: seq<T>, p: T -> bool)
    ensures |Filter(s, p)| < |s| <==> exists j :: 0 <= j < |s| && !p(s[j])
  {
    if s != [] {
      FilterShorterIff(s[1..], p);
      if exists j :: 0 <= j < |s[1..]| && !p(s[1..][j]) {
        var j :| 0 <= j < |s[1..]| && !p(s[1..][j]);
        assert !p(s[j + 1]);
      }
      if exists j :: 0 <= j < |s| && !p(s[j]) {
        var j :| 0 <= j < |s| && !p(s[j]);
        if j > 0 {
          assert !p(s[1..][j - 1]);
        }
      }
    }
  }

  lemma {:induction false} SubsequenceReflexive<T>(s: seq<T>)
    ensures SubsequenceOf(s, s)
  {
    if s != [] {
      SubsequenceReflexive(s[1..]);
    }
  }

  lemma {:induction false} SubsequenceLength<T>(sub: seq<T>, full: seq<T>)
    requires SubsequenceOf(sub, full)
    ensures |sub| <= |full|
    decreases |full|
  {
    if sub != [] {
      if sub[0] == full[0] && SubsequenceOf(sub[1..], full[1..]) {
        SubsequenceLength(sub[1..], full[1..]);
      } else {
        SubsequenceLength(sub, full[1..]);
      }
    }
  }
}
