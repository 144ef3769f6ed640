/** Array methods of JavaScript used by the modelled code: `filter` and `slice(0, n)`. */
module Seqs {

  /** Number of elements of `s` that satisfy `f`. */
  function Count<T>(f: T -> bool, s: seq<T>): nat {
    if s == [] then 0 else (if f(s[0]) then 1 else 0) + Count(f, s[1..])
  }

  /** `a` is `b` with some elements left out, the rest kept in order. */
  ghost predicate IsSubsequence<T>(a: seq<T>, b: seq<T>)
    decreases |b|
  {
    if a == [] then true
    else if b == [] then false
    else (a[0] == b[0] && IsSubsequence(a[1..], b[1..])) || IsSubsequence(a, b[1..])
  }

  /**
   * `Array.prototype.filter`: an order-preserving subsequence holding exactly
   * the elements that satisfy `f`, as many as there are.
   */
  function Filter<T>(f: T -> bool, s: seq<T>): (r: seq<T>)
    ensures |r| == Count(f, s)
    ensures IsSubsequence(r, s)
    ensures forall i :: 0 <= i < |r| ==> f(r[i])
    ensures forall i :: 0 <= i < |r| ==> r[i] in s
    ensures forall i :: 0 <= i < |s| && f(s[i]) ==> s[i] in r
  {
    if s == [] then []
    else if f(s[0]) then [s[0]] + Filter(f, s[1..])
    else Filter(f, s[1..])
  }

  /** `s.slice(0, n)`. */
  function Take<T>(s: seq<T>, n: nat): (r: seq<T>)
    ensures |r| == if |s| <= n then |s| else n
    ensures r == s[..|r|]
  {
    if |s| <= n then s else s[..n]
  }

  /** A prefix of a subsequence of `b` is itself a subsequence of `b`. */
  lemma {:induction false} PrefixIsSubsequence<T>(a: seq<T>, b: seq<T>, n: nat)
    requires IsSubsequence(a, b) && n <= |a|
    ensures IsSubsequence(a[..n], b)
    decreases |b|
  {
    if n == 0 {
    } else if a[0] == b[0] && IsSubsequence(a[1..], b[1..]) {
      PrefixIsSubsequence(a[1..], b[1..], n - 1);
      assert a[..n][0] == b[0] && a[..n][1..] == a[1..][..n - 1];
    } else {
      PrefixIsSubsequence(a, b[1..], n);
    }
  }
}
