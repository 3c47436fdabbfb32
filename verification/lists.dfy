/** Sequence helpers: list-comprehension filtering and the subsequence order. */
module Lists {

  /** `xs` is `ys` with some elements left out, the rest in their order. */
  ghost predicate IsSubsequence<T>(xs: seq<T>, ys: seq<T>)
    decreases |ys|
  {
    if xs == [] then true
    else if ys == [] then false
    else (xs[0] == ys[0] && IsSubsequence(xs[1..], ys[1..])) || IsSubsequence(xs, ys[1..])
  }

  /** `[x for x in s if f(x)]` */
  function Filter<T>(s: seq<T>, f: T -> bool): (r: seq<T>)
    ensures |r| <= |s|
    ensures forall k :: 0 <= k < |r| ==> f(r[k])
    ensures forall k :: 0 <= k < |s| && f(s[k]) ==> s[k] in r
  {
    if s == [] then []
    else
      var rest := Filter(s[1..], f);
      assert forall k :: 1 <= k < |s| ==> s[k] == s[1..][k - 1];
      if f(s[0]) then [s[0]] + rest else rest
  }

  /** Extending both sides by the same head keeps the subsequence relation,
      whether or not the head is kept. */
  lemma SubsequenceStep<T>(x: T, xs: seq<T>, ys: seq<T>, keep: bool)
    requires IsSubsequence(xs, ys)
    ensures IsSubsequence((if keep then [x] else []) + xs, [x] + ys)
  {
    var zs := (if keep then [x] else []) + xs;
    if keep {
      assert zs[1..] == xs;
    } else if zs != [] {
      assert zs == xs && ([x] + ys)[1..] == ys;
      assert IsSubsequence(zs, ([x] + ys)[1..]);
    }
  }
}
