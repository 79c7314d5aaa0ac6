/** Python sequence slicing with a non-negative start. */
module Slices {

  /** `xs[lo:hi]` for `0 <= lo`: a negative `hi` counts from the end, both
      bounds are clamped to the length, and an inverted range is empty. */
  function PySlice<T>(xs: seq<T>, lo: nat, hi: int): (s: seq<T>)
    ensures lo <= hi <= |xs| ==> s == xs[lo..hi]
    ensures |s| <= |xs|
    ensures var h := Bound(|xs|, hi); lo <= h ==> s == xs[lo..h]
    ensures var h := Bound(|xs|, hi); h < lo ==> s == []
  {
    var h := Bound(|xs|, hi);
    if lo >= h then [] else xs[lo..h]
  }

  /** Where an upper slice bound lands in a sequence of length `n`. */
  function Bound(n: nat, hi: int): (h: nat)
    ensures h <= n
    ensures 0 <= hi <= n ==> h == hi
    ensures hi > n ==> h == n
    ensures hi < 0 ==> h == if n + hi < 0 then 0 else n + hi
  {
    if hi < 0 then (if n + hi < 0 then 0 else n + hi)
    else if hi > n then n
    else hi
  }

  /** A slice from the start is a prefix of length `min(n, hi)` for a
      non-negative `hi`, and drops the last `-hi` elements otherwise. */
  lemma PrefixSlice<T>(xs: seq<T>, hi: int)
    ensures var s := PySlice(xs, 0, hi);
      && s == xs[..|s|]
      && (hi >= 0 ==> |s| == if hi < |xs| then hi else |xs|)
      && (hi < 0 ==> |s| == if |xs| + hi < 0 then 0 else |xs| + hi)
  {
  }

  /** Growing a prefix by one element. */
  lemma TakeSnoc<T>(xs: seq<T>, i: nat)
    requires i < |xs|
    ensures xs[..i + 1] == xs[..i] + [xs[i]]
  {
  }

  /** A non-empty sequence is its front followed by its last element. */
  lemma InitLast<T>(xs: seq<T>)
    requires |xs| > 0
    ensures xs == xs[..|xs| - 1] + [xs[|xs| - 1]]
  {
  }
}
