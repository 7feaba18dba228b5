/** Rust's `Iterator::min_by_key`, used by days 3 and 8: of the elements
    with the smallest key, the first one. */
module Extrema {

  /** The index of the first element with the smallest key. */
  function ArgMin<T>(xs: seq<T>, key: T -> int): (m: nat)
    requires |xs| > 0
    ensures m < |xs|
    ensures forall j :: 0 <= j < |xs| ==> key(xs[m]) <= key(xs[j])
    ensures forall j :: 0 <= j < m ==> key(xs[j]) > key(xs[m])
  {
    ArgMinUpTo(xs, key, |xs|)
  }

  /** The same, among the first `k` elements. */
  function ArgMinUpTo<T>(xs: seq<T>, key: T -> int, k: nat): (m: nat)
    requires 0 < k <= |xs|
    ensures m < k
    ensures forall j :: 0 <= j < k ==> key(xs[m]) <= key(xs[j])
    ensures forall j :: 0 <= j < m ==> key(xs[j]) > key(xs[m])
  {
    if k == 1 then 0
    else
      var m := ArgMinUpTo(xs, key, k - 1);
      if key(xs[k - 1]) < key(xs[m]) then k - 1 else m
  }
}
