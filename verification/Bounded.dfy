/** Optional values, and lists that keep only their newest entries. */
module Bounded {

  datatype Option<+T> = None | Some(value: T)

  /** The Python slice `xs[-n:]` for a positive n. */
  function Last<T>(xs: seq<T>, n: nat): (ys: seq<T>)
    ensures |ys| <= n && |ys| <= |xs|
    ensures |xs| <= n ==> ys == xs
  {
    if |xs| <= n then xs else xs[|xs| - n..]
  }

  /** Truncating after every append keeps the same entries as truncating once at the end. */
  lemma LastAppend<T>(full: seq<T>, x: T, n: nat)
    requires n > 0
    ensures Last(Last(full, n) + [x], n) == Last(full + [x], n)
  {
  }
}
