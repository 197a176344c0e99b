/** Small helpers shared by the models: an optional value and string predicates. */
module Wrappers {

  /** Swift's `T?` and JavaScript's `undefined`-or-value. */
  datatype Option<+T> = None | Some(value: T)
}

module Text {

  /** JavaScript's `s.startsWith(prefix)`. */
  predicate StartsWith(s: string, prefix: string)
  {
    |prefix| <= |s| && s[..|prefix|] == prefix
  }

  function Min(a: int, b: int): int
  {
    if a <= b then a else b
  }

  /** Swift's `Array(s.prefix(n))`: the first `n` elements, or all of them when there are fewer. */
  function Prefix<T>(s: seq<T>, n: nat): seq<T>
  {
    s[..Min(|s|, n)]
  }
}
