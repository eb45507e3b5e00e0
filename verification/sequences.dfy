/** Facts about sequences that the store queries and the page filters share. */
module Sequences {

  /** `sub` is `s` with some elements left out, the rest in the same order. */
  predicate IsSubsequence<T(==)>(sub: seq<T>, s: seq<T>)
    decreases |s|
  {
    |sub| == 0 || (|s| > 0 && ((sub[0] == s[0] && IsSubsequence(sub[1..], s[1..])) || IsSubsequence(sub, s[1..])))
  }
}
