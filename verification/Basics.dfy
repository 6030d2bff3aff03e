/** Small things every component uses. */
module Basics {
  datatype Option<+T> = None | Some(value: T)

  /** Sequences are appended in either grouping, and nothing appended changes nothing. */
  lemma Regroup<T>(a: seq<T>, b: seq<T>, c: seq<T>)
    ensures a + b + c == a + (b + c)
    ensures a + [] == a && [] + a == a
  {
  }

  function Max(a: int, b: int): int {
    if a > b then a else b
  }

  function Min(a: int, b: int): int {
    if a < b then a else b
  }
}
