/** Optional values and bounded lists. */
module Wrappers {
  datatype Option<+T> = None | Some(value: T)

  /** JavaScript's `values.slice(-count)` for a positive count: the last `count` elements. */
  function Newest<T>(values: seq<T>, count: nat): (kept: seq<T>)
    ensures |kept| == if |values| <= count then |values| else count
    ensures kept == values[|values| - |kept|..]
  {
    if |values| <= count then values else values[|values| - count..]
  }
}
