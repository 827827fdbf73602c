/** Small vocabulary shared by every component of the model. */
module Prelude {

  datatype Option<+T> = None | Some(value: T)

  function MinReal(x: real, y: real): real {
    if x <= y then x else y
  }

  function MaxReal(x: real, y: real): real {
    if x <= y then y else x
  }

  function MaxInt(x: int, y: int): int {
    if x <= y then y else x
  }

  function MinInt(x: int, y: int): int {
    if x <= y then x else y
  }

  function Abs(x: int): nat {
    if x < 0 then -x else x
  }

  /** Python's int() on a float: truncation toward zero. */
  function Truncate(x: real): int {
    if x >= 0.0 then x.Floor else -((-x).Floor)
  }

  /** The last n elements of s (all of s when it is shorter): what a bounded deque keeps. */
  function Tail<T>(s: seq<T>, n: nat): seq<T> {
    if |s| <= n then s else s[|s| - n..]
  }
}
