/** Small shared definitions: an optional value and Kotlin's `abs`. */
module Prelude {

  /** An optional value; stands for a nullable reference such as `Pawn?`. */
  datatype Option<T> = None | Some(value: T)

  /** kotlin.math.abs on Int (no overflow: every argument here is a small board offset). */
  function Abs(n: int): nat
  {
    if n < 0 then -n else n
  }
}
