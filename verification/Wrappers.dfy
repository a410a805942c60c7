/** The option and result types, and bounds on numbers, that the other modules share. */
module Wrappers {

  datatype Option<+T> = None | Some(value: T)

  datatype Result<+T, +E> = Ok(value: T) | Err(error: E)

  function Least(a: nat, b: nat): nat {
    if a <= b then a else b
  }

  function Most(a: int, b: nat): nat {
    if a >= b then a else b
  }
}
