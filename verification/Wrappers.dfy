/** The usual optional value; stands for the null pointers of the sources. */
module Wrappers {
  datatype Option<+T> = None | Some(value: T)

  function Max(a: nat, b: nat): (c: nat) {
    if a < b then b else a
  }
}
