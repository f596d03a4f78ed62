/** Types and text that several of the models share. */
module Basics {

  type Byte = b: int | 0 <= b < 0x100

  datatype Option<+T> = None | Some(value: T)

  function Spaces(n: nat): string {
    seq(n, _ => ' ')
  }
}
