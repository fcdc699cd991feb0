// Types and functions that several modules share.
module Basics {

  type Byte = b: int | 0 <= b < 256

  datatype Option<T> = None | Some(value: T)

  function Concat(chunks: seq<string>): string {
    if chunks == [] then "" else Concat(chunks[..|chunks| - 1]) + chunks[|chunks| - 1]
  }
}
