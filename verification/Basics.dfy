/** Small types that several modules share. */
module Basics {

  type Octet = n: int | 0 <= n < 256

  datatype Option<+T> = None | Some(value: T)
}
