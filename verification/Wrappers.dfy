// Types that every part of the model shares.

module Wrappers {
  datatype Option<+T> = None | Some(value: T)

  type Byte = b: int | 0 <= b < 256
}
