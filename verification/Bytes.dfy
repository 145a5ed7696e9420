/** A byte of memory, for the models that work below the level of numbers. */
module Bytes {
  type Byte = x: int | 0 <= x < 256
}
