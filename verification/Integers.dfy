// C's int: arithmetic on it must not leave the range.
module Integers {

  newtype int32 = x: int | -0x8000_0000 <= x < 0x8000_0000
}
