/** Constants of the strings and buffers of the program. */
module Bytes {
  const NUL: char := 0 as char
  const INT_MAX: nat := 0x7fff_ffff
}
