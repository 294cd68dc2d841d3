/** Bytes as numbers, where a program computes with their values rather than with their bits. */
module Octets {
  type Octet = x: int | 0 <= x < 256
}
