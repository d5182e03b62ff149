/** Eight-bit bytes. */
module Octets {

  type Octet = x: int | 0 <= x < 256
}
