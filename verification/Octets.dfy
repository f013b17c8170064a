/** Bytes, as the wire format and the identity encoding use them. */
module Octets {
  type Byte = b: int | 0 <= b < 256
  type Bytes = seq<Byte>
}
