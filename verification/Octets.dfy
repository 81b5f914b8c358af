/** The bytes that files and messages are made of. */
module Octets {
  type Byte = b: nat | b < 256
  type Bytes = seq<Byte>
}
