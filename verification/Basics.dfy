/** The keys of blocks and the bytes that blocks are made of. */
module Basics {
  datatype Key = Key(id: nat)

  type Byte = b: int | 0 <= b < 256

  type Bytes = seq<Byte>
}
