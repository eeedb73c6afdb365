/** Numbers as bytes and back. */
module Bytes {

  lemma ByteValue(n: int)
    requires 0 <= n < 256
    ensures (n as bv8) as int == n
  {}
}
