/** Bytes as numbers. */
module ByteNumbers {
  lemma ByteRoundTrip(n: int)
    requires 0 <= n < 256
    ensures (n as bv8) as int == n
  {}
}
