/** Bytes and byte strings. */
module ByteStrings {

  type Byte = b: int | 0 <= b < 256

  type Bytes = seq<Byte>

  /** Concatenation may be regrouped, and nothing is nothing. */
  lemma Regroup(a: Bytes, b: Bytes, c: Bytes)
    ensures a + b + c == a + (b + c)
    ensures a == [] ==> a + (b + c) == b + c
    ensures b == [] ==> a + b == a
  {
  }
}
