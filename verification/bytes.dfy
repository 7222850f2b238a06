/** Octets, and numbers cut down to one. */
module Bytes {

  type byte = bv8

  /** A conversion to a byte keeps the low eight bits. */
  function LowByte(n: nat): byte {
    (n % 256) as byte
  }

  lemma NextByte(b: byte)
    requires b < 255
    ensures (b + 1) as nat == b as nat + 1
  {}

  /** Every number below 256 is the value of some byte. */
  lemma {:induction false} ByteWithValue(m: nat) returns (b: byte)
    requires m < 256
    ensures b as nat == m
    decreases m
  {
    b := 0;
    if m > 0 {
      b := ByteWithValue(m - 1);
      NextByte(b);
      b := b + 1;
    }
  }

  lemma ValueReturns(b: byte)
    ensures (b as nat) as byte == b
  {}

  lemma LowByteValue(n: nat)
    ensures LowByte(n) as nat == n % 256
  {
    var b := ByteWithValue(n % 256);
    ValueReturns(b);
  }
}
