/** Bytes as bits, and their addition. */
module Octets {

  type octet = bv8

  function XorByte(a: octet, b: octet): octet { a ^ b }

  lemma XorCommutes(a: octet, b: octet)
    ensures XorByte(a, b) == XorByte(b, a)
  {}

  lemma XorAssociates(a: octet, b: octet, c: octet)
    ensures XorByte(XorByte(a, b), c) == XorByte(a, XorByte(b, c))
  {}
}
