/** Bytes under exclusive or, for both error-correcting codes. */
module XorBytes {
  import opened Core

  /** `a ^ b`, named so that proofs can treat it as a group operation. */
  function Xor(a: byte, b: byte): byte {
    a ^ b
  }

  lemma XorAssociates(a: byte, b: byte, c: byte)
    ensures Xor(Xor(a, b), c) == Xor(a, Xor(b, c))
  {
  }

  lemma XorSwaps(a: byte, b: byte, c: byte)
    ensures Xor(Xor(a, b), c) == Xor(Xor(a, c), b)
  {
  }

  lemma XorCancels(a: byte, b: byte)
    ensures Xor(Xor(a, b), b) == a
  {
  }

  lemma XorZero(a: byte)
    ensures Xor(0, a) == a == Xor(a, 0)
  {
  }

  lemma XorEqual(a: byte, b: byte)
    ensures Xor(a, b) == 0 <==> a == b
  {
  }
}
