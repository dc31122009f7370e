/**
  Exclusive or of 32-bit words. It is a named function so that equations about it stay
  equations between terms; each law is proved on its own by the bit-vector solver.
 */
module Words {

  /** The number of bits in a byte and in the checksum register. */
  const BYTE: nat := 8
  const WORD: nat := 32

  function Xor(x: bv32, y: bv32): bv32 {
    x ^ y
  }

  function Complement(c: bv32): bv32 {
    !c
  }

  function Half(c: bv32): bv32 {
    c >> 1
  }

  predicate LowBit(c: bv32) {
    c & 1 == 1
  }

  // The group laws, and how the other operators distribute.

  lemma {:induction false} XorAssoc(x: bv32, y: bv32, z: bv32)
    ensures Xor(Xor(x, y), z) == Xor(x, Xor(y, z))
  {}

  lemma {:induction false} XorComm(x: bv32, y: bv32)
    ensures Xor(x, y) == Xor(y, x)
  {}

  lemma {:induction false} XorZero(x: bv32)
    ensures Xor(x, 0) == x == Xor(0, x)
  {}

  lemma {:induction false} XorSelf(x: bv32)
    ensures Xor(x, x) == 0
  {}

  lemma {:induction false} XorIsZero(x: bv32, y: bv32)
    requires Xor(x, y) == 0
    ensures x == y
  {}

  lemma {:induction false} XorCancel(x: bv32, y: bv32)
    ensures Xor(Xor(x, y), y) == x
  {
    XorAssoc(x, y, y);
    XorSelf(y);
    XorZero(x);
  }

  lemma {:induction false} XorSwap(x: bv32, y: bv32, u: bv32, v: bv32)
    ensures Xor(Xor(x, y), Xor(u, v)) == Xor(Xor(x, u), Xor(y, v))
  {
    XorAssoc(x, y, Xor(u, v));
    XorAssoc(y, u, v);
    XorComm(y, u);
    XorAssoc(u, y, v);
    XorAssoc(x, u, Xor(y, v));
  }

  lemma {:induction false} XorLast(x: bv32, y: bv32, p: bv32)
    ensures Xor(Xor(x, p), y) == Xor(Xor(x, y), p)
  {
    XorAssoc(x, p, y);
    XorComm(p, y);
    XorAssoc(x, y, p);
  }

  lemma {:induction false} XorTwice(x: bv32, y: bv32, p: bv32)
    ensures Xor(Xor(x, p), Xor(y, p)) == Xor(x, y)
  {
    XorSwap(x, p, y, p);
    XorSelf(p);
    XorZero(Xor(x, y));
  }

  lemma {:induction false} XorHalf(x: bv32, y: bv32)
    ensures Half(Xor(x, y)) == Xor(Half(x), Half(y))
  {
    calc {
      Half(Xor(x, y));
      (x ^ y) >> 1;
      (x >> 1) ^ (y >> 1);
      Xor(Half(x), Half(y));
    }
  }

  lemma {:induction false} HalfAndLowBit(x: bv32, y: bv32)
    requires Half(x) == Half(y) && LowBit(x) == LowBit(y)
    ensures x == y
  {}

  lemma {:induction false} XorLowBit(x: bv32, y: bv32)
    ensures LowBit(Xor(x, y)) == (LowBit(x) != LowBit(y))
  {}

  lemma {:induction false} ComplementIsXor(x: bv32)
    ensures Complement(x) == Xor(x, 0xffffffff)
  {}

  lemma {:induction false} ComplementTwice(x: bv32)
    ensures Complement(Complement(x)) == x
  {}

  // ---------- byte strings ----------

  function XorBytes(a: seq<bv8>, b: seq<bv8>): (d: seq<bv8>)
    requires |a| == |b|
    ensures |d| == |a| && forall i :: 0 <= i < |a| ==> d[i] == a[i] ^ b[i]
  {
    seq(|a|, i requires 0 <= i < |a| => a[i] ^ b[i])
  }

  lemma {:induction false} XorBytesTwice(a: seq<bv8>, b: seq<bv8>)
    requires |a| == |b|
    ensures XorBytes(XorBytes(a, b), b) == a
  {
    forall i | 0 <= i < |a|
      ensures (a[i] ^ b[i]) ^ b[i] == a[i]
    {
      RawByteTwice(a[i], b[i]);
    }
  }

  lemma {:induction false} RawByteTwice(a: bv8, b: bv8)
    ensures (a ^ b) ^ b == a
  {}
}
