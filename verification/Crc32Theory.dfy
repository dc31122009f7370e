/**
  What the checksum loop guarantees: it is schoolbook division of the message polynomial,
  it is affine, two messages collide exactly when the generator divides their difference,
  and so no change confined to 32 consecutive bits goes unnoticed.
 */
module Crc32Theory {
  import opened Words
  import opened Crc32Table
  import opened Crc32
  import opened Gf2Division

  // ---------- linearity ----------

  lemma {:induction false} BitWordXor(a: bool, b: bool)
    ensures BitWord(a != b) == Xor(BitWord(a), BitWord(b))
  {}

  lemma {:induction false} BitStepLinear(x: bv32, y: bv32, a: bool, b: bool)
    ensures BitStep(Xor(x, y), a != b) == Xor(BitStep(x, a), BitStep(y, b))
  {
    BitWordXor(a, b);
    XorSwap(x, y, BitWord(a), BitWord(b));
    Shift1Linear(Xor(x, BitWord(a)), Xor(y, BitWord(b)));
  }

  lemma {:induction false} BitRunLinear(x: bv32, y: bv32, a: seq<bool>, b: seq<bool>)
    requires |a| == |b|
    ensures BitRun(Xor(x, y), XorBits(a, b)) == Xor(BitRun(x, a), BitRun(y, b))
    decreases |a|
  {
    if a != [] {
      BitStepLinear(x, y, a[0], b[0]);
      assert XorBits(a, b)[1..] == XorBits(a[1..], b[1..]);
      BitRunLinear(BitStep(x, a[0]), BitStep(y, b[0]), a[1..], b[1..]);
    }
  }

  lemma {:induction false} WordBitsXor(x: bv32, y: bv32, n: nat)
    ensures WordBits(Xor(x, y), n) == XorBits(WordBits(x, n), WordBits(y, n))
    decreases n
  {
    if n > 0 {
      XorHalf(x, y);
      XorLowBit(x, y);
      WordBitsXor(Half(x), Half(y), n - 1);
      XorBitsCons(LowBit(x), WordBits(Half(x), n - 1), LowBit(y), WordBits(Half(y), n - 1));
    }
  }

  lemma {:induction false} WidenXor(x: bv8, y: bv8)
    ensures (x ^ y) as bv32 == Xor(x as bv32, y as bv32)
  {}

  lemma {:induction false} MessageBitsXor(a: seq<bv8>, b: seq<bv8>)
    requires |a| == |b|
    ensures MessageBits(XorBytes(a, b)) == XorBits(MessageBits(a), MessageBits(b))
    decreases |a|
  {
    if a != [] {
      XorBitsConcat(WordBits(a[0] as bv32, BYTE), MessageBits(a[1..]), WordBits(b[0] as bv32, BYTE), MessageBits(b[1..]));
      WidenXor(a[0], b[0]);
      WordBitsXor(a[0] as bv32, b[0] as bv32, BYTE);
      assert XorBytes(a, b)[1..] == XorBytes(a[1..], b[1..]);
      MessageBitsXor(a[1..], b[1..]);
    }
  }

  lemma {:induction false} ComplementOfThree(x: bv32, y: bv32, z: bv32)
    ensures Complement(Xor(Xor(x, y), z)) == Xor(Xor(Complement(x), Complement(y)), Complement(z))
  {
    ComplementIsXor(x);
    ComplementIsXor(y);
    ComplementIsXor(z);
    ComplementIsXor(Xor(Xor(x, y), z));
    XorSwap(x, INITIAL, y, INITIAL);
    XorSwap(Xor(x, y), Xor(INITIAL, INITIAL), z, INITIAL);
    XorCancel(INITIAL, INITIAL);
  }

  /** The checksum is affine: that of the bytewise sum of three messages is the sum of the three checksums. */
  lemma {:induction false} ChecksumAffine(a: seq<bv8>, b: seq<bv8>, c: seq<bv8>)
    requires |a| == |b| == |c|
    ensures Checksum(XorBytes(XorBytes(a, b), c)) == Xor(Xor(Checksum(a), Checksum(b)), Checksum(c))
  {
    if a == [] {
      XorZero(0);
    } else {
      var x, y, z := Fold(INITIAL, a), Fold(INITIAL, b), Fold(INITIAL, c);
      FoldIsBitRun(INITIAL, a);
      FoldIsBitRun(INITIAL, b);
      FoldIsBitRun(INITIAL, c);
      FoldIsBitRun(INITIAL, XorBytes(XorBytes(a, b), c));
      MessageBitsXor(a, b);
      MessageBitsXor(XorBytes(a, b), c);
      BitRunLinear(INITIAL, INITIAL, MessageBits(a), MessageBits(b));
      BitRunLinear(Xor(INITIAL, INITIAL), INITIAL, MessageBits(XorBytes(a, b)), MessageBits(c));
      XorCancel(INITIAL, INITIAL);
      ComplementOfThree(x, y, z);
    }
  }

  // ---------- the register divides ----------

  /** The coefficients of the generator below its leading x^32, highest power first. */
  const GENERATOR: seq<bool> := WordBits(POLYNOMIAL, WORD)

  /** A register that covers t keeps the difference in it visible for as long as t is not zero. */
  predicate Covers(d: bv32, t: bv32) {
    d >= t && t <= 0x80000000
  }

  lemma {:induction false} WordBitsAt(w: bv32, n: nat, i: nat)
    requires i < n
    ensures WordBits(w, n)[i] == LowBit(DropBits(w, i))
    decreases n
  {
    if i > 0 {
      WordBitsAt(Half(w), n - 1, i - 1);
    }
  }

  lemma {:induction false} DropAll(w: bv32)
    ensures DropBits(w, WORD) == 0
  {
    DropByte(w);
    DropMore(w, BYTE, 24);
    DropMore(w >> 8, BYTE, 16);
    DropMore((w >> 8) >> 8, BYTE, BYTE);
    DropByte(w >> 8);
    DropByte((w >> 8) >> 8);
    DropByte(((w >> 8) >> 8) >> 8);
  }

  lemma {:induction false} DropByte(w: bv32)
    ensures DropBits(w, BYTE) == w >> 8
  {
    assert DropBits(w, 8) == Half(Half(Half(Half(Half(Half(Half(Half(w))))))));
  }

  lemma {:induction false} DropMore(w: bv32, m: nat, n: nat)
    ensures DropBits(w, m + n) == DropBits(DropBits(w, m), n)
    decreases m
  {
    if m > 0 {
      DropMore(Half(w), m - 1, n);
    }
  }

  lemma {:induction false} HalvedBits(w: bv32, i: nat)
    requires i < 32
    ensures WordBits(Half(w), WORD)[i] == (i < 31 && WordBits(w, WORD)[i + 1])
  {
    WordBitsAt(Half(w), 32, i);
    if i < 31 {
      WordBitsAt(w, 32, i + 1);
    } else {
      DropAll(w);
    }
  }

  lemma {:induction false} SubtractedBits(v: bv32, i: nat)
    requires i < 32
    ensures WordBits(Xor(v, POLYNOMIAL), WORD)[i] == (WordBits(v, WORD)[i] != GENERATOR[i])
  {
    WordBitsXor(v, POLYNOMIAL, WORD);
  }

  /** The bits of a word after one division step. */
  lemma {:induction false} ShiftedBits(w: bv32, i: nat)
    requires i < 32
    ensures WordBits(Shift1(w), WORD)[i] ==
            ((i < 31 && WordBits(w, WORD)[i + 1]) != (LowBit(w) && GENERATOR[i]))
  {
    HalvedBits(w, i);
    SubtractedBits(Half(w), i);
  }

  lemma {:induction false} FlipLowBit(c: bv32, bit: bool)
    ensures Half(Xor(c, BitWord(bit))) == Half(c)
    ensures LowBit(Xor(c, BitWord(bit))) == (LowBit(c) != bit)
  {}

  lemma {:induction false} BitsAfterFlip(c: bv32, bit: bool)
    ensures WordBits(c, WORD)[0] == LowBit(c)
    ensures WordBits(Xor(c, BitWord(bit)), WORD)[1..] == WordBits(c, WORD)[1..]
  {
    FlipLowBit(c, bit);
  }

  lemma {:induction false} BitStepReduces(c: bv32, m: seq<bool>)
    requires m != []
    ensures Reduce(GENERATOR, Dividend(WordBits(c, WORD), m)) == Dividend(WordBits(BitStep(c, m[0]), WORD), m[1..])
  {
    var w := Xor(c, BitWord(m[0]));
    FlipLowBit(c, m[0]);
    BitsAfterFlip(c, m[0]);
    var r, r' := WordBits(c, WORD), WordBits(BitStep(c, m[0]), WORD);
    forall i | 0 <= i < 32
      ensures r'[i] == ((i + 1 < 32 && r[i + 1]) != (r[0] != m[0] && GENERATOR[i]))
    {
      ShiftedBits(w, i);
    }
    RegisterStep(GENERATOR, r, r', m);
  }

  /** The bit-serial register holds the remainder of everything it has read. */
  lemma {:induction false} BitRunIsRemainder(c: bv32, m: seq<bool>)
    ensures WordBits(BitRun(c, m), WORD) == Remainder(GENERATOR, Dividend(WordBits(c, WORD), m))
    decreases |m|
  {
    if m == [] {
      assert Dividend(WordBits(c, WORD), m) == WordBits(c, WORD);
    } else {
      BitStepReduces(c, m);
      BitRunIsRemainder(BitStep(c, m[0]), m[1..]);
    }
  }

  /** The message polynomial times x^32, with its first 32 coefficients complemented. */
  ghost function Preset(m: seq<bool>): (d: seq<bool>)
    ensures |d| == |m| + 32
    ensures forall i :: 0 <= i < |d| ==> d[i] == ((i < |m| && m[i]) != (i < 32))
  {
    seq(|m| + 32, i requires 0 <= i < |m| + 32 => (i < |m| && m[i]) != (i < 32))
  }

  lemma {:induction false} WordBitsSplit(w: bv32, m: nat, n: nat)
    ensures WordBits(w, m + n) == WordBits(w, m) + WordBits(DropBits(w, m), n)
    decreases m
  {
    if m > 0 {
      WordBitsSplit(Half(w), m - 1, n);
    }
  }

  predicate AllOnes(w: bv32) {
    w & (w + 1) == 0
  }

  predicate AtLeast(w: bv32, t: bv32) {
    w >= t
  }

  lemma {:induction false} HalfKeeps(w: bv32, t: bv32)
    requires AllOnes(w) && AtLeast(w, t)
    ensures AllOnes(Half(w)) && AtLeast(Half(w), Half(t))
  {}

  lemma {:induction false} DropKeeps(w: bv32, t: bv32, n: nat)
    requires AllOnes(w) && AtLeast(w, t)
    ensures AllOnes(DropBits(w, n)) && AtLeast(DropBits(w, n), DropBits(t, n))
    decreases n
  {
    if n > 0 {
      HalfKeeps(w, t);
      DropKeeps(Half(w), Half(t), n - 1);
    }
  }

  lemma {:induction false} OnesBits(i: nat)
    requires i < 32
    ensures WordBits(INITIAL, WORD)[i]
  {
    WordBitsAt(INITIAL, WORD, i);
    DropKeeps(INITIAL, 0x80000000, i);
    TopBitLasts(i);
    LowBitOfOnes(DropBits(INITIAL, i), DropBits(0x80000000, i));
  }

  lemma {:induction false} LowBitOfOnes(w: bv32, t: bv32)
    requires AllOnes(w) && AtLeast(w, t) && t != 0
    ensures LowBit(w)
  {}

  /**
    The whole checksum: complement the first 32 bits of the message, multiply by x^32,
    divide by the generator, complement the remainder.
   */
  lemma {:induction false} ChecksumIsRemainder(s: seq<bv8>)
    ensures WordBits(Complement(Checksum(s)), WORD) == Remainder(GENERATOR, Preset(MessageBits(s)))
  {
    var m := MessageBits(s);
    assert Complement(INITIAL) == 0;
    FoldIsBitRun(INITIAL, s);
    BitRunIsRemainder(INITIAL, m);
    forall i | 0 <= i < 32 ensures WordBits(INITIAL, WORD)[i] {
      OnesBits(i);
    }
    assert Dividend(WordBits(INITIAL, WORD), m) == Preset(m);
    ComplementTwice(Fold(INITIAL, s));
  }

  // ---------- when two messages collide ----------

  ghost function Difference(a: seq<bv8>, b: seq<bv8>): (d: seq<bool>)
    requires |a| == |b|
    ensures |d| == 8 * |a|
  {
    XorBits(MessageBits(a), MessageBits(b))
  }

  lemma {:induction false} WordFromBits(x: bv32, y: bv32, n: nat)
    requires WordBits(x, n) == WordBits(y, n) && DropBits(x, n) == DropBits(y, n)
    ensures x == y
    decreases n
  {
    if n > 0 {
      assert WordBits(x, n)[1..] == WordBits(y, n)[1..];
      assert WordBits(x, n)[0] == WordBits(y, n)[0];
      WordFromBits(Half(x), Half(y), n - 1);
      HalfAndLowBit(x, y);
    }
  }

  lemma {:induction false} ZeroBits(n: nat)
    ensures WordBits(0, n) == Zeros(n)
    decreases n
  {
    if n > 0 {
      ZeroBits(n - 1);
    }
  }

  lemma {:induction false} ByteFromBits(x: bv8, y: bv8)
    requires WordBits(x as bv32, BYTE) == WordBits(y as bv32, BYTE)
    ensures x == y
  {
    ShortWord(x);
    ShortWord(y);
    WordFromBits(x as bv32, y as bv32, BYTE);
  }

  lemma {:induction false} FirstByteBits(s: seq<bv8>)
    requires s != []
    ensures MessageBits(s)[..8] == WordBits(s[0] as bv32, BYTE) && MessageBits(s)[8..] == MessageBits(s[1..])
  {}

  lemma {:induction false} MessageBitsInjective(a: seq<bv8>, b: seq<bv8>)
    requires |a| == |b| && MessageBits(a) == MessageBits(b)
    ensures a == b
    decreases |a|
  {
    if a != [] {
      FirstByteBits(a);
      FirstByteBits(b);
      ByteFromBits(a[0], b[0]);
      MessageBitsInjective(a[1..], b[1..]);
      assert a == [a[0]] + a[1..] && b == [b[0]] + b[1..];
    }
  }

  /** A collision is a difference that leaves the zero register at zero. */
  lemma {:induction false} CollisionIffSilent(a: seq<bv8>, b: seq<bv8>)
    requires |a| == |b|
    ensures Checksum(a) == Checksum(b) <==> BitRun(0, Difference(a, b)) == 0
  {
    if a != [] {
      var x, y := Fold(INITIAL, a), Fold(INITIAL, b);
      FoldIsBitRun(INITIAL, a);
      FoldIsBitRun(INITIAL, b);
      BitRunLinear(INITIAL, INITIAL, MessageBits(a), MessageBits(b));
      XorSelf(INITIAL);
      XorSelf(x);
      ComplementTwice(x);
      ComplementTwice(y);
      if Xor(x, y) == 0 {
        XorIsZero(x, y);
      }
    }
  }

  /** Two messages of one length collide exactly when the generator divides their difference. */
  lemma {:induction false} CollisionIffDivisible(a: seq<bv8>, b: seq<bv8>)
    requires |a| == |b|
    ensures Checksum(a) == Checksum(b) <==> Remainder(GENERATOR, Difference(a, b) + Zeros(32)) == Zeros(32)
  {
    var d := Difference(a, b);
    CollisionIffSilent(a, b);
    BitRunIsRemainder(0, d);
    ZeroBits(WORD);
    assert Dividend(WordBits(0, WORD), d) == d + Zeros(32);
    if WordBits(BitRun(0, d), WORD) == Zeros(32) {
      DropAll(BitRun(0, d));
      DropAll(0);
      WordFromBits(BitRun(0, d), 0, WORD);
    }
  }

  // ---------- bursts ----------

  lemma {:induction false} ZeroRun(c: bv32, n: nat)
    ensures BitRun(c, Zeros(n)) == 0 <==> c == 0
    decreases n
  {
    if n > 0 {
      assert Zeros(n)[1..] == Zeros(n - 1);
      XorZero(c);
      ZeroRun(BitStep(c, false), n - 1);
      assert Shift1(0) == 0;
      if Shift1(c) == 0 {
        Shift1Injective(c, 0);
      }
    }
  }

  lemma {:induction false} BitStepCovers(d: bv32, t: bv32, bit: bool)
    requires Covers(d, t)
    ensures Covers(BitStep(d, bit), Half(t))
  {}

  /** A difference that has reached the high bits takes a step per bit to leave the register. */
  lemma {:induction false} RunCovers(d: bv32, t: bv32, bits: seq<bool>)
    requires Covers(d, t)
    ensures Covers(BitRun(d, bits), DropBits(t, |bits|))
    decreases |bits|
  {
    if bits != [] {
      BitStepCovers(d, t, bits[0]);
      RunCovers(BitStep(d, bits[0]), Half(t), bits[1..]);
    }
  }

  lemma {:induction false} DropZero(n: nat)
    ensures DropBits(0, n) == 0
    decreases n
  {
    if n > 0 {
      DropZero(n - 1);
    }
  }

  lemma {:induction false} DropSeven(w: bv32)
    requires w == 0x80
    ensures DropBits(w, 7) != 0
  {
    assert DropBits(w, 7) == Half(Half(Half(Half(Half(Half(Half(w)))))));
  }

  lemma {:induction false} TopBitLasts(n: nat)
    requires n <= 31
    ensures DropBits(0x80000000, n) != 0
  {
    DropMore(0x80000000, n, 31 - n);
    DropZero(31 - n);
    DropMore(0x80000000, BYTE, 23);
    DropMore(0x00800000, BYTE, 15);
    DropMore(0x00008000, BYTE, 7);
    DropByte(0x80000000);
    DropByte(0x00800000);
    DropByte(0x00008000);
    DropSeven(0x00000080);
  }

  /** No non-zero pattern of at most 32 bits leaves the zero register at zero. */
  lemma {:induction false} ShortBurst(w: seq<bool>)
    requires |w| <= 32
    ensures BitRun(0, w) == 0 <==> w == Zeros(|w|)
    decreases |w|
  {
    if w != [] {
      XorZero(0);
      if w[0] {
        assert BitStep(0, true) == POLYNOMIAL;
        RunCovers(POLYNOMIAL, 0x80000000, w[1..]);
        TopBitLasts(|w| - 1);
      } else {
        assert BitStep(0, false) == 0;
        ShortBurst(w[1..]);
        assert w == [false] + w[1..];
        assert Zeros(|w|) == [false] + Zeros(|w| - 1);
      }
    }
  }

  lemma {:induction false} GeneratorSilent()
    ensures |GENERATOR| == 32 && BitRun(POLYNOMIAL, GENERATOR) == 0
  {
    FeedWord(POLYNOMIAL, POLYNOMIAL, WORD);
    XorSelf(POLYNOMIAL);
    DropAll(POLYNOMIAL);
    ShiftZero(WORD);
    XorSelf(0);
  }

  lemma {:induction false} ShiftZero(n: nat)
    ensures Shift(0, n) == 0
    decreases n
  {
    if n > 0 {
      ShiftZero(n - 1);
    }
  }

  /** A pattern of 33 bits is silent exactly when it is zero or the generator itself. */
  lemma {:induction false} SameAsGenerator(w: seq<bool>)
    requires |w| == 32
    ensures XorBits(w, GENERATOR) == Zeros(32) <==> w == GENERATOR
  {
    if XorBits(w, GENERATOR) == Zeros(32) {
      assert forall i :: 0 <= i < 32 ==> !XorBits(w, GENERATOR)[i];
    }
  }

  lemma {:induction false} BurstAfterOne(w: seq<bool>)
    requires |w| == 32
    ensures BitRun(POLYNOMIAL, w) == 0 <==> w == GENERATOR
  {
    GeneratorSilent();
    BitRunLinear(POLYNOMIAL, POLYNOMIAL, w, GENERATOR);
    XorSelf(POLYNOMIAL);
    XorZero(BitRun(POLYNOMIAL, w));
    ShortBurst(XorBits(w, GENERATOR));
    SameAsGenerator(w);
  }

  lemma {:induction false} Burst33(w: seq<bool>)
    requires |w| == 33
    ensures BitRun(0, w) == 0 <==> (w == Zeros(33) || w == [true] + GENERATOR)
  {
    XorZero(0);
    if w[0] {
      assert BitStep(0, true) == POLYNOMIAL;
      BurstAfterOne(w[1..]);
      assert w == [true] + w[1..];
    } else {
      assert BitStep(0, false) == 0;
      ShortBurst(w[1..]);
      assert w == [false] + w[1..] && Zeros(33) == [false] + Zeros(32);
    }
  }

  ghost predicate Confined(d: seq<bool>, i: nat, n: nat)
    requires i + n <= |d|
  {
    d == Zeros(i) + d[i..i + n] + Zeros(|d| - i - n)
  }

  lemma {:induction false} RunConfined(d: seq<bool>, i: nat, n: nat)
    requires i + n <= |d| && Confined(d, i, n)
    ensures BitRun(0, d) == 0 <==> BitRun(0, d[i..i + n]) == 0
  {
    var w, rest := d[i..i + n], Zeros(|d| - i - n);
    assert d == Zeros(i) + (w + rest);
    BitRunConcat(0, Zeros(i), w + rest);
    ZeroRun(0, i);
    BitRunConcat(0, w, rest);
    ZeroRun(BitRun(0, w), |d| - i - n);
  }

  lemma {:induction false} BurstSilentIff(d: seq<bool>, i: nat)
    requires i + 33 <= |d| && Confined(d, i, 33)
    ensures BitRun(0, d) == 0 <==> (d[i..i + 33] == Zeros(33) || d[i..i + 33] == [true] + GENERATOR)
  {
    RunConfined(d, i, 33);
    Burst33(d[i..i + 33]);
  }

  /**
    What a change confined to 33 consecutive bits does: it is missed exactly when it is
    the generator polynomial, so every change confined to 32 bits is caught.
   */
  lemma {:induction false} BurstMissedIffGenerator(a: seq<bv8>, b: seq<bv8>, i: nat)
    requires |a| == |b| && a != b && i + 33 <= 8 * |a|
    requires Confined(Difference(a, b), i, 33)
    ensures Checksum(a) == Checksum(b) <==> Difference(a, b)[i..i + 33] == [true] + GENERATOR
  {
    var d := Difference(a, b);
    CollisionIffSilent(a, b);
    BurstSilentIff(d, i);
    if d[i..i + 33] == Zeros(33) {
      NoDifference(a, b);
    }
  }

  lemma {:induction false} NoDifference(a: seq<bv8>, b: seq<bv8>)
    requires |a| == |b| && forall i :: 0 <= i < 8 * |a| ==> !Difference(a, b)[i]
    ensures a == b
  {
    assert forall i :: 0 <= i < 8 * |a| ==> Difference(a, b)[i] == (MessageBits(a)[i] != MessageBits(b)[i]);
    MessageBitsInjective(a, b);
  }

  lemma {:induction false} BurstCaught(a: seq<bv8>, b: seq<bv8>, i: nat, n: nat)
    requires |a| == |b| && a != b && i + n <= 8 * |a| && n <= 32
    requires Confined(Difference(a, b), i, n)
    ensures Checksum(a) != Checksum(b)
  {
    var d := Difference(a, b);
    CollisionIffSilent(a, b);
    RunConfined(d, i, n);
    ShortBurst(d[i..i + n]);
    if d[i..i + n] == Zeros(n) {
      NoDifference(a, b);
    }
  }

  // ---------- whole bytes ----------

  lemma {:induction false} MessageBitsConcat(s: seq<bv8>, t: seq<bv8>)
    ensures MessageBits(s + t) == MessageBits(s) + MessageBits(t)
    decreases |s|
  {
    if s == [] {
      assert s + t == t;
    } else {
      assert (s + t)[0] == s[0] && (s + t)[1..] == s[1..] + t;
      MessageBitsConcat(s[1..], t);
    }
  }

  lemma {:induction false} DifferenceInWindow(p: seq<bv8>, a: seq<bv8>, b: seq<bv8>, s: seq<bv8>)
    requires |a| == |b|
    ensures Difference(p + a + s, p + b + s) ==
            Zeros(8 * |p|) + XorBits(MessageBits(a), MessageBits(b)) + Zeros(8 * |s|)
  {
    MessageBitsConcat(p + a, s);
    MessageBitsConcat(p, a);
    MessageBitsConcat(p + b, s);
    MessageBitsConcat(p, b);
    XorCommonEnds(MessageBits(p), MessageBits(a), MessageBits(b), MessageBits(s));
  }

  lemma {:induction false} ConfinedPieces(m: nat, w: seq<bool>, n: nat)
    ensures Confined(Zeros(m) + w + Zeros(n), m, |w|)
  {
    assert (Zeros(m) + w + Zeros(n))[m..m + |w|] == w;
  }

  /** Messages that differ, and only inside a window of four consecutive bytes, never collide. */
  lemma {:induction false} FourByteWindow(p: seq<bv8>, a: seq<bv8>, b: seq<bv8>, s: seq<bv8>)
    requires |a| == |b| <= 4 && a != b
    ensures Checksum(p + a + s) != Checksum(p + b + s)
  {
    var x, y := p + a + s, p + b + s;
    assert x[|p|..|p| + |a|] == a && y[|p|..|p| + |a|] == b;
    DifferenceInWindow(p, a, b, s);
    ConfinedPieces(8 * |p|, XorBits(MessageBits(a), MessageBits(b)), 8 * |s|);
    BurstCaught(x, y, 8 * |p|, 8 * |a|);
  }

  /** The word whose bytes, lowest first, are the given ones. */
  function LittleEndianWord(b: seq<bv8>): (w: bv32)
    requires |b| <= 4
    ensures |b| == 0 ==> w == 0
    ensures |b| == 1 ==> w <= 0xff
    ensures |b| == 2 ==> w <= 0xffff
    ensures |b| == 3 ==> w <= 0xffffff
  {
    if b == [] then 0 else (LittleEndianWord(b[1..]) << 8) | b[0] as bv32
  }

  lemma {:induction false} LowByteBits(w: bv32, b: bv8)
    requires w & 0xff == b as bv32
    ensures WordBits(w, BYTE) == WordBits(b as bv32, BYTE)
  {
    LowByteBitsUnrolled(w, b as bv32);
  }

  lemma {:induction false} LowByteBitsUnrolled(w: bv32, v: bv32)
    requires w & 0xff == v & 0xff
    ensures WordBits(w, 8) == WordBits(v, 8)
  {
    forall i | 0 <= i < 8
      ensures WordBits(w, 8)[i] == WordBits(v, 8)[i]
    {
      WordBitsAt(w, 8, i);
      WordBitsAt(v, 8, i);
    }
  }

  lemma {:induction false} PeelByte(w: bv32, b: bv8, n: nat)
    requires w & 0xff == b as bv32
    ensures WordBits(w, BYTE + n) == WordBits(b as bv32, BYTE) + WordBits(w >> 8, n)
  {
    WordBitsSplit(w, BYTE, n);
    DropByte(w);
    LowByteBits(w, b);
  }

  lemma {:induction false} FirstByteOfWord(b: seq<bv8>)
    requires 1 <= |b| <= 4
    ensures LittleEndianWord(b) & 0xff == b[0] as bv32
    ensures LittleEndianWord(b) >> 8 == LittleEndianWord(b[1..])
  {}

  lemma {:induction false} WordOfBytes(b: seq<bv8>)
    requires |b| <= 4
    ensures MessageBits(b) == WordBits(LittleEndianWord(b), 8 * |b|)
    decreases |b|
  {
    if b != [] {
      FirstByteOfWord(b);
      PeelByte(LittleEndianWord(b), b[0], 8 * |b| - 8);
      WordOfBytes(b[1..]);
    }
  }

  /** Reading four bytes is adding their word to the register and dividing 32 times. */
  lemma {:induction false} FourBytes(c: bv32, b: seq<bv8>)
    requires |b| == 4
    ensures BitRun(c, MessageBits(b)) == Shift(Xor(c, LittleEndianWord(b)), WORD)
  {
    var w := LittleEndianWord(b);
    WordOfBytes(b);
    FeedWord(c, w, WORD);
    DropAll(w);
    XorZero(Shift(Xor(c, w), WORD));
  }

  /** The register after two words, from zero. */
  function TwoWordRun(lo: bv32, hi: bv32): bv32 {
    Shift(Xor(Shift(lo, WORD), hi), WORD)
  }

  lemma {:induction false} EightBytes(lo: seq<bv8>, hi: seq<bv8>)
    requires |lo| == |hi| == 4
    ensures BitRun(0, MessageBits(lo + hi)) == TwoWordRun(LittleEndianWord(lo), LittleEndianWord(hi))
  {
    MessageBitsConcat(lo, hi);
    BitRunConcat(0, MessageBits(lo), MessageBits(hi));
    FourBytes(0, lo);
    XorZero(LittleEndianWord(lo));
    FourBytes(Shift(LittleEndianWord(lo), WORD), hi);
  }

  lemma {:induction false} XorBalance(x: bv32, h: bv32, x': bv32, h': bv32)
    ensures Xor(x, h) == Xor(x', h') <==> Xor(h, h') == Xor(x, x')
  {
    XorSwap(x, h, x', h');
    XorSelf(Xor(x, h));
    if Xor(x, h) == Xor(x', h') {
      XorIsZero(Xor(x, x'), Xor(h, h'));
    }
    if Xor(h, h') == Xor(x, x') {
      XorSelf(Xor(x, x'));
      XorIsZero(Xor(x, h), Xor(x', h'));
    }
  }

  lemma {:induction false} TwoWordRunsAgree(l: bv32, h: bv32, l': bv32, h': bv32)
    ensures TwoWordRun(l, h) == TwoWordRun(l', h') <==> Xor(h, h') == Shift(Xor(l, l'), WORD)
  {
    var x, x' := Shift(l, WORD), Shift(l', WORD);
    ShiftLinear(l, l', WORD);
    XorBalance(x, h, x', h');
    if Shift(Xor(x, h), WORD) == Shift(Xor(x', h'), WORD) {
      ShiftInjective(Xor(x, h), Xor(x', h'), WORD);
    }
  }

  lemma {:induction false} SilentPair(a: seq<bool>, b: seq<bool>)
    requires |a| == |b|
    ensures BitRun(0, XorBits(a, b)) == 0 <==> BitRun(0, a) == BitRun(0, b)
  {
    BitRunLinear(0, 0, a, b);
    XorSelf(0);
    XorSelf(BitRun(0, a));
    if Xor(BitRun(0, a), BitRun(0, b)) == 0 {
      XorIsZero(BitRun(0, a), BitRun(0, b));
    }
  }

  /** Whether a change in a window is missed does not depend on what surrounds the window. */
  lemma {:induction false} WindowCollision(p: seq<bv8>, a: seq<bv8>, b: seq<bv8>, s: seq<bv8>)
    requires |a| == |b|
    ensures Checksum(p + a + s) == Checksum(p + b + s) <==>
            BitRun(0, MessageBits(a)) == BitRun(0, MessageBits(b))
  {
    var w := XorBits(MessageBits(a), MessageBits(b));
    CollisionIffSilent(p + a + s, p + b + s);
    DifferenceInWindow(p, a, b, s);
    ConfinedPieces(8 * |p|, w, 8 * |s|);
    var d := Difference(p + a + s, p + b + s);
    RunConfined(d, 8 * |p|, 8 * |a|);
    assert d[8 * |p|..8 * |p| + 8 * |a|] == w;
    SilentPair(MessageBits(a), MessageBits(b));
  }

  /**
    Exactly which changes inside eight consecutive bytes are missed: the difference of the
    last four bytes must be what 32 division steps make of the difference of the first four.
   */
  lemma {:induction false} EightByteWindow(p: seq<bv8>, lo: seq<bv8>, hi: seq<bv8>, lo': seq<bv8>, hi': seq<bv8>, s: seq<bv8>)
    requires |lo| == |hi| == |lo'| == |hi'| == 4
    ensures Checksum(p + (lo + hi) + s) == Checksum(p + (lo' + hi') + s) <==>
            Xor(LittleEndianWord(hi), LittleEndianWord(hi')) ==
            Shift(Xor(LittleEndianWord(lo), LittleEndianWord(lo')), WORD)
  {
    WindowCollision(p, lo + hi, lo' + hi', s);
    EightBytes(lo, hi);
    EightBytes(lo', hi');
    TwoWordRunsAgree(LittleEndianWord(lo), LittleEndianWord(hi), LittleEndianWord(lo'), LittleEndianWord(hi'));
  }

  // ---------- a known answer ----------

  lemma {:induction false} FoldOne(c: bv32, b: bv8, s: seq<bv8>)
    ensures Fold(c, [b] + s) == Fold(ByteStep(c, b), s)
  {
    assert ([b] + s)[1..] == s;
  }

  lemma {:induction false} FoldThree(c: bv32, x: bv8, y: bv8, z: bv8, s: seq<bv8>)
    ensures Fold(c, [x, y, z] + s) == Fold(ByteStep(ByteStep(ByteStep(c, x), y), z), s)
  {
    FoldOne(c, x, [y] + ([z] + s));
    FoldOne(ByteStep(c, x), y, [z] + s);
    FoldOne(ByteStep(ByteStep(c, x), y), z, s);
    assert [x, y, z] + s == [x] + ([y] + ([z] + s));
  }

  lemma {:induction false} CheckA()
    ensures ByteStep(ByteStep(ByteStep(0xffffffff, 0x31), 0x32), 0x33) == 0x77b79c2d
  {
    assert ByteStep(0xffffffff, 0x31) == 0x7c231048;
    assert ByteStep(0x7c231048, 0x32) == 0xb0acbb32;
    assert ByteStep(0xb0acbb32, 0x33) == 0x77b79c2d;
  }

  lemma {:induction false} CheckB()
    ensures ByteStep(ByteStep(ByteStep(0x77b79c2d, 0x34), 0x35), 0x36) == 0xf68d2c9e
  {
    assert ByteStep(0x77b79c2d, 0x34) == 0x641c1f5c;
    assert ByteStep(0x641c1f5c, 0x35) == 0x340ac5e3;
    assert ByteStep(0x340ac5e3, 0x36) == 0xf68d2c9e;
  }

  lemma {:induction false} CheckC()
    ensures ByteStep(ByteStep(ByteStep(0xf68d2c9e, 0x37), 0x38), 0x39) == 0x340bc6d9
  {
    assert ByteStep(0xf68d2c9e, 0x37) == 0xaffc9660;
    assert ByteStep(0xaffc9660, 0x38) == 0x651f2550;
    assert ByteStep(0x651f2550, 0x39) == 0x340bc6d9;
  }

  /** The check value of this checksum: that of the nine ASCII digits 1 to 9. */
  lemma {:induction false} CheckValue(s: seq<bv8>)
    requires s == [0x31, 0x32, 0x33] + ([0x34, 0x35, 0x36] + ([0x37, 0x38, 0x39] + []))
    ensures Checksum(s) == 0xCBF43926
  {
    CheckA();
    CheckB();
    CheckC();
    FoldThree(INITIAL, 0x31, 0x32, 0x33, [0x34, 0x35, 0x36] + ([0x37, 0x38, 0x39] + []));
    FoldThree(0x77b79c2d, 0x34, 0x35, 0x36, [0x37, 0x38, 0x39] + []);
    FoldThree(0xf68d2c9e, 0x37, 0x38, 0x39, []);
  }
}
