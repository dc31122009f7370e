/**
  The checksum loop of CacheableHelper.CRC32, its meaning as polynomial division over
  GF(2), and what that meaning lets a caller conclude from equal or different checksums.
 */
module Crc32 {
  import opened Words
  import opened Crc32Table

  const INITIAL: bv32 := 0xffffffff

  // ---------- the loop ----------

  /** What one iteration of the loop makes of the register. */
  function ByteStep(c: bv32, b: bv8): bv32 {
    Xor((c >> 8) & 0x00ffffff, CRC32Table(((c ^ b as bv32) & 0xff) as bv8))
  }

  function Fold(c: bv32, s: seq<bv8>): bv32
    decreases |s|
  {
    if s == [] then c else Fold(ByteStep(c, s[0]), s[1..])
  }

  /** The checksum of a buffer; the empty buffer returns early with 0. */
  function Checksum(s: seq<bv8>): bv32 {
    if s == [] then 0 else Complement(Fold(INITIAL, s))
  }

  method CRC32(buffer: array?<bv8>) returns (crc: bv32)
    ensures crc == if buffer == null then 0 else Checksum(buffer[..])
    ensures buffer == null || buffer.Length == 0 ==> crc == 0
  {
    if buffer == null || buffer.Length == 0 {
      return 0;
    }
    var crc32: bv32 := 0xffffffff;
    var i := 0;
    while i < buffer.Length
      invariant 0 <= i <= buffer.Length
      invariant Fold(crc32, buffer[i..]) == Fold(INITIAL, buffer[..])
    {
      assert buffer[i..][0] == buffer[i] && buffer[i..][1..] == buffer[i + 1..];
      crc32 := Xor((crc32 >> 8) & 0x00ffffff, CRC32Table(((crc32 ^ buffer[i] as bv32) & 0xff) as bv8));
      i := i + 1;
    }
    return Complement(crc32);
  }

  // ---------- messages as bit strings, least significant bit of each byte first ----------

  function BitWord(bit: bool): bv32 {
    if bit then 1 else 0
  }

  function WordBits(w: bv32, n: nat): (bits: seq<bool>)
    ensures |bits| == n
    decreases n
  {
    if n == 0 then [] else [LowBit(w)] + WordBits(Half(w), n - 1)
  }

  function DropBits(w: bv32, n: nat): bv32
    decreases n
  {
    if n == 0 then w else DropBits(Half(w), n - 1)
  }

  function MessageBits(s: seq<bv8>): (bits: seq<bool>)
    ensures |bits| == 8 * |s|
  {
    if s == [] then [] else WordBits(s[0] as bv32, BYTE) + MessageBits(s[1..])
  }

  /** One step of the bit-serial register of section 8 of RFC 1952. */
  function BitStep(c: bv32, bit: bool): bv32 {
    Shift1(Xor(c, BitWord(bit)))
  }

  function BitRun(c: bv32, bits: seq<bool>): bv32
    decreases |bits|
  {
    if bits == [] then c else BitRun(BitStep(c, bits[0]), bits[1..])
  }

  lemma {:induction false} BitRunConcat(c: bv32, a: seq<bool>, b: seq<bool>)
    ensures BitRun(c, a + b) == BitRun(BitRun(c, a), b)
    decreases |a|
  {
    if a == [] {
      assert a + b == b;
    } else {
      assert (a + b)[0] == a[0] && (a + b)[1..] == a[1..] + b;
      BitRunConcat(BitStep(c, a[0]), a[1..], b);
    }
  }

  // ---------- a whole word at a time ----------

  lemma {:induction false} SplitLowBit(w: bv32)
    ensures Xor(BitWord(LowBit(w)), w & 0xfffffffe) == w
    ensures Shift1(w & 0xfffffffe) == Half(w)
  {}

  /** Feeding the low bit and keeping the rest for later is one step on the combined word. */
  lemma {:induction false} FeedBit(c: bv32, w: bv32)
    ensures Shift1(Xor(c, w)) == Xor(BitStep(c, LowBit(w)), Half(w))
  {
    var low, high := BitWord(LowBit(w)), w & 0xfffffffe;
    SplitLowBit(w);
    XorAssoc(c, low, high);
    Shift1Linear(Xor(c, low), high);
  }

  lemma {:induction false} FeedWord(c: bv32, w: bv32, n: nat)
    ensures BitRun(c, WordBits(w, n)) == Xor(Shift(Xor(c, w), n), DropBits(w, n))
    decreases n
  {
    if n == 0 {
      XorCancel(c, w);
    } else {
      FeedBit(c, w);
      FeedWord(BitStep(c, LowBit(w)), Half(w), n - 1);
      assert WordBits(w, n)[1..] == WordBits(Half(w), n - 1);
    }
  }

  lemma {:induction false} ShortWord(b: bv8)
    ensures DropBits(b as bv32, BYTE) == 0
  {
    assert DropBits(b as bv32, 8) ==
      Half(Half(Half(Half(Half(Half(Half(Half(b as bv32))))))));
  }

  lemma {:induction false} HighBytes(y: bv32)
    requires y & 0xff == 0
    ensures Shift(y, BYTE) == y >> 8
  {
    ShiftByte(y);
  }

  function HighPart(x: bv32): bv32 {
    x & 0xffffff00
  }

  function LowPart(x: bv32): bv8 {
    (x & 0xff) as bv8
  }

  lemma {:induction false} SplitLowByte(x: bv32)
    ensures Xor(HighPart(x), LowPart(x) as bv32) == x
  {}

  lemma {:induction false} HighPartShifted(c: bv32, b: bv8)
    ensures Shift(HighPart(Xor(c, b as bv32)), BYTE) == (c >> 8) & 0x00ffffff
  {
    HighBytes(HighPart(Xor(c, b as bv32)));
  }

  /** One table look-up is eight division steps on the register with the byte added in. */
  lemma {:induction false} ByteStepIsShift(c: bv32, b: bv8)
    ensures ByteStep(c, b) == Shift(Xor(c, b as bv32), BYTE)
  {
    var x := Xor(c, b as bv32);
    SplitLowByte(x);
    HighPartShifted(c, b);
    TableIsDivision(LowPart(x));
    ShiftLinear(HighPart(x), LowPart(x) as bv32, BYTE);
  }

  lemma {:induction false} ByteStepIsBitRun(c: bv32, b: bv8)
    ensures ByteStep(c, b) == BitRun(c, WordBits(b as bv32, BYTE))
  {
    ByteStepIsShift(c, b);
    FeedWord(c, b as bv32, BYTE);
    ShortWord(b);
    XorZero(Shift(Xor(c, b as bv32), BYTE));
  }

  /** The table-driven loop computes what the bit-serial register computes, on every buffer. */
  lemma {:induction false} FoldIsBitRun(c: bv32, s: seq<bv8>)
    ensures Fold(c, s) == BitRun(c, MessageBits(s))
    decreases |s|
  {
    if s != [] {
      ByteStepIsBitRun(c, s[0]);
      BitRunConcat(c, WordBits(s[0] as bv32, BYTE), MessageBits(s[1..]));
      FoldIsBitRun(ByteStep(c, s[0]), s[1..]);
    }
  }
}
