/**
  The shift-and-mask loops by which the checksum wrappers take a value apart. A C# integer
  is the mathematical integer it stands for: masking with 0xff is the remainder modulo 256
  and the arithmetic shift right by 8 is the division by 256 that rounds down.
 */
module LittleEndian {
  import opened Integers

  function ToByte(value: int): bv8 {
    (value % 256) as bv8
  }

  /** The n low bytes of the value, lowest first. */
  function LeBytes(value: int, n: nat): (s: seq<bv8>)
    ensures |s| == n
    decreases n
  {
    if n == 0 then [] else [ToByte(value)] + LeBytes(value / 256, n - 1)
  }

  /** The number that a string of bytes, lowest first, stands for. */
  function LeValue(s: seq<bv8>): nat {
    if s == [] then 0 else s[0] as nat + 256 * LeValue(s[1..])
  }

  /** The loop shared by the wrappers of char, short, int and long. */
  method SplitIntoBytes(value: int, numBytes: nat) returns (buffer: array<bv8>)
    ensures fresh(buffer) && buffer[..] == LeBytes(value, numBytes)
  {
    buffer := new bv8[numBytes];
    var rest := value;
    var i := 0;
    while i < numBytes
      invariant 0 <= i <= numBytes
      invariant buffer[..i] + LeBytes(rest, numBytes - i) == LeBytes(value, numBytes)
    {
      ghost var before := buffer[..i];
      buffer[i] := (rest % 256) as bv8;
      rest := rest / 256;
      i := i + 1;
      assert buffer[..i] == before + [buffer[i - 1]];
    }
    assert buffer[..] == buffer[..numBytes];
  }

  lemma {:induction false} SmallMultiple(k: int, m: int)
    ensures m > 0 && -m < k * m < m ==> k == 0
  {}

  lemma {:induction false} ModUnique(v: int, a: int, m: int, t: int)
    requires 0 <= t < m
    ensures v == a * m + t ==> v % m == t && v / m == a
  {
    if v == a * m + t {
      var q, r := v / m, v % m;
      Difference(a, q, m);
      assert (a - q) * m == r - t;
      SmallMultiple(a - q, m);
    }
  }

  lemma {:induction false} Difference(a: int, b: int, m: int)
    ensures (a - b) * m == a * m - b * m
  {}

  lemma {:induction false} SameResidue(x: int, y: int, p: int)
    requires p > 0
    ensures x % p == y % p && -p < x - y < p ==> x == y
  {
    Difference(x / p, y / p, p);
    SmallMultiple(x / p - y / p, p);
  }

  lemma {:induction false} ByteRoundTrip(x: int)
    requires 0 <= x < 256
    ensures (x as bv8) as int == x
  {
    assert x % 256 == x;
  }

  lemma {:induction false} ByteOf(value: int)
    ensures ToByte(value) as int == value % 256
  {
    ByteRoundTrip(value % 256);
  }

  lemma {:induction false} SplitMod(value: int, p: int)
    requires p >= 1
    ensures value % (256 * p) == value % 256 + 256 * ((value / 256) % p)
  {
    var q, r := value / 256, value % 256;
    var a, b := q / p, q % p;
    assert q == p * a + b;
    assert value == 256 * q + r;
    assert 256 * q == a * (256 * p) + 256 * b;
    ModUnique(value, a, 256 * p, 256 * b + r);
  }

  /** The bytes are those of the two's complement: they stand for the value modulo 256^n. */
  lemma {:induction false} LeBytesValue(value: int, n: nat)
    ensures LeValue(LeBytes(value, n)) == value % Pow256(n)
    decreases n
  {
    if n > 0 {
      var s := LeBytes(value, n);
      assert s[1..] == LeBytes(value / 256, n - 1);
      LeBytesValue(value / 256, n - 1);
      ByteOf(value);
      SplitMod(value, Pow256(n - 1));
    }
  }

  lemma {:induction false} Pow256Values()
    ensures Pow256(1) == 0x100 && Pow256(2) == 0x1_0000 && Pow256(4) == 0x1_0000_0000
    ensures Pow256(8) == 0x1_0000_0000_0000_0000
  {
    assert Pow256(3) == 0x100_0000;
    assert Pow256(6) == 0x1_0000_0000_0000;
  }

  /** Values less than 256^n apart, such as any two of one n-byte type, have different bytes. */
  lemma {:induction false} LeBytesInjective(x: int, y: int, n: nat)
    requires -Pow256(n) < x - y < Pow256(n)
    requires LeBytes(x, n) == LeBytes(y, n)
    ensures x == y
  {
    LeBytesValue(x, n);
    LeBytesValue(y, n);
    SameResidue(x, y, Pow256(n));
  }

  lemma {:induction false} LeBytesSplit(x: int, m: nat, n: nat)
    ensures LeBytes(x, m + n) == LeBytes(x, m) + LeBytes(x / Pow256(m), n)
    decreases m
  {
    if m == 0 {
      assert x / 1 == x;
    } else {
      LeBytesSplit(x / 256, m - 1, n);
      DivTwice(x, Pow256(m - 1));
    }
  }

  lemma {:induction false} DivTwice(x: int, p: int)
    requires p >= 1
    ensures x / 256 / p == x / (256 * p)
  {
    var q, r := x / 256, x % 256;
    var a, b := q / p, q % p;
    assert q == p * a + b;
    assert x == 256 * q + r == a * (256 * p) + (256 * b + r);
    ModUnique(x, a, 256 * p, 256 * b + r);
  }

  /** Byte i is digit i of the value in base 256; with arithmetic shifts also for negative values. */
  lemma {:induction false} LeBytesAt(value: int, n: nat, i: nat)
    requires i < n
    ensures LeBytes(value, n)[i] as int == value / Pow256(i) % 256
    decreases i
  {
    if i == 0 {
      ByteOf(value);
      assert value / 1 == value;
    } else {
      LeBytesAt(value / 256, n - 1, i - 1);
      DivTwice(value, Pow256(i - 1));
    }
  }

  /** The bytes s are the n low digits of the value in base 256, lowest first. */
  predicate AreDigits(s: seq<bv8>, value: int, n: nat) {
    |s| == n && forall i :: 0 <= i < n ==> s[i] as int == value / Pow256(i) % 256
  }

  lemma {:induction false} SameByte(a: bv8, b: bv8)
    ensures a as int == b as int ==> a == b
  {
    assert (a as int) as bv8 == a && (b as int) as bv8 == b;
  }

  lemma {:induction false} DigitsAreLeBytes(s: seq<bv8>, value: int, n: nat)
    ensures AreDigits(s, value, n) <==> s == LeBytes(value, n)
  {
    var t := LeBytes(value, n);
    forall i | 0 <= i < n
      ensures t[i] as int == value / Pow256(i) % 256
    {
      LeBytesAt(value, n, i);
    }
    if AreDigits(s, value, n) {
      forall i | 0 <= i < n
        ensures s[i] == t[i]
      {
        SameByte(s[i], t[i]);
      }
    }
  }
}
