/**
  The keys that the put/get test generates, and the names under which it stores checksums:
  within the number of keys a type admits no two are equal, so no put overwrites another.
 */
module Keys {
  import opened Integers
  import opened Options
  import opened Sequences
  import opened Checksums

  type Units = seq<CodeUnit>

  predicate IsKeyWrapper(w: Wrapper) {
    w.BooleanWrapper? || w.ByteWrapper? || w.CharacterWrapper? || w.Int16Wrapper? ||
    w.Int32Wrapper? || w.Int64Wrapper? || w.StringWrapper?
  }

  function MaxKeys(w: Wrapper): (n: int)
    requires IsKeyWrapper(w)
    ensures 0 < n < 0x8000_0000
  {
    match w
    case BooleanWrapper => 2
    case ByteWrapper => 0xff
    case CharacterWrapper => 0xffff
    case Int16Wrapper => 0x7fff
    case _ => 0x7fff_ffff
  }

  // ---------- decimal notation ----------

  /** The low digits of n, most significant first. */
  function Padded(n: nat, width: nat): (s: Units)
    ensures |s| == width
    decreases width
  {
    if width == 0 then [] else Padded(n / 10, width - 1) + [48 + n % 10]
  }

  /** ToString("D10") */
  function D10(n: int): Units {
    if n < 0 then [45] + Padded(-n, 10) else Padded(n, 10)
  }

  /** ToString() of a number that is not negative */
  function Decimal(n: nat): (s: Units)
    ensures |s| >= 1
  {
    if n < 10 then [48 + n] else Decimal(n / 10) + [48 + n % 10]
  }

  function Pow10(n: nat): nat {
    if n == 0 then 1 else 10 * Pow10(n - 1)
  }

  lemma {:induction false} PaddedInjective(a: nat, b: nat, width: nat)
    requires a < Pow10(width) && b < Pow10(width) && Padded(a, width) == Padded(b, width)
    ensures a == b
    decreases width
  {
    if width > 0 {
      var s, t := Padded(a, width), Padded(b, width);
      assert s[width - 1] == t[width - 1] && s[..width - 1] == t[..width - 1];
      PaddedInjective(a / 10, b / 10, width - 1);
    }
  }

  lemma {:induction false} DecimalInjective(a: nat, b: nat)
    requires Decimal(a) == Decimal(b)
    ensures a == b
    decreases a
  {
    var s, t := Decimal(a), Decimal(b);
    assert s[|s| - 1] == t[|t| - 1];
    if a >= 10 && b >= 10 {
      assert s[..|s| - 1] == Decimal(a / 10) && t[..|t| - 1] == Decimal(b / 10);
      DecimalInjective(a / 10, b / 10);
    }
  }

  // ---------- keys ----------

  function StringSize(huge: bool, maxSize: int): (n: int)
    requires maxSize > 0
    ensures n >= 11
  {
    if huge then (if maxSize < 0xffff then maxSize + 0x1_0000 else maxSize)
    else (if maxSize < 11 then 11 else maxSize)
  }

  function Filler(unicode: bool): CodeUnit {
    if unicode then 0x0905 else 65
  }

  /** The object that InitKey makes; None when it asserts on the size. */
  function InitKey(w: Wrapper, keyIndex: IntValue, maxSize: IntValue): Option<Obj>
    requires IsKeyWrapper(w)
  {
    match w
    case BooleanWrapper => Some(Bool(keyIndex > 0 && keyIndex % 2 == 1))
    case ByteWrapper => Some(SByte(WrapSigned(keyIndex, 0x100)))
    case CharacterWrapper => Some(Char(keyIndex % 0x1_0000))
    case Int16Wrapper => Some(Int16(WrapSigned(keyIndex, 0x1_0000)))
    case Int32Wrapper => Some(Int32(keyIndex))
    case Int64Wrapper => Some(Int64(keyIndex))
    case StringWrapper(huge, unicode) =>
      if maxSize <= 0 then None
      else if keyIndex == 0 then Some(Str([]))
      else Some(Str(Fill(Filler(unicode), StringSize(huge, maxSize) - 10) + D10(keyIndex)))
  }

  lemma {:induction false} InitKeySucceeds(w: Wrapper, keyIndex: IntValue, maxSize: IntValue)
    requires IsKeyWrapper(w)
    ensures InitKey(w, keyIndex, maxSize).None? <==> w.StringWrapper? && maxSize <= 0
    ensures InitKey(w, keyIndex, maxSize).Some? ==> ChecksumOf(w, InitKey(w, keyIndex, maxSize).value).Some?
  {}

  lemma {:induction false} StringKeyInjective(front: Units, i: IntValue, j: IntValue)
    requires 0 <= i && 0 <= j && front + D10(i) == front + D10(j)
    ensures i == j
  {
    assert (front + D10(i))[|front|..] == D10(i) && (front + D10(j))[|front|..] == D10(j);
    assert Pow10(10) == 10_000_000_000 by {
      assert Pow10(5) == 100_000;
    }
    PaddedInjective(i, j, 10);
  }

  /** Within the number of keys of a type the index is below its range. */
  lemma {:induction false} SmallIndex(w: Wrapper, i: IntValue)
    requires IsKeyWrapper(w) && 0 <= i < MaxKeys(w)
    ensures w.BooleanWrapper? ==> i % 2 == i
    ensures w.ByteWrapper? ==> i % 0x100 == i
    ensures w.CharacterWrapper? || w.Int16Wrapper? ==> i % 0x1_0000 == i
  {}

  /** Distinct indices below the number of keys of the type give distinct keys. */
  lemma {:induction false} InitKeyInjective(w: Wrapper, i: IntValue, j: IntValue, maxSize: IntValue)
    requires IsKeyWrapper(w) && 0 <= i < MaxKeys(w) && 0 <= j < MaxKeys(w)
    requires InitKey(w, i, maxSize).Some? && InitKey(w, i, maxSize) == InitKey(w, j, maxSize)
    ensures i == j
  {
    if w.StringWrapper? {
      if i != 0 && j != 0 {
        StringKeyInjective(Fill(Filler(w.unicode), StringSize(w.huge, maxSize) - 10), i, j);
      }
    } else {
      ScalarKeys(i, maxSize);
      ScalarKeys(j, maxSize);
      SmallIndex(w, i);
      SmallIndex(w, j);
    }
  }

  // ---------- names of the checksum entries ----------

  function FromAscii(s: string): (u: Units)
    ensures |u| == |s|
  {
    seq(|s|, i requires 0 <= i < |s| => (s[i] as int) % 0x1_0000)
  }

  const KEY_PREFIX: string := "KeyChecksum:"
  const VAL_PREFIX: string := "ValChecksum:"

  function KeyEntry(keyIndex: nat): Obj {
    Str(FromAscii(KEY_PREFIX) + Decimal(keyIndex))
  }

  function ValEntry(keyIndex: nat): Obj {
    Str(FromAscii(VAL_PREFIX) + Decimal(keyIndex))
  }

  lemma {:induction false} FirstUnits(i: nat)
    ensures |KeyEntry(i).units| > 0 && KeyEntry(i).units[0] == 75
    ensures |ValEntry(i).units| > 0 && ValEntry(i).units[0] == 86
  {
    assert KEY_PREFIX[0] == 'K' && VAL_PREFIX[0] == 'V';
  }

  lemma {:induction false} EntryNamesDistinct(i: nat, j: nat)
    ensures KeyEntry(i) != ValEntry(j)
    ensures KeyEntry(i) == KeyEntry(j) ==> i == j
    ensures ValEntry(i) == ValEntry(j) ==> i == j
  {
    FirstUnits(i);
    FirstUnits(j);
    if KeyEntry(i) == KeyEntry(j) {
      assert KeyEntry(i).units[12..] == Decimal(i) && KeyEntry(j).units[12..] == Decimal(j);
      DecimalInjective(i, j);
    }
    if ValEntry(i) == ValEntry(j) {
      assert ValEntry(i).units[12..] == Decimal(i) && ValEntry(j).units[12..] == Decimal(j);
      DecimalInjective(i, j);
    }
  }

  /** No generated key is the name of a checksum entry. */
  lemma {:induction false} KeysAreNotNames(w: Wrapper, keyIndex: IntValue, maxSize: IntValue, i: nat)
    requires IsKeyWrapper(w) && InitKey(w, keyIndex, maxSize).Some?
    ensures InitKey(w, keyIndex, maxSize).value != KeyEntry(i)
    ensures InitKey(w, keyIndex, maxSize).value != ValEntry(i)
  {
    FirstUnits(i);
    if w.StringWrapper? && keyIndex != 0 {
      var key := InitKey(w, keyIndex, maxSize).value;
      assert key.units[0] == Filler(w.unicode);
    }
  }

  // ---------- what the keys look like ----------

  /** The number that a string of decimal digits stands for. */
  function DigitsValue(ds: Units): int {
    if ds == [] then 0 else 10 * DigitsValue(ds[..|ds| - 1]) + (ds[|ds| - 1] as int - 48)
  }

  predicate AreDigits(ds: Units) {
    forall i :: 0 <= i < |ds| ==> 48 <= ds[i] < 58
  }

  lemma {:induction false} PaddedValue(n: nat, width: nat)
    requires n < Pow10(width)
    ensures AreDigits(Padded(n, width)) && DigitsValue(Padded(n, width)) == n
    decreases width
  {
    if width > 0 {
      PaddedValue(n / 10, width - 1);
      assert Padded(n, width)[..width - 1] == Padded(n / 10, width - 1);
    }
  }

  lemma {:induction false} DecimalValue(n: nat)
    ensures AreDigits(Decimal(n)) && DigitsValue(Decimal(n)) == n
    ensures |Decimal(n)| > 1 ==> Decimal(n)[0] != 48
    decreases n
  {
    var s := Decimal(n);
    if n < 10 {
      assert s[..0] == [];
    } else {
      DecimalValue(n / 10);
      assert s[..|s| - 1] == Decimal(n / 10);
      if n / 10 < 10 {
        assert Decimal(n / 10) == [48 + n / 10];
      }
    }
  }

  /** The index itself, kept modulo the range of the type; bool keys alternate. */
  lemma {:induction false} ScalarKeys(i: IntValue, maxSize: IntValue)
    requires i >= 0
    ensures InitKey(BooleanWrapper, i, maxSize) == Some(Bool(i % 2 == 1))
    ensures var k := InitKey(ByteWrapper, i, maxSize).value; k.SByte? && k.sbyte % 0x100 == i % 0x100
    ensures var k := InitKey(CharacterWrapper, i, maxSize).value; k.Char? && k.unit == i % 0x1_0000
    ensures var k := InitKey(Int16Wrapper, i, maxSize).value; k.Int16? && k.short % 0x1_0000 == i % 0x1_0000
    ensures InitKey(Int32Wrapper, i, maxSize) == Some(Int32(i)) && InitKey(Int64Wrapper, i, maxSize) == Some(Int64(i))
  {}

  /** The letter repeated, and the index in ten digits. */
  predicate IsStringKey(s: Units, letter: CodeUnit, size: int, i: int) {
    && 10 <= size == |s|
    && (forall j :: 0 <= j < size - 10 ==> s[j] == letter)
    && AreDigits(s[size - 10..]) && DigitsValue(s[size - 10..]) == i
  }

  lemma {:induction false} FilledAndNumbered(letter: CodeUnit, n: nat, i: IntValue)
    requires i >= 0
    ensures IsStringKey(Fill(letter, n) + D10(i), letter, n + 10, i)
  {
    var front := Fill(letter, n);
    assert (front + D10(i))[n..] == D10(i);
    assert Pow10(10) == 10_000_000_000 by {
      assert Pow10(5) == 100_000;
    }
    PaddedValue(i, 10);
  }

  /** A string key: filled up to the size with one letter, and the index in ten digits; index 0 is the empty string. */
  lemma {:induction false} StringKeys(huge: bool, unicode: bool, i: IntValue, maxSize: IntValue)
    requires i > 0 && maxSize > 0
    ensures InitKey(StringWrapper(huge, unicode), 0, maxSize) == Some(Str([]))
    ensures var k := InitKey(StringWrapper(huge, unicode), i, maxSize);
            var size := if !huge then (if maxSize < 11 then 11 else maxSize)
                        else if maxSize < 0xffff then maxSize + 0x1_0000 else maxSize;
            k.Some? && k.value.Str? && IsStringKey(k.value.units, if unicode then 0x0905 else 65, size, i)
  {
    FilledAndNumbered(Filler(unicode), StringSize(huge, maxSize) - 10, i);
  }

  lemma {:induction false} KeyCounts(huge: bool, unicode: bool)
    ensures MaxKeys(BooleanWrapper) == 2 && MaxKeys(ByteWrapper) == 255 && MaxKeys(CharacterWrapper) == 65535
    ensures MaxKeys(Int16Wrapper) == 32767 && MaxKeys(Int32Wrapper) == 2147483647 == MaxKeys(Int64Wrapper)
    ensures MaxKeys(StringWrapper(huge, unicode)) == 2147483647
  {}

  /** A name is its prefix and the index in decimal without leading zeros. */
  predicate IsName(s: Units, first: Units, i: nat) {
    && |s| > 12 && s[..12] == first + [67, 104, 101, 99, 107, 115, 117, 109, 58]
    && AreDigits(s[12..]) && DigitsValue(s[12..]) == i && (|s| > 13 ==> s[12] != 48)
  }

  lemma {:induction false} KeyEntryForm(i: nat)
    ensures IsName(KeyEntry(i).units, [75, 101, 121], i)
  {
    DecimalValue(i);
    var s := KeyEntry(i).units;
    assert s[12..] == Decimal(i);
    assert s[..12] == FromAscii(KEY_PREFIX);
  }

  lemma {:induction false} ValEntryForm(i: nat)
    ensures IsName(ValEntry(i).units, [86, 97, 108], i)
  {
    DecimalValue(i);
    var s := ValEntry(i).units;
    assert s[12..] == Decimal(i);
    assert s[..12] == FromAscii(VAL_PREFIX);
  }
}
