/**
  Which bytes each wrapper checksums, stated by position: the digits of every value in base 256,
  lowest first, one value after another.
 */
module WrapperBytes {
  import opened Options
  import opened Crc32
  import opened LittleEndian
  import opened Checksums

  /** Consecutive groups of width bytes hold the digits of the values. */
  predicate HoldsValues(s: seq<bv8>, values: seq<int>, width: nat)
    decreases |values|
  {
    if values == [] then s == []
    else |s| >= width && AreDigits(s[..width], values[0], width) && HoldsValues(s[width..], values[1..], width)
  }

  lemma {:induction false} HoldsArrayBytes(s: seq<bv8>, values: seq<int>, width: nat)
    ensures HoldsValues(s, values, width) <==> s == ArrayBytes(values, width)
    decreases |values|
  {
    if values != [] {
      var front, rest := LeBytes(values[0], width), ArrayBytes(values[1..], width);
      if |s| >= width {
        DigitsAreLeBytes(s[..width], values[0], width);
        HoldsArrayBytes(s[width..], values[1..], width);
        assert s == s[..width] + s[width..];
      }
      assert (front + rest)[..width] == front && (front + rest)[width..] == rest;
    }
  }

  /** The position of value k in such bytes. */
  lemma {:induction false} HeldAt(s: seq<bv8>, values: seq<int>, width: nat, k: nat)
    ensures HoldsValues(s, values, width) && k < |values| ==>
              && 0 <= k * width <= k * width + width <= |s|
              && AreDigits(s[k * width..k * width + width], values[k], width)
    decreases k
  {
    if HoldsValues(s, values, width) && k < |values| {
      if k == 0 {
        assert s[0..width] == s[..width];
      } else {
        HeldAt(s[width..], values[1..], width, k - 1);
        assert (k - 1) * width + width == k * width;
        assert s[width..][(k - 1) * width..(k - 1) * width + width] == s[k * width..k * width + width];
      }
    }
  }

  /** The bytes that a wrapper checksums for an object that it takes. */
  ghost predicate Represents(w: Wrapper, o: Obj, s: seq<bv8>) {
    match w
    case ByteWrapper => o.SByte? && AreDigits(s, o.sbyte, 1)
    case CharacterWrapper => o.Char? && AreDigits(s, o.unit, 2)
    case Int16Wrapper => o.Int16? && AreDigits(s, o.short, 2)
    case Int32Wrapper => o.Int32? && AreDigits(s, o.integer, 4)
    case Int64Wrapper => o.Int64? && AreDigits(s, o.long, 8)
    case StringWrapper(_, unicode) => o.Str? && HoldsValues(s, o.units, if unicode then 2 else 1)
    case BytesWrapper => o.Bytes? && s == o.bytes
    case Int16ArrayWrapper => o.Int16Array? && HoldsValues(s, o.shorts, 2)
    case Int32ArrayWrapper => o.Int32Array? && HoldsValues(s, o.integers, 4)
    case Int64ArrayWrapper => o.Int64Array? && HoldsValues(s, o.longs, 8)
    case _ => false
  }

  lemma {:induction false} ScalarChecksum(w: Wrapper, o: Obj, s: seq<bv8>)
    requires w.ByteWrapper? || w.CharacterWrapper? || w.Int16Wrapper? || w.Int32Wrapper? || w.Int64Wrapper?
    ensures Represents(w, o, s) ==> ChecksumOf(w, o) == Some(Checksum(s))
  {
    if Represents(w, o, s) {
      match w {
        case ByteWrapper => DigitsAreLeBytes(s, o.sbyte, 1);
        case CharacterWrapper => DigitsAreLeBytes(s, o.unit, 2);
        case Int16Wrapper => DigitsAreLeBytes(s, o.short, 2);
        case Int32Wrapper => DigitsAreLeBytes(s, o.integer, 4);
        case Int64Wrapper => DigitsAreLeBytes(s, o.long, 8);
      }
    }
  }

  /** Every wrapper of a scalar, string or array checksums exactly the bytes that represent the object. */
  lemma {:induction false} RepresentedChecksum(w: Wrapper, o: Obj, s: seq<bv8>)
    ensures Represents(w, o, s) ==> ChecksumOf(w, o) == Some(Checksum(s))
  {
    if Represents(w, o, s) {
      match w {
        case StringWrapper(_, unicode) => HoldsArrayBytes(s, o.units, if unicode then 2 else 1);
        case BytesWrapper =>
        case Int16ArrayWrapper => HoldsArrayBytes(s, o.shorts, 2);
        case Int32ArrayWrapper => HoldsArrayBytes(s, o.integers, 4);
        case Int64ArrayWrapper => HoldsArrayBytes(s, o.longs, 8);
        case _ => ScalarChecksum(w, o, s);
      }
    }
  }

  /** A bool is its own checksum, and an empty string or array has 0. */
  lemma {:induction false} SmallChecksums(huge: bool, unicode: bool)
    ensures ChecksumOf(BooleanWrapper, Bool(true)) == Some(1) && ChecksumOf(BooleanWrapper, Bool(false)) == Some(0)
    ensures ChecksumOf(StringWrapper(huge, unicode), Str([])) == Some(0)
  {}
}
