/**
  The checksums that the cacheable wrappers take of the objects they wrap, for the scalar,
  array and container types. A failed cast or assertion is the result None.
 */
module Checksums {
  import opened Integers
  import opened Options
  import opened Sequences
  import opened Words
  import opened Crc32
  import opened Crc32Theory
  import opened LittleEndian
  import Crc32Table

  type CodeUnit = c: int | 0 <= c < 0x1_0000
  type SByteValue = v: int | -0x80 <= v < 0x80
  type ShortValue = v: int | -0x8000 <= v < 0x8000
  type IntValue = v: int | -0x8000_0000 <= v < 0x8000_0000
  type LongValue = v: int | -0x8000_0000_0000_0000 <= v < 0x8000_0000_0000_0000

  datatype ListKind = ArrayList | ObjectArray | ObjectList | ObjectStack
  datatype SetKind = HashSet | LinkedHashSet

  /** The objects that are put into regions. A container lists its elements in enumeration order. */
  datatype Obj =
    | Null
    | Bool(flag: bool)
    | SByte(sbyte: SByteValue)
    | Char(unit: CodeUnit)
    | Int16(short: ShortValue)
    | Int32(integer: IntValue)
    | Int64(long: LongValue)
    | Str(units: seq<CodeUnit>)
    | Bytes(bytes: seq<bv8>)
    | Int16Array(shorts: seq<ShortValue>)
    | Int32Array(integers: seq<IntValue>)
    | Int64Array(longs: seq<LongValue>)
    | List(listKind: ListKind, items: seq<Obj>)
    | KeySet(setKind: SetKind, keys: seq<Obj>)
    | Dictionary(entries: seq<Entry>)
    | Hashtable(entries: seq<Entry>)

  datatype Entry = Entry(key: Obj, val: Obj)

  datatype Wrapper =
    | BooleanWrapper
    | ByteWrapper
    | CharacterWrapper
    | Int16Wrapper
    | Int32Wrapper
    | Int64Wrapper
    | StringWrapper(huge: bool, unicode: bool)
    | BytesWrapper
    | Int16ArrayWrapper
    | Int32ArrayWrapper
    | Int64ArrayWrapper
    | ListWrapper(listKind: ListKind)
    | SetWrapper(setKind: SetKind)
    | HashMapWrapper
    | HashTableWrapper
    | IdentityHashMapWrapper

  /** The wrapper that the factory makes for a key of this type. */
  function KeyWrapperFor(o: Obj): Option<Wrapper> {
    match o
    case Bool(_) => Some(BooleanWrapper)
    case SByte(_) => Some(ByteWrapper)
    case Char(_) => Some(CharacterWrapper)
    case Int16(_) => Some(Int16Wrapper)
    case Int32(_) => Some(Int32Wrapper)
    case Int64(_) => Some(Int64Wrapper)
    case Str(_) => Some(StringWrapper(false, false))
    case _ => None
  }

  /** The wrapper for a value; the identity hash map registers last for dictionaries. */
  function WrapperFor(o: Obj): Option<Wrapper> {
    match o
    case Bytes(_) => Some(BytesWrapper)
    case Int16Array(_) => Some(Int16ArrayWrapper)
    case Int32Array(_) => Some(Int32ArrayWrapper)
    case Int64Array(_) => Some(Int64ArrayWrapper)
    case List(kind, _) => Some(ListWrapper(kind))
    case KeySet(kind, _) => Some(SetWrapper(kind))
    case Dictionary(_) => Some(IdentityHashMapWrapper)
    case Hashtable(_) => Some(HashTableWrapper)
    case _ => KeyWrapperFor(o)
  }

  // ---------- what the wrappers compute ----------

  function ArrayBytes(values: seq<int>, width: nat): (s: seq<bv8>)
    ensures |s| == width * |values|
  {
    if values == [] then [] else LeBytes(values[0], width) + ArrayBytes(values[1..], width)
  }

  /** A plain string keeps the low byte of each character, a Unicode string both bytes. */
  function StringWidth(unicode: bool): nat {
    if unicode then 2 else 1
  }

  function XorAll(s: seq<bv32>): bv32 {
    if s == [] then 0 else Xor(s[0], XorAll(s[1..]))
  }

  function ChecksumOf(w: Wrapper, o: Obj): Option<bv32>
    decreases o, 1
  {
    match w
    case BooleanWrapper => if o.Bool? then Some(if o.flag then 1 else 0) else None
    case ByteWrapper => if o.SByte? then Some(Checksum(LeBytes(o.sbyte, 1))) else None
    case CharacterWrapper => if o.Char? then Some(Checksum(LeBytes(o.unit, 2))) else None
    case Int16Wrapper => if o.Int16? then Some(Checksum(LeBytes(o.short, 2))) else None
    case Int32Wrapper => if o.Int32? then Some(Checksum(LeBytes(o.integer, 4))) else None
    case Int64Wrapper => if o.Int64? then Some(Checksum(LeBytes(o.long, 8))) else None
    case StringWrapper(_, unicode) =>
      if o.Str? then Some(Checksum(ArrayBytes(o.units, StringWidth(unicode)))) else None
    case BytesWrapper => if o.Bytes? then Some(Checksum(o.bytes)) else None
    case Int16ArrayWrapper => if o.Int16Array? then Some(Checksum(ArrayBytes(o.shorts, 2))) else None
    case Int32ArrayWrapper => if o.Int32Array? then Some(Checksum(ArrayBytes(o.integers, 4))) else None
    case Int64ArrayWrapper => if o.Int64Array? then Some(Checksum(ArrayBytes(o.longs, 8))) else None
    case ListWrapper(kind) => if o.List? && o.listKind == kind then Combine(ItemChecksums(o.items)) else None
    case SetWrapper(kind) => if o.KeySet? && o.setKind == kind then Combine(KeyChecksums(o.keys)) else None
    case HashMapWrapper => if o.Dictionary? then Combine(EntryChecksums(o.entries)) else None
    case HashTableWrapper => if o.Hashtable? then Combine(EntryChecksums(o.entries)) else None
    case IdentityHashMapWrapper => Some(0)
  }

  function Combine(s: Option<seq<bv32>>): Option<bv32> {
    if s.Some? then Some(XorAll(s.value)) else None
  }

  function Prepend(c: Option<bv32>, s: Option<seq<bv32>>): Option<seq<bv32>> {
    if c.Some? && s.Some? then Some([c.value] + s.value) else None
  }

  function ValueChecksum(o: Obj): Option<bv32>
    decreases o, 2
  {
    var w := WrapperFor(o);
    if w.Some? then ChecksumOf(w.value, o) else None
  }

  function KeyChecksum(o: Obj): Option<bv32>
    decreases o, 2
  {
    var w := KeyWrapperFor(o);
    if w.Some? then ChecksumOf(w.value, o) else None
  }

  /** The checksums of the elements that are not null, in enumeration order. */
  function ItemChecksums(items: seq<Obj>): Option<seq<bv32>>
    decreases items, 0
  {
    if items == [] then Some([])
    else if items[0] == Null then ItemChecksums(items[1..])
    else Prepend(ValueChecksum(items[0]), ItemChecksums(items[1..]))
  }

  function KeyChecksums(keys: seq<Obj>): Option<seq<bv32>>
    decreases keys, 0
  {
    if keys == [] then Some([]) else Prepend(KeyChecksum(keys[0]), KeyChecksums(keys[1..]))
  }

  function XorOption(c: Option<bv32>, d: Option<bv32>): Option<bv32> {
    if c.Some? && d.Some? then Some(Xor(c.value, d.value)) else None
  }

  function EntryChecksum(e: Entry): Option<bv32>
    decreases e, 3
  {
    XorOption(KeyChecksum(e.key), ValueChecksum(e.val))
  }

  function EntryChecksums(entries: seq<Entry>): Option<seq<bv32>>
    decreases entries, 0
  {
    if entries == [] then Some([]) else Prepend(EntryChecksum(entries[0]), EntryChecksums(entries[1..]))
  }

  // ---------- the wrappers' own loops ----------

  method WriteInteger(stream: seq<bv8>, value: int, numBytes: nat) returns (ms: seq<bv8>)
    ensures ms == stream + LeBytes(value, numBytes)
  {
    ms := stream;
    var conv := value;
    var i := 0;
    while i < numBytes
      invariant 0 <= i <= numBytes
      invariant ms + LeBytes(conv, numBytes - i) == stream + LeBytes(value, numBytes)
    {
      ms := ms + [ToByte(conv)];
      conv := conv / 256;
      i := i + 1;
    }
  }

  method WriteArray(values: seq<int>, width: nat) returns (ms: seq<bv8>)
    ensures ms == ArrayBytes(values, width)
  {
    ms := [];
    var k := 0;
    while k < |values|
      invariant 0 <= k <= |values|
      invariant ms + ArrayBytes(values[k..], width) == ArrayBytes(values, width)
    {
      DropTail(values, k);
      Assoc(ms, LeBytes(values[k], width), ArrayBytes(values[k + 1..], width));
      ms := WriteInteger(ms, values[k], width);
      k := k + 1;
    }
  }

  method ToArray(s: seq<bv8>) returns (a: array<bv8>)
    ensures fresh(a) && a[..] == s
  {
    a := new bv8[|s|](i requires 0 <= i < |s| => s[i]);
  }

  method ArrayChecksum(values: seq<int>, width: nat) returns (c: bv32)
    ensures c == Checksum(ArrayBytes(values, width))
  {
    var ms := WriteArray(values, width);
    var a := ToArray(ms);
    c := CRC32(a);
  }

  method IntegerChecksum(value: int, numBytes: nat) returns (c: bv32)
    ensures c == Checksum(LeBytes(value, numBytes))
  {
    var buffer := SplitIntoBytes(value, numBytes);
    c := CRC32(buffer);
  }

  lemma {:induction false} XorOnto(c: bv32, x: bv32, rest: seq<bv32>)
    ensures Xor(c, XorAll([x] + rest)) == Xor(Xor(c, x), XorAll(rest))
  {
    assert ([x] + rest)[1..] == rest;
    XorAssoc(c, x, XorAll(rest));
  }

  /** What the loops keep: the sum so far with the sum still to come is the whole. */
  ghost predicate Pending(ckSum: bv32, rest: Option<seq<bv32>>, whole: Option<seq<bv32>>) {
    && rest.Some? == whole.Some?
    && (rest.Some? ==> Xor(ckSum, XorAll(rest.value)) == XorAll(whole.value))
  }

  lemma {:induction false} PendingStep(ckSum: bv32, c: Option<bv32>, rest: Option<seq<bv32>>, whole: Option<seq<bv32>>)
    requires Pending(ckSum, Prepend(c, rest), whole)
    ensures c.None? ==> Combine(whole).None?
    ensures c.Some? ==> Pending(Xor(ckSum, c.value), rest, whole)
  {
    if c.Some? && rest.Some? {
      XorOnto(ckSum, c.value, rest.value);
    }
  }

  method GetChecksum(w: Wrapper, o: Obj) returns (r: Option<bv32>)
    ensures r == ChecksumOf(w, o)
    decreases o, 1
  {
    r := None;
    match w {
      case BooleanWrapper =>
        if o.Bool? { r := Some(if o.flag then 1 else 0); }
      case ByteWrapper =>
        if o.SByte? {
          var buffer := new bv8[1];
          buffer[0] := ToByte(o.sbyte);
          assert buffer[..] == LeBytes(o.sbyte, 1);
          var c := CRC32(buffer);
          r := Some(c);
        }
      case CharacterWrapper =>
        if o.Char? { var c := IntegerChecksum(o.unit, 2); r := Some(c); }
      case Int16Wrapper =>
        if o.Int16? { var c := IntegerChecksum(o.short, 2); r := Some(c); }
      case Int32Wrapper =>
        if o.Int32? { var c := IntegerChecksum(o.integer, 4); r := Some(c); }
      case Int64Wrapper =>
        if o.Int64? { var c := IntegerChecksum(o.long, 8); r := Some(c); }
      case StringWrapper(_, unicode) =>
        if o.Str? { var c := ArrayChecksum(o.units, StringWidth(unicode)); r := Some(c); }
      case BytesWrapper =>
        if o.Bytes? {
          var a := ToArray(o.bytes);
          var c := CRC32(a);
          r := Some(c);
        }
      case Int16ArrayWrapper =>
        if o.Int16Array? { var c := ArrayChecksum(o.shorts, 2); r := Some(c); }
      case Int32ArrayWrapper =>
        if o.Int32Array? { var c := ArrayChecksum(o.integers, 4); r := Some(c); }
      case Int64ArrayWrapper =>
        if o.Int64Array? { var c := ArrayChecksum(o.longs, 8); r := Some(c); }
      case ListWrapper(kind) =>
        if o.List? && o.listKind == kind { r := GetListChecksum(o.items); }
      case SetWrapper(kind) =>
        if o.KeySet? && o.setKind == kind { r := GetSetChecksum(o.keys); }
      case HashMapWrapper =>
        if o.Dictionary? { r := GetMapChecksum(o.entries); }
      case HashTableWrapper =>
        if o.Hashtable? { r := GetMapChecksum(o.entries); }
      case IdentityHashMapWrapper =>
        r := Some(0);
    }
  }

  method GetListChecksum(items: seq<Obj>) returns (r: Option<bv32>)
    ensures r == Combine(ItemChecksums(items))
    decreases items, 0
  {
    var ckSum: bv32 := 0;
    var k := 0;
    ghost var whole := ItemChecksums(items);
    assert items[0..] == items;
    if whole.Some? { XorZero(XorAll(whole.value)); }
    while k < |items|
      invariant 0 <= k <= |items|
      invariant Pending(ckSum, ItemChecksums(items[k..]), whole)
    {
      var obj := items[k];
      assert items[k..][0] == obj && items[k..][1..] == items[k + 1..];
      k := k + 1;
      if obj == Null {
        continue;
      }
      var wrapper := WrapperFor(obj);
      PendingStep(ckSum, ValueChecksum(obj), ItemChecksums(items[k..]), whole);
      if wrapper == None {
        return None;
      }
      var c := GetChecksum(wrapper.value, obj);
      if c == None {
        return None;
      }
      ckSum := Xor(ckSum, c.value);
    }
    XorZero(ckSum);
    return Some(ckSum);
  }

  method GetSetChecksum(keys: seq<Obj>) returns (r: Option<bv32>)
    ensures r == Combine(KeyChecksums(keys))
    decreases keys, 0
  {
    var ckSum: bv32 := 0;
    var k := 0;
    ghost var whole := KeyChecksums(keys);
    assert keys[0..] == keys;
    if whole.Some? { XorZero(XorAll(whole.value)); }
    while k < |keys|
      invariant 0 <= k <= |keys|
      invariant Pending(ckSum, KeyChecksums(keys[k..]), whole)
    {
      var key := keys[k];
      assert keys[k..][0] == key && keys[k..][1..] == keys[k + 1..];
      k := k + 1;
      var wrapper := KeyWrapperFor(key);
      PendingStep(ckSum, KeyChecksum(key), KeyChecksums(keys[k..]), whole);
      if wrapper == None {
        return None;
      }
      var c := GetChecksum(wrapper.value, key);
      if c == None {
        return None;
      }
      ckSum := Xor(ckSum, c.value);
    }
    XorZero(ckSum);
    return Some(ckSum);
  }

  method GetMapChecksum(entries: seq<Entry>) returns (r: Option<bv32>)
    ensures r == Combine(EntryChecksums(entries))
    decreases entries, 0
  {
    var ckSum: bv32 := 0;
    var k := 0;
    ghost var whole := EntryChecksums(entries);
    assert entries[0..] == entries;
    if whole.Some? { XorZero(XorAll(whole.value)); }
    while k < |entries|
      invariant 0 <= k <= |entries|
      invariant Pending(ckSum, EntryChecksums(entries[k..]), whole)
    {
      var e := entries[k];
      assert entries[k..][0] == e && entries[k..][1..] == entries[k + 1..];
      k := k + 1;
      PendingStep(ckSum, EntryChecksum(e), EntryChecksums(entries[k..]), whole);
      var c := GetEntryChecksum(e);
      if c == None {
        return None;
      }
      ckSum := Xor(ckSum, c.value);
    }
    XorZero(ckSum);
    return Some(ckSum);
  }

  method GetEntryChecksum(e: Entry) returns (r: Option<bv32>)
    ensures r == EntryChecksum(e)
    decreases e, 3
  {
    var keyWrapper, valueWrapper := KeyWrapperFor(e.key), WrapperFor(e.val);
    if keyWrapper == None || valueWrapper == None {
      return None;
    }
    var c := GetChecksum(keyWrapper.value, e.key);
    var d := GetChecksum(valueWrapper.value, e.val);
    if c == None || d == None {
      return None;
    }
    return Some(Xor(c.value, d.value));
  }

  // ---------- integers and arrays ----------

  predicate Narrow(w: Wrapper) {
    w == BooleanWrapper || w == ByteWrapper || w == CharacterWrapper || w == Int16Wrapper || w == Int32Wrapper
  }

  lemma {:induction false} BytesCollide(a: seq<bv8>, b: seq<bv8>)
    requires |a| == |b| <= 4 && Checksum(a) == Checksum(b)
    ensures a == b
  {
    if a != b {
      assert [] + a + [] == a && [] + b + [] == b;
      FourByteWindow([], a, b, []);
    }
  }

  /** For bool, sbyte, char, short and int the checksum determines the object. */
  lemma {:induction false} NarrowChecksumInjective(w: Wrapper, o: Obj, p: Obj)
    requires Narrow(w)
    requires ChecksumOf(w, o).Some? && ChecksumOf(w, o) == ChecksumOf(w, p)
    ensures o == p
  {
    Pow256Values();
    match w {
      case BooleanWrapper =>
      case ByteWrapper =>
        BytesCollide(LeBytes(o.sbyte, 1), LeBytes(p.sbyte, 1));
        LeBytesInjective(o.sbyte, p.sbyte, 1);
      case CharacterWrapper =>
        BytesCollide(LeBytes(o.unit, 2), LeBytes(p.unit, 2));
        LeBytesInjective(o.unit, p.unit, 2);
      case Int16Wrapper =>
        BytesCollide(LeBytes(o.short, 2), LeBytes(p.short, 2));
        LeBytesInjective(o.short, p.short, 2);
      case Int32Wrapper =>
        BytesCollide(LeBytes(o.integer, 4), LeBytes(p.integer, 4));
        LeBytesInjective(o.integer, p.integer, 4);
    }
  }

  /** The low and the high half of a long, as words. */
  function LowWord(v: int): bv32 {
    LittleEndianWord(LeBytes(v, 4))
  }

  function HighWord(v: int): bv32 {
    LittleEndianWord(LeBytes(v / 0x1_0000_0000, 4))
  }

  lemma {:induction false} LongBytes(v: int)
    ensures LeBytes(v, 8) == LeBytes(v, 4) + LeBytes(v / 0x1_0000_0000, 4)
  {
    LeBytesSplit(v, 4, 4);
    Pow256Values();
  }

  /** What it takes for a change of a long to be missed. */
  ghost predicate HalvesMatch(v: int, v': int) {
    Xor(HighWord(v), HighWord(v')) == Crc32Table.Shift(Xor(LowWord(v), LowWord(v')), WORD)
  }

  /** For long it does not: two longs collide exactly when the halves of their difference match. */
  lemma {:induction false} LongCollision(v: LongValue, v': LongValue)
    ensures ChecksumOf(Int64Wrapper, Int64(v)) == ChecksumOf(Int64Wrapper, Int64(v')) <==> HalvesMatch(v, v')
  {
    LongBytes(v);
    LongBytes(v');
    EightByteWindow([], LeBytes(v, 4), LeBytes(v / 0x1_0000_0000, 4),
                    LeBytes(v', 4), LeBytes(v' / 0x1_0000_0000, 4), []);
    assert [] + LeBytes(v, 8) + [] == LeBytes(v, 8) && [] + LeBytes(v', 8) + [] == LeBytes(v', 8);
  }

  lemma {:induction false} ArrayBytesConcat(a: seq<int>, b: seq<int>, width: nat)
    ensures ArrayBytes(a + b, width) == ArrayBytes(a, width) + ArrayBytes(b, width)
    decreases |a|
  {
    if a == [] {
      assert a + b == b;
    } else {
      assert (a + b)[0] == a[0] && (a + b)[1..] == a[1..] + b;
      ArrayBytesConcat(a[1..], b, width);
    }
  }

  lemma {:induction false} ArrayBytesAround(a: seq<int>, k: nat, width: nat)
    requires k < |a|
    ensures ArrayBytes(a, width) ==
            ArrayBytes(a[..k], width) + LeBytes(a[k], width) + ArrayBytes(a[k + 1..], width)
  {
    assert a == a[..k] + ([a[k]] + a[k + 1..]);
    ArrayBytesConcat(a[..k], [a[k]] + a[k + 1..], width);
    ArrayBytesConcat([a[k]], a[k + 1..], width);
    assert ArrayBytes([a[k]], width) == LeBytes(a[k], width);
  }

  /** Changing one element of an array of integers of up to four bytes always changes the checksum. */
  lemma {:induction false} ArrayElementChange(a: seq<int>, k: nat, v: int, width: nat)
    requires k < |a| && width <= 4
    requires a[k] != v && -Pow256(width) < a[k] - v < Pow256(width)
    ensures Checksum(ArrayBytes(a, width)) != Checksum(ArrayBytes(a[k := v], width))
  {
    var b := a[k := v];
    ArrayBytesAround(a, k, width);
    ArrayBytesAround(b, k, width);
    assert b[..k] == a[..k] && b[k + 1..] == a[k + 1..];
    if LeBytes(a[k], width) == LeBytes(v, width) {
      LeBytesInjective(a[k], v, width);
    }
    FourByteWindow(ArrayBytes(a[..k], width), LeBytes(a[k], width), LeBytes(v, width), ArrayBytes(a[k + 1..], width));
  }

  /** In an array of longs, exactly the changes of an element that longs miss are missed. */
  lemma {:induction false} LongElementChange(a: seq<int>, k: nat, v: int)
    requires k < |a|
    ensures Checksum(ArrayBytes(a, 8)) == Checksum(ArrayBytes(a[k := v], 8)) <==> HalvesMatch(a[k], v)
  {
    var b := a[k := v];
    ArrayBytesAround(a, k, 8);
    ArrayBytesAround(b, k, 8);
    assert b[..k] == a[..k] && b[k + 1..] == a[k + 1..];
    LongBytes(a[k]);
    LongBytes(v);
    EightByteWindow(ArrayBytes(a[..k], 8), LeBytes(a[k], 4), LeBytes(a[k] / 0x1_0000_0000, 4),
                    LeBytes(v, 4), LeBytes(v / 0x1_0000_0000, 4), ArrayBytes(a[k + 1..], 8));
  }

  /** In particular none that touches only one 32-bit half. */
  lemma {:induction false} HalfChangeCaught(v: int, v': int)
    requires (LowWord(v) == LowWord(v')) != (HighWord(v) == HighWord(v'))
    ensures !HalvesMatch(v, v')
  {
    var l, h := Xor(LowWord(v), LowWord(v')), Xor(HighWord(v), HighWord(v'));
    ShiftZero(WORD);
    if LowWord(v) == LowWord(v') {
      XorSelf(LowWord(v));
      if h == 0 {
        XorIsZero(HighWord(v), HighWord(v'));
      }
    } else {
      XorSelf(HighWord(v));
      if Crc32Table.Shift(l, WORD) == Crc32Table.Shift(0, WORD) {
        Crc32Table.ShiftInjective(l, 0, WORD);
        XorIsZero(LowWord(v), LowWord(v'));
      }
    }
  }

  lemma {:induction false} ShiftMore(c: bv32, m: nat, n: nat)
    ensures Crc32Table.Shift(c, m + n) == Crc32Table.Shift(Crc32Table.Shift(c, m), n)
    decreases m
  {
    if m > 0 {
      ShiftMore(Crc32Table.Shift1(c), m - 1, n);
    }
  }

  lemma {:induction false} FourShifts(c: bv32)
    requires c == 0xDB710641
    ensures Crc32Table.Shift(c, WORD) == 1
  {
    ShiftMore(c, BYTE, 24);
    ShiftMore(0x01000000, BYTE, 16);
    ShiftMore(0x00010000, BYTE, BYTE);
    Crc32Table.ShiftByte(c);
    ShiftDown(0x01000000);
    ShiftDown(0x00010000);
    ShiftDown(0x00000100);
  }

  lemma {:induction false} ShiftDown(c: bv32)
    requires c & 0xff == 0
    ensures Crc32Table.Shift(c, BYTE) == c >> 8
  {
    Crc32Table.ShiftByte(c);
  }

  lemma {:induction false} WordStep(x: int, n: nat, b: bv8, w: bv32)
    requires 1 <= n <= 4 && ToByte(x) == b && LittleEndianWord(LeBytes(x / 256, n - 1)) == w
    ensures LittleEndianWord(LeBytes(x, n)) == (w << 8) | b as bv32
  {
    assert LeBytes(x, n)[1..] == LeBytes(x / 256, n - 1);
  }

  lemma {:induction false} CounterexampleLow()
    ensures LowWord(0x1_DB71_0641) == 0xDB710641
  {
    WordStep(0x1DB, 1, 0xDB, 0);
    WordStep(0x1_DB71, 2, 0x71, 0xDB);
    WordStep(0x1_DB71_06, 3, 0x06, 0xDB71);
    WordStep(0x1_DB71_0641, 4, 0x41, 0xDB7106);
  }

  lemma {:induction false} CounterexampleHigh()
    ensures HighWord(0x1_DB71_0641) == 1
  {
    ZeroWords(3);
    WordStep(1, 4, 1, 0);
  }

  lemma {:induction false} ZeroWords(n: nat)
    requires n <= 4
    ensures LittleEndianWord(LeBytes(0, n)) == 0
    decreases n
  {
    if n > 0 {
      ZeroWords(n - 1);
      WordStep(0, n, 0, 0);
    }
  }

  /** A long and a change of it that the checksum misses: 0 and 0x1_DB71_0641. */
  lemma {:induction false} LongCounterexample()
    ensures ChecksumOf(Int64Wrapper, Int64(0)) == ChecksumOf(Int64Wrapper, Int64(0x1_DB71_0641))
  {
    CounterexampleLow();
    CounterexampleHigh();
    ZeroWords(4);
    FourShifts(0xDB710641);
    XorZero(0xDB710641);
    XorZero(1);
    LongCollision(0, 0x1_DB71_0641);
  }
}
