/**
  The recursive writeObject and readObject templates over DataOutput and DataInput. The
  number of bytes of a container's size is that of std::size_t on the platform, 4 or 8;
  string lengths always take 4. Integers are written with the high byte first.
 */
module Serializer {
  import opened Integers
  import opened Options
  import opened SerialValues

  // ---------- integers ----------

  function BigEndian(v: nat, width: nat): (s: seq<Byte>)
    ensures |s| == width
    decreases width
  {
    if width == 0 then [] else BigEndian(v / 0x100, width - 1) + [v % 0x100]
  }

  function FromBigEndian(s: seq<Byte>): nat {
    if s == [] then 0 else 0x100 * FromBigEndian(s[..|s| - 1]) + s[|s| - 1]
  }

  lemma {:induction false} BigEndianRoundTrip(v: nat, width: nat)
    requires v < Pow256(width)
    ensures FromBigEndian(BigEndian(v, width)) == v
    decreases width
  {
    if width > 0 {
      var s := BigEndian(v, width);
      assert s[..width - 1] == BigEndian(v / 0x100, width - 1);
      BigEndianRoundTrip(v / 0x100, width - 1);
    }
  }

  // ---------- what is written ----------

  function HighByte(c: WideChar): Byte {
    (c / 0x100) % 0x100
  }

  function LowByte(c: WideChar): Byte {
    c % 0x100
  }

  /** Both bytes of the low 16 bits; the rest of a wide character is dropped. */
  function WideBytes(units: seq<WideChar>): (s: seq<Byte>)
    ensures |s| == 2 * |units|
  {
    if units == [] then [] else [HighByte(units[0]), LowByte(units[0])] + WideBytes(units[1..])
  }

  const LENGTH_BYTES: nat := 4

  function Written(w: nat, v: Value): seq<Byte>
    decreases v, 1
  {
    match v
    case Str(bytes) => BigEndian(|bytes|, LENGTH_BYTES) + bytes
    case Wide(units) => BigEndian(|units|, LENGTH_BYTES) + WideBytes(units)
    case Vec(items) => BigEndian(|items|, w) + WrittenItems(w, items)
    case Map(entries) => BigEndian(|entries|, w) + WrittenEntries(w, entries)
  }

  function WrittenItems(w: nat, items: seq<Value>): seq<Byte>
    decreases items, 0
  {
    if items == [] then [] else Written(w, items[0]) + WrittenItems(w, items[1..])
  }

  function WrittenEntry(w: nat, e: Entry): seq<Byte>
    decreases e, 2
  {
    Written(w, e.key) + Written(w, e.val)
  }

  function WrittenEntries(w: nat, entries: seq<Entry>): seq<Byte>
    decreases entries, 0
  {
    if entries == [] then [] else WrittenEntry(w, entries[0]) + WrittenEntries(w, entries[1..])
  }

  // ---------- what is read ----------

  /** A value together with the bytes that are left. */
  datatype Reading = Reading(value: Value, rest: seq<Byte>)

  function Default(ty: Ty): Value {
    match ty
    case TString => Str([])
    case TWide => Wide([])
    case TVector(_) => Vec([])
    case TMap(_, _) => Map([])
  }

  predicate Matches(v: Value, ty: Ty) {
    match ty
    case TString => v.Str?
    case TWide => v.Wide?
    case TVector(_) => v.Vec?
    case TMap(_, _) => v.Map?
  }

  function JoinBytes(hi: int, lo: int): WideChar
    requires 0 <= hi < 0x100 && 0 <= lo < 0x100
  {
    0x100 * hi + lo
  }

  function WideFrom(s: seq<Byte>): (units: seq<WideChar>)
    requires |s| % 2 == 0
    ensures 2 * |units| == |s|
  {
    if s == [] then [] else [JoinBytes(s[0], s[1])] + WideFrom(s[2..])
  }

  /** The number in front of the bytes, if there are enough of them. */
  function ReadNumber(s: seq<Byte>, width: nat): Option<nat> {
    if |s| < width then None else Some(FromBigEndian(s[..width]))
  }

  /** readObject into a target; None is the exception for reading past the end. */
  function Read(w: nat, ty: Ty, target: Value, s: seq<Byte>): (r: Option<Reading>)
    requires Matches(target, ty)
    ensures r.Some? ==> Matches(r.value.value, ty)
    decreases ty, 1, 0
  {
    match ty
    case TString =>
      var n := ReadNumber(s, LENGTH_BYTES);
      if n == None || |s| - LENGTH_BYTES < n.value then None
      else Some(Reading(Str(s[LENGTH_BYTES..LENGTH_BYTES + n.value]), s[LENGTH_BYTES + n.value..]))
    case TWide =>
      var n := ReadNumber(s, LENGTH_BYTES);
      if n == None || |s| - LENGTH_BYTES < 2 * n.value then None
      else Some(Reading(Wide(WideFrom(s[LENGTH_BYTES..LENGTH_BYTES + 2 * n.value])), s[LENGTH_BYTES + 2 * n.value..]))
    case TVector(elem) =>
      var n := ReadNumber(s, w);
      if n == None then None else ReadItems(w, ty, n.value, Default(elem), target.items, s[w..])
    case TMap(key, val) =>
      var n := ReadNumber(s, w);
      if n == None then None else ReadEntries(w, ty, n.value, Default(key), Default(val), target.entries, s[w..])
  }

  /** The loop of the vector reader: obj is read again and again and a copy of it appended. */
  function ReadItems(w: nat, ty: Ty, n: nat, obj: Value, items: seq<Value>, s: seq<Byte>): (r: Option<Reading>)
    requires ty.TVector? && Matches(obj, ty.elem)
    ensures r.Some? ==> r.value.value.Vec?
    decreases ty, 0, n
  {
    if n == 0 then Some(Reading(Vec(items), s))
    else
      var r := Read(w, ty.elem, obj, s);
      if r == None then None else ReadItems(w, ty, n - 1, r.value.value, items + [r.value.value], r.value.rest)
  }

  datatype PairReading = PairReading(key: Value, val: Value, rest: seq<Byte>)

  function ReadPair(w: nat, ty: Ty, key: Value, val: Value, s: seq<Byte>): (r: Option<PairReading>)
    requires ty.TMap? && Matches(key, ty.key) && Matches(val, ty.val)
    ensures r.Some? ==> Matches(r.value.key, ty.key) && Matches(r.value.val, ty.val)
    decreases ty, 0, 0
  {
    var k := Read(w, ty.key, key, s);
    if k == None then None
    else
      var v := Read(w, ty.val, val, k.value.rest);
      if v == None then None else Some(PairReading(k.value.value, v.value.value, v.value.rest))
  }

  /** The loop of the map reader: key and val are read again and again and stored. */
  function ReadEntries(w: nat, ty: Ty, n: nat, key: Value, val: Value, entries: seq<Entry>, s: seq<Byte>): (r: Option<Reading>)
    requires ty.TMap? && Matches(key, ty.key) && Matches(val, ty.val)
    ensures r.Some? ==> r.value.value.Map?
    decreases ty, 0, n
  {
    if n == 0 then Some(Reading(Map(entries), s))
    else
      var r := ReadPair(w, ty, key, val, s);
      if r == None then None
      else ReadEntries(w, ty, n - 1, r.value.key, r.value.val, Insert(entries, r.value.key, r.value.val), r.value.rest)
  }

  // ---------- the templates ----------

  class DataOutput {
    const sizeBytes: nat
    var buffer: seq<Byte>

    constructor (sizeBytes: nat)
      ensures this.sizeBytes == sizeBytes && buffer == []
    {
      this.sizeBytes := sizeBytes;
      buffer := [];
    }

    method WriteInt(v: nat, width: nat)
      modifies this
      ensures buffer == old(buffer) + BigEndian(v, width)
    {
      buffer := buffer + BigEndian(v, width);
    }

    method WriteASCIIHuge(bytes: seq<Byte>)
      modifies this
      ensures buffer == old(buffer) + Written(sizeBytes, Str(bytes))
    {
      WriteInt(|bytes|, LENGTH_BYTES);
      buffer := buffer + bytes;
    }

    method WriteUTFHuge(units: seq<WideChar>)
      modifies this
      ensures buffer == old(buffer) + Written(sizeBytes, Wide(units))
    {
      WriteInt(|units|, LENGTH_BYTES);
      ghost var before := buffer;
      var pos := 0;
      while pos < |units|
        invariant 0 <= pos <= |units|
        invariant buffer + WideBytes(units[pos..]) == before + WideBytes(units)
      {
        assert units[pos..][0] == units[pos] && units[pos..][1..] == units[pos + 1..];
        buffer := buffer + [HighByte(units[pos]), LowByte(units[pos])];
        pos := pos + 1;
      }
      assert buffer == before + WideBytes(units);
    }
  }

  method WriteObject(output: DataOutput, value: Value)
    modifies output
    ensures output.buffer == old(output.buffer) + Written(output.sizeBytes, value)
    decreases value, 1
  {
    match value {
      case Str(bytes) => output.WriteASCIIHuge(bytes);
      case Wide(units) => output.WriteUTFHuge(units);
      case Vec(items) => WriteVector(output, items);
      case Map(entries) => WriteMap(output, entries);
    }
  }

  lemma {:induction false} WrittenItemsNext(w: nat, items: seq<Value>, i: nat, buffer: seq<Byte>, whole: seq<Byte>)
    requires i < |items| && buffer + WrittenItems(w, items[i..]) == whole
    ensures buffer + Written(w, items[i]) + WrittenItems(w, items[i + 1..]) == whole
  {
    assert items[i..][0] == items[i] && items[i..][1..] == items[i + 1..];
  }

  method WriteVector(output: DataOutput, items: seq<Value>)
    modifies output
    ensures output.buffer == old(output.buffer) + (BigEndian(|items|, output.sizeBytes) + WrittenItems(output.sizeBytes, items))
    decreases items, 0
  {
    output.WriteInt(|items|, output.sizeBytes);
    ghost var whole := old(output.buffer) + (BigEndian(|items|, output.sizeBytes) + WrittenItems(output.sizeBytes, items));
    assert items[0..] == items;
    assert output.buffer + WrittenItems(output.sizeBytes, items) == whole;
    var i := 0;
    while i < |items|
      invariant 0 <= i <= |items|
      invariant output.buffer + WrittenItems(output.sizeBytes, items[i..]) == whole
    {
      WrittenItemsNext(output.sizeBytes, items, i, output.buffer, whole);
      WriteObject(output, items[i]);
      i := i + 1;
    }
    assert output.buffer + [] == output.buffer;
  }

  method WriteEntry(output: DataOutput, e: Entry)
    modifies output
    ensures output.buffer == old(output.buffer) + WrittenEntry(output.sizeBytes, e)
    decreases e, 2
  {
    WriteObject(output, e.key);
    WriteObject(output, e.val);
  }

  method WriteMap(output: DataOutput, entries: seq<Entry>)
    modifies output
    ensures output.buffer == old(output.buffer) + (BigEndian(|entries|, output.sizeBytes) + WrittenEntries(output.sizeBytes, entries))
    decreases entries, 0
  {
    output.WriteInt(|entries|, output.sizeBytes);
    ghost var before := output.buffer;
    var i := 0;
    while i < |entries|
      invariant 0 <= i <= |entries|
      invariant output.buffer + WrittenEntries(output.sizeBytes, entries[i..]) == before + WrittenEntries(output.sizeBytes, entries)
    {
      assert entries[i..][0] == entries[i] && entries[i..][1..] == entries[i + 1..];
      WriteEntry(output, entries[i]);
      i := i + 1;
    }
    assert output.buffer == before + WrittenEntries(output.sizeBytes, entries);
  }

  lemma {:induction false} WideFromConcat(s: seq<Byte>, t: seq<Byte>)
    requires |s| % 2 == 0 && |t| % 2 == 0
    ensures WideFrom(s + t) == WideFrom(s) + WideFrom(t)
    decreases |s|
  {
    if s == [] {
      assert s + t == t;
    } else {
      assert (s + t)[2..] == s[2..] + t;
      WideFromConcat(s[2..], t);
    }
  }

  lemma {:induction false} WideFromNext(s: seq<Byte>, i: nat)
    requires 2 * i + 2 <= |s|
    ensures WideFrom(s[..2 * i + 2]) == WideFrom(s[..2 * i]) + [JoinBytes(s[2 * i], s[2 * i + 1])]
  {
    var pair := [s[2 * i], s[2 * i + 1]];
    assert s[..2 * i + 2] == s[..2 * i] + pair;
    WideFromConcat(s[..2 * i], pair);
    assert pair[2..] == [];
  }

  class DataInput {
    const sizeBytes: nat
    const buffer: seq<Byte>
    var cursor: nat

    ghost predicate Valid()
      reads this
    {
      cursor <= |buffer|
    }

    function Rest(): seq<Byte>
      requires Valid()
      reads this
    {
      buffer[cursor..]
    }

    constructor (sizeBytes: nat, buffer: seq<Byte>)
      ensures Valid() && this.sizeBytes == sizeBytes && Rest() == buffer
    {
      this.sizeBytes, this.buffer, cursor := sizeBytes, buffer, 0;
    }

    method ReadInt(width: nat) returns (r: Option<nat>)
      requires Valid()
      modifies this
      ensures Valid() && r == ReadNumber(old(Rest()), width)
      ensures Rest() == if r.Some? then old(Rest())[width..] else old(Rest())
    {
      if |buffer| - cursor < width {
        return None;
      }
      r := Some(FromBigEndian(buffer[cursor..cursor + width]));
      assert Rest()[..width] == buffer[cursor..cursor + width];
      cursor := cursor + width;
    }

    /** The characters of a wide string, one at a time. */
    method ReadWideChars(length: nat) returns (r: Option<seq<WideChar>>)
      requires Valid()
      modifies this
      ensures Valid() && r.Some? == (2 * length <= |old(Rest())|)
      ensures r.Some? ==> r.value == WideFrom(old(Rest())[..2 * length]) && Rest() == old(Rest())[2 * length..]
    {
      var units: seq<WideChar> := [];
      var i := 0;
      while i < length
        invariant 0 <= i <= length && cursor == old(cursor) + 2 * i <= |buffer|
        invariant units == WideFrom(old(Rest())[..2 * i])
      {
        if |buffer| - cursor < 2 {
          return None;
        }
        WideFromNext(old(Rest()), i);
        units := units + [JoinBytes(buffer[cursor], buffer[cursor + 1])];
        cursor := cursor + 2;
        i := i + 1;
      }
      return Some(units);
    }

    method ReadBytesOnly(len: nat) returns (r: Option<seq<Byte>>)
      requires Valid()
      modifies this
      ensures Valid() && r.Some? == (len <= |old(Rest())|)
      ensures r.Some? ==> r.value == old(Rest())[..len] && Rest() == old(Rest())[len..]
    {
      if |buffer| - cursor < len {
        return None;
      }
      r := Some(buffer[cursor..cursor + len]);
      cursor := cursor + len;
    }
  }

  /** A reader's result agrees with the specification: value and remaining bytes, or failure. */
  ghost predicate Agrees(r: Option<Value>, rest: seq<Byte>, expected: Option<Reading>) {
    && r.Some? == expected.Some?
    && (r.Some? ==> expected.value == Reading(r.value, rest))
  }

  method ReadObject(input: DataInput, ty: Ty, target: Value) returns (r: Option<Value>)
    requires input.Valid() && Matches(target, ty)
    modifies input
    ensures input.Valid() && Agrees(r, input.Rest(), Read(input.sizeBytes, ty, target, old(input.Rest())))
    decreases ty, 1, 0
  {
    ghost var all := input.Rest();
    match ty {
      case TString =>
        var n := input.ReadInt(LENGTH_BYTES);
        if n == None { return None; }
        ghost var rest := input.Rest();
        var s := input.ReadBytesOnly(n.value);
        assert s.Some? ==>
            && rest[..n.value] == all[LENGTH_BYTES..LENGTH_BYTES + n.value]
            && rest[n.value..] == all[LENGTH_BYTES + n.value..];
        r := if s.Some? then Some(Str(s.value)) else None;
      case TWide =>
        var n := input.ReadInt(LENGTH_BYTES);
        if n == None { return None; }
        ghost var rest := input.Rest();
        var s := input.ReadWideChars(n.value);
        assert s.Some? ==>
            && rest[..2 * n.value] == all[LENGTH_BYTES..LENGTH_BYTES + 2 * n.value]
            && rest[2 * n.value..] == all[LENGTH_BYTES + 2 * n.value..];
        r := if s.Some? then Some(Wide(s.value)) else None;
      case TVector(elem) => r := ReadVector(input, ty, target.items);
      case TMap(key, val) => r := ReadMap(input, ty, target.entries);
    }
  }

  method ReadVector(input: DataInput, ty: Ty, target: seq<Value>) returns (r: Option<Value>)
    requires input.Valid() && ty.TVector?
    modifies input
    ensures input.Valid() && Agrees(r, input.Rest(), Read(input.sizeBytes, ty, Vec(target), old(input.Rest())))
    decreases ty, 0, 0
  {
    var len := input.ReadInt(input.sizeBytes);
    if len == None {
      return None;
    }
    ghost var expected := Read(input.sizeBytes, ty, Vec(target), old(input.Rest()));
    var value := target;
    var obj := Default(ty.elem);
    var index := 0;
    while index < len.value
      invariant 0 <= index <= len.value && input.Valid() && Matches(obj, ty.elem)
      invariant ReadItems(input.sizeBytes, ty, len.value - index, obj, value, input.Rest()) == expected
    {
      var o := ReadObject(input, ty.elem, obj);
      if o == None {
        return None;
      }
      obj := o.value;
      value := value + [obj];
      index := index + 1;
    }
    return Some(Vec(value));
  }

  lemma {:induction false} PairAgrees(w: nat, ty: Ty, key: Value, val: Value, s: seq<Byte>,
                   k: Option<Value>, s1: seq<Byte>, v: Option<Value>, s2: seq<Byte>)
    requires ty.TMap? && Matches(key, ty.key) && Matches(val, ty.val)
    requires Agrees(k, s1, Read(w, ty.key, key, s))
    requires if k.Some? then Agrees(v, s2, Read(w, ty.val, val, s1)) else v.None?
    ensures ReadPair(w, ty, key, val, s).Some? == (k.Some? && v.Some?)
    ensures k.Some? && v.Some? ==> ReadPair(w, ty, key, val, s) == Some(PairReading(k.value, v.value, s2))
  {}

  method ReadPairObject(input: DataInput, ty: Ty, key: Value, val: Value) returns (k: Option<Value>, v: Option<Value>)
    requires input.Valid() && ty.TMap? && Matches(key, ty.key) && Matches(val, ty.val)
    modifies input
    ensures input.Valid()
    ensures ReadPair(input.sizeBytes, ty, key, val, old(input.Rest())).Some? == (k.Some? && v.Some?)
    ensures k.Some? && v.Some? ==>
              ReadPair(input.sizeBytes, ty, key, val, old(input.Rest())) == Some(PairReading(k.value, v.value, input.Rest()))
    decreases ty, 0, 0
  {
    v := None;
    ghost var s := input.Rest();
    k := ReadObject(input, ty.key, key);
    ghost var s1 := input.Rest();
    if k.Some? {
      v := ReadObject(input, ty.val, val);
    }
    PairAgrees(input.sizeBytes, ty, key, val, s, k, s1, v, input.Rest());
  }

  method ReadMap(input: DataInput, ty: Ty, target: seq<Entry>) returns (r: Option<Value>)
    requires input.Valid() && ty.TMap?
    modifies input
    ensures input.Valid() && Agrees(r, input.Rest(), Read(input.sizeBytes, ty, Map(target), old(input.Rest())))
    decreases ty, 0, 1
  {
    var len := input.ReadInt(input.sizeBytes);
    if len == None {
      return None;
    }
    ghost var expected := Read(input.sizeBytes, ty, Map(target), old(input.Rest()));
    var value := target;
    var key, val := Default(ty.key), Default(ty.val);
    var index := 0;
    while index < len.value
      invariant 0 <= index <= len.value && input.Valid() && Matches(key, ty.key) && Matches(val, ty.val)
      invariant ReadEntries(input.sizeBytes, ty, len.value - index, key, val, value, input.Rest()) == expected
    {
      var k, v := ReadPairObject(input, ty, key, val);
      if k == None || v == None {
        return None;
      }
      key, val := k.value, v.value;
      value := Insert(value, key, val);
      index := index + 1;
    }
    return Some(Map(value));
  }
}
