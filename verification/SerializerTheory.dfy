/**
  What reading back gives. Exactly the written bytes are consumed, but the readers keep one
  object for the whole loop and append to it, so nested containers come back changed. The
  module states what comes back, and exactly when it is what was written.
 */
module SerializerTheory {
  import opened Integers
  import opened Options
  import opened Sequences
  import opened SerialValues
  import opened Serializer

  // ---------- typed values ----------

  predicate Conforms(v: Value, ty: Ty)
    decreases v
  {
    match ty
    case TString => v.Str?
    case TWide => v.Wide?
    case TVector(elem) => v.Vec? && forall i :: 0 <= i < |v.items| ==> Conforms(v.items[i], elem)
    case TMap(key, val) =>
      && v.Map? && Sorted(v.entries)
      && forall i :: 0 <= i < |v.entries| ==> Conforms(v.entries[i].key, key) && Conforms(v.entries[i].val, val)
  }

  predicate AllConform(items: seq<Value>, ty: Ty) {
    forall i :: 0 <= i < |items| ==> Conforms(items[i], ty)
  }

  /** Every size fits the bytes it is written in. */
  predicate Fits(w: nat, v: Value)
    decreases v
  {
    match v
    case Str(bytes) => |bytes| < 0x8000_0000
    case Wide(units) => |units| < 0x8000_0000
    case Vec(items) => |items| < Pow256(w) && forall i :: 0 <= i < |items| ==> Fits(w, items[i])
    case Map(entries) =>
      |entries| < Pow256(w) && forall i :: 0 <= i < |entries| ==> Fits(w, entries[i].key) && Fits(w, entries[i].val)
  }

  predicate EntriesFit(w: nat, entries: seq<Entry>) {
    forall i :: 0 <= i < |entries| ==> Fits(w, entries[i].key) && Fits(w, entries[i].val)
  }

  predicate AllFit(w: nat, items: seq<Value>) {
    forall i :: 0 <= i < |items| ==> Fits(w, items[i])
  }

  function Keys(entries: seq<Entry>): (r: seq<Value>)
    ensures |r| == |entries|
  {
    if entries == [] then [] else [entries[0].key] + Keys(entries[1..])
  }

  function Vals(entries: seq<Entry>): (r: seq<Value>)
    ensures |r| == |entries|
  {
    if entries == [] then [] else [entries[0].val] + Vals(entries[1..])
  }

  lemma {:induction false} EntryParts(entries: seq<Entry>, i: nat)
    requires i < |entries|
    ensures Keys(entries)[i] == entries[i].key && Vals(entries)[i] == entries[i].val
    decreases |entries|
  {
    if i > 0 {
      EntryParts(entries[1..], i - 1);
    }
  }

  lemma {:induction false} PartsConform(entries: seq<Entry>, key: Ty, val: Ty)
    requires forall i :: 0 <= i < |entries| ==> Conforms(entries[i].key, key) && Conforms(entries[i].val, val)
    ensures AllConform(Keys(entries), key) && AllConform(Vals(entries), val)
  {
    forall i | 0 <= i < |entries|
      ensures Conforms(Keys(entries)[i], key) && Conforms(Vals(entries)[i], val)
    {
      EntryParts(entries, i);
    }
  }

  // ---------- what comes back ----------

  function NarrowedUnit(c: WideChar): (r: WideChar)
    ensures r == c <==> c < 0x1_0000
  {
    c % 0x1_0000
  }

  /** What is left of a wide string when each character is written in two bytes. */
  function Narrowed(units: seq<WideChar>): (r: seq<WideChar>)
    ensures |r| == |units|
  {
    if units == [] then [] else [NarrowedUnit(units[0])] + Narrowed(units[1..])
  }

  /** The value with its wide characters cut to the 16 bits that are written. */
  function Cut(v: Value): Value
    decreases v, 1
  {
    match v
    case Str(_) => v
    case Wide(units) => Wide(Narrowed(units))
    case Vec(items) => Vec(CutItems(items))
    case Map(entries) => Map(CutEntries(entries))
  }

  function CutItems(items: seq<Value>): (r: seq<Value>)
    ensures |r| == |items|
    decreases items, 0
  {
    if items == [] then [] else [Cut(items[0])] + CutItems(items[1..])
  }

  function CutEntry(e: Entry): Entry
    decreases e, 2
  {
    Entry(Cut(e.key), Cut(e.val))
  }

  function CutEntries(entries: seq<Entry>): (r: seq<Entry>)
    ensures |r| == |entries|
    decreases entries, 0
  {
    if entries == [] then [] else [CutEntry(entries[0])] + CutEntries(entries[1..])
  }

  /** The target after v was written and read back into it. */
  function ReadBack(ty: Ty, target: Value, v: Value): (r: Value)
    requires Matches(target, ty) && Conforms(v, ty)
    ensures Matches(r, ty)
    decreases ty, 0, 0
  {
    match ty
    case TString => v
    case TWide => Wide(Narrowed(v.units))
    case TVector(elem) => Vec(target.items + Successive(elem, Default(elem), v.items))
    case TMap(key, val) =>
      PartsConform(v.entries, key, val);
      Map(InsertAll(target.entries,
                    Successive(key, Default(key), Keys(v.entries)),
                    Successive(val, Default(val), Vals(v.entries))))
  }

  /** The states of one object into which the items are read one after another. */
  function Successive(ty: Ty, obj: Value, items: seq<Value>): (r: seq<Value>)
    requires Matches(obj, ty) && AllConform(items, ty)
    ensures |r| == |items|
    decreases ty, 1, |items|
  {
    if items == [] then []
    else
      var o := ReadBack(ty, obj, items[0]);
      [o] + Successive(ty, o, items[1..])
  }

  function InsertAll(entries: seq<Entry>, keys: seq<Value>, vals: seq<Value>): seq<Entry>
    requires |keys| == |vals|
    decreases |keys|
  {
    if keys == [] then entries else InsertAll(Insert(entries, keys[0], vals[0]), keys[1..], vals[1..])
  }

  // ---------- the reader consumes what was written ----------

  lemma {:induction false} NumberInFront(n: nat, width: nat, rest: seq<Byte>)
    requires n < Pow256(width)
    ensures ReadNumber(BigEndian(n, width) + rest, width) == Some(n)
    ensures (BigEndian(n, width) + rest)[width..] == rest
  {
    BigEndianRoundTrip(n, width);
    assert (BigEndian(n, width) + rest)[..width] == BigEndian(n, width);
  }

  lemma {:induction false} LengthFits(n: nat)
    requires n < 0x8000_0000
    ensures n < Pow256(LENGTH_BYTES)
  {
    assert Pow256(4) == 0x1_0000_0000;
  }

  lemma {:induction false} JoinUnit(c: WideChar)
    ensures JoinBytes(HighByte(c), LowByte(c)) == NarrowedUnit(c)
  {
    Digits(c);
  }

  lemma {:induction false} HighUnit(c: WideChar)
    ensures HighByte(NarrowedUnit(c)) == HighByte(c)
  {
    Digits(c);
  }

  lemma {:induction false} LowUnit(c: WideChar)
    ensures LowByte(NarrowedUnit(c)) == LowByte(c)
  {
    Digits(c);
  }

  lemma {:induction false} Digits(c: int)
    ensures c % 0x1_0000 == 0x100 * (c / 0x100 % 0x100) + c % 0x100
  {
    var h := c / 0x100;
    var k, m, l := h / 0x100, h % 0x100, c % 0x100;
    assert c == 0x1_0000 * k + (0x100 * m + l);
  }

  lemma {:induction false} WideFromBytes(units: seq<WideChar>)
    ensures WideFrom(WideBytes(units)) == Narrowed(units)
    decreases |units|
  {
    if units != [] {
      assert WideBytes(units)[2..] == WideBytes(units[1..]);
      WideFromBytes(units[1..]);
      JoinUnit(units[0]);
    }
  }

  lemma {:induction false} ReadString(w: nat, target: Value, v: Value, rest: seq<Byte>)
    requires target.Str? && v.Str? && Fits(w, v)
    ensures Read(w, TString, target, Written(w, v) + rest) == Some(Reading(v, rest))
  {
    var n := |v.bytes|;
    LengthFits(n);
    var s := BigEndian(n, LENGTH_BYTES) + (v.bytes + rest);
    Assoc(BigEndian(n, LENGTH_BYTES), v.bytes, rest);
    NumberInFront(n, LENGTH_BYTES, v.bytes + rest);
    assert s[LENGTH_BYTES..LENGTH_BYTES + n] == v.bytes;
    assert s[LENGTH_BYTES + n..] == rest;
  }

  lemma {:induction false} ReadWide(w: nat, target: Value, v: Value, rest: seq<Byte>)
    requires target.Wide? && v.Wide? && Fits(w, v)
    ensures Read(w, TWide, target, Written(w, v) + rest) == Some(Reading(Wide(Narrowed(v.units)), rest))
  {
    var n, body := |v.units|, WideBytes(v.units);
    LengthFits(n);
    var s := BigEndian(n, LENGTH_BYTES) + (body + rest);
    Assoc(BigEndian(n, LENGTH_BYTES), body, rest);
    NumberInFront(n, LENGTH_BYTES, body + rest);
    assert s[LENGTH_BYTES..LENGTH_BYTES + 2 * n] == body;
    assert s[LENGTH_BYTES + 2 * n..] == rest;
    WideFromBytes(v.units);
  }

  /** Reading what was written consumes it exactly, and leaves ReadBack in the target. */
  lemma {:induction false} ReadWritten(w: nat, ty: Ty, target: Value, v: Value, rest: seq<Byte>)
    requires Matches(target, ty) && Conforms(v, ty) && Fits(w, v)
    ensures Read(w, ty, target, Written(w, v) + rest) == Some(Reading(ReadBack(ty, target, v), rest))
    decreases ty, 1, 0
  {
    match ty {
      case TString => ReadString(w, target, v, rest);
      case TWide => ReadWide(w, target, v, rest);
      case TVector(elem) =>
        var body := WrittenItems(w, v.items) + rest;
        NumberInFront(|v.items|, w, body);
        Assoc(BigEndian(|v.items|, w), WrittenItems(w, v.items), rest);
        ReadWrittenItems(w, ty, Default(elem), target.items, v.items, rest);
      case TMap(key, val) =>
        var body := WrittenEntries(w, v.entries) + rest;
        NumberInFront(|v.entries|, w, body);
        Assoc(BigEndian(|v.entries|, w), WrittenEntries(w, v.entries), rest);
        PartsConform(v.entries, key, val);
        ReadWrittenEntries(w, ty, Default(key), Default(val), target.entries, v.entries, rest);
    }
  }

  lemma {:induction false} ReadWrittenItems(w: nat, ty: Ty, obj: Value, target: seq<Value>, items: seq<Value>, rest: seq<Byte>)
    requires ty.TVector? && Matches(obj, ty.elem) && AllConform(items, ty.elem) && AllFit(w, items)
    ensures ReadItems(w, ty, |items|, obj, target, WrittenItems(w, items) + rest) ==
            Some(Reading(Vec(target + Successive(ty.elem, obj, items)), rest))
    decreases ty, 0, |items|
  {
    if items == [] {
      assert WrittenItems(w, items) + rest == rest;
      assert target + [] == target;
    } else {
      var tail := WrittenItems(w, items[1..]) + rest;
      Assoc(Written(w, items[0]), WrittenItems(w, items[1..]), rest);
      ReadWritten(w, ty.elem, obj, items[0], tail);
      var o := ReadBack(ty.elem, obj, items[0]);
      ReadWrittenItems(w, ty, o, target + [o], items[1..], rest);
      Assoc(target, [o], Successive(ty.elem, o, items[1..]));
    }
  }

  lemma {:induction false} ReadWrittenPair(w: nat, ty: Ty, key: Value, val: Value, e: Entry, tail: seq<Byte>)
    requires ty.TMap? && Matches(key, ty.key) && Matches(val, ty.val)
    requires Conforms(e.key, ty.key) && Conforms(e.val, ty.val) && Fits(w, e.key) && Fits(w, e.val)
    ensures ReadPair(w, ty, key, val, WrittenEntry(w, e) + tail) ==
            Some(PairReading(ReadBack(ty.key, key, e.key), ReadBack(ty.val, val, e.val), tail))
    decreases ty, 0, 0
  {
    Assoc(Written(w, e.key), Written(w, e.val), tail);
    ReadWritten(w, ty.key, key, e.key, Written(w, e.val) + tail);
    ReadWritten(w, ty.val, val, e.val, tail);
  }

  lemma {:induction false} ReadWrittenEntries(w: nat, ty: Ty, key: Value, val: Value, target: seq<Entry>,
                                              entries: seq<Entry>, rest: seq<Byte>)
    requires ty.TMap? && Matches(key, ty.key) && Matches(val, ty.val)
    requires AllConform(Keys(entries), ty.key) && AllConform(Vals(entries), ty.val)
    requires EntriesFit(w, entries)
    ensures ReadEntries(w, ty, |entries|, key, val, target, WrittenEntries(w, entries) + rest) ==
            Some(Reading(Map(InsertAll(target, Successive(ty.key, key, Keys(entries)), Successive(ty.val, val, Vals(entries)))), rest))
    decreases ty, 0, |entries|
  {
    if entries == [] {
      assert WrittenEntries(w, entries) + rest == rest;
    } else {
      var e, tail := entries[0], WrittenEntries(w, entries[1..]) + rest;
      Assoc(WrittenEntry(w, e), WrittenEntries(w, entries[1..]), rest);
      assert Keys(entries)[0] == e.key && Vals(entries)[0] == e.val;
      assert Keys(entries)[1..] == Keys(entries[1..]) && Vals(entries)[1..] == Vals(entries[1..]);
      ReadWrittenPair(w, ty, key, val, e, tail);
      var k, v := ReadBack(ty.key, key, e.key), ReadBack(ty.val, val, e.val);
      ReadWrittenEntries(w, ty, k, v, Insert(target, k, v), entries[1..], rest);
      var ks, vs := Successive(ty.key, key, Keys(entries)), Successive(ty.val, val, Vals(entries));
      assert ks[1..] == Successive(ty.key, k, Keys(entries[1..]));
      assert vs[1..] == Successive(ty.val, v, Vals(entries[1..]));
    }
  }

  // ---------- maps come back overridden ----------

  /** The entries read are stored one after another, later ones over earlier ones. */
  function Override(m: map<Value, Value>, keys: seq<Value>, vals: seq<Value>): map<Value, Value>
    requires |keys| == |vals|
    decreases |keys|
  {
    if keys == [] then m else Override(m[keys[0] := vals[0]], keys[1..], vals[1..])
  }

  lemma {:induction false} InsertAllAsMap(entries: seq<Entry>, keys: seq<Value>, vals: seq<Value>)
    requires |keys| == |vals|
    ensures AsMap(InsertAll(entries, keys, vals)) == Override(AsMap(entries), keys, vals)
    ensures Sorted(entries) ==> Sorted(InsertAll(entries, keys, vals))
    decreases |keys|
  {
    if keys != [] {
      InsertAsMap(entries, keys[0], vals[0]);
      if Sorted(entries) {
        InsertSorted(entries, keys[0], vals[0]);
      }
      InsertAllAsMap(Insert(entries, keys[0], vals[0]), keys[1..], vals[1..]);
    }
  }

  predicate Distinct(keys: seq<Value>) {
    forall i, j :: 0 <= i < j < |keys| ==> keys[i] != keys[j]
  }

  /** No later key is the same. */
  predicate LastOf(keys: seq<Value>, i: nat)
    requires i < |keys|
  {
    forall j :: i < j < |keys| ==> keys[j] != keys[i]
  }

  /** The keys are those of both sides, and each holds the last value stored for it. */
  lemma {:induction false} OverrideLast(m: map<Value, Value>, keys: seq<Value>, vals: seq<Value>)
    requires |keys| == |vals|
    ensures forall k :: k in Override(m, keys, vals) <==> k in m || k in keys
    ensures forall k :: k in m && k !in keys ==> Override(m, keys, vals)[k] == m[k]
    ensures forall i :: 0 <= i < |keys| && LastOf(keys, i) ==> Override(m, keys, vals)[keys[i]] == vals[i]
    decreases |keys|
  {
    if keys != [] {
      var m', ks, vs := m[keys[0] := vals[0]], keys[1..], vals[1..];
      OverrideLast(m', ks, vs);
      assert keys == [keys[0]] + ks;
      forall i | 0 <= i < |keys| && LastOf(keys, i)
        ensures keys[i] in Override(m, keys, vals) && Override(m, keys, vals)[keys[i]] == vals[i]
      {
        if i > 0 {
          assert keys[i] == ks[i - 1] && vals[i] == vs[i - 1];
          LastOfTail(keys, i);
        } else {
          assert keys[0] !in ks;
        }
      }
    }
  }

  lemma {:induction false} LastOfTail(keys: seq<Value>, i: nat)
    requires 0 < i < |keys| && LastOf(keys, i)
    ensures LastOf(keys[1..], i - 1)
  {
    forall j | i - 1 < j < |keys[1..]|
      ensures keys[1..][j] != keys[1..][i - 1]
    {
      assert keys[1..][j] == keys[j + 1];
    }
  }

  lemma {:induction false} LastIndex(keys: seq<Value>, k: Value) returns (i: nat)
    requires k in keys
    ensures i < |keys| && keys[i] == k && LastOf(keys, i)
    decreases |keys|
  {
    var n := |keys| - 1;
    if keys[n] == k {
      i := n;
    } else {
      i := LastIndex(keys[..n], k);
      forall j | i < j < |keys|
        ensures keys[j] != keys[i]
      {
        if j < n {
          assert keys[..n][j] == keys[j];
        }
      }
    }
  }

  lemma {:induction false} OverrideDistinct(m: map<Value, Value>, keys: seq<Value>, vals: seq<Value>)
    requires |keys| == |vals| && Distinct(keys)
    ensures forall k :: k in Override(m, keys, vals) <==> k in m || k in keys
    ensures forall k :: k in m && k !in keys ==> Override(m, keys, vals)[k] == m[k]
    ensures forall i :: 0 <= i < |keys| ==> Override(m, keys, vals)[keys[i]] == vals[i]
  {
    OverrideLast(m, keys, vals);
    forall i | 0 <= i < |keys|
      ensures LastOf(keys, i)
    {
    }
  }

  lemma {:induction false} KeysDistinct(entries: seq<Entry>)
    requires Sorted(entries)
    ensures Distinct(Keys(entries))
  {
    forall i, j | 0 <= i < j < |entries|
      ensures Keys(entries)[i] != Keys(entries)[j]
    {
      EntryParts(entries, i);
      EntryParts(entries, j);
      CompareLaws(entries[i].key, entries[j].key);
    }
  }

  lemma {:induction false} AsMapEntries(entries: seq<Entry>)
    requires Sorted(entries)
    ensures forall k :: k in AsMap(entries) <==> k in Keys(entries)
    ensures forall i :: 0 <= i < |entries| ==> entries[i].key in AsMap(entries) && AsMap(entries)[entries[i].key] == entries[i].val
    decreases |entries|
  {
    if entries != [] {
      SortedTail(entries);
      AsMapEntries(entries[1..]);
      forall i | 0 <= i < |entries|
        ensures entries[i].key in AsMap(entries) && AsMap(entries)[entries[i].key] == entries[i].val
      {
        if i > 0 {
          assert entries[i] == entries[1..][i - 1];
          CompareLaws(entries[0].key, entries[i].key);
        }
      }
    }
  }

  lemma {:induction false} OverrideEntry(m: map<Value, Value>, entries: seq<Entry>, k: Value)
    requires Sorted(entries)
    ensures k in Override(m, Keys(entries), Vals(entries)) <==> k in m || k in AsMap(entries)
    ensures k in AsMap(entries) ==> Override(m, Keys(entries), Vals(entries))[k] == AsMap(entries)[k]
    ensures k in m && k !in AsMap(entries) ==> Override(m, Keys(entries), Vals(entries))[k] == m[k]
  {
    KeysDistinct(entries);
    OverrideDistinct(m, Keys(entries), Vals(entries));
    AsMapEntries(entries);
    if k in AsMap(entries) {
      var i :| 0 <= i < |entries| && Keys(entries)[i] == k;
      EntryParts(entries, i);
    }
  }

  lemma {:induction false} OverrideEntries(m: map<Value, Value>, entries: seq<Entry>)
    requires Sorted(entries)
    ensures Override(m, Keys(entries), Vals(entries)) == m + AsMap(entries)
  {
    var o, written := Override(m, Keys(entries), Vals(entries)), AsMap(entries);
    forall k
      ensures k in o <==> k in m + written
      ensures k in o ==> o[k] == (m + written)[k]
    {
      OverrideEntry(m, entries, k);
    }
  }

  /** A map of any type: the entries read, in key order, over the target's. */
  lemma {:induction false} MapReadBack(key: Ty, val: Ty, target: Value, v: Value)
    requires Conforms(target, TMap(key, val)) && Conforms(v, TMap(key, val))
    requires AllConform(Keys(v.entries), key) && AllConform(Vals(v.entries), val)
    ensures var r := ReadBack(TMap(key, val), target, v).entries;
            && Sorted(r)
            && AsMap(r) == Override(AsMap(target.entries),
                                    Successive(key, Default(key), Keys(v.entries)),
                                    Successive(val, Default(val), Vals(v.entries)))
  {
    InsertAllAsMap(target.entries, Successive(key, Default(key), Keys(v.entries)), Successive(val, Default(val), Vals(v.entries)));
  }

  /**
    When a map equals the target overridden by the states of key and val: the target has no
    other key, every state of key is one, the last of its states carries its value, and a
    key that is no state was in the target with its value.
   */
  ghost predicate Restored(target: map<Value, Value>, v: map<Value, Value>, keys: seq<Value>, vals: seq<Value>)
    requires |keys| == |vals|
  {
    && (forall k :: k in target || k in keys ==> k in v)
    && (forall i :: 0 <= i < |keys| && LastOf(keys, i) ==> keys[i] in v && v[keys[i]] == vals[i])
    && (forall k :: k in v && k !in keys ==> k in target && target[k] == v[k])
  }

  lemma {:induction false} RestoredIff(target: map<Value, Value>, v: map<Value, Value>, keys: seq<Value>, vals: seq<Value>)
    requires |keys| == |vals|
    ensures Override(target, keys, vals) == v <==> Restored(target, v, keys, vals)
  {
    OverrideLast(target, keys, vals);
    if Restored(target, v, keys, vals) {
      var o := Override(target, keys, vals);
      forall k
        ensures k in o <==> k in v
        ensures k in o ==> o[k] == v[k]
      {
        if k in keys {
          var i := LastIndex(keys, k);
        }
      }
      assert o == v;
    }
  }

  /** A map of any type comes back unchanged exactly if it is restored from the states. */
  lemma {:induction false} MapRoundTripIff(key: Ty, val: Ty, target: Value, v: Value)
    requires Conforms(target, TMap(key, val)) && Conforms(v, TMap(key, val))
    requires AllConform(Keys(v.entries), key) && AllConform(Vals(v.entries), val)
    ensures ReadBack(TMap(key, val), target, v) == v <==>
            Restored(AsMap(target.entries), AsMap(v.entries),
                     Successive(key, Default(key), Keys(v.entries)), Successive(val, Default(val), Vals(v.entries)))
  {
    MapReadBack(key, val, target, v);
    var r := ReadBack(TMap(key, val), target, v);
    if AsMap(r.entries) == AsMap(v.entries) {
      Canonical(r.entries, v.entries);
    }
    RestoredIff(AsMap(target.entries), AsMap(v.entries),
                Successive(key, Default(key), Keys(v.entries)), Successive(val, Default(val), Vals(v.entries)));
  }

  // ---------- exact round trips ----------

  predicate Narrow(units: seq<WideChar>) {
    forall i :: 0 <= i < |units| ==> units[i] < 0x1_0000
  }

  lemma {:induction false} NarrowedFixed(units: seq<WideChar>)
    ensures Narrowed(units) == units <==> Narrow(units)
    decreases |units|
  {
    if units != [] {
      NarrowedFixed(units[1..]);
      assert units == [units[0]] + units[1..];
      if Narrowed(units) == units {
        assert units[0] == Narrowed(units)[0] && units[1..] == Narrowed(units)[1..];
      }
    }
  }

  /** The condition for v to come back unchanged when it is read into the target. */
  predicate Faithful(ty: Ty, target: Value, v: Value)
    requires Conforms(target, ty) && Conforms(v, ty)
    decreases ty, 0, 0
  {
    match ty
    case TString => true
    case TWide => Narrow(v.units)
    case TVector(elem) => target.items == [] && Chain(elem, Default(elem), v.items)
    case TMap(key, val) =>
      PartsConform(v.entries, key, val);
      && (forall k :: k in Keys(target.entries) ==> k in Keys(v.entries))
      && Chain(key, Default(key), Keys(v.entries))
      && Chain(val, Default(val), Vals(v.entries))
  }

  /** Each item comes back unchanged when read over the one before it. */
  predicate Chain(ty: Ty, obj: Value, items: seq<Value>)
    requires Conforms(obj, ty) && AllConform(items, ty)
    decreases ty, 1, |items|
  {
    items != [] ==> Faithful(ty, obj, items[0]) && Chain(ty, items[0], items[1..])
  }

  lemma {:induction false} NoOtherKeys(target: seq<Entry>, entries: seq<Entry>)
    requires Sorted(target) && Sorted(entries)
    requires forall k :: k in Keys(target) ==> k in Keys(entries)
    ensures AsMap(target) + AsMap(entries) == AsMap(entries)
  {
    AsMapEntries(target);
    AsMapEntries(entries);
  }

  /** If its keys and values come back unchanged and the target has no other keys, so does a map. */
  lemma {:induction false} MapUnchanged(key: Ty, val: Ty, target: Value, v: Value)
    requires Conforms(target, TMap(key, val)) && Conforms(v, TMap(key, val))
    requires AllConform(Keys(v.entries), key) && AllConform(Vals(v.entries), val)
    requires Successive(key, Default(key), Keys(v.entries)) == Keys(v.entries)
    requires Successive(val, Default(val), Vals(v.entries)) == Vals(v.entries)
    requires forall k :: k in Keys(target.entries) ==> k in Keys(v.entries)
    ensures ReadBack(TMap(key, val), target, v) == v
  {
    MapReadBack(key, val, target, v);
    OverrideEntries(AsMap(target.entries), v.entries);
    NoOtherKeys(target.entries, v.entries);
    Canonical(ReadBack(TMap(key, val), target, v).entries, v.entries);
  }

  lemma {:induction false} FaithfulSuffices(ty: Ty, target: Value, v: Value)
    requires Conforms(target, ty) && Conforms(v, ty) && Faithful(ty, target, v)
    ensures ReadBack(ty, target, v) == v
    decreases ty, 0, 0
  {
    match ty {
      case TString =>
      case TWide => NarrowedFixed(v.units);
      case TVector(elem) =>
        ChainSuffices(elem, Default(elem), v.items);
      case TMap(key, val) =>
        PartsConform(v.entries, key, val);
        ChainSuffices(key, Default(key), Keys(v.entries));
        ChainSuffices(val, Default(val), Vals(v.entries));
        MapUnchanged(key, val, target, v);
    }
  }

  lemma {:induction false} ChainSuffices(ty: Ty, obj: Value, items: seq<Value>)
    requires Conforms(obj, ty) && AllConform(items, ty) && Chain(ty, obj, items)
    ensures Successive(ty, obj, items) == items
    decreases ty, 1, |items|
  {
    if items != [] {
      FaithfulSuffices(ty, obj, items[0]);
      ChainSuffices(ty, items[0], items[1..]);
      assert items == [items[0]] + items[1..];
    }
  }

  predicate Flat(ty: Ty) {
    ty.TString? || ty.TWide?
  }

  predicate MapFree(ty: Ty) {
    match ty
    case TString => true
    case TWide => true
    case TVector(elem) => MapFree(elem)
    case TMap(_, _) => false
  }

  /** No map occurs inside a map key, at any depth. */
  predicate MapFreeKeys(ty: Ty) {
    match ty
    case TString => true
    case TWide => true
    case TVector(elem) => MapFreeKeys(elem)
    case TMap(key, val) => MapFree(key) && MapFreeKeys(val)
  }

  predicate NarrowText(v: Value) {
    v.Wide? ==> Narrow(v.units)
  }

  predicate AllNarrow(items: seq<Value>) {
    forall i :: 0 <= i < |items| ==> NarrowText(items[i])
  }

  /** Wide map keys fit 16 bits, at every depth. */
  predicate NarrowKeys(v: Value)
    decreases v
  {
    match v
    case Str(_) => true
    case Wide(_) => true
    case Vec(items) => forall i :: 0 <= i < |items| ==> NarrowKeys(items[i])
    case Map(entries) => forall i :: 0 <= i < |entries| ==> NarrowText(entries[i].key) && NarrowKeys(entries[i].val)
  }

  predicate AllNarrowKeys(items: seq<Value>) {
    forall i :: 0 <= i < |items| ==> NarrowKeys(items[i])
  }

  lemma {:induction false} EntryKeysNarrow(v: Value)
    requires v.Map? && NarrowKeys(v)
    ensures AllNarrow(Keys(v.entries)) && AllNarrowKeys(Vals(v.entries))
  {
    forall i | 0 <= i < |v.entries|
      ensures NarrowText(Keys(v.entries)[i]) && NarrowKeys(Vals(v.entries)[i])
    {
      EntryParts(v.entries, i);
    }
  }

  lemma {:induction false} MapFreeNarrow(ty: Ty, v: Value)
    requires MapFree(ty) && Conforms(v, ty)
    ensures MapFreeKeys(ty) && NarrowKeys(v)
    decreases ty
  {
    if ty.TVector? {
      MapFreeType(ty.elem);
      forall i | 0 <= i < |v.items|
        ensures NarrowKeys(v.items[i])
      {
        MapFreeNarrow(ty.elem, v.items[i]);
      }
    }
  }

  lemma {:induction false} MapFreeType(ty: Ty)
    requires MapFree(ty)
    ensures MapFreeKeys(ty)
    decreases ty
  {
    if ty.TVector? {
      MapFreeType(ty.elem);
    }
  }

  // What is read never has a wide key above 16 bits, so neither has a target that had none before.

  lemma {:induction false} NarrowedIsNarrow(units: seq<WideChar>)
    ensures Narrow(Narrowed(units))
    decreases |units|
  {
    if units != [] {
      NarrowedIsNarrow(units[1..]);
    }
  }

  lemma {:induction false} StateNarrow(ty: Ty, target: Value, v: Value)
    requires Matches(target, ty) && Conforms(v, ty)
    ensures NarrowText(ReadBack(ty, target, v))
  {
    if ty.TWide? {
      NarrowedIsNarrow(v.units);
    }
  }

  lemma {:induction false} StatesNarrow(ty: Ty, obj: Value, items: seq<Value>)
    requires Matches(obj, ty) && AllConform(items, ty)
    ensures AllNarrow(Successive(ty, obj, items))
    decreases |items|
  {
    if items != [] {
      var o := ReadBack(ty, obj, items[0]);
      StateNarrow(ty, obj, items[0]);
      StatesNarrow(ty, o, items[1..]);
    }
  }

  predicate NarrowEntries(entries: seq<Entry>) {
    forall i :: 0 <= i < |entries| ==> NarrowText(entries[i].key) && NarrowKeys(entries[i].val)
  }

  lemma {:induction false} InsertNarrow(entries: seq<Entry>, k: Value, v: Value)
    requires NarrowEntries(entries) && NarrowText(k) && NarrowKeys(v)
    ensures NarrowEntries(Insert(entries, k, v))
    decreases |entries|
  {
    if entries != [] {
      InsertNarrow(entries[1..], k, v);
    }
  }

  lemma {:induction false} InsertAllNarrow(entries: seq<Entry>, keys: seq<Value>, vals: seq<Value>)
    requires |keys| == |vals| && NarrowEntries(entries) && AllNarrow(keys) && AllNarrowKeys(vals)
    ensures NarrowEntries(InsertAll(entries, keys, vals))
    decreases |keys|
  {
    if keys != [] {
      InsertNarrow(entries, keys[0], vals[0]);
      InsertAllNarrow(Insert(entries, keys[0], vals[0]), keys[1..], vals[1..]);
    }
  }

  lemma {:induction false} ReadBackNarrow(ty: Ty, target: Value, v: Value)
    requires Matches(target, ty) && Conforms(v, ty) && NarrowKeys(target)
    ensures NarrowKeys(ReadBack(ty, target, v))
    decreases ty, 0, 0
  {
    match ty {
      case TString =>
      case TWide =>
      case TVector(elem) => SuccessiveNarrow(elem, Default(elem), v.items);
      case TMap(key, val) =>
        PartsConform(v.entries, key, val);
        StatesNarrow(key, Default(key), Keys(v.entries));
        SuccessiveNarrow(val, Default(val), Vals(v.entries));
        InsertAllNarrow(target.entries, Successive(key, Default(key), Keys(v.entries)),
                        Successive(val, Default(val), Vals(v.entries)));
    }
  }

  lemma {:induction false} SuccessiveNarrow(ty: Ty, obj: Value, items: seq<Value>)
    requires Matches(obj, ty) && AllConform(items, ty) && NarrowKeys(obj)
    ensures AllNarrowKeys(Successive(ty, obj, items))
    decreases ty, 1, |items|
  {
    if items != [] {
      ReadBackNarrow(ty, obj, items[0]);
      SuccessiveNarrow(ty, ReadBack(ty, obj, items[0]), items[1..]);
    }
  }

  // If every state of the key is a key of the map that was written, the states are its keys.

  lemma {:induction false} FlatStates(ty: Ty, obj: Value, items: seq<Value>)
    requires Flat(ty) && Matches(obj, ty) && AllConform(items, ty)
    ensures Successive(ty, obj, items) == CutItems(items)
    decreases |items|
  {
    if items != [] {
      FlatStates(ty, ReadBack(ty, obj, items[0]), items[1..]);
    }
  }

  lemma {:induction false} CutNarrow(ty: Ty, items: seq<Value>)
    requires Flat(ty) && AllConform(items, ty)
    ensures CutItems(items) == items <==> AllNarrow(items)
    decreases |items|
  {
    if items != [] {
      CutNarrow(ty, items[1..]);
      assert items == [items[0]] + items[1..];
      if items[0].Wide? {
        NarrowedFixed(items[0].units);
      }
      if CutItems(items) == items {
        assert CutItems(items)[0] == items[0] && CutItems(items)[1..] == items[1..];
        AllNarrowCons(items);
      }
    }
  }

  lemma {:induction false} AllNarrowCons(items: seq<Value>)
    requires items != []
    ensures AllNarrow(items) <==> NarrowText(items[0]) && AllNarrow(items[1..])
  {
    if NarrowText(items[0]) && AllNarrow(items[1..]) {
      forall i | 0 <= i < |items|
        ensures NarrowText(items[i])
      {
        assert i > 0 ==> items[i] == items[1..][i - 1];
      }
    }
  }

  lemma {:induction false} GatheredOne(elem: Ty, vectors: seq<Value>, a: nat)
    requires AllConform(vectors, TVector(elem)) && a < |vectors|
    ensures |Gathered(elem, vectors)| >= |vectors[a].items|
    decreases a
  {
    if a > 0 {
      GatheredOne(elem, vectors[1..], a - 1);
    }
  }

  /** Two of several vectors are not longer than all of them together. */
  lemma {:induction false} GatheredTwo(elem: Ty, vectors: seq<Value>, a: nat, b: nat)
    requires AllConform(vectors, TVector(elem)) && a < b < |vectors|
    ensures |Gathered(elem, vectors)| >= |vectors[a].items| + |vectors[b].items|
    decreases a
  {
    if a > 0 {
      GatheredTwo(elem, vectors[1..], a - 1, b - 1);
    } else {
      GatheredOne(elem, vectors[1..], b - 1);
    }
  }

  lemma {:induction false} AllTogether(elem: Ty, vectors: seq<Value>)
    requires AllConform(vectors, TVector(elem)) && vectors != []
    ensures Successive(TVector(elem), Vec([]), vectors)[|vectors| - 1] == Vec(Gathered(elem, vectors))
  {
    SuccessiveVectors(elem, [], vectors, |vectors| - 1);
    assert vectors[..|vectors|] == vectors;
    assert [] + Gathered(elem, vectors) == Gathered(elem, vectors);
  }

  /** If all the keys together are one of them, the others are empty. */
  lemma {:induction false} OthersEmpty(elem: Ty, keys: seq<Value>, j: nat)
    requires AllConform(keys, TVector(elem)) && j < |keys| && keys[j] == Vec(Gathered(elem, keys))
    ensures forall i :: 0 <= i < |keys| && i != j ==> keys[i] == Vec([])
  {
    forall i | 0 <= i < |keys| && i != j
      ensures keys[i] == Vec([])
    {
      GatheredTwo(elem, keys, if i < j then i else j, if i < j then j else i);
      assert |keys[i].items| == 0;
    }
  }

  lemma {:induction false} VectorStates(elem: Ty, entries: seq<Entry>)
    requires Sorted(entries) && AllConform(Keys(entries), TVector(elem))
    requires forall i :: 0 <= i < |entries| ==> Successive(TVector(elem), Vec([]), Keys(entries))[i] in Keys(entries)
    ensures Successive(TVector(elem), Vec([]), Keys(entries)) == Keys(entries)
  {
    var keys, n := Keys(entries), |entries|;
    if n > 0 {
      var s := Successive(TVector(elem), Vec([]), keys);
      AllTogether(elem, keys);
      assert s[n - 1] in keys;
      var j :| 0 <= j < n && keys[j] == s[n - 1];
      OthersEmpty(elem, keys, j);
      EmptyKeyFirst(entries, j);
      if n == 2 {
        SuccessiveVectors(elem, [], keys, 0);
        assert keys[..1] == [Vec([])];
        assert [Vec([])][1..] == [];
        assert s == [s[0], s[1]] && keys == [keys[0], keys[1]];
      } else {
        assert s == [s[0]] && keys == [keys[0]];
      }
    }
  }

  lemma {:induction false} NotBeforeEmpty(items: seq<Value>)
    ensures !Less(Vec(items), Vec([]))
  {
    assert CompareValues(items, []) >= 0;
  }

  /** Of the keys of a map at most one is empty, and it comes first. */
  lemma {:induction false} EmptyKeyFirst(entries: seq<Entry>, j: nat)
    requires Sorted(entries) && j < |entries| && Keys(entries)[j].Vec?
    requires forall i :: 0 <= i < |entries| && i != j ==> Keys(entries)[i] == Vec([])
    ensures |entries| == 1 || (|entries| == 2 && j == 1)
  {
    var keys, n := Keys(entries), |entries|;
    if n >= 3 {
      var a, b := if j == 0 then 1 else 0, if j == 2 then 1 else 2;
      assert keys[a] == keys[b];
    } else if n == 2 && j == 0 {
      NotBeforeEmpty(keys[0].items);
      EntryParts(entries, 0);
      EntryParts(entries, 1);
    }
    KeysDistinct(entries);
  }

  lemma {:induction false} StatesAreKeys(key: Ty, entries: seq<Entry>)
    requires MapFree(key) && Sorted(entries) && AllConform(Keys(entries), key) && AllNarrow(Keys(entries))
    requires forall i :: 0 <= i < |entries| ==> Successive(key, Default(key), Keys(entries))[i] in Keys(entries)
    ensures Successive(key, Default(key), Keys(entries)) == Keys(entries)
  {
    if key.TVector? {
      assert key == TVector(key.elem) && Default(key) == Vec([]);
      VectorStates(key.elem, entries);
    } else {
      FlatStates(key, Default(key), Keys(entries));
      CutNarrow(key, Keys(entries));
    }
  }

  lemma {:induction false} FaithfulNeeded(ty: Ty, target: Value, v: Value)
    requires Conforms(target, ty) && Conforms(v, ty) && MapFreeKeys(ty) && (NarrowKeys(target) || NarrowKeys(v))
    requires ReadBack(ty, target, v) == v
    ensures Faithful(ty, target, v)
    decreases ty, 1, 0
  {
    if NarrowKeys(target) {
      ReadBackNarrow(ty, target, v);
    }
    match ty {
      case TString =>
      case TWide => NarrowedFixed(v.units);
      case TVector(elem) =>
        var r := Successive(elem, Default(elem), v.items);
        assert |target.items + r| == |v.items|;
        assert target.items + r == r;
        ChainNeeded(elem, Default(elem), v.items);
      case TMap(key, val) => MapFaithfulNeeded(key, val, target, v);
    }
  }

  /** From the states being the keys of the map: so are its values. */
  lemma {:induction false} ValuesRestored(target: map<Value, Value>, entries: seq<Entry>, vals: seq<Value>)
    requires Sorted(entries) && |vals| == |entries|
    requires Restored(target, AsMap(entries), Keys(entries), vals)
    ensures vals == Vals(entries)
  {
    KeysDistinct(entries);
    AsMapEntries(entries);
    forall i | 0 <= i < |vals|
      ensures vals[i] == Vals(entries)[i]
    {
      EntryParts(entries, i);
      assert LastOf(Keys(entries), i);
    }
  }

  lemma {:induction false} KeysChain(key: Ty, keys: seq<Value>)
    requires MapFree(key) && AllConform(keys, key) && Successive(key, Default(key), keys) == keys
    ensures Chain(key, Default(key), keys)
    decreases key, 3, 0
  {
    MapFreeType(key);
    forall i | 0 <= i < |keys|
      ensures NarrowKeys(keys[i])
    {
      MapFreeNarrow(key, keys[i]);
    }
    ChainNeeded(key, Default(key), keys);
  }

  lemma {:induction false} MapFaithfulNeeded(key: Ty, val: Ty, target: Value, v: Value)
    requires Conforms(target, TMap(key, val)) && Conforms(v, TMap(key, val))
    requires MapFree(key) && MapFreeKeys(val) && NarrowKeys(v)
    requires ReadBack(TMap(key, val), target, v) == v
    ensures Faithful(TMap(key, val), target, v)
    decreases TMap(key, val), 0, 0
  {
    PartsConform(v.entries, key, val);
    EntryKeysNarrow(v);
    AsMapEntries(target.entries);
    AsMapEntries(v.entries);
    MapRoundTripIff(key, val, target, v);
    StatesAreKeys(key, v.entries);
    KeysChain(key, Keys(v.entries));
    ValuesRestored(AsMap(target.entries), v.entries, Successive(val, Default(val), Vals(v.entries)));
    ChainNeeded(val, Default(val), Vals(v.entries));
  }

  lemma {:induction false} ChainNeeded(ty: Ty, obj: Value, items: seq<Value>)
    requires Conforms(obj, ty) && AllConform(items, ty) && MapFreeKeys(ty) && AllNarrowKeys(items)
    requires Successive(ty, obj, items) == items
    ensures Chain(ty, obj, items)
    decreases ty, 2, |items|
  {
    if items != [] {
      var o := ReadBack(ty, obj, items[0]);
      assert o == Successive(ty, obj, items)[0];
      assert Successive(ty, o, items[1..]) == Successive(ty, obj, items)[1..];
      FaithfulNeeded(ty, obj, items[0]);
      ChainNeeded(ty, items[0], items[1..]);
    }
  }

  /** Written and read back unchanged: exactly under the condition. */
  lemma {:induction false} RoundTripIff(w: nat, ty: Ty, target: Value, v: Value, rest: seq<Byte>)
    requires Conforms(target, ty) && Conforms(v, ty) && Fits(w, v)
    requires MapFreeKeys(ty) && (NarrowKeys(target) || NarrowKeys(v))
    ensures Read(w, ty, target, Written(w, v) + rest) == Some(Reading(v, rest)) <==> Faithful(ty, target, v)
  {
    ReadWritten(w, ty, target, v, rest);
    if Faithful(ty, target, v) {
      FaithfulSuffices(ty, target, v);
    }
    if ReadBack(ty, target, v) == v {
      FaithfulNeeded(ty, target, v);
    }
  }

  /** From an empty start, whatever the value: no wide key above 16 bits is in the way. */
  lemma {:induction false} FreshRoundTripIff(w: nat, ty: Ty, v: Value, rest: seq<Byte>)
    requires Conforms(v, ty) && Fits(w, v) && MapFreeKeys(ty)
    ensures Read(w, ty, Default(ty), Written(w, v) + rest) == Some(Reading(v, rest)) <==> Faithful(ty, Default(ty), v)
  {
    RoundTripIff(w, ty, Default(ty), v, rest);
  }

  // ---------- closed forms ----------

  /** A flat vector is appended to the target, its wide characters cut. */
  lemma {:induction false} FlatVector(elem: Ty, target: Value, v: Value)
    requires Flat(elem) && target.Vec? && Conforms(v, TVector(elem))
    ensures ReadBack(TVector(elem), target, v) == Vec(target.items + CutItems(v.items))
  {
    FlatStates(elem, Default(elem), v.items);
  }

  /** What a written vector contributes to a target. */
  function Contribution(elem: Ty, v: Value): seq<Value>
    requires Conforms(v, TVector(elem))
  {
    Successive(elem, Default(elem), v.items)
  }

  /** The contributions of several vectors, one after another. */
  function Gathered(elem: Ty, vectors: seq<Value>): seq<Value>
    requires AllConform(vectors, TVector(elem))
  {
    if vectors == [] then [] else Contribution(elem, vectors[0]) + Gathered(elem, vectors[1..])
  }

  lemma {:induction false} SuccessiveVectors(elem: Ty, start: seq<Value>, vectors: seq<Value>, i: nat)
    requires AllConform(vectors, TVector(elem)) && i < |vectors|
    ensures AllConform(vectors[..i + 1], TVector(elem))
    ensures Successive(TVector(elem), Vec(start), vectors)[i] == Vec(start + Gathered(elem, vectors[..i + 1]))
    decreases i
  {
    var first, taken := Contribution(elem, vectors[0]), vectors[..i + 1];
    TakeTail(vectors, i);
    if i == 0 {
      assert first + [] == first;
    } else {
      SuccessiveVectors(elem, start + first, vectors[1..], i - 1);
      Assoc(start, first, Gathered(elem, taken[1..]));
    }
  }

  /** A vector of vectors, of any depth: element i comes back as the first i + 1 together. */
  lemma {:induction false} NestedVector(elem: Ty, target: Value, v: Value, i: nat)
    requires target.Vec? && Conforms(v, TVector(TVector(elem))) && i < |v.items|
    ensures var r := ReadBack(TVector(TVector(elem)), target, v).items;
            && |r| == |target.items| + |v.items|
            && r[..|target.items|] == target.items
            && AllConform(v.items[..i + 1], TVector(elem))
            && r[|target.items| + i] == Vec(Gathered(elem, v.items[..i + 1]))
  {
    SuccessiveVectors(elem, [], v.items, i);
    assert [] + Gathered(elem, v.items[..i + 1]) == Gathered(elem, v.items[..i + 1]);
  }

  /** What a map with flat keys holds after it was read over the target: the keys are cut, and later ones win. */
  lemma {:induction false} FlatKeyedMap(key: Ty, val: Ty, target: Value, v: Value)
    requires Flat(key) && Conforms(target, TMap(key, val)) && Conforms(v, TMap(key, val))
    requires AllConform(Vals(v.entries), val)
    ensures var r, keys := AsMap(ReadBack(TMap(key, val), target, v).entries), CutItems(Keys(v.entries));
            && (forall k :: k in r <==> k in AsMap(target.entries) || k in keys)
            && (forall k :: k in AsMap(target.entries) && k !in keys ==> r[k] == AsMap(target.entries)[k])
            && (forall i :: 0 <= i < |keys| && LastOf(keys, i) ==>
                  && keys[i] in r
                  && r[keys[i]] == Successive(val, Default(val), Vals(v.entries))[i])
  {
    PartsConform(v.entries, key, val);
    FlatStates(key, Default(key), Keys(v.entries));
    MapReadBack(key, val, target, v);
    OverrideLast(AsMap(target.entries), CutItems(Keys(v.entries)), Successive(val, Default(val), Vals(v.entries)));
  }

  /** Keys that fit 16 bits are not changed by the cut, and each is the last of its kind. */
  lemma {:induction false} KeysKept(key: Ty, entries: seq<Entry>, i: nat)
    requires Flat(key) && Sorted(entries) && AllConform(Keys(entries), key) && AllNarrow(Keys(entries)) && i < |entries|
    ensures CutItems(Keys(entries)) == Keys(entries) && LastOf(Keys(entries), i)
  {
    CutNarrow(key, Keys(entries));
    KeysDistinct(entries);
  }

  /** A map of vectors with flat keys: entry i in key order holds the first i + 1 together. */
  lemma {:induction false} MapOfVectors(key: Ty, elem: Ty, target: Value, v: Value, i: nat)
    requires Flat(key) && Conforms(target, TMap(key, TVector(elem))) && Conforms(v, TMap(key, TVector(elem)))
    requires i < |v.entries| && LastOf(CutItems(Keys(v.entries)), i)
    ensures var r, k := AsMap(ReadBack(TMap(key, TVector(elem)), target, v).entries), CutItems(Keys(v.entries))[i];
            && k in r
            && AllConform(Vals(v.entries)[..i + 1], TVector(elem))
            && r[k] == Vec(Gathered(elem, Vals(v.entries)[..i + 1]))
  {
    var vals := Vals(v.entries);
    PartsConform(v.entries, key, TVector(elem));
    FlatKeyedMap(key, TVector(elem), target, v);
    SuccessiveVectors(elem, [], vals, i);
    assert [] + Gathered(elem, vals[..i + 1]) == Gathered(elem, vals[..i + 1]);
  }

  /** A map with flat keys and values: the target overridden by what was written, all of it cut. */
  lemma {:induction false} FlatMap(key: Ty, val: Ty, target: Value, v: Value)
    requires Flat(key) && Flat(val) && Conforms(target, TMap(key, val)) && Conforms(v, TMap(key, val))
    ensures var r := AsMap(ReadBack(TMap(key, val), target, v).entries);
            && r == Override(AsMap(target.entries), CutItems(Keys(v.entries)), CutItems(Vals(v.entries)))
            && (AllNarrow(Keys(v.entries)) && AllNarrow(Vals(v.entries)) ==> r == AsMap(target.entries) + AsMap(v.entries))
  {
    PartsConform(v.entries, key, val);
    FlatStates(key, Default(key), Keys(v.entries));
    FlatStates(val, Default(val), Vals(v.entries));
    MapReadBack(key, val, target, v);
    CutNarrow(key, Keys(v.entries));
    CutNarrow(val, Vals(v.entries));
    OverrideEntries(AsMap(target.entries), v.entries);
  }

  lemma {:induction false} NestedChain(elem: Ty, vectors: seq<Value>)
    requires AllConform(vectors, TVector(elem)) && vectors != []
    ensures Chain(TVector(elem), Vec([]), vectors) <==>
            && (forall i :: 0 <= i < |vectors| - 1 ==> vectors[i] == Vec([]))
            && Chain(elem, Default(elem), vectors[|vectors| - 1].items)
    decreases |vectors|
  {
    if |vectors| == 1 {
      assert vectors[1..] == [];
    } else {
      var rest := vectors[1..];
      assert forall i :: 0 <= i < |rest| ==> rest[i] == vectors[i + 1];
      assert forall i :: 0 < i < |vectors| ==> vectors[i] == rest[i - 1];
      if vectors[0] == Vec([]) {
        NestedChain(elem, rest);
        assert Chain(elem, Default(elem), []);
        assert Chain(TVector(elem), Vec([]), vectors) <==> Chain(TVector(elem), Vec([]), rest);
      } else {
        assert !Faithful(TVector(elem), vectors[0], rest[0]);
      }
    }
  }

  lemma {:induction false} StringChain(obj: Value, items: seq<Value>)
    requires obj.Str? && AllConform(items, TString)
    ensures Chain(TString, obj, items)
    decreases |items|
  {
    if items != [] {
      assert Conforms(items[0], TString);
      StringChain(items[0], items[1..]);
    }
  }

  /** A vector of vectors of strings comes back unchanged only if all but the last are empty. */
  lemma {:induction false} VectorOfVectors(w: nat, v: Value, rest: seq<Byte>)
    requires Conforms(v, TVector(TVector(TString))) && Fits(w, v)
    ensures Read(w, TVector(TVector(TString)), Vec([]), Written(w, v) + rest) == Some(Reading(v, rest)) <==>
            forall i :: 0 <= i < |v.items| - 1 ==> v.items[i] == Vec([])
  {
    var ty := TVector(TVector(TString));
    RoundTripIff(w, ty, Vec([]), v, rest);
    if v.items != [] {
      NestedChain(TString, v.items);
      StringChain(Str([]), v.items[|v.items| - 1].items);
    }
  }
}
