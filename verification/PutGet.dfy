/**
  The two-client put/get test: one client puts entries and the checksums of its keys and
  values, the other gets them back and compares checksums. A failed assertion or an
  exception ends an operation with the result false.
 */
module PutGet {
  import opened Options
  import opened Checksums
  import opened Keys

  type Entries = map<Obj, Obj>

  // ---------- unsigned and signed views of a checksum ----------

  type UInt = u: int | 0 <= u < 0x1_0000_0000

  /** The cast (int) of a uint, and back. */
  function ToInt32(u: UInt): IntValue {
    if u < 0x8000_0000 then u else u - 0x1_0000_0000
  }

  function ToUInt32(v: IntValue): (u: UInt)
    ensures ToInt32(u) == v
  {
    if v >= 0 then v else v + 0x1_0000_0000
  }

  /** The number that a checksum word stands for. */
  function Value(c: bv32): UInt {
    c as int
  }

  function FromValue(u: UInt): bv32 {
    u as bv32
  }

  lemma {:induction false} FromValueOf(c: bv32)
    ensures FromValue(Value(c)) == c
  {}

  lemma {:induction false} ValueInjective(c: bv32, d: bv32)
    requires Value(c) == Value(d)
    ensures c == d
  {
    FromValueOf(c);
    FromValueOf(d);
  }

  function AsUInt(c: Option<bv32>): Option<UInt> {
    if c.Some? then Some(Value(c.value)) else None
  }

  lemma {:induction false} AsUIntInjective(c: Option<bv32>, d: Option<bv32>)
    requires AsUInt(c) == AsUInt(d)
    ensures c == d
  {
    if c.Some? {
      ValueInjective(c.value, d.value);
    }
  }

  /** GetChecksum as the uint that it returns. */
  function UIntChecksum(w: Wrapper, o: Obj): Option<UInt> {
    AsUInt(ChecksumOf(w, o))
  }

  lemma {:induction false} SameUIntChecksum(w: Wrapper, o: Obj, p: Obj)
    requires UIntChecksum(w, o) == UIntChecksum(w, p)
    ensures ChecksumOf(w, o) == ChecksumOf(w, p)
  {
    AsUIntInjective(ChecksumOf(w, o), ChecksumOf(w, p));
  }

  method GetUIntChecksum(w: Wrapper, o: Obj) returns (r: Option<UInt>)
    ensures r == UIntChecksum(w, o)
  {
    var c := GetChecksum(w, o);
    r := AsUInt(c);
  }

  // ---------- what the operations do to a region ----------

  function PutEntries(r: Entries, keys: seq<Obj>, values: seq<Obj>, n: nat): (r': Entries)
    requires n <= |keys| && n <= |values|
  {
    if n == 0 then r else PutEntries(r, keys, values, n - 1)[keys[n - 1] := values[n - 1]]
  }

  function PutKeyChecksums(r: Entries, cksums: seq<UInt>, n: nat): Entries
    requires n <= |cksums|
  {
    if n == 0 then r else PutKeyChecksums(r, cksums, n - 1)[KeyEntry(n - 1) := Int32(ToInt32(cksums[n - 1]))]
  }

  function PutValChecksums(r: Entries, cksums: seq<UInt>, n: nat): Entries
    requires n <= |cksums|
  {
    if n == 0 then r else PutValChecksums(r, cksums, n - 1)[ValEntry(n - 1) := Int32(ToInt32(cksums[n - 1]))]
  }

  /** The checksum that a region holds under a name; None when it is missing or not an int. */
  function StoredChecksum(r: Entries, name: Obj): Option<UInt> {
    if name in r && r[name].Int32? then Some(ToUInt32(r[name].integer)) else None
  }

  /** The checksums of a key and of the value found agree with the stored ones. */
  predicate ChecksumsAgree(r: Entries, i: nat, keyCksum: Option<UInt>, valCksum: Option<UInt>) {
    && StoredChecksum(r, KeyEntry(i)).Some?
    && keyCksum == StoredChecksum(r, KeyEntry(i))
    && StoredChecksum(r, ValEntry(i)).Some?
    && valCksum == StoredChecksum(r, ValEntry(i))
  }

  /** What DoGetsVerify asserts of one index. */
  predicate VerifyAt(r: Entries, keyWrapper: Wrapper, key: Obj, valueWrapper: Wrapper, i: nat) {
    && key in r && r[key] != Null
    && ChecksumsAgree(r, i, UIntChecksum(keyWrapper, key), UIntChecksum(valueWrapper, r[key]))
  }

  predicate Verifies(r: Entries, keyWrapper: Wrapper, keys: seq<Obj>, valueWrapper: Wrapper) {
    keys != [] && forall i :: 0 <= i < |keys| ==> VerifyAt(r, keyWrapper, keys[i], valueWrapper, i)
  }

  /** The keys that InitKeys makes. */
  ghost predicate GeneratedKeys(w: Wrapper, keys: seq<Obj>, maxSize: IntValue) {
    && IsKeyWrapper(w) && |keys| <= MaxKeys(w)
    && forall i :: 0 <= i < |keys| ==> Some(keys[i]) == InitKey(w, i, maxSize)
  }

  ghost predicate AreChecksums(w: Wrapper, objects: seq<Obj>, cksums: seq<UInt>) {
    |objects| == |cksums| && forall i :: 0 <= i < |objects| ==> UIntChecksum(w, objects[i]) == Some(cksums[i])
  }

  ghost predicate HaveChecksums(w: Wrapper, objects: seq<Obj>) {
    forall i :: 0 <= i < |objects| ==> UIntChecksum(w, objects[i]).Some?
  }

  lemma {:induction false} AppendKey(w: Wrapper, keys: seq<Obj>, maxSize: IntValue, key: Obj)
    requires GeneratedKeys(w, keys, maxSize) && |keys| < MaxKeys(w)
    requires Some(key) == InitKey(w, |keys|, maxSize)
    ensures GeneratedKeys(w, keys + [key], maxSize)
  {}

  lemma {:induction false} AppendChecksum(w: Wrapper, objects: seq<Obj>, cksums: seq<UInt>, o: Obj, c: UInt)
    requires AreChecksums(w, objects, cksums) && UIntChecksum(w, o) == Some(c)
    ensures AreChecksums(w, objects + [o], cksums + [c])
  {}

  lemma {:induction false} AllChecked(w: Wrapper, objects: seq<Obj>, cksums: seq<UInt>)
    requires AreChecksums(w, objects, cksums)
    ensures HaveChecksums(w, objects)
  {}

  lemma {:induction false} OneUnchecked(w: Wrapper, objects: seq<Obj>, i: nat)
    requires i < |objects| && UIntChecksum(w, objects[i]) == None
    ensures !HaveChecksums(w, objects)
  {}

  // ---------- the region and its clients ----------

  class Region {
    var entries: Entries

    constructor ()
      ensures entries == map[]
    {
      entries := map[];
    }

    method Put(key: Obj, value: Obj)
      modifies this
      ensures entries == old(entries)[key := value]
    {
      entries := entries[key := value];
    }

    method Remove(key: Obj) returns (found: bool)
      modifies this
      ensures found == (key in old(entries)) && entries == old(entries) - {key}
    {
      found := key in entries;
      entries := entries - {key};
    }
  }

  class Client {
    const region: Region
    var keyWrapper: Wrapper
    var cKeys: seq<Obj>
    var cKeyCksums: seq<UInt>
    var valueWrapper: Wrapper
    var cValues: seq<Obj>
    var cValCksums: seq<UInt>
    ghost var keySize: IntValue

    ghost predicate KeysReady()
      reads this
    {
      cKeys != [] && GeneratedKeys(keyWrapper, cKeys, keySize) && AreChecksums(keyWrapper, cKeys, cKeyCksums)
    }

    ghost predicate ValuesReady()
      reads this
    {
      cValues != [] && AreChecksums(valueWrapper, cValues, cValCksums)
    }

    constructor (r: Region)
      ensures region == r && cKeys == [] && cKeyCksums == [] && cValues == [] && cValCksums == []
    {
      region := r;
      keyWrapper, valueWrapper, keySize := BooleanWrapper, BooleanWrapper, 0;
      cKeys, cKeyCksums, cValues, cValCksums := [], [], [], [];
    }

    /** Makes the keys of a type; the count is clamped to what the type admits. */
    method InitKeys(w: Wrapper, numKeys: IntValue, maxSize: IntValue) returns (r: Option<int>)
      requires IsKeyWrapper(w)
      modifies this`keyWrapper, this`cKeys, this`cKeyCksums, this`keySize
      ensures r.Some? <==> numKeys > 0 && !(w.StringWrapper? && maxSize <= 0)
      ensures r.Some? ==>
                && r.value == |cKeys| == (if numKeys > MaxKeys(w) then MaxKeys(w) else numKeys)
                && keyWrapper == w && keySize == maxSize && KeysReady()
    {
      if numKeys <= 0 {
        return None;
      }
      var maxKeys := MaxKeys(w);
      var n := if numKeys > maxKeys then maxKeys else numKeys;
      keyWrapper, cKeys, cKeyCksums, keySize := w, [], [], maxSize;
      var keyIndex := 0;
      while keyIndex < n
        invariant 0 <= keyIndex <= n && |cKeys| == keyIndex
        invariant keyWrapper == w && keySize == maxSize
        invariant GeneratedKeys(w, cKeys, maxSize) && AreChecksums(w, cKeys, cKeyCksums)
        invariant keyIndex > 0 ==> !(w.StringWrapper? && maxSize <= 0)
      {
        var key := InitKey(w, keyIndex, maxSize);
        InitKeySucceeds(w, keyIndex, maxSize);
        if key == None {
          return None;
        }
        var cksum := GetUIntChecksum(w, key.value);
        AppendKey(w, cKeys, maxSize, key.value);
        AppendChecksum(w, cKeys, cKeyCksums, key.value, cksum.value);
        cKeyCksums := cKeyCksums + [cksum.value];
        cKeys := cKeys + [key.value];
        keyIndex := keyIndex + 1;
      }
      return Some(n);
    }

    /** Takes the values that the random generator made, with their checksums. */
    method InitValues(w: Wrapper, values: seq<Obj>) returns (ok: bool)
      modifies this`valueWrapper, this`cValues, this`cValCksums
      ensures ok <==> values != [] && HaveChecksums(w, values)
      ensures ok ==> valueWrapper == w && cValues == values && ValuesReady()
    {
      if values == [] {
        return false;
      }
      valueWrapper, cValues, cValCksums := w, [], [];
      var valIndex := 0;
      while valIndex < |values|
        invariant 0 <= valIndex <= |values|
        invariant valueWrapper == w && cValues == values[..valIndex]
        invariant AreChecksums(w, cValues, cValCksums)
      {
        var cksum := GetUIntChecksum(w, values[valIndex]);
        if cksum == None {
          OneUnchecked(w, values, valIndex);
          return false;
        }
        AppendChecksum(w, cValues, cValCksums, values[valIndex], cksum.value);
        cValCksums := cValCksums + [cksum.value];
        cValues := cValues + [values[valIndex]];
        assert values[..valIndex + 1] == values[..valIndex] + [values[valIndex]];
        valIndex := valIndex + 1;
      }
      assert values[..valIndex] == values;
      AllChecked(w, cValues, cValCksums);
      return true;
    }

    method DoPuts() returns (ok: bool)
      modifies region
      ensures ok <==> cKeys != [] && |cKeys| <= |cValues|
      ensures ok ==> region.entries == PutEntries(old(region.entries), cKeys, cValues, |cKeys|)
    {
      if cKeys == [] || cValues == [] {
        return false;
      }
      var keyIndex := 0;
      while keyIndex < |cKeys|
        invariant 0 <= keyIndex <= |cKeys| && keyIndex <= |cValues|
        invariant region.entries == PutEntries(old(region.entries), cKeys, cValues, keyIndex)
      {
        if keyIndex >= |cValues| {
          return false;
        }
        var key, val := cKeys[keyIndex], cValues[keyIndex];
        if val != Null {
          region.Put(key, val);
        } else {
          ghost var before := region.entries;
          var found := region.Remove(key);
          region.Put(key, val);
          assert region.entries == before[key := val];
        }
        keyIndex := keyIndex + 1;
      }
      return true;
    }

    method DoKeyChecksumPuts() returns (ok: bool)
      modifies region
      ensures ok <==> cKeyCksums != [] && cKeys != []
      ensures ok ==> region.entries == PutKeyChecksums(old(region.entries), cKeyCksums, |cKeyCksums|)
    {
      if cKeyCksums == [] {
        return false;
      }
      var keyIndex := 0;
      while keyIndex < |cKeyCksums|
        invariant 0 <= keyIndex <= |cKeyCksums|
        invariant region.entries == PutKeyChecksums(old(region.entries), cKeyCksums, keyIndex)
      {
        region.Put(KeyEntry(keyIndex), Int32(ToInt32(cKeyCksums[keyIndex])));
        keyIndex := keyIndex + 1;
      }
      return cKeys != [];
    }

    method DoValChecksumPuts() returns (ok: bool)
      modifies region
      ensures ok <==> cValCksums != [] && cKeys != []
      ensures ok ==> region.entries == PutValChecksums(old(region.entries), cValCksums, |cValCksums|)
    {
      if cValCksums == [] {
        return false;
      }
      var keyIndex := 0;
      while keyIndex < |cValCksums|
        invariant 0 <= keyIndex <= |cValCksums|
        invariant region.entries == PutValChecksums(old(region.entries), cValCksums, keyIndex)
      {
        region.Put(ValEntry(keyIndex), Int32(ToInt32(cValCksums[keyIndex])));
        keyIndex := keyIndex + 1;
      }
      return cKeys != [];
    }

    /** The checks of one round of the loop in DoGetsVerify. */
    method VerifyKey(keyIndex: nat) returns (pass: bool)
      requires keyIndex < |cKeys|
      ensures pass <==> keyIndex < |cValues| && VerifyAt(region.entries, keyWrapper, cKeys[keyIndex], valueWrapper, keyIndex)
    {
      var key := cKeys[keyIndex];
      var cksum := GetUIntChecksum(keyWrapper, key);
      var putCksum := StoredChecksum(region.entries, KeyEntry(keyIndex));
      if key !in region.entries || putCksum == None || cksum != putCksum {
        return false;
      }
      var actualValue := region.entries[key];
      if actualValue == Null || keyIndex >= |cValues| {
        return false;
      }
      cksum := GetUIntChecksum(valueWrapper, actualValue);
      putCksum := StoredChecksum(region.entries, ValEntry(keyIndex));
      if putCksum == None || cksum != putCksum {
        return false;
      }
      // GetEntry on the same region finds the same value, so its checksum is the same
      cksum := GetUIntChecksum(valueWrapper, region.entries[key]);
      if cksum != putCksum {
        return false;
      }
      return true;
    }

    /** Gets every key back and compares the checksums; a fresh get and GetEntry see the same region. */
    method DoGetsVerify() returns (pass: bool)
      ensures pass <==> |cKeys| <= |cValues| && Verifies(region.entries, keyWrapper, cKeys, valueWrapper)
    {
      if cKeys == [] {
        return false;
      }
      var keyIndex := 0;
      while keyIndex < |cKeys|
        invariant 0 <= keyIndex <= |cKeys| && keyIndex <= |cValues|
        invariant forall i :: 0 <= i < keyIndex ==> VerifyAt(region.entries, keyWrapper, cKeys[i], valueWrapper, i)
      {
        var ok := VerifyKey(keyIndex);
        if !ok {
          return false;
        }
        keyIndex := keyIndex + 1;
      }
      return true;
    }
  }

  // ---------- what a region holds after the puts ----------

  lemma {:induction false} PutEntriesFrame(r: Entries, keys: seq<Obj>, values: seq<Obj>, n: nat, k: Obj)
    requires n <= |keys| && n <= |values|
    requires forall i :: 0 <= i < n ==> keys[i] != k
    ensures k in PutEntries(r, keys, values, n) <==> k in r
    ensures k in r ==> PutEntries(r, keys, values, n)[k] == r[k]
    decreases n
  {
    if n > 0 {
      PutEntriesFrame(r, keys, values, n - 1, k);
    }
  }

  lemma {:induction false} PutEntriesAt(r: Entries, keys: seq<Obj>, values: seq<Obj>, n: nat, i: nat)
    requires i < n <= |keys| && n <= |values|
    requires forall j :: 0 <= j < |keys| && j != i ==> keys[j] != keys[i]
    ensures keys[i] in PutEntries(r, keys, values, n)
    ensures PutEntries(r, keys, values, n)[keys[i]] == values[i]
    decreases n
  {
    if i < n - 1 {
      PutEntriesAt(r, keys, values, n - 1, i);
    }
  }

  lemma {:induction false} PutKeyChecksumsAt(r: Entries, cksums: seq<UInt>, n: nat, k: Obj)
    requires n <= |cksums|
    ensures (forall i :: 0 <= i < n ==> KeyEntry(i) != k) ==>
              && (k in PutKeyChecksums(r, cksums, n) <==> k in r)
              && (k in r ==> PutKeyChecksums(r, cksums, n)[k] == r[k])
    ensures forall i :: 0 <= i < n && KeyEntry(i) == k ==>
              StoredChecksum(PutKeyChecksums(r, cksums, n), k) == Some(cksums[i])
    decreases n
  {
    if n > 0 {
      PutKeyChecksumsAt(r, cksums, n - 1, k);
      forall i | 0 <= i < n && KeyEntry(i) == k
        ensures StoredChecksum(PutKeyChecksums(r, cksums, n), k) == Some(cksums[i])
      {
        EntryNamesDistinct(i, n - 1);
      }
    }
  }

  lemma {:induction false} PutValChecksumsAt(r: Entries, cksums: seq<UInt>, n: nat, k: Obj)
    requires n <= |cksums|
    ensures (forall i :: 0 <= i < n ==> ValEntry(i) != k) ==>
              && (k in PutValChecksums(r, cksums, n) <==> k in r)
              && (k in r ==> PutValChecksums(r, cksums, n)[k] == r[k])
    ensures forall i :: 0 <= i < n && ValEntry(i) == k ==>
              StoredChecksum(PutValChecksums(r, cksums, n), k) == Some(cksums[i])
    decreases n
  {
    if n > 0 {
      PutValChecksumsAt(r, cksums, n - 1, k);
      forall i | 0 <= i < n && ValEntry(i) == k
        ensures StoredChecksum(PutValChecksums(r, cksums, n), k) == Some(cksums[i])
      {
        EntryNamesDistinct(i, n - 1);
      }
    }
  }

  /** The region after the three rounds of puts. */
  function AfterPuts(r: Entries, keys: seq<Obj>, keyCksums: seq<UInt>, values: seq<Obj>, valCksums: seq<UInt>): Entries
    requires |keys| <= |values|
  {
    var r1 := PutEntries(r, keys, values, |keys|);
    var r2 := PutKeyChecksums(r1, keyCksums, |keyCksums|);
    PutValChecksums(r2, valCksums, |valCksums|)
  }

  lemma {:induction false} GeneratedKeysDistinct(w: Wrapper, keys: seq<Obj>, maxSize: IntValue, i: nat, j: nat)
    requires GeneratedKeys(w, keys, maxSize) && i < |keys| && j < |keys| && keys[i] == keys[j]
    ensures i == j
  {
    assert Some(keys[i]) == InitKey(w, i, maxSize) && Some(keys[j]) == InitKey(w, j, maxSize);
    InitKeyInjective(w, i, j, maxSize);
  }

  lemma {:induction false} KeyIsNoName(w: Wrapper, keys: seq<Obj>, maxSize: IntValue, i: nat)
    requires GeneratedKeys(w, keys, maxSize) && i < |keys|
    ensures forall j: nat :: KeyEntry(j) != keys[i]
    ensures forall j: nat :: ValEntry(j) != keys[i]
  {
    assert Some(keys[i]) == InitKey(w, i, maxSize);
    forall j: nat
      ensures KeyEntry(j) != keys[i] && ValEntry(j) != keys[i]
    {
      KeysAreNotNames(w, i, maxSize, j);
    }
  }

  lemma {:induction false} ValueSurvives(r: Entries, w: Wrapper, maxSize: IntValue, keys: seq<Obj>, keyCksums: seq<UInt>,
                      values: seq<Obj>, valCksums: seq<UInt>, i: nat)
    requires GeneratedKeys(w, keys, maxSize) && i < |keys| <= |values|
    ensures var r' := AfterPuts(r, keys, keyCksums, values, valCksums); keys[i] in r' && r'[keys[i]] == values[i]
  {
    var r1 := PutEntries(r, keys, values, |keys|);
    forall j | 0 <= j < |keys| && j != i
      ensures keys[j] != keys[i]
    {
      if keys[j] == keys[i] {
        GeneratedKeysDistinct(w, keys, maxSize, i, j);
      }
    }
    PutEntriesAt(r, keys, values, |keys|, i);
    KeyIsNoName(w, keys, maxSize, i);
    PutKeyChecksumsAt(r1, keyCksums, |keyCksums|, keys[i]);
    PutValChecksumsAt(PutKeyChecksums(r1, keyCksums, |keyCksums|), valCksums, |valCksums|, keys[i]);
  }

  lemma {:induction false} ChecksumsSurvive(r: Entries, keys: seq<Obj>, keyCksums: seq<UInt>, values: seq<Obj>, valCksums: seq<UInt>, i: nat)
    requires |keys| <= |values| && i < |keyCksums| && i < |valCksums|
    ensures StoredChecksum(AfterPuts(r, keys, keyCksums, values, valCksums), KeyEntry(i)) == Some(keyCksums[i])
    ensures StoredChecksum(AfterPuts(r, keys, keyCksums, values, valCksums), ValEntry(i)) == Some(valCksums[i])
  {
    var r1 := PutEntries(r, keys, values, |keys|);
    var r2 := PutKeyChecksums(r1, keyCksums, |keyCksums|);
    PutKeyChecksumsAt(r1, keyCksums, |keyCksums|, KeyEntry(i));
    forall j: nat
      ensures ValEntry(j) != KeyEntry(i)
    {
      EntryNamesDistinct(i, j);
    }
    PutValChecksumsAt(r2, valCksums, |valCksums|, KeyEntry(i));
    PutValChecksumsAt(r2, valCksums, |valCksums|, ValEntry(i));
  }

  /** No put overwrites another: every entry and every checksum is there afterwards. */
  lemma {:induction false} PutsSurvive(r: Entries, w: Wrapper, maxSize: IntValue, keys: seq<Obj>, keyCksums: seq<UInt>,
                    values: seq<Obj>, valCksums: seq<UInt>, i: nat)
    requires GeneratedKeys(w, keys, maxSize) && |keys| == |keyCksums| <= |values| == |valCksums|
    requires i < |keys|
    ensures var r' := AfterPuts(r, keys, keyCksums, values, valCksums);
            && keys[i] in r' && r'[keys[i]] == values[i]
            && StoredChecksum(r', KeyEntry(i)) == Some(keyCksums[i])
            && StoredChecksum(r', ValEntry(i)) == Some(valCksums[i])
  {
    ValueSurvives(r, w, maxSize, keys, keyCksums, values, valCksums, i);
    ChecksumsSurvive(r, keys, keyCksums, values, valCksums, i);
  }

  ghost predicate NoNulls(values: seq<Obj>) {
    forall i :: 0 <= i < |values| ==> values[i] != Null
  }

  lemma {:induction false} VerifyAtAfterPuts(r: Entries, w: Wrapper, maxSize: IntValue, keys: seq<Obj>, keyCksums: seq<UInt>,
                          vw: Wrapper, values: seq<Obj>, valCksums: seq<UInt>, i: nat)
    requires i < |keys| && GeneratedKeys(w, keys, maxSize) && AreChecksums(w, keys, keyCksums)
    requires |keys| <= |values| && AreChecksums(vw, values, valCksums)
    ensures VerifyAt(AfterPuts(r, keys, keyCksums, values, valCksums), w, keys[i], vw, i) <==> values[i] != Null
  {
    PutsSurvive(r, w, maxSize, keys, keyCksums, values, valCksums, i);
    assert UIntChecksum(w, keys[i]) == Some(keyCksums[i]) && UIntChecksum(vw, values[i]) == Some(valCksums[i]);
  }

  lemma {:induction false} VerifiesIff(r: Entries, w: Wrapper, keys: seq<Obj>, vw: Wrapper, values: seq<Obj>)
    requires keys != [] && |keys| == |values|
    requires forall i :: 0 <= i < |keys| ==> (VerifyAt(r, w, keys[i], vw, i) <==> values[i] != Null)
    ensures Verifies(r, w, keys, vw) <==> NoNulls(values)
  {}

  /** Completeness: over a faithful region the verification passes exactly when no null was put. */
  lemma {:induction false} VerificationComplete(r: Entries, w: Wrapper, maxSize: IntValue, keys: seq<Obj>, keyCksums: seq<UInt>,
                             vw: Wrapper, values: seq<Obj>, valCksums: seq<UInt>)
    requires keys != [] && GeneratedKeys(w, keys, maxSize) && AreChecksums(w, keys, keyCksums)
    requires |keys| <= |values| && AreChecksums(vw, values, valCksums)
    ensures Verifies(AfterPuts(r, keys, keyCksums, values, valCksums), w, keys, vw) <==> NoNulls(values[..|keys|])
  {
    var r', vs := AfterPuts(r, keys, keyCksums, values, valCksums), values[..|keys|];
    forall i | 0 <= i < |keys|
      ensures VerifyAt(r', w, keys[i], vw, i) <==> vs[i] != Null
    {
      VerifyAtAfterPuts(r, w, maxSize, keys, keyCksums, vw, values, valCksums, i);
    }
    VerifiesIff(r', w, keys, vw, vs);
  }

  /** The checksum entries that were put are still in the region. */
  ghost predicate ChecksumsIntact(r: Entries, valCksums: seq<UInt>, n: nat)
    requires n <= |valCksums|
  {
    forall i :: 0 <= i < n ==> StoredChecksum(r, ValEntry(i)) == Some(valCksums[i])
  }

  /**
    Soundness: whatever else has happened to the region, a pass with intact checksum entries
    means that every value read has the checksum of the value put, and for the narrow types
    that it is the value put.
   */
  lemma {:induction false} VerificationSound(r: Entries, w: Wrapper, keys: seq<Obj>, vw: Wrapper, values: seq<Obj>, valCksums: seq<UInt>)
    requires |keys| <= |values| && AreChecksums(vw, values, valCksums)
    requires ChecksumsIntact(r, valCksums, |keys|) && Verifies(r, w, keys, vw)
    ensures forall i :: 0 <= i < |keys| ==>
              && StoredChecksum(r, KeyEntry(i)).Some? && StoredChecksum(r, KeyEntry(i)) == UIntChecksum(w, keys[i])
              && keys[i] in r && ChecksumOf(vw, r[keys[i]]) == ChecksumOf(vw, values[i])
              && (Narrow(vw) ==> r[keys[i]] == values[i])
  {
    forall i | 0 <= i < |keys|
      ensures StoredChecksum(r, KeyEntry(i)).Some? && StoredChecksum(r, KeyEntry(i)) == UIntChecksum(w, keys[i])
      ensures keys[i] in r && ChecksumOf(vw, r[keys[i]]) == ChecksumOf(vw, values[i])
      ensures Narrow(vw) ==> r[keys[i]] == values[i]
    {
      assert VerifyAt(r, w, keys[i], vw, i);
      assert StoredChecksum(r, ValEntry(i)) == Some(valCksums[i]);
      assert UIntChecksum(vw, values[i]) == Some(valCksums[i]);
      SameUIntChecksum(vw, r[keys[i]], values[i]);
      if Narrow(vw) {
        NarrowChecksumInjective(vw, r[keys[i]], values[i]);
      }
    }
  }

  lemma {:induction false} LongChecksumsIff(v: LongValue, v': LongValue)
    ensures UIntChecksum(Int64Wrapper, Int64(v')) == UIntChecksum(Int64Wrapper, Int64(v)) <==> HalvesMatch(v', v)
  {
    LongCollision(v', v);
    if UIntChecksum(Int64Wrapper, Int64(v')) == UIntChecksum(Int64Wrapper, Int64(v)) {
      SameUIntChecksum(Int64Wrapper, Int64(v'), Int64(v));
    }
  }

  lemma {:induction false} ReplacedValue(r: Entries, key: Obj, o: Obj, i: nat, kc: Option<UInt>, vc: Option<UInt>, oc: Option<UInt>)
    requires ChecksumsAgree(r, i, kc, vc) && key != KeyEntry(i) && key != ValEntry(i)
    ensures ChecksumsAgree(r[key := o], i, kc, oc) <==> oc == vc
  {
    var r' := r[key := o];
    assert StoredChecksum(r', KeyEntry(i)) == StoredChecksum(r, KeyEntry(i));
    assert StoredChecksum(r', ValEntry(i)) == StoredChecksum(r, ValEntry(i));
  }

  // ---------- what the verification depends on ----------

  lemma {:induction false} ReplacedKeyEntry(r: Entries, i: nat, o: Obj, kc: Option<UInt>, vc: Option<UInt>)
    requires ChecksumsAgree(r, i, kc, vc)
    ensures ChecksumsAgree(r[KeyEntry(i) := o], i, kc, vc) <==> o.Int32? && Some(ToUInt32(o.integer)) == kc
  {
    EntryNamesDistinct(i, i);
    assert StoredChecksum(r[KeyEntry(i) := o], ValEntry(i)) == StoredChecksum(r, ValEntry(i));
  }

  lemma {:induction false} ReplacedValEntry(r: Entries, i: nat, o: Obj, kc: Option<UInt>, vc: Option<UInt>)
    requires ChecksumsAgree(r, i, kc, vc)
    ensures ChecksumsAgree(r[ValEntry(i) := o], i, kc, vc) <==> o.Int32? && Some(ToUInt32(o.integer)) == vc
  {
    EntryNamesDistinct(i, i);
    assert StoredChecksum(r[ValEntry(i) := o], KeyEntry(i)) == StoredChecksum(r, KeyEntry(i));
  }

  /** Another object under the key checksum's name passes if and only if it is the key's checksum. */
  lemma {:induction false} KeyEntryDecides(r: Entries, w: Wrapper, key: Obj, vw: Wrapper, i: nat, o: Obj)
    ensures VerifyAt(r, w, key, vw, i) && key != KeyEntry(i) ==>
              (VerifyAt(r[KeyEntry(i) := o], w, key, vw, i) <==>
               o.Int32? && Some(ToUInt32(o.integer)) == UIntChecksum(w, key))
  {
    if VerifyAt(r, w, key, vw, i) && key != KeyEntry(i) {
      ReplacedKeyEntry(r, i, o, UIntChecksum(w, key), UIntChecksum(vw, r[key]));
    }
  }

  /** Another object under the value checksum's name passes if and only if it is the value's checksum. */
  lemma {:induction false} ValEntryDecides(r: Entries, w: Wrapper, key: Obj, vw: Wrapper, i: nat, o: Obj)
    ensures VerifyAt(r, w, key, vw, i) && key != ValEntry(i) ==>
              (VerifyAt(r[ValEntry(i) := o], w, key, vw, i) <==>
               o.Int32? && Some(ToUInt32(o.integer)) == UIntChecksum(vw, r[key]))
  {
    if VerifyAt(r, w, key, vw, i) && key != ValEntry(i) {
      ReplacedValEntry(r, i, o, UIntChecksum(w, key), UIntChecksum(vw, r[key]));
    }
  }

  /** Without the key, its value or either checksum the verification fails. */
  lemma {:induction false} MissingFails(r: Entries, w: Wrapper, key: Obj, vw: Wrapper, i: nat)
    ensures !VerifyAt(r - {key}, w, key, vw, i)
    ensures !VerifyAt(r[key := Null], w, key, vw, i)
    ensures !VerifyAt(r - {KeyEntry(i)}, w, key, vw, i)
    ensures !VerifyAt(r - {ValEntry(i)}, w, key, vw, i)
  {
    assert StoredChecksum(r - {KeyEntry(i)}, KeyEntry(i)) == None;
    assert StoredChecksum(r - {ValEntry(i)}, ValEntry(i)) == None;
  }

  /** The casts between int and uint keep the value modulo 2^32. */
  lemma {:induction false} CastsKeepResidue(u: UInt, v: IntValue)
    ensures ToInt32(u) % 0x1_0000_0000 == u
    ensures ToUInt32(v) == v % 0x1_0000_0000
  {}

  lemma {:induction false} ReplacedAt(r: Entries, w: Wrapper, key: Obj, vw: Wrapper, i: nat, o: Obj)
    ensures VerifyAt(r, w, key, vw, i) && key != KeyEntry(i) && key != ValEntry(i) && o != Null ==>
              (VerifyAt(r[key := o], w, key, vw, i) <==> UIntChecksum(vw, o) == UIntChecksum(vw, r[key]))
  {
    if VerifyAt(r, w, key, vw, i) && key != KeyEntry(i) && key != ValEntry(i) {
      ReplacedValue(r, key, o, i, UIntChecksum(w, key), UIntChecksum(vw, r[key]), UIntChecksum(vw, o));
    }
  }

  /**
    For longs a pass means less: if a long that was put passes, then one that replaces it
    passes if and only if its halves match those of the first.
   */
  lemma {:induction false} LongAcceptedIff(r: Entries, w: Wrapper, key: Obj, i: nat, v: LongValue, v': LongValue)
    ensures VerifyAt(r, w, key, Int64Wrapper, i) && r[key] == Int64(v) && key != KeyEntry(i) && key != ValEntry(i) ==>
              (VerifyAt(r[key := Int64(v')], w, key, Int64Wrapper, i) <==> HalvesMatch(v', v))
  {
    LongChecksumsIff(v, v');
    ReplacedAt(r, w, key, Int64Wrapper, i, Int64(v'));
  }

  // ---------- the run ----------

  /** One direction of the run: one client puts, the other verifies. */
  method PutThenVerify(putter: Client, getter: Client) returns (pass: bool)
    requires putter.region == getter.region
    requires putter.KeysReady() && putter.ValuesReady() && |putter.cKeys| <= |putter.cValues|
    requires getter.cKeys == putter.cKeys && getter.keyWrapper == putter.keyWrapper
    requires getter.valueWrapper == putter.valueWrapper && |getter.cKeys| <= |getter.cValues|
    modifies putter.region
    ensures putter.region.entries ==
            AfterPuts(old(putter.region.entries), putter.cKeys, putter.cKeyCksums, putter.cValues, putter.cValCksums)
    ensures pass <==> NoNulls(putter.cValues[..|putter.cKeys|])
  {
    var ok := putter.DoPuts();
    ok := putter.DoKeyChecksumPuts();
    ok := putter.DoValChecksumPuts();
    pass := getter.DoGetsVerify();
    VerificationComplete(old(putter.region.entries), putter.keyWrapper, putter.keySize, putter.cKeys,
                         putter.cKeyCksums, putter.valueWrapper, putter.cValues, putter.cValCksums);
  }

  /** Clients that initialise with the same type, count and size have the same keys. */
  lemma {:induction false} SameSetupSameKeys(w: Wrapper, keys: seq<Obj>, keys': seq<Obj>, maxSize: IntValue)
    requires GeneratedKeys(w, keys, maxSize) && GeneratedKeys(w, keys', maxSize) && |keys| == |keys'|
    ensures keys == keys'
  {
    forall i | 0 <= i < |keys|
      ensures keys[i] == keys'[i]
    {
      assert Some(keys[i]) == InitKey(w, i, maxSize) == Some(keys'[i]);
    }
  }

  /** Both directions, with whatever invalidating the region between them leaves in it. */
  method PutGetSteps(client1: Client, client2: Client, invalidated: Entries) returns (pass: bool)
    requires client1.region == client2.region
    requires client1.KeysReady() && client1.ValuesReady() && |client1.cKeys| <= |client1.cValues|
    requires client2.KeysReady() && client2.ValuesReady() && |client2.cKeys| <= |client2.cValues|
    requires client1.keyWrapper == client2.keyWrapper && client1.keySize == client2.keySize
    requires |client1.cKeys| == |client2.cKeys| && client1.valueWrapper == client2.valueWrapper
    modifies client1.region
    ensures pass <==> NoNulls(client1.cValues[..|client1.cKeys|]) && NoNulls(client2.cValues[..|client2.cKeys|])
  {
    SameSetupSameKeys(client1.keyWrapper, client1.cKeys, client2.cKeys, client1.keySize);
    pass := PutThenVerify(client1, client2);
    if !pass {
      return;
    }
    client1.region.entries := invalidated;
    pass := PutThenVerify(client2, client1);
  }

  /** Values for n keys: enough of them, each with a checksum, and none null where it is put. */
  ghost predicate Putable(w: Wrapper, values: seq<Obj>, n: int) {
    0 < n <= |values| && HaveChecksums(w, values) && NoNulls(values[..n])
  }

  /** The test of one key type with one value type, from fresh clients. */
  method TestKeyValuePair(keyType: Wrapper, numKeys: IntValue, keySize: IntValue, valueType: Wrapper,
                          values1: seq<Obj>, values2: seq<Obj>, invalidated: Entries) returns (pass: bool)
    requires IsKeyWrapper(keyType)
    ensures var n := if numKeys > MaxKeys(keyType) then MaxKeys(keyType) else numKeys;
            pass <==>
            && numKeys > 0 && !(keyType.StringWrapper? && keySize <= 0)
            && Putable(valueType, values1, n) && Putable(valueType, values2, n)
  {
    var region := new Region();
    var client1 := new Client(region);
    var client2 := new Client(region);
    var n1 := client1.InitKeys(keyType, numKeys, keySize);
    var n2 := client2.InitKeys(keyType, numKeys, keySize);
    if n1 == None || n2 == None {
      return false;
    }
    var ok1 := client1.InitValues(valueType, values1);
    var ok2 := client2.InitValues(valueType, values2);
    if !ok1 || !ok2 || |values1| < n1.value || |values2| < n1.value {
      return false;
    }
    pass := PutGetSteps(client1, client2, invalidated);
  }
}
