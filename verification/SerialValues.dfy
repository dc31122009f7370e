/**
  The values that the serializer templates handle, nested to any depth: strings, wide
  strings, vectors and maps. A std::map is its list of entries in strictly increasing key
  order, under the lexicographic comparison that the standard containers define.
 */
module SerialValues {

  type Byte = b: int | 0 <= b < 0x100
  type WideChar = c: int | 0 <= c < 0x1_0000_0000

  datatype Ty = TString | TWide | TVector(elem: Ty) | TMap(key: Ty, val: Ty)

  datatype Value =
    | Str(bytes: seq<Byte>)
    | Wide(units: seq<WideChar>)
    | Vec(items: seq<Value>)
    | Map(entries: seq<Entry>)

  datatype Entry = Entry(key: Value, val: Value)

  // ---------- the order of keys ----------

  function CompareInts(a: seq<int>, b: seq<int>): int {
    if a == [] then (if b == [] then 0 else -1)
    else if b == [] then 1
    else if a[0] < b[0] then -1
    else if a[0] > b[0] then 1
    else CompareInts(a[1..], b[1..])
  }

  function Rank(v: Value): int {
    match v
    case Str(_) => 0
    case Wide(_) => 1
    case Vec(_) => 2
    case Map(_) => 3
  }

  /** Negative, zero or positive as a comes before, is, or comes after b. */
  function Compare(a: Value, b: Value): int
    decreases a, 1
  {
    if a.Str? && b.Str? then CompareInts(a.bytes, b.bytes)
    else if a.Wide? && b.Wide? then CompareInts(a.units, b.units)
    else if a.Vec? && b.Vec? then CompareValues(a.items, b.items)
    else if a.Map? && b.Map? then CompareEntries(a.entries, b.entries)
    else Rank(a) - Rank(b)
  }

  function CompareValues(a: seq<Value>, b: seq<Value>): int
    decreases a, 0
  {
    if a == [] then (if b == [] then 0 else -1)
    else if b == [] then 1
    else
      var c := Compare(a[0], b[0]);
      if c != 0 then c else CompareValues(a[1..], b[1..])
  }

  function CompareEntry(a: Entry, b: Entry): int
    decreases a, 2
  {
    var c := Compare(a.key, b.key);
    if c != 0 then c else Compare(a.val, b.val)
  }

  function CompareEntries(a: seq<Entry>, b: seq<Entry>): int
    decreases a, 0
  {
    if a == [] then (if b == [] then 0 else -1)
    else if b == [] then 1
    else
      var c := CompareEntry(a[0], b[0]);
      if c != 0 then c else CompareEntries(a[1..], b[1..])
  }

  predicate Less(a: Value, b: Value) {
    Compare(a, b) < 0
  }

  // The comparison is a total order: zero only for equal values, antisymmetric, transitive.

  lemma {:induction false} CompareIntsLaws(a: seq<int>, b: seq<int>)
    ensures CompareInts(a, b) == 0 <==> a == b
    ensures CompareInts(b, a) == -CompareInts(a, b)
    decreases |a|
  {
    if a != [] && b != [] {
      CompareIntsLaws(a[1..], b[1..]);
      assert a == [a[0]] + a[1..] && b == [b[0]] + b[1..];
    }
  }

  lemma {:induction false} CompareIntsTransitive(a: seq<int>, b: seq<int>, c: seq<int>)
    requires CompareInts(a, b) < 0 && CompareInts(b, c) < 0
    ensures CompareInts(a, c) < 0
    decreases |a|
  {
    if a != [] && a[0] == b[0] == c[0] {
      CompareIntsTransitive(a[1..], b[1..], c[1..]);
    }
  }

  lemma {:induction false} CompareLaws(a: Value, b: Value)
    ensures Compare(a, b) == 0 <==> a == b
    ensures Compare(b, a) == -Compare(a, b)
    decreases a, 1
  {
    if a.Str? && b.Str? {
      CompareIntsLaws(a.bytes, b.bytes);
    } else if a.Wide? && b.Wide? {
      CompareIntsLaws(a.units, b.units);
    } else if a.Vec? && b.Vec? {
      CompareValuesLaws(a.items, b.items);
    } else if a.Map? && b.Map? {
      CompareEntriesLaws(a.entries, b.entries);
    }
  }

  lemma {:induction false} CompareValuesLaws(a: seq<Value>, b: seq<Value>)
    ensures CompareValues(a, b) == 0 <==> a == b
    ensures CompareValues(b, a) == -CompareValues(a, b)
    decreases a, 0
  {
    if a != [] && b != [] {
      CompareLaws(a[0], b[0]);
      CompareValuesLaws(a[1..], b[1..]);
      assert a == [a[0]] + a[1..] && b == [b[0]] + b[1..];
    }
  }

  lemma {:induction false} CompareEntryLaws(a: Entry, b: Entry)
    ensures CompareEntry(a, b) == 0 <==> a == b
    ensures CompareEntry(b, a) == -CompareEntry(a, b)
    decreases a, 2
  {
    CompareLaws(a.key, b.key);
    CompareLaws(a.val, b.val);
  }

  lemma {:induction false} CompareEntriesLaws(a: seq<Entry>, b: seq<Entry>)
    ensures CompareEntries(a, b) == 0 <==> a == b
    ensures CompareEntries(b, a) == -CompareEntries(a, b)
    decreases a, 0
  {
    if a != [] && b != [] {
      CompareEntryLaws(a[0], b[0]);
      CompareEntriesLaws(a[1..], b[1..]);
      assert a == [a[0]] + a[1..] && b == [b[0]] + b[1..];
    }
  }

  lemma {:induction false} CompareTransitive(a: Value, b: Value, c: Value)
    requires Compare(a, b) < 0 && Compare(b, c) < 0
    ensures Compare(a, c) < 0
    decreases a, 1
  {
    if Rank(a) == Rank(b) == Rank(c) {
      if a.Str? {
        CompareIntsTransitive(a.bytes, b.bytes, c.bytes);
      } else if a.Wide? {
        CompareIntsTransitive(a.units, b.units, c.units);
      } else if a.Vec? {
        CompareValuesTransitive(a.items, b.items, c.items);
      } else {
        CompareEntriesTransitive(a.entries, b.entries, c.entries);
      }
    }
  }

  lemma {:induction false} CompareValuesTransitive(a: seq<Value>, b: seq<Value>, c: seq<Value>)
    requires CompareValues(a, b) < 0 && CompareValues(b, c) < 0
    ensures CompareValues(a, c) < 0
    decreases a, 0
  {
    if a != [] {
      CompareLaws(a[0], b[0]);
      CompareLaws(b[0], c[0]);
      if a[0] == b[0] == c[0] {
        CompareValuesTransitive(a[1..], b[1..], c[1..]);
      } else if a[0] != b[0] && b[0] != c[0] {
        CompareTransitive(a[0], b[0], c[0]);
      }
    }
  }

  lemma {:induction false} CompareEntryTransitive(a: Entry, b: Entry, c: Entry)
    requires CompareEntry(a, b) < 0 && CompareEntry(b, c) < 0
    ensures CompareEntry(a, c) < 0
    decreases a, 2
  {
    CompareLaws(a.key, b.key);
    CompareLaws(b.key, c.key);
    if a.key == b.key == c.key {
      CompareTransitive(a.val, b.val, c.val);
    } else if a.key != b.key && b.key != c.key {
      CompareTransitive(a.key, b.key, c.key);
    }
  }

  lemma {:induction false} CompareEntriesTransitive(a: seq<Entry>, b: seq<Entry>, c: seq<Entry>)
    requires CompareEntries(a, b) < 0 && CompareEntries(b, c) < 0
    ensures CompareEntries(a, c) < 0
    decreases a, 0
  {
    if a != [] {
      CompareEntryLaws(a[0], b[0]);
      CompareEntryLaws(b[0], c[0]);
      if a[0] == b[0] == c[0] {
        CompareEntriesTransitive(a[1..], b[1..], c[1..]);
      } else if a[0] != b[0] && b[0] != c[0] {
        CompareEntryTransitive(a[0], b[0], c[0]);
      }
    }
  }

  // It is the lexicographic order: a sequence comes before its extensions, and otherwise the first difference decides.

  ghost predicate IntsBefore(a: seq<int>, b: seq<int>) {
    a < b || exists i :: 0 <= i < |a| && i < |b| && a[..i] == b[..i] && a[i] < b[i]
  }

  ghost predicate ItemsBefore(a: seq<Value>, b: seq<Value>) {
    a < b || exists i :: 0 <= i < |a| && i < |b| && a[..i] == b[..i] && Less(a[i], b[i])
  }

  /** Pairs are ordered by their keys, and by their values where the keys are equal. */
  predicate EntryBefore(e: Entry, f: Entry) {
    Less(e.key, f.key) || (e.key == f.key && Less(e.val, f.val))
  }

  ghost predicate EntriesBefore(a: seq<Entry>, b: seq<Entry>) {
    a < b || exists i :: 0 <= i < |a| && i < |b| && a[..i] == b[..i] && EntryBefore(a[i], b[i])
  }

  lemma {:induction false} PrefixStep<T>(a: seq<T>, b: seq<T>, i: nat)
    requires 0 < i <= |a| && i <= |b| && a[0] == b[0]
    ensures a[..i] == b[..i] <==> a[1..][..i - 1] == b[1..][..i - 1]
    ensures a < b <==> a[1..] < b[1..]
  {
    assert a[..i] == [a[0]] + a[1..][..i - 1] && b[..i] == [b[0]] + b[1..][..i - 1];
    assert a == [a[0]] + a[1..] && b == [b[0]] + b[1..];
    if a[..i] == b[..i] {
      assert a[..i][1..] == a[1..][..i - 1] && b[..i][1..] == b[1..][..i - 1];
    }
  }

  lemma {:induction false} IntsBeforeStep(a: seq<int>, b: seq<int>)
    requires a != [] && b != [] && a[0] == b[0]
    ensures IntsBefore(a, b) <==> IntsBefore(a[1..], b[1..])
  {
    PrefixStep(a, b, 1);
    if i :| 0 <= i < |a| && i < |b| && a[..i] == b[..i] && a[i] < b[i] {
      PrefixStep(a, b, i);
      assert a[1..][i - 1] < b[1..][i - 1];
    }
    if i :| 0 <= i < |a[1..]| && i < |b[1..]| && a[1..][..i] == b[1..][..i] && a[1..][i] < b[1..][i] {
      PrefixStep(a, b, i + 1);
      assert a[i + 1] < b[i + 1];
    }
  }

  lemma {:induction false} IntsBeforeIff(a: seq<int>, b: seq<int>)
    ensures CompareInts(a, b) < 0 <==> IntsBefore(a, b)
    decreases |a|
  {
    if a != [] && b != [] {
      if a[0] == b[0] {
        IntsBeforeStep(a, b);
        IntsBeforeIff(a[1..], b[1..]);
      } else {
        FirstDiffers(a, b);
        if a[0] < b[0] {
          assert a[..0] == b[..0];
        }
      }
    }
  }

  lemma {:induction false} FirstDiffers<T>(a: seq<T>, b: seq<T>)
    requires a != [] && b != [] && a[0] != b[0]
    ensures !(a < b) && forall i :: 0 < i <= |a| && i <= |b| ==> a[..i] != b[..i]
  {
    forall i | 0 < i <= |a| && i <= |b|
      ensures a[..i] != b[..i]
    {
      assert a[..i][0] == a[0] && b[..i][0] == b[0];
    }
  }

  lemma {:induction false} ItemsBeforeStep(a: seq<Value>, b: seq<Value>)
    requires a != [] && b != [] && a[0] == b[0]
    ensures ItemsBefore(a, b) <==> ItemsBefore(a[1..], b[1..])
  {
    PrefixStep(a, b, 1);
    CompareLaws(a[0], b[0]);
    if i :| 0 <= i < |a| && i < |b| && a[..i] == b[..i] && Less(a[i], b[i]) {
      PrefixStep(a, b, i);
      assert Less(a[1..][i - 1], b[1..][i - 1]);
    }
    if i :| 0 <= i < |a[1..]| && i < |b[1..]| && a[1..][..i] == b[1..][..i] && Less(a[1..][i], b[1..][i]) {
      PrefixStep(a, b, i + 1);
      assert Less(a[i + 1], b[i + 1]);
    }
  }

  lemma {:induction false} ItemsBeforeIff(a: seq<Value>, b: seq<Value>)
    ensures CompareValues(a, b) < 0 <==> ItemsBefore(a, b)
    decreases |a|
  {
    if a != [] && b != [] {
      CompareLaws(a[0], b[0]);
      if a[0] == b[0] {
        ItemsBeforeStep(a, b);
        ItemsBeforeIff(a[1..], b[1..]);
      } else {
        FirstDiffers(a, b);
        if Less(a[0], b[0]) {
          assert a[..0] == b[..0];
        }
      }
    }
  }

  lemma {:induction false} EntryBeforeIff(e: Entry, f: Entry)
    ensures CompareEntry(e, f) < 0 <==> EntryBefore(e, f)
  {
    CompareLaws(e.key, f.key);
  }

  lemma {:induction false} EntriesBeforeStep(a: seq<Entry>, b: seq<Entry>)
    requires a != [] && b != [] && a[0] == b[0]
    ensures EntriesBefore(a, b) <==> EntriesBefore(a[1..], b[1..])
  {
    PrefixStep(a, b, 1);
    EntryBeforeIff(a[0], b[0]);
    CompareEntryLaws(a[0], b[0]);
    if i :| 0 <= i < |a| && i < |b| && a[..i] == b[..i] && EntryBefore(a[i], b[i]) {
      PrefixStep(a, b, i);
      assert EntryBefore(a[1..][i - 1], b[1..][i - 1]);
    }
    if i :| 0 <= i < |a[1..]| && i < |b[1..]| && a[1..][..i] == b[1..][..i] && EntryBefore(a[1..][i], b[1..][i]) {
      PrefixStep(a, b, i + 1);
      assert EntryBefore(a[i + 1], b[i + 1]);
    }
  }

  lemma {:induction false} EntriesBeforeIff(a: seq<Entry>, b: seq<Entry>)
    ensures CompareEntries(a, b) < 0 <==> EntriesBefore(a, b)
    decreases |a|
  {
    if a != [] && b != [] {
      CompareEntryLaws(a[0], b[0]);
      EntryBeforeIff(a[0], b[0]);
      if a[0] == b[0] {
        EntriesBeforeStep(a, b);
        EntriesBeforeIff(a[1..], b[1..]);
      } else {
        FirstDiffers(a, b);
        if EntryBefore(a[0], b[0]) {
          assert a[..0] == b[..0];
        }
      }
    }
  }

  /** The order of the standard containers, for each kind of value. */
  lemma {:induction false} LessIff(a: Value, b: Value)
    ensures a.Str? && b.Str? ==> (Less(a, b) <==> IntsBefore(a.bytes, b.bytes))
    ensures a.Wide? && b.Wide? ==> (Less(a, b) <==> IntsBefore(a.units, b.units))
    ensures a.Vec? && b.Vec? ==> (Less(a, b) <==> ItemsBefore(a.items, b.items))
    ensures a.Map? && b.Map? ==> (Less(a, b) <==> EntriesBefore(a.entries, b.entries))
  {
    match a {
      case Str(bytes) => if b.Str? { IntsBeforeIff(bytes, b.bytes); }
      case Wide(units) => if b.Wide? { IntsBeforeIff(units, b.units); }
      case Vec(items) => if b.Vec? { ItemsBeforeIff(items, b.items); }
      case Map(entries) => if b.Map? { EntriesBeforeIff(entries, b.entries); }
    }
  }

  // ---------- maps ----------

  /** Keys in strictly increasing order. */
  predicate Sorted(entries: seq<Entry>) {
    forall i, j :: 0 <= i < j < |entries| ==> Less(entries[i].key, entries[j].key)
  }

  function AsMap(entries: seq<Entry>): map<Value, Value> {
    if entries == [] then map[] else AsMap(entries[1..])[entries[0].key := entries[0].val]
  }

  /** value[key] = val */
  function Insert(entries: seq<Entry>, k: Value, v: Value): seq<Entry> {
    if entries == [] then [Entry(k, v)]
    else if entries[0].key == k then [Entry(k, v)] + entries[1..]
    else if Less(k, entries[0].key) then [Entry(k, v)] + entries
    else [entries[0]] + Insert(entries[1..], k, v)
  }

  lemma {:induction false} AsMapKeys(entries: seq<Entry>, k: Value)
    ensures k in AsMap(entries) <==> exists i :: 0 <= i < |entries| && entries[i].key == k
    decreases |entries|
  {
    if entries != [] {
      AsMapKeys(entries[1..], k);
      if k in AsMap(entries[1..]) {
        var i :| 0 <= i < |entries[1..]| && entries[1..][i].key == k;
        assert entries[i + 1].key == k;
      }
      if i :| 0 <= i < |entries| && entries[i].key == k {
        assert i > 0 ==> entries[1..][i - 1].key == k;
      }
    }
  }

  lemma {:induction false} InsertAsMap(entries: seq<Entry>, k: Value, v: Value)
    ensures AsMap(Insert(entries, k, v)) == AsMap(entries)[k := v]
    decreases |entries|
  {
    if entries != [] {
      var r := Insert(entries, k, v);
      if entries[0].key == k {
        assert r[1..] == entries[1..];
      } else if Less(k, entries[0].key) {
        assert r[1..] == entries;
      } else {
        assert r[1..] == Insert(entries[1..], k, v);
        InsertAsMap(entries[1..], k, v);
      }
    }
  }

  lemma {:induction false} InsertKeys(entries: seq<Entry>, k: Value, v: Value, i: nat)
    requires i < |Insert(entries, k, v)|
    ensures var e := Insert(entries, k, v)[i]; e.key == k || (exists j :: 0 <= j < |entries| && entries[j].key == e.key)
    decreases |entries|
  {
    var r := Insert(entries, k, v);
    if entries != [] {
      if entries[0].key == k || Less(k, entries[0].key) {
        if r[i].key != k {
          var j := if entries[0].key == k then i else i - 1;
          assert entries[j].key == r[i].key;
        }
      } else if i == 0 {
        assert entries[0].key == r[0].key;
      } else {
        InsertKeys(entries[1..], k, v, i - 1);
        if r[i].key != k {
          var j :| 0 <= j < |entries[1..]| && entries[1..][j].key == r[i].key;
          assert entries[j + 1].key == r[i].key;
        }
      }
    }
  }

  lemma {:induction false} SortedTail(entries: seq<Entry>)
    requires Sorted(entries) && entries != []
    ensures Sorted(entries[1..])
    ensures forall i :: 0 <= i < |entries[1..]| ==> Less(entries[0].key, entries[1..][i].key)
  {}

  lemma {:induction false} SortedCons(e: Entry, rest: seq<Entry>)
    requires Sorted(rest) && forall i :: 0 <= i < |rest| ==> Less(e.key, rest[i].key)
    ensures Sorted([e] + rest)
  {}

  lemma {:induction false} InsertSorted(entries: seq<Entry>, k: Value, v: Value)
    requires Sorted(entries)
    ensures Sorted(Insert(entries, k, v))
    decreases |entries|
  {
    if entries != [] {
      var head, rest := entries[0], entries[1..];
      SortedTail(entries);
      if head.key == k {
        SortedCons(Entry(k, v), rest);
      } else if Less(k, head.key) {
        forall i | 0 <= i < |entries|
          ensures Less(k, entries[i].key)
        {
          if i > 0 {
            CompareTransitive(k, head.key, entries[i].key);
          }
        }
        SortedCons(Entry(k, v), entries);
      } else {
        CompareLaws(k, head.key);
        InsertSorted(rest, k, v);
        forall i | 0 <= i < |Insert(rest, k, v)|
          ensures Less(head.key, Insert(rest, k, v)[i].key)
        {
          InsertKeys(rest, k, v, i);
        }
        SortedCons(head, Insert(rest, k, v));
      }
    }
  }

  lemma {:induction false} FirstKeyNotAfter(a: seq<Entry>, b: seq<Entry>)
    requires Sorted(a) && Sorted(b) && a != [] && b != [] && AsMap(a) == AsMap(b)
    ensures !Less(a[0].key, b[0].key)
  {
    var k := a[0].key;
    assert k in AsMap(a);
    AsMapKeys(b, k);
    var j :| 0 <= j < |b| && b[j].key == k;
    CompareLaws(k, k);
    if j > 0 {
      CompareLaws(b[0].key, k);
    }
  }

  lemma {:induction false} EmptyAsMap(entries: seq<Entry>)
    ensures AsMap(entries) == map[] <==> entries == []
  {
    if entries != [] {
      assert entries[0].key in AsMap(entries);
    }
  }

  /** A map has one list of entries: iteration order is decided by the keys. */
  lemma {:induction false} Canonical(a: seq<Entry>, b: seq<Entry>)
    requires Sorted(a) && Sorted(b) && AsMap(a) == AsMap(b)
    ensures a == b
    decreases |a|
  {
    if a == [] || b == [] {
      EmptyAsMap(a);
      EmptyAsMap(b);
    } else {
      FirstKeyNotAfter(a, b);
      FirstKeyNotAfter(b, a);
      CompareLaws(a[0].key, b[0].key);
      SortedTail(a);
      SortedTail(b);
      TailAsMap(a);
      TailAsMap(b);
      assert AsMap(a)[a[0].key] == a[0].val && AsMap(b)[b[0].key] == b[0].val;
      Canonical(a[1..], b[1..]);
      assert a == [a[0]] + a[1..] && b == [b[0]] + b[1..];
    }
  }

  lemma {:induction false} TailAsMap(a: seq<Entry>)
    requires Sorted(a) && a != []
    ensures AsMap(a[1..]) == AsMap(a) - {a[0].key}
  {
    AsMapKeys(a[1..], a[0].key);
    SortedTail(a);
    CompareLaws(a[0].key, a[0].key);
  }
}
