/**
  Checksums of containers combine the checksums of their elements by exclusive or, so they
  depend only on which element checksums occur an odd number of times.
 */
module ContainerChecksums {
  import opened Options
  import opened Sequences
  import opened Words
  import opened Checksums

  // ---------- sums of words ----------

  lemma {:induction false} XorAllConcat(s: seq<bv32>, t: seq<bv32>)
    ensures XorAll(s + t) == Xor(XorAll(s), XorAll(t))
    decreases |s|
  {
    if s == [] {
      assert s + t == t;
      XorZero(XorAll(t));
    } else {
      assert (s + t)[0] == s[0] && (s + t)[1..] == s[1..] + t;
      XorAllConcat(s[1..], t);
      XorAssoc(s[0], XorAll(s[1..]), XorAll(t));
    }
  }

  function RemoveAt<T>(s: seq<T>, j: nat): (r: seq<T>)
    requires j < |s|
    ensures |r| == |s| - 1
  {
    s[..j] + s[j + 1..]
  }

  lemma {:induction false} RemoveAtMultiset<T>(s: seq<T>, j: nat)
    requires j < |s|
    ensures multiset(s) == multiset(RemoveAt(s, j)) + multiset{s[j]}
  {
    assert s == s[..j] + [s[j]] + s[j + 1..];
  }

  lemma {:induction false} XorAllRemove(s: seq<bv32>, j: nat)
    requires j < |s|
    ensures XorAll(s) == Xor(s[j], XorAll(RemoveAt(s, j)))
  {
    var a, b := s[..j], s[j + 1..];
    SplitAt(s, j);
    XorAllConcat(a, [s[j]] + b);
    XorAllConcat(a, b);
    XorMove(XorAll(a), s[j], XorAll(b));
  }

  lemma {:induction false} XorMove(a: bv32, x: bv32, b: bv32)
    ensures Xor(a, Xor(x, b)) == Xor(x, Xor(a, b))
  {
    XorAssoc(a, x, b);
    XorComm(a, x);
    XorAssoc(x, a, b);
  }

  lemma {:induction false} HeadMultiset<T>(s: seq<T>)
    requires s != []
    ensures multiset(s) == multiset{s[0]} + multiset(s[1..])
  {
    assert s == [s[0]] + s[1..];
  }

  ghost predicate AllEven<T(!new)>(s: seq<T>) {
    forall c :: multiset(s)[c] % 2 == 0
  }

  ghost predicate SameParity<T(!new)>(s: seq<T>, t: seq<T>) {
    forall c :: multiset(s)[c] % 2 == multiset(t)[c] % 2
  }

  lemma {:induction false} EvenSum(m: nat, n: nat)
    requires m % 2 == n % 2
    ensures (m + n) % 2 == 0
  {}

  lemma {:induction false} SameParityTogether<T(!new)>(s: seq<T>, t: seq<T>)
    requires SameParity(s, t)
    ensures AllEven(s + t)
  {
    forall c
      ensures multiset(s + t)[c] % 2 == 0
    {
      EvenSum(multiset(s)[c], multiset(t)[c]);
    }
  }

  /** If everything occurs an even number of times, the first element has a partner to go with it. */
  lemma {:induction false} PairOff<T(!new)>(s: seq<T>) returns (j: nat)
    requires s != [] && AllEven(s)
    ensures j < |s| - 1 && s[1..][j] == s[0] && AllEven(RemoveAt(s[1..], j))
  {
    var x, rest := s[0], s[1..];
    HeadMultiset(s);
    assert multiset(s)[x] == 1 + multiset(rest)[x];
    assert x in multiset(rest);
    j :| 0 <= j < |rest| && rest[j] == x;
    RemoveAtMultiset(rest, j);
    forall c
      ensures multiset(RemoveAt(rest, j))[c] % 2 == 0
    {
      var n := multiset(RemoveAt(rest, j))[c];
      assert multiset(s)[c] == n + if c == x then 2 else 0;
      assert (n + 2) % 2 == n % 2;
    }
  }

  lemma {:induction false} EvenSumsVanish(u: seq<bv32>)
    requires AllEven(u)
    ensures XorAll(u) == 0
    decreases |u|
  {
    if u != [] {
      var j := PairOff(u);
      EvenSumsVanish(RemoveAt(u[1..], j));
      XorAllRemove(u[1..], j);
      XorZero(u[0]);
      XorSelf(u[0]);
    }
  }

  /** Equal parities of occurrence give equal sums. */
  lemma {:induction false} ParityDecides(s: seq<bv32>, t: seq<bv32>)
    requires SameParity(s, t)
    ensures XorAll(s) == XorAll(t)
  {
    SameParityTogether(s, t);
    EvenSumsVanish(s + t);
    XorAllConcat(s, t);
    XorIsZero(XorAll(s), XorAll(t));
  }

  lemma {:induction false} SameMultisetSameParity<T(!new)>(s: seq<T>, t: seq<T>)
    requires multiset(s) == multiset(t)
    ensures SameParity(s, t)
  {}

  // ---------- enumeration order ----------

  function Single(c: Option<bv32>): Option<seq<bv32>> {
    if c.Some? then Some([c.value]) else None
  }

  /** What an element contributes: nothing if it is skipped, None if it makes the checksum fail. */
  function ItemPart(o: Obj): Option<seq<bv32>> {
    if o == Null then Some([]) else Single(ValueChecksum(o))
  }

  function KeyPart(o: Obj): Option<seq<bv32>> {
    Single(KeyChecksum(o))
  }

  function EntryPart(e: Entry): Option<seq<bv32>> {
    Single(EntryChecksum(e))
  }

  function Append(a: Option<seq<bv32>>, b: Option<seq<bv32>>): Option<seq<bv32>> {
    if a.Some? && b.Some? then Some(a.value + b.value) else None
  }

  function Collect<T>(f: T -> Option<seq<bv32>>, s: seq<T>): Option<seq<bv32>> {
    if s == [] then Some([]) else Append(f(s[0]), Collect(f, s[1..]))
  }

  ghost predicate SameWords(a: Option<seq<bv32>>, b: Option<seq<bv32>>) {
    a.Some? == b.Some? && (a.Some? ==> multiset(a.value) == multiset(b.value))
  }

  lemma {:induction false} CollectRemove<T>(f: T -> Option<seq<bv32>>, s: seq<T>, j: nat)
    requires j < |s|
    ensures SameWords(Collect(f, s), Append(f(s[j]), Collect(f, RemoveAt(s, j))))
    decreases |s|
  {
    if j == 0 {
      assert RemoveAt(s, 0) == s[1..];
    } else {
      var r := RemoveAt(s[1..], j - 1);
      assert RemoveAt(s, j)[0] == s[0] && RemoveAt(s, j)[1..] == r;
      CollectRemove(f, s[1..], j - 1);
    }
  }

  /** One element has a partner elsewhere that contributes the same. */
  lemma {:induction false} CollectStep<T>(f: T -> Option<seq<bv32>>, s: seq<T>, t: seq<T>, j: nat)
    requires s != [] && j < |t| && f(s[0]) == f(t[j])
    requires SameWords(Collect(f, s[1..]), Collect(f, RemoveAt(t, j)))
    ensures SameWords(Collect(f, s), Collect(f, t))
  {
    CollectRemove(f, t, j);
  }

  lemma {:induction false} ItemsCollected(items: seq<Obj>)
    ensures ItemChecksums(items) == Collect(ItemPart, items)
    decreases |items|
  {
    if items != [] {
      ItemsCollected(items[1..]);
      var rest := ItemChecksums(items[1..]);
      assert rest.Some? ==> [] + rest.value == rest.value;
    }
  }

  lemma {:induction false} KeysCollected(keys: seq<Obj>)
    ensures KeyChecksums(keys) == Collect(KeyPart, keys)
    decreases |keys|
  {
    if keys != [] {
      KeysCollected(keys[1..]);
    }
  }

  lemma {:induction false} EntriesCollected(entries: seq<Entry>)
    ensures EntryChecksums(entries) == Collect(EntryPart, entries)
    decreases |entries|
  {
    if entries != [] {
      EntriesCollected(entries[1..]);
    }
  }

  lemma {:induction false} SameWordsSameSum(a: Option<seq<bv32>>, b: Option<seq<bv32>>)
    requires SameWords(a, b)
    ensures Combine(a) == Combine(b)
  {
    if a.Some? {
      SameMultisetSameParity(a.value, b.value);
      ParityDecides(a.value, b.value);
    }
  }

  /** The same object, up to the order in which it and every container inside it enumerate. */
  ghost predicate Reordered(o: Obj, p: Obj)
    decreases o, 1
  {
    || o == p
    || (o.List? && p.List? && o.listKind == p.listKind && ReorderedItems(o.items, p.items))
    || (o.KeySet? && p.KeySet? && o.setKind == p.setKind && ReorderedItems(o.keys, p.keys))
    || (o.Dictionary? && p.Dictionary? && ReorderedEntries(o.entries, p.entries))
    || (o.Hashtable? && p.Hashtable? && ReorderedEntries(o.entries, p.entries))
  }

  ghost predicate ReorderedItems(s: seq<Obj>, t: seq<Obj>)
    decreases s, 0
  {
    if s == [] then t == []
    else exists j :: 0 <= j < |t| && Reordered(s[0], t[j]) && ReorderedItems(s[1..], RemoveAt(t, j))
  }

  ghost predicate ReorderedEntry(e: Entry, f: Entry)
    decreases e, 2
  {
    Reordered(e.key, f.key) && Reordered(e.val, f.val)
  }

  ghost predicate ReorderedEntries(s: seq<Entry>, t: seq<Entry>)
    decreases s, 0
  {
    if s == [] then t == []
    else exists j :: 0 <= j < |t| && ReorderedEntry(s[0], t[j]) && ReorderedEntries(s[1..], RemoveAt(t, j))
  }

  lemma {:induction false} SameWrappers(o: Obj, p: Obj)
    requires Reordered(o, p)
    ensures WrapperFor(o) == WrapperFor(p) && KeyWrapperFor(o) == KeyWrapperFor(p) && (o == Null <==> p == Null)
  {}

  /** Every wrapper gives an object one checksum, or one failure, in whichever order its containers enumerate. */
  lemma {:induction false} EnumerationOrderIrrelevant(w: Wrapper, o: Obj, p: Obj)
    requires Reordered(o, p)
    ensures ChecksumOf(w, o) == ChecksumOf(w, p)
    decreases o, 1
  {
    if o != p {
      if o.List? {
        ItemOrder(o.items, p.items);
      } else if o.KeySet? {
        KeyOrder(o.keys, p.keys);
      } else {
        EntryOrder(o.entries, p.entries);
      }
    }
  }

  lemma {:induction false} PartOrder(o: Obj, p: Obj)
    requires Reordered(o, p)
    ensures ItemPart(o) == ItemPart(p) && KeyPart(o) == KeyPart(p)
    ensures ValueChecksum(o) == ValueChecksum(p) && KeyChecksum(o) == KeyChecksum(p)
    decreases o, 2
  {
    SameWrappers(o, p);
    if WrapperFor(o).Some? {
      EnumerationOrderIrrelevant(WrapperFor(o).value, o, p);
    }
    if KeyWrapperFor(o).Some? {
      EnumerationOrderIrrelevant(KeyWrapperFor(o).value, o, p);
    }
  }

  lemma {:induction false} ItemParts(s: seq<Obj>, t: seq<Obj>)
    requires ReorderedItems(s, t)
    ensures SameWords(Collect(ItemPart, s), Collect(ItemPart, t))
    ensures SameWords(Collect(KeyPart, s), Collect(KeyPart, t))
    decreases s, 0
  {
    if s != [] {
      var j :| 0 <= j < |t| && Reordered(s[0], t[j]) && ReorderedItems(s[1..], RemoveAt(t, j));
      PartOrder(s[0], t[j]);
      ItemParts(s[1..], RemoveAt(t, j));
      CollectStep(ItemPart, s, t, j);
      CollectStep(KeyPart, s, t, j);
    }
  }

  lemma {:induction false} EntryPartOrder(e: Entry, f: Entry)
    requires ReorderedEntry(e, f)
    ensures EntryPart(e) == EntryPart(f)
    decreases e, 3
  {
    PartOrder(e.key, f.key);
    PartOrder(e.val, f.val);
  }

  lemma {:induction false} EntryParts(s: seq<Entry>, t: seq<Entry>)
    requires ReorderedEntries(s, t)
    ensures SameWords(Collect(EntryPart, s), Collect(EntryPart, t))
    decreases s, 0
  {
    if s != [] {
      var j :| 0 <= j < |t| && ReorderedEntry(s[0], t[j]) && ReorderedEntries(s[1..], RemoveAt(t, j));
      EntryPartOrder(s[0], t[j]);
      EntryParts(s[1..], RemoveAt(t, j));
      CollectStep(EntryPart, s, t, j);
    }
  }

  lemma {:induction false} ItemOrder(s: seq<Obj>, t: seq<Obj>)
    requires ReorderedItems(s, t)
    ensures Combine(ItemChecksums(s)) == Combine(ItemChecksums(t))
    decreases s, 1
  {
    ItemsCollected(s);
    ItemsCollected(t);
    ItemParts(s, t);
    SameWordsSameSum(ItemChecksums(s), ItemChecksums(t));
  }

  lemma {:induction false} KeyOrder(s: seq<Obj>, t: seq<Obj>)
    requires ReorderedItems(s, t)
    ensures Combine(KeyChecksums(s)) == Combine(KeyChecksums(t))
    decreases s, 1
  {
    KeysCollected(s);
    KeysCollected(t);
    ItemParts(s, t);
    SameWordsSameSum(KeyChecksums(s), KeyChecksums(t));
  }

  lemma {:induction false} EntryOrder(s: seq<Entry>, t: seq<Entry>)
    requires ReorderedEntries(s, t)
    ensures Combine(EntryChecksums(s)) == Combine(EntryChecksums(t))
    decreases s, 1
  {
    EntriesCollected(s);
    EntriesCollected(t);
    EntryParts(s, t);
    SameWordsSameSum(EntryChecksums(s), EntryChecksums(t));
  }

  lemma {:induction false} CancelOne<T>(a: multiset<T>, b: multiset<T>, x: T)
    requires multiset{x} + a == b + multiset{x}
    ensures a == b
  {
    forall c
      ensures a[c] == b[c]
    {
      assert (multiset{x} + a)[c] == (b + multiset{x})[c];
    }
  }

  lemma {:induction false} Partner<T>(s: seq<T>, t: seq<T>) returns (j: nat)
    requires s != [] && multiset(s) == multiset(t)
    ensures j < |t| && t[j] == s[0] && multiset(s[1..]) == multiset(RemoveAt(t, j))
  {
    HeadMultiset(s);
    assert s[0] in multiset(t);
    j :| 0 <= j < |t| && t[j] == s[0];
    RemoveAtMultiset(t, j);
    CancelOne(multiset(s[1..]), multiset(RemoveAt(t, j)), s[0]);
  }

  /** In particular, any permutation of the elements is a reordering. */
  lemma {:induction false} PermutedItems(s: seq<Obj>, t: seq<Obj>)
    requires multiset(s) == multiset(t)
    ensures ReorderedItems(s, t)
    decreases |s|
  {
    if s == [] {
      assert |multiset(t)| == |t|;
    } else {
      var j := Partner(s, t);
      PermutedItems(s[1..], RemoveAt(t, j));
    }
  }

  lemma {:induction false} ReorderedSelf(e: Entry)
    ensures ReorderedEntry(e, e)
  {
    assert Reordered(e.key, e.key) && Reordered(e.val, e.val);
  }

  lemma {:induction false} PermutedEntries(s: seq<Entry>, t: seq<Entry>)
    requires multiset(s) == multiset(t)
    ensures ReorderedEntries(s, t)
    decreases |s|
  {
    if s == [] {
      assert |multiset(t)| == |t|;
    } else {
      var j := Partner(s, t);
      PermutedEntries(s[1..], RemoveAt(t, j));
      ReorderedSelf(s[0]);
    }
  }

  /** Only the parities of the element checksums matter, so an even number of equal elements cancels. */
  lemma {:induction false} ListChecksumByParity(kind: ListKind, items: seq<Obj>, items': seq<Obj>)
    requires ItemChecksums(items).Some? && ItemChecksums(items').Some?
    requires SameParity(ItemChecksums(items).value, ItemChecksums(items').value)
    ensures ChecksumOf(ListWrapper(kind), List(kind, items)) == ChecksumOf(ListWrapper(kind), List(kind, items'))
  {
    ParityDecides(ItemChecksums(items).value, ItemChecksums(items').value);
  }

  // ---------- containers from their parts ----------

  lemma {:induction false} CombineAppend(a: Option<seq<bv32>>, b: Option<seq<bv32>>)
    ensures Combine(Append(a, b)) == XorOption(Combine(a), Combine(b))
  {
    if a.Some? && b.Some? {
      XorAllConcat(a.value, b.value);
    }
  }

  lemma {:induction false} CollectConcat<T>(f: T -> Option<seq<bv32>>, s: seq<T>, t: seq<T>)
    ensures Collect(f, s + t) == Append(Collect(f, s), Collect(f, t))
    decreases |s|
  {
    if s == [] {
      assert s + t == t;
      EmptyFront(Collect(f, t));
    } else {
      assert (s + t)[0] == s[0] && (s + t)[1..] == s[1..] + t;
      CollectConcat(f, s[1..], t);
      AppendAssoc(f(s[0]), Collect(f, s[1..]), Collect(f, t));
    }
  }

  lemma {:induction false} EmptyFront(b: Option<seq<bv32>>)
    ensures Append(Some([]), b) == b
  {
    if b.Some? {
      assert [] + b.value == b.value;
    }
  }

  lemma {:induction false} AppendAssoc(a: Option<seq<bv32>>, b: Option<seq<bv32>>, c: Option<seq<bv32>>)
    ensures Append(Append(a, b), c) == Append(a, Append(b, c))
  {
    if a.Some? && b.Some? && c.Some? {
      Assoc(a.value, b.value, c.value);
    }
  }

  lemma {:induction false} ListIsCombined(kind: ListKind, s: seq<Obj>)
    ensures ChecksumOf(ListWrapper(kind), List(kind, s)) == Combine(ItemChecksums(s))
  {}

  lemma {:induction false} SetIsCombined(kind: SetKind, s: seq<Obj>)
    ensures ChecksumOf(SetWrapper(kind), KeySet(kind, s)) == Combine(KeyChecksums(s))
  {}

  lemma {:induction false} MapIsCombined(entries: seq<Entry>)
    ensures ChecksumOf(HashTableWrapper, Hashtable(entries)) == Combine(EntryChecksums(entries))
    ensures ChecksumOf(HashMapWrapper, Dictionary(entries)) == Combine(EntryChecksums(entries))
  {}

  lemma {:induction false} ItemsJoined(s: seq<Obj>, t: seq<Obj>)
    ensures Combine(ItemChecksums(s + t)) == XorOption(Combine(ItemChecksums(s)), Combine(ItemChecksums(t)))
  {
    ItemsCollected(s + t);
    ItemsCollected(s);
    ItemsCollected(t);
    CollectConcat(ItemPart, s, t);
    CombineAppend(ItemChecksums(s), ItemChecksums(t));
  }

  lemma {:induction false} KeysJoined(s: seq<Obj>, t: seq<Obj>)
    ensures Combine(KeyChecksums(s + t)) == XorOption(Combine(KeyChecksums(s)), Combine(KeyChecksums(t)))
  {
    KeysCollected(s + t);
    KeysCollected(s);
    KeysCollected(t);
    CollectConcat(KeyPart, s, t);
    CombineAppend(KeyChecksums(s), KeyChecksums(t));
  }

  /** The checksum of a list is that of its two parts combined, and fails if either does. */
  lemma {:induction false} ListParts(kind: ListKind, s: seq<Obj>, t: seq<Obj>)
    ensures ChecksumOf(ListWrapper(kind), List(kind, s + t)) ==
            XorOption(ChecksumOf(ListWrapper(kind), List(kind, s)), ChecksumOf(ListWrapper(kind), List(kind, t)))
  {
    ItemsJoined(s, t);
    ListIsCombined(kind, s + t);
    ListIsCombined(kind, s);
    ListIsCombined(kind, t);
  }

  lemma {:induction false} SetParts(kind: SetKind, s: seq<Obj>, t: seq<Obj>)
    ensures ChecksumOf(SetWrapper(kind), KeySet(kind, s + t)) ==
            XorOption(ChecksumOf(SetWrapper(kind), KeySet(kind, s)), ChecksumOf(SetWrapper(kind), KeySet(kind, t)))
  {
    KeysJoined(s, t);
    SetIsCombined(kind, s + t);
    SetIsCombined(kind, s);
    SetIsCombined(kind, t);
  }

  lemma {:induction false} CombinePrepend(c: Option<bv32>, s: Option<seq<bv32>>)
    ensures Combine(Prepend(c, s)) == XorOption(c, Combine(s))
  {
    if c.Some? && s.Some? {
      assert ([c.value] + s.value)[1..] == s.value;
    }
  }

  lemma {:induction false} CombineSingle(c: Option<bv32>)
    ensures Combine(Prepend(c, Some([]))) == c
  {
    CombinePrepend(c, Some([]));
    if c.Some? {
      XorZero(c.value);
    }
  }

  lemma {:induction false} OneItem(o: Obj)
    ensures ItemChecksums([o]) == if o == Null then Some([]) else Prepend(ValueChecksum(o), Some([]))
  {
    assert [o][1..] == [];
  }

  /** A list of one object has its checksum, and 0 for null. */
  lemma {:induction false} ListOfOne(kind: ListKind, o: Obj)
    ensures ChecksumOf(ListWrapper(kind), List(kind, [])) == Some(0)
    ensures ChecksumOf(ListWrapper(kind), List(kind, [o])) == if o == Null then Some(0) else ValueChecksum(o)
  {
    ListIsCombined(kind, []);
    ListIsCombined(kind, [o]);
    OneItem(o);
    CombineSingle(ValueChecksum(o));
  }

  lemma {:induction false} SetOfOne(kind: SetKind, o: Obj)
    ensures ChecksumOf(SetWrapper(kind), KeySet(kind, [])) == Some(0)
    ensures ChecksumOf(SetWrapper(kind), KeySet(kind, [o])) == KeyChecksum(o)
  {
    assert [o][1..] == [];
    CombineSingle(KeyChecksum(o));
  }

  function EntryKeys(entries: seq<Entry>): (r: seq<Obj>)
    ensures |r| == |entries|
  {
    seq(|entries|, i requires 0 <= i < |entries| => entries[i].key)
  }

  function EntryVals(entries: seq<Entry>): (r: seq<Obj>)
    ensures |r| == |entries|
  {
    seq(|entries|, i requires 0 <= i < |entries| => entries[i].val)
  }

  lemma {:induction false} XorFour(a: Option<bv32>, b: Option<bv32>, c: Option<bv32>, d: Option<bv32>)
    ensures XorOption(XorOption(a, b), XorOption(c, d)) == XorOption(XorOption(a, c), XorOption(b, d))
  {
    if a.Some? && b.Some? && c.Some? && d.Some? {
      XorSwap(a.value, b.value, c.value, d.value);
    }
  }

  lemma {:induction false} EntriesSplit(entries: seq<Entry>)
    requires Null !in EntryVals(entries)
    ensures Combine(EntryChecksums(entries)) ==
            XorOption(Combine(KeyChecksums(EntryKeys(entries))), Combine(ItemChecksums(EntryVals(entries))))
    decreases |entries|
  {
    if entries == [] {
      XorZero(0);
    } else {
      var e, rest := entries[0], entries[1..];
      var ks, vs := EntryKeys(entries), EntryVals(entries);
      assert ks[0] == e.key && ks[1..] == EntryKeys(rest);
      assert vs[0] == e.val && vs[1..] == EntryVals(rest);
      assert vs[0] in vs;
      EntriesSplit(rest);
      CombinePrepend(EntryChecksum(e), EntryChecksums(rest));
      CombinePrepend(KeyChecksum(e.key), KeyChecksums(EntryKeys(rest)));
      CombinePrepend(ValueChecksum(e.val), ItemChecksums(EntryVals(rest)));
      XorFour(KeyChecksum(e.key), ValueChecksum(e.val),
              Combine(KeyChecksums(EntryKeys(rest))), Combine(ItemChecksums(EntryVals(rest))));
    }
  }

  /**
    The checksum of a map is that of the set of its keys and of the list of its values combined,
    and fails if and only if one of these does.
   */
  lemma {:induction false} MapParts(entries: seq<Entry>, setKind: SetKind, listKind: ListKind)
    requires Null !in EntryVals(entries)
    ensures var keys := ChecksumOf(SetWrapper(setKind), KeySet(setKind, EntryKeys(entries)));
            var vals := ChecksumOf(ListWrapper(listKind), List(listKind, EntryVals(entries)));
            && ChecksumOf(HashTableWrapper, Hashtable(entries)) == XorOption(keys, vals)
            && ChecksumOf(HashMapWrapper, Dictionary(entries)) == XorOption(keys, vals)
  {
    EntriesSplit(entries);
    MapIsCombined(entries);
    SetIsCombined(setKind, EntryKeys(entries));
    ListIsCombined(listKind, EntryVals(entries));
  }

  lemma {:induction false} NullEntryFails(entries: seq<Entry>, i: nat)
    requires i < |entries| && entries[i].val == Null
    ensures EntryChecksums(entries) == None
    decreases i
  {
    if i == 0 {
      assert ValueChecksum(Null) == None;
    } else {
      NullEntryFails(entries[1..], i - 1);
    }
  }

  /** A null value makes a map's checksum fail; in a list it would be skipped. */
  lemma {:induction false} NullValueFails(entries: seq<Entry>, i: nat)
    requires i < |entries| && entries[i].val == Null
    ensures ChecksumOf(HashTableWrapper, Hashtable(entries)) == None
    ensures ChecksumOf(HashMapWrapper, Dictionary(entries)) == None
  {
    NullEntryFails(entries, i);
    MapIsCombined(entries);
  }

  /** A dictionary is handled by the identity map's wrapper, which looks at an empty one, and adds nothing. */
  lemma {:induction false} DictionaryAddsNothing(entries: seq<Entry>)
    ensures ValueChecksum(Dictionary(entries)) == Some(0)
  {}

  /** Any other element is handled by the only wrapper that takes its type, a string by the plain one. */
  lemma {:induction false} ElementWrapper(w: Wrapper, o: Obj)
    requires w != IdentityHashMapWrapper && !o.Dictionary? && ChecksumOf(w, o).Some?
    ensures WrapperFor(o) == Some(if o.Str? then StringWrapper(false, false) else w)
  {
    if w.ListWrapper? || w.SetWrapper? {
      assert o.List? || o.KeySet?;
    } else if w.HashMapWrapper? || w.HashTableWrapper? {
      assert o.Hashtable?;
    }
  }

  /** Only scalars and strings are keys. */
  lemma {:induction false} ContainersAreNoKeys(o: Obj)
    requires o.List? || o.KeySet? || o.Dictionary? || o.Hashtable? || o.Bytes? || o.Int16Array? || o.Int32Array? || o.Int64Array?
    ensures KeyChecksum(o) == None
  {}
}
