/**
  Concrete values for which reading is not the inverse of writing, or is so although the
  condition Faithful fails. The latter show that the two restrictions of the exact condition,
  on maps inside keys and on wide keys above 16 bits in value and target, are needed.
 */
module SerializerCounterexamples {
  import opened Options
  import opened SerialValues
  import opened Serializer
  import opened SerializerTheory

  // ---------- tools ----------

  lemma {:induction false} StatesStep(ty: Ty, obj: Value, item: Value, rest: seq<Value>)
    requires Matches(obj, ty) && Conforms(item, ty) && AllConform(rest, ty)
    ensures AllConform([item] + rest, ty)
    ensures var o := ReadBack(ty, obj, item); Successive(ty, obj, [item] + rest) == [o] + Successive(ty, o, rest)
  {
    assert ([item] + rest)[1..] == rest;
  }

  lemma {:induction false} TwoStates(ty: Ty, obj: Value, a: Value, b: Value)
    requires Matches(obj, ty) && Conforms(a, ty) && Conforms(b, ty)
    ensures AllConform([a, b], ty)
    ensures var o := ReadBack(ty, obj, a); Successive(ty, obj, [a, b]) == [o, ReadBack(ty, o, b)]
  {
    var o := ReadBack(ty, obj, a);
    StatesStep(ty, o, b, []);
    StatesStep(ty, obj, a, [b]);
    assert [a, b] == [a] + [b] && [b] == [b] + [];
  }

  lemma {:induction false} ThreeStates(ty: Ty, obj: Value, a: Value, b: Value, c: Value)
    requires Matches(obj, ty) && Conforms(a, ty) && Conforms(b, ty) && Conforms(c, ty)
    ensures AllConform([a, b, c], ty)
    ensures var o := ReadBack(ty, obj, a); var p := ReadBack(ty, o, b);
            Successive(ty, obj, [a, b, c]) == [o, p, ReadBack(ty, p, c)]
  {
    TwoStates(ty, ReadBack(ty, obj, a), b, c);
    StatesStep(ty, obj, a, [b, c]);
    assert [a, b, c] == [a] + [b, c];
  }

  /** A chain relates each item to the one before it. */
  lemma {:induction false} ChainAt(ty: Ty, obj: Value, items: seq<Value>, i: nat)
    requires Conforms(obj, ty) && AllConform(items, ty) && Chain(ty, obj, items) && 0 < i < |items|
    ensures Faithful(ty, items[i - 1], items[i])
    decreases i
  {
    var rest := items[1..];
    assert Chain(ty, items[0], rest);
    if i == 1 {
      assert items[1] == rest[0];
    } else {
      ChainAt(ty, items[0], rest, i - 1);
      assert items[i - 1] == rest[i - 2] && items[i] == rest[i - 1];
    }
  }

  lemma {:induction false} TwoEntries(e: Entry, f: Entry)
    ensures Keys([e, f]) == [e.key, f.key] && Vals([e, f]) == [e.val, f.val]
    ensures AsMap([e, f]) == map[f.key := f.val][e.key := e.val]
  {
    EntryParts([e, f], 0);
    EntryParts([e, f], 1);
    OneEntry(f);
    assert [e, f][1..] == [f];
  }

  lemma {:induction false} OneEntry(e: Entry)
    ensures Keys([e]) == [e.key] && Vals([e]) == [e.val] && AsMap([e]) == map[e.key := e.val]
  {
    assert [e][1..] == [];
  }

  lemma {:induction false} ThreeEntries(e: Entry, f: Entry, g: Entry)
    ensures Keys([e, f, g]) == [e.key, f.key, g.key] && Vals([e, f, g]) == [e.val, f.val, g.val]
    ensures AsMap([e, f, g]) == map[g.key := g.val][f.key := f.val][e.key := e.val]
  {
    EntryParts([e, f, g], 0);
    EntryParts([e, f, g], 1);
    EntryParts([e, f, g], 2);
    TwoEntries(f, g);
    assert [e, f, g][1..] == [f, g];
  }

  // ---------- reading is not the inverse of writing ----------

  lemma {:induction false} OneString(s: Value)
    requires s.Str?
    ensures Conforms(Vec([s]), TVector(TString)) && CutItems([s]) == [s]
  {}

  lemma {:induction false} NestedReadBack(a: Value, b: Value)
    requires a.Str? && b.Str?
    ensures AllConform([Vec([a]), Vec([b])], TVector(TString))
    ensures ReadBack(TVector(TVector(TString)), Vec([]), Vec([Vec([a]), Vec([b])])) == Vec([Vec([a]), Vec([a, b])])
  {
    OneString(a);
    OneString(b);
    TwoStates(TVector(TString), Vec([]), Vec([a]), Vec([b]));
    FlatVector(TString, Vec([]), Vec([a]));
    FlatVector(TString, Vec([a]), Vec([b]));
    assert [] + [a] == [a] && [a] + [b] == [a, b];
  }

  /** For any two strings, [[a], [b]] comes back as [[a], [a, b]]. */
  lemma {:induction false} NestedComesBackChanged(w: nat, a: Value, b: Value, rest: seq<Byte>)
    requires a.Str? && b.Str? && Fits(w, Vec([Vec([a]), Vec([b])]))
    ensures Read(w, TVector(TVector(TString)), Vec([]), Written(w, Vec([Vec([a]), Vec([b])])) + rest) ==
            Some(Reading(Vec([Vec([a]), Vec([a, b])]), rest))
    ensures Vec([Vec([a]), Vec([a, b])]) != Vec([Vec([a]), Vec([b])])
  {
    NestedReadBack(a, b);
    ReadWritten(w, TVector(TVector(TString)), Vec([]), Vec([Vec([a]), Vec([b])]), rest);
    DifferentLengths([a, b], [b]);
  }

  lemma {:induction false} DifferentLengths(s: seq<Value>, t: seq<Value>)
    requires |s| != |t|
    ensures Vec(s) != Vec(t)
  {}

  // ---------- and may be so by accident ----------

  /** A target that already holds a wide key above 16 bits hides that it was not read back. */
  lemma {:induction false} HiddenKey() returns (target: Value, v: Value)
    ensures var ty := TMap(TWide, TString);
            && Conforms(target, ty) && Conforms(v, ty)
            && ReadBack(ty, target, v) == v && !Faithful(ty, target, v)
  {
    var short, long, x := Wide([0x41]), Wide([0x1_0041]), Str([]);
    assert Less(short, long);
    target, v := Map([Entry(long, x)]), Map([Entry(short, x), Entry(long, x)]);
    OneEntry(Entry(long, x));
    TwoEntries(Entry(short, x), Entry(long, x));
    assert Narrowed(short.units) == [0x41];
    assert Narrowed(long.units) == [0x41];
    TwoStates(TWide, Default(TWide), short, long);
    TwoStates(TString, Default(TString), x, x);
    MapRoundTripIff(TWide, TString, target, v);
    assert long.units[0] == 0x1_0041;
    if Faithful(TMap(TWide, TString), target, v) {
      ChainAt(TWide, Default(TWide), [short, long], 1);
    }
  }

  /** A map of strings read over another gives whatever holds both. */
  lemma {:induction false} StringMapOver(target: Value, v: Value, both: Value)
    requires Conforms(target, TMap(TString, TString)) && Conforms(v, TMap(TString, TString))
    requires Conforms(both, TMap(TString, TString)) && AsMap(target.entries) + AsMap(v.entries) == AsMap(both.entries)
    ensures ReadBack(TMap(TString, TString), target, v) == both
  {
    PartsConform(v.entries, TString, TString);
    FlatMap(TString, TString, target, v);
    MapReadBack(TString, TString, target, v);
    Canonical(ReadBack(TMap(TString, TString), target, v).entries, both.entries);
  }

  lemma {:induction false} BagConforms(entries: seq<Entry>)
    requires Sorted(entries) && forall i :: 0 <= i < |entries| ==> entries[i].key.Str? && entries[i].val.Str?
    ensures Conforms(Map(entries), TMap(TString, TString))
  {
    forall i | 0 <= i < |entries|
      ensures Conforms(entries[i].key, TString) && Conforms(entries[i].val, TString)
    {
    }
  }

  lemma {:induction false} BagSums(e: Entry, f: Entry)
    requires e.key != f.key
    ensures AsMap([]) + AsMap([e]) == AsMap([e])
    ensures AsMap([e]) + AsMap([e, f]) == AsMap([e, f])
    ensures AsMap([e, f]) + AsMap([f]) == AsMap([e, f])
  {
    OneEntry(e);
    OneEntry(f);
    TwoEntries(e, f);
  }

  /** The bags {e}, {e, f} and {f}, in this order, and what is read back of them. */
  lemma {:induction false} Bags(e: Entry, f: Entry)
    requires e.key.Str? && e.val.Str? && f.key.Str? && f.val.Str? && Less(e.key, f.key)
    ensures var ty := TMap(TString, TString);
            && Conforms(Map([e]), ty) && Conforms(Map([e, f]), ty) && Conforms(Map([f]), ty)
            && ReadBack(ty, Map([]), Map([e])) == Map([e])
            && ReadBack(ty, Map([e]), Map([e, f])) == Map([e, f])
            && ReadBack(ty, Map([e, f]), Map([f])) == Map([e, f])
  {
    CompareLaws(e.key, f.key);
    BagSums(e, f);
    BagConforms([e]);
    BagConforms([e, f]);
    BagConforms([f]);
    StringMapOver(Map([]), Map([e]), Map([e]));
    StringMapOver(Map([e]), Map([e, f]), Map([e, f]));
    StringMapOver(Map([e, f]), Map([f]), Map([e, f]));
  }

  lemma {:induction false} BagOrder(e: Entry, f: Entry)
    requires Less(e.key, f.key)
    ensures Less(Map([e]), Map([e, f])) && Less(Map([e, f]), Map([f])) && Less(Map([e]), Map([f]))
  {
    CompareEntryLaws(e, e);
    assert [e][1..] == [] && [e, f][1..] == [f];
    assert CompareEntry(e, f) < 0;
    assert CompareEntries([e], [e, f]) == CompareEntries([], [f]);
  }

  /** A second bag that does not hold the first one's key is not faithful to it. */
  lemma {:induction false} BagNotFaithful(e: Entry, f: Entry)
    requires e.key != f.key && Conforms(Map([e, f]), TMap(TString, TString)) && Conforms(Map([f]), TMap(TString, TString))
    ensures !Faithful(TMap(TString, TString), Map([e, f]), Map([f]))
  {
    OneEntry(f);
    TwoEntries(e, f);
    assert e.key in Keys([e, f]) && e.key !in Keys([f]);
  }

  /** A map keyed by {e}, {e, f} and {f}, read over one that already holds {f}. */
  lemma {:induction false} BagKeys(e: Entry, f: Entry, x: Value)
    requires e.key.Str? && e.val.Str? && f.key.Str? && f.val.Str? && x.Str? && Less(e.key, f.key)
    ensures var ty := TMap(TMap(TString, TString), TString);
            var a, ab, b := Map([e]), Map([e, f]), Map([f]);
            var target, v := Map([Entry(b, x)]), Map([Entry(a, x), Entry(ab, x), Entry(b, x)]);
            && Conforms(target, ty) && Conforms(v, ty) && ReadBack(ty, target, v) == v
  {
    var ty, a, ab, b := TMap(TString, TString), Map([e]), Map([e, f]), Map([f]);
    Bags(e, f);
    BagOrder(e, f);
    ThreeStates(ty, Map([]), a, ab, b);
    ThreeStates(TString, Str([]), x, x, x);
    var target, v := Map([Entry(b, x)]), Map([Entry(a, x), Entry(ab, x), Entry(b, x)]);
    OneEntry(Entry(b, x));
    ThreeEntries(Entry(a, x), Entry(ab, x), Entry(b, x));
    MapRoundTripIff(ty, TString, target, v);
  }

  lemma {:induction false} BagKeysNotFaithful(e: Entry, f: Entry, x: Value, target: Value, v: Value)
    requires e.key.Str? && e.val.Str? && f.key.Str? && f.val.Str? && Less(e.key, f.key)
    ensures var ty := TMap(TMap(TString, TString), TString);
            var bags := Map([Entry(Map([e]), x), Entry(Map([e, f]), x), Entry(Map([f]), x)]);
            v == bags && Conforms(target, ty) && Conforms(v, ty) ==> !Faithful(ty, target, v)
  {
    var ty := TMap(TString, TString);
    if v == Map([Entry(Map([e]), x), Entry(Map([e, f]), x), Entry(Map([f]), x)])
       && Conforms(target, TMap(ty, TString)) && Conforms(v, TMap(ty, TString))
    {
      ThreeEntries(v.entries[0], v.entries[1], v.entries[2]);
      Bags(e, f);
      CompareLaws(e.key, f.key);
      BagNotFaithful(e, f);
      if Faithful(TMap(ty, TString), target, v) {
        ChainAt(ty, Map([]), Keys(v.entries), 2);
      }
    }
  }

  /** A target that already holds a map as a key hides that it was not read back. */
  lemma {:induction false} HiddenMapKey() returns (target: Value, v: Value)
    ensures var ty := TMap(TMap(TString, TString), TString);
            && Conforms(target, ty) && Conforms(v, ty) && NarrowKeys(target) && NarrowKeys(v)
            && ReadBack(ty, target, v) == v && !Faithful(ty, target, v)
  {
    var x := Str([]);
    var e, f := Entry(Str([97]), x), Entry(Str([98]), x);
    var a, ab, b := Map([e]), Map([e, f]), Map([f]);
    assert Less(e.key, f.key);
    BagKeys(e, f, x);
    target, v := Map([Entry(b, x)]), Map([Entry(a, x), Entry(ab, x), Entry(b, x)]);
    BagKeysNotFaithful(e, f, x, target, v);
  }
}
