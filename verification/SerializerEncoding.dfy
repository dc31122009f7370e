/**
  The written form as an encoding: no value's bytes are a prefix of another's, and two values
  have the same bytes exactly when they agree after every wide character is cut to 16 bits.
 */
module SerializerEncoding {
  import opened Integers
  import opened LittleEndian
  import opened Sequences
  import opened SerialValues
  import opened Serializer
  import opened SerializerTheory

  // ---------- the cut decides the bytes ----------

  lemma {:induction false} WideBytesCut(units: seq<WideChar>)
    ensures WideBytes(Narrowed(units)) == WideBytes(units)
    decreases |units|
  {
    if units != [] {
      assert Narrowed(units)[1..] == Narrowed(units[1..]);
      WideBytesCut(units[1..]);
      HighUnit(units[0]);
      LowUnit(units[0]);
    }
  }

  lemma {:induction false} WrittenCut(w: nat, v: Value)
    ensures Written(w, Cut(v)) == Written(w, v)
    decreases v, 1
  {
    match v {
      case Str(_) =>
      case Wide(units) => WideBytesCut(units);
      case Vec(items) => WrittenCutItems(w, items);
      case Map(entries) => WrittenCutEntries(w, entries);
    }
  }

  lemma {:induction false} WrittenCutItems(w: nat, items: seq<Value>)
    ensures WrittenItems(w, CutItems(items)) == WrittenItems(w, items)
    decreases items, 0
  {
    if items != [] {
      assert CutItems(items)[1..] == CutItems(items[1..]);
      WrittenCut(w, items[0]);
      WrittenCutItems(w, items[1..]);
    }
  }

  lemma {:induction false} WrittenCutEntry(w: nat, e: Entry)
    ensures WrittenEntry(w, CutEntry(e)) == WrittenEntry(w, e)
    decreases e, 2
  {
    WrittenCut(w, e.key);
    WrittenCut(w, e.val);
  }

  lemma {:induction false} WrittenCutEntries(w: nat, entries: seq<Entry>)
    ensures WrittenEntries(w, CutEntries(entries)) == WrittenEntries(w, entries)
    decreases entries, 0
  {
    if entries != [] {
      assert CutEntries(entries)[1..] == CutEntries(entries[1..]);
      WrittenCutEntry(w, entries[0]);
      WrittenCutEntries(w, entries[1..]);
    }
  }

  // ---------- the bytes decide the cut ----------

  lemma {:induction false} SameNumber(m: nat, n: nat, width: nat, x: seq<Byte>, y: seq<Byte>)
    requires m < Pow256(width) && n < Pow256(width)
    requires BigEndian(m, width) + x == BigEndian(n, width) + y
    ensures m == n && x == y
  {
    NumberInFront(m, width, x);
    NumberInFront(n, width, y);
  }

  lemma {:induction false} SameSplit(a: seq<Byte>, x: seq<Byte>, b: seq<Byte>, y: seq<Byte>)
    requires |a| == |b| && a + x == b + y
    ensures a == b && x == y
  {
    assert a == (a + x)[..|a|] && b == (b + y)[..|b|];
    assert x == (a + x)[|a|..] && y == (b + y)[|b|..];
  }

  /** Self-delimiting: equal bytes up to some rest come from the same value. */
  lemma {:induction false} PrefixFree(w: nat, ty: Ty, a: Value, b: Value, x: seq<Byte>, y: seq<Byte>)
    requires Conforms(a, ty) && Conforms(b, ty) && Fits(w, a) && Fits(w, b)
    requires Written(w, a) + x == Written(w, b) + y
    ensures Cut(a) == Cut(b) && x == y
    decreases a, 1
  {
    match ty {
      case TString => PrefixFreeString(w, a, b, x, y);
      case TWide => PrefixFreeWide(w, a, b, x, y);
      case TVector(elem) =>
        var s, t := WrittenItems(w, a.items) + x, WrittenItems(w, b.items) + y;
        Assoc(BigEndian(|a.items|, w), WrittenItems(w, a.items), x);
        Assoc(BigEndian(|b.items|, w), WrittenItems(w, b.items), y);
        SameNumber(|a.items|, |b.items|, w, s, t);
        PrefixFreeItems(w, elem, a.items, b.items, x, y);
      case TMap(key, val) =>
        var s, t := WrittenEntries(w, a.entries) + x, WrittenEntries(w, b.entries) + y;
        Assoc(BigEndian(|a.entries|, w), WrittenEntries(w, a.entries), x);
        Assoc(BigEndian(|b.entries|, w), WrittenEntries(w, b.entries), y);
        SameNumber(|a.entries|, |b.entries|, w, s, t);
        PrefixFreeEntries(w, key, val, a.entries, b.entries, x, y);
    }
  }

  lemma {:induction false} PrefixFreeString(w: nat, a: Value, b: Value, x: seq<Byte>, y: seq<Byte>)
    requires a.Str? && b.Str? && Fits(w, a) && Fits(w, b)
    requires Written(w, a) + x == Written(w, b) + y
    ensures a == b && x == y
  {
    LengthFits(|a.bytes|);
    LengthFits(|b.bytes|);
    Assoc(BigEndian(|a.bytes|, LENGTH_BYTES), a.bytes, x);
    Assoc(BigEndian(|b.bytes|, LENGTH_BYTES), b.bytes, y);
    SameNumber(|a.bytes|, |b.bytes|, LENGTH_BYTES, a.bytes + x, b.bytes + y);
    SameSplit(a.bytes, x, b.bytes, y);
  }

  lemma {:induction false} PrefixFreeWide(w: nat, a: Value, b: Value, x: seq<Byte>, y: seq<Byte>)
    requires a.Wide? && b.Wide? && Fits(w, a) && Fits(w, b)
    requires Written(w, a) + x == Written(w, b) + y
    ensures Cut(a) == Cut(b) && x == y
  {
    var s, t := WideBytes(a.units), WideBytes(b.units);
    LengthFits(|a.units|);
    LengthFits(|b.units|);
    Assoc(BigEndian(|a.units|, LENGTH_BYTES), s, x);
    Assoc(BigEndian(|b.units|, LENGTH_BYTES), t, y);
    SameNumber(|a.units|, |b.units|, LENGTH_BYTES, s + x, t + y);
    SameSplit(s, x, t, y);
    WideFromBytes(a.units);
    WideFromBytes(b.units);
  }

  lemma {:induction false} PrefixFreeItems(w: nat, ty: Ty, a: seq<Value>, b: seq<Value>, x: seq<Byte>, y: seq<Byte>)
    requires |a| == |b| && AllConform(a, ty) && AllConform(b, ty) && AllFit(w, a) && AllFit(w, b)
    requires WrittenItems(w, a) + x == WrittenItems(w, b) + y
    ensures CutItems(a) == CutItems(b) && x == y
    decreases a, 0
  {
    if a == [] {
      assert WrittenItems(w, a) + x == x && WrittenItems(w, b) + y == y;
    } else {
      var s, t := WrittenItems(w, a[1..]) + x, WrittenItems(w, b[1..]) + y;
      Assoc(Written(w, a[0]), WrittenItems(w, a[1..]), x);
      Assoc(Written(w, b[0]), WrittenItems(w, b[1..]), y);
      PrefixFree(w, ty, a[0], b[0], s, t);
      PrefixFreeItems(w, ty, a[1..], b[1..], x, y);
    }
  }

  lemma {:induction false} PrefixFreeEntry(w: nat, key: Ty, val: Ty, a: Entry, b: Entry, x: seq<Byte>, y: seq<Byte>)
    requires Conforms(a.key, key) && Conforms(b.key, key) && Conforms(a.val, val) && Conforms(b.val, val)
    requires Fits(w, a.key) && Fits(w, b.key) && Fits(w, a.val) && Fits(w, b.val)
    requires WrittenEntry(w, a) + x == WrittenEntry(w, b) + y
    ensures CutEntry(a) == CutEntry(b) && x == y
    decreases a, 2
  {
    var s, t := Written(w, a.val) + x, Written(w, b.val) + y;
    Assoc(Written(w, a.key), Written(w, a.val), x);
    Assoc(Written(w, b.key), Written(w, b.val), y);
    PrefixFree(w, key, a.key, b.key, s, t);
    PrefixFree(w, val, a.val, b.val, x, y);
  }

  predicate EntriesConform(entries: seq<Entry>, key: Ty, val: Ty) {
    forall i :: 0 <= i < |entries| ==> Conforms(entries[i].key, key) && Conforms(entries[i].val, val)
  }

  lemma {:induction false} PrefixFreeEntries(w: nat, key: Ty, val: Ty, a: seq<Entry>, b: seq<Entry>, x: seq<Byte>, y: seq<Byte>)
    requires |a| == |b| && EntriesConform(a, key, val) && EntriesConform(b, key, val) && EntriesFit(w, a) && EntriesFit(w, b)
    requires WrittenEntries(w, a) + x == WrittenEntries(w, b) + y
    ensures CutEntries(a) == CutEntries(b) && x == y
    decreases a, 0
  {
    if a == [] {
      assert WrittenEntries(w, a) + x == x && WrittenEntries(w, b) + y == y;
    } else {
      var s, t := WrittenEntries(w, a[1..]) + x, WrittenEntries(w, b[1..]) + y;
      Assoc(WrittenEntry(w, a[0]), WrittenEntries(w, a[1..]), x);
      Assoc(WrittenEntry(w, b[0]), WrittenEntries(w, b[1..]), y);
      PrefixFreeEntry(w, key, val, a[0], b[0], s, t);
      PrefixFreeEntries(w, key, val, a[1..], b[1..], x, y);
    }
  }

  lemma {:induction false} Suffix(s: seq<Byte>, t: seq<Byte>) returns (x: seq<Byte>)
    requires s <= t
    ensures s + x == t + [] && (x == [] ==> s == t)
  {
    x := t[|s|..];
  }

  /** Same bytes exactly when the same after the cut; and a prefix only of itself. */
  lemma {:induction false} SameBytesIff(w: nat, ty: Ty, a: Value, b: Value)
    requires Conforms(a, ty) && Conforms(b, ty) && Fits(w, a) && Fits(w, b)
    ensures Written(w, a) == Written(w, b) <==> Cut(a) == Cut(b)
    ensures Written(w, a) <= Written(w, b) ==> Written(w, a) == Written(w, b)
  {
    if Cut(a) == Cut(b) {
      WrittenCut(w, a);
      WrittenCut(w, b);
    }
    if Written(w, a) <= Written(w, b) {
      var x := Suffix(Written(w, a), Written(w, b));
      PrefixFree(w, ty, a, b, x, []);
    }
  }

  /** Equal maps give identical bytes, in whatever order their entries were inserted. */
  lemma {:induction false} EqualMapsSameBytes(w: nat, ks: seq<Value>, vs: seq<Value>, ks': seq<Value>, vs': seq<Value>)
    requires |ks| == |vs| && |ks'| == |vs'|
    requires Override(map[], ks, vs) == Override(map[], ks', vs')
    ensures Written(w, Map(InsertAll([], ks, vs))) == Written(w, Map(InsertAll([], ks', vs')))
  {
    InsertAllAsMap([], ks, vs);
    InsertAllAsMap([], ks', vs');
    Canonical(InsertAll([], ks, vs), InsertAll([], ks', vs'));
  }

  // ---------- the bytes by position ----------

  /** The high byte comes first. */
  lemma {:induction false} BigEndianAt(v: nat, width: nat, i: nat)
    requires i < width
    ensures BigEndian(v, width)[i] == v / Pow256(width - 1 - i) % 0x100
    decreases width
  {
    if i == width - 1 {
      assert v / 1 == v;
    } else {
      BigEndianAt(v / 0x100, width - 1, i);
      DivTwice(v, Pow256(width - 2 - i));
    }
  }

  /** The bytes are the digits of the number in base 256, highest first. */
  predicate IsNumber(s: seq<Byte>, v: nat) {
    forall i :: 0 <= i < |s| ==> s[i] == v / Pow256(|s| - 1 - i) % 0x100
  }

  lemma {:induction false} BigEndianIsNumber(v: nat, width: nat)
    ensures IsNumber(BigEndian(v, width), v)
  {
    forall i | 0 <= i < width
      ensures BigEndian(v, width)[i] == v / Pow256(width - 1 - i) % 0x100
    {
      BigEndianAt(v, width, i);
    }
  }

  lemma {:induction false} Fronts(s: seq<Byte>, t: seq<Byte>)
    ensures (s + t)[..|s|] == s && (s + t)[|s|..] == t
  {}

  /** A string: its length as a number of four bytes, and its bytes. */
  lemma {:induction false} StringForm(w: nat, bytes: seq<Byte>)
    ensures var s := Written(w, Str(bytes)); |s| == 4 + |bytes| && IsNumber(s[..4], |bytes|) && s[4..] == bytes
  {
    BigEndianIsNumber(|bytes|, 4);
    Fronts(BigEndian(|bytes|, 4), bytes);
  }

  lemma {:induction false} WideBytesAt(units: seq<WideChar>, k: nat)
    requires k < |units|
    ensures IsNumber(WideBytes(units)[2 * k..2 * k + 2], units[k])
    decreases k
  {
    var s := WideBytes(units);
    if k == 0 {
      assert s[0..2] == [HighByte(units[0]), LowByte(units[0])];
      assert Pow256(1) == 0x100 && units[0] / 1 == units[0];
    } else {
      WideBytesAt(units[1..], k - 1);
      assert s[2..] == WideBytes(units[1..]);
      assert s[2..][2 * (k - 1)..2 * (k - 1) + 2] == s[2 * k..2 * k + 2];
    }
  }

  /** A wide string: its length, and the low 16 bits of each character as a number of two bytes. */
  lemma {:induction false} WideForm(w: nat, units: seq<WideChar>, k: nat)
    requires k < |units|
    ensures var s := Written(w, Wide(units));
            && |s| == 4 + 2 * |units| && IsNumber(s[..4], |units|)
            && IsNumber(s[4 + 2 * k..4 + 2 * k + 2], units[k])
  {
    BigEndianIsNumber(|units|, 4);
    Fronts(BigEndian(|units|, 4), WideBytes(units));
    WideBytesAt(units, k);
    assert Written(w, Wide(units))[4..][2 * k..2 * k + 2] == Written(w, Wide(units))[4 + 2 * k..4 + 2 * k + 2];
  }

  lemma {:induction false} ItemsJoin(w: nat, a: seq<Value>, b: seq<Value>)
    ensures WrittenItems(w, a + b) == WrittenItems(w, a) + WrittenItems(w, b)
    decreases |a|
  {
    if a == [] {
      assert a + b == b;
    } else {
      assert (a + b)[0] == a[0] && (a + b)[1..] == a[1..] + b;
      ItemsJoin(w, a[1..], b);
      Assoc(Written(w, a[0]), WrittenItems(w, a[1..]), WrittenItems(w, b));
    }
  }

  lemma {:induction false} EntriesJoin(w: nat, a: seq<Entry>, b: seq<Entry>)
    ensures WrittenEntries(w, a + b) == WrittenEntries(w, a) + WrittenEntries(w, b)
    decreases |a|
  {
    if a == [] {
      assert a + b == b;
    } else {
      assert (a + b)[0] == a[0] && (a + b)[1..] == a[1..] + b;
      EntriesJoin(w, a[1..], b);
      Assoc(WrittenEntry(w, a[0]), WrittenEntries(w, a[1..]), WrittenEntries(w, b));
    }
  }

  /** A vector: its size as a number of w bytes, and its elements one after another. */
  lemma {:induction false} VectorForm(w: nat, a: seq<Value>, v: Value)
    ensures var s, t := Written(w, Vec(a)), Written(w, Vec(a + [v]));
            && |s| >= w && |t| >= w && IsNumber(s[..w], |a|) && IsNumber(t[..w], |a| + 1)
            && t[w..] == s[w..] + Written(w, v)
            && (a == [] ==> s[w..] == [])
  {
    BigEndianIsNumber(|a|, w);
    BigEndianIsNumber(|a| + 1, w);
    Fronts(BigEndian(|a|, w), WrittenItems(w, a));
    Fronts(BigEndian(|a| + 1, w), WrittenItems(w, a + [v]));
    ItemsJoin(w, a, [v]);
    assert [v][1..] == [];
    assert WrittenItems(w, [v]) == Written(w, v) + [] == Written(w, v);
  }

  /** A map: its size as a number of w bytes, and its entries one after another, each key before its value. */
  lemma {:induction false} MapForm(w: nat, a: seq<Entry>, e: Entry)
    ensures var s, t := Written(w, Map(a)), Written(w, Map(a + [e]));
            && |s| >= w && |t| >= w && IsNumber(s[..w], |a|) && IsNumber(t[..w], |a| + 1)
            && t[w..] == s[w..] + (Written(w, e.key) + Written(w, e.val))
            && (a == [] ==> s[w..] == [])
  {
    BigEndianIsNumber(|a|, w);
    BigEndianIsNumber(|a| + 1, w);
    Fronts(BigEndian(|a|, w), WrittenEntries(w, a));
    Fronts(BigEndian(|a| + 1, w), WrittenEntries(w, a + [e]));
    EntriesJoin(w, a, [e]);
    assert [e][1..] == [];
    assert WrittenEntries(w, [e]) == WrittenEntry(w, e) + [] == WrittenEntry(w, e);
  }
}
