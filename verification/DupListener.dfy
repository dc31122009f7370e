/**
  The duplicate-detecting cache listener: it counts events, checks that each key's value is
  one more than the last, and at the end compares counts and final values. Counters and
  values are 32-bit and wrap around.
 */
module DupListener {
  import opened Integers

  type Int32 = v: int | -0x8000_0000 <= v < 0x8000_0000

  function Wrap(v: int): Int32 {
    WrapSigned(v, 0x1_0000_0000)
  }

  /** The increment of a 32-bit counter. */
  function Next(v: Int32): Int32 {
    if v == 0x7fff_ffff then -0x8000_0000 else v + 1
  }

  /** Other stands for the callbacks that the listener ignores. */
  datatype Event<K> = Create(key: K, value: Int32) | Update(key: K, value: Int32) | Other

  datatype State<K> = State(ops: Int32, last: map<K, Int32>)

  // ---------- the listener as a function of the events ----------

  predicate Checked<K>(e: Event<K>) {
    e.Create? || e.Update?
  }

  predicate InSequence<K>(s: State<K>, key: K, value: Int32) {
    key in s.last ==> value == Next(s.last[key])
  }

  /** A value out of sequence is counted but not stored. */
  function Step<K>(s: State<K>, e: Event<K>): State<K> {
    if !Checked(e) then s
    else if InSequence(s, e.key, e.value) then State(Next(s.ops), s.last[e.key := e.value])
    else State(Next(s.ops), s.last)
  }

  function Initial<K>(): State<K> {
    State(0, map[])
  }

  function Run<K>(es: seq<Event<K>>): State<K> {
    if es == [] then Initial() else Step(Run(es[..|es| - 1]), es[|es| - 1])
  }

  predicate Validates<K>(s: State<K>) {
    |s.last| == 4 && s.ops == 400 && forall k :: k in s.last ==> s.last[k] == 100
  }

  // ---------- the listener ----------

  class Listener<K(==)> {
    var ops: Int32
    var last: map<K, Int32>

    ghost function Abstract(): State<K>
      reads this
    {
      State(ops, last)
    }

    constructor ()
      ensures Abstract() == Initial()
    {
      ops, last := 0, map[];
    }

    method Check(key: K, value: Int32) returns (ok: bool)
      modifies this
      ensures ok == InSequence(old(Abstract()), key, value)
      ensures Abstract() == Step(old(Abstract()), Create(key, value)) == Step(old(Abstract()), Update(key, value))
    {
      ops := Next(ops);
      if key in last {
        var previous := last[key];
        if value != Next(previous) {
          return false;
        }
      }
      last := last[key := value];
      return true;
    }

    method Handle(e: Event<K>) returns (ok: bool)
      modifies this
      ensures Abstract() == Step(old(Abstract()), e)
      ensures ok <==> (Checked(e) ==> InSequence(old(Abstract()), e.key, e.value))
    {
      match e {
        case Create(key, value) => ok := Check(key, value);
        case Update(key, value) => ok := Check(key, value);
        case Other => ok := true;
      }
    }

    method Validate() returns (ok: bool)
      ensures ok == Validates(Abstract())
    {
      if |last| != 4 || ops != 400 {
        return false;
      }
      var keys := last.Keys;
      while keys != {}
        invariant keys <= last.Keys
        invariant forall k :: k in last && k !in keys ==> last[k] == 100
        decreases keys
      {
        var k :| k in keys;
        if last[k] != 100 {
          return false;
        }
        keys := keys - {k};
      }
      return true;
    }
  }

  /** Delivers events to a fresh listener; a failed check does not stop the delivery. */
  method Deliver<K(==)>(es: seq<Event<K>>) returns (listener: Listener<K>, failures: nat)
    ensures fresh(listener) && listener.Abstract() == Run(es)
    ensures failures == Rejected(es)
  {
    listener := new Listener<K>();
    failures := 0;
    for i := 0 to |es|
      invariant fresh(listener)
      invariant listener.Abstract() == Run(es[..i]) && failures == Rejected(es[..i])
    {
      assert es[..i + 1][..i] == es[..i];
      var ok := listener.Handle(es[i]);
      if !ok {
        failures := failures + 1;
      }
    }
    assert es[..|es|] == es;
  }

  // ---------- what a run keeps of each key ----------

  /** The values of a key that were in sequence, in order. */
  function Kept<K(==)>(es: seq<Event<K>>, k: K): seq<Int32> {
    if es == [] then []
    else
      var before, e := es[..|es| - 1], es[|es| - 1];
      if Checked(e) && e.key == k && InSequence(Run(before), k, e.value) then Kept(before, k) + [e.value]
      else Kept(before, k)
  }

  function Received<K(==)>(es: seq<Event<K>>, k: K): seq<Int32> {
    if es == [] then []
    else
      var before, e := es[..|es| - 1], es[|es| - 1];
      if Checked(e) && e.key == k then Received(before, k) + [e.value] else Received(before, k)
  }

  function Rejected<K(==)>(es: seq<Event<K>>): nat {
    if es == [] then 0
    else
      var before, e := es[..|es| - 1], es[|es| - 1];
      Rejected(before) + if Checked(e) && !InSequence(Run(before), e.key, e.value) then 1 else 0
  }

  function Checks<K>(es: seq<Event<K>>): nat {
    if es == [] then 0 else Checks(es[..|es| - 1]) + if Checked(es[|es| - 1]) then 1 else 0
  }

  ghost predicate Consecutive(vs: seq<Int32>) {
    forall i :: 0 <= i < |vs| ==> vs[i] == Wrap(vs[0] + i)
  }

  lemma {:induction false} WrapStep(v: int)
    ensures Next(Wrap(v)) == Wrap(v + 1)
  {}

  lemma {:induction false} ConsecutiveAppend(vs: seq<Int32>, v: Int32)
    requires Consecutive(vs) && (vs != [] ==> v == Next(vs[|vs| - 1]))
    ensures Consecutive(vs + [v])
  {
    if vs != [] {
      assert vs[|vs| - 1] == Wrap(vs[0] + (|vs| - 1));
      WrapStep(vs[0] + (|vs| - 1));
    }
  }

  /** The invariant of every run: what the map holds of a key is the end of an unbroken sequence. */
  lemma {:induction false} RunInvariant<K>(es: seq<Event<K>>, k: K)
    ensures k in Run(es).last <==> Kept(es, k) != []
    ensures k in Run(es).last ==> Run(es).last[k] == Kept(es, k)[|Kept(es, k)| - 1]
    ensures Consecutive(Kept(es, k))
    decreases |es|
  {
    if es != [] {
      var before, e := es[..|es| - 1], es[|es| - 1];
      RunInvariant(before, k);
      var vs := Kept(before, k);
      if Checked(e) && e.key == k && InSequence(Run(before), k, e.value) {
        ConsecutiveAppend(vs, e.value);
      }
    }
  }

  lemma {:induction false} OpsCountsChecks<K>(es: seq<Event<K>>)
    ensures Run(es).ops == Wrap(Checks(es))
    decreases |es|
  {
    if es != [] {
      OpsCountsChecks(es[..|es| - 1]);
      WrapStep(Checks(es[..|es| - 1]));
    }
  }

  // ---------- sums over keys ----------

  ghost function SumOver<K(!new)>(ks: set<K>, f: K -> int): int {
    if ks == {} then 0 else
      var k :| k in ks;
      f(k) + SumOver(ks - {k}, f)
  }

  lemma {:induction false} SumSplit<K(!new)>(ks: set<K>, k: K, f: K -> int)
    requires k in ks
    ensures SumOver(ks, f) == f(k) + SumOver(ks - {k}, f)
    decreases |ks|
  {
    var j :| j in ks && SumOver(ks, f) == f(j) + SumOver(ks - {j}, f);
    if j != k {
      SumSplit(ks - {j}, k, f);
      SumSplit(ks - {k}, j, f);
      assert ks - {j} - {k} == ks - {k} - {j};
    }
  }

  lemma {:induction false} SumSame<K(!new)>(ks: set<K>, f: K -> int, g: K -> int)
    requires forall k :: k in ks ==> f(k) == g(k)
    ensures SumOver(ks, f) == SumOver(ks, g)
    decreases |ks|
  {
    if ks != {} {
      var k :| k in ks;
      SumSplit(ks, k, f);
      SumSplit(ks, k, g);
      SumSame(ks - {k}, f, g);
    }
  }

  lemma {:induction false} MulNext(b: int, n: nat)
    ensures b * (n + 1) == b * n + b
  {}

  /** Terms of at most b each reach b times their number only if each is b. */
  lemma {:induction false} SumBound<K(!new)>(ks: set<K>, f: K -> int, b: int)
    requires forall k :: k in ks ==> f(k) <= b
    ensures SumOver(ks, f) <= b * |ks|
    ensures SumOver(ks, f) == b * |ks| <==> forall k :: k in ks ==> f(k) == b
    decreases |ks|
  {
    if ks != {} {
      var k :| k in ks;
      var rest := ks - {k};
      SumSplit(ks, k, f);
      SumBound(rest, f, b);
      MulNext(b, |rest|);
      assert ks == rest + {k};
    }
  }

  // ---------- conservation ----------

  ghost function KeptCount<K>(es: seq<Event<K>>): K -> int {
    k => |Kept(es, k)|
  }

  /** Every checked event is either the next value of its key or a rejected one. */
  lemma {:induction false} Conservation<K(!new)>(es: seq<Event<K>>)
    ensures Checks(es) == SumOver(Run(es).last.Keys, KeptCount(es)) + Rejected(es)
    decreases |es|
  {
    if es != [] {
      var before, e := es[..|es| - 1], es[|es| - 1];
      Conservation(before);
      var ks, ks' := Run(before).last.Keys, Run(es).last.Keys;
      var f, f' := KeptCount(before), KeptCount(es);
      if Checked(e) && InSequence(Run(before), e.key, e.value) {
        RunInvariant(before, e.key);
        assert ks' == ks + {e.key};
        assert ks' - {e.key} == ks - {e.key};
        SumSplit(ks', e.key, f');
        SumSame(ks - {e.key}, f, f');
        if e.key in ks {
          SumSplit(ks, e.key, f);
        } else {
          assert ks - {e.key} == ks;
        }
      } else {
        assert ks' == ks;
        SumSame(ks, f, f');
      }
    }
  }

  // ---------- what validation establishes ----------

  function Count(n: nat): (s: seq<int>)
    ensures |s| == n
  {
    seq(n, i => i + 1)
  }

  lemma {:induction false} UnwrappedRun(vs: seq<Int32>)
    requires vs != [] && Consecutive(vs) && |vs| < 0x8000_0000
    requires vs[|vs| - 1] == 100 && vs[0] >= 1
    ensures |vs| == 101 - vs[0]
  {
    assert vs[|vs| - 1] == Wrap(vs[0] + (|vs| - 1));
  }

  lemma {:induction false} FullRun(vs: seq<Int32>)
    requires Consecutive(vs) && |vs| == 100 && vs[0] == 1
    ensures vs == Count(100)
  {
    forall i | 0 <= i < 100
      ensures vs[i] == i + 1
    {
      assert vs[i] == Wrap(vs[0] + i);
    }
  }

  /** No key started below 1. */
  ghost predicate StartsPositive<K(!new)>(es: seq<Event<K>>) {
    forall k :: k in Run(es).last && Kept(es, k) != [] ==> Kept(es, k)[0] >= 1
  }

  ghost predicate ExactlyOnce<K(!new)>(es: seq<Event<K>>) {
    && |Run(es).last| == 4
    && forall k :: k in Run(es).last ==> Kept(es, k) == Count(100)
  }

  lemma {:induction false} KeptIsShort<K(!new)>(es: seq<Event<K>>, k: K)
    requires k in Run(es).last
    ensures |Kept(es, k)| <= Checks(es)
  {
    Conservation(es);
    SumSplit(Run(es).last.Keys, k, KeptCount(es));
    SumNonNegative(Run(es).last.Keys - {k}, es);
  }

  lemma {:induction false} SumNonNegative<K(!new)>(ks: set<K>, es: seq<Event<K>>)
    ensures SumOver(ks, KeptCount(es)) >= 0
    decreases |ks|
  {
    if ks != {} {
      var k :| k in ks;
      SumSplit(ks, k, KeptCount(es));
      SumNonNegative(ks - {k}, es);
    }
  }

  lemma {:induction false} ValidatedKey<K(!new)>(es: seq<Event<K>>, k: K)
    requires Validates(Run(es)) && Checks(es) < 0x8000_0000 && StartsPositive(es) && k in Run(es).last
    ensures 1 <= |Kept(es, k)| <= 100 && Kept(es, k)[0] == 101 - |Kept(es, k)|
  {
    RunInvariant(es, k);
    KeptIsShort(es, k);
    UnwrappedRun(Kept(es, k));
  }

  /**
    A validated run of fewer than 2^31 events in which no key starts below 1: the rejected
    events number exactly the values missing from 1..100, over the four keys.
   */
  lemma {:induction false} ValidationBalance<K(!new)>(es: seq<Event<K>>)
    requires Validates(Run(es)) && Checks(es) < 0x8000_0000 && StartsPositive(es)
    ensures Rejected(es) == 400 - SumOver(Run(es).last.Keys, KeptCount(es))
    ensures Rejected(es) == 0 <==> ExactlyOnce(es)
  {
    var ks, f := Run(es).last.Keys, KeptCount(es);
    OpsCountsChecks(es);
    Conservation(es);
    forall k | k in ks
      ensures f(k) <= 100
    {
      ValidatedKey(es, k);
    }
    SumBound(ks, f, 100);
    if forall k :: k in ks ==> f(k) == 100 {
      forall k | k in ks
        ensures Kept(es, k) == Count(100)
      {
        assert f(k) == 100;
        ValidatedKey(es, k);
        RunInvariant(es, k);
        FullRun(Kept(es, k));
      }
    } else {
      var k :| k in ks && f(k) != 100;
      assert |Kept(es, k)| != |Count(100)|;
    }
  }

  lemma {:induction false} NothingRejected<K>(es: seq<Event<K>>, k: K)
    requires Rejected(es) == 0
    ensures Kept(es, k) == Received(es, k)
    decreases |es|
  {
    if es != [] {
      NothingRejected(es[..|es| - 1], k);
    }
  }

  /** Every key received exactly 1, 2, ..., 100 in order. */
  ghost predicate AllInOrder<K(!new)>(es: seq<Event<K>>) {
    forall k :: k in Run(es).last ==> Received(es, k) == Count(100)
  }

  lemma {:induction false} InOrderStarts<K(!new)>(es: seq<Event<K>>)
    requires Rejected(es) == 0 && AllInOrder(es)
    ensures StartsPositive(es)
  {
    forall k | k in Run(es).last && Kept(es, k) != []
      ensures Kept(es, k)[0] >= 1
    {
      NothingRejected(es, k);
      assert Received(es, k) == Count(100);
      assert Count(100)[0] == 1;
    }
  }

  lemma {:induction false} OnceInOrder<K(!new)>(es: seq<Event<K>>)
    requires Rejected(es) == 0 && ExactlyOnce(es)
    ensures AllInOrder(es)
  {
    forall k | k in Run(es).last
      ensures Received(es, k) == Count(100)
    {
      NothingRejected(es, k);
      assert Kept(es, k) == Count(100);
    }
  }

  /**
    The listener's promise: if no check failed and validation passes, every one of the four
    keys received exactly 1, 2, ..., 100 in order, provided that no key started below 1.
   */
  lemma {:induction false} ValidatedDelivery<K(!new)>(es: seq<Event<K>>)
    requires Rejected(es) == 0 && Validates(Run(es)) && Checks(es) < 0x8000_0000
    ensures StartsPositive(es) <==> AllInOrder(es)
  {
    if StartsPositive(es) {
      ValidationBalance(es);
      OnceInOrder(es);
    }
    if AllInOrder(es) {
      InOrderStarts(es);
    }
  }

  // ---------- the same, by first and last values ----------

  function SpanOf(first: int, last: int): int {
    last - first + 1
  }

  /** Last minus first plus one, where anything was kept. */
  ghost function Span<K(!new)>(es: seq<Event<K>>): K -> int {
    k => if k in Run(es).last && Kept(es, k) != [] then SpanOf(Kept(es, k)[0], Run(es).last[k]) else 0
  }

  lemma {:induction false} KeptIsSpan<K(!new)>(es: seq<Event<K>>, k: K)
    requires k in Run(es).last && (Kept(es, k) != [] ==> Kept(es, k)[0] + |Kept(es, k)| <= 0x8000_0000)
    ensures KeptCount(es)(k) == Span(es)(k)
  {
    RunInvariant(es, k);
    var vs := Kept(es, k);
    assert vs[|vs| - 1] == Wrap(vs[0] + (|vs| - 1));
  }

  /** If no key counts past the largest int, the events are the spans of the keys plus the rejected ones. */
  lemma {:induction false} EventsAreSpans<K(!new)>(es: seq<Event<K>>)
    requires forall k :: k in Run(es).last && Kept(es, k) != [] ==> Kept(es, k)[0] + |Kept(es, k)| <= 0x8000_0000
    ensures Checks(es) == SumOver(Run(es).last.Keys, Span(es)) + Rejected(es)
  {
    var ks := Run(es).last.Keys;
    Conservation(es);
    forall k | k in ks
      ensures KeptCount(es)(k) == Span(es)(k)
    {
      KeptIsSpan(es, k);
    }
    SumSame(ks, KeptCount(es), Span(es));
  }

  // ---------- why the starting values matter ----------

  function Feed(k: nat, first: Int32, n: nat): (es: seq<Event<nat>>)
    requires first + n <= 0x8000_0000
    ensures |es| == n && forall i :: 0 <= i < n ==> Checked(es[i])
  {
    if n == 0 then [] else Feed(k, first, n - 1) + [Update(k, first + (n - 1))]
  }

  lemma {:induction false} RunFeed(es: seq<Event<nat>>, k: nat, first: Int32, n: nat)
    requires first + n <= 0x8000_0000 && k !in Run(es).last && 0 <= Run(es).ops && Run(es).ops + n < 0x8000_0000
    ensures Rejected(es + Feed(k, first, n)) == Rejected(es)
    ensures Run(es + Feed(k, first, n)).ops == Run(es).ops + n
    ensures Run(es + Feed(k, first, n)).last == if n == 0 then Run(es).last else Run(es).last[k := first + (n - 1)]
    decreases n
  {
    var es' := es + Feed(k, first, n);
    if n == 0 {
      assert es' == es;
    } else {
      RunFeed(es, k, first, n - 1);
      var before := es + Feed(k, first, n - 1);
      assert es' == before + [Update(k, first + (n - 1))];
      assert es'[..|es'| - 1] == before;
    }
  }

  /** What a feed adds to the values of other keys: nothing. */
  lemma {:induction false} FeedLeavesOthers(es: seq<Event<nat>>, k: nat, first: Int32, n: nat, j: nat)
    requires first + n <= 0x8000_0000 && j != k
    ensures Kept(es + Feed(k, first, n), j) == Kept(es, j)
    decreases n
  {
    var es' := es + Feed(k, first, n);
    if n == 0 {
      assert es' == es;
    } else {
      FeedLeavesOthers(es, k, first, n - 1, j);
      var before := es + Feed(k, first, n - 1);
      assert es' == before + [Update(k, first + (n - 1))];
      assert es'[..|es'| - 1] == before;
    }
  }

  lemma {:induction false} FeedIsShort(k: nat, first: Int32, n: nat)
    requires first + n <= 0x8000_0000
    ensures |Kept(Feed(k, first, n), k)| <= n
    decreases n
  {
    if n > 0 {
      FeedIsShort(k, first, n - 1);
      assert Feed(k, first, n)[..n - 1] == Feed(k, first, n - 1);
    }
  }

  ghost predicate Clean(es: seq<Event<nat>>) {
    && Rejected(es) == 0 && 0 <= Run(es).ops == |es| && Checks(es) == |es|
    && forall i :: 0 <= i < |es| ==> Checked(es[i])
  }

  /** A further key that gets the n values up to 100. */
  lemma {:induction false} FeedTo100(es: seq<Event<nat>>, k: nat, n: nat) returns (es': seq<Event<nat>>)
    requires Clean(es) && k !in Run(es).last && 0 < n <= 101 && |es| <= 1000
    ensures Clean(es') && |es'| == |es| + n && Run(es').last == Run(es).last[k := 100]
    ensures forall j :: j != k ==> Kept(es', j) == Kept(es, j)
    ensures es == [] ==> |Kept(es', k)| <= n
  {
    es' := es + Feed(k, 101 - n, n);
    RunFeed(es, k, 101 - n, n);
    AllChecked(es');
    forall j | j != k
      ensures Kept(es', j) == Kept(es, j)
    {
      FeedLeavesOthers(es, k, 101 - n, n, j);
    }
    if es == [] {
      assert es' == Feed(k, 101 - n, n);
      FeedIsShort(k, 101 - n, n);
    }
  }

  /** Validation alone does not catch a lost first value that another key's extra value makes up for. */
  lemma {:induction false} LostAndExtraValidate() returns (es: seq<Event<nat>>)
    ensures Rejected(es) == 0 && Validates(Run(es)) && Checks(es) == 400 && !ExactlyOnce(es)
  {
    es := FeedTo100([], 0, 99);
    es := FeedTo100(es, 1, 101);
    es := FeedTo100(es, 2, 100);
    es := FeedTo100(es, 3, 100);
    assert |Kept(es, 0)| <= 99 && 0 in Run(es).last;
    assert |Run(es).last| == 4 by {
      assert Run(es).last.Keys == {0, 1, 2, 3};
    }
  }

  lemma {:induction false} AllChecked(es: seq<Event<nat>>)
    requires forall i :: 0 <= i < |es| ==> Checked(es[i])
    ensures Checks(es) == |es|
    decreases |es|
  {
    if es != [] {
      AllChecked(es[..|es| - 1]);
    }
  }
}
