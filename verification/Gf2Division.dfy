/**
  Polynomials over GF(2) as bit strings, highest power first, and schoolbook division by
  a monic generator x^n + g, where g lists the n coefficients below the leading one.
 */
module Gf2Division {
  import opened Sequences

  function Zeros(n: nat): (z: seq<bool>)
    ensures |z| == n && forall i :: 0 <= i < n ==> !z[i]
  {
    Fill(false, n)
  }

  function XorBits(a: seq<bool>, b: seq<bool>): (d: seq<bool>)
    requires |a| == |b|
    ensures |d| == |a| && forall i :: 0 <= i < |a| ==> d[i] == (a[i] != b[i])
  {
    seq(|a|, i requires 0 <= i < |a| => a[i] != b[i])
  }

  lemma {:induction false} XorBitsConcat(a: seq<bool>, a': seq<bool>, b: seq<bool>, b': seq<bool>)
    requires |a| == |b| && |a'| == |b'|
    ensures XorBits(a + a', b + b') == XorBits(a, b) + XorBits(a', b')
  {}

  lemma {:induction false} XorBitsCons(a: bool, s: seq<bool>, b: bool, t: seq<bool>)
    requires |s| == |t|
    ensures XorBits([a] + s, [b] + t) == [a != b] + XorBits(s, t)
  {}

  lemma {:induction false} XorCommonEnds(p: seq<bool>, a: seq<bool>, b: seq<bool>, s: seq<bool>)
    requires |a| == |b|
    ensures XorBits(p + a + s, p + b + s) == Zeros(|p|) + XorBits(a, b) + Zeros(|s|)
  {}

  /** The polynomial with the generator subtracted at its front, if its leading coefficient is set. */
  function Reduce(g: seq<bool>, d: seq<bool>): (e: seq<bool>)
    requires |d| > |g|
    ensures |e| == |d| - 1
  {
    if d[0] then XorBits(d[1..|g| + 1], g) + d[|g| + 1..] else d[1..]
  }

  function Remainder(g: seq<bool>, d: seq<bool>): (r: seq<bool>)
    requires |d| >= |g|
    ensures |r| == |g|
    decreases |d|
  {
    if |d| == |g| then d else Remainder(g, Reduce(g, d))
  }

  function Quotient(g: seq<bool>, d: seq<bool>): (q: seq<bool>)
    requires |d| >= |g|
    ensures |q| == |d| - |g|
    decreases |d|
  {
    if |d| == |g| then [] else [d[0]] + Quotient(g, Reduce(g, d))
  }

  /** x·e, plus the generator lined up with its front if the coefficient q is set. */
  function Restore(g: seq<bool>, q: bool, e: seq<bool>): (d: seq<bool>)
    requires |e| >= |g|
    ensures |d| == |e| + 1
    ensures d[0] == q
    ensures forall i :: 0 < i < |d| ==> d[i] == (e[i - 1] != (q && i <= |g| && g[i - 1]))
  {
    [q] + seq(|e|, i requires 0 <= i < |e| => e[i] != (q && i < |g| && g[i]))
  }

  /** The product of a quotient with the generator. */
  function Times(g: seq<bool>, q: seq<bool>): (d: seq<bool>)
    ensures |d| == |q| + |g|
  {
    if q == [] then Zeros(|g|) else Restore(g, q[0], Times(g, q[1..]))
  }

  lemma {:induction false} RestoreReduce(g: seq<bool>, d: seq<bool>)
    requires |d| > |g|
    ensures d == Restore(g, d[0], Reduce(g, d))
  {}

  lemma {:induction false} RestoreXor(g: seq<bool>, q: bool, e: seq<bool>, f: seq<bool>)
    requires |e| == |f| >= |g|
    ensures Restore(g, q, XorBits(e, f)) == XorBits(Restore(g, q, e), [false] + f)
  {}

  lemma {:induction false} RestoreInjective(g: seq<bool>, q: bool, e: seq<bool>, q': bool, e': seq<bool>)
    requires |e| == |e'| >= |g| && Restore(g, q, e) == Restore(g, q', e')
    ensures q == q' && e == e'
  {
    forall i | 0 <= i < |e|
      ensures e[i] == e'[i]
    {
      assert Restore(g, q, e)[i + 1] == Restore(g, q', e')[i + 1];
    }
  }

  lemma {:induction false} PadFront(n: nat, r: seq<bool>)
    ensures [false] + (Zeros(n) + r) == Zeros(n + 1) + r
  {}

  /** Long division: every dividend is quotient times generator plus remainder. */
  lemma {:induction false} DivisionIdentity(g: seq<bool>, d: seq<bool>)
    requires |d| >= |g|
    ensures d == XorBits(Times(g, Quotient(g, d)), Zeros(|d| - |g|) + Remainder(g, d))
    decreases |d|
  {
    if |d| > |g| {
      var e := Reduce(g, d);
      DivisionIdentity(g, e);
      RestoreReduce(g, d);
      RestoreXor(g, d[0], Times(g, Quotient(g, e)), Zeros(|e| - |g|) + Remainder(g, e));
      PadFront(|e| - |g|, Remainder(g, e));
    }
  }

  lemma {:induction false} EmptyQuotient(g: seq<bool>, r: seq<bool>)
    requires |r| == |g|
    ensures XorBits(Times(g, []), Zeros(0) + r) == r
  {}

  /** There is only one way to write a dividend so. */
  lemma {:induction false} DivisionUnique(g: seq<bool>, q: seq<bool>, r: seq<bool>, q': seq<bool>, r': seq<bool>)
    requires |q| == |q'| && |r| == |r'| == |g|
    requires XorBits(Times(g, q), Zeros(|q|) + r) == XorBits(Times(g, q'), Zeros(|q|) + r')
    ensures q == q' && r == r'
    decreases |q|
  {
    if q == [] {
      EmptyQuotient(g, r);
      EmptyQuotient(g, r');
    } else {
      var n := |q| - 1;
      var p, p' := Zeros(n) + r, Zeros(n) + r';
      RestoreXor(g, q[0], Times(g, q[1..]), p);
      RestoreXor(g, q'[0], Times(g, q'[1..]), p');
      PadFront(n, r);
      PadFront(n, r');
      RestoreInjective(g, q[0], XorBits(Times(g, q[1..]), p), q'[0], XorBits(Times(g, q'[1..]), p'));
      DivisionUnique(g, q[1..], r, q'[1..], r');
      assert q == [q[0]] + q[1..] && q' == [q'[0]] + q'[1..];
    }
  }

  // ---------- division through a register ----------

  /** The register r and the unread bits m stand for the dividend r·x^|m| + m·x^|r|. */
  function Dividend(r: seq<bool>, m: seq<bool>): (d: seq<bool>)
    ensures |d| == |m| + |r|
    ensures forall i :: 0 <= i < |d| ==> d[i] == ((i < |r| && r[i]) != (i < |m| && m[i]))
  {
    seq(|m| + |r|, i requires 0 <= i < |m| + |r| => (i < |r| && r[i]) != (i < |m| && m[i]))
  }

  /** Shifting one message bit through the register is one reduction of the dividend. */
  lemma {:induction false} RegisterStep(g: seq<bool>, r: seq<bool>, r': seq<bool>, m: seq<bool>)
    requires 0 < |g| == |r| == |r'| && m != []
    requires forall i :: 0 <= i < |r'| ==> r'[i] == ((i + 1 < |r| && r[i + 1]) != (r[0] != m[0] && g[i]))
    ensures Reduce(g, Dividend(r, m)) == Dividend(r', m[1..])
  {
    var d := Dividend(r, m);
    forall i | 0 <= i < |d| - 1
      ensures Reduce(g, d)[i] == Dividend(r', m[1..])[i]
    {
      assert d[i + 1] == ((i + 1 < |r| && r[i + 1]) != (i + 1 < |m| && m[i + 1]));
    }
  }
}
