/** Facts about sequences of any element type, stated once so that the theories stay out of them. */
module Sequences {

  lemma {:induction false} Assoc<T>(a: seq<T>, b: seq<T>, c: seq<T>)
    ensures a + b + c == a + (b + c)
  {}

  lemma {:induction false} SplitAt<T>(s: seq<T>, j: nat)
    requires j < |s|
    ensures s == s[..j] + ([s[j]] + s[j + 1..])
    ensures ([s[j]] + s[j + 1..])[1..] == s[j + 1..]
  {}

  lemma {:induction false} TakeTail<T>(s: seq<T>, i: nat)
    requires i < |s|
    ensures s[..i + 1][0] == s[0] && s[..i + 1][1..] == s[1..][..i]
  {}

  lemma {:induction false} DropTail<T>(s: seq<T>, i: nat)
    requires i < |s|
    ensures s[i..][0] == s[i] && s[i..][1..] == s[i + 1..]
  {}

  function Fill<T>(x: T, n: nat): (r: seq<T>)
    ensures |r| == n && forall i :: 0 <= i < n ==> r[i] == x
  {
    seq(n, i => x)
  }

  lemma {:induction false} FillSuffix<T>(s: seq<T>, x: T, n: nat)
    requires 1 <= n <= |s| && s[|s| - n..] == Fill(x, n)
    ensures s[|s| - 1] == x
  {
    assert s[|s| - n..][n - 1] == Fill(x, n)[n - 1];
  }

  lemma {:induction false} FillSplit<T>(s: seq<T>, x: T, n: nat)
    requires n <= |s| && s[|s| - n..] == Fill(x, n)
    ensures s == s[..|s| - n] + Fill(x, n)
  {}

  lemma {:induction false} TakeNext<T>(s: seq<T>, i: nat)
    requires i < |s|
    ensures s[..i + 1] == s[..i] + [s[i]]
    ensures s == s[..i + 1] + s[i + 1..]
  {}
}
