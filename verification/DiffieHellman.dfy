/**
  Key agreement as in section 2.1.1 of RFC 2631, over the fixed group of the client: both
  sides reach the same number, and it fits the 128-byte key buffer.
 */
module DiffieHellman {
  import opened Integers
  import opened LittleEndian

  const DH_P: int := 135287020639910739997189928970717021771311421882765429190887700940242697307989907008041927806610978529253822307916592536509818186767394634756714063947534092593553024224277712367371302394452615862654308111809029797196494501056604787763641987260783383085570220968104473500348898008043285865193451061481841186553

  const DH_G: int := 130583456807197150961665134075139695376245536366239321690167044250081505657615277976871655435431431908701485776974110415733273525810283593126577393912282416840649805564834470583437473176415335737232689814802018696718110109967325936556664646275595822588612548788965341273697569202082715873518528062345259949959

  function Pow(x: int, n: nat): int {
    if n == 0 then 1 else x * Pow(x, n - 1)
  }

  function PublicKey(priv: nat): (y: nat)
    ensures y < DH_P
  {
    Pow(DH_G, priv) % DH_P
  }

  function Secret(pub: nat, priv: nat): (z: nat)
    ensures z < DH_P
  {
    Pow(pub, priv) % DH_P
  }

  // ---------- agreement ----------

  lemma {:induction false} MulMod(x: int, y: int, p: int)
    requires p > 0
    ensures (x % p) * y % p == x * y % p
  {
    var q, r := x / p, x % p;
    var q', r' := r * y / p, r * y % p;
    calc {
      x * y;
      (q * p + r) * y;
      q * p * y + r * y;
      q * y * p + (q' * p + r');
      (q * y + q') * p + r';
    }
    ModUnique(x * y, q * y + q', p, r');
  }

  lemma {:induction false} PowMod(x: int, n: nat, p: int)
    requires p > 0
    ensures Pow(x % p, n) % p == Pow(x, n) % p
    decreases n
  {
    if n > 0 {
      var y, z := Pow(x % p, n - 1), Pow(x, n - 1);
      PowMod(x, n - 1, p);
      calc {
        (x % p) * y % p;
        { MulMod(x, y, p); }
        x * y % p;
        { assert x * y == y * x; MulMod(y, x, p); }
        (y % p) * x % p;
        { MulMod(z, x, p); }
        z * x % p;
        { assert z * x == x * z; }
        x * z % p;
      }
    }
  }

  lemma {:induction false} PowSum(x: int, m: nat, n: nat)
    ensures Pow(x, m + n) == Pow(x, m) * Pow(x, n)
    decreases m
  {
    if m > 0 {
      PowSum(x, m - 1, n);
      MulAssoc(x, Pow(x, m - 1), Pow(x, n));
    }
  }

  lemma {:induction false} MulAssoc(x: int, y: int, z: int)
    ensures x * (y * z) == x * y * z
  {}

  lemma {:induction false} PowPow(x: int, m: nat, n: nat)
    ensures m * n >= 0 && Pow(Pow(x, m), n) == Pow(x, m * n)
    decreases n
  {
    if n > 0 {
      PowPow(x, m, n - 1);
      assert m * n == m + m * (n - 1);
      PowSum(x, m, m * (n - 1));
    }
  }

  lemma {:induction false} SecretIsPower(a: nat, b: nat)
    ensures a * b >= 0 && Secret(PublicKey(a), b) == Pow(DH_G, a * b) % DH_P
  {
    PowMod(Pow(DH_G, a), b, DH_P);
    PowPow(DH_G, a, b);
  }

  /** Each side raises the other's public key to its own private key: the results agree. */
  lemma {:induction false} Agreement(a: nat, b: nat)
    ensures Secret(PublicKey(a), b) == Secret(PublicKey(b), a)
  {
    SecretIsPower(a, b);
    SecretIsPower(b, a);
    assert a * b == b * a;
  }

  // ---------- the key buffer ----------

  /** The bytes of a number, highest first and without leading zeros. */
  function BigEndian(n: nat): seq<bv8> {
    if n == 0 then [] else BigEndian(n / 256) + [ToByte(n)]
  }

  lemma {:induction false} BigEndianFits(n: nat, size: nat)
    requires n < Pow256(size)
    ensures |BigEndian(n)| <= size
    decreases size
  {
    if size > 0 && n > 0 {
      BigEndianFits(n / 256, size - 1);
    }
  }

  lemma {:induction false} Pow256Sum(m: nat, n: nat)
    ensures Pow256(m + n) == Pow256(m) * Pow256(n)
    decreases m
  {
    if m > 0 {
      Pow256Sum(m - 1, n);
      MulAssoc(256, Pow256(m - 1), Pow256(n));
    }
  }

  const KEY_BYTES: nat := 128

  lemma {:induction false} Doubled(n: nat, p: int, q: int)
    requires Pow256(n) == p && p * p == q
    ensures Pow256(n + n) == q
  {
    Pow256Sum(n, n);
  }

  lemma {:induction false} HalfPower()
    ensures Pow256(64) == 0x1_00000000_00000000_00000000_00000000_00000000_00000000_00000000_00000000_00000000_00000000_00000000_00000000_00000000_00000000_00000000_00000000
  {
    Doubled(8, 0x1_00000000_00000000, 0x1_00000000_00000000_00000000_00000000);
    Doubled(16, 0x1_00000000_00000000_00000000_00000000, 0x1_00000000_00000000_00000000_00000000_00000000_00000000_00000000_00000000);
    Doubled(32, 0x1_00000000_00000000_00000000_00000000_00000000_00000000_00000000_00000000, 0x1_00000000_00000000_00000000_00000000_00000000_00000000_00000000_00000000_00000000_00000000_00000000_00000000_00000000_00000000_00000000_00000000);
  }

  lemma {:induction false} PrimeFits()
    ensures DH_P < Pow256(KEY_BYTES)
  {
    HalfPower();
    Doubled(64, 0x1_00000000_00000000_00000000_00000000_00000000_00000000_00000000_00000000_00000000_00000000_00000000_00000000_00000000_00000000_00000000_00000000,
            0x1_00000000_00000000_00000000_00000000_00000000_00000000_00000000_00000000_00000000_00000000_00000000_00000000_00000000_00000000_00000000_00000000_00000000_00000000_00000000_00000000_00000000_00000000_00000000_00000000_00000000_00000000_00000000_00000000_00000000_00000000_00000000_00000000);
  }

  /** The buffer after a secret is written over its front; what follows stays as it was. */
  function KeyBuffer(before: seq<bv8>, secret: nat): (r: seq<bv8>)
    requires |before| == KEY_BYTES && secret < DH_P
    ensures |r| == KEY_BYTES
  {
    SecretFits(secret);
    BigEndian(secret) + before[|BigEndian(secret)|..]
  }

  lemma {:induction false} SecretFits(secret: nat)
    requires secret < DH_P
    ensures |BigEndian(secret)| <= KEY_BYTES
  {
    PrimeFits();
    BigEndianFits(secret, KEY_BYTES);
  }

  /** After the same secret two buffers agree on their first bytes exactly when nothing stale shows there. */
  lemma {:induction false} BuffersAgreeIff(a: seq<bv8>, b: seq<bv8>, secret: nat, used: nat)
    requires |a| == KEY_BYTES == |b| && secret < DH_P && used <= KEY_BYTES
    ensures KeyBuffer(a, secret)[..used] == KeyBuffer(b, secret)[..used] <==>
            forall i :: |BigEndian(secret)| <= i < used ==> a[i] == b[i]
  {
    SecretFits(secret);
    var n, x, y := |BigEndian(secret)|, KeyBuffer(a, secret), KeyBuffer(b, secret);
    assert forall i :: n <= i < KEY_BYTES ==> x[i] == a[i] && y[i] == b[i];
    if x[..used] == y[..used] {
      forall i | n <= i < used
        ensures a[i] == b[i]
      {
        assert x[..used][i] == x[i] && y[..used][i] == y[i];
      }
    }
  }

  lemma {:induction false} LongSecret(n: nat, size: nat)
    ensures |BigEndian(n)| > size <==> n >= Pow256(size)
    decreases size
  {
    if size > 0 && n > 0 {
      LongSecret(n / 256, size - 1);
    }
  }

  /** The bytes are the digits of the number in base 256, highest first. */
  lemma {:induction false} BigEndianAt(n: nat, i: nat)
    requires i < |BigEndian(n)|
    ensures BigEndian(n)[i] as int == n / Pow256(|BigEndian(n)| - 1 - i) % 256
    decreases n
  {
    var s := BigEndian(n);
    if i == |s| - 1 {
      ByteOf(n);
      assert n / 1 == n;
    } else {
      BigEndianAt(n / 256, i);
      DivTwice(n, Pow256(|s| - 2 - i));
    }
  }

  /** There are no leading zeros. */
  lemma {:induction false} NoLeadingZero(n: nat)
    requires n > 0
    ensures |BigEndian(n)| > 0 && BigEndian(n)[0] != 0
    decreases n
  {
    if n < 256 {
      ByteOf(n);
    } else {
      NoLeadingZero(n / 256);
    }
  }
}
