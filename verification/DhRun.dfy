/**
  Two contexts in conversation: they derive the same key material, and each can decrypt
  exactly what the other encrypted. A context that is used again without being cleared keeps
  old bytes behind a short secret, and the module states when that matters.
 */
module DhRun {
  import opened Integers
  import opened Options
  import opened LittleEndian
  import opened SkAlgo
  import opened DiffieHellman
  import opened DhContext
  import Cbc

  /** The old bytes that would show behind a secret are the same on both sides. */
  predicate NothingStale(a: Bytes, b: Bytes, secret: nat, used: nat)
    requires |a| == KEY_BYTES == |b| && used <= KEY_BYTES
  {
    forall i :: |BigEndian(secret)| <= i < used ==> a[i] == b[i]
  }

  /** With the same setting and buffer, decryption gives a message exactly on its encryption. */
  lemma {:induction false} SameKey(suite: Suite, algo: string, keySize: int, key: Bytes, s: Bytes, m: Bytes)
    requires Sound(suite) && Legal(algo, keySize) && |key| == KEY_BYTES
    ensures DecryptedDh(suite, algo, keySize, key, s) == Some(m) <==> s == EncryptedDh(suite, algo, keySize, key, m)
  {
    var ctx := Prepared(suite, algo, keySize, key);
    Cbc.DecryptedIff(ctx.cipher, ctx.key, ctx.chain, s, m);
  }

  /** With the same setting, each side decrypts exactly what the other encrypted. */
  lemma {:induction false} CrossDecrypt(suite: Suite, algo: string, keySize: int, x: nat, y: nat, a: Bytes, b: Bytes, s: Bytes, m: Bytes)
    requires Sound(suite) && Legal(algo, keySize) && |a| == KEY_BYTES == |b|
    ensures var keyX, keyY := KeyBuffer(a, Secret(PublicKey(y), x)), KeyBuffer(b, Secret(PublicKey(x), y));
            NothingStale(a, b, Secret(PublicKey(x), y), UsedBytes(algo, keySize)) ==>
              (DecryptedDh(suite, algo, keySize, keyY, s) == Some(m) <==> s == EncryptedDh(suite, algo, keySize, keyX, m))
  {
    Agreement(x, y);
    var z := Secret(PublicKey(x), y);
    if NothingStale(a, b, z, UsedBytes(algo, keySize)) {
      BuffersAgreeIff(a, b, z, UsedBytes(algo, keySize));
      PreparedBySlice(suite, algo, keySize, KeyBuffer(a, z), KeyBuffer(b, z));
      SameKey(suite, algo, keySize, KeyBuffer(a, z), s, m);
    }
  }

  /** The key buffer of a new context in which one earlier secret was computed. */
  function Reused(earlier: nat): (r: Bytes)
    requires earlier < DH_P
    ensures |r| == KEY_BYTES
  {
    KeyBuffer(BLANK, earlier)
  }

  lemma {:induction false} Pow256Grows(m: nat, n: nat)
    requires m <= n
    ensures Pow256(m) <= Pow256(n)
    decreases n
  {
    if m < n {
      Pow256Grows(m, n - 1);
    }
  }

  lemma {:induction false} MarkerFits(n: nat)
    requires n < 64
    ensures Pow256(n) + 1 < DH_P
  {
    Pow256Grows(n, 64);
    HalfPower();
  }

  lemma {:induction false} MarkerByte(n: nat)
    requires n >= 1
    ensures ToByte(Pow256(n) + 1) == 1
  {
    ModUnique(Pow256(n) + 1, Pow256(n - 1), 256, 1);
  }

  /** An earlier secret that leaves a nonzero byte at position n. */
  lemma {:induction false} Marker(n: nat)
    requires 1 <= n < 64
    ensures Pow256(n) + 1 < DH_P
    ensures Reused(Pow256(n) + 1)[n] == 1
  {
    var earlier := Pow256(n) + 1;
    MarkerFits(n);
    MarkerByte(n);
    LongSecret(earlier, n);
    BigEndianFits(earlier, n + 1);
    var s := BigEndian(earlier);
    assert s[|s| - 1] == ToByte(earlier);
  }

  /**
    A context that is used again agrees with a new one, whatever its earlier secret was,
    exactly when the new secret is long enough to cover the used bytes.
   */
  lemma {:induction false} ReuseIff(algo: string, keySize: int, secret: nat)
    requires Legal(algo, keySize)
    ensures (forall earlier: nat :: earlier < DH_P ==>
               NothingStale(Reused(earlier), BLANK, secret, UsedBytes(algo, keySize))) <==>
            secret >= Pow256(UsedBytes(algo, keySize) - 1)
  {
    var n := UsedBytes(algo, keySize) - 1;
    LongSecret(secret, n);
    if secret < Pow256(n) {
      Marker(n);
      assert !NothingStale(Reused(Pow256(n) + 1), BLANK, secret, n + 1);
    }
  }

  // ---------- the run ----------

  method NewParty(algo: string, priv: nat) returns (party: DHImpl, pub: nat)
    requires Parse(algo).Ok?
    ensures fresh(party) && fresh(party.key) && party.Configured()
    ensures party.skAlgo == Parse(algo).algo && party.keySize == Parse(algo).keySize
    ensures party.dh == Some(KeyPair(priv, pub)) && pub == PublicKey(priv) && party.key[..] == BLANK
  {
    party := new DHImpl();
    var errorCode := party.InitDhKeys(Some(algo), priv);
    pub := party.dh.value.pub;
  }

  method Conclude(party: DHImpl, pubOther: nat)
    requires party.Valid() && party.dh.Some?
    modifies party`pubKeyOther, party.key
    ensures party.Valid() && party.key[..] == KeyBuffer(old(party.key[..]), Secret(pubOther, party.dh.value.priv))
  {
    party.SetPublicKeyOther(pubOther);
    party.ComputeSharedSecret();
  }

  /** One message from one party to another that holds the same key material. */
  method Convey(suite: Suite, from: DHImpl, to: DHImpl, message: array<bv8>)
    returns (received: array?<bv8>, length: int)
    requires Sound(suite) && from.Configured() && to.Configured() && message.Length >= 1
    requires from.skAlgo == to.skAlgo && from.keySize == to.keySize && from.key[..] == to.key[..]
    ensures received != null && 0 <= length <= received.Length && received[..length] == message[..]
  {
    var sent, sentLen := from.EncryptDH(suite, message, message.Length, true);
    received, length := to.DecryptDH(suite, sent, sentLen, true);
    assert message[..message.Length] == message[..];
    SameKey(suite, from.skAlgo, from.keySize, from.key[..], sent[..sentLen], message[..]);
  }

  /** From new contexts with the same setting, both directions of the conversation arrive intact. */
  method TwoPartyRun(suite: Suite, algoA: string, algoB: string, privA: nat, privB: nat,
                     question: array<bv8>, answer: array<bv8>)
    returns (atB: array?<bv8>, lengthB: int, atA: array?<bv8>, lengthA: int)
    requires Sound(suite) && Parse(algoA).Ok? && Parse(algoB) == Parse(algoA)
    requires question.Length >= 1 && answer.Length >= 1
    ensures atB != null && 0 <= lengthB <= atB.Length && atB[..lengthB] == question[..]
    ensures atA != null && 0 <= lengthA <= atA.Length && atA[..lengthA] == answer[..]
  {
    var a, pubA := NewParty(algoA, privA);
    var b, pubB := NewParty(algoB, privB);
    Conclude(a, pubB);
    Conclude(b, pubA);
    Agreement(privA, privB);
    atB, lengthB := Convey(suite, a, b, question);
    atA, lengthA := Convey(suite, b, a, answer);
  }
}
