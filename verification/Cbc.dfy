/**
  Cipher block chaining (section 6.2 of NIST SP 800-38A) with the padding of section 6.3 of
  RFC 5652, over any invertible block cipher, and the update and final calls by which the
  crypto library runs it.
 */
module Cbc {
  import opened Options
  import opened Sequences
  import opened Words
  import opened LittleEndian

  type Bytes = seq<bv8>

  datatype BlockCipher = BlockCipher(block: nat, encrypt: (Bytes, Bytes) -> Bytes, decrypt: (Bytes, Bytes) -> Bytes)

  /** For each key, encryption permutes the blocks and decryption is its inverse. */
  ghost predicate Invertible(c: BlockCipher) {
    && 1 <= c.block <= 255
    && (forall key: Bytes, x: Bytes :: |x| == c.block ==>
          |c.encrypt(key, x)| == c.block && c.decrypt(key, c.encrypt(key, x)) == x)
    && (forall key: Bytes, y: Bytes :: |y| == c.block ==>
          |c.decrypt(key, y)| == c.block && c.encrypt(key, c.decrypt(key, y)) == y)
  }

  // ---------- chaining ----------

  /** What is left of n after taking away whole blocks. */
  function Leftover(n: nat, block: nat): (r: nat)
    requires block >= 1
    ensures r < block && r <= n
  {
    if n < block then n else Leftover(n - block, block)
  }

  predicate Whole(c: BlockCipher, s: Bytes) {
    c.block >= 1 && Leftover(|s|, c.block) == 0
  }

  function Encrypt(c: BlockCipher, key: Bytes, iv: Bytes, s: Bytes): (r: Bytes)
    requires Invertible(c) && |iv| == c.block && Whole(c, s)
    ensures |r| == |s|
    decreases |s|
  {
    if s == [] then []
    else
      var y := c.encrypt(key, XorBytes(s[..c.block], iv));
      y + Encrypt(c, key, y, s[c.block..])
  }

  function Decrypt(c: BlockCipher, key: Bytes, iv: Bytes, s: Bytes): (r: Bytes)
    requires Invertible(c) && |iv| == c.block && Whole(c, s)
    ensures |r| == |s|
    decreases |s|
  {
    if s == [] then []
    else
      XorBytes(c.decrypt(key, s[..c.block]), iv) + Decrypt(c, key, s[..c.block], s[c.block..])
  }

  lemma {:induction false} EncryptFirst(c: BlockCipher, key: Bytes, iv: Bytes, s: Bytes)
    requires Invertible(c) && |iv| == c.block && Whole(c, s) && c.block <= |s|
    ensures var r, y := Encrypt(c, key, iv, s), c.encrypt(key, XorBytes(s[..c.block], iv));
            |y| == c.block && Whole(c, s[c.block..]) && r[..c.block] == y && r[c.block..] == Encrypt(c, key, y, s[c.block..])
  {}

  lemma {:induction false} DecryptEncrypt(c: BlockCipher, key: Bytes, iv: Bytes, s: Bytes)
    requires Invertible(c) && |iv| == c.block && Whole(c, s)
    ensures Decrypt(c, key, iv, Encrypt(c, key, iv, s)) == s
    decreases |s|
  {
    if s != [] {
      var x, rest := s[..c.block], s[c.block..];
      var y := c.encrypt(key, XorBytes(x, iv));
      EncryptFirst(c, key, iv, s);
      XorBytesTwice(x, iv);
      DecryptEncrypt(c, key, y, rest);
      assert x + rest == s;
    }
  }

  lemma {:induction false} EncryptDecrypt(c: BlockCipher, key: Bytes, iv: Bytes, s: Bytes)
    requires Invertible(c) && |iv| == c.block && Whole(c, s)
    ensures Encrypt(c, key, iv, Decrypt(c, key, iv, s)) == s
    decreases |s|
  {
    if s != [] {
      var y, rest := s[..c.block], s[c.block..];
      var x := c.decrypt(key, y);
      var r := Decrypt(c, key, iv, s);
      assert r[..c.block] == XorBytes(x, iv) && r[c.block..] == Decrypt(c, key, y, rest);
      XorBytesTwice(x, iv);
      EncryptDecrypt(c, key, y, rest);
      assert y + rest == s;
    }
  }

  /** The block that the next one is chained to. */
  function Last(c: BlockCipher, iv: Bytes, s: Bytes): (r: Bytes)
    requires c.block >= 1 && |iv| == c.block && (s == [] || |s| >= c.block)
    ensures |r| == c.block
  {
    if s == [] then iv else s[|s| - c.block..]
  }

  lemma {:induction false} LeftoverSum(m: nat, n: nat, block: nat)
    requires block >= 1 && Leftover(m, block) == 0
    ensures Leftover(m + n, block) == Leftover(n, block)
    decreases m
  {
    if m > 0 {
      LeftoverSum(m - block, n, block);
    }
  }

  lemma {:induction false} EncryptConcat(c: BlockCipher, key: Bytes, iv: Bytes, s: Bytes, t: Bytes)
    requires Invertible(c) && |iv| == c.block && Whole(c, s) && Whole(c, t)
    ensures Whole(c, s + t)
    ensures Encrypt(c, key, iv, s + t) ==
            Encrypt(c, key, iv, s) + Encrypt(c, key, Last(c, iv, Encrypt(c, key, iv, s)), t)
    decreases |s|
  {
    LeftoverSum(|s|, |t|, c.block);
    if s == [] {
      assert s + t == t;
    } else {
      var y := c.encrypt(key, XorBytes(s[..c.block], iv));
      var rest := s[c.block..];
      assert (s + t)[..c.block] == s[..c.block] && (s + t)[c.block..] == rest + t;
      EncryptConcat(c, key, y, rest, t);
      assert Last(c, iv, y + Encrypt(c, key, y, rest)) == Last(c, y, Encrypt(c, key, y, rest));
    }
  }

  lemma {:induction false} DecryptConcat(c: BlockCipher, key: Bytes, iv: Bytes, s: Bytes, t: Bytes)
    requires Invertible(c) && |iv| == c.block && Whole(c, s) && Whole(c, t)
    ensures Whole(c, s + t)
    ensures Decrypt(c, key, iv, s + t) == Decrypt(c, key, iv, s) + Decrypt(c, key, Last(c, iv, s), t)
    decreases |s|
  {
    LeftoverSum(|s|, |t|, c.block);
    if s == [] {
      assert s + t == t;
    } else {
      var y, rest := s[..c.block], s[c.block..];
      assert (s + t)[..c.block] == y && (s + t)[c.block..] == rest + t;
      DecryptConcat(c, key, y, rest, t);
      assert Last(c, iv, s) == Last(c, y, rest);
    }
  }

  // ---------- padding ----------

  /** One to block elements are added, each telling how many there are. */
  function PaddedWith<T>(pad: int -> T, block: nat, m: seq<T>): (r: seq<T>)
    requires block >= 1
    ensures |m| < |r| <= |m| + block
  {
    var n := block - Leftover(|m|, block);
    m + Fill(pad(n), n)
  }

  function Padded(block: nat, m: Bytes): (r: Bytes)
    requires 1 <= block <= 255
    ensures |m| < |r| <= |m| + block
  {
    PaddedWith(ToByte, block, m)
  }

  function Unpadded(block: nat, s: Bytes): (r: Option<Bytes>)
    requires 1 <= block <= 255 && |s| >= block
  {
    var n := s[|s| - 1] as int;
    if 1 <= n <= block && s[|s| - n..] == Fill(s[|s| - 1], n) then Some(s[..|s| - n]) else None
  }

  lemma {:induction false} LeftoverPadding(n: nat, block: nat)
    requires block >= 1
    ensures Leftover(n + (block - Leftover(n, block)), block) == 0
    decreases n
  {
    if n >= block {
      LeftoverPadding(n - block, block);
    }
  }

  lemma {:induction false} LeftoverUnpadded(n: nat, k: nat, block: nat)
    requires 1 <= k <= block <= n && Leftover(n, block) == 0
    ensures block - Leftover(n - k, block) == k
    decreases n
  {
    if n >= 2 * block {
      LeftoverUnpadded(n - block, k, block);
    }
  }

  lemma {:induction false} UnpaddedFill(block: nat, m: Bytes, b: bv8, n: nat)
    requires 1 <= block <= 255 && 1 <= n <= block <= |m| + n && b as int == n
    ensures Unpadded(block, m + Fill(b, n)) == Some(m)
  {
    var s := m + Fill(b, n);
    assert s[|s| - n..] == Fill(b, n) && s[..|s| - n] == m;
    FillSuffix(s, b, n);
  }

  lemma {:induction false} UnpaddedPadded(block: nat, m: Bytes)
    requires 1 <= block <= 255 && |Padded(block, m)| >= block
    ensures Unpadded(block, Padded(block, m)) == Some(m)
  {
    var n := block - Leftover(|m|, block);
    ByteRoundTrip(n);
    UnpaddedFill(block, m, ToByte(n), n);
  }

  lemma {:induction false} ValueRoundTrip(b: bv8)
    ensures ToByte(b as int) == b
  {
    assert b as int % 256 == b as int;
  }

  lemma {:induction false} PaddedUnpadded(block: nat, s: Bytes)
    requires 1 <= block <= 255 && |s| >= block && Leftover(|s|, block) == 0 && Unpadded(block, s).Some?
    ensures Padded(block, Unpadded(block, s).value) == s
  {
    var n := s[|s| - 1] as int;
    LeftoverUnpadded(|s|, n, block);
    ValueRoundTrip(s[|s| - 1]);
    FillSplit(s, s[|s| - 1], n);
  }

  /** Padding is undone, and nothing else is accepted as padded. */
  lemma {:induction false} UnpaddedIff(block: nat, s: Bytes, m: Bytes)
    requires 1 <= block <= 255 && |s| >= block && Leftover(|s|, block) == 0
    ensures Unpadded(block, s) == Some(m) <==> s == Padded(block, m)
  {
    if s == Padded(block, m) {
      UnpaddedPadded(block, m);
    }
    if Unpadded(block, s) == Some(m) {
      PaddedUnpadded(block, s);
    }
  }

  // ---------- whole messages ----------

  function Encrypted(c: BlockCipher, key: Bytes, iv: Bytes, m: Bytes): (r: Bytes)
    requires Invertible(c) && |iv| == c.block
    ensures |m| < |r| <= |m| + c.block && Whole(c, r)
  {
    LeftoverPadding(|m|, c.block);
    Encrypt(c, key, iv, Padded(c.block, m))
  }

  function Decrypted(c: BlockCipher, key: Bytes, iv: Bytes, s: Bytes): (r: Option<Bytes>)
    requires Invertible(c) && |iv| == c.block
  {
    if s == [] || !Whole(c, s) then None else Unpadded(c.block, Decrypt(c, key, iv, s))
  }

  /** Decryption gives m exactly on the ciphertext of m: it inverts encryption and rejects the rest. */
  lemma {:induction false} DecryptedIff(c: BlockCipher, key: Bytes, iv: Bytes, s: Bytes, m: Bytes)
    requires Invertible(c) && |iv| == c.block
    ensures Decrypted(c, key, iv, s) == Some(m) <==> s == Encrypted(c, key, iv, m)
  {
    LeftoverPadding(|m|, c.block);
    var padded := Padded(c.block, m);
    if s == Encrypted(c, key, iv, m) {
      DecryptEncrypt(c, key, iv, padded);
      UnpaddedIff(c.block, padded, m);
    }
    if Decrypted(c, key, iv, s) == Some(m) {
      UnpaddedIff(c.block, Decrypt(c, key, iv, s), m);
      EncryptDecrypt(c, key, iv, s);
    }
  }

  // ---------- the update and final calls ----------

  /** A cipher context: the block to chain to and the input not yet processed. */
  datatype Context = Context(cipher: BlockCipher, key: Bytes, chain: Bytes, held: Bytes)

  ghost predicate Ready(ctx: Context) {
    Invertible(ctx.cipher) && |ctx.chain| == ctx.cipher.block
  }

  lemma {:induction false} LeftoverFront(n: nat, k: nat, block: nat)
    requires block >= 1 && k <= n && k <= block && Leftover(k, block) == Leftover(n, block)
    ensures Leftover(n - k, block) == 0
    decreases n
  {
    if n >= k + block {
      LeftoverFront(n - block, k, block);
    }
  }

  lemma {:induction false} WholeFront(c: BlockCipher, s: Bytes, k: nat)
    requires c.block >= 1 && k <= |s| && k <= c.block && Leftover(k, c.block) == Leftover(|s|, c.block)
    ensures Whole(c, s[..|s| - k])
  {
    LeftoverFront(|s|, k, c.block);
    assert |s[..|s| - k]| == |s| - k;
  }

  /** The whole blocks are encrypted; the bytes after them are kept. */
  function EncryptUpdate(ctx: Context, s: Bytes): (r: (Bytes, Context))
    requires Ready(ctx) && ctx.held == []
    ensures Ready(r.1) && |r.0| <= |s| && |r.1.held| < ctx.cipher.block
  {
    var c := ctx.cipher;
    var k := Leftover(|s|, c.block);
    WholeFront(c, s, k);
    var out := Encrypt(c, ctx.key, ctx.chain, s[..|s| - k]);
    (out, Context(c, ctx.key, Last(c, ctx.chain, out), s[|s| - k..]))
  }

  function EncryptFinal(ctx: Context): (r: Bytes)
    requires Ready(ctx) && |ctx.held| < ctx.cipher.block
    ensures |r| == ctx.cipher.block
  {
    Encrypted(ctx.cipher, ctx.key, ctx.chain, ctx.held)
  }

  lemma {:induction false} PaddedFront<T>(pad: int -> T, block: nat, front: seq<T>, held: seq<T>)
    requires block >= 1 && Leftover(|front|, block) == 0
    ensures PaddedWith(pad, block, front + held) == front + PaddedWith(pad, block, held)
  {
    LeftoverSum(|front|, |held|, block);
    var n := block - Leftover(|held|, block);
    Assoc(front, held, Fill(pad(n), n));
  }

  /** Update then final encrypt the padded message. */
  lemma {:induction false} EncryptCalls(ctx: Context, s: Bytes)
    requires Ready(ctx) && ctx.held == []
    ensures EncryptUpdate(ctx, s).0 + EncryptFinal(EncryptUpdate(ctx, s).1) == Encrypted(ctx.cipher, ctx.key, ctx.chain, s)
  {
    var c := ctx.cipher;
    var k := Leftover(|s|, c.block);
    var front, held := s[..|s| - k], s[|s| - k..];
    WholeFront(c, s, k);
    LeftoverPadding(k, c.block);
    EncryptConcat(c, ctx.key, ctx.chain, front, Padded(c.block, held));
    PaddedFront(ToByte, c.block, front, held);
    assert front + held == s;
  }

  /** The last block, whole or not, is kept; the ones before it are decrypted. */
  function DecryptUpdate(ctx: Context, s: Bytes): (r: (Bytes, Context))
    requires Ready(ctx) && ctx.held == [] && s != []
    ensures Ready(r.1) && |r.0| < |s| && r.1.cipher == ctx.cipher
  {
    var c := ctx.cipher;
    var k := if Leftover(|s|, c.block) == 0 then c.block else Leftover(|s|, c.block);
    WholeFront(c, s, k);
    var front := s[..|s| - k];
    (Decrypt(c, ctx.key, ctx.chain, front), Context(c, ctx.key, Last(c, ctx.chain, front), s[|s| - k..]))
  }

  function DecryptFinal(ctx: Context): (r: Option<Bytes>)
    requires Ready(ctx)
    ensures r.Some? ==> |r.value| < ctx.cipher.block == |ctx.held|
  {
    if |ctx.held| != ctx.cipher.block then None else Decrypted(ctx.cipher, ctx.key, ctx.chain, ctx.held)
  }

  lemma {:induction false} UnpaddedLast(block: nat, s: Bytes, t: Bytes)
    requires 1 <= block <= 255 && |t| == block
    ensures Unpadded(block, s + t) == if Unpadded(block, t).Some? then Some(s + Unpadded(block, t).value) else None
  {
    var n := t[block - 1] as int;
    if 1 <= n <= block {
      assert (s + t)[|s + t| - n..] == t[block - n..];
      assert (s + t)[..|s + t| - n] == s + t[..block - n];
    }
  }

  /** Update then final decrypt and unpad the message, or fail. */
  lemma {:induction false} DecryptCalls(ctx: Context, s: Bytes)
    requires Ready(ctx) && ctx.held == [] && s != []
    ensures var (out, next) := DecryptUpdate(ctx, s);
            Decrypted(ctx.cipher, ctx.key, ctx.chain, s) ==
            if DecryptFinal(next).Some? then Some(out + DecryptFinal(next).value) else None
  {
    var c := ctx.cipher;
    if Whole(c, s) {
      var front, held := s[..|s| - c.block], s[|s| - c.block..];
      WholeFront(c, s, c.block);
      DecryptConcat(c, ctx.key, ctx.chain, front, held);
      assert front + held == s;
      UnpaddedLast(c.block, Decrypt(c, ctx.key, ctx.chain, front), Decrypt(c, ctx.key, Last(c, ctx.chain, front), held));
    }
  }

  // ---------- the definitions by position ----------

  lemma {:induction false} LeftoverIsRemainder(n: nat, block: nat)
    requires block >= 1
    ensures Leftover(n, block) == n % block
    decreases n
  {
    if n < block {
      ModUnique(n, 0, block, n);
    } else {
      LeftoverIsRemainder(n - block, block);
      var q, r := (n - block) / block, (n - block) % block;
      assert n == (q + 1) * block + r;
      ModUnique(n, q + 1, block, r);
    }
  }

  predicate HasBlock(c: BlockCipher, s: Bytes, j: nat)
    decreases j
  {
    c.block <= |s| && (j > 0 ==> HasBlock(c, s[c.block..], j - 1))
  }

  /** Block j of a string. */
  function Block(c: BlockCipher, s: Bytes, j: nat): (r: Bytes)
    requires HasBlock(c, s, j)
    ensures |r| == c.block
    decreases j
  {
    if j == 0 then s[..c.block] else Block(c, s[c.block..], j - 1)
  }

  lemma {:induction false} BlockAt(c: BlockCipher, s: Bytes, j: nat)
    requires HasBlock(c, s, j)
    ensures 0 <= j * c.block <= j * c.block + c.block <= |s|
    ensures Block(c, s, j) == s[j * c.block..j * c.block + c.block]
    decreases j
  {
    if j > 0 {
      BlockAt(c, s[c.block..], j - 1);
      assert (j - 1) * c.block + c.block == j * c.block;
    }
  }

  lemma {:induction false} EarlierBlock(c: BlockCipher, s: Bytes, j: nat)
    requires j > 0 && HasBlock(c, s, j)
    ensures HasBlock(c, s, j - 1)
    decreases j
  {
    if j > 1 {
      EarlierBlock(c, s[c.block..], j - 1);
    }
  }

  lemma {:induction false} SameBlocks(c: BlockCipher, s: Bytes, t: Bytes, j: nat)
    requires |s| == |t| && HasBlock(c, s, j)
    ensures HasBlock(c, t, j)
    decreases j
  {
    if j > 0 {
      SameBlocks(c, s[c.block..], t[c.block..], j - 1);
    }
  }

  /** Each block is encrypted after exclusive or with the encrypted block before it, the first with the vector. */
  lemma {:induction false} EncryptAt(c: BlockCipher, key: Bytes, iv: Bytes, s: Bytes, j: nat)
    requires Invertible(c) && |iv| == c.block && Whole(c, s) && HasBlock(c, s, j)
    ensures var r := Encrypt(c, key, iv, s);
            && HasBlock(c, r, j) && (j > 0 ==> HasBlock(c, r, j - 1))
            && Block(c, r, j) == c.encrypt(key, XorBytes(Block(c, s, j), if j == 0 then iv else Block(c, r, j - 1)))
    decreases j
  {
    var r := Encrypt(c, key, iv, s);
    EncryptFirst(c, key, iv, s);
    SameBlocks(c, s, r, j);
    if j > 0 {
      EarlierBlock(c, r, j);
      EncryptAt(c, key, r[..c.block], s[c.block..], j - 1);
    }
  }

  /** The padding fills up to whole blocks with one to block bytes, each of which is their number. */
  lemma {:induction false} PaddedForm(block: nat, m: Bytes)
    requires 1 <= block <= 255
    ensures var s := Padded(block, m);
            var n := |s| - |m|;
            && |s| % block == 0 && 1 <= n <= block && s[..|m|] == m
            && forall i :: |m| <= i < |s| ==> s[i] as int == n
  {
    var s, n := Padded(block, m), block - Leftover(|m|, block);
    LeftoverPadding(|m|, block);
    LeftoverIsRemainder(|s|, block);
    ByteRoundTrip(n);
    forall i | |m| <= i < |s|
      ensures s[i] == ToByte(n)
    {
      assert s[i] == Fill(ToByte(n), n)[i - |m|];
    }
  }
}
