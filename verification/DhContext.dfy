/**
  The Diffie-Hellman context of the client: choice of cipher, the slices of the shared secret
  that serve as key and initialisation vector, and encryption and decryption with them.
 */
module DhContext {
  import opened Options
  import opened Sequences
  import opened SkAlgo
  import opened DiffieHellman
  import Cbc

  type Bytes = seq<bv8>

  datatype CipherName = Aes128Cbc | Aes192Cbc | Aes256Cbc | BlowfishCbc | DesEde3Cbc

  function BlockBytes(name: CipherName): nat {
    match name
    case BlowfishCbc => 8
    case DesEde3Cbc => 8
    case _ => 16
  }

  /** The key length that a cipher itself prescribes; Blowfish takes the one it is given. */
  function OwnKeyBytes(name: CipherName): Option<nat> {
    match name
    case Aes128Cbc => Some(16)
    case Aes192Cbc => Some(24)
    case Aes256Cbc => Some(32)
    case BlowfishCbc => None
    case DesEde3Cbc => Some(24)
  }

  function CipherKeyBytes(name: CipherName, chosen: nat): nat {
    if OwnKeyBytes(name).Some? then OwnKeyBytes(name).value else chosen
  }

  /** The crypto library's block ciphers. */
  type Suite = CipherName -> Cbc.BlockCipher

  ghost predicate Sound(suite: Suite) {
    forall name :: Cbc.Invertible(suite(name)) && suite(name).block == BlockBytes(name)
  }

  /** getCipherFunc */
  function CipherFunc(algo: string, keySize: int): Option<CipherName> {
    if algo == "AES" then
      if keySize == 192 then Some(Aes192Cbc)
      else if keySize == 256 then Some(Aes256Cbc)
      else Some(Aes128Cbc)
    else if algo == "Blowfish" then Some(BlowfishCbc)
    else if algo == "DESede" then Some(DesEde3Cbc)
    else None
  }

  /** Where the initialisation vector starts in the key buffer. */
  function IvOffset(algo: string, keySize: int): int {
    if algo == "DESede" then 24
    else if keySize > 128 then keySize / 8
    else 16
  }

  /** For every legal setting there is a cipher, and key and vector lie side by side in the buffer. */
  lemma {:induction false} SlicesFit(algo: string, keySize: int)
    requires Legal(algo, keySize)
    ensures CipherFunc(algo, keySize).Some?
    ensures var name, k := CipherFunc(algo, keySize).value, IvOffset(algo, keySize);
            && k >= 16
            && CipherKeyBytes(name, k) == k == keySize / 8
            && k + BlockBytes(name) <= KEY_BYTES
  {}

  predicate IsAes(name: CipherName) {
    name == Aes128Cbc || name == Aes192Cbc || name == Aes256Cbc
  }

  /** Each algorithm has its own ciphers, and a cipher with a key length of its own has that of the setting. */
  lemma {:induction false} CipherMatches(algo: string, keySize: int)
    requires Legal(algo, keySize)
    ensures var name := CipherFunc(algo, keySize).value;
            && (algo == "AES" <==> IsAes(name))
            && (algo == "Blowfish" <==> name == BlowfishCbc)
            && (algo == "DESede" <==> name == DesEde3Cbc)
            && (OwnKeyBytes(name).Some? ==> 8 * OwnKeyBytes(name).value == keySize)
  {}

  /** So equal ciphers mean equal algorithms, and for all but Blowfish equal settings. */
  lemma {:induction false} CipherDecides(algo: string, keySize: int, algo': string, keySize': int)
    requires Legal(algo, keySize) && Legal(algo', keySize') && CipherFunc(algo, keySize) == CipherFunc(algo', keySize')
    ensures algo == algo' && (algo != "Blowfish" ==> keySize == keySize')
  {
    CipherMatches(algo, keySize);
    CipherMatches(algo', keySize');
  }

  /** The legal sizes are those of the AES ciphers, of triple DES, and of 16 to 56 bytes for Blowfish. */
  lemma {:induction false} LegalSizes(n: int)
    ensures Legal("AES", n) <==> exists name :: IsAes(name) && OwnKeyBytes(name).Some? && n == 8 * OwnKeyBytes(name).value
    ensures Legal("DESede", n) <==> Some(n / 8) == OwnKeyBytes(DesEde3Cbc) && n % 8 == 0
    ensures Legal("Blowfish", n) <==> 8 * 16 <= n <= 8 * 56
  {
    if Legal("AES", n) {
      assert OwnKeyBytes(Aes128Cbc) == Some(16) && OwnKeyBytes(Aes192Cbc) == Some(24) && OwnKeyBytes(Aes256Cbc) == Some(32);
    }
  }

  /** The number of bytes of the key buffer that a setting uses. */
  function UsedBytes(algo: string, keySize: int): (n: nat)
    requires Legal(algo, keySize)
    ensures n <= KEY_BYTES
  {
    SlicesFit(algo, keySize);
    IvOffset(algo, keySize) + BlockBytes(CipherFunc(algo, keySize).value)
  }

  /** The cipher context that the init calls prepare from the key buffer. */
  function Prepared(suite: Suite, algo: string, keySize: int, key: Bytes): (ctx: Cbc.Context)
    requires Sound(suite) && Legal(algo, keySize) && |key| == KEY_BYTES
    ensures Cbc.Ready(ctx) && ctx.held == [] && ctx.cipher.block <= 16
  {
    SlicesFit(algo, keySize);
    var name, k := CipherFunc(algo, keySize).value, IvOffset(algo, keySize);
    Cbc.Context(suite(name), key[..CipherKeyBytes(name, k)], key[k..k + BlockBytes(name)], [])
  }

  /** Key and vector together are the used bytes, cut after as many bits as the setting names. */
  lemma {:induction false} PreparedSlices(suite: Suite, algo: string, keySize: int, key: Bytes)
    requires Sound(suite) && Legal(algo, keySize) && |key| == KEY_BYTES
    ensures var ctx := Prepared(suite, algo, keySize, key);
            && ctx.key + ctx.chain == key[..UsedBytes(algo, keySize)]
            && |ctx.key| == keySize / 8
            && |ctx.chain| == if algo == "AES" then 16 else 8
  {
    SlicesFit(algo, keySize);
    var k, n := IvOffset(algo, keySize), UsedBytes(algo, keySize);
    assert key[..n] == key[..k] + key[k..n];
  }

  /** The block cipher that an algorithm string selects. */
  lemma {:induction false} ConfiguredCipher(suite: Suite, skalgo: string, key: Bytes)
    requires Sound(suite) && Parse(skalgo).Ok? && |key| == KEY_BYTES
    ensures var name, r := LowerCase(Name(skalgo)), Parse(skalgo);
            var cipher := Prepared(suite, r.algo, r.keySize, key).cipher;
            && (name == "desede" ==> cipher == suite(DesEde3Cbc))
            && (name == "blowfish" ==> cipher == suite(BlowfishCbc))
            && (name == "aes" ==> cipher == suite(if r.keySize == 256 then Aes256Cbc else if r.keySize == 192 then Aes192Cbc else Aes128Cbc))
            && (name == "desede" || name == "blowfish" || name == "aes")
  {}

  /** Only the used bytes of the buffer matter. */
  lemma {:induction false} PreparedBySlice(suite: Suite, algo: string, keySize: int, a: Bytes, b: Bytes)
    requires Sound(suite) && Legal(algo, keySize) && |a| == KEY_BYTES == |b|
    requires a[..UsedBytes(algo, keySize)] == b[..UsedBytes(algo, keySize)]
    ensures Prepared(suite, algo, keySize, a) == Prepared(suite, algo, keySize, b)
  {
    SlicesFit(algo, keySize);
    var name, k, n := CipherFunc(algo, keySize).value, IvOffset(algo, keySize), UsedBytes(algo, keySize);
    assert a[..k] == a[..n][..k] && b[..k] == b[..n][..k];
    assert a[k..n] == a[..n][k..] && b[k..n] == b[..n][k..];
  }

  function EncryptedDh(suite: Suite, algo: string, keySize: int, key: Bytes, m: Bytes): Bytes
    requires Sound(suite) && Legal(algo, keySize) && |key| == KEY_BYTES
  {
    var ctx := Prepared(suite, algo, keySize, key);
    Cbc.Encrypted(ctx.cipher, ctx.key, ctx.chain, m)
  }

  function DecryptedDh(suite: Suite, algo: string, keySize: int, key: Bytes, s: Bytes): Option<Bytes>
    requires Sound(suite) && Legal(algo, keySize) && |key| == KEY_BYTES
  {
    var ctx := Prepared(suite, algo, keySize, key);
    Cbc.Decrypted(ctx.cipher, ctx.key, ctx.chain, s)
  }

  // ---------- the context object ----------

  /** The key buffer of a new context. */
  const BLANK: Bytes := Fill(0, KEY_BYTES)

  datatype KeyPair = KeyPair(priv: nat, pub: nat)

  /** memcpy into a buffer */
  method CopyInto(buffer: array<bv8>, offset: nat, s: Bytes)
    requires offset + |s| <= buffer.Length
    modifies buffer
    ensures buffer[..] == old(buffer[..offset]) + s + old(buffer[offset + |s|..])
  {
    forall i | 0 <= i < |s| {
      buffer[offset + i] := s[i];
    }
  }

  /** A new buffer into which the update call and then the final call write. */
  method WriteParts(size: nat, out: Bytes, last: Bytes) returns (buffer: array<bv8>)
    requires |out| + |last| <= size
    ensures fresh(buffer) && buffer.Length == size && buffer[..|out| + |last|] == out + last
  {
    buffer := new bv8[size](i => 0);
    CopyInto(buffer, 0, out);
    CopyInto(buffer, |out|, last);
  }

  class DHImpl {
    var dh: Option<KeyPair>
    var skAlgo: string
    var keySize: int
    var pubKeyOther: Option<nat>
    const key: array<bv8>

    ghost predicate Valid()
      reads this
    {
      && key.Length == KEY_BYTES
      && (skAlgo == "" || Legal(skAlgo, keySize))
      && (dh.Some? ==> dh.value.pub == PublicKey(dh.value.priv))
    }

    ghost predicate Configured()
      reads this
    {
      Valid() && skAlgo != ""
    }

    constructor ()
      ensures Valid() && fresh(key) && key[..] == BLANK
      ensures dh == None && pubKeyOther == None && skAlgo == "" && keySize == 0
    {
      dh, skAlgo, keySize, pubKeyOther := None, "", 0, None;
      key := new bv8[KEY_BYTES](i => 0);
    }

    method SetSkAlgo(skalgo: string) returns (errCode: int)
      requires Valid()
      modifies this`skAlgo, this`keySize
      ensures Valid()
      ensures Parse(skalgo).Ok? ==>
                errCode == DH_ERR_NO_ERROR && skAlgo == Parse(skalgo).algo && keySize == Parse(skalgo).keySize
      ensures Parse(skalgo).Err? ==>
                errCode == Parse(skalgo).code && skAlgo == old(skAlgo) && keySize == old(keySize)
    {
      var colIdx := |Name(skalgo)|;
      var npos := !HasColon(skalgo);
      var algoStr := ToLowerCase(skalgo[..colIdx]);
      var size := 0;
      if algoStr == "aes" {
        size := if npos then 128 else Atoi(skalgo[colIdx + 1..]);
        if size == 128 || size == 192 || size == 256 {
          skAlgo := "AES";
          keySize := size;
        } else {
          return DH_ERR_ILLEGAL_KEYSIZE;
        }
      } else if algoStr == "blowfish" {
        size := if npos then 128 else Atoi(skalgo[colIdx + 1..]);
        if size >= 128 && size <= 448 {
          skAlgo := "Blowfish";
          keySize := size;
        } else {
          return DH_ERR_ILLEGAL_KEYSIZE;
        }
      } else if algoStr == "desede" {
        if npos {
          skAlgo := "DESede";
          keySize := 192;
        } else {
          return DH_ERR_ILLEGAL_KEYSIZE;
        }
      } else {
        return DH_ERR_UNSUPPORTED_ALGO;
      }
      return DH_ERR_NO_ERROR;
    }

    /** gf_initDhKeys on a new context; the private key is drawn by the crypto library. */
    method InitDhKeys(dhAlgo: Option<string>, priv: nat) returns (errorCode: int)
      requires Valid()
      modifies this`skAlgo, this`keySize, this`dh
      ensures Valid()
      ensures var skip := old(dh).Some? || dhAlgo.None? || dhAlgo.value == "";
              var ok := !skip && Parse(dhAlgo.value).Ok?;
              && errorCode == (if skip || ok then DH_ERR_NO_ERROR else Parse(dhAlgo.value).code)
              && dh == (if ok then Some(KeyPair(priv, PublicKey(priv))) else old(dh))
              && skAlgo == (if ok then Parse(dhAlgo.value).algo else old(skAlgo))
              && keySize == (if ok then Parse(dhAlgo.value).keySize else old(keySize))
    {
      errorCode := DH_ERR_NO_ERROR;
      if dh.Some? || dhAlgo.None? || |dhAlgo.value| == 0 {
        return;
      }
      errorCode := SetSkAlgo(dhAlgo.value);
      if errorCode != DH_ERR_NO_ERROR {
        return;
      }
      dh := Some(KeyPair(priv, PublicKey(priv)));
    }

    method SetPublicKeyOther(pubkey: nat)
      requires Valid()
      modifies this`pubKeyOther
      ensures Valid() && pubKeyOther == Some(pubkey)
    {
      pubKeyOther := Some(pubkey);
    }

    method ComputeSharedSecret()
      requires Valid() && dh.Some? && pubKeyOther.Some?
      modifies key
      ensures Valid() && key[..] == KeyBuffer(old(key[..]), Secret(pubKeyOther.value, dh.value.priv))
    {
      var secret := Secret(pubKeyOther.value, dh.value.priv);
      SecretFits(secret);
      CopyInto(key, 0, BigEndian(secret));
    }

    method ClearDhKeys()
      requires Valid()
      modifies this`dh, this`pubKeyOther, key
      ensures Valid() && dh == None && pubKeyOther == None && key[..] == BLANK
    {
      dh, pubKeyOther := None, None;
      forall i | 0 <= i < key.Length {
        key[i] := 0;
      }
    }

    method EncryptDH(suite: Suite, cleartext: array?<bv8>, len: int, wantsLen: bool)
      returns (ciphertext: array?<bv8>, retLen: int)
      requires Configured() && Sound(suite)
      requires cleartext != null ==> len <= cleartext.Length
      ensures ciphertext != null <==> cleartext != null && len >= 1 && wantsLen
      ensures ciphertext != null ==>
                && fresh(ciphertext)
                && len < retLen <= len + 16 <= ciphertext.Length == len + 50
                && ciphertext[..retLen] == EncryptedDh(suite, skAlgo, keySize, key[..], cleartext[..len])
    {
      if cleartext == null || len < 1 || !wantsLen {
        return null, 0;
      }
      var ctx := Prepared(suite, skAlgo, keySize, key[..]);
      Cbc.EncryptCalls(ctx, cleartext[..len]);
      var (out, next) := Cbc.EncryptUpdate(ctx, cleartext[..len]);
      var last := Cbc.EncryptFinal(next);
      ciphertext := WriteParts(len + 50, out, last);
      retLen := |out| + |last|;
    }

    method DecryptDH(suite: Suite, text: array?<bv8>, len: int, wantsLen: bool)
      returns (cleartext: array?<bv8>, retLen: int)
      requires Configured() && Sound(suite)
      requires text != null ==> len <= text.Length
      ensures cleartext != null <==>
              && text != null && len >= 1 && wantsLen
              && DecryptedDh(suite, skAlgo, keySize, key[..], text[..len]).Some?
      ensures cleartext != null ==>
                && fresh(cleartext)
                && 0 <= retLen < len <= cleartext.Length == len + 50
                && Some(cleartext[..retLen]) == DecryptedDh(suite, skAlgo, keySize, key[..], text[..len])
    {
      if text == null || len < 1 || !wantsLen {
        return null, 0;
      }
      var ctx := Prepared(suite, skAlgo, keySize, key[..]);
      Cbc.DecryptCalls(ctx, text[..len]);
      var (out, next) := Cbc.DecryptUpdate(ctx, text[..len]);
      var last := Cbc.DecryptFinal(next);
      if last == None {
        return null, 0;
      }
      cleartext := WriteParts(len + 50, out, last.value);
      retLen := |out| + |last.value|;
    }
  }
}
