/**
  The algorithm string of the Diffie-Hellman context: a cipher name in any letter case,
  optionally a colon and a key size in bits, which is read as the C library's atoi reads it.
 */
module SkAlgo {

  const DH_ERR_NO_ERROR := 0
  const DH_ERR_UNSUPPORTED_ALGO := 1
  const DH_ERR_ILLEGAL_KEYSIZE := 2

  // ---------- letters ----------

  function Lower(c: char): char {
    if 'A' <= c <= 'Z' then (c as int + 32) as char else c
  }

  function LowerCase(s: string): (r: string)
    ensures |r| == |s|
  {
    if s == [] then [] else [Lower(s[0])] + LowerCase(s[1..])
  }

  lemma {:induction false} LowerCaseAt(s: string, i: nat)
    requires i < |s|
    ensures LowerCase(s)[i] == Lower(s[i])
    decreases i
  {
    if i > 0 {
      LowerCaseAt(s[1..], i - 1);
    }
  }

  method ToLowerCase(s: string) returns (r: string)
    ensures r == LowerCase(s)
  {
    r := s;
    var i := 0;
    while i < |r|
      invariant 0 <= i <= |r| == |s|
      invariant forall j :: 0 <= j < i ==> r[j] == LowerCase(s)[j]
      invariant forall j :: i <= j < |r| ==> r[j] == s[j]
    {
      LowerCaseAt(s, i);
      r := r[i := Lower(r[i])];
      i := i + 1;
    }
  }

  // ---------- numbers ----------

  predicate IsSpace(c: char) {
    c == ' ' || 9 as char <= c <= 13 as char
  }

  predicate IsDigit(c: char) {
    '0' <= c <= '9'
  }

  function DigitValue(c: char): int
    requires IsDigit(c)
  {
    c as int - 48
  }

  function SkipSpace(s: string): string {
    if s != [] && IsSpace(s[0]) then SkipSpace(s[1..]) else s
  }

  function Accumulate(n: int, s: string): int
    decreases |s|
  {
    if s != [] && IsDigit(s[0]) then Accumulate(10 * n + DigitValue(s[0]), s[1..]) else n
  }

  function Signed(s: string): int {
    if s != [] && s[0] == '-' then -Accumulate(0, s[1..])
    else if s != [] && s[0] == '+' then Accumulate(0, s[1..])
    else Accumulate(0, s)
  }

  function Atoi(s: string): int {
    Signed(SkipSpace(s))
  }

  predicate Digits(s: string) {
    forall i :: 0 <= i < |s| ==> IsDigit(s[i])
  }

  /** The number that a string of decimal digits stands for, put after the digits of n. */
  function Number(n: int, ds: string): int
    requires Digits(ds)
  {
    if ds == [] then n else 10 * Number(n, ds[..|ds| - 1]) + DigitValue(ds[|ds| - 1])
  }

  lemma {:induction false} AccumulateDigits(n: int, ds: string, rest: string)
    requires Digits(ds)
    ensures Accumulate(n, ds + rest) == Accumulate(Number(n, ds), rest)
    decreases |ds|
  {
    if ds == [] {
      assert ds + rest == rest;
    } else {
      var front, last := ds[..|ds| - 1], ds[|ds| - 1];
      assert ds + rest == front + ([last] + rest);
      AccumulateDigits(n, front, [last] + rest);
      assert ([last] + rest)[1..] == rest;
    }
  }

  predicate Spaces(s: string) {
    forall i :: 0 <= i < |s| ==> IsSpace(s[i])
  }

  lemma {:induction false} SkipSpaces(ws: string, rest: string)
    requires Spaces(ws) && (rest == [] || !IsSpace(rest[0]))
    ensures SkipSpace(ws + rest) == rest
    decreases |ws|
  {
    if ws == [] {
      assert ws + rest == rest;
    } else {
      assert (ws + rest)[1..] == ws[1..] + rest;
      SkipSpaces(ws[1..], rest);
    }
  }

  predicate Sign(s: string) {
    s == "" || s == "+" || s == "-"
  }

  /** The parts of a text: white space, a sign, digits, each of which may be missing, and the rest. */
  predicate SizeText(ws: string, sign: string, ds: string, rest: string) {
    && Spaces(ws) && Sign(sign) && Digits(ds)
    && (rest == [] || !IsDigit(rest[0]))
    && (sign == "" && ds == [] && rest != [] ==> !IsSpace(rest[0]) && rest[0] != '+' && rest[0] != '-')
  }

  lemma {:induction false} TakeSpaces(s: string) returns (front: string, rest: string)
    ensures s == front + rest && Spaces(front) && (rest == [] || !IsSpace(rest[0]))
    decreases |s|
  {
    if s == [] || !IsSpace(s[0]) {
      front, rest := [], s;
    } else {
      front, rest := TakeSpaces(s[1..]);
      front := [s[0]] + front;
      assert s == [s[0]] + s[1..];
    }
  }

  lemma {:induction false} TakeDigits(s: string) returns (front: string, rest: string)
    ensures s == front + rest && Digits(front) && (rest == [] || !IsDigit(rest[0]))
    decreases |s|
  {
    if s == [] || !IsDigit(s[0]) {
      front, rest := [], s;
    } else {
      front, rest := TakeDigits(s[1..]);
      front := [s[0]] + front;
      assert s == [s[0]] + s[1..];
    }
  }

  /** Every text has such parts. */
  lemma {:induction false} EverySizeText(text: string) returns (ws: string, sign: string, ds: string, rest: string)
    ensures SizeText(ws, sign, ds, rest) && text == ws + (sign + (ds + rest))
  {
    var signed, number;
    ws, signed := TakeSpaces(text);
    if signed != [] && (signed[0] == '+' || signed[0] == '-') {
      sign, number := [signed[0]], signed[1..];
    } else {
      sign, number := "", signed;
    }
    assert sign + number == signed;
    ds, rest := TakeDigits(number);
  }

  /** A text is read as the number its parts give, which is 0 if there are no digits. */
  lemma {:induction false} AtoiText(ws: string, sign: string, ds: string, rest: string)
    requires SizeText(ws, sign, ds, rest)
    ensures Atoi(ws + (sign + (ds + rest))) == if sign == "-" then -Number(0, ds) else Number(0, ds)
  {
    var number := ds + rest;
    var text := sign + number;
    if sign == "" {
      assert text == number;
      assert number != [] ==> number[0] == if ds != [] then ds[0] else rest[0];
    } else {
      assert text[0] == sign[0] && text[1..] == number;
    }
    SkipSpaces(ws, text);
    AccumulateDigits(0, ds, rest);
  }

  // ---------- the setting ----------

  datatype Parsed = Ok(algo: string, keySize: int) | Err(code: int)

  predicate Legal(algo: string, keySize: int) {
    || (algo == "AES" && (keySize == 128 || keySize == 192 || keySize == 256))
    || (algo == "Blowfish" && 128 <= keySize <= 448)
    || (algo == "DESede" && keySize == 192)
  }

  /** The part before the first colon. */
  function Name(s: string): (r: string)
    ensures |r| <= |s| && r == s[..|r|]
  {
    if s == [] || s[0] == ':' then [] else [s[0]] + Name(s[1..])
  }

  predicate HasColon(s: string) {
    |Name(s)| < |s|
  }

  /** The setting for a name in lower case; size is meaningless unless one was given. */
  function Decide(name: string, sized: bool, size: int): (r: Parsed)
    ensures r.Ok? ==> Legal(r.algo, r.keySize)
  {
    if name == "aes" then
      var keySize := if sized then size else 128;
      if keySize == 128 || keySize == 192 || keySize == 256 then Ok("AES", keySize) else Err(DH_ERR_ILLEGAL_KEYSIZE)
    else if name == "blowfish" then
      var keySize := if sized then size else 128;
      if 128 <= keySize <= 448 then Ok("Blowfish", keySize) else Err(DH_ERR_ILLEGAL_KEYSIZE)
    else if name == "desede" then
      if sized then Err(DH_ERR_ILLEGAL_KEYSIZE) else Ok("DESede", 192)
    else Err(DH_ERR_UNSUPPORTED_ALGO)
  }

  function Parse(skalgo: string): (r: Parsed)
    ensures r.Ok? ==> Legal(r.algo, r.keySize)
  {
    var size := if HasColon(skalgo) then Atoi(skalgo[|Name(skalgo)| + 1..]) else 0;
    Decide(LowerCase(Name(skalgo)), HasColon(skalgo), size)
  }

  lemma {:induction false} NameOf(name: string, rest: string)
    requires ':' !in name
    ensures Name(name) == name
    ensures Name(name + [':'] + rest) == name
    decreases |name|
  {
    var s := name + [':'] + rest;
    if name != [] {
      assert s[1..] == name[1..] + [':'] + rest;
      NameOf(name[1..], rest);
    }
  }

  /** A name with a size: the size is the number written, 0 without digits, and it must be a legal one. */
  lemma {:induction false} ParseSized(algo: string, name: string, ws: string, sign: string, ds: string, rest: string)
    requires ':' !in name
    requires (algo == "AES" && LowerCase(name) == "aes") || (algo == "Blowfish" && LowerCase(name) == "blowfish")
    requires SizeText(ws, sign, ds, rest)
    ensures var n := if sign == "-" then -Number(0, ds) else Number(0, ds);
            Parse(name + [':'] + (ws + (sign + (ds + rest)))) ==
            if Legal(algo, n) then Ok(algo, n) else Err(DH_ERR_ILLEGAL_KEYSIZE)
  {
    var text := ws + (sign + (ds + rest));
    var s := name + [':'] + text;
    NameOf(name, text);
    AtoiText(ws, sign, ds, rest);
    assert s[|name| + 1..] == text;
  }

  /** Without digits there is no legal size: "AES:", "AES:x". */
  lemma {:induction false} ParseUnsized(name: string, ws: string, sign: string, rest: string)
    requires ':' !in name && (LowerCase(name) == "aes" || LowerCase(name) == "blowfish")
    requires SizeText(ws, sign, "", rest)
    ensures Parse(name + [':'] + (ws + (sign + ("" + rest)))) == Err(DH_ERR_ILLEGAL_KEYSIZE)
  {
    ParseSized(if LowerCase(name) == "aes" then "AES" else "Blowfish", name, ws, sign, "", rest);
  }

  /** A name alone: the default size of the cipher, or an unsupported name. */
  lemma {:induction false} ParseNamed(name: string)
    requires ':' !in name
    ensures Parse(name) ==
            if LowerCase(name) == "aes" then Ok("AES", 128)
            else if LowerCase(name) == "blowfish" then Ok("Blowfish", 128)
            else if LowerCase(name) == "desede" then Ok("DESede", 192)
            else Err(DH_ERR_UNSUPPORTED_ALGO)
  {
    NameOf(name, []);
  }

  /** A size after any other name is an error, whatever it says. */
  lemma {:induction false} ParseRejected(name: string, rest: string)
    requires ':' !in name && LowerCase(name) != "aes" && LowerCase(name) != "blowfish"
    ensures Parse(name + [':'] + rest) ==
            Err(if LowerCase(name) == "desede" then DH_ERR_ILLEGAL_KEYSIZE else DH_ERR_UNSUPPORTED_ALGO)
  {
    NameOf(name, rest);
  }

  /** Letter case never matters: names that differ in case only give the same result. */
  lemma {:induction false} CaseInsensitive(a: string, b: string, rest: string)
    requires ':' !in a && ':' !in b && LowerCase(a) == LowerCase(b)
    ensures Parse(a) == Parse(b)
    ensures Parse(a + [':'] + rest) == Parse(b + [':'] + rest)
  {
    NameOf(a, rest);
    NameOf(b, rest);
    assert (a + [':'] + rest)[|a| + 1..] == rest;
    assert (b + [':'] + rest)[|b| + 1..] == rest;
  }

  // ---------- from the characters ----------

  /** The letters of the alphabet are lowered and the digits have their values. */
  lemma {:induction false} Alphabet(i: nat)
    requires i < 26
    ensures Lower("ABCDEFGHIJKLMNOPQRSTUVWXYZ"[i]) == "abcdefghijklmnopqrstuvwxyz"[i]
    ensures Lower("abcdefghijklmnopqrstuvwxyz"[i]) == "abcdefghijklmnopqrstuvwxyz"[i]
    ensures i < 10 ==> IsDigit("0123456789"[i]) && DigitValue("0123456789"[i]) == i && Lower("0123456789"[i]) == "0123456789"[i]
  {}

  /** White space is the blank and the codes from tab to carriage return. */
  lemma {:induction false} SpaceCodes(c: char)
    ensures IsSpace(c) <==> c as int == 32 || c == '\t' || c == '\n' || c as int == 11 || c as int == 12 || c == '\r'
  {}

  lemma {:induction false} LowerCaseIs(s: string, t: string)
    requires |s| == |t| && forall i :: 0 <= i < |s| ==> Lower(s[i]) == t[i]
    ensures LowerCase(s) == t
  {
    forall i | 0 <= i < |s|
      ensures LowerCase(s)[i] == t[i]
    {
      LowerCaseAt(s, i);
    }
  }

  // Names alone.

  lemma {:induction false} SampleAesName(s: string)
    requires s == "AES"
    ensures Parse(s) == Ok("AES", 128)
  {
    LowerCaseIs(s, "aes");
    ParseNamed(s);
  }

  lemma {:induction false} SampleBlowfishName(s: string)
    requires s == "Blowfish"
    ensures Parse(s) == Ok("Blowfish", 128)
  {
    LowerCaseIs(s, "blowfish");
    ParseNamed(s);
  }

  lemma {:induction false} SampleDesedeName(s: string)
    requires s == "DESede"
    ensures Parse(s) == Ok("DESede", 192)
  {
    LowerCaseIs(s, "desede");
    ParseNamed(s);
  }

  lemma {:induction false} SampleUnknownName(s: string)
    requires s == "des"
    ensures Parse(s) == Err(1)
  {
    LowerCaseIs(s, "des");
    ParseNamed(s);
  }

  lemma {:induction false} ThreeDigits(ds: string)
    requires |ds| == 3 && Digits(ds)
    ensures Number(0, ds) == 100 * DigitValue(ds[0]) + 10 * DigitValue(ds[1]) + DigitValue(ds[2])
  {
    assert ds[..2][..1][..0] == [];
    assert ds[..2][..1] == [ds[0]] && ds[..2] == [ds[0], ds[1]];
    assert Number(0, ds[..2][..1]) == DigitValue(ds[0]);
    assert Number(0, ds[..2]) == 10 * DigitValue(ds[0]) + DigitValue(ds[1]);
  }

  lemma {:induction false} SampleBlowfish(s: string)
    requires s == "Blowfish:256"
    ensures Parse(s) == Ok("Blowfish", 256)
  {
    var name, ds := s[..8], s[9..];
    LowerCaseIs(name, "blowfish");
    ThreeDigits(ds);
    ParseSized("Blowfish", name, [], [], ds, []);
    assert s == name + [':'] + ([] + ([] + (ds + [])));
  }

  /** White space before and anything after the digits is ignored. */
  lemma {:induction false} SampleAes(s: string)
    requires s == "aEs:\t +192 bits"
    ensures Parse(s) == Ok("AES", 192)
  {
    var name, ws, sign, ds, rest := s[..3], s[4..6], s[6..7], s[7..10], s[10..];
    LowerCaseIs(name, "aes");
    ThreeDigits(ds);
    assert sign == "+";
    ParseSized("AES", name, ws, sign, ds, rest);
    assert s == name + [':'] + (ws + (sign + (ds + rest)));
  }

  lemma {:induction false} SampleIllegal(s: string)
    requires s == "AES:129" || s == "AES:-128"
    ensures Parse(s) == Err(2)
  {
    var name, sign, ds := s[..3], s[4..|s| - 3], s[|s| - 3..];
    LowerCaseIs(name, "aes");
    ThreeDigits(ds);
    assert sign == if |s| == 7 then "" else "-";
    ParseSized("AES", name, [], sign, ds, []);
    assert s == name + [':'] + ([] + (sign + (ds + [])));
  }
}
