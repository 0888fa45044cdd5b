/**
  One-time passwords of auth-crypto.ts: the Base32 reading of the secret, the counter bytes, the
  dynamic truncation, and the three-step window of the verifier.

  The HMAC-SHA1 function is a parameter that returns a 20-byte digest.  The 32-bit operators of the
  original are written out on integers: `&` and `|` bit by bit, `<<` with its wrap-around, `>>` as
  the sign-keeping shift.
*/
module Totp {
  import opened Arithmetic
  import opened BitText
  import opened Bytes
  import opened Numbers

  type Digest = d: seq<Byte> | |d| == 20 witness seq(20, _ => 0)

  type Hmac = (seq<Byte>, seq<Byte>) -> Digest

  // ---- bit operators ----------------------------------------------------------------------

  function And(x: nat, y: nat): nat {
    if x == 0 then 0 else 2 * And(x / 2, y / 2) + if x % 2 == 1 && y % 2 == 1 then 1 else 0
  }

  function Or(x: nat, y: nat): nat
    decreases x + y
  {
    if x == 0 then y else if y == 0 then x
    else 2 * Or(x / 2, y / 2) + if x % 2 == 1 || y % 2 == 1 then 1 else 0
  }

  function ShiftRight8(x: int): int {
    ToInt32(x) / 256
  }

  /** x << 8, x << 16 and x << 24. */
  function ShiftLeft8(x: int): int {
    ToInt32(x * 0x100)
  }

  function ShiftLeft16(x: int): int {
    ToInt32(x * 0x1_0000)
  }

  function ShiftLeft24(x: int): int {
    ToInt32(x * 0x100_0000)
  }

  // ---- Base32 -------------------------------------------------------------------------------

  const LETTERS := "ABCDEFGHIJKLMNOPQRSTUVWXYZ"
  const DIGITS := "234567"
  const BASE32_CHARS := LETTERS + DIGITS

  function AlphabetChar(v: nat): char
    requires v < 32
  {
    if v < 26 then 'A' + v as char else '2' + (v - 26) as char
  }

  lemma LetterAt(v: nat)
    requires v < 26
    ensures LETTERS[v] == 'A' + v as char
  {
  }

  lemma AlphabetIs(v: nat)
    requires v < 32
    ensures |BASE32_CHARS| == 32 && BASE32_CHARS[v] == AlphabetChar(v)
  {
    if v < 26 {
      LetterAt(v);
    }
  }

  /**
    The upper case of a character.  Of those outside ASCII, dotless i, long s and the two ligatures
    of s and t become letters of the alphabet, and no other does.
   */
  function UpperCase(c: char): (u: string)
    ensures |u| > 0
  {
    if 'a' <= c <= 'z' then [c - 'a' + 'A']
    else if c == '\U{0131}' then "I"
    else if c == '\U{017F}' then "S"
    else if c == '\U{FB05}' || c == '\U{FB06}' then "ST"
    else [c]
  }

  /** The index of a character in the alphabet, its case aside; -1 when its upper case is no part of it. */
  function Base32Value(c: char): (v: int)
    ensures -1 <= v < 32
  {
    var u := UpperCase(c);
    if |u| == 2 then 18
    else if 'A' <= u[0] <= 'Z' then (u[0] - 'A') as int
    else if '2' <= u[0] <= '7' then (u[0] - '2') as int + 26
    else -1
  }

  /** It is the one place of the alphabet where the upper case of the character stands. */
  lemma Base32ValueIsIndex(c: char, p: nat)
    requires p + |UpperCase(c)| <= 32
    ensures |BASE32_CHARS| == 32
    ensures BASE32_CHARS[p..p + |UpperCase(c)|] == UpperCase(c) <==> p == Base32Value(c)
  {
    var u := UpperCase(c);
    var part := BASE32_CHARS[p..p + |u|];
    AlphabetIs(p);
    assert part[0] == AlphabetChar(p);
    if |u| == 2 {
      AlphabetIs(p + 1);
      assert part[1] == AlphabetChar(p + 1);
      assert part == [AlphabetChar(p), AlphabetChar(p + 1)];
    } else {
      assert part == [AlphabetChar(p)];
    }
  }

  /** The five bits of a character, none for one outside the alphabet. */
  function CharBits(c: char): seq<bool> {
    if Base32Value(c) >= 0 then Bits(Base32Value(c), 5) else []
  }

  function SecretBits(secret: string): seq<bool> {
    FlatMap(CharBits, secret)
  }

  function DecodeSecret(secret: string): seq<Byte> {
    PackBytes(SecretBits(secret))
  }

  // ---- counter, truncation, digits ------------------------------------------------------------

  /** The counter after `k` of the loop's shifts. */
  function ShiftedBy(counter: int, k: nat): int {
    if k == 0 then counter else ShiftRight8(ShiftedBy(counter, k - 1))
  }

  /** The eight bytes written for a counter, the last one from the unshifted value. */
  function CounterBytes(counter: int): (bs: seq<Byte>)
    ensures |bs| == 8
  {
    seq(8, i requires 0 <= i < 8 => LowByte(ShiftedBy(counter, 7 - i)))
  }

  /** Masking with p - 1 keeps the remainder modulo p. */
  ghost predicate Masks(x: nat, p: nat)
    requires p > 0
  {
    And(x, p - 1) == x % p
  }

  lemma {:induction false} MaskByPow2(x: nat, k: nat)
    ensures Masks(x, Pow2(k))
  {
    if k == 0 {
      AndZero(x);
    } else if x == 0 {
      ZeroMasks(Pow2(k));
    } else {
      MaskByPow2(x / 2, k - 1);
      MaskDoubles(x, Pow2(k - 1));
    }
  }

  lemma ZeroMasks(p: nat)
    requires p > 0
    ensures Masks(0, p)
  {
  }

  lemma MaskDoubles(x: nat, p: nat)
    requires p > 0 && Masks(x / 2, p)
    ensures Masks(x, 2 * p)
  {
    ModDouble(x, p);
    assert 2 * (p - 1) + 1 == 2 * p - 1;
  }

  lemma AndZero(x: nat)
    ensures And(x, 0) == 0
  {
  }

  lemma AndNibble(x: nat)
    ensures And(x, 0x0f) == x % 16
  {
    MaskByPow2(x, 4);
  }

  lemma AndSevenBits(x: nat)
    ensures And(x, 0x7f) == x % 128
  {
    MaskByPow2(x, 7);
  }

  lemma AndEightBits(x: nat)
    ensures And(x, 0xff) == x % 256
  {
    MaskByPow2(x, 8);
  }

  lemma LowByteOfByte(b: Byte)
    ensures And(b, 0xff) == b
  {
    AndEightBits(b);
  }

  function LowByte(tmp: int): (b: Byte) {
    AndEightBits(ToUint32(tmp));
    And(ToUint32(tmp), 0xff)
  }

  function Offset(last: Byte): (o: nat)
    ensures o == last % 16
  {
    AndNibble(last);
    And(last, 0x0f)
  }

  /** The 31-bit number the digest yields: four bytes from the offset its last byte names. */
  function Truncated(hmac: Digest): int
  {
    var offset := Offset(hmac[19]);
    Joined(hmac[offset], hmac[offset + 1], hmac[offset + 2], hmac[offset + 3])
  }

  function Joined(b0: Byte, b1: Byte, b2: Byte, b3: Byte): int
  {
    JoinedParts(b0, b1, b2, b3);
    Or(Or(Or(ShiftLeft24(And(b0, 0x7f)), ShiftLeft16(And(b1, 0xff))), ShiftLeft8(And(b2, 0xff))), And(b3, 0xff))
  }

  /** The four parts that are joined, as multiples of powers of 256. */
  lemma JoinedParts(b0: Byte, b1: Byte, b2: Byte, b3: Byte)
    ensures ShiftLeft24(And(b0, 0x7f)) == (b0 % 128) * 0x100_0000
    ensures ShiftLeft16(And(b1, 0xff)) == b1 * 0x1_0000
    ensures ShiftLeft8(And(b2, 0xff)) == b2 * 0x100
    ensures And(b3, 0xff) == b3
  {
    FirstPart(b0);
    SecondPart(b1);
    LowByteOfByte(b3);
  }

  lemma FirstPart(b: Byte)
    ensures ShiftLeft24(And(b, 0x7f)) == (b % 128) * 0x100_0000
  {
    AndSevenBits(b);
  }

  lemma SecondPart(b: Byte)
    ensures ShiftLeft16(And(b, 0xff)) == b * 0x1_0000
  {
    LowByteOfByte(b);
  }

  function Digit(d: int): char
    requires 0 <= d < 10
  {
    '0' + d as char
  }

  function Decimal(n: nat): (s: string)
    ensures |s| > 0
  {
    if n < 10 then [Digit(n)] else Decimal(n / 10) + [Digit(n % 10)]
  }

  function PadStart(s: string, width: nat): (p: string)
    decreases width - |s|
  {
    if |s| >= width then s else PadStart("0" + s, width)
  }

  function ComputedTotp(secret: string, counter: int, hmac: Hmac): string {
    var binary := Truncated(hmac(DecodeSecret(secret), CounterBytes(counter)));
    PadStart(Decimal(binary % 1000000), 6)
  }

  // ---- the loops --------------------------------------------------------------------------------

  method ReadSecretBits(secret: string) returns (bits: seq<bool>)
    ensures bits == SecretBits(secret)
  {
    bits := [];
    for i := 0 to |secret|
      invariant bits == SecretBits(secret[..i])
    {
      assert secret[..i + 1][..i] == secret[..i];
      var val := Base32Value(secret[i]);
      if val >= 0 {
        bits := bits + Bits(val, 5);
      }
      assert SecretBits(secret[..i + 1]) == SecretBits(secret[..i]) + CharBits(secret[i]);
    }
    assert secret[..|secret|] == secret;
  }

  method ReadKeyBytes(bits: seq<bool>) returns (keyBytes: seq<Byte>)
    ensures keyBytes == PackBytes(bits)
  {
    keyBytes := [];
    var i := 0;
    while i + 8 <= |bits|
      invariant 0 <= i <= |bits|
      invariant PackBytes(bits) == keyBytes + PackBytes(bits[i..])
    {
      assert bits[i..][..8] == bits[i..i + 8] && bits[i..][8..] == bits[i + 8..];
      keyBytes := keyBytes + [ByteOf(bits[i..i + 8])];
      i := i + 8;
    }
  }

  method WriteCounter(counter: int) returns (counterBuf: array<Byte>)
    ensures fresh(counterBuf) && counterBuf[..] == CounterBytes(counter)
  {
    counterBuf := new Byte[8](_ => 0);
    var tmp := counter;
    for i := 8 downto 0
      invariant tmp == ShiftedBy(counter, 8 - i)
      invariant forall j :: i <= j < 8 ==> counterBuf[j] == LowByte(ShiftedBy(counter, 7 - j))
    {
      counterBuf[i] := LowByte(tmp);
      tmp := ShiftRight8(tmp);
    }
  }

  method ComputeTotp(secret: string, counter: int, hmac: Hmac) returns (code: string)
    ensures code == ComputedTotp(secret, counter, hmac)
  {
    var bits := ReadSecretBits(secret);
    var keyBytes := ReadKeyBytes(bits);
    var counterBuf := WriteCounter(counter);
    var digest := hmac(keyBytes, counterBuf[..]);
    var otp := Truncated(digest) % 1000000;
    code := PadStart(Decimal(otp), 6);
  }

  predicate Whitespace(c: char) {
    '\t' <= c <= '\r' || c == ' ' || c == '\U{00A0}' || c == '\U{1680}' || '\U{2000}' <= c <= '\U{200A}'
    || c == '\U{2028}' || c == '\U{2029}' || c == '\U{202F}' || c == '\U{205F}' || c == '\U{3000}' || c == '\U{FEFF}'
  }

  function Trim(s: string): string {
    if s != "" && Whitespace(s[0]) then Trim(s[1..])
    else if s != "" && Whitespace(s[|s| - 1]) then Trim(s[..|s| - 1])
    else s
  }

  function TimeStep(nowMs: int): int {
    nowMs / 30000
  }

  /** The code of a secret at each time step. */
  function CodeAt(secret: string, hmac: Hmac): int -> string {
    step => ComputedTotp(secret, step, hmac)
  }

  /** The loop over the steps before, at and after the current one. */
  method MatchesWindow(cleanToken: string, timeStep: int, codeAt: int -> string) returns (ok: bool)
    ensures ok <==> exists step :: timeStep - 1 <= step <= timeStep + 1 && cleanToken == codeAt(step)
  {
    for window := -1 to 2
      invariant forall step :: timeStep - 1 <= step < timeStep + window ==> cleanToken != codeAt(step)
    {
      var expected := codeAt(timeStep + window);
      if cleanToken == expected {
        return true;
      }
    }
    return false;
  }

  /** Neither text is empty, and the trimmed token is the code of the step before, at or after the current one. */
  ghost predicate Accepts(token: string, secret: string, nowMs: int, hmac: Hmac) {
    && token != "" && secret != ""
    && exists step :: TimeStep(nowMs) - 1 <= step <= TimeStep(nowMs) + 1 && Trim(token) == CodeAt(secret, hmac)(step)
  }

  method VerifyTotpToken(token: string, secret: string, nowMs: int, hmac: Hmac) returns (ok: bool)
    ensures ok <==> Accepts(token, secret, nowMs, hmac)
  {
    if token == "" || secret == "" {
      return false;
    }
    ok := MatchesWindow(Trim(token), TimeStep(nowMs), CodeAt(secret, hmac));
  }
}
