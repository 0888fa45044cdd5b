/**
  The one-time-password code against the standards it implements: the Base32 of RFC 4648 section 6,
  the truncation of RFC 4226 section 5.3, and the counter and window of RFC 6238.
*/
module TotpTheory {
  import opened BitText
  import opened Bytes
  import opened Numbers
  import opened Totp

  // ---- Base32 -------------------------------------------------------------------------------

  /** RFC 4648 section 6, without the padding characters. */
  function Base32(key: seq<Byte>): string {
    Symbols(ByteBits(key), 5, Char32)
  }

  function Char32(v: nat): char {
    if v < 32 then AlphabetChar(v) else '='
  }

  function KnownChar(c: char): string {
    if Base32Value(c) >= 0 then [AlphabetChar(Base32Value(c))] else ""
  }

  /** The characters of the alphabet that the characters of a text are read as. */
  function Known(text: string): string {
    FlatMap(KnownChar, text)
  }

  lemma KnownCharBits(c: char)
    ensures FlatMap(CharBits, KnownChar(c)) == CharBits(c)
  {
    if Base32Value(c) >= 0 {
      SymbolValue(Base32Value(c));
    }
  }

  lemma {:induction false} BitsOfKnown(text: string)
    ensures SecretBits(text) == SecretBits(Known(text))
  {
    forall c ensures FlatMap(CharBits, KnownChar(c)) == CharBits(c) {
      KnownCharBits(c);
    }
    FlatMapTwice(KnownChar, CharBits, CharBits, text);
  }

  /** Reading a character of the alphabet gives back its place in it. */
  lemma SymbolValue(i: nat)
    requires i < 32
    ensures Base32Value(AlphabetChar(i)) == i
  {
  }

  /**
    Any key is read back from every text whose characters are read as its Base32 text: with or
    without padding, in either case, and with characters that are no part of the alphabet mixed in.
  */
  lemma SecretIsReadBack(key: seq<Byte>, text: string)
    requires Known(text) == Base32(key)
    ensures DecodeSecret(text) == key
  {
    BitsOfKnown(text);
    BytesAreRead(key, 5, Char32, CharBits, "");
    assert Base32(key) + "" == Base32(key);
  }

  /** The padded text of a key, however much padding, is read back. */
  lemma {:induction false} PaddedSecretIsReadBack(key: seq<Byte>, padding: nat)
    ensures DecodeSecret(Base32(key) + seq(padding, _ => '=')) == key
  {
    SymbolsAreKept(ByteBits(key), 5, Char32, KnownChar);
    DroppedAreDropped(KnownChar, '=', padding);
    FlatMapConcat(KnownChar, Base32(key), seq(padding, _ => '='));
    SecretIsReadBack(key, Base32(key) + seq(padding, _ => '='));
  }

  // ---- counter --------------------------------------------------------------------------------

  /** A number divided `k` times by 256, rounding down. */
  function Divided(c: int, k: nat): int {
    if k == 0 then c else Divided(c, k - 1) / 256
  }

  /** The 64-bit big-endian two's-complement form of a counter. */
  function BigEndian(c: int): (bs: seq<Byte>)
    ensures |bs| == 8
  {
    seq(8, i requires 0 <= i < 8 => Divided(c, 7 - i) % 256)
  }

  lemma LowByteIs(tmp: int)
    ensures LowByte(tmp) == tmp % 256
  {
    AndEightBits(ToUint32(tmp));
    LowByteOfWord(tmp);
  }

  lemma LowByteOfWord(tmp: int)
    ensures ToUint32(tmp) % 256 == tmp % 256
  {
  }

  lemma {:induction false} DividedOnce(c: int, k: nat)
    ensures Divided(c, k + 1) == Divided(c / 256, k)
  {
    if k > 0 {
      DividedOnce(c, k - 1);
    }
  }

  lemma {:induction false} ShiftedOnce(c: int, k: nat)
    ensures ShiftedBy(c, k + 1) == ShiftedBy(ShiftRight8(c), k)
  {
    if k > 0 {
      ShiftedOnce(c, k - 1);
    }
  }

  lemma {:induction false} SmallCountersShiftExactly(c: int, k: nat)
    requires -0x8000_0000 <= c < 0x8000_0000
    ensures ShiftedBy(c, k) == Divided(c, k) && -0x8000_0000 <= Divided(c, k) < 0x8000_0000
  {
    if k > 0 {
      SmallCountersShiftExactly(c, k - 1);
    }
  }

  /** Half the range of `n` bytes. */
  function HalfRange(n: nat): int
    requires n > 0
  {
    if n == 1 then 128 else 256 * HalfRange(n - 1)
  }

  /** Two numbers within the range of `n` bytes are equal when all those bytes agree. */
  lemma {:induction false} BytesDetermine(a: int, b: int, n: nat)
    requires n > 0
    requires -HalfRange(n) <= a < HalfRange(n) && -HalfRange(n) <= b < HalfRange(n)
    requires forall j :: 0 <= j < n ==> Divided(a, j) % 256 == Divided(b, j) % 256
    ensures a == b
    decreases n
  {
    assert Divided(a, 0) % 256 == Divided(b, 0) % 256;
    if n > 1 {
      forall j | 0 <= j < n - 1 ensures Divided(a / 256, j) % 256 == Divided(b / 256, j) % 256 {
        DividedOnce(a, j);
        DividedOnce(b, j);
        assert Divided(a, j + 1) % 256 == Divided(b, j + 1) % 256;
      }
      BytesDetermine(a / 256, b / 256, n - 1);
    }
  }

  /**
    Over all 64-bit counters, the bytes written are the big-endian form of the counter exactly when
    the counter fits into 32 bits.
  */
  lemma {:induction false} CounterBytesAreBigEndianIff(c: int)
    requires -0x8000_0000_0000_0000 <= c < 0x8000_0000_0000_0000
    ensures CounterBytes(c) == BigEndian(c) <==> -0x8000_0000 <= c < 0x8000_0000
  {
    if -0x8000_0000 <= c < 0x8000_0000 {
      forall i | 0 <= i < 8 ensures CounterBytes(c)[i] == BigEndian(c)[i] {
        SmallCountersShiftExactly(c, 7 - i);
        LowByteIs(ShiftedBy(c, 7 - i));
      }
    } else if CounterBytes(c) == BigEndian(c) {
      var t := ShiftRight8(c);
      forall j | 0 <= j < 7 ensures Divided(t, j) % 256 == Divided(c / 256, j) % 256 {
        assert CounterBytes(c)[6 - j] == BigEndian(c)[6 - j];
        LowByteIs(ShiftedBy(c, j + 1));
        ShiftedOnce(c, j);
        DividedOnce(c, j);
        SmallCountersShiftExactly(t, j);
      }
      BytesDetermine(t, c / 256, 7);
    }
  }

  // ---- truncation -------------------------------------------------------------------------------

  /** RFC 4226 section 5.3: the last 31 bits of the four bytes at the offset in the low half of the last byte. */
  function DynamicTruncation(h: Digest): nat {
    var o := h[19] % 16;
    FourBytes(h[o], h[o + 1], h[o + 2], h[o + 3]) % 0x8000_0000
  }

  /** Four bytes, most significant first. */
  function FourBytes(b0: int, b1: int, b2: int, b3: int): int {
    b0 * 0x100_0000 + b1 * 0x1_0000 + b2 * 0x100 + b3
  }

  lemma TopBitDropped(b0: Byte, b1: Byte, b2: Byte, b3: Byte)
    ensures FourBytes(b0, b1, b2, b3) % 0x8000_0000 == FourBytes(b0 % 128, b1, b2, b3)
  {
  }

  /** Joining a number with lower bits it does not have adds the two. */
  lemma {:induction false} OrAdds(hi: nat, k: nat, lo: nat)
    requires lo < Pow2(k)
    ensures Or(hi * Pow2(k), lo) == hi * Pow2(k) + lo
    decreases k
  {
    if k > 0 && hi > 0 && lo > 0 {
      OrAdds(hi, k - 1, lo / 2);
      EvenProduct(hi, Pow2(k - 1));
    }
  }

  lemma EvenProduct(hi: nat, p: nat)
    requires hi > 0 && p > 0
    ensures hi * (2 * p) == 2 * (hi * p) && hi * p > 0
  {
  }

  lemma Powers()
    ensures Pow2(8) == 0x100 && Pow2(16) == 0x1_0000 && Pow2(24) == 0x100_0000
  {
  }

  /** The four joined parts are the bytes in order, the top bit of the first cleared. */
  lemma JoinedIsSum(b0: Byte, b1: Byte, b2: Byte, b3: Byte)
    ensures Joined(b0, b1, b2, b3) == FourBytes(b0 % 128, b1, b2, b3)
  {
    JoinedParts(b0, b1, b2, b3);
    OrOfParts(b0 % 128, b1, b2, b3);
  }

  lemma OrOfParts(a: nat, b1: Byte, b2: Byte, b3: Byte)
    ensures Or(Or(Or(a * 0x100_0000, b1 * 0x1_0000), b2 * 0x100), b3)
         == a * 0x100_0000 + b1 * 0x1_0000 + b2 * 0x100 + b3
  {
    Powers();
    OrAdds(a, 24, b1 * 0x1_0000);
    OrAdds(a * 0x100 + b1, 16, b2 * 0x100);
    OrAdds((a * 0x100 + b1) * 0x100 + b2, 8, b3);
  }

  /** The code's truncation is the one of the standard, for every digest. */
  lemma TruncationIsStandard(h: Digest)
    ensures Truncated(h) == DynamicTruncation(h)
  {
    var o := h[19] % 16;
    JoinedIsSum(h[o], h[o + 1], h[o + 2], h[o + 3]);
    TopBitDropped(h[o], h[o + 1], h[o + 2], h[o + 3]);
  }

  // ---- digits -------------------------------------------------------------------------------------

  function DigitsValue(s: string): int {
    if s == "" then 0 else 10 * DigitsValue(s[..|s| - 1]) + (s[|s| - 1] as int - '0' as int)
  }

  predicate AllDigits(s: string) {
    forall i :: 0 <= i < |s| ==> '0' <= s[i] <= '9'
  }

  lemma {:induction false} DecimalIsValue(n: nat)
    ensures AllDigits(Decimal(n)) && DigitsValue(Decimal(n)) == n
  {
    if n < 10 {
      assert Decimal(n)[..0] == "";
    } else {
      DecimalIsValue(n / 10);
      assert Decimal(n)[..|Decimal(n)| - 1] == Decimal(n / 10);
    }
  }

  lemma {:induction false} DecimalLength(n: nat, digits: nat)
    requires digits > 0 && n < Pow10(digits)
    ensures |Decimal(n)| <= digits
  {
    if n >= 10 {
      assert digits > 1;
      DecimalLength(n / 10, digits - 1);
    }
  }

  function Pow10(n: nat): nat {
    if n == 0 then 1 else 10 * Pow10(n - 1)
  }

  lemma {:induction false} LeadingZero(s: string)
    ensures DigitsValue("0" + s) == DigitsValue(s)
  {
    if s == "" {
      assert ("0" + s)[..0] == "";
    } else {
      LeadingZero(s[..|s| - 1]);
      assert ("0" + s)[..|s|] == "0" + s[..|s| - 1];
    }
  }

  lemma {:induction false} PaddedIsValue(s: string, width: nat)
    requires AllDigits(s) && |s| <= width
    ensures |PadStart(s, width)| == width && AllDigits(PadStart(s, width))
    ensures DigitsValue(PadStart(s, width)) == DigitsValue(s)
    decreases width - |s|
  {
    if |s| < width {
      LeadingZero(s);
      PaddedIsValue("0" + s, width);
    }
  }

  lemma SixDigits(n: nat)
    requires n < 1000000
    ensures var s := PadStart(Decimal(n), 6); |s| == 6 && AllDigits(s) && DigitsValue(s) == n
  {
    assert Pow10(3) == 1000;
    assert Pow10(6) == 1000000;
    DecimalIsValue(n);
    DecimalLength(n, 6);
    PaddedIsValue(Decimal(n), 6);
  }

  // ---- the code as a whole ----------------------------------------------------------------------------

  /**
    For the Base32 text of a key and a counter that fits into 32 bits, the code is the six-digit
    value RFC 4226 gives for that key and the big-endian counter.
  */
  lemma {:induction false} CodeIsStandard(key: seq<Byte>, text: string, counter: int, hmac: Hmac)
    requires Known(text) == Base32(key) && -0x8000_0000 <= counter < 0x8000_0000
    ensures var code := ComputedTotp(text, counter, hmac);
      && |code| == 6 && AllDigits(code)
      && DigitsValue(code) == DynamicTruncation(hmac(key, BigEndian(counter))) % 1000000
  {
    SecretIsReadBack(key, text);
    CounterBytesAreBigEndianIff(counter);
    TruncationIsStandard(hmac(key, BigEndian(counter)));
    SixDigits(DynamicTruncation(hmac(key, BigEndian(counter))) % 1000000);
  }

  lemma CodeHasSixDigits(secret: string, step: int, hmac: Hmac)
    ensures var code := ComputedTotp(secret, step, hmac); |code| == 6 && AllDigits(code)
  {
    var h := hmac(DecodeSecret(secret), CounterBytes(step));
    TruncationIsStandard(h);
    SixDigits(Truncated(h) % 1000000);
  }

  /**
    The code of a nonempty secret is accepted at every instant within thirty seconds of its own;
    that of an empty one never.
  */
  lemma {:induction false} CodeIsAcceptedForAStep(secret: string, hmac: Hmac, generatedMs: int, enteredMs: int)
    requires -30000 <= enteredMs - generatedMs <= 30000
    ensures Accepts(ComputedTotp(secret, TimeStep(generatedMs), hmac), secret, enteredMs, hmac) <==> secret != ""
  {
    CodeHasSixDigits(secret, TimeStep(generatedMs), hmac);
    var code := ComputedTotp(secret, TimeStep(generatedMs), hmac);
    assert Trim(code) == code;
    assert code == CodeAt(secret, hmac)(TimeStep(generatedMs));
  }
}
