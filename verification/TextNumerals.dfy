/**
  Base32 and Base64 as conversions between number systems: the characters of a text are the digits
  of one number in base 32 or 64, and the bytes are its digits in base 256.
*/
module TextNumerals {
  import opened Arithmetic
  import opened BitText
  import opened Bytes

  /** The number that digits stand for, the most significant one first. */
  function Numeral(digits: seq<int>, base: int): int {
    if digits == [] then 0 else base * Numeral(digits[..|digits| - 1], base) + digits[|digits| - 1]
  }

  function ValuesOf(valueOf: char -> int, text: string): (vs: seq<int>)
    ensures |vs| == |text|
  {
    seq(|text|, i requires 0 <= i < |text| => valueOf(text[i]))
  }

  lemma {:induction false} Pow2Adds(a: nat, b: nat)
    ensures Pow2(a + b) == Pow2(a) * Pow2(b)
  {
    if b > 0 {
      Pow2Adds(a, b - 1);
    }
  }

  lemma {:induction false} BitsOfConcat(a: seq<bool>, b: seq<bool>)
    ensures BitsValue(a + b) == BitsValue(a) * Pow2(|b|) + BitsValue(b)
  {
    if b == [] {
      assert a + b == a;
    } else {
      var n := |b| - 1;
      BitsOfConcat(a, b[..n]);
      assert (a + b)[..|a| + n] == a + b[..n];
      Doubled(BitsValue(a), Pow2(n), BitsValue(b[..n]), if b[n] then 1 else 0);
    }
  }

  lemma Doubled(v: int, p: int, w: int, bit: int)
    ensures 2 * (v * p + w) + bit == v * (2 * p) + (2 * w + bit)
  {
  }

  /** Every character of the text carries the bits of its value. */
  ghost predicate Carries(text: string, width: nat, valueOf: char -> int, bitsOf: char -> seq<bool>) {
    forall c :: c in text ==> 0 <= valueOf(c) < Pow2(width) && bitsOf(c) == Bits(valueOf(c), width)
  }

  lemma {:induction false} BitsOfText(text: string, width: nat, valueOf: char -> int, bitsOf: char -> seq<bool>)
    requires Carries(text, width, valueOf, bitsOf)
    ensures |FlatMap(bitsOf, text)| == width * |text|
    ensures BitsValue(FlatMap(bitsOf, text)) == Numeral(ValuesOf(valueOf, text), Pow2(width))
  {
    if text != "" {
      var n := |text| - 1;
      BitsOfText(text[..n], width, valueOf, bitsOf);
      BitsOfLast(FlatMap(bitsOf, text[..n]), width, valueOf(text[n]), bitsOf(text[n]), n);
      assert ValuesOf(valueOf, text)[..n] == ValuesOf(valueOf, text[..n]);
    }
  }

  lemma BitsOfLast(before: seq<bool>, width: nat, v: int, last: seq<bool>, n: nat)
    requires 0 <= v < Pow2(width) && last == Bits(v, width) && |before| == width * n
    ensures |before + last| == width * (n + 1)
    ensures BitsValue(before + last) == Pow2(width) * BitsValue(before) + v
  {
    ValueOfBits(v, width);
    BitsOfConcat(before, last);
  }

  lemma {:induction false} NumeralOfFront(d: int, digits: seq<int>, base: int, power: int)
    requires power == Power(base, |digits|)
    ensures Numeral([d] + digits, base) == d * power + Numeral(digits, base)
  {
    if digits == [] {
      assert [d] + digits == [d] && [d][..0] == [];
    } else {
      var n := |digits| - 1;
      NumeralOfFront(d, digits[..n], base, Power(base, n));
      assert ([d] + digits)[..n + 1] == [d] + digits[..n];
      assert base * (d * Power(base, n)) == d * (base * Power(base, n));
    }
  }

  function Power(base: int, n: nat): int {
    if n == 0 then 1 else base * Power(base, n - 1)
  }

  lemma {:induction false} BytePower(n: nat)
    ensures Power(256, n) == Pow2(8 * n)
  {
    if n > 0 {
      BytePower(n - 1);
      Pow2Adds(8 * (n - 1), 8);
      assert Pow2(8) == 256;
    }
  }

  /** Packing keeps the number, but for the bits at the end that fill no byte. */
  lemma {:induction false} PackedIsNumeral(bits: seq<bool>) returns (rest: seq<bool>)
    ensures |PackBytes(bits)| == |bits| / 8 && |rest| == |bits| % 8 && rest <= bits[|bits| - |rest|..]
    ensures BitsValue(bits) == Numeral(PackBytes(bits), 256) * Pow2(|rest|) + BitsValue(rest)
    decreases |bits|
  {
    if |bits| < 8 {
      return bits;
    }
    var first, others := bits[..8], bits[8..];
    rest := PackedIsNumeral(others);
    BitsOfConcat(first, others);
    assert first + others == bits;
    var packed := PackBytes(others);
    NumeralOfFront(ByteOf(first), packed, 256, Power(256, |packed|));
    BytePower(|packed|);
    Pow2Adds(8 * |packed|, |rest|);
    assert |others| == 8 * |packed| + |rest|;
    Shifted(BitsValue(first), Pow2(8 * |packed|), Pow2(|rest|), Numeral(packed, 256));
  }

  lemma Shifted(b: int, p: int, q: int, n: int)
    ensures b * (p * q) + n * q == (b * p + n) * q
  {
  }

  // ---- reading a text -------------------------------------------------------------------------

  /** The bytes read from a text are its number without the lowest bits, which fill no byte. */
  lemma {:induction false} ReadIsNumeral(text: string, width: nat, valueOf: char -> int, bitsOf: char -> seq<bool>)
    requires Carries(text, width, valueOf, bitsOf)
    ensures var bytes := PackBytes(FlatMap(bitsOf, text));
      && |bytes| == width * |text| / 8
      && Numeral(bytes, 256) == Numeral(ValuesOf(valueOf, text), Pow2(width)) / Pow2(width * |text| % 8)
  {
    BitsOfText(text, width, valueOf, bitsOf);
    PackedIsQuotient(FlatMap(bitsOf, text));
  }

  lemma {:induction false} PackedIsQuotient(bits: seq<bool>)
    ensures |PackBytes(bits)| == |bits| / 8
    ensures Numeral(PackBytes(bits), 256) == BitsValue(bits) / Pow2(|bits| % 8)
  {
    var rest := PackedIsNumeral(bits);
    BitsValueBound(rest);
    QuotientIs(BitsValue(bits), Numeral(PackBytes(bits), 256), Pow2(|rest|), BitsValue(rest));
  }

  lemma QuotientIs(x: int, q: int, m: nat, r: nat)
    requires r < m && x == q * m + r
    ensures x / m == q
  {
    DivModIs(x, m, q, r);
  }

  // ---- writing bytes --------------------------------------------------------------------------

  lemma {:induction false} ByteBitsLength(bytes: seq<Byte>)
    ensures |ByteBits(bytes)| == 8 * |bytes|
  {
    if bytes != [] {
      ByteBitsLength(bytes[1..]);
    }
  }

  lemma {:induction false} BytesAreNumeral(bytes: seq<Byte>)
    ensures BitsValue(ByteBits(bytes)) == Numeral(bytes, 256)
  {
    PackOfByteBits(bytes, 0);
    ByteBitsLength(bytes);
    assert ByteBits(bytes) + Zeros(0) == ByteBits(bytes);
    var rest := PackedIsNumeral(ByteBits(bytes));
    assert rest == [];
  }

  lemma {:induction false} ZerosAdd(bits: seq<bool>, n: nat)
    ensures BitsValue(bits + Zeros(n)) == BitsValue(bits) * Pow2(n)
  {
    if n == 0 {
      assert bits + Zeros(0) == bits;
    } else {
      ZerosAdd(bits, n - 1);
      assert (bits + Zeros(n))[..|bits| + n - 1] == bits + Zeros(n - 1);
      Doubled(BitsValue(bits), Pow2(n - 1), 0, 0);
    }
  }

  /** Every character that is written carries the bits it was written for. */
  lemma {:induction false} SymbolsCarry(bits: seq<bool>, width: nat, charOf: nat -> char, valueOf: char -> int,
                                        bitsOf: char -> seq<bool>)
    requires width > 0 && Reads(width, charOf, bitsOf)
    requires forall v: nat :: v < Pow2(width) ==> valueOf(charOf(v)) == v
    ensures Carries(Symbols(bits, width, charOf), width, valueOf, bitsOf)
    decreases |bits|
  {
    if bits != [] {
      var head := if |bits| < width then bits + Zeros(width - |bits|) else bits[..width];
      BitsValueBound(head);
      if |bits| >= width {
        SymbolsCarry(bits[width..], width, charOf, valueOf, bitsOf);
      }
    }
  }

  /** The text written for bytes is their number, with fewer zero bits behind it than a character carries. */
  lemma {:induction false} WrittenIsNumeral(bytes: seq<Byte>, width: nat, charOf: nat -> char, valueOf: char -> int,
                                            bitsOf: char -> seq<bool>) returns (extra: nat)
    requires width > 0 && Reads(width, charOf, bitsOf)
    requires forall v: nat :: v < Pow2(width) ==> valueOf(charOf(v)) == v
    ensures var text := Symbols(ByteBits(bytes), width, charOf);
      && Carries(text, width, valueOf, bitsOf)
      && extra < width && width * |text| == 8 * |bytes| + extra
      && Numeral(ValuesOf(valueOf, text), Pow2(width)) == Numeral(bytes, 256) * Pow2(extra)
  {
    var text := Symbols(ByteBits(bytes), width, charOf);
    SymbolsCarry(ByteBits(bytes), width, charOf, valueOf, bitsOf);
    extra := SymbolsAreRead(ByteBits(bytes), width, charOf, bitsOf);
    BitsOfText(text, width, valueOf, bitsOf);
    ByteBitsLength(bytes);
    BytesAreNumeral(bytes);
    ZerosAdd(ByteBits(bytes), extra);
  }
}
