/**
  Bit strings, and texts that carry them a few bits to a character, as the Base32 and Base64 of
  RFC 4648 do.
*/
module BitText {
  import opened Bytes

  function Pow2(n: nat): (p: nat)
    ensures p > 0
  {
    if n == 0 then 1 else 2 * Pow2(n - 1)
  }

  /** The lowest `k` bits of a number, most significant first. */
  function Bits(v: nat, k: nat): (bs: seq<bool>)
    ensures |bs| == k
    decreases k, v
  {
    if k == 0 then [] else Bits(v / 2, k - 1) + [v % 2 == 1]
  }

  function BitsValue(bs: seq<bool>): nat {
    if bs == [] then 0 else 2 * BitsValue(bs[..|bs| - 1]) + if bs[|bs| - 1] then 1 else 0
  }

  lemma {:induction false} BitsValueBound(bs: seq<bool>)
    ensures BitsValue(bs) < Pow2(|bs|)
  {
    if bs != [] {
      BitsValueBound(bs[..|bs| - 1]);
    }
  }

  function ByteOf(bs: seq<bool>): Byte
    requires |bs| == 8
  {
    BitsValueBound(bs);
    BitsValue(bs)
  }

  /** Whole bytes of a bit string; up to seven bits at the end are dropped. */
  function PackBytes(bits: seq<bool>): seq<Byte>
    decreases |bits|
  {
    if |bits| < 8 then [] else [ByteOf(bits[..8])] + PackBytes(bits[8..])
  }

  /** The pieces a function gives for the elements of a sequence, put together. */
  function FlatMap<A, B>(f: A -> seq<B>, s: seq<A>): seq<B> {
    if s == [] then [] else FlatMap(f, s[..|s| - 1]) + f(s[|s| - 1])
  }

  lemma {:induction false} FlatMapConcat<A, B>(f: A -> seq<B>, a: seq<A>, b: seq<A>)
    ensures FlatMap(f, a + b) == FlatMap(f, a) + FlatMap(f, b)
  {
    if b == [] {
      assert a + b == a;
    } else {
      var n := |b| - 1;
      FlatMapConcat(f, a, b[..n]);
      assert (a + b)[..|a| + n] == a + b[..n];
    }
  }

  lemma {:induction false} FlatMapTwice<A(!new), B, C>(f: A -> seq<B>, g: B -> seq<C>, h: A -> seq<C>, s: seq<A>)
    requires forall x :: FlatMap(g, f(x)) == h(x)
    ensures FlatMap(g, FlatMap(f, s)) == FlatMap(h, s)
  {
    if s != [] {
      var n := |s| - 1;
      FlatMapTwice(f, g, h, s[..n]);
      FlatMapConcat(g, FlatMap(f, s[..n]), f(s[n]));
    }
  }

  lemma {:induction false} BitsOfValue(bs: seq<bool>)
    ensures Bits(BitsValue(bs), |bs|) == bs
  {
    if bs != [] {
      var n := |bs| - 1;
      BitsOfValue(bs[..n]);
      assert BitsValue(bs) / 2 == BitsValue(bs[..n]);
      assert bs == bs[..n] + [bs[n]];
    }
  }

  lemma {:induction false} ValueOfBits(v: nat, k: nat)
    requires v < Pow2(k)
    ensures BitsValue(Bits(v, k)) == v
  {
    if k > 0 {
      ValueOfBits(v / 2, k - 1);
      assert Bits(v, k)[..k - 1] == Bits(v / 2, k - 1);
    }
  }

  function ByteBits(bytes: seq<Byte>): seq<bool> {
    if bytes == [] then [] else Bits(bytes[0], 8) + ByteBits(bytes[1..])
  }

  function Zeros(n: nat): seq<bool> {
    seq(n, _ => false)
  }

  /** Each `width` bits to the character of their value; a last group that is short is filled up with zero bits. */
  function Symbols(bits: seq<bool>, width: nat, charOf: nat -> char): string
    requires width > 0
    decreases |bits|
  {
    if bits == [] then ""
    else if |bits| < width then [charOf(BitsValue(bits + Zeros(width - |bits|)))]
    else [charOf(BitsValue(bits[..width]))] + Symbols(bits[width..], width, charOf)
  }

  /** Reading a character gives the bits of the value it was written for. */
  ghost predicate Reads(width: nat, charOf: nat -> char, bitsOf: char -> seq<bool>) {
    forall v: nat :: v < Pow2(width) ==> bitsOf(charOf(v)) == Bits(v, width)
  }

  lemma {:induction false} GroupIsRead(head: seq<bool>, rest: string, width: nat, charOf: nat -> char,
                                       bitsOf: char -> seq<bool>)
    requires |head| == width && Reads(width, charOf, bitsOf)
    ensures FlatMap(bitsOf, [charOf(BitsValue(head))] + rest) == head + FlatMap(bitsOf, rest)
  {
    BitsValueBound(head);
    BitsOfValue(head);
    FlatMapConcat(bitsOf, [charOf(BitsValue(head))], rest);
  }

  /** Reading the symbols of a bit string gives it back, with fewer zero bits added than a character carries. */
  lemma {:induction false} SymbolsAreRead(bits: seq<bool>, width: nat, charOf: nat -> char, bitsOf: char -> seq<bool>)
    returns (extra: nat)
    requires width > 0 && Reads(width, charOf, bitsOf)
    ensures extra < width && FlatMap(bitsOf, Symbols(bits, width, charOf)) == bits + Zeros(extra)
    decreases |bits|
  {
    if bits == [] {
      return 0;
    }
    if |bits| < width {
      extra := width - |bits|;
      GroupIsRead(bits + Zeros(extra), "", width, charOf, bitsOf);
      assert [charOf(BitsValue(bits + Zeros(extra)))] + "" == Symbols(bits, width, charOf);
      return;
    }
    var first, rest := bits[..width], bits[width..];
    extra := SymbolsAreRead(rest, width, charOf, bitsOf);
    GroupIsRead(first, Symbols(rest, width, charOf), width, charOf, bitsOf);
    assert first + (rest + Zeros(extra)) == bits + Zeros(extra) by {
      assert first + rest == bits;
    }
  }

  lemma ByteOfBits(b: Byte)
    ensures ByteOf(Bits(b, 8)) == b
  {
    ValueOfBits(b, 8);
  }

  /** Packing the bits of bytes drops up to seven bits behind them and gives back the bytes. */
  lemma {:induction false} PackOfByteBits(bytes: seq<Byte>, extra: nat)
    requires extra < 8
    ensures PackBytes(ByteBits(bytes) + Zeros(extra)) == bytes
  {
    if bytes != [] {
      var bits, first, rest := ByteBits(bytes) + Zeros(extra), Bits(bytes[0], 8), ByteBits(bytes[1..]) + Zeros(extra);
      assert bits == first + rest;
      assert bits[..8] == first && bits[8..] == rest;
      ByteOfBits(bytes[0]);
      PackOfByteBits(bytes[1..], extra);
      assert [bytes[0]] + bytes[1..] == bytes;
    }
  }

  /** Bytes written with at most eight bits to a character are read back, padding aside. */
  lemma BytesAreRead(bytes: seq<Byte>, width: nat, charOf: nat -> char, bitsOf: char -> seq<bool>, padding: string)
    requires 0 < width <= 8 && Reads(width, charOf, bitsOf) && FlatMap(bitsOf, padding) == []
    ensures PackBytes(FlatMap(bitsOf, Symbols(ByteBits(bytes), width, charOf) + padding)) == bytes
  {
    var text := Symbols(ByteBits(bytes), width, charOf);
    var extra := SymbolsAreRead(ByteBits(bytes), width, charOf, bitsOf);
    FlatMapConcat(bitsOf, text, padding);
    assert FlatMap(bitsOf, text) + [] == FlatMap(bitsOf, text);
    PackOfByteBits(bytes, extra);
  }

  /** A filter that keeps every character that is written keeps the whole text. */
  lemma {:induction false} SymbolsAreKept(bits: seq<bool>, width: nat, charOf: nat -> char, kept: char -> string)
    requires width > 0 && forall v: nat :: v < Pow2(width) ==> kept(charOf(v)) == [charOf(v)]
    ensures FlatMap(kept, Symbols(bits, width, charOf)) == Symbols(bits, width, charOf)
    decreases |bits|
  {
    if bits != [] {
      var head := if |bits| < width then bits + Zeros(width - |bits|) else bits[..width];
      var c := charOf(BitsValue(head));
      BitsValueBound(head);
      if |bits| >= width {
        SymbolsAreKept(bits[width..], width, charOf, kept);
        FlatMapConcat(kept, [c], Symbols(bits[width..], width, charOf));
      }
    }
  }

  /** Text made of one dropped character only is dropped. */
  lemma {:induction false} DroppedAreDropped<B>(f: char -> seq<B>, c: char, n: nat)
    requires f(c) == []
    ensures FlatMap(f, seq(n, _ => c)) == []
  {
    if n > 0 {
      DroppedAreDropped(f, c, n - 1);
      assert seq(n, _ => c)[..n - 1] == seq(n - 1, _ => c);
    }
  }
}
