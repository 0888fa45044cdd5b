/**
  Which tokens the verifier accepts, in the terms of the standards: periods of thirty seconds from
  the epoch (RFC 6238), six-digit values of the truncated digest (RFC 4226), and the number that a
  Base32 secret stands for (RFC 4648).
*/
module TotpAcceptance {
  import opened BitText
  import opened Bytes
  import opened TextNumerals
  import opened Totp
  import opened TotpTheory

  /** The counter is the number of whole periods of thirty seconds since the epoch. */
  lemma TimeStepIs(nowMs: int, n: int)
    ensures TimeStep(nowMs) == n <==> 30000 * n <= nowMs < 30000 * (n + 1)
  {
  }

  // ---- the token ------------------------------------------------------------------------------

  /** White space and line terminators of ECMA-262, section 12.2 and 12.3. */
  const WHITE_SPACE: set<char> := {
    '\t', '\n', '\U{000B}', '\U{000C}', '\r', ' ', '\U{00A0}', '\U{1680}', '\U{2000}', '\U{2001}', '\U{2002}',
    '\U{2003}', '\U{2004}', '\U{2005}', '\U{2006}', '\U{2007}', '\U{2008}', '\U{2009}', '\U{200A}', '\U{2028}',
    '\U{2029}', '\U{202F}', '\U{205F}', '\U{3000}', '\U{FEFF}'
  }

  ghost predicate Blank(s: string) {
    forall c :: c in s ==> c in WHITE_SPACE
  }

  lemma WhitespaceIs(c: char)
    ensures Whitespace(c) <==> c in WHITE_SPACE
  {
  }

  /** Trimming takes away exactly the white space around a text that neither starts nor ends with any. */
  lemma {:induction false} TrimIs(before: string, s: string, after: string)
    requires Blank(before) && Blank(after)
    requires s != "" && s[0] !in WHITE_SPACE && s[|s| - 1] !in WHITE_SPACE
    ensures Trim(before + s + after) == s
    decreases |before| + |after|
  {
    var whole := before + s + after;
    WhitespaceIs(whole[0]);
    WhitespaceIs(whole[|whole| - 1]);
    if before != "" {
      assert before[0] in before;
      assert forall c :: c in before[1..] ==> c in before;
      TrimIs(before[1..], s, after);
      assert whole[1..] == before[1..] + s + after;
    } else if after != "" {
      var n := |after| - 1;
      assert after[n] in after;
      assert forall c :: c in after[..n] ==> c in after;
      TrimIs(before, s, after[..n]);
      assert whole[..|whole| - 1] == before + s + after[..n];
    } else {
      assert whole == s;
    }
  }

  // ---- the secret -----------------------------------------------------------------------------

  /** A letter or digit of the Base32 alphabet, its case aside. */
  ghost predicate Writes(c: char, symbol: char) {
    || (c == symbol && ('A' <= symbol <= 'Z' || '2' <= symbol <= '7'))
    || ('a' <= c <= 'z' && 'A' <= symbol <= 'Z' && c as int - 'a' as int == symbol as int - 'A' as int)
  }

  /** An ASCII character that is no letter and none of the digits 2 to 7. */
  ghost predicate Separates(c: char) {
    c < '\U{0080}' && !('a' <= c <= 'z') && !('A' <= c <= 'Z') && !('2' <= c <= '7')
  }

  /** The text is the Base32 text in either case, with spaces, hyphens, padding and the like mixed in. */
  ghost predicate Spelled(text: string, base32: string) {
    if text == "" then base32 == "" else
      || (Separates(text[0]) && Spelled(text[1..], base32))
      || (base32 != "" && Writes(text[0], base32[0]) && Spelled(text[1..], base32[1..]))
  }

  lemma KnownIs(c: char)
    ensures Separates(c) ==> KnownChar(c) == ""
    ensures forall symbol :: Writes(c, symbol) ==> KnownChar(c) == [symbol]
  {
  }

  lemma {:induction false} SpelledIsKnown(text: string, base32: string)
    requires Spelled(text, base32)
    ensures Known(text) == base32
  {
    if text != "" {
      KnownIs(text[0]);
      var first, rest := [text[0]], text[1..];
      assert first + rest == text && first[..0] == "";
      FlatMapConcat(KnownChar, first, rest);
      if Separates(text[0]) && Spelled(rest, base32) {
        SpelledIsKnown(rest, base32);
      } else {
        SpelledIsKnown(rest, base32[1..]);
        assert base32 == [base32[0]] + base32[1..];
      }
    }
  }

  /**
    The key read from a text of the alphabet, in either case, is the number its characters stand for
    in base 32, written in base 256 without the bits that fill no byte.
  */
  lemma {:induction false} KeyIsNumeral(text: string)
    requires forall c :: c in text ==> Base32Value(c) >= 0
    ensures var key := DecodeSecret(text);
      && |key| == 5 * |text| / 8
      && Numeral(key, 256) == Numeral(ValuesOf(Base32Value, text), 32) / Pow2(5 * |text| % 8)
  {
    assert Pow2(5) == 32;
    ReadIsNumeral(text, 5, Base32Value, CharBits);
  }

  // ---- the code -------------------------------------------------------------------------------

  /** Six digits that stand for the truncated digest of the key and the big-endian counter, modulo a million. */
  ghost predicate IsCode(s: string, key: seq<Byte>, counter: int, hmac: Hmac) {
    && |s| == 6 && AllDigits(s)
    && DigitsValue(s) == DynamicTruncation(hmac(key, BigEndian(counter))) % 1000000
  }

  lemma {:induction false} DigitsDetermine(s: string, t: string)
    requires |s| == |t| && AllDigits(s) && AllDigits(t) && DigitsValue(s) == DigitsValue(t)
    ensures s == t
  {
    if s != "" {
      var n := |s| - 1;
      assert '0' <= s[n] <= '9' && '0' <= t[n] <= '9';
      DigitsDetermine(s[..n], t[..n]);
      assert s == s[..n] + [s[n]] && t == t[..n] + [t[n]];
    }
  }

  lemma {:induction false} CodeIs(key: seq<Byte>, text: string, counter: int, hmac: Hmac, s: string)
    requires Spelled(text, Base32(key)) && -0x8000_0000 <= counter < 0x8000_0000
    ensures s == ComputedTotp(text, counter, hmac) <==> IsCode(s, key, counter, hmac)
  {
    SpelledIsKnown(text, Base32(key));
    CodeIsStandard(key, text, counter, hmac);
    if IsCode(s, key, counter, hmac) {
      DigitsDetermine(s, ComputedTotp(text, counter, hmac));
    }
  }

  /**
    For the Base32 text of a nonempty key, a token is accepted in the n-th period exactly when, white
    space around it aside, it is the code of that period, of the one before or of the one after.
  */
  lemma {:induction false} StandardTokenAcceptedIff(key: seq<Byte>, text: string, hmac: Hmac, nowMs: int, n: int,
                                                    before: string, s: string, after: string)
    requires key != [] && Spelled(text, Base32(key))
    requires 30000 * n <= nowMs < 30000 * (n + 1) && -0x8000_0000 < n < 0x7fff_ffff
    requires Blank(before) && Blank(after)
    requires s != "" && s[0] !in WHITE_SPACE && s[|s| - 1] !in WHITE_SPACE
    ensures Accepts(before + s + after, text, nowMs, hmac)
       <==> exists counter :: n - 1 <= counter <= n + 1 && IsCode(s, key, counter, hmac)
  {
    TimeStepIs(nowMs, n);
    TrimIs(before, s, after);
    TextOfKey(key, text);
    forall counter | n - 1 <= counter <= n + 1
      ensures s == CodeAt(text, hmac)(counter) <==> IsCode(s, key, counter, hmac)
    {
      CodeIs(key, text, counter, hmac, s);
    }
  }

  lemma {:induction false} TextOfKey(key: seq<Byte>, text: string)
    requires key != [] && Spelled(text, Base32(key))
    ensures text != ""
  {
    ByteBitsLength(key);
  }

  /** The code of period n is accepted from the start of the one before to the end of the one after. */
  lemma {:induction false} CodeIsGoodForThreePeriods(key: seq<Byte>, text: string, hmac: Hmac, nowMs: int, n: int,
                                                     code: string)
    requires key != [] && Spelled(text, Base32(key)) && IsCode(code, key, n, hmac)
    requires 30000 * (n - 1) <= nowMs < 30000 * (n + 2) && -0x8000_0000 < n - 1 && n + 1 < 0x7fff_ffff
    ensures Accepts(code, text, nowMs, hmac)
  {
    var m := PeriodAt(nowMs, n);
    CodeIsBare(code);
    StandardTokenAcceptedIff(key, text, hmac, nowMs, m, "", code, "");
  }

  lemma PeriodAt(nowMs: int, n: int) returns (m: int)
    requires 30000 * (n - 1) <= nowMs < 30000 * (n + 2)
    ensures 30000 * m <= nowMs < 30000 * (m + 1) && n - 1 <= m <= n + 1
  {
    m := nowMs / 30000;
  }

  lemma CodeIsBare(code: string)
    requires |code| == 6 && AllDigits(code)
    ensures "" + code + "" == code && code[0] !in WHITE_SPACE && code[5] !in WHITE_SPACE
  {
    assert '0' <= code[0] <= '9' && '0' <= code[5] <= '9';
  }

  /** An empty token, one of white space alone, and any token for an empty secret are refused. */
  lemma {:induction false} EmptyIsRefused(token: string, secret: string, nowMs: int, hmac: Hmac)
    requires Blank(token) || secret == ""
    ensures !Accepts(token, secret, nowMs, hmac)
  {
    if Blank(token) {
      TrimOfBlank(token);
      forall step ensures CodeAt(secret, hmac)(step) != "" {
        CodeHasSixDigits(secret, step, hmac);
      }
    }
  }

  lemma {:induction false} TrimOfBlank(s: string)
    requires Blank(s)
    ensures Trim(s) == ""
  {
    if s != "" {
      assert s[0] in s;
      WhitespaceIs(s[0]);
      assert forall c :: c in s[1..] ==> c in s;
      TrimOfBlank(s[1..]);
    }
  }
}
