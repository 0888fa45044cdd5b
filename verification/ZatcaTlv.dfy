/**
  The e-invoice QR payload: `generateZatcaTlvBase64` of country-pack-engine.ts.

  Five tag-length-value records are put together and written in the Base64 of RFC 4648 section 4.
  A value is the UTF-8 form of its text; a length is one byte, so it is stored modulo 256.
*/
module ZatcaTlv {
  import opened BitText
  import opened Bytes
  import opened TextNumerals
  import opened Wrappers

  datatype InvoiceData = InvoiceData(
    sellerName: seq<Byte>, vatNumber: seq<Byte>, timestamp: seq<Byte>, invoiceTotal: seq<Byte>, vatTotal: seq<Byte>)

  datatype Record = Record(tag: Byte, value: seq<Byte>)

  function EncodeTlv(tag: Byte, value: seq<Byte>): seq<Byte> {
    [tag, |value| % 256] + value
  }

  function Payload(data: InvoiceData): seq<Byte> {
    EncodeTlv(1, data.sellerName) + EncodeTlv(2, data.vatNumber) + EncodeTlv(3, data.timestamp)
      + EncodeTlv(4, data.invoiceTotal) + EncodeTlv(5, data.vatTotal)
  }

  function GenerateZatcaTlvBase64(data: InvoiceData): string {
    Base64(Payload(data))
  }

  // ---- reading the records back -------------------------------------------------------------

  /** Walks the records of a payload; nothing when the last one is cut short. */
  function Records(payload: seq<Byte>): Option<seq<Record>>
    decreases |payload|
  {
    if payload == [] then Some([])
    else if |payload| < 2 then None
    else
      var end: int := payload[1];
      if |payload| < 2 + end then None else
        match Records(payload[2 + end..])
        case None => None
        case Some(rest) => Some([Record(payload[0], payload[2..2 + end])] + rest)
  }

  function Fields(data: InvoiceData): seq<Record> {
    [Record(1, data.sellerName), Record(2, data.vatNumber), Record(3, data.timestamp),
     Record(4, data.invoiceTotal), Record(5, data.vatTotal)]
  }

  /** Every length fits its byte. */
  predicate FitsLengths(data: InvoiceData) {
    forall i :: 0 <= i < 5 ==> |Fields(data)[i].value| < 256
  }

  /** The bytes of records, one after another. */
  function Joined(rs: seq<Record>): seq<Byte> {
    if rs == [] then [] else EncodeTlv(rs[0].tag, rs[0].value) + Joined(rs[1..])
  }

  lemma FirstIsRead(r: Record, rest: seq<Byte>)
    requires |r.value| < 256 && Records(rest).Some?
    ensures Records(EncodeTlv(r.tag, r.value) + rest) == Some([r] + Records(rest).value)
  {
    var payload := EncodeTlv(r.tag, r.value) + rest;
    assert payload[2..2 + |r.value|] == r.value && payload[2 + |r.value|..] == rest;
  }

  /** Any number of records with short values are read back. */
  lemma {:induction false} ShortRecordsAreRead(rs: seq<Record>)
    requires forall i :: 0 <= i < |rs| ==> |rs[i].value| < 256
    ensures Records(Joined(rs)) == Some(rs)
  {
    if rs != [] {
      ShortRecordsAreRead(rs[1..]);
      FirstIsRead(rs[0], Joined(rs[1..]));
      assert [rs[0]] + rs[1..] == rs;
    }
  }

  lemma {:induction false} RecordsAreShort(payload: seq<Byte>)
    requires Records(payload).Some?
    ensures forall r :: r in Records(payload).value ==> |r.value| < 256
    decreases |payload|
  {
    if payload != [] {
      var end: int := payload[1];
      RecordsAreShort(payload[2 + end..]);
    }
  }

  lemma JoinedFive(a: Record, b: Record, c: Record, d: Record, e: Record)
    ensures Joined([a, b, c, d, e]) == EncodeTlv(a.tag, a.value) + EncodeTlv(b.tag, b.value) + EncodeTlv(c.tag, c.value)
                                       + EncodeTlv(d.tag, d.value) + EncodeTlv(e.tag, e.value)
  {
    JoinedFront(a, [b, c, d, e]);
    JoinedFront(b, [c, d, e]);
    JoinedFront(c, [d, e]);
    JoinedFront(d, [e]);
    JoinedFront(e, []);
  }

  lemma JoinedFront(r: Record, rs: seq<Record>)
    ensures Joined([r] + rs) == EncodeTlv(r.tag, r.value) + Joined(rs)
  {
  }

  lemma PayloadIsJoined(data: InvoiceData)
    ensures Payload(data) == Joined(Fields(data))
  {
    JoinedFive(Record(1, data.sellerName), Record(2, data.vatNumber), Record(3, data.timestamp),
               Record(4, data.invoiceTotal), Record(5, data.vatTotal));
  }

  /** The walk recovers tags 1 to 5 and all five values exactly when every value has at most 255 bytes. */
  lemma FieldsAreReadIff(data: InvoiceData)
    ensures Records(Payload(data)) == Some(Fields(data)) <==> FitsLengths(data)
  {
    PayloadIsJoined(data);
    if FitsLengths(data) {
      ShortRecordsAreRead(Fields(data));
    }
    if Records(Payload(data)) == Some(Fields(data)) {
      RecordsAreShort(Payload(data));
    }
  }

  // ---- Base64 -----------------------------------------------------------------------------------

  const UPPER_LETTERS := "ABCDEFGHIJKLMNOPQRSTUVWXYZ"
  const LOWER_LETTERS := "abcdefghijklmnopqrstuvwxyz"
  const DECIMAL_DIGITS := "0123456789"

  /** The alphabet: capitals, small letters, digits, plus and slash. */
  function Char64(v: nat): char {
    if v < 26 then UPPER_LETTERS[v]
    else if v < 52 then LOWER_LETTERS[v - 26]
    else if v < 62 then DECIMAL_DIGITS[v - 52]
    else if v == 62 then '+' else if v == 63 then '/' else '='
  }

  /** The place of a character in the alphabet, or -1. */
  function Value64(c: char): (v: int)
    ensures -1 <= v < 64
  {
    if 'A' <= c <= 'Z' then (c - 'A') as int
    else if 'a' <= c <= 'z' then (c - 'a') as int + 26
    else if '0' <= c <= '9' then (c - '0') as int + 52
    else if c == '+' then 62 else if c == '/' then 63 else -1
  }

  /** RFC 4648 section 4: six bits to a character, filled up with '=' to whole groups of four. */
  function Base64(bytes: seq<Byte>): string {
    Symbols(ByteBits(bytes), 6, Char64) + Padding(|bytes|)
  }

  function Padding(n: nat): string {
    if n % 3 == 1 then "==" else if n % 3 == 2 then "=" else ""
  }

  function CharBits64(c: char): seq<bool> {
    if Value64(c) >= 0 then Bits(Value64(c), 6) else []
  }

  /** Whole bytes of the bits the characters carry. */
  function FromBase64(s: string): seq<Byte> {
    PackBytes(FlatMap(CharBits64, s))
  }

  lemma UpperLetter(i: nat)
    requires i < 26
    ensures UPPER_LETTERS[i] == 'A' + i as char
  {
  }

  lemma LowerLetter(i: nat)
    requires i < 26
    ensures LOWER_LETTERS[i] == 'a' + i as char
  {
  }

  lemma DecimalDigit(i: nat)
    requires i < 10
    ensures DECIMAL_DIGITS[i] == '0' + i as char
  {
  }

  lemma Value64OfChar(i: nat)
    requires i < 64
    ensures Value64(Char64(i)) == i
  {
    if i < 26 {
      UpperLetter(i);
    } else if i < 52 {
      LowerLetter(i - 26);
    } else if i < 62 {
      DecimalDigit(i - 52);
    }
  }

  lemma Base64IsRead()
    ensures Reads(6, Char64, CharBits64)
  {
    assert Pow2(3) == 8;
    assert Pow2(6) == 64;
    forall v: nat | v < 64 ensures CharBits64(Char64(v)) == Bits(v, 6) {
      Value64OfChar(v);
    }
  }

  lemma PaddingCarriesNothing(n: nat)
    ensures FlatMap(CharBits64, Padding(n)) == []
  {
    assert "=="[..1] == "=" && "="[..0] == "";
    assert CharBits64('=') == [];
  }

  /** Every byte string is read back from its Base64 text. */
  lemma Base64RoundTrip(bytes: seq<Byte>)
    ensures FromBase64(Base64(bytes)) == bytes
  {
    Base64IsRead();
    PaddingCarriesNothing(|bytes|);
    BytesAreRead(bytes, 6, Char64, CharBits64, Padding(|bytes|));
  }

  /** The written characters are the number of the bytes in base 64, with zero bits behind it. */
  lemma {:induction false} SymbolsAreNumeral(bytes: seq<Byte>) returns (symbols: string, extra: nat)
    ensures Base64(bytes) == symbols + Padding(|bytes|)
    ensures extra < 6 && 6 * |symbols| == 8 * |bytes| + extra
    ensures forall c :: c in symbols ==> Value64(c) >= 0
    ensures Numeral(ValuesOf(Value64, symbols), 64) == Numeral(bytes, 256) * Pow2(extra)
  {
    symbols := Symbols(ByteBits(bytes), 6, Char64);
    Base64IsRead();
    SixBits();
    extra := WrittenIsNumeral(bytes, 6, Char64, Value64, CharBits64);
  }

  lemma SixBits()
    ensures Pow2(6) == 64 && forall v: nat :: v < Pow2(6) ==> Value64(Char64(v)) == v
  {
    assert Pow2(3) == 8;
    assert Pow2(6) == 64;
    forall v: nat | v < 64 ensures Value64(Char64(v)) == v {
      Value64OfChar(v);
    }
  }

  lemma PaddingIs(n: nat, m: nat, extra: nat)
    requires extra < 6 && 6 * m == 8 * n + extra
    ensures m + |Padding(n)| == 4 * ((n + 2) / 3) && |Padding(n)| < 3
    ensures forall i :: 0 <= i < |Padding(n)| ==> Padding(n)[i] == '='
  {
  }

  /** A Base64 text: `n` digits of the number of the bytes, filled up by '=' to whole groups of four characters. */
  ghost predicate IsBase64(bytes: seq<Byte>, text: string, n: nat, extra: nat) {
    && |text| == 4 * ((|bytes| + 2) / 3) && n <= |text| < n + 3
    && (forall i :: 0 <= i < n ==> Value64(text[i]) >= 0)
    && (forall i :: n <= i < |text| ==> text[i] == '=')
    && extra < 6 && 6 * n == 8 * |bytes| + extra
    && Numeral(ValuesOf(Value64, text[..n]), 64) == Numeral(bytes, 256) * Pow2(extra)
  }

  /** So is every text that is written. */
  lemma {:induction false} Base64IsNumeral(bytes: seq<Byte>) returns (n: nat, extra: nat)
    ensures IsBase64(bytes, Base64(bytes), n, extra)
  {
    var symbols;
    symbols, extra := SymbolsAreNumeral(bytes);
    n := |symbols|;
    PaddingIs(|bytes|, n, extra);
    DigitsThenPadding(bytes, symbols, Padding(|bytes|), extra);
  }

  lemma DigitsThenPadding(bytes: seq<Byte>, symbols: string, padding: string, extra: nat)
    requires extra < 6 && 6 * |symbols| == 8 * |bytes| + extra
    requires forall c :: c in symbols ==> Value64(c) >= 0
    requires Numeral(ValuesOf(Value64, symbols), 64) == Numeral(bytes, 256) * Pow2(extra)
    requires |symbols| + |padding| == 4 * ((|bytes| + 2) / 3) && |padding| < 3
    requires forall i :: 0 <= i < |padding| ==> padding[i] == '='
    ensures IsBase64(bytes, symbols + padding, |symbols|, extra)
  {
    var text := symbols + padding;
    assert text[..|symbols|] == symbols;
    forall i | 0 <= i < |symbols| ensures Value64(text[i]) >= 0 {
      assert text[i] == symbols[i] && symbols[i] in symbols;
    }
  }

  // ---- the code as a whole ------------------------------------------------------------------------

  function Scanned(qr: string): Option<seq<Record>> {
    Records(FromBase64(qr))
  }

  /** Scanning the generated text gives the five fields exactly when every value has at most 255 bytes. */
  lemma ScanRecoversFieldsIff(data: InvoiceData)
    ensures Scanned(GenerateZatcaTlvBase64(data)) == Some(Fields(data)) <==> FitsLengths(data)
  {
    Base64RoundTrip(Payload(data));
    FieldsAreReadIff(data);
  }

  /** Two invoices whose values have at most 255 bytes never share a text. */
  lemma TextIsInjective(d: InvoiceData, e: InvoiceData)
    requires FitsLengths(d) && FitsLengths(e) && GenerateZatcaTlvBase64(d) == GenerateZatcaTlvBase64(e)
    ensures d == e
  {
    ScanRecoversFieldsIff(d);
    ScanRecoversFieldsIff(e);
    assert Fields(d) == Fields(e);
    assert Fields(d)[0] == Fields(e)[0] && Fields(d)[1] == Fields(e)[1] && Fields(d)[2] == Fields(e)[2]
        && Fields(d)[3] == Fields(e)[3] && Fields(d)[4] == Fields(e)[4];
  }

  const EMPTY_TAIL: seq<Byte> := [2, 0, 3, 0, 4, 0, 5, 0]

  /** With a 256-byte value two different invoices can share a text: its length is stored as zero. */
  lemma LongValuesCollide(filler: seq<Byte>)
    requires |filler| == 248
    ensures var d := InvoiceData(EMPTY_TAIL + filler, [], [], [], []);
      var e := InvoiceData([], [], [], [], filler + EMPTY_TAIL);
      d != e && GenerateZatcaTlvBase64(d) == GenerateZatcaTlvBase64(e)
  {
    var d := InvoiceData(EMPTY_TAIL + filler, [], [], [], []);
    var e := InvoiceData([], [], [], [], filler + EMPTY_TAIL);
    assert |d.sellerName| == 256 && |e.vatTotal| == 256;
    var whole := [1, 0] + EMPTY_TAIL + filler + EMPTY_TAIL;
    assert Payload(d) == whole by {
      assert EncodeTlv(1, d.sellerName) == [1, 0] + EMPTY_TAIL + filler;
    }
    assert Payload(e) == whole by {
      assert EncodeTlv(5, e.vatTotal) == [5, 0] + filler + EMPTY_TAIL;
    }
    assert d.sellerName != e.sellerName;
  }

  /** No value of the invoice has more than `n` bytes. */
  predicate ValuesWithin(data: InvoiceData, n: int) {
    forall i :: 0 <= i < 5 ==> |Fields(data)[i].value| <= n
  }

  /** Invoices whose values have at most `n` bytes all have texts of their own. */
  ghost predicate TextsDiffer(n: int) {
    forall d, e ::
      ValuesWithin(d, n) && ValuesWithin(e, n) && GenerateZatcaTlvBase64(d) == GenerateZatcaTlvBase64(e) ==> d == e
  }

  /** A text stands for one invoice exactly as long as values are held to 255 bytes. */
  lemma TextsDifferIff(n: int)
    ensures TextsDiffer(n) <==> n <= 255
  {
    if n <= 255 {
      forall d, e | ValuesWithin(d, n) && ValuesWithin(e, n) && GenerateZatcaTlvBase64(d) == GenerateZatcaTlvBase64(e)
        ensures d == e
      {
        TextIsInjective(d, e);
      }
    } else {
      var d, e := CollidingPair();
      assert ValuesWithin(d, n) && ValuesWithin(e, n);
    }
  }

  lemma CollidingPair() returns (d: InvoiceData, e: InvoiceData)
    ensures ValuesWithin(d, 256) && ValuesWithin(e, 256)
    ensures d != e && GenerateZatcaTlvBase64(d) == GenerateZatcaTlvBase64(e)
  {
    var filler: seq<Byte> := seq(248, _ => 32);
    LongValuesCollide(filler);
    d, e := InvoiceData(EMPTY_TAIL + filler, [], [], [], []), InvoiceData([], [], [], [], filler + EMPTY_TAIL);
  }
}
