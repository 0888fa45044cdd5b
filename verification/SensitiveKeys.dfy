/**
  Which keys redaction catches: those that spell a listed phrase, in any case and with any
  separators; and that no such key, and no comment a client may not see, is left at any depth.
*/
module SensitiveKeys {
  import opened Wrappers
  import opened Redaction
  import opened RedactionTheory

  // ---- spelling -------------------------------------------------------------------------------

  /** The characters that stand for a letter, digit or underscore, its case aside. */
  ghost predicate StandsFor(c: char, w: char) {
    || (c == w && ('a' <= w <= 'z' || '0' <= w <= '9' || w == '_'))
    || ('A' <= c <= 'Z' && 'a' <= w <= 'z' && c as int - 'A' as int == w as int - 'a' as int)
    || (c == '\U{212A}' && w == 'k')
    || (c == '\U{0130}' && w == 'i')
  }

  /** The key spells the word: read in order, its characters stand for those of the word, others aside. */
  ghost predicate Spells(key: string, word: string) {
    if key == "" then word == ""
    else if exists w :: StandsFor(key[0], w) then
      word != "" && StandsFor(key[0], word[0]) && Spells(key[1..], word[1..])
    else Spells(key[1..], word)
  }

  lemma StrippedOfConcat(a: string, b: string)
    ensures Stripped(a + b) == Stripped(a) + Stripped(b)
  {
    if a == "" {
      assert a + b == b;
    } else {
      StrippedOfConcat(a[1..], b);
      assert (a + b)[0] == a[0] && (a + b)[1..] == a[1..] + b;
      Regrouped(if KeyChar(a[0]) then [a[0]] else "", Stripped(a[1..]), Stripped(b));
    }
  }

  /** What one character leaves after lower-casing and stripping. */
  lemma CharLeaves(c: char)
    ensures (exists w :: StandsFor(c, w)) <==> Stripped(LowerChar(c)) != ""
    ensures |Stripped(LowerChar(c))| <= 1
    ensures forall w :: StandsFor(c, w) <==> Stripped(LowerChar(c)) == [w]
  {
    var dotted := "i\U{0307}";
    assert dotted[1..] == ['\U{0307}'] && ['\U{0307}'][1..] == "";
    assert Stripped(['\U{0307}']) == "" && Stripped(dotted) == "i";
    var lower := LowerChar(c);
    assert |lower| == 1 ==> lower[1..] == "";
    if Stripped(lower) != "" {
      assert StandsFor(c, Stripped(lower)[0]);
    }
  }

  lemma {:induction false} SpellsIff(key: string, word: string)
    ensures Spells(key, word) <==> Stripped(LowerCase(key)) == word
  {
    if key != "" {
      var c, rest := key[0], key[1..];
      CharLeaves(c);
      StrippedOfConcat(LowerChar(c), LowerCase(rest));
      if w :| StandsFor(c, w) {
        assert Stripped(LowerCase(key)) == [w] + Stripped(LowerCase(rest));
        if word != "" {
          SpellsIff(rest, word[1..]);
          assert word == [word[0]] + word[1..];
        }
      } else {
        SpellsIff(rest, word);
      }
    }
  }

  // ---- the listed phrases ---------------------------------------------------------------------

  /** The parts of a phrase run together, and with underscores between them. */
  function Two(a: string, b: string): set<string> {
    {a + b, a + "_" + b}
  }

  function Three(a: string, b: string, c: string): set<string> {
    {a + b + c, a + "_" + b + "_" + c}
  }

  function Four(a: string, b: string, c: string, d: string): set<string> {
    {a + b + c + d, a + "_" + b + "_" + c + "_" + d}
  }

  function CostWords(): set<string> {
    Two("unit", "cost") + Two("total", "cost") + Two("cost", "impact") + Two("subcontractor", "cost")
  }

  function MarginWords(): set<string> {
    Two("supplier", "margin") + Two("margin", "percent") + Two("internal", "margin")
    + Three("internal", "margin", "percent")
  }

  function RateWords(): set<string> {
    Two("markup", "percent") + Two("internal", "rate") + Two("buy", "rate") + Three("unit", "buy", "rate")
  }

  function PartyWords(): set<string> {
    Two("supplier", "name") + Two("supplier", "id") + Two("subcontractor", "name")
    + Three("contractor", "quote", "ref")
  }

  function NoteWords(): set<string> {
    Two("internal", "notes") + Two("commercial", "notes") + Two("internal", "remarks")
    + Three("internal", "rate", "cards")
  }

  function ProfitWords(): set<string> {
    Two("gross", "profit") + Two("profit", "margin") + Four("internal", "profit", "margin", "pct")
    + {"profit", "margin"}
  }

  /** Every word that redaction is to catch. */
  function ListedWords(): set<string> {
    CostWords() + MarginWords() + RateWords() + PartyWords() + NoteWords() + ProfitWords()
  }

  lemma TwoAre(a: string, b: string, joined: string, snake: string)
    requires joined == a + b && snake == a + "_" + b
    ensures Two(a, b) == {joined, snake}
  {
  }

  lemma ThreeAre(a: string, b: string, c: string, joined: string, snake: string)
    requires joined == a + b + c && snake == a + "_" + b + "_" + c
    ensures Three(a, b, c) == {joined, snake}
  {
  }

  lemma FourAre(a: string, b: string, c: string, d: string, joined: string, snake: string)
    requires joined == a + b + c + d && snake == a + "_" + b + "_" + c + "_" + d
    ensures Four(a, b, c, d) == {joined, snake}
  {
  }

  lemma CostWordsAre()
    ensures CostWords() == COST_KEYS
  {
    TwoAre("unit", "cost", "unitcost", "unit_cost");
    TwoAre("total", "cost", "totalcost", "total_cost");
    TwoAre("cost", "impact", "costimpact", "cost_impact");
    TwoAre("subcontractor", "cost", "subcontractorcost", "subcontractor_cost");
  }

  lemma MarginWordsAre()
    ensures MarginWords() == MARGIN_KEYS
  {
    TwoAre("supplier", "margin", "suppliermargin", "supplier_margin");
    TwoAre("margin", "percent", "marginpercent", "margin_percent");
    TwoAre("internal", "margin", "internalmargin", "internal_margin");
    ThreeAre("internal", "margin", "percent", "internalmarginpercent", "internal_margin_percent");
  }

  lemma RateWordsAre()
    ensures RateWords() == RATE_KEYS
  {
    TwoAre("markup", "percent", "markuppercent", "markup_percent");
    TwoAre("internal", "rate", "internalrate", "internal_rate");
    TwoAre("buy", "rate", "buyrate", "buy_rate");
    ThreeAre("unit", "buy", "rate", "unitbuyrate", "unit_buy_rate");
  }

  lemma PartyWordsAre()
    ensures PartyWords() == PARTY_KEYS
  {
    TwoAre("supplier", "name", "suppliername", "supplier_name");
    TwoAre("supplier", "id", "supplierid", "supplier_id");
    TwoAre("subcontractor", "name", "subcontractorname", "subcontractor_name");
    ThreeAre("contractor", "quote", "ref", "contractorquoteref", "contractor_quote_ref");
  }

  lemma NoteWordsAre()
    ensures NoteWords() == NOTE_KEYS
  {
    TwoAre("internal", "notes", "internalnotes", "internal_notes");
    TwoAre("commercial", "notes", "commercialnotes", "commercial_notes");
    TwoAre("internal", "remarks", "internalremarks", "internal_remarks");
    ThreeAre("internal", "rate", "cards", "internalratecards", "internal_rate_cards");
  }

  lemma ProfitWordsAre()
    ensures ProfitWords() == PROFIT_KEYS
  {
    TwoAre("gross", "profit", "grossprofit", "gross_profit");
    TwoAre("profit", "margin", "profitmargin", "profit_margin");
    PctWordsAre();
  }

  lemma PctWordsAre()
    ensures Four("internal", "profit", "margin", "pct") == {"internalprofitmarginpct", "internal_profit_margin_pct"}
  {
    FourAre("internal", "profit", "margin", "pct", "internalprofitmarginpct", "internal_profit_margin_pct");
  }

  lemma ListedWordsAre(word: string)
    ensures SensitiveWord(word) <==> word in ListedWords()
  {
    CostWordsAre();
    MarginWordsAre();
    RateWordsAre();
    PartyWordsAre();
    NoteWordsAre();
    ProfitWordsAre();
  }

  // ---- the keys that are caught ---------------------------------------------------------------

  predicate PlainWord(word: string) {
    forall i :: 0 <= i < |word| ==> 'a' <= word[i] <= 'z' || word[i] == '_'
  }

  lemma TwoArePlain(a: string, b: string)
    requires PlainWord(a) && PlainWord(b)
    ensures forall w :: w in Two(a, b) ==> PlainWord(w)
  {
  }

  lemma ThreeArePlain(a: string, b: string, c: string)
    requires PlainWord(a) && PlainWord(b) && PlainWord(c)
    ensures forall w :: w in Three(a, b, c) ==> PlainWord(w)
  {
  }

  lemma FourArePlain(a: string, b: string, c: string, d: string)
    requires PlainWord(a) && PlainWord(b) && PlainWord(c) && PlainWord(d)
    ensures forall w :: w in Four(a, b, c, d) ==> PlainWord(w)
  {
  }

  lemma CostWordsArePlain()
    ensures forall w :: w in CostWords() ==> PlainWord(w)
  {
    TwoArePlain("unit", "cost");
    TwoArePlain("total", "cost");
    TwoArePlain("cost", "impact");
    TwoArePlain("subcontractor", "cost");
  }

  lemma MarginWordsArePlain()
    ensures forall w :: w in MarginWords() ==> PlainWord(w)
  {
    TwoArePlain("supplier", "margin");
    TwoArePlain("margin", "percent");
    TwoArePlain("internal", "margin");
    ThreeArePlain("internal", "margin", "percent");
  }

  lemma RateWordsArePlain()
    ensures forall w :: w in RateWords() ==> PlainWord(w)
  {
    TwoArePlain("markup", "percent");
    TwoArePlain("internal", "rate");
    TwoArePlain("buy", "rate");
    ThreeArePlain("unit", "buy", "rate");
  }

  lemma PartyWordsArePlain()
    ensures forall w :: w in PartyWords() ==> PlainWord(w)
  {
    TwoArePlain("supplier", "name");
    TwoArePlain("supplier", "id");
    TwoArePlain("subcontractor", "name");
    ThreeArePlain("contractor", "quote", "ref");
  }

  lemma NoteWordsArePlain()
    ensures forall w :: w in NoteWords() ==> PlainWord(w)
  {
    TwoArePlain("internal", "notes");
    TwoArePlain("commercial", "notes");
    TwoArePlain("internal", "remarks");
    ThreeArePlain("internal", "rate", "cards");
  }

  lemma ProfitWordsArePlain()
    ensures forall w :: w in ProfitWords() ==> PlainWord(w)
  {
    TwoArePlain("gross", "profit");
    TwoArePlain("profit", "margin");
    FourArePlain("internal", "profit", "margin", "pct");
  }

  lemma ListedWordHasPlainLetters(word: string)
    requires word in ListedWords()
    ensures PlainWord(word)
  {
    if word in CostWords() {
      CostWordsArePlain();
    } else if word in MarginWords() {
      MarginWordsArePlain();
    } else if word in RateWords() {
      RateWordsArePlain();
    } else if word in PartyWords() {
      PartyWordsArePlain();
    } else if word in NoteWords() {
      NoteWordsArePlain();
    } else {
      ProfitWordsArePlain();
    }
  }

  lemma {:induction false} ListedWordIsPlain(word: string)
    requires word in ListedWords()
    ensures LowerCase(word) == word && Stripped(word) == word
  {
    ListedWordHasPlainLetters(word);
    LowerOfPlain(word);
  }

  /** A key is caught exactly when it spells a listed word. */
  lemma {:induction false} CaughtIff(key: string)
    ensures Sensitive(key) <==> exists word :: word in ListedWords() && Spells(key, word)
  {
    var lower, stripped := LowerCase(key), Stripped(LowerCase(key));
    ListedWordsAre(lower);
    ListedWordsAre(stripped);
    if lower in ListedWords() {
      ListedWordIsPlain(lower);
    }
    forall word ensures Spells(key, word) <==> stripped == word {
      SpellsIff(key, word);
    }
  }

  function Capital(word: string): string
    requires PlainWord(word) && word != "" && word[0] != '_'
  {
    [word[0] - 'a' + 'A'] + word[1..]
  }

  lemma {:induction false} PlainSpellsItself(word: string)
    requires PlainWord(word)
    ensures Spells(word, word)
  {
    if word != "" {
      assert StandsFor(word[0], word[0]);
      PlainSpellsItself(word[1..]);
    }
  }

  lemma {:induction false} SpellsInParts(a: string, u: string, b: string, v: string)
    requires Spells(a, u) && Spells(b, v)
    ensures Spells(a + b, u + v)
  {
    SpellsIff(a, u);
    SpellsIff(b, v);
    LowerOfConcat(a, b);
    StrippedOfConcat(LowerCase(a), LowerCase(b));
    SpellsIff(a + b, u + v);
  }

  /** The camel-case form of a listed word of two parts is caught, and so is the one with a capital in front. */
  lemma {:induction false} CamelCaseIsCaught(a: string, b: string)
    requires PlainWord(a) && a != "" && a[0] != '_' && PlainWord(b) && b != "" && b[0] != '_'
    requires a + b in ListedWords()
    ensures Sensitive(a + Capital(b)) && Sensitive(Capital(a) + Capital(b))
  {
    PlainSpellsItself(a);
    CapitalSpells(a);
    CapitalSpells(b);
    SpellsInParts(a, a, Capital(b), b);
    SpellsInParts(Capital(a), a, Capital(b), b);
    CaughtIff(a + Capital(b));
    CaughtIff(Capital(a) + Capital(b));
  }

  lemma {:induction false} CapitalSpells(word: string)
    requires PlainWord(word) && word != "" && word[0] != '_'
    ensures Spells(Capital(word), word)
  {
    assert StandsFor(Capital(word)[0], word[0]);
    assert Capital(word)[1..] == word[1..];
    PlainSpellsItself(word[1..]);
  }

  /** One camel-case key of each group. */
  lemma {:induction false} NamedKeysAreCaught()
    ensures Sensitive("unitCost") && Sensitive("supplierMargin") && Sensitive("buyRate")
    ensures Sensitive("supplierName") && Sensitive("internalNotes") && Sensitive("grossProfit")
  {
    UnitCostIsCaught();
    SupplierMarginIsCaught();
    BuyRateIsCaught();
    SupplierNameIsCaught();
    InternalNotesIsCaught();
    GrossProfitIsCaught();
  }

  lemma UnitCostIsCaught()
    ensures Sensitive("unitCost")
  {
    NamedKeyIsCaught("unit", "cost", "unitcost", "unitCost");
  }

  lemma SupplierMarginIsCaught()
    ensures Sensitive("supplierMargin")
  {
    NamedKeyIsCaught("supplier", "margin", "suppliermargin", "supplierMargin");
  }

  lemma BuyRateIsCaught()
    ensures Sensitive("buyRate")
  {
    NamedKeyIsCaught("buy", "rate", "buyrate", "buyRate");
  }

  lemma SupplierNameIsCaught()
    ensures Sensitive("supplierName")
  {
    NamedKeyIsCaught("supplier", "name", "suppliername", "supplierName");
  }

  lemma InternalNotesIsCaught()
    ensures Sensitive("internalNotes")
  {
    NamedKeyIsCaught("internal", "notes", "internalnotes", "internalNotes");
  }

  lemma GrossProfitIsCaught()
    ensures Sensitive("grossProfit")
  {
    NamedKeyIsCaught("gross", "profit", "grossprofit", "grossProfit");
  }

  lemma {:induction false} NamedKeyIsCaught(a: string, b: string, word: string, key: string)
    requires PlainWord(a) && a != "" && a[0] != '_' && PlainWord(b) && b != "" && b[0] != '_'
    requires word == a + b && SensitiveWord(word) && key == a + Capital(b)
    ensures Sensitive(key)
  {
    ListedWordsAre(word);
    CamelCaseIsCaught(a, b);
  }

  // ---- at any depth ---------------------------------------------------------------------------

  /** A tree within a tree: the whole, an item, or the value of a field, at any depth. */
  ghost predicate Within(part: Json, whole: Json)
    decreases whole
  {
    || part == whole
    || (whole.Arr? && exists i :: 0 <= i < |whole.items| && Within(part, whole.items[i]))
    || (whole.Obj? && exists i :: 0 <= i < |whole.fields| && Within(part, whole.fields[i].value))
  }

  lemma {:induction false} CleanWithin(part: Json, whole: Json)
    requires Clean(whole) && Within(part, whole)
    ensures Clean(part)
    decreases whole
  {
    if part != whole {
      if whole.Arr? {
        var i :| 0 <= i < |whole.items| && Within(part, whole.items[i]);
        CleanWithin(part, whole.items[i]);
      } else {
        var i :| 0 <= i < |whole.fields| && Within(part, whole.fields[i].value);
        CleanWithin(part, whole.fields[i].value);
      }
    }
  }

  /** A property that opens a comment to the client. */
  ghost predicate OpensToClient(f: Field) {
    || (f.key == "visibility" && f.value == Str("client_visible"))
    || (f.key == "isClientFacing" && f.value == Bool(true))
  }

  lemma {:induction false} PropertyIsField(fields: seq<Field>, key: string, value: Json)
    requires Property(fields, key) == Some(value)
    ensures exists f :: f in fields && f.key == key && f.value == value
  {
    if fields[0].key != key {
      PropertyIsField(fields[1..], key, value);
    }
  }

  lemma {:induction false} FieldIsProperty(fields: seq<Field>, f: Field)
    requires f in fields && forall i, j :: 0 <= i < j < |fields| ==> fields[i].key != fields[j].key
    ensures Property(fields, f.key) == Some(f.value)
  {
    assert fields == [fields[0]] + fields[1..];
    if fields[0] != f {
      FieldIsProperty(fields[1..], f);
    }
  }

  /** A comment is visible exactly when it is an object with such a property; keys of an object are distinct. */
  lemma {:induction false} VisibleIff(c: Json)
    requires c.Obj? ==> forall i, j :: 0 <= i < j < |c.fields| ==> c.fields[i].key != c.fields[j].key
    ensures ClientVisible(c) <==> c.Obj? && exists f :: f in c.fields && OpensToClient(f)
  {
    if ClientVisible(c) {
      VisibleHasOpening(c);
    }
    if c.Obj? && exists f :: f in c.fields && OpensToClient(f) {
      var f :| f in c.fields && OpensToClient(f);
      FieldIsProperty(c.fields, f);
    }
  }

  lemma {:induction false} VisibleHasOpening(c: Json)
    requires ClientVisible(c)
    ensures exists f :: f in c.fields && OpensToClient(f)
  {
    if Property(c.fields, VISIBILITY) == Some(Str("client_visible")) {
      PropertyIsField(c.fields, VISIBILITY, Str("client_visible"));
    } else {
      PropertyIsField(c.fields, IS_CLIENT_FACING, Bool(true));
    }
  }

  /**
    At no depth of a redacted document is there a field whose key spells a listed word, or a comment
    without a property that opens it to the client.
  */
  lemma {:induction false} NothingHiddenIsLeft(data: Json, part: Json, f: Field)
    requires Redact(data).Ok? && Within(part, Redact(data).value) && part.Obj? && f in part.fields
    ensures forall word :: word in ListedWords() ==> !Spells(f.key, word)
    ensures f.key == "comments" && f.value.Arr? ==>
              forall c :: c in f.value.items ==> c.Obj? && exists g :: g in c.fields && OpensToClient(g)
  {
    RedactionIsClean(data);
    CleanWithin(part, Redact(data).value);
    CaughtIff(f.key);
    var i :| 0 <= i < |part.fields| && part.fields[i] == f;
    if f.key == "comments" && f.value.Arr? {
      forall c | c in f.value.items ensures c.Obj? && exists g :: g in c.fields && OpensToClient(g) {
        VisibleHasOpening(c);
      }
    }
  }
}
