/**
  Redaction of documents for client distribution: `redactDocumentForClientDistribution` of
  documents.ts.

  A document is a JSON tree; an object is its list of fields in insertion order.  Looking up a
  property of a null or undefined comment throws.
*/
module Redaction {
  import opened Wrappers

  datatype Json =
    | Null
    | Undefined
    | Bool(b: bool)
    | Number(n: real)
    | Str(s: string)
    | Arr(items: seq<Json>)
    | Obj(fields: seq<Field>)

  datatype Field = Field(key: string, value: Json)

  datatype RedactionError = NullComment

  const COST_KEYS := {
    "unitcost", "unit_cost", "totalcost", "total_cost", "costimpact", "cost_impact",
    "subcontractorcost", "subcontractor_cost"
  }
  const MARGIN_KEYS := {
    "suppliermargin", "supplier_margin", "marginpercent", "margin_percent",
    "internalmargin", "internal_margin", "internalmarginpercent", "internal_margin_percent"
  }
  const RATE_KEYS := {
    "markuppercent", "markup_percent", "internalrate", "internal_rate",
    "buyrate", "buy_rate", "unitbuyrate", "unit_buy_rate"
  }
  const PARTY_KEYS := {
    "suppliername", "supplier_name", "supplierid", "supplier_id", "subcontractorname", "subcontractor_name",
    "contractorquoteref", "contractor_quote_ref"
  }
  const NOTE_KEYS := {
    "internalnotes", "internal_notes", "commercialnotes", "commercial_notes",
    "internalremarks", "internal_remarks", "internalratecards", "internal_rate_cards"
  }
  const PROFIT_KEYS := {
    "grossprofit", "gross_profit", "profitmargin", "profit_margin",
    "internalprofitmarginpct", "internal_profit_margin_pct", "profit", "margin"
  }

  predicate SensitiveWord(word: string) {
    word in COST_KEYS || word in MARGIN_KEYS || word in RATE_KEYS
    || word in PARTY_KEYS || word in NOTE_KEYS || word in PROFIT_KEYS
  }

  /** The lower case of a character; of the others outside ASCII none becomes an ASCII letter. */
  function LowerChar(c: char): string {
    if 'A' <= c <= 'Z' then [c - 'A' + 'a']
    else if c == '\U{212A}' then "k"
    else if c == '\U{0130}' then "i\U{0307}"
    else [c]
  }

  function LowerCase(key: string): string {
    if key == "" then "" else LowerChar(key[0]) + LowerCase(key[1..])
  }

  predicate KeyChar(c: char) {
    'a' <= c <= 'z' || '0' <= c <= '9' || c == '_'
  }

  /** Drops every character outside a-z, 0-9 and underscore. */
  function Stripped(key: string): string {
    if key == "" then "" else (if KeyChar(key[0]) then [key[0]] else "") + Stripped(key[1..])
  }

  predicate Sensitive(key: string) {
    SensitiveWord(Stripped(LowerCase(key))) || SensitiveWord(LowerCase(key))
  }

  function Property(fields: seq<Field>, key: string): Option<Json> {
    if fields == [] then None
    else if fields[0].key == key then Some(fields[0].value)
    else Property(fields[1..], key)
  }

  const VISIBILITY := "visibility"
  const IS_CLIENT_FACING := "isClientFacing"

  predicate Nullish(j: Json) {
    j.Null? || j.Undefined?
  }

  predicate ClientVisible(c: Json) {
    && c.Obj?
    && (Property(c.fields, VISIBILITY) == Some(Str("client_visible"))
        || Property(c.fields, IS_CLIENT_FACING) == Some(Bool(true)))
  }

  // ---- the transformation -------------------------------------------------------------------

  function Redact(j: Json): Result<Json, RedactionError>
    decreases j, 0
  {
    match j
    case Arr(items) =>
      (match RedactAll(items) case Err(e) => Err(e) case Ok(rs) => Ok(Arr(rs)))
    case Obj(fields) =>
      (match RedactFields(fields) case Err(e) => Err(e) case Ok(fs) => Ok(Obj(fs)))
    case _ => Ok(j)
  }

  function RedactAll(items: seq<Json>): Result<seq<Json>, RedactionError>
    decreases items, 1
  {
    if items == [] then Ok([]) else
      match Redact(items[0])
      case Err(e) => Err(e)
      case Ok(r) => match RedactAll(items[1..]) case Err(e) => Err(e) case Ok(rs) => Ok([r] + rs)
  }

  /** Keeps and redacts the client-visible comments; throws on a null one. */
  function RedactComments(items: seq<Json>): Result<seq<Json>, RedactionError>
    decreases items, 1
  {
    if items == [] then Ok([])
    else if Nullish(items[0]) then Err(NullComment)
    else if !ClientVisible(items[0]) then RedactComments(items[1..])
    else
      match Redact(items[0])
      case Err(e) => Err(e)
      case Ok(r) => match RedactComments(items[1..]) case Err(e) => Err(e) case Ok(rs) => Ok([r] + rs)
  }

  function RedactValue(key: string, value: Json): Result<Json, RedactionError>
    decreases value, 2
  {
    if key == "comments" && value.Arr? then
      match RedactComments(value.items) case Err(e) => Err(e) case Ok(rs) => Ok(Arr(rs))
    else
      Redact(value)
  }

  function RedactFields(fields: seq<Field>): Result<seq<Field>, RedactionError>
    decreases fields, 1
  {
    if fields == [] then Ok([])
    else if Sensitive(fields[0].key) then RedactFields(fields[1..])
    else
      match RedactValue(fields[0].key, fields[0].value)
      case Err(e) => Err(e)
      case Ok(v) =>
        match RedactFields(fields[1..])
        case Err(e) => Err(e)
        case Ok(fs) => Ok([Field(fields[0].key, v)] + fs)
  }

  // ---- what it should do ----------------------------------------------------------------------

  /** Nothing a client may not see is left: no sensitive key and no hidden comment, at any depth. */
  ghost predicate Clean(j: Json)
    decreases j, 0
  {
    match j
    case Arr(items) => forall i :: 0 <= i < |items| ==> Clean(items[i])
    case Obj(fields) => forall i :: 0 <= i < |fields| ==>
      && !Sensitive(fields[i].key)
      && Clean(fields[i].value)
      && (fields[i].key == "comments" && fields[i].value.Arr? ==>
            forall k :: 0 <= k < |fields[i].value.items| ==> ClientVisible(fields[i].value.items[k]))
    case _ => true
  }

  /** Tree `b` is tree `a` with some sensitive fields and some hidden comments deleted, at any depth. */
  ghost predicate Hides(a: Json, b: Json)
    decreases a, 0
  {
    match a
    case Arr(items) => b.Arr? && HidesEach(items, b.items)
    case Obj(fields) => b.Obj? && HidesFields(fields, b.fields)
    case _ => b == a
  }

  ghost predicate HidesEach(a: seq<Json>, b: seq<Json>)
    decreases a, 1
  {
    if a == [] then b == [] else b != [] && Hides(a[0], b[0]) && HidesEach(a[1..], b[1..])
  }

  ghost predicate HidesComments(a: seq<Json>, b: seq<Json>)
    decreases a, 1
  {
    if a == [] then b == [] else
      || (!ClientVisible(a[0]) && HidesComments(a[1..], b))
      || (b != [] && Hides(a[0], b[0]) && HidesComments(a[1..], b[1..]))
  }

  ghost predicate HidesValue(key: string, a: Json, b: Json)
    decreases a, 2
  {
    if key == "comments" && a.Arr? then b.Arr? && HidesComments(a.items, b.items) else Hides(a, b)
  }

  ghost predicate HidesFields(a: seq<Field>, b: seq<Field>)
    decreases a, 1
  {
    if a == [] then b == [] else
      || (Sensitive(a[0].key) && HidesFields(a[1..], b))
      || (b != [] && b[0].key == a[0].key && HidesValue(a[0].key, a[0].value, b[0].value)
          && HidesFields(a[1..], b[1..]))
  }

  // ---- the loops --------------------------------------------------------------------------------

  function VisibleOnes(items: seq<Json>): (vs: seq<Json>)
    ensures forall v :: v in vs ==> v in items
  {
    if items == [] then [] else (if ClientVisible(items[0]) then [items[0]] else []) + VisibleOnes(items[1..])
  }

  lemma {:induction false} NullCommentThrows(items: seq<Json>)
    requires exists c :: c in items && Nullish(c)
    ensures RedactComments(items).Err?
  {
    if !Nullish(items[0]) {
      var c :| c in items && Nullish(c);
      assert items == [items[0]] + items[1..];
      assert c in items[1..];
      NullCommentThrows(items[1..]);
    }
  }

  lemma {:induction false} CommentsAreFilteredThenRedacted(items: seq<Json>)
    requires forall c :: c in items ==> !Nullish(c)
    ensures RedactComments(items) == RedactAll(VisibleOnes(items))
  {
    if items != [] {
      CommentsAreFilteredThenRedacted(items[1..]);
      assert items[0] in items;
      if ClientVisible(items[0]) {
        assert VisibleOnes(items)[0] == items[0] && VisibleOnes(items)[1..] == VisibleOnes(items[1..]);
      } else {
        assert VisibleOnes(items) == VisibleOnes(items[1..]);
      }
    }
  }

  lemma {:induction false} RedactAllStep(done: seq<Json>, item: Json)
    requires RedactAll(done).Ok?
    ensures RedactAll(done + [item]) ==
            match Redact(item) case Err(e) => Err(e) case Ok(r) => Ok(RedactAll(done).value + [r])
  {
    if done == [] {
      assert done + [item] == [item] && [item][1..] == [];
      if Redact(item).Ok? {
        var none: seq<Json>, r := [], Redact(item).value;
        assert [r] + none == none + [r];
      }
    } else {
      RedactAllStep(done[1..], item);
      assert (done + [item])[1..] == done[1..] + [item];
      if Redact(item).Ok? {
        var r0, rs, r := Redact(done[0]).value, RedactAll(done[1..]).value, Redact(item).value;
        assert [r0] + (rs + [r]) == ([r0] + rs) + [r];
      }
    }
  }

  lemma {:induction false} RedactFieldsStep(done: seq<Field>, f: Field)
    requires RedactFields(done).Ok?
    ensures RedactFields(done + [f]) ==
            if Sensitive(f.key) then RedactFields(done) else
              match RedactValue(f.key, f.value)
              case Err(e) => Err(e)
              case Ok(v) => Ok(RedactFields(done).value + [Field(f.key, v)])
  {
    if done == [] {
      assert done + [f] == [f] && [f][1..] == [];
      if RedactValue(f.key, f.value).Ok? {
        var none: seq<Field>, f1 := [], Field(f.key, RedactValue(f.key, f.value).value);
        assert [f1] + none == none + [f1];
      }
    } else {
      RedactFieldsStep(done[1..], f);
      assert (done + [f])[1..] == done[1..] + [f];
      if !Sensitive(f.key) && !Sensitive(done[0].key) && RedactValue(f.key, f.value).Ok? {
        var f0 := Field(done[0].key, RedactValue(done[0].key, done[0].value).value);
        var fs, f1 := RedactFields(done[1..]).value, Field(f.key, RedactValue(f.key, f.value).value);
        assert [f0] + (fs + [f1]) == ([f0] + fs) + [f1];
      }
    }
  }

  lemma {:induction false} ErrorsStay(done: seq<Json>, rest: seq<Json>)
    requires RedactAll(done).Err?
    ensures RedactAll(done + rest) == RedactAll(done)
  {
    assert (done + rest)[1..] == done[1..] + rest;
    if Redact(done[0]).Ok? {
      ErrorsStay(done[1..], rest);
    }
  }

  lemma {:induction false} FieldErrorsStay(done: seq<Field>, rest: seq<Field>)
    requires RedactFields(done).Err?
    ensures RedactFields(done + rest) == RedactFields(done)
  {
    assert (done + rest)[1..] == done[1..] + rest;
    if Sensitive(done[0].key) || RedactValue(done[0].key, done[0].value).Ok? {
      FieldErrorsStay(done[1..], rest);
    }
  }

  method FilterVisible(items: seq<Json>) returns (r: Result<seq<Json>, RedactionError>)
    ensures r.Err? <==> exists c :: c in items && Nullish(c)
    ensures r.Ok? ==> r.value == VisibleOnes(items)
  {
    var visible := [];
    for i := 0 to |items|
      invariant forall k :: 0 <= k < i ==> !Nullish(items[k])
      invariant VisibleOnes(items) == visible + VisibleOnes(items[i..])
    {
      assert items[i..][1..] == items[i + 1..];
      assert items[i] in items;
      if Nullish(items[i]) {
        return Err(NullComment);
      }
      if ClientVisible(items[i]) {
        visible := visible + [items[i]];
      }
    }
    r := Ok(visible);
  }

  method MapRedact(items: seq<Json>, ghost whole: Json) returns (r: Result<seq<Json>, RedactionError>)
    requires forall k :: 0 <= k < |items| ==> (whole decreases to items[k])
    ensures r == RedactAll(items)
    decreases whole, 0
  {
    var results := [];
    for i := 0 to |items|
      invariant RedactAll(items[..i]) == Ok(results)
    {
      RedactAllStep(items[..i], items[i]);
      assert items[..i + 1] == items[..i] + [items[i]];
      var redacted := RedactDocument(items[i]);
      if redacted.Err? {
        ErrorsStay(items[..i + 1], items[i + 1..]);
        assert items[..i + 1] + items[i + 1..] == items;
        return Err(redacted.error);
      }
      results := results + [redacted.value];
    }
    assert items[..|items|] == items;
    r := Ok(results);
  }

  /** The value kept under a key: comments are filtered first. */
  method RedactFieldValue(key: string, value: Json) returns (r: Result<Json, RedactionError>)
    ensures r == RedactValue(key, value)
    decreases value, 2
  {
    if key == "comments" && value.Arr? {
      var visible := FilterVisible(value.items);
      if visible.Err? {
        NullCommentThrows(value.items);
        assert RedactComments(value.items).error == NullComment == visible.error;
        return Err(visible.error);
      }
      CommentsAreFilteredThenRedacted(value.items);
      forall k | 0 <= k < |visible.value| ensures value decreases to visible.value[k] {
        assert visible.value[k] in value.items;
      }
      var comments := MapRedact(visible.value, value);
      return if comments.Err? then Err(comments.error) else Ok(Arr(comments.value));
    }
    r := RedactDocument(value);
  }

  lemma TakeAndDrop<T>(s: seq<T>, i: nat)
    requires i <= |s|
    ensures s[..i] + s[i..] == s
  {
  }

  method RedactObject(fields: seq<Field>, ghost whole: Json) returns (r: Result<seq<Field>, RedactionError>)
    requires whole == Obj(fields)
    ensures r == RedactFields(fields)
    decreases whole, 0
  {
    var result: seq<Field> := [];
    for i := 0 to |fields|
      invariant RedactFields(fields[..i]) == Ok(result)
    {
      RedactFieldsStep(fields[..i], fields[i]);
      assert fields[..i + 1] == fields[..i] + [fields[i]];
      if Sensitive(fields[i].key) {
        continue;
      }
      var value := RedactFieldValue(fields[i].key, fields[i].value);
      if value.Err? {
        FieldErrorsStay(fields[..i + 1], fields[i + 1..]);
        TakeAndDrop(fields, i + 1);
        return Err(value.error);
      }
      result := result + [Field(fields[i].key, value.value)];
    }
    assert fields[..|fields|] == fields;
    r := Ok(result);
  }

  method RedactDocument(data: Json) returns (r: Result<Json, RedactionError>)
    ensures r == Redact(data)
    decreases data, 1
  {
    match data
    case Arr(items) =>
      var redacted := MapRedact(items, data);
      r := if redacted.Err? then Err(redacted.error) else Ok(Arr(redacted.value));
    case Obj(fields) =>
      var redacted := RedactObject(fields, data);
      r := if redacted.Err? then Err(redacted.error) else Ok(Obj(redacted.value));
    case _ =>
      r := Ok(data);
  }
}
