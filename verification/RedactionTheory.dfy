/**
  What redaction achieves: it is the one way to delete hidden parts of a document until none is
  left, so it leaves nothing hidden, changes nothing else, is idempotent, and tells apart exactly
  the documents a client could tell apart.
*/
module RedactionTheory {
  import opened Wrappers
  import opened Redaction

  // ---- the keys that decide whether a comment is visible ------------------------------------

  lemma {:induction false} LowerOfPlain(key: string)
    requires forall i :: 0 <= i < |key| ==> KeyChar(key[i])
    ensures LowerCase(key) == key && Stripped(key) == key
  {
    if key != "" {
      LowerOfPlain(key[1..]);
    }
  }

  lemma Regrouped(a: string, b: string, c: string)
    ensures a + (b + c) == (a + b) + c
  {
  }

  lemma {:induction false} LowerOfConcat(a: string, b: string)
    ensures LowerCase(a + b) == LowerCase(a) + LowerCase(b)
  {
    if a == "" {
      assert a + b == b;
    } else {
      LowerOfConcat(a[1..], b);
      assert (a + b)[1..] == a[1..] + b;
      Regrouped(LowerChar(a[0]), LowerCase(a[1..]), LowerCase(b));
    }
  }

  /** No sensitive word starts with "v" or has "s" as its second letter. */
  lemma NotASensitiveWord(word: string)
    requires |word| > 1 && (word[0] == 'v' || word[1] == 's')
    ensures !SensitiveWord(word)
  {
  }

  lemma PlainKeyIsKept(key: string)
    requires |key| > 1 && key[0] == 'v' && forall i :: 0 <= i < |key| ==> KeyChar(key[i])
    ensures !Sensitive(key)
  {
    LowerOfPlain(key);
    NotASensitiveWord(key);
  }

  lemma LowerOfUpper(c: char, rest: string, whole: string)
    requires 'A' <= c <= 'Z' && whole == [c] + rest
    ensures LowerCase(whole) == [c - 'A' + 'a'] + LowerCase(rest)
  {
  }

  /** A key of three plain parts joined by two capitals. */
  lemma CamelKeyIsKept(a: string, c: char, b: string, d: char, e: string, key: string)
    requires forall i :: 0 <= i < |a| ==> KeyChar(a[i])
    requires forall i :: 0 <= i < |b| ==> KeyChar(b[i])
    requires forall i :: 0 <= i < |e| ==> KeyChar(e[i])
    requires 'A' <= c <= 'Z' && 'A' <= d <= 'Z' && |a| > 1 && a[1] == 's'
    requires key == a + ([c] + (b + ([d] + e)))
    ensures !Sensitive(key)
  {
    LowerOfPlain(a);
    LowerOfPlain(b);
    LowerOfPlain(e);
    LowerOfUpper(d, e, [d] + e);
    LowerOfConcat(b, [d] + e);
    LowerOfUpper(c, b + ([d] + e), [c] + (b + ([d] + e)));
    LowerOfConcat(a, [c] + (b + ([d] + e)));
    var lower := a + ([c - 'A' + 'a'] + (b + ([d - 'A' + 'a'] + e)));
    assert LowerCase(key) == lower;
    LowerOfPlain(lower);
    NotASensitiveWord(lower);
  }

  /** The properties that make a comment visible are not themselves sensitive. */
  lemma VisibilityIsKept()
    ensures !Sensitive(VISIBILITY)
  {
    PlainKeyIsKept(VISIBILITY);
  }

  lemma {:induction false} FacingIsKept()
    ensures !Sensitive(IS_CLIENT_FACING)
  {
    CamelKeyIsKept("is", 'C', "lient", 'F', "acing", IS_CLIENT_FACING);
  }

  /** Deleting hidden parts keeps every plain property whose key is not sensitive. */
  lemma {:induction false} PropertyStays(a: seq<Field>, b: seq<Field>, key: string, v: Json)
    requires HidesFields(a, b) && !Sensitive(key) && (v.Str? || v.Bool?)
    ensures Property(a, key) == Some(v) <==> Property(b, key) == Some(v)
    decreases |a|
  {
    if a != [] {
      if Sensitive(a[0].key) && HidesFields(a[1..], b) {
        PropertyStays(a[1..], b, key, v);
      } else {
        PropertyStays(a[1..], b[1..], key, v);
        PlainValueStays(a[0].key, a[0].value, b[0].value, v);
      }
    }
  }

  lemma {:induction false} PlainValueStays(key: string, a: Json, b: Json, v: Json)
    requires HidesValue(key, a, b) && (v.Str? || v.Bool?)
    ensures a == v <==> b == v
  {
  }

  lemma {:induction false} VisibilityStays(a: Json, b: Json)
    requires Hides(a, b)
    ensures ClientVisible(a) <==> ClientVisible(b)
  {
    VisibilityIsKept();
    FacingIsKept();
    if a.Obj? {
      PropertyStays(a.fields, b.fields, VISIBILITY, Str("client_visible"));
      PropertyStays(a.fields, b.fields, IS_CLIENT_FACING, Bool(true));
    }
  }

  // ---- redaction deletes hidden parts only, and all of them -----------------------------------

  lemma {:induction false} RedactionHides(a: Json)
    requires Redact(a).Ok?
    ensures Hides(a, Redact(a).value)
    decreases a, 0
  {
    match a
    case Arr(items) => RedactAllHides(items);
    case Obj(fields) => RedactFieldsHides(fields);
    case _ =>
  }

  lemma {:induction false} RedactAllHides(items: seq<Json>)
    requires RedactAll(items).Ok?
    ensures HidesEach(items, RedactAll(items).value)
    decreases items, 1
  {
    if items != [] {
      RedactionHides(items[0]);
      RedactAllHides(items[1..]);
      assert RedactAll(items).value[1..] == RedactAll(items[1..]).value;
    }
  }

  lemma {:induction false} RedactCommentsHides(items: seq<Json>)
    requires RedactComments(items).Ok?
    ensures HidesComments(items, RedactComments(items).value)
    decreases items, 1
  {
    if items != [] {
      RedactCommentsHides(items[1..]);
      if ClientVisible(items[0]) {
        RedactionHides(items[0]);
        assert RedactComments(items).value[1..] == RedactComments(items[1..]).value;
      }
    }
  }

  lemma {:induction false} RedactFieldsHides(fields: seq<Field>)
    requires RedactFields(fields).Ok?
    ensures HidesFields(fields, RedactFields(fields).value)
    decreases fields, 1
  {
    if fields != [] {
      RedactFieldsHides(fields[1..]);
      if !Sensitive(fields[0].key) {
        var key, value := fields[0].key, fields[0].value;
        if key == "comments" && value.Arr? {
          RedactCommentsHides(value.items);
        } else {
          RedactionHides(value);
        }
        assert RedactFields(fields).value[1..] == RedactFields(fields[1..]).value;
      }
    }
  }

  lemma {:induction false} RedactionIsClean(a: Json)
    requires Redact(a).Ok?
    ensures Clean(Redact(a).value)
    decreases a, 0
  {
    match a
    case Arr(items) => RedactAllIsClean(items);
    case Obj(fields) => RedactFieldsIsClean(fields);
    case _ =>
  }

  lemma {:induction false} RedactAllIsClean(items: seq<Json>)
    requires RedactAll(items).Ok?
    ensures forall i :: 0 <= i < |RedactAll(items).value| ==> Clean(RedactAll(items).value[i])
    decreases items, 1
  {
    if items != [] {
      RedactionIsClean(items[0]);
      RedactAllIsClean(items[1..]);
    }
  }

  lemma {:induction false} RedactCommentsIsClean(items: seq<Json>)
    requires RedactComments(items).Ok?
    ensures forall i :: 0 <= i < |RedactComments(items).value| ==>
              Clean(RedactComments(items).value[i]) && ClientVisible(RedactComments(items).value[i])
    decreases items, 1
  {
    if items != [] {
      RedactCommentsIsClean(items[1..]);
      if ClientVisible(items[0]) {
        RedactionIsClean(items[0]);
        RedactionHides(items[0]);
        VisibilityStays(items[0], Redact(items[0]).value);
      }
    }
  }

  ghost predicate CleanField(f: Field) {
    && !Sensitive(f.key)
    && Clean(f.value)
    && (f.key == "comments" && f.value.Arr? ==>
          forall k :: 0 <= k < |f.value.items| ==> ClientVisible(f.value.items[k]))
  }

  lemma {:induction false} RedactFieldsIsClean(fields: seq<Field>)
    requires RedactFields(fields).Ok?
    ensures forall i :: 0 <= i < |RedactFields(fields).value| ==> CleanField(RedactFields(fields).value[i])
    decreases fields, 1
  {
    if fields != [] {
      RedactFieldsIsClean(fields[1..]);
      if !Sensitive(fields[0].key) {
        var key, value := fields[0].key, fields[0].value;
        if key == "comments" && value.Arr? {
          RedactCommentsIsClean(value.items);
        } else {
          RedactionIsClean(value);
          assert Redact(value).value.Arr? ==> value.Arr?;
        }
      }
    }
  }

  // ---- clean trees are left alone -----------------------------------------------------------------

  lemma {:induction false} CleanIsFixed(b: Json)
    requires Clean(b)
    ensures Redact(b) == Ok(b)
    decreases b, 0
  {
    match b
    case Arr(items) => CleanItemsAreFixed(items);
    case Obj(fields) => CleanFieldsAreFixed(fields);
    case _ =>
  }

  lemma {:induction false} CleanItemsAreFixed(items: seq<Json>)
    requires forall i :: 0 <= i < |items| ==> Clean(items[i])
    ensures RedactAll(items) == Ok(items)
    decreases items, 1
  {
    if items != [] {
      CleanIsFixed(items[0]);
      CleanItemsAreFixed(items[1..]);
      assert [items[0]] + items[1..] == items;
    }
  }

  lemma {:induction false} CleanCommentsAreFixed(items: seq<Json>)
    requires forall i :: 0 <= i < |items| ==> Clean(items[i]) && ClientVisible(items[i])
    ensures RedactComments(items) == Ok(items)
    decreases items, 1
  {
    if items != [] {
      CleanIsFixed(items[0]);
      CleanCommentsAreFixed(items[1..]);
      assert [items[0]] + items[1..] == items;
    }
  }

  lemma {:induction false} CleanFieldsAreFixed(fields: seq<Field>)
    requires forall i :: 0 <= i < |fields| ==> CleanField(fields[i])
    ensures RedactFields(fields) == Ok(fields)
    decreases fields, 1
  {
    if fields != [] {
      assert CleanField(fields[0]);
      var value := fields[0].value;
      if fields[0].key == "comments" && value.Arr? {
        CleanCommentsAreFixed(value.items);
      } else {
        CleanIsFixed(value);
      }
      CleanFieldsAreFixed(fields[1..]);
      assert [Field(fields[0].key, fields[0].value)] + fields[1..] == fields;
    }
  }

  // ---- hidden parts do not matter -----------------------------------------------------------------

  lemma {:induction false} HiddenPartsDoNotMatter(a: Json, b: Json)
    requires Hides(a, b) && Redact(a).Ok?
    ensures Redact(b) == Redact(a)
    decreases a, 0
  {
    match a
    case Arr(items) => EachDoesNotMatter(items, b.items);
    case Obj(fields) => FieldsDoNotMatter(fields, b.fields);
    case _ =>
  }

  lemma {:induction false} EachDoesNotMatter(a: seq<Json>, b: seq<Json>)
    requires HidesEach(a, b) && RedactAll(a).Ok?
    ensures RedactAll(b) == RedactAll(a)
    decreases a, 1
  {
    if a != [] {
      HiddenPartsDoNotMatter(a[0], b[0]);
      EachDoesNotMatter(a[1..], b[1..]);
    }
  }

  lemma {:induction false} CommentsDoNotMatter(a: seq<Json>, b: seq<Json>)
    requires HidesComments(a, b) && RedactComments(a).Ok?
    ensures RedactComments(b) == RedactComments(a)
    decreases a, 1
  {
    if a != [] {
      if !ClientVisible(a[0]) && HidesComments(a[1..], b) {
        CommentsDoNotMatter(a[1..], b);
      } else {
        CommentsDoNotMatter(a[1..], b[1..]);
        VisibilityStays(a[0], b[0]);
        if ClientVisible(a[0]) {
          HiddenPartsDoNotMatter(a[0], b[0]);
        }
      }
    }
  }

  lemma {:induction false} FieldsDoNotMatter(a: seq<Field>, b: seq<Field>)
    requires HidesFields(a, b) && RedactFields(a).Ok?
    ensures RedactFields(b) == RedactFields(a)
    decreases a, 1
  {
    if a != [] {
      if Sensitive(a[0].key) && HidesFields(a[1..], b) {
        FieldsDoNotMatter(a[1..], b);
      } else {
        FieldsDoNotMatter(a[1..], b[1..]);
        if !Sensitive(a[0].key) {
          ValueDoesNotMatter(a[0].key, a[0].value, b[0].value);
        }
      }
    }
  }

  lemma {:induction false} ValueDoesNotMatter(key: string, a: Json, b: Json)
    requires HidesValue(key, a, b) && RedactValue(key, a).Ok?
    ensures RedactValue(key, b) == RedactValue(key, a)
    decreases a, 2
  {
    if key == "comments" && a.Arr? {
      CommentsDoNotMatter(a.items, b.items);
    } else {
      HiddenPartsDoNotMatter(a, b);
      assert b.Arr? <==> a.Arr?;
    }
  }

  // ---- main results ---------------------------------------------------------------------------------

  /**
    The redaction of a document is the one clean tree that deleting hidden parts can reach:
    nothing hidden is left, and nothing else is lost or changed.
  */
  lemma {:induction false} RedactionIsTheCleanTree(a: Json, b: Json)
    requires Redact(a).Ok?
    ensures Redact(a) == Ok(b) <==> Hides(a, b) && Clean(b)
  {
    RedactionHides(a);
    RedactionIsClean(a);
    if Hides(a, b) && Clean(b) {
      HiddenPartsDoNotMatter(a, b);
      CleanIsFixed(b);
    }
  }

  lemma {:induction false} RedactionIsIdempotent(a: Json)
    requires Redact(a).Ok?
    ensures Redact(Redact(a).value) == Redact(a)
  {
    RedactionIsClean(a);
    CleanIsFixed(Redact(a).value);
  }

  /** Deleting hidden parts of each can make the two documents one. */
  ghost predicate AlikeBarHidden(a: Json, b: Json) {
    exists c :: Hides(a, c) && Hides(b, c)
  }

  /** Two documents are redacted alike exactly when they differ in hidden parts only. */
  lemma {:induction false} RedactedAlikeIff(a: Json, b: Json)
    requires Redact(a).Ok? && Redact(b).Ok?
    ensures Redact(a) == Redact(b) <==> AlikeBarHidden(a, b)
  {
    RedactionHides(a);
    RedactionHides(b);
    if Redact(a) == Redact(b) {
      assert Hides(b, Redact(a).value);
    }
    if AlikeBarHidden(a, b) {
      var c :| Hides(a, c) && Hides(b, c);
      HiddenPartsDoNotMatter(a, c);
      HiddenPartsDoNotMatter(b, c);
    }
  }

  // ---- when it throws -------------------------------------------------------------------------------

  /** A `comments` array the traversal reaches, outside sensitive fields and hidden comments, holds a null. */
  ghost predicate ReachesNullComment(j: Json)
    decreases j, 0
  {
    match j
    case Arr(items) => exists i :: 0 <= i < |items| && ReachesNullComment(items[i])
    case Obj(fields) => exists i :: 0 <= i < |fields| && FieldThrows(fields[i])
    case _ => false
  }

  ghost predicate FieldThrows(f: Field)
    decreases f, 0
  {
    !Sensitive(f.key) &&
    if f.key == "comments" && f.value.Arr?
    then exists k :: 0 <= k < |f.value.items| && CommentThrows(f.value.items[k])
    else ReachesNullComment(f.value)
  }

  ghost predicate CommentThrows(c: Json)
    decreases c, 1
  {
    Nullish(c) || (ClientVisible(c) && ReachesNullComment(c))
  }

  lemma {:induction false} ThrowsIffNullComment(j: Json)
    ensures Redact(j).Err? <==> ReachesNullComment(j)
    decreases j, 0
  {
    match j
    case Arr(items) => AllThrowsIff(items);
    case Obj(fields) => FieldsThrowIff(fields);
    case _ =>
  }

  lemma {:induction false} AllThrowsIff(items: seq<Json>)
    ensures RedactAll(items).Err? <==> exists i :: 0 <= i < |items| && ReachesNullComment(items[i])
    decreases items, 1
  {
    if items != [] {
      ThrowsIffNullComment(items[0]);
      AllThrowsIff(items[1..]);
      if i :| 0 <= i < |items[1..]| && ReachesNullComment(items[1..][i]) {
        assert ReachesNullComment(items[i + 1]);
      }
      if i :| 0 < i < |items| && ReachesNullComment(items[i]) {
        assert ReachesNullComment(items[1..][i - 1]);
      }
    }
  }

  lemma {:induction false} CommentsThrowIff(items: seq<Json>)
    ensures RedactComments(items).Err? <==> exists k :: 0 <= k < |items| && CommentThrows(items[k])
    decreases items, 1
  {
    if items != [] {
      ThrowsIffNullComment(items[0]);
      CommentsThrowIff(items[1..]);
      if k :| 0 <= k < |items[1..]| && CommentThrows(items[1..][k]) {
        assert CommentThrows(items[k + 1]);
      }
      if k :| 0 < k < |items| && CommentThrows(items[k]) {
        assert CommentThrows(items[1..][k - 1]);
      }
    }
  }

  lemma {:induction false} FieldsThrowIff(fields: seq<Field>)
    ensures RedactFields(fields).Err? <==> exists i :: 0 <= i < |fields| && FieldThrows(fields[i])
    decreases fields, 1
  {
    if fields != [] {
      FieldsThrowIff(fields[1..]);
      var f := fields[0];
      if f.key == "comments" && f.value.Arr? {
        CommentsThrowIff(f.value.items);
      } else {
        ThrowsIffNullComment(f.value);
      }
      if i :| 0 <= i < |fields[1..]| && FieldThrows(fields[1..][i]) {
        assert FieldThrows(fields[i + 1]);
      }
      if i :| 0 < i < |fields| && FieldThrows(fields[i]) {
        assert FieldThrows(fields[1..][i - 1]);
      }
    }
  }
}
