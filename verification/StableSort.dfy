/**
  Array.prototype.sort with a numeric comparator: the elements in ascending order of a key, those
  with one key in the order they came.
*/
module StableSort {

  function Insert<T>(x: T, s: seq<T>, key: T -> real): seq<T> {
    if s == [] then [x]
    else if key(x) <= key(s[0]) then [x] + s
    else [s[0]] + Insert(x, s[1..], key)
  }

  function Sort<T>(s: seq<T>, key: T -> real): seq<T> {
    if s == [] then [] else Insert(s[0], Sort(s[1..], key), key)
  }

  ghost predicate Ascending<T>(s: seq<T>, key: T -> real) {
    forall i, j :: 0 <= i < j < |s| ==> key(s[i]) <= key(s[j])
  }

  /** The elements with a given key, in order. */
  function Having<T>(s: seq<T>, key: T -> real, k: real): seq<T> {
    if s == [] then [] else (if key(s[0]) == k then [s[0]] else []) + Having(s[1..], key, k)
  }

  lemma HavingFront<T>(x: T, s: seq<T>, key: T -> real, k: real)
    ensures Having([x] + s, key, k) == if key(x) == k then [x] + Having(s, key, k) else Having(s, key, k)
  {
  }

  lemma {:induction false} InsertKeepsHaving<T>(x: T, s: seq<T>, key: T -> real, k: real)
    requires Ascending(s, key)
    ensures Having(Insert(x, s, key), key, k) == if key(x) == k then [x] + Having(s, key, k) else Having(s, key, k)
  {
    if s == [] || key(x) <= key(s[0]) {
      HavingFront(x, s, key, k);
      assert s == [] ==> [x] + s == [x];
    } else {
      InsertKeepsHaving(x, s[1..], key, k);
      HavingFront(s[0], Insert(x, s[1..], key), key, k);
      HavingFront(s[0], s[1..], key, k);
      assert [s[0]] + s[1..] == s;
    }
  }

  lemma {:induction false} InsertKeepsElements<T>(x: T, s: seq<T>, key: T -> real)
    ensures multiset(Insert(x, s, key)) == multiset{x} + multiset(s)
  {
    if s != [] {
      InsertKeepsElements(x, s[1..], key);
      assert s == [s[0]] + s[1..];
    }
  }

  lemma {:induction false} InsertIsAscending<T>(x: T, s: seq<T>, key: T -> real)
    requires Ascending(s, key)
    ensures Ascending(Insert(x, s, key), key)
  {
    if s != [] && key(x) > key(s[0]) {
      InsertIsAscending(x, s[1..], key);
      InsertKeepsElements(x, s[1..], key);
      var t := Insert(x, s[1..], key);
      forall j | 0 <= j < |t| ensures key(s[0]) <= key(t[j]) {
        assert t[j] in multiset(t);
      }
    }
  }

  /** Sorting gives the elements in ascending order, keeps every one, and keeps the order within a key. */
  lemma {:induction false} SortIsStable<T>(s: seq<T>, key: T -> real)
    ensures Ascending(Sort(s, key), key)
    ensures multiset(Sort(s, key)) == multiset(s)
    ensures forall k :: Having(Sort(s, key), key, k) == Having(s, key, k)
  {
    if s != [] {
      var t := Sort(s[1..], key);
      SortIsStable(s[1..], key);
      InsertIsAscending(s[0], t, key);
      InsertKeepsElements(s[0], t, key);
      assert s == [s[0]] + s[1..];
      forall k ensures Having(Sort(s, key), key, k) == Having(s, key, k) {
        InsertKeepsHaving(s[0], t, key, k);
        HavingFront(s[0], s[1..], key, k);
      }
    }
  }

  lemma {:induction false} HavingMembers<T>(s: seq<T>, key: T -> real, k: real)
    ensures forall x :: x in Having(s, key, k) <==> x in s && key(x) == k
  {
    if s != [] {
      HavingMembers(s[1..], key, k);
      assert s == [s[0]] + s[1..];
    }
  }

  /** Order and the elements of each key fix a sequence: there is one stable sort. */
  lemma {:induction false} StableSortIsUnique<T>(a: seq<T>, b: seq<T>, key: T -> real)
    requires Ascending(a, key) && Ascending(b, key)
    requires forall k :: Having(a, key, k) == Having(b, key, k)
    ensures a == b
  {
    if a == [] {
      if b != [] {
        SameFront(b, a, key);
      }
    } else {
      SameFront(a, b, key);
      forall k ensures Having(a[1..], key, k) == Having(b[1..], key, k) {
        assert a == [a[0]] + a[1..] && b == [b[0]] + b[1..];
        HavingFront(a[0], a[1..], key, k);
        HavingFront(b[0], b[1..], key, k);
        assert Having(a, key, k) == Having(b, key, k);
        if key(a[0]) == k {
          assert Having(a, key, k)[1..] == Having(a[1..], key, k);
          assert Having(b, key, k)[1..] == Having(b[1..], key, k);
        }
      }
      StableSortIsUnique(a[1..], b[1..], key);
      assert a == [a[0]] + a[1..] && b == [b[0]] + b[1..];
    }
  }

  lemma {:induction false} SameFront<T>(a: seq<T>, b: seq<T>, key: T -> real)
    requires Ascending(a, key) && Ascending(b, key) && a != []
    requires forall k :: Having(a, key, k) == Having(b, key, k)
    ensures b != [] && a[0] == b[0]
  {
    var k := key(a[0]);
    assert Having(a, key, k)[0] == a[0] && Having(b, key, k) == Having(a, key, k);
    HavingMembers(b, key, k);
    assert a[0] in Having(b, key, k);
    var l := key(b[0]);
    assert Having(b, key, l)[0] == b[0] && Having(a, key, l) == Having(b, key, l);
    HavingMembers(a, key, l);
    assert b[0] in Having(a, key, l);
  }

  /** Elements with one key are equal. */
  ghost predicate KeyIsIdentity<T(!new)>(s: seq<T>, key: T -> real) {
    forall x, y :: x in s && y in s && key(x) == key(y) ==> x == y
  }

  lemma {:induction false} HavingOneValue<T>(s: seq<T>, key: T -> real, x: T)
    requires forall y :: y in s && key(y) == key(x) ==> y == x
    ensures Having(s, key, key(x)) == seq(multiset(s)[x], _ => x)
  {
    if s != [] {
      assert s == [s[0]] + s[1..];
      HavingOneValue(s[1..], key, x);
      assert multiset(s) == multiset{s[0]} + multiset(s[1..]);
    }
  }

  lemma {:induction false} HavingOfPermutation<T(!new)>(a: seq<T>, b: seq<T>, key: T -> real, k: real)
    requires multiset(a) == multiset(b) && KeyIsIdentity(a, key)
    ensures Having(a, key, k) == Having(b, key, k)
  {
    HavingMembers(a, key, k);
    HavingMembers(b, key, k);
    forall x ensures x in a <==> x in b {
      assert x in a <==> x in multiset(a);
      assert x in b <==> x in multiset(b);
    }
    if Having(b, key, k) != [] {
      var x := Having(b, key, k)[0];
      assert x in Having(b, key, k);
      HavingOneValue(a, key, x);
      HavingOneValue(b, key, x);
    } else {
      NoneHaving(a, b, key, k);
    }
  }

  lemma NoneHaving<T>(a: seq<T>, b: seq<T>, key: T -> real, k: real)
    requires forall x :: x in Having(a, key, k) ==> x in Having(b, key, k)
    requires Having(b, key, k) == []
    ensures Having(a, key, k) == []
  {
    assert Having(a, key, k) == [] || Having(a, key, k)[0] in Having(a, key, k);
  }

  /** A sequence around one of its elements. */
  lemma SplitAround<T>(s: seq<T>, x: T) returns (before: seq<T>, after: seq<T>)
    requires x in s
    ensures s == before + [x] + after
    ensures multiset(s) == multiset(before + after) + multiset{x}
  {
    var i :| 0 <= i < |s| && s[i] == x;
    before, after := s[..i], s[i + 1..];
    assert s == before + [x] + after;
  }

  lemma MembersOfReordered<T>(a: seq<T>, b: seq<T>, x: T)
    requires multiset(a) == multiset(b) && x in a
    ensures x in b
  {
    assert x in multiset(a);
  }

  /** When elements with one key are equal, sorting depends only on which elements there are. */
  lemma {:induction false} SortOfPermutation<T(!new)>(a: seq<T>, b: seq<T>, key: T -> real)
    requires multiset(a) == multiset(b) && KeyIsIdentity(a, key)
    ensures Sort(a, key) == Sort(b, key)
  {
    SortIsStable(a, key);
    SortIsStable(b, key);
    forall k ensures Having(Sort(a, key), key, k) == Having(Sort(b, key), key, k) {
      HavingOfPermutation(a, b, key, k);
    }
    StableSortIsUnique(Sort(a, key), Sort(b, key), key);
  }
}
