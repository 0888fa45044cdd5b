/**
  The freeze manifest of a submission pack: `calculatePackFreezeManifest` of documents.ts, up to the
  hash of its text.
*/
module PackManifest {
  import opened StableSort

  datatype ManifestEntry = ManifestEntry(
    sequenceIndex: real, sectionName: string, sourceEntityId: string, sourceRevisionId: string,
    sourceContentHash: string, submissionTitle: string, envelope: string, isIncluded: bool, selectedPageRange: string)

  /** An item of a pack: what the manifest takes over, and what it leaves out. */
  datatype SubmissionPackItem = SubmissionPackItem(entry: ManifestEntry, itemId: string, notes: string)

  datatype Manifest = Manifest(packId: string, revisionCode: string, items: seq<ManifestEntry>)

  function ItemIndex(item: SubmissionPackItem): real {
    item.entry.sequenceIndex
  }

  function EntryIndex(entry: ManifestEntry): real {
    entry.sequenceIndex
  }

  function Entries(items: seq<SubmissionPackItem>): seq<ManifestEntry> {
    if items == [] then [] else [items[0].entry] + Entries(items[1..])
  }

  /** The data that is hashed: the entries of the items in ascending order of their index. */
  function ManifestData(packId: string, revisionCode: string, items: seq<SubmissionPackItem>): Manifest {
    Manifest(packId, revisionCode, Entries(Sort(items, ItemIndex)))
  }

  lemma {:induction false} EntriesOfInsert(x: SubmissionPackItem, s: seq<SubmissionPackItem>)
    ensures Entries(Insert(x, s, ItemIndex)) == Insert(x.entry, Entries(s), EntryIndex)
  {
    if s == [] {
    } else if ItemIndex(x) <= ItemIndex(s[0]) {
      assert ([x] + s)[1..] == s;
    } else {
      EntriesOfInsert(x, s[1..]);
      var t := Insert(x, s[1..], ItemIndex);
      assert ([s[0]] + t)[1..] == t;
      assert Entries(s)[1..] == Entries(s[1..]);
    }
  }

  lemma {:induction false} EntriesOfSort(items: seq<SubmissionPackItem>)
    ensures Entries(Sort(items, ItemIndex)) == Sort(Entries(items), EntryIndex)
  {
    if items != [] {
      EntriesOfSort(items[1..]);
      EntriesOfInsert(items[0], Sort(items[1..], ItemIndex));
      assert Entries(items)[1..] == Entries(items[1..]);
    }
  }

  /** The same items in some order. */
  ghost predicate Reordered(a: seq<SubmissionPackItem>, b: seq<SubmissionPackItem>) {
    multiset(a) == multiset(b)
  }

  /** Items with one index have one entry. */
  ghost predicate IndexFixesEntry(items: seq<SubmissionPackItem>) {
    forall x, y :: x in items && y in items && ItemIndex(x) == ItemIndex(y) ==> x.entry == y.entry
  }

  lemma {:induction false} EntriesMembers(items: seq<SubmissionPackItem>)
    ensures forall e :: e in Entries(items) <==> exists x :: x in items && x.entry == e
  {
    if items != [] {
      EntriesMembers(items[1..]);
      assert items == [items[0]] + items[1..];
    }
  }

  lemma {:induction false} EntriesOfConcat(a: seq<SubmissionPackItem>, b: seq<SubmissionPackItem>)
    ensures Entries(a + b) == Entries(a) + Entries(b)
  {
    if a == [] {
      assert a + b == b;
    } else {
      EntriesOfConcat(a[1..], b);
      assert (a + b)[0] == a[0] && (a + b)[1..] == a[1..] + b;
      var first, rest, last := [a[0].entry], Entries(a[1..]), Entries(b);
      assert first + (rest + last) == (first + rest) + last;
    }
  }

  lemma EntriesAround(before: seq<SubmissionPackItem>, x: SubmissionPackItem, after: seq<SubmissionPackItem>)
    ensures multiset(Entries(before + [x] + after)) == multiset(Entries(before + after)) + multiset{x.entry}
  {
    EntriesOfConcat(before + [x], after);
    EntriesOfConcat(before, [x]);
    EntriesOfConcat(before, after);
    assert Entries([x]) == [x.entry];
  }

  lemma EntriesFront(a: seq<SubmissionPackItem>)
    requires a != []
    ensures multiset(Entries(a)) == multiset{a[0].entry} + multiset(Entries(a[1..]))
  {
  }

  lemma ReorderedRest(a: seq<SubmissionPackItem>, rest: seq<SubmissionPackItem>)
    requires a != [] && multiset(a) == multiset(rest) + multiset{a[0]}
    ensures Reordered(a[1..], rest)
  {
    assert a == [a[0]] + a[1..];
    assert multiset(a[1..]) == multiset(a) - multiset{a[0]};
  }

  lemma {:induction false} EntriesOfReordered(a: seq<SubmissionPackItem>, b: seq<SubmissionPackItem>)
    requires Reordered(a, b)
    ensures multiset(Entries(a)) == multiset(Entries(b))
    decreases |a|
  {
    if a == [] {
      assert |multiset(b)| == 0;
    } else {
      MembersOfReordered(a, b, a[0]);
      var before, after := SplitAround(b, a[0]);
      EntriesAround(before, a[0], after);
      EntriesFront(a);
      ReorderedRest(a, before + after);
      EntriesOfReordered(a[1..], before + after);
    }
  }

  lemma {:induction false} ReorderingKeepsManifest(a: seq<SubmissionPackItem>, b: seq<SubmissionPackItem>)
    requires Reordered(a, b) && IndexFixesEntry(a)
    ensures Entries(Sort(a, ItemIndex)) == Entries(Sort(b, ItemIndex))
  {
    EntriesOfSort(a);
    EntriesOfSort(b);
    EntriesOfReordered(a, b);
    EntriesMembers(a);
    SortOfPermutation(Entries(a), Entries(b), EntryIndex);
  }

  lemma FrontOfSorted(x: SubmissionPackItem, rest: seq<SubmissionPackItem>)
    ensures Having(Sort(Entries([x] + rest), EntryIndex), EntryIndex, ItemIndex(x)) != []
    ensures Having(Sort(Entries([x] + rest), EntryIndex), EntryIndex, ItemIndex(x))[0] == x.entry
  {
    SortIsStable(Entries([x] + rest), EntryIndex);
    assert ([x] + rest)[1..] == rest;
    HavingFront(x.entry, Entries(rest), EntryIndex, ItemIndex(x));
  }

  /** Two items with one index and different entries, exchanged in front, give two manifests. */
  lemma {:induction false} ClashShows(x: SubmissionPackItem, y: SubmissionPackItem, rest: seq<SubmissionPackItem>)
    requires ItemIndex(x) == ItemIndex(y) && x.entry != y.entry
    ensures Entries(Sort([x] + ([y] + rest), ItemIndex)) != Entries(Sort([y] + ([x] + rest), ItemIndex))
  {
    EntriesOfSort([x] + ([y] + rest));
    EntriesOfSort([y] + ([x] + rest));
    FrontOfSorted(x, [y] + rest);
    FrontOfSorted(y, [x] + rest);
  }

  lemma {:induction false} BroughtToFront(items: seq<SubmissionPackItem>, x: SubmissionPackItem, y: SubmissionPackItem)
    returns (rest: seq<SubmissionPackItem>)
    requires x in items && y in items && x != y
    ensures Reordered(items, [x] + ([y] + rest)) && Reordered(items, [y] + ([x] + rest))
  {
    var before, after := SplitAround(items, x);
    var others := before + after;
    assert y in others by {
      assert y in multiset(items) && y in multiset(others);
    }
    var before', after' := SplitAround(others, y);
    rest := before' + after';
    assert multiset([x] + ([y] + rest)) == multiset(rest) + multiset{x} + multiset{y};
    assert multiset([y] + ([x] + rest)) == multiset(rest) + multiset{x} + multiset{y};
  }

  /** The manifest is the same for every order of the items exactly when items with one index have one entry. */
  lemma {:induction false} ManifestIgnoresOrderIff(packId: string, revisionCode: string, items: seq<SubmissionPackItem>)
    ensures (forall a, b :: Reordered(items, a) && Reordered(items, b) ==>
              ManifestData(packId, revisionCode, a) == ManifestData(packId, revisionCode, b))
       <==> IndexFixesEntry(items)
  {
    if IndexFixesEntry(items) {
      forall a, b | Reordered(items, a) && Reordered(items, b)
        ensures ManifestData(packId, revisionCode, a) == ManifestData(packId, revisionCode, b)
      {
        ReorderingKeepsManifest(items, a);
        ReorderingKeepsManifest(items, b);
      }
    } else {
      var a, b := DifferentManifests(packId, revisionCode, items);
    }
  }

  lemma {:induction false} DifferentManifests(packId: string, revisionCode: string, items: seq<SubmissionPackItem>)
    returns (a: seq<SubmissionPackItem>, b: seq<SubmissionPackItem>)
    requires !IndexFixesEntry(items)
    ensures Reordered(items, a) && Reordered(items, b)
    ensures ManifestData(packId, revisionCode, a) != ManifestData(packId, revisionCode, b)
  {
    var x, y :| x in items && y in items && ItemIndex(x) == ItemIndex(y) && x.entry != y.entry;
    var rest := BroughtToFront(items, x, y);
    ClashShows(x, y, rest);
    a, b := [x] + ([y] + rest), [y] + ([x] + rest);
  }

  // ---- what the manifest binds ----------------------------------------------------------------

  lemma {:induction false} EntriesHaving(items: seq<SubmissionPackItem>, k: real)
    ensures Having(Entries(Sort(items, ItemIndex)), EntryIndex, k) == Having(Entries(items), EntryIndex, k)
  {
    EntriesOfSort(items);
    SortIsStable(Entries(items), EntryIndex);
  }

  /** The data names the pack and its revision, and lists every entry in ascending order of index. */
  lemma {:induction false} ManifestLists(packId: string, revisionCode: string, items: seq<SubmissionPackItem>)
    ensures var m := ManifestData(packId, revisionCode, items);
      && m.packId == packId && m.revisionCode == revisionCode && |m.items| == |items|
      && multiset(m.items) == multiset(Entries(items))
      && forall i, j :: 0 <= i < j < |m.items| ==> m.items[i].sequenceIndex <= m.items[j].sequenceIndex
  {
    EntriesOfSort(items);
    SortIsStable(Entries(items), EntryIndex);
    var m := ManifestData(packId, revisionCode, items);
    assert |multiset(m.items)| == |multiset(Entries(items))|;
    EntriesLength(items);
    forall i, j | 0 <= i < j < |m.items| ensures m.items[i].sequenceIndex <= m.items[j].sequenceIndex {
      assert EntryIndex(m.items[i]) <= EntryIndex(m.items[j]);
    }
  }

  lemma {:induction false} EntriesLength(items: seq<SubmissionPackItem>)
    ensures |Entries(items)| == |items|
  {
    if items != [] {
      EntriesLength(items[1..]);
    }
  }

  /** For every index, the same entries in the same order. */
  ghost predicate SameEntries(items: seq<SubmissionPackItem>, items': seq<SubmissionPackItem>) {
    forall k :: Having(Entries(items), EntryIndex, k) == Having(Entries(items'), EntryIndex, k)
  }

  /**
    Two packs give the same data exactly when they agree on the pack, the revision, and for every
    index on the entries that have it, in their order.
  */
  lemma {:induction false} ManifestBindsIff(packId: string, revision: string, items: seq<SubmissionPackItem>,
                                            packId': string, revision': string, items': seq<SubmissionPackItem>)
    ensures ManifestData(packId, revision, items) == ManifestData(packId', revision', items')
       <==> packId == packId' && revision == revision' && SameEntries(items, items')
  {
    if Entries(Sort(items, ItemIndex)) == Entries(Sort(items', ItemIndex)) {
      forall k ensures Having(Entries(items), EntryIndex, k) == Having(Entries(items'), EntryIndex, k) {
        EntriesHaving(items, k);
        EntriesHaving(items', k);
      }
    }
    if SameEntries(items, items') {
      SortedAlike(items, items');
    }
  }

  lemma {:induction false} SortedAlike(items: seq<SubmissionPackItem>, items': seq<SubmissionPackItem>)
    requires SameEntries(items, items')
    ensures Entries(Sort(items, ItemIndex)) == Entries(Sort(items', ItemIndex))
  {
    EntriesOfSort(items);
    EntriesOfSort(items');
    SortIsStable(Entries(items), EntryIndex);
    SortIsStable(Entries(items'), EntryIndex);
    StableSortIsUnique(Sort(Entries(items), EntryIndex), Sort(Entries(items'), EntryIndex), EntryIndex);
  }
}
