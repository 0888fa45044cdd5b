/**
  What an estimate counts, and what a client can see of it.
*/
module EstimateTheory {
  import opened Estimate
  import opened Wrappers

  ghost predicate DistinctIds(lines: seq<Line>) {
    forall i, j :: 0 <= i < j < |lines| ==> lines[i].id != lines[j].id
  }

  // ---- which estimates are accepted -------------------------------------------------------------

  lemma {:induction false} FirstErrorIff(lines: seq<Line>, ids: seq<string>)
    requires AllListed(lines, ids)
    ensures FirstError(lines, ids).None? <==> forall i :: 0 <= i < |ids| ==> BreakdownError(lines, ids[i]).None?
  {
    if ids != [] {
      FirstErrorIff(lines, ids[1..]);
      assert ids == [ids[0]] + ids[1..];
      if FirstError(lines, ids[1..]).None? && BreakdownError(lines, ids[0]).None? {
        forall i | 0 <= i < |ids| ensures BreakdownError(lines, ids[i]).None? {
          assert i > 0 ==> ids[i] == ids[1..][i - 1];
        }
      } else if BreakdownError(lines, ids[0]).None? {
        var i :| 0 <= i < |ids[1..]| && BreakdownError(lines, ids[1..][i]).Some?;
        assert ids[i + 1] == ids[1..][i];
      }
    }
  }

  ghost predicate Fits(lines: seq<Line>, parent: Line) {
    Sum(ChildrenOf(lines, parent.id), Allocation) <= LumpSum(parent) || ChildrenOf(lines, parent.id) == []
  }

  /** An estimate is accepted exactly when the breakdown of each included lump sum fits it. */
  lemma {:induction false} AcceptedIff(lines: seq<Line>, currency: string, options: Options)
    requires DistinctIds(lines)
    ensures EstimateOf(lines, currency, options).Ok? <==> forall p :: p in lines && IsParent(p) ==> Fits(lines, p)
  {
    var ids := Parents(lines);
    ParentsAreListed(lines);
    FirstErrorIff(lines, ids);
    forall p | p in lines && IsParent(p)
      ensures p.id in ids && (BreakdownError(lines, p.id).None? <==> Fits(lines, p))
    {
      ParentIff(lines, p.id);
    }
    if forall p :: p in lines && IsParent(p) ==> Fits(lines, p) {
      forall i | 0 <= i < |ids| ensures BreakdownError(lines, ids[i]).None? {
        ParentIff(lines, ids[i]);
      }
    } else {
      var p :| p in lines && IsParent(p) && !Fits(lines, p);
      var i :| 0 <= i < |ids| && ids[i] == p.id;
      assert BreakdownError(lines, ids[i]).Some?;
    }
  }

  // ---- breakdown lines never count ----------------------------------------------------------------

  function Without(lines: seq<Line>, parentId: string): seq<Line> {
    if lines == [] then [] else
      var before, l := Without(lines[..|lines| - 1], parentId), lines[|lines| - 1];
      if l.parentLineId == Some(parentId) then before else before + [l]
  }

  lemma {:induction false} WithoutKeepsOthers(lines: seq<Line>, parentId: string, l: Line)
    ensures l in Without(lines, parentId) <==> l in lines && l.parentLineId != Some(parentId)
  {
    if lines != [] {
      var n := |lines| - 1;
      WithoutKeepsOthers(lines[..n], parentId, l);
      assert lines == lines[..n] + [lines[n]];
    }
  }

  lemma {:induction false} WithoutIsDistinct(lines: seq<Line>, parentId: string)
    requires DistinctIds(lines)
    ensures DistinctIds(Without(lines, parentId))
  {
    if lines != [] {
      var n := |lines| - 1;
      WithoutIsDistinct(lines[..n], parentId);
      var kept := Without(lines[..n], parentId);
      forall i | 0 <= i < |kept| ensures kept[i].id != lines[n].id {
        WithoutKeepsOthers(lines[..n], parentId, kept[i]);
        var j :| 0 <= j < n && lines[..n][j] == kept[i];
        assert lines[j].id != lines[n].id;
      }
    }
  }

  lemma {:induction false} WithoutKeepsSum(lines: seq<Line>, parentId: string, amount: Line -> real)
    requires forall l :: l in lines && l.parentLineId == Some(parentId) ==> amount(l) == 0.0
    ensures Sum(Without(lines, parentId), amount) == Sum(lines, amount)
  {
    if lines != [] {
      var n := |lines| - 1;
      assert lines[n] in lines;
      WithoutKeepsSum(lines[..n], parentId, amount);
      var kept := Without(lines[..n], parentId);
      assert (kept + [lines[n]])[..|kept|] == kept;
    }
  }

  lemma {:induction false} WithoutKeepsParents(lines: seq<Line>, parentId: string)
    requires parentId != ""
    ensures Parents(Without(lines, parentId)) == Parents(lines)
  {
    if lines != [] {
      var n := |lines| - 1;
      WithoutKeepsParents(lines[..n], parentId);
      var kept := Without(lines[..n], parentId);
      assert (kept + [lines[n]])[..|kept|] == kept;
    }
  }

  lemma {:induction false} WithoutKeepsChildren(lines: seq<Line>, parentId: string, id: string)
    ensures ChildrenOf(Without(lines, parentId), id) == if id == parentId then [] else ChildrenOf(lines, id)
  {
    if lines != [] {
      var n := |lines| - 1;
      WithoutKeepsChildren(lines[..n], parentId, id);
      var kept := Without(lines[..n], parentId);
      assert (kept + [lines[n]])[..|kept|] == kept;
    }
  }

  /**
    Deleting the whole breakdown of an included lump sum from an accepted estimate leaves it accepted
    with the same totals.
   */
  lemma {:induction false} DroppingABreakdownKeepsTotals(lines: seq<Line>, parentId: string, currency: string,
                                                         options: Options)
    requires DistinctIds(lines) && EstimateOf(lines, currency, options).Ok?
    requires parentId != "" && parentId in Parents(lines)
    ensures EstimateOf(Without(lines, parentId), currency, options).Ok?
    ensures EstimateOf(Without(lines, parentId), currency, options).value.totals
         == EstimateOf(lines, currency, options).value.totals
  {
    var kept, parents := Without(lines, parentId), Parents(lines);
    WithoutIsDistinct(lines, parentId);
    AcceptedIff(lines, currency, options);
    AcceptedIff(kept, currency, options);
    forall p | p in kept && IsParent(p) ensures Fits(kept, p) {
      WithoutKeepsOthers(lines, parentId, p);
      WithoutKeepsChildren(lines, parentId, p.id);
      assert Fits(lines, p);
    }
    WithoutKeepsParents(lines, parentId);
    WithoutKeepsSum(lines, parentId, Cost(parents, options));
    WithoutKeepsSum(lines, parentId, Sell(parents, options));
    WithoutKeepsSum(lines, parentId, Discount(parents, options));
  }

  // ---- line order ---------------------------------------------------------------------------------

  lemma {:induction false} SumSplits(a: seq<Line>, b: seq<Line>, amount: Line -> real)
    ensures Sum(a + b, amount) == Sum(a, amount) + Sum(b, amount)
  {
    if b == [] {
      assert a + b == a;
    } else {
      var n := |b| - 1;
      SumSplits(a, b[..n], amount);
      assert (a + b)[..|a + b| - 1] == a + b[..n];
    }
  }

  lemma {:induction false} SumOfReordered(a: seq<Line>, b: seq<Line>, amount: Line -> real)
    requires multiset(a) == multiset(b)
    ensures Sum(a, amount) == Sum(b, amount)
  {
    if a == [] {
      assert |multiset(b)| == 0;
    } else {
      var n := |a| - 1;
      assert a[n] in multiset(a);
      var i :| 0 <= i < |b| && b[i] == a[n];
      var rest := b[..i] + b[i + 1..];
      TakenOut(a, n);
      TakenOut(b, i);
      assert a[..n] + a[n + 1..] == a[..n];
      SumOfReordered(a[..n], rest, amount);
      SumTakenOut(b, i, amount);
    }
  }

  lemma TakenOut(b: seq<Line>, i: nat)
    requires i < |b|
    ensures multiset(b[..i] + b[i + 1..]) == multiset(b) - multiset{b[i]}
  {
    assert b == b[..i] + [b[i]] + b[i + 1..];
  }

  lemma {:induction false} SumAround(before: seq<Line>, l: Line, after: seq<Line>, amount: Line -> real)
    ensures Sum(before + ([l] + after), amount) == Sum(before, amount) + amount(l) + Sum(after, amount)
  {
    var one := [l];
    SumSplits(before, one + after, amount);
    SumSplits(one, after, amount);
    assert one[..0] == [];
  }

  lemma {:induction false} SumTakenOut(b: seq<Line>, i: nat, amount: Line -> real)
    requires i < |b|
    ensures Sum(b, amount) == Sum(b[..i] + b[i + 1..], amount) + amount(b[i])
  {
    SumAround(b[..i], b[i], b[i + 1..], amount);
    SumSplits(b[..i], b[i + 1..], amount);
    assert b == b[..i] + ([b[i]] + b[i + 1..]);
  }

  /** The allocation of a line to one lump sum. */
  function AllocationTo(id: string): Line -> real {
    (l: Line) => if l.parentLineId == Some(id) then Allocation(l) else 0.0
  }

  lemma {:induction false} ChildrenSum(lines: seq<Line>, id: string)
    ensures Sum(ChildrenOf(lines, id), Allocation) == Sum(lines, AllocationTo(id))
  {
    if lines != [] {
      var n := |lines| - 1;
      ChildrenSum(lines[..n], id);
      var before := ChildrenOf(lines[..n], id);
      assert (before + [lines[n]])[..|before|] == before;
    }
  }

  lemma {:induction false} HasChildrenIff(lines: seq<Line>, id: string)
    ensures ChildrenOf(lines, id) != [] <==> exists l :: l in lines && l.parentLineId == Some(id)
  {
    if lines != [] {
      var n := |lines| - 1;
      HasChildrenIff(lines[..n], id);
      assert lines == lines[..n] + [lines[n]];
    }
  }

  lemma SameMembers(a: seq<Line>, b: seq<Line>)
    requires multiset(a) == multiset(b)
    ensures forall l :: l in a <==> l in b
  {
    forall l ensures l in a <==> l in b {
      assert l in a <==> l in multiset(a);
      assert l in b <==> l in multiset(b);
    }
  }

  lemma FitsInAnyOrder(a: seq<Line>, b: seq<Line>, parent: Line)
    requires multiset(a) == multiset(b)
    ensures Fits(a, parent) <==> Fits(b, parent)
  {
    SameMembers(a, b);
    HasChildrenIff(a, parent.id);
    HasChildrenIff(b, parent.id);
    ChildrenSum(a, parent.id);
    ChildrenSum(b, parent.id);
    SumOfReordered(a, b, AllocationTo(parent.id));
  }

  lemma {:induction false} SumOfSameAmounts(lines: seq<Line>, f: Line -> real, g: Line -> real)
    requires forall l :: l in lines ==> f(l) == g(l)
    ensures Sum(lines, f) == Sum(lines, g)
  {
    if lines != [] {
      assert lines[|lines| - 1] in lines;
      SumOfSameAmounts(lines[..|lines| - 1], f, g);
    }
  }

  lemma CountedInAnyOrder(a: seq<Line>, b: seq<Line>, l: Line)
    requires multiset(a) == multiset(b)
    ensures Counted(l, Parents(a)) <==> Counted(l, Parents(b))
  {
    if HasParent(l) {
      SameMembers(a, b);
      ParentIff(a, l.parentLineId.value);
      ParentIff(b, l.parentLineId.value);
    }
  }

  lemma TotalsInAnyOrder(a: seq<Line>, b: seq<Line>, options: Options)
    requires multiset(a) == multiset(b)
    ensures Estimated(a, options) == Estimated(b, options)
  {
    var p, q := Parents(a), Parents(b);
    forall l: Line ensures Counted(l, p) <==> Counted(l, q) {
      CountedInAnyOrder(a, b, l);
    }
    SumOfReordered(a, b, Cost(p, options));
    SumOfReordered(a, b, Sell(p, options));
    SumOfReordered(a, b, Discount(p, options));
    SumOfSameAmounts(b, Cost(p, options), Cost(q, options));
    SumOfSameAmounts(b, Sell(p, options), Sell(q, options));
    SumOfSameAmounts(b, Discount(p, options), Discount(q, options));
  }

  /** Neither acceptance nor any total depends on the order of the lines. */
  lemma OrderDoesNotMatter(a: seq<Line>, b: seq<Line>, currency: string, options: Options)
    requires DistinctIds(a) && DistinctIds(b) && multiset(a) == multiset(b)
    ensures EstimateOf(a, currency, options).Ok? <==> EstimateOf(b, currency, options).Ok?
    ensures EstimateOf(a, currency, options).Ok? ==>
              EstimateOf(a, currency, options).value.totals == EstimateOf(b, currency, options).value.totals
  {
    AcceptedIff(a, currency, options);
    AcceptedIff(b, currency, options);
    SameMembers(a, b);
    forall p: Line ensures Fits(a, p) <==> Fits(b, p) {
      FitsInAnyOrder(a, b, p);
    }
    TotalsInAnyOrder(a, b, options);
  }

  // ---- the grand total ----------------------------------------------------------------------------

  ghost predicate IsGrandTotal(t: Totals, discount: real) {
    t.totalSell == t.subtotalSell * (1.0 - discount) * (1.0 + t.feeRate) * (1.0 + t.taxRate)
  }

  lemma GrandTotalOf(cost: real, sell: real, lineDiscount: real, options: Options)
    ensures IsGrandTotal(TotalsOf(cost, sell, lineDiscount, options),
                         OptionalOr(options.overallDiscountPercent, 0.0) / 100.0)
  {
  }

  /** Discount, then fee, then tax: three factors on the sum of the counted lines. */
  lemma {:induction false} GrandTotal(lines: seq<Line>, options: Options)
    ensures IsGrandTotal(Estimated(lines, options), OptionalOr(options.overallDiscountPercent, 0.0) / 100.0)
  {
    var parents := Parents(lines);
    GrandTotalOf(Sum(lines, Cost(parents, options)), Sum(lines, Sell(parents, options)),
                 Sum(lines, Discount(parents, options)), options);
  }

  // ---- double counting ----------------------------------------------------------------------------

  /** A chain of at most n + 1 parent references leads from the line to the lump sum. */
  ghost predicate LiesBelow(lines: seq<Line>, l: Line, id: string, n: nat)
    decreases n
  {
    && HasParent(l)
    && (l.parentLineId.value == id
        || (n > 0
            && exists m :: m in lines && m.id == l.parentLineId.value && LiesBelow(lines, m, id, n - 1)))
  }

  /** No line counted at any depth below an included lump sum, which is counted itself. */
  ghost predicate NothingCountedTwice(lines: seq<Line>) {
    forall l, id, n :: l in lines && id in Parents(lines) && LiesBelow(lines, l, id, n) ==> !Counted(l, Parents(lines))
  }

  /** No line names a breakdown line of an included lump sum as its parent. */
  ghost predicate BreakdownsAreFlat(lines: seq<Line>) {
    forall l, m :: l in lines && m in lines && HasParent(l) && l.parentLineId.value == m.id ==>
      Counted(m, Parents(lines))
  }

  lemma {:induction false} FlatMeansDirect(lines: seq<Line>, l: Line, id: string, n: nat)
    requires BreakdownsAreFlat(lines) && l in lines && id in Parents(lines) && LiesBelow(lines, l, id, n)
    ensures !Counted(l, Parents(lines))
    decreases n
  {
    if l.parentLineId.value != id {
      var m :| m in lines && m.id == l.parentLineId.value && LiesBelow(lines, m, id, n - 1);
      FlatMeansDirect(lines, m, id, n - 1);
    }
  }

  lemma BrokenDownTwiceIsCounted(lines: seq<Line>, l: Line, m: Line)
    requires DistinctIds(lines) && l in lines && m in lines && HasParent(l) && l.parentLineId.value == m.id
    requires !Counted(m, Parents(lines))
    ensures Counted(l, Parents(lines)) && LiesBelow(lines, l, m.parentLineId.value, 1)
  {
    assert LiesBelow(lines, m, m.parentLineId.value, 0);
    ParentIff(lines, m.id);
    if p :| p in lines && IsParent(p) && p.id == m.id {
      assert false;
    }
  }

  /** Lump sums are never counted twice exactly when their breakdowns are one level deep. */
  lemma NothingCountedTwiceIff(lines: seq<Line>)
    requires DistinctIds(lines)
    ensures NothingCountedTwice(lines) <==> BreakdownsAreFlat(lines)
  {
    if BreakdownsAreFlat(lines) {
      forall l, id, n | l in lines && id in Parents(lines) && LiesBelow(lines, l, id, n)
        ensures !Counted(l, Parents(lines))
      {
        FlatMeansDirect(lines, l, id, n);
      }
    } else {
      var l, m :| l in lines && m in lines && HasParent(l) && l.parentLineId.value == m.id
        && !Counted(m, Parents(lines));
      BrokenDownTwiceIsCounted(lines, l, m);
      assert LiesBelow(lines, l, m.parentLineId.value, 1);
    }
  }

  function Plain(id: string, unitSell: real, parentLineId: Option<string>): Line {
    Line(id, id, "", None, Number(1.0), "lump_sum", Number(0.0), Number(unitSell), None,
         true, parentLineId, None, None, None)
  }

  /** A lump sum of 100 whose only part, 60, is broken down again. */
  ghost predicate IsNested(lines: seq<Line>) {
    lines == [Plain("stage", 100.0, None), Plain("deck", 60.0, Some("stage")), Plain("legs", 60.0, Some("deck"))]
  }

  lemma NestedParents(lines: seq<Line>)
    requires IsNested(lines)
    ensures Parents(lines) == ["stage"]
  {
    assert lines[..2][..1] == lines[..1] && lines[..1][..0] == [];
    assert Parents(lines[..1]) == ["stage"];
    assert Parents(lines[..2]) == ["stage"];
  }

  lemma SumOfThree(lines: seq<Line>, amount: Line -> real)
    requires |lines| == 3
    ensures Sum(lines, amount) == amount(lines[0]) + amount(lines[1]) + amount(lines[2])
  {
    assert lines[..2][..1] == lines[..1] && lines[..1][..0] == [];
    assert Sum(lines[..1], amount) == amount(lines[0]);
    assert Sum(lines[..2], amount) == Sum(lines[..1], amount) + amount(lines[1]);
  }

  lemma NestedFits(lines: seq<Line>, p: Line, options: Options)
    requires IsNested(lines) && p in lines && IsParent(p)
    ensures Fits(lines, p)
  {
    assert p == lines[0];
    ChildrenSum(lines, p.id);
    SumOfThree(lines, AllocationTo(p.id));
    assert LumpSum(p) == 100.0;
  }

  lemma NestedSell(lines: seq<Line>, options: Options)
    requires IsNested(lines)
    ensures Estimated(lines, options).subtotalSell == 160.0
  {
    NestedParents(lines);
    var parents := Parents(lines);
    SumOfThree(lines, Sell(parents, options));
    assert Sell(parents, options)(lines[0]) == 100.0;
    assert Sell(parents, options)(lines[1]) == 0.0;
    assert Sell(parents, options)(lines[2]) == 60.0;
  }

  /** The nested breakdown is accepted, at a subtotal of 160. */
  lemma NestedBreakdownIsCountedTwice(lines: seq<Line>, currency: string, options: Options)
    requires IsNested(lines)
    ensures DistinctIds(lines) && !BreakdownsAreFlat(lines)
    ensures EstimateOf(lines, currency, options).Ok?
    ensures EstimateOf(lines, currency, options).value.totals.subtotalSell == 160.0
  {
    AcceptedIff(lines, currency, options);
    forall p | p in lines && IsParent(p) ensures Fits(lines, p) {
      NestedFits(lines, p, options);
    }
    NestedParents(lines);
    NestedSell(lines, options);
    assert lines[2] in lines && lines[1] in lines && !Counted(lines[1], Parents(lines));
  }

  // ---- allocations against the counted amount -------------------------------------------------------

  /** What the lump sum adds to the total: its duration and discount enter here. */
  function CountedSell(parent: Line, options: Options): real {
    Priced(parent, options).netSell
  }

  /** The factor that the check of a breakdown leaves out. */
  function UncheckedFactor(parent: Line): real {
    OptionalOr(parent.durationMultiplier, 1.0) * (1.0 - OptionalOr(parent.discountPercent, 0.0) / 100.0)
  }

  lemma CountedSellIs(parent: Line, options: Options)
    ensures CountedSell(parent, options) == LumpSum(parent) * UncheckedFactor(parent)
  {
  }

  ghost predicate AllocatesWithin(parent: Line, children: seq<Line>, amount: real) {
    Decompose(parent, children).Ok? ==> Sum(children, Allocation) <= amount
  }

  /** A lump sum can be allocated whole, so breakdowns stay within exactly the amounts that reach it. */
  lemma {:induction false} AllocationsFitIff(parent: Line, amount: real)
    requires parent.isLumpSum
    ensures (forall children :: AllocatesWithin(parent, children, amount)) <==> LumpSum(parent) <= amount
  {
    var whole := parent.(allocatedLumpSumPortion := Some(Exact(LumpSum(parent))));
    assert Sum([whole], Allocation) == Sum([whole][..0], Allocation) + Allocation(whole);
    var children := if LumpSum(parent) == 0.0 then [] else [whole];
    assert AllocatesWithin(parent, children, amount) <==> LumpSum(parent) <= amount;
  }

  /**
    Every accepted breakdown of a lump sum stays within what the lump sum adds to the total exactly
    when its duration and discount together do not reduce it: for a positive lump sum their factor
    is at least one, for a negative one at most one, and for one of zero nothing can go wrong.
   */
  lemma AllocationsFitTheTotalIff(parent: Line, options: Options)
    requires parent.isLumpSum
    ensures (forall children :: AllocatesWithin(parent, children, CountedSell(parent, options)))
       <==> if LumpSum(parent) > 0.0 then UncheckedFactor(parent) >= 1.0
            else LumpSum(parent) == 0.0 || UncheckedFactor(parent) <= 1.0
  {
    AllocationsFitIff(parent, CountedSell(parent, options));
    CountedSellIs(parent, options);
    ScaledIff(LumpSum(parent), UncheckedFactor(parent), CountedSell(parent, options));
  }

  lemma ScaledIff(x: real, f: real, scaled: real)
    requires scaled == x * f
    ensures x <= scaled <==> if x > 0.0 then f >= 1.0 else x == 0.0 || f <= 1.0
  {
    assert x * f - x == x * (f - 1.0);
  }

  // ---- secrecy of costs -----------------------------------------------------------------------------

  /** The same lines but for the contractor's buy rates. */
  ghost predicate DifferOnlyInCost(a: seq<Line>, b: seq<Line>) {
    |a| == |b| && forall i :: 0 <= i < |a| ==> SameButForCost(a[i], b[i])
  }

  predicate SameButForCost(l: Line, m: Line) {
    l.(unitCost := m.unitCost) == m
  }

  lemma {:induction false} CostsHideFromParents(a: seq<Line>, b: seq<Line>)
    requires DifferOnlyInCost(a, b)
    ensures Parents(a) == Parents(b)
  {
    if a != [] {
      CostsHideFromParents(a[..|a| - 1], b[..|b| - 1]);
    }
  }

  lemma {:induction false} CostsHideFromChildren(a: seq<Line>, b: seq<Line>, id: string)
    requires DifferOnlyInCost(a, b)
    ensures DifferOnlyInCost(ChildrenOf(a, id), ChildrenOf(b, id))
  {
    if a != [] {
      CostsHideFromChildren(a[..|a| - 1], b[..|b| - 1], id);
    }
  }

  lemma ListedBehind(lines: seq<Line>, id: string)
    requires Listed(lines, id) && lines[0].id != id
    ensures Listed(lines[1..], id) && FirstWithId(lines, id) == FirstWithId(lines[1..], id)
  {
    assert lines == [lines[0]] + lines[1..];
  }

  lemma {:induction false} CostsHideFromFirst(a: seq<Line>, b: seq<Line>, id: string)
    requires DifferOnlyInCost(a, b) && Listed(a, id) && Listed(b, id)
    ensures SameButForCost(FirstWithId(a, id), FirstWithId(b, id))
  {
    assert SameButForCost(a[0], b[0]);
    if a[0].id != id {
      ListedBehind(a, id);
      ListedBehind(b, id);
      CostsHideFromFirst(a[1..], b[1..], id);
    }
  }

  ghost predicate Blind(amount: Line -> real) {
    forall l: Line, cost :: amount(l) == amount(l.(unitCost := cost))
  }

  lemma {:induction false} CostsHideFromSum(a: seq<Line>, b: seq<Line>, amount: Line -> real)
    requires DifferOnlyInCost(a, b) && Blind(amount)
    ensures Sum(a, amount) == Sum(b, amount)
  {
    if a != [] {
      var n := |a| - 1;
      CostsHideFromSum(a[..n], b[..n], amount);
      assert amount(a[n]) == amount(a[n].(unitCost := b[n].unitCost));
    }
  }

  lemma PricedIsBlind(l: Line, cost: Value, options: Options)
    ensures ClientView(Priced(l.(unitCost := cost), options)) == ClientView(Priced(l, options))
    ensures Priced(l.(unitCost := cost), options).discountAmount == Priced(l, options).discountAmount
    ensures Allocation(l.(unitCost := cost)) == Allocation(l)
  {
  }

  lemma AmountsAreBlind(parents: seq<string>, options: Options)
    ensures Blind(Sell(parents, options)) && Blind(Discount(parents, options)) && Blind(Allocation)
  {
    forall l: Line, cost
      ensures Sell(parents, options)(l.(unitCost := cost)) == Sell(parents, options)(l)
      ensures Discount(parents, options)(l.(unitCost := cost)) == Discount(parents, options)(l)
      ensures Allocation(l.(unitCost := cost)) == Allocation(l)
    {
      PricedIsBlind(l, cost, options);
      assert ClientView(Priced(l, options)).netSell == Priced(l, options).netSell;
    }
  }

  lemma CostsHideFromBreakdown(a: seq<Line>, b: seq<Line>, id: string)
    requires DifferOnlyInCost(a, b) && Listed(a, id) && Listed(b, id) && Blind(Allocation)
    ensures BreakdownError(a, id) == BreakdownError(b, id)
  {
    CostsHideFromChildren(a, b, id);
    CostsHideFromFirst(a, b, id);
    CostsHideFromSum(ChildrenOf(a, id), ChildrenOf(b, id), Allocation);
    CostsHideFromDecomposition(FirstWithId(a, id), FirstWithId(b, id), ChildrenOf(a, id), ChildrenOf(b, id));
  }

  lemma CostsHideFromDecomposition(p: Line, q: Line, c: seq<Line>, d: seq<Line>)
    requires SameButForCost(p, q) && Sum(c, Allocation) == Sum(d, Allocation)
    ensures Decompose(p, c) == Decompose(q, d)
  {
    assert LumpSum(p) == LumpSum(q) && p.isLumpSum == q.isLumpSum && p.lineCode == q.lineCode;
  }

  lemma {:induction false} CostsHideFromErrors(a: seq<Line>, b: seq<Line>, ids: seq<string>)
    requires DifferOnlyInCost(a, b) && AllListed(a, ids) && AllListed(b, ids) && Blind(Allocation)
    ensures FirstError(a, ids) == FirstError(b, ids)
  {
    if ids != [] {
      CostsHideFromBreakdown(a, b, ids[0]);
      CostsHideFromErrors(a, b, ids[1..]);
    }
  }

  lemma CostsHideFromLines(a: seq<Line>, b: seq<Line>, options: Options)
    requires DifferOnlyInCost(a, b)
    ensures forall i :: 0 <= i < |a| ==> ClientView(Priced(a[i], options)) == ClientView(Priced(b[i], options))
  {
    forall i | 0 <= i < |a| ensures ClientView(Priced(a[i], options)) == ClientView(Priced(b[i], options)) {
      PricedIsBlind(a[i], b[i].unitCost, options);
    }
  }

  /** The totals that a proposal shows. */
  ghost predicate ShowAlike(t: Totals, u: Totals) {
    && t.subtotalSell == u.subtotalSell && t.discountAmount == u.discountAmount && t.feeAmount == u.feeAmount
    && t.taxAmount == u.taxAmount && t.totalSell == u.totalSell
  }

  lemma CostsHideFromTotals(a: seq<Line>, b: seq<Line>, options: Options)
    requires DifferOnlyInCost(a, b)
    ensures ShowAlike(Estimated(a, options), Estimated(b, options))
  {
    CostsHideFromParents(a, b);
    var parents := Parents(a);
    AmountsAreBlind(parents, options);
    CostsHideFromSum(a, b, Sell(parents, options));
    CostsHideFromSum(a, b, Discount(parents, options));
  }

  lemma ProjectedAlike(s: EstimateSummary, t: EstimateSummary, proposalId: string, projectId: string)
    requires s.currency == t.currency && ShowAlike(s.totals, t.totals) && |s.lines| == |t.lines|
    requires forall i :: 0 <= i < |s.lines| ==> ClientView(s.lines[i]) == ClientView(t.lines[i])
    ensures ProjectClientProposal(proposalId, projectId, s) == ProjectClientProposal(proposalId, projectId, t)
  {
  }

  /** What the client sees of an estimate. */
  function ClientSees(r: Result<EstimateSummary, EstimateError>, proposalId: string, projectId: string)
    : Result<ClientProposal, EstimateError>
  {
    match r
    case Ok(s) => Ok(ProjectClientProposal(proposalId, projectId, s))
    case Err(e) => Err(e)
  }

  /** What the client sees of an estimate, or of a refusal, does not depend on any buy rate. */
  lemma ClientSeesNoCost(a: seq<Line>, b: seq<Line>, currency: string, options: Options,
                         proposalId: string, projectId: string)
    requires DifferOnlyInCost(a, b)
    ensures ClientSees(EstimateOf(a, currency, options), proposalId, projectId)
         == ClientSees(EstimateOf(b, currency, options), proposalId, projectId)
  {
    CostsHideFromParents(a, b);
    ParentsAreListed(a);
    ParentsAreListed(b);
    AmountsAreBlind(Parents(a), options);
    CostsHideFromErrors(a, b, Parents(a));
    CostsHideFromTotals(a, b, options);
    CostsHideFromLines(a, b, options);
    if FirstError(a, Parents(a)).None? {
      ProjectedAlike(EstimateOf(a, currency, options).value, EstimateOf(b, currency, options).value,
                     proposalId, projectId);
    }
  }
}
