/**
  The amounts of an estimate in terms of the values given: each line, each total, each breakdown,
  and the client's proposal.
*/
module EstimateAmounts {
  import opened Wrappers
  import opened Estimate
  import opened EstimateTheory

  // ---- values ---------------------------------------------------------------------------------

  /** The number a value stands for: the number zero stands for the fallback, anything else for itself. */
  ghost predicate Stands(v: Value, fallback: real, n: real) {
    && (v == Number(0.0) ==> n == fallback)
    && (v != Number(0.0) ==> n == v.n)
  }

  /** So does a value that may be missing; without one it is the fallback. */
  ghost predicate StandsIfGiven(v: Option<Value>, fallback: real, n: real) {
    && (v.None? ==> n == fallback)
    && (v.Some? ==> Stands(v.value, fallback, n))
  }

  // ---- one line -------------------------------------------------------------------------------

  /** What a line carries over unchanged. */
  ghost predicate SameLine(l: Line, c: CalculatedLine) {
    && c.id == l.id && c.lineCode == l.lineCode && c.description == l.description
    && c.descriptionAr == l.descriptionAr && c.uom == l.uom
    && c.isLumpSum == l.isLumpSum && c.parentLineId == l.parentLineId
  }

  /** Quantity and duration are one where none is given, prices are nothing. */
  ghost predicate TakesValues(l: Line, c: CalculatedLine) {
    && Stands(l.quantity, 1.0, c.quantity) && StandsIfGiven(l.durationMultiplier, 1.0, c.durationMultiplier)
    && Stands(l.unitCost, 0.0, c.unitCost) && Stands(l.unitSell, 0.0, c.unitSell)
  }

  /** Cost and sell are unit price times quantity times duration; the discount is a percentage of the sell. */
  ghost predicate MultipliesOut(c: CalculatedLine, discountPercent: real) {
    && c.totalCost == c.unitCost * (c.quantity * c.durationMultiplier)
    && c.grossSell == c.unitSell * (c.quantity * c.durationMultiplier)
    && c.discountAmount == c.grossSell * (discountPercent / 100.0)
    && c.netSell == c.grossSell - c.discountAmount
  }

  /** The tax is a rate on what the discount leaves: the line's own rate, be it zero, or the default one. */
  ghost predicate Taxes(l: Line, c: CalculatedLine, taxRate: real, options: Options) {
    && (l.taxRate.Some? ==> taxRate == l.taxRate.value.n)
    && (l.taxRate.None? ==> StandsIfGiven(options.defaultTaxRate, 0.0, taxRate))
    && c.taxAmount == c.netSell * taxRate
    && c.totalSellWithTax == c.netSell + c.taxAmount
  }

  ghost predicate IsCalculated(l: Line, c: CalculatedLine, options: Options) {
    && SameLine(l, c) && TakesValues(l, c)
    && (exists percent :: StandsIfGiven(l.discountPercent, 0.0, percent) && MultipliesOut(c, percent))
    && (exists rate :: Taxes(l, c, rate, options))
  }

  lemma StandsIfGivenIff(v: Option<Value>, fallback: real, n: real)
    ensures StandsIfGiven(v, fallback, n) <==> n == OptionalOr(v, fallback)
  {
  }

  /** The tax rate that applies to a line. */
  function RateOf(l: Line, options: Options): real {
    if l.taxRate.Some? then l.taxRate.value.n else OptionalOr(options.defaultTaxRate, 0.0)
  }

  lemma PricedTakesValues(l: Line, options: Options)
    ensures SameLine(l, Priced(l, options)) && TakesValues(l, Priced(l, options))
  {
  }

  lemma PricedMultipliesOut(l: Line, options: Options)
    ensures MultipliesOut(Priced(l, options), OptionalOr(l.discountPercent, 0.0))
  {
  }

  lemma PricedIsTaxed(l: Line, options: Options)
    ensures Taxes(l, Priced(l, options), RateOf(l, options), options)
  {
  }

  /** Every line is calculated so. */
  lemma {:induction false} LineIsCalculated(l: Line, options: Options)
    ensures IsCalculated(l, Priced(l, options), options)
  {
    PricedTakesValues(l, options);
    PricedMultipliesOut(l, options);
    PricedIsTaxed(l, options);
    StandsIfGivenIff(l.discountPercent, 0.0, OptionalOr(l.discountPercent, 0.0));
  }

  /** Values and rates leave one calculation of a line. */
  lemma {:induction false} CalculationIsDetermined(l: Line, c: CalculatedLine, c': CalculatedLine, options: Options)
    requires IsCalculated(l, c, options) && IsCalculated(l, c', options)
    ensures c == c'
  {
    var percent :| StandsIfGiven(l.discountPercent, 0.0, percent) && MultipliesOut(c, percent);
    var percent' :| StandsIfGiven(l.discountPercent, 0.0, percent') && MultipliesOut(c', percent');
    var rate :| Taxes(l, c, rate, options);
    var rate' :| Taxes(l, c', rate', options);
    assert percent == percent' && rate == rate';
    ValuesAreDetermined(l, c, c');
    MultipliedAlike(c, c', percent);
    assert c.taxAmount == c'.taxAmount;
  }

  lemma ValuesAreDetermined(l: Line, c: CalculatedLine, c': CalculatedLine)
    requires TakesValues(l, c) && TakesValues(l, c')
    ensures c.quantity == c'.quantity && c.durationMultiplier == c'.durationMultiplier
    ensures c.unitCost == c'.unitCost && c.unitSell == c'.unitSell
  {
  }

  lemma MultipliedAlike(c: CalculatedLine, c': CalculatedLine, percent: real)
    requires MultipliesOut(c, percent) && MultipliesOut(c', percent)
    requires c.quantity == c'.quantity && c.durationMultiplier == c'.durationMultiplier
    requires c.unitCost == c'.unitCost && c.unitSell == c'.unitSell
    ensures c.totalCost == c'.totalCost && c.grossSell == c'.grossSell
    ensures c.discountAmount == c'.discountAmount && c.netSell == c'.netSell
  {
  }

  // ---- the totals -----------------------------------------------------------------------------

  /** A line counts unless it is part of a lump sum that is itself no part of another line. */
  ghost predicate EntersTotals(lines: seq<Line>, l: Line) {
    || l.parentLineId.None? || l.parentLineId == Some("")
    || forall p :: p in lines && p.isLumpSum && (p.parentLineId.None? || p.parentLineId == Some("")) ==>
         p.id != l.parentLineId.value
  }

  function Added(terms: seq<real>): real {
    if terms == [] then 0.0 else Added(terms[..|terms| - 1]) + terms[|terms| - 1]
  }

  /** An amount of every line, nothing for those that do not count. */
  ghost predicate CountedAmounts(lines: seq<Line>, calculated: seq<CalculatedLine>, pick: CalculatedLine -> real,
                                 terms: seq<real>)
  {
    && |calculated| == |lines| == |terms|
    && forall i :: 0 <= i < |lines| ==>
         && (EntersTotals(lines, lines[i]) ==> terms[i] == pick(calculated[i]))
         && (!EntersTotals(lines, lines[i]) ==> terms[i] == 0.0)
  }

  /** The sum of an amount over the lines that count. */
  ghost predicate AddsUpTo(lines: seq<Line>, calculated: seq<CalculatedLine>, pick: CalculatedLine -> real,
                           total: real)
  {
    exists terms: seq<real> :: CountedAmounts(lines, calculated, pick, terms) && Added(terms) == total
  }

  /** The overall discount comes off the sum of the lines, the fee on top of the rest, the tax on top of both. */
  ghost predicate TotalsAre(t: Totals, cost: real, sell: real, lineDiscounts: real, discountPercent: real,
                            feePercent: real, taxRate: real) {
    && t.subtotalCost == t.totalCost == cost && t.subtotalSell == sell
    && t.discountAmount == lineDiscounts + sell * (discountPercent / 100.0)
    && t.discountedSell == sell - sell * (discountPercent / 100.0)
    && t.feeRate == feePercent / 100.0 && t.feeAmount == t.discountedSell * t.feeRate
    && t.taxableBase == t.discountedSell + t.feeAmount
    && t.taxRate == taxRate && t.taxAmount == t.taxableBase * taxRate
    && t.totalSell == t.taxableBase + t.taxAmount && t.grossProfit == t.totalSell - cost
  }

  ghost predicate RatesGiven(options: Options, discountPercent: real, feePercent: real, taxRate: real) {
    && StandsIfGiven(options.overallDiscountPercent, 0.0, discountPercent)
    && StandsIfGiven(options.overallFeePercent, 0.0, feePercent)
    && StandsIfGiven(options.defaultTaxRate, 0.0, taxRate)
  }

  lemma {:induction false} EntersIff(lines: seq<Line>, l: Line)
    ensures EntersTotals(lines, l) <==> Counted(l, Parents(lines))
  {
    if HasParent(l) {
      ParentIff(lines, l.parentLineId.value);
    }
  }

  lemma {:induction false} AddedIsSum(lines: seq<Line>, amount: Line -> real, terms: seq<real>)
    requires |terms| == |lines| && forall i :: 0 <= i < |lines| ==> terms[i] == amount(lines[i])
    ensures Added(terms) == Sum(lines, amount)
  {
    if lines != [] {
      AddedIsSum(lines[..|lines| - 1], amount, terms[..|terms| - 1]);
    }
  }

  /** The amount of a line that counts is picked from its calculation, and is nothing for any other line. */
  ghost predicate Picks(lines: seq<Line>, options: Options, pick: CalculatedLine -> real, amount: Line -> real) {
    forall l :: amount(l) == if Counted(l, Parents(lines)) then pick(Priced(l, options)) else 0.0
  }

  lemma {:induction false} SumAddsUp(lines: seq<Line>, options: Options, pick: CalculatedLine -> real,
                                     amount: Line -> real)
    requires Picks(lines, options, pick, amount)
    ensures AddsUpTo(lines, PricedAll(lines, options), pick, Sum(lines, amount))
  {
    var terms := seq(|lines|, i requires 0 <= i < |lines| => amount(lines[i]));
    AddedIsSum(lines, amount, terms);
    forall i | 0 <= i < |lines| ensures EntersTotals(lines, lines[i]) <==> Counted(lines[i], Parents(lines)) {
      EntersIff(lines, lines[i]);
    }
    assert CountedAmounts(lines, PricedAll(lines, options), pick, terms);
  }

  const COST := (c: CalculatedLine) => c.totalCost
  const SELL := (c: CalculatedLine) => c.netSell
  const DISCOUNT := (c: CalculatedLine) => c.discountAmount

  /** The summary of an estimate: its lines, and the totals over those that count. */
  ghost predicate IsSummary(lines: seq<Line>, currency: string, options: Options, s: EstimateSummary) {
    && s.currency == currency && |s.lines| == |lines|
    && (forall i :: 0 <= i < |lines| ==> IsCalculated(lines[i], s.lines[i], options))
    && exists cost, sell, discounts :: IsTotalled(lines, options, s, cost, sell, discounts)
  }

  ghost predicate IsTotalled(lines: seq<Line>, options: Options, s: EstimateSummary, cost: real, sell: real,
                             discounts: real)
  {
    && AddsUpTo(lines, s.lines, COST, cost) && AddsUpTo(lines, s.lines, SELL, sell)
    && AddsUpTo(lines, s.lines, DISCOUNT, discounts)
    && exists percent, fee, rate ::
         RatesGiven(options, percent, fee, rate) && TotalsAre(s.totals, cost, sell, discounts, percent, fee, rate)
  }

  lemma TotalsOfAre(cost: real, sell: real, discounts: real, options: Options)
    ensures TotalsAre(TotalsOf(cost, sell, discounts, options), cost, sell, discounts,
                      OptionalOr(options.overallDiscountPercent, 0.0), OptionalOr(options.overallFeePercent, 0.0),
                      OptionalOr(options.defaultTaxRate, 0.0))
    ensures RatesGiven(options, OptionalOr(options.overallDiscountPercent, 0.0),
                       OptionalOr(options.overallFeePercent, 0.0), OptionalOr(options.defaultTaxRate, 0.0))
  {
  }

  lemma {:induction false} EstimateIsTotalled(lines: seq<Line>, currency: string, options: Options)
    requires EstimateOf(lines, currency, options).Ok?
    ensures exists cost, sell, discounts ::
              IsTotalled(lines, options, EstimateOf(lines, currency, options).value, cost, sell, discounts)
  {
    var parents := Parents(lines);
    SumAddsUp(lines, options, COST, Cost(parents, options));
    SumAddsUp(lines, options, SELL, Sell(parents, options));
    SumAddsUp(lines, options, DISCOUNT, Discount(parents, options));
    TotalsOfAre(Sum(lines, Cost(parents, options)), Sum(lines, Sell(parents, options)),
                Sum(lines, Discount(parents, options)), options);
    assert IsTotalled(lines, options, EstimateOf(lines, currency, options).value, Sum(lines, Cost(parents, options)),
                      Sum(lines, Sell(parents, options)), Sum(lines, Discount(parents, options)));
  }

  /** What an accepted estimate reports is the summary of its lines. */
  lemma {:induction false} EstimateIsSummary(lines: seq<Line>, currency: string, options: Options)
    requires EstimateOf(lines, currency, options).Ok?
    ensures IsSummary(lines, currency, options, EstimateOf(lines, currency, options).value)
  {
    EstimateIsTotalled(lines, currency, options);
    forall i | 0 <= i < |lines| ensures IsCalculated(lines[i], PricedAll(lines, options)[i], options) {
      LineIsCalculated(lines[i], options);
    }
  }

  lemma {:induction false} SumIsDetermined(lines: seq<Line>, calculated: seq<CalculatedLine>,
                                           pick: CalculatedLine -> real, x: real, y: real)
    requires AddsUpTo(lines, calculated, pick, x) && AddsUpTo(lines, calculated, pick, y)
    ensures x == y
  {
    var a: seq<real> :| CountedAmounts(lines, calculated, pick, a) && Added(a) == x;
    var b: seq<real> :| CountedAmounts(lines, calculated, pick, b) && Added(b) == y;
    forall i | 0 <= i < |lines| ensures a[i] == b[i] {
      assert EntersTotals(lines, lines[i]) ==> a[i] == pick(calculated[i]) && b[i] == pick(calculated[i]);
    }
    assert a == b;
  }

  lemma TotalsAreDetermined(t: Totals, u: Totals, cost: real, sell: real, discounts: real, percent: real, fee: real,
                            rate: real)
    requires TotalsAre(t, cost, sell, discounts, percent, fee, rate)
    requires TotalsAre(u, cost, sell, discounts, percent, fee, rate)
    ensures t == u
  {
  }

  lemma {:induction false} TotalledAlike(lines: seq<Line>, options: Options, s: EstimateSummary, s': EstimateSummary,
                                         cost: real, sell: real, discounts: real,
                                         cost': real, sell': real, discounts': real)
    requires s.lines == s'.lines
    requires IsTotalled(lines, options, s, cost, sell, discounts)
    requires IsTotalled(lines, options, s', cost', sell', discounts')
    ensures s.totals == s'.totals
  {
    SumIsDetermined(lines, s.lines, COST, cost, cost');
    SumIsDetermined(lines, s.lines, SELL, sell, sell');
    SumIsDetermined(lines, s.lines, DISCOUNT, discounts, discounts');
    var percent, fee, rate :|
      RatesGiven(options, percent, fee, rate) && TotalsAre(s.totals, cost, sell, discounts, percent, fee, rate);
    var percent', fee', rate' :|
      RatesGiven(options, percent', fee', rate') && TotalsAre(s'.totals, cost, sell, discounts, percent', fee', rate');
    assert percent == percent' && fee == fee' && rate == rate';
    TotalsAreDetermined(s.totals, s'.totals, cost, sell, discounts, percent, fee, rate);
  }

  /** There is one summary of given lines, so an accepted estimate reports it and nothing else. */
  lemma {:induction false} SummaryIsDetermined(lines: seq<Line>, currency: string, options: Options,
                                               s: EstimateSummary)
    requires EstimateOf(lines, currency, options).Ok?
    ensures IsSummary(lines, currency, options, s) <==> EstimateOf(lines, currency, options) == Ok(s)
  {
    var reported := EstimateOf(lines, currency, options).value;
    EstimateIsSummary(lines, currency, options);
    if IsSummary(lines, currency, options, s) {
      OneSummary(lines, currency, options, s, reported);
    }
  }

  lemma {:induction false} OneSummary(lines: seq<Line>, currency: string, options: Options, s: EstimateSummary,
                                      s': EstimateSummary)
    requires IsSummary(lines, currency, options, s) && IsSummary(lines, currency, options, s')
    ensures s == s'
  {
    forall i | 0 <= i < |lines| ensures s.lines[i] == s'.lines[i] {
      CalculationIsDetermined(lines[i], s.lines[i], s'.lines[i], options);
    }
    assert s.lines == s'.lines;
    var cost, sell, discounts :| IsTotalled(lines, options, s, cost, sell, discounts);
    var cost', sell', discounts' :| IsTotalled(lines, options, s', cost', sell', discounts');
    TotalledAlike(lines, options, s, s', cost, sell, discounts, cost', sell', discounts');
  }

  // ---- breakdowns -----------------------------------------------------------------------------

  /** A part of a lump sum takes the portion allocated to it, or else its own price times quantity and duration. */
  ghost predicate TakesShare(child: Line, share: real) {
    var portion := child.allocatedLumpSumPortion;
    && (portion.Some? && portion.value != Number(0.0) ==> share == portion.value.n)
    && (portion.None? || portion.value == Number(0.0) ==>
          exists quantity, duration ::
            && Stands(child.quantity, 1.0, quantity) && StandsIfGiven(child.durationMultiplier, 1.0, duration)
            && share == child.unitSell.n * quantity * duration)
  }

  /** What there is to share: the price of the lump sum times its quantity. */
  ghost predicate Shares(parent: Line, amount: real) {
    exists quantity :: Stands(parent.quantity, 1.0, quantity) && amount == parent.unitSell.n * quantity
  }

  lemma ShareIs(child: Line)
    ensures TakesShare(child, Allocation(child))
  {
    var quantity, duration := Or(child.quantity, 1.0), OptionalOr(child.durationMultiplier, 1.0);
    assert Stands(child.quantity, 1.0, quantity) && StandsIfGiven(child.durationMultiplier, 1.0, duration);
  }

  lemma LumpSumIs(parent: Line)
    ensures Shares(parent, LumpSum(parent))
  {
    assert Stands(parent.quantity, 1.0, Or(parent.quantity, 1.0));
  }

  /** The check of one breakdown: the shares add up to no more than there is, and are all of it when they are equal. */
  lemma {:induction false} BreakdownIs(parent: Line, children: seq<Line>) returns (shares: seq<real>, amount: real)
    ensures |shares| == |children| && Shares(parent, amount)
    ensures forall i :: 0 <= i < |children| ==> TakesShare(children[i], shares[i])
    ensures var r := Decompose(parent, children);
      && (!parent.isLumpSum ==> r == Err(NotALumpSum(parent.lineCode)))
      && (parent.isLumpSum ==> (r.Ok? <==> Added(shares) <= amount))
      && (parent.isLumpSum && r.Err? ==> r.error == AllocationsExceedParent(Added(shares), amount))
      && (r.Ok? ==> r.value.parentLumpSumSell == amount && r.value.childrenAllocatedSell == Added(shares)
                    && (r.value.isFullyAllocated <==> Added(shares) == amount))
  {
    shares := seq(|children|, i requires 0 <= i < |children| => Allocation(children[i]));
    amount := LumpSum(parent);
    AddedIsSum(children, Allocation, shares);
    LumpSumIs(parent);
    forall i | 0 <= i < |children| ensures TakesShare(children[i], shares[i]) {
      ShareIs(children[i]);
    }
  }

  /** The breakdown of a lump sum is made of the lines that name it as their parent, each as often as it is given. */
  lemma {:induction false} BreakdownLines(lines: seq<Line>, id: string, l: Line)
    ensures multiset(ChildrenOf(lines, id))[l] == if l.parentLineId == Some(id) then multiset(lines)[l] else 0
  {
    if lines != [] {
      var n := |lines| - 1;
      BreakdownLines(lines[..n], id, l);
      assert lines == lines[..n] + [lines[n]];
    }
  }

  lemma {:induction false} FirstErrorIs(lines: seq<Line>, ids: seq<string>) returns (k: nat)
    requires AllListed(lines, ids) && FirstError(lines, ids).Some?
    ensures k < |ids| && BreakdownError(lines, ids[k]) == FirstError(lines, ids)
    ensures forall j :: 0 <= j < k ==> BreakdownError(lines, ids[j]).None?
  {
    if BreakdownError(lines, ids[0]).Some? {
      return 0;
    }
    var l := FirstErrorIs(lines, ids[1..]);
    k := l + 1;
    forall j | 0 <= j < k ensures BreakdownError(lines, ids[j]).None? {
      if j > 0 {
        assert ids[1..][j - 1] == ids[j];
      }
    }
  }

  /** The lump sums are checked in the order of their lines. */
  lemma {:induction false} LaterParentLater(lines: seq<Line>, i: nat, h: nat, j: nat, k: nat)
    requires DistinctIds(lines) && i < h < |lines| && j < |Parents(lines)| && k < |Parents(lines)|
    requires Parents(lines)[j] == lines[i].id && Parents(lines)[k] == lines[h].id
    ensures j < k
    decreases |lines|
  {
    var n := |lines| - 1;
    var before := Parents(lines[..n]);
    assert before <= Parents(lines) && |Parents(lines)| <= |before| + 1;
    if h < n {
      if j < |before| && k < |before| {
        LaterParentLater(lines[..n], i, h, j, k);
      }
    } else {
      assert forall m :: 0 <= m < |before| ==> Listed(lines[..n], before[m]) by {
        ParentsAreListed(lines[..n]);
      }
      assert lines[n].id != lines[i].id;
    }
  }

  lemma {:induction false} RefusedBreakdown(lines: seq<Line>, p: Line)
    requires DistinctIds(lines) && p in lines && IsParent(p)
    ensures Fits(lines, p) <==> BreakdownError(lines, p.id).None?
    ensures !Fits(lines, p) ==>
              BreakdownError(lines, p.id)
              == Some(AllocationsExceedParent(Sum(ChildrenOf(lines, p.id), Allocation), LumpSum(p)))
  {
    assert FirstWithId(lines, p.id) == p;
  }

  /** A refusal names the amounts of the first lump sum whose breakdown does not fit it. */
  lemma {:induction false} RefusalIsFirst(lines: seq<Line>, currency: string, options: Options) returns (i: nat)
    requires DistinctIds(lines) && EstimateOf(lines, currency, options).Err?
    ensures i < |lines| && IsParent(lines[i]) && !Fits(lines, lines[i])
    ensures EstimateOf(lines, currency, options).error
         == AllocationsExceedParent(Sum(ChildrenOf(lines, lines[i].id), Allocation), LumpSum(lines[i]))
    ensures forall h :: 0 <= h < i && IsParent(lines[h]) ==> Fits(lines, lines[h])
  {
    var ids := Parents(lines);
    ParentsAreListed(lines);
    var k := FirstErrorIs(lines, ids);
    ParentIff(lines, ids[k]);
    i :| 0 <= i < |lines| && IsParent(lines[i]) && lines[i].id == ids[k];
    RefusedBreakdown(lines, lines[i]);
    forall h | 0 <= h < i && IsParent(lines[h]) ensures Fits(lines, lines[h]) {
      ParentIff(lines, lines[h].id);
      var j :| 0 <= j < |ids| && ids[j] == lines[h].id;
      LaterParentLater(lines, h, i, j, k);
      RefusedBreakdown(lines, lines[h]);
    }
  }

  // ---- the client's proposal ------------------------------------------------------------------

  ghost predicate ShowsLine(c: CalculatedLine, v: ClientLine) {
    && v.lineCode == c.lineCode && v.description == c.description && v.descriptionAr == c.descriptionAr
    && v.quantity == c.quantity && v.uom == c.uom && v.durationMultiplier == c.durationMultiplier
    && v.unitSell == c.unitSell && v.netSell == c.netSell && v.taxAmount == c.taxAmount
    && v.totalSellWithTax == c.totalSellWithTax
  }

  /** A proposal shows the sell side of the summary as it is, line by line. */
  lemma {:induction false} ProposalShows(proposalId: string, projectId: string, s: EstimateSummary)
    ensures var p := ProjectClientProposal(proposalId, projectId, s);
      && p.proposalId == proposalId && p.projectId == projectId && p.currency == s.currency
      && p.subtotalSell == s.totals.subtotalSell && p.discountAmount == s.totals.discountAmount
      && p.feeAmount == s.totals.feeAmount && p.taxAmount == s.totals.taxAmount && p.totalSell == s.totals.totalSell
      && |p.lines| == |s.lines|
      && forall i :: 0 <= i < |s.lines| ==> ShowsLine(s.lines[i], p.lines[i])
  {
  }
}
