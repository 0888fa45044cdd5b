/**
  The estimate calculator of boq.ts: `BOQCalculator.validateLumpSumDecomposition`,
  `calculateEstimate` and `projectClientProposal`.

  Decimals are exact reals.  A value given as the number 0 is falsy and replaced by its default; one
  given as text or as a Decimal never is.
*/
module Estimate {
  import opened Wrappers

  datatype Value = Number(n: real) | Exact(n: real)

  datatype Line = Line(
    id: string, lineCode: string, description: string, descriptionAr: Option<string>,
    quantity: Value, uom: string, unitCost: Value, unitSell: Value, durationMultiplier: Option<Value>,
    isLumpSum: bool, parentLineId: Option<string>, allocatedLumpSumPortion: Option<Value>,
    discountPercent: Option<Value>, taxRate: Option<Value>)

  datatype Options = Options(
    overallDiscountPercent: Option<Value>, overallFeePercent: Option<Value>, defaultTaxRate: Option<Value>)

  datatype CalculatedLine = CalculatedLine(
    id: string, lineCode: string, description: string, descriptionAr: Option<string>,
    quantity: real, uom: string, durationMultiplier: real, unitCost: real, unitSell: real, totalCost: real,
    grossSell: real, discountAmount: real, netSell: real, taxAmount: real, totalSellWithTax: real,
    isLumpSum: bool, parentLineId: Option<string>)

  datatype Totals = Totals(
    subtotalCost: real, subtotalSell: real, discountAmount: real, discountedSell: real, feeAmount: real,
    feeRate: real, taxableBase: real, taxAmount: real, taxRate: real, totalCost: real, totalSell: real,
    grossProfit: real)

  datatype EstimateSummary = EstimateSummary(currency: string, totals: Totals, lines: seq<CalculatedLine>)

  datatype Decomposition = Decomposition(
    parentLumpSumSell: real, childrenAllocatedSell: real, isFullyAllocated: bool)

  datatype EstimateError =
    | NotALumpSum(lineCode: string)
    | AllocationsExceedParent(childrenTotal: real, parentSell: real)

  // ---- values -----------------------------------------------------------------------------------

  predicate Truthy(v: Value) {
    !(v.Number? && v.n == 0.0)
  }

  function Or(v: Value, fallback: real): real {
    if Truthy(v) then v.n else fallback
  }

  function OptionalOr(v: Option<Value>, fallback: real): real {
    if v.Some? then Or(v.value, fallback) else fallback
  }

  /** The empty string names no parent. */
  predicate HasParent(l: Line) {
    l.parentLineId.Some? && l.parentLineId.value != ""
  }

  predicate IsParent(l: Line) {
    l.isLumpSum && !HasParent(l)
  }

  // ---- one line ---------------------------------------------------------------------------------

  function EffectiveQuantity(l: Line): real {
    Or(l.quantity, 1.0) * OptionalOr(l.durationMultiplier, 1.0)
  }

  function GrossSell(l: Line): real {
    Or(l.unitSell, 0.0) * EffectiveQuantity(l)
  }

  function LineDiscount(l: Line): real {
    GrossSell(l) * (OptionalOr(l.discountPercent, 0.0) / 100.0)
  }

  function Priced(l: Line, options: Options): CalculatedLine {
    var netSell := GrossSell(l) - LineDiscount(l);
    var taxRate := if l.taxRate.Some? then l.taxRate.value.n else OptionalOr(options.defaultTaxRate, 0.0);
    CalculatedLine(
      l.id, l.lineCode, l.description, l.descriptionAr, Or(l.quantity, 1.0), l.uom,
      OptionalOr(l.durationMultiplier, 1.0), Or(l.unitCost, 0.0), Or(l.unitSell, 0.0),
      Or(l.unitCost, 0.0) * EffectiveQuantity(l), GrossSell(l), LineDiscount(l), netSell,
      netSell * taxRate, netSell + netSell * taxRate, l.isLumpSum, l.parentLineId)
  }

  function PricedAll(lines: seq<Line>, options: Options): (calculated: seq<CalculatedLine>)
    ensures |calculated| == |lines|
    ensures forall i :: 0 <= i < |lines| ==> calculated[i] == Priced(lines[i], options)
  {
    seq(|lines|, i requires 0 <= i < |lines| => Priced(lines[i], options))
  }

  // ---- sums over lines --------------------------------------------------------------------------

  function Sum(lines: seq<Line>, amount: Line -> real): real {
    if lines == [] then 0.0 else Sum(lines[..|lines| - 1], amount) + amount(lines[|lines| - 1])
  }

  /** A line is left out of the totals when its parent is an included lump sum. */
  predicate Counted(l: Line, parents: seq<string>) {
    !(HasParent(l) && l.parentLineId.value in parents)
  }

  function Cost(parents: seq<string>, options: Options): Line -> real {
    (l: Line) => if Counted(l, parents) then Priced(l, options).totalCost else 0.0
  }

  function Sell(parents: seq<string>, options: Options): Line -> real {
    (l: Line) => if Counted(l, parents) then Priced(l, options).netSell else 0.0
  }

  function Discount(parents: seq<string>, options: Options): Line -> real {
    (l: Line) => if Counted(l, parents) then Priced(l, options).discountAmount else 0.0
  }

  // ---- lump sums --------------------------------------------------------------------------------

  /** The amount that breakdown lines may share: neither duration nor discount of the parent enters. */
  function LumpSum(parent: Line): real {
    parent.unitSell.n * Or(parent.quantity, 1.0)
  }

  function Allocation(child: Line): real {
    if child.allocatedLumpSumPortion.Some? && Truthy(child.allocatedLumpSumPortion.value)
    then child.allocatedLumpSumPortion.value.n
    else child.unitSell.n * Or(child.quantity, 1.0) * OptionalOr(child.durationMultiplier, 1.0)
  }

  function Decompose(parent: Line, children: seq<Line>): Result<Decomposition, EstimateError> {
    var parentSell, childrenTotal := LumpSum(parent), Sum(children, Allocation);
    if !parent.isLumpSum then Err(NotALumpSum(parent.lineCode))
    else if childrenTotal > parentSell then Err(AllocationsExceedParent(childrenTotal, parentSell))
    else Ok(Decomposition(parentSell, childrenTotal, childrenTotal == parentSell))
  }

  method ValidateLumpSumDecomposition(parent: Line, children: seq<Line>)
    returns (r: Result<Decomposition, EstimateError>)
    ensures r == Decompose(parent, children)
  {
    if !parent.isLumpSum {
      return Err(NotALumpSum(parent.lineCode));
    }
    var parentSell := LumpSum(parent);
    var childrenTotal := 0.0;
    for i := 0 to |children|
      invariant childrenTotal == Sum(children[..i], Allocation)
    {
      assert children[..i + 1][..i] == children[..i];
      childrenTotal := childrenTotal + Allocation(children[i]);
    }
    assert children[..|children|] == children;
    if childrenTotal > parentSell {
      return Err(AllocationsExceedParent(childrenTotal, parentSell));
    }
    r := Ok(Decomposition(parentSell, childrenTotal, childrenTotal == parentSell));
  }

  /** Ids of the included lump sums, in order of first occurrence. */
  function Parents(lines: seq<Line>): seq<string> {
    if lines == [] then [] else
      var before, l := Parents(lines[..|lines| - 1]), lines[|lines| - 1];
      if IsParent(l) && l.id !in before then before + [l.id] else before
  }

  function ChildrenOf(lines: seq<Line>, id: string): seq<Line> {
    if lines == [] then [] else
      var before, l := ChildrenOf(lines[..|lines| - 1], id), lines[|lines| - 1];
      if l.parentLineId == Some(id) then before + [l] else before
  }

  lemma {:induction false} ParentIff(lines: seq<Line>, id: string)
    ensures id in Parents(lines) <==> exists l :: l in lines && IsParent(l) && l.id == id
  {
    if lines != [] {
      var n := |lines| - 1;
      ParentIff(lines[..n], id);
      assert lines == lines[..n] + [lines[n]];
    }
  }

  ghost predicate Listed(lines: seq<Line>, id: string) {
    exists l :: l in lines && l.id == id
  }

  ghost predicate AllListed(lines: seq<Line>, ids: seq<string>) {
    forall i :: 0 <= i < |ids| ==> Listed(lines, ids[i])
  }

  function FirstWithId(lines: seq<Line>, id: string): (l: Line)
    requires Listed(lines, id)
    ensures l in lines && l.id == id
  {
    if lines[0].id == id then lines[0] else
      assert Listed(lines[1..], id) by {
        var l :| l in lines && l.id == id;
        assert lines == [lines[0]] + lines[1..];
      }
      FirstWithId(lines[1..], id)
  }

  /** The check of one lump sum, made only when it is broken down at all. */
  function BreakdownError(lines: seq<Line>, id: string): Option<EstimateError>
    requires Listed(lines, id)
  {
    if ChildrenOf(lines, id) == [] then None
    else match Decompose(FirstWithId(lines, id), ChildrenOf(lines, id))
         case Err(e) => Some(e)
         case Ok(_) => None
  }

  function FirstError(lines: seq<Line>, ids: seq<string>): Option<EstimateError>
    requires AllListed(lines, ids)
  {
    if ids == [] then None
    else if BreakdownError(lines, ids[0]).Some? then BreakdownError(lines, ids[0])
    else FirstError(lines, ids[1..])
  }

  lemma ParentsAreListed(lines: seq<Line>)
    ensures AllListed(lines, Parents(lines))
  {
  }

  // ---- the estimate -----------------------------------------------------------------------------

  function TotalsOf(cost: real, sell: real, lineDiscount: real, options: Options): Totals {
    var overallDiscount := sell * (OptionalOr(options.overallDiscountPercent, 0.0) / 100.0);
    var discountedSell := sell - overallDiscount;
    var feeRate := OptionalOr(options.overallFeePercent, 0.0) / 100.0;
    var fee := discountedSell * feeRate;
    var taxableBase := discountedSell + fee;
    var taxRate := OptionalOr(options.defaultTaxRate, 0.0);
    var tax := taxableBase * taxRate;
    Totals(cost, sell, lineDiscount + overallDiscount, discountedSell, fee, feeRate, taxableBase, tax, taxRate,
           cost, taxableBase + tax, taxableBase + tax - cost)
  }

  function Estimated(lines: seq<Line>, options: Options): Totals {
    var parents := Parents(lines);
    TotalsOf(Sum(lines, Cost(parents, options)), Sum(lines, Sell(parents, options)),
             Sum(lines, Discount(parents, options)), options)
  }

  function EstimateOf(lines: seq<Line>, currency: string, options: Options): Result<EstimateSummary, EstimateError> {
    ParentsAreListed(lines);
    match FirstError(lines, Parents(lines))
    case Some(e) => Err(e)
    case None => Ok(EstimateSummary(currency, Estimated(lines, options), PricedAll(lines, options)))
  }

  method FindParents(lines: seq<Line>) returns (ids: seq<string>)
    ensures ids == Parents(lines)
  {
    ids := [];
    for i := 0 to |lines|
      invariant ids == Parents(lines[..i])
    {
      assert lines[..i + 1][..i] == lines[..i];
      if lines[i].isLumpSum && !HasParent(lines[i]) && lines[i].id !in ids {
        ids := ids + [lines[i].id];
      }
    }
    assert lines[..|lines|] == lines;
  }

  method CheckBreakdowns(lines: seq<Line>, ids: seq<string>) returns (e: Option<EstimateError>)
    requires AllListed(lines, ids)
    ensures e == FirstError(lines, ids)
  {
    for i := 0 to |ids|
      invariant FirstError(lines, ids) == FirstError(lines, ids[i..])
    {
      var children := ChildrenOf(lines, ids[i]);
      if |children| > 0 {
        var r := ValidateLumpSumDecomposition(FirstWithId(lines, ids[i]), children);
        if r.Err? {
          return Some(r.error);
        }
      }
      assert ids[i..][1..] == ids[i + 1..];
    }
    e := None;
  }

  method Accumulate(lines: seq<Line>, parents: seq<string>, options: Options)
    returns (cost: real, sell: real, discount: real, calculated: seq<CalculatedLine>)
    ensures cost == Sum(lines, Cost(parents, options))
    ensures sell == Sum(lines, Sell(parents, options))
    ensures discount == Sum(lines, Discount(parents, options))
    ensures calculated == PricedAll(lines, options)
  {
    cost, sell, discount, calculated := 0.0, 0.0, 0.0, [];
    for i := 0 to |lines|
      invariant cost == Sum(lines[..i], Cost(parents, options))
      invariant sell == Sum(lines[..i], Sell(parents, options))
      invariant discount == Sum(lines[..i], Discount(parents, options))
      invariant calculated == PricedAll(lines, options)[..i]
    {
      assert lines[..i + 1][..i] == lines[..i];
      var line := Priced(lines[i], options);
      var isChildOfIncludedParent := HasParent(lines[i]) && lines[i].parentLineId.value in parents;
      if !isChildOfIncludedParent {
        cost := cost + line.totalCost;
        sell := sell + line.netSell;
        discount := discount + line.discountAmount;
      }
      calculated := calculated + [line];
    }
    assert lines[..|lines|] == lines;
  }

  method CalculateEstimate(lines: seq<Line>, currency: string, options: Options)
    returns (r: Result<EstimateSummary, EstimateError>)
    ensures r == EstimateOf(lines, currency, options)
  {
    var parents := FindParents(lines);
    ParentsAreListed(lines);
    var e := CheckBreakdowns(lines, parents);
    if e.Some? {
      return Err(e.value);
    }
    var cost, sell, lineDiscount, calculated := Accumulate(lines, parents, options);
    r := Ok(EstimateSummary(currency, TotalsOf(cost, sell, lineDiscount, options), calculated));
  }

  // ---- the client's view --------------------------------------------------------------------------

  datatype ClientLine = ClientLine(
    lineCode: string, description: string, descriptionAr: Option<string>, quantity: real, uom: string,
    durationMultiplier: real, unitSell: real, netSell: real, taxAmount: real, totalSellWithTax: real)

  datatype ClientProposal = ClientProposal(
    proposalId: string, projectId: string, currency: string, subtotalSell: real, discountAmount: real,
    feeAmount: real, taxAmount: real, totalSell: real, lines: seq<ClientLine>)

  function ClientView(l: CalculatedLine): ClientLine {
    ClientLine(l.lineCode, l.description, l.descriptionAr, l.quantity, l.uom, l.durationMultiplier,
               l.unitSell, l.netSell, l.taxAmount, l.totalSellWithTax)
  }

  function ProjectClientProposal(proposalId: string, projectId: string, summary: EstimateSummary): ClientProposal {
    var t := summary.totals;
    ClientProposal(
      proposalId, projectId, summary.currency, t.subtotalSell, t.discountAmount, t.feeAmount, t.taxAmount, t.totalSell,
      seq(|summary.lines|, i requires 0 <= i < |summary.lines| => ClientView(summary.lines[i])))
  }
}
