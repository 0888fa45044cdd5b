/**
  Bid ranking of procurement.ts: `ProcurementEngine.evaluateBids`.

  Prices and scores are exact reals; Math.round is the rounding to the nearest integer, halves
  upwards.
*/
module BidEvaluation {
  import opened Numbers
  import opened StableSort
  import opened Wrappers

  datatype VendorQuote = VendorQuote(
    id: string, vendorId: string, totalPrice: real, nonCompliant: bool,
    technicalScore: Option<real>, riskScore: Option<real>, deliveryTimeDays: real)

  datatype Weights = Weights(technical: real, commercial: real, risk: real)

  datatype BidEvaluation = BidEvaluation(
    quoteId: string, vendorId: string, totalPrice: real, technicalScore: real, commercialScore: real,
    riskScore: real, compositeScore: int, recommended: bool)

  datatype EvaluationResult = EvaluationResult(
    quotesEvaluated: nat, evaluations: seq<BidEvaluation>, recommendedVendorId: string, recommendedQuoteId: string)

  datatype EvaluationError = NoQuotesToEvaluate

  function TechnicalScore(q: VendorQuote): real {
    if q.technicalScore.Some? then q.technicalScore.value else if q.nonCompliant then 30.0 else 90.0
  }

  function RiskScore(q: VendorQuote): real {
    if q.riskScore.Some? then q.riskScore.value else if q.deliveryTimeDays <= 14.0 then 90.0 else 70.0
  }

  /** The lowest price as a percentage of the price, rounded; 100 for a quote at no price. */
  function CommercialScore(price: real, minPrice: real): real {
    if price == 0.0 then 100.0 else Round(minPrice / price * 100.0) as real
  }

  function Composite(technical: real, commercial: real, risk: real, weights: Weights): int {
    Round(technical * weights.technical + commercial * weights.commercial + risk * weights.risk)
  }

  function Evaluated(q: VendorQuote, minPrice: real, weights: Weights): BidEvaluation {
    var technical, commercial, risk := TechnicalScore(q), CommercialScore(q.totalPrice, minPrice), RiskScore(q);
    BidEvaluation(q.id, q.vendorId, q.totalPrice, technical, commercial, risk,
                  Composite(technical, commercial, risk, weights), false)
  }

  ghost predicate IsMinPrice(quotes: seq<VendorQuote>, p: real) {
    && (exists q :: q in quotes && q.totalPrice == p)
    && (forall q :: q in quotes ==> p <= q.totalPrice)
  }

  method MinPrice(quotes: seq<VendorQuote>) returns (minPrice: real)
    requires quotes != []
    ensures IsMinPrice(quotes, minPrice)
  {
    minPrice := quotes[0].totalPrice;
    assert quotes[0] in quotes;
    for i := 0 to |quotes|
      invariant exists q :: q in quotes && q.totalPrice == minPrice
      invariant forall j :: 0 <= j < i ==> minPrice <= quotes[j].totalPrice
    {
      if quotes[i].totalPrice < minPrice {
        assert quotes[i] in quotes;
        minPrice := quotes[i].totalPrice;
      }
    }
  }

  /** Descending order of composite scores, as an ascending key. */
  function Rank(e: BidEvaluation): real {
    -(e.compositeScore as real)
  }

  function EvaluatedAll(quotes: seq<VendorQuote>, minPrice: real, weights: Weights): (es: seq<BidEvaluation>)
    ensures |es| == |quotes|
    ensures forall i :: 0 <= i < |quotes| ==> es[i] == Evaluated(quotes[i], minPrice, weights)
  {
    seq(|quotes|, i requires 0 <= i < |quotes| => Evaluated(quotes[i], minPrice, weights))
  }

  method EvaluateBids(quotes: seq<VendorQuote>, weights: Weights) returns (r: Result<EvaluationResult, EvaluationError>)
    ensures quotes == [] <==> r == Err(NoQuotesToEvaluate)
    ensures r.Ok? ==> exists minPrice ::
              && IsMinPrice(quotes, minPrice)
              && IsRanking(EvaluatedAll(quotes, minPrice, weights), r.value)
  {
    if |quotes| == 0 {
      return Err(NoQuotesToEvaluate);
    }
    var minPrice := MinPrice(quotes);
    var evaluations: seq<BidEvaluation> := [];
    for i := 0 to |quotes|
      invariant evaluations == EvaluatedAll(quotes, minPrice, weights)[..i]
    {
      evaluations := evaluations + [Evaluated(quotes[i], minPrice, weights)];
    }
    ghost var evaluated := EvaluatedAll(quotes, minPrice, weights);
    assert evaluations == evaluated;
    evaluations := Sort(evaluations, Rank);
    SortedIsRanking(evaluated);
    evaluations := evaluations[0 := evaluations[0].(recommended := true)];
    r := Ok(EvaluationResult(|quotes|, evaluations, evaluations[0].vendorId, evaluations[0].quoteId));
  }

  /** An evaluation before any is recommended. */
  function Plain(e: BidEvaluation): BidEvaluation {
    e.(recommended := false)
  }

  function PlainAll(es: seq<BidEvaluation>): (ps: seq<BidEvaluation>)
    ensures |ps| == |es|
    ensures forall i :: 0 <= i < |es| ==> ps[i] == Plain(es[i])
  {
    seq(|es|, i requires 0 <= i < |es| => Plain(es[i]))
  }

  /**
    The ranking holds every evaluation once, in descending order of composite score, those with one
    score in the order of their quotes; it recommends the first one, and no other.
  */
  ghost predicate IsRanking(evaluated: seq<BidEvaluation>, r: EvaluationResult) {
    var ranked := PlainAll(r.evaluations);
    && r.quotesEvaluated == |evaluated| == |ranked| > 0
    && multiset(ranked) == multiset(evaluated)
    && (forall i, j :: 0 <= i < j < |ranked| ==> ranked[i].compositeScore >= ranked[j].compositeScore)
    && (forall k :: Having(ranked, Rank, k) == Having(evaluated, Rank, k))
    && (forall i :: 0 <= i < |r.evaluations| ==> (r.evaluations[i].recommended <==> i == 0))
    && r.recommendedVendorId == ranked[0].vendorId && r.recommendedQuoteId == ranked[0].quoteId
  }

  lemma {:induction false} SortedIsRanking(evaluated: seq<BidEvaluation>)
    requires evaluated != [] && forall e :: e in evaluated ==> !e.recommended
    ensures Sort(evaluated, Rank) != []
    ensures var s := Sort(evaluated, Rank); var es := s[0 := s[0].(recommended := true)];
      IsRanking(evaluated, EvaluationResult(|evaluated|, es, es[0].vendorId, es[0].quoteId))
  {
    var s := Sort(evaluated, Rank);
    SortIsStable(evaluated, Rank);
    assert |multiset(s)| == |multiset(evaluated)|;
    forall i | 0 <= i < |s| ensures !s[i].recommended {
      assert s[i] in multiset(s);
    }
    var es := s[0 := s[0].(recommended := true)];
    assert PlainAll(es) == s;
    forall i, j | 0 <= i < j < |s| ensures s[i].compositeScore >= s[j].compositeScore {
      assert Rank(s[i]) <= Rank(s[j]);
    }
  }

  /** The ranking of an evaluation list is unique, and the recommended quote is the first with the highest score. */
  lemma {:induction false} RankingIsDetermined(evaluated: seq<BidEvaluation>, r: EvaluationResult, r': EvaluationResult)
    requires IsRanking(evaluated, r) && IsRanking(evaluated, r')
    ensures r == r'
  {
    var a, b := PlainAll(r.evaluations), PlainAll(r'.evaluations);
    assert forall i, j :: 0 <= i < j < |a| ==> a[i].compositeScore >= a[j].compositeScore;
    assert forall i, j :: 0 <= i < j < |b| ==> b[i].compositeScore >= b[j].compositeScore;
    StableSortIsUnique(a, b, Rank);
    forall i | 0 <= i < |a| ensures r.evaluations[i] == r'.evaluations[i] {
      assert a[i] == b[i];
    }
  }

  lemma {:induction false} RecommendedIsFirstBest(evaluated: seq<BidEvaluation>, r: EvaluationResult)
    requires IsRanking(evaluated, r)
    ensures exists k :: 0 <= k < |evaluated| && Plain(r.evaluations[0]) == evaluated[k]
              && (forall i :: 0 <= i < k ==> evaluated[i].compositeScore < evaluated[k].compositeScore)
              && (forall i :: 0 <= i < |evaluated| ==> evaluated[i].compositeScore <= evaluated[k].compositeScore)
  {
    var ranked := PlainAll(r.evaluations);
    var best := ranked[0];
    forall i | 0 <= i < |evaluated| ensures evaluated[i].compositeScore <= best.compositeScore {
      assert evaluated[i] in multiset(ranked);
      var j :| 0 <= j < |ranked| && ranked[j] == evaluated[i];
    }
    assert Having(ranked, Rank, Rank(best))[0] == best;
    var k := FirstHaving(evaluated, Rank(best));
  }

  lemma {:induction false} FirstHaving(es: seq<BidEvaluation>, k: real) returns (i: nat)
    requires Having(es, Rank, k) != []
    ensures i < |es| && es[i] == Having(es, Rank, k)[0] && Rank(es[i]) == k
    ensures forall j :: 0 <= j < i ==> Rank(es[j]) != k
  {
    if Rank(es[0]) == k {
      return 0;
    }
    var l := FirstHaving(es[1..], k);
    i := l + 1;
    forall j | 0 < j < i ensures Rank(es[j]) != k {
      assert es[1..][j - 1] == es[j];
    }
  }

  // ---- dominance ----------------------------------------------------------------------------

  lemma RoundIsMonotone(x: real, y: real)
    requires x <= y
    ensures Round(x) <= Round(y)
  {
  }

  lemma QuotientAtMostOne(m: real, p: real)
    requires 0.0 <= m <= p && 0.0 < p
    ensures m / p <= 1.0
  {
  }

  /** A price no higher scores no lower, when no price is negative. */
  lemma {:induction false} CheaperScoresNoLower(p: real, q: real, minPrice: real)
    requires 0.0 <= minPrice <= p <= q
    ensures CommercialScore(p, minPrice) >= CommercialScore(q, minPrice)
  {
    if p > 0.0 {
      RoundIsMonotone(minPrice / q * 100.0, minPrice / p * 100.0);
    } else if q > 0.0 {
      QuotientAtMostOne(minPrice, q);
      RoundIsMonotone(minPrice / q * 100.0, 100.0);
      assert Round(100.0) == 100;
    }
  }

  lemma LowestScores(m: real)
    requires m != 0.0
    ensures CommercialScore(m, m) == 100.0 && CommercialScore(m / 2.0, m) == 200.0
  {
    assert m / m == 1.0;
    assert m / (m / 2.0) == 2.0;
  }

  /** For prices down to `minPrice`, a price no higher scores no lower if and only if `minPrice` is not negative. */
  lemma {:induction false} CheaperScoresNoLowerIff(minPrice: real)
    ensures (forall p, q :: minPrice <= p <= q ==> CommercialScore(p, minPrice) >= CommercialScore(q, minPrice))
       <==> minPrice >= 0.0
  {
    if minPrice >= 0.0 {
      forall p, q | minPrice <= p <= q ensures CommercialScore(p, minPrice) >= CommercialScore(q, minPrice) {
        CheaperScoresNoLower(p, q, minPrice);
      }
    } else {
      LowestScores(minPrice);
      assert minPrice <= minPrice <= minPrice / 2.0;
      assert CommercialScore(minPrice, minPrice) < CommercialScore(minPrice / 2.0, minPrice);
    }
  }

  lemma CompositeIsMonotone(t: real, c: real, r: real, t': real, c': real, r': real, weights: Weights)
    requires weights.technical >= 0.0 && weights.commercial >= 0.0 && weights.risk >= 0.0
    requires t <= t' && c <= c' && r <= r'
    ensures Composite(t, c, r, weights) <= Composite(t', c', r', weights)
  {
  }

  predicate NoneNegative(weights: Weights) {
    weights.technical >= 0.0 && weights.commercial >= 0.0 && weights.risk >= 0.0
  }

  /** Quote `a` is no dearer than `b` and no worse in technical and risk score. */
  predicate Dominates(a: VendorQuote, b: VendorQuote) {
    a.totalPrice <= b.totalPrice && TechnicalScore(a) >= TechnicalScore(b) && RiskScore(a) >= RiskScore(b)
  }

  /**
    With a nonnegative lowest price and nonnegative weights, a dominating quote never gets a lower
    composite score, rounding notwithstanding.
  */
  lemma {:induction false} DominantQuoteScoresNoLower(quotes: seq<VendorQuote>, minPrice: real, weights: Weights,
                                                      a: VendorQuote, b: VendorQuote)
    requires IsMinPrice(quotes, minPrice) && a in quotes && b in quotes && minPrice >= 0.0
    requires NoneNegative(weights) && Dominates(a, b)
    ensures Evaluated(a, minPrice, weights).compositeScore >= Evaluated(b, minPrice, weights).compositeScore
  {
    CheaperScoresNoLower(a.totalPrice, b.totalPrice, minPrice);
    CompositeIsMonotone(TechnicalScore(b), CommercialScore(b.totalPrice, minPrice), RiskScore(b),
                        TechnicalScore(a), CommercialScore(a.totalPrice, minPrice), RiskScore(a), weights);
  }

  /** In every list of quotes with this lowest price a dominating quote never gets a lower composite score. */
  ghost predicate DominanceCounts(minPrice: real) {
    forall quotes, weights, a, b ::
      IsMinPrice(quotes, minPrice) && a in quotes && b in quotes && NoneNegative(weights) && Dominates(a, b) ==>
        Evaluated(a, minPrice, weights).compositeScore >= Evaluated(b, minPrice, weights).compositeScore
  }

  /** Two quotes that differ in price only. */
  function Priced(price: real): VendorQuote {
    VendorQuote("q", "v", price, false, None, None, 7.0)
  }

  /**
    Below zero the commercial score turns around: a quote at the lowest price scores half of one at
    half that price.
  */
  lemma {:induction false} NegativePricesTurnTheScore(m: real, weights: Weights)
    requires m < 0.0 && weights == Weights(0.0, 1.0, 0.0)
    ensures IsMinPrice([Priced(m), Priced(m / 2.0)], m) && Dominates(Priced(m), Priced(m / 2.0))
    ensures Evaluated(Priced(m), m, weights).compositeScore == 100
    ensures Evaluated(Priced(m / 2.0), m, weights).compositeScore == 200
  {
    LowestScores(m);
    var quotes := [Priced(m), Priced(m / 2.0)];
    assert quotes[0] in quotes;
  }

  /** Dominance counts for every list of quotes with a given lowest price if and only if that price is not negative. */
  lemma {:induction false} DominanceCountsIff(minPrice: real)
    ensures DominanceCounts(minPrice) <==> minPrice >= 0.0
  {
    if minPrice >= 0.0 {
      forall quotes, weights, a, b
        | IsMinPrice(quotes, minPrice) && a in quotes && b in quotes && NoneNegative(weights) && Dominates(a, b)
        ensures Evaluated(a, minPrice, weights).compositeScore >= Evaluated(b, minPrice, weights).compositeScore
      {
        DominantQuoteScoresNoLower(quotes, minPrice, weights, a, b);
      }
    } else {
      var weights := Weights(0.0, 1.0, 0.0);
      NegativePricesTurnTheScore(minPrice, weights);
      var a, b := Priced(minPrice), Priced(minPrice / 2.0);
      assert a in [a, b] && b in [a, b] && NoneNegative(weights);
    }
  }

  // ---- the scores, from the values given ------------------------------------------------------

  /** The integer nearest to a number, halves upwards. */
  ghost predicate NearestTo(score: int, x: real) {
    score as real - 0.5 <= x < score as real + 0.5
  }

  /** A score given for the quote, or 30 for a quote that does not comply and 90 for any other. */
  ghost predicate ScoresTechnically(q: VendorQuote, score: real) {
    && (q.technicalScore.Some? ==> score == q.technicalScore.value)
    && (q.technicalScore.None? && q.nonCompliant ==> score == 30.0)
    && (q.technicalScore.None? && !q.nonCompliant ==> score == 90.0)
  }

  /** A score given, or 90 for a delivery within fourteen days and 70 for a later one. */
  ghost predicate ScoresRisk(q: VendorQuote, score: real) {
    && (q.riskScore.Some? ==> score == q.riskScore.value)
    && (q.riskScore.None? && q.deliveryTimeDays <= 14.0 ==> score == 90.0)
    && (q.riskScore.None? && q.deliveryTimeDays > 14.0 ==> score == 70.0)
  }

  /** The lowest price as a whole percentage of the price; a quote at no price scores 100. */
  ghost predicate ScoresCommercially(q: VendorQuote, minPrice: real, score: real) {
    && (q.totalPrice == 0.0 ==> score == 100.0)
    && (q.totalPrice != 0.0 ==>
          score == score.Floor as real && NearestTo(score.Floor, minPrice / q.totalPrice * 100.0))
  }

  /** The evaluation of a quote next to the lowest price: three scores, and their weighted sum rounded. */
  ghost predicate IsEvaluation(q: VendorQuote, e: BidEvaluation, minPrice: real, weights: Weights) {
    && e.quoteId == q.id && e.vendorId == q.vendorId && e.totalPrice == q.totalPrice && !e.recommended
    && ScoresTechnically(q, e.technicalScore)
    && ScoresCommercially(q, minPrice, e.commercialScore)
    && ScoresRisk(q, e.riskScore)
    && NearestTo(e.compositeScore, e.technicalScore * weights.technical + e.commercialScore * weights.commercial
                                   + e.riskScore * weights.risk)
  }

  lemma NearestIsRound(score: int, x: real)
    ensures NearestTo(score, x) <==> score == Round(x)
  {
  }

  lemma CommercialScoreIs(q: VendorQuote, minPrice: real, score: real)
    ensures ScoresCommercially(q, minPrice, score) <==> score == CommercialScore(q.totalPrice, minPrice)
  {
    if q.totalPrice != 0.0 {
      NearestWhole(score, minPrice / q.totalPrice * 100.0);
    }
  }

  lemma NearestWhole(score: real, x: real)
    ensures score == score.Floor as real && NearestTo(score.Floor, x) <==> score == Round(x) as real
  {
    NearestIsRound(score.Floor, x);
  }

  /** Every quote is evaluated so, and in no other way. */
  lemma {:induction false} EvaluationIff(q: VendorQuote, e: BidEvaluation, minPrice: real, weights: Weights)
    ensures IsEvaluation(q, e, minPrice, weights) <==> e == Evaluated(q, minPrice, weights)
  {
    CommercialScoreIs(q, minPrice, e.commercialScore);
    NearestIsRound(e.compositeScore, e.technicalScore * weights.technical + e.commercialScore * weights.commercial
                                     + e.riskScore * weights.risk);
  }

  /** The recommended quote is one of those given, the first with the highest composite score. */
  lemma {:induction false} RecommendedIsQuote(quotes: seq<VendorQuote>, minPrice: real, weights: Weights,
                                              r: EvaluationResult) returns (k: nat, es: seq<BidEvaluation>)
    requires IsRanking(EvaluatedAll(quotes, minPrice, weights), r)
    ensures k < |quotes| == |es| && r.recommendedQuoteId == quotes[k].id && r.recommendedVendorId == quotes[k].vendorId
    ensures forall i :: 0 <= i < |quotes| ==> IsEvaluation(quotes[i], es[i], minPrice, weights)
    ensures forall i :: 0 <= i < |quotes| ==> es[i].compositeScore <= es[k].compositeScore
    ensures forall i :: 0 <= i < k ==> es[i].compositeScore < es[k].compositeScore
  {
    es := EvaluatedAll(quotes, minPrice, weights);
    RecommendedIsFirstBest(es, r);
    k :| 0 <= k < |es| && Plain(r.evaluations[0]) == es[k]
         && (forall i :: 0 <= i < k ==> es[i].compositeScore < es[k].compositeScore)
         && (forall i :: 0 <= i < |es| ==> es[i].compositeScore <= es[k].compositeScore);
    forall i | 0 <= i < |quotes| ensures IsEvaluation(quotes[i], es[i], minPrice, weights) {
      EvaluationIff(quotes[i], es[i], minPrice, weights);
    }
  }
}
