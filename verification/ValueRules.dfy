/**
 The value of one node: its own search values combined with its children's recursive values, by
 minimax for the estimates and by sum for the visit counts.
 */
module ValueRules {
  import opened Util
  import opened BookData

  /** The settings the value pass reads; the two heuristics are arbitrary functions. */
  datatype Params = Params(
    errorFactor: real,
    sharpScoreOutlierCap: real,
    visitsScale: real,
    scoreErrorOf: BookValues -> real,                     // getAdjustedScoreError
    sortingValueOf: (Player, RecursiveBookValues, real) -> real,
    ewmaOf: seq<VisitItem> -> real)                       // moving average over the worse moves

  const UNBOUNDED: real := 10000000000000000000000000000000000000000000000000000000000000000000000000000000000000000000000000000.0

  datatype Kid = Kid(hash: BookHash, rawPolicy: real)

  /** What the value pass reads of a node besides its children's values. */
  datatype NodeShape = NodeShape(pla: Player, own: BookValues, kids: seq<Kid>)

  datatype VisitItem = VisitItem(sortingValue: real, visits: real)

  function WinLossError(own: BookValues): real {
    if own.winLossError < 0.0 then 0.0 else own.winLossError
  }

  /** The node's values before any child is looked at. */
  function NotInBook(p: Params, own: BookValues): RecursiveBookValues {
    var scoreError := p.scoreErrorOf(own);
    var winLossError := WinLossError(own);
    var scoreLCB := own.scoreMean - p.errorFactor * scoreError;
    var scoreUCB := own.scoreMean + p.errorFactor * scoreError;
    var sharp := own.sharpScoreMeanRaw;
    var high := if sharp > own.scoreMean + p.sharpScoreOutlierCap then own.scoreMean + p.sharpScoreOutlierCap else sharp;
    var clamped := if high < own.scoreMean - p.sharpScoreOutlierCap then own.scoreMean - p.sharpScoreOutlierCap else high;
    RecursiveBookValues(
      own.winLossValue, own.scoreMean, clamped,
      own.winLossValue - p.errorFactor * winLossError,
      if scoreError > 0.0 && sharp < scoreLCB then sharp else scoreLCB,
      own.scoreMean - p.errorFactor * own.scoreStdev,
      own.winLossValue + p.errorFactor * winLossError,
      if scoreError > 0.0 && sharp > scoreUCB then sharp else scoreUCB,
      own.scoreMean + p.errorFactor * own.scoreStdev,
      own.weight, own.visits, 0.0)
  }

  function Better(pla: Player, a: real, b: real): real {
    if pla == White then MaxR(a, b) else MinR(a, b)
  }

  function Combine(pla: Player, a: RecursiveBookValues, v: RecursiveBookValues): RecursiveBookValues {
    RecursiveBookValues(
      Better(pla, a.winLossValue, v.winLossValue),
      Better(pla, a.scoreMean, v.scoreMean),
      Better(pla, a.sharpScoreMean, v.sharpScoreMean),
      Better(pla, a.winLossLCB, v.winLossLCB),
      Better(pla, a.scoreLCB, v.scoreLCB),
      Better(pla, a.scoreFinalLCB, v.scoreFinalLCB),
      Better(pla, a.winLossUCB, v.winLossUCB),
      Better(pla, a.scoreUCB, v.scoreUCB),
      Better(pla, a.scoreFinalUCB, v.scoreFinalUCB),
      a.weight + v.weight,
      a.visits + v.visits,
      a.adjustedVisits)
  }

  function CombineAll(pla: Player, a: RecursiveBookValues, vs: seq<RecursiveBookValues>): RecursiveBookValues {
    if vs == [] then a else Combine(pla, CombineAll(pla, a, vs[..|vs| - 1]), vs[|vs| - 1])
  }

  // ---------------------------------------------------------------------------------------------
  // Adjusted visits

  function InsertItem(x: VisitItem, items: seq<VisitItem>): seq<VisitItem> {
    if items == [] || x.sortingValue <= items[0].sortingValue then [x] + items
    else [items[0]] + InsertItem(x, items[1..])
  }

  /** The items from worst to best. */
  function SortItems(items: seq<VisitItem>): (r: seq<VisitItem>)
    ensures |r| == |items|
  {
    if items == [] then [] else InsertItemLength(items[0], SortItems(items[1..])); InsertItem(items[0], SortItems(items[1..]))
  }

  lemma InsertItemLength(x: VisitItem, items: seq<VisitItem>)
    ensures |InsertItem(x, items)| == |items| + 1
  {
  }

  /** The cap that item i of the sorted list puts on every worse item. */
  function CapOf(p: Params, sorted: seq<VisitItem>, i: nat): real
    requires i < |sorted|
  {
    MaxR(p.ewmaOf(sorted[..i + 1]), sorted[i].visits)
  }

  function LowestCap(p: Params, sorted: seq<VisitItem>, k: nat): real
    requires k <= |sorted|
    decreases |sorted| - k
  {
    if k == |sorted| then UNBOUNDED else MinR(CapOf(p, sorted, k), LowestCap(p, sorted, k + 1))
  }

  /** Capped visits of the items from the k-th worst on. */
  function CappedVisits(p: Params, sorted: seq<VisitItem>, k: nat): real
    requires k <= |sorted|
    decreases |sorted| - k
  {
    if k == |sorted| then 0.0
    else CappedVisits(p, sorted, k + 1) + MinR(4.0 * LowestCap(p, sorted, k) + p.visitsScale, sorted[k].visits)
  }

  function KidItem(p: Params, pla: Player, kid: Kid, v: RecursiveBookValues): VisitItem {
    VisitItem(p.sortingValueOf(pla, v, kid.rawPolicy), v.adjustedVisits)
  }

  function VisitItems(p: Params, shape: NodeShape, vs: seq<RecursiveBookValues>): seq<VisitItem>
    requires |vs| == |shape.kids|
  {
    var notInBook := NotInBook(p, shape.own);
    seq(|vs|, i requires 0 <= i < |vs| => KidItem(p, shape.pla, shape.kids[i], vs[i]))
    + [VisitItem(p.sortingValueOf(shape.pla, notInBook, shape.own.maxPolicy), shape.own.visits)]
  }

  /** The recursive values a node should have, given its children's. */
  function NodeValues(p: Params, shape: NodeShape, vs: seq<RecursiveBookValues>): RecursiveBookValues
    requires |vs| == |shape.kids|
  {
    CombineAll(shape.pla, NotInBook(p, shape.own), vs)
    .(adjustedVisits := CappedVisits(p, SortItems(VisitItems(p, shape, vs)), 0))
  }

  // ---------------------------------------------------------------------------------------------
  // What the estimates mean

  /** The nine numbers a node takes the best of. */
  datatype Estimate = WinLossMean | ScoreMean | SharpScore | WinLossLow | ScoreLow | ScoreFinalLow
                    | WinLossHigh | ScoreHigh | ScoreFinalHigh

  function Reading(e: Estimate, v: RecursiveBookValues): real {
    match e
    case WinLossMean => v.winLossValue
    case ScoreMean => v.scoreMean
    case SharpScore => v.sharpScoreMean
    case WinLossLow => v.winLossLCB
    case ScoreLow => v.scoreLCB
    case ScoreFinalLow => v.scoreFinalLCB
    case WinLossHigh => v.winLossUCB
    case ScoreHigh => v.scoreUCB
    case ScoreFinalHigh => v.scoreFinalUCB
  }

  /** w is the value of one of the candidates and none is better for the player. */
  ghost predicate IsMinimax(pla: Player, w: real, own: real, kids: seq<real>) {
    && (w == own || w in kids)
    && (pla == White ==> own <= w && forall k :: k in kids ==> k <= w)
    && (pla == Black ==> w <= own && forall k :: k in kids ==> w <= k)
  }

  ghost function Readings(e: Estimate, vs: seq<RecursiveBookValues>): seq<real> {
    seq(|vs|, i requires 0 <= i < |vs| => Reading(e, vs[i]))
  }

  lemma CombineReads(e: Estimate, pla: Player, a: RecursiveBookValues, v: RecursiveBookValues)
    ensures Reading(e, Combine(pla, a, v)) == Better(pla, Reading(e, a), Reading(e, v))
  {
  }

  lemma {:induction false} CombineIsMinimax(e: Estimate, pla: Player, a: RecursiveBookValues, vs: seq<RecursiveBookValues>)
    ensures IsMinimax(pla, Reading(e, CombineAll(pla, a, vs)), Reading(e, a), Readings(e, vs))
  {
    hide Reading, Combine;
    if vs != [] {
      var init := vs[..|vs| - 1];
      CombineIsMinimax(e, pla, a, init);
      CombineReads(e, pla, CombineAll(pla, a, init), vs[|vs| - 1]);
      assert Readings(e, vs) == Readings(e, init) + [Reading(e, vs[|vs| - 1])];
    }
  }

  lemma AdjustmentUnread(e: Estimate, v: RecursiveBookValues, adjustedVisits: real)
    ensures Reading(e, v.(adjustedVisits := adjustedVisits)) == Reading(e, v)
  {
  }

  /** In each estimate a white node takes the best of its own and its children's, a black node the worst. */
  lemma NodeIsMinimax(p: Params, shape: NodeShape, vs: seq<RecursiveBookValues>, e: Estimate)
    requires |vs| == |shape.kids|
    ensures IsMinimax(shape.pla, Reading(e, NodeValues(p, shape, vs)), Reading(e, NotInBook(p, shape.own)), Readings(e, vs))
  {
    hide Reading, NotInBook, CombineAll, CappedVisits;
    CombineIsMinimax(e, shape.pla, NotInBook(p, shape.own), vs);
    AdjustmentUnread(e, CombineAll(shape.pla, NotInBook(p, shape.own), vs),
                     CappedVisits(p, SortItems(VisitItems(p, shape, vs)), 0));
  }

  function Distance(a: real, b: real): real { if a < b then b - a else a - b }

  /** low and high lie at the same distance from mean, factor times the error. */
  predicate Around(low: real, mean: real, high: real, factor: real, error: real) {
    mean - low == factor * error && high - mean == factor * error
  }

  /**
   A node's own estimates: its search's means, bounds around them, and the sharp score moved no further
   than it must be to come within the cap of the mean. Where there is an error at all, the score bounds
   are widened just enough to hold the raw sharp score.
   */
  lemma OwnEstimates(p: Params, own: BookValues)
    ensures var v, error := NotInBook(p, own), p.scoreErrorOf(own);
      && v.winLossValue == own.winLossValue && v.scoreMean == own.scoreMean
      && v.weight == own.weight && v.visits == own.visits
      && Around(v.winLossLCB, v.winLossValue, v.winLossUCB, p.errorFactor, MaxR(own.winLossError, 0.0))
      && Around(v.scoreFinalLCB, v.scoreMean, v.scoreFinalUCB, p.errorFactor, own.scoreStdev)
      && (!(error > 0.0) ==> Around(v.scoreLCB, v.scoreMean, v.scoreUCB, p.errorFactor, error))
      && (error > 0.0 ==>
            && v.scoreLCB == MinR(own.scoreMean - p.errorFactor * error, own.sharpScoreMeanRaw)
            && v.scoreUCB == MaxR(own.scoreMean + p.errorFactor * error, own.sharpScoreMeanRaw))
    ensures p.sharpScoreOutlierCap >= 0.0 ==>
              var sharp := NotInBook(p, own).sharpScoreMean;
              && Distance(sharp, own.scoreMean) <= p.sharpScoreOutlierCap
              && forall x :: Distance(x, own.scoreMean) <= p.sharpScoreOutlierCap ==>
                   Distance(sharp, own.sharpScoreMeanRaw) <= Distance(x, own.sharpScoreMeanRaw)
  {
  }

  /** Errors are not negative. */
  predicate ErrorsOk(p: Params, own: BookValues) {
    p.errorFactor >= 0.0 && p.scoreErrorOf(own) >= 0.0 && own.scoreStdev >= 0.0
  }

  /** A lower bound and its mean, or a mean and its upper bound. */
  predicate Bounds(lo: Estimate, hi: Estimate) {
    || (lo == WinLossLow && hi == WinLossMean) || (lo == WinLossMean && hi == WinLossHigh)
    || (lo == ScoreLow && hi == ScoreMean) || (lo == ScoreMean && hi == ScoreHigh)
    || (lo == ScoreFinalLow && hi == ScoreMean) || (lo == ScoreMean && hi == ScoreFinalHigh)
  }

  lemma OwnBoundsEnclose(p: Params, own: BookValues, lo: Estimate, hi: Estimate)
    requires ErrorsOk(p, own) && Bounds(lo, hi)
    ensures Reading(lo, NotInBook(p, own)) <= Reading(hi, NotInBook(p, own))
  {
    assert p.errorFactor * p.scoreErrorOf(own) >= 0.0;
    assert p.errorFactor * own.scoreStdev >= 0.0;
    assert p.errorFactor * WinLossError(own) >= 0.0;
  }

  /** The two numbers that are added up. */
  datatype Total = Visits | Weight

  function TotalOf(t: Total, v: RecursiveBookValues): real { if t == Visits then v.visits else v.weight }

  function OwnTotal(t: Total, own: BookValues): real { if t == Visits then own.visits else own.weight }

  function SumTotals(t: Total, vs: seq<RecursiveBookValues>): real {
    if vs == [] then 0.0 else SumTotals(t, vs[..|vs| - 1]) + TotalOf(t, vs[|vs| - 1])
  }

  lemma {:induction false} CombineSums(t: Total, pla: Player, a: RecursiveBookValues, vs: seq<RecursiveBookValues>)
    ensures TotalOf(t, CombineAll(pla, a, vs)) == TotalOf(t, a) + SumTotals(t, vs)
  {
    if vs != [] {
      CombineSums(t, pla, a, vs[..|vs| - 1]);
    }
  }

  function SumItems(items: seq<VisitItem>): real {
    if items == [] then 0.0 else items[0].visits + SumItems(items[1..])
  }

  lemma {:induction false} InsertKeepsSum(x: VisitItem, items: seq<VisitItem>)
    ensures SumItems(InsertItem(x, items)) == x.visits + SumItems(items)
  {
    if items == [] || x.sortingValue <= items[0].sortingValue {
      assert ([x] + items)[1..] == items;
    } else {
      InsertKeepsSum(x, items[1..]);
      assert InsertItem(x, items)[1..] == InsertItem(x, items[1..]);
    }
  }

  lemma {:induction false} SortKeepsSum(items: seq<VisitItem>)
    ensures SumItems(SortItems(items)) == SumItems(items)
  {
    if items != [] {
      SortKeepsSum(items[1..]);
      InsertKeepsSum(items[0], SortItems(items[1..]));
    }
  }

  lemma {:induction false} CappedAtMostSum(p: Params, sorted: seq<VisitItem>, k: nat)
    requires k <= |sorted|
    ensures CappedVisits(p, sorted, k) <= SumItems(sorted[k..])
    decreases |sorted| - k
  {
    if k < |sorted| {
      CappedAtMostSum(p, sorted, k + 1);
      assert sorted[k..][1..] == sorted[k + 1..];
    }
  }

  lemma {:induction false} KidItemsAtMostVisits(p: Params, shape: NodeShape, vs: seq<RecursiveBookValues>, k: nat)
    requires |vs| == |shape.kids| && k <= |vs|
    requires forall i :: 0 <= i < |vs| ==> vs[i].adjustedVisits <= vs[i].visits
    ensures SumItems(VisitItems(p, shape, vs)[k..]) <= SumTotals(Visits, vs) - SumTotals(Visits, vs[..k]) + shape.own.visits
    decreases |vs| - k
  {
    var items := VisitItems(p, shape, vs);
    assert vs[..|vs|] == vs;
    if k < |vs| {
      KidItemsAtMostVisits(p, shape, vs, k + 1);
      assert items[k..][1..] == items[k + 1..];
      assert vs[..k + 1][..k] == vs[..k];
    } else {
      assert items[k..] == [items[|vs|]];
      assert SumItems([items[|vs|]]) == items[|vs|].visits + SumItems([]);
    }
  }

  /** Downweighting only takes visits away. */
  lemma AdjustedAtMostVisits(p: Params, shape: NodeShape, vs: seq<RecursiveBookValues>)
    requires |vs| == |shape.kids|
    requires forall i :: 0 <= i < |vs| ==> vs[i].adjustedVisits <= vs[i].visits
    ensures NodeValues(p, shape, vs).adjustedVisits <= NodeValues(p, shape, vs).visits
  {
    var items := VisitItems(p, shape, vs);
    CombineSums(Visits, shape.pla, NotInBook(p, shape.own), vs);
    CappedAtMostSum(p, SortItems(items), 0);
    assert SortItems(items)[0..] == SortItems(items);
    SortKeepsSum(items);
    KidItemsAtMostVisits(p, shape, vs, 0);
    assert items[0..] == items;
  }
}
