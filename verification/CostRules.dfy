/**
 The cost of one node: the cheapest way in from its parents, the winloss principal variation, and
 the costs handed on to its children. The numeric heuristics are arbitrary functions of what they
 read; only their inputs matter here.
 */
module CostRules {
  import opened Util
  import opened BookData
  import opened ValueRules
  import opened Symmetry

  datatype MoveCore = MoveCore(hash: BookHash, rawPolicy: real)

  /** What the cost pass reads of a node besides its parents' costs. */
  datatype CostShape = CostShape(
    hash: BookHash,
    isRoot: bool,
    keptBestParentIdx: int,      // the root keeps its bestParentIdx
    pla: Player,
    own: BookValues,
    values: RecursiveBookValues,
    canExpand: bool,
    canReExpand: bool,
    core: map<Loc, MoveCore>,
    kidValues: map<Loc, RecursiveBookValues>,
    parents: seq<(BookHash, Loc)>)

  datatype MoveCosts = MoveCosts(costFromRoot: real, isWLPV: bool, biggestWLCostFromRoot: real)

  /** What comes in from the parents. */
  datatype FromParents = FromParents(
    minDepth: int, minCost: real, minCostWLPV: real, biggestWLCost: real, bestParentIdx: int)

  datatype NodeCosts = NodeCosts(
    incoming: FromParents,
    expansionCost: real,
    expansionIsWLPV: bool,
    moves: map<Loc, MoveCosts>)

  /** Settings and heuristics of the cost pass. */
  datatype CostParams = CostParams(
    bonusByHash: map<BookHash, real>,
    maxVisitsForReExpansion: real,
    tooFewVisits: (BookHash, RecursiveBookValues) -> bool,        // visitsRequiredByHash is not met
    moveCost: (CostShape, FromParents, Loc, Loc) -> (real, real),  // by move and by the WLPV move
    expansionCost: (CostShape, FromParents, Loc) -> real)

  const DEPTH_UNBOUNDED: int := 0x3FFFFFFF

  // ---------------------------------------------------------------------------------------------
  // From the parents

  /** One parent entry: its depth, its WLPV cost and the costs of its move to this node. */
  datatype Entry = Entry(depth: int, minCostWLPV: real, move: MoveCosts)

  function StartFromParents(): FromParents {
    FromParents(DEPTH_UNBOUNDED, UNBOUNDED, UNBOUNDED, UNBOUNDED, 0)
  }

  function TakeParent(acc: FromParents, idx: int, e: Entry): FromParents {
    var a := if e.move.costFromRoot < acc.minCost
             then acc.(minCost := e.move.costFromRoot, biggestWLCost := e.move.biggestWLCostFromRoot, bestParentIdx := idx)
             else acc;
    var c := if e.move.isWLPV && e.minCostWLPV < a.minCostWLPV then a.(minCostWLPV := e.minCostWLPV) else a;
    if e.depth + 1 < c.minDepth then c.(minDepth := e.depth + 1) else c
  }

  function TakeParents(entries: seq<Entry>): FromParents {
    if entries == [] then StartFromParents()
    else TakeParent(TakeParents(entries[..|entries| - 1]), |entries| - 1, entries[|entries| - 1])
  }

  /** User bonuses, the penalty for missing visits, and the cap on the WLPV cost. */
  function AdjustIncoming(cp: CostParams, shape: CostShape, f: FromParents): FromParents {
    var bonus := if shape.hash in cp.bonusByHash then cp.bonusByHash[shape.hash] else 0.0;
    var short := if cp.tooFewVisits(shape.hash, shape.values) then 500.0 else 0.0;
    var minCost := f.minCost - bonus - short;
    f.(minCost := minCost, minCostWLPV := if minCost < f.minCostWLPV then minCost else f.minCostWLPV)
  }

  function Incoming(cp: CostParams, shape: CostShape, entries: seq<Entry>): FromParents {
    AdjustIncoming(cp, shape,
      if shape.isRoot then FromParents(0, 0.0, 0.0, 0.0, shape.keptBestParentIdx) else TakeParents(entries))
  }

  /**
   The chosen parent is a cheapest one, and the first among those, if any parent costs less than the
   sentinel. If none does, no minimum is found: the costs are the sentinel and the index is 0.
   */
  lemma {:induction false} BestParentIsCheapest(entries: seq<Entry>)
    ensures var f := TakeParents(entries);
            && (f.minCost < UNBOUNDED <==> exists i :: 0 <= i < |entries| && entries[i].move.costFromRoot < UNBOUNDED)
            && (f.minCost < UNBOUNDED ==>
                  && 0 <= f.bestParentIdx < |entries|
                  && f.minCost == entries[f.bestParentIdx].move.costFromRoot
                  && f.biggestWLCost == entries[f.bestParentIdx].move.biggestWLCostFromRoot
                  && (forall i :: 0 <= i < |entries| ==> f.minCost <= entries[i].move.costFromRoot)
                  && (forall i :: 0 <= i < f.bestParentIdx ==> f.minCost < entries[i].move.costFromRoot))
            && (!(f.minCost < UNBOUNDED) ==> f.minCost == UNBOUNDED && f.biggestWLCost == UNBOUNDED && f.bestParentIdx == 0)
  {
    if entries != [] {
      var init := entries[..|entries| - 1];
      BestParentIsCheapest(init);
      assert forall i :: 0 <= i < |init| ==> init[i] == entries[i];
      var last := entries[|entries| - 1];
      assert last.move.costFromRoot < UNBOUNDED ==> entries[|entries| - 1].move.costFromRoot < UNBOUNDED;
      if i :| 0 <= i < |entries| && entries[i].move.costFromRoot < UNBOUNDED {
        assert i < |init| ==> init[i].move.costFromRoot < UNBOUNDED;
      }
    }
  }

  // ---------------------------------------------------------------------------------------------
  // The winloss principal variation

  function Perspective(pla: Player, w: real): real { if pla == White then w else -w }

  datatype Pick = Pick(best: real, move: Loc)   // NULL_LOC: no move, expand here

  /** The best of the first k moves; a later move must be strictly better to replace it. */
  function PickMove(shape: CostShape, locs: seq<Loc>, k: nat): Pick
    requires k <= |locs| && forall i :: 0 <= i < |locs| ==> locs[i] in shape.kidValues
  {
    if k == 0 then Pick(-UNBOUNDED, NULL_LOC)
    else
      var rest := PickMove(shape, locs, k - 1);
      var w := Perspective(shape.pla, shape.kidValues[locs[k - 1]].winLossValue);
      if w > rest.best then Pick(w, locs[k - 1]) else rest
  }

  function MoveOrder(shape: CostShape): (locs: seq<Loc>)
    ensures forall i :: 0 <= i < |locs| ==> locs[i] in shape.kidValues
    ensures forall loc :: loc in shape.kidValues ==> loc in locs
  {
    var locs := Ascending(shape.kidValues.Keys);
    assert forall i :: 0 <= i < |locs| ==> locs[i] in locs;
    locs
  }

  /** The move on the winloss principal variation, or NULL_LOC when it is to expand this node. */
  function WLPVMove(shape: CostShape): Loc {
    var locs := MoveOrder(shape);
    var pick := PickMove(shape, locs, |locs|);
    if Perspective(shape.pla, shape.own.winLossValue) > pick.best then NULL_LOC else pick.move
  }

  lemma {:induction false} PickIsBest(shape: CostShape, locs: seq<Loc>, k: nat)
    requires k <= |locs| && forall i :: 0 <= i < |locs| ==> locs[i] in shape.kidValues
    requires forall i :: 0 <= i < |locs| ==> locs[i] != NULL_LOC
    ensures var p := PickMove(shape, locs, k);
            && (forall i :: 0 <= i < k ==> Perspective(shape.pla, shape.kidValues[locs[i]].winLossValue) <= p.best)
            && (p.move != NULL_LOC ==> p.move in locs && p.best == Perspective(shape.pla, shape.kidValues[p.move].winLossValue))
            && (p.move == NULL_LOC ==> p.best == -UNBOUNDED)
  {
    if k > 0 {
      PickIsBest(shape, locs, k - 1);
    }
  }

  // ---------------------------------------------------------------------------------------------
  // The whole node

  /** The heuristics look at canReExpand only in a node with few visits. */
  function AsRead(cp: CostParams, shape: CostShape): CostShape {
    shape.(canReExpand := shape.canReExpand && shape.values.visits <= cp.maxVisitsForReExpansion)
  }

  function OutgoingMoves(cp: CostParams, shape: CostShape, f: FromParents, wlpv: Loc): map<Loc, MoveCosts> {
    map loc | loc in shape.core ::
      MoveCosts(cp.moveCost(AsRead(cp, shape), f, wlpv, loc).0, loc == wlpv,
                cp.moveCost(AsRead(cp, shape), f, wlpv, loc).1)
  }

  function NodeCostsOf(cp: CostParams, shape: CostShape, entries: seq<Entry>): NodeCosts {
    var f := Incoming(cp, shape, entries);
    var wlpv := WLPVMove(shape);
    NodeCosts(f, cp.expansionCost(AsRead(cp, shape), f, wlpv), wlpv == NULL_LOC, OutgoingMoves(cp, shape, f, wlpv))
  }
}
