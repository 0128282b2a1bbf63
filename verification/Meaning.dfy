/** What the values and marks of a settled acyclic book mean. */
module Meaning {
  import opened Util
  import opened BookData
  import opened ValueRules
  import opened ValueTasks
  import opened VisitCaps
  import opened CostRules
  import opened CostTasks
  import opened Settled
  import opened Symmetry

  /** A book whose values and costs have all been recomputed. */
  ghost predicate Recomputed(p: Params, cp: CostParams, sn: Snapshot, root: BookHash) {
    Linked(sn, root) && ValuesSettled(p, sn) && CostsSettled(cp, sn, root)
  }

  ghost function WinLoss(sn: Snapshot, h: BookHash): real
    requires h in sn
  {
    sn[h].values.winLossValue
  }

  lemma SettledNode(p: Params, sn: Snapshot, root: BookHash, h: BookHash)
    requires Linked(sn, root) && ValuesSettled(p, sn) && h in sn
    ensures KidsIn(KidsOf(sn[h].moves), ValuesOf(sn))
    ensures sn[h].values == NodeValues(p, ShapeOf(sn[h]), KidValues(KidsOf(sn[h].moves), ValuesOf(sn)))
  {
    LinkedCloses(sn, root);
    assert ValueSettledAt(p, sn, h);
    hide NodeValues, KidsOf;
    assert KidsIn(ShapesOf(sn)[h].kids, ShapesOf(sn));
  }

  // ---------------------------------------------------------------------------------------------
  // Minimax and the winloss principal variation

  /** The node's estimate is one of the candidates, and none is better for the player to move. */
  ghost predicate BestForPlayer(sn: Snapshot, h: BookHash, e: Estimate, own: real)
    requires h in sn && forall loc :: loc in sn[h].moves ==> sn[h].moves[loc].hash in sn
  {
    var pla, w := sn[h].inputs.pla, Reading(e, sn[h].values);
    && (w == own || exists loc :: loc in sn[h].moves && w == Reading(e, sn[sn[h].moves[loc].hash].values))
    && Perspective(pla, own) <= Perspective(pla, w)
    && forall loc :: loc in sn[h].moves ==> Perspective(pla, Reading(e, sn[sn[h].moves[loc].hash].values)) <= Perspective(pla, w)
  }

  lemma KidToMove(moves: map<Loc, BookMove>, i: nat) returns (loc: Loc)
    requires i < |KidsOf(moves)|
    ensures loc in moves && KidsOf(moves)[i] == Kid(moves[loc].hash, moves[loc].rawPolicy)
  {
    loc := Ascending(moves.Keys)[i];
  }

  lemma MoveToKid(moves: map<Loc, BookMove>, loc: Loc) returns (i: nat)
    requires loc in moves
    ensures i < |KidsOf(moves)| && KidsOf(moves)[i] == Kid(moves[loc].hash, moves[loc].rawPolicy)
  {
    i :| i < |Ascending(moves.Keys)| && Ascending(moves.Keys)[i] == loc;
  }

  lemma KidReadingAt(sn: Snapshot, kids: seq<Kid>, e: Estimate, i: nat)
    requires KidsIn(kids, ValuesOf(sn)) && i < |kids|
    ensures kids[i].hash in sn && Readings(e, KidValues(kids, ValuesOf(sn)))[i] == Reading(e, sn[kids[i].hash].values)
  {
  }

  /** Each of the nine estimates is the best for the player among its own search's and the children's. */
  lemma SettledIsMinimax(p: Params, sn: Snapshot, root: BookHash, h: BookHash, e: Estimate)
    requires Linked(sn, root) && ValuesSettled(p, sn) && h in sn
    ensures forall loc :: loc in sn[h].moves ==> sn[h].moves[loc].hash in sn
    ensures BestForPlayer(sn, h, e, Reading(e, NotInBook(p, sn[h].inputs.own)))
  {
    SettledNode(p, sn, root, h);
    var kids := KidsOf(sn[h].moves);
    NodeIsMinimax(p, ShapeOf(sn[h]), KidValues(kids, ValuesOf(sn)), e);
    hide ValuesSettled, NodeValues, Reading, NotInBook, KidsOf;
    BestFromMinimax(sn, h, kids, e, Reading(e, NotInBook(p, sn[h].inputs.own)));
  }

  lemma WinLossIsMinimax(p: Params, sn: Snapshot, root: BookHash, h: BookHash)
    requires Linked(sn, root) && ValuesSettled(p, sn) && h in sn
    ensures forall loc :: loc in sn[h].moves ==> sn[h].moves[loc].hash in sn
    ensures BestForPlayer(sn, h, WinLossMean, sn[h].inputs.own.winLossValue)
  {
    hide ValuesSettled, Linked, BestForPlayer;
    SettledIsMinimax(p, sn, root, h, WinLossMean);
  }

  lemma BestFromMinimax(sn: Snapshot, h: BookHash, kids: seq<Kid>, e: Estimate, own: real)
    requires h in sn && kids == KidsOf(sn[h].moves) && KidsIn(kids, ValuesOf(sn))
    requires forall loc :: loc in sn[h].moves ==> sn[h].moves[loc].hash in sn
    requires IsMinimax(sn[h].inputs.pla, Reading(e, sn[h].values), own, Readings(e, KidValues(kids, ValuesOf(sn))))
    ensures BestForPlayer(sn, h, e, own)
  {
    hide KidsOf, KidValues, ValuesOf, Readings, Reading;
    var moves, w := sn[h].moves, Reading(e, sn[h].values);
    var ws := Readings(e, KidValues(kids, ValuesOf(sn)));
    assert |ws| == |kids| by { ReadingCount(e, KidValues(kids, ValuesOf(sn))); }
    if w in ws {
      var i :| 0 <= i < |ws| && ws[i] == w;
      KidReadingAt(sn, kids, e, i);
      var loc := KidToMove(moves, i);
    }
    forall loc | loc in moves
      ensures Perspective(sn[h].inputs.pla, Reading(e, sn[moves[loc].hash].values)) <= Perspective(sn[h].inputs.pla, w)
    {
      var i := MoveToKid(moves, loc);
      KidReadingAt(sn, kids, e, i);
      assert ws[i] in ws;
    }
  }

  lemma ReadingCount(e: Estimate, vs: seq<RecursiveBookValues>)
    ensures |Readings(e, vs)| == |vs|
  {
  }

  /** If one estimate is nowhere above another in what a node takes the best of, it is not at the node. */
  lemma BestKeepsOrder(sn: Snapshot, h: BookHash, lo: Estimate, hi: Estimate, ownLo: real, ownHi: real)
    requires h in sn && forall loc :: loc in sn[h].moves ==> sn[h].moves[loc].hash in sn
    requires BestForPlayer(sn, h, lo, ownLo) && BestForPlayer(sn, h, hi, ownHi) && ownLo <= ownHi
    requires forall loc :: loc in sn[h].moves ==>
      Reading(lo, sn[sn[h].moves[loc].hash].values) <= Reading(hi, sn[sn[h].moves[loc].hash].values)
    ensures Reading(lo, sn[h].values) <= Reading(hi, sn[h].values)
  {
    hide Reading;
  }

  /** With errors that are not negative every mean of an acyclic settled book lies between its bounds. */
  lemma {:induction false} SettledBoundsEnclose(p: Params, sn: Snapshot, root: BookHash, rank: map<BookHash, nat>,
                                                h: BookHash, lo: Estimate, hi: Estimate)
    requires Linked(sn, root) && ValuesSettled(p, sn) && AcyclicBy(sn, rank) && h in sn
    requires Bounds(lo, hi) && forall d :: d in sn ==> ErrorsOk(p, sn[d].inputs.own)
    ensures Reading(lo, sn[h].values) <= Reading(hi, sn[h].values)
    decreases if h in rank then rank[h] else 0
  {
    hide Reading, NotInBook, ValuesSettled, BestForPlayer, Linked, Bounds, ErrorsOk;
    OwnBoundsEnclose(p, sn[h].inputs.own, lo, hi);
    SettledIsMinimax(p, sn, root, h, lo);
    SettledIsMinimax(p, sn, root, h, hi);
    forall loc | loc in sn[h].moves
      ensures Reading(lo, sn[sn[h].moves[loc].hash].values) <= Reading(hi, sn[sn[h].moves[loc].hash].values)
    {
      SettledBoundsEnclose(p, sn, root, rank, sn[h].moves[loc].hash, lo, hi);
    }
    BestKeepsOrder(sn, h, lo, hi, Reading(lo, NotInBook(p, sn[h].inputs.own)), Reading(hi, NotInBook(p, sn[h].inputs.own)));
  }

  /**
   The search for the principal variation starts from a sentinel. This is the one case it gets wrong:
   some move is better than expanding the node, but no move is above the sentinel.
   */
  ghost predicate Swamped(sn: Snapshot, h: BookHash)
    requires h in sn
  {
    Perspective(sn[h].inputs.pla, sn[h].inputs.own.winLossValue) < Perspective(sn[h].inputs.pla, WinLoss(sn, h)) <= -UNBOUNDED
  }

  /** The marks the cost pass leaves: at most one move, or the node itself. */
  lemma MarksAreWLPVMove(cp: CostParams, sn: Snapshot, root: BookHash, h: BookHash)
    requires Linked(sn, root) && CostsSettled(cp, sn, root) && h in sn
    ensures var wlpv := WLPVMove(CostShapeOf(sn, root, h));
            && (sn[h].costs.expansionIsWLPV <==> wlpv == NULL_LOC)
            && forall loc :: loc in sn[h].moves ==> (sn[h].moves[loc].isWLPV <==> loc == wlpv)
  {
    var shape := CostShapeOf(sn, root, h);
    hide Incoming, WLPVMove;
    assert EntriesIn(sn[h].parents, CostsOf(sn)) by {
      forall i | 0 <= i < |sn[h].parents| ensures sn[h].parents[i].0 in CostsOf(sn)
        && sn[h].parents[i].1 in CostsOf(sn)[sn[h].parents[i].0].moves {
        assert sn[h].parents[i] in sn[h].parents;
      }
    }
    var es := EntriesAt(sn[h].parents, CostsOf(sn));
    var wlpv := WLPVMove(shape);
    assert CostOf(sn[h]) == NodeCostsOf(cp, shape, es);
    forall loc | loc in sn[h].moves ensures sn[h].moves[loc].isWLPV <==> loc == wlpv {
      assert MoveCostsOf(sn[h].moves)[loc] == OutgoingMoves(cp, shape, Incoming(cp, shape, es), wlpv)[loc];
    }
  }

  lemma ShapeKids(sn: Snapshot, root: BookHash, h: BookHash)
    requires Linked(sn, root) && h in sn
    ensures var shape := CostShapeOf(sn, root, h);
            && shape.kidValues.Keys == sn[h].moves.Keys && shape.pla == sn[h].inputs.pla && shape.own == sn[h].inputs.own
            && (forall loc :: loc in sn[h].moves ==> sn[h].moves[loc].hash in sn)
            && (forall loc :: loc in sn[h].moves ==> shape.kidValues[loc] == sn[sn[h].moves[loc].hash].values)
            && NULL_LOC !in sn[h].moves
  {
    var moves := sn[h].moves;
    forall loc | loc in moves ensures moves[loc].hash in sn && loc != NULL_LOC && loc in KidValuesByMove(sn, moves) {
    }
  }

  /** w is one of the candidates of the shape, and none is better. */
  ghost predicate ShapeMinimax(shape: CostShape, w: real) {
    && NULL_LOC !in shape.kidValues
    && (w == shape.own.winLossValue || exists loc :: loc in shape.kidValues && w == shape.kidValues[loc].winLossValue)
    && Perspective(shape.pla, shape.own.winLossValue) <= Perspective(shape.pla, w)
    && (forall loc :: loc in shape.kidValues ==>
          Perspective(shape.pla, shape.kidValues[loc].winLossValue) <= Perspective(shape.pla, w))
  }

  /** The move found is a best one, and above the sentinel; none is found if no move is above it. */
  lemma PickFacts(shape: CostShape)
    requires NULL_LOC !in shape.kidValues
    ensures var pick := PickMove(shape, MoveOrder(shape), |MoveOrder(shape)|);
            && (forall loc :: loc in shape.kidValues ==> Perspective(shape.pla, shape.kidValues[loc].winLossValue) <= pick.best)
            && (pick.move != NULL_LOC ==>
                  pick.move in shape.kidValues && pick.best == Perspective(shape.pla, shape.kidValues[pick.move].winLossValue))
            && if pick.move != NULL_LOC then pick.best > -UNBOUNDED else pick.best == -UNBOUNDED
  {
    hide MoveOrder, PickMove, Perspective;
    var locs := MoveOrder(shape);
    forall i | 0 <= i < |locs| ensures locs[i] != NULL_LOC {
    }
    PickIsBest(shape, locs, |locs|);
    PickAboveSentinel(shape, locs, |locs|);
    forall loc | loc in shape.kidValues
      ensures Perspective(shape.pla, shape.kidValues[loc].winLossValue) <= PickMove(shape, locs, |locs|).best
    {
      assert loc in locs;
      var i :| 0 <= i < |locs| && locs[i] == loc;
    }
  }

  lemma PickIsMinimax(shape: CostShape, w: real)
    requires ShapeMinimax(shape, w)
    ensures var wlpv := WLPVMove(shape);
            if wlpv == NULL_LOC then
              shape.own.winLossValue == w
              <==> !(Perspective(shape.pla, shape.own.winLossValue) < Perspective(shape.pla, w) <= -UNBOUNDED)
            else wlpv in shape.kidValues && shape.kidValues[wlpv].winLossValue == w
  {
    hide MoveOrder, PickMove;
    PickFacts(shape);
  }

  lemma ShapeIsMinimax(sn: Snapshot, root: BookHash, h: BookHash)
    requires Linked(sn, root) && h in sn && (forall loc :: loc in sn[h].moves ==> sn[h].moves[loc].hash in sn)
    requires BestForPlayer(sn, h, WinLossMean, sn[h].inputs.own.winLossValue)
    ensures ShapeMinimax(CostShapeOf(sn, root, h), WinLoss(sn, h))
  {
    ShapeKids(sn, root, h);
    hide CostShapeOf, Linked, Perspective;
  }

  /**
   What the marks of a node say: the marked move keeps the value; a node marked for expansion has its
   own, unless swamped.
   */
  ghost predicate MarkOk(sn: Snapshot, h: BookHash, wlpv: Loc) {
    && h in sn
    && (sn[h].costs.expansionIsWLPV <==> wlpv == NULL_LOC)
    && (forall loc :: loc in sn[h].moves ==> (sn[h].moves[loc].isWLPV <==> loc == wlpv))
    && if wlpv == NULL_LOC then NULL_LOC !in sn[h].moves && (sn[h].inputs.own.winLossValue == WinLoss(sn, h) <==> !Swamped(sn, h))
       else wlpv in sn[h].moves && sn[h].moves[wlpv].hash in sn && WinLoss(sn, sn[h].moves[wlpv].hash) == WinLoss(sn, h)
  }

  lemma NodeMark(p: Params, cp: CostParams, sn: Snapshot, root: BookHash, h: BookHash) returns (wlpv: Loc)
    requires Recomputed(p, cp, sn, root) && h in sn
    ensures MarkOk(sn, h, wlpv)
  {
    hide CostShapeOf, WLPVMove, BestForPlayer, ShapeMinimax, MarkOk, Linked, ValuesSettled, CostsSettled;
    WinLossIsMinimax(p, sn, root, h);
    MarksAreWLPVMove(cp, sn, root, h);
    ShapeIsMinimax(sn, root, h);
    PickIsMinimax(CostShapeOf(sn, root, h), WinLoss(sn, h));
    wlpv := WLPVMove(CostShapeOf(sn, root, h));
    MarkFrom(sn, root, h, wlpv);
  }

  lemma MarkFrom(sn: Snapshot, root: BookHash, h: BookHash, wlpv: Loc)
    requires Linked(sn, root) && h in sn
    requires sn[h].costs.expansionIsWLPV <==> wlpv == NULL_LOC
    requires forall loc :: loc in sn[h].moves ==> (sn[h].moves[loc].isWLPV <==> loc == wlpv)
    requires var shape := CostShapeOf(sn, root, h);
             if wlpv == NULL_LOC then
               shape.own.winLossValue == WinLoss(sn, h)
               <==> !(Perspective(shape.pla, shape.own.winLossValue) < Perspective(shape.pla, WinLoss(sn, h)) <= -UNBOUNDED)
             else wlpv in shape.kidValues && shape.kidValues[wlpv].winLossValue == WinLoss(sn, h)
    ensures MarkOk(sn, h, wlpv)
  {
    ShapeKids(sn, root, h);
    hide CostShapeOf, Linked;
  }

  /** Each step of the path takes a move marked isWLPV. */
  ghost predicate WLPVPath(sn: Snapshot, path: seq<BookHash>) {
    && (forall i :: 0 <= i < |path| ==> path[i] in sn)
    && forall i, j :: 0 <= i && j == i + 1 && j < |path| ==> WLPVStep(sn, path[i], path[j])
  }

  ghost predicate WLPVStep(sn: Snapshot, h: BookHash, d: BookHash) {
    h in sn && exists loc :: loc in sn[h].moves && sn[h].moves[loc].isWLPV && sn[h].moves[loc].hash == d
  }

  lemma WLPVStepKeepsValue(p: Params, cp: CostParams, sn: Snapshot, root: BookHash, h: BookHash, d: BookHash)
    requires Recomputed(p, cp, sn, root) && WLPVStep(sn, h, d)
    ensures d in sn && WinLoss(sn, d) == WinLoss(sn, h)
  {
    hide Recomputed;
    var wlpv := NodeMark(p, cp, sn, root, h);
  }

  /** Along moves marked isWLPV the value never changes. */
  lemma {:induction false} WLPVPathKeepsValue(p: Params, cp: CostParams, sn: Snapshot, root: BookHash,
                                              path: seq<BookHash>)
    requires Recomputed(p, cp, sn, root) && WLPVPath(sn, path) && path != []
    ensures forall i :: 0 <= i < |path| ==> path[i] in sn && WinLoss(sn, path[i]) == WinLoss(sn, path[0])
  {
    hide Recomputed, WLPVStep;
    if |path| > 1 {
      var init := path[..|path| - 1];
      WLPVPathKeepsValue(p, cp, sn, root, init);
      assert WLPVStep(sn, path[|path| - 2], path[|path| - 1]);
      WLPVStepKeepsValue(p, cp, sn, root, path[|path| - 2], path[|path| - 1]);
      forall i | 0 <= i < |path| ensures WinLoss(sn, path[i]) == WinLoss(sn, path[0]) {
        if i < |path| - 1 {
          assert init[i] == path[i];
        } else {
          assert init[|path| - 2] == path[|path| - 2];
        }
      }
    }
  }

  /** There is only one way to follow the marks. */
  lemma WLPVStepUnique(p: Params, cp: CostParams, sn: Snapshot, root: BookHash, h: BookHash, d: BookHash, d': BookHash)
    requires Recomputed(p, cp, sn, root) && WLPVStep(sn, h, d)
    ensures !sn[h].costs.expansionIsWLPV && (WLPVStep(sn, h, d') ==> d == d')
  {
    hide Recomputed;
    var wlpv := NodeMark(p, cp, sn, root, h);
  }

  lemma WLPVPathPrepend(sn: Snapshot, h: BookHash, rest: seq<BookHash>)
    requires WLPVPath(sn, rest) && h in sn && (rest != [] ==> WLPVStep(sn, h, rest[0]))
    ensures WLPVPath(sn, [h] + rest)
  {
    hide WLPVStep;
    var path := [h] + rest;
    forall i, j | 0 <= i && j == i + 1 && j < |path| ensures WLPVStep(sn, path[i], path[j]) {
      if i > 0 {
        assert WLPVStep(sn, rest[i - 1], rest[j - 1]);
      }
    }
  }

  /** A node is marked for expansion, or some marked move leads on. */
  lemma WLPVContinues(p: Params, cp: CostParams, sn: Snapshot, root: BookHash, rank: map<BookHash, nat>,
                      h: BookHash) returns (d: BookHash)
    requires Recomputed(p, cp, sn, root) && AcyclicBy(sn, rank) && h in sn
    ensures sn[h].costs.expansionIsWLPV ==> (sn[h].inputs.own.winLossValue == WinLoss(sn, h) <==> !Swamped(sn, h))
    ensures !sn[h].costs.expansionIsWLPV ==>
              WLPVStep(sn, h,
                       d) && d in sn && WinLoss(sn, d) == WinLoss(sn, h) && h in rank && d in rank && rank[d] < rank[h]
  {
    hide Recomputed;
    var wlpv := NodeMark(p, cp, sn, root, h);
    d := h;
    if wlpv != NULL_LOC {
      d := sn[h].moves[wlpv].hash;
    }
  }

  /**
   Following the marks from any node of an acyclic book ends at a node marked for expansion that has
   the start node's value by minimax. It is the end node's own search value exactly if the end node
   is not swamped.
   */
  lemma {:induction false} WLPVReachesItsValue(p: Params, cp: CostParams, sn: Snapshot, root: BookHash,
                                               rank: map<BookHash, nat>, h: BookHash)
    returns (path: seq<BookHash>)
    requires Recomputed(p, cp, sn, root) && AcyclicBy(sn, rank) && h in sn
    ensures path != [] && path[0] == h && WLPVPath(sn, path)
    ensures var e := path[|path| - 1];
            && e in sn && sn[e].costs.expansionIsWLPV && WinLoss(sn, e) == WinLoss(sn, h)
            && (sn[e].inputs.own.winLossValue == WinLoss(sn, h) <==> !Swamped(sn, e))
    decreases if h in rank then rank[h] else 0
  {
    hide Recomputed, AcyclicBy, WLPVPath, WLPVStep;
    var d := WLPVContinues(p, cp, sn, root, rank, h);
    var rest: seq<BookHash> := [];
    if !sn[h].costs.expansionIsWLPV {
      rest := WLPVReachesItsValue(p, cp, sn, root, rank, d);
    } else {
      assert WLPVPath(sn, []) by { NoPath(sn); }
    }
    path := [h] + rest;
    WLPVPathPrepend(sn, h, rest);
  }

  /** If the searches themselves stay above the sentinel, no node is swamped. */
  lemma OrdinaryNumbersSuffice(p: Params, sn: Snapshot, root: BookHash)
    requires Linked(sn, root) && ValuesSettled(p, sn)
    requires forall h :: h in sn ==> Perspective(sn[h].inputs.pla, sn[h].inputs.own.winLossValue) > -UNBOUNDED
    ensures forall h :: h in sn ==> !Swamped(sn, h)
  {
    hide ValuesSettled, Perspective;
    forall h | h in sn ensures !Swamped(sn, h) {
      WinLossIsMinimax(p, sn, root, h);
    }
  }

  /** Such a node: the move is worth more than the node's own search, yet the node is marked for expansion. */
  lemma BelowTheSentinel(shape: CostShape, loc: Loc)
    requires shape.pla == White && shape.kidValues.Keys == {loc} && loc != NULL_LOC
    requires shape.own.winLossValue == -3.0 * UNBOUNDED && shape.kidValues[loc].winLossValue == -2.0 * UNBOUNDED
    ensures WLPVMove(shape) == NULL_LOC && ShapeMinimax(shape, -2.0 * UNBOUNDED)
    ensures shape.own.winLossValue != -2.0 * UNBOUNDED
  {
    hide MoveOrder, PickMove;
    PickFacts(shape);
  }

  lemma {:induction false} PickAboveSentinel(shape: CostShape, locs: seq<Loc>, k: nat)
    requires k <= |locs| && forall i :: 0 <= i < |locs| ==> locs[i] in shape.kidValues
    ensures PickMove(shape, locs, k).best >= -UNBOUNDED
    ensures PickMove(shape, locs, k).move != NULL_LOC ==> PickMove(shape, locs, k).best > -UNBOUNDED
  {
    if k > 0 {
      PickAboveSentinel(shape, locs, k - 1);
    }
  }

  lemma NoPath(sn: Snapshot)
    ensures WLPVPath(sn, [])
  {
  }

  // ---------------------------------------------------------------------------------------------
  // Adjusted visits

  lemma {:induction false} KidsAdjusted(sn: Snapshot, kids: seq<Kid>, i: nat)
    requires KidsIn(kids, ValuesOf(sn)) && i < |kids|
    requires sn[kids[i].hash].values.adjustedVisits <= sn[kids[i].hash].values.visits
    ensures KidValues(kids, ValuesOf(sn))[i].adjustedVisits <= KidValues(kids, ValuesOf(sn))[i].visits
  {
  }

  /** Downweighted visits never exceed the visits. */
  lemma {:induction false} AdjustedNeverExceeds(p: Params, sn: Snapshot, root: BookHash, rank: map<BookHash, nat>,
                                                h: BookHash)
    requires Linked(sn, root) && ValuesSettled(p, sn) && AcyclicBy(sn, rank) && h in sn
    ensures sn[h].values.adjustedVisits <= sn[h].values.visits
    decreases if h in rank then rank[h] else 0
  {
    SettledNode(p, sn, root, h);
    var moves := sn[h].moves;
    var kids := KidsOf(moves);
    var vs := KidValues(kids, ValuesOf(sn));
    hide NodeValues, KidsOf, ValuesSettled, Linked, ValuesOf;
    forall i | 0 <= i < |vs| ensures vs[i].adjustedVisits <= vs[i].visits {
      var loc := KidToMove(moves, i);
      KidReadingAt(sn, kids, WinLossMean, i);
      AdjustedNeverExceeds(p, sn, root, rank, kids[i].hash);
      KidsAdjusted(sn, kids, i);
    }
    AdjustedAtMostVisits(p, ShapeOf(sn[h]), vs);
  }

  ghost function MoveItem(p: Params, sn: Snapshot, h: BookHash, loc: Loc): VisitItem
    requires h in sn && loc in sn[h].moves && sn[h].moves[loc].hash in sn
  {
    var child := sn[sn[h].moves[loc].hash].values;
    VisitItem(p.sortingValueOf(sn[h].inputs.pla, child, sn[h].moves[loc].rawPolicy), child.adjustedVisits)
  }

  /** What a node's visits come from: its moves in order, and its own search. */
  ghost function ItemsAt(p: Params, sn: Snapshot, h: BookHash): seq<VisitItem>
    requires h in sn && forall loc :: loc in sn[h].moves ==> sn[h].moves[loc].hash in sn
  {
    var locs, own := Ascending(sn[h].moves.Keys), sn[h].inputs.own;
    assert forall i :: 0 <= i < |locs| ==> locs[i] in locs;
    seq(|locs|, i requires 0 <= i < |locs| => MoveItem(p, sn, h, locs[i]))
    + [VisitItem(p.sortingValueOf(sn[h].inputs.pla, NotInBook(p, own), own.maxPolicy), own.visits)]
  }

  lemma ItemsAtAre(p: Params, sn: Snapshot, h: BookHash)
    requires h in sn && KidsIn(KidsOf(sn[h].moves), ValuesOf(sn))
    requires forall loc :: loc in sn[h].moves ==> sn[h].moves[loc].hash in sn
    ensures VisitItems(p, ShapeOf(sn[h]), KidValues(KidsOf(sn[h].moves), ValuesOf(sn))) == ItemsAt(p, sn, h)
  {
    hide NotInBook;
    var items := VisitItems(p, ShapeOf(sn[h]), KidValues(KidsOf(sn[h].moves), ValuesOf(sn)));
    var locs := Ascending(sn[h].moves.Keys);
    forall i | 0 <= i < |locs| ensures items[i] == ItemsAt(p, sn, h)[i] {
      assert locs[i] in locs;
    }
  }

  /**
   A node's adjusted visits, if no two of its items sort equal: the visits of its moves and of its own
   search, each up to the least cap of the items at least as good.
   */
  lemma SettledAdjustedVisits(p: Params, sn: Snapshot, root: BookHash, h: BookHash, sorted: seq<VisitItem>,
                              cap: VisitItem -> real)
    requires Linked(sn, root) && ValuesSettled(p, sn) && h in sn
    requires forall loc :: loc in sn[h].moves ==> sn[h].moves[loc].hash in sn
    requires WorstFirst(sorted) && NoTies(sorted) && multiset(sorted) == multiset(ItemsAt(p, sn, h))
    requires forall i :: 0 <= i < |sorted| ==> LeastCap(p, sorted, sorted[i], cap(sorted[i]))
    ensures sn[h].values.adjustedVisits == SumCappedAt(p, cap, ItemsAt(p, sn, h))
  {
    hide Linked, ValuesSettled, ItemsAt, LeastCap, WorstFirst, NoTies, VisitItems, SumCappedAt, CombineAll, NotInBook,
         KidsOf, KidValues, CappedVisits;
    SettledNode(p, sn, root, h);
    ItemsAtAre(p, sn, h);
    AdjustedAreCapped(p, ItemsAt(p, sn, h), sorted, cap);
  }
}
