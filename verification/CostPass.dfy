/** recomputeNodeCost, in place on the book's nodes. */
module CostPass {
  import opened BookData
  import opened ValueRules
  import opened CostRules
  import opened CostTasks
  import opened Symmetry

  /** sn is what the book holds now. */
  ghost predicate Now(b: Book, sn: Snapshot)
    reads b, b.nodes
  {
    b.Indexed() && sn == b.Snapshot()
  }

  lemma ReadNode(b: Book, sn: Snapshot, h: BookHash)
    requires Now(b, sn) && h in sn
    ensures b.Indexed() && h in b.nodeIdx && b.Get(h).State() == sn[h]
  {
  }

  lemma NodeNow(b: Book, sn: Snapshot, node: BookNode)
    requires Now(b, sn) && node in b.nodes
    ensures node.hash in sn && sn[node.hash] == node.State()
  {
    b.Has(node);
  }

  lemma NextEntry(parents: seq<(BookHash, Loc)>, costs: Costs, i: nat)
    requires EntriesIn(parents, costs) && i < |parents|
    ensures parents[i].0 in costs && parents[i].1 in costs[parents[i].0].moves
    ensures TakeParents(EntriesAt(parents, costs)[..i + 1]) ==
            TakeParent(TakeParents(EntriesAt(parents, costs)[..i]), i, EntryAt(parents[i], costs))
  {
    assert EntriesAt(parents, costs)[..i + 1][..i] == EntriesAt(parents, costs)[..i];
  }

  lemma EntryNow(sn: Snapshot, h: BookHash, loc: Loc)
    requires h in sn && loc in CostsOf(sn)[h].moves
    ensures loc in sn[h].moves
    ensures EntryAt((h, loc), CostsOf(sn)) ==
      Entry(sn[h].costs.minDepthFromRoot, sn[h].costs.minCostFromRootWLPV,
            MoveCosts(sn[h].moves[loc].costFromRoot, sn[h].moves[loc].isWLPV, sn[h].moves[loc].biggestWLCostFromRoot))
  {
  }

  /** Update this node's cost based on the moves from its parents. */
  method CostFromParents(b: Book, node: BookNode, ghost sn: Snapshot) returns (f: FromParents)
    requires Now(b, sn) && EntriesIn(node.parents, CostsOf(sn))
    ensures f == TakeParents(EntriesAt(node.parents, CostsOf(sn)))
  {
    hide TakeParent, CostsOf, CostOf, EntryAt, Now, TakeParents;
    ghost var es := EntriesAt(node.parents, CostsOf(sn));
    f := StartFromParents();
    TakeNone(es);
    for parentIdx := 0 to |node.parents|
      invariant f == TakeParents(es[..parentIdx])
    {
      var parentInfo := node.parents[parentIdx];
      NextEntry(node.parents, CostsOf(sn), parentIdx);
      ReadNode(b, sn, parentInfo.0);
      EntryNow(sn, parentInfo.0, parentInfo.1);
      var parent := b.Get(parentInfo.0);
      var move := parent.moves[parentInfo.1];
      f := TakeParent(f, parentIdx,
        Entry(parent.minDepthFromRoot, parent.minCostFromRootWLPV,
              MoveCosts(move.costFromRoot, move.isWLPV, move.biggestWLCostFromRoot)));
    }
    assert es[..|es|] == es;
  }

  lemma TakeNone(es: seq<Entry>)
    ensures TakeParents(es[..0]) == StartFromParents()
  {
  }

  /** Find the winloss principal variation of this node; NULL_LOC means to expand the node itself. */
  method FindWLPV(shape: CostShape) returns (bestWinLossMove: Loc)
    ensures bestWinLossMove == WLPVMove(shape)
  {
    var bestWinLoss := -UNBOUNDED;
    bestWinLossMove := NULL_LOC;
    var locs := MoveOrder(shape);
    for i := 0 to |locs|
      invariant PickMove(shape, locs, i) == Pick(bestWinLoss, bestWinLossMove)
    {
      var winLoss := Perspective(shape.pla, shape.kidValues[locs[i]].winLossValue);
      if winLoss > bestWinLoss {
        bestWinLoss, bestWinLossMove := winLoss, locs[i];
      }
    }
    if Perspective(shape.pla, shape.own.winLossValue) > bestWinLoss {
      bestWinLossMove := NULL_LOC;
    }
  }

  predicate MovesIn(b: Book, node: BookNode)
    requires b.Indexed()
    reads b, node
  {
    forall loc :: loc in node.moves ==> node.moves[loc].hash in b.nodeIdx
  }

  method ReadKidValues(b: Book, node: BookNode, ghost sn: Snapshot) returns (kidValues: map<Loc, RecursiveBookValues>)
    requires Now(b, sn) && MovesIn(b, node)
    ensures kidValues == KidValuesByMove(sn, node.moves)
  {
    var moves := node.moves;
    kidValues := map loc | loc in moves :: b.Get(moves[loc].hash).recursiveValues;
    forall loc | loc in moves ensures moves[loc].hash in sn && kidValues[loc] == sn[moves[loc].hash].values {
      ReadNode(b, sn, moves[loc].hash);
    }
  }

  method ReadShape(b: Book, node: BookNode, ghost sn: Snapshot) returns (shape: CostShape)
    requires Now(b, sn) && node in b.nodes && MovesIn(b, node)
    ensures node.hash in sn && shape == CostShapeOf(sn, b.root.hash, node.hash)
  {
    hide Now, KidValuesByMove, CoreOf;
    NodeNow(b, sn, node);
    RootHash(b, sn, node);
    var kidValues := ReadKidValues(b, node, sn);
    shape := CostShape(
      node.hash, node == b.root, if node == b.root then node.bestParentIdx else 0,
      node.pla, node.thisValuesNotInBook, node.recursiveValues, node.canExpand, node.canReExpand,
      CoreOf(node.moves), kidValues, node.parents);
  }

  lemma RootHash(b: Book, sn: Snapshot, node: BookNode)
    requires Now(b, sn) && node in b.nodes
    ensures node == b.root <==> node.hash == b.root.hash
  {
    b.Has(node);
    b.RootIn();
    b.Has(b.root);
  }

  /** Write the costs to the node and to its moves. */
  method StoreCosts(cp: CostParams, node: BookNode, shape: CostShape, f: FromParents, wlpv: Loc)
    requires wlpv == WLPVMove(shape)
    modifies node
    ensures node.State() == Costed(cp, shape, f, old(node.State()))
  {
    hide WithCosts, WLPVMove;
    node.minDepthFromRoot, node.minCostFromRoot, node.minCostFromRootWLPV := f.minDepth, f.minCost, f.minCostWLPV;
    node.biggestWLCostFromRoot, node.bestParentIdx := f.biggestWLCost, f.bestParentIdx;
    node.expansionIsWLPV := wlpv == NULL_LOC;
    node.thisNodeExpansionCost := cp.expansionCost(AsRead(cp, shape), f, wlpv);
    node.moves := WithCosts(cp, shape, f, wlpv, node.moves);
  }

  method RecomputeNodeCost(b: Book, cp: CostParams, node: BookNode, ghost sn: Snapshot)
    requires Now(b, sn) && node in b.nodes && MovesIn(b, node) && EntriesIn(node.parents, CostsOf(sn))
    modifies node
    ensures node.hash in sn
    ensures var shape := CostShapeOf(sn, b.root.hash, node.hash);
            node.State() == Costed(cp, shape, Incoming(cp, shape, EntriesAt(old(node.parents), CostsOf(sn))), old(node.State()))
  {
    hide Now, CostsOf, Costed, WLPVMove, TakeParents, EntriesAt, EntriesIn, AdjustIncoming, CoreOf, KidValuesByMove;
    NodeNow(b, sn, node);
    RootHash(b, sn, node);
    var shape := ReadShape(b, node, sn);
    var f: FromParents;
    if node == b.root {
      f := FromParents(0, 0.0, 0.0, 0.0, node.bestParentIdx);
    } else {
      f := CostFromParents(b, node, sn);
    }
    f := AdjustIncoming(cp, shape, f);
    var wlpv := FindWLPV(shape);
    StoreCosts(cp, node, shape, f, wlpv);
  }

  /** The node function of the pass: recompute the node's costs, then raise its flag. */
  method ProcessCostNode(b: Book, cp: CostParams, doneValue: int, node: BookNode, ghost sn: Snapshot)
    requires Now(b, sn) && node in b.nodes && MovesIn(b, node) && EntriesIn(node.parents, CostsOf(sn))
    modifies node
    ensures b.Indexed() && node.hash in sn && EntriesIn(sn[node.hash].parents, CostsOf(sn))
    ensures b.Snapshot() == AfterNode(cp, sn, b.root.hash, node.hash, doneValue)
  {
    hide CostsOf, Costed, EntriesAt, EntriesIn, Incoming, CostShapeOf, Book.Snapshot;
    NodeNow(b, sn, node);
    RecomputeNodeCost(b, cp, node, sn);
    node.visitedFlag := doneValue;
    assert b.Snapshot() == old(b.Snapshot())[node.hash := node.State()] by {
      b.Has(node);
      b.ChangedAt(node.hash);
    }
  }
}
