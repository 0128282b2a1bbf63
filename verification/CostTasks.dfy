/** The cost pass as a traversal task: each node's costs are a function of its parents'. */
module CostTasks {
  import opened BookData
  import opened CostRules
  import opened MarkDirty
  import opened Symmetry
  import T = Traversal

  type Costs = map<BookHash, NodeCosts>
  type CostShapes = map<BookHash, CostShape>

  function CoreOf(moves: map<Loc, BookMove>): (m: map<Loc, MoveCore>)
    ensures m.Keys == moves.Keys
  {
    map loc | loc in moves :: MoveCore(moves[loc].hash, moves[loc].rawPolicy)
  }

  function MoveCostsOf(moves: map<Loc, BookMove>): map<Loc, MoveCosts> {
    map loc | loc in moves :: MoveCosts(moves[loc].costFromRoot, moves[loc].isWLPV, moves[loc].biggestWLCostFromRoot)
  }

  ghost function KidValuesByMove(sn: Snapshot, moves: map<Loc, BookMove>): map<Loc, RecursiveBookValues> {
    map loc | loc in moves && moves[loc].hash in sn :: sn[moves[loc].hash].values
  }

  ghost function CostShapeOf(sn: Snapshot, root: BookHash, h: BookHash): CostShape
    requires h in sn
  {
    var node := sn[h];
    CostShape(
      h, h == root, if h == root then node.costs.bestParentIdx else 0,
      node.inputs.pla, node.inputs.own, node.values, node.inputs.canExpand, node.inputs.canReExpand,
      CoreOf(node.moves), KidValuesByMove(sn, node.moves), node.parents)
  }

  ghost function CostShapesOf(sn: Snapshot, root: BookHash): (shapes: CostShapes)
    ensures shapes.Keys == sn.Keys
  {
    map h | h in sn :: CostShapeOf(sn, root, h)
  }

  /** What the cost pass has stored at a node. */
  ghost function CostOf(node: NodeState): NodeCosts {
    NodeCosts(
      FromParents(node.costs.minDepthFromRoot, node.costs.minCostFromRoot, node.costs.minCostFromRootWLPV,
                  node.costs.biggestWLCostFromRoot, node.costs.bestParentIdx),
      node.costs.thisNodeExpansionCost, node.costs.expansionIsWLPV, MoveCostsOf(node.moves))
  }

  ghost function CostsOf(sn: Snapshot): (costs: Costs)
    ensures costs.Keys == sn.Keys
  {
    map h | h in sn :: CostOf(sn[h])
  }

  ghost predicate EntriesIn(parents: seq<(BookHash, Loc)>, costs: Costs) {
    forall i :: 0 <= i < |parents| ==> parents[i].0 in costs && parents[i].1 in costs[parents[i].0].moves
  }

  ghost function EntryAt(parent: (BookHash, Loc), costs: Costs): Entry
    requires parent.0 in costs && parent.1 in costs[parent.0].moves
  {
    var c := costs[parent.0];
    Entry(c.incoming.minDepth, c.incoming.minCostWLPV, c.moves[parent.1])
  }

  ghost function EntriesAt(parents: seq<(BookHash, Loc)>, costs: Costs): (es: seq<Entry>)
    requires EntriesIn(parents, costs)
    ensures |es| == |parents|
  {
    seq(|parents|, i requires 0 <= i < |parents| => EntryAt(parents[i], costs))
  }

  /** Every parent entry names a node of the book and one of its moves. */
  ghost predicate LinkedShapes(shapes: CostShapes) {
    forall h, e :: h in shapes && e in shapes[h].parents ==> e.0 in shapes && e.1 in shapes[e.0].core
  }

  lemma LinkedShapesOf(sn: Snapshot, root: BookHash)
    requires Linked(sn, root)
    ensures LinkedShapes(CostShapesOf(sn, root))
  {
  }

  ghost function NO_COSTS(): NodeCosts { NodeCosts(FromParents(0, 0.0, 0.0, 0.0, 0), 0.0, false, map[]) }

  ghost function CostAt(cp: CostParams, shapes: CostShapes, h: BookHash, costs: Costs): NodeCosts {
    if h in shapes && EntriesIn(shapes[h].parents, costs)
    then NodeCostsOf(cp, shapes[h], EntriesAt(shapes[h].parents, costs))
    else NO_COSTS()
  }

  ghost function CostRule(cp: CostParams, shapes: CostShapes): (BookHash, Costs) -> NodeCosts {
    (h, costs) => CostAt(cp, shapes, h, costs)
  }

  ghost function ShapeParents(shapes: CostShapes): ParentMap {
    map h | h in shapes :: ParentHashes(shapes[h].parents)
  }

  ghost function CostTask(cp: CostParams, shapes: CostShapes): T.Task<BookHash, NodeCosts> {
    T.Task(ShapeParents(shapes), shapes.Keys, true, CostRule(cp, shapes))
  }

  lemma ParentIsDep(shapes: CostShapes, h: BookHash, i: nat)
    requires h in shapes && i < |shapes[h].parents|
    ensures shapes[h].parents[i].0 in ShapeParents(shapes)[h]
  {
    assert ShapeParents(shapes)[h][i] == shapes[h].parents[i].0;
  }

  lemma CostTaskLocal(cp: CostParams, shapes: CostShapes)
    ensures T.Local(CostTask(cp, shapes))
  {
    hide NodeCostsOf;
    var t := CostTask(cp, shapes);
    forall k, v, v' | k in t.deps && T.AgreeOn(t.deps[k], v, v') ensures t.f(k, v) == t.f(k, v') {
      var ps := shapes[k].parents;
      forall i | 0 <= i < |ps| ensures ps[i].0 in v && ps[i].0 in v' && v[ps[i].0] == v'[ps[i].0] {
        ParentIsDep(shapes, k, i);
      }
      if EntriesIn(ps, v) {
        assert EntriesAt(ps, v) == EntriesAt(ps, v');
      }
    }
  }

  lemma CostTaskOk(cp: CostParams, shapes: CostShapes)
    requires LinkedShapes(shapes)
    ensures T.ValidTask(CostTask(cp, shapes)) && T.DirtyClosed(CostTask(cp, shapes))
  {
    var t := CostTask(cp, shapes);
    forall k, d | k in t.deps && d in t.deps[k] ensures d in t.deps {
      var i :| 0 <= i < |t.deps[k]| && t.deps[k][i] == d;
      assert shapes[k].parents[i] in shapes[k].parents;
    }
  }

  // ---------------------------------------------------------------------------------------------
  // Best parents

  lemma {:induction false} TakenInRange(entries: seq<Entry>)
    ensures var k := TakeParents(entries).bestParentIdx; 0 <= k && (k == 0 || k < |entries|)
  {
    if entries != [] {
      TakenInRange(entries[..|entries| - 1]);
    }
  }

  /** A stored index that may be followed in this list of parents. */
  ghost predicate InRangeFor(parents: seq<(BookHash, Loc)>, costs: NodeCosts) {
    0 <= costs.incoming.bestParentIdx && (costs.incoming.bestParentIdx == 0 || costs.incoming.bestParentIdx < |parents|)
  }

  /** Costing a node stores such an index, whatever the costs of its parents are. */
  lemma CostedInRange(cp: CostParams, shapes: CostShapes, h: BookHash, costs: Costs)
    requires h in shapes
    requires shapes[h].isRoot ==> 0 <= shapes[h].keptBestParentIdx
                                  && (shapes[h].keptBestParentIdx == 0 || shapes[h].keptBestParentIdx < |shapes[h].parents|)
    ensures InRangeFor(shapes[h].parents, CostAt(cp, shapes, h, costs))
  {
    hide WLPVMove, OutgoingMoves;
    if EntriesIn(shapes[h].parents, costs) {
      TakenInRange(EntriesAt(shapes[h].parents, costs));
    }
  }

  /** At every moment of a cost pass, by any number of threads and on cyclic books too, best parents are parents. */
  lemma CostRunKeepsBestParents(cp: CostParams, sn: Snapshot, root: BookHash, run: seq<T.State<BookHash, NodeCosts>>)
    requires BestParentsOk(sn) && run != [] && T.Run(CostTask(cp, CostShapesOf(sn, root)), run)
    requires run[0].vals == CostsOf(sn)
    ensures forall h :: h in sn && h in T.Last(run).vals ==> InRangeFor(sn[h].parents, T.Last(run).vals[h])
  {
    hide CostAt, T.Run, CostOf;
    var t := CostTask(cp, CostShapesOf(sn, root));
    var p := (h: BookHash, costs: NodeCosts) => h in sn ==> InRangeFor(sn[h].parents, costs);
    forall h, costs ensures p(h, t.f(h, costs)) {
      if h in sn {
        assert BestParentInRange(sn[h]);
        CostedInRange(cp, CostShapesOf(sn, root), h, costs);
      }
    }
    forall h | h in run[0].vals ensures p(h, run[0].vals[h]) {
      StoredInRange(sn[h]);
    }
    T.RunKeepsEach(t, p, run);
  }

  lemma StoredInRange(node: NodeState)
    ensures BestParentInRange(node) <==> InRangeFor(node.parents, CostOf(node))
  {
  }

  /** So the index is in range at every node of the book a cost pass leaves behind. */
  lemma CostPassGivesBestParents(cp: CostParams, sn: Snapshot, sn': Snapshot, root: BookHash,
                                 run: seq<T.State<BookHash, NodeCosts>>)
    requires BestParentsOk(sn) && run != [] && T.Run(CostTask(cp, CostShapesOf(sn, root)), run)
    requires run[0].vals == CostsOf(sn) && T.Last(run).vals == CostsOf(sn') && CostRest(sn, root) == CostRest(sn', root)
    ensures BestParentsOk(sn')
  {
    hide T.Run, CostTask, CostOf, BestParentInRange, StrippedMoves;
    CostRunKeepsBestParents(cp, sn, root, run);
    assert CostRest(sn, root).Keys == sn.Keys && CostRest(sn', root).Keys == sn'.Keys;
    forall h | h in sn' ensures BestParentInRange(sn'[h]) {
      assert CostRest(sn, root)[h] == CostRest(sn', root)[h];
      StoredInRange(sn'[h]);
    }
  }

  // ---------------------------------------------------------------------------------------------
  // What the pass writes and what it leaves

  function Stripped(m: BookMove): BookMove { m.(costFromRoot := 0.0, isWLPV := false, biggestWLCostFromRoot := 0.0) }

  function StrippedMoves(moves: map<Loc, BookMove>): (m: map<Loc, BookMove>)
    ensures m.Keys == moves.Keys && forall loc :: loc in moves ==> m[loc] == Stripped(moves[loc])
  {
    map loc | loc in moves :: Stripped(moves[loc])
  }

  /** All that the cost pass does not write; the root keeps its best parent. */
  ghost function CostRest(sn: Snapshot, root: BookHash): (rest: Snapshot)
    ensures rest.Keys == sn.Keys
  {
    map h | h in sn :: sn[h].(
      moves := StrippedMoves(sn[h].moves),
      costs := CostFields(0, 0.0, 0.0, 0.0, if h == root then sn[h].costs.bestParentIdx else 0, 0.0, false),
      flag := 0)
  }

  lemma StrippedCore(moves: map<Loc, BookMove>)
    ensures CoreOf(StrippedMoves(moves)) == CoreOf(moves)
  {
    forall loc | loc in moves ensures CoreOf(StrippedMoves(moves))[loc] == CoreOf(moves)[loc] {
      assert StrippedMoves(moves)[loc] == Stripped(moves[loc]);
    }
  }

  lemma ShapeFromRest(sn: Snapshot, root: BookHash, h: BookHash)
    requires h in sn
    ensures CostShapeOf(CostRest(sn, root), root, h) == CostShapeOf(sn, root, h)
  {
    StrippedCore(sn[h].moves);
    assert KidValuesByMove(CostRest(sn, root), StrippedMoves(sn[h].moves)) == KidValuesByMove(sn, sn[h].moves);
  }

  lemma ShapesFromRest(sn: Snapshot, root: BookHash)
    ensures CostShapesOf(CostRest(sn, root), root) == CostShapesOf(sn, root)
  {
    hide CostShapeOf, CostRest;
    forall h | h in sn ensures CostShapeOf(CostRest(sn, root), root, h) == CostShapeOf(sn, root, h) {
      ShapeFromRest(sn, root, h);
    }
  }

  function WithCosts(cp: CostParams, shape: CostShape, f: FromParents, wlpv: Loc,
                     moves: map<Loc, BookMove>): (m: map<Loc, BookMove>)
    ensures m.Keys == moves.Keys
  {
    map loc | loc in moves ::
      moves[loc].(costFromRoot := cp.moveCost(AsRead(cp, shape), f, wlpv, loc).0, isWLPV := loc == wlpv,
                  biggestWLCostFromRoot := cp.moveCost(AsRead(cp, shape), f, wlpv, loc).1)
  }

  lemma WithCostsStores(cp: CostParams, shape: CostShape, f: FromParents, wlpv: Loc, moves: map<Loc, BookMove>)
    requires shape.core == CoreOf(moves)
    ensures MoveCostsOf(WithCosts(cp, shape, f, wlpv, moves)) == OutgoingMoves(cp, shape, f, wlpv)
    ensures StrippedMoves(WithCosts(cp, shape, f, wlpv, moves)) == StrippedMoves(moves)
  {
    assert shape.core.Keys == moves.Keys;
  }

  /** The node with its costs written. */
  ghost function Costed(cp: CostParams, shape: CostShape, f: FromParents, node: NodeState): NodeState {
    var wlpv := WLPVMove(shape);
    node.(
      moves := WithCosts(cp, shape, f, wlpv, node.moves),
      costs := CostFields(f.minDepth, f.minCost, f.minCostWLPV, f.biggestWLCost, f.bestParentIdx,
                          cp.expansionCost(AsRead(cp, shape), f, wlpv), wlpv == NULL_LOC))
  }

  lemma CostedStores(cp: CostParams, shape: CostShape, es: seq<Entry>, node: NodeState)
    requires shape.core == CoreOf(node.moves)
    ensures CostOf(Costed(cp, shape, Incoming(cp, shape, es), node)) == NodeCostsOf(cp, shape, es)
    ensures StrippedMoves(Costed(cp, shape, Incoming(cp, shape, es), node).moves) == StrippedMoves(node.moves)
  {
    WithCostsStores(cp, shape, Incoming(cp, shape, es), WLPVMove(shape), node.moves);
  }

  lemma RootKeepsBestParent(cp: CostParams, shape: CostShape, es: seq<Entry>)
    requires shape.isRoot
    ensures Incoming(cp, shape, es).bestParentIdx == shape.keptBestParentIdx
  {
  }

  ghost function AfterNode(cp: CostParams, sn: Snapshot, root: BookHash, h: BookHash, doneValue: int): Snapshot
    requires h in sn && EntriesIn(sn[h].parents, CostsOf(sn))
  {
    var shape := CostShapeOf(sn, root, h);
    sn[h := Costed(cp, shape, Incoming(cp, shape, EntriesAt(sn[h].parents, CostsOf(sn))), sn[h]).(flag := doneValue)]
  }

  lemma RestKeptAt(sn: Snapshot, root: BookHash, h: BookHash, node: NodeState)
    requires h in sn && node == sn[h].(moves := node.moves, costs := node.costs, flag := node.flag)
    requires StrippedMoves(node.moves) == StrippedMoves(sn[h].moves)
    requires h == root ==> node.costs.bestParentIdx == sn[h].costs.bestParentIdx
    ensures CostRest(sn[h := node], root) == CostRest(sn, root)
  {
    hide StrippedMoves;
  }

  lemma ViewsAt(sn: Snapshot, h: BookHash, node: NodeState)
    requires h in sn
    ensures CostsOf(sn[h := node]) == CostsOf(sn)[h := CostOf(node)]
    ensures Flagged(sn[h := node], node.flag) ==
            if node.flag == sn[h].flag then Flagged(sn, node.flag) else Flagged(sn, node.flag) + {h}
    ensures FlagsBelow(sn, node.flag + 1) ==> FlagsBelow(sn[h := node], node.flag + 1)
  {
    hide CostOf;
  }

  lemma AfterNodeViews(cp: CostParams, sn: Snapshot, root: BookHash, h: BookHash, doneValue: int)
    requires h in sn && EntriesIn(sn[h].parents, CostsOf(sn))
    ensures var sn' := AfterNode(cp, sn, root, h, doneValue);
            && CostRest(sn', root) == CostRest(sn, root)
            && CostsOf(sn') == CostsOf(sn)[h := CostAt(cp, CostShapesOf(sn, root), h, CostsOf(sn))]
            && Flagged(sn', doneValue) == Flagged(sn, doneValue) + {h}
            && (FlagsBelow(sn, doneValue + 1) ==> FlagsBelow(sn', doneValue + 1))
  {
    hide NodeCostsOf, Incoming, WithCosts, CostOf, CostsOf, CostRest, StrippedMoves, WLPVMove;
    var shape, es := CostShapeOf(sn, root, h), EntriesAt(sn[h].parents, CostsOf(sn));
    CostedStores(cp, shape, es, sn[h]);
    if h == root {
      RootKeepsBestParent(cp, shape, es);
    }
    var node := Costed(cp, shape, Incoming(cp, shape, es), sn[h]).(flag := doneValue);
    RestKeptAt(sn, root, h, node);
    ViewsAt(sn, h, node);
    FlagIrrelevant(Costed(cp, shape, Incoming(cp, shape, es), sn[h]), doneValue);
  }

  lemma FlagIrrelevant(node: NodeState, flag: int)
    ensures CostOf(node.(flag := flag)) == CostOf(node)
  {
  }
}
