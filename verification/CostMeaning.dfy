/** What the costs and depths of a book with settled costs say, read off its stored fields. */
module CostMeaning {
  import opened Util
  import opened BookData
  import opened ValueRules
  import opened CostRules
  import opened CostTasks
  import opened CostPass
  import opened Settled
  import opened Lines
  import opened Meaning
  import opened Symmetry

  // ---------------------------------------------------------------------------------------------
  // One node and its parents

  /** The node's parents and their moves to it are in the book. */
  ghost predicate ParentsIn(sn: Snapshot, h: BookHash) {
    && h in sn
    && forall i :: 0 <= i < |sn[h].parents| ==>
         sn[h].parents[i].0 in sn && sn[h].parents[i].1 in sn[sn[h].parents[i].0].moves
         && sn[sn[h].parents[i].0].moves[sn[h].parents[i].1].hash == h
  }

  /** The i-th parent's move to the node. */
  ghost function MoveHere(sn: Snapshot, h: BookHash, i: nat): BookMove
    requires ParentsIn(sn, h) && i < |sn[h].parents|
  {
    sn[sn[h].parents[i].0].moves[sn[h].parents[i].1]
  }

  ghost function ParentCosts(sn: Snapshot, h: BookHash, i: nat): CostFields
    requires ParentsIn(sn, h) && i < |sn[h].parents|
  {
    sn[sn[h].parents[i].0].costs
  }

  lemma LinkedParents(sn: Snapshot, root: BookHash, h: BookHash)
    requires Linked(sn, root) && h in sn
    ensures ParentsIn(sn, h)
  {
    forall i | 0 <= i < |sn[h].parents|
      ensures sn[h].parents[i].0 in sn && sn[h].parents[i].1 in sn[sn[h].parents[i].0].moves
      ensures sn[sn[h].parents[i].0].moves[sn[h].parents[i].1].hash == h
    {
      assert sn[h].parents[i] in sn[h].parents;
    }
  }

  /** What the parents hold, entry by entry. */
  ghost predicate EntriesAre(sn: Snapshot, h: BookHash, es: seq<Entry>)
    requires ParentsIn(sn, h)
  {
    && |es| == |sn[h].parents|
    && forall i :: 0 <= i < |es| ==>
         && es[i].depth == ParentCosts(sn, h, i).minDepthFromRoot
         && es[i].minCostWLPV == ParentCosts(sn, h, i).minCostFromRootWLPV
         && es[i].move.costFromRoot == MoveHere(sn, h, i).costFromRoot
         && es[i].move.isWLPV == MoveHere(sn, h, i).isWLPV
         && es[i].move.biggestWLCostFromRoot == MoveHere(sn, h, i).biggestWLCostFromRoot
  }

  lemma SettledIncoming(cp: CostParams, sn: Snapshot, root: BookHash, h: BookHash) returns (es: seq<Entry>)
    requires Linked(sn, root) && CostsSettled(cp, sn, root) && h in sn
    ensures ParentsIn(sn, h) && EntriesAre(sn, h, es)
    ensures CostOf(sn[h]) == NodeCostsOf(cp, CostShapeOf(sn, root, h), es)
  {
    LinkedParents(sn, root, h);
    hide Linked, NodeCostsOf, CostShapeOf;
    var ps := sn[h].parents;
    assert EntriesIn(ps, CostsOf(sn)) && CostShapesOf(sn, root)[h].parents == ps by {
      assert CostShapeOf(sn, root, h).parents == ps by { ShapeParentsAre(sn, root, h); }
    }
    es := EntriesAt(ps, CostsOf(sn));
    forall i | 0 <= i < |es| ensures es[i] == EntryAt(ps[i], CostsOf(sn)) {
      EntryNow(sn, ps[i].0, ps[i].1);
    }
    EntriesFrom(sn, h, es);
  }

  lemma ShapeParentsAre(sn: Snapshot, root: BookHash, h: BookHash)
    requires h in sn
    ensures CostShapeOf(sn, root, h).parents == sn[h].parents
  {
  }

  lemma EntriesFrom(sn: Snapshot, h: BookHash, es: seq<Entry>)
    requires ParentsIn(sn, h) && EntriesIn(sn[h].parents, CostsOf(sn)) && |es| == |sn[h].parents|
    requires forall i :: 0 <= i < |es| ==> es[i] == EntryAt(sn[h].parents[i], CostsOf(sn))
    ensures EntriesAre(sn, h, es)
  {
    forall i | 0 <= i < |es| ensures es[i] == Entry(
      ParentCosts(sn, h, i).minDepthFromRoot, ParentCosts(sn, h, i).minCostFromRootWLPV,
      MoveCosts(MoveHere(sn, h, i).costFromRoot, MoveHere(sn, h, i).isWLPV, MoveHere(sn, h, i).biggestWLCostFromRoot))
    {
      EntryNow(sn, sn[h].parents[i].0, sn[h].parents[i].1);
    }
  }

  /** The stored cost without the user's bonus and without the 500 for missing visits. */
  ghost function CostBefore(cp: CostParams, sn: Snapshot, h: BookHash): real
    requires h in sn
  {
    sn[h].costs.minCostFromRoot
    + (if h in cp.bonusByHash then cp.bonusByHash[h] else 0.0)
    + (if cp.tooFewVisits(h, sn[h].values) then 500.0 else 0.0)
  }

  /** The stored fields, from what came in from the parents. */
  lemma StoredFields(cp: CostParams, sn: Snapshot, root: BookHash, h: BookHash, es: seq<Entry>)
    requires h in sn && CostOf(sn[h]) == NodeCostsOf(cp, CostShapeOf(sn, root, h), es)
    ensures var c, f := sn[h].costs,
              if h == root then FromParents(0, 0.0, 0.0, 0.0, sn[h].costs.bestParentIdx) else TakeParents(es);
            && CostBefore(cp, sn, h) == f.minCost && c.biggestWLCostFromRoot == f.biggestWLCost
            && c.minDepthFromRoot == f.minDepth && c.bestParentIdx == f.bestParentIdx
            && c.minCostFromRootWLPV == MinR(f.minCostWLPV, c.minCostFromRoot)
  {
    hide TakeParents, WLPVMove, OutgoingMoves, CoreOf, KidValuesByMove, MoveCostsOf;
    var shape := CostShapeOf(sn, root, h);
    assert CostOf(sn[h]).incoming == Incoming(cp, shape, es);
  }

  /** cost is that of the cheapest move here, found at the first such parent; the sentinel if none is cheaper. */
  ghost predicate CheapestParent(sn: Snapshot, h: BookHash, cost: real)
    requires ParentsIn(sn, h)
  {
    var n, best := |sn[h].parents|, sn[h].costs.bestParentIdx;
    if exists i :: 0 <= i < n && MoveHere(sn, h, i).costFromRoot < UNBOUNDED then
      && 0 <= best < n && cost == MoveHere(sn, h, best).costFromRoot
      && sn[h].costs.biggestWLCostFromRoot == MoveHere(sn, h, best).biggestWLCostFromRoot
      && (forall i :: 0 <= i < n ==> cost <= MoveHere(sn, h, i).costFromRoot)
      && (forall i :: 0 <= i < best ==> cost < MoveHere(sn, h, i).costFromRoot)
    else cost == UNBOUNDED && best == 0 && sn[h].costs.biggestWLCostFromRoot == UNBOUNDED
  }

  /**
   Before bonuses a node costs as much as the cheapest of its parents' moves to it, the one at its best
   parent; the root costs nothing.
   */
  lemma SettledCostIsCheapest(cp: CostParams, sn: Snapshot, root: BookHash, h: BookHash)
    requires Linked(sn, root) && CostsSettled(cp, sn, root) && h in sn
    ensures ParentsIn(sn, h)
    ensures if h == root then CostBefore(cp, sn, h) == 0.0 && sn[h].costs.biggestWLCostFromRoot == 0.0
            else CheapestParent(sn, h, CostBefore(cp, sn, h))
  {
    hide Linked, CostsSettled, NodeCostsOf, CostShapeOf, CostOf, TakeParents, CostBefore;
    var es := SettledIncoming(cp, sn, root, h);
    StoredFields(cp, sn, root, h, es);
    BestParentIsCheapest(es);
    if i :| 0 <= i < |es| && MoveHere(sn, h, i).costFromRoot < UNBOUNDED {
      assert es[i].move.costFromRoot < UNBOUNDED;
    }
  }

  /** The least over a list that starts from a sentinel. */
  lemma {:induction false} TakenAreLeast(es: seq<Entry>)
    ensures var f := TakeParents(es);
      && f.minDepth <= DEPTH_UNBOUNDED && f.minCostWLPV <= UNBOUNDED
      && (forall i :: 0 <= i < |es| ==> f.minDepth <= es[i].depth + 1)
      && (f.minDepth == DEPTH_UNBOUNDED || exists i :: 0 <= i < |es| && f.minDepth == es[i].depth + 1)
      && (forall i :: 0 <= i < |es| && es[i].move.isWLPV ==> f.minCostWLPV <= es[i].minCostWLPV)
      && (f.minCostWLPV == UNBOUNDED
          || exists i :: 0 <= i < |es| && es[i].move.isWLPV && f.minCostWLPV == es[i].minCostWLPV)
  {
    if es != [] {
      var init := es[..|es| - 1];
      TakenAreLeast(init);
      var f, last := TakeParents(es), |es| - 1;
      forall i | 0 <= i < |es|
        ensures f.minDepth <= es[i].depth + 1 && (es[i].move.isWLPV ==> f.minCostWLPV <= es[i].minCostWLPV)
      {
        assert i < last ==> init[i] == es[i];
      }
      assert f.minDepth == DEPTH_UNBOUNDED || exists i :: 0 <= i < |es| && f.minDepth == es[i].depth + 1 by {
        assert es[last].depth == es[last].depth;
      }
      assert f.minCostWLPV == UNBOUNDED
        || exists i :: 0 <= i < |es| && es[i].move.isWLPV && f.minCostWLPV == es[i].minCostWLPV by {
        assert es[last].move.isWLPV ==> es[last].minCostWLPV == es[last].minCostWLPV;
      }
    }
  }

  /** c is the least of the node's own cost, and of the WLPV costs of the parents whose move here is marked. */
  ghost predicate LeastMarked(sn: Snapshot, h: BookHash, start: real, c: real)
    requires ParentsIn(sn, h)
  {
    var n := |sn[h].parents|;
    && c <= sn[h].costs.minCostFromRoot && c <= start
    && (forall i :: 0 <= i < n && MoveHere(sn, h, i).isWLPV ==> c <= ParentCosts(sn, h, i).minCostFromRootWLPV)
    && (c == sn[h].costs.minCostFromRoot || c == start
        || exists i :: 0 <= i < n && MoveHere(sn, h, i).isWLPV && c == ParentCosts(sn, h, i).minCostFromRootWLPV)
  }

  lemma SettledWLPVCostIsLeast(cp: CostParams, sn: Snapshot, root: BookHash, h: BookHash)
    requires Linked(sn, root) && CostsSettled(cp, sn, root) && h in sn
    ensures ParentsIn(sn, h)
    ensures if h == root then sn[h].costs.minCostFromRootWLPV == MinR(0.0, sn[h].costs.minCostFromRoot)
            else LeastMarked(sn, h, UNBOUNDED, sn[h].costs.minCostFromRootWLPV)
  {
    hide Linked, CostsSettled, NodeCostsOf, CostShapeOf, CostOf, TakeParents, CostBefore;
    var es := SettledIncoming(cp, sn, root, h);
    StoredFields(cp, sn, root, h, es);
    TakenAreLeast(es);
  }

  /** The heuristics have seen the costs that are stored, and the marked move; their results are stored where they belong. */
  lemma SettledHeuristics(cp: CostParams, sn: Snapshot, root: BookHash, h: BookHash, marked: Loc, loc: Loc)
    requires Linked(sn, root) && CostsSettled(cp, sn, root) && h in sn && loc in sn[h].moves
    requires if sn[h].costs.expansionIsWLPV then marked == NULL_LOC else marked in sn[h].moves && sn[h].moves[marked].isWLPV
    ensures var shape, f := AsRead(cp, CostShapeOf(sn, root, h)), CostOf(sn[h]).incoming;
            && sn[h].costs.thisNodeExpansionCost == cp.expansionCost(shape, f, marked)
            && sn[h].moves[loc].costFromRoot == cp.moveCost(shape, f, marked, loc).0
            && sn[h].moves[loc].biggestWLCostFromRoot == cp.moveCost(shape, f, marked, loc).1
  {
    hide Linked, CostsSettled, TakeParents, CostShapeOf, WLPVMove, Incoming;
    var es := SettledIncoming(cp, sn, root, h);
    MarksAreWLPVMove(cp, sn, root, h);
    var shape := CostShapeOf(sn, root, h);
    assert sn[h].moves.Keys == shape.core.Keys by { ShapeCore(sn, root, h); }
    assert CostOf(sn[h]).moves == OutgoingMoves(cp, shape, CostOf(sn[h]).incoming, WLPVMove(shape));
    assert marked == WLPVMove(shape);
    assert CostOf(sn[h]).moves[loc] ==
      MoveCosts(sn[h].moves[loc].costFromRoot, sn[h].moves[loc].isWLPV, sn[h].moves[loc].biggestWLCostFromRoot);
  }

  lemma ShapeCore(sn: Snapshot, root: BookHash, h: BookHash)
    requires h in sn
    ensures CostShapeOf(sn, root, h).core.Keys == sn[h].moves.Keys
  {
  }

  // ---------------------------------------------------------------------------------------------
  // Along marked moves

  /** Marked moves lead from the first node of the path to h, and not through the root. */
  ghost predicate MarkedPath(sn: Snapshot, root: BookHash, path: seq<BookHash>, h: BookHash) {
    && path != [] && path[|path| - 1] == h && WLPVPath(sn, path)
    && forall i :: 0 < i < |path| ==> path[i] != root
  }

  lemma MarkedStepIsParent(sn: Snapshot, root: BookHash, d: BookHash, h: BookHash) returns (i: nat)
    requires Linked(sn, root) && WLPVStep(sn, d, h)
    ensures h in sn && ParentsIn(sn, h) && i < |sn[h].parents| && sn[h].parents[i].0 == d && MoveHere(sn, h, i).isWLPV
  {
    var loc :| loc in sn[d].moves && sn[d].moves[loc].isWLPV && sn[d].moves[loc].hash == h;
    LinkedParents(sn, root, h);
    i :| i < |sn[h].parents| && sn[h].parents[i] == (d, loc);
  }

  lemma PathInit(sn: Snapshot, root: BookHash, path: seq<BookHash>, h: BookHash)
    requires MarkedPath(sn, root, path, h) && |path| > 1
    ensures MarkedPath(sn, root, path[..|path| - 1], path[|path| - 2]) && WLPVStep(sn, path[|path| - 2], h) && h != root
  {
    hide WLPVStep;
    assert WLPVStep(sn, path[|path| - 2], path[|path| - 1]);
  }

  /** No node from which marked moves lead to h is cheaper. */
  lemma {:induction false} WLPVCostIsLowerBound(cp: CostParams, sn: Snapshot, root: BookHash, path: seq<BookHash>,
                                                h: BookHash)
    requires Linked(sn, root) && CostsSettled(cp, sn, root) && MarkedPath(sn, root, path, h)
    ensures h in sn && path[0] in sn && sn[h].costs.minCostFromRootWLPV <= sn[path[0]].costs.minCostFromRoot
    decreases |path|
  {
    hide Linked, CostsSettled, WLPVStep;
    SettledWLPVCostIsLeast(cp, sn, root, h);
    if |path| > 1 {
      PathInit(sn, root, path, h);
      var i := MarkedStepIsParent(sn, root, path[|path| - 2], h);
      hide MarkedPath;
      WLPVCostIsLowerBound(cp, sn, root, path[..|path| - 1], path[|path| - 2]);
    }
  }

  lemma ExtendMarked(sn: Snapshot, root: BookHash, path: seq<BookHash>, h: BookHash, i: nat)
    requires ParentsIn(sn, h) && i < |sn[h].parents| && MoveHere(sn, h, i).isWLPV && h != root
    requires MarkedPath(sn, root, path, sn[h].parents[i].0)
    ensures MarkedPath(sn, root, path + [h], h)
  {
    var d, loc := sn[h].parents[i].0, sn[h].parents[i].1;
    assert loc in sn[d].moves && sn[d].moves[loc].isWLPV && sn[d].moves[loc].hash == h;
    assert WLPVStep(sn, d, h);
    hide WLPVStep, ParentsIn, MoveHere;
    var longer := path + [h];
    forall a, b | 0 <= a && b == a + 1 && b < |longer| ensures WLPVStep(sn, longer[a], longer[b]) {
      if b < |path| {
        assert WLPVStep(sn, path[a], path[b]);
      }
    }
  }

  /**
   On an acyclic book the WLPV cost of a node is the cost of the cheapest node from which marked moves
   lead to it; 0 if that is the root and its own cost is higher, and never above the sentinel.
   */
  lemma {:induction false} WLPVCostIsAttained(cp: CostParams, sn: Snapshot, root: BookHash, rank: map<BookHash, nat>,
                                              m: nat, h: BookHash)
    returns (path: seq<BookHash>)
    requires Linked(sn, root) && CostsSettled(cp, sn, root) && AcyclicBy(sn, rank) && h in sn
    requires forall d :: d in rank ==> rank[d] <= m
    ensures MarkedPath(sn, root, path, h) && path[0] in sn
    ensures var c := sn[h].costs.minCostFromRootWLPV;
            || c == sn[path[0]].costs.minCostFromRoot
            || (c == 0.0 && path[0] == root)
            || c == UNBOUNDED
    decreases if h in rank then m - rank[h] else 0
  {
    hide Linked, CostsSettled, MarkedPath, AcyclicBy;
    SettledWLPVCostIsLeast(cp, sn, root, h);
    path := [h];
    assert MarkedPath(sn, root, path, h) by { JustHere(sn, root, h); }
    var c := sn[h].costs.minCostFromRootWLPV;
    if h != root && c != sn[h].costs.minCostFromRoot && c != UNBOUNDED {
      var i :| 0 <= i < |sn[h].parents| && MoveHere(sn, h, i).isWLPV && c == ParentCosts(sn, h, i).minCostFromRootWLPV;
      ParentRanks(sn, root, rank, h, i);
      path := WLPVCostIsAttained(cp, sn, root, rank, m, sn[h].parents[i].0);
      ExtendMarked(sn, root, path, h, i);
      assert (path + [h])[0] == path[0] by { PathStarts(sn, root, path, sn[h].parents[i].0); }
      path := path + [h];
    }
  }

  lemma PathStarts(sn: Snapshot, root: BookHash, path: seq<BookHash>, h: BookHash)
    requires MarkedPath(sn, root, path, h)
    ensures path != []
  {
  }

  lemma JustHere(sn: Snapshot, root: BookHash, h: BookHash)
    requires h in sn
    ensures MarkedPath(sn, root, [h], h)
  {
  }

  lemma ParentRanks(sn: Snapshot, root: BookHash, rank: map<BookHash, nat>, h: BookHash, i: nat)
    requires Linked(sn, root) && AcyclicBy(sn, rank) && ParentsIn(sn, h) && i < |sn[h].parents|
    ensures h in rank && sn[h].parents[i].0 in rank && rank[h] < rank[sn[h].parents[i].0]
  {
    var d, loc := sn[h].parents[i].0, sn[h].parents[i].1;
    assert loc in sn[d].moves && sn[d].moves[loc].hash == h;
  }

  // ---------------------------------------------------------------------------------------------
  // Depths

  /** The root has depth 0, every other node one more than its shallowest parent, and at most the sentinel. */
  ghost predicate DepthsFromParents(sn: Snapshot, root: BookHash, h: BookHash)
    requires ParentsIn(sn, h)
  {
    var n, depth := |sn[h].parents|, sn[h].costs.minDepthFromRoot;
    if h == root then depth == 0
    else
      && depth <= DEPTH_UNBOUNDED
      && (forall i :: 0 <= i < n ==> depth <= ParentCosts(sn, h, i).minDepthFromRoot + 1)
      && (depth == DEPTH_UNBOUNDED || exists i :: 0 <= i < n && depth == ParentCosts(sn, h, i).minDepthFromRoot + 1)
  }

  lemma SettledDepth(cp: CostParams, sn: Snapshot, root: BookHash, h: BookHash)
    requires Linked(sn, root) && CostsSettled(cp, sn, root) && h in sn
    ensures ParentsIn(sn, h) && DepthsFromParents(sn, root, h)
  {
    hide Linked, CostsSettled, NodeCostsOf, CostShapeOf, CostOf, TakeParents, CostBefore;
    var es := SettledIncoming(cp, sn, root, h);
    StoredFields(cp, sn, root, h, es);
    TakenAreLeast(es);
  }

  ghost function Depth(sn: Snapshot, h: BookHash): int
    requires h in sn
  {
    sn[h].costs.minDepthFromRoot
  }

  /** Some node of the set is shallowest. */
  lemma {:induction false} Shallowest(sn: Snapshot, s: set<BookHash>) returns (h: BookHash)
    requires s != {} && s <= sn.Keys
    ensures h in s && forall d :: d in s ==> Depth(sn, h) <= Depth(sn, d)
  {
    h :| h in s;
    if s != {h} {
      var d := Shallowest(sn, s - {h});
      h := if Depth(sn, d) < Depth(sn, h) then d else h;
    }
  }

  /** No depth is negative, on cyclic books either: the shallowest node has no shallower parent. */
  lemma DepthsAreNatural(cp: CostParams, sn: Snapshot, root: BookHash, h: BookHash)
    requires Linked(sn, root) && CostsSettled(cp, sn, root) && h in sn
    ensures Depth(sn, h) >= 0
  {
    hide Linked, CostsSettled;
    var low := Shallowest(sn, sn.Keys);
    SettledDepth(cp, sn, root, low);
  }

  /** Playing a line of moves goes down at most one level a move. */
  lemma {:induction false} LinesAreLong(cp: CostParams, sn: Snapshot, root: BookHash, h: BookHash, line: seq<Loc>)
    requires Linked(sn, root) && CostsSettled(cp, sn, root) && IsLine(sn, h, line)
    ensures Depth(sn, LineEnd(sn, h, line)) <= Depth(sn, h) + |line|
    decreases |line|
  {
    hide CostsSettled;
    if line != [] {
      var loc := line[0];
      var d := sn[h].moves[loc].hash;
      LinesAreLong(cp, sn, root, d, line[1..]);
      SettledDepth(cp, sn, root, d);
      DepthsAreNatural(cp, sn, root, h);
      assert (h, loc) in sn[d].parents;
      var i :| 0 <= i < |sn[d].parents| && sn[d].parents[i] == (h, loc);
      assert ParentCosts(sn, d, i) == sn[h].costs;
    }
  }

  lemma {:induction false} ExtendLine(sn: Snapshot, h: BookHash, line: seq<Loc>, loc: Loc)
    requires IsLine(sn, h, line) && loc in sn[LineEnd(sn, h, line)].moves
    requires sn[LineEnd(sn, h, line)].moves[loc].hash in sn
    ensures IsLine(sn, h, line + [loc]) && LineEnd(sn, h, line + [loc]) == sn[LineEnd(sn, h, line)].moves[loc].hash
    decreases |line|
  {
    if line != [] {
      ExtendLine(sn, sn[h].moves[line[0]].hash, line[1..], loc);
      assert (line + [loc])[1..] == line[1..] + [loc];
    } else {
      assert [loc][1..] == [];
    }
  }

  /** Below the sentinel there is a line from the root of that length. */
  lemma {:induction false} DepthIsAttained(cp: CostParams, sn: Snapshot, root: BookHash, h: BookHash)
    returns (line: seq<Loc>)
    requires Linked(sn, root) && CostsSettled(cp, sn, root) && h in sn && Depth(sn, h) < DEPTH_UNBOUNDED
    ensures IsLine(sn, root, line) && LineEnd(sn, root, line) == h && |line| == Depth(sn, h)
    decreases Depth(sn, h)
  {
    hide CostsSettled, Linked, IsLine;
    DepthsAreNatural(cp, sn, root, h);
    SettledDepth(cp, sn, root, h);
    line := [];
    if h != root {
      var i :| 0 <= i < |sn[h].parents| && Depth(sn, h) == ParentCosts(sn, h, i).minDepthFromRoot + 1;
      var e := sn[h].parents[i];
      DepthsAreNatural(cp, sn, root, e.0);
      line := DepthIsAttained(cp, sn, root, e.0);
      ExtendLine(sn, root, line, e.1);
      line := line + [e.1];
    } else {
      assert IsLine(sn, h, []) by { EmptyLine(sn, h); }
    }
  }

  lemma EmptyLine(sn: Snapshot, h: BookHash)
    requires h in sn
    ensures IsLine(sn, h, []) && LineEnd(sn, h, []) == h
  {
  }

  /** The depth of a node is the length of the shortest line of moves from the root, up to the sentinel. */
  lemma DepthIsShortestLine(cp: CostParams, sn: Snapshot, root: BookHash, h: BookHash)
    requires Linked(sn, root) && CostsSettled(cp, sn, root) && h in sn
    ensures 0 <= Depth(sn, h) <= DEPTH_UNBOUNDED
    ensures forall line :: IsLine(sn, root, line) && LineEnd(sn, root, line) == h ==> Depth(sn, h) <= |line|
    ensures Depth(sn, h) < DEPTH_UNBOUNDED
            <==> exists line :: IsLine(sn, root, line) && LineEnd(sn, root, line) == h && |line| < DEPTH_UNBOUNDED
    ensures Depth(sn, h) < DEPTH_UNBOUNDED ==>
              exists line :: IsLine(sn, root, line) && LineEnd(sn, root, line) == h && |line| == Depth(sn, h)
  {
    hide CostsSettled, Linked, IsLine;
    DepthsAreNatural(cp, sn, root, h);
    SettledDepth(cp, sn, root, h);
    RootThere(sn, root);
    SettledDepth(cp, sn, root, root);
    forall line | IsLine(sn, root, line) && LineEnd(sn, root, line) == h ensures Depth(sn, h) <= |line| {
      LinesAreLong(cp, sn, root, root, line);
    }
    if Depth(sn, h) < DEPTH_UNBOUNDED {
      var line := DepthIsAttained(cp, sn, root, h);
    }
  }

  lemma RootThere(sn: Snapshot, root: BookHash)
    requires Linked(sn, root)
    ensures root in sn
  {
  }

  /** On an acyclic book a line visits each node at most once. */
  lemma {:induction false} LinesAreShort(sn: Snapshot, root: BookHash, rank: map<BookHash, nat>, h: BookHash,
                                         line: seq<Loc>)
    requires Linked(sn, root) && AcyclicBy(sn, rank) && IsLine(sn, h, line)
    ensures |line| <= |Lower(sn, rank, h)| < |sn|
    decreases |line|
  {
    hide Linked;
    assert h !in Lower(sn, rank, h) && Lower(sn, rank, h) <= sn.Keys;
    SubsetSize(Lower(sn, rank, h) + {h}, sn.Keys);
    if line != [] {
      var loc := line[0];
      assert loc in sn[h].moves;
      var d := sn[h].moves[loc].hash;
      LinesAreShort(sn, root, rank, d, line[1..]);
      assert d in Lower(sn, rank, h) && d !in Lower(sn, rank, d);
      SubsetSize(Lower(sn, rank, d) + {d}, Lower(sn, rank, h));
    }
  }

  ghost function RankIn(rank: map<BookHash, nat>, h: BookHash): nat { if h in rank then rank[h] else 0 }

  /** The nodes of lower rank. */
  ghost function Lower(sn: Snapshot, rank: map<BookHash, nat>, h: BookHash): set<BookHash> {
    set d | d in sn && RankIn(rank, d) < RankIn(rank, h)
  }

  /** Where every node is below the root some line leads to it. */
  lemma {:induction false} RootedHasLine(sn: Snapshot, root: BookHash, depth: map<BookHash, nat>, h: BookHash)
    returns (line: seq<Loc>)
    requires Linked(sn, root) && RootedBy(sn, root, depth) && h in sn
    ensures IsLine(sn, root, line) && LineEnd(sn, root, line) == h
    decreases if h in depth then depth[h] else 0
  {
    hide IsLine;
    line := [];
    if h != root {
      var e :| e in sn[h].parents && e.0 in depth && depth[e.0] < depth[h];
      line := RootedHasLine(sn, root, depth, e.0);
      ExtendLine(sn, root, line, e.1);
      line := line + [e.1];
    } else {
      EmptyLine(sn, h);
    }
  }

  /** An acyclic rooted book with no more nodes than the sentinel: the depth is the shortest line's length. */
  lemma RootedDepthIsExact(cp: CostParams, sn: Snapshot, root: BookHash, depth: map<BookHash, nat>,
                           rank: map<BookHash, nat>, h: BookHash)
    returns (line: seq<Loc>)
    requires Linked(sn, root) && CostsSettled(cp, sn, root) && RootedBy(sn, root, depth) && AcyclicBy(sn, rank)
    requires h in sn && |sn| <= DEPTH_UNBOUNDED
    ensures IsLine(sn, root, line) && LineEnd(sn, root, line) == h && |line| == Depth(sn, h)
    ensures forall other :: IsLine(sn, root, other) && LineEnd(sn, root, other) == h ==> |line| <= |other|
  {
    hide CostsSettled, Linked, RootedBy, AcyclicBy, IsLine;
    var some := RootedHasLine(sn, root, depth, h);
    LinesAreShort(sn, root, rank, root, some);
    DepthIsShortestLine(cp, sn, root, h);
    line := DepthIsAttained(cp, sn, root, h);
  }
}
