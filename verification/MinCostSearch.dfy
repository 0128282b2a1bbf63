/** computeMinCostToChangeWinLossHelper on the book, with its two caches, and soundness on books. */
module MinCostSearch {
  import opened Util
  import opened BookData
  import opened CostPass
  import opened MinCost
  import opened MinCostMeaning
  import opened Settled
  import opened Meaning
  import opened ValueRules
  import opened Symmetry

  type CostCache = map<BookHash, real>

  /** What all the recursive calls share. */
  datatype Caches = Caches(cost: CostCache, result: map<BookHash, MinCostResult>, visited: set<BookHash>)

  ghost predicate KidsClosed(sn: Snapshot) {
    forall h, loc :: h in sn && loc in sn[h].moves ==> sn[h].moves[loc].hash in sn
  }

  ghost function CostIn(costCache: CostCache): BookHash -> real {
    (h: BookHash) => if h in costCache then costCache[h] else 0.0
  }

  lemma {:induction false} SumAgrees(f: BookHash -> real, g: BookHash -> real, s: set<BookHash>)
    requires forall h :: h in s ==> f(h) == g(h)
    ensures SumOver(f, s) == SumOver(g, s)
  {
    if s != {} {
      var x :| x in s;
      SumTakeOut(f, s, x);
      SumTakeOut(g, s, x);
      SumAgrees(f, g, s - {x});
    }
  }

  lemma TakeNext(f: BookHash -> real, a: set<BookHash>, done: set<BookHash>, x: BookHash)
    requires x !in done
    ensures SumOver(f, a * (done + {x})) == SumOver(f, a * done) + (if x in a then f(x) else 0.0)
  {
    if x in a {
      SumTakeOut(f, a * (done + {x}), x);
      assert a * (done + {x}) - {x} == a * done;
    } else {
      assert a * (done + {x}) == a * done;
    }
  }

  lemma SumOfNone(f: BookHash -> real)
    ensures SumOver(f, {}) == 0.0
  {
  }

  lemma MoveOver(all: set<BookHash>, acc: set<BookHash>, remaining: set<BookHash>, done: set<BookHash>, x: BookHash)
    requires Split(all, remaining, done) && x in remaining
    ensures Split(all, remaining - {x}, done + {x}) && x !in done
    ensures acc + done + {x} == acc + (done + {x})
  {
  }

  ghost predicate Split(all: set<BookHash>, remaining: set<BookHash>, done: set<BookHash>) {
    remaining + done == all && remaining !! done
  }

  lemma AllLeft(all: set<BookHash>)
    ensures Split(all, all, {})
  {
  }

  lemma SplitFacts(all: set<BookHash>, remaining: set<BookHash>, done: set<BookHash>)
    requires Split(all, remaining, done)
    ensures remaining <= all && (remaining == {} ==> done == all)
  {
  }

  /** Add a child's result; costs of nodes that were there already are taken off again. */
  method AddChild(acc: MinCostResult, child: MinCostResult, costCache: CostCache) returns (result: MinCostResult)
    requires acc.nodes <= costCache.Keys && child.nodes <= costCache.Keys
    ensures result.nodes == acc.nodes + child.nodes
    ensures result.totalCost == acc.totalCost + child.totalCost - SumOver(CostIn(costCache), acc.nodes * child.nodes)
  {
    hide SumOver, Split;
    var totalCost, nodes := acc.totalCost + child.totalCost, acc.nodes;
    SumOfNone(CostIn(costCache));
    var remaining := child.nodes;
    ghost var done: set<BookHash> := {};
    assert acc.nodes * {} == {} && Split(child.nodes, child.nodes, {}) by { AllLeft(child.nodes); }
    while remaining != {}
      invariant Split(child.nodes, remaining, done)
      invariant nodes == acc.nodes + done
      invariant totalCost == acc.totalCost + child.totalCost - SumOver(CostIn(costCache), acc.nodes * done)
      decreases |remaining|
    {
      var hash :| hash in remaining;
      MoveOver(child.nodes, acc.nodes, remaining, done, hash);
      SplitFacts(child.nodes, remaining, done);
      TakeNext(CostIn(costCache), acc.nodes, done, hash);
      if hash in nodes {
        totalCost := totalCost - costCache[hash];
      }
      nodes := nodes + {hash};
      remaining, done := remaining - {hash}, done + {hash};
    }
    SplitFacts(child.nodes, remaining, done);
    result := MinCostResult(totalCost, nodes);
  }

  lemma AddedIsMerge(q: Query, costCache: CostCache, acc: MinCostResult, child: MinCostResult, result: MinCostResult)
    requires acc.nodes <= costCache.Keys && forall h :: h in costCache ==> costCache[h] == q.costOf(h)
    requires result.nodes == acc.nodes + child.nodes
    requires result.totalCost == acc.totalCost + child.totalCost - SumOver(CostIn(costCache), acc.nodes * child.nodes)
    ensures result == Merge(q, acc, child)
  {
    SumAgrees(CostIn(costCache), q.costOf, acc.nodes * child.nodes);
  }

  predicate ReExpandableNode(q: Query, node: BookNode)
    reads node
  {
    node.canReExpand && node.recursiveValues.visits <= q.maxVisitsForReExpansion
  }

  /** The cost of changing this node alone, through the cost cache. */
  method EvaluateCost(q: Query, node: BookNode, costCache: CostCache, ghost sn: Snapshot)
    returns (result: MinCostResult, costCache': CostCache)
    requires node.hash in sn && sn[node.hash] == node.State()
    ensures costCache.Keys <= costCache'.Keys && result.nodes <= costCache'.Keys
    ensures CostsExact(q, costCache) ==> result == ThisNode(sn, q, node.hash) && CostsExact(q, costCache')
  {
    costCache' := costCache;
    var thisNodeWL := node.thisValuesNotInBook.winLossValue;
    if ReExpandableNode(q, node) {
      thisNodeWL := node.recursiveValues.winLossValue;
    }
    if Meets(q, thisNodeWL) {
      result := NOTHING;
    } else {
      if node.hash !in costCache {
        costCache' := costCache[node.hash := q.costOf(node.hash)];
      }
      result := MinCostResult(costCache'[node.hash], {node.hash});
    }
  }

  // ---------------------------------------------------------------------------------------------
  // What the calls keep

  /** Every node of a cached result has its cost cached. */
  ghost predicate NodesCosted(c: Caches) {
    forall h :: h in c.result ==> c.result[h].nodes <= c.cost.Keys
  }

  ghost predicate Searching(b: Book, sn: Snapshot, c: Caches)
    reads b, b.nodes
  {
    Now(b, sn) && KidsClosed(sn) && NodesCosted(c) && c.visited <= sn.Keys
  }

  ghost predicate Grew(c: Caches, c': Caches) {
    c.cost.Keys <= c'.cost.Keys && c.result.Keys <= c'.result.Keys && c.visited <= c'.visited
  }

  ghost predicate CostsExact(q: Query, cost: CostCache) { forall h :: h in cost ==> cost[h] == q.costOf(h) }

  /** Both caches hold what the search function says. */
  ghost predicate Exact(sn: Snapshot, q: Query, p: real, rank: map<BookHash, nat>, c: Caches) {
    && Ranked(sn, rank) && CostsExact(q, c.cost)
    && forall h :: h in c.result ==> h in sn && c.result[h] == Search(sn, q, Some(p), rank, h)
  }

  /** A visited node is finished, or it is an ancestor: its rank is above r. */
  ghost predicate Above(rank: map<BookHash, nat>, c: Caches, r: nat) {
    forall v :: v in c.visited ==> v in c.result || RankOf(rank, v) > r
  }

  /** In the loop over the children of h, h itself is visited and not finished. */
  ghost predicate AboveBut(rank: map<BookHash, nat>, c: Caches, h: BookHash) {
    forall v :: v in c.visited && v != h ==> v in c.result || RankOf(rank, v) > RankOf(rank, h)
  }

  /** Nodes visited since c are finished. */
  ghost predicate Finished(c: Caches, c': Caches) {
    forall v :: v in c'.visited && v !in c.visited ==> v in c'.result
  }

  lemma ChildIn(sn: Snapshot, h: BookHash, loc: Loc)
    requires KidsClosed(sn) && h in sn && loc in sn[h].moves
    ensures sn[h].moves[loc].hash in sn
  {
  }

  lemma AboveDown(sn: Snapshot, q: Query, p: real, rank: map<BookHash, nat>, c: Caches, h: BookHash, i: nat)
    requires h in sn && i < |sn[h].moves| && Exact(sn, q, p, rank, c) && AboveBut(rank, c, h)
    ensures Above(rank, c, RankOf(rank, sn[h].moves[Locs(sn[h].moves)[i]].hash))
    ensures Ranked(sn, rank)
  {
    hide Search, Ranked, Locs;
    ChildFacts(sn, q, Some(p), rank, h, i);
  }

  lemma StillAbove(rank: map<BookHash, nat>, c: Caches, c': Caches, h: BookHash)
    requires AboveBut(rank, c, h) && Grew(c, c') && Finished(c, c')
    ensures AboveBut(rank, c', h)
  {
  }

  lemma FewerLeft(keys: set<BookHash>, c: Caches, c': Caches)
    requires Grew(c, c')
    ensures |keys - c'.visited| <= |keys - c.visited|
  {
    SubsetSize(keys - c'.visited, keys - c.visited);
  }

  lemma GrewTwice(c: Caches, c1: Caches, c2: Caches)
    requires Grew(c, c1) && Grew(c1, c2)
    ensures Grew(c, c2)
    ensures Finished(c, c1) && Finished(c1, c2) ==> Finished(c, c2)
  {
  }

  lemma GrewNone(c: Caches)
    ensures Grew(c, c) && Finished(c, c)
  {
  }

  lemma ExactRanked(sn: Snapshot, q: Query, p: real, rank: map<BookHash, nat>, c: Caches)
    requires Exact(sn, q, p, rank, c)
    ensures Ranked(sn, rank) && CostsExact(q, c.cost)
  {
  }

  // ---------------------------------------------------------------------------------------------
  // The search

  /** One child of the node being searched. */
  method SearchChild(b: Book, q: Query, pruneOverCost: real, node: BookNode, i: nat, c: Caches,
                     ghost sn: Snapshot, ghost rank: map<BookHash, nat>) returns (child: MinCostResult, c': Caches)
    requires Searching(b, sn, c) && node in b.nodes && i < |node.moves| && node.hash in c.visited
    requires node.hash in sn && sn[node.hash] == node.State()
    ensures Searching(b, sn, c') && child.nodes <= c'.cost.Keys && Grew(c, c')
    ensures Exact(sn, q, pruneOverCost, rank, c) && AboveBut(rank, c, node.hash) ==>
              && Exact(sn, q, pruneOverCost, rank, c') && Finished(c, c')
              && child == ChildResult(sn, q, Some(pruneOverCost), rank, node.hash, i)
    decreases |sn.Keys - c.visited|, 2
  {
    hide NodesCosted, Search, Ranked, KidsClosed, Finished, Locs, Exact, Above, AboveBut, Grew, ChildResult, Now;
    var move := node.moves[Locs(node.moves)[i]];
    ChildIn(sn, node.hash, Locs(node.moves)[i]);
    ReadNode(b, sn, move.hash);
    b.At(move.hash);
    if Exact(sn, q, pruneOverCost, rank, c) && AboveBut(rank, c, node.hash) {
      AboveDown(sn, q, pruneOverCost, rank, c, node.hash, i);
      ChildFacts(sn, q, Some(pruneOverCost), rank, node.hash, i);
    }
    child, c' := ComputeMinCost(b, q, pruneOverCost, b.Get(move.hash), c, sn, rank);
    child := child.(totalCost := child.totalCost + q.edgeCost(node.hash, move));
  }

  /** One child is enough: the cheapest of this node and its children. */
  method AnyChildLoop(b: Book, q: Query, pruneOverCost: real, node: BookNode, thisNodeResult: MinCostResult, c0: Caches,
                      ghost sn: Snapshot, ghost rank: map<BookHash, nat>) returns (result: MinCostResult, c: Caches)
    requires Searching(b, sn, c0) && node in b.nodes && node.hash in c0.visited && thisNodeResult.nodes <= c0.cost.Keys
    requires node.hash in sn && sn[node.hash] == node.State()
    ensures Searching(b, sn, c) && result.nodes <= c.cost.Keys && Grew(c0, c)
    ensures Exact(sn, q, pruneOverCost, rank, c0) && AboveBut(rank, c0, node.hash)
            && thisNodeResult == ThisNode(sn, q, node.hash) ==>
              && Exact(sn, q, pruneOverCost, rank, c) && Finished(c0, c)
              && result == AnyChild(sn, q, Some(pruneOverCost), rank, node.hash, |node.moves|)
    decreases |sn.Keys - c0.visited|, 3
  {
    hide Searching, Finished, Exact, AboveBut, AnyChild, ThisNode, Ranked, ChildResult;
    result, c := thisNodeResult, c0;
    ghost var ok := Exact(sn, q, pruneOverCost, rank, c0) && AboveBut(rank, c0, node.hash)
      && thisNodeResult == ThisNode(sn, q, node.hash);
    GrewNone(c0);
    if ok {
      ExactRanked(sn, q, pruneOverCost, rank, c0);
      NoSteps(sn, q, Some(pruneOverCost), rank, node.hash);
    }
    for i := 0 to |node.moves|
      invariant Searching(b, sn, c) && result.nodes <= c.cost.Keys && Grew(c0, c)
      invariant ok ==>
        && Exact(sn, q, pruneOverCost, rank, c) && AboveBut(rank, c, node.hash) && Finished(c0, c)
        && Ranked(sn, rank) && result == AnyChild(sn, q, Some(pruneOverCost), rank, node.hash, i)
    {
      ghost var before := c;
      FewerLeft(sn.Keys, c0, c);
      var child;
      child, c := SearchChild(b, q, pruneOverCost, node, i, c, sn, rank);
      GrewTwice(c0, before, c);
      if ok {
        StillAbove(rank, before, c, node.hash);
        Steps(sn, q, Some(pruneOverCost), rank, node.hash, i);
      }
      if child.totalCost < result.totalCost {
        result := child;
      }
    }
  }

  /** All children are needed: add them up, and stop once the total is over the limit. */
  method AllChildrenLoop(b: Book, q: Query, pruneOverCost: real, node: BookNode, thisNodeResult: MinCostResult,
                         c0: Caches, ghost sn: Snapshot,
                         ghost rank: map<BookHash, nat>) returns (result: MinCostResult, c: Caches)
    requires Searching(b, sn, c0) && node in b.nodes && node.hash in c0.visited && thisNodeResult.nodes <= c0.cost.Keys
    requires node.hash in sn && sn[node.hash] == node.State()
    ensures Searching(b, sn, c) && result.nodes <= c.cost.Keys && Grew(c0, c)
    ensures Exact(sn, q, pruneOverCost, rank, c0) && AboveBut(rank, c0, node.hash)
            && thisNodeResult == ThisNode(sn, q, node.hash) ==>
              && Exact(sn, q, pruneOverCost, rank, c) && Finished(c0, c)
              && result == AllChildren(sn, q, Some(pruneOverCost), rank, node.hash, |node.moves|)
    decreases |sn.Keys - c0.visited|, 3
  {
    hide Searching, Finished, Exact, AboveBut, AllChildren, ThisNode, Ranked, ChildResult, Merge, SumOver, CostIn,
         CostsExact;
    result, c := thisNodeResult, c0;
    ghost var ok := Exact(sn, q, pruneOverCost, rank, c0) && AboveBut(rank, c0, node.hash)
      && thisNodeResult == ThisNode(sn, q, node.hash);
    GrewNone(c0);
    if ok {
      ExactRanked(sn, q, pruneOverCost, rank, c0);
      NoSteps(sn, q, Some(pruneOverCost), rank, node.hash);
    }
    var i := 0;
    while i < |node.moves| && result.totalCost <= pruneOverCost
      invariant i <= |node.moves|
      invariant Searching(b, sn, c) && result.nodes <= c.cost.Keys && Grew(c0, c)
      invariant ok ==>
        && Exact(sn, q, pruneOverCost, rank, c) && AboveBut(rank, c, node.hash) && Finished(c0, c)
        && Ranked(sn, rank) && result == AllChildren(sn, q, Some(pruneOverCost), rank, node.hash, i)
    {
      ghost var before := c;
      var acc := result;
      FewerLeft(sn.Keys, c0, c);
      var child;
      child, c := SearchChild(b, q, pruneOverCost, node, i, c, sn, rank);
      GrewTwice(c0, before, c);
      result := AddChild(acc, child, c.cost);
      if ok {
        StillAbove(rank, before, c, node.hash);
        ExactRanked(sn, q, pruneOverCost, rank, c);
        AddedIsMerge(q, c.cost, acc, child, result);
        Steps(sn, q, Some(pruneOverCost), rank, node.hash, i);
      }
      i := i + 1;
    }
    if ok && i < |node.moves| {
      StopsWhenOver(sn, q, Some(pruneOverCost), rank, node.hash, i, |node.moves|);
    }
  }

  lemma Stored(sn: Snapshot, q: Query, p: real, rank: map<BookHash, nat>, c: Caches, h: BookHash, r: MinCostResult)
    requires Exact(sn, q, p, rank, c) && h in sn && Ranked(sn, rank) && r == Search(sn, q, Some(p), rank, h)
    ensures Exact(sn, q, p, rank, c.(result := c.result[h := r]))
  {
  }

  lemma SearchBranches(sn: Snapshot, q: Query, p: real, rank: map<BookHash, nat>, h: BookHash)
    requires Ranked(sn, rank) && h in sn
    ensures Search(sn, q, Some(p), rank, h) ==
            if Meets(q, sn[h].values.winLossValue) then NOTHING
            else if sn[h].inputs.canReExpand && sn[h].values.visits <= q.maxVisitsForReExpansion then ThisNode(sn, q, h)
            else if OneIsEnough(q, sn[h].inputs.pla) then AnyChild(sn, q, Some(p), rank, h, |sn[h].moves|)
            else AllChildren(sn, q, Some(p), rank, h, |sn[h].moves|)
  {
  }

  /** Nothing to be done, or a cached answer, or a cycle; otherwise the node and its children. */
  method ComputeMinCost(b: Book, q: Query, pruneOverCost: real, node: BookNode, c: Caches,
                        ghost sn: Snapshot, ghost rank: map<BookHash, nat>) returns (result: MinCostResult, c': Caches)
    requires Searching(b, sn, c) && node in b.nodes
    ensures Searching(b, sn, c') && result.nodes <= c'.cost.Keys && Grew(c, c') && node.hash in sn
    ensures Exact(sn, q, pruneOverCost, rank, c) && Above(rank, c, RankOf(rank, node.hash)) ==>
              && Exact(sn, q, pruneOverCost, rank, c') && Finished(c, c')
              && result == Search(sn, q, Some(pruneOverCost), rank, node.hash)
    decreases |sn.Keys - c.visited|, 1
  {
    NodeNow(b, sn, node);
    GrewNone(c);
    ghost var ok := Exact(sn, q, pruneOverCost, rank, c) && Above(rank, c, RankOf(rank, node.hash));
    if ok {
      SearchBranches(sn, q, pruneOverCost, rank, node.hash);
    }
    if Meets(q, node.recursiveValues.winLossValue) {
      return NOTHING, c;
    }
    if node.hash in c.result {
      return c.result[node.hash], c;
    }
    if node.hash in c.visited {
      return NOTHING, c;
    }
    result, c' := SearchNode(b, q, pruneOverCost, node, c, sn, rank);
  }

  lemma Entered(b: Book, sn: Snapshot, c: Caches, cost: CostCache, h: BookHash)
    requires Searching(b, sn, c) && h in sn && c.cost.Keys <= cost.Keys
    ensures Searching(b, sn, Caches(cost, c.result, c.visited + {h}))
  {
  }

  lemma EnteredExact(sn: Snapshot, q: Query, p: real, rank: map<BookHash, nat>, c: Caches, cost: CostCache, h: BookHash)
    requires Exact(sn, q, p, rank, c) && Above(rank, c, RankOf(rank, h)) && CostsExact(q, cost)
    ensures Exact(sn, q, p, rank, Caches(cost, c.result, c.visited + {h}))
    ensures AboveBut(rank, Caches(cost, c.result, c.visited + {h}), h)
  {
  }

  lemma Left(b: Book, sn: Snapshot, c: Caches, c1: Caches, c2: Caches, h: BookHash, r: MinCostResult)
    requires Searching(b, sn, c2) && r.nodes <= c2.cost.Keys && Grew(c1, c2)
    requires c.cost.Keys <= c1.cost.Keys && c1.result == c.result && c1.visited == c.visited + {h}
    ensures Searching(b, sn, c2.(result := c2.result[h := r])) && Grew(c, c2.(result := c2.result[h := r]))
    ensures Finished(c1, c2) ==> Finished(c, c2.(result := c2.result[h := r]))
  {
  }

  lemma NotYetCounted(keys: set<BookHash>, visited: set<BookHash>, h: BookHash)
    requires h in keys && h !in visited
    ensures |keys - (visited + {h})| < |keys - visited|
  {
    assert keys - (visited + {h}) == keys - visited - {h};
  }

  /** A node met for the first time. */
  method SearchNode(b: Book, q: Query, pruneOverCost: real, node: BookNode, c: Caches,
                    ghost sn: Snapshot, ghost rank: map<BookHash, nat>) returns (result: MinCostResult, c': Caches)
    requires Searching(b, sn, c) && node in b.nodes && node.hash !in c.visited && node.hash !in c.result
    requires node.hash in sn && sn[node.hash] == node.State() && !Meets(q, node.recursiveValues.winLossValue)
    ensures Searching(b, sn, c') && result.nodes <= c'.cost.Keys && Grew(c, c')
    ensures Exact(sn, q, pruneOverCost, rank, c) && Above(rank, c, RankOf(rank, node.hash)) ==>
              && Exact(sn, q, pruneOverCost, rank, c') && Finished(c, c')
              && result == Search(sn, q, Some(pruneOverCost), rank, node.hash)
    decreases |sn.Keys - c.visited|, 0
  {
    hide Searching, Finished, Exact, AboveBut, Above, Grew, AllChildren, AnyChild, ThisNode, Ranked, Search, CostsExact;
    ghost var ok := Exact(sn, q, pruneOverCost, rank, c) && Above(rank, c, RankOf(rank, node.hash));
    var thisNodeResult, costCache := EvaluateCost(q, node, c.cost, sn);
    var c1 := Caches(costCache, c.result, c.visited + {node.hash});
    Entered(b, sn, c, costCache, node.hash);
    GrewNone(c1);
    NotYetCounted(sn.Keys, c.visited, node.hash);
    if ok {
      ExactRanked(sn, q, pruneOverCost, rank, c);
      EnteredExact(sn, q, pruneOverCost, rank, c, costCache, node.hash);
      SearchBranches(sn, q, pruneOverCost, rank, node.hash);
    }
    if ReExpandableNode(q, node) {
      result, c' := thisNodeResult, c1;
    } else if OneIsEnough(q, node.pla) {
      result, c' := AnyChildLoop(b, q, pruneOverCost, node, thisNodeResult, c1, sn, rank);
    } else {
      result, c' := AllChildrenLoop(b, q, pruneOverCost, node, thisNodeResult, c1, sn, rank);
    }
    Left(b, sn, c, c1, c', node.hash, result);
    if ok {
      Stored(sn, q, pruneOverCost, rank, c', node.hash, result);
    }
    c' := c'.(result := c'.result[node.hash := result]);
  }

  /** The public operation. On an acyclic book it returns what the search function says. */
  method ComputeMinCostToChangeWinLoss(b: Book, q: Query, pruneOverCost: real, node: BookNode?, costCache: CostCache,
                                       resultCache: map<BookHash, MinCostResult>, ghost rank: map<BookHash, nat>)
    returns (result: MinCostResult, costCache': CostCache, resultCache': map<BookHash, MinCostResult>)
    requires b.Valid() && (node != null ==> node in b.nodes)
    requires forall h :: h in resultCache ==> resultCache[h].nodes <= costCache.Keys
    ensures node == null ==> result == NOTHING
    ensures result.nodes <= costCache'.Keys
    ensures forall h :: h in resultCache' ==> resultCache'[h].nodes <= costCache'.Keys
    ensures node != null && AcyclicBy(b.Snapshot(), rank) && CostsExact(q, costCache)
            && ResultsExact(b.Snapshot(), b.root.hash, q, pruneOverCost, rank, resultCache) ==>
              && CostsExact(q, costCache')
              && ResultsExact(b.Snapshot(), b.root.hash, q, pruneOverCost, rank, resultCache')
              && Answers(b.Snapshot(), b.root.hash, q, pruneOverCost, rank, node.hash, result)
  {
    if node == null {
      return NOTHING, costCache, resultCache;
    }
    hide Search, Linked, AcyclicBy, BestParentsOk, Book.Snapshot;
    ghost var sn := b.Snapshot();
    var c := Caches(costCache, resultCache, {});
    assert Searching(b, sn, c);
    var c';
    result, c' := ComputeMinCost(b, q, pruneOverCost, node, c, sn, rank);
    costCache', resultCache' := c'.cost, c'.result;
    if AcyclicBy(sn, rank) {
      LinkedRanked(sn, b.root.hash, rank);
    }
  }

  lemma LinkedRanked(sn: Snapshot, root: BookHash, rank: map<BookHash, nat>)
    requires Linked(sn, root) && AcyclicBy(sn, rank)
    ensures Ranked(sn, rank)
  {
  }

  ghost predicate ResultsExact(sn: Snapshot, root: BookHash, q: Query, p: real, rank: map<BookHash, nat>,
                               results: map<BookHash, MinCostResult>) {
    forall h :: h in results ==> Answers(sn, root, q, p, rank, h, results[h])
  }

  ghost predicate Answers(sn: Snapshot, root: BookHash, q: Query, p: real, rank: map<BookHash, nat>, h: BookHash,
                          r: MinCostResult) {
    Ranked(sn, rank) && h in sn && r == Search(sn, q, Some(p), rank, h)
  }

  // ---------------------------------------------------------------------------------------------
  // Soundness between two recomputed books

  /** sn' is sn after new searches: nodes that cannot be searched again as a whole keep their moves. */
  ghost predicate Researched(sn: Snapshot, sn': Snapshot, q: Query) {
    && sn.Keys <= sn'.Keys
    && (forall k :: k in sn && !ReExpandable(sn, q, k) ==> SameMoves(sn, sn', k) && NoWorse(q, Own(sn, k), Own(sn', k)))
    && (forall k :: k in sn && ReExpandable(sn, q, k) ==> NoWorse(q, Value(sn, k), Value(sn', k)))
  }

  ghost predicate SameMoves(sn: Snapshot, sn': Snapshot, k: BookHash)
    requires k in sn && k in sn'
  {
    && sn'[k].inputs.pla == sn[k].inputs.pla && sn'[k].moves.Keys == sn[k].moves.Keys
    && forall loc :: loc in sn[k].moves ==> sn'[k].moves[loc].hash == sn[k].moves[loc].hash
  }

  /** The returned nodes now meet the threshold. */
  ghost predicate NowMeets(sn: Snapshot, sn': Snapshot, q: Query, nodes: set<BookHash>)
    requires sn.Keys <= sn'.Keys
  {
    forall k :: k in sn && k in nodes ==> Meets(q, if ReExpandable(sn, q, k) then Value(sn', k) else Own(sn', k))
  }

  ghost function ValueMap(sn: Snapshot): (m: map<BookHash, real>)
    ensures m.Keys == sn.Keys
  {
    map k | k in sn :: Value(sn, k)
  }

  ghost function OwnMap(sn: Snapshot): (m: map<BookHash, real>)
    ensures m.Keys == sn.Keys
  {
    map k | k in sn :: Own(sn, k)
  }

  lemma BestIsMinimax(sn: Snapshot, sn': Snapshot, k: BookHash)
    requires k in sn && k in sn' && SameMoves(sn, sn', k)
    requires forall loc :: loc in sn'[k].moves ==> sn'[k].moves[loc].hash in sn'
    requires BestForPlayer(sn', k, WinLossMean, sn'[k].inputs.own.winLossValue)
    ensures MinimaxAt(sn, k, Own(sn', k), ValueMap(sn'))
  {
  }

  lemma SettledMinimax(p: Params, sn: Snapshot, sn': Snapshot, root: BookHash, k: BookHash)
    requires Linked(sn', root) && ValuesSettled(p, sn') && k in sn && k in sn' && SameMoves(sn, sn', k)
    ensures MinimaxAt(sn, k, Own(sn', k), ValueMap(sn'))
  {
    hide ValuesSettled, MinimaxAt, BestForPlayer;
    WinLossIsMinimax(p, sn', root, k);
    BestIsMinimax(sn, sn', k);
  }

  /**
   The answer is sound: after any new searches that leave no value worse, recompute the book, and
   if the returned nodes now meet the threshold then the queried node's minimax value does too.
   */
  lemma MinCostIsSound(p: Params, p': Params, q: Query, sn: Snapshot, sn': Snapshot, root: BookHash,
                       rank: map<BookHash, nat>, h: BookHash)
    requires Linked(sn, root) && ValuesSettled(p, sn) && AcyclicBy(sn, rank) && Ranked(sn, rank) && h in sn
    requires Linked(sn', root) && ValuesSettled(p', sn') && Researched(sn, sn', q)
    requires NowMeets(sn, sn', q, Search(sn, q, None, rank, h).nodes)
    ensures Meets(q, Value(sn', h))
  {
    hide Linked, ValuesSettled, AcyclicBy, Ranked, Search, MinimaxAt, ReExpandable, SameMoves, Meets;
    forall k | k in sn ensures MinimaxAt(sn, k, Own(sn, k), ValueMap(sn)) {
      SelfMoves(sn, k);
      SettledMinimax(p, sn, sn, root, k);
    }
    forall k | k in sn && !ReExpandable(sn, q, k) ensures MinimaxAt(sn, k, OwnMap(sn')[k], ValueMap(sn')) {
      SettledMinimax(p', sn, sn', root, k);
    }
    SearchIsSound(sn, q, rank, ValueMap(sn), OwnMap(sn'), ValueMap(sn'), h);
  }

  lemma SelfMoves(sn: Snapshot, k: BookHash)
    requires k in sn
    ensures SameMoves(sn, sn, k)
  {
  }

  /** When the pruned answer is within the limit, it is the full answer, so it is sound as well. */
  lemma PrunedAnswerIsFull(q: Query, sn: Snapshot, p: real, rank: map<BookHash, nat>, h: BookHash)
    requires Ranked(sn, rank) && NonNegative(q) && h in sn
    ensures Search(sn, q, Some(p), rank, h).totalCost <= p ==> Search(sn, q, Some(p), rank, h) == Search(sn, q, None, rank, h)
    ensures Search(sn, q, None, rank, h).totalCost <= p ==> Search(sn, q, Some(p), rank, h) == Search(sn, q, None, rank, h)
    ensures Search(sn, q, None, rank, h).totalCost > p <==> Search(sn, q, Some(p), rank, h).totalCost > p
  {
    PruningTransparent(sn, q, p, rank, h);
  }

  lemma OneParentEach(sn: Snapshot, root: BookHash)
    requires Linked(sn, root) && forall h :: h in sn ==> |sn[h].parents| <= 1
    ensures OneParent(sn)
  {
    forall h, loc, h', loc' |
      h in sn && loc in sn[h].moves && h' in sn && loc' in sn[h'].moves && sn[h].moves[loc].hash == sn[h'].moves[loc'].hash
      ensures h == h' && loc == loc'
    {
      var d := sn[h].moves[loc].hash;
      assert (h, loc) in sn[d].parents && (h', loc') in sn[d].parents;
    }
  }

  /**
   The answer is the cheapest: in a book whose nodes have at most one parent each, an answer within the
   limit names nodes that suffice, with some moves, at exactly its total, and nothing that suffices
   costs less; an answer beyond the limit means that nothing within the limit suffices.
   */
  lemma MinCostIsLeast(q: Query, sn: Snapshot, root: BookHash, p: real, rank: map<BookHash, nat>, h: BookHash,
                       r: MinCostResult) returns (bought: set<Purchase>)
    requires Linked(sn, root) && NonNegative(q) && Ranked(sn, rank) && (forall h :: h in sn ==> |sn[h].parents| <= 1)
    requires Answers(sn, root, q, p, rank, h, r)
    ensures r.totalCost <= p ==>
              && Suffices(sn, q, rank, h, bought) && Changes(bought) == r.nodes && Price(sn, q, bought) == r.totalCost
              && forall other :: Suffices(sn, q, rank, h, other) ==> r.totalCost <= Price(sn, q, other)
    ensures r.totalCost > p ==> forall other :: Suffices(sn, q, rank, h, other) ==> Price(sn, q, other) > p
  {
    OneParentEach(sn, root);
    hide Linked, Ranked, OneParent, Suffices, Price, Changes, Search, NonNegative;
    bought := SearchIsLeast(sn, q, rank, h);
    PrunedAnswerIsFull(q, sn, p, rank, h);
  }
}
