/**
 computeMinCostToChangeWinLoss: which unexpanded moves would have to turn out better to bring a
 node's win/loss value to a threshold, and at what cost: the search as a function, what its total pays
 for, and that pruning is transparent.
 */
module MinCost {
  import opened Util
  import opened BookData
  import opened Symmetry

  datatype MinCostResult = MinCostResult(totalCost: real, nodes: set<BookHash>)

  datatype Query = Query(
    costOf: BookHash -> real,
    edgeCost: (BookHash, BookMove) -> real,
    threshold: real,
    increasing: bool,
    maxVisitsForReExpansion: real)

  const NOTHING := MinCostResult(0.0, {})

  predicate Meets(q: Query, winLoss: real) {
    if q.increasing then winLoss >= q.threshold else winLoss <= q.threshold
  }

  ghost function Value(sn: Snapshot, h: BookHash): real
    requires h in sn
  {
    sn[h].values.winLossValue
  }

  ghost function Own(sn: Snapshot, h: BookHash): real
    requires h in sn
  {
    sn[h].inputs.own.winLossValue
  }

  /** A node that would be searched again as a whole. */
  ghost predicate ReExpandable(sn: Snapshot, q: Query, h: BookHash)
    requires h in sn
  {
    sn[h].inputs.canReExpand && sn[h].values.visits <= q.maxVisitsForReExpansion
  }

  /** One child is enough: the player to move wants what is to be proved. */
  predicate OneIsEnough(q: Query, pla: Player) {
    (pla == White && q.increasing) || (pla == Black && !q.increasing)
  }

  /** Moves stay in the book, and lead to lower rank. */
  ghost predicate Ranked(sn: Snapshot, rank: map<BookHash, nat>) {
    forall h, loc :: h in sn && loc in sn[h].moves ==>
      && sn[h].moves[loc].hash in sn
      && h in rank && sn[h].moves[loc].hash in rank && rank[sn[h].moves[loc].hash] < rank[h]
  }

  ghost function RankOf(rank: map<BookHash, nat>, h: BookHash): nat { if h in rank then rank[h] else 0 }

  // ---------------------------------------------------------------------------------------------
  // Sums over sets of nodes

  ghost function SumOver<T(!new)>(cost: T -> real, s: set<T>): real {
    if s == {} then 0.0 else var x :| x in s; cost(x) + SumOver(cost, s - {x})
  }

  lemma {:induction false} SumTakeOut<T(!new)>(cost: T -> real, s: set<T>, x: T)
    requires x in s
    ensures SumOver(cost, s) == cost(x) + SumOver(cost, s - {x})
  {
    var y :| y in s && SumOver(cost, s) == cost(y) + SumOver(cost, s - {y});
    if y != x {
      SumTakeOut(cost, s - {y}, x);
      SumTakeOut(cost, s - {x}, y);
      assert s - {y} - {x} == s - {x} - {y};
    }
  }

  lemma {:induction false} SumUnion<T(!new)>(cost: T -> real, a: set<T>, b: set<T>)
    ensures SumOver(cost, a + b) == SumOver(cost, a) + SumOver(cost, b) - SumOver(cost, a * b)
    decreases b
  {
    if b == {} {
      assert a + b == a && a * b == {};
    } else {
      var x :| x in b;
      SumTakeOut(cost, b, x);
      SumUnion(cost, a, b - {x});
      if x in a {
        assert a + b == a + (b - {x});
        SumTakeOut(cost, a * b, x);
        assert a * b - {x} == a * (b - {x});
      } else {
        SumTakeOut(cost, a + b, x);
        assert a + b - {x} == a + (b - {x});
        assert a * b == a * (b - {x});
      }
    }
  }

  lemma {:induction false} SumNonNegative<T(!new)>(cost: T -> real, s: set<T>)
    requires forall x: T :: cost(x) >= 0.0
    ensures SumOver(cost, s) >= 0.0
  {
    if s != {} {
      var x :| x in s && SumOver(cost, s) == cost(x) + SumOver(cost, s - {x});
      SumNonNegative(cost, s - {x});
    }
  }

  lemma SumMonotone<T(!new)>(cost: T -> real, a: set<T>, b: set<T>)
    requires (forall x: T :: cost(x) >= 0.0) && a <= b
    ensures SumOver(cost, a) <= SumOver(cost, b)
  {
    SumUnion(cost, a, b - a);
    assert a + (b - a) == b && a * (b - a) == {};
    SumNonNegative(cost, b - a);
  }

  // ---------------------------------------------------------------------------------------------
  // The search

  /** Changing this node alone. */
  ghost function ThisNode(sn: Snapshot, q: Query, h: BookHash): MinCostResult
    requires h in sn
  {
    if Meets(q, if ReExpandable(sn, q, h) then Value(sn, h) else Own(sn, h)) then NOTHING
    else MinCostResult(q.costOf(h), {h})
  }

  /** A child's result joins those of its siblings; nodes already there are not paid twice. */
  ghost function Merge(q: Query, acc: MinCostResult, child: MinCostResult): MinCostResult {
    MinCostResult(acc.totalCost + child.totalCost - SumOver(q.costOf, acc.nodes * child.nodes), acc.nodes + child.nodes)
  }

  function Cheaper(acc: MinCostResult, child: MinCostResult): MinCostResult {
    if child.totalCost < acc.totalCost then child else acc
  }

  predicate Over(prune: Option<real>, cost: real) { prune.Some? && cost > prune.value }

  function Locs(moves: map<Loc, BookMove>): (locs: seq<Loc>)
    ensures |locs| == |moves|
    ensures forall i :: 0 <= i < |locs| ==> locs[i] in moves
    ensures forall loc :: loc in moves ==> exists i :: 0 <= i < |locs| && locs[i] == loc
  {
    assert |moves| == |moves.Keys|;
    var locs := Ascending(moves.Keys);
    assert forall i :: 0 <= i < |locs| ==> locs[i] in locs;
    locs
  }

  /** Cheapest nodes found for h; None: no pruning. */
  ghost function Search(sn: Snapshot, q: Query, prune: Option<real>, rank: map<BookHash, nat>,
                        h: BookHash): MinCostResult
    requires Ranked(sn, rank) && h in sn
    decreases RankOf(rank, h), |sn[h].moves| + 1
  {
    if Meets(q, Value(sn, h)) then NOTHING
    else if ReExpandable(sn, q, h) then ThisNode(sn, q, h)
    else if OneIsEnough(q, sn[h].inputs.pla) then AnyChild(sn, q, prune, rank, h, |sn[h].moves|)
    else AllChildren(sn, q, prune, rank, h, |sn[h].moves|)
  }

  ghost function ChildResult(sn: Snapshot, q: Query, prune: Option<real>, rank: map<BookHash, nat>, h: BookHash,
                             i: nat): MinCostResult
    requires Ranked(sn, rank) && h in sn && i < |sn[h].moves|
    decreases RankOf(rank, h), i
  {
    var move := sn[h].moves[Locs(sn[h].moves)[i]];
    var r := Search(sn, q, prune, rank, move.hash);
    r.(totalCost := r.totalCost + q.edgeCost(h, move))
  }

  /** The best of the node itself and its first k children. */
  ghost function AnyChild(sn: Snapshot, q: Query, prune: Option<real>, rank: map<BookHash, nat>, h: BookHash,
                          k: nat): MinCostResult
    requires Ranked(sn, rank) && h in sn && k <= |sn[h].moves|
    decreases RankOf(rank, h), k
  {
    if k == 0 then ThisNode(sn, q, h)
    else Cheaper(AnyChild(sn, q, prune, rank, h, k - 1), ChildResult(sn, q, prune, rank, h, k - 1))
  }

  /** The node itself and its first k children together; stops once it is too dear. */
  ghost function AllChildren(sn: Snapshot, q: Query, prune: Option<real>, rank: map<BookHash, nat>, h: BookHash,
                             k: nat): MinCostResult
    requires Ranked(sn, rank) && h in sn && k <= |sn[h].moves|
    decreases RankOf(rank, h), k
  {
    if k == 0 then ThisNode(sn, q, h)
    else
      var acc := AllChildren(sn, q, prune, rank, h, k - 1);
      if Over(prune, acc.totalCost) then acc else Merge(q, acc, ChildResult(sn, q, prune, rank, h, k - 1))
  }

  lemma {:induction false} StopsWhenOver(sn: Snapshot, q: Query, prune: Option<real>, rank: map<BookHash, nat>,
                                         h: BookHash, k: nat, n: nat)
    requires Ranked(sn, rank) && h in sn && k <= n <= |sn[h].moves|
    requires Over(prune, AllChildren(sn, q, prune, rank, h, k).totalCost)
    ensures AllChildren(sn, q, prune, rank, h, n) == AllChildren(sn, q, prune, rank, h, k)
    decreases n
  {
    if k < n {
      StopsWhenOver(sn, q, prune, rank, h, k, n - 1);
    }
  }

  lemma Steps(sn: Snapshot, q: Query, prune: Option<real>, rank: map<BookHash, nat>, h: BookHash, k: nat)
    requires Ranked(sn, rank) && h in sn && k < |sn[h].moves|
    ensures AnyChild(sn, q, prune, rank, h, k + 1) ==
            Cheaper(AnyChild(sn, q, prune, rank, h, k), ChildResult(sn, q, prune, rank, h, k))
    ensures AllChildren(sn, q, prune, rank, h, k + 1) ==
            if Over(prune, AllChildren(sn, q, prune, rank, h, k).totalCost) then AllChildren(sn, q, prune, rank, h, k)
            else Merge(q, AllChildren(sn, q, prune, rank, h, k), ChildResult(sn, q, prune, rank, h, k))
  {
  }

  lemma NoSteps(sn: Snapshot, q: Query, prune: Option<real>, rank: map<BookHash, nat>, h: BookHash)
    requires Ranked(sn, rank) && h in sn
    ensures AnyChild(sn, q, prune, rank, h, 0) == ThisNode(sn, q, h) == AllChildren(sn, q, prune, rank, h, 0)
  {
  }

  lemma ChildFacts(sn: Snapshot, q: Query, prune: Option<real>, rank: map<BookHash, nat>, h: BookHash, i: nat)
    requires Ranked(sn, rank) && h in sn && i < |sn[h].moves|
    ensures var move := sn[h].moves[Locs(sn[h].moves)[i]];
            && move.hash in sn && RankOf(rank, move.hash) < RankOf(rank, h)
            && ChildResult(sn, q, prune, rank, h, i) ==
               Search(sn, q, prune, rank,
                      move.hash).(totalCost := Search(sn, q, prune, rank, move.hash).totalCost + q.edgeCost(h, move))
  {
  }

  ghost predicate NonNegative(q: Query) {
    (forall h :: q.costOf(h) >= 0.0) && (forall h, m :: q.edgeCost(h, m) >= 0.0)
  }

  ghost predicate FreeEdges(q: Query) { forall h, m :: q.edgeCost(h, m) == 0.0 }

  // ---------------------------------------------------------------------------------------------
  // What the total pays for

  /** The total pays for each node once; whatever is left over was paid for edges. */
  ghost predicate PaysForNodes(q: Query, r: MinCostResult) {
    && (NonNegative(q) ==> r.totalCost >= SumOver(q.costOf, r.nodes))
    && (FreeEdges(q) ==> r.totalCost == SumOver(q.costOf, r.nodes))
  }

  lemma ThisNodePays(sn: Snapshot, q: Query, h: BookHash)
    requires h in sn
    ensures PaysForNodes(q, ThisNode(sn, q, h))
  {
    SumTakeOut(q.costOf, {h}, h);
    assert {h} - {h} == {};
  }

  lemma MergePays(q: Query, a: MinCostResult, b: MinCostResult)
    requires PaysForNodes(q, a) && PaysForNodes(q, b)
    ensures PaysForNodes(q, Merge(q, a, b))
  {
    SumUnion(q.costOf, a.nodes, b.nodes);
  }

  lemma EdgePays(q: Query, r: MinCostResult, h: BookHash, m: BookMove)
    requires PaysForNodes(q, r)
    ensures PaysForNodes(q, r.(totalCost := r.totalCost + q.edgeCost(h, m)))
  {
  }

  /** With free edges the total is exactly the sum over the returned nodes. */
  lemma {:induction false} SearchPays(sn: Snapshot, q: Query, prune: Option<real>, rank: map<BookHash, nat>,
                                      h: BookHash)
    requires Ranked(sn, rank) && h in sn
    ensures PaysForNodes(q, Search(sn, q, prune, rank, h))
    decreases RankOf(rank, h), |sn[h].moves| + 1
  {
    hide Ranked, PaysForNodes;
    if Meets(q, Value(sn, h)) {
      NothingPays(q);
    } else if ReExpandable(sn, q, h) {
      ThisNodePays(sn, q, h);
    } else {
      ChildrenPay(sn, q, prune, rank, h, |sn[h].moves|);
    }
  }

  lemma NothingPays(q: Query)
    ensures PaysForNodes(q, NOTHING)
  {
  }

  lemma ChildPays(sn: Snapshot, q: Query, prune: Option<real>, rank: map<BookHash, nat>, h: BookHash, i: nat)
    requires Ranked(sn, rank) && h in sn && i < |sn[h].moves|
    ensures PaysForNodes(q, ChildResult(sn, q, prune, rank, h, i))
    decreases RankOf(rank, h), i, 0
  {
    hide *;
    ChildFacts(sn, q, prune, rank, h, i);
    var move := sn[h].moves[Locs(sn[h].moves)[i]];
    SearchPays(sn, q, prune, rank, move.hash);
    EdgePays(q, Search(sn, q, prune, rank, move.hash), h, move);
  }

  lemma CheaperPays(q: Query, a: MinCostResult, b: MinCostResult)
    requires PaysForNodes(q, a) && PaysForNodes(q, b)
    ensures PaysForNodes(q, Cheaper(a, b))
  {
  }

  lemma {:induction false} ChildrenPay(sn: Snapshot, q: Query, prune: Option<real>, rank: map<BookHash, nat>,
                                       h: BookHash, k: nat)
    requires Ranked(sn, rank) && h in sn && k <= |sn[h].moves|
    ensures PaysForNodes(q, AnyChild(sn, q, prune, rank, h, k))
    ensures PaysForNodes(q, AllChildren(sn, q, prune, rank, h, k))
    decreases RankOf(rank, h), k
  {
    hide *;
    if k == 0 {
      NoSteps(sn, q, prune, rank, h);
      ThisNodePays(sn, q, h);
    } else {
      Steps(sn, q, prune, rank, h, k - 1);
      ChildrenPay(sn, q, prune, rank, h, k - 1);
      ChildPays(sn, q, prune, rank, h, k - 1);
      CheaperPays(q, AnyChild(sn, q, prune, rank, h, k - 1), ChildResult(sn, q, prune, rank, h, k - 1));
      MergePays(q, AllChildren(sn, q, prune, rank, h, k - 1), ChildResult(sn, q, prune, rank, h, k - 1));
    }
  }

  // ---------------------------------------------------------------------------------------------
  // Pruning is transparent

  /** The same result, or both beyond the limit. */
  ghost predicate Agree(p: real, u: MinCostResult, v: MinCostResult) {
    u == v || (u.totalCost > p && v.totalCost > p)
  }

  /** Merging never gets cheaper than either part. */
  lemma MergeGrows(q: Query, a: MinCostResult, b: MinCostResult)
    requires NonNegative(q) && PaysForNodes(q, a) && PaysForNodes(q, b)
    ensures Merge(q, a, b).totalCost >= a.totalCost && Merge(q, a, b).totalCost >= b.totalCost
  {
    SumMonotone(q.costOf, a.nodes * b.nodes, a.nodes);
    SumMonotone(q.costOf, a.nodes * b.nodes, b.nodes);
  }

  lemma EdgeAgrees(q: Query, p: real, u: MinCostResult, v: MinCostResult, h: BookHash, m: BookMove)
    requires NonNegative(q) && Agree(p, u, v)
    ensures Agree(p, u.(totalCost := u.totalCost + q.edgeCost(h, m)), v.(totalCost := v.totalCost + q.edgeCost(h, m)))
  {
  }

  /** Up to the limit the pruned search finds what the full search finds; beyond it both say so. */
  lemma {:induction false} PruningTransparent(sn: Snapshot, q: Query, p: real, rank: map<BookHash, nat>, h: BookHash)
    requires Ranked(sn, rank) && NonNegative(q) && h in sn
    ensures Agree(p, Search(sn, q, None, rank, h), Search(sn, q, Some(p), rank, h))
    decreases RankOf(rank, h), |sn[h].moves| + 1
  {
    hide Ranked;
    if !Meets(q, Value(sn, h)) && !ReExpandable(sn, q, h) {
      PrunedChildren(sn, q, p, rank, h, |sn[h].moves|);
    }
  }

  lemma PrunedChild(sn: Snapshot, q: Query, p: real, rank: map<BookHash, nat>, h: BookHash, i: nat)
    requires Ranked(sn, rank) && NonNegative(q) && h in sn && i < |sn[h].moves|
    ensures Agree(p, ChildResult(sn, q, None, rank, h, i), ChildResult(sn, q, Some(p), rank, h, i))
    decreases RankOf(rank, h), i, 0
  {
    hide *;
    ChildFacts(sn, q, None, rank, h, i);
    ChildFacts(sn, q, Some(p), rank, h, i);
    var move := sn[h].moves[Locs(sn[h].moves)[i]];
    PruningTransparent(sn, q, p, rank, move.hash);
    EdgeAgrees(q, p, Search(sn, q, None, rank, move.hash), Search(sn, q, Some(p), rank, move.hash), h, move);
  }

  lemma CheaperAgrees(p: real, u: MinCostResult, v: MinCostResult, u': MinCostResult, v': MinCostResult)
    requires Agree(p, u, v) && Agree(p, u', v')
    ensures Agree(p, Cheaper(u, u'), Cheaper(v, v'))
  {
  }

  /** One more child joins: pruned or not, the totals stay equal or both stay beyond the limit. */
  lemma MergeAgrees(q: Query, p: real, u: MinCostResult, v: MinCostResult, u': MinCostResult, v': MinCostResult)
    requires Agree(p, u, v) && Agree(p, u', v')
    requires Merge(q, u, u').totalCost >= u.totalCost && Merge(q, u, u').totalCost >= u'.totalCost
    requires Merge(q, v, v').totalCost >= v.totalCost && Merge(q, v, v').totalCost >= v'.totalCost
    ensures Agree(p, Merge(q, u, u'), if Over(Some(p), v.totalCost) then v else Merge(q, v, v'))
  {
    hide Merge;
  }

  lemma {:induction false} PrunedChildren(sn: Snapshot, q: Query, p: real, rank: map<BookHash, nat>, h: BookHash,
                                          k: nat)
    requires Ranked(sn, rank) && NonNegative(q) && h in sn && k <= |sn[h].moves|
    ensures Agree(p, AnyChild(sn, q, None, rank, h, k), AnyChild(sn, q, Some(p), rank, h, k))
    ensures Agree(p, AllChildren(sn, q, None, rank, h, k), AllChildren(sn, q, Some(p), rank, h, k))
    decreases RankOf(rank, h), k
  {
    hide *;
    if k == 0 {
      NoSteps(sn, q, None, rank, h);
      NoSteps(sn, q, Some(p), rank, h);
      Same(p, ThisNode(sn, q, h));
    } else {
      Steps(sn, q, None, rank, h, k - 1);
      Steps(sn, q, Some(p), rank, h, k - 1);
      NeverOver(AllChildren(sn, q, None, rank, h, k - 1).totalCost);
      PrunedChildren(sn, q, p, rank, h, k - 1);
      PrunedChild(sn, q, p, rank, h, k - 1);
      MergesGrow(sn, q, None, rank, h, k - 1);
      MergesGrow(sn, q, Some(p), rank, h, k - 1);
      var u, v := ChildResult(sn, q, None, rank, h, k - 1), ChildResult(sn, q, Some(p), rank, h, k - 1);
      CheaperAgrees(p, AnyChild(sn, q, None, rank, h, k - 1), AnyChild(sn, q, Some(p), rank, h, k - 1), u, v);
      MergeAgrees(q, p, AllChildren(sn, q, None, rank, h, k - 1), AllChildren(sn, q, Some(p), rank, h, k - 1), u, v);
    }
  }

  lemma Same(p: real, u: MinCostResult)
    ensures Agree(p, u, u)
  {
  }

  lemma NeverOver(cost: real)
    ensures !Over(None, cost)
  {
  }

  lemma MergesGrow(sn: Snapshot, q: Query, prune: Option<real>, rank: map<BookHash, nat>, h: BookHash, k: nat)
    requires Ranked(sn, rank) && NonNegative(q) && h in sn && k < |sn[h].moves|
    ensures var a, b := AllChildren(sn, q, prune, rank, h, k), ChildResult(sn, q, prune, rank, h, k);
            Merge(q, a, b).totalCost >= a.totalCost && Merge(q, a, b).totalCost >= b.totalCost
  {
    hide *;
    ChildrenPay(sn, q, prune, rank, h, k);
    ChildPays(sn, q, prune, rank, h, k);
    MergeGrows(q, AllChildren(sn, q, prune, rank, h, k), ChildResult(sn, q, prune, rank, h, k));
  }
}
