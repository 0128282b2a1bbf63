/** The opening book's data: hashes, moves, nodes and the book that owns the nodes. */
module BookData {
  import opened Symmetry

  datatype Player = Black | White

  datatype BookHash = BookHash(historyHash: int, stateHash: int)

  datatype BookMove = BookMove(
    move: Loc,                     // in this node's space
    symmetryToAlign: Sym,          // nodespace -> childspace
    hash: BookHash,                // the child
    rawPolicy: real,
    // Computed by the cost pass
    costFromRoot: real,
    isWLPV: bool,
    biggestWLCostFromRoot: real)

  /** Values of a search that excludes the children of the node; white's perspective. */
  datatype BookValues = BookValues(
    winLossValue: real, scoreMean: real, sharpScoreMeanRaw: real,
    winLossError: real, scoreError: real, scoreStdev: real,
    maxPolicy: real, weight: real, visits: real)

  /** Values computed by minimax over the book. */
  datatype RecursiveBookValues = RecursiveBookValues(
    winLossValue: real, scoreMean: real, sharpScoreMean: real,
    winLossLCB: real, scoreLCB: real, scoreFinalLCB: real,
    winLossUCB: real, scoreUCB: real, scoreFinalUCB: real,
    weight: real, visits: real, adjustedVisits: real)

  /** What the search wrote to a node. */
  datatype NodeInputs = NodeInputs(pla: Player, own: BookValues, canExpand: bool, canReExpand: bool)

  /** What the cost pass writes to a node, besides its moves. */
  datatype CostFields = CostFields(
    minDepthFromRoot: int, minCostFromRoot: real, minCostFromRootWLPV: real, biggestWLCostFromRoot: real,
    bestParentIdx: int, thisNodeExpansionCost: real, expansionIsWLPV: bool)

  /** Everything that is stored at one node and may change. */
  datatype NodeState = NodeState(
    inputs: NodeInputs,
    moves: map<Loc, BookMove>,
    parents: seq<(BookHash, Loc)>,
    values: RecursiveBookValues,
    costs: CostFields,
    flag: int)

  /** The whole book at one moment, by hash. */
  type Snapshot = map<BookHash, NodeState>

  /** A node that has just been created. */
  function FreshState(pla: Player): NodeState {
    NodeState(
      NodeInputs(pla, BookValues(0.0, 0.0, 0.0, 0.0, 0.0, 0.0, 0.0, 0.0, 0.0), true, true),
      map[], [],
      RecursiveBookValues(0.0, 0.0, 0.0, 0.0, 0.0, 0.0, 0.0, 0.0, 0.0, 0.0, 0.0, 0.0),
      CostFields(0, 0.0, 0.0, 0.0, 0, 0.0, false),
      0)
  }

  class BookNode {
    const hash: BookHash
    const pla: Player
    const symmetries: seq<Sym>     // symmetries under which the position is invariant

    var thisValuesNotInBook: BookValues
    var sharpScoreMeanClamped: real  // computed from the values above, never read back
    var canExpand: bool
    var canReExpand: bool

    var moves: map<Loc, BookMove>
    var parents: seq<(BookHash, Loc)>  // locations are in the parent's space
    var bestParentIdx: int
    var recursiveValues: RecursiveBookValues

    var minDepthFromRoot: int
    var minCostFromRoot: real
    var thisNodeExpansionCost: real
    var minCostFromRootWLPV: real
    var expansionIsWLPV: bool
    var biggestWLCostFromRoot: real

    var visitedFlag: int

    function State(): NodeState
      reads this
    {
      NodeState(
        NodeInputs(pla, thisValuesNotInBook, canExpand, canReExpand),
        moves, parents, recursiveValues,
        CostFields(minDepthFromRoot, minCostFromRoot, minCostFromRootWLPV, biggestWLCostFromRoot,
                   bestParentIdx, thisNodeExpansionCost, expansionIsWLPV),
        visitedFlag)
    }

    constructor (hash: BookHash, pla: Player, symmetries: seq<Sym>)
      ensures this.hash == hash && this.pla == pla && this.symmetries == symmetries
      ensures State() == FreshState(pla)
    {
      this.hash, this.pla, this.symmetries := hash, pla, symmetries;
      thisValuesNotInBook := BookValues(0.0, 0.0, 0.0, 0.0, 0.0, 0.0, 0.0, 0.0, 0.0);
      sharpScoreMeanClamped := 0.0;
      canExpand, canReExpand := true, true;
      moves, parents, bestParentIdx := map[], [], 0;
      recursiveValues := RecursiveBookValues(0.0, 0.0, 0.0, 0.0, 0.0, 0.0, 0.0, 0.0, 0.0, 0.0, 0.0, 0.0);
      minDepthFromRoot, minCostFromRoot, thisNodeExpansionCost, minCostFromRootWLPV := 0, 0.0, 0.0, 0.0;
      expansionIsWLPV, biggestWLCostFromRoot, visitedFlag := false, 0.0, 0;
    }
  }

  class Book {
    const xSize: nat
    const ySize: nat
    const initialSymmetry: Sym
    const root: BookNode

    var nodes: seq<BookNode>
    var nodeIdx: map<BookHash, nat>
    var nextVisitedDoneValue: int

    constructor (xSize: nat, ySize: nat, initialSymmetry: Sym, rootHash: BookHash, initialPla: Player,
                 rootSymmetries: seq<Sym>)
      ensures Valid() && nodes == [root] && nodeIdx == map[rootHash := 0] && nextVisitedDoneValue == 1
      ensures this.xSize == xSize && this.ySize == ySize && this.initialSymmetry == initialSymmetry
      ensures fresh(root) && root.hash == rootHash && root.pla == initialPla && root.symmetries == rootSymmetries
      ensures root.State() == FreshState(initialPla)
    {
      this.xSize, this.ySize, this.initialSymmetry := xSize, ySize, initialSymmetry;
      var node := new BookNode(rootHash, initialPla, rootSymmetries);
      root := node;
      nodes := [node];
      nodeIdx := map[rootHash := 0];
      nextVisitedDoneValue := 1;
    }

    /** The hash index agrees with the node list, and the root comes first. */
    ghost predicate Indexed()
      reads `nodes, `nodeIdx
    {
      && nodes != [] && nodes[0] == root
      && (forall h :: h in nodeIdx ==> nodeIdx[h] < |nodes| && nodes[nodeIdx[h]].hash == h)
      && (forall i :: 0 <= i < |nodes| ==> nodes[i].hash in nodeIdx && nodeIdx[nodes[i].hash] == i)
    }

    function Get(h: BookHash): BookNode
      requires Indexed() && h in nodeIdx
      reads `nodes, `nodeIdx
    {
      nodes[nodeIdx[h]]
    }

    ghost function Snapshot(): (sn: Snapshot)
      requires Indexed()
      reads `nodes, `nodeIdx, nodes
      ensures sn.Keys == nodeIdx.Keys
    {
      map h | h in nodeIdx :: Get(h).State()
    }

    lemma Has(node: BookNode)
      requires Indexed() && node in nodes
      ensures node.hash in nodeIdx && Get(node.hash) == node && Snapshot()[node.hash] == node.State()
    {
    }

    lemma RootIn()
      requires Indexed()
      ensures root in nodes && root.hash in nodeIdx && root.hash in Snapshot()
    {
      assert nodes[0] in nodes;
    }

    lemma At(h: BookHash)
      requires Indexed() && h in nodeIdx
      ensures Get(h) in nodes && Get(h).hash == h && Snapshot()[h] == Get(h).State()
    {
    }

    /** Only the node with hash k has changed. */
    twostate lemma ChangedAt(k: BookHash)
      requires old(Indexed()) && Indexed() && old(nodeIdx) == nodeIdx && old(nodes) == nodes && k in nodeIdx
      requires forall n :: n in nodes && n.hash != k ==> n.State() == old(n.State())
      ensures Snapshot() == old(Snapshot())[k := Get(k).State()]
    {
      hide Snapshot;
      forall h | h in nodeIdx ensures h == k || Snapshot()[h] == old(Snapshot()[h]) {
        At(h);
        OldAt(h);
      }
      At(k);
    }

    twostate lemma OldAt(h: BookHash)
      requires old(Indexed()) && old(h in nodeIdx)
      ensures old(Get(h)) in old(nodes) && old(Get(h)).hash == h && old(Snapshot()[h]) == old(Get(h).State())
    {
    }

    /** Enter a node under its hash, unless the hash is taken. */
    method Add(node: BookNode) returns (suc: bool)
      requires Indexed()
      modifies `nodes, `nodeIdx
      ensures Indexed() && (suc <==> node.hash !in old(nodeIdx))
      ensures !suc ==> nodes == old(nodes) && nodeIdx == old(nodeIdx)
      ensures suc ==> nodes == old(nodes) + [node] && nodeIdx == old(nodeIdx)[node.hash := |old(nodes)|]
    {
      if node.hash in nodeIdx {
        return false;
      }
      nodeIdx := nodeIdx[node.hash := |nodes|];
      nodes := nodes + [node];
      return true;
    }

    twostate lemma AddedAt(new node: BookNode)
      requires old(Indexed()) && Indexed() && node.hash !in old(nodeIdx)
      requires nodes == old(nodes) + [node] && nodeIdx == old(nodeIdx)[node.hash := |old(nodes)|]
      requires forall n :: n in old(nodes) ==> n.State() == old(n.State())
      ensures Snapshot() == old(Snapshot())[node.hash := node.State()]
    {
      hide Snapshot;
      At(node.hash);
      forall h | h in old(nodeIdx) ensures Snapshot()[h] == old(Snapshot()[h]) {
        At(h);
        OldAt(h);
      }
    }

    ghost predicate Valid()
      reads `nodes, `nodeIdx, nodes
    {
      Indexed() && Linked(Snapshot(), root.hash) && BestParentsOk(Snapshot())
    }
  }

  ghost function HashesOf(stack: seq<BookNode>): (hashes: seq<BookHash>)
    ensures |hashes| == |stack|
  {
    seq(|stack|, i requires 0 <= i < |stack| => stack[i].hash)
  }

  lemma HashesGrow(stack: seq<BookNode>, node: BookNode)
    ensures HashesOf(stack + [node]) == HashesOf(stack) + [node.hash]
  {
  }

  lemma TopHash(stack: seq<BookNode>)
    requires stack != []
    ensures HashesOf(stack)[|stack| - 1] == stack[|stack| - 1].hash
  {
  }

  // ---------------------------------------------------------------------------------------------
  // Views of a snapshot

  ghost function ValuesOf(sn: Snapshot): (m: map<BookHash, RecursiveBookValues>)
    ensures m.Keys == sn.Keys
  {
    map h | h in sn :: sn[h].values
  }

  ghost function Flagged(sn: Snapshot, doneValue: int): set<BookHash> {
    set h | h in sn && sn[h].flag == doneValue
  }

  /** No node carries v or anything later. */
  ghost predicate FlagsBelow(sn: Snapshot, v: int) {
    forall h :: h in sn ==> sn[h].flag < v
  }

  lemma NoneFlagged(sn: Snapshot, v: int)
    requires FlagsBelow(sn, v)
    ensures Flagged(sn, v) == {} && FlagsBelow(sn, v + 1)
  {
  }

  /**
   Every move leads to a node of the book, which lists it as a parent; and conversely. The root keeps
   the best-parent index it was made with.
   */
  ghost predicate Linked(sn: Snapshot, root: BookHash) {
    && root in sn && sn[root].costs.bestParentIdx == 0
    && (forall h, loc :: h in sn && loc in sn[h].moves ==>
          && sn[h].moves[loc].hash in sn
          && sn[h].moves[loc].move == loc
          && loc != NULL_LOC
          && (h, loc) in sn[sn[h].moves[loc].hash].parents)
    && (forall h, e :: h in sn && e in sn[h].parents ==>
          e.0 in sn && e.1 in sn[e.0].moves && sn[e.0].moves[e.1].hash == h)
  }

  /** The best parent is one of the parents; index 0 stands for none known yet. */
  ghost predicate BestParentsOk(sn: Snapshot) {
    forall h :: h in sn ==> BestParentInRange(sn[h])
  }

  predicate BestParentInRange(node: NodeState) {
    0 <= node.costs.bestParentIdx && (node.costs.bestParentIdx == 0 || node.costs.bestParentIdx < |node.parents|)
  }

  /** depth witnesses that every node but the root has a parent nearer to the root. */
  ghost predicate RootedBy(sn: Snapshot, root: BookHash, depth: map<BookHash, nat>) {
    forall h :: h in sn && h != root ==>
      h in depth && exists e :: e in sn[h].parents && e.0 in depth && depth[e.0] < depth[h]
  }

  /** rank witnesses that the book has no cycle. */
  ghost predicate AcyclicBy(sn: Snapshot, rank: map<BookHash, nat>) {
    forall h, loc :: h in sn && loc in sn[h].moves ==>
      h in rank && sn[h].moves[loc].hash in rank && rank[sn[h].moves[loc].hash] < rank[h]
  }
}
