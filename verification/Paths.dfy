/**
 Finding a way from the root to a node: reverseDepthFirstSearchWithMoves stopping at the root, and
 replaying the moves found in the orientation of a view.
 */
module Paths {
  import opened Util
  import opened BookData
  import opened Settled
  import opened MarkDirty
  import opened Symmetry
  import opened Views
  import opened BookViews

  /** The search's variables; the node searched from is at the bottom. */
  datatype Up = Up(hashes: seq<BookHash>, moves: seq<Loc>, idxs: seq<int>, visited: set<BookHash>)

  /** Each node's entry names the node above it and the move that leads back down. */
  ghost predicate UpPath(sn: Snapshot, hashes: seq<BookHash>, moves: seq<Loc>) {
    && |moves| == |hashes|
    && (forall i :: 0 <= i < |hashes| ==> hashes[i] in sn)
    && forall i, j :: 0 <= i && j == i + 1 && j < |hashes| ==> hashes[i] in sn && (hashes[j], moves[j]) in sn[hashes[i]].parents
  }

  /** The parents tried at one level have been visited; -1 means none has been tried. */
  ghost predicate TriedAt(sn: Snapshot, h: BookHash, idx: int, visited: set<BookHash>) {
    h in sn && idx >= -1 && forall k :: 0 <= k < idx && k < |sn[h].parents| ==> sn[h].parents[k].0 in visited
  }

  ghost predicate AllTried(sn: Snapshot, h: BookHash, visited: set<BookHash>) {
    h in sn && forall k :: 0 <= k < |sn[h].parents| ==> sn[h].parents[k].0 in visited
  }

  ghost predicate UpOk(sn: Snapshot, root: BookHash, start: BookHash, u: Up) {
    && UpPath(sn, u.hashes, u.moves) && |u.idxs| == |u.hashes|
    && (u.hashes != [] ==> u.hashes[0] == start)
    && start in u.visited && u.visited <= sn.Keys
    && (forall i :: 0 <= i < |u.hashes| ==> u.hashes[i] in u.visited && TriedAt(sn, u.hashes[i], u.idxs[i], u.visited))
    && (root in u.visited ==> u.hashes != [] && u.hashes[|u.hashes| - 1] == root)
    && (forall h :: h in u.visited && h !in u.hashes ==> AllTried(sn, h, u.visited))
  }

  /** The stack follows best parents only, and nothing else has been visited. */
  ghost predicate BestOnly(sn: Snapshot, u: Up) {
    && |u.idxs| == |u.hashes| == |u.moves| && u.hashes != [] && u.idxs[|u.idxs| - 1] == -1
    && (forall h :: h in u.visited ==> h in u.hashes)
    && (forall i, j :: 0 <= i && j == i + 1 && j < |u.hashes| ==> IsBestParent(sn, u.hashes[i], u.hashes[j], u.moves[j]))
  }

  ghost predicate IsBestParent(sn: Snapshot, h: BookHash, p: BookHash, loc: Loc) {
    && h in sn && 0 <= sn[h].costs.bestParentIdx < |sn[h].parents|
    && sn[h].parents[sn[h].costs.bestParentIdx] == (p, loc)
  }

  lemma AllTriedClosed(sn: Snapshot, root: BookHash, start: BookHash, u: Up)
    requires UpOk(sn, root, start, u) && u.hashes == []
    ensures AncestorClosed(ParentMapOf(sn), u.visited)
  {
    forall h, p | h in u.visited && h in ParentMapOf(sn) && p in ParentMapOf(sn)[h] ensures p in u.visited {
      assert AllTried(sn, h, u.visited);
      var k :| 0 <= k < |ParentMapOf(sn)[h]| && ParentMapOf(sn)[h][k] == p;
      assert sn[h].parents[k].0 == p;
    }
  }

  /** The search cannot come back empty-handed. */
  lemma NeverExhausted(sn: Snapshot, root: BookHash, start: BookHash, depth: map<BookHash, nat>, u: Up)
    requires UpOk(sn, root, start, u) && Linked(sn, root) && RootedBy(sn, root, depth)
    ensures u.hashes != []
  {
    if u.hashes == [] {
      AllTriedClosed(sn, root, start, u);
      RootIsDirty(sn, root, u.visited, depth, start);
      assert false;
    }
  }

  // --- the three kinds of turn ---

  function Bumped(u: Up): Up
    requires u.idxs != []
  {
    u.(idxs := u.idxs[|u.idxs| - 1 := u.idxs[|u.idxs| - 1] + 1])
  }

  function PushUp(u: Up, p: BookHash, loc: Loc, first: int): Up {
    Up(u.hashes + [p], u.moves + [loc], u.idxs + [first], u.visited + {p})
  }

  function PopUp(u: Up): Up
    requires u.hashes != [] && |u.moves| == |u.hashes| == |u.idxs|
  {
    u.(hashes := u.hashes[..|u.hashes| - 1], moves := u.moves[..|u.hashes| - 1], idxs := u.idxs[..|u.hashes| - 1])
  }

  /** The parent to try next: the best one first, then all of them in order. */
  function NextParentIdx(idx: int, bestParentIdx: int): int { if idx == -1 then bestParentIdx else idx }

  lemma SkipOk(sn: Snapshot, root: BookHash, start: BookHash, u: Up)
    requires UpOk(sn, root, start, u) && u.hashes != []
    requires var h := u.hashes[|u.hashes| - 1]; var k := NextParentIdx(u.idxs[|u.hashes| - 1], sn[h].costs.bestParentIdx);
             0 <= k < |sn[h].parents| && sn[h].parents[k].0 in u.visited
    ensures UpOk(sn, root, start, Bumped(u))
  {
    var u' := Bumped(u);
    forall i | 0 <= i < |u'.hashes| ensures TriedAt(sn, u'.hashes[i], u'.idxs[i], u'.visited) {
      assert TriedAt(sn, u.hashes[i], u.idxs[i], u.visited);
    }
  }

  lemma MoreVisited(sn: Snapshot, h: BookHash, idx: int, visited: set<BookHash>, visited': set<BookHash>)
    requires visited <= visited'
    ensures TriedAt(sn, h, idx, visited) ==> TriedAt(sn, h, idx, visited')
    ensures AllTried(sn, h, visited) ==> AllTried(sn, h, visited')
  {
  }

  lemma PushOk(sn: Snapshot, root: BookHash, start: BookHash, u: Up, k: int, first: int)
    requires UpOk(sn, root, start, u) && u.hashes != [] && u.hashes[|u.hashes| - 1] != root
    requires (first == -1 || first == 0)
    requires k == NextParentIdx(u.idxs[|u.hashes| - 1], sn[u.hashes[|u.hashes| - 1]].costs.bestParentIdx)
    requires var ps := sn[u.hashes[|u.hashes| - 1]].parents;
             0 <= k < |ps| && ps[k].0 !in u.visited && ps[k].0 in sn
    ensures var e := sn[u.hashes[|u.hashes| - 1]].parents[k];
            UpOk(sn, root, start, PushUp(Bumped(u), e.0, e.1, first))
  {
    var top := |u.hashes| - 1;
    var e := sn[u.hashes[top]].parents[k];
    var u' := PushUp(Bumped(u), e.0, e.1, first);
    forall i | 0 <= i < |u'.hashes| ensures TriedAt(sn, u'.hashes[i], u'.idxs[i], u'.visited) {
      if i < |u.hashes| {
        assert TriedAt(sn, u.hashes[i], u.idxs[i], u.visited);
        MoreVisited(sn, u.hashes[i], u.idxs[i], u.visited, u'.visited);
      }
    }
    forall h | h in u'.visited && h !in u'.hashes ensures AllTried(sn, h, u'.visited) {
      assert u'.hashes[top + 1] == e.0;
      assert h in u.visited;
      forall i | 0 <= i < |u.hashes| ensures u.hashes[i] != h {
        assert u'.hashes[i] == u.hashes[i];
      }
      MoreVisited(sn, h, 0, u.visited, u'.visited);
    }
    forall i, j | 0 <= i && j == i + 1 && j < |u'.hashes| ensures (u'.hashes[j], u'.moves[j]) in sn[u'.hashes[i]].parents {
      if j < |u.hashes| {
        assert (u.hashes[j], u.moves[j]) in sn[u.hashes[i]].parents;
      }
    }
  }

  lemma PopOk(sn: Snapshot, root: BookHash, start: BookHash, u: Up)
    requires UpOk(sn, root, start, u) && BestParentsOk(sn) && u.hashes != [] && u.hashes[|u.hashes| - 1] != root
    requires var h := u.hashes[|u.hashes| - 1]; var k := NextParentIdx(u.idxs[|u.hashes| - 1], sn[h].costs.bestParentIdx);
             !(0 <= k < |sn[h].parents|)
    ensures UpOk(sn, root, start, PopUp(u))
  {
    var top := |u.hashes| - 1;
    var u' := PopUp(u);
    assert TriedAt(sn, u.hashes[top], u.idxs[top], u.visited);
    assert AllTried(sn, u.hashes[top], u.visited);
    forall i | 0 <= i < |u'.hashes| ensures TriedAt(sn, u'.hashes[i], u'.idxs[i], u'.visited) {
      assert TriedAt(sn, u.hashes[i], u.idxs[i], u.visited);
    }
    forall h | h in u'.visited && h !in u'.hashes ensures AllTried(sn, h, u'.visited) {
      assert u.hashes == u'.hashes + [u.hashes[top]];
    }
    forall i, j | 0 <= i && j == i + 1 && j < |u'.hashes| ensures (u'.hashes[j], u'.moves[j]) in sn[u'.hashes[i]].parents {
      assert (u.hashes[j], u.moves[j]) in sn[u.hashes[i]].parents;
    }
  }

  // --- on an acyclic book ---

  lemma {:induction false} RankRises(sn: Snapshot, root: BookHash, rank: map<BookHash, nat>, u: Up, i: nat, j: nat)
    requires Linked(sn, root) && AcyclicBy(sn, rank) && UpPath(sn, u.hashes, u.moves) && i <= j < |u.hashes|
    ensures RankAt(rank, u.hashes[i]) <= RankAt(rank, u.hashes[j])
    ensures i < j ==> u.hashes[j] in rank
    decreases j - i
  {
    if i < j {
      RankRises(sn, root, rank, u, i, j - 1);
      ParentEdge(sn, root, u.hashes[j - 1], (u.hashes[j], u.moves[j]));
    }
  }

  ghost function RankAt(rank: map<BookHash, nat>, h: BookHash): nat { if h in rank then rank[h] else 0 }

  lemma BestIsParent(sn: Snapshot, root: BookHash, depth: map<BookHash, nat>, h: BookHash)
    requires RootedBy(sn, root, depth) && BestParentsOk(sn) && h in sn && h != root
    ensures 0 <= sn[h].costs.bestParentIdx < |sn[h].parents|
  {
    assert sn[h].parents != [];
  }

  /** On an acyclic book the best parent of the top has not been visited. */
  lemma BestIsNew(sn: Snapshot, root: BookHash, rank: map<BookHash, nat>, u: Up, e: (BookHash, Loc))
    requires Linked(sn, root) && AcyclicBy(sn, rank) && UpPath(sn, u.hashes, u.moves) && BestOnly(sn, u)
    requires e in sn[u.hashes[|u.hashes| - 1]].parents
    ensures e.0 !in u.visited && e.0 in sn
  {
    var top := |u.hashes| - 1;
    ParentEdge(sn, root, u.hashes[top], e);
    assert RankAt(rank, u.hashes[top]) < RankAt(rank, e.0);
    forall i | 0 <= i < |u.hashes| ensures u.hashes[i] != e.0 {
      RankRises(sn, root, rank, u, i, top);
    }
  }

  lemma BestOnlyPush(sn: Snapshot, u: Up, e: (BookHash, Loc))
    requires BestOnly(sn, u) && IsBestParent(sn, u.hashes[|u.hashes| - 1], e.0, e.1)
    ensures BestOnly(sn, PushUp(Bumped(u), e.0, e.1, -1))
  {
    hide IsBestParent;
    var top := |u.hashes| - 1;
    var u' := PushUp(Bumped(u), e.0, e.1, -1);
    assert u'.hashes[top + 1] == e.0;
    forall i, j | 0 <= i && j == i + 1 && j < |u'.hashes| ensures IsBestParent(sn, u'.hashes[i], u'.hashes[j], u'.moves[j]) {
      if j < |u.hashes| {
        assert IsBestParent(sn, u.hashes[i], u.hashes[j], u.moves[j]);
      }
    }
  }

  /** So the search goes straight up the best parents. */
  lemma BestGoesUp(sn: Snapshot, root: BookHash, start: BookHash, depth: map<BookHash, nat>, rank: map<BookHash, nat>,
                   u: Up)
    requires Linked(sn, root) && RootedBy(sn, root, depth) && AcyclicBy(sn, rank) && BestParentsOk(sn)
    requires UpOk(sn, root, start, u) && BestOnly(sn, u) && u.hashes[|u.hashes| - 1] != root
    ensures var h := u.hashes[|u.hashes| - 1]; var k := sn[h].costs.bestParentIdx;
            && 0 <= k < |sn[h].parents| && sn[h].parents[k].0 !in u.visited
            && BestOnly(sn, PushUp(Bumped(u), sn[h].parents[k].0, sn[h].parents[k].1, -1))
  {
    hide Linked, RootedBy, AcyclicBy, BestParentsOk, TriedAt, AllTried, BestOnly;
    assert |u.hashes| > 0 by { BestOnlyTop(sn, u); }
    var h := u.hashes[|u.hashes| - 1];
    BestIsParent(sn, root, depth, h);
    var e := sn[h].parents[sn[h].costs.bestParentIdx];
    BestIsNew(sn, root, rank, u, e);
    BestOnlyPush(sn, u, e);
  }

  lemma BestOnlyTop(sn: Snapshot, u: Up)
    requires BestOnly(sn, u)
    ensures u.hashes != [] && |u.idxs| == |u.hashes| && u.idxs[|u.hashes| - 1] == -1
  {
  }

  ghost function Left(sn: Snapshot, u: Up): nat {
    var top := |u.hashes| - 1;
    if u.hashes == [] || |u.idxs| != |u.hashes| || u.hashes[top] !in sn || u.idxs[top] > |sn[u.hashes[top]].parents| then 0
    else if u.idxs[top] < -1 then 0
    else |sn[u.hashes[top]].parents| + 1 - u.idxs[top]
  }

  lemma StartOk(sn: Snapshot, root: BookHash, start: BookHash, first: int)
    requires start in sn && (first == -1 || first == 0)
    ensures UpOk(sn, root, start, Up([start], [NULL_LOC], [first], {start}))
    ensures first == -1 ==> BestOnly(sn, Up([start], [NULL_LOC], [first], {start}))
  {
  }

  // ---------------------------------------------------------------------------------------------
  // The search on the book

  /** The book and the search from start. */
  ghost predicate UpInv(b: Book, start: BookHash, depth: map<BookHash, nat>, stack: seq<BookNode>, u: Up)
    reads b, b.nodes
  {
    && b.Valid() && RootedBy(b.Snapshot(), b.root.hash, depth)
    && (forall n :: n in stack ==> n in b.nodes) && u.hashes == HashesOf(stack)
    && UpOk(b.Snapshot(), b.root.hash, start, u)
  }

  predicate ParentsIn(b: Book, node: BookNode)
    reads b`nodeIdx, node
  {
    var parents := node.parents;
    forall k :: 0 <= k < |parents| ==> parents[k].0 in b.nodeIdx
  }

  lemma UpFacts(b: Book, start: BookHash, depth: map<BookHash, nat>, stack: seq<BookNode>, u: Up)
    requires UpInv(b, start, depth, stack, u)
    ensures stack != [] && stack[|stack| - 1] in b.nodes && b.Indexed()
    ensures |u.hashes| == |u.moves| == |u.idxs| == |stack|
    ensures u.hashes[|stack| - 1] == stack[|stack| - 1].hash && stack[|stack| - 1].hash in b.Snapshot()
    ensures b.Snapshot()[stack[|stack| - 1].hash] == stack[|stack| - 1].State()
    ensures stack[|stack| - 1] == b.root <==> u.hashes[|stack| - 1] == b.root.hash
    ensures u.idxs[|stack| - 1] >= -1
    ensures ParentsIn(b, stack[|stack| - 1])
  {
    hide Linked, RootedBy, BestParentsOk, Book.Snapshot;
    NeverExhausted(b.Snapshot(), b.root.hash, start, depth, u);
    TopHash(stack);
    b.Has(stack[|stack| - 1]);
    b.RootIn();
    b.Has(b.root);
    var parents := stack[|stack| - 1].parents;
    forall k | 0 <= k < |parents| ensures parents[k].0 in b.nodeIdx {
      ParentEdge(b.Snapshot(), b.root.hash, stack[|stack| - 1].hash, parents[k]);
    }
  }

  /** One turn: try the next parent of the top, or go back down. */
  method UpTurn(b: Book, ghost start: BookHash, ghost depth: map<BookHash, nat>, preferLowCostParents: bool,
                stack: seq<BookNode>, u: Up, ghost rank: map<BookHash, nat>) returns (stack': seq<BookNode>, u': Up)
    requires UpInv(b, start, depth, stack, u) && stack != [] && stack[|stack| - 1] != b.root
    ensures UpInv(b, start, depth, stack', u')
    ensures b.Indexed()
    ensures preferLowCostParents && AcyclicBy(b.Snapshot(), rank) && BestOnly(b.Snapshot(), u) ==> BestOnly(b.Snapshot(), u')
    ensures (b.nodeIdx.Keys - u.visited, |u.hashes|, Left(b.Snapshot(), u)
             decreases to
             b.nodeIdx.Keys - u'.visited, |u'.hashes|, Left(b.Snapshot(), u'))
  {
    hide Linked, RootedBy, BestParentsOk, Book.Snapshot, UpOk, BestOnly, AcyclicBy, HashesOf;
    UpFacts(b, start, depth, stack, u);
    ghost var sn := b.Snapshot();
    var top := |stack| - 1;
    var node := stack[top];
    var nextParentIdx := NextParentIdx(u.idxs[top], node.bestParentIdx);
    if preferLowCostParents && AcyclicBy(sn, rank) && BestOnly(sn, u) {
      BestOnlyTop(sn, u);
      BestGoesUp(sn, b.root.hash, start, depth, rank, u);
    }
    if 0 <= nextParentIdx < |node.parents| {
      var nextParent := node.parents[nextParentIdx];
      if nextParent.0 !in u.visited {
        b.At(nextParent.0);
        PushOk(sn, b.root.hash, start, u, nextParentIdx, if preferLowCostParents then -1 else 0);
        HashesGrow(stack, b.Get(nextParent.0));
        stack' := stack + [b.Get(nextParent.0)];
        u' := PushUp(Bumped(u), nextParent.0, nextParent.1, if preferLowCostParents then -1 else 0);
      } else {
        SkipOk(sn, b.root.hash, start, u);
        stack', u' := stack, Bumped(u);
      }
    } else {
      PopOk(sn, b.root.hash, start, u);
      PopHashes(stack);
      stack', u' := stack[..top], PopUp(u);
    }
  }

  lemma PopHashes(stack: seq<BookNode>)
    requires stack != []
    ensures HashesOf(stack[..|stack| - 1]) == HashesOf(stack)[..|stack| - 1]
  {
  }

  /** From start up to the root; on an acyclic book by best parents only. */
  method ReverseSearchToRoot(b: Book, start: BookNode, preferLowCostParents: bool,
                             ghost depth: map<BookHash, nat>, ghost rank: map<BookHash, nat>)
    returns (stack: seq<BookNode>, moveStack: seq<Loc>)
    requires b.Valid() && RootedBy(b.Snapshot(), b.root.hash, depth) && start in b.nodes
    ensures stack != [] && stack[0] == start && stack[|stack| - 1] == b.root && |moveStack| == |stack|
    ensures (forall n :: n in stack ==> n in b.nodes) && UpPath(b.Snapshot(), HashesOf(stack), moveStack)
    ensures preferLowCostParents && AcyclicBy(b.Snapshot(), rank) ==>
              forall i, j :: 0 <= i && j == i + 1 && j < |stack| ==>
                IsBestParent(b.Snapshot(), stack[i].hash, stack[j].hash, moveStack[j])
  {
    hide Linked, RootedBy, BestParentsOk, Book.Snapshot, UpOk, BestOnly, AcyclicBy, UpInv;
    var first := if preferLowCostParents then -1 else 0;
    stack := [start];
    var u := Up([start.hash], [NULL_LOC], [first], {start.hash});
    StartInv(b, start, depth, first);
    while stack[|stack| - 1] != b.root
      invariant UpInv(b, start.hash, depth, stack, u) && stack != []
      invariant preferLowCostParents && AcyclicBy(b.Snapshot(), rank) ==> BestOnly(b.Snapshot(), u)
      decreases b.nodeIdx.Keys - u.visited, |u.hashes|, Left(b.Snapshot(), u)
    {
      stack, u := UpTurn(b, start.hash, depth, preferLowCostParents, stack, u, rank);
      UpFacts(b, start.hash, depth, stack, u);
    }
    moveStack := u.moves;
    Found(b, start, depth, stack, u);
  }

  lemma StartInv(b: Book, start: BookNode, depth: map<BookHash, nat>, first: int)
    requires b.Valid() && RootedBy(b.Snapshot(), b.root.hash, depth) && start in b.nodes
    requires first == -1 || first == 0
    ensures UpInv(b, start.hash, depth, [start], Up([start.hash], [NULL_LOC], [first], {start.hash}))
    ensures first == -1 ==> BestOnly(b.Snapshot(), Up([start.hash], [NULL_LOC], [first], {start.hash}))
  {
    hide Linked, RootedBy, BestParentsOk, Book.Snapshot, UpOk, BestOnly;
    b.Has(start);
    StartOk(b.Snapshot(), b.root.hash, start.hash, first);
    assert HashesOf([start]) == [start.hash];
  }

  lemma Found(b: Book, start: BookNode, depth: map<BookHash, nat>, stack: seq<BookNode>, u: Up)
    requires UpInv(b, start.hash, depth, stack, u) && stack != [] && start in b.nodes && b.Indexed()
    ensures stack[0] == start && |u.moves| == |stack| && UpPath(b.Snapshot(), HashesOf(stack), u.moves)
    ensures forall n :: n in stack ==> n in b.nodes
    ensures BestOnly(b.Snapshot(), u) ==>
              forall i, j :: 0 <= i && j == i + 1 && j < |stack| ==>
                IsBestParent(b.Snapshot(), stack[i].hash, stack[j].hash, u.moves[j])
  {
    hide Linked, RootedBy, BestParentsOk, Book.Snapshot, TriedAt, AllTried, IsBestParent;
    assert HashesOf(stack)[0] == stack[0].hash;
    b.Has(stack[0]);
    b.Has(start);
    if BestOnly(b.Snapshot(), u) {
      forall i, j | 0 <= i && j == i + 1 && j < |stack|
        ensures IsBestParent(b.Snapshot(), stack[i].hash, stack[j].hash, u.moves[j])
      {
        assert u.hashes[i] == stack[i].hash && u.hashes[j] == stack[j].hash;
      }
    }
  }

  // ---------------------------------------------------------------------------------------------
  // Replaying the moves in the orientation of the view

  /** Each node's move leads to the next node; the last entry of moves is not used. */
  ghost predicate DownPath(b: Book, path: seq<BookNode>, moves: seq<Loc>)
    requires b.Indexed()
    reads b`nodes, b`nodeIdx, b.nodes
  {
    && path != [] && |moves| == |path| && (forall n :: n in path ==> n in b.nodes)
    && forall i, j :: 0 <= i && j == i + 1 && j < |path| ==> StepDown(b, path[i], moves[i], path[j])
  }

  ghost predicate StepDown(b: Book, node: BookNode, loc: Loc, next: BookNode)
    requires b.Indexed()
    reads b`nodes, b`nodeIdx, b.nodes
  {
    && node in b.nodes && next in b.nodes && loc in node.moves
    && node.moves[loc].hash == next.hash && next.hash in b.nodeIdx && b.Get(next.hash) == next
  }

  /** The stack from top to bottom is a way down. */
  lemma ReversedIsDownPath(b: Book, stack: seq<BookNode>, moveStack: seq<Loc>)
    requires b.Valid() && stack != [] && |moveStack| == |stack| && (forall n :: n in stack ==> n in b.nodes)
    requires UpPath(b.Snapshot(), HashesOf(stack), moveStack)
    ensures DownPath(b, Reverse(stack), Reverse(moveStack))
  {
    hide Book.Snapshot, Linked, StepDown;
    var path, moves, hashes := Reverse(stack), Reverse(moveStack), HashesOf(stack);
    forall n | n in path ensures n in b.nodes {
      var i :| 0 <= i < |path| && path[i] == n;
      assert stack[|stack| - 1 - i] in stack;
    }
    forall i, j | 0 <= i && j == i + 1 && j < |path| ensures StepDown(b, path[i], moves[i], path[j]) {
      var up, down := |stack| - 1 - i, |stack| - 1 - j;
      assert stack[up] in stack && stack[down] in stack;
      assert (hashes[up], moveStack[up]) in b.Snapshot()[hashes[down]].parents;
      EntryStepsDown(b, stack[up], moveStack[up], stack[down]);
    }
  }

  lemma EntryStepsDown(b: Book, node: BookNode, loc: Loc, next: BookNode)
    requires b.Valid() && node in b.nodes && next in b.nodes && next.hash in b.Snapshot()
    requires (node.hash, loc) in b.Snapshot()[next.hash].parents
    ensures StepDown(b, node, loc, next)
  {
    hide Book.Snapshot;
    ParentEdge(b.Snapshot(), b.root.hash, next.hash, (node.hash, loc));
    b.Has(node);
    b.Has(next);
  }

  /** From the i-th node's space to the space of the view: the later alignments, then the view's symmetry. */
  ghost function FrameFrom(aligns: seq<Sym>, sym: Sym, i: nat): Sym
    requires i <= |aligns|
    decreases |aligns| - i
  {
    if i == |aligns| then sym else Compose(aligns[i], FrameFrom(aligns, sym, i + 1))
  }

  ghost function Product(aligns: seq<Sym>, k: nat): Sym
    requires k <= |aligns|
  {
    if k == 0 then IDENTITY else Compose(Product(aligns, k - 1), aligns[k - 1])
  }

  lemma {:induction false} ProductThenFrame(aligns: seq<Sym>, sym: Sym, k: nat)
    requires k <= |aligns|
    ensures Compose(Product(aligns, k), FrameFrom(aligns, sym, k)) == FrameFrom(aligns, sym, 0)
  {
    hide Compose, Invert;
    if k == 0 {
      GroupLaws(FrameFrom(aligns, sym, 0), IDENTITY, IDENTITY);
    } else {
      ProductThenFrame(aligns, sym, k - 1);
      GroupLaws(Product(aligns, k - 1), aligns[k - 1], FrameFrom(aligns, sym, k));
    }
  }

  /** Follow one move after another. */
  function FollowAll(b: Book, v: View, moves: seq<Loc>): Option<View>
    requires b.Indexed() && v.node in b.nodes
    reads b`nodes, b`nodeIdx, b.nodes
    decreases moves
  {
    if moves == [] then Some(v)
    else
      match FollowView(b, v, moves[0])
      case Some(next) => if next.node in b.nodes then FollowAll(b, next, moves[1..]) else None
      case None => None
  }

  lemma FrameInGroup(b: Book, aligns: seq<Sym>, sym: Sym, i: nat)
    requires i <= |aligns| && InGroup(sym, b.xSize, b.ySize) && forall k :: 0 <= k < |aligns| ==>
      InGroup(aligns[k], b.xSize, b.ySize)
    ensures InGroup(FrameFrom(aligns, sym, i), b.xSize, b.ySize)
    decreases |aligns| - i
  {
    if i < |aligns| {
      FrameInGroup(b, aligns, sym, i + 1);
      GroupClosed(aligns[i], FrameFrom(aligns, sym, i + 1), b.xSize, b.ySize);
    }
  }

  /** One replayed move leads from the view of one node to the view of the next. */
  lemma ReplayedStep(b: Book, node: BookNode, loc: Loc, next: BookNode, rest: Sym)
    requires b.Indexed() && FramesOk(b) && StepDown(b, node, loc, next) && InGroup(rest, b.xSize, b.ySize)
    ensures var sym := Compose(node.moves[loc].symmetryToAlign, rest);
            FollowView(b, View(node, sym), SymLoc(loc, b.xSize, b.ySize, sym)) == Some(View(next, rest))
  {
    CanonicalParentLeadsBack(FrameOf(b, node), loc, rest);
  }

  ghost predicate AlignsAre(b: Book, path: seq<BookNode>, moves: seq<Loc>, aligns: seq<Sym>)
    requires |moves| == |path|
    reads path
  {
    && |aligns| == |path| - 1
    && forall k :: 0 <= k < |aligns| ==> moves[k] in path[k].moves && aligns[k] == path[k].moves[moves[k]].symmetryToAlign
                                         && InGroup(aligns[k], b.xSize, b.ySize)
  }

  ghost predicate Played(b: Book, moves: seq<Loc>, aligns: seq<Sym>, sym: Sym, played: seq<Loc>) {
    && |played| == |aligns| < |moves|
    && forall i :: 0 <= i < |played| ==> played[i] == SymLoc(moves[i], b.xSize, b.ySize, FrameFrom(aligns, sym, i))
  }

  /** Following the replayed moves from the root's view arrives at exactly the view asked for. */
  lemma {:induction false} ReplayFollows(b: Book, path: seq<BookNode>, moves: seq<Loc>, aligns: seq<Sym>, sym: Sym,
                                         played: seq<Loc>, i: nat)
    requires b.Indexed() && FramesOk(b) && DownPath(b, path, moves) && InGroup(sym, b.xSize, b.ySize)
    requires AlignsAre(b, path, moves, aligns) && Played(b, moves, aligns, sym, played) && i <= |played|
    ensures path[i] in b.nodes
    ensures FollowAll(b, View(path[i], FrameFrom(aligns, sym, i)), played[i..]) == Some(View(path[|path| - 1], sym))
    decreases |played| - i
  {
    hide Compose, SymLoc, FollowView;
    assert path[i] in path;
    if i < |played| {
      ReplayFollows(b, path, moves, aligns, sym, played, i + 1);
      assert StepDown(b, path[i], moves[i], path[i + 1]);
      FrameInGroup(b, aligns, sym, i + 1);
      ReplayedStep(b, path[i], moves[i], path[i + 1], FrameFrom(aligns, sym, i + 1));
      assert played[i..][0] == played[i] && played[i..][1..] == played[i + 1..];
    }
  }

  lemma StepAt(b: Book, path: seq<BookNode>, moves: seq<Loc>, i: nat)
    requires b.Indexed() && FramesOk(b) && DownPath(b, path, moves) && i < |path| - 1
    ensures moves[i] in path[i].moves && InGroup(path[i].moves[moves[i]].symmetryToAlign, b.xSize, b.ySize)
  {
    assert StepDown(b, path[i], moves[i], path[i + 1]);
    assert FrameOk(FrameOf(b, path[i]));
  }

  /** The composed symmetry from the root's space to the space of the view. */
  method ComposeDown(b: Book, path: seq<BookNode>, moves: seq<Loc>, sym: Sym) returns (acc: Sym, ghost aligns: seq<Sym>)
    requires b.Indexed() && FramesOk(b) && DownPath(b, path, moves) && InGroup(sym, b.xSize, b.ySize)
    ensures AlignsAre(b, path, moves, aligns) && acc == FrameFrom(aligns, sym, 0)
  {
    hide Compose, FramesOk, StepDown;
    acc, aligns := IDENTITY, [];
    for i := 0 to |path| - 1
      invariant |aligns| == i && acc == Product(aligns, i)
      invariant forall k :: 0 <= k < i ==> moves[k] in path[k].moves && aligns[k] == path[k].moves[moves[k]].symmetryToAlign
                                           && InGroup(aligns[k], b.xSize, b.ySize)
    {
      StepAt(b, path, moves, i);
      var align := path[i].moves[moves[i]].symmetryToAlign;
      ProductExtends(aligns, align);
      acc, aligns := Compose(acc, align), aligns + [align];
    }
    acc := Compose(acc, sym);
    ProductThenFrame(aligns, sym, |aligns|);
  }

  lemma {:induction false} ProductPrefix(aligns: seq<Sym>, more: seq<Sym>, k: nat)
    requires k <= |aligns|
    ensures Product(aligns + more, k) == Product(aligns, k)
  {
    if k > 0 {
      ProductPrefix(aligns, more, k - 1);
    }
  }

  lemma ProductExtends(aligns: seq<Sym>, align: Sym)
    ensures Product(aligns + [align], |aligns| + 1) == Compose(Product(aligns, |aligns|), align)
  {
    ProductPrefix(aligns, [align], |aligns|);
  }

  lemma NextFrame(aligns: seq<Sym>, sym: Sym, i: nat)
    requires i < |aligns|
    ensures Compose(Invert(aligns[i]), FrameFrom(aligns, sym, i)) == FrameFrom(aligns, sym, i + 1)
  {
    hide Compose, Invert;
    GroupLaws(aligns[i], aligns[i], aligns[i]);
    GroupLaws(Invert(aligns[i]), aligns[i], FrameFrom(aligns, sym, i + 1));
    GroupLaws(FrameFrom(aligns, sym, i + 1), IDENTITY, IDENTITY);
  }

  /** Play the stored moves, each carried into the final frame. legal: may the move be played after those before it? */
  method Replay(b: Book, path: seq<BookNode>, moves: seq<Loc>, sym: Sym, legal: (seq<Loc>, Loc) -> bool,
                symmetryAcc: Sym, ghost aligns: seq<Sym>) returns (ok: bool, moveHistory: seq<Loc>)
    requires b.Indexed() && FramesOk(b) && DownPath(b, path, moves) && AlignsAre(b, path, moves, aligns)
    requires InGroup(sym, b.xSize, b.ySize) && symmetryAcc == Compose(b.initialSymmetry, FrameFrom(aligns, sym, 0))
    ensures |moves| == |path| && AlignsAre(b, path, moves, aligns)
    ensures (ok ==> Played(b, moves, aligns, sym, moveHistory))
    ensures ok <==> forall k :: 0 <= k < |aligns| ==> LegalAt(b, moves, aligns, sym, legal, k)
    ensures !ok ==> exists k :: StoppedAt(b, moves, aligns, sym, legal, k, moveHistory)
  {
    hide *;
    moveHistory := [];
    UndoInitial(b.initialSymmetry, FrameFrom(aligns, sym, 0));
    PathSizes(b, path, moves, aligns);
    var symmetryPathNodeToHist := Compose(Invert(b.initialSymmetry), symmetryAcc);
    for i := 0 to |path| - 1
      invariant symmetryPathNodeToHist == FrameFrom(aligns, sym, i)
      invariant moveHistory == PlayedUpTo(b, moves, aligns, sym, i)
      invariant forall k :: 0 <= k < i ==> LegalAt(b, moves, aligns, sym, legal, k)
    {
      StepAt(b, path, moves, i);
      PlayedNext(b, path, moves, aligns, sym, legal, i);
      var symMove := SymLoc(moves[i], b.xSize, b.ySize, symmetryPathNodeToHist);
      if !legal(moveHistory, symMove) {
        StopsHere(b, moves, aligns, sym, legal, i);
        return false, moveHistory + [symMove];
      }
      moveHistory := moveHistory + [symMove];
      NextFrame(aligns, sym, i);
      symmetryPathNodeToHist := Compose(Invert(path[i].moves[moves[i]].symmetryToAlign), symmetryPathNodeToHist);
    }
    ok := true;
    AllPlayed(b, moves, aligns, sym);
  }

  lemma PathSizes(b: Book, path: seq<BookNode>, moves: seq<Loc>, aligns: seq<Sym>)
    requires b.Indexed() && DownPath(b, path, moves) && AlignsAre(b, path, moves, aligns)
    ensures |moves| == |path| == |aligns| + 1
  {
  }

  lemma PlayedNext(b: Book, path: seq<BookNode>, moves: seq<Loc>, aligns: seq<Sym>, sym: Sym,
                   legal: (seq<Loc>, Loc) -> bool, i: nat)
    requires |moves| == |path| == |aligns| + 1 && AlignsAre(b, path, moves, aligns) && i < |aligns|
      && moves[i] in path[i].moves
    ensures aligns[i] == path[i].moves[moves[i]].symmetryToAlign
    ensures var symMove := SymLoc(moves[i], b.xSize, b.ySize, FrameFrom(aligns, sym, i));
            && PlayedUpTo(b, moves, aligns, sym, i + 1) == PlayedUpTo(b, moves, aligns, sym, i) + [symMove]
            && (LegalAt(b, moves, aligns, sym, legal, i) <==> legal(PlayedUpTo(b, moves, aligns, sym, i), symMove))
    ensures PlayedUpTo(b, moves, aligns, sym, 0) == []
  {
  }

  lemma AllPlayed(b: Book, moves: seq<Loc>, aligns: seq<Sym>, sym: Sym)
    requires |moves| == |aligns| + 1
    ensures Played(b, moves, aligns, sym, PlayedUpTo(b, moves, aligns, sym, |aligns|))
  {
  }

  ghost function PlayedUpTo(b: Book, moves: seq<Loc>, aligns: seq<Sym>, sym: Sym, k: nat): (played: seq<Loc>)
    requires k <= |aligns| && k <= |moves|
    ensures |played| == k
  {
    seq(k, i requires 0 <= i < k => SymLoc(moves[i], b.xSize, b.ySize, FrameFrom(aligns, sym, i)))
  }

  ghost predicate LegalAt(b: Book, moves: seq<Loc>, aligns: seq<Sym>, sym: Sym, legal: (seq<Loc>, Loc) -> bool, k: nat)
    requires k < |aligns| && k < |moves|
  {
    legal(PlayedUpTo(b, moves, aligns, sym, k), SymLoc(moves[k], b.xSize, b.ySize, FrameFrom(aligns, sym, k)))
  }

  /** The k-th move is the first that may not be played; it is still the last one in the list. */
  ghost predicate StoppedAt(b: Book, moves: seq<Loc>, aligns: seq<Sym>, sym: Sym, legal: (seq<Loc>, Loc) -> bool,
                            k: nat, played: seq<Loc>) {
    && k < |aligns| && k < |moves|
    && !LegalAt(b, moves, aligns, sym, legal, k) && (forall j :: 0 <= j < k ==> LegalAt(b, moves, aligns, sym, legal, j))
    && played == PlayedUpTo(b, moves, aligns, sym, k + 1)
  }

  lemma StopsHere(b: Book, moves: seq<Loc>, aligns: seq<Sym>, sym: Sym, legal: (seq<Loc>, Loc) -> bool, k: nat)
    requires k < |aligns| && k < |moves| && !LegalAt(b, moves, aligns, sym, legal, k)
    requires forall j :: 0 <= j < k ==> LegalAt(b, moves, aligns, sym, legal, j)
    ensures StoppedAt(b, moves, aligns, sym, legal, k, PlayedUpTo(b, moves, aligns, sym, k + 1))
  {
  }

  lemma UndoInitial(initial: Sym, s: Sym)
    ensures Compose(Invert(initial), Compose(initial, s)) == s
  {
  }

  /**
   A history that reaches the view. It plays the stored moves of a path from the root, each carried
   into the frame in which the path ends at the view; it fails exactly when one of them may not be
   played after those before it. The history starts from the initial position turned by histSymmetry;
   followed from the root's view in that frame, its moves arrive at exactly this view.
   */
  method GetBoardHistoryReachingHere(b: Book, v: View, legal: (seq<Loc>, Loc) -> bool,
                                     ghost depth: map<BookHash, nat>, ghost rank: map<BookHash, nat>)
    returns (ok: bool, histSymmetry: Sym, moveHistory: seq<Loc>, winLosses: seq<real>,
             ghost rootSym: Sym, ghost path: seq<BookNode>, ghost moves: seq<Loc>, ghost aligns: seq<Sym>)
    requires b.Valid() && FramesOk(b) && RootedBy(b.Snapshot(), b.root.hash, depth)
    requires v.node in b.nodes && InGroup(v.symmetryOfNode, b.xSize, b.ySize)
    ensures DownPath(b, path, moves) && path[0] == b.root && path[|path| - 1] == v.node
    ensures AcyclicBy(b.Snapshot(), rank) ==> forall i, j :: 0 <= i && j == i + 1 && j < |path| ==>
              IsBestParent(b.Snapshot(), path[j].hash, path[i].hash, moves[i])
    ensures |moves| == |path| == |aligns| + 1 && AlignsAre(b, path, moves, aligns)
    ensures |winLosses| == |path| + 1 && winLosses[|path|] == v.node.recursiveValues.winLossValue
    ensures forall i :: 0 <= i < |path| ==> winLosses[i] == path[i].recursiveValues.winLossValue
    ensures histSymmetry == Compose(b.initialSymmetry, rootSym) && rootSym == FrameFrom(aligns, v.symmetryOfNode, 0)
    ensures ok <==> forall k :: 0 <= k < |aligns| ==> LegalAt(b, moves, aligns, v.symmetryOfNode, legal, k)
    ensures ok ==> Played(b, moves, aligns, v.symmetryOfNode, moveHistory) && b.root in b.nodes
    ensures !ok ==> exists k :: StoppedAt(b, moves, aligns, v.symmetryOfNode, legal, k, moveHistory)
    ensures InGroup(rootSym, b.xSize, b.ySize)
    ensures ok ==> forall i :: 0 <= i < |moveHistory| ==> Playable(moveHistory[i], b.xSize, b.ySize)
    ensures ok ==> |moveHistory| == |path| - 1 && FollowAll(b, View(b.root, rootSym), moveHistory) == Some(v)
  {
    hide *;
    var stack, moveStack := ReverseSearchToRoot(b, v.node, true, depth, rank);
    ReversedIsDownPath(b, stack, moveStack);
    ReversedEnds(stack);
    ValidIndexed(b);
    var pathFromRoot, movesFromRoot := Reverse(stack), Reverse(moveStack);
    path, moves := pathFromRoot, movesFromRoot;
    PathInBook(b, path, moves);
    winLosses := WinLossesAlong(pathFromRoot, v.node);
    var symmetryAcc;
    symmetryAcc, aligns := ComposeDown(b, pathFromRoot, movesFromRoot, v.symmetryOfNode);
    rootSym := symmetryAcc;
    histSymmetry := Compose(b.initialSymmetry, symmetryAcc);
    ok, moveHistory := Replay(b, pathFromRoot, movesFromRoot, v.symmetryOfNode, legal, histSymmetry, aligns);
    PathSizes(b, path, moves, aligns);
    AlignsInGroup(b, path, moves, aligns);
    FrameInGroup(b, aligns, v.symmetryOfNode, 0);
    if ok {
      PlayedSize(b, moves, aligns, v.symmetryOfNode, moveHistory);
      PlayedArePlayable(b, path, moves, aligns, v.symmetryOfNode, moveHistory);
      ReplayFollows(b, path, moves, aligns, v.symmetryOfNode, moveHistory, 0);
      assert moveHistory[0..] == moveHistory;
    }
    if AcyclicBy(b.Snapshot(), rank) {
      BestReversed(b.Snapshot(), stack, moveStack);
    }
  }

  lemma PathInBook(b: Book, path: seq<BookNode>, moves: seq<Loc>)
    requires b.Indexed() && DownPath(b, path, moves)
    ensures forall i :: 0 <= i < |path| ==> path[i] in b.nodes
  {
    hide StepDown;
  }

  /** The values along a path and once more that of the node, which is the last on the path already. */
  method WinLossesAlong(path: seq<BookNode>, node: BookNode) returns (ws: seq<real>)
    ensures |ws| == |path| + 1 && ws[|path|] == node.recursiveValues.winLossValue
    ensures forall i :: 0 <= i < |path| ==> ws[i] == path[i].recursiveValues.winLossValue
  {
    ws := [];
    for i := 0 to |path|
      invariant |ws| == i && forall k :: 0 <= k < i ==> ws[k] == path[k].recursiveValues.winLossValue
    {
      ws := ws + [path[i].recursiveValues.winLossValue];
    }
    ws := ws + [node.recursiveValues.winLossValue];
  }

  lemma AlignsInGroup(b: Book, path: seq<BookNode>, moves: seq<Loc>, aligns: seq<Sym>)
    requires |moves| == |path| && AlignsAre(b, path, moves, aligns)
    ensures forall k :: 0 <= k < |aligns| ==> InGroup(aligns[k], b.xSize, b.ySize)
  {
  }

  lemma PlayedArePlayable(b: Book, path: seq<BookNode>, moves: seq<Loc>, aligns: seq<Sym>, sym: Sym, played: seq<Loc>)
    requires b.Valid() && FramesOk(b) && DownPath(b, path, moves) && AlignsAre(b, path, moves, aligns)
    requires InGroup(sym, b.xSize, b.ySize) && Played(b, moves, aligns, sym, played)
    ensures forall i :: 0 <= i < |played| ==> Playable(played[i], b.xSize, b.ySize)
  {
    hide SymLoc, Compose, Book.Snapshot, StepDown, FrameFrom, BestParentsOk, OneKeyPerOrbit, SymmetriesOk;
    AlignsInGroup(b, path, moves, aligns);
    forall i | 0 <= i < |played| ensures Playable(played[i], b.xSize, b.ySize) {
      assert path[i] in path;
      b.Has(path[i]);
      assert FrameOk(FrameOf(b, path[i])) && moves[i] in path[i].moves;
      FrameInGroup(b, aligns, sym, i);
      SymLocOnBoard(moves[i], b.xSize, b.ySize, FrameFrom(aligns, sym, i));
    }
  }

  lemma PlayedSize(b: Book, moves: seq<Loc>, aligns: seq<Sym>, sym: Sym, played: seq<Loc>)
    requires Played(b, moves, aligns, sym, played)
    ensures |played| == |aligns|
  {
  }

  lemma ReversedEnds<X>(s: seq<X>)
    requires s != []
    ensures Reverse(s)[0] == s[|s| - 1] && Reverse(s)[|s| - 1] == s[0]
  {
  }

  lemma ValidIndexed(b: Book)
    requires b.Valid()
    ensures b.Indexed()
  {
  }

  lemma BestReversed(sn: Snapshot, stack: seq<BookNode>, moveStack: seq<Loc>)
    requires |moveStack| == |stack|
    requires forall i, j :: 0 <= i && j == i + 1 && j < |stack| ==>
      IsBestParent(sn, stack[i].hash, stack[j].hash, moveStack[j])
    ensures var path, moves := Reverse(stack), Reverse(moveStack);
            forall i, j :: 0 <= i && j == i + 1 && j < |path| ==> IsBestParent(sn, path[j].hash, path[i].hash, moves[i])
  {
    hide IsBestParent;
    var path, moves := Reverse(stack), Reverse(moveStack);
    forall i, j | 0 <= i && j == i + 1 && j < |path| ensures IsBestParent(sn, path[j].hash, path[i].hash, moves[i]) {
      var down, up := |stack| - 1 - j, |stack| - 1 - i;
      assert IsBestParent(sn, stack[down].hash, stack[up].hash, moveStack[up]);
    }
  }
}
