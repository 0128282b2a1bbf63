/**
 Marking every ancestor of a changed node dirty: reverseDepthFirstSearchWithPostF with the
 marking function, for one changed node.
 */
module MarkDirty {
  import opened BookData
  import opened Symmetry

  type ParentMap = map<BookHash, seq<BookHash>>

  ghost function ParentHashes(ps: seq<(BookHash, Loc)>): (hs: seq<BookHash>)
    ensures |hs| == |ps|
  {
    seq(|ps|, i requires 0 <= i < |ps| => ps[i].0)
  }

  ghost function ParentMapOf(sn: Snapshot): (pv: ParentMap)
    ensures pv.Keys == sn.Keys
  {
    map h | h in sn :: ParentHashes(sn[h].parents)
  }

  /** With a node, all its parents. */
  ghost predicate AncestorClosed(pv: ParentMap, s: set<BookHash>) {
    forall h, p :: h in s && h in pv && p in pv[h] ==> p in s
  }

  ghost predicate ParentsInBook(pv: ParentMap) {
    forall h, p :: h in pv && p in pv[h] ==> p in pv
  }

  /** Some stack level still has to try the k-th parent of h. */
  ghost predicate Pending(hashes: seq<BookHash>, idxs: seq<nat>, h: BookHash, k: nat)
    requires |hashes| == |idxs|
  {
    exists q :: 0 <= q < |hashes| && hashes[q] == h && idxs[q] <= k
  }

  ghost predicate Marking(pv: ParentMap, dirty0: set<BookHash>, start: BookHash, dirty: set<BookHash>,
                          visited: set<BookHash>, hashes: seq<BookHash>, idxs: seq<nat>) {
    && |hashes| == |idxs|
    && dirty0 + {start} <= dirty <= pv.Keys && visited <= dirty
    && (forall q :: 0 <= q < |hashes| ==> hashes[q] in dirty && hashes[q] in visited)
    && (forall h, k: nat :: h in dirty && k < |pv[h]| ==> pv[h][k] in dirty || Pending(hashes, idxs, h, k))
    && (forall s :: AncestorClosed(pv, s) && dirty0 <= s && start in s ==> dirty <= s)
  }

  lemma MarkingDone(pv: ParentMap, dirty0: set<BookHash>, start: BookHash, dirty: set<BookHash>, visited: set<BookHash>)
    requires Marking(pv, dirty0, start, dirty, visited, [], [])
    ensures AncestorClosed(pv, dirty)
  {
    forall h, p | h in dirty && h in pv && p in pv[h] ensures p in dirty {
      var k :| 0 <= k < |pv[h]| && pv[h][k] == p;
      assert pv[h][k] in dirty || Pending([], [], h, k);
    }
  }

  /** The parent tried is marked already. */
  lemma MarkingAdvance(pv: ParentMap, dirty0: set<BookHash>, start: BookHash, dirty: set<BookHash>,
                       visited: set<BookHash>, hashes: seq<BookHash>, idxs: seq<nat>, top: nat, idxs': seq<nat>)
    requires Marking(pv, dirty0, start, dirty, visited, hashes, idxs)
    requires hashes != [] && top == |hashes| - 1 && idxs[top] < |pv[hashes[top]]|
    requires pv[hashes[top]][idxs[top]] in dirty
    requires idxs' == idxs[top := idxs[top] + 1]
    ensures Marking(pv, dirty0, start, dirty, visited, hashes, idxs')
  {
    forall h, k: nat | h in dirty && k < |pv[h]| ensures pv[h][k] in dirty || Pending(hashes, idxs', h, k) {
      if pv[h][k] !in dirty {
        var q :| 0 <= q < |hashes| && hashes[q] == h && idxs[q] <= k;
        assert hashes[q] == h && idxs'[q] <= k;
      }
    }
  }

  /** A new node goes on the stack; when it is dirty already its parents need no search. */
  lemma MarkingPush(pv: ParentMap, dirty0: set<BookHash>, start: BookHash, dirty: set<BookHash>,
                    visited: set<BookHash>, hashes: seq<BookHash>, idxs: seq<nat>, top: nat, idxs': seq<nat>,
                    n: BookHash, idx: nat)
    requires ParentsInBook(pv) && AncestorClosed(pv, dirty0)
    requires Marking(pv, dirty0, start, dirty, visited, hashes, idxs)
    requires hashes != [] && top == |hashes| - 1 && idxs[top] < |pv[hashes[top]]|
    requires pv[hashes[top]][idxs[top]] == n && n !in visited
    requires idxs' == idxs[top := idxs[top] + 1] + [idx]
    requires idx == 0 || (n in dirty && idx == |pv[n]|)
    ensures Marking(pv, dirty0, start, dirty + {n}, visited + {n}, hashes + [n], idxs')
  {
    var hashes', dirty' := hashes + [n], dirty + {n};
    assert n in pv[hashes[top]];
    forall h, k: nat | h in dirty' && k < |pv[h]| ensures pv[h][k] in dirty' || Pending(hashes', idxs', h, k) {
      if pv[h][k] !in dirty' {
        if h in dirty {
          var q :| 0 <= q < |hashes| && hashes[q] == h && idxs[q] <= k;
          assert hashes'[q] == h && idxs'[q] <= k;
        } else {
          assert hashes'[top + 1] == h && idxs'[top + 1] <= k;
        }
      }
    }
    forall s | AncestorClosed(pv, s) && dirty0 <= s && start in s ensures dirty' <= s {
      assert hashes[top] in s;
    }
  }

  lemma MarkingPop(pv: ParentMap, dirty0: set<BookHash>, start: BookHash, dirty: set<BookHash>,
                   visited: set<BookHash>, hashes: seq<BookHash>, idxs: seq<nat>, top: nat)
    requires Marking(pv, dirty0, start, dirty, visited, hashes, idxs)
    requires hashes != [] && top == |hashes| - 1 && idxs[top] >= |pv[hashes[top]]|
    ensures Marking(pv, dirty0, start, dirty, visited, hashes[..top], idxs[..top])
  {
    forall h, k: nat | h in dirty && k < |pv[h]| ensures pv[h][k] in dirty || Pending(hashes[..top], idxs[..top], h, k) {
      if pv[h][k] !in dirty {
        var q :| 0 <= q < |hashes| && hashes[q] == h && idxs[q] <= k;
        assert hashes[..top][q] == h && idxs[..top][q] <= k;
      }
    }
  }

  lemma MarkingStart(pv: ParentMap, dirty0: set<BookHash>, start: BookHash, idx: nat)
    requires AncestorClosed(pv, dirty0) && dirty0 + {start} <= pv.Keys
    requires idx == 0 || start in dirty0
    ensures Marking(pv, dirty0, start, dirty0 + {start}, {start}, [start], [idx])
  {
    forall h, k: nat | h in dirty0 + {start} && k < |pv[h]|
      ensures pv[h][k] in dirty0 + {start} || Pending([start], [idx], h, k)
    {
      if h in dirty0 {
        assert pv[h][k] in pv[h];
      } else {
        assert [start][0] == h && [idx][0] <= k;
      }
    }
  }

  // ---------------------------------------------------------------------------------------------
  // The search on the book

  /** Everything but the flags. */
  ghost function Unflagged(sn: Snapshot): (still: Snapshot)
    ensures still.Keys == sn.Keys
  {
    map h | h in sn :: sn[h].(flag := 0)
  }

  lemma FlagRaised(sn: Snapshot, h: BookHash, doneValue: int)
    requires h in sn
    ensures var sn' := sn[h := sn[h].(flag := doneValue)];
            && Unflagged(sn') == Unflagged(sn) && Flagged(sn', doneValue) == Flagged(sn, doneValue) + {h}
            && (FlagsBelow(sn, doneValue + 1) ==> FlagsBelow(sn', doneValue + 1))
  {
  }

  method RaiseFlag(b: Book, node: BookNode, doneValue: int)
    requires b.Indexed() && node in b.nodes
    modifies node
    ensures b.Indexed() && Unflagged(b.Snapshot()) == old(Unflagged(b.Snapshot()))
    ensures Flagged(b.Snapshot(), doneValue) == old(Flagged(b.Snapshot(), doneValue)) + {node.hash}
    ensures old(FlagsBelow(b.Snapshot(), doneValue + 1)) ==> FlagsBelow(b.Snapshot(), doneValue + 1)
  {
    hide Book.Snapshot, Unflagged, Flagged, FlagsBelow;
    b.Has(node);
    node.visitedFlag := doneValue;
    b.ChangedAt(node.hash);
    FlagRaised(old(b.Snapshot()), node.hash, doneValue);
  }

  /** One search: what it starts from and what it leaves alone. */
  datatype Search = Search(repr: set<BookNode>, still: Snapshot, pv: ParentMap, dirty0: set<BookHash>, start: BookHash)

  ghost predicate MarkInv(b: Book, g: Search, doneValue: int, dirty: set<BookHash>, visited: set<BookHash>,
                          stack: seq<BookNode>, idxs: seq<nat>)
    reads b, b.nodes
  {
    && b.Indexed() && g.repr == (set n | n in b.nodes)
    && Unflagged(b.Snapshot()) == g.still && g.pv == ParentMapOf(g.still)
    && ParentsInBook(g.pv) && AncestorClosed(g.pv, g.dirty0)
    && (forall n :: n in stack ==> n in b.nodes)
    && Marking(g.pv, g.dirty0, g.start, dirty, visited, HashesOf(stack), idxs)
    && Flagged(b.Snapshot(), doneValue) <= visited
    && FlagsBelow(b.Snapshot(), doneValue + 1)
  }

  /** markDirty: an already dirty node is not searched further. */
  function FirstParentToTry(dirty: set<BookHash>, node: BookNode): nat
    reads node
  {
    if node.hash in dirty then |node.parents| else 0
  }

  lemma MarkFacts(b: Book, g: Search, doneValue: int, dirty: set<BookHash>, visited: set<BookHash>,
                  stack: seq<BookNode>, idxs: seq<nat>)
    requires MarkInv(b, g, doneValue, dirty, visited, stack, idxs)
    ensures b.Indexed() && Unflagged(b.Snapshot()) == g.still && |idxs| == |stack|
    ensures FlagsBelow(b.Snapshot(), doneValue + 1)
    ensures stack != [] ==> stack[|stack| - 1] in b.nodes && Parents(b, g, stack[|stack| - 1])
    ensures stack == [] ==> Marking(g.pv, g.dirty0, g.start, dirty, visited, [], [])
  {
    hide Marking, ParentsInBook, AncestorClosed, Flagged, Unflagged, ParentMapOf, Book.Snapshot;
    MarkingSizes(g.pv, g.dirty0, g.start, dirty, visited, HashesOf(stack), idxs);
    if stack != [] {
      TopParents(b, g, stack[|stack| - 1]);
    } else {
      assert HashesOf(stack) == [] && idxs == [];
    }
  }

  lemma MarkingSizes(pv: ParentMap, dirty0: set<BookHash>, start: BookHash, dirty: set<BookHash>,
                     visited: set<BookHash>, hashes: seq<BookHash>, idxs: seq<nat>)
    requires Marking(pv, dirty0, start, dirty, visited, hashes, idxs)
    ensures |hashes| == |idxs| && dirty <= pv.Keys
  {
  }

  /** The node's parents are what the parent map says, and all in the book. */
  ghost predicate Parents(b: Book, g: Search, node: BookNode)
    requires b.Indexed()
    reads b, node
  {
    && node.hash in g.pv && |g.pv[node.hash]| == |node.parents|
    && forall k :: 0 <= k < |node.parents| ==> g.pv[node.hash][k] == node.parents[k].0 && node.parents[k].0 in b.nodeIdx
  }

  lemma TopParents(b: Book, g: Search, node: BookNode)
    requires b.Indexed() && node in b.nodes && Unflagged(b.Snapshot()) == g.still
    requires g.pv == ParentMapOf(g.still) && ParentsInBook(g.pv)
    ensures Parents(b, g, node)
  {
    b.Has(node);
    forall k | 0 <= k < |node.parents| ensures node.parents[k].0 in b.nodeIdx {
      assert g.pv[node.hash][k] == node.parents[k].0;
      assert g.pv[node.hash][k] in g.pv[node.hash];
    }
  }

  ghost function Untried(pv: ParentMap, hashes: seq<BookHash>, idxs: seq<nat>): nat
    requires |hashes| == |idxs|
  {
    var top := |hashes| - 1;
    if hashes == [] || hashes[top] !in pv || idxs[top] >= |pv[hashes[top]]| then 0 else |pv[hashes[top]]| - idxs[top]
  }

  lemma SkipsParent(b: Book, g: Search, doneValue: int, dirty: set<BookHash>, visited: set<BookHash>,
                    stack: seq<BookNode>, idxs: seq<nat>, top: nat)
    requires MarkInv(b, g, doneValue, dirty, visited, stack, idxs) && |idxs| == |stack| && stack != []
    requires top == |stack| - 1
    requires b.Indexed() && Parents(b, g, stack[top]) && idxs[top] < |stack[top].parents|
    requires var h := stack[top].parents[idxs[top]].0; h in visited || b.Get(h).visitedFlag == doneValue
    ensures MarkInv(b, g, doneValue, dirty, visited, stack, idxs[top := idxs[top] + 1])
  {
    MarkingAdvance(g.pv, g.dirty0, g.start, dirty, visited, HashesOf(stack), idxs, top, idxs[top := idxs[top] + 1]);
  }

  lemma PushesParent(b: Book, g: Search, doneValue: int, dirty: set<BookHash>, visited: set<BookHash>,
                     stack: seq<BookNode>, idxs: seq<nat>, top: nat, n: BookNode)
    requires MarkInv(b, g, doneValue, dirty, visited, stack, idxs) && |idxs| == |stack| && stack != []
    requires top == |stack| - 1
    requires b.Indexed() && Parents(b, g, stack[top]) && idxs[top] < |stack[top].parents|
    requires n in b.nodes && n.hash == stack[top].parents[idxs[top]].0 && n.hash !in visited
    ensures n.hash in g.pv
    ensures MarkInv(b, g, doneValue, dirty + {n.hash}, visited + {n.hash}, stack + [n],
                    idxs[top := idxs[top] + 1] + [FirstParentToTry(dirty, n)])
  {
    hide Marking, Flagged, Unflagged, ParentMapOf, Book.Snapshot;
    TopParents(b, g, n);
    HashesGrow(stack, n);
    MarkingPush(g.pv, g.dirty0, g.start, dirty, visited, HashesOf(stack), idxs, top,
                idxs[top := idxs[top] + 1] + [FirstParentToTry(dirty, n)], n.hash, FirstParentToTry(dirty, n));
  }

  /** No parent left at the top: raise its flag and go up one level. */
  method MarkFinish(b: Book, ghost g: Search, doneValue: int, ghost dirty: set<BookHash>, ghost visited: set<BookHash>,
                    stack: seq<BookNode>, idxs: seq<nat>) returns (stack': seq<BookNode>, idxs': seq<nat>)
    requires MarkInv(b, g, doneValue, dirty, visited, stack, idxs) && |idxs| == |stack| && stack != []
    requires b.Indexed() && Parents(b, g, stack[|stack| - 1]) && idxs[|stack| - 1] >= |stack[|stack| - 1].parents|
    modifies g.repr
    ensures MarkInv(b, g, doneValue, dirty, visited, stack', idxs') && |stack'| == |stack| - 1
  {
    hide Marking, ParentsInBook, AncestorClosed, Flagged, Unflagged, ParentMapOf, Book.Snapshot;
    var top := |stack| - 1;
    MarkingPop(g.pv, g.dirty0, g.start, dirty, visited, HashesOf(stack), idxs, top);
    assert HashesOf(stack[..top]) == HashesOf(stack)[..top];
    MarkingTop(g.pv, g.dirty0, g.start, dirty, visited, HashesOf(stack), idxs, top);
    stack', idxs' := stack[..top], idxs[..top];
    RaiseFlag(b, stack[top], doneValue);
  }

  lemma MarkingTop(pv: ParentMap, dirty0: set<BookHash>, start: BookHash, dirty: set<BookHash>, visited: set<BookHash>,
                   hashes: seq<BookHash>, idxs: seq<nat>, top: nat)
    requires Marking(pv, dirty0, start, dirty, visited, hashes, idxs) && top < |hashes|
    ensures hashes[top] in visited
  {
  }

  /** One turn: try the next parent of the top of the stack, or finish the top. */
  method MarkTurn(b: Book, ghost g: Search, doneValue: int, dirty: set<BookHash>, visited: set<BookHash>,
                  stack: seq<BookNode>, idxs: seq<nat>)
    returns (dirty': set<BookHash>, visited': set<BookHash>, stack': seq<BookNode>, idxs': seq<nat>)
    requires MarkInv(b, g, doneValue, dirty, visited, stack, idxs) && |idxs| == |stack| && stack != []
    modifies g.repr
    ensures MarkInv(b, g, doneValue, dirty', visited', stack', idxs') && |idxs'| == |stack'|
    ensures (g.pv.Keys - visited, |stack|, Untried(g.pv, HashesOf(stack), idxs)
             decreases to
             g.pv.Keys - visited', |stack'|, Untried(g.pv, HashesOf(stack'), idxs'))
  {
    hide MarkInv, Book.Snapshot;
    MarkFacts(b, g, doneValue, dirty, visited, stack, idxs);
    var top := |stack| - 1;
    var node := stack[top];
    if idxs[top] < |node.parents| {
      var nextParentHash := node.parents[idxs[top]].0;
      dirty', visited', stack', idxs' := dirty, visited, stack, idxs[top := idxs[top] + 1];
      if nextParentHash !in visited && b.Get(nextParentHash).visitedFlag != doneValue {
        var nextParent := b.Get(nextParentHash);
        b.At(nextParentHash);
        PushesParent(b, g, doneValue, dirty, visited, stack, idxs, top, nextParent);
        assert nextParentHash in g.pv.Keys - visited;
        stack', idxs' := stack + [nextParent], idxs' + [FirstParentToTry(dirty, nextParent)];
        dirty', visited' := dirty + {nextParentHash}, visited + {nextParentHash};
      } else {
        SkipsParent(b, g, doneValue, dirty, visited, stack, idxs, top);
      }
    } else {
      stack', idxs' := MarkFinish(b, g, doneValue, dirty, visited, stack, idxs);
      dirty', visited' := dirty, visited;
      MarkFacts(b, g, doneValue, dirty', visited', stack', idxs');
    }
  }

  lemma MarkStart(b: Book, g: Search, doneValue: int, start: BookNode)
    requires b.Indexed() && start in b.nodes && g.start == start.hash && g.repr == (set n | n in b.nodes)
    requires Unflagged(b.Snapshot()) == g.still && g.pv == ParentMapOf(g.still)
    requires ParentsInBook(g.pv) && AncestorClosed(g.pv, g.dirty0) && g.dirty0 <= g.pv.Keys
    requires Flagged(b.Snapshot(), doneValue) == {} && FlagsBelow(b.Snapshot(), doneValue + 1)
    ensures MarkInv(b, g, doneValue, g.dirty0 + {start.hash}, {start.hash}, [start], [FirstParentToTry(g.dirty0, start)])
  {
    hide Marking, ParentsInBook, AncestorClosed, Flagged, Unflagged, ParentMapOf, Book.Snapshot;
    TopParents(b, g, start);
    MarkingStart(g.pv, g.dirty0, start.hash, FirstParentToTry(g.dirty0, start));
    assert HashesOf([start]) == [start.hash];
  }

  /**
   Search upwards from one changed node, marking it and all its ancestors dirty. Afterwards the
   dirty set is closed under parents again, and it is the least such set.
   */
  method MarkAncestorsDirty(b: Book, start: BookNode, dirtyNodes: set<BookHash>, doneValue: int)
    returns (dirty: set<BookHash>)
    requires b.Indexed() && start in b.nodes && ParentsInBook(ParentMapOf(b.Snapshot()))
    requires AncestorClosed(ParentMapOf(b.Snapshot()), dirtyNodes) && dirtyNodes <= b.nodeIdx.Keys
    requires FlagsBelow(b.Snapshot(), doneValue)
    modifies b.nodes
    ensures FlagsBelow(b.Snapshot(), doneValue + 1)
    ensures b.Indexed() && Unflagged(b.Snapshot()) == old(Unflagged(b.Snapshot()))
    ensures dirtyNodes + {start.hash} <= dirty <= b.nodeIdx.Keys && AncestorClosed(ParentMapOf(b.Snapshot()), dirty)
    ensures forall s :: AncestorClosed(ParentMapOf(b.Snapshot()), s) && dirtyNodes <= s && start.hash in s ==> dirty <= s
  {
    hide *;
    NoneFlagged(b.Snapshot(), doneValue);
    ghost var g := StartSearch(b, start, dirtyNodes);
    MarkStart(b, g, doneValue, start);
    var idxs: seq<nat> := [FirstParentToTry(dirtyNodes, start)];
    var stack, visited := [start], {start.hash};
    dirty := dirtyNodes + {start.hash};
    while stack != []
      invariant MarkInv(b, g, doneValue, dirty, visited, stack, idxs) && |idxs| == |stack| == |HashesOf(stack)|
      decreases g.pv.Keys - visited, |stack|, Untried(g.pv, HashesOf(stack), idxs)
    {
      dirty, visited, stack, idxs := MarkTurn(b, g, doneValue, dirty, visited, stack, idxs);
    }
    MarkFacts(b, g, doneValue, dirty, visited, stack, idxs);
    MarkEnd(b, g, dirty, visited);
  }

  lemma StartSearch(b: Book, start: BookNode, dirtyNodes: set<BookHash>) returns (g: Search)
    requires b.Indexed() && ParentsInBook(ParentMapOf(b.Snapshot()))
    requires AncestorClosed(ParentMapOf(b.Snapshot()), dirtyNodes) && dirtyNodes <= b.nodeIdx.Keys
    ensures g.start == start.hash && g.repr == (set n | n in b.nodes) && g.dirty0 == dirtyNodes
    ensures Unflagged(b.Snapshot()) == g.still && g.pv == ParentMapOf(g.still)
    ensures ParentsInBook(g.pv) && AncestorClosed(g.pv, g.dirty0) && g.dirty0 <= g.pv.Keys
  {
    ParentMapUnflagged(b.Snapshot());
    g := Search((set n | n in b.nodes), Unflagged(b.Snapshot()), ParentMapOf(Unflagged(b.Snapshot())), dirtyNodes,
                start.hash);
  }

  lemma ParentMapUnflagged(sn: Snapshot)
    ensures ParentMapOf(Unflagged(sn)) == ParentMapOf(sn)
  {
  }

  lemma MarkEnd(b: Book, g: Search, dirty: set<BookHash>, visited: set<BookHash>)
    requires b.Indexed() && Unflagged(b.Snapshot()) == g.still && g.pv == ParentMapOf(g.still)
    requires Marking(g.pv, g.dirty0, g.start, dirty, visited, [], [])
    ensures g.dirty0 + {g.start} <= dirty <= b.nodeIdx.Keys && AncestorClosed(ParentMapOf(b.Snapshot()), dirty)
    ensures forall s :: AncestorClosed(ParentMapOf(b.Snapshot()), s) && g.dirty0 <= s && g.start in s ==> dirty <= s
  {
    ParentMapUnflagged(b.Snapshot());
    MarkingDone(g.pv, g.dirty0, g.start, dirty, visited);
  }
}
