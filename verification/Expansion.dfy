/**
 Expanding a book in rounds. To expand a node: find a history that reaches it, check its hash, search
 and record. At the end of a round recompute from the nodes that were listed.
 */
module Expansion {
  import opened Util
  import opened Symmetry
  import opened BookData
  import opened ValueRules
  import opened CostRules
  import opened CostTasks
  import opened Settled
  import opened Recompute
  import opened Views
  import opened BookViews
  import opened Hashing
  import opened Walks
  import opened Paths
  import opened BookWalks
  import opened Growth
  import opened Visits
  import opened Recording
  import opened Routes
  import opened Rounds

  // ---------------------------------------------------------------------------------------------
  // Recomputing

  /** Costs on the moves do not matter to frames. */
  lemma SameFrame(key: Key, hash: BookHash, pla: Player, f: Frame, moves: map<Loc, BookMove>)
    requires StrippedMoves(f.moves) == StrippedMoves(moves)
    ensures FrameOk(f) ==> FrameOk(f.(moves := moves))
    ensures NodeNamed(key, hash, pla, f) ==> NodeNamed(key, hash, pla, f.(moves := moves))
  {
    var f' := f.(moves := moves);
    assert moves.Keys == StrippedMoves(moves).Keys == f.moves.Keys;
    hide StrippedMoves, SymLoc;
    forall loc | loc in f.moves
      ensures moves[loc].move == f.moves[loc].move && moves[loc].hash == f.moves[loc].hash
              && moves[loc].symmetryToAlign == f.moves[loc].symmetryToAlign
    {
      SameCore(f.moves, moves, loc);
    }
    if FrameOk(f) {
      assert forall a, s :: Turn(f', a, s) == Turn(f, a, s);
      assert SymmetriesOk(f') by { hide Compose, Invert; }
    }
    if NodeNamed(key, hash, pla, f) {
      forall loc | loc in f'.moves ensures MoveNamed(key, f.xSize, f.ySize, hash, f'.moves[loc]) {
        SameMoveNamed(key, f.xSize, f.ySize, hash, f.moves[loc], moves[loc]);
      }
    }
  }

  lemma SameCore(moves: map<Loc, BookMove>, moves': map<Loc, BookMove>, loc: Loc)
    requires StrippedMoves(moves) == StrippedMoves(moves') && loc in moves && loc in moves'
    ensures moves'[loc].move == moves[loc].move && moves'[loc].hash == moves[loc].hash
    ensures moves'[loc].symmetryToAlign == moves[loc].symmetryToAlign
  {
    assert Stripped(moves[loc]) == StrippedMoves(moves)[loc] == StrippedMoves(moves')[loc] == Stripped(moves'[loc]);
  }

  lemma SameMoveNamed(key: Key, xSize: nat, ySize: nat, hash: BookHash, m: BookMove, m': BookMove)
    requires m'.move == m.move && m'.hash == m.hash && m'.symmetryToAlign == m.symmetryToAlign
    requires MoveNamed(key, xSize, ySize, hash, m)
    ensures MoveNamed(key, xSize, ySize, hash, m')
  {
    hide SymHistory, NoneLess, Ext;
    forall g | Sized(g, xSize, ySize) && key(g) == hash ensures LeadsTo(key, g, m') {
      assert LeadsTo(key, g, m);
    }
  }

  lemma StructureKeepsStripped(sn: Snapshot, sn': Snapshot, root: BookHash, h: BookHash)
    requires Structure(sn, root) == Structure(sn', root) && h in sn
    ensures h in sn' && StrippedMoves(sn[h].moves) == StrippedMoves(sn'[h].moves)
  {
    assert Structure(sn, root).Keys == sn.Keys && Structure(sn', root).Keys == sn'.Keys;
    assert Structure(sn, root)[h] == Structure(sn', root)[h];
  }

  /** Recompute, told of these nodes. */
  method RecomputeListed(b: Book, p: Params, cp: CostParams, listed: seq<BookNode>, ghost key: Key, ghost sn: Snapshot,
                         ghost depth: map<BookHash, nat>, ghost rank: map<BookHash, nat>)
    returns (ghost dirty: set<BookHash>)
    requires b.Indexed() && b.Snapshot() == sn && Editable(b, key) && RootedBy(sn, b.root.hash, depth)
    requires forall n :: n in listed ==> n in b.nodes
    modifies b`nextVisitedDoneValue, b.nodes
    ensures Editable(b, key) && RootedBy(b.Snapshot(), b.root.hash, depth)
    ensures Structure(b.Snapshot(), b.root.hash) == Structure(sn, b.root.hash) && DirtyIs(sn, listed, |listed|, dirty)
    ensures AcyclicBy(sn, rank) ==> ValuesRecomputed(p, sn, b.Snapshot(), dirty) && CostsSettled(cp, b.Snapshot(), b.root.hash)
    ensures AcyclicBy(sn, rank) && SettledOutside(p, sn, HashSet(listed)) ==> ValuesSettled(p, b.Snapshot())
  {
    hide Book.Snapshot, Book.Indexed, Linked, BestParentsOk, RootedBy, FlagsBelow, AcyclicBy, ValuesSettled,
         CostsSettled, SettledOutside, Structure, FrameOk, NodeNamed, StrippedMoves, ValuesRecomputed, DirtyIs;
    NodesInSnapshot(b);
    dirty := RecomputeChanged(b, p, cp, listed, sn, depth, rank);
    StructureKeepsDepth(sn, b.Snapshot(), b.root.hash, depth);
    NodesInSnapshot(b);
    forall n | n in b.nodes ensures FrameOk(FrameOf(b, n)) && NodeNamed(key, n.hash, n.pla, FrameOf(b, n)) {
      StructureKeepsStripped(sn, b.Snapshot(), b.root.hash, n.hash);
      assert old(FrameOk(FrameOf(b, n)) && NodeNamed(key, n.hash, n.pla, FrameOf(b, n)));
      SameFrame(key, n.hash, n.pla, old(FrameOf(b, n)), n.moves);
    }
  }

  lemma NodesInSnapshot(b: Book)
    requires b.Indexed()
    ensures forall n :: n in b.nodes ==> n.hash in b.Snapshot() && b.Snapshot()[n.hash].moves == n.moves
  {
    hide Book.Snapshot;
    forall n | n in b.nodes ensures n.hash in b.Snapshot() && b.Snapshot()[n.hash].moves == n.moves {
      b.Has(n);
    }
  }

  // ---------------------------------------------------------------------------------------------
  // Expanding one node

  lemma StartAllowed(b: Book, key: Key, initial: History, rootSym: Sym)
    requires StartsAt(b, key, initial) && InGroup(rootSym, b.xSize, b.ySize)
    ensures Sized(initial, b.xSize, b.ySize) && Allowed(initial, Compose(b.initialSymmetry, rootSym))
  {
    hide Compose, StandsAt;
    var root := View(b.root, rootSym);
  }

  lemma ReplaysIs(b: Book, initial: History, rootSym: Sym, moveHistory: seq<Loc>)
    requires InGroup(rootSym, b.xSize, b.ySize) && Sized(initial, b.xSize, b.ySize)
    requires Allowed(initial, Compose(b.initialSymmetry, rootSym))
    ensures Replays(b, initial, rootSym, moveHistory,
                    ExtAll(SymHistory(initial, Compose(b.initialSymmetry, rootSym)), moveHistory))
  {
    hide SymHistory, ExtAll, Compose;
  }

  lemma ReachesIs(b: Book, rootSym: Sym, moveHistory: seq<Loc>, v: View)
    requires b.Indexed() && b.root in b.nodes && v.node in b.nodes
    requires FollowAll(b, View(b.root, rootSym), moveHistory) == Some(v)
    requires forall i :: 0 <= i < |moveHistory| ==> Playable(moveHistory[i], b.xSize, b.ySize)
    ensures Reaches(b, rootSym, moveHistory, v)
  {
    hide FollowAll;
  }

  lemma SizedIsValid(h: History, xSize: nat, ySize: nat)
    requires Sized(h, xSize, ySize)
    ensures ValidHistory(h)
  {
  }

  lemma StandingSized(b: Book, key: Key, h: History, v: View)
    requires Stands(b, key, h, v) && Separates(b, key)
    ensures ValidHistory(h) && Faithful(key, h.initialBoard.xSize, h.initialBoard.ySize)
  {
    hide StandsAt, Faithful;
  }

  ghost predicate OutcomeFits(o: Outcome, xSize: nat, ySize: nat) {
    o.Finished? ==> PlayableTree(o.s, xSize, ySize)
  }

  lemma SearchFits(o: Outcome, xSize: nat, ySize: nat)
    requires OutcomeFits(o, xSize, ySize) && o.Finished?
    ensures PlayableTree(o.s, xSize, ySize)
  {
  }

  /** The new moves and the searches, then no more re-expansion of this node. */
  method RecordAndClose<S(!new)>(hs: Hasher<S>, v2: bool, b: Book, lim: Limits, rules: Rules, maxDepth: nat, v: View,
                                 h: History, s: SearchNode, again: BookHash -> Searched, ghost sn: Snapshot)
    returns (listed: seq<BookNode>, searched: seq<BookNode>, ghost t: Trace, ghost seen: set<int>)
    requires b.Indexed() && b.Snapshot() == sn && Editable(b, KeyOf(hs, v2))
    requires Separates(b, KeyOf(hs, v2)) && Stands(b, KeyOf(hs, v2), h, v)
    requires v.node in b.nodes && PlayableTree(s, b.xSize, b.ySize)
    modifies b`nodes, b`nodeIdx, b.nodes
    ensures old(b.nodes) <= b.nodes && forall i :: 0 <= i < |b.nodes| && i >= |old(b.nodes)| ==> fresh(b.nodes[i])
    ensures Editable(b, KeyOf(hs, v2)) && !v.node.canReExpand
    ensures Done(b, sn, EditsOf(VisitsOf(t)) + AgainEdits(searched, again) + [StopReExpanding(v.node.hash)], Log([], listed))
    ensures TraceFits(s, lim, rules, v, h, maxDepth, {}, t, seen) && VisitsOk(b, sn, VisitsOf(t))
    ensures HashSet(searched) == AgainBy(b, sn, VisitsOf(t), lim) && OneEach(searched)
    ensures HashSet(listed) == ListedBy(VisitsOf(t)) + {v.node.hash}
  {
    hide *;
    ghost var key := KeyOf(hs, v2);
    var recursedOn, log;
    recursedOn, log, t := RecordTree(hs, v2, b, lim, rules, s, v, h, maxDepth, {}, sn);
    seen := recursedOn;
    ghost var edits := EditsOf(VisitsOf(t));
    DidFacts(b, lim, sn, VisitsOf(t), log, false, false, v.node.hash);
    searched := Unique(log.toSearch);
    NotAddedHere(v.node.hash);
    ghost var sn1, nodes1 := b.Snapshot(), b.nodes;
    SearchAgain(b, searched, again, key, sn1);
    DoneMore(b, nodes1, sn, sn1, edits, AgainEdits(searched, again), log, Log([], []));
    AppendNothing(log);
    edits := edits + AgainEdits(searched, again);
    DoneFacts(b, sn, edits, log);
    EditableFacts(b, key);
    sn1 := b.Snapshot();
    StopNode(b, v.node, key, sn1);
    DoneMore(b, nodes1, sn, sn1, edits, [StopReExpanding(v.node.hash)], log, Log([], []));
    edits := edits + [StopReExpanding(v.node.hash)];
    listed := log.toUpdate + [v.node];
    NoteOneMore(b, sn, edits, log, v.node);
  }

  /** The nodes to search again are a set: each is searched once. */
  method Unique(nodes: seq<BookNode>) returns (unique: seq<BookNode>)
    ensures HashSet(unique) == HashSet(nodes) && OneEach(unique) && forall n :: n in unique ==> n in nodes
  {
    unique := [];
    var seen: set<BookHash> := {};
    for i := 0 to |nodes|
      invariant seen == HashSet(unique) == HashSet(nodes[..i]) && OneEach(unique)
      invariant forall n :: n in unique ==> n in nodes
    {
      assert nodes[..i + 1] == nodes[..i] + [nodes[i]];
      OneListed(nodes[..i], nodes[i]);
      if nodes[i].hash !in seen {
        OneListed(unique, nodes[i]);
        forall k | 0 <= k < |unique| ensures unique[k].hash in seen {
        }
        unique := unique + [nodes[i]];
        seen := seen + {nodes[i].hash};
      }
    }
    assert nodes[..|nodes|] == nodes;
  }

  lemma NotAddedHere(h: BookHash)
    ensures Just(false, h) == {}
  {
  }

  lemma NoteOneMore(b: Book, sn: Snapshot, edits: seq<Edit>, log: Log, node: BookNode)
    requires Done(b, sn, edits, log) && node in b.nodes
    ensures Done(b, sn, edits, Log([], log.toUpdate + [node]))
    ensures HashSet(log.toUpdate + [node]) == HashSet(log.toUpdate) + {node.hash}
  {
    hide PossibleAll, ApplyAll, Book.Snapshot, Book.Indexed;
    forall n | n in log.toUpdate + [node] ensures n in b.nodes {
    }
  }

  method StopNode(b: Book, node: BookNode, ghost key: Key, ghost sn: Snapshot)
    requires b.Indexed() && b.Snapshot() == sn && Editable(b, key) && node in b.nodes
    modifies node`thisValuesNotInBook, node`canExpand, node`canReExpand
    ensures Editable(b, key) && Done(b, sn, [StopReExpanding(node.hash)], Log([], [])) && !node.canReExpand
  {
    hide Editable, PossibleAll, ApplyAll, Book.Snapshot, Book.Indexed, Done;
    WriteInputs(b, node, node.thisValuesNotInBook, node.canExpand, false, StopReExpanding(node.hash), key, sn);
    EditableFacts(b, key);
    IsDone(b, sn, [StopReExpanding(node.hash)], Log([], []));
  }

  /** The node is closed for expansion and nothing else happens; it is not listed. */
  method CloseNode(b: Book, node: BookNode, ghost key: Key, ghost sn: Snapshot)
    requires b.Indexed() && b.Snapshot() == sn && Editable(b, key) && node in b.nodes
    modifies node`thisValuesNotInBook, node`canExpand, node`canReExpand
    ensures Editable(b, key) && Done(b, sn, [StopExpanding(node.hash)], Log([], [])) && !node.canExpand
  {
    hide Editable, PossibleAll, ApplyAll, Book.Snapshot, Book.Indexed, Done;
    WriteInputs(b, node, node.thisValuesNotInBook, false, node.canReExpand, StopExpanding(node.hash), key, sn);
    EditableFacts(b, key);
    IsDone(b, sn, [StopExpanding(node.hash)], Log([], []));
  }

  /**
   Expand one node: reach it by a history, check that the history hashes to the node, which it always
   does, then search and record. A node that cannot be reached, is the end of a game or has no new
   moves is closed for expansion. What is done is exactly the work the request calls for.
   */
  method ExpandNode<S(!new)>(hs: Hasher<S>, v2: bool, b: Book, lim: Limits, rules: Rules, maxDepth: nat, r: Request,
                             ghost sn: Snapshot, ghost depth: map<BookHash, nat>)
    returns (failedIntegrityCheck: bool, listed: seq<BookNode>, ghost w: Work)
    requires b.Indexed() && b.Snapshot() == sn && Editable(b, KeyOf(hs, v2)) && RootedBy(sn, b.root.hash, depth)
    requires Separates(b, KeyOf(hs, v2)) && StartsAt(b, KeyOf(hs, v2), rules.initial)
    requires r.hash in b.nodeIdx && RequestFits(r, b.xSize, b.ySize)
    modifies b`nodes, b`nodeIdx, b.nodes
    ensures old(b.nodes) <= b.nodes && forall i :: 0 <= i < |b.nodes| && i >= |old(b.nodes)| ==> fresh(b.nodes[i])
    ensures !failedIntegrityCheck && Editable(b, KeyOf(hs, v2)) && Done(b, sn, WorkEdits(r, w), Log([], listed))
    ensures WorkFits(b, KeyOf(hs, v2), lim, rules, maxDepth, sn, r, w) && HashSet(listed) == WorkLists(r, w)
  {
    hide *;
    ghost var key := KeyOf(hs, v2);
    EditableFacts(b, key);
    b.At(r.hash);
    RequestFacts(r, b.xSize, b.ySize);
    var v := View(b.Get(r.hash), r.symmetry);
    ghost var rank := AnyRank(sn);
    var reached, histSymmetry, moveHistory, winLosses;
    ghost var rootSym, path, moves, aligns;
    reached, histSymmetry, moveHistory, winLosses, rootSym, path, moves, aligns :=
      GetBoardHistoryReachingHere(b, v, rules.replayable, depth, rank);
    ghost var route := Route(HashesAlong(path), moves, aligns);
    PathIsRoute(b, path, moves, aligns, rank);
    PlayableRoute(b, rules, r.symmetry, route);
    failedIntegrityCheck, listed, w := false, [], Closed(v, route, rules.initial);
    NothingListed(r, w);
    if !reached {
      UnreachedFits(b, key, lim, rules, maxDepth, sn, r, w);
      CloseNode(b, v.node, key, sn);
      return;
    }
    StartAllowed(b, key, rules.initial, rootSym);
    SizedIsValid(rules.initial, b.xSize, b.ySize);
    var hist := ExtAll(SymHistory(rules.initial, histSymmetry), moveHistory);
    ReplaysIs(b, rules.initial, rootSym, moveHistory);
    ReachesIs(b, rootSym, moveHistory, v);
    ReachedHistoryStands(b, key, rules.initial, rootSym, moveHistory, v, hist);
    StandingSized(b, key, hist, v);
    var a := HashHistory(hs, v2, hist);
    StandingIsHashed(hs, v2, b, hist, v, a.hash, a.symmetryToAlign);
    failedIntegrityCheck := a.hash != v.node.hash;
    PlayedIs(b, moves, aligns, r.symmetry, moveHistory);
    HistoryIs(b, rules, r.symmetry, route, hist);
    ReachedIs(b, key, rules, sn, r, v, route, hist);
    if rules.finished(hist) || r.outcome.NoNewMoves? {
      w := Closed(v, route, hist);
      ReachedFits(b, key, lim, rules, maxDepth, sn, r, w);
      NothingListed(r, w);
      CloseNode(b, v.node, key, sn);
    } else if r.outcome.Stopped? {
      w := Abandoned(v, route, hist);
      NothingDone(b, []);
      ReachedFits(b, key, lim, rules, maxDepth, sn, r, w);
      NothingListed(r, w);
    } else {
      SearchFits(r.outcome, b.xSize, b.ySize);
      var searched;
      ghost var t, seen;
      listed, searched, t, seen := RecordAndClose(hs, v2, b, lim, rules, maxDepth, v, hist, r.outcome.s, r.again, sn);
      w := Recorded(v, route, hist, t, seen, searched);
      DoneFacts(b, sn, EditsOf(VisitsOf(t)) + AgainEdits(searched, r.again) + [StopReExpanding(r.hash)],
                Log([], listed));
      RecordedFits(b, key, lim, rules, maxDepth, sn, r, w);
    }
  }

  /** A rank if there is one. */
  ghost function AnyRank(sn: Snapshot): (rank: map<BookHash, nat>)
    ensures (exists r :: AcyclicBy(sn, r)) ==> AcyclicBy(sn, rank)
  {
    if exists r :: AcyclicBy(sn, r) then
      var r :| AcyclicBy(sn, r);
      r
    else map[]
  }

  lemma NothingListed(r: Request, w: Work)
    requires !w.Recorded?
    ensures HashSet([]) == WorkLists(r, w)
  {
  }

  lemma PlayableRoute(b: Book, rules: Rules, sym: Sym, rt: Route)
    ensures SizesFit(rt) ==>
      (MayBePlayed(b, rules, sym, rt) <==>
        forall k :: 0 <= k < |rt.aligns| ==> LegalAt(b, rt.moves, rt.aligns, sym, rules.replayable, k))
    ensures SizesFit(rt) <==> |rt.moves| == |rt.hashes| == |rt.aligns| + 1
  {
    hide LegalAt;
  }

  lemma HistoryIs(b: Book, rules: Rules, sym: Sym, rt: Route, h: History)
    requires SizesFit(rt)
    requires Replays(b, rules.initial, FrameFrom(rt.aligns, sym, 0), PlayedUpTo(b, rt.moves, rt.aligns, sym, |rt.aligns|), h)
    ensures HistoryOf(b, rules, sym, rt, h)
  {
  }

  lemma ReachedIs(b: Book, key: Key, rules: Rules, sn: Snapshot, r: Request, at: View, route: Route, h: History)
    requires r.hash in sn && at.node.hash == r.hash && at.symmetryOfNode == r.symmetry && RouteOk(b, sn, r.hash, route)
    requires HistoryOf(b, rules, r.symmetry, route, h) && Stands(b, key, h, at)
    ensures Reached(b, key, rules, sn, r, at, route, h)
  {
  }

  lemma UnreachedFits(b: Book, key: Key, lim: Limits, rules: Rules, maxDepth: nat, sn: Snapshot, r: Request, w: Work)
    requires w.Closed? && r.hash in sn && w.at.node.hash == r.hash && w.at.symmetryOfNode == r.symmetry
    requires RouteOk(b, sn, r.hash, w.route) && !MayBePlayed(b, rules, r.symmetry, w.route)
    ensures WorkFits(b, key, lim, rules, maxDepth, sn, r, w) && WorkEdits(r, w) == [StopExpanding(r.hash)]
  {
    hide MayBePlayed;
  }

  lemma ReachedFits(b: Book, key: Key, lim: Limits, rules: Rules, maxDepth: nat, sn: Snapshot, r: Request, w: Work)
    requires (w.Closed? || w.Abandoned?) && Reached(b, key, rules, sn, r, w.at, w.route, w.h)
    requires MayBePlayed(b, rules, r.symmetry, w.route)
    requires if w.Closed? then rules.finished(w.h) || r.outcome.NoNewMoves? else !rules.finished(w.h) && r.outcome.Stopped?
    ensures WorkFits(b, key, lim, rules, maxDepth, sn, r, w)
    ensures WorkEdits(r, w) == if w.Closed? then [StopExpanding(r.hash)] else []
  {
    hide Reached, MayBePlayed;
  }

  lemma RecordedFits(b: Book, key: Key, lim: Limits, rules: Rules, maxDepth: nat, sn: Snapshot, r: Request, w: Work)
    requires w.Recorded? && Reached(b, key, rules, sn, r, w.at, w.route, w.h)
    requires MayBePlayed(b, rules, r.symmetry, w.route)
    requires r.outcome.Finished? && !rules.finished(w.h)
    requires TraceFits(r.outcome.s, lim, rules, w.at, w.h, maxDepth, {}, w.t, w.seen) && VisitsOk(b, sn, VisitsOf(w.t))
    requires HashSet(w.searched) == AgainBy(b, sn, VisitsOf(w.t), lim) && OneEach(w.searched)
    requires PossibleAll(sn, EditsOf(VisitsOf(w.t)) + AgainEdits(w.searched, r.again) + [StopReExpanding(r.hash)])
    ensures WorkFits(b, key, lim, rules, maxDepth, sn, r, w)
    ensures WorkEdits(r, w) == EditsOf(VisitsOf(w.t)) + AgainEdits(w.searched, r.again) + [StopReExpanding(r.hash)]
    ensures WorkLists(r, w) == ListedBy(VisitsOf(w.t)) + {r.hash}
  {
  }

  // ---------------------------------------------------------------------------------------------
  // A round: expand some nodes, then recompute

  /**
   A book between rounds: editable, rooted, and if the links have no cycle all costs are settled, and
   all values but those of stale leaves.
   */
  ghost predicate Sound(b: Book, key: Key, p: Params, cp: CostParams, depth: map<BookHash, nat>,
                        rank: map<BookHash, nat>, stale: set<BookHash>)
    reads b, b.nodes
  {
    && Editable(b, key) && RootedBy(b.Snapshot(), b.root.hash, depth) && Leaves(b.Snapshot(), stale)
    && (AcyclicBy(b.Snapshot(), rank) ==> SettledOutside(p, b.Snapshot(), stale) && CostsSettled(cp, b.Snapshot(), b.root.hash))
  }

  lemma SoundFacts(b: Book, key: Key, p: Params, cp: CostParams, depth: map<BookHash, nat>, rank: map<BookHash, nat>,
                   stale: set<BookHash>)
    requires Sound(b, key, p, cp, depth, rank, stale)
    ensures Editable(b, key) && b.Valid() && b.Indexed() && FramesOk(b) && Named(b, key) && Leaves(b.Snapshot(), stale)
    ensures Linked(b.Snapshot(), b.root.hash) && RootedBy(b.Snapshot(), b.root.hash, depth)
    ensures AcyclicBy(b.Snapshot(), rank) ==> SettledOutside(p, b.Snapshot(), stale)
  {
    hide Linked, RootedBy, AcyclicBy, SettledOutside, CostsSettled, FramesOk, Named, BestParentsOk, FlagsBelow,
         Book.Snapshot, Leaves;
  }

  /** A sound book without cycles is settled exactly if every stale leaf has the values its own search gives. */
  lemma SoundIsSettledWhen(b: Book, key: Key, p: Params, cp: CostParams, depth: map<BookHash, nat>,
                           rank: map<BookHash, nat>, stale: set<BookHash>)
    requires Sound(b, key, p, cp, depth, rank, stale) && AcyclicBy(b.Snapshot(), rank)
    ensures CostsSettled(cp, b.Snapshot(), b.root.hash) && Leaves(b.Snapshot(), stale)
    ensures ValuesSettled(p, b.Snapshot()) <==>
            forall h :: h in stale ==> b.Snapshot()[h].values == LeafValues(p, b.Snapshot()[h].inputs)
  {
    hide RootedBy, AcyclicBy, SettledOutside, CostsSettled, ValuesSettled, LeafValues, FramesOk, Named, FlagsBelow,
         Book.Snapshot, Leaves, Linked, BestParentsOk;
    SettledIffStaleAgree(p, b.Snapshot(), stale);
  }

  ghost predicate RequestFits(r: Request, xSize: nat, ySize: nat) {
    InGroup(r.symmetry, xSize, ySize) && OutcomeFits(r.outcome, xSize, ySize)
  }

  lemma RequestFacts(r: Request, xSize: nat, ySize: nat)
    requires RequestFits(r, xSize, ySize)
    ensures InGroup(r.symmetry, xSize, ySize) && OutcomeFits(r.outcome, xSize, ySize)
  {
  }

  /** Everything the loop over the requests of a round keeps. */
  ghost predicate InRound(b: Book, key: Key, lim: Limits, rules: Rules, maxDepth: nat, sn: Snapshot, rs: seq<Request>,
                          ws: seq<Work>, asked: set<BookHash>, listed: seq<BookNode>, depth: map<BookHash, nat>)
    requires |rs| == |ws|
    reads b, b.nodes
  {
    && Editable(b, key) && Done(b, sn, RoundEdits(rs, ws), Log([], listed)) && RootedBy(b.Snapshot(), b.root.hash, depth)
    && RoundFits(b, key, lim, rules, maxDepth, sn, rs, ws) && HashSet(listed) == asked + RoundLists(rs, ws)
  }

  lemma InRoundFacts(b: Book, key: Key, lim: Limits, rules: Rules, maxDepth: nat, sn: Snapshot, rs: seq<Request>,
                     ws: seq<Work>, asked: set<BookHash>, listed: seq<BookNode>, depth: map<BookHash, nat>)
    requires |rs| == |ws| && InRound(b, key, lim, rules, maxDepth, sn, rs, ws, asked, listed, depth)
    ensures Editable(b, key) && b.Indexed() && RootedBy(b.Snapshot(), b.root.hash, depth)
    ensures Linked(b.Snapshot(), b.root.hash)
    ensures Done(b, sn, RoundEdits(rs, ws), Log([], listed)) && PossibleAll(sn, RoundEdits(rs, ws))
    ensures b.Snapshot() == ApplyAll(sn, RoundEdits(rs, ws)) && forall n :: n in listed ==> n in b.nodes
    ensures RoundFits(b, key, lim, rules, maxDepth, sn, rs, ws) && HashSet(listed) == asked + RoundLists(rs, ws)
  {
    hide Linked, RootedBy, FramesOk, Named, BestParentsOk, FlagsBelow, Book.Snapshot, RoundFits, RoundEdits, RoundLists,
         PossibleAll, ApplyAll, HashSet;
  }

  /** One request more. */
  lemma RoundGoesOn(b: Book, key: Key, lim: Limits, rules: Rules, maxDepth: nat, nodes: seq<BookNode>, sn: Snapshot,
                    sn1: Snapshot, rs: seq<Request>, ws: seq<Work>, asked: set<BookHash>, listed: seq<BookNode>,
                    extra: seq<BookNode>, depth: map<BookHash, nat>, r: Request, w: Work)
    returns (depth': map<BookHash, nat>)
    requires |rs| == |ws| && PossibleAll(sn, RoundEdits(rs, ws)) && sn1 == ApplyAll(sn, RoundEdits(rs, ws))
    requires nodes <= b.nodes && forall n :: n in listed ==> n in nodes
    requires Linked(sn1, b.root.hash) && RootedBy(sn1, b.root.hash, depth)
    requires RoundFits(b, key, lim, rules, maxDepth, sn, rs, ws) && HashSet(listed) == asked + RoundLists(rs, ws)
    requires Editable(b, key) && Done(b, sn1, WorkEdits(r, w), Log([], extra)) && HashSet(extra) == WorkLists(r, w)
    requires WorkFits(b, key, lim, rules, maxDepth, sn1, r, w)
    ensures InRound(b, key, lim, rules, maxDepth, sn, rs + [r], ws + [w], asked, listed + extra, depth')
  {
    hide Linked, RootedBy, PossibleAll, ApplyAll, Editable, Done, HashSet, Touched, Book.Snapshot, WorkFits, WorkEdits,
         WorkLists, RoundFits, RoundEdits, RoundLists;
    DoneFacts(b, sn1, WorkEdits(r, w), Log([], extra));
    depth' := EditsTouchOnly(sn1, b.root.hash, depth, WorkEdits(r, w));
    DoneMore(b, nodes, sn, sn1, RoundEdits(rs, ws), WorkEdits(r, w), Log([], listed), Log([], extra));
    assert Append(Log([], listed), Log([], extra)) == Log([], listed + extra);
    RoundMore(b, key, lim, rules, maxDepth, sn, rs, ws, r, w);
  }

  lemma StartRound(b: Book, key: Key, lim: Limits, rules: Rules, maxDepth: nat, asked: set<BookHash>,
                   listed: seq<BookNode>, depth: map<BookHash, nat>)
    requires Editable(b, key) && b.Indexed() && RootedBy(b.Snapshot(), b.root.hash, depth)
    requires HashSet(listed) == asked && forall n :: n in listed ==> n in b.nodes
    ensures InRound(b, key, lim, rules, maxDepth, b.Snapshot(), [], [], asked, listed, depth)
  {
    hide RootedBy, FramesOk, Named, BestParentsOk, FlagsBelow, Linked, Book.Snapshot, Book.Indexed, HashSet;
  }

  /** The nodes to expand are listed from the start. */
  method ToExpand(b: Book, requests: seq<Request>) returns (nodes: seq<BookNode>)
    requires b.Indexed()
    ensures (forall n :: n in nodes ==> n in b.nodes) && HashSet(nodes) == Asked(b.Snapshot(), requests)
  {
    hide Book.Snapshot;
    nodes := [];
    for i := 0 to |requests|
      invariant forall n :: n in nodes ==> n in b.nodes
      invariant HashSet(nodes) == Asked(b.Snapshot(), requests[..i])
    {
      ghost var before := nodes;
      if requests[i].hash in b.nodeIdx {
        b.At(requests[i].hash);
        nodes := nodes + [b.Get(requests[i].hash)];
        OneListed(before, b.Get(requests[i].hash));
      }
      OneAsked(b.Snapshot(), requests, i);
    }
    assert requests[..|requests|] == requests;
  }

  lemma OneListed(nodes: seq<BookNode>, node: BookNode)
    ensures HashSet(nodes + [node]) == HashSet(nodes) + {node.hash}
  {
  }

  lemma OneAsked(sn: Snapshot, rs: seq<Request>, i: nat)
    requires i < |rs|
    ensures Asked(sn, rs[..i + 1]) == Asked(sn, rs[..i]) + if rs[i].hash in sn then {rs[i].hash} else {}
  {
    assert rs[..i + 1] == rs[..i] + [rs[i]];
  }

  /** Recompute what was edited. */
  method RecomputeEdited(b: Book, p: Params, cp: CostParams, listed: seq<BookNode>, ghost key: Key, ghost sn: Snapshot,
                         ghost edits: seq<Edit>, ghost depth: map<BookHash, nat>, ghost rank: map<BookHash, nat>)
    returns (ghost dirty: set<BookHash>)
    requires Editable(b, key) && Done(b, sn, edits, Log([], listed)) && PossibleAll(sn, edits)
    requires RootedBy(ApplyAll(sn, edits), b.root.hash, depth)
    modifies b`nextVisitedDoneValue, b.nodes
    ensures Editable(b, key) && RootedBy(b.Snapshot(), b.root.hash, depth)
    ensures Structure(b.Snapshot(), b.root.hash) == Structure(ApplyAll(sn, edits), b.root.hash)
    ensures Linked(ApplyAll(sn, edits), b.root.hash) && DirtyIs(ApplyAll(sn, edits), listed, |listed|, dirty)
    ensures AcyclicBy(b.Snapshot(), rank) ==>
              ValuesRecomputed(p, ApplyAll(sn, edits), b.Snapshot(),
                               dirty) && CostsSettled(cp, b.Snapshot(), b.root.hash)
  {
    hide Linked, RootedBy, CostsSettled, AcyclicBy, PossibleAll, ApplyAll, Done, DirtyIs, FramesOk, Named, FlagsBelow,
         BestParentsOk, Structure, Book.Snapshot, Book.Indexed, ValuesRecomputed;
    DoneFacts(b, sn, edits, Log([], listed));
    ghost var edited := b.Snapshot();
    dirty := RecomputeListed(b, p, cp, listed, key, edited, depth, rank);
    if AcyclicBy(b.Snapshot(), rank) {
      StructureKeepsRank(b.Snapshot(), edited, b.root.hash, rank);
    }
  }

  lemma RoundDone(b: Book, key: Key, p: Params, cp: CostParams, lim: Limits, rules: Rules, maxDepth: nat,
                  rank: map<BookHash, nat>, rd: Round, depth0: map<BookHash, nat>, depth: map<BookHash, nat>,
                  stale: set<BookHash>)
    requires |rd.rs| == |rd.ws| && RoundFits(b, key, lim, rules, maxDepth, rd.before, rd.rs, rd.ws)
    requires HashSet(rd.listed) == Asked(rd.before, rd.rs) + RoundLists(rd.rs, rd.ws)
    requires rd.edits == RoundEdits(rd.rs, rd.ws)
    requires PossibleAll(rd.before, rd.edits) && Editable(b, key) && b.Snapshot() == rd.after
    requires var edited := ApplyAll(rd.before, rd.edits);
             && Linked(edited, b.root.hash) && DirtyIs(edited, rd.listed, |rd.listed|, rd.dirty)
             && Structure(rd.after, b.root.hash) == Structure(edited, b.root.hash)
             && (AcyclicBy(rd.after, rank) ==>
                   ValuesRecomputed(p, edited, rd.after, rd.dirty) && CostsSettled(cp, rd.after, b.root.hash))
    requires RootedBy(rd.after, b.root.hash, depth)
    requires Linked(rd.before, b.root.hash) && RootedBy(rd.before, b.root.hash, depth0) && Leaves(rd.before, stale)
    requires AcyclicBy(rd.before, rank) ==> SettledOutside(p, rd.before, stale)
    ensures RoundOk(b, key, p, lim, rules, maxDepth, rank, rd)
    ensures Sound(b, key, p, cp, depth, rank, StaleAfter(rd, stale))
  {
    hide Linked, RootedBy, CostsSettled, AcyclicBy, SettledOutside, PossibleAll, ApplyAll, DirtyIs, Editable, Structure,
         Book.Snapshot, Book.Indexed, ValuesRecomputed, HashSet, RoundFits, RoundEdits, RoundLists, Leaves, StaleAfter,
         Asked, Reasoned;
    EditableFacts(b, key);
    RoundReasons(b, key, p, lim, rules, maxDepth, rank, rd);
    StaleStayLeaves(p, lim, b.root.hash, rank, rd, stale);
    if AcyclicBy(rd.after, rank) {
      StructureKeepsRank(rd.after, ApplyAll(rd.before, rd.edits), b.root.hash, rank);
      EditsKeepEdges(rd.before, rd.edits, rank);
      RoundLeavesStale(p, lim, b.root.hash, rank, rd, depth0, stale);
    }
  }

  /**
   One round. No integrity check fails; each request is worked on exactly as it calls for; and the book
   is sound again. RoundSettlesExactly and MissedAreOldLeaves say what the round leaves stale.
   */
  method ExpandRound<S(!new)>(hs: Hasher<S>, v2: bool, b: Book, lim: Limits, rules: Rules, maxDepth: nat, p: Params,
                              cp: CostParams, requests: seq<Request>, ghost sn: Snapshot,
                              ghost depth0: map<BookHash, nat>, ghost rank: map<BookHash, nat>,
                              ghost stale: set<BookHash>)
    returns (failed: bool, ghost depth: map<BookHash, nat>, ghost rd: Round)
    requires b.Indexed() && b.Snapshot() == sn && Sound(b, KeyOf(hs, v2), p, cp, depth0, rank, stale)
    requires Separates(b, KeyOf(hs, v2)) && StartsAt(b, KeyOf(hs, v2), rules.initial)
    requires forall i :: 0 <= i < |requests| ==> RequestFits(requests[i], b.xSize, b.ySize)
    modifies b`nodes, b`nodeIdx, b`nextVisitedDoneValue, b.nodes
    ensures old(b.nodes) <= b.nodes && forall i :: 0 <= i < |b.nodes| && i >= |old(b.nodes)| ==> fresh(b.nodes[i])
    ensures !failed && RoundOk(b, KeyOf(hs, v2), p, lim, rules, maxDepth, rank, rd)
    ensures rd.before == sn && rd.rs == requests && b.Indexed() && rd.after == b.Snapshot()
    ensures Sound(b, KeyOf(hs, v2), p, cp, depth, rank, StaleAfter(rd, stale))
  {
    hide *;
    ghost var key := KeyOf(hs, v2);
    SoundFacts(b, key, p, cp, depth0, rank, stale);
    failed, depth := false, depth0;
    var changed := ToExpand(b, requests);
    ghost var asked: set<BookHash>, ws: seq<Work> := Asked(sn, requests), [];
    StartRound(b, key, lim, rules, maxDepth, asked, changed, depth0);
    assert requests[..0] == [];
    for i := 0 to |requests|
      invariant |ws| == i && InRound(b, key, lim, rules, maxDepth, sn, requests[..i], ws, asked, changed, depth)
      invariant !failed
      invariant old(b.nodes) <= b.nodes && forall k :: 0 <= k < |b.nodes| && k >= |old(b.nodes)| ==> fresh(b.nodes[k])
    {
      InRoundFacts(b, key, lim, rules, maxDepth, sn, requests[..i], ws, asked, changed, depth);
      var r := requests[i];
      ghost var sn1, nodes1, w: Work := b.Snapshot(), b.nodes, Absent;
      var extra := [];
      if r.hash in b.nodeIdx {
        var failedCheck;
        failedCheck, extra, w := ExpandNode(hs, v2, b, lim, rules, maxDepth, r, sn1, depth);
        forall k | |old(b.nodes)| <= k < |b.nodes| ensures fresh(b.nodes[k]) {
          assert k < |nodes1| ==> b.nodes[k] == nodes1[k];
        }
        failed := failed || failedCheck;
      } else {
        NothingDone(b, []);
        AbsentFits(b, key, lim, rules, maxDepth, sn1, r);
        NothingListed(r, w);
      }
      depth := RoundGoesOn(b, key, lim, rules, maxDepth, nodes1, sn, sn1, requests[..i], ws, asked, changed, extra,
                           depth, r, w);
      assert requests[..i] + [r] == requests[..i + 1];
      changed, ws := changed + extra, ws + [w];
    }
    assert requests[..|requests|] == requests;
    InRoundFacts(b, key, lim, rules, maxDepth, sn, requests, ws, asked, changed, depth);
    ghost var dirty := RecomputeEdited(b, p, cp, changed, key, sn, RoundEdits(requests, ws), depth, rank);
    EditableFacts(b, key);
    rd := Round(sn, requests, ws, RoundEdits(requests, ws), changed, dirty, b.Snapshot());
    RoundDone(b, key, p, cp, lim, rules, maxDepth, rank, rd, depth0, depth, stale);
  }

  lemma AbsentFits(b: Book, key: Key, lim: Limits, rules: Rules, maxDepth: nat, sn: Snapshot, r: Request)
    requires r.hash !in sn
    ensures WorkFits(b, key, lim, rules, maxDepth, sn, r, Absent) && WorkEdits(r, Absent) == []
  {
  }

  /**
   Round after round: whatever is asked for, no integrity check fails and the book ends up sound. The
   stale leaves are just those the rounds missed and no later round marked dirty; if no round missed a
   search and the links have no cycle, the book is settled.
   */
  method ExpandRounds<S(!new)>(hs: Hasher<S>, v2: bool, b: Book, lim: Limits, rules: Rules, maxDepth: nat, p: Params,
                               cp: CostParams, requests: seq<seq<Request>>, ghost sn: Snapshot,
                               ghost depth0: map<BookHash, nat>, ghost rank: map<BookHash, nat>)
    returns (failed: bool, ghost depth: map<BookHash, nat>, ghost rounds: seq<Round>)
    requires b.Indexed() && b.Snapshot() == sn && Sound(b, KeyOf(hs, v2), p, cp, depth0, rank, {})
    requires Separates(b, KeyOf(hs, v2)) && StartsAt(b, KeyOf(hs, v2), rules.initial)
    requires forall i, j :: 0 <= i < |requests| && 0 <= j < |requests[i]| ==> RequestFits(requests[i][j], b.xSize, b.ySize)
    modifies b`nodes, b`nodeIdx, b`nextVisitedDoneValue, b.nodes
    ensures old(b.nodes) <= b.nodes && forall i :: 0 <= i < |b.nodes| && i >= |old(b.nodes)| ==> fresh(b.nodes[i])
    ensures !failed && b.Indexed() && RoundsOk(b, KeyOf(hs, v2), p, lim, rules, maxDepth, rank, rounds)
    ensures Chain(sn, rounds, b.Snapshot()) && |rounds| == |requests|
    ensures forall i :: 0 <= i < |rounds| ==> rounds[i].rs == requests[i]
    ensures Sound(b, KeyOf(hs, v2), p, cp, depth, rank, StaleOf(rounds))
    ensures NoneMissed(rounds) && AcyclicBy(b.Snapshot(), rank) ==>
              ValuesSettled(p, b.Snapshot())
  {
    hide *;
    ghost var key := KeyOf(hs, v2);
    failed, depth, rounds := false, depth0, [];
    NoRounds(b, key, p, lim, rules, maxDepth, rank, sn);
    for i := 0 to |requests|
      invariant b.Indexed() && RoundsOk(b, key, p, lim, rules, maxDepth, rank, rounds) && !failed
      invariant Chain(sn, rounds, b.Snapshot()) && |rounds| == i
      invariant forall k :: 0 <= k < i ==> rounds[k].rs == requests[k]
      invariant Sound(b, key, p, cp, depth, rank, StaleOf(rounds))
      invariant old(b.nodes) <= b.nodes && forall k :: 0 <= k < |b.nodes| && k >= |old(b.nodes)| ==> fresh(b.nodes[k])
    {
      var failedRound;
      ghost var rd, nodes1 := Round(sn, [], [], [], [], {}, sn), b.nodes;
      failedRound, depth, rd :=
        ExpandRound(hs, v2, b, lim, rules, maxDepth, p, cp, requests[i], b.Snapshot(), depth, rank, StaleOf(rounds));
      forall k | |old(b.nodes)| <= k < |b.nodes| ensures fresh(b.nodes[k]) {
        assert k < |nodes1| ==> b.nodes[k] == nodes1[k];
      }
      RoundsMore(b, key, p, lim, rules, maxDepth, rank, sn, rounds, rd);
      failed, rounds := failed || failedRound, rounds + [rd];
    }
    if NoneMissed(rounds) && AcyclicBy(b.Snapshot(), rank) {
      NothingMissed(rounds);
      SoundIsSettledWhen(b, key, p, cp, depth, rank, StaleOf(rounds));
    }
  }

  /** A book is sound from its construction on: make one and expand it as often as wanted. */
  method BuildBook<S(!new)>(hs: Hasher<S>, v2: bool, initial: Board, pla: Player, lim: Limits, rules: Rules,
                            maxDepth: nat, p: Params, cp: CostParams, requests: seq<seq<Request>>,
                            ghost rank: map<BookHash, nat>)
    returns (b: Book, failed: bool, ghost depth: map<BookHash, nat>, ghost first: Snapshot, ghost rounds: seq<Round>)
    requires rules.initial == History(initial, [], pla) && ValidBoard(initial)
    requires Faithful(KeyOf(hs, v2), initial.xSize, initial.ySize)
    requires forall i, j :: 0 <= i < |requests| && 0 <= j < |requests[i]| ==>
               RequestFits(requests[i][j], initial.xSize, initial.ySize)
    ensures fresh(b) && !failed && b.Indexed() && first.Keys == {b.root.hash}
    ensures RoundsOk(b, KeyOf(hs, v2), p, lim, rules, maxDepth, rank, rounds) && Chain(first, rounds, b.Snapshot())
    ensures |rounds| == |requests| && forall i :: 0 <= i < |rounds| ==> rounds[i].rs == requests[i]
    ensures Sound(b, KeyOf(hs, v2), p, cp, depth, rank, StaleOf(rounds))
    ensures NoneMissed(rounds) && AcyclicBy(b.Snapshot(), rank) ==>
              ValuesSettled(p, b.Snapshot())
  {
    hide *;
    ghost var key := KeyOf(hs, v2);
    b := NewBook(hs, v2, initial, pla);
    RootOnly(b, p, key, pla, rank);
    EditableFacts(b, key);
    ghost var sn := b.Snapshot();
    ghost var dirty := RecomputeListed(b, p, cp, [b.root], key, sn, map[], rank);
    EditableFacts(b, key);
    FirstSound(b, key, p, cp, rank);
    SeparatesIs(b, key);
    first := b.Snapshot();
    SameDomain(first, sn, b.root.hash);
    failed, depth, rounds :=
      ExpandRounds(hs, v2, b, lim, rules, maxDepth, p, cp, requests, first, map[], rank);
  }

  lemma SeparatesIs(b: Book, key: Key)
    requires Faithful(key, b.xSize, b.ySize)
    ensures Separates(b, key)
  {
  }

  lemma FirstSound(b: Book, key: Key, p: Params, cp: CostParams, rank: map<BookHash, nat>)
    requires Editable(b, key) && b.Indexed() && RootedBy(b.Snapshot(), b.root.hash, map[])
    requires ValuesSettled(p, b.Snapshot()) && CostsSettled(cp, b.Snapshot(), b.root.hash)
    ensures Sound(b, key, p, cp, map[], rank, {})
  {
    hide Editable, RootedBy, ValueSettledAt, CostsSettled, AcyclicBy, Book.Snapshot, Book.Indexed;
  }

  lemma RootOnly(b: Book, p: Params, key: Key, pla: Player, rank: map<BookHash, nat>)
    requires b.Valid() && FramesOk(b) && Named(b, key) && b.nodes == [b.root] && b.nextVisitedDoneValue == 1
    requires b.root.State() == FreshState(pla)
    ensures Editable(b, key) && RootedBy(b.Snapshot(), b.root.hash, map[]) && AcyclicBy(b.Snapshot(), rank)
    ensures SettledOutside(p, b.Snapshot(), HashSet([b.root])) && [b.root][0] in b.nodes
    ensures b.Snapshot().Keys == {b.root.hash}
  {
    hide FrameOk, NodeNamed, Linked, BestParentsOk, ValueSettledAt;
    forall h | h in b.Snapshot() ensures h == b.root.hash && b.Snapshot()[h].flag == 0 && b.Snapshot()[h].moves == map[] {
      b.At(h);
      assert b.Get(h) in [b.root];
    }
    assert [b.root][0].hash == b.root.hash;
  }
}
