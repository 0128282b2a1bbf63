/** A round of expansions that misses a search: the book is settled before it and not after it. */
module MissedSearch {
  import opened Util
  import opened Symmetry
  import opened BookData
  import opened ValueRules
  import opened ValueTasks
  import opened MarkDirty
  import opened Settled
  import opened Recompute
  import opened Views
  import opened BookViews
  import opened Hashing
  import opened BookWalks
  import opened Walks
  import opened Growth
  import opened Visits
  import opened Recording
  import opened Routes
  import opened Rounds

  /** A search of so many visits and nothing else. */
  function SearchOf(visits: real): BookValues { BookValues(0.0, 0.0, 0.0, 0.0, 0.0, 0.0, 0.0, 0.0, visits) }

  function NoCosts(): CostFields { CostFields(0, 0.0, 0.0, 0.0, 0, 0.0, false) }

  /** A settled root with one settled leaf. */
  function RootAndLeaf(p: Params, root: BookHash, leaf: BookHash, visits: real): Snapshot {
    var moves := map[PASS_LOC := BookMove(PASS_LOC, IDENTITY, leaf, 1.0, 0.0, false, 0.0)];
    var own := NodeInputs(White, SearchOf(visits), true, true);
    var kid := NodeValues(p, NodeShape(White, own.own, []), []);
    map[leaf := NodeState(own, map[], [(root, PASS_LOC)], kid, NoCosts(), 0),
        root := NodeState(own, moves, [], NodeValues(p, NodeShape(White, own.own, [Kid(leaf, 1.0)]), [kid]), NoCosts(), 0)]
  }

  lemma OneMove(m: BookMove)
    ensures KidsOf(map[PASS_LOC := m]) == [Kid(m.hash, m.rawPolicy)]
  {
    var moves := map[PASS_LOC := m];
    KidsAreMoves(moves);
    var locs := Ascending(moves.Keys);
    assert moves.Keys == {PASS_LOC};
    assert locs == [PASS_LOC];
  }

  lemma RootAndLeafIsLinked(p: Params, root: BookHash, leaf: BookHash, visits: real)
    requires root != leaf
    ensures var sn := RootAndLeaf(p, root, leaf, visits);
            Linked(sn, root) && RootedBy(sn, root,
                                         map[root := 0, leaf := 1]) && AcyclicBy(sn, map[root := 1, leaf := 0])
  {
    hide NodeValues;
    var sn := RootAndLeaf(p, root, leaf, visits);
    assert sn.Keys == {root, leaf} && sn[leaf].moves.Keys == {} && sn[root].moves.Keys == {PASS_LOC};
    assert (root, PASS_LOC) in sn[leaf].parents;
  }

  lemma LeafIsSettled(p: Params, root: BookHash, leaf: BookHash, visits: real)
    requires root != leaf
    ensures ValueSettledAt(p, RootAndLeaf(p, root, leaf, visits), leaf)
  {
    hide NodeValues;
    var sn := RootAndLeaf(p, root, leaf, visits);
    NoKids(sn[leaf].moves);
    assert KidValues(ShapeOf(sn[leaf]).kids, ValuesOf(sn)) == [];
  }

  lemma RootIsSettled(p: Params, root: BookHash, leaf: BookHash, visits: real)
    requires root != leaf
    ensures ValueSettledAt(p, RootAndLeaf(p, root, leaf, visits), root)
  {
    hide NodeValues, KidsOf;
    var sn := RootAndLeaf(p, root, leaf, visits);
    OneMove(sn[root].moves[PASS_LOC]);
    assert ShapeOf(sn[root]).kids == [Kid(leaf, 1.0)] && leaf in ValuesOf(sn);
    assert KidValues(ShapeOf(sn[root]).kids, ValuesOf(sn)) == [ValuesOf(sn)[leaf]];
  }

  /** The root is searched again, and the search has more visits for the move to the leaf than the leaf has. */
  function ExampleSearch(): SearchNode {
    SearchNode(0, PASS_LOC, [SearchChild(Found(PASS_LOC, 1.0, SearchOf(2.0), 2.0), SearchNode(1, PASS_LOC, []))])
  }

  ghost predicate ExampleBook(b: Book, leaf: BookHash) {
    b.root.hash != leaf && b.root.symmetries != []
  }

  ghost predicate ExampleWork(b: Book, key: Key, p: Params, rules: Rules, leaf: BookHash, r: Request, w: Work) {
    && ExampleBook(b, leaf) && r.hash == b.root.hash && r.outcome == Finished(ExampleSearch())
    && WorkFits(b, key, Limits(1.0, 3.0), rules, 1, RootAndLeaf(p, b.root.hash, leaf, 1.0), r, w)
    && w.Recorded? && rules.legal(w.h, PASS_LOC)
  }

  lemma ExampleFollow(b: Book, p: Params, leaf: BookHash, at: View)
    requires b.root.hash != leaf && at.node.hash == b.root.hash && at.node.symmetries != []
    ensures var sn := RootAndLeaf(p, b.root.hash, leaf, 1.0);
            && HasMove(b, sn, at, PASS_LOC)
            && Follow(FrameIn(b, sn, at), at.symmetryOfNode, PASS_LOC).Some?
            && Follow(FrameIn(b, sn, at), at.symmetryOfNode, PASS_LOC).value.hash == leaf
  {
    hide Compose, Invert, NodeValues;
    var f := FrameIn(b, RootAndLeaf(p, b.root.hash, leaf, 1.0), at);
    assert f.symmetries[0] in f.symmetries;
    assert Turn(f, PASS_LOC, Compose(Invert(at.symmetryOfNode), f.symmetries[0])) == PASS_LOC && PASS_LOC in f.moves;
  }

  lemma ExampleVisit(b: Book, p: Params, leaf: BookHash, x: Visit)
    requires b.root.hash != leaf && x.at.node.hash == b.root.hash && x.at.node.symmetries != []
    requires x.found == ExampleSearch().children[0].found && (x.Known? ==> x.legal)
    requires VisitOk(b, RootAndLeaf(p, b.root.hash, leaf, 1.0), x)
    ensures x.Known? && x.child.node.hash == leaf && VisitEdits(x) == [StoreSearch(leaf, SearchOf(2.0))]
  {
    hide HasMove, Follow, NodeValues, FrameIn;
    ExampleFollow(b, p, leaf, x.at);
    LeafIsSettled(p, b.root.hash, leaf, 1.0);
    LeafVisits(p, RootAndLeaf(p, b.root.hash, leaf, 1.0), leaf);
  }

  lemma ExampleTrace(rules: Rules, v: View, h: History, t: Trace, seen: set<int>)
    requires TraceFits(ExampleSearch(), Limits(1.0, 3.0), rules, v, h, 1, {}, t, seen) && rules.legal(h, PASS_LOC)
    ensures |t.steps| == 1 && t.steps[0].Taken? && VisitsOf(t) == [t.steps[0].visit]
    ensures var x := t.steps[0].visit;
            x.at == v && x.found == ExampleSearch().children[0].found && (x.Known? ==> x.legal && !x.recursed)
  {
    assert StepFits(ExampleSearch(), 0, Limits(1.0, 3.0), rules, v, h, 0, SeenBefore(t.steps, 0, {0}), t.steps[0]);
    assert VisitsUpTo(t, 0) == [];
    assert VisitsOf(Trace([])) == [];
    assert VisitsUpTo(t, 1) == VisitsUpTo(t, 0) + StepVisits(t.steps[0]);
  }

  /** Recording stores the search at the leaf and lists only the root. */
  lemma ExampleEdits(b: Book, key: Key, p: Params, rules: Rules, leaf: BookHash, r: Request, w: Work)
    requires ExampleWork(b, key, p, rules, leaf, r, w) && w.at.node == b.root
    ensures WorkEdits(r, w) == ExampleOf(b.root.hash, leaf)
    ensures WorkLists(r, w) == {b.root.hash}
  {
    hide TraceFits, VisitOk, Stands, PossibleAll, ApplyAll, Shallower, RouteOk, MayBePlayed, HistoryOf, RootAndLeaf,
         OneEach;
    var sn, lim := RootAndLeaf(p, b.root.hash, leaf, 1.0), Limits(1.0, 3.0);
    ExampleTrace(rules, w.at, w.h, w.t, w.seen);
    var x := w.t.steps[0].visit;
    assert VisitsOf(w.t) == [x] && [x][0] == x;
    ExampleVisit(b, p, leaf, x);
    hide VisitEdits, VisitsOk;
    JustVisited(b, sn, x, lim);
    ExampleNotAgain(b, p, leaf, x);
    SomeHash(w.searched);
    assert AgainEdits(w.searched, r.again) == [];
    assert ListedBy(VisitsOf(w.t)) == {};
    var e, e2 := StoreSearch(leaf, SearchOf(2.0)), StopReExpanding(r.hash);
    assert [e] + [] + [e2] == [e, e2];
  }

  /** The leaf has as many visits as leaves must have. */
  lemma ExampleNotAgain(b: Book, p: Params, leaf: BookHash, x: Visit)
    requires b.root.hash != leaf && x.Known? && x.child.node.hash == leaf
    requires VisitEdits(x) == [StoreSearch(leaf, SearchOf(2.0))]
    ensures PossibleAll(RootAndLeaf(p, b.root.hash, leaf, 1.0), VisitEdits(x))
    ensures VisitAgain(ApplyAll(RootAndLeaf(p, b.root.hash, leaf, 1.0), VisitEdits(x)), x, Limits(1.0, 3.0)) == {}
  {
    hide NodeValues;
    var sn, e := RootAndLeaf(p, b.root.hash, leaf, 1.0), StoreSearch(leaf, SearchOf(2.0));
    LeafIsSettled(p, b.root.hash, leaf, 1.0);
    LeafVisits(p, sn, leaf);
    StoreIsPossible(sn, e);
    OneEdit(sn, e);
  }

  lemma SomeHash(nodes: seq<BookNode>)
    ensures nodes != [] ==> HashSet(nodes) != {}
  {
    if nodes != [] {
      assert nodes[0].hash in HashSet(nodes);
    }
  }

  function ExampleOf(root: BookHash, leaf: BookHash): seq<Edit> {
    [StoreSearch(leaf, SearchOf(2.0)), StopReExpanding(root)]
  }

  lemma ExampleSets(root: BookHash, leaf: BookHash)
    ensures StoredAt(ExampleOf(root, leaf)) == {leaf} && Touched(ExampleOf(root, leaf)) == {leaf}
    ensures Ends(ExampleOf(root, leaf)) == {}
  {
    var a, b := StoreSearch(leaf, SearchOf(2.0)), StopReExpanding(root);
    assert [a][1..] == [] && [b][1..] == [] && ExampleOf(root, leaf) == [a] + [b];
    MoreStored([a], [b]);
    MoreEnds([a], [b]);
    EndsOrStored(ExampleOf(root, leaf));
  }

  lemma ExampleApplied(sn: Snapshot, root: BookHash, leaf: BookHash)
    requires root in sn && leaf in sn && root != leaf
    ensures PossibleAll(sn, ExampleOf(root, leaf))
    ensures var edited := ApplyAll(sn, ExampleOf(root, leaf));
            && edited.Keys == sn.Keys
            && (forall h :: h in sn ==> edited[h].moves == sn[h].moves && edited[h].parents == sn[h].parents)
            && edited[leaf].inputs.own == SearchOf(2.0)
  {
    var edits := ExampleOf(root, leaf);
    assert edits[1..] == [edits[1]] && edits[0].h == leaf && edits[1].h == root;
    var sn1 := Apply(sn, edits[0]);
    assert sn1 == sn[leaf := sn[leaf].(inputs := sn[leaf].inputs.(own := SearchOf(2.0)))];
    OneEdit(sn1, edits[1]);
  }

  /** What the example needs of the book and of the edited book. */
  ghost predicate ExampleFacts(sn: Snapshot, edited: Snapshot, root: BookHash, leaf: BookHash) {
    && sn.Keys == {root, leaf} && edited.Keys == {root, leaf} && edited[root].parents == []
    && Linked(sn, root) && RootedBy(sn, root, map[root := 0, leaf := 1]) && Linked(edited, root)
    && AcyclicBy(edited, map[root := 1, leaf := 0]) && edited[leaf].inputs.own == SearchOf(2.0)
  }

  lemma ExampleEdited(p: Params, root: BookHash, leaf: BookHash)
    requires root != leaf
    ensures var sn := RootAndLeaf(p, root, leaf, 1.0);
            PossibleAll(sn, ExampleOf(root, leaf)) && ExampleFacts(sn, ApplyAll(sn, ExampleOf(root, leaf)), root, leaf)
  {
    hide NodeValues, PossibleAll, ApplyAll, ExampleOf;
    var sn, edits := RootAndLeaf(p, root, leaf, 1.0), ExampleOf(root, leaf);
    RootAndLeafIsLinked(p, root, leaf, 1.0);
    assert sn.Keys == {root, leaf} && sn[root].parents == [];
    hide RootAndLeaf;
    ExampleApplied(sn, root, leaf);
    ExampleLinks(sn, root, leaf);
  }

  lemma ExampleLinks(sn: Snapshot, root: BookHash, leaf: BookHash)
    requires root in sn && leaf in sn && root != leaf
    requires Linked(sn, root) && RootedBy(sn, root, map[root := 0, leaf := 1])
    requires AcyclicBy(sn, map[root := 1, leaf := 0])
    requires PossibleAll(sn, ExampleOf(root, leaf))
    ensures Linked(ApplyAll(sn, ExampleOf(root, leaf)), root)
    ensures AcyclicBy(ApplyAll(sn, ExampleOf(root, leaf)), map[root := 1, leaf := 0])
  {
    hide Linked, RootedBy, PossibleAll, ApplyAll, ExampleOf;
    ExampleApplied(sn, root, leaf);
    var depth := EditsTouchOnly(sn, root, map[root := 0, leaf := 1], ExampleOf(root, leaf));
  }

  lemma ExampleDirty(sn: Snapshot, root: BookNode)
    requires root.hash in sn && sn[root.hash].parents == []
    ensures DirtyIs(sn, [root], 1, {root.hash})
  {
    assert [root][0] == root;
    assert ParentMapOf(sn)[root.hash] == [];
  }

  /** Recomputing from the root alone changes nothing here. */
  lemma ExampleRecomputed(p: Params, root: BookHash, leaf: BookHash)
    requires root != leaf
    ensures var sn := RootAndLeaf(p, root, leaf, 1.0);
            PossibleAll(sn, ExampleOf(root, leaf)) &&
            ValuesRecomputed(p, ApplyAll(sn, ExampleOf(root, leaf)), ApplyAll(sn, ExampleOf(root, leaf)), {root})
  {
    hide RootAndLeaf, PossibleAll, ApplyAll, ValueSettledAt, Linked, RootedBy, AcyclicBy, ExampleOf, Touched;
    var sn := RootAndLeaf(p, root, leaf, 1.0);
    ExampleEdited(p, root, leaf);
    ExampleBefore(p, root, leaf);
    ExampleSets(root, leaf);
    var depth := EditedBookIsReady(p, sn, root, map[root := 0, leaf := 1], ExampleOf(root, leaf), {});
    assert root !in {} + {leaf};
  }

  /**
   The round of the example: recording a search of the root stores a deeper search at the leaf and lists
   only the root. There is such a round, the book is settled before it, and it is not settled after any such round.
   */
  lemma MissedSearchExample(b: Book, key: Key, p: Params, rules: Rules, leaf: BookHash, r: Request,
                            w: Work) returns (rd: Round)
    requires ExampleWork(b, key, p, rules, leaf, r, w) && w.at.node == b.root
    ensures rd.before == RootAndLeaf(p, b.root.hash, leaf, 1.0) && rd.rs == [r] && rd.ws == [w]
    ensures RoundOk(b, key, p, Limits(1.0, 3.0), rules, 1, map[b.root.hash := 1, leaf := 0], rd)
    ensures ValuesSettled(p, rd.before) && Missed(rd) == {leaf} && !ValuesSettled(p, rd.after)
  {
    hide RootAndLeaf, ApplyAll, WorkFits, Structure, ValuesRecomputed, DirtyIs, Linked, RootedBy, AcyclicBy,
         ValuesSettled, WorkEdits, WorkLists, LeafValues, PossibleAll, DeeperSearch, ExampleOf, HashSet, Asked,
         RoundFits, RoundEdits, RoundLists, StoredAt, Reasoned, Touched, Ends;
    var root := b.root;
    var sn, edits := RootAndLeaf(p, root.hash, leaf, 1.0), ExampleOf(root.hash, leaf);
    ExampleWorkFacts(b, key, p, rules, leaf, r, w);
    ExampleEdits(b, key, p, rules, leaf, r, w);
    ExampleEdited(p, root.hash, leaf);
    ExampleRecomputed(p, root.hash, leaf);
    ExampleBefore(p, root.hash, leaf);
    ExampleSets(root.hash, leaf);
    var edited, rank := ApplyAll(sn, edits), map[root.hash := 1, leaf := 0];
    ExampleDirty(edited, root);
    rd := Round(sn, [r], [w], edits, [root], {root.hash}, edited);
    ExampleRound(b, key, p, rules, rd);
    RoundReasons(b, key, p, Limits(1.0, 3.0), rules, 1, rank, rd);
    RoundSettlesExactly(p, Limits(1.0, 3.0), root.hash, rank, rd, map[root.hash := 0, leaf := 1]);
    assert leaf in Missed(rd);
  }

  lemma ExampleBefore(p: Params, root: BookHash, leaf: BookHash)
    requires root != leaf
    ensures var sn := RootAndLeaf(p, root, leaf, 1.0);
            ValuesSettled(p, sn) && leaf in sn && sn[leaf].values.visits == 1.0
  {
    hide RootAndLeaf, ValueSettledAt;
    RootAndLeafHas(p, root, leaf, 1.0);
    RootIsSettled(p, root, leaf, 1.0);
    LeafIsSettled(p, root, leaf, 1.0);
    LeafVisits(p, RootAndLeaf(p, root, leaf, 1.0), leaf);
  }

  lemma RootAndLeafHas(p: Params, root: BookHash, leaf: BookHash, visits: real)
    requires root != leaf
    ensures var sn := RootAndLeaf(p, root, leaf, visits);
            sn.Keys == {root, leaf} && sn[leaf].moves == map[] && sn[leaf].inputs.own.visits == visits
  {
    hide NodeValues;
  }

  lemma ExampleWorkFacts(b: Book, key: Key, p: Params, rules: Rules, leaf: BookHash, r: Request, w: Work)
    requires ExampleWork(b, key, p, rules, leaf, r, w)
    ensures b.root.hash != leaf && r.hash == b.root.hash
    ensures WorkFits(b, key, Limits(1.0, 3.0), rules, 1, RootAndLeaf(p, b.root.hash, leaf, 1.0), r, w)
  {
  }

  lemma ExampleRound(b: Book, key: Key, p: Params, rules: Rules, rd: Round)
    requires |rd.rs| == 1 && |rd.ws| == 1 && rd.rs[0].hash == b.root.hash && b.root.hash in rd.before
    requires rd.listed == [b.root]
    requires WorkFits(b, key, Limits(1.0, 3.0), rules, 1, rd.before, rd.rs[0], rd.ws[0])
    requires WorkLists(rd.rs[0], rd.ws[0]) == {b.root.hash}
    ensures RoundFits(b, key, Limits(1.0, 3.0), rules, 1, rd.before, rd.rs, rd.ws)
    ensures RoundEdits(rd.rs, rd.ws) == WorkEdits(rd.rs[0], rd.ws[0])
    ensures HashSet(rd.listed) == {b.root.hash} == Asked(rd.before, rd.rs) + RoundLists(rd.rs, rd.ws)
  {
    hide WorkFits, WorkEdits, WorkLists, PossibleAll, ApplyAll;
    var r, w := rd.rs[0], rd.ws[0];
    NoRoundYet(b, key, Limits(1.0, 3.0), rules, 1, rd.before);
    NoEdits(rd.before);
    RoundMore(b, key, Limits(1.0, 3.0), rules, 1, rd.before, [], [], r, w);
    assert rd.rs == [r] == [] + [r] && rd.ws == [w] == [] + [w];
    assert [] + WorkEdits(r, w) == WorkEdits(r, w);
    OneListedHash(b.root);
  }

  lemma OneListedHash(node: BookNode)
    ensures HashSet([node]) == {node.hash}
  {
    assert [node][0] == node;
  }
}
