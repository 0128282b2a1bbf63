/** recompute and recomputeEverything: incremental recomputation agrees with recomputation from scratch. */
module Recompute {
  import opened BookData
  import opened ValueRules
  import opened ValueTasks
  import opened ValuePass
  import opened ValueTraversal
  import opened CostRules
  import opened CostTasks
  import CostTraversal
  import opened MarkDirty
  import opened Settled
  import opened Symmetry
  import T = Traversal

  /** What neither pass writes: search values, move targets, parents. */
  ghost function Structure(sn: Snapshot, root: BookHash): Snapshot {
    Rest(CostRest(sn, root))
  }

  // ---------------------------------------------------------------------------------------------
  // A book has one settled state

  lemma StructureKeepsShapes(sn: Snapshot, sn': Snapshot, root: BookHash)
    requires Structure(sn, root) == Structure(sn', root)
    ensures sn.Keys == sn'.Keys && ShapesOf(sn) == ShapesOf(sn')
  {
    CostRestKeepsShapes(sn, root);
    CostRestKeepsShapes(sn', root);
    RestKeepsShapes(CostRest(sn, root));
    RestKeepsShapes(CostRest(sn', root));
    assert Structure(sn, root).Keys == sn.Keys && Structure(sn', root).Keys == sn'.Keys;
  }

  lemma StrippedKids(moves: map<Loc, BookMove>)
    ensures KidsOf(StrippedMoves(moves)) == KidsOf(moves)
  {
    var locs := Util.Ascending(moves.Keys);
    assert StrippedMoves(moves).Keys == moves.Keys;
    forall i | 0 <= i < |locs| ensures KidsOf(StrippedMoves(moves))[i] == KidsOf(moves)[i] {
      assert locs[i] in locs;
      assert StrippedMoves(moves)[locs[i]] == Stripped(moves[locs[i]]);
    }
  }

  lemma CostRestKeepsShapes(sn: Snapshot, root: BookHash)
    ensures ShapesOf(CostRest(sn, root)) == ShapesOf(sn)
  {
    hide KidsOf, StrippedMoves;
    forall h | h in sn ensures ShapeOf(CostRest(sn, root)[h]) == ShapeOf(sn[h]) {
      StrippedKids(sn[h].moves);
    }
  }

  lemma SameValuesSameRest(sn: Snapshot, sn': Snapshot, root: BookHash)
    requires Structure(sn, root) == Structure(sn', root) && ValuesOf(sn) == ValuesOf(sn')
    ensures CostRest(sn, root) == CostRest(sn', root)
  {
    assert Structure(sn, root).Keys == sn.Keys && Structure(sn', root).Keys == sn'.Keys;
    forall h | h in sn ensures CostRest(sn, root)[h] == CostRest(sn', root)[h] {
      var a, b := CostRest(sn, root)[h], CostRest(sn', root)[h];
      assert Structure(sn, root)[h] == Structure(sn', root)[h];
      assert a.values == ValuesOf(sn)[h] && b.values == ValuesOf(sn')[h];
    }
  }

  /** Two books are settled at the dirty nodes and have the same values at the others. */
  ghost predicate SettledAlike(p: Params, sn: Snapshot, sn': Snapshot, dirty: set<BookHash>) {
    forall h :: h in sn ==>
      h in sn' && if h in dirty then ValueSettledAt(p, sn, h) && ValueSettledAt(p, sn', h) else sn[h].values == sn'[h].values
  }

  lemma SettledValuesAgree(p: Params, sn: Snapshot, sn': Snapshot, root: BookHash, dirty: set<BookHash>,
                           rank: map<BookHash, nat>)
    requires Linked(sn, root) && AcyclicBy(sn, rank) && Structure(sn, root) == Structure(sn', root)
    requires dirty <= sn.Keys && SettledAlike(p, sn, sn', dirty)
    ensures ValuesOf(sn) == ValuesOf(sn')
  {
    StructureKeepsShapes(sn, sn', root);
    LinkedCloses(sn, root);
    var t := ValueTask(p, ShapesOf(sn), dirty);
    ValueTaskOk(p, ShapesOf(sn), dirty);
    ValueTaskAcyclic(p, sn, dirty, rank);
    hide ShapesOf, ValueAt, Structure, Linked, AcyclicBy, T.ValidTask, T.Local, T.Acyclic;
    assert T.SettledAlike(t, ValuesOf(sn), ValuesOf(sn')) by { AlikeAsTask(p, sn, sn', dirty); }
    assert ValuesOf(sn).Keys == sn.Keys && ValuesOf(sn').Keys == sn'.Keys;
    hide ValuesOf, T.SettledAlike;
    T.SettledUnique(t, rank, ValuesOf(sn), ValuesOf(sn'));
  }

  lemma SettledAsTask(p: Params, sn: Snapshot, shapes: Shapes, dirty: set<BookHash>, h: BookHash)
    requires ShapesOf(sn) == shapes && h in sn && ValueSettledAt(p, sn, h)
    ensures T.Settled(ValueTask(p, shapes, dirty), ValuesOf(sn), h)
  {
    hide ShapesOf, ValueAt;
  }

  lemma AlikeAtAsTask(p: Params, sn: Snapshot, sn': Snapshot, dirty: set<BookHash>, h: BookHash)
    requires ShapesOf(sn) == ShapesOf(sn') && SettledAlike(p, sn, sn', dirty) && h in sn
    ensures T.AlikeAt(ValueTask(p, ShapesOf(sn), dirty), ValuesOf(sn), ValuesOf(sn'), h)
  {
    hide ShapesOf, ValueSettledAt, T.Settled;
    if h in dirty {
      SettledAsTask(p, sn, ShapesOf(sn), dirty, h);
      SettledAsTask(p, sn', ShapesOf(sn), dirty, h);
    }
  }

  lemma AlikeAsTask(p: Params, sn: Snapshot, sn': Snapshot, dirty: set<BookHash>)
    requires ShapesOf(sn) == ShapesOf(sn') && SettledAlike(p, sn, sn', dirty)
    ensures T.SettledAlike(ValueTask(p, ShapesOf(sn), dirty), ValuesOf(sn), ValuesOf(sn'))
  {
    var t := ValueTask(p, ShapesOf(sn), dirty);
    assert t.deps.Keys == sn.Keys;
    hide ShapesOf, ValuesOf, ValueTask, T.AlikeAt, SettledAlike;
    forall h | h in t.deps ensures T.AlikeAt(t, ValuesOf(sn), ValuesOf(sn'), h) {
      AlikeAtAsTask(p, sn, sn', dirty, h);
    }
  }

  lemma CostSettledAsTask(cp: CostParams, sn: Snapshot, shapes: CostShapes, root: BookHash, h: BookHash)
    requires CostShapesOf(sn, root) == shapes && h in sn && CostsSettled(cp, sn, root)
    ensures T.Settled(CostTask(cp, shapes), CostsOf(sn), h)
  {
    hide CostShapesOf, CostAt, CostOf;
  }

  lemma CostsAsTask(cp: CostParams, sn: Snapshot, sn': Snapshot, root: BookHash)
    requires CostShapesOf(sn, root) == CostShapesOf(sn', root) && sn.Keys == sn'.Keys
    requires CostsSettled(cp, sn, root) && CostsSettled(cp, sn', root)
    ensures T.SettledAlike(CostTask(cp, CostShapesOf(sn, root)), CostsOf(sn), CostsOf(sn'))
  {
    var t := CostTask(cp, CostShapesOf(sn, root));
    assert t.deps.Keys == sn.Keys && t.dirty == sn.Keys;
    hide CostShapesOf, CostsSettled, T.Settled, CostTask, CostsOf;
    forall h | h in t.deps ensures T.AlikeAt(t, CostsOf(sn), CostsOf(sn'), h) {
      CostSettledAsTask(cp, sn, CostShapesOf(sn, root), root, h);
      CostSettledAsTask(cp, sn', CostShapesOf(sn, root), root, h);
      SettledIsIn(t, CostsOf(sn), h);
      SettledIsIn(t, CostsOf(sn'), h);
    }
  }

  lemma SettledIsIn(t: T.Task<BookHash, NodeCosts>, vals: map<BookHash, NodeCosts>, h: BookHash)
    requires T.Settled(t, vals, h)
    ensures h in vals
  {
  }

  lemma SettledCostsAgree(cp: CostParams, sn: Snapshot, sn': Snapshot, root: BookHash, rank: map<BookHash, nat>)
    requires Linked(sn, root) && AcyclicBy(sn, rank) && Structure(sn, root) == Structure(sn', root)
    requires ValuesOf(sn) == ValuesOf(sn') && CostsSettled(cp, sn, root) && CostsSettled(cp, sn', root)
    ensures CostsOf(sn) == CostsOf(sn')
  {
    SameValuesSameRest(sn, sn', root);
    ShapesFromRest(sn, root);
    ShapesFromRest(sn', root);
    var t := CostTask(cp, CostShapesOf(sn, root));
    var down := CostTaskReady(cp, sn, root, rank);
    assert sn'.Keys == CostRest(sn', root).Keys == sn.Keys;
    CostsAsTask(cp, sn, sn', root);
    assert t.deps.Keys == sn.Keys && CostsOf(sn).Keys == sn.Keys && CostsOf(sn').Keys == sn'.Keys;
    hide *;
    T.SettledUnique(t, down, CostsOf(sn), CostsOf(sn'));
  }

  /** On an acyclic book the search values and the links determine all values and all costs. */
  lemma SettledBooksAgree(p: Params, cp: CostParams, sn: Snapshot, sn': Snapshot, root: BookHash,
                          rank: map<BookHash, nat>)
    requires Linked(sn, root) && AcyclicBy(sn, rank) && Structure(sn, root) == Structure(sn', root)
    requires ValuesSettled(p, sn) && ValuesSettled(p, sn') && CostsSettled(cp, sn, root) && CostsSettled(cp, sn', root)
    ensures ValuesOf(sn) == ValuesOf(sn') && CostsOf(sn) == CostsOf(sn')
  {
    hide Structure, ValueSettledAt, CostsSettled, Linked, AcyclicBy;
    assert Structure(sn, root).Keys == sn.Keys && Structure(sn', root).Keys == sn'.Keys by { SameDomain(sn, sn', root); }
    SettledValuesAgree(p, sn, sn', root, sn.Keys, rank);
    SettledCostsAgree(cp, sn, sn', root, rank);
  }

  lemma SameDomain(sn: Snapshot, sn': Snapshot, root: BookHash)
    requires Structure(sn, root) == Structure(sn', root)
    ensures Structure(sn, root).Keys == sn.Keys && Structure(sn', root).Keys == sn'.Keys && sn.Keys == sn'.Keys
  {
  }

  /** However the dirty nodes of an acyclic book were recomputed, the outcome is the same. */
  lemma RecomputedBooksAgree(p: Params, cp: CostParams, sn: Snapshot, sn1: Snapshot, sn2: Snapshot, root: BookHash,
                             dirty: set<BookHash>, rank: map<BookHash, nat>)
    requires Linked(sn, root) && AcyclicBy(sn, rank) && dirty <= sn.Keys
    requires Structure(sn1, root) == Structure(sn, root) && ValuesRecomputed(p, sn, sn1, dirty)
    requires CostsSettled(cp, sn1, root)
    requires Structure(sn2, root) == Structure(sn, root) && ValuesRecomputed(p, sn, sn2, dirty)
    requires CostsSettled(cp, sn2, root)
    ensures ValuesOf(sn1) == ValuesOf(sn2) && CostsOf(sn1) == CostsOf(sn2)
  {
    hide Structure, ValueSettledAt, CostsSettled, Linked, AcyclicBy;
    SameDomain(sn, sn1, root);
    SameDomain(sn, sn2, root);
    StructureKeepsLinks(sn, sn1, root);
    StructureKeepsRank(sn, sn1, root, rank);
    SettledValuesAgree(p, sn1, sn2, root, dirty, rank);
    SettledCostsAgree(cp, sn1, sn2, root, rank);
  }

  /**
   Recomputing the dirty nodes of an acyclic book leaves a node settled exactly if it is dirty or was
   settled before: a change at a node that nobody listed stays unnoticed.
   */
  lemma SettledExactlyWhere(p: Params, sn: Snapshot, sn': Snapshot, root: BookHash, dirty: set<BookHash>, h: BookHash)
    requires Linked(sn, root) && AncestorClosed(ParentMapOf(sn), dirty) && Structure(sn', root) == Structure(sn, root)
    requires ValuesRecomputed(p, sn, sn', dirty) && h in sn
    ensures h in sn' && (ValueSettledAt(p, sn', h) <==> h in dirty || ValueSettledAt(p, sn, h))
  {
    hide Structure, Linked, NodeValues, KidValues, AncestorClosed, KidsOf;
    StructureKeepsShapes(sn, sn', root);
    if h !in dirty {
      LinkedCloses(sn, root);
      var kids := ShapeOf(sn[h]).kids;
      assert ShapesOf(sn)[h].kids == kids && ShapesOf(sn')[h] == ShapesOf(sn)[h];
      forall i | 0 <= i < |kids| ensures kids[i].hash in sn && kids[i].hash !in dirty {
        CleanKids(sn, root, dirty, h, i);
      }
      SameKidValues(kids, ValuesOf(sn), ValuesOf(sn'));
    }
  }

  /** So the book is settled afterwards exactly if all other nodes were settled before. */
  lemma SettledIffNothingMissed(p: Params, sn: Snapshot, sn': Snapshot, root: BookHash, dirty: set<BookHash>)
    requires Linked(sn, root) && AncestorClosed(ParentMapOf(sn), dirty) && Structure(sn', root) == Structure(sn, root)
    requires ValuesRecomputed(p, sn, sn', dirty)
    ensures ValuesSettled(p, sn') <==> SettledOutside(p, sn, dirty)
  {
    hide Linked, Structure, ValuesRecomputed, AncestorClosed, ParentMapOf, ValueSettledAt;
    SameDomain(sn', sn, root);
    forall h | h in sn ensures h in sn' && (ValueSettledAt(p, sn', h) <==> h in dirty || ValueSettledAt(p, sn, h)) {
      SettledExactlyWhere(p, sn, sn', root, dirty, h);
    }
  }

  /** The children of a clean node are clean. */
  lemma CleanKids(sn: Snapshot, root: BookHash, dirty: set<BookHash>, h: BookHash, i: nat)
    requires Linked(sn, root) && AncestorClosed(ParentMapOf(sn), dirty) && h in sn && h !in dirty
    requires i < |KidsOf(sn[h].moves)|
    ensures KidsOf(sn[h].moves)[i].hash in sn && KidsOf(sn[h].moves)[i].hash !in dirty
  {
    hide Linked, KidsOf;
    var d := KidsOf(sn[h].moves)[i].hash;
    assert KidHashes(KidsOf(sn[h].moves))[i] == d;
    KidIffParent(sn, root, h, d);
    assert h in ParentMapOf(sn)[d];
  }

  // ---------------------------------------------------------------------------------------------
  // What carries over from one stage to the next

  lemma UnflaggedGivesRest(sn: Snapshot, sn': Snapshot)
    requires Unflagged(sn) == Unflagged(sn')
    ensures Rest(sn) == Rest(sn') && ValuesOf(sn) == ValuesOf(sn') && sn.Keys == sn'.Keys
      && ParentMapOf(sn) == ParentMapOf(sn')
  {
    assert Unflagged(sn).Keys == sn.Keys && Unflagged(sn').Keys == sn'.Keys;
    forall h | h in sn ensures sn[h].(flag := 0) == sn'[h].(flag := 0) {
      assert Unflagged(sn)[h] == Unflagged(sn')[h];
    }
  }

  lemma RestGivesStructure(sn: Snapshot, sn': Snapshot, root: BookHash)
    requires Rest(sn) == Rest(sn')
    ensures Structure(sn, root) == Structure(sn', root)
  {
    assert Rest(sn).Keys == sn.Keys && Rest(sn').Keys == sn'.Keys;
    forall h | h in sn ensures Structure(sn, root)[h] == Structure(sn', root)[h] {
      assert Rest(sn)[h] == Rest(sn')[h];
    }
  }

  lemma RestKeepsBestParents(sn: Snapshot, sn': Snapshot)
    requires Rest(sn) == Rest(sn') && BestParentsOk(sn)
    ensures BestParentsOk(sn')
  {
    hide BestParentInRange;
    assert Rest(sn).Keys == sn.Keys && Rest(sn').Keys == sn'.Keys;
    forall h | h in sn' ensures BestParentInRange(sn'[h]) {
      assert Rest(sn)[h] == Rest(sn')[h];
      SameBestParent(sn[h], sn'[h]);
    }
  }

  lemma SameBestParent(node: NodeState, node': NodeState)
    requires node.parents == node'.parents && node.costs == node'.costs && BestParentInRange(node)
    ensures BestParentInRange(node')
  {
  }

  lemma SameNode(sn: Snapshot, sn': Snapshot, root: BookHash, h: BookHash)
    requires Structure(sn, root) == Structure(sn', root) && h in sn
    ensures h in sn' && sn'[h].parents == sn[h].parents && sn'[h].moves.Keys == sn[h].moves.Keys
    ensures forall loc :: loc in sn[h].moves ==>
              sn'[h].moves[loc].hash == sn[h].moves[loc].hash && sn'[h].moves[loc].move == sn[h].moves[loc].move
  {
    assert Structure(sn, root).Keys == sn.Keys && Structure(sn', root).Keys == sn'.Keys;
    assert Structure(sn, root)[h] == Structure(sn', root)[h];
    assert StrippedMoves(sn[h].moves) == StrippedMoves(sn'[h].moves);
    forall loc | loc in sn[h].moves ensures Stripped(sn[h].moves[loc]) == Stripped(sn'[h].moves[loc]) {
      assert StrippedMoves(sn[h].moves)[loc] == StrippedMoves(sn'[h].moves)[loc];
    }
  }

  lemma SameRootIndex(sn: Snapshot, sn': Snapshot, root: BookHash)
    requires Structure(sn, root) == Structure(sn', root) && root in sn
    ensures root in sn' && sn'[root].costs.bestParentIdx == sn[root].costs.bestParentIdx
  {
    assert root in Structure(sn, root) && root in Structure(sn', root);
    assert Structure(sn, root)[root].costs.bestParentIdx == sn[root].costs.bestParentIdx;
    assert Structure(sn', root)[root].costs.bestParentIdx == sn'[root].costs.bestParentIdx;
  }

  lemma StructureKeepsLinks(sn: Snapshot, sn': Snapshot, root: BookHash)
    requires Structure(sn, root) == Structure(sn', root) && Linked(sn, root)
    ensures Linked(sn', root)
  {
    SameRootIndex(sn, sn', root);
    hide Structure;
    forall h | h in sn ensures h in sn' { SameNode(sn, sn', root, h); }
    forall h | h in sn' ensures h in sn { SameNode(sn', sn, root, h); }
    forall h, loc | h in sn' && loc in sn'[h].moves
      ensures var m := sn'[h].moves[loc]; m.hash in sn' && m.move == loc && loc != NULL_LOC && (h, loc) in sn'[m.hash].parents
    {
      SameNode(sn, sn', root, h);
      SameNode(sn, sn', root, sn[h].moves[loc].hash);
    }
    forall h, e | h in sn' && e in sn'[h].parents
      ensures e.0 in sn' && e.1 in sn'[e.0].moves && sn'[e.0].moves[e.1].hash == h
    {
      SameNode(sn, sn', root, h);
      SameNode(sn, sn', root, e.0);
    }
  }

  lemma StructureKeepsRank(sn: Snapshot, sn': Snapshot, root: BookHash, rank: map<BookHash, nat>)
    requires Structure(sn, root) == Structure(sn', root) && AcyclicBy(sn, rank)
    ensures AcyclicBy(sn', rank)
  {
    hide Structure;
    forall h, loc | h in sn' && loc in sn'[h].moves
      ensures h in rank && sn'[h].moves[loc].hash in rank && rank[sn'[h].moves[loc].hash] < rank[h]
    {
      SameNode(sn', sn, root, h);
    }
  }

  lemma StructureKeepsDepth(sn: Snapshot, sn': Snapshot, root: BookHash, depth: map<BookHash, nat>)
    requires Structure(sn, root) == Structure(sn', root) && RootedBy(sn, root, depth)
    ensures RootedBy(sn', root, depth)
  {
    hide Structure;
    forall h | h in sn' && h != root
      ensures h in depth && exists e :: e in sn'[h].parents && e.0 in depth && depth[e.0] < depth[h]
    {
      SameNode(sn', sn, root, h);
      var e :| e in sn[h].parents && e.0 in depth && depth[e.0] < depth[h];
      assert e in sn'[h].parents;
    }
  }

  lemma CostRestKeepsValues(sn: Snapshot, root: BookHash)
    ensures ValuesOf(CostRest(sn, root)) == ValuesOf(sn)
  {
  }

  lemma SettledFromViews(p: Params, sn: Snapshot, sn1: Snapshot, sn2: Snapshot, dirty: set<BookHash>)
    requires ValuesOf(sn1) == ValuesOf(sn2) && ShapesOf(sn1) == ShapesOf(sn2) && ValuesRecomputed(p, sn, sn1, dirty)
    ensures ValuesRecomputed(p, sn, sn2, dirty)
  {
    hide ShapesOf, ValueAt;
    assert ValuesOf(sn1).Keys == sn1.Keys && ValuesOf(sn2).Keys == sn2.Keys;
    forall h | h in sn ensures h in sn2 && if h in dirty then ValueSettledAt(p, sn2, h) else sn2[h].values == sn[h].values {
      assert h in sn1 && ValuesOf(sn1)[h] == ValuesOf(sn2)[h];
    }
  }

  lemma CostPassKeepsRecomputed(p: Params, sn: Snapshot, sn1: Snapshot, sn2: Snapshot, root: BookHash,
                                dirty: set<BookHash>)
    requires CostRest(sn1, root) == CostRest(sn2, root) && ValuesRecomputed(p, sn, sn1, dirty)
    ensures ValuesRecomputed(p, sn, sn2, dirty)
  {
    hide *;
    CostRestKeepsShapes(sn1, root);
    CostRestKeepsShapes(sn2, root);
    CostRestKeepsValues(sn1, root);
    CostRestKeepsValues(sn2, root);
    SettledFromViews(p, sn, sn1, sn2, dirty);
  }

  // ---------------------------------------------------------------------------------------------
  // The two operations

  ghost predicate DirtyIs(sn: Snapshot, changed: seq<BookNode>, k: nat, dirty: set<BookHash>)
    requires k <= |changed|
  {
    && dirty <= sn.Keys && AncestorClosed(ParentMapOf(sn), dirty)
    && (forall i :: 0 <= i < k ==> changed[i].hash in dirty)
    && (forall s :: AncestorClosed(ParentMapOf(sn), s) && (forall i :: 0 <= i < k ==> changed[i].hash in s) ==> dirty <= s)
  }

  lemma DirtyGrows(sn: Snapshot, sn': Snapshot, changed: seq<BookNode>, k: nat, dirty: set<BookHash>,
                   dirty': set<BookHash>)
    requires k < |changed| && DirtyIs(sn, changed, k, dirty) && ParentMapOf(sn) == ParentMapOf(sn')
    requires sn.Keys == sn'.Keys
    requires dirty + {changed[k].hash} <= dirty' <= sn'.Keys && AncestorClosed(ParentMapOf(sn'), dirty')
    requires forall s :: AncestorClosed(ParentMapOf(sn'), s) && dirty <= s && changed[k].hash in s ==> dirty' <= s
    ensures DirtyIs(sn', changed, k + 1, dirty')
  {
    hide AncestorClosed, ParentMapOf;
    forall s | AncestorClosed(ParentMapOf(sn'), s) && forall i :: 0 <= i < k + 1 ==> changed[i].hash in s
      ensures dirty' <= s
    {
      assert dirty <= s;
    }
  }

  lemma LinkedParentsIn(sn: Snapshot, root: BookHash)
    requires Linked(sn, root)
    ensures ParentsInBook(ParentMapOf(sn))
  {
    forall h, p | h in sn && p in ParentMapOf(sn)[h] ensures p in sn {
      var e := ParentEntry(sn, h, p);
    }
  }

  /** Mark every changed node and all its ancestors dirty: exactly the least closed set. */
  method MarkAllDirty(b: Book, changed: seq<BookNode>) returns (dirtyNodes: set<BookHash>)
    requires b.Valid() && FlagsBelow(b.Snapshot(), b.nextVisitedDoneValue)
    requires forall i :: 0 <= i < |changed| ==> changed[i] in b.nodes
    modifies b`nextVisitedDoneValue, b.nodes
    ensures b.Indexed() && Unflagged(b.Snapshot()) == old(Unflagged(b.Snapshot()))
    ensures FlagsBelow(b.Snapshot(), b.nextVisitedDoneValue) && b.nextVisitedDoneValue >= old(b.nextVisitedDoneValue)
    ensures DirtyIs(b.Snapshot(), changed, |changed|, dirtyNodes)
  {
    hide Linked, BestParentsOk, Unflagged, FlagsBelow, AncestorClosed, ParentMapOf, ParentsInBook, Book.Snapshot,
         Book.Indexed, DirtyIs;
    dirtyNodes := {};
    ghost var still := Unflagged(b.Snapshot());
    LinkedParentsIn(b.Snapshot(), b.root.hash);
    NothingDirty(b.Snapshot(), changed);
    for i := 0 to |changed|
      invariant b.nodes == old(b.nodes) && b.Indexed() && Unflagged(b.Snapshot()) == still
        && ParentsInBook(ParentMapOf(b.Snapshot()))
      invariant FlagsBelow(b.Snapshot(), b.nextVisitedDoneValue)
      invariant b.nextVisitedDoneValue >= old(b.nextVisitedDoneValue)
      invariant DirtyIs(b.Snapshot(), changed, i, dirtyNodes)
    {
      ghost var sn, dirty := b.Snapshot(), dirtyNodes;
      DirtyFacts(sn, changed, i, dirtyNodes);
      dirtyNodes := MarkAncestorsDirty(b, changed[i], dirtyNodes, b.nextVisitedDoneValue);
      b.nextVisitedDoneValue := b.nextVisitedDoneValue + 1;
      UnflaggedGivesRest(sn, b.Snapshot());
      DirtyGrows(sn, b.Snapshot(), changed, i, dirty, dirtyNodes);
    }
  }

  lemma DirtyFacts(sn: Snapshot, changed: seq<BookNode>, k: nat, dirty: set<BookHash>)
    requires k <= |changed| && DirtyIs(sn, changed, k, dirty)
    ensures dirty <= sn.Keys && AncestorClosed(ParentMapOf(sn), dirty)
  {
  }

  lemma NothingDirty(sn: Snapshot, changed: seq<BookNode>)
    ensures DirtyIs(sn, changed, 0, {})
  {
  }

  type ValueState = T.State<BookHash, RecursiveBookValues>
  type CostState = T.State<BookHash, NodeCosts>

  ghost function DirtySet(sn: Snapshot, sc: Scope): set<BookHash> {
    if sc.allDirty then sn.Keys else sc.dirtyNodes
  }

  lemma ValuePassDone(p: Params, sn: Snapshot, sn': Snapshot, root: BookHash, sc: Scope, run: seq<ValueState>,
                      depth: map<BookHash, nat>, rank: map<BookHash, nat>)
    requires Rest(sn) == Rest(sn') && ReadyFor(sn, root, DirtySet(sn, sc), depth, rank)
    requires !sc.allDirty && sc.dirtyNodes == {} ==> sn == sn'
    requires sc.allDirty || sc.dirtyNodes != {} ==>
      && run != [] && T.SoloRun(ValueTask(p, ShapesOf(sn), DirtySet(sn, sc)), {root}, [root], run) && T.Finished(T.Last(run))
      && run[0].vals == ValuesOf(sn) && T.Last(run).vals == ValuesOf(sn')
    ensures ValuesRecomputed(p, sn, sn', DirtySet(sn, sc))
  {
    hide ShapesOf, ValueTask, ValuesOf, Rest, T.Finished, T.Run, T.Initial, ValueAt;
    if sc.allDirty || sc.dirtyNodes != {} {
      ValuePassSettles(p, sn, sn', root, DirtySet(sn, sc), depth, rank, run);
    }
  }

  lemma CostPassDone(p: Params, cp: CostParams, sn: Snapshot, sn1: Snapshot, sn2: Snapshot, root: BookHash,
                     dirty: set<BookHash>, pending: seq<BookHash>, run: seq<CostState>, rank: map<BookHash, nat>)
    requires CostRest(sn1, root) == CostRest(sn2, root) && Linked(sn1, root) && AcyclicBy(sn1, rank)
    requires ValuesRecomputed(p, sn, sn1, dirty)
    requires run != [] && T.SoloRun(CostTask(cp, CostShapesOf(sn1, root)), sn1.Keys, pending, run)
    requires T.Finished(T.Last(run))
    requires run[0].vals == CostsOf(sn1) && T.Last(run).vals == CostsOf(sn2)
    ensures ValuesRecomputed(p, sn, sn2, dirty) && CostsSettled(cp, sn2, root)
  {
    hide CostRest, CostsOf, T.Finished, T.Run, T.Initial, ValuesRecomputed, CostsSettled, Linked, AcyclicBy, CostRule,
         CostShapeOf;
    CostPassKeepsRecomputed(p, sn, sn1, sn2, root, dirty);
    CostPassSettles(cp, sn1, sn2, root, rank, run);
  }

  lemma AllClosed(sn: Snapshot, root: BookHash)
    requires Linked(sn, root)
    ensures AncestorClosed(ParentMapOf(sn), sn.Keys)
  {
    LinkedParentsIn(sn, root);
  }

  /** Every node outside the dirty set would not change if it were recomputed. */
  ghost predicate SettledOutside(p: Params, sn: Snapshot, dirty: set<BookHash>) {
    forall h :: h in sn && h !in dirty ==> ValueSettledAt(p, sn, h)
  }

  /**
   Since sn the search values and moves of only these nodes have changed, and any node that was added
   is among them. New parent entries may appear anywhere.
   */
  ghost predicate ChangedOnlyAt(sn: Snapshot, sn': Snapshot, changed: set<BookHash>) {
    && (forall h :: h in sn ==> h in sn' && sn'[h].values == sn[h].values)
    && (forall h :: h in sn' && h !in changed ==>
          h in sn && sn'[h].inputs.pla == sn[h].inputs.pla && sn'[h].inputs.own == sn[h].inputs.own
          && StrippedMoves(sn'[h].moves) == StrippedMoves(sn[h].moves))
  }

  /** What was settled stays settled, except at the changed nodes. */
  lemma UntouchedStaySettled(p: Params, sn: Snapshot, sn': Snapshot, root: BookHash, stale: set<BookHash>,
                             changed: set<BookHash>)
    requires Linked(sn, root) && SettledOutside(p, sn, stale) && ChangedOnlyAt(sn, sn', changed)
    ensures SettledOutside(p, sn', stale + changed)
  {
    hide Linked, StrippedMoves, KidsOf, NodeValues, KidValues;
    LinkedCloses(sn, root);
    forall h | h in sn' && h !in stale + changed ensures ValueSettledAt(p, sn', h) {
      assert ValueSettledAt(p, sn, h);
      StrippedKids(sn[h].moves);
      StrippedKids(sn'[h].moves);
      assert ShapeOf(sn'[h]) == ShapeOf(sn[h]) == ShapesOf(sn)[h];
      SameKidValues(ShapeOf(sn[h]).kids, ValuesOf(sn), ValuesOf(sn'));
    }
  }

  lemma SameKidValues(kids: seq<Kid>, vals: map<BookHash, RecursiveBookValues>,
                      vals': map<BookHash, RecursiveBookValues>)
    requires KidsIn(kids, vals) && KidsIn(kids, vals')
    requires forall i :: 0 <= i < |kids| ==> vals'[kids[i].hash] == vals[kids[i].hash]
    ensures KidValues(kids, vals') == KidValues(kids, vals)
  {
  }

  method RunValuePass(b: Book, p: Params, sc: Scope, ghost sn: Snapshot, ghost depth: map<BookHash, nat>,
                      ghost rank: map<BookHash, nat>)
    requires b.Valid() && b.Snapshot() == sn && RootedBy(b.Snapshot(), b.root.hash, depth)
    requires FlagsBelow(b.Snapshot(), sc.doneValue)
    requires sc.dirtyNodes <= b.nodeIdx.Keys
    requires (sc.allDirty || AncestorClosed(ParentMapOf(b.Snapshot()), sc.dirtyNodes))
    modifies b.nodes
    ensures b.Indexed() && Rest(b.Snapshot()) == old(Rest(b.Snapshot())) && FlagsBelow(b.Snapshot(), sc.doneValue + 1)
    ensures AcyclicBy(sn, rank) ==> ValuesRecomputed(p, sn, b.Snapshot(), DirtySet(sn, sc))
  {
    hide Linked, BestParentsOk, RootedBy, FlagsBelow, AncestorClosed, ParentMapOf, Rest, AcyclicBy, ValuesRecomputed,
         ValueTask, ValuesOf, T.SoloRun, T.Finished, T.Last, Book.Snapshot, Book.Indexed, ShapesOf;
    RootMarked(sn, b.root.hash, sc, depth);
    ghost var t, run := IterateDirtyNodesPostOrder(b, p, sc);
    if AcyclicBy(sn, rank) {
      ReadyAfterMarking(sn, b.root.hash, sc, depth, rank);
      ValuePassDone(p, sn, b.Snapshot(), b.root.hash, sc, run, depth, rank);
    }
  }

  lemma RootMarked(sn: Snapshot, root: BookHash, sc: Scope, depth: map<BookHash, nat>)
    requires Linked(sn, root) && RootedBy(sn, root, depth) && sc.dirtyNodes <= sn.Keys
    requires sc.allDirty || AncestorClosed(ParentMapOf(sn), sc.dirtyNodes)
    ensures sc.allDirty || sc.dirtyNodes == {} || root in sc.dirtyNodes
  {
    if !sc.allDirty && sc.dirtyNodes != {} {
      var h :| h in sc.dirtyNodes;
      RootIsDirty(sn, root, sc.dirtyNodes, depth, h);
    }
  }

  lemma ReadyAfterMarking(sn: Snapshot, root: BookHash, sc: Scope, depth: map<BookHash, nat>, rank: map<BookHash, nat>)
    requires Linked(sn, root) && RootedBy(sn, root, depth) && AcyclicBy(sn, rank) && sc.dirtyNodes <= sn.Keys
    requires sc.allDirty || AncestorClosed(ParentMapOf(sn), sc.dirtyNodes)
    ensures ReadyFor(sn, root, DirtySet(sn, sc), depth, rank)
  {
    hide Linked, RootedBy, AcyclicBy, AncestorClosed, ParentMapOf;
    AllClosed(sn, root);
  }

  lemma RunOfSolo(t: T.Task<BookHash, NodeCosts>, roots: set<BookHash>, pending: seq<BookHash>, run: seq<CostState>)
    requires run != [] && T.SoloRun(t, roots, pending, run)
    ensures T.Run(t, run)
  {
  }

  method RunCostPass(b: Book, p: Params, cp: CostParams, doneValue: int, ghost sn: Snapshot, ghost sn1: Snapshot,
                     ghost dirty: set<BookHash>, ghost rank: map<BookHash, nat>)
    requires b.Valid() && b.Snapshot() == sn1 && FlagsBelow(sn1, doneValue)
    modifies b.nodes
    ensures b.Indexed() && CostRest(b.Snapshot(), b.root.hash) == CostRest(sn1, b.root.hash)
    ensures FlagsBelow(b.Snapshot(), doneValue + 1) && BestParentsOk(b.Snapshot())
    ensures AcyclicBy(sn1, rank) && ValuesRecomputed(p, sn, sn1, dirty) ==>
              ValuesRecomputed(p, sn, b.Snapshot(), dirty) && CostsSettled(cp, b.Snapshot(), b.root.hash)
  {
    hide Linked, BestParentsOk, FlagsBelow, CostRest, AcyclicBy, ValuesRecomputed, CostsSettled, CostTask, CostsOf,
         CostShapesOf, HashesOf, T.SoloRun, T.Finished, T.Last, Book.Snapshot, Book.Indexed;
    ghost var t, run := CostTraversal.IterateEntireBookPreOrder(b, cp, doneValue);
    RunOfSolo(t, sn1.Keys, HashesOf(b.nodes), run);
    CostPassGivesBestParents(cp, sn1, b.Snapshot(), b.root.hash, run);
    if AcyclicBy(sn1, rank) && ValuesRecomputed(p, sn, sn1, dirty) {
      CostPassDone(p, cp, sn, sn1, b.Snapshot(), b.root.hash, dirty, HashesOf(b.nodes), run, rank);
    }
  }

  lemma PassesKeepStructure(sn: Snapshot, sn1: Snapshot, sn2: Snapshot, root: BookHash)
    requires Rest(sn1) == Rest(sn) && CostRest(sn2, root) == CostRest(sn1, root)
    ensures Structure(sn2, root) == Structure(sn, root)
  {
    hide Rest, CostRest;
    RestGivesStructure(sn1, sn, root);
  }

  /** Recompute the values of the dirty nodes, then the costs of all nodes. */
  method RecomputeFrom(b: Book, p: Params, cp: CostParams, dirtyNodes: set<BookHash>, allDirty: bool,
                       ghost sn: Snapshot, ghost depth: map<BookHash, nat>, ghost rank: map<BookHash, nat>)
    requires b.Valid() && b.Snapshot() == sn && RootedBy(sn, b.root.hash, depth)
    requires FlagsBelow(sn, b.nextVisitedDoneValue)
    requires dirtyNodes <= b.nodeIdx.Keys && (allDirty || AncestorClosed(ParentMapOf(sn), dirtyNodes))
    modifies b`nextVisitedDoneValue, b.nodes
    ensures b.Valid() && FlagsBelow(b.Snapshot(), b.nextVisitedDoneValue)
    ensures b.nextVisitedDoneValue >= old(b.nextVisitedDoneValue)
    ensures Structure(b.Snapshot(), b.root.hash) == Structure(sn, b.root.hash)
    ensures AcyclicBy(sn, rank) ==>
              && ValuesRecomputed(p, sn, b.Snapshot(), if allDirty then sn.Keys else dirtyNodes)
              && CostsSettled(cp, b.Snapshot(), b.root.hash)
  {
    hide Linked, BestParentsOk, RootedBy, FlagsBelow, AncestorClosed, ParentMapOf, Rest, CostRest, AcyclicBy,
         ValuesRecomputed, CostsSettled, Book.Snapshot, Book.Indexed, Structure;
    var sc := Scope(dirtyNodes, allDirty, b.nextVisitedDoneValue);
    RunValuePass(b, p, sc, sn, depth, rank);
    b.nextVisitedDoneValue := b.nextVisitedDoneValue + 1;
    ghost var sn1 := b.Snapshot();
    RestGivesStructure(sn, sn1, b.root.hash);
    RestKeepsBestParents(sn, sn1);
    StructureKeepsLinks(sn, sn1, b.root.hash);
    if AcyclicBy(sn, rank) {
      StructureKeepsRank(sn, sn1, b.root.hash, rank);
    }
    RunCostPass(b, p, cp, b.nextVisitedDoneValue, sn, sn1, DirtySet(sn, sc), rank);
    b.nextVisitedDoneValue := b.nextVisitedDoneValue + 1;
    PassesKeepStructure(sn, sn1, b.Snapshot(), b.root.hash);
    StructureKeepsLinks(sn, b.Snapshot(), b.root.hash);
  }

  /** Recompute all values and all costs. */
  method RecomputeEverything(b: Book, p: Params, cp: CostParams, ghost depth: map<BookHash, nat>,
                             ghost rank: map<BookHash, nat>)
    requires b.Valid() && RootedBy(b.Snapshot(), b.root.hash, depth) && FlagsBelow(b.Snapshot(), b.nextVisitedDoneValue)
    modifies b`nextVisitedDoneValue, b.nodes
    ensures b.Valid() && FlagsBelow(b.Snapshot(), b.nextVisitedDoneValue)
    ensures b.nextVisitedDoneValue >= old(b.nextVisitedDoneValue)
    ensures Structure(b.Snapshot(), b.root.hash) == old(Structure(b.Snapshot(), b.root.hash))
    ensures old(AcyclicBy(b.Snapshot(), rank)) ==>
              ValuesSettled(p, b.Snapshot()) && CostsSettled(cp, b.Snapshot(), b.root.hash)
  {
    hide Linked, BestParentsOk, RootedBy, FlagsBelow, AncestorClosed, ParentMapOf, AcyclicBy, CostsSettled,
         Book.Snapshot, Structure, ValueSettledAt;
    ghost var sn := b.Snapshot();
    RecomputeFrom(b, p, cp, {}, true, sn, depth, rank);
    SameDomain(sn, b.Snapshot(), b.root.hash);
  }

  /**
   Recompute after some nodes changed: the listed nodes and their ancestors are settled afterwards and
   no other value changes. So if all nodes but the listed ones were settled before, then everything is
   settled afterwards, as if everything had been recomputed.
   */
  method RecomputeChanged(b: Book, p: Params, cp: CostParams, newAndChangedNodes: seq<BookNode>, ghost sn: Snapshot,
                          ghost depth: map<BookHash, nat>, ghost rank: map<BookHash, nat>)
    returns (ghost dirty: set<BookHash>)
    requires b.Valid() && b.Snapshot() == sn && RootedBy(sn, b.root.hash, depth)
    requires FlagsBelow(sn, b.nextVisitedDoneValue)
    requires forall i :: 0 <= i < |newAndChangedNodes| ==> newAndChangedNodes[i] in b.nodes
    modifies b`nextVisitedDoneValue, b.nodes
    ensures b.Valid() && FlagsBelow(b.Snapshot(), b.nextVisitedDoneValue)
    ensures b.nextVisitedDoneValue >= old(b.nextVisitedDoneValue)
    ensures Structure(b.Snapshot(), b.root.hash) == Structure(sn, b.root.hash)
    ensures DirtyIs(sn, newAndChangedNodes, |newAndChangedNodes|, dirty)
    ensures AcyclicBy(sn, rank) ==> ValuesRecomputed(p, sn, b.Snapshot(), dirty) && CostsSettled(cp, b.Snapshot(), b.root.hash)
    ensures AcyclicBy(sn, rank) && SettledOutside(p, sn, HashSet(newAndChangedNodes)) ==> ValuesSettled(p, b.Snapshot())
  {
    hide Linked, BestParentsOk, RootedBy, FlagsBelow, AncestorClosed, ParentMapOf, AcyclicBy, ValuesSettled,
         CostsSettled, Book.Snapshot, Book.Indexed, Structure, SettledOutside, Unflagged, ValuesRecomputed;
    var dirtyNodes := MarkAllDirty(b, newAndChangedNodes);
    dirty := dirtyNodes;
    ghost var sn1 := b.Snapshot();
    MarkingCarries(sn, sn1, b.root.hash, depth, rank, newAndChangedNodes, dirty);
    RecomputeFrom(b, p, cp, dirtyNodes, false, sn1, depth, rank);
    if AcyclicBy(sn, rank) {
      FlagsDoNotMatter(p, sn, sn1, b.Snapshot(), dirty);
      if SettledOutside(p, sn, HashSet(newAndChangedNodes)) {
        SettledEverywhere(p, sn, b.Snapshot(), b.root.hash, newAndChangedNodes, dirty);
      }
    }
  }

  ghost function HashSet(listed: seq<BookNode>): set<BookHash> {
    set n | n in listed :: n.hash
  }

  lemma FlagsDoNotMatter(p: Params, sn: Snapshot, sn1: Snapshot, sn2: Snapshot, dirty: set<BookHash>)
    requires Unflagged(sn) == Unflagged(sn1) && ValuesRecomputed(p, sn1, sn2, dirty)
    ensures ValuesRecomputed(p, sn, sn2, dirty)
  {
    hide Unflagged, ValueAt;
    UnflaggedGivesRest(sn, sn1);
    forall h | h in sn ensures h in sn2 && if h in dirty then ValueSettledAt(p, sn2, h) else sn2[h].values == sn[h].values {
      assert ValuesOf(sn)[h] == ValuesOf(sn1)[h];
    }
  }

  lemma SettledEverywhere(p: Params, sn: Snapshot, sn': Snapshot, root: BookHash, changed: seq<BookNode>,
                          dirty: set<BookHash>)
    requires Linked(sn, root) && Structure(sn', root) == Structure(sn, root) && ValuesRecomputed(p, sn, sn', dirty)
    requires DirtyIs(sn, changed, |changed|, dirty) && SettledOutside(p, sn, HashSet(changed))
    ensures ValuesSettled(p, sn')
  {
    hide Linked, Structure, ValuesRecomputed, AncestorClosed, ParentMapOf, ValueSettledAt;
    SameDomain(sn', sn, root);
    forall h | h in sn' ensures ValueSettledAt(p, sn', h) {
      SettledExactlyWhere(p, sn, sn', root, dirty, h);
    }
  }

  lemma MarkingCarries(sn: Snapshot, sn': Snapshot, root: BookHash, depth: map<BookHash, nat>, rank: map<BookHash, nat>,
                       changed: seq<BookNode>, dirty: set<BookHash>)
    requires Unflagged(sn) == Unflagged(sn') && Linked(sn, root) && RootedBy(sn, root, depth)
    requires DirtyIs(sn', changed, |changed|, dirty)
    ensures Structure(sn, root) == Structure(sn', root) && Linked(sn', root) && RootedBy(sn', root, depth)
    ensures DirtyIs(sn, changed, |changed|, dirty)
    ensures BestParentsOk(sn) ==> BestParentsOk(sn')
    ensures AcyclicBy(sn, rank) ==> AcyclicBy(sn', rank)
  {
    hide Linked, RootedBy, Unflagged, Structure, AcyclicBy, Rest, AncestorClosed, BestParentsOk;
    UnflaggedGivesRest(sn, sn');
    if BestParentsOk(sn) {
      RestKeepsBestParents(sn, sn');
    }
    RestGivesStructure(sn, sn', root);
    StructureKeepsLinks(sn, sn', root);
    StructureKeepsDepth(sn, sn', root, depth);
    if AcyclicBy(sn, rank) {
      StructureKeepsRank(sn, sn', root, rank);
    }
  }
}
