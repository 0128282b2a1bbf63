/**
 Saving a book, loading it and recomputing: what comes back although the file does not hold it, and
 what the file forgets.
 */
module Reloading {
  import opened Symmetry
  import opened BookData
  import opened ValueRules
  import opened ValueTasks
  import opened CostRules
  import opened CostTasks
  import opened Settled
  import opened Recompute
  import opened SaveLoad
  import opened BookFiles

  /** Loading a saved book and recomputing it gives a settled book with the saved nodes and links. */
  method LoadAndRecompute(start: Start, file: BookFile, p: Params, cp: CostParams,
                          ghost img: BookImage, ghost depth: map<BookHash, nat>, ghost rank: map<BookHash, nat>)
    returns (b: Book)
    requires Saveable(img, start) && file == FileOut(img, start.initialSymmetry)
    requires Linked(img.sn, start.hash) && RootedBy(img.sn, start.hash, depth)
    ensures fresh(b) && b.Valid() && b.root.hash == start.hash && HashesOf(b.nodes) == img.order
      && SymmetriesOf(b) == img.symmetries
    ensures Structure(b.Snapshot(), start.hash) == Structure(Restored(img).sn, start.hash)
    ensures AcyclicBy(img.sn, rank) ==> ValuesSettled(p, b.Snapshot()) && CostsSettled(cp, b.Snapshot(), start.hash)
  {
    hide Linked, BestParentsOk, RootedBy, AcyclicBy, FlagsBelow, Structure, ValuesSettled, CostsSettled, Saveable,
         FileIn, FileOut, Book.Snapshot, Book.Indexed, SymmetriesOf, HashesOf, KeptAt;
    LoadRestoresBook(img, start);
    GraphComesBack(img, start, depth, rank);
    var loaded := LoadFromStream(start, file);
    b := loaded.value;
    RecomputeEverything(b, p, cp, depth, rank);
  }

  /** The file keeps all digits of the search values. */
  ghost predicate Lossless(sn: Snapshot) {
    forall h :: h in sn ==> sn[h].inputs.own == RoundValues(sn[h].inputs.own)
  }

  /** The file does not say which nodes may no longer be expanded again; after loading all may. */
  ghost function WithFlags(sn: Snapshot): Snapshot {
    map h | h in sn :: sn[h].(inputs := sn[h].inputs.(canReExpand := true))
  }

  lemma LosslessKeepsStructure(img: BookImage, root: BookHash)
    requires Lossless(img.sn) && img.symmetries.Keys == img.sn.Keys && Linked(img.sn, root)
    ensures Structure(Restored(img).sn, root) == Structure(WithFlags(img.sn), root)
  {
    RootIndexIsZero(img.sn, root);
    hide Linked, Structure, Kept, Restored, WithFlags, Lossless;
    var back, flagged := Restored(img).sn, WithFlags(img.sn);
    RestoredKeys(img);
    SameDomains(back, flagged, root);
    forall h | h in img.sn ensures Structure(back, root)[h] == Structure(flagged, root)[h] {
      LosslessAt(img, h);
      SameStructureAt(back, flagged, root, h);
    }
    SameMaps(Structure(back, root), Structure(flagged, root));
  }

  lemma SameMaps(a: Snapshot, b: Snapshot)
    requires a.Keys == b.Keys && forall h :: h in a ==> a[h] == b[h]
    ensures a == b
  {
  }

  lemma RestoredKeys(img: BookImage)
    requires img.symmetries.Keys == img.sn.Keys
    ensures Restored(img).sn.Keys == WithFlags(img.sn).Keys == img.sn.Keys
  {
  }

  lemma LosslessAt(img: BookImage, h: BookHash)
    requires h in img.sn && Lossless(img.sn) && img.symmetries.Keys == img.sn.Keys
    ensures h in Restored(img).sn && h in WithFlags(img.sn)
    ensures var a, b := Restored(img).sn[h], WithFlags(img.sn)[h];
            && a.inputs == b.inputs && a.parents == b.parents && StrippedMoves(a.moves) == StrippedMoves(b.moves)
            && a.costs.bestParentIdx == 0 && b.costs == img.sn[h].costs
  {
    LosslessNode(img.sn[h]);
    hide RoundValues, StrippedMoves, Kept;
  }

  lemma SameStructureAt(sn: Snapshot, sn': Snapshot, root: BookHash, h: BookHash)
    requires h in sn && h in sn' && sn[h].inputs == sn'[h].inputs && sn[h].parents == sn'[h].parents
    requires StrippedMoves(sn[h].moves) == StrippedMoves(sn'[h].moves)
    requires h == root ==> sn[h].costs.bestParentIdx == sn'[h].costs.bestParentIdx
    ensures h in Structure(sn, root) && h in Structure(sn', root) && Structure(sn, root)[h] == Structure(sn', root)[h]
  {
    hide StrippedMoves;
  }

  lemma SameDomains(sn: Snapshot, sn': Snapshot, root: BookHash)
    requires sn.Keys == sn'.Keys
    ensures Structure(sn, root).Keys == Structure(sn', root).Keys == sn.Keys
  {
  }

  lemma RootIndexIsZero(sn: Snapshot, root: BookHash)
    requires Linked(sn, root)
    ensures root in sn && sn[root].costs.bestParentIdx == 0
  {
  }

  lemma LosslessNode(st: NodeState)
    requires st.inputs.own == RoundValues(st.inputs.own)
    ensures Kept(st).inputs == st.inputs.(canReExpand := true) && Kept(st).parents == st.parents
    ensures StrippedMoves(Kept(st).moves) == StrippedMoves(st.moves) && Kept(st).costs.bestParentIdx == 0
  {
    hide RoundValues, StrippedMoves;
    StrippedOnce(st.moves);
  }

  lemma StrippedOnce(moves: map<Loc, BookMove>)
    ensures StrippedMoves(StrippedMoves(moves)) == StrippedMoves(moves)
  {
  }

  /** The flags do not matter to links and values. */
  lemma FlagsKeepValues(p: Params, sn: Snapshot, root: BookHash, rank: map<BookHash, nat>)
    requires Linked(sn, root) && AcyclicBy(sn, rank)
    ensures Linked(WithFlags(sn), root) && AcyclicBy(WithFlags(sn), rank)
    ensures ValuesOf(WithFlags(sn)) == ValuesOf(sn) && ShapesOf(WithFlags(sn)) == ShapesOf(sn)
    ensures ValuesSettled(p, sn) ==> ValuesSettled(p, WithFlags(sn))
    ensures CostsOf(WithFlags(sn)) == CostsOf(sn)
  {
    FlagsKeepCosts(sn);
    FlagsKeepViews(sn);
    hide ShapesOf, ValuesOf, CostsOf, ValueAt;
    if ValuesSettled(p, sn) {
      forall h | h in WithFlags(sn) ensures ValueSettledAt(p, WithFlags(sn), h) {
        assert ValueSettledAt(p, sn, h);
      }
    }
  }

  lemma FlagsKeepViews(sn: Snapshot)
    ensures ValuesOf(WithFlags(sn)) == ValuesOf(sn) && ShapesOf(WithFlags(sn)) == ShapesOf(sn)
  {
    hide KidsOf;
  }

  lemma FlagsKeepCosts(sn: Snapshot)
    ensures CostsOf(WithFlags(sn)) == CostsOf(sn)
  {
    hide MoveCostsOf;
  }

  /**
   A settled acyclic book whose own values have few enough digits comes back with all its computed
   values, although the file holds none of them. The costs come back if and only if they are settled
   with the flags set as well.
   */
  lemma ReloadedBookIsOriginal(p: Params, cp: CostParams, img: BookImage, sn: Snapshot, root: BookHash,
                               rank: map<BookHash, nat>)
    requires img.symmetries.Keys == img.sn.Keys && Lossless(img.sn) && Linked(img.sn, root) && AcyclicBy(img.sn, rank)
    requires ValuesSettled(p, img.sn) && ValuesSettled(p, sn) && CostsSettled(cp, sn, root)
    requires Structure(sn, root) == Structure(Restored(img).sn, root)
    ensures ValuesOf(sn) == ValuesOf(img.sn)
    ensures CostsOf(sn) == CostsOf(img.sn) <==> CostsSettled(cp, WithFlags(img.sn), root)
  {
    hide Linked, AcyclicBy, Structure, ValueSettledAt, CostsSettled, Restored, Lossless, ValuesOf, CostsOf, WithFlags,
         ShapesOf;
    LosslessKeepsStructure(img, root);
    FlagsKeepValues(p, img.sn, root, rank);
    var flagged := WithFlags(img.sn);
    SameDomain(flagged, sn, root);
    SettledValuesAgree(p, flagged, sn, root, flagged.Keys, rank);
    SameValuesSameRest(flagged, sn, root);
    if CostsSettled(cp, flagged, root) {
      SettledCostsAgree(cp, flagged, sn, root, rank);
    }
    if CostsOf(sn) == CostsOf(flagged) {
      SameCostsSettled(cp, sn, flagged, root);
    }
  }

  lemma SameCostsSettled(cp: CostParams, sn: Snapshot, sn': Snapshot, root: BookHash)
    requires CostRest(sn', root) == CostRest(sn, root) && CostsOf(sn) == CostsOf(sn') && CostsSettled(cp, sn, root)
    ensures CostsSettled(cp, sn', root)
  {
    ShapesFromRest(sn, root);
    ShapesFromRest(sn', root);
    hide CostAt, CostShapesOf, CostRest, CostOf;
    assert sn'.Keys == CostsOf(sn').Keys == CostsOf(sn).Keys == sn.Keys;
    forall h | h in sn' ensures CostOf(sn'[h]) == CostAt(cp, CostShapesOf(sn', root), h, CostsOf(sn')) {
      assert CostsOf(sn)[h] == CostsOf(sn')[h];
    }
  }

  /** A node that has been expanded and still has few visits: the file forgets that it has been. */
  ghost predicate Forgotten(cp: CostParams, sn: Snapshot, h: BookHash) {
    h in sn && !sn[h].inputs.canReExpand && sn[h].values.visits <= cp.maxVisitsForReExpansion
  }

  /** Setting the flags matters only at forgotten nodes: if there is none, the costs stay settled. */
  lemma NothingForgotten(cp: CostParams, sn: Snapshot, root: BookHash)
    requires CostsSettled(cp, sn, root) && forall h :: h in sn ==> !Forgotten(cp, sn, h)
    ensures CostsSettled(cp, WithFlags(sn), root)
  {
    FlagsKeepCosts(sn);
    hide CostsOf, EntriesIn, EntriesAt;
    var flagged := WithFlags(sn);
    forall h | h in flagged ensures CostOf(flagged[h]) == CostAt(cp, CostShapesOf(flagged, root), h, CostsOf(flagged)) {
      SameRule(cp, sn, root, h);
      assert CostOf(sn[h]) == CostAt(cp, CostShapesOf(sn, root), h, CostsOf(sn));
    }
  }

  lemma SameRule(cp: CostParams, sn: Snapshot, root: BookHash, h: BookHash)
    requires h in sn && !Forgotten(cp, sn, h)
    ensures CostAt(cp, CostShapesOf(WithFlags(sn), root), h, CostsOf(sn)) == CostAt(cp, CostShapesOf(sn, root), h, CostsOf(sn))
  {
    FlaggedShape(sn, root, h);
    var shape := CostShapeOf(sn, root, h);
    assert CostShapesOf(sn, root)[h] == shape;
    assert CostShapesOf(WithFlags(sn), root)[h] == shape.(canReExpand := true);
    hide CostShapesOf, CostShapeOf, CostsOf, EntriesIn, EntriesAt;
    if EntriesIn(shape.parents, CostsOf(sn)) {
      ReadAlike(cp, shape, EntriesAt(shape.parents, CostsOf(sn)));
    }
  }

  lemma FlaggedShape(sn: Snapshot, root: BookHash, h: BookHash)
    requires h in sn
    ensures CostShapeOf(WithFlags(sn), root, h) == CostShapeOf(sn, root, h).(canReExpand := true)
  {
    FlaggedKids(sn, sn[h].moves);
    FlaggedNode(sn, h);
    hide CoreOf, KidValuesByMove, WithFlags;
  }

  lemma FlaggedNode(sn: Snapshot, h: BookHash)
    requires h in sn
    ensures h in WithFlags(sn) && WithFlags(sn)[h] == sn[h].(inputs := sn[h].inputs.(canReExpand := true))
  {
  }

  lemma FlaggedKids(sn: Snapshot, moves: map<Loc, BookMove>)
    ensures KidValuesByMove(WithFlags(sn), moves) == KidValuesByMove(sn, moves)
  {
  }

  lemma ReadAlike(cp: CostParams, shape: CostShape, entries: seq<Entry>)
    requires shape.canReExpand || !(shape.values.visits <= cp.maxVisitsForReExpansion)
    ensures NodeCostsOf(cp, shape.(canReExpand := true), entries) == NodeCostsOf(cp, shape, entries)
  {
    var flagged := shape.(canReExpand := true);
    assert AsRead(cp, flagged) == AsRead(cp, shape);
    SamePick(shape);
    hide TakeParents, WLPVMove;
  }

  lemma SamePick(shape: CostShape)
    ensures WLPVMove(shape.(canReExpand := true)) == WLPVMove(shape)
  {
    SamePickMove(shape, MoveOrder(shape), |MoveOrder(shape)|);
  }

  lemma {:induction false} SamePickMove(shape: CostShape, locs: seq<Loc>, k: nat)
    requires k <= |locs| && forall i :: 0 <= i < |locs| ==> locs[i] in shape.kidValues
    ensures PickMove(shape.(canReExpand := true), locs, k) == PickMove(shape, locs, k)
    decreases k
  {
    if k > 0 {
      SamePickMove(shape, locs, k - 1);
    }
  }

  /** Settings where only the cost of expanding a node again counts. */
  function ExampleParams(): CostParams {
    CostParams(map[], 0.0, (h, values) => false, (shape, f, wlpv, loc) => (0.0, 0.0),
               (shape: CostShape, f: FromParents, wlpv: Loc) => if shape.canReExpand then 0.0 else 1.0)
  }

  /** And it can matter at each of them: with these settings no book with a forgotten node gets its costs back. */
  lemma ForgottenFlagMatters(sn: Snapshot, root: BookHash, h: BookHash)
    requires Linked(sn, root) && CostsSettled(ExampleParams(), sn, root) && Forgotten(ExampleParams(), sn, h)
    ensures !CostsSettled(ExampleParams(), WithFlags(sn), root)
  {
    var cp, shape := ExampleParams(), CostShapeOf(sn, root, h);
    FlaggedShape(sn, root, h);
    FlagsKeepCosts(sn);
    assert CostShapesOf(sn, root)[h] == shape && CostShapesOf(WithFlags(sn), root)[h] == shape.(canReExpand := true);
    ExampleEntries(sn, root, h);
    hide CostShapesOf, CostShapeOf, CostsOf, EntriesAt, EntriesIn, Linked, OutgoingMoves, Incoming, WLPVMove;
    assert CostOf(sn[h]).expansionCost == CostAt(cp, CostShapesOf(sn, root), h, CostsOf(sn)).expansionCost == 1.0;
    assert CostAt(cp, CostShapesOf(WithFlags(sn), root), h, CostsOf(sn)).expansionCost == 0.0;
    assert CostOf(WithFlags(sn)[h]).expansionCost == 1.0;
  }

  lemma ExampleEntries(sn: Snapshot, root: BookHash, h: BookHash)
    requires Linked(sn, root) && h in sn
    ensures EntriesIn(CostShapeOf(sn, root, h).parents, CostsOf(sn))
  {
    hide CostOf;
    forall i | 0 <= i < |sn[h].parents| ensures sn[h].parents[i].0 in sn && sn[h].parents[i].1 in sn[sn[h].parents[i].0].moves {
      assert sn[h].parents[i] in sn[h].parents;
    }
    forall g | g in sn ensures CostsOf(sn)[g].moves.Keys == sn[g].moves.Keys {
      SameMoveKeys(sn[g]);
    }
  }

  lemma SameMoveKeys(node: NodeState)
    ensures CostOf(node).moves.Keys == node.moves.Keys
  {
  }

  // ---------------------------------------------------------------------------------------------
  // An actual book, out and back in

  /** What the constructor would derive again for this book. */
  function StartOf(b: Book): Start {
    Start(b.xSize, b.ySize, b.root.hash, b.root.pla, b.root.symmetries, b.initialSymmetry)
  }

  /** A consistent book can be saved, and its file belongs to it. */
  lemma ValidIsSaveable(b: Book)
    requires b.Valid()
    ensures Saveable(ImageOf(b), StartOf(b)) && RefersInside(b.Snapshot())
  {
    hide Book.Snapshot, Positions, BestParentsOk, WellFormed;
    IndexIsPositions(b);
    b.RootIn();
    b.Has(b.root);
    LinkedRefersInside(b.Snapshot(), b.root.hash);
  }

  lemma LinkedRefersInside(sn: Snapshot, root: BookHash)
    requires Linked(sn, root)
    ensures RefersInside(sn) && KeyedByMove(sn)
  {
  }

  /**
   Save a book and load the file: a fresh book with the same nodes in the same order and the same
   links; settled if acyclic; and if the file loses no digits of a settled book, with the same
   recursive values and costs.
   */
  method SaveAndReload(b: Book, p: Params, cp: CostParams, ghost depth: map<BookHash, nat>,
                       ghost rank: map<BookHash, nat>)
    returns (copy: Book)
    requires b.Valid() && RootedBy(b.Snapshot(), b.root.hash, depth)
    ensures fresh(copy) && copy.Valid() && copy.root.hash == b.root.hash
    ensures HashesOf(copy.nodes) == HashesOf(b.nodes) && SymmetriesOf(copy) == SymmetriesOf(b)
    ensures Structure(copy.Snapshot(), b.root.hash) == Structure(Restored(ImageOf(b)).sn, b.root.hash)
    ensures AcyclicBy(b.Snapshot(), rank) ==>
              ValuesSettled(p, copy.Snapshot()) && CostsSettled(cp, copy.Snapshot(), b.root.hash)
    ensures AcyclicBy(b.Snapshot(), rank) && Lossless(b.Snapshot()) && ValuesSettled(p, b.Snapshot()) ==>
              && ValuesOf(copy.Snapshot()) == ValuesOf(b.Snapshot())
              && (CostsOf(copy.Snapshot()) == CostsOf(b.Snapshot()) <==> CostsSettled(cp, WithFlags(b.Snapshot()), b.root.hash))
  {
    hide Linked, BestParentsOk, RootedBy, AcyclicBy, Structure, ValuesSettled, CostsSettled, Saveable, FileOut,
         Lossless, Restored, Book.Snapshot, Book.Indexed, SymmetriesOf, HashesOf, RefersInside, WellFormed, ValuesOf,
         CostsOf, WithFlags;
    ValidIsSaveable(b);
    ghost var img := ImageOf(b);
    var saved := SaveToStream(b);
    copy := LoadAndRecompute(StartOf(b), saved.value, p, cp, img, depth, rank);
    if AcyclicBy(img.sn, rank) && Lossless(img.sn) && ValuesSettled(p, img.sn) {
      ImageKeys(b);
      ReloadedBookIsOriginal(p, cp, img, copy.Snapshot(), b.root.hash, rank);
    }
  }

  lemma ImageKeys(b: Book)
    requires b.Indexed()
    ensures ImageOf(b).symmetries.Keys == ImageOf(b).sn.Keys
  {
  }
}
