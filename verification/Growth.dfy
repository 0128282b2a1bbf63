/**
 How a book grows: moves are added and search results stored, in any number and order, and then the
 touched nodes are handed to recompute. Whatever the edits, the book stays consistent and rooted,
 and the touched nodes are all that recompute has to be told.
 */
module Growth {
  import opened Symmetry
  import opened BookData
  import opened ValueRules
  import opened ValueTasks
  import opened CostTasks
  import opened Settled
  import opened MarkDirty
  import opened Recompute
  import opened BookViews

  datatype Edit =
    | AddMove(h: BookHash, m: BookMove, pla: Player)   // pla moves at the child
    | StoreSearch(h: BookHash, own: BookValues)
    | StopExpanding(h: BookHash)
    | StopReExpanding(h: BookHash)

  /** What an edit other than an added move writes. */
  ghost function NewInputs(inputs: NodeInputs, e: Edit): NodeInputs {
    match e
    case AddMove(_, _, _) => inputs
    case StoreSearch(_, own) => inputs.(own := own)
    case StopExpanding(_) => inputs.(canExpand := false)
    case StopReExpanding(_) => inputs.(canReExpand := false)
  }

  ghost function Apply(sn: Snapshot, e: Edit): Snapshot
    requires e.h in sn
  {
    if e.AddMove? then Extended(sn, e.h, e.m, e.pla) else sn[e.h := sn[e.h].(inputs := NewInputs(sn[e.h].inputs, e))]
  }

  /** The edited node is there; a move is stored under its own location, at a free place. */
  ghost predicate Possible(sn: Snapshot, e: Edit) {
    && e.h in sn
    && (e.AddMove? ==> e.m.move !in sn[e.h].moves && e.m.move != NULL_LOC)
  }

  /** The nodes whose values may need to be recomputed: both ends of an added move, the node of a stored search. */
  function Touches(e: Edit): set<BookHash> {
    match e
    case AddMove(h, m, _) => {h, m.hash}
    case StoreSearch(h, _) => {h}
    case StopExpanding(_) => {}
    case StopReExpanding(_) => {}
  }

  ghost predicate PossibleAll(sn: Snapshot, edits: seq<Edit>)
    decreases |edits|
  {
    edits == [] || (Possible(sn, edits[0]) && PossibleAll(Apply(sn, edits[0]), edits[1..]))
  }

  ghost function ApplyAll(sn: Snapshot, edits: seq<Edit>): Snapshot
    requires PossibleAll(sn, edits)
    decreases |edits|
  {
    if edits == [] then sn else ApplyAll(Apply(sn, edits[0]), edits[1..])
  }

  function Touched(edits: seq<Edit>): set<BookHash> {
    if edits == [] then {} else Touches(edits[0]) + Touched(edits[1..])
  }

  lemma ApplyKeepsLinked(sn: Snapshot, root: BookHash, e: Edit)
    requires Linked(sn, root) && Possible(sn, e)
    ensures Linked(Apply(sn, e), root)
  {
    hide Linking;
    if e.AddMove? {
      if e.m.hash !in sn {
        FreshKeepsLinked(sn, root, e.m.hash, e.pla);
        LinkingKeepsLinked(sn[e.m.hash := FreshState(e.pla)], root, e.h, e.m.hash, e.m.move, e.m);
      } else {
        LinkingKeepsLinked(sn, root, e.h, e.m.hash, e.m.move, e.m);
      }
    }
  }

  lemma ApplyKeepsBestParents(sn: Snapshot, e: Edit)
    requires e.h in sn && BestParentsOk(sn)
    ensures BestParentsOk(Apply(sn, e))
  {
    hide Linking, FreshState, BestParentsOk;
    if e.AddMove? {
      FreshKeepsBestParents(sn, e.m.hash, e.pla);
      LinkingKeepsBestParents(if e.m.hash in sn then sn else sn[e.m.hash := FreshState(e.pla)], e.h, e.m.hash, e.m.move,
                              e.m);
    } else {
      StoringKeepsBestParents(sn, e.h, NewInputs(sn[e.h].inputs, e));
    }
  }

  lemma StoringKeepsBestParents(sn: Snapshot, h: BookHash, inputs: NodeInputs)
    requires h in sn && BestParentsOk(sn)
    ensures BestParentsOk(sn[h := sn[h].(inputs := inputs)])
  {
  }

  lemma ApplyKeepsRooted(sn: Snapshot, root: BookHash, depth: map<BookHash, nat>, e: Edit)
    returns (depth': map<BookHash, nat>)
    requires Linked(sn, root) && RootedBy(sn, root, depth) && Possible(sn, e)
    ensures RootedBy(Apply(sn, e), root, depth')
  {
    depth' := depth;
    if e.AddMove? {
      depth' := LinkingKeepsRooted(sn, root, depth, e.h, e.m, e.pla);
    }
  }

  lemma ApplyTouchesOnly(sn: Snapshot, e: Edit)
    requires e.h in sn
    ensures ChangedOnlyAt(sn, Apply(sn, e), Touches(e))
  {
    hide StrippedMoves;
    if e.AddMove? {
      hide Linking;
      var sn1 := if e.m.hash in sn then sn else sn[e.m.hash := FreshState(e.pla)];
      LinkingTouchesOnly(sn1, e.h, e.m);
      FreshTouchesOnly(sn, e.m.hash, e.pla);
      hide FreshState;
      ChangesAddUp(sn, sn1, Apply(sn, e), if e.m.hash in sn then {} else {e.m.hash}, {e.h});
      ChangedMore(sn, Apply(sn, e), (if e.m.hash in sn then {} else {e.m.hash}) + {e.h}, Touches(e));
    }
  }

  lemma FreshTouchesOnly(sn: Snapshot, h: BookHash, pla: Player)
    ensures ChangedOnlyAt(sn, if h in sn then sn else sn[h := FreshState(pla)], if h in sn then {} else {h})
  {
    hide StrippedMoves, FreshState;
  }

  lemma LinkingTouchesOnly(sn: Snapshot, h: BookHash, m: BookMove)
    requires h in sn && m.hash in sn
    ensures ChangedOnlyAt(sn, Linking(sn, h, m.hash, m.move, m), {h})
  {
    hide StrippedMoves, Linking;
    LinkingAt(sn, h, m.hash, m.move, m);
    forall k | k in sn ensures SameFields(sn[k], Linking(sn, h, m.hash, m.move, m)[k]) {
    }
  }

  lemma ChangedMore(sn: Snapshot, sn': Snapshot, a: set<BookHash>, b: set<BookHash>)
    requires ChangedOnlyAt(sn, sn', a) && a <= b
    ensures ChangedOnlyAt(sn, sn', b)
  {
    hide StrippedMoves;
  }

  lemma ChangesAddUp(sn: Snapshot, sn1: Snapshot, sn2: Snapshot, a: set<BookHash>, b: set<BookHash>)
    requires ChangedOnlyAt(sn, sn1, a) && ChangedOnlyAt(sn1, sn2, b)
    ensures ChangedOnlyAt(sn, sn2, a + b)
  {
    hide StrippedMoves;
  }

  /** After any run of edits the book is consistent and rooted, and only the touched nodes have changed. */
  lemma {:induction false} EditsTouchOnly(sn: Snapshot, root: BookHash, depth: map<BookHash, nat>, edits: seq<Edit>)
    returns (depth': map<BookHash, nat>)
    requires Linked(sn, root) && RootedBy(sn, root, depth) && PossibleAll(sn, edits)
    ensures Linked(ApplyAll(sn, edits), root) && RootedBy(ApplyAll(sn, edits), root, depth')
    ensures ChangedOnlyAt(sn, ApplyAll(sn, edits), Touched(edits))
    decreases |edits|
  {
    hide Linked, RootedBy, Apply, StrippedMoves;
    if edits == [] {
      depth' := depth;
    } else {
      var sn1 := Apply(sn, edits[0]);
      ApplyKeepsLinked(sn, root, edits[0]);
      var depth1 := ApplyKeepsRooted(sn, root, depth, edits[0]);
      ApplyTouchesOnly(sn, edits[0]);
      depth' := EditsTouchOnly(sn1, root, depth1, edits[1..]);
      ChangesAddUp(sn, sn1, ApplyAll(sn1, edits[1..]), Touches(edits[0]), Touched(edits[1..]));
    }
  }

  /**
   An edited book is ready for incremental recomputation: all that can be unsettled is what was before
   and what was touched.
   */
  lemma EditedBookIsReady(p: Params, sn: Snapshot, root: BookHash, depth: map<BookHash, nat>, edits: seq<Edit>,
                          stale: set<BookHash>)
    returns (depth': map<BookHash, nat>)
    requires Linked(sn, root) && RootedBy(sn, root, depth) && PossibleAll(sn, edits)
    ensures Linked(ApplyAll(sn, edits), root) && RootedBy(ApplyAll(sn, edits), root, depth')
    ensures SettledOutside(p, sn, stale) ==> SettledOutside(p, ApplyAll(sn, edits), stale + Touched(edits))
  {
    hide Linked, RootedBy, SettledOutside;
    depth' := EditsTouchOnly(sn, root, depth, edits);
    if SettledOutside(p, sn, stale) {
      UntouchedStaySettled(p, sn, ApplyAll(sn, edits), root, stale, Touched(edits));
    }
  }

  /** The nodes at either end of an added move. */
  function Ends(edits: seq<Edit>): set<BookHash> {
    if edits == [] then {} else (if edits[0].AddMove? then Touches(edits[0]) else {}) + Ends(edits[1..])
  }

  lemma {:induction false} MoreEnds(edits: seq<Edit>, more: seq<Edit>)
    ensures Ends(edits + more) == Ends(edits) + Ends(more)
  {
    if edits == [] {
      assert edits + more == more;
    } else {
      MoreEnds(edits[1..], more);
      assert (edits + more)[1..] == edits[1..] + more;
    }
  }

  /** The nodes at which a search is stored. */
  function StoredAt(edits: seq<Edit>): set<BookHash> {
    if edits == [] then {} else (if edits[0].StoreSearch? then {edits[0].h} else {}) + StoredAt(edits[1..])
  }

  lemma {:induction false} MoreStored(edits: seq<Edit>, more: seq<Edit>)
    ensures StoredAt(edits + more) == StoredAt(edits) + StoredAt(more)
  {
    if edits == [] {
      assert edits + more == more;
    } else {
      MoreStored(edits[1..], more);
      assert (edits + more)[1..] == edits[1..] + more;
    }
  }

  lemma {:induction false} EndsOrStored(edits: seq<Edit>)
    ensures Touched(edits) == Ends(edits) + StoredAt(edits)
  {
    if edits != [] {
      EndsOrStored(edits[1..]);
    }
  }

  /** A node at no end of an added move keeps its moves and its values, and is neither made nor lost. */
  lemma {:induction false} NotAnEnd(sn: Snapshot, edits: seq<Edit>, h: BookHash)
    requires PossibleAll(sn, edits) && h !in Ends(edits)
    ensures h in sn <==> h in ApplyAll(sn, edits)
    ensures h in sn ==> ApplyAll(sn, edits)[h].moves == sn[h].moves && ApplyAll(sn, edits)[h].values == sn[h].values
    ensures h in sn && h !in StoredAt(edits) ==> ApplyAll(sn, edits)[h].inputs.own == sn[h].inputs.own
    ensures h in sn ==> ApplyAll(sn, edits)[h].inputs.pla == sn[h].inputs.pla
    decreases |edits|
  {
    hide FreshState;
    if edits != [] {
      var e := edits[0];
      if e.AddMove? {
        var sn1 := if e.m.hash in sn then sn else sn[e.m.hash := FreshState(e.pla)];
        LinkingAt(sn1, e.h, e.m.hash, e.m.move, e.m);
      }
      NotAnEnd(Apply(sn, e), edits[1..], h);
    }
  }

  // ---------------------------------------------------------------------------------------------
  // A search stored at a leaf that is not listed

  /** A leaf is marked dirty only if it is listed itself. */
  lemma LeafIsDirtyIfListed(sn: Snapshot, root: BookHash, listed: seq<BookNode>, dirty: set<BookHash>, h: BookHash)
    requires Linked(sn, root) && DirtyIs(sn, listed, |listed|, dirty) && h in sn && sn[h].moves == map[]
    ensures h in dirty <==> h in HashSet(listed)
  {
    hide Linked, ParentMapOf;
    if h !in HashSet(listed) {
      var rest := dirty - {h};
      forall d, q | d in rest && d in ParentMapOf(sn) && q in ParentMapOf(sn)[d] ensures q in rest {
        if q == h {
          LeafHasNoKids(sn, root, h, d);
        }
      }
      assert dirty <= rest;
    }
  }

  lemma LeafHasNoKids(sn: Snapshot, root: BookHash, h: BookHash, d: BookHash)
    requires Linked(sn, root) && h in sn && d in sn && sn[h].moves == map[]
    ensures h !in ParentMapOf(sn)[d]
  {
    if h in ParentMapOf(sn)[d] {
      var e := ParentEntry(sn, d, h);
      assert false;
    }
  }

  /** The visits of a settled leaf are those of its own search. */
  lemma LeafVisits(p: Params, sn: Snapshot, h: BookHash)
    requires h in sn && sn[h].moves == map[] && ValueSettledAt(p, sn, h)
    ensures sn[h].values.visits == sn[h].inputs.own.visits
  {
    hide NotInBook, CappedVisits, SortItems;
    var shape := ShapeOf(sn[h]);
    assert sn[h].moves.Keys == {};
    NoKids(sn[h].moves);
    assert ShapesOf(sn)[h] == shape && KidValues(shape.kids, ValuesOf(sn)) == [];
    NotInBookVisits(p, shape.own);
  }

  lemma NoKids(moves: map<Loc, BookMove>)
    requires moves == map[]
    ensures KidsOf(moves) == []
  {
  }

  lemma NotInBookVisits(p: Params, own: BookValues)
    ensures NotInBook(p, own).visits == own.visits
  {
  }

  /**
   Storing a search with more visits at a leaf is noticed by incremental recomputation if and only if
   the leaf is listed. Otherwise the leaf keeps its old values.
   */
  lemma SearchNoticedIffListed(p: Params, sn: Snapshot, sn': Snapshot, root: BookHash, listed: seq<BookNode>,
                               dirty: set<BookHash>, h: BookHash)
    requires Linked(sn, root) && DirtyIs(sn, listed, |listed|, dirty) && h in sn && sn[h].moves == map[]
    requires sn[h].values.visits < sn[h].inputs.own.visits
    requires Structure(sn', root) == Structure(sn, root) && ValuesRecomputed(p, sn, sn', dirty)
    ensures h in sn' && (ValueSettledAt(p, sn', h) <==> h in HashSet(listed))
    ensures h !in HashSet(listed) ==> sn'[h].values == sn[h].values && !ValuesSettled(p, sn')
  {
    hide Linked, Structure, ValueSettledAt, ParentMapOf, AncestorClosed;
    LeafIsDirtyIfListed(sn, root, listed, dirty, h);
    SettledExactlyWhere(p, sn, sn', root, dirty, h);
    if ValueSettledAt(p, sn, h) {
      LeafVisits(p, sn, h);
    }
  }

  lemma ApplyKeepsFlags(sn: Snapshot, v: int, e: Edit)
    requires e.h in sn && FlagsBelow(sn, v) && v >= 1
    ensures FlagsBelow(Apply(sn, e), v)
  {
  }

  lemma OneEdit(sn: Snapshot, e: Edit)
    requires Possible(sn, e)
    ensures PossibleAll(sn, [e]) && ApplyAll(sn, [e]) == Apply(sn, e) && Touched([e]) == Touches(e)
  {
    hide Apply;
    assert [e][1..] == [];
    assert PossibleAll(Apply(sn, e), []) && ApplyAll(Apply(sn, e), []) == Apply(sn, e) && Touched([]) == {};
  }

  lemma {:induction false} MoreEdits(sn: Snapshot, edits: seq<Edit>, more: seq<Edit>)
    requires PossibleAll(sn, edits) && PossibleAll(ApplyAll(sn, edits), more)
    ensures PossibleAll(sn, edits + more) && ApplyAll(sn, edits + more) == ApplyAll(ApplyAll(sn, edits), more)
    ensures Touched(edits + more) == Touched(edits) + Touched(more)
    decreases |edits|
  {
    hide Apply;
    if edits == [] {
      assert edits + more == more;
    } else {
      MoreEdits(Apply(sn, edits[0]), edits[1..], more);
      assert (edits + more)[1..] == edits[1..] + more;
    }
  }

  /** Edits add links and never take one away. */
  lemma {:induction false} EditsKeepEdges(sn: Snapshot, edits: seq<Edit>, rank: map<BookHash, nat>)
    requires PossibleAll(sn, edits) && AcyclicBy(ApplyAll(sn, edits), rank)
    ensures AcyclicBy(sn, rank)
    decreases |edits|
  {
    hide Apply, AcyclicBy;
    if edits != [] {
      EditsKeepEdges(Apply(sn, edits[0]), edits[1..], rank);
      EditKeepsEdges(sn, edits[0], rank);
    }
  }

  lemma EditKeepsMoves(sn: Snapshot, e: Edit, h: BookHash, loc: Loc)
    requires Possible(sn, e) && h in sn && loc in sn[h].moves
    ensures h in Apply(sn, e) && loc in Apply(sn, e)[h].moves && Apply(sn, e)[h].moves[loc] == sn[h].moves[loc]
  {
    hide FreshState;
    if e.AddMove? {
      LinkingAt(if e.m.hash in sn then sn else sn[e.m.hash := FreshState(e.pla)], e.h, e.m.hash, e.m.move, e.m);
    }
  }

  lemma EditKeepsEdges(sn: Snapshot, e: Edit, rank: map<BookHash, nat>)
    requires Possible(sn, e) && AcyclicBy(Apply(sn, e), rank)
    ensures AcyclicBy(sn, rank)
  {
    hide Apply;
    forall h, loc | h in sn && loc in sn[h].moves
      ensures h in rank && sn[h].moves[loc].hash in rank && rank[sn[h].moves[loc].hash] < rank[h]
    {
      EditKeepsMoves(sn, e, h, loc);
    }
  }

  lemma AddIsPossible(sn: Snapshot, h: BookHash, m: BookMove, pla: Player, v: int)
    requires h in sn && m.move !in sn[h].moves && m.move != NULL_LOC && FlagsBelow(sn, v) && v >= 1
    ensures Possible(sn, AddMove(h, m, pla)) && Apply(sn, AddMove(h, m, pla)) == Extended(sn, h, m, pla)
    ensures FlagsBelow(Extended(sn, h, m, pla), v)
  {
    hide Extended, FlagsBelow;
    ApplyKeepsFlags(sn, v, AddMove(h, m, pla));
  }

  lemma StoreIsPossible(sn: Snapshot, e: Edit)
    requires !e.AddMove? && e.h in sn
    ensures Possible(sn, e)
  {
  }
}
