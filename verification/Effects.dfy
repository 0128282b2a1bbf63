/** What recording, searching again and a whole request leave at each node, field by field. */
module Effects {
  import opened Symmetry
  import opened BookData
  import opened BookViews
  import opened Growth
  import opened Views
  import opened Recompute
  import opened Visits
  import opened Recording
  import opened Rounds
  import opened Recorded
  import opened Walks

  // ---------------------------------------------------------------------------------------------
  // One edit

  /** The node is there, with these moves, inputs and values. */
  ghost predicate NodeIs(sn: Snapshot, h: BookHash, moves: map<Loc, BookMove>, inputs: NodeInputs,
                         values: RecursiveBookValues) {
    h in sn && sn[h].moves == moves && sn[h].inputs == inputs && sn[h].values == values
  }

  /** The node's inputs after an edit. */
  ghost function InputsAfter(inputs: NodeInputs, e: Edit, h: BookHash): NodeInputs {
    if e.h != h then inputs
    else
      match e
      case AddMove(_, _, _) => inputs
      case StoreSearch(_, own) => NodeInputs(inputs.pla, own, inputs.canExpand, inputs.canReExpand)
      case StopExpanding(_) => NodeInputs(inputs.pla, inputs.own, false, inputs.canReExpand)
      case StopReExpanding(_) => NodeInputs(inputs.pla, inputs.own, inputs.canExpand, false)
  }

  lemma EditAt(sn: Snapshot, e: Edit, h: BookHash)
    requires Possible(sn, e) && h in sn
    ensures NodeIs(Apply(sn, e), h, if e.AddMove? && e.h == h then sn[h].moves[e.m.move := e.m] else sn[h].moves,
                   InputsAfter(sn[h].inputs, e, h), sn[h].values)
  {
    hide FreshState;
    if e.AddMove? {
      LinkingAt(if e.m.hash in sn then sn else sn[e.m.hash := FreshState(e.pla)], e.h, e.m.hash, e.m.move, e.m);
    }
  }

  lemma EditEnters(sn: Snapshot, e: Edit, h: BookHash)
    requires Possible(sn, e) && h !in sn
    ensures h in Apply(sn, e) <==> e.AddMove? && e.m.hash == h
    ensures h in Apply(sn, e) ==> NodeIs(Apply(sn, e), h, map[], FreshState(e.pla).inputs, FreshState(e.pla).values)
  {
    if e.AddMove? {
      LinkingAt(sn[e.m.hash := FreshState(e.pla)], e.h, e.m.hash, e.m.move, e.m);
    }
  }

  /** The node's inputs after some edits. */
  ghost function InputsAfterAll(inputs: NodeInputs, edits: seq<Edit>, h: BookHash): NodeInputs
    decreases |edits|
  {
    if edits == [] then inputs else InputsAfterAll(InputsAfter(inputs, edits[0], h), edits[1..], h)
  }

  ghost predicate OnlyInputs(edits: seq<Edit>) { forall i :: 0 <= i < |edits| ==> !edits[i].AddMove? }

  lemma {:induction false} InputEditsAt(sn: Snapshot, edits: seq<Edit>, h: BookHash)
    requires PossibleAll(sn, edits) && OnlyInputs(edits)
    ensures ApplyAll(sn, edits).Keys == sn.Keys
    ensures h in sn ==> NodeIs(ApplyAll(sn, edits), h, sn[h].moves, InputsAfterAll(sn[h].inputs, edits, h), sn[h].values)
    decreases |edits|
  {
    hide InputsAfter, Extended;
    if edits != [] {
      if h in sn {
        EditAt(sn, edits[0], h);
      }
      InputEditsAt(Apply(sn, edits[0]), edits[1..], h);
    }
  }

  // ---------------------------------------------------------------------------------------------
  // One visit

  /** The child of the visit is new, or it stays a leaf that has fewer visits than the search gave it. */
  ghost predicate TakesSearch(sn: Snapshot, x: Visit, h: BookHash) {
    && !x.Unplayable? && h == x.child.node.hash
    && (h !in sn || (sn[h].moves == map[] && !(x.Added? && h == x.at.node.hash) && sn[h].values.visits < x.found.visits))
  }

  /** The move may not be played. */
  ghost predicate Closes(x: Visit) { x.Unplayable? || (x.Known? && !x.legal) }

  /** A node's inputs after a visit. */
  ghost function InputsAfterVisit(sn: Snapshot, x: Visit, inputs: NodeInputs, h: BookHash): NodeInputs {
    NodeInputs(inputs.pla, if TakesSearch(sn, x, h) then x.found.own else inputs.own,
               inputs.canExpand && !(Closes(x) && h == x.at.node.hash), inputs.canReExpand)
  }

  /**
   A visit stores the search at its child if that is new or a shallower leaf, closes its node if the move
   may not be played, enters an added move and its child, and does nothing else to any node.
   */
  lemma VisitEffect(b: Book, sn: Snapshot, x: Visit, h: BookHash)
    requires VisitOk(b, sn, x)
    ensures PossibleAll(sn, VisitEdits(x))
    ensures var after := ApplyAll(sn, VisitEdits(x));
      && (h in after <==> h in sn || (x.Added? && h == x.child.node.hash))
      && (h in sn ==>
            NodeIs(after, h, if x.Added? && h == x.at.node.hash then sn[h].moves[x.m.move := x.m] else sn[h].moves,
                   InputsAfterVisit(sn, x, sn[h].inputs, h), sn[h].values))
      && (h in after && h !in sn ==>
            NodeIs(after, h, map[], InputsAfterVisit(sn, x, FreshState(x.pla).inputs, h), FreshState(x.pla).values))
  {
    hide HasMove, PossibleAll, ApplyAll, Apply, FreshState, Possible, Follow;
    VisitPossible(b, sn, x);
    match x
    case Unplayable(at, _) =>
      OneInputEdit(sn, StopExpanding(at.node.hash), h);
    case Known(at, found, child, legal, stored, _) =>
      var closing := if legal then [] else [StopExpanding(at.node.hash)];
      InputEditsAt(sn, closing + StoreIf(stored, child.node.hash, found.own), h);
      if h in sn {
        FoldTwo(sn[h].inputs, legal, at.node.hash, stored, child.node.hash, found.own, h);
      }
    case Added(at, found, child, m, pla, stored, _) =>
      AddedEffect(sn, AddMove(at.node.hash, m, pla), stored, found, h);
  }

  lemma OneInputEdit(sn: Snapshot, e: Edit, h: BookHash)
    requires PossibleAll(sn, [e]) && !e.AddMove?
    ensures ApplyAll(sn, [e]).Keys == sn.Keys
    ensures h in sn ==> NodeIs(ApplyAll(sn, [e]), h, sn[h].moves, InputsAfter(sn[h].inputs, e, h), sn[h].values)
  {
    hide PossibleAll, ApplyAll;
    InputEditsAt(sn, [e], h);
    if h in sn {
      assert InputsAfterAll(sn[h].inputs, [e], h) == InputsAfter(sn[h].inputs, e, h) by { FoldOne(sn[h].inputs, e, h); }
    }
  }

  lemma FoldOne(inputs: NodeInputs, e: Edit, h: BookHash)
    ensures InputsAfterAll(inputs, [e], h) == InputsAfter(inputs, e, h)
    ensures InputsAfterAll(inputs, [], h) == inputs
  {
    hide InputsAfter;
    assert [e][1..] == [] && [e][0] == e;
  }

  lemma {:induction false} FoldMore(inputs: NodeInputs, edits: seq<Edit>, more: seq<Edit>, h: BookHash)
    ensures InputsAfterAll(inputs, edits + more, h) == InputsAfterAll(InputsAfterAll(inputs, edits, h), more, h)
    decreases |edits|
  {
    hide InputsAfter;
    if edits == [] {
      assert edits + more == more;
    } else {
      assert (edits + more)[1..] == edits[1..] + more && (edits + more)[0] == edits[0];
      FoldMore(InputsAfter(inputs, edits[0], h), edits[1..], more, h);
    }
  }

  lemma FoldTwo(inputs: NodeInputs, legal: bool, at: BookHash, stored: bool, child: BookHash, own: BookValues, h: BookHash)
    ensures InputsAfterAll(inputs, (if legal then [] else [StopExpanding(at)]) + StoreIf(stored, child, own), h)
         == NodeInputs(inputs.pla, if stored && h == child then own else inputs.own,
                       inputs.canExpand && (legal || h != at), inputs.canReExpand)
  {
    var closing := if legal then [] else [StopExpanding(at)];
    var between := InputsAfterAll(inputs, closing, h);
    FoldMore(inputs, closing, StoreIf(stored, child, own), h);
    FoldOne(inputs, StopExpanding(at), h);
    FoldOne(between, StoreSearch(child, own), h);
    hide InputsAfterAll;
  }

  lemma AddedEffect(sn: Snapshot, e: Edit, stored: bool, found: Found, h: BookHash)
    requires e.AddMove? && Possible(sn, e) && PossibleAll(sn, [e] + StoreIf(stored, e.m.hash, found.own))
    requires stored <==> e.m.hash !in sn || Shallower(Apply(sn, e), e.m.hash, found.visits)
    ensures var after := ApplyAll(sn, [e] + StoreIf(stored, e.m.hash, found.own));
      var takes := h == e.m.hash && (h !in sn || (sn[h].moves == map[] && h != e.h && sn[h].values.visits < found.visits));
      && (h in after <==> h in sn || h == e.m.hash)
      && (h in sn ==>
            NodeIs(after, h, if h == e.h then sn[h].moves[e.m.move := e.m] else sn[h].moves,
                   sn[h].inputs.(own := if takes then found.own else sn[h].inputs.own), sn[h].values))
      && (h in after && h !in sn ==>
            NodeIs(after, h, map[], FreshState(e.pla).inputs.(own := found.own), FreshState(e.pla).values))
  {
    PossibleIn(sn, e);
    hide PossibleAll, ApplyAll, Apply, FreshState, Possible;
    OneEdit(sn, e);
    SplitEdits(sn, [e], StoreIf(stored, e.m.hash, found.own));
    var sn1 := Apply(sn, e);
    StoredEffect(sn1, stored, e.m.hash, found.own, h);
    if h in sn {
      EditAt(sn, e, h);
    } else {
      EditEnters(sn, e, h);
    }
    assert h in sn1 && h == e.h ==> sn1[h].moves != map[] by {
      if h in sn1 && h == e.h {
        assert e.m.move in sn1[h].moves;
      }
    }
  }

  lemma PossibleIn(sn: Snapshot, e: Edit)
    requires Possible(sn, e)
    ensures e.h in sn
  {
  }

  lemma StoredEffect(sn: Snapshot, stored: bool, c: BookHash, own: BookValues, h: BookHash)
    requires PossibleAll(sn, StoreIf(stored, c, own))
    ensures ApplyAll(sn, StoreIf(stored, c, own)).Keys == sn.Keys
    ensures h in sn ==>
      NodeIs(ApplyAll(sn, StoreIf(stored, c, own)), h, sn[h].moves,
             sn[h].inputs.(own := if stored && h == c then own else sn[h].inputs.own), sn[h].values)
  {
    hide PossibleAll, ApplyAll;
    if stored {
      OneInputEdit(sn, StoreSearch(c, own), h);
    } else {
      NoEdits(sn);
    }
  }

  // ---------------------------------------------------------------------------------------------
  // Searching again, and whole requests

  lemma AgainOnlyInputs(nodes: seq<BookNode>, again: BookHash -> Searched)
    ensures OnlyInputs(AgainEdits(nodes, again))
  {
    if nodes != [] {
      AgainOnlyInputs(nodes[..|nodes| - 1], again);
    }
  }

  /** A node's inputs after it has been searched again. */
  ghost function InputsSearched(inputs: NodeInputs, result: Searched): NodeInputs {
    NodeInputs(inputs.pla, result.own, inputs.canExpand && !result.noMoves, inputs.canReExpand)
  }

  lemma OneAgainFold(inputs: NodeInputs, g: BookHash, result: Searched, h: BookHash)
    ensures InputsAfterAll(inputs, OneAgain(g, result), h) == if g == h then InputsSearched(inputs, result) else inputs
  {
    FoldOne(inputs, StoreSearch(g, result.own), h);
    var stored := InputsAfter(inputs, StoreSearch(g, result.own), h);
    if result.noMoves {
      FoldMore(inputs, [StoreSearch(g, result.own)], [StopExpanding(g)], h);
      FoldOne(stored, StopExpanding(g), h);
    } else {
      assert [StoreSearch(g, result.own)] + [] == [StoreSearch(g, result.own)];
    }
    hide InputsAfterAll;
  }

  lemma {:induction false} AgainFold(inputs: NodeInputs, nodes: seq<BookNode>, again: BookHash -> Searched, h: BookHash)
    ensures InputsAfterAll(inputs, AgainEdits(nodes, again), h)
         == if h in HashSet(nodes) then InputsSearched(inputs, again(h)) else inputs
  {
    hide InputsAfterAll, OneAgain;
    if nodes == [] {
      FoldOne(inputs, StopExpanding(h), h);
    } else {
      var init, last := nodes[..|nodes| - 1], nodes[|nodes| - 1];
      AgainFold(inputs, init, again, h);
      FoldMore(inputs, AgainEdits(init, again), OneAgain(last.hash, again(last.hash)), h);
      OneAgainFold(InputsAfterAll(inputs, AgainEdits(init, again), h), last.hash, again(last.hash), h);
      assert init + [last] == nodes;
      assert HashSet(nodes) == HashSet(init) + {last.hash};
    }
  }

  /** Searching nodes again replaces their searches, closes those without further moves, and leaves all else. */
  lemma AgainEffect(sn: Snapshot, nodes: seq<BookNode>, again: BookHash -> Searched, h: BookHash)
    requires PossibleAll(sn, AgainEdits(nodes, again))
    ensures ApplyAll(sn, AgainEdits(nodes, again)).Keys == sn.Keys
    ensures h in sn ==>
      NodeIs(ApplyAll(sn, AgainEdits(nodes, again)), h, sn[h].moves,
             if h in HashSet(nodes) then InputsSearched(sn[h].inputs, again(h)) else sn[h].inputs, sn[h].values)
  {
    AgainOnlyInputs(nodes, again);
    InputEditsAt(sn, AgainEdits(nodes, again), h);
    if h in sn {
      AgainFold(sn[h].inputs, nodes, again, h);
    }
  }

  /**
   What a request leaves: a closed node may not be expanded; an abandoned request changes nothing; after a
   recorded search, on top of the recording, the noted nodes hold their new searches, and the expanded node
   may not be searched again as a whole.
   */
  lemma WorkEffect(sn: Snapshot, r: Request, w: Work, h: BookHash)
    requires PossibleAll(sn, WorkEdits(r, w))
    ensures w.Absent? || w.Abandoned? ==> ApplyAll(sn, WorkEdits(r, w)) == sn
    ensures w.Closed? ==> ApplyAll(sn, WorkEdits(r, w)).Keys == sn.Keys
    ensures w.Closed? && h in sn ==>
      NodeIs(ApplyAll(sn, WorkEdits(r, w)), h, sn[h].moves,
             sn[h].inputs.(canExpand := sn[h].inputs.canExpand && h != r.hash), sn[h].values)
    ensures w.Recorded? ==>
      PossibleAll(sn, EditsOf(VisitsOf(w.t))) &&
      var recorded, after := ApplyAll(sn, EditsOf(VisitsOf(w.t))), ApplyAll(sn, WorkEdits(r, w));
      && after.Keys == recorded.Keys
      && (h in recorded ==>
            var inputs := if h in HashSet(w.searched) then InputsSearched(recorded[h].inputs, r.again(h)) else recorded[h].inputs;
            NodeIs(after, h, recorded[h].moves, inputs.(canReExpand := inputs.canReExpand && h != r.hash), recorded[h].values))
  {
    hide PossibleAll, ApplyAll, AgainEdits, EditsOf, VisitsOf, InputsSearched, HashSet;
    match w
    case Absent => NoEdits(sn);
    case Abandoned(_, _, _) => NoEdits(sn);
    case Closed(_, _, _) => OneInputEdit(sn, StopExpanding(r.hash), h);
    case Recorded(_, _, _, t, _, searched) =>
      SplitEdits(sn, EditsOf(VisitsOf(t)) + AgainEdits(searched, r.again), [StopReExpanding(r.hash)]);
      SplitEdits(sn, EditsOf(VisitsOf(t)), AgainEdits(searched, r.again));
      var recorded := ApplyAll(sn, EditsOf(VisitsOf(t)));
      AgainEffect(recorded, searched, r.again, h);
      OneInputEdit(ApplyAll(recorded, AgainEdits(searched, r.again)), StopReExpanding(r.hash), h);
  }

  /** Where the recording of a request's search starts. */
  ghost function StartOf(r: Request, w: Work, maxDepth: nat): Place
    requires r.outcome.Finished? && w.Recorded?
  {
    Place(r.outcome.s, w.at, w.h, maxDepth, {}, w.t)
  }

  /**
   After a request whose search was recorded, at every search node gone into, each legal move that is the
   best or has enough visits can be followed.
   */
  lemma RequestRecordsWanted(b: Book, key: Key, lim: Limits, rules: Rules, maxDepth: nat, sn: Snapshot, r: Request,
                             w: Work, path: seq<nat>, to: Place, i: nat)
    requires WorkFits(b, key, lim, rules, maxDepth, sn, r, w) && w.Recorded? && r.outcome.Finished?
    requires GoesInto(StartOf(r, w, maxDepth), lim, rules, path, to)
    requires i < |to.s.children| && rules.legal(to.h, to.s.children[i].found.move)
    requires to.s.children[i].found.move == to.s.best || to.s.children[i].found.visits >= lim.leafVisits
    ensures PossibleAll(sn, WorkEdits(r, w))
    ensures HasMove(b, ApplyAll(sn, WorkEdits(r, w)), to.v, to.s.children[i].found.move)
  {
    hide PossibleAll, ApplyAll, AgainEdits, EditsOf, VisitsUpTo, HasMove, GoesInto, TraceFits, VisitsOk, Reached,
         HasToClose;
    assert FitsAt(StartOf(r, w, maxDepth), lim, rules, w.seen);
    WantedMovesAreRecorded(b, sn, StartOf(r, w, maxDepth), lim, rules, w.seen, path, to, i);
    var first, rest := EditsOf(VisitsOf(w.t)), AgainEdits(w.searched, r.again) + [StopReExpanding(r.hash)];
    assert WorkEdits(r, w) == first + rest;
    SplitEdits(sn, first, rest);
    HasMoveStays(b, ApplyAll(sn, first), rest, to.v, to.s.children[i].found.move);
  }

  /** And every move it added is such a move. */
  lemma RequestAddsOnlyWanted(b: Book, key: Key, lim: Limits, rules: Rules, maxDepth: nat, sn: Snapshot, r: Request,
                              w: Work, h: BookHash, loc: Loc)
    returns (x: Visit, path: seq<nat>, to: Place, i: nat)
    requires WorkFits(b, key, lim, rules, maxDepth, sn, r, w) && PossibleAll(sn, WorkEdits(r, w))
    requires HasNow(ApplyAll(sn, WorkEdits(r, w)), h, loc) && !HasNow(sn, h, loc)
    ensures w.Recorded? && r.outcome.Finished? && GoesInto(StartOf(r, w, maxDepth), lim, rules, path, to)
    ensures x.Added? && x.m.move == loc && x.at.node.hash == h && to.v == x.at
    ensures i < |to.s.children| && x.found == to.s.children[i].found && rules.legal(to.h, x.found.move)
    ensures x.found.move == to.s.best || x.found.visits >= lim.leafVisits
  {
    hide PossibleAll, ApplyAll, AgainEdits, EditsOf, VisitsUpTo, HasMove, GoesInto, TraceFits, VisitsOk, Reached,
         HasToClose;
    NoEdits(sn);
    WorkEffect(sn, r, w, h);
    if w.Recorded? {
      assert FitsAt(StartOf(r, w, maxDepth), lim, rules, w.seen);
      x, path, to, i := NewMovesAreWanted(b, sn, StartOf(r, w, maxDepth), lim, rules, w.seen, h, loc);
    }
  }
}
