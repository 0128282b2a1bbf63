/**
 What recording a finished search amounts to, edit by edit. A visit is one move of the search and what
 became of it; a trace is the visits of a whole search tree. The visits determine the edits, the nodes
 listed for recomputation and the nodes searched again.
 */
module Visits {
  import opened Util
  import opened Symmetry
  import opened BookData
  import opened Views
  import opened BookViews
  import opened Hashing
  import opened Walks
  import opened Growth

  /** A move of a finished search, with the values and visits of its subtree. */
  datatype Found = Found(move: Loc, rawPolicy: real, own: BookValues, visits: real)

  /** A node of a finished search; transpositions make nodes with equal ids. */
  datatype SearchNode = SearchNode(id: int, best: Loc, children: seq<SearchChild>)

  datatype SearchChild = SearchChild(found: Found, node: SearchNode)

  /** A quick search of one node without the moves in the book; noMoves if there are no others. */
  datatype Searched = Searched(own: BookValues, noMoves: bool)

  /** maxVisitsForLeaves and minTreeVisitsToRecord. */
  datatype Limits = Limits(leafVisits: real, treeVisits: real)

  /** The game: its initial position and what the rules say. */
  datatype Rules = Rules(
    initial: History,
    legal: (History, Loc) -> bool,
    replayable: (seq<Loc>, Loc) -> bool,   // may the move be played after these, on the way to the node?
    finished: History -> bool)

  /** One move of a search at a view, and what was done with it. */
  datatype Visit =
    | Unplayable(at: View, found: Found)
    | Added(at: View, found: Found, child: View, m: BookMove, pla: Player, stored: bool, recursed: bool)
    | Known(at: View, found: Found, child: View, legal: bool, stored: bool, recursed: bool)

  // ---------------------------------------------------------------------------------------------
  // The edits of a visit

  function StoreIf(stored: bool, h: BookHash, own: BookValues): seq<Edit> {
    if stored then [StoreSearch(h, own)] else []
  }

  function VisitEdits(x: Visit): seq<Edit> {
    match x
    case Unplayable(at, _) => [StopExpanding(at.node.hash)]
    case Added(at, found, child, m, pla, stored, _) =>
      [AddMove(at.node.hash, m, pla)] + StoreIf(stored, child.node.hash, found.own)
    case Known(at, found, child, legal, stored, _) =>
      (if legal then [] else [StopExpanding(at.node.hash)]) + StoreIf(stored, child.node.hash, found.own)
  }

  /** A leaf with fewer visits than this. */
  ghost predicate Shallower(sn: Snapshot, h: BookHash, visits: real) {
    h in sn && sn[h].moves == map[] && sn[h].values.visits < visits
  }

  ghost function FrameIn(b: Book, sn: Snapshot, v: View): Frame
    requires v.node.hash in sn
  {
    Frame(b.xSize, b.ySize, v.node.symmetries, sn[v.node.hash].moves)
  }

  /** In this state of the book the move can be followed from the view. */
  ghost predicate HasMove(b: Book, sn: Snapshot, v: View, move: Loc) {
    v.node.hash in sn && IsMoveInBook(FrameIn(b, sn, v), v.symmetryOfNode, move)
  }

  /**
   What a visit says is so. A move is added only if it is not in the book. The search is stored at a
   new child, or at one that is a leaf with fewer visits.
   */
  ghost predicate VisitOk(b: Book, sn: Snapshot, x: Visit) {
    && x.at.node.hash in sn
    && match x
       case Unplayable(at, found) => !HasMove(b, sn, at, found.move)
       case Added(at, found, child, m, pla, stored, _) =>
         && !HasMove(b, sn, at, found.move) && m.hash == child.node.hash && m.rawPolicy == found.rawPolicy
         && Possible(sn, AddMove(at.node.hash, m, pla))
         && HasMove(b, Apply(sn, AddMove(at.node.hash, m, pla)), at, found.move)
         && (stored <==> m.hash !in sn || Shallower(Apply(sn, AddMove(at.node.hash, m, pla)), m.hash, found.visits))
       case Known(at, found, child, _, stored, _) =>
         && child.node.hash in sn
         && Follow(FrameIn(b, sn, at), at.symmetryOfNode, found.move) == Some(Followed(child.node.hash, child.symmetryOfNode))
         && (stored <==> Shallower(sn, child.node.hash, found.visits))
  }

  lemma AddThenStore(sn: Snapshot, h: BookHash, m: BookMove, pla: Player, stored: bool, own: BookValues)
    requires Possible(sn, AddMove(h, m, pla))
    ensures PossibleAll(sn, [AddMove(h, m, pla)] + StoreIf(stored, m.hash, own))
  {
    var e := AddMove(h, m, pla);
    OneEdit(sn, e);
    if stored {
      assert m.hash in Apply(sn, e);
      StoreIsPossible(Apply(sn, e), StoreSearch(m.hash, own));
      OneEdit(Apply(sn, e), StoreSearch(m.hash, own));
      MoreEdits(sn, [e], [StoreSearch(m.hash, own)]);
    } else {
      assert [e] + [] == [e];
    }
  }

  lemma CloseThenStore(sn: Snapshot, h: BookHash, legal: bool, stored: bool, child: BookHash, own: BookValues)
    requires h in sn && child in sn
    ensures PossibleAll(sn, (if legal then [] else [StopExpanding(h)]) + StoreIf(stored, child, own))
  {
    var closing := if legal then [] else [StopExpanding(h)];
    StoreIsPossible(sn, StopExpanding(h));
    OneEdit(sn, StopExpanding(h));
    if stored {
      var sn1 := ApplyAll(sn, closing);
      assert child in sn1;
      StoreIsPossible(sn1, StoreSearch(child, own));
      OneEdit(sn1, StoreSearch(child, own));
      MoreEdits(sn, closing, [StoreSearch(child, own)]);
    } else {
      assert closing + [] == closing;
    }
  }

  lemma VisitPossible(b: Book, sn: Snapshot, x: Visit)
    requires VisitOk(b, sn, x)
    ensures PossibleAll(sn, VisitEdits(x))
  {
    hide HasMove, PossibleAll, Apply, Follow;
    match x
    case Unplayable(at, _) =>
      StoreIsPossible(sn, StopExpanding(at.node.hash));
      OneEdit(sn, StopExpanding(at.node.hash));
    case Added(at, found, child, m, pla, stored, _) => AddThenStore(sn, at.node.hash, m, pla, stored, found.own);
    case Known(at, found, child, legal, stored, _) =>
      CloseThenStore(sn, at.node.hash, legal, stored, child.node.hash, found.own);
  }

  // ---------------------------------------------------------------------------------------------
  // Many visits

  function EditsOf(visits: seq<Visit>): seq<Edit> {
    if visits == [] then [] else VisitEdits(visits[0]) + EditsOf(visits[1..])
  }

  /** Every visit is right about the book as it is then. */
  ghost predicate VisitsOk(b: Book, sn: Snapshot, visits: seq<Visit>)
    decreases |visits|
  {
    visits == []
    || (VisitOk(b, sn, visits[0]) && PossibleAll(sn, VisitEdits(visits[0]))
        && VisitsOk(b, ApplyAll(sn, VisitEdits(visits[0])), visits[1..]))
  }

  /** The nodes listed for recomputation: added children, and nodes at which a move was added or was gone below. */
  function VisitLists(x: Visit): set<BookHash> {
    (if x.Added? then {x.child.node.hash} else {})
    + (if !x.Known? || x.recursed then {x.at.node.hash} else {})
  }

  function ListedBy(visits: seq<Visit>): set<BookHash> {
    if visits == [] then {} else VisitLists(visits[0]) + ListedBy(visits[1..])
  }

  /** The nodes to search again: children that are leaves with few visits, and nodes at which a move was added. */
  ghost function VisitAgain(after: Snapshot, x: Visit, lim: Limits): set<BookHash> {
    (if !x.Unplayable? && Shallower(after, x.child.node.hash, lim.leafVisits) then {x.child.node.hash} else {})
    + (if !x.Known? then {x.at.node.hash} else {})
  }

  ghost function AgainBy(b: Book, sn: Snapshot, visits: seq<Visit>, lim: Limits): set<BookHash>
    requires VisitsOk(b, sn, visits)
    decreases |visits|
  {
    if visits == [] then {}
    else
      var after := ApplyAll(sn, VisitEdits(visits[0]));
      VisitAgain(after, visits[0], lim) + AgainBy(b, after, visits[1..], lim)
  }

  lemma {:induction false} VisitsPossible(b: Book, sn: Snapshot, visits: seq<Visit>)
    requires VisitsOk(b, sn, visits)
    ensures PossibleAll(sn, EditsOf(visits))
    decreases |visits|
  {
    hide VisitOk, VisitEdits, PossibleAll, ApplyAll;
    if visits != [] {
      VisitsPossible(b, ApplyAll(sn, VisitEdits(visits[0])), visits[1..]);
      MoreEdits(sn, VisitEdits(visits[0]), EditsOf(visits[1..]));
    } else {
      NoEdits(sn);
    }
  }

  lemma NoEdits(sn: Snapshot)
    ensures PossibleAll(sn, []) && ApplyAll(sn, []) == sn && Ends([]) == {} && StoredAt([]) == {}
  {
  }

  lemma {:induction false} MoreListed(visits: seq<Visit>, more: seq<Visit>)
    ensures EditsOf(visits + more) == EditsOf(visits) + EditsOf(more)
    ensures ListedBy(visits + more) == ListedBy(visits) + ListedBy(more)
  {
    hide VisitEdits, VisitLists;
    if visits == [] {
      assert visits + more == more;
    } else {
      MoreListed(visits[1..], more);
      assert (visits + more)[1..] == visits[1..] + more && (visits + more)[0] == visits[0];
      Grouping(VisitEdits(visits[0]), EditsOf(visits[1..]), EditsOf(more));
    }
  }

  lemma Grouping<T>(a: seq<T>, b: seq<T>, c: seq<T>)
    ensures a + (b + c) == (a + b) + c
  {
  }

  lemma {:induction false} MoreVisits(b: Book, sn: Snapshot, visits: seq<Visit>, more: seq<Visit>, lim: Limits)
    requires VisitsOk(b, sn, visits) && PossibleAll(sn, EditsOf(visits))
    requires VisitsOk(b, ApplyAll(sn, EditsOf(visits)), more)
    ensures VisitsOk(b, sn, visits + more)
    ensures AgainBy(b, sn, visits + more, lim) ==
            AgainBy(b, sn, visits, lim) + AgainBy(b, ApplyAll(sn, EditsOf(visits)), more, lim)
    decreases |visits|
  {
    hide VisitOk, VisitEdits, PossibleAll, ApplyAll, VisitAgain;
    if visits == [] {
      assert visits + more == more;
      NoEdits(sn);
    } else {
      var sn1, rest := ApplyAll(sn, VisitEdits(visits[0])), visits[1..];
      VisitsPossible(b, sn1, rest);
      MoreEdits(sn, VisitEdits(visits[0]), EditsOf(rest));
      assert (visits + more)[1..] == rest + more && (visits + more)[0] == visits[0];
      hide EditsOf;
      MoreVisits(b, sn1, rest, more, lim);
    }
  }

  lemma {:induction false} SplitVisits(b: Book, sn: Snapshot, visits: seq<Visit>, more: seq<Visit>)
    requires VisitsOk(b, sn, visits + more)
    ensures VisitsOk(b, sn, visits) && PossibleAll(sn, EditsOf(visits))
    ensures VisitsOk(b, ApplyAll(sn, EditsOf(visits)), more)
    decreases |visits|
  {
    hide VisitOk, VisitEdits, PossibleAll, ApplyAll;
    if visits == [] {
      assert visits + more == more;
      NoEdits(sn);
    } else {
      var sn1, rest := ApplyAll(sn, VisitEdits(visits[0])), visits[1..];
      assert (visits + more)[1..] == rest + more && (visits + more)[0] == visits[0];
      SplitVisits(b, sn1, rest, more);
      MoreEdits(sn, VisitEdits(visits[0]), EditsOf(rest));
    }
  }

  lemma JustVisited(b: Book, sn: Snapshot, x: Visit, lim: Limits)
    requires VisitOk(b, sn, x)
    ensures PossibleAll(sn, VisitEdits(x)) && VisitsOk(b, sn, [x]) && EditsOf([x]) == VisitEdits(x)
    ensures ListedBy([x]) == VisitLists(x)
    ensures AgainBy(b, sn, [x], lim) == VisitAgain(ApplyAll(sn, VisitEdits(x)), x, lim)
  {
    hide VisitOk, VisitEdits, PossibleAll, ApplyAll, VisitAgain, VisitLists;
    VisitPossible(b, sn, x);
    var none: seq<Visit> := [];
    assert [x][1..] == none && EditsOf(none) == [] && ListedBy(none) == {};
    assert VisitEdits(x) + [] == VisitEdits(x);
  }

  lemma StoreEnds(stored: bool, h: BookHash, own: BookValues)
    ensures Ends(StoreIf(stored, h, own)) == {}
  {
    if stored {
      assert StoreIf(stored, h, own)[1..] == [];
    }
  }

  lemma VisitEnds(b: Book, sn: Snapshot, x: Visit)
    requires VisitOk(b, sn, x)
    ensures Ends(VisitEdits(x)) <= VisitLists(x)
  {
    hide HasMove, Possible, Apply, Follow, Shallower;
    match x
    case Unplayable(at, _) => assert VisitEdits(x)[1..] == [];
    case Added(at, found, child, m, pla, stored, _) =>
      StoreEnds(stored, child.node.hash, found.own);
      assert VisitEdits(x)[1..] == StoreIf(stored, child.node.hash, found.own);
    case Known(at, found, child, legal, stored, _) =>
      StoreEnds(stored, child.node.hash, found.own);
      var closing := if legal then [] else [StopExpanding(at.node.hash)];
      assert closing != [] ==> closing[1..] == [];
      MoreEnds(closing, StoreIf(stored, child.node.hash, found.own));
  }

  /** Both ends of every added move are listed. */
  lemma {:induction false} EndsAreListed(b: Book, sn: Snapshot, visits: seq<Visit>)
    requires VisitsOk(b, sn, visits)
    ensures Ends(EditsOf(visits)) <= ListedBy(visits)
    decreases |visits|
  {
    hide VisitOk, VisitEdits, VisitLists, PossibleAll, ApplyAll;
    if visits != [] {
      VisitEnds(b, sn, visits[0]);
      EndsAreListed(b, ApplyAll(sn, VisitEdits(visits[0])), visits[1..]);
      MoreEnds(VisitEdits(visits[0]), EditsOf(visits[1..]));
    }
  }

  // ---------------------------------------------------------------------------------------------
  // Which visits a search tree calls for

  /** The search's moves that are to be recorded: the best one and those with enough visits. */
  predicate Selected(s: SearchNode, i: nat, lim: Limits)
    requires i < |s.children|
  {
    s.children[i].found.move == s.best || s.children[i].found.visits >= lim.leafVisits
  }

  /** The visits at one search node, one step for each of its children; seen is the search nodes gone into so far. */
  datatype Trace = Trace(steps: seq<Step>)
  datatype Step = Passed(seen: set<int>) | Taken(visit: Visit, below: Trace, seen: set<int>)

  function SeenBefore(steps: seq<Step>, i: nat, seen: set<int>): set<int>
    requires i <= |steps|
  {
    if i == 0 then seen else steps[i - 1].seen
  }

  ghost predicate VisitFits(x: Visit, v: View, h: History, found: Found, lim: Limits, rules: Rules) {
    && x.at == v && x.found == found
    && (x.Unplayable? ==> !rules.legal(h, found.move))
    && (x.Added? ==> rules.legal(h, found.move) && x.pla == Opponent(h.nextPla))
    && (x.Known? ==> x.legal == rules.legal(h, found.move))
    && (!x.Unplayable? ==> (x.recursed <==> found.visits >= lim.treeVisits && !rules.finished(Ext(h, found.move))))
  }

  ghost predicate Recursed(x: Visit) { !x.Unplayable? && x.recursed }

  ghost predicate StepFits(s: SearchNode, i: nat, lim: Limits, rules: Rules, v: View, h: History, depthBelow: nat,
                           seen: set<int>, st: Step)
    requires i < |s.children|
    decreases s, 0
  {
    var c := s.children[i];
    if !Selected(s, i, lim) then st == Passed(seen)
    else
      && st.Taken? && VisitFits(st.visit, v, h, c.found, lim, rules)
      && if Recursed(st.visit)
         then TraceFits(c.node, lim, rules, st.visit.child, Ext(h, c.found.move), depthBelow, seen, st.below, st.seen)
         else st.below == Trace([]) && st.seen == seen
  }

  /** The trace visits the selected children in order, and goes below those with many visits, no search node twice. */
  ghost predicate TraceFits(s: SearchNode, lim: Limits, rules: Rules, v: View, h: History, maxDepth: nat,
                            seen: set<int>, t: Trace, seen': set<int>)
    decreases s, 1
  {
    if maxDepth == 0 || s.id in seen then t == Trace([]) && seen' == seen
    else
      && |t.steps| == |s.children| && seen' == SeenBefore(t.steps, |t.steps|, seen + {s.id})
      && forall i :: 0 <= i < |s.children| ==>
           StepFits(s, i, lim, rules, v, h, maxDepth - 1, SeenBefore(t.steps, i, seen + {s.id}), t.steps[i])
  }

  function VisitsUpTo(t: Trace, n: nat): seq<Visit>
    requires n <= |t.steps|
    decreases t, n
  {
    if n == 0 then []
    else
      VisitsUpTo(t, n - 1)
      + match t.steps[n - 1]
        case Passed(_) => []
        case Taken(visit, below, _) => [visit] + VisitsUpTo(below, |below.steps|)
  }

  function VisitsOf(t: Trace): seq<Visit> { VisitsUpTo(t, |t.steps|) }

  function StepVisits(st: Step): seq<Visit> {
    match st
    case Passed(_) => []
    case Taken(visit, below, _) => [visit] + VisitsOf(below)
  }

  lemma {:induction false} SamePrefix(t: Trace, t': Trace, n: nat)
    requires n <= |t.steps| && n <= |t'.steps| && forall i :: 0 <= i < n ==> t.steps[i] == t'.steps[i]
    ensures VisitsUpTo(t, n) == VisitsUpTo(t', n)
    decreases n
  {
    if n > 0 {
      SamePrefix(t, t', n - 1);
    }
  }

  lemma OneStepMore(steps: seq<Step>, st: Step)
    ensures VisitsOf(Trace(steps + [st])) == VisitsOf(Trace(steps)) + StepVisits(st)
  {
    SamePrefix(Trace(steps + [st]), Trace(steps), |steps|);
  }

  /** The visits before a step, of the step, and after it. */
  lemma {:induction false} VisitsAround(t: Trace, i: nat, n: nat) returns (rest: seq<Visit>)
    requires i < n <= |t.steps|
    ensures VisitsUpTo(t, n) == VisitsUpTo(t, i) + StepVisits(t.steps[i]) + rest
    decreases n
  {
    LastStep(t, n);
    hide VisitsUpTo, StepVisits;
    if n == i + 1 {
      rest := [];
    } else {
      var before := VisitsAround(t, i, n - 1);
      rest := before + StepVisits(t.steps[n - 1]);
      Grouping(VisitsUpTo(t, i) + StepVisits(t.steps[i]), before, StepVisits(t.steps[n - 1]));
    }
  }

  lemma LastStep(t: Trace, n: nat)
    requires 0 < n <= |t.steps|
    ensures VisitsUpTo(t, n) == VisitsUpTo(t, n - 1) + StepVisits(t.steps[n - 1])
  {
  }

  lemma MoreMoves(f: Frame, moves: map<Loc, BookMove>, sym: Sym, move: Loc)
    requires IsMoveInBook(f, sym, move) && f.moves.Keys <= moves.Keys
    ensures IsMoveInBook(f.(moves := moves), sym, move)
  {
    hide Compose, Invert, SymLoc;
    var s :| s in f.symmetries && Turn(f, move, Compose(Invert(sym), s)) in f.moves;
    assert Turn(f.(moves := moves), move, Compose(Invert(sym), s)) in moves;
  }

  /** Edits never take a move away. */
  lemma {:induction false} HasMoveStays(b: Book, sn: Snapshot, edits: seq<Edit>, v: View, move: Loc)
    requires PossibleAll(sn, edits) && HasMove(b, sn, v, move)
    ensures HasMove(b, ApplyAll(sn, edits), v, move)
    decreases |edits|
  {
    hide Apply, IsMoveInBook;
    if edits != [] {
      var h, sn1 := v.node.hash, Apply(sn, edits[0]);
      forall loc | loc in sn[h].moves ensures h in sn1 && loc in sn1[h].moves {
        EditKeepsMoves(sn, edits[0], h, loc);
      }
      StillThere(sn, edits[0], h);
      MoreMoves(FrameIn(b, sn, v), sn1[h].moves, v.symmetryOfNode, move);
      HasMoveStays(b, sn1, edits[1..], v, move);
    }
  }

  lemma StillThere(sn: Snapshot, e: Edit, h: BookHash)
    requires e.h in sn && h in sn
    ensures h in Apply(sn, e)
  {
  }

  lemma VisitedIsInBook(b: Book, sn: Snapshot, x: Visit)
    requires VisitOk(b, sn, x) && !x.Unplayable?
    ensures PossibleAll(sn, VisitEdits(x)) && HasMove(b, ApplyAll(sn, VisitEdits(x)), x.at, x.found.move)
  {
    hide IsMoveInBook, Follow, PossibleAll, ApplyAll, Apply, Shallower;
    VisitPossible(b, sn, x);
    if x.Known? {
      FollowsWhatIsInBook(FrameIn(b, sn, x.at), x.at.symmetryOfNode, x.found.move);
      HasMoveStays(b, sn, VisitEdits(x), x.at, x.found.move);
    } else {
      var e := AddMove(x.at.node.hash, x.m, x.pla);
      OneEdit(sn, e);
      SplitEdits(sn, [e], StoreIf(x.stored, x.child.node.hash, x.found.own));
      HasMoveStays(b, Apply(sn, e), StoreIf(x.stored, x.child.node.hash, x.found.own), x.at, x.found.move);
    }
  }

  lemma {:induction false} SplitEdits(sn: Snapshot, edits: seq<Edit>, more: seq<Edit>)
    requires PossibleAll(sn, edits + more)
    ensures PossibleAll(sn, edits) && PossibleAll(ApplyAll(sn, edits), more)
    ensures ApplyAll(sn, edits + more) == ApplyAll(ApplyAll(sn, edits), more)
    decreases |edits|
  {
    hide Apply;
    if edits == [] {
      assert edits + more == more;
    } else {
      assert (edits + more)[1..] == edits[1..] + more && (edits + more)[0] == edits[0];
      SplitEdits(Apply(sn, edits[0]), edits[1..], more);
    }
  }

  lemma RecordedStays(b: Book, sn: Snapshot, before: seq<Visit>, x: Visit, after: seq<Visit>)
    requires VisitsOk(b, sn, before + [x] + after) && !x.Unplayable?
    ensures PossibleAll(sn, EditsOf(before + [x] + after))
    ensures HasMove(b, ApplyAll(sn, EditsOf(before + [x] + after)), x.at, x.found.move)
  {
    hide VisitOk, VisitEdits, PossibleAll, ApplyAll, HasMove, EditsOf;
    SplitVisits(b, sn, before + [x], after);
    SplitVisits(b, sn, before, [x]);
    var sn1 := ApplyAll(sn, EditsOf(before));
    VisitedIsInBook(b, sn1, x);
    JustEditsOf(x);
    MoreListed(before, [x]);
    MoreEdits(sn, EditsOf(before), EditsOf([x]));
    var sn2 := ApplyAll(sn, EditsOf(before + [x]));
    VisitsPossible(b, sn2, after);
    HasMoveStays(b, sn2, EditsOf(after), x.at, x.found.move);
    MoreListed(before + [x], after);
    MoreEdits(sn, EditsOf(before + [x]), EditsOf(after));
  }

  lemma JustEditsOf(x: Visit)
    ensures EditsOf([x]) == VisitEdits(x)
  {
    var none: seq<Visit> := [];
    assert [x][1..] == none && EditsOf(none) == [];
    assert VisitEdits(x) + [] == VisitEdits(x);
  }
}
