/**
 What recording a search tree leaves in the book, in numbers: at every search node it goes into, each
 legal move that has enough visits or is the best one can be followed afterwards; and no other is added.
 */
module Recorded {
  import opened Symmetry
  import opened BookData
  import opened BookViews
  import opened Hashing
  import opened Walks
  import opened Growth
  import opened Visits

  // ---------------------------------------------------------------------------------------------
  // Where recording goes

  /** A search node met on the way: its view and history, the depth left, the ids gone into so far, its trace. */
  datatype Place = Place(s: SearchNode, v: View, h: History, depth: nat, seen: set<int>, t: Trace)

  /** There is depth left and the node's id has not been gone into. */
  ghost predicate Fresh(pl: Place) { pl.depth > 0 && pl.s.id !in pl.seen }

  ghost predicate WasKnown(st: Step) { st.Taken? && st.visit.Known? }

  ghost function ViewBelow(st: Step, v: View): View { if st.Taken? && !st.visit.Unplayable? then st.visit.child else v }

  ghost function TraceBelow(st: Step): Trace { if st.Taken? then st.below else Trace([]) }

  /** Child i, as it is met from a place. */
  ghost function PlaceBelow(pl: Place, i: nat): Place
    requires pl.depth > 0 && i < |pl.s.children| && i < |pl.t.steps|
  {
    Place(pl.s.children[i].node, ViewBelow(pl.t.steps[i], pl.v), Ext(pl.h, pl.s.children[i].found.move),
          pl.depth - 1, SeenBefore(pl.t.steps, i, pl.seen + {pl.s.id}), TraceBelow(pl.t.steps[i]))
  }

  /**
   Child i is recorded and gone below: it is the best move or has visits for a leaf, has visits for the
   tree, may be played or was in the book, and does not end the game.
   */
  ghost predicate GoesBelow(pl: Place, lim: Limits, rules: Rules, i: nat) {
    && pl.depth > 0 && i < |pl.s.children| && i < |pl.t.steps|
    && var found := pl.s.children[i].found;
       && (found.move == pl.s.best || found.visits >= lim.leafVisits)
       && found.visits >= lim.treeVisits
       && (rules.legal(pl.h, found.move) || WasKnown(pl.t.steps[i]))
       && !rules.finished(Ext(pl.h, found.move))
  }

  /** Recording goes from the place through these children into the place to. */
  ghost predicate GoesInto(pl: Place, lim: Limits, rules: Rules, path: seq<nat>, to: Place)
    decreases |path|
  {
    && Fresh(pl)
    && if path == [] then to == pl
       else GoesBelow(pl, lim, rules, path[0]) && GoesInto(PlaceBelow(pl, path[0]), lim, rules, path[1..], to)
  }

  ghost predicate FitsAt(pl: Place, lim: Limits, rules: Rules, seen': set<int>) {
    TraceFits(pl.s, lim, rules, pl.v, pl.h, pl.depth, pl.seen, pl.t, seen')
  }

  // ---------------------------------------------------------------------------------------------
  // The trace follows the numbers

  lemma StepAt(pl: Place, lim: Limits, rules: Rules, seen': set<int>, i: nat)
    requires FitsAt(pl, lim, rules, seen') && Fresh(pl) && i < |pl.s.children|
    ensures |pl.t.steps| == |pl.s.children| && seen' == SeenBefore(pl.t.steps, |pl.t.steps|, pl.seen + {pl.s.id})
    ensures StepFits(pl.s, i, lim, rules, pl.v, pl.h, pl.depth - 1, SeenBefore(pl.t.steps, i, pl.seen + {pl.s.id}),
                     pl.t.steps[i])
  {
    hide StepFits;
  }

  lemma WantedIsTaken(pl: Place, lim: Limits, rules: Rules, seen': set<int>, i: nat)
    requires FitsAt(pl, lim, rules, seen') && Fresh(pl) && i < |pl.s.children|
    requires pl.s.children[i].found.move == pl.s.best || pl.s.children[i].found.visits >= lim.leafVisits
    ensures |pl.t.steps| == |pl.s.children| && pl.t.steps[i].Taken?
    ensures VisitFits(pl.t.steps[i].visit, pl.v, pl.h, pl.s.children[i].found, lim, rules)
  {
    StepAt(pl, lim, rules, seen', i);
    hide TraceFits;
  }

  lemma BelowFits(pl: Place, lim: Limits, rules: Rules, seen': set<int>, i: nat)
    requires FitsAt(pl, lim, rules, seen') && Fresh(pl) && GoesBelow(pl, lim, rules, i)
    ensures pl.t.steps[i].Taken? && FitsAt(PlaceBelow(pl, i), lim, rules, pl.t.steps[i].seen)
  {
    StepAt(pl, lim, rules, seen', i);
    hide TraceFits;
  }

  /** The visits at the place reached are some of the visits of the whole. */
  lemma {:induction false} VisitsAtPlace(pl: Place, lim: Limits, rules: Rules, seen': set<int>, path: seq<nat>, to: Place)
    returns (before: seq<Visit>, after: seq<Visit>, seenTo: set<int>)
    requires FitsAt(pl, lim, rules, seen') && GoesInto(pl, lim, rules, path, to)
    ensures Fresh(to) && FitsAt(to, lim, rules, seenTo)
    ensures VisitsOf(pl.t) == before + VisitsOf(to.t) + after
    decreases |path|
  {
    hide FitsAt, GoesBelow, VisitsUpTo;
    if path == [] {
      before, after, seenTo := [], [], seen';
    } else {
      var i := path[0];
      assert i < |pl.s.children| && i < |pl.t.steps| && pl.depth > 0 by { GoesBelowFacts(pl, lim, rules, i); }
      BelowFits(pl, lim, rules, seen', i);
      var inner, rest;
      inner, rest, seenTo := VisitsAtPlace(PlaceBelow(pl, i), lim, rules, pl.t.steps[i].seen, path[1..], to);
      var last := VisitsAround(pl.t, i, |pl.t.steps|);
      before := VisitsUpTo(pl.t, i) + [pl.t.steps[i].visit] + inner;
      after := rest + last;
      Regroup(VisitsUpTo(pl.t, i), [pl.t.steps[i].visit], inner, VisitsOf(to.t), rest, last);
    }
  }

  lemma GoesBelowFacts(pl: Place, lim: Limits, rules: Rules, i: nat)
    requires GoesBelow(pl, lim, rules, i)
    ensures i < |pl.s.children| && i < |pl.t.steps| && pl.depth > 0
  {
  }

  lemma Regroup<T>(a: seq<T>, x: seq<T>, b: seq<T>, c: seq<T>, d: seq<T>, e: seq<T>)
    ensures a + (x + (b + c + d)) + e == (a + x + b) + c + (d + e)
  {
  }

  /**
   At every search node that recording goes into, each legal child that is the best move or has enough
   visits can be followed from that node's view in the end.
   */
  lemma WantedMovesAreRecorded(b: Book, sn: Snapshot, pl: Place, lim: Limits, rules: Rules, seen': set<int>,
                               path: seq<nat>, to: Place, i: nat)
    requires FitsAt(pl, lim, rules, seen') && VisitsOk(b, sn, VisitsOf(pl.t)) && GoesInto(pl, lim, rules, path, to)
    requires i < |to.s.children| && rules.legal(to.h, to.s.children[i].found.move)
    requires to.s.children[i].found.move == to.s.best || to.s.children[i].found.visits >= lim.leafVisits
    ensures PossibleAll(sn, EditsOf(VisitsOf(pl.t)))
    ensures HasMove(b, ApplyAll(sn, EditsOf(VisitsOf(pl.t))), to.v, to.s.children[i].found.move)
  {
    hide VisitsOk, EditsOf, PossibleAll, ApplyAll, HasMove, VisitsUpTo, FitsAt, GoesInto;
    var before, after, seenTo := VisitsAtPlace(pl, lim, rules, seen', path, to);
    WantedIsTaken(to, lim, rules, seenTo, i);
    var step := to.t.steps[i];
    var last := VisitsAround(to.t, i, |to.t.steps|);
    var first, rest := before + VisitsUpTo(to.t, i), VisitsOf(step.below) + last + after;
    assert StepVisits(step) == [step.visit] + VisitsOf(step.below);
    Regroup(before, VisitsUpTo(to.t, i), [step.visit], VisitsOf(step.below), last, after);
    Around(before, VisitsUpTo(to.t, i), step.visit, VisitsOf(step.below), last, after);
    RecordedStays(b, sn, first, step.visit, rest);
  }

  lemma Around<T>(a: seq<T>, b: seq<T>, x: T, c: seq<T>, d: seq<T>, e: seq<T>)
    ensures a + (b + ([x] + c) + d) + e == (a + b) + [x] + (c + d + e)
  {
  }

  // ---------------------------------------------------------------------------------------------
  // And nothing else is visited

  /** The visit is of child i of a place that recording goes into, and the numbers call for it. */
  ghost predicate CalledFor(pl: Place, lim: Limits, rules: Rules, x: Visit, path: seq<nat>, to: Place, i: nat) {
    && GoesInto(pl, lim, rules, path, to) && i < |to.s.children|
    && x.at == to.v && x.found == to.s.children[i].found
    && (x.found.move == to.s.best || x.found.visits >= lim.leafVisits)
    && (x.Added? ==> rules.legal(to.h, x.found.move))
  }

  lemma VisitedChild(pl: Place, lim: Limits, rules: Rules, seen': set<int>, i: nat)
    requires FitsAt(pl, lim, rules, seen') && Fresh(pl) && i < |pl.s.children|
    ensures |pl.t.steps| == |pl.s.children|
    ensures pl.t.steps[i].Taken? ==> CalledFor(pl, lim, rules, pl.t.steps[i].visit, [], pl, i)
    ensures pl.t.steps[i].Taken? && pl.t.steps[i].below != Trace([]) ==>
              GoesBelow(pl, lim, rules, i) && FitsAt(PlaceBelow(pl, i), lim, rules, pl.t.steps[i].seen)
              && PlaceBelow(pl, i).t == pl.t.steps[i].below
  {
    StepAt(pl, lim, rules, seen', i);
    hide TraceFits;
  }

  lemma DeeperCalledFor(pl: Place, lim: Limits, rules: Rules, x: Visit, i: nat, path: seq<nat>, to: Place, j: nat)
    requires Fresh(pl) && GoesBelow(pl, lim, rules, i) && CalledFor(PlaceBelow(pl, i), lim, rules, x, path, to, j)
    ensures CalledFor(pl, lim, rules, x, [i] + path, to, j)
  {
    hide GoesBelow, Fresh;
    assert ([i] + path)[1..] == path;
  }

  lemma NotFresh(pl: Place, lim: Limits, rules: Rules, seen': set<int>)
    requires FitsAt(pl, lim, rules, seen') && !Fresh(pl)
    ensures pl.t == Trace([]) && VisitsOf(pl.t) == []
  {
  }

  /** Every visit is of a child that the numbers call for. */
  lemma {:induction false} VisitsAreCalledFor(pl: Place, lim: Limits, rules: Rules, seen': set<int>, n: nat, x: Visit)
    returns (path: seq<nat>, to: Place, i: nat)
    requires FitsAt(pl, lim, rules, seen') && n <= |pl.t.steps| && x in VisitsUpTo(pl.t, n)
    ensures CalledFor(pl, lim, rules, x, path, to, i)
    decreases pl.t, n
  {
    hide FitsAt, GoesBelow, CalledFor, VisitsUpTo, Fresh;
    if !Fresh(pl) {
      NotFresh(pl, lim, rules, seen');
    }
    if n == 0 {
      NoneUpTo(pl.t);
    } else {
      LastStep(pl.t, n);
      var st := pl.t.steps[n - 1];
      FitsCount(pl, lim, rules, seen');
      VisitedChild(pl, lim, rules, seen', n - 1);
      if x in VisitsUpTo(pl.t, n - 1) {
        path, to, i := VisitsAreCalledFor(pl, lim, rules, seen', n - 1, x);
      } else if x == st.visit {
        path, to, i := [], pl, n - 1;
      } else {
        assert x in VisitsOf(st.below);
        if st.below == Trace([]) {
          NoneUpTo(st.below);
        }
        var rest;
        rest, to, i := VisitsAreCalledFor(PlaceBelow(pl, n - 1), lim, rules, st.seen, |st.below.steps|, x);
        path := [n - 1] + rest;
        DeeperCalledFor(pl, lim, rules, x, n - 1, rest, to, i);
      }
    }
  }

  lemma NoneUpTo(t: Trace)
    ensures VisitsUpTo(t, 0) == []
  {
  }

  lemma FitsCount(pl: Place, lim: Limits, rules: Rules, seen': set<int>)
    requires FitsAt(pl, lim, rules, seen') && pl.t.steps != []
    ensures Fresh(pl) && |pl.t.steps| == |pl.s.children|
  {
    hide StepFits;
  }

  // ---------------------------------------------------------------------------------------------
  // The first time its id is met

  ghost function SeenUpTo(pl: Place, n: nat): set<int>
    requires n <= |pl.t.steps|
  {
    SeenBefore(pl.t.steps, n, pl.seen + {pl.s.id})
  }

  /** What one child adds to the ids gone into: nothing, or what is gone into below it. */
  lemma SeenStep(pl: Place, lim: Limits, rules: Rules, seen': set<int>, i: nat)
    requires FitsAt(pl, lim, rules, seen') && Fresh(pl) && i < |pl.s.children|
    ensures |pl.t.steps| == |pl.s.children| && seen' == SeenUpTo(pl, |pl.t.steps|)
    ensures SeenUpTo(pl, i + 1) == pl.t.steps[i].seen
    ensures if GoesBelow(pl, lim, rules, i)
            then PlaceBelow(pl, i).seen == SeenUpTo(pl, i) && FitsAt(PlaceBelow(pl, i), lim, rules, SeenUpTo(pl, i + 1))
            else SeenUpTo(pl, i + 1) == SeenUpTo(pl, i)
  {
    StepAt(pl, lim, rules, seen', i);
    hide TraceFits;
  }

  lemma SeenNoSteps(pl: Place, lim: Limits, rules: Rules, seen': set<int>)
    requires FitsAt(pl, lim, rules, seen')
    ensures if Fresh(pl) then |pl.t.steps| == |pl.s.children| && seen' == SeenUpTo(pl, |pl.t.steps|)
                              && SeenUpTo(pl, 0) == pl.seen + {pl.s.id}
            else seen' == pl.seen
  {
    hide StepFits;
  }

  /** Recording goes below one of the first n children, into a node with this id. */
  ghost predicate MetBelow(pl: Place, lim: Limits, rules: Rules, n: nat, id: int, path: seq<nat>, to: Place) {
    GoesInto(pl, lim, rules, path, to) && path != [] && path[0] < n && to.s.id == id
  }

  ghost predicate Met(pl: Place, lim: Limits, rules: Rules, id: int, path: seq<nat>, to: Place) {
    GoesInto(pl, lim, rules, path, to) && to.s.id == id
  }

  lemma OneDeeper(pl: Place, lim: Limits, rules: Rules, i: nat, path: seq<nat>, to: Place)
    requires Fresh(pl) && GoesBelow(pl, lim, rules, i) && GoesInto(PlaceBelow(pl, i), lim, rules, path, to)
    ensures GoesInto(pl, lim, rules, [i] + path, to) && ([i] + path)[0] == i
  {
    hide GoesBelow, Fresh;
    assert ([i] + path)[1..] == path;
  }

  /** The ids met before child n are those of the node itself and of the nodes gone into below earlier children. */
  lemma {:induction false} SeenUpToIs(pl: Place, lim: Limits, rules: Rules, seen': set<int>, n: nat, id: int)
    requires FitsAt(pl, lim, rules, seen') && Fresh(pl) && n <= |pl.s.children| && |pl.t.steps| == |pl.s.children|
    ensures id in SeenUpTo(pl, n)
            <==> id in pl.seen || id == pl.s.id || exists path, to :: MetBelow(pl, lim, rules, n, id, path, to)
    decreases pl.t, n, 0
  {
    hide FitsAt, GoesBelow, SeenUpTo, Fresh, GoesInto;
    if n == 0 {
      SeenNoSteps(pl, lim, rules, seen');
    } else {
      var i := n - 1;
      SeenStep(pl, lim, rules, seen', i);
      SeenUpToIs(pl, lim, rules, seen', i, id);
      if GoesBelow(pl, lim, rules, i) {
        BelowIsSmaller(pl, lim, rules, seen', i);
        SeenAfterIs(PlaceBelow(pl, i), lim, rules, SeenUpTo(pl, n), id);
        if path, to :| Met(PlaceBelow(pl, i), lim, rules, id, path, to) {
          OneDeeper(pl, lim, rules, i, path, to);
          assert MetBelow(pl, lim, rules, n, id, [i] + path, to);
        }
      }
      if path, to :| MetBelow(pl, lim, rules, n, id, path, to) {
        GoesIntoFirst(pl, lim, rules, path, to);
        assert if path[0] < i then MetBelow(pl, lim, rules, i, id, path, to)
               else Met(PlaceBelow(pl, i), lim, rules, id, path[1..], to);
      }
      if path, to :| MetBelow(pl, lim, rules, i, id, path, to) {
        assert MetBelow(pl, lim, rules, n, id, path, to);
      }
    }
  }

  lemma GoesIntoFirst(pl: Place, lim: Limits, rules: Rules, path: seq<nat>, to: Place)
    requires GoesInto(pl, lim, rules, path, to)
    ensures Fresh(pl) && (path == [] ==> to == pl)
    ensures path != [] ==> GoesBelow(pl, lim, rules, path[0]) && path[0] < |pl.s.children| && path[0] < |pl.t.steps|
                           && pl.depth > 0 && GoesInto(PlaceBelow(pl, path[0]), lim, rules, path[1..], to)
  {
  }

  lemma BelowIsSmaller(pl: Place, lim: Limits, rules: Rules, seen': set<int>, i: nat)
    requires FitsAt(pl, lim, rules, seen') && Fresh(pl) && GoesBelow(pl, lim, rules, i)
    ensures pl.t.steps[i].Taken? && PlaceBelow(pl, i).t == pl.t.steps[i].below
  {
    BelowFits(pl, lim, rules, seen', i);
  }

  /** In the end the ids met are those of the nodes gone into. */
  lemma {:induction false} SeenAfterIs(pl: Place, lim: Limits, rules: Rules, seen': set<int>, id: int)
    requires FitsAt(pl, lim, rules, seen')
    ensures id in seen' <==> id in pl.seen || exists path, to :: Met(pl, lim, rules, id, path, to)
    decreases pl.t, |pl.t.steps| + 1, 0
  {
    hide FitsAt, GoesBelow, SeenUpTo, Fresh, GoesInto;
    SeenNoSteps(pl, lim, rules, seen');
    if path, to :| Met(pl, lim, rules, id, path, to) {
      GoesIntoFirst(pl, lim, rules, path, to);
      SeenUpToIs(pl, lim, rules, seen', |pl.t.steps|, id);
      assert path != [] ==> MetBelow(pl, lim, rules, |pl.t.steps|, id, path, to);
      assert id in seen';
    } else if Fresh(pl) {
      GoesIntoItself(pl, lim, rules);
      assert Met(pl, lim, rules, pl.s.id, [], pl);
      SeenUpToIs(pl, lim, rules, seen', |pl.t.steps|, id);
      assert id != pl.s.id;
      if p, q :| MetBelow(pl, lim, rules, |pl.t.steps|, id, p, q) {
        assert Met(pl, lim, rules, id, p, q);
      }
    }
  }

  lemma GoesIntoItself(pl: Place, lim: Limits, rules: Rules)
    requires Fresh(pl)
    ensures GoesInto(pl, lim, rules, [], pl)
  {
  }

  // ---------------------------------------------------------------------------------------------
  // The moves of the book afterwards

  ghost predicate HasNow(sn: Snapshot, h: BookHash, loc: Loc) { h in sn && loc in sn[h].moves }

  lemma OneEditAdds(sn: Snapshot, e: Edit, h: BookHash, loc: Loc)
    requires Possible(sn, e) && HasNow(Apply(sn, e), h, loc) && !HasNow(sn, h, loc)
    ensures e.AddMove? && e.h == h && e.m.move == loc
  {
    if e.AddMove? {
      LinkingAt(if e.m.hash in sn then sn else sn[e.m.hash := FreshState(e.pla)], e.h, e.m.hash, e.m.move, e.m);
    }
  }

  /** A move that is new was added by an edit. */
  lemma {:induction false} NewMoveWasAdded(sn: Snapshot, edits: seq<Edit>, h: BookHash, loc: Loc) returns (e: Edit)
    requires PossibleAll(sn, edits) && HasNow(ApplyAll(sn, edits), h, loc) && !HasNow(sn, h, loc)
    ensures e in edits && e.AddMove? && e.h == h && e.m.move == loc
    decreases |edits|
  {
    hide Apply, HasNow;
    if edits != [] {
      if HasNow(Apply(sn, edits[0]), h, loc) {
        OneEditAdds(sn, edits[0], h, loc);
        e := edits[0];
      } else {
        e := NewMoveWasAdded(Apply(sn, edits[0]), edits[1..], h, loc);
      }
    }
  }

  lemma {:induction false} EditIsOfVisit(visits: seq<Visit>, e: Edit) returns (x: Visit)
    requires e in EditsOf(visits)
    ensures x in visits && e in VisitEdits(x)
  {
    hide VisitEdits;
    if visits != [] {
      if e in VisitEdits(visits[0]) {
        x := visits[0];
      } else {
        x := EditIsOfVisit(visits[1..], e);
      }
    }
  }

  /** Each move that is in the book afterwards and was not before is a move of a search node, and called for there. */
  lemma NewMovesAreWanted(b: Book, sn: Snapshot, pl: Place, lim: Limits, rules: Rules, seen': set<int>, h: BookHash,
                          loc: Loc)
    returns (x: Visit, path: seq<nat>, to: Place, i: nat)
    requires FitsAt(pl, lim, rules, seen') && PossibleAll(sn, EditsOf(VisitsOf(pl.t)))
    requires HasNow(ApplyAll(sn, EditsOf(VisitsOf(pl.t))), h, loc) && !HasNow(sn, h, loc)
    ensures x in VisitsOf(pl.t) && x.Added? && x.m.move == loc && x.at.node.hash == h
    ensures GoesInto(pl, lim, rules, path, to) && i < |to.s.children| && to.v == x.at && x.found == to.s.children[i].found
    ensures x.found.move == to.s.best || x.found.visits >= lim.leafVisits
    ensures rules.legal(to.h, x.found.move)
  {
    hide PossibleAll, ApplyAll, FitsAt, EditsOf, VisitsUpTo, HasNow, GoesInto;
    var e := NewMoveWasAdded(sn, EditsOf(VisitsOf(pl.t)), h, loc);
    x := EditIsOfVisit(VisitsOf(pl.t), e);
    path, to, i := VisitsAreCalledFor(pl, lim, rules, seen', |pl.t.steps|, x);
  }

  // ---------------------------------------------------------------------------------------------
  // The nodes searched again

  /** After its visit h was a leaf with too few visits, or a move was added or found unplayable at it. */
  ghost predicate NeedsSearch(now: Snapshot, x: Visit, lim: Limits, h: BookHash) {
    || (!x.Known? && h == x.at.node.hash)
    || (!x.Unplayable? && h == x.child.node.hash && h in now && now[h].moves == map[] && now[h].values.visits < lim.leafVisits)
  }

  lemma JustAgain(b: Book, sn: Snapshot, x: Visit, lim: Limits, h: BookHash)
    requires VisitsOk(b, sn, [x])
    ensures PossibleAll(sn, EditsOf([x]))
    ensures h in AgainBy(b, sn, [x], lim) <==> NeedsSearch(ApplyAll(sn, EditsOf([x])), x, lim, h)
  {
    hide VisitOk, VisitEdits, PossibleAll, ApplyAll;
    JustVisited(b, sn, x, lim);
  }

  /** A node is searched again exactly if some visit called for it. */
  lemma {:induction false} SearchedAgainExactly(b: Book, sn: Snapshot, visits: seq<Visit>, lim: Limits, h: BookHash)
    requires VisitsOk(b, sn, visits)
    ensures forall n :: 0 <= n <= |visits| ==> PossibleAll(sn, EditsOf(visits[..n]))
    ensures h in AgainBy(b, sn, visits, lim)
            <==> exists n :: 0 < n <= |visits| && NeedsSearch(ApplyAll(sn, EditsOf(visits[..n])), visits[n - 1], lim, h)
  {
    hide VisitOk, VisitEdits, PossibleAll, ApplyAll, VisitsOk, EditsOf, AgainBy, NeedsSearch;
    forall n | 0 <= n <= |visits| ensures PossibleAll(sn, EditsOf(visits[..n])) {
      assert visits[..n] + visits[n..] == visits;
      SplitVisits(b, sn, visits[..n], visits[n..]);
    }
    if visits == [] {
      NoneAgainBy(b, sn, lim, h);
    } else {
      var init, x := visits[..|visits| - 1], visits[|visits| - 1];
      assert init + [x] == visits;
      SplitVisits(b, sn, init, [x]);
      var sn1 := ApplyAll(sn, EditsOf(init));
      MoreVisits(b, sn, init, [x], lim);
      JustAgain(b, sn1, x, lim, h);
      MoreListed(init, [x]);
      MoreEdits(sn, EditsOf(init), EditsOf([x]));
      SearchedAgainExactly(b, sn, init, lim, h);
      forall n | 0 <= n <= |init| ensures init[..n] == visits[..n] {
      }
      assert visits[..|visits|] == visits;
      if n :| 0 < n <= |visits| && NeedsSearch(ApplyAll(sn, EditsOf(visits[..n])), visits[n - 1], lim, h) {
        assert n <= |init| ==> NeedsSearch(ApplyAll(sn, EditsOf(init[..n])), init[n - 1], lim, h);
      }
      if n :| 0 < n <= |init| && NeedsSearch(ApplyAll(sn, EditsOf(init[..n])), init[n - 1], lim, h) {
        assert NeedsSearch(ApplyAll(sn, EditsOf(visits[..n])), visits[n - 1], lim, h);
      }
    }
  }

  lemma NoneAgainBy(b: Book, sn: Snapshot, lim: Limits, h: BookHash)
    ensures VisitsOk(b, sn, []) && h !in AgainBy(b, sn, [], lim)
  {
  }
}
