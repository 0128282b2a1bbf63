/**
 What a round of expansions does to the searches stored in a book, and what recomputing from the listed
 nodes makes of it: a value can only be left stale at a leaf that was in the book before the round,
 where a search was stored that nobody listed.
 */
module Rounds {
  import opened Symmetry
  import opened BookData
  import opened ValueRules
  import opened ValueTasks
  import opened MarkDirty
  import opened Settled
  import opened Recompute
  import opened BookViews
  import opened Hashing
  import opened Walks
  import opened BookWalks
  import opened Growth
  import opened Visits
  import opened Recording
  import opened Routes

  /** What a search of a node comes to. */
  datatype Outcome = NoNewMoves | Stopped | Finished(s: SearchNode)

  /** A node to expand, by hash, and what its searches will find. */
  datatype Request = Request(hash: BookHash, symmetry: Sym, outcome: Outcome, again: BookHash -> Searched)

  /**
   What became of a request: the way the node was reached, the history that plays it, and for a search
   that was recorded its trace and the nodes searched again.
   */
  datatype Work =
    | Absent
    | Closed(at: View, route: Route, h: History)
    | Abandoned(at: View, route: Route, h: History)
    | Recorded(at: View, route: Route, h: History, t: Trace, seen: set<int>, searched: seq<BookNode>)

  function WorkEdits(r: Request, w: Work): seq<Edit> {
    match w
    case Absent => []
    case Closed(_, _, _) => [StopExpanding(r.hash)]
    case Abandoned(_, _, _) => []
    case Recorded(_, _, _, t, _, searched) => EditsOf(VisitsOf(t)) + AgainEdits(searched, r.again) + [StopReExpanding(r.hash)]
  }

  function WorkLists(r: Request, w: Work): set<BookHash> {
    if w.Recorded? then ListedBy(VisitsOf(w.t)) + {r.hash} else {}
  }

  ghost predicate OneEach(nodes: seq<BookNode>) {
    forall i, j :: 0 <= i < j < |nodes| ==> nodes[i].hash != nodes[j].hash
  }

  /** The node is in the book, there is a route to it, and if its moves may be played the history stands at the node. */
  ghost predicate Reached(b: Book, key: Key, rules: Rules, sn: Snapshot, r: Request, at: View, route: Route,
                          h: History) {
    && r.hash in sn && at.node.hash == r.hash && at.symmetryOfNode == r.symmetry && RouteOk(b, sn, r.hash, route)
    && (MayBePlayed(b, rules, r.symmetry, route) ==> HistoryOf(b, rules, r.symmetry, route, h) && Stands(b, key, h, at))
  }

  /**
   Why a node is closed: a move on the way may not be played, the game is over there, or there is
   nothing new to search.
   */
  ghost predicate HasToClose(b: Book, rules: Rules, r: Request, route: Route, h: History) {
    !MayBePlayed(b, rules, r.symmetry, route) || rules.finished(h) || r.outcome.NoNewMoves?
  }

  /**
   The work is what the request calls for. The node is closed if it has to be and only then; otherwise
   a stopped search leaves everything as it is, and a finished one is recorded by a trace of it, made
   with the history that stands at the node; then the noted nodes are searched again, each once.
   */
  ghost predicate WorkFits(b: Book, key: Key, lim: Limits, rules: Rules, maxDepth: nat, sn: Snapshot, r: Request,
                           w: Work) {
    match w
    case Absent => r.hash !in sn
    case Closed(at, route, h) => Reached(b, key, rules, sn, r, at, route, h) && HasToClose(b, rules, r, route, h)
    case Abandoned(at, route, h) =>
      Reached(b, key, rules, sn, r, at, route, h) && !HasToClose(b, rules, r, route, h) && r.outcome.Stopped?
    case Recorded(at, route, h, t, seen, searched) =>
      && Reached(b, key, rules, sn, r, at, route, h) && !HasToClose(b, rules, r, route, h) && r.outcome.Finished?
      && TraceFits(r.outcome.s, lim, rules, at, h, maxDepth, {}, t, seen) && VisitsOk(b, sn, VisitsOf(t))
      && HashSet(searched) == AgainBy(b, sn, VisitsOf(t), lim) && OneEach(searched)
      && PossibleAll(sn, WorkEdits(r, w))
  }

  // ---------------------------------------------------------------------------------------------
  // Why a search was stored

  ghost predicate InTree(s: SearchNode, f: Found) {
    exists i :: 0 <= i < |s.children| && (s.children[i].found == f || InTree(s.children[i].node, f))
  }

  /**
   Why the edit was made. Both ends of an added move are listed. A search that is stored is part of the
   request's search, or the node was searched again; and the node is listed, or it was a leaf then with
   fewer visits than the search, or than leaves must have.
   */
  ghost predicate Reason(sn: Snapshot, e: Edit, listed: set<BookHash>, lim: Limits, r: Request) {
    match e
    case AddMove(h, m, _) => h in listed && m.hash in listed
    case StoreSearch(h, own) => ReasonToStore(sn, h, own, listed, lim, r)
    case StopExpanding(_) => true
    case StopReExpanding(h) => h == r.hash && h in listed
  }

  ghost predicate ReasonToStore(sn: Snapshot, h: BookHash, own: BookValues, listed: set<BookHash>, lim: Limits,
                                r: Request) {
    && r.outcome.Finished?
    && ((exists f :: InTree(r.outcome.s, f) && f.own == own && (h in listed || Shallower(sn, h, f.visits)))
        || (own == r.again(h).own && (h in listed || Shallower(sn, h, lim.leafVisits))))
  }

  ghost predicate Explained(sn: Snapshot, edits: seq<Edit>, listed: set<BookHash>, lim: Limits, rs: seq<Request>)
    requires PossibleAll(sn, edits)
    decreases |edits|
  {
    edits == []
    || ((exists r :: r in rs && Reason(sn, edits[0], listed, lim, r))
        && Explained(Apply(sn, edits[0]), edits[1..], listed, lim, rs))
  }

  lemma {:induction false} MoreExplained(sn: Snapshot, edits: seq<Edit>, more: seq<Edit>, listed: set<BookHash>,
                                         lim: Limits, rs: seq<Request>)
    requires PossibleAll(sn, edits) && PossibleAll(ApplyAll(sn, edits), more)
    requires Explained(sn, edits, listed, lim, rs) && Explained(ApplyAll(sn, edits), more, listed, lim, rs)
    ensures PossibleAll(sn, edits + more) && Explained(sn, edits + more, listed, lim, rs)
    decreases |edits|
  {
    hide Apply, Reason;
    MoreEdits(sn, edits, more);
    if edits == [] {
      assert edits + more == more;
    } else {
      MoreExplained(Apply(sn, edits[0]), edits[1..], more, listed, lim, rs);
      assert (edits + more)[1..] == edits[1..] + more && (edits + more)[0] == edits[0];
    }
  }

  lemma OneExplained(sn: Snapshot, e: Edit, listed: set<BookHash>, lim: Limits, rs: seq<Request>, r: Request)
    requires Possible(sn, e) && r in rs && Reason(sn, e, listed, lim, r)
    ensures PossibleAll(sn, [e]) && Explained(sn, [e], listed, lim, rs)
  {
    hide Apply, Reason;
    OneEdit(sn, e);
    assert [e][1..] == [] && [e][0] == e;
    assert PossibleAll(Apply(sn, e), []) && Explained(Apply(sn, e), [], listed, lim, rs);
  }

  lemma NothingExplained(sn: Snapshot, listed: set<BookHash>, lim: Limits, rs: seq<Request>)
    ensures PossibleAll(sn, []) && Explained(sn, [], listed, lim, rs)
  {
  }

  lemma ReasonGrows(sn: Snapshot, e: Edit, listed: set<BookHash>, listed': set<BookHash>, lim: Limits, r: Request)
    requires Reason(sn, e, listed, lim, r) && listed <= listed'
    ensures Reason(sn, e, listed', lim, r)
  {
    hide InTree, Shallower;
    if e.StoreSearch? && !(e.own == r.again(e.h).own && (e.h in listed || Shallower(sn, e.h, lim.leafVisits))) {
      var f :| InTree(r.outcome.s, f) && f.own == e.own && (e.h in listed || Shallower(sn, e.h, f.visits));
      assert e.h in listed' || Shallower(sn, e.h, f.visits);
    }
  }

  lemma {:induction false} ExplainedGrows(sn: Snapshot, edits: seq<Edit>, listed: set<BookHash>, listed': set<BookHash>,
                                          lim: Limits, rs: seq<Request>, rs': seq<Request>)
    requires PossibleAll(sn, edits) && Explained(sn, edits, listed, lim, rs) && listed <= listed'
    requires forall r :: r in rs ==> r in rs'
    ensures Explained(sn, edits, listed', lim, rs')
    decreases |edits|
  {
    hide Apply, Reason;
    if edits != [] {
      var r :| r in rs && Reason(sn, edits[0], listed, lim, r);
      ReasonGrows(sn, edits[0], listed, listed', lim, r);
      ExplainedGrows(Apply(sn, edits[0]), edits[1..], listed, listed', lim, rs, rs');
    }
  }

  // Recording

  lemma {:induction false} TraceIsInTree(s: SearchNode, lim: Limits, rules: Rules, v: View, h: History, maxDepth: nat,
                                         seen: set<int>, t: Trace, seen': set<int>, n: nat)
    requires TraceFits(s, lim, rules, v, h, maxDepth, seen, t, seen') && n <= |t.steps|
    ensures forall x :: x in VisitsUpTo(t, n) ==> InTree(s, x.found)
    decreases s, n
  {
    hide Selected, Ext, VisitsUpTo, InTree, TraceFits;
    if n > 0 {
      TraceIsInTree(s, lim, rules, v, h, maxDepth, seen, t, seen', n - 1);
      var i, st := n - 1, t.steps[n - 1];
      var seenHere := StepOfTrace(s, lim, rules, v, h, maxDepth, seen, t, seen', i);
      if st.Taken? && Recursed(st.visit) {
        TraceIsInTree(s.children[i].node, lim, rules, st.visit.child, Ext(h, s.children[i].found.move), maxDepth - 1,
                      seenHere, st.below, st.seen, |st.below.steps|);
      }
      LastStep(t, n);
      StepIsInTree(s, i, st);
    } else {
      NoVisitsYet(t);
    }
  }

  lemma StepOfTrace(s: SearchNode, lim: Limits, rules: Rules, v: View, h: History, maxDepth: nat, seen: set<int>,
                    t: Trace, seen': set<int>, i: nat)
    returns (seenHere: set<int>)
    requires TraceFits(s, lim, rules, v, h, maxDepth, seen, t, seen') && i < |t.steps|
    ensures maxDepth > 0 && i < |s.children| && StepFits(s, i, lim, rules, v, h, maxDepth - 1, seenHere, t.steps[i])
  {
    hide StepFits;
    seenHere := SeenBefore(t.steps, i, seen + {s.id});
  }

  lemma NoVisitsYet(t: Trace)
    ensures VisitsUpTo(t, 0) == []
  {
  }

  lemma StepIsInTree(s: SearchNode, i: nat, st: Step)
    requires i < |s.children| && (st.Taken? ==> st.visit.found == s.children[i].found)
    requires st.Taken? ==> st.below == Trace([]) || forall x :: x in VisitsOf(st.below) ==> InTree(s.children[i].node, x.found)
    ensures forall x :: x in StepVisits(st) ==> InTree(s, x.found)
  {
    NoVisitsYet(Trace([]));
    hide VisitsUpTo;
    forall x | x in StepVisits(st) ensures InTree(s, x.found) {
      assert x == st.visit || x in VisitsOf(st.below);
      assert s.children[i].found == x.found || InTree(s.children[i].node, x.found);
    }
  }

  lemma StoreExplained(sn: Snapshot, h: BookHash, found: Found, listed: set<BookHash>, lim: Limits, r: Request)
    requires h in sn && r.outcome.Finished? && InTree(r.outcome.s, found)
    requires (h in listed || Shallower(sn, h, found.visits))
    ensures PossibleAll(sn, [StoreSearch(h, found.own)]) && Explained(sn, [StoreSearch(h, found.own)], listed, lim, [r])
  {
    hide InTree, Shallower, Apply, Explained, PossibleAll;
    StoreIsPossible(sn, StoreSearch(h, found.own));
    OneExplained(sn, StoreSearch(h, found.own), listed, lim, [r], r);
  }

  lemma VisitExplained(b: Book, sn: Snapshot, x: Visit, listed: set<BookHash>, lim: Limits, r: Request)
    requires VisitOk(b, sn, x) && VisitLists(x) <= listed && r.outcome.Finished? && InTree(r.outcome.s, x.found)
    ensures PossibleAll(sn, VisitEdits(x)) && Explained(sn, VisitEdits(x), listed, lim, [r])
  {
    hide InTree, HasMove, Apply, Explained, PossibleAll, ApplyAll;
    var h := x.at.node.hash;
    if x.Added? {
      var e := AddMove(h, x.m, x.pla);
      OneExplained(sn, e, listed, lim, [r], r);
      OneEdit(sn, e);
      var sn1 := ApplyAll(sn, [e]);
      NothingExplained(sn1, listed, lim, [r]);
      if x.stored {
        AddedIsThere(sn, e);
        StoreExplained(sn1, x.child.node.hash, x.found, listed, lim, r);
      }
      MoreExplained(sn, [e], StoreIf(x.stored, x.child.node.hash, x.found.own), listed, lim, [r]);
    } else {
      var e := StopExpanding(h);
      var closing := if x.Unplayable? || !x.legal then [e] else [];
      StoreIsPossible(sn, e);
      OneExplained(sn, e, listed, lim, [r], r);
      OneEdit(sn, e);
      NothingExplained(sn, listed, lim, [r]);
      NoEdits(sn);
      var sn1 := ApplyAll(sn, closing);
      NothingExplained(sn1, listed, lim, [r]);
      if x.Known? {
        if x.stored {
          ClosingKeeps(sn, e, x.child.node.hash, x.found.visits);
          StoreExplained(sn1, x.child.node.hash, x.found, listed, lim, r);
        }
        MoreExplained(sn, closing, StoreIf(x.stored, x.child.node.hash, x.found.own), listed, lim, [r]);
      }
    }
  }

  lemma AddedIsThere(sn: Snapshot, e: Edit)
    requires e.AddMove? && e.h in sn
    ensures e.m.hash in Apply(sn, e)
  {
  }

  lemma ClosingKeeps(sn: Snapshot, e: Edit, h: BookHash, visits: real)
    requires e.StopExpanding? && e.h in sn && Shallower(sn, h, visits)
    ensures Shallower(Apply(sn, e), h, visits) && h in Apply(sn, e)
  {
  }

  lemma {:induction false} VisitsExplained(b: Book, sn: Snapshot, visits: seq<Visit>, listed: set<BookHash>,
                                           lim: Limits, r: Request)
    requires VisitsOk(b, sn, visits) && ListedBy(visits) <= listed && r.outcome.Finished?
    requires forall x :: x in visits ==> InTree(r.outcome.s, x.found)
    ensures PossibleAll(sn, EditsOf(visits)) && Explained(sn, EditsOf(visits), listed, lim, [r])
    decreases |visits|
  {
    hide InTree, VisitOk, VisitEdits, VisitLists, Explained, PossibleAll, ApplyAll;
    if visits == [] {
      NothingExplained(sn, listed, lim, [r]);
    } else {
      VisitExplained(b, sn, visits[0], listed, lim, r);
      VisitsExplained(b, ApplyAll(sn, VisitEdits(visits[0])), visits[1..], listed, lim, r);
      MoreExplained(sn, VisitEdits(visits[0]), EditsOf(visits[1..]), listed, lim, [r]);
    }
  }

  // Searching again

  /** A leaf that is not listed is as it was. */
  lemma StillShallower(sn: Snapshot, edits: seq<Edit>, h: BookHash, visits: real)
    requires PossibleAll(sn, edits) && h !in Ends(edits) && Shallower(sn, h, visits)
    ensures Shallower(ApplyAll(sn, edits), h, visits)
  {
    NotAnEnd(sn, edits, h);
  }

  /** What was noted for another search is listed, or still a leaf with few visits. */
  lemma {:induction false} NotedIsShallow(b: Book, sn: Snapshot, visits: seq<Visit>, listed: set<BookHash>, lim: Limits,
                                          h: BookHash)
    requires VisitsOk(b, sn, visits) && ListedBy(visits) <= listed && h in AgainBy(b, sn, visits, lim)
    ensures PossibleAll(sn, EditsOf(visits))
    ensures (h in listed || Shallower(ApplyAll(sn, EditsOf(visits)), h, lim.leafVisits))
    decreases |visits|
  {
    hide VisitOk, VisitEdits, PossibleAll, ApplyAll, Shallower;
    VisitsPossible(b, sn, visits);
    var after, rest := ApplyAll(sn, VisitEdits(visits[0])), visits[1..];
    VisitsPossible(b, after, rest);
    MoreEdits(sn, VisitEdits(visits[0]), EditsOf(rest));
    if h in AgainBy(b, after, rest, lim) {
      NotedIsShallow(b, after, rest, listed, lim, h);
    } else if h !in listed {
      EndsAreListed(b, after, rest);
      StillShallower(after, EditsOf(rest), h, lim.leafVisits);
    }
  }

  lemma OneAgainExplained(sn: Snapshot, h: BookHash, listed: set<BookHash>, lim: Limits, r: Request)
    requires h in sn && r.outcome.Finished? && (h in listed || Shallower(sn, h, lim.leafVisits))
    ensures PossibleAll(sn, OneAgain(h, r.again(h))) && Explained(sn, OneAgain(h, r.again(h)), listed, lim, [r])
    ensures Ends(OneAgain(h, r.again(h))) == {}
  {
    var e, e2 := StoreSearch(h, r.again(h).own), StopExpanding(h);
    AgainHasNoEnds(h, r.again(h));
    hide InTree, Apply, Explained, PossibleAll, ApplyAll, Ends;
    StoreIsPossible(sn, e);
    OneExplained(sn, e, listed, lim, [r], r);
    OneEdit(sn, e);
    if r.again(h).noMoves {
      StoredIsThere(sn, e);
      StoreIsPossible(Apply(sn, e), e2);
      OneExplained(Apply(sn, e), e2, listed, lim, [r], r);
      MoreExplained(sn, [e], [e2], listed, lim, [r]);
    } else {
      assert [e] + [] == [e];
    }
  }

  lemma StoredIsThere(sn: Snapshot, e: Edit)
    requires e.StoreSearch? && e.h in sn
    ensures e.h in Apply(sn, e)
  {
  }

  lemma AgainHasNoEnds(h: BookHash, result: Searched)
    ensures Ends(OneAgain(h, result)) == {}
  {
    var closing := if result.noMoves then [StopExpanding(h)] else [];
    assert closing != [] ==> closing[1..] == [];
    assert [StoreSearch(h, result.own)][1..] == [];
    MoreEnds([StoreSearch(h, result.own)], closing);
  }

  lemma {:induction false} AgainExplained(sn: Snapshot, nodes: seq<BookNode>, listed: set<BookHash>, lim: Limits,
                                          r: Request)
    requires r.outcome.Finished? && PossibleAll(sn, AgainEdits(nodes, r.again))
    requires forall n :: n in nodes ==> n.hash in listed || Shallower(sn, n.hash, lim.leafVisits)
    ensures Explained(sn, AgainEdits(nodes, r.again), listed, lim, [r])
    ensures Ends(AgainEdits(nodes, r.again)) == {}
    decreases |nodes|
  {
    hide Explained, PossibleAll, ApplyAll, OneAgain, Ends, Shallower;
    if nodes == [] {
      NothingExplained(sn, listed, lim, [r]);
      NoEdits(sn);
    } else {
      var init, h := nodes[..|nodes| - 1], nodes[|nodes| - 1].hash;
      SplitEdits(sn, AgainEdits(init, r.again), OneAgain(h, r.again(h)));
      AgainExplained(sn, init, listed, lim, r);
      var sn1 := ApplyAll(sn, AgainEdits(init, r.again));
      AgainIsThere(sn1, h, r.again(h));
      if h !in listed {
        StillShallower(sn, AgainEdits(init, r.again), h, lim.leafVisits);
      }
      OneAgainExplained(sn1, h, listed, lim, r);
      MoreExplained(sn, AgainEdits(init, r.again), OneAgain(h, r.again(h)), listed, lim, [r]);
      MoreEnds(AgainEdits(init, r.again), OneAgain(h, r.again(h)));
    }
  }

  lemma AgainIsThere(sn: Snapshot, h: BookHash, result: Searched)
    requires PossibleAll(sn, OneAgain(h, result))
    ensures h in sn
  {
    assert OneAgain(h, result)[0].h == h;
  }

  /** All that was done for a request is explained. */
  lemma WorkExplained(b: Book, key: Key, lim: Limits, rules: Rules, maxDepth: nat, sn: Snapshot, r: Request, w: Work)
    requires WorkFits(b, key, lim, rules, maxDepth, sn, r, w)
    ensures PossibleAll(sn, WorkEdits(r, w)) && Explained(sn, WorkEdits(r, w), WorkLists(r, w), lim, [r])
  {
    hide Explained, PossibleAll, ApplyAll, VisitsOk, ListedBy, EditsOf, AgainEdits, AgainBy, TraceFits, InTree, Stands,
         VisitsUpTo, RouteOk, MayBePlayed, HistoryOf, OneEach, Shallower;
    match w
    case Absent => NothingExplained(sn, WorkLists(r, w), lim, [r]);
    case Abandoned(_, _, _) => NothingExplained(sn, WorkLists(r, w), lim, [r]);
    case Closed(_, _, _) =>
      StoreIsPossible(sn, StopExpanding(r.hash));
      OneExplained(sn, StopExpanding(r.hash), WorkLists(r, w), lim, [r], r);
    case Recorded(at, route, h, t, seen, searched) =>
      var listed, visits := WorkLists(r, w), VisitsOf(t);
      TraceIsInTree(r.outcome.s, lim, rules, at, h, maxDepth, {}, t, seen, |t.steps|);
      VisitsExplained(b, sn, visits, listed, lim, r);
      var sn1 := ApplyAll(sn, EditsOf(visits));
      SplitEdits(sn, EditsOf(visits) + AgainEdits(searched, r.again), [StopReExpanding(r.hash)]);
      SplitEdits(sn, EditsOf(visits), AgainEdits(searched, r.again));
      forall n | n in searched ensures n.hash in listed || Shallower(sn1, n.hash, lim.leafVisits) {
        assert n.hash in HashSet(searched);
        NotedIsShallow(b, sn, visits, listed, lim, n.hash);
      }
      AgainExplained(sn1, searched, listed, lim, r);
      MoreExplained(sn, EditsOf(visits), AgainEdits(searched, r.again), listed, lim, [r]);
      var sn2 := ApplyAll(sn, EditsOf(visits) + AgainEdits(searched, r.again));
      LastIsPossible(sn2, StopReExpanding(r.hash));
      OneExplained(sn2, StopReExpanding(r.hash), listed, lim, [r], r);
      MoreExplained(sn, EditsOf(visits) + AgainEdits(searched, r.again), [StopReExpanding(r.hash)], listed, lim, [r]);
  }

  lemma LastIsPossible(sn: Snapshot, e: Edit)
    requires PossibleAll(sn, [e])
    ensures Possible(sn, e)
  {
    assert [e][0] == e;
  }

  // ---------------------------------------------------------------------------------------------
  // A round

  /** The edits of a round, one request after another. */
  function RoundEdits(rs: seq<Request>, ws: seq<Work>): seq<Edit>
    requires |rs| == |ws|
  {
    if rs == [] then [] else RoundEdits(rs[..|rs| - 1], ws[..|ws| - 1]) + WorkEdits(rs[|rs| - 1], ws[|ws| - 1])
  }

  function RoundLists(rs: seq<Request>, ws: seq<Work>): set<BookHash>
    requires |rs| == |ws|
  {
    if rs == [] then {} else RoundLists(rs[..|rs| - 1], ws[..|ws| - 1]) + WorkLists(rs[|rs| - 1], ws[|ws| - 1])
  }

  /** Every request was worked on as it calls for, in the book as it was then. */
  ghost predicate RoundFits(b: Book, key: Key, lim: Limits, rules: Rules, maxDepth: nat, sn: Snapshot, rs: seq<Request>,
                            ws: seq<Work>)
    requires |rs| == |ws|
  {
    rs == []
    || (var n := |rs| - 1;
        && RoundFits(b, key, lim, rules, maxDepth, sn, rs[..n], ws[..n]) && PossibleAll(sn, RoundEdits(rs[..n], ws[..n]))
        && WorkFits(b, key, lim, rules, maxDepth, ApplyAll(sn, RoundEdits(rs[..n], ws[..n])), rs[n], ws[n]))
  }

  lemma NoRoundYet(b: Book, key: Key, lim: Limits, rules: Rules, maxDepth: nat, sn: Snapshot)
    ensures RoundFits(b, key, lim, rules, maxDepth, sn, [], []) && RoundEdits([], []) == [] && RoundLists([], []) == {}
  {
  }

  lemma RoundMore(b: Book, key: Key, lim: Limits, rules: Rules, maxDepth: nat, sn: Snapshot, rs: seq<Request>,
                  ws: seq<Work>, r: Request, w: Work)
    requires |rs| == |ws| && RoundFits(b, key, lim, rules, maxDepth, sn, rs, ws) && PossibleAll(sn, RoundEdits(rs, ws))
    requires WorkFits(b, key, lim, rules, maxDepth, ApplyAll(sn, RoundEdits(rs, ws)), r, w)
    ensures RoundFits(b, key, lim, rules, maxDepth, sn, rs + [r], ws + [w])
    ensures RoundEdits(rs + [r], ws + [w]) == RoundEdits(rs, ws) + WorkEdits(r, w)
    ensures RoundLists(rs + [r], ws + [w]) == RoundLists(rs, ws) + WorkLists(r, w)
  {
    hide WorkFits, WorkEdits, WorkLists;
    assert (rs + [r])[..|rs|] == rs && (ws + [w])[..|ws|] == ws;
  }

  /** All edits of a round are explained. */
  lemma {:induction false} RoundExplained(b: Book, key: Key, lim: Limits, rules: Rules, maxDepth: nat, sn: Snapshot,
                                          rs: seq<Request>, ws: seq<Work>, listed: set<BookHash>)
    requires |rs| == |ws| && RoundFits(b, key, lim, rules, maxDepth, sn, rs, ws) && RoundLists(rs, ws) <= listed
    ensures PossibleAll(sn, RoundEdits(rs, ws)) && Explained(sn, RoundEdits(rs, ws), listed, lim, rs)
    decreases |rs|
  {
    hide WorkFits, WorkEdits, WorkLists, Explained, PossibleAll, ApplyAll;
    if rs == [] {
      NothingExplained(sn, listed, lim, rs);
    } else {
      var n := |rs| - 1;
      var sn1 := ApplyAll(sn, RoundEdits(rs[..n], ws[..n]));
      RoundExplained(b, key, lim, rules, maxDepth, sn, rs[..n], ws[..n], listed);
      WorkExplained(b, key, lim, rules, maxDepth, sn1, rs[n], ws[n]);
      ExplainedGrows(sn, RoundEdits(rs[..n], ws[..n]), listed, listed, lim, rs[..n], rs);
      ExplainedGrows(sn1, WorkEdits(rs[n], ws[n]), WorkLists(rs[n], ws[n]), listed, lim, [rs[n]], rs);
      MoreExplained(sn, RoundEdits(rs[..n], ws[..n]), WorkEdits(rs[n], ws[n]), listed, lim, rs);
    }
  }

  lemma {:induction false} ExplainedEnds(sn: Snapshot, edits: seq<Edit>, listed: set<BookHash>, lim: Limits,
                                         rs: seq<Request>)
    requires PossibleAll(sn, edits) && Explained(sn, edits, listed, lim, rs)
    ensures Ends(edits) <= listed
    decreases |edits|
  {
    hide Apply, ReasonToStore;
    if edits != [] {
      ExplainedEnds(Apply(sn, edits[0]), edits[1..], listed, lim, rs);
    }
  }

  /** The search is part of what some request found, and was deeper than the leaf. */
  ghost predicate DeeperSearch(sn: Snapshot, h: BookHash, own: BookValues, lim: Limits, rs: seq<Request>) {
    exists r :: r in rs && ReasonToStore(sn, h, own, {}, lim, r)
  }

  lemma UnlistedReason(sn: Snapshot, h: BookHash, own: BookValues, listed: set<BookHash>, lim: Limits, r: Request)
    requires ReasonToStore(sn, h, own, listed, lim, r) && h !in listed
    ensures ReasonToStore(sn, h, own, {}, lim, r) && h in sn && sn[h].moves == map[]
  {
    hide InTree;
    if !(own == r.again(h).own && Shallower(sn, h, lim.leafVisits)) {
      var f :| InTree(r.outcome.s, f) && f.own == own && (h in listed || Shallower(sn, h, f.visits));
      assert h in {} || Shallower(sn, h, f.visits);
    }
  }

  lemma SameReason(sn: Snapshot, sn': Snapshot, h: BookHash, own: BookValues, lim: Limits, r: Request)
    requires ReasonToStore(sn', h, own, {}, lim, r) && h in sn
    requires h in sn' ==> sn'[h].moves == sn[h].moves && sn'[h].values == sn[h].values
    ensures ReasonToStore(sn, h, own, {}, lim, r)
  {
    hide InTree;
    if !(own == r.again(h).own && Shallower(sn', h, lim.leafVisits)) {
      var f :| InTree(r.outcome.s, f) && f.own == own && (h in {} || Shallower(sn', h, f.visits));
      assert h in {} || Shallower(sn, h, f.visits);
    }
  }

  /**
   A node at which a search was stored without being listed was a leaf of the book before, is one after,
   has the values it had, and now has a search of the round that was deeper than those.
   */
  lemma {:induction false} UnlistedStores(sn: Snapshot, edits: seq<Edit>, listed: set<BookHash>, lim: Limits,
                                          rs: seq<Request>, h: BookHash)
    requires PossibleAll(sn, edits) && Explained(sn, edits, listed, lim, rs) && h in StoredAt(edits) && h !in listed
    ensures h in sn && sn[h].moves == map[] && h in ApplyAll(sn, edits)
    ensures var after := ApplyAll(sn, edits)[h];
            && after.moves == map[] && after.values == sn[h].values && after.inputs.pla == sn[h].inputs.pla
            && DeeperSearch(sn, h, after.inputs.own, lim, rs)
    decreases |edits|
  {
    hide Apply, ReasonToStore, FreshState;
    ExplainedEnds(sn, edits, listed, lim, rs);
    NotAnEnd(sn, edits, h);
    var e := edits[0];
    var sn1 := Apply(sn, e);
    OneEdit(sn, e);
    EndsOfOne(e, edits);
    NotAnEnd(sn, [e], h);
    if h in StoredAt(edits[1..]) {
      UnlistedStores(sn1, edits[1..], listed, lim, rs, h);
      var r :| r in rs && ReasonToStore(sn1, h, ApplyAll(sn, edits)[h].inputs.own, {}, lim, r);
      SameReason(sn, sn1, h, ApplyAll(sn, edits)[h].inputs.own, lim, r);
    } else {
      var r :| r in rs && Reason(sn, e, listed, lim, r);
      UnlistedReason(sn, h, e.own, listed, lim, r);
      NotAnEnd(sn1, edits[1..], h);
      StoredHere(sn, e);
    }
  }

  lemma EndsOfOne(e: Edit, edits: seq<Edit>)
    requires edits != [] && edits[0] == e
    ensures Ends([e]) <= Ends(edits) && Ends(edits[1..]) <= Ends(edits)
  {
    assert [e][1..] == [];
  }

  lemma StoredHere(sn: Snapshot, e: Edit)
    requires e.StoreSearch? && e.h in sn
    ensures e.h in Apply(sn, e) && Apply(sn, e)[e.h].inputs.own == e.own
  {
  }

  // ---------------------------------------------------------------------------------------------
  // Recomputing after a round

  /**
   One round: the book before, what was done and by which edits, the listed nodes, those marked dirty,
   and the book after.
   */
  datatype Round = Round(before: Snapshot, rs: seq<Request>, ws: seq<Work>, edits: seq<Edit>,
                         listed: seq<BookNode>, dirty: set<BookHash>, after: Snapshot)

  /** The nodes that were asked for; they are listed from the start. */
  ghost function Asked(sn: Snapshot, rs: seq<Request>): set<BookHash> {
    set i | 0 <= i < |rs| && rs[i].hash in sn :: rs[i].hash
  }

  /**
   The edits are those of the requests, the listed nodes are those they list, and recomputing was told
   of just these.
   */
  ghost predicate RoundOk(b: Book, key: Key, p: Params, lim: Limits, rules: Rules, maxDepth: nat,
                          rank: map<BookHash, nat>, rd: Round) {
    && |rd.rs| == |rd.ws| && RoundFits(b, key, lim, rules, maxDepth, rd.before, rd.rs, rd.ws)
    && rd.edits == RoundEdits(rd.rs, rd.ws) && HashSet(rd.listed) == Asked(rd.before, rd.rs) + RoundLists(rd.rs, rd.ws)
    && PossibleAll(rd.before, rd.edits) && RecomputedRound(p, b.root.hash, rank, ApplyAll(rd.before, rd.edits), rd)
  }

  ghost predicate RecomputedRound(p: Params, root: BookHash, rank: map<BookHash, nat>, edited: Snapshot, rd: Round) {
    && Linked(edited, root) && DirtyIs(edited, rd.listed, |rd.listed|, rd.dirty)
    && Structure(rd.after, root) == Structure(edited, root)
    && (AcyclicBy(rd.after, rank) ==> ValuesRecomputed(p, edited, rd.after, rd.dirty))
  }

  /** All that the following needs of a round: its edits have reasons, and recomputing was told of the listed nodes. */
  ghost predicate Reasoned(p: Params, lim: Limits, root: BookHash, rank: map<BookHash, nat>, rd: Round) {
    && PossibleAll(rd.before, rd.edits) && Explained(rd.before, rd.edits, HashSet(rd.listed), lim, rd.rs)
    && RecomputedRound(p, root, rank, ApplyAll(rd.before, rd.edits), rd)
  }

  /** The nodes at which the round stored a search without listing them. */
  ghost function Missed(rd: Round): set<BookHash> {
    StoredAt(rd.edits) - HashSet(rd.listed)
  }

  lemma RoundReasons(b: Book, key: Key, p: Params, lim: Limits, rules: Rules, maxDepth: nat, rank: map<BookHash, nat>,
                     rd: Round)
    requires RoundOk(b, key, p, lim, rules, maxDepth, rank, rd)
    ensures Reasoned(p, lim, b.root.hash, rank, rd) && Asked(rd.before, rd.rs) <= HashSet(rd.listed)
  {
    hide Explained, RoundFits, PossibleAll, ApplyAll, RecomputedRound;
    RoundExplained(b, key, lim, rules, maxDepth, rd.before, rd.rs, rd.ws, HashSet(rd.listed));
  }

  lemma ReasonedFacts(p: Params, lim: Limits, root: BookHash, rank: map<BookHash, nat>, rd: Round)
    requires Reasoned(p, lim, root, rank, rd)
    ensures PossibleAll(rd.before, rd.edits) && Ends(rd.edits) <= HashSet(rd.listed) <= rd.dirty
  {
    hide Explained, PossibleAll, ApplyAll, AncestorClosed, ParentMapOf, Linked, Structure, ValuesRecomputed;
    ExplainedEnds(rd.before, rd.edits, HashSet(rd.listed), lim, rd.rs);
  }

  /**
   A round can only miss old leaves: a missed node was a leaf of the book before the round and still is,
   it is not marked dirty, keeps the values it had, and its new search is one of the round's and was
   deeper than those values.
   */
  lemma MissedAreOldLeaves(p: Params, lim: Limits, root: BookHash, rank: map<BookHash, nat>, rd: Round, h: BookHash)
    requires Reasoned(p, lim, root, rank, rd) && h in Missed(rd)
    ensures h in rd.before && rd.before[h].moves == map[] && h !in rd.dirty
    ensures h in rd.after && rd.after[h].moves == map[] && rd.after[h].inputs.pla == rd.before[h].inputs.pla
    ensures DeeperSearch(rd.before, h, rd.after[h].inputs.own, lim, rd.rs)
    ensures AcyclicBy(rd.after, rank) ==> rd.after[h].values == rd.before[h].values
  {
    hide Explained, PossibleAll, ApplyAll, AncestorClosed, ParentMapOf, Linked, Structure, AcyclicBy, ValueSettledAt,
         ReasonToStore;
    UnlistedStores(rd.before, rd.edits, HashSet(rd.listed), lim, rd.rs, h);
    var edited := ApplyAll(rd.before, rd.edits);
    LeafIsDirtyIfListed(edited, root, rd.listed, rd.dirty, h);
    SameNodeState(edited, rd.after, root, h);
  }

  lemma SameNodeState(sn: Snapshot, sn': Snapshot, root: BookHash, h: BookHash)
    requires Structure(sn', root) == Structure(sn, root) && h in sn
    ensures h in sn' && sn'[h].inputs == sn[h].inputs && (sn'[h].moves == map[] <==> sn[h].moves == map[])
  {
    SameNode(sn, sn', root, h);
    assert Structure(sn, root)[h] == Structure(sn', root)[h];
    assert sn[h].moves.Keys == sn'[h].moves.Keys;
    assert sn[h].moves == map[] <==> sn[h].moves.Keys == {};
    assert sn'[h].moves == map[] <==> sn'[h].moves.Keys == {};
  }

  /** What can be stale after a round: what was and is not dirty, and what was missed. */
  ghost function StaleAfter(rd: Round, stale: set<BookHash>): set<BookHash> {
    stale - rd.dirty + Missed(rd)
  }

  /** The nodes are leaves of the book. */
  ghost predicate Leaves(sn: Snapshot, nodes: set<BookHash>) {
    forall h :: h in nodes ==> h in sn && sn[h].moves == map[]
  }

  lemma StaleStayLeaves(p: Params, lim: Limits, root: BookHash, rank: map<BookHash, nat>, rd: Round,
                        stale: set<BookHash>)
    requires Reasoned(p, lim, root, rank, rd) && Leaves(rd.before, stale)
    ensures Leaves(rd.after, StaleAfter(rd, stale))
  {
    hide Reasoned, Missed, DeeperSearch, AcyclicBy;
    forall h | h in StaleAfter(rd, stale) ensures h in rd.after && rd.after[h].moves == map[] {
      if h in Missed(rd) {
        MissedAreOldLeaves(p, lim, root, rank, rd, h);
      } else {
        UndirtiedStays(p, lim, root, rank, rd, h);
      }
    }
  }

  lemma UndirtiedStays(p: Params, lim: Limits, root: BookHash, rank: map<BookHash, nat>, rd: Round, h: BookHash)
    requires Reasoned(p, lim, root, rank, rd) && h in rd.before && h !in rd.dirty && rd.before[h].moves == map[]
    ensures h in rd.after && rd.after[h].moves == map[]
  {
    hide PossibleAll, ApplyAll, DirtyIs, Linked, Structure, AcyclicBy, ValuesRecomputed, Explained;
    ReasonedFacts(p, lim, root, rank, rd);
    NotAnEnd(rd.before, rd.edits, h);
    SameNodeState(ApplyAll(rd.before, rd.edits), rd.after, root, h);
  }

  /** After a round all nodes are settled but the stale ones. */
  lemma RoundLeavesStale(p: Params, lim: Limits, root: BookHash, rank: map<BookHash, nat>, rd: Round,
                         depth: map<BookHash, nat>, stale: set<BookHash>)
    requires Reasoned(p, lim, root, rank, rd) && AcyclicBy(rd.after, rank)
    requires Linked(rd.before, root) && RootedBy(rd.before, root, depth) && SettledOutside(p, rd.before, stale)
    ensures SettledOutside(p, rd.after, StaleAfter(rd, stale))
  {
    hide PossibleAll, ApplyAll, AncestorClosed, ParentMapOf, Linked, Structure, AcyclicBy, ValuesRecomputed, Explained,
         ValueSettledAt, RootedBy, HashSet;
    ReasonedFacts(p, lim, root, rank, rd);
    var edited := ApplyAll(rd.before, rd.edits);
    var depth' := EditedBookIsReady(p, rd.before, root, depth, rd.edits, stale);
    EndsOrStored(rd.edits);
    SameDomain(rd.after, edited, root);
    forall h | h in rd.after && h !in StaleAfter(rd, stale) ensures ValueSettledAt(p, rd.after, h) {
      SettledExactlyWhere(p, edited, rd.after, root, rd.dirty, h);
    }
  }

  /** The values of a node without children. */
  function LeafValues(p: Params, inputs: NodeInputs): RecursiveBookValues {
    NodeValues(p, NodeShape(inputs.pla, inputs.own, []), [])
  }

  lemma LeafIsSettledWhen(p: Params, sn: Snapshot, h: BookHash)
    requires h in sn && sn[h].moves == map[]
    ensures ValueSettledAt(p, sn, h) <==> sn[h].values == LeafValues(p, sn[h].inputs)
  {
    hide NodeValues;
    NoKids(sn[h].moves);
    assert KidValues(ShapeOf(sn[h]).kids, ValuesOf(sn)) == [];
  }

  /** A book whose stale nodes are leaves is settled exactly if each of them has the values its own search gives. */
  lemma SettledIffStaleAgree(p: Params, sn: Snapshot, stale: set<BookHash>)
    requires SettledOutside(p, sn, stale) && Leaves(sn, stale)
    ensures ValuesSettled(p, sn) <==> forall h :: h in stale ==> sn[h].values == LeafValues(p, sn[h].inputs)
  {
    hide ValueSettledAt, LeafValues;
    forall h | h in stale ensures ValueSettledAt(p, sn, h) <==> sn[h].values == LeafValues(p, sn[h].inputs) {
      LeafIsSettledWhen(p, sn, h);
    }
  }

  /**
   A round settles a settled book if and only if it missed no search that gives its leaf other values
   than the leaf had.
   */
  lemma RoundSettlesExactly(p: Params, lim: Limits, root: BookHash, rank: map<BookHash, nat>, rd: Round,
                            depth: map<BookHash, nat>)
    requires Reasoned(p, lim, root, rank, rd) && AcyclicBy(rd.after, rank)
    requires Linked(rd.before, root) && RootedBy(rd.before, root, depth) && ValuesSettled(p, rd.before)
    ensures Missed(rd) <= rd.before.Keys * rd.after.Keys
    ensures ValuesSettled(p, rd.after) <==>
            forall h :: h in Missed(rd) ==> rd.before[h].values == LeafValues(p, rd.after[h].inputs)
    ensures (exists h :: h in Missed(rd) && rd.before[h].values.visits != rd.after[h].inputs.own.visits) ==>
            !ValuesSettled(p, rd.after)
  {
    hide Reasoned, AcyclicBy, Linked, RootedBy, ValueSettledAt, Missed, LeafValues, DeeperSearch;
    RoundLeavesStale(p, lim, root, rank, rd, depth, {});
    StaleStayLeaves(p, lim, root, rank, rd, {});
    assert StaleAfter(rd, {}) == Missed(rd);
    forall h | h in Missed(rd) ensures h in rd.before && h in rd.after && rd.after[h].values == rd.before[h].values {
      MissedAreOldLeaves(p, lim, root, rank, rd, h);
    }
    SettledIffStaleAgree(p, rd.after, Missed(rd));
    forall h | h in Missed(rd) && ValuesSettled(p, rd.after)
      ensures rd.before[h].values.visits == rd.after[h].inputs.own.visits
    {
      LeafVisits(p, rd.after, h);
    }
  }

  // ---------------------------------------------------------------------------------------------
  // Round after round

  ghost predicate RoundsOk(b: Book, key: Key, p: Params, lim: Limits, rules: Rules, maxDepth: nat,
                           rank: map<BookHash, nat>, rounds: seq<Round>) {
    forall i :: 0 <= i < |rounds| ==> RoundOk(b, key, p, lim, rules, maxDepth, rank, rounds[i])
  }

  /** The rounds lead from one state of the book to the other. */
  ghost predicate Chain(sn: Snapshot, rounds: seq<Round>, sn': Snapshot) {
    if rounds == [] then sn' == sn
    else rounds[|rounds| - 1].after == sn' && Chain(sn, rounds[..|rounds| - 1], rounds[|rounds| - 1].before)
  }

  ghost function StaleOf(rounds: seq<Round>): set<BookHash> {
    if rounds == [] then {} else StaleAfter(rounds[|rounds| - 1], StaleOf(rounds[..|rounds| - 1]))
  }

  lemma RoundsMore(b: Book, key: Key, p: Params, lim: Limits, rules: Rules, maxDepth: nat, rank: map<BookHash, nat>,
                   sn: Snapshot, rounds: seq<Round>, rd: Round)
    requires RoundsOk(b, key, p, lim, rules, maxDepth, rank, rounds)
    requires RoundOk(b, key, p, lim, rules, maxDepth, rank, rd)
    requires Chain(sn, rounds, rd.before)
    ensures RoundsOk(b, key, p, lim, rules, maxDepth, rank, rounds + [rd]) && Chain(sn, rounds + [rd], rd.after)
    ensures StaleOf(rounds + [rd]) == StaleAfter(rd, StaleOf(rounds))
  {
    hide RoundOk, StaleAfter;
    assert (rounds + [rd])[..|rounds|] == rounds && (rounds + [rd])[|rounds|] == rd;
  }

  lemma NoRounds(b: Book, key: Key, p: Params, lim: Limits, rules: Rules, maxDepth: nat, rank: map<BookHash, nat>,
                 sn: Snapshot)
    ensures RoundsOk(b, key, p, lim, rules, maxDepth, rank, []) && Chain(sn, [], sn) && StaleOf([]) == {}
  {
  }

  ghost predicate NoneMissed(rounds: seq<Round>) {
    forall i :: 0 <= i < |rounds| ==> Missed(rounds[i]) == {}
  }

  /** If no round missed a search, nothing is stale. */
  lemma {:induction false} NothingMissed(rounds: seq<Round>)
    requires NoneMissed(rounds)
    ensures StaleOf(rounds) == {}
  {
    hide Missed;
    if rounds != [] {
      NothingMissed(rounds[..|rounds| - 1]);
    }
  }
}
