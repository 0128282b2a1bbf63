/**
 A round by many threads. Each thread expands one node; it lets go of the lock between finding or
 adding a child and storing the search there, and between the searches, so that other threads step in.
 Whatever the interleaving, every edit has its reason, and so all that is known of rounds holds: a
 round can only miss old leaves, and settles the book exactly if it missed no search that matters.
 */
module Interleaving {
  import opened Util
  import opened Symmetry
  import opened BookData
  import opened ValueRules
  import opened Settled
  import opened Recompute
  import opened Views
  import opened BookViews
  import opened Hashing
  import opened Walks
  import opened Growth
  import opened Visits
  import opened Recording
  import opened Rounds

  datatype Phase = Starting | Linking | Storing(x: Visit) | Checking(x: Visit) | Searching(left: seq<BookNode>) | Closing | Done

  /** One thread: the work it does, the visits still to make, and the nodes noted for another search. */
  datatype Thread = Thread(r: Request, w: Work, phase: Phase, visits: seq<Visit>, noted: set<BookHash>)

  /** The book, the edits made since the start of the round, and the threads. */
  datatype State = State(sn: Snapshot, edits: seq<Edit>, threads: seq<Thread>)

  /** What a visit edits before it lets go of the lock. */
  function LinkEdits(x: Visit): seq<Edit> {
    match x
    case Unplayable(at, _) => [StopExpanding(at.node.hash)]
    case Added(at, _, _, m, pla, _, _) => [AddMove(at.node.hash, m, pla)]
    case Known(at, _, _, legal, _, _) => if legal then [] else [StopExpanding(at.node.hash)]
  }

  predicate Stores(x: Visit) { !x.Unplayable? && x.stored }

  /** The thread i makes these edits, all under the lock, and goes on as th. */
  ghost predicate Acts(s: State, s': State, i: nat, edits: seq<Edit>, th: Thread) {
    && i < |s.threads| && PossibleAll(s.sn, edits)
    && s' == State(ApplyAll(s.sn, edits), s.edits + edits, s.threads[i := th])
  }

  /** Reach the node; the history hashes to it. The node is closed if it has to be. */
  ghost predicate Start(b: Book, key: Key, lim: Limits, rules: Rules, maxDepth: nat, s: State, s': State, i: nat) {
    && i < |s.threads| && s.threads[i].phase.Starting?
    && var th := s.threads[i];
       match th.w
       case Absent => th.r.hash !in s.sn && Acts(s, s', i, [], th.(phase := Done))
       case Closed(at, route, h) =>
         && Reached(b, key, rules, s.sn, th.r, at, route, h) && HasToClose(b, rules, th.r, route, h)
         && Acts(s, s', i, [], th.(phase := Closing))
       case Abandoned(at, route, h) =>
         && Reached(b, key, rules, s.sn, th.r, at, route, h) && !HasToClose(b, rules, th.r, route, h) && th.r.outcome.Stopped?
         && Acts(s, s', i, [], th.(phase := Done))
       case Recorded(at, route, h, t, seen, _) =>
         && Reached(b, key, rules, s.sn, th.r, at, route, h) && !HasToClose(b, rules, th.r, route, h) && th.r.outcome.Finished?
         && TraceFits(th.r.outcome.s, lim, rules, at, h, maxDepth, {}, t, seen)
         && Acts(s, s', i, [], th.(phase := Linking, visits := VisitsOf(t), noted := {}))
  }

  /** Find the child or add it, and decide whether the search is to be stored. */
  ghost predicate Link(b: Book, s: State, s': State, i: nat) {
    && i < |s.threads| && s.threads[i].phase.Linking? && s.threads[i].visits != []
    && var th := s.threads[i];
       var x := th.visits[0];
       VisitOk(b, s.sn, x)
       && Acts(s, s', i, LinkEdits(x), th.(phase := if Stores(x) then Storing(x) else Checking(x), visits := th.visits[1..]))
  }

  /** Store the search, whatever has become of the child by now. */
  ghost predicate Store(s: State, s': State, i: nat) {
    && i < |s.threads| && s.threads[i].phase.Storing?
    && var th := s.threads[i];
       var x := th.phase.x;
       Stores(x) && Acts(s, s', i, [StoreSearch(x.child.node.hash, x.found.own)], th.(phase := Checking(x)))
  }

  /** Note the child if it is a leaf with few visits now, and the node if a move was added. */
  ghost predicate Check(lim: Limits, s: State, s': State, i: nat) {
    && i < |s.threads| && s.threads[i].phase.Checking?
    && var th := s.threads[i];
       Acts(s, s', i, [], th.(phase := Linking, noted := th.noted + VisitAgain(s.sn, th.phase.x, lim)))
  }

  /** The visits are over: search the noted nodes again. */
  ghost predicate Gather(s: State, s': State, i: nat) {
    && i < |s.threads| && s.threads[i].phase.Linking? && s.threads[i].visits == [] && s.threads[i].w.Recorded?
    && var th := s.threads[i];
       HashSet(th.w.searched) == th.noted && OneEach(th.w.searched)
       && Acts(s, s', i, [], th.(phase := Searching(th.w.searched)))
  }

  ghost predicate Again(s: State, s': State, i: nat) {
    && i < |s.threads| && s.threads[i].phase.Searching? && s.threads[i].phase.left != []
    && var th := s.threads[i];
       var h := th.phase.left[0].hash;
       Acts(s, s', i, OneAgain(h, th.r.again(h)), th.(phase := Searching(th.phase.left[1..])))
  }

  ghost predicate Finish(s: State, s': State, i: nat) {
    && i < |s.threads| && s.threads[i].phase.Searching? && s.threads[i].phase.left == []
    && Acts(s, s', i, [StopReExpanding(s.threads[i].r.hash)], s.threads[i].(phase := Done))
  }

  ghost predicate Close(s: State, s': State, i: nat) {
    && i < |s.threads| && s.threads[i].phase.Closing?
    && Acts(s, s', i, [StopExpanding(s.threads[i].r.hash)], s.threads[i].(phase := Done))
  }

  ghost predicate Step(b: Book, key: Key, lim: Limits, rules: Rules, maxDepth: nat, s: State, s': State, i: nat) {
    || Start(b, key, lim, rules, maxDepth, s, s', i) || Link(b, s, s', i) || Store(s, s', i) || Check(lim, s, s', i)
    || Gather(s, s', i) || Again(s, s', i) || Finish(s, s', i) || Close(s, s', i)
  }

  // ---------------------------------------------------------------------------------------------
  // What every step keeps

  ghost function Requests(threads: seq<Thread>): (rs: seq<Request>)
    ensures |rs| == |threads| && forall i :: 0 <= i < |threads| ==> rs[i] == threads[i].r
  {
    seq(|threads|, i requires 0 <= i < |threads| => threads[i].r)
  }

  /** The node is listed, or still a leaf with fewer visits than this. */
  ghost predicate Excused(sn: Snapshot, listed: set<BookHash>, h: BookHash, visits: real) {
    h in sn && (h in listed || Shallower(sn, h, visits))
  }

  ghost predicate VisitMeant(th: Thread, listed: set<BookHash>, x: Visit) {
    VisitLists(x) <= listed && th.r.outcome.Finished? && InTree(th.r.outcome.s, x.found)
  }

  ghost predicate ThreadOk(lim: Limits, sn: Snapshot, listed: set<BookHash>, th: Thread) {
    && WorkLists(th.r, th.w) <= listed
    && (forall x :: x in th.visits ==> VisitMeant(th, listed, x))
    && (forall h :: h in th.noted ==> Excused(sn, listed, h, lim.leafVisits))
    && match th.phase
       case Storing(x) =>
         && VisitMeant(th, listed, x) && x.at.node.hash in sn && Stores(x)
         && Excused(sn, listed, x.child.node.hash, x.found.visits)
       case Checking(x) => VisitMeant(th, listed, x) && x.at.node.hash in sn
       case Searching(left) =>
         && th.w.Recorded? && th.r.outcome.Finished?
         && forall n :: n in left ==> Excused(sn, listed, n.hash, lim.leafVisits)
       case Starting => true
       case Linking => th.r.outcome.Finished?
       case Closing => true
       case Done => true
  }

  ghost predicate Inv(lim: Limits, before: Snapshot, listed: set<BookHash>, s: State) {
    && PossibleAll(before, s.edits) && s.sn == ApplyAll(before, s.edits)
    && Explained(before, s.edits, listed, lim, Requests(s.threads))
    && forall i :: 0 <= i < |s.threads| ==> ThreadOk(lim, s.sn, listed, s.threads[i])
  }

  lemma StillExcused(sn: Snapshot, edits: seq<Edit>, listed: set<BookHash>, h: BookHash, visits: real)
    requires PossibleAll(sn, edits) && Ends(edits) <= listed && Excused(sn, listed, h, visits)
    ensures Excused(ApplyAll(sn, edits), listed, h, visits)
  {
    StaysThere(sn, edits, h);
    if h !in listed {
      StillShallower(sn, edits, h, visits);
    }
  }

  lemma {:induction false} StaysThere(sn: Snapshot, edits: seq<Edit>, h: BookHash)
    requires PossibleAll(sn, edits) && h in sn
    ensures h in ApplyAll(sn, edits)
    decreases |edits|
  {
    hide Apply;
    if edits != [] {
      StillThere(sn, edits[0], h);
      StaysThere(Apply(sn, edits[0]), edits[1..], h);
    }
  }

  /** Edits by other threads do not spoil what a thread relies on. */
  lemma OthersKeepThread(lim: Limits, sn: Snapshot, edits: seq<Edit>, listed: set<BookHash>, th: Thread)
    requires PossibleAll(sn, edits) && Ends(edits) <= listed && ThreadOk(lim, sn, listed, th)
    ensures ThreadOk(lim, ApplyAll(sn, edits), listed, th)
  {
    hide Excused, VisitMeant, PossibleAll, ApplyAll, WorkLists;
    forall h | h in th.noted ensures Excused(ApplyAll(sn, edits), listed, h, lim.leafVisits) {
      StillExcused(sn, edits, listed, h, lim.leafVisits);
    }
    match th.phase
    case Storing(x) =>
      StaysThere(sn, edits, x.at.node.hash);
      StillExcused(sn, edits, listed, x.child.node.hash, x.found.visits);
    case Checking(x) => StaysThere(sn, edits, x.at.node.hash);
    case Searching(left) =>
      forall n | n in left ensures Excused(ApplyAll(sn, edits), listed, n.hash, lim.leafVisits) {
        StillExcused(sn, edits, listed, n.hash, lim.leafVisits);
      }
    case Starting =>
    case Linking =>
    case Closing =>
    case Done =>
  }

  lemma SameRequests(threads: seq<Thread>, i: nat, th: Thread)
    requires i < |threads| && th.r == threads[i].r
    ensures Requests(threads[i := th]) == Requests(threads)
  {
  }

  /** Explained edits by one thread keep the invariant, if the thread itself goes on rightly. */
  lemma ActKeepsInv(lim: Limits, before: Snapshot, listed: set<BookHash>, s: State, s': State, i: nat, edits: seq<Edit>,
                    th: Thread)
    requires Inv(lim, before, listed, s) && Acts(s, s', i, edits, th) && th.r == s.threads[i].r
    requires Explained(s.sn, edits, listed, lim, [th.r]) && ThreadOk(lim, s'.sn, listed, th)
    ensures Inv(lim, before, listed, s')
  {
    hide ThreadOk, Explained, PossibleAll, ApplyAll;
    var rs := Requests(s.threads);
    assert rs[i] == th.r;
    SameRequests(s.threads, i, th);
    ExplainedEnds(s.sn, edits, listed, lim, [th.r]);
    ExplainedGrows(s.sn, edits, listed, listed, lim, [th.r], rs);
    MoreExplained(before, s.edits, edits, listed, lim, rs);
    MoreEdits(before, s.edits, edits);
    forall j | 0 <= j < |s'.threads| ensures ThreadOk(lim, s'.sn, listed, s'.threads[j]) {
      if j != i {
        OthersKeepThread(lim, s.sn, edits, listed, s.threads[j]);
      }
    }
  }

  lemma NothingActed(lim: Limits, before: Snapshot, listed: set<BookHash>, s: State, s': State, i: nat, th: Thread)
    requires Inv(lim, before, listed, s) && Acts(s, s', i, [], th) && th.r == s.threads[i].r
    requires ThreadOk(lim, s.sn, listed, th)
    ensures Inv(lim, before, listed, s')
  {
    hide ThreadOk, Explained, Inv, PossibleAll, ApplyAll;
    NothingExplained(s.sn, listed, lim, [th.r]);
    NoEdits(s.sn);
    ActKeepsInv(lim, before, listed, s, s', i, [], th);
  }

  lemma InvAt(lim: Limits, before: Snapshot, listed: set<BookHash>, s: State, i: nat)
    requires Inv(lim, before, listed, s) && i < |s.threads|
    ensures ThreadOk(lim, s.sn, listed, s.threads[i])
  {
    hide ThreadOk, Explained, PossibleAll, ApplyAll;
  }

  lemma ListedVisits(visits: seq<Visit>, x: Visit)
    requires x in visits
    ensures VisitLists(x) <= ListedBy(visits)
    decreases |visits|
  {
    hide VisitLists;
    if x != visits[0] {
      ListedVisits(visits[1..], x);
    }
  }

  lemma StartKeeps(b: Book, key: Key, lim: Limits, rules: Rules, maxDepth: nat, before: Snapshot, listed: set<BookHash>,
                   s: State, s': State, i: nat)
    requires Inv(lim, before, listed, s) && Start(b, key, lim, rules, maxDepth, s, s', i)
    ensures Inv(lim, before, listed, s')
  {
    hide Inv, Acts, Reached, HasToClose, TraceFits, VisitsUpTo, Excused, InTree, VisitLists, ListedBy;
    InvAt(lim, before, listed, s, i);
    var th := s.threads[i];
    match th.w
    case Absent => NothingActed(lim, before, listed, s, s', i, th.(phase := Done));
    case Closed(at, route, h) => NothingActed(lim, before, listed, s, s', i, th.(phase := Closing));
    case Abandoned(at, route, h) => NothingActed(lim, before, listed, s, s', i, th.(phase := Done));
    case Recorded(at, route, h, t, seen, _) =>
      TraceIsInTree(th.r.outcome.s, lim, rules, at, h, maxDepth, {}, t, seen, |t.steps|);
      forall x | x in VisitsOf(t) ensures VisitMeant(th, listed, x) {
        ListedVisits(VisitsOf(t), x);
      }
      NothingActed(lim, before, listed, s, s', i, th.(phase := Linking, visits := VisitsOf(t), noted := {}));
  }

  /** The first half of a visit is explained, and what it leaves to store will be. */
  lemma LinkExplained(b: Book, sn: Snapshot, x: Visit, listed: set<BookHash>, lim: Limits, r: Request)
    requires VisitOk(b, sn, x) && VisitLists(x) <= listed && r.outcome.Finished? && InTree(r.outcome.s, x.found)
    ensures PossibleAll(sn, LinkEdits(x)) && Explained(sn, LinkEdits(x), listed, lim, [r])
    ensures Stores(x) ==> Excused(ApplyAll(sn, LinkEdits(x)), listed, x.child.node.hash, x.found.visits)
    ensures x.at.node.hash in ApplyAll(sn, LinkEdits(x))
  {
    hide InTree, HasMove, Apply, Explained, PossibleAll, ApplyAll, Follow;
    var h := x.at.node.hash;
    if x.Added? {
      var e := AddMove(h, x.m, x.pla);
      OneExplained(sn, e, listed, lim, [r], r);
      OneEdit(sn, e);
      AddedIsThere(sn, e);
    } else {
      var e := StopExpanding(h);
      StoreIsPossible(sn, e);
      OneExplained(sn, e, listed, lim, [r], r);
      OneEdit(sn, e);
      NothingExplained(sn, listed, lim, [r]);
      NoEdits(sn);
      if Stores(x) {
        ClosingKeeps(sn, e, x.child.node.hash, x.found.visits);
      }
    }
    StaysThere(sn, LinkEdits(x), h);
  }

  lemma LinkKeeps(b: Book, lim: Limits, before: Snapshot, listed: set<BookHash>, s: State, s': State, i: nat)
    requires Inv(lim, before, listed, s) && Link(b, s, s', i)
    ensures Inv(lim, before, listed, s')
  {
    InvAt(lim, before, listed, s, i);
    hide Inv, VisitOk, LinkEdits, Explained, Excused, InTree, VisitLists, PossibleAll, ApplyAll;
    var th := s.threads[i];
    var x := th.visits[0];
    assert x in th.visits;
    LinkExplained(b, s.sn, x, listed, lim, th.r);
    ExplainedEnds(s.sn, LinkEdits(x), listed, lim, [th.r]);
    forall h | h in th.noted ensures Excused(s'.sn, listed, h, lim.leafVisits) {
      StillExcused(s.sn, LinkEdits(x), listed, h, lim.leafVisits);
    }
    var th' := s'.threads[i];
    forall y | y in th'.visits ensures VisitMeant(th', listed, y) {
      assert y in th.visits;
    }
    ActKeepsInv(lim, before, listed, s, s', i, LinkEdits(x), th');
  }

  lemma StoreKeeps(lim: Limits, before: Snapshot, listed: set<BookHash>, s: State, s': State, i: nat)
    requires Inv(lim, before, listed, s) && Store(s, s', i)
    ensures Inv(lim, before, listed, s')
  {
    InvAt(lim, before, listed, s, i);
    hide Inv, Explained, InTree, VisitLists, PossibleAll, ApplyAll, Shallower;
    var th, th' := s.threads[i], s'.threads[i];
    var x := th.phase.x;
    var edits := [StoreSearch(x.child.node.hash, x.found.own)];
    StoreExplained(s.sn, x.child.node.hash, x.found, listed, lim, th.r);
    ExplainedEnds(s.sn, edits, listed, lim, [th.r]);
    hide Excused;
    forall h | h in th.noted ensures Excused(s'.sn, listed, h, lim.leafVisits) {
      StillExcused(s.sn, edits, listed, h, lim.leafVisits);
    }
    StaysThere(s.sn, edits, x.at.node.hash);
    ActKeepsInv(lim, before, listed, s, s', i, edits, th');
  }

  lemma CheckKeeps(lim: Limits, before: Snapshot, listed: set<BookHash>, s: State, s': State, i: nat)
    requires Inv(lim, before, listed, s) && Check(lim, s, s', i)
    ensures Inv(lim, before, listed, s')
  {
    InvAt(lim, before, listed, s, i);
    hide Inv, Explained, InTree, PossibleAll, ApplyAll;
    NothingActed(lim, before, listed, s, s', i, s'.threads[i]);
  }

  lemma GatherKeeps(lim: Limits, before: Snapshot, listed: set<BookHash>, s: State, s': State, i: nat)
    requires Inv(lim, before, listed, s) && Gather(s, s', i)
    ensures Inv(lim, before, listed, s')
  {
    InvAt(lim, before, listed, s, i);
    hide Inv, Explained, InTree, PossibleAll, ApplyAll, Excused, VisitLists, ListedBy;
    var th := s.threads[i];
    forall n | n in th.w.searched ensures Excused(s.sn, listed, n.hash, lim.leafVisits) {
      assert n.hash in HashSet(th.w.searched);
    }
    NothingActed(lim, before, listed, s, s', i, s'.threads[i]);
  }

  lemma AgainKeeps(lim: Limits, before: Snapshot, listed: set<BookHash>, s: State, s': State, i: nat)
    requires Inv(lim, before, listed, s) && Again(s, s', i)
    ensures Inv(lim, before, listed, s')
  {
    InvAt(lim, before, listed, s, i);
    hide Inv, Explained, InTree, PossibleAll, ApplyAll, Shallower, VisitLists, ListedBy, OneAgain;
    var th, th' := s.threads[i], s'.threads[i];
    var n := th.phase.left[0];
    assert n in th.phase.left;
    var edits := OneAgain(n.hash, th.r.again(n.hash));
    OneAgainExplained(s.sn, n.hash, listed, lim, th.r);
    hide Excused;
    forall h | h in th.noted ensures Excused(s'.sn, listed, h, lim.leafVisits) {
      StillExcused(s.sn, edits, listed, h, lim.leafVisits);
    }
    forall m | m in th'.phase.left ensures Excused(s'.sn, listed, m.hash, lim.leafVisits) {
      assert m in th.phase.left;
      StillExcused(s.sn, edits, listed, m.hash, lim.leafVisits);
    }
    ActKeepsInv(lim, before, listed, s, s', i, edits, th');
  }

  lemma LastKeeps(lim: Limits, before: Snapshot, listed: set<BookHash>, s: State, s': State, i: nat)
    requires Inv(lim, before, listed, s) && (Finish(s, s', i) || Close(s, s', i))
    ensures Inv(lim, before, listed, s')
  {
    InvAt(lim, before, listed, s, i);
    hide Inv, Explained, InTree, PossibleAll, ApplyAll, VisitLists, ListedBy, Apply;
    var th, th' := s.threads[i], s'.threads[i];
    var e := if th.phase.Closing? then StopExpanding(th.r.hash) else StopReExpanding(th.r.hash);
    LastIsPossible(s.sn, e);
    OneExplained(s.sn, e, listed, lim, [th.r], th.r);
    ExplainedEnds(s.sn, [e], listed, lim, [th.r]);
    hide Excused;
    forall h | h in th.noted ensures Excused(s'.sn, listed, h, lim.leafVisits) {
      StillExcused(s.sn, [e], listed, h, lim.leafVisits);
    }
    ActKeepsInv(lim, before, listed, s, s', i, [e], th');
  }

  lemma StepKeepsInv(b: Book, key: Key, lim: Limits, rules: Rules, maxDepth: nat, before: Snapshot,
                     listed: set<BookHash>, s: State, s': State, i: nat)
    requires Inv(lim, before, listed, s) && Step(b, key, lim, rules, maxDepth, s, s', i)
    ensures Inv(lim, before, listed, s')
  {
    hide Inv, Start, Link, Store, Check, Gather, Again, Finish, Close;
    if Start(b, key, lim, rules, maxDepth, s, s', i) {
      StartKeeps(b, key, lim, rules, maxDepth, before, listed, s, s', i);
    } else if Link(b, s, s', i) {
      LinkKeeps(b, lim, before, listed, s, s', i);
    } else if Store(s, s', i) {
      StoreKeeps(lim, before, listed, s, s', i);
    } else if Check(lim, s, s', i) {
      CheckKeeps(lim, before, listed, s, s', i);
    } else if Gather(s, s', i) {
      GatherKeeps(lim, before, listed, s, s', i);
    } else if Again(s, s', i) {
      AgainKeeps(lim, before, listed, s, s', i);
    } else {
      LastKeeps(lim, before, listed, s, s', i);
    }
  }

  // ---------------------------------------------------------------------------------------------
  // Whole rounds

  ghost predicate Next(b: Book, key: Key, lim: Limits, rules: Rules, maxDepth: nat, s: State, s': State) {
    exists i: nat :: Step(b, key, lim, rules, maxDepth, s, s', i)
  }

  ghost predicate Run(b: Book, key: Key, lim: Limits, rules: Rules, maxDepth: nat, run: seq<State>) {
    && run != []
    && forall j, k :: 0 <= j && k == j + 1 && k < |run| ==> Next(b, key, lim, rules, maxDepth, run[j], run[k])
  }

  /** No thread has done anything yet; the works say what each is going to do. */
  ghost predicate Fresh(sn: Snapshot, rs: seq<Request>, ws: seq<Work>, s: State) {
    && s.sn == sn && s.edits == [] && |rs| == |ws| == |s.threads|
    && forall i :: 0 <= i < |rs| ==> s.threads[i] == Thread(rs[i], ws[i], Starting, [], {})
  }

  ghost predicate AllDone(s: State) { forall i :: 0 <= i < |s.threads| ==> s.threads[i].phase.Done? }

  ghost predicate AllListed(rs: seq<Request>, ws: seq<Work>, listed: set<BookHash>) {
    |rs| == |ws| && forall i :: 0 <= i < |rs| ==> WorkLists(rs[i], ws[i]) <= listed
  }

  lemma FreshInv(lim: Limits, sn: Snapshot, rs: seq<Request>, ws: seq<Work>, listed: set<BookHash>, s: State)
    requires Fresh(sn, rs, ws, s) && AllListed(rs, ws, listed)
    ensures Inv(lim, sn, listed, s) && Requests(s.threads) == rs
  {
    hide WorkLists;
    NothingExplained(sn, listed, lim, rs);
    NoEdits(sn);
  }

  lemma StepKeepsRequests(b: Book, key: Key, lim: Limits, rules: Rules, maxDepth: nat, s: State, s': State, i: nat)
    requires Step(b, key, lim, rules, maxDepth, s, s', i)
    ensures Requests(s'.threads) == Requests(s.threads)
  {
    hide Reached, HasToClose, TraceFits, VisitOk, VisitAgain, PossibleAll, ApplyAll, OneAgain, LinkEdits;
    assert |s'.threads| == |s.threads| && forall j :: 0 <= j < |s.threads| ==> s'.threads[j].r == s.threads[j].r;
  }

  lemma {:induction false} RunKeepsInv(b: Book, key: Key, lim: Limits, rules: Rules, maxDepth: nat, before: Snapshot,
                                       listed: set<BookHash>, run: seq<State>)
    requires Run(b, key, lim, rules, maxDepth, run) && Inv(lim, before, listed, run[0])
    ensures Inv(lim, before, listed, run[|run| - 1]) && Requests(run[|run| - 1].threads) == Requests(run[0].threads)
    decreases |run|
  {
    hide Inv, Step;
    if |run| > 1 {
      var init := run[..|run| - 1];
      RunKeepsInv(b, key, lim, rules, maxDepth, before, listed, init);
      var s, s' := run[|run| - 2], run[|run| - 1];
      assert Next(b, key, lim, rules, maxDepth, s, s');
      var i: nat :| Step(b, key, lim, rules, maxDepth, s, s', i);
      StepKeepsInv(b, key, lim, rules, maxDepth, before, listed, s, s', i);
      StepKeepsRequests(b, key, lim, rules, maxDepth, s, s', i);
    }
  }

  /** A round by threads: a run of the machine to its end, then recomputing from all that was listed. */
  ghost predicate ThreadedRound(b: Book, key: Key, p: Params, lim: Limits, rules: Rules, maxDepth: nat,
                                rank: map<BookHash, nat>, rd: Round, run: seq<State>) {
    && Run(b, key, lim, rules, maxDepth, run) && Fresh(rd.before, rd.rs, rd.ws, run[0]) && AllDone(run[|run| - 1])
    && rd.edits == run[|run| - 1].edits
    && AllListed(rd.rs, rd.ws, HashSet(rd.listed)) && Asked(rd.before, rd.rs) <= HashSet(rd.listed)
    && RecomputedRound(p, b.root.hash, rank, run[|run| - 1].sn, rd)
  }

  /**
   Whatever the interleaving, all edits of the round have their reasons. So MissedAreOldLeaves,
   RoundLeavesStale and RoundSettlesExactly hold of rounds by threads too.
   */
  lemma ThreadedRoundReasons(b: Book, key: Key, p: Params, lim: Limits, rules: Rules, maxDepth: nat,
                             rank: map<BookHash, nat>, rd: Round, run: seq<State>)
    requires ThreadedRound(b, key, p, lim, rules, maxDepth, rank, rd, run)
    ensures Reasoned(p, lim, b.root.hash, rank, rd)
  {
    hide Inv, Fresh, AllListed, RecomputedRound, Explained, PossibleAll, ApplyAll, Next;
    var last := run[|run| - 1];
    FreshInv(lim, rd.before, rd.rs, rd.ws, HashSet(rd.listed), run[0]);
    RunKeepsInv(b, key, lim, rules, maxDepth, rd.before, HashSet(rd.listed), run);
    InvFacts(lim, rd.before, HashSet(rd.listed), last);
  }

  lemma InvFacts(lim: Limits, before: Snapshot, listed: set<BookHash>, s: State)
    requires Inv(lim, before, listed, s)
    ensures PossibleAll(before, s.edits) && s.sn == ApplyAll(before, s.edits)
    ensures Explained(before, s.edits, listed, lim, Requests(s.threads))
  {
  }

  /**
   In particular a threaded round over a settled book settles it if and only if it missed no search that
   gives its leaf other values than the leaf had, and it can only miss leaves.
   */
  lemma ThreadedRoundSettlesExactly(b: Book, key: Key, p: Params, lim: Limits, rules: Rules, maxDepth: nat,
                                    rank: map<BookHash, nat>, rd: Round, run: seq<State>, depth: map<BookHash, nat>)
    requires ThreadedRound(b, key, p, lim, rules, maxDepth, rank, rd, run) && AcyclicBy(rd.after, rank)
    requires Linked(rd.before, b.root.hash) && RootedBy(rd.before, b.root.hash, depth) && ValuesSettled(p, rd.before)
    ensures Missed(rd) <= rd.before.Keys * rd.after.Keys
    ensures forall h :: h in Missed(rd) ==> rd.before[h].moves == map[] && rd.after[h].moves == map[]
    ensures ValuesSettled(p, rd.after) <==>
            forall h :: h in Missed(rd) ==> rd.before[h].values == LeafValues(p, rd.after[h].inputs)
  {
    hide ThreadedRound, Reasoned, Linked, RootedBy, AcyclicBy, ValuesSettled, Missed, LeafValues, DeeperSearch;
    ThreadedRoundReasons(b, key, p, lim, rules, maxDepth, rank, rd, run);
    RoundSettlesExactly(p, lim, b.root.hash, rank, rd, depth);
    forall h | h in Missed(rd) ensures rd.before[h].moves == map[] && rd.after[h].moves == map[] {
      MissedAreOldLeaves(p, lim, b.root.hash, rank, rd, h);
    }
  }
}
