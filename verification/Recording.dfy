/**
 Recording a finished search in the book: add the moves it found, go on at the children it looked at
 closely, store the searches, and note which nodes recomputation has to be told of.
 */
module Recording {
  import opened Util
  import opened Symmetry
  import opened BookData
  import opened Recompute
  import opened Views
  import opened BookViews
  import opened Hashing
  import opened Walks
  import opened BookWalks
  import opened Growth
  import opened Visits

  /** The nodes to search again and the nodes to list for recomputation. */
  datatype Log = Log(toSearch: seq<BookNode>, toUpdate: seq<BookNode>)

  function Append(a: Log, b: Log): Log { Log(a.toSearch + b.toSearch, a.toUpdate + b.toUpdate) }

  ghost predicate PlayableTree(s: SearchNode, xSize: nat, ySize: nat) {
    forall c :: c in s.children ==> Playable(c.found.move, xSize, ySize) && PlayableTree(c.node, xSize, ySize)
  }

  /** A book between edits: consistent, and every node right about the positions that have its hash. */
  ghost predicate Editable(b: Book, key: Key)
    reads b, b.nodes
  {
    && b.Valid() && FramesOk(b) && Named(b, key)
    && FlagsBelow(b.Snapshot(), b.nextVisitedDoneValue) && b.nextVisitedDoneValue >= 1
  }

  lemma EditableFacts(b: Book, key: Key)
    requires Editable(b, key)
    ensures b.Valid() && FramesOk(b) && Named(b, key) && b.Indexed()
    ensures FlagsBelow(b.Snapshot(), b.nextVisitedDoneValue) && b.nextVisitedDoneValue >= 1
  {
  }

  // ---------------------------------------------------------------------------------------------
  // Edits

  /** Write a node's search values and flags. */
  method WriteInputs(b: Book, node: BookNode, own: BookValues, canExpand: bool, canReExpand: bool, ghost e: Edit,
                     ghost key: Key, ghost sn: Snapshot)
    requires b.Indexed() && b.Snapshot() == sn && Editable(b, key) && node in b.nodes && !e.AddMove? && e.h == node.hash
    requires NodeInputs(node.pla, own, canExpand, canReExpand) == NewInputs(node.State().inputs, e)
    modifies node`thisValuesNotInBook, node`canExpand, node`canReExpand
    ensures Editable(b, key) && PossibleAll(sn, [e]) && b.Snapshot() == ApplyAll(sn, [e])
    ensures node.thisValuesNotInBook == own && node.canExpand == canExpand && node.canReExpand == canReExpand
  {
    hide Book.Snapshot, Linked, FlagsBelow, BestParentsOk, FrameOk, NodeNamed, PossibleAll, ApplyAll, Apply, NewInputs;
    b.Has(node);
    AppliedTo(sn, e);
    SetInputs(b, node, own, canExpand, canReExpand);
    forall n | n in b.nodes ensures FrameOk(FrameOf(b, n)) && NodeNamed(key, n.hash, n.pla, FrameOf(b, n)) {
      assert FrameOf(b, n) == old(FrameOf(b, n));
    }
    hide FrameOf;
    WrittenIsEditable(b, key, sn, e);
  }

  method SetInputs(b: Book, node: BookNode, own: BookValues, canExpand: bool, canReExpand: bool)
    requires b.Indexed() && node in b.nodes
    modifies node`thisValuesNotInBook, node`canExpand, node`canReExpand
    ensures b.Indexed() && node.hash in old(b.Snapshot())
    ensures b.Snapshot() == old(b.Snapshot())[node.hash :=
              old(b.Snapshot())[node.hash].(inputs := NodeInputs(node.pla, own, canExpand, canReExpand))]
    ensures node.thisValuesNotInBook == own && node.canExpand == canExpand && node.canReExpand == canReExpand
  {
    hide Book.Snapshot;
    b.Has(node);
    node.thisValuesNotInBook := own;
    node.canExpand, node.canReExpand := canExpand, canReExpand;
    b.ChangedAt(node.hash);
  }

  lemma WrittenIsEditable(b: Book, key: Key, sn: Snapshot, e: Edit)
    requires b.Indexed() && FramesOk(b) && Named(b, key) && b.nextVisitedDoneValue >= 1
    requires Linked(sn, b.root.hash) && BestParentsOk(sn) && FlagsBelow(sn, b.nextVisitedDoneValue)
    requires !e.AddMove? && e.h in sn && b.Snapshot() == Apply(sn, e)
    ensures Editable(b, key) && PossibleAll(sn, [e]) && b.Snapshot() == ApplyAll(sn, [e])
  {
    hide Book.Snapshot, Book.Indexed, Linked, FlagsBelow, BestParentsOk, FramesOk, Named, Apply;
    StoreIsPossible(sn, e);
    OneEdit(sn, e);
    ApplyKeepsLinked(sn, b.root.hash, e);
    ApplyKeepsBestParents(sn, e);
    ApplyKeepsFlags(sn, b.nextVisitedDoneValue, e);
  }

  lemma AppliedTo(sn: Snapshot, e: Edit)
    requires !e.AddMove? && e.h in sn
    ensures Apply(sn, e) == sn[e.h := sn[e.h].(inputs := NewInputs(sn[e.h].inputs, e))]
  {
  }

  lemma AddedIsEditable(b: Book, key: Key, sn: Snapshot, h: BookHash, m: BookMove, pla: Player)
    requires b.Valid() && FramesOk(b) && Named(b, key) && b.nextVisitedDoneValue >= 1
    requires FlagsBelow(sn, b.nextVisitedDoneValue) && h in sn && m.move !in sn[h].moves && m.move != NULL_LOC
    requires b.Snapshot() == Extended(sn, h, m, pla)
    ensures Editable(b, key) && PossibleAll(sn, [AddMove(h, m, pla)])
    ensures b.Snapshot() == ApplyAll(sn, [AddMove(h, m, pla)])
    ensures Ends([AddMove(h, m, pla)]) == {h, m.hash}
  {
    NothingAfter(AddMove(h, m, pla));
    hide Extended, FlagsBelow, Linked, BestParentsOk, FramesOk, Named, Book.Snapshot, Book.Indexed;
    AddIsPossible(sn, h, m, pla, b.nextVisitedDoneValue);
    OneEdit(sn, AddMove(h, m, pla));
  }

  lemma NothingAfter(e: Edit)
    ensures [e][1..] == []
  {
  }

  /** A leaf with few visits is searched again. */
  function TopOff(node: BookNode, lim: Limits): seq<BookNode>
    reads node
  {
    if node.moves == map[] && node.recursiveValues.visits < lim.leafVisits then [node] else []
  }

  lemma ShallowNow(b: Book, node: BookNode, visits: real)
    requires b.Indexed() && node in b.nodes
    ensures Shallower(b.Snapshot(), node.hash, visits) <==> node.moves == map[] && node.recursiveValues.visits < visits
    ensures node.hash in b.Snapshot()
  {
    hide Book.Snapshot;
    b.Has(node);
  }

  lemma TopOffIs(b: Book, node: BookNode, lim: Limits)
    requires b.Indexed() && node in b.nodes
    ensures HashSet(TopOff(node, lim)) == Just(Shallower(b.Snapshot(), node.hash, lim.leafVisits), node.hash)
  {
    hide Book.Snapshot;
    ShallowNow(b, node, lim.leafVisits);
  }

  /** The edits that led from sn to the book as it is, and the nodes noted on the way. */
  ghost predicate Done(b: Book, sn: Snapshot, edits: seq<Edit>, log: Log)
    reads b, b.nodes
  {
    && b.Indexed() && PossibleAll(sn, edits) && b.Snapshot() == ApplyAll(sn, edits)
    && (forall n :: n in log.toSearch ==> n in b.nodes) && (forall n :: n in log.toUpdate ==> n in b.nodes)
  }

  lemma DoneFacts(b: Book, sn: Snapshot, edits: seq<Edit>, log: Log)
    requires Done(b, sn, edits, log)
    ensures b.Indexed() && PossibleAll(sn, edits) && b.Snapshot() == ApplyAll(sn, edits)
    ensures forall n :: n in log.toSearch ==> n in b.nodes
    ensures forall n :: n in log.toUpdate ==> n in b.nodes
  {
  }

  lemma IsDone(b: Book, sn: Snapshot, edits: seq<Edit>, log: Log)
    requires b.Indexed() && PossibleAll(sn, edits) && b.Snapshot() == ApplyAll(sn, edits)
    requires forall n :: n in log.toSearch ==> n in b.nodes
    requires forall n :: n in log.toUpdate ==> n in b.nodes
    ensures Done(b, sn, edits, log)
  {
  }

  lemma DoneMore(b: Book, nodes: seq<BookNode>, sn: Snapshot, sn1: Snapshot, edits: seq<Edit>, more: seq<Edit>,
                 log: Log, log1: Log)
    requires PossibleAll(sn, edits) && sn1 == ApplyAll(sn, edits) && nodes <= b.nodes
    requires forall n :: n in log.toSearch ==> n in nodes
    requires forall n :: n in log.toUpdate ==> n in nodes
    requires Done(b, sn1, more, log1)
    ensures Done(b, sn, edits + more, Append(log, log1))
    ensures HashSet(Append(log, log1).toUpdate) == HashSet(log.toUpdate) + HashSet(log1.toUpdate)
    ensures HashSet(Append(log, log1).toSearch) == HashSet(log.toSearch) + HashSet(log1.toSearch)
  {
    hide PossibleAll, ApplyAll, Book.Snapshot, Book.Indexed, Touched;
    MoreEdits(sn, edits, more);
  }

  lemma NothingDone(b: Book, nodes: seq<BookNode>)
    requires b.Indexed() && forall n :: n in nodes ==> n in b.nodes
    ensures Done(b, b.Snapshot(), [], Log([], nodes))
  {
  }

  ghost function Just(b: bool, h: BookHash): set<BookHash> {
    if b then {h} else {}
  }

  lemma HasMoveNow(b: Book, v: View, move: Loc)
    requires b.Indexed() && v.node in b.nodes
    ensures HasMove(b, b.Snapshot(), v, move) <==> IsMoveInBook(FrameOf(b, v.node), v.symmetryOfNode, move)
    ensures v.node.hash in b.Snapshot() && FrameIn(b, b.Snapshot(), v) == FrameOf(b, v.node)
  {
    hide IsMoveInBook;
    b.Has(v.node);
  }

  lemma FollowedIsInBook(b: Book, v: View, move: Loc)
    requires b.Indexed() && FollowView(b, v, move).Some?
    ensures IsMoveInBook(FrameOf(b, v.node), v.symmetryOfNode, move)
  {
    hide IsMoveInBook, FollowFrom;
    FollowsWhatIsInBook(FrameOf(b, v.node), v.symmetryOfNode, move);
  }

  /** The visit is right, and the book is as it says. */
  ghost predicate Visited(b: Book, sn: Snapshot, x: Visit)
    reads b, b.nodes
  {
    && VisitOk(b, sn, x) && b.Indexed() && PossibleAll(sn, VisitEdits(x)) && b.Snapshot() == ApplyAll(sn, VisitEdits(x))
  }

  lemma AddedVisited(b: Book, sn: Snapshot, sn1: Snapshot, x: Visit, transposing: bool, node: BookNode)
    requires x.Added? && x.at.node.hash in sn && !HasMove(b, sn, x.at, x.found.move)
    requires HasMove(b, sn1, x.at, x.found.move)
    requires x.m.hash == x.child.node.hash && x.m.rawPolicy == x.found.rawPolicy
    requires var e := AddMove(x.at.node.hash, x.m, x.pla); PossibleAll(sn, [e]) && sn1 == ApplyAll(sn, [e])
    requires transposing <==> x.child.node.hash in sn
    requires x.stored <==> !transposing || Shallower(sn1, x.child.node.hash, x.found.visits)
    ensures VisitOk(b, sn, x)
  {
    hide HasMove, Apply, Shallower;
    var e := AddMove(x.at.node.hash, x.m, x.pla);
    assert Possible(sn, e) by { assert [e][0] == e; }
    OneEdit(sn, e);
  }

  lemma StoredToo(sn: Snapshot, sn1: Snapshot, sn2: Snapshot, edits: seq<Edit>, stored: bool, h: BookHash,
                  own: BookValues)
    requires PossibleAll(sn, edits) && sn1 == ApplyAll(sn, edits)
    requires stored ==> PossibleAll(sn1, [StoreSearch(h, own)]) && sn2 == ApplyAll(sn1, [StoreSearch(h, own)])
    requires !stored ==> sn2 == sn1
    ensures PossibleAll(sn, edits + StoreIf(stored, h, own)) && sn2 == ApplyAll(sn, edits + StoreIf(stored, h, own))
  {
    hide PossibleAll, ApplyAll;
    if stored {
      MoreEdits(sn, edits, [StoreSearch(h, own)]);
    } else {
      assert edits + [] == edits;
    }
  }

  /**
   Record one move that is not in the book. A new child gets the search's values; a child that was
   known keeps its own, unless it is a leaf that the search has visited more. A move that cannot be
   played closes the node for expansion.
   */
  method RecordMove<S(!new)>(hs: Hasher<S>, v2: bool, b: Book, lim: Limits, v: View, h: History, found: Found,
                             legal: bool, ghost recursed: bool, ghost sn: Snapshot)
    returns (child: Option<View>, log: Log, ghost x: Visit)
    requires b.Indexed() && b.Snapshot() == sn && Editable(b, KeyOf(hs, v2))
    requires Separates(b, KeyOf(hs, v2)) && Stands(b, KeyOf(hs, v2), h, v)
    requires v.node in b.nodes && InGroup(v.symmetryOfNode, b.xSize, b.ySize)
    requires Playable(found.move, b.xSize, b.ySize) && !IsMoveInBook(FrameOf(b, v.node), v.symmetryOfNode, found.move)
    modifies b`nodes, b`nodeIdx, b.nodes
    ensures old(b.nodes) <= b.nodes && forall i :: 0 <= i < |b.nodes| && i >= |old(b.nodes)| ==> fresh(b.nodes[i])
    ensures Editable(b, KeyOf(hs, v2)) && Visited(b, sn, x)
    ensures if legal then x.Added? && child == Some(x.child) && x.pla == Opponent(h.nextPla) && x.recursed == recursed
            else x.Unplayable? && child == None
    ensures x.at == v && x.found == found
    ensures child.Some? ==> child.value.node in b.nodes && Stands(b, KeyOf(hs, v2), Ext(h, found.move), child.value)
    ensures log == if child.Some? then Log(TopOff(child.value.node, lim), [child.value.node]) else Log([], [])
  {
    hide Book.Snapshot, Book.Indexed, Linked, BestParentsOk, FlagsBelow, FramesOk, Named, KeyOf, StandsAt, Ext,
         Extended, IsMoveInBook, FrameOf, PossibleAll, ApplyAll, HasMove, GetSymmetries, FollowView, SymLoc, Faithful,
         Shallower, VisitOk;
    ghost var key := KeyOf(hs, v2);
    b.Has(v.node);
    HasMoveNow(b, v, found.move);
    log := Log([], []);
    if !legal {
      x := Unplayable(v, found);
      UnplayableOk(b, sn, v, found);
      WriteInputs(b, v.node, v.node.thisValuesNotInBook, false, v.node.canReExpand, StopExpanding(v.node.hash), key,
                  sn);
      child := None;
      return;
    }
    var transposing;
    ghost var m;
    child, transposing, m := AddMoveFromHistory(hs, v2, b, v, h, found.move, found.rawPolicy, true);
    AddedIsEditable(b, key, sn, v.node.hash, m, Opponent(h.nextPla));
    FollowedIsInBook(b, v, found.move);
    HasMoveNow(b, v, found.move);
    var node := child.value.node;
    ghost var sn1 := b.Snapshot();
    ShallowNow(b, node, found.visits);
    var stored := !transposing || (node.moves == map[] && node.recursiveValues.visits < found.visits);
    x := Added(v, found, child.value, m, Opponent(h.nextPla), stored, recursed);
    AddedVisited(b, sn, sn1, x, transposing, node);
    if stored {
      WriteInputs(b, node, found.own, node.canExpand, node.canReExpand, StoreSearch(node.hash, found.own), key, sn1);
    }
    StoredToo(sn, sn1, b.Snapshot(), [AddMove(v.node.hash, m, Opponent(h.nextPla))], stored, node.hash, found.own);
    log := Log(TopOff(node, lim), [node]);
  }

  lemma UnplayableOk(b: Book, sn: Snapshot, v: View, found: Found)
    requires v.node.hash in sn && !HasMove(b, sn, v, found.move)
    ensures VisitOk(b, sn, Unplayable(v, found))
  {
  }

  lemma KnownIsFollowed(b: Book, v: View, move: Loc)
    requires b.Valid() && v.node in b.nodes && IsMoveInBook(FrameOf(b, v.node), v.symmetryOfNode, move)
    ensures FollowView(b, v, move).Some? && FollowView(b, v, move).value.node in b.nodes
  {
    hide FollowFrom, FoundAt, Turn, BestParentsOk, Linked;
    var f := FrameOf(b, v.node);
    FollowsWhatIsInBook(f, v.symmetryOfNode, move);
    var s :| s in f.symmetries && Turn(f, move, Compose(Invert(v.symmetryOfNode), s)) in f.moves;
    var n :| 0 <= n < |f.symmetries| && f.symmetries[n] == s;
    var i := FirstFound(f, v.symmetryOfNode, move, n);
    FollowFinds(f, v.symmetryOfNode, move, 0, i);
    FoundIsStored(f, v.symmetryOfNode, move, i);
    StoredIsInBook(b, v.node, Turn(f, move, Compose(Invert(v.symmetryOfNode), f.symmetries[i])));
  }

  lemma FoundIsStored(f: Frame, sym: Sym, move: Loc, i: nat)
    requires FoundAt(f, sym, move, i)
    ensures i < |f.symmetries| && Turn(f, move, Compose(Invert(sym), f.symmetries[i])) in f.moves
  {
  }

  lemma StoredIsInBook(b: Book, node: BookNode, loc: Loc)
    requires b.Valid() && node in b.nodes && loc in node.moves
    ensures node.moves[loc].hash in b.nodeIdx && b.Get(node.moves[loc].hash) in b.nodes
  {
    hide BestParentsOk;
    b.Has(node);
    b.At(node.moves[loc].hash);
  }

  lemma KnownVisited(b: Book, sn: Snapshot, x: Visit)
    requires x.Known? && x.at.node.hash in sn && x.child.node.hash in sn
    requires Follow(FrameIn(b, sn, x.at), x.at.symmetryOfNode, x.found.move) ==
             Some(Followed(x.child.node.hash, x.child.symmetryOfNode))
    requires x.stored <==> Shallower(sn, x.child.node.hash, x.found.visits)
    ensures VisitOk(b, sn, x)
  {
  }

  lemma FollowedAs(b: Book, v: View, move: Loc)
    requires b.Indexed() && FollowView(b, v, move).Some?
    ensures var child := FollowView(b, v, move).value;
            Follow(FrameOf(b, v.node), v.symmetryOfNode, move) == Some(Followed(child.node.hash, child.symmetryOfNode))
  {
    hide FollowFrom;
  }

  /**
   Record one move that is in the book. The search is stored if the child is a leaf that the search
   has visited more; but the child is not listed for recomputation.
   */
  method RecordKnown<S(!new)>(hs: Hasher<S>, v2: bool, b: Book, lim: Limits, v: View, h: History, found: Found,
                              legal: bool, ghost recursed: bool, ghost sn: Snapshot)
    returns (child: View, log: Log, ghost x: Visit)
    requires b.Indexed() && b.Snapshot() == sn && Editable(b, KeyOf(hs, v2))
    requires Separates(b, KeyOf(hs, v2)) && Stands(b, KeyOf(hs, v2), h, v)
    requires v.node in b.nodes && Playable(found.move, b.xSize, b.ySize)
    requires IsMoveInBook(FrameOf(b, v.node), v.symmetryOfNode, found.move)
    modifies b.nodes
    ensures b.nodes == old(b.nodes) && Editable(b, KeyOf(hs, v2)) && Visited(b, sn, x)
    ensures x.Known? && x.at == v && x.found == found && x.child == child && x.legal == legal && x.recursed == recursed
    ensures child.node in b.nodes && Stands(b, KeyOf(hs, v2), Ext(h, found.move), child)
    ensures log == Log(TopOff(child.node, lim), [])
  {
    hide Book.Snapshot, Book.Indexed, Linked, BestParentsOk, FlagsBelow, FramesOk, Named, KeyOf, StandsAt, Ext,
         Extended, IsMoveInBook, FrameOf, PossibleAll, ApplyAll, HasMove, GetSymmetries, FollowView, SymLoc, Faithful,
         Shallower, VisitOk, Follow;
    ghost var key := KeyOf(hs, v2);
    KnownIsFollowed(b, v, found.move);
    StepKeepsStanding(b, key, h, v, found.move);
    HasMoveNow(b, v, found.move);
    FollowedAs(b, v, found.move);
    child := FollowView(b, v, found.move).value;
    var node := child.node;
    ShallowNow(b, node, found.visits);
    var stored := node.moves == map[] && node.recursiveValues.visits < found.visits;
    x := Known(v, found, child, legal, stored, recursed);
    KnownVisited(b, sn, x);
    ghost var closing := if legal then [] else [StopExpanding(v.node.hash)];
    NoEdits(sn);
    if !legal {
      WriteInputs(b, v.node, v.node.thisValuesNotInBook, false, v.node.canReExpand, StopExpanding(v.node.hash), key,
                  sn);
    }
    ghost var sn1 := b.Snapshot();
    if stored {
      WriteInputs(b, node, found.own, node.canExpand, node.canReExpand, StoreSearch(node.hash, found.own), key, sn1);
    }
    StoredToo(sn, sn1, b.Snapshot(), closing, stored, node.hash, found.own);
    log := Log(TopOff(node, lim), []);
  }

  /** Standing at a view says that the view is a view of this book's size. */
  lemma StandingInGroup(b: Book, key: Key, h: History, v: View)
    requires Stands(b, key, h, v)
    ensures InGroup(v.symmetryOfNode, b.xSize, b.ySize)
  {
  }

  /**
   The visits that led from sn to the book as it is, and what was noted on the way. The node h itself
   is only noted at the end, if a move was added at it or was gone below.
   */
  ghost predicate Did(b: Book, lim: Limits, sn: Snapshot, visits: seq<Visit>, log: Log, added: bool, recursed: bool,
                      h: BookHash)
    reads b, b.nodes
  {
    && Done(b, sn, EditsOf(visits), log) && VisitsOk(b, sn, visits)
    && ListedBy(visits) == HashSet(log.toUpdate) + Just(added || recursed, h)
    && AgainBy(b, sn, visits, lim) == HashSet(log.toSearch) + Just(added, h)
  }

  lemma DidFacts(b: Book, lim: Limits, sn: Snapshot, visits: seq<Visit>, log: Log, added: bool, recursed: bool,
                 h: BookHash)
    requires Did(b, lim, sn, visits, log, added, recursed, h)
    ensures Done(b, sn, EditsOf(visits), log) && VisitsOk(b, sn, visits)
    ensures ListedBy(visits) == HashSet(log.toUpdate) + Just(added || recursed, h)
    ensures AgainBy(b, sn, visits, lim) == HashSet(log.toSearch) + Just(added, h)
    ensures b.Indexed() && PossibleAll(sn, EditsOf(visits)) && b.Snapshot() == ApplyAll(sn, EditsOf(visits))
    ensures forall n :: n in log.toSearch ==> n in b.nodes
    ensures forall n :: n in log.toUpdate ==> n in b.nodes
  {
  }

  lemma DidOne(b: Book, lim: Limits, sn: Snapshot, x: Visit, log: Log)
    requires Visited(b, sn, x)
    requires x.Unplayable? ==> log == Log([], [])
    requires !x.Unplayable? ==>
      x.child.node in b.nodes && log == Log(TopOff(x.child.node, lim), if x.Added? then [x.child.node] else [])
    ensures Did(b, lim, sn, [x], log, !x.Known?, Recursed(x), x.at.node.hash)
  {
    hide VisitOk, VisitEdits, PossibleAll, ApplyAll, Book.Snapshot, Book.Indexed, Shallower, AgainBy, EditsOf, ListedBy,
         VisitsOk;
    JustVisited(b, sn, x, lim);
    if !x.Unplayable? {
      TopOffIs(b, x.child.node, lim);
    }
    assert HashSet(log.toUpdate) == if x.Added? then {x.child.node.hash} else {};
    IsDone(b, sn, EditsOf([x]), log);
  }

  /** More visits after others. */
  lemma DidMore(b: Book, lim: Limits, nodes: seq<BookNode>, sn: Snapshot, sn1: Snapshot, visits: seq<Visit>,
                more: seq<Visit>, log: Log, log1: Log, added: bool, added1: bool, recursed: bool, recursed1: bool,
                h: BookHash)
    requires PossibleAll(sn, EditsOf(visits)) && sn1 == ApplyAll(sn, EditsOf(visits)) && nodes <= b.nodes
    requires forall n :: n in log.toSearch ==> n in nodes
    requires forall n :: n in log.toUpdate ==> n in nodes
    requires VisitsOk(b, sn, visits) && ListedBy(visits) == HashSet(log.toUpdate) + Just(added || recursed, h)
    requires AgainBy(b, sn, visits, lim) == HashSet(log.toSearch) + Just(added, h)
    requires Did(b, lim, sn1, more, log1, added1, recursed1, h)
    ensures Did(b, lim, sn, visits + more, Append(log, log1), added || added1, recursed || recursed1, h)
  {
    hide PossibleAll, ApplyAll, Done, EditsOf, ListedBy, AgainBy, VisitsOk, HashSet;
    DoneMore(b, nodes, sn, sn1, EditsOf(visits), EditsOf(more), log, log1);
    MoreListed(visits, more);
    MoreVisits(b, sn, visits, more, lim);
  }

  lemma DidNothing(b: Book, lim: Limits, h: BookHash)
    requires b.Indexed()
    ensures Did(b, lim, b.Snapshot(), [], Log([], []), false, false, h)
  {
    NothingDone(b, []);
  }

  /** At the end the node is noted if anything was added at it or below. */
  lemma DidAll(b: Book, lim: Limits, sn: Snapshot, visits: seq<Visit>, log: Log, added: bool, recursed: bool,
               node: BookNode, log': Log, h: BookHash)
    requires Did(b, lim, sn, visits, log, added, recursed, node.hash) && node in b.nodes
    requires log'.toUpdate == if added || recursed then log.toUpdate + [node] else log.toUpdate
    requires log'.toSearch == if added then log.toSearch + [node] else log.toSearch
    ensures Did(b, lim, sn, visits, log', false, false, h)
  {
    hide PossibleAll, ApplyAll, Book.Snapshot, Book.Indexed, EditsOf, ListedBy, AgainBy, VisitsOk;
    assert HashSet(log.toUpdate + [node]) == HashSet(log.toUpdate) + {node.hash};
    assert HashSet(log.toSearch + [node]) == HashSet(log.toSearch) + {node.hash};
  }

  /** Record one move, in the book or not. */
  method RecordChild<S(!new)>(hs: Hasher<S>, v2: bool, b: Book, lim: Limits, rules: Rules, v: View, h: History,
                              found: Found, ghost sn: Snapshot)
    returns (child: Option<View>, added: bool, log: Log, ghost x: Visit)
    requires b.Indexed() && b.Snapshot() == sn && Editable(b, KeyOf(hs, v2))
    requires Separates(b, KeyOf(hs, v2)) && Stands(b, KeyOf(hs, v2), h, v)
    requires v.node in b.nodes && Playable(found.move, b.xSize, b.ySize)
    modifies b`nodes, b`nodeIdx, b.nodes
    ensures old(b.nodes) <= b.nodes && forall i :: 0 <= i < |b.nodes| && i >= |old(b.nodes)| ==> fresh(b.nodes[i])
    ensures Editable(b, KeyOf(hs, v2)) && Did(b, lim, sn, [x], log, added, Recursed(x), v.node.hash)
    ensures VisitFits(x, v, h, found, lim, rules) && (added <==> !x.Known?)
    ensures if x.Unplayable? then child == None else child == Some(x.child)
    ensures child.Some? ==> child.value.node in b.nodes && Stands(b, KeyOf(hs, v2), Ext(h, found.move), child.value)
  {
    hide Book.Snapshot, Book.Indexed, Editable, Separates, Stands, FollowView, KeyOf, Ext, IsMoveInBook, FrameOf,
         PossibleAll, ApplyAll, Done, HasMove, Visited, Did;
    StandingInGroup(b, KeyOf(hs, v2), h, v);
    added := !IsMoveInBook(FrameOf(b, v.node), v.symmetryOfNode, found.move);
    ghost var recursed := found.visits >= lim.treeVisits && !rules.finished(Ext(h, found.move));
    if added {
      child, log, x := RecordMove(hs, v2, b, lim, v, h, found, rules.legal(h, found.move), recursed, sn);
    } else {
      var known;
      known, log, x := RecordKnown(hs, v2, b, lim, v, h, found, rules.legal(h, found.move), recursed, sn);
      child := Some(known);
    }
    DidOne(b, lim, sn, x, log);
  }

  /** Everything a loop over the children of a search node keeps. */
  ghost predicate Recording(b: Book, key: Key, lim: Limits, sn: Snapshot, visits: seq<Visit>, log: Log, added: bool,
                            recursed: bool, node: BookNode)
    reads b, b.nodes
  {
    Editable(b, key) && Did(b, lim, sn, visits, log, added, recursed, node.hash) && node in b.nodes
  }

  lemma RecordingFacts(b: Book, key: Key, lim: Limits, sn: Snapshot, visits: seq<Visit>, log: Log, added: bool,
                       recursed: bool, node: BookNode)
    requires Recording(b, key, lim, sn, visits, log, added, recursed, node)
    ensures Editable(b, key) && Did(b, lim, sn, visits, log, added, recursed, node.hash) && node in b.nodes
    ensures b.Indexed() && PossibleAll(sn, EditsOf(visits)) && b.Snapshot() == ApplyAll(sn, EditsOf(visits))
    ensures VisitsOk(b, sn, visits) && ListedBy(visits) == HashSet(log.toUpdate) + Just(added || recursed, node.hash)
    ensures AgainBy(b, sn, visits, lim) == HashSet(log.toSearch) + Just(added, node.hash)
    ensures forall n :: n in log.toSearch ==> n in b.nodes
    ensures forall n :: n in log.toUpdate ==> n in b.nodes
  {
  }

  lemma StartRecording(b: Book, key: Key, lim: Limits, node: BookNode)
    requires Editable(b, key) && node in b.nodes
    ensures b.Indexed() && Recording(b, key, lim, b.Snapshot(), [], Log([], []), false, false, node)
  {
    EditableFacts(b, key);
    DidNothing(b, lim, node.hash);
  }

  lemma StillRecording(b: Book, key: Key, lim: Limits, sn: Snapshot, visits: seq<Visit>, log: Log, added: bool,
                       recursed: bool, node: BookNode)
    requires Editable(b, key) && Did(b, lim, sn, visits, log, added, recursed, node.hash) && node in b.nodes
    ensures Recording(b, key, lim, sn, visits, log, added, recursed, node)
  {
  }

  // ---------------------------------------------------------------------------------------------
  // Search trees

  /** The steps taken so far fit the first children of the search node. */
  ghost predicate StepsFit(s: SearchNode, lim: Limits, rules: Rules, v: View, h: History, depthBelow: nat,
                           seen: set<int>, steps: seq<Step>)
  {
    && |steps| <= |s.children|
    && forall i :: 0 <= i < |steps| ==> StepFits(s, i, lim, rules, v, h, depthBelow, SeenBefore(steps, i, seen), steps[i])
  }

  lemma StepsFitMore(s: SearchNode, lim: Limits, rules: Rules, v: View, h: History, depthBelow: nat, seen: set<int>,
                     steps: seq<Step>, st: Step)
    requires StepsFit(s, lim, rules, v, h, depthBelow, seen, steps) && |steps| < |s.children|
    requires StepFits(s, |steps|, lim, rules, v, h, depthBelow, SeenBefore(steps, |steps|, seen), st)
    ensures StepsFit(s, lim, rules, v, h, depthBelow, seen, steps + [st])
    ensures SeenBefore(steps + [st], |steps| + 1, seen) == st.seen
    ensures VisitsOf(Trace(steps + [st])) == VisitsOf(Trace(steps)) + StepVisits(st)
  {
    hide StepFits;
    forall i | 0 <= i < |steps + [st]|
      ensures StepFits(s, i, lim, rules, v, h, depthBelow, SeenBefore(steps + [st], i, seen), (steps + [st])[i])
    {
      assert SeenBefore(steps + [st], i, seen) == SeenBefore(steps, i, seen);
    }
    OneStepMore(steps, st);
  }

  lemma NoStepsYet(s: SearchNode, lim: Limits, rules: Rules, v: View, h: History, depthBelow: nat, seen: set<int>)
    ensures StepsFit(s, lim, rules, v, h, depthBelow, seen, []) && SeenBefore([], 0, seen) == seen
    ensures VisitsOf(Trace([])) == []
  {
  }

  lemma TracedAll(s: SearchNode, lim: Limits, rules: Rules, v: View, h: History, maxDepth: nat, seen: set<int>,
                  steps: seq<Step>)
    requires maxDepth > 0 && s.id !in seen && |steps| == |s.children|
    requires StepsFit(s, lim, rules, v, h, maxDepth - 1, seen + {s.id}, steps)
    ensures TraceFits(s, lim, rules, v, h, maxDepth, seen, Trace(steps), SeenBefore(steps, |steps|, seen + {s.id}))
  {
    hide StepFits;
  }

  lemma TracedNothing(s: SearchNode, lim: Limits, rules: Rules, v: View, h: History, maxDepth: nat, seen: set<int>)
    requires maxDepth == 0 || s.id in seen
    ensures TraceFits(s, lim, rules, v, h, maxDepth, seen, Trace([]), seen) && VisitsOf(Trace([])) == []
  {
  }

  lemma PassedFits(s: SearchNode, i: nat, lim: Limits, rules: Rules, v: View, h: History, depthBelow: nat,
                   seen: set<int>)
    requires i < |s.children| && !Selected(s, i, lim)
    ensures StepFits(s, i, lim, rules, v, h, depthBelow, seen, Passed(seen)) && StepVisits(Passed(seen)) == []
  {
  }

  /**
   Record the moves of a search node that have enough visits, and the best one; go on at the children
   with many visits, down to a depth. What is done is exactly what the trace says: its visits give the
   edits, the nodes to list and the nodes to search again. A leaf that was in the book is not listed,
   even if the search is stored there.
   */
  method RecordTree<S(!new)>(hs: Hasher<S>, v2: bool, b: Book, lim: Limits, rules: Rules, s: SearchNode, v: View,
                             h: History, maxDepth: nat, recursedOn: set<int>, ghost sn: Snapshot)
    returns (recursedOn': set<int>, log: Log, ghost t: Trace)
    requires b.Indexed() && b.Snapshot() == sn && Editable(b, KeyOf(hs, v2))
    requires Separates(b, KeyOf(hs, v2)) && Stands(b, KeyOf(hs, v2), h, v)
    requires v.node in b.nodes && PlayableTree(s, b.xSize, b.ySize)
    modifies b`nodes, b`nodeIdx, b.nodes
    ensures old(b.nodes) <= b.nodes && forall i :: 0 <= i < |b.nodes| && i >= |old(b.nodes)| ==> fresh(b.nodes[i])
    ensures Editable(b, KeyOf(hs, v2)) && TraceFits(s, lim, rules, v, h, maxDepth, recursedOn, t, recursedOn')
    ensures forall g :: Did(b, lim, sn, VisitsOf(t), log, false, false, g)
    decreases maxDepth, 0
  {
    hide *;
    ghost var key := KeyOf(hs, v2);
    recursedOn', log := recursedOn, Log([], []);
    ghost var steps: seq<Step>, visits: seq<Visit> := [], [];
    StartRecording(b, key, lim, v.node);
    t := Trace([]);
    if maxDepth == 0 || s.id in recursedOn {
      TracedNothing(s, lim, rules, v, h, maxDepth, recursedOn);
      forall g ensures Did(b, lim, sn, VisitsOf(t), log, false, false, g) {
        DidNothing(b, lim, g);
      }
      return;
    }
    recursedOn' := recursedOn' + {s.id};
    ghost var seen := recursedOn';
    var added, anyRecursion := false, false;
    NoStepsYet(s, lim, rules, v, h, maxDepth - 1, seen);
    for i := 0 to |s.children|
      invariant Recording(b, key, lim, sn, visits, log, added, anyRecursion, v.node)
      invariant StepsFit(s, lim, rules, v, h, maxDepth - 1, seen, steps) && |steps| == i
      invariant visits == VisitsOf(Trace(steps)) && recursedOn' == SeenBefore(steps, i, seen)
      invariant old(b.nodes) <= b.nodes && forall i :: 0 <= i < |b.nodes| && i >= |old(b.nodes)| ==> fresh(b.nodes[i])
    {
      TreeFacts(s, b.xSize, b.ySize, i);
      ghost var st;
      if Selected(s, i, lim) {
        RecordingFacts(b, key, lim, sn, visits, log, added, anyRecursion, v.node);
        ghost var sn1, nodes1 := b.Snapshot(), b.nodes;
        var addedHere, recursed, more;
        addedHere, recursed, recursedOn', more, st :=
          RecordSubtree(hs, v2, b, lim, rules, s, i, v, h, maxDepth - 1, recursedOn', sn1);
        forall k | |old(b.nodes)| <= k < |b.nodes| ensures fresh(b.nodes[k]) {
          assert k < |nodes1| ==> b.nodes[k] == nodes1[k];
        }
        DidMore(b, lim, nodes1, sn, sn1, visits, StepVisits(st), log, more, added, addedHere, anyRecursion, recursed,
                v.node.hash);
        log, added, anyRecursion := Append(log, more), added || addedHere, anyRecursion || recursed;
        visits := visits + StepVisits(st);
        StillRecording(b, key, lim, sn, visits, log, added, anyRecursion, v.node);
      } else {
        st := Passed(recursedOn');
        PassedFits(s, i, lim, rules, v, h, maxDepth - 1, recursedOn');
      }
      StepsFitMore(s, lim, rules, v, h, maxDepth - 1, seen, steps, st);
      steps := steps + [st];
    }
    TracedAll(s, lim, rules, v, h, maxDepth, recursedOn, steps);
    t := Trace(steps);
    RecordingFacts(b, key, lim, sn, visits, log, added, anyRecursion, v.node);
    var listed := Log(if added then log.toSearch + [v.node] else log.toSearch,
                      if added || anyRecursion then log.toUpdate + [v.node] else log.toUpdate);
    forall g ensures Did(b, lim, sn, VisitsOf(t), listed, false, false, g) {
      DidAll(b, lim, sn, visits, log, added, anyRecursion, v.node, listed, g);
    }
    log := listed;
  }

  /** Record one move, and go on below it if the search looked at it closely. */
  method RecordSubtree<S(!new)>(hs: Hasher<S>, v2: bool, b: Book, lim: Limits, rules: Rules, s: SearchNode, i: nat,
                                v: View, h: History, depthBelow: nat, recursedOn: set<int>, ghost sn: Snapshot)
    returns (added: bool, recursed: bool, recursedOn': set<int>, log: Log, ghost st: Step)
    requires b.Indexed() && b.Snapshot() == sn && Editable(b, KeyOf(hs, v2))
    requires Separates(b, KeyOf(hs, v2)) && Stands(b, KeyOf(hs, v2), h, v) && v.node in b.nodes
    requires i < |s.children| && Selected(s, i, lim)
    requires Playable(s.children[i].found.move, b.xSize, b.ySize) && PlayableTree(s.children[i].node, b.xSize, b.ySize)
    modifies b`nodes, b`nodeIdx, b.nodes
    ensures old(b.nodes) <= b.nodes && forall i :: 0 <= i < |b.nodes| && i >= |old(b.nodes)| ==> fresh(b.nodes[i])
    ensures Editable(b, KeyOf(hs, v2)) && Did(b, lim, sn, StepVisits(st), log, added, recursed, v.node.hash)
    ensures v.node in b.nodes
    ensures StepFits(s, i, lim, rules, v, h, depthBelow, recursedOn, st) && recursedOn' == st.seen
    decreases depthBelow, 1
  {
    hide *;
    var c, child := s.children[i], None;
    ghost var x;
    child, added, log, x := RecordChild(hs, v2, b, lim, rules, v, h, c.found, sn);
    recursed, recursedOn' := false, recursedOn;
    RecursedWhen(x, v, h, c.found, lim, rules);
    if child.Some? && c.found.visits >= lim.treeVisits && !rules.finished(Ext(h, c.found.move)) {
      recursed := true;
      DidFacts(b, lim, sn, [x], log, added, true, v.node.hash);
      ghost var sn1, nodes1, below := b.Snapshot(), b.nodes, Trace([]);
      var more;
      recursedOn', more, below :=
        RecordTree(hs, v2, b, lim, rules, c.node, child.value, Ext(h, c.found.move), depthBelow, recursedOn, sn1);
      DidMore(b, lim, nodes1, sn, sn1, [x], VisitsOf(below), log, more, added, false, true, false, v.node.hash);
      log := Append(log, more);
      st := Taken(x, below, recursedOn');
    } else {
      st := Taken(x, Trace([]), recursedOn);
    }
    TakenFits(s, i, lim, rules, v, h, depthBelow, recursedOn, st);
  }

  lemma RecursedWhen(x: Visit, v: View, h: History, found: Found, lim: Limits, rules: Rules)
    requires VisitFits(x, v, h, found, lim, rules)
    ensures Recursed(x) <==> !x.Unplayable? && found.visits >= lim.treeVisits && !rules.finished(Ext(h, found.move))
  {
  }

  lemma TakenFits(s: SearchNode, i: nat, lim: Limits, rules: Rules, v: View, h: History, depthBelow: nat,
                  seen: set<int>, st: Step)
    requires i < |s.children| && Selected(s, i, lim) && st.Taken?
    requires VisitFits(st.visit, v, h, s.children[i].found, lim, rules)
    requires if Recursed(st.visit)
             then TraceFits(s.children[i].node, lim, rules, st.visit.child, Ext(h, s.children[i].found.move), depthBelow, seen,
                            st.below, st.seen)
             else st.below == Trace([]) && st.seen == seen
    ensures StepFits(s, i, lim, rules, v, h, depthBelow, seen, st)
    ensures StepVisits(st) == [st.visit] + VisitsOf(st.below)
    ensures (st.below == Trace([]) ==> StepVisits(st) == [st.visit])
  {
  }

  lemma TreeFacts(s: SearchNode, xSize: nat, ySize: nat, i: nat)
    requires PlayableTree(s, xSize, ySize) && i < |s.children|
    ensures Playable(s.children[i].found.move, xSize, ySize) && PlayableTree(s.children[i].node, xSize, ySize)
  {
    assert s.children[i] in s.children;
  }

  // ---------------------------------------------------------------------------------------------
  // Searching again

  function AgainEdits(nodes: seq<BookNode>, again: BookHash -> Searched): seq<Edit> {
    if nodes == [] then []
    else AgainEdits(nodes[..|nodes| - 1], again) + OneAgain(nodes[|nodes| - 1].hash, again(nodes[|nodes| - 1].hash))
  }

  function OneAgain(h: BookHash, result: Searched): seq<Edit> {
    [StoreSearch(h, result.own)] + if result.noMoves then [StopExpanding(h)] else []
  }

  /** Search the noted nodes again; the results are stored, and a node without further moves is closed. */
  method SearchAgain(b: Book, nodes: seq<BookNode>, again: BookHash -> Searched, ghost key: Key, ghost sn: Snapshot)
    requires b.Indexed() && b.Snapshot() == sn && Editable(b, key) && forall n :: n in nodes ==> n in b.nodes
    modifies b.nodes
    ensures b.nodes == old(b.nodes) && Editable(b, key) && Done(b, sn, AgainEdits(nodes, again), Log([], []))
  {
    hide *;
    EditableFacts(b, key);
    NothingDone(b, []);
    NoneAgain(again);
    assert nodes[..0] == [];
    for i := 0 to |nodes|
      invariant b.nodes == old(b.nodes) && Editable(b, key) && Done(b, sn, AgainEdits(nodes[..i], again), Log([], []))
    {
      DoneFacts(b, sn, AgainEdits(nodes[..i], again), Log([], []));
      ghost var sn1 := b.Snapshot();
      assert nodes[i] in nodes;
      StoreAgain(b, nodes[i], again(nodes[i].hash), key, sn1);
      DoneMore(b, b.nodes, sn, sn1, AgainEdits(nodes[..i], again), OneAgain(nodes[i].hash, again(nodes[i].hash)),
               Log([], []), Log([], []));
      AppendNothing(Log([], []));
      AgainOneMore(nodes, i, again);
    }
    assert nodes[..|nodes|] == nodes;
  }

  lemma NoneAgain(again: BookHash -> Searched)
    ensures AgainEdits([], again) == []
  {
  }

  lemma AgainOneMore(nodes: seq<BookNode>, i: nat, again: BookHash -> Searched)
    requires i < |nodes|
    ensures AgainEdits(nodes[..i + 1], again) == AgainEdits(nodes[..i], again) + OneAgain(nodes[i].hash, again(nodes[i].hash))
  {
    assert nodes[..i + 1][..i] == nodes[..i];
  }

  /** Store the result of one search. */
  method StoreAgain(b: Book, node: BookNode, result: Searched, ghost key: Key, ghost sn: Snapshot)
    requires b.Indexed() && b.Snapshot() == sn && Editable(b, key) && node in b.nodes
    modifies node`thisValuesNotInBook, node`canExpand, node`canReExpand
    ensures b.Indexed() && Editable(b, key) && Done(b, sn, OneAgain(node.hash, result), Log([], []))
  {
    hide Editable, PossibleAll, ApplyAll, Book.Snapshot, Book.Indexed, Done;
    EditableFacts(b, key);
    WriteInputs(b, node, result.own, node.canExpand, node.canReExpand, StoreSearch(node.hash, result.own), key, sn);
    EditableFacts(b, key);
    if result.noMoves {
      ghost var sn1 := b.Snapshot();
      WriteInputs(b, node, node.thisValuesNotInBook, false, node.canReExpand, StopExpanding(node.hash), key, sn1);
      EditableFacts(b, key);
      MoreEdits(sn, [StoreSearch(node.hash, result.own)], [StopExpanding(node.hash)]);
    }
    assert OneAgain(node.hash, result) ==
           if result.noMoves then [StoreSearch(node.hash, result.own)] + [StopExpanding(node.hash)]
           else [StoreSearch(node.hash, result.own)];
    IsDone(b, sn, OneAgain(node.hash, result), Log([], []));
  }

  lemma AppendNothing(log: Log)
    ensures Append(log, Log([], [])) == log
  {
  }

}
