/** Views of the book's nodes, and adding a move to the book through a view. */
module BookViews {
  import opened Util
  import opened BookData
  import opened Symmetry
  import opened Views
  import H = Hashing

  /** A node as seen through the symmetry from node space to the space of the view. */
  datatype View = View(node: BookNode, symmetryOfNode: Sym)

  function FrameOf(b: Book, node: BookNode): Frame
    reads node
  {
    Frame(b.xSize, b.ySize, node.symmetries, node.moves)
  }

  /** Every node's symmetries and moves fit together. */
  ghost predicate FramesOk(b: Book)
    reads b`nodes, b.nodes
  {
    forall n :: n in b.nodes ==> FrameOk(FrameOf(b, n))
  }

  function FollowView(b: Book, v: View, move: Loc): Option<View>
    requires b.Indexed()
    reads b`nodes, b`nodeIdx, v.node
  {
    match Follow(FrameOf(b, v.node), v.symmetryOfNode, move)
    case Some(r) => if r.hash in b.nodeIdx then Some(View(b.Get(r.hash), r.symmetryOfNode)) else None
    case None => None
  }

  /** The parent the cost pass preferred, turned so that this view comes out of it. */
  function CanonicalParent(b: Book, v: View): Option<View>
    requires b.Indexed()
    reads b`nodes, b`nodeIdx, b.nodes, v.node
  {
    var parents := v.node.parents;
    if |parents| == 0 then None
    else
      var idx := if 0 <= v.node.bestParentIdx < |parents| then v.node.bestParentIdx else 0;
      if parents[idx].0 !in b.nodeIdx then None
      else
        var parent := b.Get(parents[idx].0);
        if parents[idx].1 !in parent.moves then None
        else Some(View(parent, Compose(parent.moves[parents[idx].1].symmetryToAlign, v.symmetryOfNode)))
  }

  /** In a consistent book the canonical parent exists, and following its move leads back to this very view. */
  lemma CanonicalParentIsParent(b: Book, v: View) returns (loc: Loc)
    requires b.Valid() && FramesOk(b) && v.node in b.nodes && InGroup(v.symmetryOfNode, b.xSize, b.ySize)
    ensures v.node.parents == [] ==> CanonicalParent(b, v) == None
    ensures v.node.parents != [] ==>
              && CanonicalParent(b, v).Some?
              && var p := CanonicalParent(b, v).value;
              && p.node in b.nodes && loc in p.node.moves
              && FollowView(b, p, SymLoc(loc, b.xSize, b.ySize, p.symmetryOfNode)) == Some(v)
  {
    hide FrameOk, Follow, Compose, SymLoc;
    loc := NULL_LOC;
    var parents := v.node.parents;
    if parents != [] {
      var idx := if 0 <= v.node.bestParentIdx < |parents| then v.node.bestParentIdx else 0;
      var e := parents[idx];
      loc := e.1;
      b.Has(v.node);
      assert e in b.Snapshot()[v.node.hash].parents;
      b.At(e.0);
      CanonicalParentLeadsBack(FrameOf(b, b.Get(e.0)), loc, v.symmetryOfNode);
    }
  }

  // ---------------------------------------------------------------------------------------------
  // Adding a move

  /** What hashing the position after the move yields. */
  datatype Aligned = Aligned(hash: BookHash, symmetryToAlign: Sym, symmetries: seq<Sym>)

  ghost predicate AlignedOk(b: Book, a: Aligned) {
    InGroup(a.symmetryToAlign, b.xSize, b.ySize) && SymmetriesOk(Frame(b.xSize, b.ySize, a.symmetries, map[]))
  }

  /** get or new; a known hash means the position was reached before in another way. */
  method GetOrAdd(b: Book, a: Aligned, nextPla: Player) returns (child: BookNode, childIsTransposing: bool)
    requires b.Indexed()
    modifies b`nodes, b`nodeIdx
    ensures b.Indexed() && child in b.nodes && child.hash == a.hash && a.hash in b.nodeIdx
    ensures childIsTransposing <==> a.hash in old(b.nodeIdx)
    ensures childIsTransposing ==> b.nodes == old(b.nodes) && b.Snapshot() == old(b.Snapshot())
    ensures !childIsTransposing ==>
              && fresh(child) && child.symmetries == a.symmetries && child.moves == map[] && child.pla == nextPla
              && b.nodes == old(b.nodes) + [child]
              && b.Snapshot() == old(b.Snapshot())[a.hash := FreshState(nextPla)]
  {
    childIsTransposing := a.hash in b.nodeIdx;
    if childIsTransposing {
      child := b.Get(a.hash);
    } else {
      child := new BookNode(a.hash, nextPla, a.symmetries);
      var suc := b.Add(child);
      b.AddedAt(child);
    }
  }

  /** The child's new parent entry, then the node's new move; they may be the same node. */
  ghost function Linking(sn: Snapshot, h: BookHash, c: BookHash, loc: Loc, m: BookMove): Snapshot
    requires h in sn && c in sn
  {
    var sn1 := sn[c := sn[c].(parents := sn[c].parents + [(h, loc)])];
    sn1[h := sn1[h].(moves := sn1[h].moves[loc := m])]
  }

  /** A book with a new move m at h, the child being made unless it is there already. */
  ghost function Extended(sn: Snapshot, h: BookHash, m: BookMove, pla: Player): Snapshot
    requires h in sn
  {
    Linking(if m.hash in sn then sn else sn[m.hash := FreshState(pla)], h, m.hash, m.move, m)
  }

  method Link(b: Book, node: BookNode, child: BookNode, loc: Loc, m: BookMove)
    requires b.Indexed() && node in b.nodes && child in b.nodes
    modifies node`moves, child`parents
    ensures b.Indexed() && node.hash in old(b.Snapshot()) && child.hash in old(b.Snapshot())
    ensures b.Snapshot() == Linking(old(b.Snapshot()), node.hash, child.hash, loc, m)
    ensures node.moves == old(node.moves)[loc := m]
  {
    hide Book.Snapshot;
    b.Has(node);
    b.Has(child);
    child.parents := child.parents + [(node.hash, loc)];
    b.ChangedAt(child.hash);
    label Linked:
    ghost var sn1 := b.Snapshot();
    b.Has(node);
    node.moves := node.moves[loc := m];
    b.ChangedAt@Linked(node.hash);
    b.Has(node);
  }

  lemma LinkingAt(sn: Snapshot, h: BookHash, c: BookHash, loc: Loc, m: BookMove)
    requires h in sn && c in sn
    ensures Linking(sn, h, c, loc, m).Keys == sn.Keys
    ensures forall k :: k in sn ==>
              && Linking(sn, h, c, loc, m)[k].moves == (if k == h then sn[k].moves[loc := m] else sn[k].moves)
              && Linking(sn, h, c, loc, m)[k].parents == (if k == c then sn[k].parents + [(h, loc)] else sn[k].parents)
    ensures forall k :: k in sn ==> SameFields(sn[k], Linking(sn, h, c, loc, m)[k])
  {
  }

  /** The nodes differ at most in their links. */
  ghost predicate SameFields(node: NodeState, node': NodeState) {
    node'.inputs == node.inputs && node'.values == node.values && node'.costs == node.costs && node'.flag == node.flag
  }

  /** sn' has one edge more than sn, from h by loc to c. */
  ghost predicate OneEdgeMore(sn: Snapshot, sn': Snapshot, h: BookHash, c: BookHash, loc: Loc, m: BookMove) {
    && h in sn && c in sn && sn'.Keys == sn.Keys
    && forall k :: k in sn ==>
         && sn'[k].moves == (if k == h then sn[k].moves[loc := m] else sn[k].moves)
         && sn'[k].parents == (if k == c then sn[k].parents + [(h, loc)] else sn[k].parents)
  }

  lemma LinkingIsOneEdge(sn: Snapshot, root: BookHash, h: BookHash, c: BookHash, loc: Loc, m: BookMove)
    requires h in sn && c in sn && root in sn
    ensures var sn' := Linking(sn, h, c, loc, m);
            OneEdgeMore(sn, sn', h, c, loc, m) && sn'.Keys == sn.Keys && sn'[root].costs == sn[root].costs
  {
    hide Linking;
    LinkingAt(sn, h, c, loc, m);
    assert SameFields(sn[root], Linking(sn, h, c, loc, m)[root]);
  }

  lemma MovesStayLinked(sn: Snapshot, sn': Snapshot, root: BookHash, h: BookHash, c: BookHash, loc: Loc, m: BookMove,
                        k: BookHash, l: Loc)
    requires Linked(sn, root) && OneEdgeMore(sn, sn', h, c, loc, m) && loc !in sn[h].moves && loc != NULL_LOC
    requires m.hash == c && m.move == loc && k in sn' && l in sn'[k].moves
    ensures sn'[k].moves[l].hash in sn' && sn'[k].moves[l].move == l && l != NULL_LOC
            && (k, l) in sn'[sn'[k].moves[l].hash].parents
  {
    if k == h && l == loc {
      assert sn'[c].parents[|sn[c].parents|] == (h, loc);
    } else {
      assert (k, l) in sn[sn[k].moves[l].hash].parents;
    }
  }

  lemma ParentsStayLinked(sn: Snapshot, sn': Snapshot, root: BookHash, h: BookHash, c: BookHash, loc: Loc, m: BookMove,
                          k: BookHash, e: (BookHash, Loc))
    requires Linked(sn, root) && OneEdgeMore(sn, sn', h, c, loc, m) && loc !in sn[h].moves && m.hash == c
    requires k in sn' && e in sn'[k].parents
    ensures e.0 in sn' && e.1 in sn'[e.0].moves && sn'[e.0].moves[e.1].hash == k
  {
    if e !in sn[k].parents {
      assert k == c && e == (h, loc);
    }
  }

  /** The new edge is recorded at both ends, so the links stay consistent. */
  lemma LinkingKeepsLinked(sn: Snapshot, root: BookHash, h: BookHash, c: BookHash, loc: Loc, m: BookMove)
    requires Linked(sn, root) && h in sn && c in sn && loc !in sn[h].moves && loc != NULL_LOC
    requires m.hash == c && m.move == loc
    ensures Linked(Linking(sn, h, c, loc, m), root)
  {
    hide Linking, OneEdgeMore;
    var sn' := Linking(sn, h, c, loc, m);
    LinkingIsOneEdge(sn, root, h, c, loc, m);
    forall k, l | k in sn' && l in sn'[k].moves
      ensures sn'[k].moves[l].hash in sn' && sn'[k].moves[l].move == l && l != NULL_LOC
        && (k, l) in sn'[sn'[k].moves[l].hash].parents
    {
      MovesStayLinked(sn, sn', root, h, c, loc, m, k, l);
    }
    forall k, e | k in sn' && e in sn'[k].parents
      ensures e.0 in sn' && e.1 in sn'[e.0].moves && sn'[e.0].moves[e.1].hash == k
    {
      ParentsStayLinked(sn, sn', root, h, c, loc, m, k, e);
    }
  }

  lemma FreshKeepsBestParents(sn: Snapshot, h: BookHash, pla: Player)
    requires BestParentsOk(sn)
    ensures BestParentsOk(sn[h := FreshState(pla)])
  {
  }

  /** Lists of parents only get longer. */
  lemma LinkingKeepsBestParents(sn: Snapshot, h: BookHash, c: BookHash, loc: Loc, m: BookMove)
    requires BestParentsOk(sn) && h in sn && c in sn
    ensures BestParentsOk(Linking(sn, h, c, loc, m))
  {
  }

  lemma FreshKeepsLinked(sn: Snapshot, root: BookHash, h: BookHash, pla: Player)
    requires Linked(sn, root) && h !in sn
    ensures Linked(sn[h := FreshState(pla)], root)
  {
  }

  /** Of all symmetric forms of the move in node space, the stored one is nearest to the upper right corner. */
  ghost predicate StoredForm(f: Frame, sym: Sym, move: Loc, stored: Loc)
    requires SymmetriesOk(f) && InGroup(sym, f.xSize, f.ySize) && IsMove(move, f.xSize, f.ySize)
  {
    var symMove := Turn(f, move, Invert(sym));
    && (exists s :: s in f.symmetries && stored == Turn(f, symMove, s))
    && (forall s :: s in f.symmetries ==> !NearerCorner(f, Turn(f, symMove, s), stored))
  }

  /** The stored alignment undoes the choice of the form, then leads through the view's frame to the child. */
  ghost predicate StoredAlign(f: Frame, sym: Sym, move: Loc, m: BookMove, align: Sym) {
    exists s ::
      s in f.symmetries && m.move == Turn(f, Turn(f, move, Invert(sym)), s) && m.symmetryToAlign == NewAlign(s, sym, align)
  }

  /** What a successful call leaves behind: the child, its place in the book, and how following finds it. */
  ghost predicate Added(b: Book, v: View, move: Loc, a: Aligned, ret: View)
    requires b.Indexed()
    reads b`nodes, b`nodeIdx, b.nodes, v.node
  {
    && a.hash in b.nodeIdx && ret == View(b.Get(a.hash), Invert(a.symmetryToAlign))
    && exists g :: g in GetSymmetries(FrameOf(b, v.node), v.symmetryOfNode) && SymLoc(move, b.xSize, b.ySize, g) == move
                   && FollowView(b, v, move) == Some(View(ret.node, Compose(ret.symmetryOfNode, g)))
  }

  method ChooseMove(b: Book, v: View, move: Loc, rawPolicy: real,
                    a: Aligned) returns (m: BookMove, ghost bestSymmetry: Sym)
    requires FrameOk(FrameOf(b, v.node)) && InGroup(v.symmetryOfNode, b.xSize, b.ySize)
      && IsMove(move, b.xSize, b.ySize) && move != NULL_LOC
    requires InGroup(a.symmetryToAlign, b.xSize, b.ySize)
    ensures bestSymmetry in v.node.symmetries && m.hash == a.hash && m.move != NULL_LOC
    ensures m.move == Turn(FrameOf(b, v.node), Turn(FrameOf(b, v.node), move, Invert(v.symmetryOfNode)), bestSymmetry)
    ensures m.symmetryToAlign == NewAlign(bestSymmetry, v.symmetryOfNode, a.symmetryToAlign)
    ensures InGroup(m.symmetryToAlign, b.xSize, b.ySize)
    ensures StoredForm(FrameOf(b, v.node), v.symmetryOfNode, move, m.move) && m.rawPolicy == rawPolicy
  {
    hide Compose, Invert, Turn, OneKeyPerOrbit, MovesOk, NearerCorner;
    var f := FrameOf(b, v.node);
    GroupClosed(v.symmetryOfNode, a.symmetryToAlign, b.xSize, b.ySize);
    TurnActs(f, move, Invert(v.symmetryOfNode), IDENTITY);
    NullStays(f, move, Invert(v.symmetryOfNode));
    var symMove := Turn(f, move, Invert(v.symmetryOfNode));
    var bestLoc, best := ChooseLoc(f, symMove);
    bestSymmetry := best;
    NullStays(f, symMove, best);
    GroupClosed(best, v.symmetryOfNode, b.xSize, b.ySize);
    GroupClosed(Invert(best), v.symmetryOfNode, b.xSize, b.ySize);
    GroupClosed(Compose(Invert(best), v.symmetryOfNode), a.symmetryToAlign, b.xSize, b.ySize);
    m := BookMove(bestLoc, NewAlign(best, v.symmetryOfNode, a.symmetryToAlign), a.hash, rawPolicy, 0.0, false, 0.0);
  }

  lemma NullStays(f: Frame, loc: Loc, s: Sym)
    requires IsMove(loc, f.xSize, f.ySize) && InGroup(s, f.xSize, f.ySize) && loc != NULL_LOC
    ensures Turn(f, loc, s) != NULL_LOC
  {
    SymLocOnBoard(loc, f.xSize, f.ySize, s);
  }

  /** A child that is entered has no moves yet, so the book stays consistent. */
  method FindOrEnter(b: Book, a: Aligned, nextPla: Player) returns (child: BookNode, childIsTransposing: bool)
    requires b.Valid() && FramesOk(b) && AlignedOk(b, a)
    modifies b`nodes, b`nodeIdx
    ensures b.Valid() && FramesOk(b) && child in b.nodes && child.hash == a.hash && a.hash in b.nodeIdx
      && b.Get(a.hash) == child
    ensures childIsTransposing <==> a.hash in old(b.nodeIdx)
    ensures b.Snapshot() ==
            if a.hash in old(b.Snapshot()) then old(b.Snapshot()) else old(b.Snapshot())[a.hash := FreshState(nextPla)]
    ensures b.nodes == old(b.nodes) + if childIsTransposing then [] else [child]
    ensures if childIsTransposing then child in old(b.nodes) else fresh(child)
    ensures !childIsTransposing ==> child.symmetries == a.symmetries && child.moves == map[] && child.pla == nextPla
  {
    hide Book.Snapshot, Linked, FrameOk, FreshState, BestParentsOk;
    ghost var sn := b.Snapshot();
    child, childIsTransposing := GetOrAdd(b, a, nextPla);
    if !childIsTransposing {
      FreshKeepsLinked(sn, b.root.hash, a.hash, nextPla);
      FreshKeepsBestParents(sn, a.hash, nextPla);
      EmptyFrameOk(FrameOf(b, child));
    }
    b.Has(child);
  }

  /** Enter the child, record the edge at both ends. */
  method Enter(b: Book, node: BookNode, m: BookMove, a: Aligned, nextPla: Player)
    returns (child: BookNode, childIsTransposing: bool)
    requires b.Valid() && FramesOk(b) && node in b.nodes && AlignedOk(b, a)
    requires m.hash == a.hash && m.move !in node.moves && m.move != NULL_LOC
    requires FrameOk(WithMove(FrameOf(b, node), m.move, m))
    modifies b`nodes, b`nodeIdx, b.nodes
    ensures b.Valid() && FramesOk(b) && a.hash in b.nodeIdx && b.Get(a.hash) == child && node in b.nodes
    ensures childIsTransposing <==> a.hash in old(b.nodeIdx)
    ensures FrameOf(b, node) == WithMove(old(FrameOf(b, node)), m.move, m)
    ensures forall n :: n in old(b.nodes) && n != node ==> n.moves == old(n.moves)
    ensures !childIsTransposing ==> child.symmetries == a.symmetries && child.moves == map[] && child.pla == nextPla
    ensures node.hash in old(b.Snapshot()) && b.Snapshot() == Extended(old(b.Snapshot()), node.hash, m, nextPla)
    ensures b.nodes == old(b.nodes) + if childIsTransposing then [] else [child]
    ensures child.hash == a.hash && if childIsTransposing then child in old(b.nodes) else fresh(child)
  {
    hide Book.Snapshot, Linked, FrameOk, Linking, FreshState, AlignedOk, BestParentsOk;
    b.Has(node);
    ghost var sn := b.Snapshot();
    child, childIsTransposing := FindOrEnter(b, a, nextPla);
    ghost var sn1 := b.Snapshot();
    b.Has(node);
    b.Has(child);
    LinkingKeepsLinked(sn1, b.root.hash, node.hash, a.hash, m.move, m);
    LinkingKeepsBestParents(sn1, node.hash, a.hash, m.move, m);
    Link(b, node, child, m.move, m);
  }

  lemma EmptyFrameOk(f: Frame)
    requires SymmetriesOk(f.(moves := map[])) && f.moves == map[]
    ensures FrameOk(f)
  {
  }

  /**
   Add a move that is not in the book yet. Afterwards following it from the same view reaches the
   returned child, turned at most by a symmetry that leaves the view's position and the move alone.
   Nothing changes but the new edge and, unless the position was known, the new child.
   */
  method PlayAndAddMove(b: Book, v: View, move: Loc, rawPolicy: real, legal: bool, a: Aligned, nextPla: Player)
    returns (ret: Option<View>, childIsTransposing: bool, ghost m: BookMove)
    requires b.Valid() && FramesOk(b) && v.node in b.nodes && InGroup(v.symmetryOfNode, b.xSize, b.ySize)
    requires AlignedOk(b, a)
    requires legal ==> IsMove(move, b.xSize, b.ySize) && move != NULL_LOC
    requires !IsMoveInBook(FrameOf(b, v.node), v.symmetryOfNode, move)
    modifies b`nodes, b`nodeIdx, b.nodes
    ensures b.Valid() && FramesOk(b)
    ensures !legal ==> ret == None && b.nodes == old(b.nodes) && b.Snapshot() == old(b.Snapshot())
    ensures !legal ==> v.node.moves == old(v.node.moves)
    ensures legal ==> ret.Some? && Added(b, v, move, a, ret.value) && (childIsTransposing <==> a.hash in old(b.nodeIdx))
    ensures legal ==> m.hash == a.hash && m.rawPolicy == rawPolicy && m.move !in old(v.node.moves) && m.move != NULL_LOC
    ensures legal ==> StoredForm(old(FrameOf(b, v.node)), v.symmetryOfNode, move, m.move)
    ensures legal ==> StoredAlign(old(FrameOf(b, v.node)), v.symmetryOfNode, move, m, a.symmetryToAlign)
    ensures legal ==> FrameOf(b, v.node) == WithMove(old(FrameOf(b, v.node)), m.move, m)
    ensures legal && !childIsTransposing ==> ret.value.node.symmetries == a.symmetries && ret.value.node.moves == map[]
                                             && ret.value.node.pla == nextPla
    ensures forall n :: n in old(b.nodes) && n != v.node ==> n.moves == old(n.moves)
    ensures legal ==> v.node.hash in old(b.Snapshot()) && b.Snapshot() == Extended(old(b.Snapshot()), v.node.hash, m, nextPla)
    ensures legal ==> b.nodes == old(b.nodes) + if childIsTransposing then [] else [ret.value.node]
    ensures legal ==> ret.value.node.hash == a.hash
    ensures legal ==> if childIsTransposing then ret.value.node in old(b.nodes) else fresh(ret.value.node)
  {
    hide Extended, StoredForm, StoredAlign, Book.Snapshot, Linked, BestParentsOk, Follow, Added, Compose, Invert,
         SymLoc, OneKeyPerOrbit;
    if !legal {
      ret, childIsTransposing, m := None, false, BookMove(NULL_LOC, IDENTITY, a.hash, 0.0, 0.0, false, 0.0);
      return;
    }
    ghost var f := FrameOf(b, v.node);
    var newMove, best := ChooseMove(b, v, move, rawPolicy, a);
    m := newMove;
    StoredWith(f, v.symmetryOfNode, move, m, a.symmetryToAlign, best);
    AddKeepsFrameOk(f, v.symmetryOfNode, move, m.move, best, m);
    ghost var g := FollowAfterAdd(f, v.symmetryOfNode, move, m.move, best, m, a.symmetryToAlign);
    var child;
    child, childIsTransposing := Enter(b, v.node, newMove, a, nextPla);
    ret := Some(View(child, Invert(a.symmetryToAlign)));
    AddedBy(b, v, move, a, f, m, g);
  }

  lemma StoredWith(f: Frame, sym: Sym, move: Loc, m: BookMove, align: Sym, best: Sym)
    requires best in f.symmetries && m.move == Turn(f, Turn(f, move, Invert(sym)), best)
    requires m.symmetryToAlign == NewAlign(best, sym, align)
    ensures StoredAlign(f, sym, move, m, align)
  {
    hide SymLoc, NewAlign, Invert;
  }

  lemma AddedBy(b: Book, v: View, move: Loc, a: Aligned, f: Frame, m: BookMove, g: Sym)
    requires b.Indexed() && a.hash in b.nodeIdx && m.hash == a.hash
    requires FrameOf(b, v.node) == WithMove(f, m.move, m) && f.xSize == b.xSize && f.ySize == b.ySize
    requires g in GetSymmetries(f, v.symmetryOfNode) && Turn(f, move, g) == move
    requires Follow(WithMove(f, m.move, m), v.symmetryOfNode, move) ==
             Some(Followed(m.hash, Compose(Invert(a.symmetryToAlign), g)))
    ensures Added(b, v, move, a, View(b.Get(a.hash), Invert(a.symmetryToAlign)))
  {
    hide Follow, SymLoc;
    assert GetSymmetries(FrameOf(b, v.node), v.symmetryOfNode) == GetSymmetries(f, v.symmetryOfNode);
  }

  /** What hashing reports for a position are the symmetries a node needs. */
  lemma HashedSymmetriesOk<S(!new)>(hs: H.Hasher<S>, v2: bool, h: H.History, hash: BookHash, align: Sym, syms: seq<Sym>)
    requires H.ValidHistory(h) && H.CollisionFree(hs, v2, h) && H.Aligns(hs, v2, h, hash, align)
    requires (forall s :: s in syms <==> H.Preserves(hs, v2, h, hash, align, s)) && H.InCodeOrder(syms)
    ensures SymmetriesOk(Frame(h.initialBoard.xSize, h.initialBoard.ySize, syms, map[]))
  {
    hide H.SymHistory, H.HashIn, H.Aligns, H.CollisionFree, H.InCodeOrder, Compose, Invert;
    H.IdentityComesFirst(hs, v2, h, hash, align, syms);
    forall s | s in syms ensures InGroup(s, h.initialBoard.xSize, h.initialBoard.ySize) && Invert(s) in syms {
      H.SymmetriesFormGroup(hs, v2, h, hash, align, s, s);
    }
    forall s, t | s in syms && t in syms ensures Compose(s, t) in syms {
      H.SymmetriesFormGroup(hs, v2, h, hash, align, s, t);
    }
  }

  /** Nodes keep their depth when parent entries are only added; a new node is below its first parent. */
  lemma MoreParentsKeepRooted(sn: Snapshot, sn': Snapshot, root: BookHash, depth: map<BookHash, nat>,
                              depth': map<BookHash, nat>,
                              c: BookHash, e: (BookHash, Loc))
    requires RootedBy(sn, root, depth) && Linked(sn, root) && sn'.Keys <= sn.Keys + {c}
    requires forall k :: k in sn && k in sn' ==> sn[k].parents <= sn'[k].parents
    requires forall k :: k in sn && k in depth ==> k in depth' && depth'[k] == depth[k]
    requires c !in sn && c in sn' ==> e in sn'[c].parents && e.0 in depth' && c in depth' && depth'[e.0] < depth'[c]
    ensures RootedBy(sn', root, depth')
  {
    forall k | k in sn' && k != root
      ensures k in depth' && exists e :: e in sn'[k].parents && e.0 in depth' && depth'[e.0] < depth'[k]
    {
      if k in sn {
        var e :| e in sn[k].parents && e.0 in depth && depth[e.0] < depth[k];
        assert e in sn'[k].parents && e.0 in sn;
      } else {
        assert k == c;
      }
    }
  }

  /** Adding a move keeps every node below the root. */
  lemma LinkingKeepsRooted(sn: Snapshot, root: BookHash, depth: map<BookHash, nat>, h: BookHash, m: BookMove,
                           pla: Player)
    returns (depth': map<BookHash, nat>)
    requires RootedBy(sn, root, depth) && Linked(sn, root) && h in sn
    ensures RootedBy(Extended(sn, h, m, pla), root, depth')
  {
    hide Linked, FreshState, Linking;
    var sn1 := if m.hash in sn then sn else sn[m.hash := FreshState(pla)];
    LinkingAddsParent(sn1, h, m.hash, m.move, m);
    var d := if h in depth then depth else depth[h := 0];
    depth' := if m.hash in sn then d else d[m.hash := d[h] + 1];
    MoreParentsKeepRooted(sn, Extended(sn, h, m, pla), root, depth, depth', m.hash, (h, m.move));
  }

  lemma LinkingAddsParent(sn: Snapshot, h: BookHash, c: BookHash, loc: Loc, m: BookMove)
    requires h in sn && c in sn
    ensures var sn' := Linking(sn, h, c, loc, m);
            && sn'.Keys == sn.Keys && (forall k :: k in sn ==> sn[k].parents <= sn'[k].parents)
            && (h, loc) in sn'[c].parents
  {
    var sn' := Linking(sn, h, c, loc, m);
    assert sn'[c].parents[|sn[c].parents|] == (h, loc);
  }
}
