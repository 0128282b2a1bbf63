/**
 Histories walking through the book. If equal hashes stay equal when both positions are turned and
 when the same move is played in both, then every history that follows the book's moves to a node
 has that node's hash.
 */
module Walks {
  import opened Util
  import opened Symmetry
  import opened BookData
  import opened Views
  import opened Hashing

  type Key = History -> BookHash

  function Opponent(pla: Player): Player { if pla == Black then White else Black }

  /** A history on a board of this size. */
  ghost predicate Sized(h: History, xSize: nat, ySize: nat) {
    ValidHistory(h) && h.initialBoard.xSize == xSize && h.initialBoard.ySize == ySize
  }

  /** The player to move plays here. */
  function Ext(h: History, loc: Loc): History {
    History(h.initialBoard, h.moves + [(loc, h.nextPla)], Opponent(h.nextPla))
  }

  lemma ExtTurns(h: History, loc: Loc, s: Sym)
    requires ValidHistory(h) && IsMove(loc, h.initialBoard.xSize, h.initialBoard.ySize) && Allowed(h, s)
    ensures ValidHistory(Ext(h, loc)) && Allowed(Ext(h, loc), s)
    ensures SymHistory(Ext(h, loc), s) ==
            Ext(SymHistory(h, s), SymLoc(loc, h.initialBoard.xSize, h.initialBoard.ySize, s))
  {
    hide SymLoc, SymBoard, IsPoint, ValidBoard;
  }

  /**
   What is asked of the hash: positions with the same hash have the same player to move, and they
   keep having the same hash when both are turned, or when the same move is played in both.
   */
  ghost predicate Faithful(key: Key, xSize: nat, ySize: nat) {
    && (forall g, h :: Sized(g, xSize, ySize) && Sized(h, xSize, ySize) && key(g) == key(h) ==> g.nextPla == h.nextPla)
    && (forall g, h, s :: Sized(g, xSize, ySize) && Sized(h, xSize, ySize) && InGroup(s, xSize, ySize) && key(g) == key(h) ==>
          key(SymHistory(g, s)) == key(SymHistory(h, s)))
    && (forall g, h, loc ::
          Sized(g, xSize, ySize) && Sized(h, xSize, ySize) && Playable(loc, xSize, ySize) && key(g) == key(h) ==>
          key(Ext(g, loc)) == key(Ext(h, loc)))
  }

  /** No orientation of the position has a smaller hash. */
  ghost predicate NoneLess(key: Key, h: History, hash: BookHash)
    requires ValidHistory(h)
  {
    forall s :: Allowed(h, s) ==> !Less(key(SymHistory(h, s)), hash)
  }

  /** The history stands at the node with this hash, seen through sym. */
  ghost predicate StandsAt(key: Key, h: History, hash: BookHash, sym: Sym) {
    && ValidHistory(h) && Allowed(h, sym) && Allowed(h, Invert(sym))
    && key(SymHistory(h, Invert(sym))) == hash && NoneLess(key, h, hash)
  }

  lemma NoneLessTurns(key: Key, h: History, hash: BookHash, t: Sym)
    requires ValidHistory(h) && Allowed(h, t)
    ensures NoneLess(key, SymHistory(h, t), hash) <==> NoneLess(key, h, hash)
  {
    hide SymHistory, Less;
    var turned := SymHistory(h, t);
    GroupClosed(t, t, h.initialBoard.xSize, h.initialBoard.ySize);
    forall s | Allowed(h, s)
      ensures Allowed(h, Compose(t, s)) && SymHistory(turned, s) == SymHistory(h, Compose(t, s))
      ensures Allowed(turned, Compose(Invert(t), s)) && SymHistory(turned, Compose(Invert(t), s)) == SymHistory(h, s)
    {
      GroupClosed(t, s, h.initialBoard.xSize, h.initialBoard.ySize);
      GroupClosed(Invert(t), s, h.initialBoard.xSize, h.initialBoard.ySize);
      SymHistoryActs(h, t, s);
      SymHistoryActs(h, t, Compose(Invert(t), s));
      GroupLaws(t, Invert(t), s);
      GroupLaws(s, s, s);
    }
  }

  /** Same hash, so the same hashes in all orientations. */
  lemma NoneLessByHash(key: Key, g: History, h: History, hash: BookHash, xSize: nat, ySize: nat)
    requires Faithful(key, xSize, ySize) && Sized(g, xSize, ySize) && Sized(h, xSize, ySize) && key(g) == key(h)
    ensures NoneLess(key, g, hash) <==> NoneLess(key, h, hash)
  {
    hide SymHistory, Less;
  }

  // ---------------------------------------------------------------------------------------------
  // What a node says about the positions that have its hash

  ghost predicate PlayerNamed(key: Key, xSize: nat, ySize: nat, hash: BookHash, pla: Player) {
    forall g :: Sized(g, xSize, ySize) && key(g) == hash ==> g.nextPla == pla
  }

  /** The symmetries are those under which such a position keeps its hash. */
  ghost predicate SymmetriesNamed(key: Key, xSize: nat, ySize: nat, hash: BookHash, symmetries: seq<Sym>) {
    forall g, s :: Sized(g, xSize, ySize) && InGroup(s, xSize, ySize) && key(g) == hash ==>
      (s in symmetries <==> key(SymHistory(g, s)) == hash)
  }

  /** Such a position, after the move and turned as stored, has the child's hash. */
  ghost predicate MoveNamed(key: Key, xSize: nat, ySize: nat, hash: BookHash, m: BookMove) {
    && IsMove(m.move, xSize, ySize) && m.move != NULL_LOC && InGroup(m.symmetryToAlign, xSize, ySize)
    && forall g :: Sized(g, xSize, ySize) && key(g) == hash ==> LeadsTo(key, g, m)
  }

  ghost predicate LeadsTo(key: Key, g: History, m: BookMove) {
    && ValidHistory(Ext(g, m.move)) && Allowed(g, m.symmetryToAlign)
    && key(SymHistory(Ext(g, m.move), m.symmetryToAlign)) == m.hash && NoneLess(key, Ext(g, m.move), m.hash)
  }

  ghost predicate NodeNamed(key: Key, hash: BookHash, pla: Player, f: Frame) {
    && PlayerNamed(key, f.xSize, f.ySize, hash, pla)
    && SymmetriesNamed(key, f.xSize, f.ySize, hash, f.symmetries)
    && forall loc :: loc in f.moves ==> MoveNamed(key, f.xSize, f.ySize, hash, f.moves[loc])
  }

  /** One position with the hash speaks for all of them. */
  lemma OneLeads(key: Key, xSize: nat, ySize: nat, hash: BookHash, m: BookMove, g: History)
    requires Faithful(key, xSize, ySize) && Sized(g, xSize, ySize) && key(g) == hash
    requires IsMove(m.move, xSize, ySize) && m.move != NULL_LOC && InGroup(m.symmetryToAlign, xSize, ySize)
    requires LeadsTo(key, g, m)
    ensures MoveNamed(key, xSize, ySize, hash, m)
  {
    hide SymHistory, NoneLess, SymLoc;
    forall g' | Sized(g', xSize, ySize) && key(g') == hash ensures LeadsTo(key, g', m) {
      ExtTurns(g, m.move, m.symmetryToAlign);
      ExtTurns(g', m.move, m.symmetryToAlign);
      assert key(Ext(g, m.move)) == key(Ext(g', m.move));
      NoneLessByHash(key, Ext(g, m.move), Ext(g', m.move), m.hash, xSize, ySize);
    }
  }

  lemma OneHasSymmetries(key: Key, xSize: nat, ySize: nat, hash: BookHash, symmetries: seq<Sym>, g: History)
    requires Faithful(key, xSize, ySize) && Sized(g, xSize, ySize) && key(g) == hash
    requires forall s :: InGroup(s, xSize, ySize) ==> (s in symmetries <==> key(SymHistory(g, s)) == hash)
    ensures SymmetriesNamed(key, xSize, ySize, hash, symmetries)
  {
    hide SymHistory;
  }

  lemma OneHasPlayer(key: Key, xSize: nat, ySize: nat, hash: BookHash, g: History)
    requires Faithful(key, xSize, ySize) && Sized(g, xSize, ySize) && key(g) == hash
    ensures PlayerNamed(key, xSize, ySize, hash, g.nextPla)
  {
  }

  // ---------------------------------------------------------------------------------------------
  // Following and adding moves

  /** The position turned into node space, then by one of the node's symmetries, still has the node's hash. */
  lemma TurnedStandsAt(key: Key, h: History, hash: BookHash, sym: Sym, symmetries: seq<Sym>, s: Sym)
    requires StandsAt(key, h, hash, sym) && InGroup(s, h.initialBoard.xSize, h.initialBoard.ySize) && s in symmetries
    requires SymmetriesNamed(key, h.initialBoard.xSize, h.initialBoard.ySize, hash, symmetries)
    ensures Allowed(h, Compose(Invert(sym), s)) && key(SymHistory(h, Compose(Invert(sym), s))) == hash
  {
    hide SymHistory, Compose, Invert;
    GroupClosed(Invert(sym), s, h.initialBoard.xSize, h.initialBoard.ySize);
    SymHistoryActs(h, Invert(sym), s);
  }

  /** After the move, the position in node space is the one after the turned move. */
  lemma ExtInFrame(h: History, move: Loc, symmetry: Sym, align: Sym)
    requires ValidHistory(h) && IsMove(move, h.initialBoard.xSize, h.initialBoard.ySize)
    requires Allowed(h, symmetry) && Allowed(h, align)
    ensures var loc := SymLoc(move, h.initialBoard.xSize, h.initialBoard.ySize, symmetry);
            && ValidHistory(Ext(h, move)) && ValidHistory(Ext(SymHistory(h, symmetry), loc))
            && Allowed(h, Compose(symmetry, align))
            && Ext(SymHistory(h, symmetry), loc) == SymHistory(Ext(h, move), symmetry)
            && SymHistory(Ext(SymHistory(h, symmetry), loc), align) == SymHistory(Ext(h, move), Compose(symmetry, align))
  {
    hide SymHistory, Compose, SymLoc, Ext;
    ExtTurns(h, move, symmetry);
    ExtKeepsBoard(h, move);
    GroupClosed(symmetry, align, h.initialBoard.xSize, h.initialBoard.ySize);
    SymHistoryActs(Ext(h, move), symmetry, align);
  }

  lemma ExtKeepsBoard(h: History, loc: Loc)
    ensures Ext(h, loc).initialBoard == h.initialBoard
  {
  }

  /** A history that stands at a view and plays a move that can be followed stands at the view it leads to. */
  lemma FollowKeepsStanding(key: Key, h: History, hash: BookHash, pla: Player, f: Frame, sym: Sym, move: Loc)
    requires Sized(h, f.xSize, f.ySize) && StandsAt(key, h, hash, sym) && FrameOk(f) && NodeNamed(key, hash, pla, f)
    requires IsMove(move, f.xSize, f.ySize) && move != NULL_LOC && Follow(f, sym, move).Some?
    ensures var r := Follow(f, sym, move).value;
            ValidHistory(Ext(h, move)) && StandsAt(key, Ext(h, move), r.hash, r.symmetryOfNode)
  {
    hide SymHistory, Compose, Invert, SymLoc, Ext, Less, OneKeyPerOrbit, NoneLess, FollowFrom;
    var i := WhereFound(f, sym, move);
    var symmetry := Compose(Invert(sym), f.symmetries[i]);
    var loc := Turn(f, move, symmetry);
    var m := f.moves[loc];
    assert f.symmetries[i] in f.symmetries;
    TurnedStandsAt(key, h, hash, sym, f.symmetries, f.symmetries[i]);
    var g := SymHistory(h, symmetry);
    assert LeadsTo(key, g, m);
    ExtInFrame(h, move, symmetry, m.symmetryToAlign);
    ExtKeepsBoard(h, move);
    NoneLessTurns(key, Ext(h, move), m.hash, symmetry);
    GroupLaws(Compose(symmetry, m.symmetryToAlign), IDENTITY, IDENTITY);
    GroupClosed(Compose(symmetry, m.symmetryToAlign), IDENTITY, f.xSize, f.ySize);
  }

  lemma WhereFound(f: Frame, sym: Sym, move: Loc) returns (i: nat)
    requires Follow(f, sym, move).Some?
    ensures FoundAt(f, sym, move, i)
    ensures var symmetry := Compose(Invert(sym), f.symmetries[i]);
            var m := f.moves[Turn(f, move, symmetry)];
            Follow(f, sym, move) == Some(Followed(m.hash, Invert(Compose(symmetry, m.symmetryToAlign))))
  {
    hide Compose, Invert, SymLoc;
    FollowsWhatIsInBook(f, sym, move);
    var s :| s in f.symmetries && Turn(f, move, Compose(Invert(sym), s)) in f.moves;
    var n :| 0 <= n < |f.symmetries| && f.symmetries[n] == s;
    i := FirstFound(f, sym, move, n);
    FollowFinds(f, sym, move, 0, i);
  }

  lemma NewAlignFrame(sym: Sym, best: Sym, align: Sym)
    ensures Compose(Compose(Invert(sym), best), NewAlign(best, sym, align)) == align
  {
  }

  /** The move stored for a history at the view is right for every position with the node's hash. */
  lemma AddedMoveIsNamed(key: Key, h: History, hash: BookHash, f: Frame, sym: Sym, move: Loc, best: Sym, m: BookMove,
                         align: Sym)
    requires Faithful(key, f.xSize, f.ySize) && Sized(h, f.xSize, f.ySize) && StandsAt(key, h, hash, sym)
    requires SymmetriesOk(f) && SymmetriesNamed(key, f.xSize, f.ySize, hash, f.symmetries) && best in f.symmetries
    requires IsMove(move, f.xSize, f.ySize) && move != NULL_LOC && m.move == Turn(f, Turn(f, move, Invert(sym)), best)
    requires InGroup(align, f.xSize, f.ySize) && m.symmetryToAlign == NewAlign(best, sym, align)
    requires ValidHistory(Ext(h, move)) && key(SymHistory(Ext(h, move), align)) == m.hash
    requires NoneLess(key, Ext(h, move), m.hash)
    ensures MoveNamed(key, f.xSize, f.ySize, hash, m)
  {
    hide SymHistory, Compose, Invert, SymLoc, Ext, Less, NoneLess, NewAlign, Faithful, SymmetriesNamed, MoveNamed;
    var symmetry := Compose(Invert(sym), best);
    TurnedStandsAt(key, h, hash, sym, f.symmetries, best);
    SymLocActs(move, f.xSize, f.ySize, Invert(sym), best);
    SymLocOnBoard(move, f.xSize, f.ySize, symmetry);
    NewAlignClosed(f.xSize, f.ySize, sym, best, align);
    ExtInFrame(h, move, symmetry, m.symmetryToAlign);
    ExtKeepsBoard(h, move);
    NewAlignFrame(sym, best, align);
    NoneLessTurns(key, Ext(h, move), m.hash, symmetry);
    OneLeads(key, f.xSize, f.ySize, hash, m, SymHistory(h, symmetry));
  }

  lemma NewAlignClosed(xSize: nat, ySize: nat, sym: Sym, best: Sym, align: Sym)
    requires InGroup(sym, xSize, ySize) && InGroup(best, xSize, ySize) && InGroup(align, xSize, ySize)
    ensures InGroup(NewAlign(best, sym, align), xSize, ySize)
  {
    GroupClosed(best, best, xSize, ySize);
    GroupClosed(Invert(best), sym, xSize, ySize);
    GroupClosed(Compose(Invert(best), sym), align, xSize, ySize);
  }

  /** The aligned position, seen in any frame. */
  lemma AlignedInFrame(key: Key, h: History, hash: BookHash, align: Sym, s: Sym)
    requires ValidHistory(h) && Allowed(h, align) && Allowed(h, s)
    requires key(SymHistory(h, align)) == hash && NoneLess(key, h, hash)
    ensures Allowed(h, Compose(align, s)) && StandsAt(key, SymHistory(h, Compose(align, s)), hash, s)
  {
    hide SymHistory, Compose, Invert, NoneLess;
    var xSize, ySize := h.initialBoard.xSize, h.initialBoard.ySize;
    GroupClosed(align, s, xSize, ySize);
    GroupClosed(s, s, xSize, ySize);
    SymHistoryActs(h, Compose(align, s), Invert(s));
    GroupLaws(align, s, Invert(s));
    GroupLaws(s, s, s);
    GroupLaws(align, align, align);
    NoneLessTurns(key, h, hash, Compose(align, s));
  }

  // ---------------------------------------------------------------------------------------------
  // What hashing a history establishes

  ghost function KeyOf<S(!new)>(hs: Hasher<S>, v2: bool): Key { h => HashOf(hs, v2, h) }

  lemma HashedStandsAt<S(!new)>(hs: Hasher<S>, v2: bool, h: History, hash: BookHash, align: Sym)
    requires ValidHistory(h) && Aligns(hs, v2, h, hash, align)
    ensures StandsAt(KeyOf(hs, v2), h, hash, Invert(align)) && Invert(Invert(align)) == align
    ensures Allowed(h, align) && KeyOf(hs, v2)(SymHistory(h, align)) == hash && NoneLess(KeyOf(hs, v2), h, hash)
  {
    hide SymHistory, HashOf, Less;
    GroupLaws(align, align, align);
    GroupClosed(align, align, h.initialBoard.xSize, h.initialBoard.ySize);
    forall s | Allowed(h, s) ensures !Less(KeyOf(hs, v2)(SymHistory(h, s)), hash) {
      assert HashIn(hs, v2, h, s) == KeyOf(hs, v2)(SymHistory(h, s));
    }
  }

  /** Hashing a history that stands at a node gives the node's hash. */
  lemma StandingHash<S(!new)>(hs: Hasher<S>, v2: bool, h: History, hash: BookHash, sym: Sym, hash': BookHash,
                              align: Sym)
    requires ValidHistory(h) && StandsAt(KeyOf(hs, v2), h, hash, sym) && Aligns(hs, v2, h, hash', align)
    ensures hash' == hash
  {
    hide SymHistory, HashOf;
    assert HashIn(hs, v2, h, Invert(sym)) == hash;
    assert KeyOf(hs, v2)(SymHistory(h, align)) == hash';
    LessTotal(hash, hash');
  }

  lemma HashedSymmetries<S(!new)>(hs: Hasher<S>, v2: bool, h: History, hash: BookHash, align: Sym, syms: seq<Sym>)
    requires ValidHistory(h) && Aligns(hs, v2, h, hash, align)
    requires (forall s :: s in syms <==> Preserves(hs, v2, h, hash, align, s)) && InCodeOrder(syms)
    requires Faithful(KeyOf(hs, v2), h.initialBoard.xSize, h.initialBoard.ySize)
    ensures SymmetriesNamed(KeyOf(hs, v2), h.initialBoard.xSize, h.initialBoard.ySize, hash, syms)
    ensures SymmetriesOk(Frame(h.initialBoard.xSize, h.initialBoard.ySize, syms, map[]))
  {
    hide SymHistory, HashOf, Compose, Invert, InCodeOrder, Faithful, NoneLess;
    var rep := SymHistory(h, align);
    var xSize, ySize := h.initialBoard.xSize, h.initialBoard.ySize;
    var key := KeyOf(hs, v2);
    HashedStandsAt(hs, v2, h, hash, align);
    forall s | InGroup(s, xSize, ySize) ensures s in syms <==> key(SymHistory(rep, s)) == hash {
      assert Preserves(hs, v2, h, hash, align, s) <==> HashIn(hs, v2, rep, s) == hash;
    }
    OneHasSymmetries(key, xSize, ySize, hash, syms, rep);
    IdentityComesFirst(hs, v2, h, hash, align, syms);
    forall s | s in syms ensures InGroup(s, xSize, ySize) {
    }
    forall s, t | s in syms && t in syms ensures Compose(s, t) in syms && Invert(s) in syms {
      PreservingClosed(key, rep, hash, syms, s, t);
    }
  }

  /** Symmetries that keep the hash are closed under composition and inverse. */
  lemma PreservingClosed(key: Key, rep: History, hash: BookHash, syms: seq<Sym>, s: Sym, t: Sym)
    requires ValidHistory(rep) && key(rep) == hash && Allowed(rep, s) && Allowed(rep, t) && s in syms && t in syms
    requires SymmetriesNamed(key, rep.initialBoard.xSize, rep.initialBoard.ySize, hash, syms)
    ensures Compose(s, t) in syms
    ensures Faithful(key, rep.initialBoard.xSize, rep.initialBoard.ySize) ==> Invert(s) in syms
  {
    hide SymHistory, Compose, Invert;
    var xSize, ySize := rep.initialBoard.xSize, rep.initialBoard.ySize;
    GroupClosed(s, t, xSize, ySize);
    SymHistoryActs(rep, s, t);
    assert key(SymHistory(rep, s)) == hash;
    SymHistoryActs(rep, s, Invert(s));
    GroupLaws(s, s, s);
    if Faithful(key, xSize, ySize) {
      assert key(SymHistory(SymHistory(rep, s), Invert(s))) == key(SymHistory(rep, Invert(s)));
    }
  }
}
