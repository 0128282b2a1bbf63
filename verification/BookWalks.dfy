/** Histories walking through a book: the hash of a position is the hash of the node it stands at. */
module BookWalks {
  import opened Util
  import opened Symmetry
  import opened BookData
  import opened Views
  import opened BookViews
  import opened Hashing
  import opened Walks
  import opened Paths

  /** Every node is right about all positions that have its hash. */
  ghost predicate Named(b: Book, key: Key)
    reads b`nodes, b.nodes
  {
    forall n :: n in b.nodes ==> NodeNamed(key, n.hash, n.pla, FrameOf(b, n))
  }

  /** The hash separates positions of this book's size. */
  ghost predicate Separates(b: Book, key: Key) { Faithful(key, b.xSize, b.ySize) }

  /** The history stands at the view, on a board of the book's size. */
  ghost predicate Stands(b: Book, key: Key, h: History, v: View) {
    Sized(h, b.xSize, b.ySize) && StandsAt(key, h, v.node.hash, v.symmetryOfNode)
  }

  // ---------------------------------------------------------------------------------------------
  // A new book

  /** The constructor: hash the initial position and make its node the root. */
  method NewBook<S(!new)>(hs: Hasher<S>, v2: bool, initial: Board, pla: Player) returns (b: Book)
    requires ValidBoard(initial) && Faithful(KeyOf(hs, v2), initial.xSize, initial.ySize)
    ensures fresh(b) && fresh(b.root) && b.Valid() && FramesOk(b) && b.nodes == [b.root] && b.nextVisitedDoneValue == 1
    ensures b.xSize == initial.xSize && b.ySize == initial.ySize && Named(b, KeyOf(hs, v2))
    ensures StartsAt(b, KeyOf(hs, v2), History(initial, [], pla))
    ensures b.root.State() == FreshState(pla)
  {
    hide *;
    var h := History(initial, [], pla);
    EmptyHistoryIsValid(initial, pla);
    var hash, align, symmetries := GetHashAndSymmetry(hs, v2, h);
    b := new Book(initial.xSize, initial.ySize, align, hash, pla, symmetries);
    HashedSymmetries(hs, v2, h, hash, align, symmetries);
    RootIsNamed(hs, v2, h, hash, align, symmetries);
    NewIsNamed(b, KeyOf(hs, v2), pla, symmetries);
    StartIsAtRoot(hs, v2, b, h, hash, align);
  }

  lemma EmptyHistoryIsValid(initial: Board, pla: Player)
    requires ValidBoard(initial)
    ensures ValidHistory(History(initial, [], pla)) && Sized(History(initial, [], pla), initial.xSize, initial.ySize)
  {
  }

  lemma NewIsNamed(b: Book, key: Key, pla: Player, symmetries: seq<Sym>)
    requires b.nodes == [b.root] && b.root.symmetries == symmetries && b.root.State() == FreshState(pla)
    requires b.root.pla == pla
    requires NodeNamed(key, b.root.hash, pla, Frame(b.xSize, b.ySize, symmetries, map[]))
    requires SymmetriesOk(Frame(b.xSize, b.ySize, symmetries, map[]))
    ensures Named(b, key) && FramesOk(b)
  {
    hide NodeNamed, SymmetriesOk, OneKeyPerOrbit;
    assert b.root.moves == b.root.State().moves == FreshState(pla).moves == map[];
    EmptyFrameOk(FrameOf(b, b.root));
  }

  lemma RootIsNamed<S(!new)>(hs: Hasher<S>, v2: bool, h: History, hash: BookHash, align: Sym, symmetries: seq<Sym>)
    requires ValidHistory(h) && Aligns(hs, v2, h, hash, align)
    requires Faithful(KeyOf(hs, v2), h.initialBoard.xSize, h.initialBoard.ySize)
    requires SymmetriesNamed(KeyOf(hs, v2), h.initialBoard.xSize, h.initialBoard.ySize, hash, symmetries)
    ensures NodeNamed(KeyOf(hs, v2), hash, h.nextPla, Frame(h.initialBoard.xSize, h.initialBoard.ySize, symmetries, map[]))
  {
    hide Faithful, HashOf, SymmetriesNamed, NoneLess, SymBoard;
    HashedStandsAt(hs, v2, h, hash, align);
    OneHasPlayer(KeyOf(hs, v2), h.initialBoard.xSize, h.initialBoard.ySize, hash, SymHistory(h, align));
  }

  /** In whatever frame the initial position is set up, it stands at the root seen in that frame. */
  ghost predicate StartsAt(b: Book, key: Key, initial: History) {
    && Sized(initial, b.xSize, b.ySize) && InGroup(b.initialSymmetry, b.xSize, b.ySize)
    && forall s {:trigger View(b.root, s)} :: InGroup(s, b.xSize, b.ySize) ==>
         Allowed(initial, Compose(b.initialSymmetry, s))
         && Stands(b, key, SymHistory(initial, Compose(b.initialSymmetry, s)), View(b.root, s))
  }

  lemma StartIsAtRoot<S(!new)>(hs: Hasher<S>, v2: bool, b: Book, h: History, hash: BookHash, align: Sym)
    requires Sized(h, b.xSize, b.ySize) && Aligns(hs, v2, h, hash, align) && b.initialSymmetry == align
    requires b.root.hash == hash
    ensures StartsAt(b, KeyOf(hs, v2), h)
  {
    hide SymHistory, HashOf, Compose, Invert, NoneLess, StandsAt;
    var key := KeyOf(hs, v2);
    HashedStandsAt(hs, v2, h, hash, align);
    forall s | InGroup(s, b.xSize, b.ySize)
      ensures Allowed(h, Compose(align, s)) && Stands(b, key, SymHistory(h, Compose(align, s)), View(b.root, s))
    {
      AlignedInFrame(key, h, hash, align, s);
    }
  }

  // ---------------------------------------------------------------------------------------------
  // Walking

  function ExtAll(h: History, moves: seq<Loc>): History
    decreases moves
  {
    if moves == [] then h else ExtAll(Ext(h, moves[0]), moves[1..])
  }

  /** One step: following a move and playing it lead to the same place. */
  lemma StepKeepsStanding(b: Book, key: Key, h: History, v: View, move: Loc)
    requires b.Indexed() && FramesOk(b) && Named(b, key) && v.node in b.nodes && Stands(b, key, h, v)
    requires Playable(move, b.xSize, b.ySize) && FollowView(b, v, move).Some?
    ensures Stands(b, key, Ext(h, move), FollowView(b, v, move).value)
  {
    hide StandsAt, FrameOk, NodeNamed, Follow, Ext;
    FollowKeepsStanding(key, h, v.node.hash, v.node.pla, FrameOf(b, v.node), v.symmetryOfNode, move);
    ExtKeepsBoard(h, move);
  }

  /** A history that plays the moves that are followed stands where following them ends. */
  lemma {:induction false} WalkKeepsStanding(b: Book, key: Key, h: History, v: View, moves: seq<Loc>)
    requires b.Indexed() && FramesOk(b) && Named(b, key) && v.node in b.nodes && Stands(b, key, h, v)
    requires (forall i :: 0 <= i < |moves| ==> Playable(moves[i], b.xSize, b.ySize)) && FollowAll(b, v, moves).Some?
    ensures Stands(b, key, ExtAll(h, moves), FollowAll(b, v, moves).value)
    decreases |moves|
  {
    hide Stands, FramesOk, Named, FollowView, Ext;
    if moves != [] {
      StepKeepsStanding(b, key, h, v, moves[0]);
      WalkKeepsStanding(b, key, Ext(h, moves[0]), FollowView(b, v, moves[0]).value, moves[1..]);
    }
  }

  /** Where a history stands, hashing it gives the node's hash, and the player to move is the node's. */
  lemma StandingIsHashed<S(!new)>(hs: Hasher<S>, v2: bool, b: Book, h: History, v: View, hash: BookHash, align: Sym)
    requires Named(b, KeyOf(hs, v2)) && v.node in b.nodes && Stands(b, KeyOf(hs, v2), h, v)
    requires Aligns(hs, v2, h, hash, align)
    ensures hash == v.node.hash && h.nextPla == v.node.pla
  {
    StandingHash(hs, v2, h, v.node.hash, v.symmetryOfNode, hash, align);
    hide SymHistory, HashOf, SymmetriesNamed, MoveNamed, NoneLess, Invert;
    assert NodeNamed(KeyOf(hs, v2), v.node.hash, v.node.pla, FrameOf(b, v.node));
    TurnKeepsPlayer(h, Invert(v.symmetryOfNode));
  }

  lemma TurnKeepsPlayer(h: History, s: Sym)
    requires ValidHistory(h) && Allowed(h, s)
    ensures SymHistory(h, s).nextPla == h.nextPla
    ensures SymHistory(h, s).initialBoard.xSize == h.initialBoard.xSize
    ensures SymHistory(h, s).initialBoard.ySize == h.initialBoard.ySize
  {
  }

  /** The history set up by getBoardHistoryReachingHere and the moves it plays. */
  ghost predicate Replays(b: Book, initial: History, rootSym: Sym, moveHistory: seq<Loc>, h: History) {
    && InGroup(rootSym, b.xSize, b.ySize) && Sized(initial, b.xSize, b.ySize)
    && Allowed(initial, Compose(b.initialSymmetry, rootSym))
    && h == ExtAll(SymHistory(initial, Compose(b.initialSymmetry, rootSym)), moveHistory)
  }

  /** Following the moves from the root's view ends at this view. */
  ghost predicate Reaches(b: Book, rootSym: Sym, moveHistory: seq<Loc>, v: View)
    reads b, b.nodes
  {
    && b.Indexed() && b.root in b.nodes && v.node in b.nodes
    && (forall i :: 0 <= i < |moveHistory| ==> Playable(moveHistory[i], b.xSize, b.ySize))
    && FollowAll(b, View(b.root, rootSym), moveHistory) == Some(v)
  }

  /** The history that reaches a view stands at it. */
  lemma ReachedHistoryStands(b: Book, key: Key, initial: History, rootSym: Sym, moveHistory: seq<Loc>, v: View,
                             h: History)
    requires FramesOk(b) && Named(b, key) && StartsAt(b, key, initial)
    requires Replays(b, initial, rootSym, moveHistory, h) && Reaches(b, rootSym, moveHistory, v)
    ensures Stands(b, key, h, v)
  {
    hide StandsAt, FramesOk, Named, FollowAll, ExtAll, SymHistory, Compose;
    WalkKeepsStanding(b, key, SymHistory(initial, Compose(b.initialSymmetry, rootSym)), View(b.root, rootSym),
                      moveHistory);
  }

  /** So the integrity check, which hashes that history and compares, cannot fail. */
  lemma IntegrityCheckPasses<S(!new)>(hs: Hasher<S>, v2: bool, b: Book, initial: History, rootSym: Sym,
                                      moveHistory: seq<Loc>, v: View, h: History, hash: BookHash, align: Sym)
    requires FramesOk(b) && Named(b, KeyOf(hs, v2)) && StartsAt(b, KeyOf(hs, v2), initial)
    requires Replays(b, initial, rootSym, moveHistory, h) && Reaches(b, rootSym, moveHistory, v)
    requires ValidHistory(h) && Aligns(hs, v2, h, hash, align)
    ensures hash == v.node.hash && h.nextPla == v.node.pla
  {
    hide StandsAt, FramesOk, Named, Replays, StartsAt, Aligns, KeyOf;
    ReachedHistoryStands(b, KeyOf(hs, v2), initial, rootSym, moveHistory, v, h);
    StandingIsHashed(hs, v2, b, h, v, hash, align);
  }

  // ---------------------------------------------------------------------------------------------
  // Adding a move

  /** What hashing the position after the move gives the book to work with. */
  ghost predicate Hashed(key: Key, h: History, a: Aligned, xSize: nat, ySize: nat) {
    && Sized(h, xSize, ySize) && InGroup(a.symmetryToAlign, xSize, ySize) && Allowed(h, a.symmetryToAlign)
    && key(SymHistory(h, a.symmetryToAlign)) == a.hash && NoneLess(key, h, a.hash)
    && SymmetriesOk(Frame(xSize, ySize, a.symmetries, map[])) && SymmetriesNamed(key, xSize, ySize, a.hash, a.symmetries)
  }

  method HashHistory<S(!new)>(hs: Hasher<S>, v2: bool, h: History) returns (a: Aligned)
    requires ValidHistory(h) && Faithful(KeyOf(hs, v2), h.initialBoard.xSize, h.initialBoard.ySize)
    ensures Hashed(KeyOf(hs, v2), h, a, h.initialBoard.xSize, h.initialBoard.ySize)
    ensures Aligns(hs, v2, h, a.hash, a.symmetryToAlign)
  {
    hide Faithful, SymHistory, HashOf, NoneLess, SymmetriesOk, SymmetriesNamed, Aligns, Preserves, InCodeOrder;
    var hash, align, symmetries := GetHashAndSymmetry(hs, v2, h);
    HashedSymmetries(hs, v2, h, hash, align, symmetries);
    HashedStandsAt(hs, v2, h, hash, align);
    a := Aligned(hash, align, symmetries);
  }

  lemma HashedStands(key: Key, h: History, a: Aligned, xSize: nat, ySize: nat)
    requires Hashed(key, h, a, xSize, ySize)
    ensures StandsAt(key, h, a.hash, Invert(a.symmetryToAlign))
  {
    hide SymHistory, SymmetriesOk, SymmetriesNamed, NoneLess;
    GroupLaws(a.symmetryToAlign, IDENTITY, IDENTITY);
    GroupClosed(a.symmetryToAlign, IDENTITY, xSize, ySize);
  }

  /** playAndAddMove as it is called: with the history that stands at the view. */
  method AddMoveFromHistory<S(!new)>(hs: Hasher<S>, v2: bool, b: Book, v: View, h: History, move: Loc, rawPolicy: real,
                                     legal: bool)
    returns (ret: Option<View>, childIsTransposing: bool, ghost m: BookMove)
    requires b.Valid() && FramesOk(b) && v.node in b.nodes && InGroup(v.symmetryOfNode, b.xSize, b.ySize)
    requires Separates(b, KeyOf(hs, v2)) && Named(b, KeyOf(hs, v2)) && Stands(b, KeyOf(hs, v2), h, v)
    requires Playable(move, b.xSize, b.ySize) && !IsMoveInBook(FrameOf(b, v.node), v.symmetryOfNode, move)
    modifies b`nodes, b`nodeIdx, b.nodes
    ensures b.Valid() && FramesOk(b) && Named(b, KeyOf(hs, v2))
    ensures !legal ==> ret == None && b.nodes == old(b.nodes) && b.Snapshot() == old(b.Snapshot())
    ensures legal ==> ret.Some? && Stands(b, KeyOf(hs, v2), Ext(h, move), ret.value)
    ensures legal ==> (childIsTransposing <==> ret.value.node.hash in old(b.nodeIdx)) && m.hash == ret.value.node.hash
    ensures legal ==> m.rawPolicy == rawPolicy && m.move !in old(v.node.moves) && m.move != NULL_LOC
    ensures legal ==> v.node.hash in old(b.Snapshot())
                      && b.Snapshot() == Extended(old(b.Snapshot()), v.node.hash, m, Opponent(h.nextPla))
    ensures legal ==> b.nodes == old(b.nodes) + if childIsTransposing then [] else [ret.value.node]
    ensures legal ==> if childIsTransposing then ret.value.node in old(b.nodes) else fresh(ret.value.node)
    ensures legal ==> exists g :: g in GetSymmetries(FrameOf(b, v.node), v.symmetryOfNode)
                        && SymLoc(move, b.xSize, b.ySize, g) == move
                        && FollowView(b, v, move) == Some(View(ret.value.node, Compose(ret.value.symmetryOfNode, g)))
  {
    hide NodeNamed, FrameOk, StandsAt, Faithful, NoneLess, SymmetriesOk, SymmetriesNamed, SymHistory, HashOf, Follow,
         Ext, Linked, BestParentsOk, Book.Snapshot, Book.Indexed, Extended, Compose, Invert, SymLoc, GetSymmetries,
         IsMoveInBook, FollowView, KeyOf, StoredForm, StoredAlign, Aligns;
    ghost var key, f := KeyOf(hs, v2), FrameOf(b, v.node);
    ExtSized(b, h, move);
    var a := HashHistory(hs, v2, Ext(h, move));
    HashedAligned(b, key, Ext(h, move), a);
    ret, childIsTransposing, m := PlayAndAddMove(b, v, move, rawPolicy, legal, a, Opponent(h.nextPla));
    if legal {
      HashedStands(key, Ext(h, move), a, b.xSize, b.ySize);
      AddedEdgeIsNamed(key, h, v.node.hash, v.node.pla, f, v.symmetryOfNode, move, m, a);
      ChildIsNamed(key, h, move, a, b.xSize, b.ySize);
    }
    forall n | n in b.nodes ensures NodeNamed(key, n.hash, n.pla, FrameOf(b, n)) {
      if n in old(b.nodes) {
        assert old(NodeNamed(key, n.hash, n.pla, FrameOf(b, n)));
        if n != v.node || !legal {
          assert FrameOf(b, n) == old(FrameOf(b, n));
        } else {
          assert FrameOf(b, n) == WithMove(f, m.move, m);
        }
      } else {
        assert n == ret.value.node;
        assert FrameOf(b, n) == Frame(b.xSize, b.ySize, a.symmetries, map[]);
      }
    }
  }

  lemma AddedEdgeIsNamed(key: Key, h: History, hash: BookHash, pla: Player, f: Frame, sym: Sym, move: Loc, m: BookMove,
                         a: Aligned)
    requires Faithful(key, f.xSize, f.ySize) && Sized(h, f.xSize, f.ySize) && StandsAt(key, h, hash, sym)
    requires FrameOk(f) && NodeNamed(key, hash, pla, f) && Playable(move, f.xSize, f.ySize)
    requires StoredAlign(f, sym, move, m, a.symmetryToAlign) && Hashed(key, Ext(h, move), a, f.xSize, f.ySize)
    requires m.hash == a.hash
    ensures NodeNamed(key, hash, pla, WithMove(f, m.move, m))
  {
    hide Faithful, StandsAt, MoveNamed, SymmetriesNamed, PlayerNamed, NoneLess, SymHistory, Ext, Compose, Invert,
         SymLoc, NewAlign, OneKeyPerOrbit, SymmetriesOk;
    var best :| best in f.symmetries && m.move == Turn(f, Turn(f, move, Invert(sym)), best)
                && m.symmetryToAlign == NewAlign(best, sym, a.symmetryToAlign);
    AddedMoveIsNamed(key, h, hash, f, sym, move, best, m, a.symmetryToAlign);
  }

  lemma ChildIsNamed(key: Key, h: History, move: Loc, a: Aligned, xSize: nat, ySize: nat)
    requires Faithful(key, xSize, ySize) && Hashed(key, Ext(h, move), a, xSize, ySize)
    ensures NodeNamed(key, a.hash, Opponent(h.nextPla), Frame(xSize, ySize, a.symmetries, map[]))
  {
    hide Faithful, SymHistory, NoneLess, SymmetriesOk, SymmetriesNamed;
    TurnKeepsPlayer(Ext(h, move), a.symmetryToAlign);
    OneHasPlayer(key, xSize, ySize, a.hash, SymHistory(Ext(h, move), a.symmetryToAlign));
  }

  lemma ExtSized(b: Book, h: History, move: Loc)
    requires Sized(h, b.xSize, b.ySize) && Playable(move, b.xSize, b.ySize)
    ensures Sized(Ext(h, move), b.xSize, b.ySize)
  {
  }

  lemma HashedAligned(b: Book, key: Key, h: History, a: Aligned)
    requires Hashed(key, h, a, b.xSize, b.ySize)
    ensures AlignedOk(b, a)
  {
  }
}
