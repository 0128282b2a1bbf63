/**
 A node seen through a symmetry: following moves, listing them, and going back to the parent, with
 the frames composed and inverted on the way.
 */
module Views {
  import opened BookData
  import opened Symmetry
  import opened Util

  /** What a view reads of its node. */
  datatype Frame = Frame(xSize: nat, ySize: nat, symmetries: seq<Sym>, moves: map<Loc, BookMove>)

  /** The child's hash and the symmetry from child space to the space of the view. */
  datatype Followed = Followed(hash: BookHash, symmetryOfNode: Sym)

  function Turn(f: Frame, loc: Loc, s: Sym): Loc { SymLoc(loc, f.xSize, f.ySize, s) }

  /** The symmetries form a subgroup, listed with the identity first. */
  ghost predicate SymmetriesOk(f: Frame) {
    && f.symmetries != [] && f.symmetries[0] == IDENTITY
    && (forall s :: s in f.symmetries ==> InGroup(s, f.xSize, f.ySize) && Invert(s) in f.symmetries)
    && (forall s, t :: s in f.symmetries && t in f.symmetries ==> Compose(s, t) in f.symmetries)
  }

  ghost predicate MovesOk(f: Frame) {
    forall loc :: loc in f.moves ==>
      IsMove(loc, f.xSize,
             f.ySize) && f.moves[loc].move == loc && InGroup(f.moves[loc].symmetryToAlign, f.xSize, f.ySize)
  }

  /** No two moves are equivalent under the node's symmetries. */
  ghost predicate OneKeyPerOrbit(f: Frame) {
    forall a, b, s :: a in f.moves && b in f.moves && s in f.symmetries && Turn(f, a, s) == b ==> a == b
  }

  ghost predicate FrameOk(f: Frame) { SymmetriesOk(f) && MovesOk(f) && OneKeyPerOrbit(f) }

  // ---------------------------------------------------------------------------------------------
  // The operations of a view; sym is its symmetryOfNode

  function FollowFrom(f: Frame, sym: Sym, move: Loc, i: nat): Option<Followed>
    requires i <= |f.symmetries|
    decreases |f.symmetries| - i
  {
    if i == |f.symmetries| then None
    else
      var symmetry := Compose(Invert(sym), f.symmetries[i]);
      var loc := Turn(f, move, symmetry);
      if loc in f.moves then Some(Followed(f.moves[loc].hash, Invert(Compose(symmetry, f.moves[loc].symmetryToAlign))))
      else FollowFrom(f, sym, move, i + 1)
  }

  function Follow(f: Frame, sym: Sym, move: Loc): Option<Followed> { FollowFrom(f, sym, move, 0) }

  predicate IsMoveInBook(f: Frame, sym: Sym, move: Loc) {
    exists s :: s in f.symmetries && Turn(f, move, Compose(Invert(sym), s)) in f.moves
  }

  function GetSymmetries(f: Frame, sym: Sym): (r: seq<Sym>)
    ensures |r| == |f.symmetries|
  {
    seq(|f.symmetries|, i requires 0 <= i < |f.symmetries| => Compose3(Invert(sym), f.symmetries[i], sym))
  }

  function GetSymBookMove(f: Frame, m: BookMove, sym: Sym): BookMove {
    m.(move := Turn(f, m.move, sym), symmetryToAlign := Compose(Invert(sym), m.symmetryToAlign))
  }

  // ---------------------------------------------------------------------------------------------
  // Following

  lemma SymmetriesOf(f: Frame, sym: Sym, g: Sym)
    ensures g in GetSymmetries(f, sym) <==> exists s :: s in f.symmetries && g == Compose3(Invert(sym), s, sym)
  {
    var r := GetSymmetries(f, sym);
    if g in r {
      var i :| 0 <= i < |r| && r[i] == g;
      assert f.symmetries[i] in f.symmetries;
    }
    if s :| s in f.symmetries && g == Compose3(Invert(sym), s, sym) {
      var i :| 0 <= i < |f.symmetries| && f.symmetries[i] == s;
      assert r[i] == g;
    }
  }

  lemma InSymmetries(f: Frame, s: Sym, t: Sym)
    requires SymmetriesOk(f) && s in f.symmetries && t in f.symmetries
    ensures Invert(s) in f.symmetries && Compose(s, t) in f.symmetries
    ensures InGroup(s, f.xSize, f.ySize) && InGroup(t, f.xSize, f.ySize)
  {
  }

  /** The symmetry in which the move is found. */
  ghost predicate FoundAt(f: Frame, sym: Sym, move: Loc, i: nat) {
    && i < |f.symmetries| && Turn(f, move, Compose(Invert(sym), f.symmetries[i])) in f.moves
    && forall j :: 0 <= j < i ==> Turn(f, move, Compose(Invert(sym), f.symmetries[j])) !in f.moves
  }

  lemma {:induction false} FollowFinds(f: Frame, sym: Sym, move: Loc, k: nat, i: nat)
    requires k <= i && FoundAt(f, sym, move, i)
    ensures var symmetry := Compose(Invert(sym), f.symmetries[i]);
            var m := f.moves[Turn(f, move, symmetry)];
            FollowFrom(f, sym, move, k) == Some(Followed(m.hash, Invert(Compose(symmetry, m.symmetryToAlign))))
    decreases i - k
  {
    if k < i {
      FollowFinds(f, sym, move, k + 1, i);
    }
  }

  lemma {:induction false} FirstFound(f: Frame, sym: Sym, move: Loc, n: nat) returns (i: nat)
    requires n < |f.symmetries| && Turn(f, move, Compose(Invert(sym), f.symmetries[n])) in f.moves
    ensures FoundAt(f, sym, move, i)
  {
    if j :| 0 <= j < n && Turn(f, move, Compose(Invert(sym), f.symmetries[j])) in f.moves {
      i := FirstFound(f, sym, move, j);
    } else {
      i := n;
    }
  }

  lemma {:induction false} FollowMisses(f: Frame, sym: Sym, move: Loc, k: nat)
    requires k <= |f.symmetries| && !IsMoveInBook(f, sym, move)
    ensures FollowFrom(f, sym, move, k) == None
    decreases |f.symmetries| - k
  {
    if k < |f.symmetries| {
      assert f.symmetries[k] in f.symmetries;
      FollowMisses(f, sym, move, k + 1);
    }
  }

  /** A view can follow exactly the moves it says are in the book. */
  lemma FollowsWhatIsInBook(f: Frame, sym: Sym, move: Loc)
    ensures Follow(f, sym, move).Some? <==> IsMoveInBook(f, sym, move)
  {
    if s :| s in f.symmetries && Turn(f, move, Compose(Invert(sym), s)) in f.moves {
      var n :| 0 <= n < |f.symmetries| && f.symmetries[n] == s;
      var i := FirstFound(f, sym, move, n);
      FollowFinds(f, sym, move, 0, i);
    } else {
      FollowMisses(f, sym, move, 0);
    }
  }

  lemma TurnActs(f: Frame, loc: Loc, s: Sym, t: Sym)
    requires IsMove(loc, f.xSize, f.ySize) && InGroup(s, f.xSize, f.ySize) && InGroup(t, f.xSize, f.ySize)
    ensures Turn(f, Turn(f, loc, s), t) == Turn(f, loc, Compose(s, t)) && Turn(f, loc, IDENTITY) == loc
    ensures IsMove(Turn(f, loc, s), f.xSize, f.ySize)
    ensures InGroup(Compose(s, t), f.xSize, f.ySize) && InGroup(Invert(s), f.xSize, f.ySize)
  {
    SymLocActs(loc, f.xSize, f.ySize, s, t);
    SymLocOnBoard(loc, f.xSize, f.ySize, s);
    GroupClosed(s, t, f.xSize, f.ySize);
  }

  /** A view turned by s, asked about the move turned by s, looks at the same stored locations. */
  lemma SameSearch(f: Frame, sym: Sym, s: Sym, t: Sym, move: Loc)
    requires IsMove(move, f.xSize, f.ySize) && InGroup(sym, f.xSize, f.ySize) && InGroup(s, f.xSize, f.ySize)
      && InGroup(t, f.xSize, f.ySize)
    ensures Turn(f, Turn(f, move, s), Compose(Invert(Compose(sym, s)), t)) == Turn(f, move, Compose(Invert(sym), t))
    ensures Compose(s, Compose(Invert(Compose(sym, s)), t)) == Compose(Invert(sym), t)
  {
    var r := Compose(Invert(Compose(sym, s)), t);
    TurnActs(f, move, sym, s);
    TurnActs(f, move, Compose(sym, s), t);
    TurnActs(f, move, Invert(Compose(sym, s)), t);
    TurnActs(f, move, s, r);
    hide Compose, Invert, Turn;
    GroupLaws(sym, s, s);
    GroupLaws(Invert(s), Invert(sym), t);
    GroupLaws(s, Invert(s), Compose(Invert(sym), t));
    GroupLaws(Compose(Invert(sym), t), s, s);
  }

  lemma TurnedFollow(sym: Sym, s: Sym, t: Sym, align: Sym)
    ensures Invert(Compose(Compose(Invert(Compose(sym, s)), t), align)) ==
            Compose(Invert(Compose(Compose(Invert(sym), t), align)), s)
  {
    hide Compose, Invert;
    var x := Compose(Invert(sym), t);
    GroupLaws(sym, s, s);
    GroupLaws(Invert(s), Invert(sym), t);
    GroupLaws(Invert(s), x, align);
    GroupLaws(Invert(s), Compose(x, align), s);
    GroupLaws(s, s, s);
  }

  /** Turn the view and the move, and the child's view turns with them. */
  lemma {:induction false} FollowTurns(f: Frame, sym: Sym, s: Sym, move: Loc, i: nat)
    requires SymmetriesOk(f) && IsMove(move, f.xSize, f.ySize) && i <= |f.symmetries|
    requires InGroup(sym, f.xSize, f.ySize) && InGroup(s, f.xSize, f.ySize)
    ensures FollowFrom(f, Compose(sym, s), Turn(f, move, s), i) ==
            match FollowFrom(f, sym, move, i)
            case None => None
            case Some(r) => Some(Followed(r.hash, Compose(r.symmetryOfNode, s)))
    decreases |f.symmetries| - i
  {
    if i < |f.symmetries| {
      var t := f.symmetries[i];
      assert t in f.symmetries;
      SameSearch(f, sym, s, t, move);
      FollowTurns(f, sym, s, move, i + 1);
      var loc := Turn(f, move, Compose(Invert(sym), t));
      if loc in f.moves {
        TurnedFollow(sym, s, t, f.moves[loc].symmetryToAlign);
      }
    }
  }

  // ---------------------------------------------------------------------------------------------
  // The listed moves and their orbits

  lemma StoredMoveFound(f: Frame, sym: Sym, key: Loc)
    requires FrameOk(f) && InGroup(sym, f.xSize, f.ySize) && key in f.moves
    ensures Turn(f, Turn(f, key, sym), Compose(Invert(sym), IDENTITY)) == key
    ensures FoundAt(f, sym, Turn(f, key, sym), 0)
  {
    GroupLaws(sym, sym, sym);
    GroupLaws(Invert(sym), sym, sym);
    TurnActs(f, key, sym, Invert(sym));
  }

  /** Following a listed move: its symmetryToAlign is the inverse of the child view's symmetry. */
  lemma ListedMoveFollows(f: Frame, sym: Sym, key: Loc)
    requires FrameOk(f) && InGroup(sym, f.xSize, f.ySize) && key in f.moves
    ensures var m := GetSymBookMove(f, f.moves[key], sym);
            Follow(f, sym, m.move) == Some(Followed(m.hash, Invert(m.symmetryToAlign)))
  {
    StoredMoveFound(f, sym, key);
    FollowFinds(f, sym, Turn(f, key, sym), 0, 0);
    GroupLaws(Invert(sym), sym, sym);
  }

  lemma Conjugate(sym: Sym, s: Sym)
    ensures Compose(Compose3(Invert(sym), s, sym), Invert(sym)) == Compose(Invert(sym), s)
    ensures Compose(sym, Compose3(Invert(sym), s, sym)) == Compose(s, sym)
  {
  }

  /** The orbit of a listed move under the view's symmetries: exactly the moves found at its key. */
  lemma OrbitIsFound(f: Frame, sym: Sym, key: Loc, s: Sym)
    requires FrameOk(f) && InGroup(sym, f.xSize, f.ySize) && key in f.moves && s in f.symmetries
    ensures var loc := Turn(f, Turn(f, key, sym), Compose3(Invert(sym), s, sym));
            && IsMove(loc, f.xSize, f.ySize)
            && loc == Turn(f, key, Compose(s, sym))
            && Turn(f, loc, Compose(Invert(sym), Invert(s))) == key
  {
    var g := Compose3(Invert(sym), s, sym);
    GroupClosed(sym, s, f.xSize, f.ySize);
    GroupClosed(Invert(sym), s, f.xSize, f.ySize);
    GroupClosed(Compose(Invert(sym), s), sym, f.xSize, f.ySize);
    GroupClosed(s, sym, f.xSize, f.ySize);
    TurnActs(f, key, sym, g);
    Conjugate(sym, s);
    TurnActs(f, key, Compose(s, sym), Invert(Compose(s, sym)));
    GroupLaws(s, sym, s);
    GroupLaws(Compose(s, sym), s, s);
  }

  /** Every listed move, turned by any symmetry of the view, is a move in the book; and there are no others. */
  lemma OrbitsCoverTheMoves(f: Frame, sym: Sym, loc: Loc)
    requires FrameOk(f) && InGroup(sym, f.xSize, f.ySize) && IsMove(loc, f.xSize, f.ySize)
    ensures IsMoveInBook(f, sym, loc) <==>
            exists key, g :: key in f.moves && g in GetSymmetries(f, sym)
              && Turn(f, GetSymBookMove(f, f.moves[key], sym).move, g) == loc
  {
    if s :| s in f.symmetries && Turn(f, loc, Compose(Invert(sym), s)) in f.moves {
      var key := Turn(f, loc, Compose(Invert(sym), s));
      var g := Compose3(Invert(sym), Invert(s), sym);
      assert Invert(s) in f.symmetries;
      SymmetriesOf(f, sym, g);
      OrbitIsFound(f, sym, key, Invert(s));
      BackToLoc(f, sym, s, loc);
      assert Turn(f, GetSymBookMove(f, f.moves[key], sym).move, g) == loc;
    }
    if key, g :| key in f.moves && g in GetSymmetries(f, sym) && Turn(f, GetSymBookMove(f, f.moves[key], sym).move, g) == loc {
      SymmetriesOf(f, sym, g);
      var s :| s in f.symmetries && g == Compose3(Invert(sym), s, sym);
      OrbitIsFound(f, sym, key, s);
      assert Invert(s) in f.symmetries;
    }
  }

  lemma BackToLoc(f: Frame, sym: Sym, s: Sym, loc: Loc)
    requires InGroup(sym, f.xSize, f.ySize) && InGroup(s, f.xSize, f.ySize) && IsMove(loc, f.xSize, f.ySize)
    ensures Turn(f, Turn(f, loc, Compose(Invert(sym), s)), Compose(Invert(s), sym)) == loc
  {
    GroupClosed(sym, s, f.xSize, f.ySize);
    GroupClosed(s, s, f.xSize, f.ySize);
    GroupClosed(Invert(sym), s, f.xSize, f.ySize);
    GroupClosed(Invert(s), sym, f.xSize, f.ySize);
    TurnActs(f, loc, Compose(Invert(sym), s), Compose(Invert(s), sym));
  }

  /** Orbits of different listed moves do not meet. */
  lemma OrbitsAreDisjoint(f: Frame, sym: Sym, a: Loc, b: Loc, g: Sym, g': Sym)
    requires FrameOk(f) && InGroup(sym, f.xSize, f.ySize) && a in f.moves && b in f.moves
    requires g in GetSymmetries(f, sym) && g' in GetSymmetries(f, sym)
    requires Turn(f, GetSymBookMove(f, f.moves[a], sym).move, g) == Turn(f, GetSymBookMove(f, f.moves[b], sym).move, g')
    ensures a == b
  {
    hide SymmetriesOk, MovesOk, Turn, GetSymmetries, Compose, Invert;
    SymmetriesOf(f, sym, g);
    SymmetriesOf(f, sym, g');
    var s :| s in f.symmetries && g == Compose3(Invert(sym), s, sym);
    var t :| t in f.symmetries && g' == Compose3(Invert(sym), t, sym);
    OrbitIsFound(f, sym, a, s);
    OrbitIsFound(f, sym, b, t);
    InSymmetries(f, t, s);
    InSymmetries(f, s, Invert(t));
    MoveAt(f, a);
    MoveAt(f, b);
    ToOther(f, sym, a, b, s, t);
  }

  lemma MoveAt(f: Frame, key: Loc)
    requires MovesOk(f) && key in f.moves
    ensures IsMove(key, f.xSize, f.ySize) && f.moves[key].move == key
      && InGroup(f.moves[key].symmetryToAlign, f.xSize, f.ySize)
  {
  }

  lemma ToOther(f: Frame, sym: Sym, a: Loc, b: Loc, s: Sym, t: Sym)
    requires InGroup(sym, f.xSize, f.ySize) && InGroup(s, f.xSize, f.ySize) && InGroup(t, f.xSize, f.ySize)
    requires IsMove(a, f.xSize, f.ySize) && IsMove(b, f.xSize, f.ySize)
    requires Turn(f, a, Compose(s, sym)) == Turn(f, b, Compose(t, sym))
    ensures Turn(f, a, Compose(s, Invert(t))) == b
  {
    var back := Invert(Compose(t, sym));
    TurnActs(f, b, t, sym);
    TurnActs(f, b, Compose(t, sym), back);
    TurnActs(f, a, s, sym);
    TurnActs(f, a, Compose(s, sym), back);
    hide Compose, Invert, Turn;
    GroupLaws(Compose(t, sym), t, t);
    GroupLaws(t, sym, sym);
    GroupLaws(s, sym, Compose(Invert(sym), Invert(t)));
    GroupLaws(sym, Invert(sym), Invert(t));
    GroupLaws(Invert(t), s, s);
  }

  // ---------------------------------------------------------------------------------------------
  // The canonical parent

  /** From the canonical parent's view, the stored move leads back to exactly this view. */
  lemma CanonicalParentLeadsBack(parent: Frame, loc: Loc, sym: Sym)
    requires FrameOk(parent) && loc in parent.moves && InGroup(sym, parent.xSize, parent.ySize)
    ensures var parentSym := Compose(parent.moves[loc].symmetryToAlign, sym);
            Follow(parent, parentSym, Turn(parent, loc, parentSym)) == Some(Followed(parent.moves[loc].hash, sym))
  {
    var align := parent.moves[loc].symmetryToAlign;
    var parentSym := Compose(align, sym);
    GroupClosed(align, sym, parent.xSize, parent.ySize);
    ListedMoveFollows(parent, parentSym, loc);
    GroupLaws(align, sym, align);
    GroupLaws(Invert(sym), Invert(align), align);
    GroupLaws(sym, sym, sym);
    GroupLaws(Invert(sym), sym, sym);
  }

  // ---------------------------------------------------------------------------------------------
  // Adding a move

  /** Further right, or as far right and further up. */
  predicate NearerCorner(f: Frame, a: Loc, b: Loc) {
    GetX(a, f.xSize) > GetX(b, f.xSize) || (GetX(a, f.xSize) == GetX(b, f.xSize) && GetY(a, f.xSize) < GetY(b, f.xSize))
  }

  /** The stored form of the move: the orbit's location nearest to the upper right corner. */
  method ChooseLoc(f: Frame, symMove: Loc) returns (bestLoc: Loc, bestSymmetry: Sym)
    requires SymmetriesOk(f) && IsMove(symMove, f.xSize, f.ySize)
    ensures bestSymmetry in f.symmetries && bestLoc == Turn(f, symMove, bestSymmetry)
    ensures forall s :: s in f.symmetries ==> !NearerCorner(f, Turn(f, symMove, s), bestLoc)
  {
    hide Turn, GetX, GetY, Compose, Invert;
    bestLoc, bestSymmetry := symMove, IDENTITY;
    TurnActs(f, symMove, IDENTITY, IDENTITY);
    for i := 0 to |f.symmetries|
      invariant bestSymmetry in f.symmetries && bestLoc == Turn(f, symMove, bestSymmetry)
      invariant !NearerCorner(f, symMove, bestLoc)
      invariant forall j :: 0 <= j < i ==> !NearerCorner(f, Turn(f, symMove, f.symmetries[j]), bestLoc)
    {
      var symmetry := f.symmetries[i];
      if symmetry != IDENTITY {
        var symLoc := Turn(f, symMove, symmetry);
        if NearerCorner(f, symLoc, bestLoc) {
          bestLoc, bestSymmetry := symLoc, symmetry;
        }
      }
    }
  }

  /** The new move's alignment, from the chosen stored form to the child. */
  function NewAlign(bestSymmetry: Sym, sym: Sym, alignToChild: Sym): Sym {
    Compose3(Invert(bestSymmetry), sym, alignToChild)
  }

  /** The view's frame after a move at bestLoc has been added. */
  function WithMove(f: Frame, bestLoc: Loc, m: BookMove): Frame { f.(moves := f.moves[bestLoc := m]) }

  lemma AddKeepsFrameOk(f: Frame, sym: Sym, move: Loc, bestLoc: Loc, bestSymmetry: Sym, m: BookMove)
    requires FrameOk(f) && InGroup(sym, f.xSize, f.ySize) && IsMove(move, f.xSize, f.ySize)
    requires !IsMoveInBook(f, sym, move)
    requires bestSymmetry in f.symmetries && bestLoc == Turn(f, Turn(f, move, Invert(sym)), bestSymmetry)
    requires m.move == bestLoc && InGroup(m.symmetryToAlign, f.xSize, f.ySize)
    ensures FrameOk(WithMove(f, bestLoc, m)) && bestLoc !in f.moves
  {
    hide SymmetriesOk, MovesOk, Turn, Compose, Invert, IsMoveInBook;
    var f' := WithMove(f, bestLoc, m);
    assert SymmetriesOk(f') && MovesOk(f') && bestLoc !in f.moves by { AddKeepsRest(f, sym, move, bestLoc, bestSymmetry, m); }
    forall a, b, s | a in f'.moves && b in f'.moves && s in f.symmetries && Turn(f, a, s) == b ensures a == b {
      InSymmetries(f, s, s);
      InSymmetries(f, Invert(s), s);
      if a == bestLoc && b != bestLoc {
        NotEquivalent(f, sym, move, bestSymmetry, s);
      } else if a != bestLoc && b == bestLoc {
        MoveAt(f, a);
        TurnActs(f, a, s, Invert(s));
        GroupLaws(s, s, s);
        NotEquivalent(f, sym, move, bestSymmetry, Invert(s));
      }
    }
    assert forall a, s :: Turn(f', a, s) == Turn(f, a, s) by { SameBoard(f, bestLoc, m); }
  }

  lemma SameBoard(f: Frame, bestLoc: Loc, m: BookMove)
    ensures forall a, s :: Turn(WithMove(f, bestLoc, m), a, s) == Turn(f, a, s)
  {
  }

  lemma AddKeepsRest(f: Frame, sym: Sym, move: Loc, bestLoc: Loc, bestSymmetry: Sym, m: BookMove)
    requires FrameOk(f) && InGroup(sym, f.xSize, f.ySize) && IsMove(move, f.xSize, f.ySize)
    requires !IsMoveInBook(f, sym, move)
    requires bestSymmetry in f.symmetries && bestLoc == Turn(f, Turn(f, move, Invert(sym)), bestSymmetry)
    requires m.move == bestLoc && InGroup(m.symmetryToAlign, f.xSize, f.ySize)
    ensures SymmetriesOk(WithMove(f, bestLoc, m)) && MovesOk(WithMove(f, bestLoc, m)) && bestLoc !in f.moves
  {
    InSymmetries(f, bestSymmetry, bestSymmetry);
    GroupClosed(sym, sym, f.xSize, f.ySize);
    TurnActs(f, move, Invert(sym), bestSymmetry);
    TurnActs(f, Turn(f, move, Invert(sym)), bestSymmetry, bestSymmetry);
    assert Turn(f, move, Compose(Invert(sym), bestSymmetry)) !in f.moves;
    hide SymmetriesOk;
    assert SymmetriesOk(WithMove(f, bestLoc, m)) by { SameSymmetries(f, bestLoc, m); }
  }

  lemma SameSymmetries(f: Frame, bestLoc: Loc, m: BookMove)
    requires SymmetriesOk(f)
    ensures SymmetriesOk(WithMove(f, bestLoc, m))
  {
  }

  /** No location equivalent to the new move holds a move already. */
  lemma NotEquivalent(f: Frame, sym: Sym, move: Loc, bestSymmetry: Sym, s: Sym)
    requires SymmetriesOk(f) && InGroup(sym, f.xSize, f.ySize) && IsMove(move, f.xSize, f.ySize)
      && !IsMoveInBook(f, sym, move)
    requires bestSymmetry in f.symmetries && s in f.symmetries
    ensures Turn(f, Turn(f, Turn(f, move, Invert(sym)), bestSymmetry), s) !in f.moves
  {
    TurnActs(f, move, Invert(sym), bestSymmetry);
    TurnActs(f, move, Compose(Invert(sym), bestSymmetry), s);
    GroupLaws(Invert(sym), bestSymmetry, s);
    assert Compose(bestSymmetry, s) in f.symmetries;
  }

  /** The new move is found, in whatever symmetry, at its stored location and nowhere else. */
  lemma NewMoveFound(f: Frame, sym: Sym, move: Loc, bestLoc: Loc, bestSymmetry: Sym, m: BookMove) returns (i: nat)
    requires FrameOk(f) && InGroup(sym, f.xSize, f.ySize) && IsMove(move, f.xSize, f.ySize)
    requires !IsMoveInBook(f, sym, move)
    requires bestSymmetry in f.symmetries && bestLoc == Turn(f, Turn(f, move, Invert(sym)), bestSymmetry)
    ensures FoundAt(WithMove(f, bestLoc, m), sym, move, i)
    ensures Turn(f, move, Compose(Invert(sym), f.symmetries[i])) == bestLoc
  {
    var f' := WithMove(f, bestLoc, m);
    GroupClosed(sym, sym, f.xSize, f.ySize);
    InSymmetries(f, bestSymmetry, bestSymmetry);
    TurnActs(f, move, Invert(sym), bestSymmetry);
    hide SymmetriesOk, MovesOk, OneKeyPerOrbit, Compose, Invert, SymLoc;
    var n :| 0 <= n < |f.symmetries| && f.symmetries[n] == bestSymmetry;
    i := FirstFound(f', sym, move, n);
    assert f.symmetries[i] in f.symmetries;
  }

  /** The two ways to reach the stored location differ by a symmetry of the view that fixes the move. */
  lemma DifferenceFixesMove(f: Frame, sym: Sym, move: Loc, s: Sym, t: Sym)
    requires InGroup(sym, f.xSize, f.ySize) && IsMove(move, f.xSize, f.ySize)
    requires InGroup(s, f.xSize, f.ySize) && InGroup(t, f.xSize, f.ySize)
    requires Turn(f, move, Compose(Invert(sym), s)) == Turn(f, move, Compose(Invert(sym), t))
    ensures Turn(f, move, Compose3(Invert(sym), Compose(s, Invert(t)), sym)) == move
  {
    GroupClosed(sym, sym, f.xSize, f.ySize);
    GroupClosed(Invert(sym), s, f.xSize, f.ySize);
    GroupClosed(Invert(sym), t, f.xSize, f.ySize);
    var back := Invert(Compose(Invert(sym), t));
    GroupClosed(Compose(Invert(sym), t), s, f.xSize, f.ySize);
    TurnActs(f, move, Compose(Invert(sym), s), back);
    TurnActs(f, move, Compose(Invert(sym), t), back);
    hide Compose, Invert, Turn;
    GroupLaws(Compose(Invert(sym), t), t, t);
    GroupLaws(Invert(sym), t, t);
    GroupLaws(sym, sym, sym);
    GroupLaws(Compose(Invert(sym), s), Invert(t), sym);
    GroupLaws(Invert(sym), s, Invert(t));
  }

  lemma NewAlignDifference(sym: Sym, s: Sym, t: Sym, alignToChild: Sym)
    ensures Invert(Compose(Compose(Invert(sym), s), NewAlign(t, sym, alignToChild))) ==
            Compose(Invert(alignToChild), Invert(Compose3(Invert(sym), Compose(s, Invert(t)), sym)))
  {
    hide Compose, Invert;
    var a := Compose(Invert(sym), s);
    GroupLaws(Invert(t), sym, alignToChild);
    GroupLaws(a, Compose(Invert(t), sym), alignToChild);
    GroupLaws(a, Invert(t), sym);
    GroupLaws(Invert(sym), s, Invert(t));
    GroupLaws(Compose3(Invert(sym), Compose(s, Invert(t)), sym), alignToChild, t);
  }

  /**
   After the move has been added, following it reaches the child it was added for, in the
   orientation that adding it returned, up to a symmetry that leaves the position and the move alone.
   */
  lemma FollowAfterAdd(f: Frame, sym: Sym, move: Loc, bestLoc: Loc, bestSymmetry: Sym, m: BookMove, alignToChild: Sym)
    returns (g: Sym)
    requires FrameOk(f) && InGroup(sym, f.xSize, f.ySize) && IsMove(move, f.xSize, f.ySize)
    requires !IsMoveInBook(f, sym, move)
    requires bestSymmetry in f.symmetries && bestLoc == Turn(f, Turn(f, move, Invert(sym)), bestSymmetry)
    requires m.symmetryToAlign == NewAlign(bestSymmetry, sym, alignToChild)
    ensures g in GetSymmetries(f, sym) && Turn(f, move, g) == move
    ensures Follow(WithMove(f, bestLoc, m), sym, move) == Some(Followed(m.hash, Compose(Invert(alignToChild), g)))
  {
    hide SymmetriesOk, MovesOk, OneKeyPerOrbit, Compose, Invert, SymLoc, IsMoveInBook, GetSymmetries, NewAlign;
    var i := NewMoveFound(f, sym, move, bestLoc, bestSymmetry, m);
    var s := f.symmetries[i];
    assert s in f.symmetries;
    FollowFinds(WithMove(f, bestLoc, m), sym, move, 0, i);
    InSymmetries(f, bestSymmetry, bestSymmetry);
    InSymmetries(f, s, Invert(bestSymmetry));
    InSymmetries(f, Compose(s, Invert(bestSymmetry)), s);
    NewAlignDifference(sym, s, bestSymmetry, alignToChild);
    StoredBy(f, sym, move, bestSymmetry);
    var d := Compose(s, Invert(bestSymmetry));
    g := Invert(Compose3(Invert(sym), d, sym));
    DifferenceFixesMove(f, sym, move, s, bestSymmetry);
    FixedByInverse(f, sym, move, d);
    ConjugateInverse(sym, d);
    SymmetriesOf(f, sym, g);
  }

  lemma StoredBy(f: Frame, sym: Sym, move: Loc, s: Sym)
    requires InGroup(sym, f.xSize, f.ySize) && IsMove(move, f.xSize, f.ySize) && InGroup(s, f.xSize, f.ySize)
    ensures Turn(f, Turn(f, move, Invert(sym)), s) == Turn(f, move, Compose(Invert(sym), s))
  {
    GroupClosed(sym, sym, f.xSize, f.ySize);
    TurnActs(f, move, Invert(sym), s);
  }

  lemma FixedByInverse(f: Frame, sym: Sym, move: Loc, d: Sym)
    requires InGroup(sym, f.xSize, f.ySize) && IsMove(move, f.xSize, f.ySize) && InGroup(d, f.xSize, f.ySize)
    requires Turn(f, move, Compose3(Invert(sym), d, sym)) == move
    ensures Turn(f, move, Invert(Compose3(Invert(sym), d, sym))) == move
  {
    var g := Compose3(Invert(sym), d, sym);
    GroupClosed(sym, sym, f.xSize, f.ySize);
    GroupClosed(Invert(sym), d, f.xSize, f.ySize);
    GroupClosed(Compose(Invert(sym), d), sym, f.xSize, f.ySize);
    GroupClosed(g, g, f.xSize, f.ySize);
    TurnActs(f, move, g, Invert(g));
    GroupLaws(g, g, g);
  }

  lemma ConjugateInverse(sym: Sym, d: Sym)
    ensures Invert(Compose3(Invert(sym), d, sym)) == Compose3(Invert(sym), Invert(d), sym)
  {
  }
}
