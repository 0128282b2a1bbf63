/**
 The eight symmetries of the board and how they move locations.

 A symmetry is three bits: flip y, flip x, then transpose, applied in that order. On a board that
 is not square the transposing half is never used.
 */
module Symmetry {
  import opened Util

  type Loc = int   // (x+1) + (y+1)*(xSize+1)

  const NULL_LOC: Loc := 0
  const PASS_LOC: Loc := 1

  datatype Sym = Sym(flipY: bool, flipX: bool, transpose: bool)

  const IDENTITY := Sym(false, false, false)

  /** The number the program uses for a symmetry. */
  function Code(s: Sym): (c: nat)
    ensures c < 8 && FromCode(c) == s
  {
    (if s.flipY then 1 else 0) + (if s.flipX then 2 else 0) + (if s.transpose then 4 else 0)
  }

  function FromCode(c: nat): Sym
    requires c < 8
  {
    Sym(c % 2 == 1, c / 2 % 2 == 1, c / 4 == 1)
  }

  /** First a, then b. */
  function Compose(a: Sym, b: Sym): Sym {
    var b' := if a.transpose then Sym(b.flipX, b.flipY, b.transpose) else b;
    Sym(a.flipY != b'.flipY, a.flipX != b'.flipX, a.transpose != b'.transpose)
  }

  /** All are their own inverse, except that a quarter turn inverts to the other one. */
  function Invert(s: Sym): Sym {
    if s.transpose && s.flipX != s.flipY then Sym(!s.flipY, !s.flipX, true) else s
  }

  function Compose3(a: Sym, b: Sym, c: Sym): Sym { Compose(Compose(a, b), c) }

  lemma GroupLaws(a: Sym, b: Sym, c: Sym)
    ensures Compose(Compose(a, b), c) == Compose(a, Compose(b, c))
    ensures Compose(IDENTITY, a) == a == Compose(a, IDENTITY)
    ensures Compose(a, Invert(a)) == IDENTITY == Compose(Invert(a), a)
    ensures Invert(Compose(a, b)) == Compose(Invert(b), Invert(a)) && Invert(Invert(a)) == a
  {
  }

  function ToBits(s: Sym): bv3 {
    (if s.flipY then 1 else 0) | (if s.flipX then 2 else 0) | (if s.transpose then 4 else 0)
  }

  /** The program composes on the bits. */
  function ComposeBits(first: bv3, next: bv3): bv3 {
    first ^ (if first & 4 != 0 then (next & 4) | ((next & 2) >> 1) | ((next & 1) << 1) else next)
  }

  function InvertBits(s: bv3): bv3 { if s == 5 then 6 else if s == 6 then 5 else s }

  lemma BitsAgree(a: Sym, b: Sym)
    ensures ComposeBits(ToBits(a), ToBits(b)) == ToBits(Compose(a, b))
    ensures InvertBits(ToBits(a)) == ToBits(Invert(a))
  {
  }

  // ---------------------------------------------------------------------------------------------
  // Locations

  function GetLoc(x: int, y: int, xSize: nat): Loc { (x + 1) + (y + 1) * (xSize + 1) }
  function GetX(loc: Loc, xSize: nat): int { loc % (xSize + 1) - 1 }
  function GetY(loc: Loc, xSize: nat): int { loc / (xSize + 1) - 1 }

  predicate IsPoint(loc: Loc, xSize: nat, ySize: nat) {
    0 <= GetX(loc, xSize) < xSize && 0 <= GetY(loc, xSize) < ySize
  }

  predicate IsMove(loc: Loc, xSize: nat, ySize: nat) {
    loc == NULL_LOC || loc == PASS_LOC || IsPoint(loc, xSize, ySize)
  }

  lemma DivMod(q: int, r: int, d: int)
    requires 0 <= r < d
    ensures (r + q * d) / d == q && (r + q * d) % d == r
  {
    DivModUnique(r + q * d, d, q, r);
  }

  lemma LocOf(x: int, y: int, xSize: nat, ySize: nat)
    requires 0 <= x < xSize && 0 <= y < ySize
    ensures var loc := GetLoc(x, y, xSize);
            GetX(loc, xSize) == x && GetY(loc, xSize) == y && IsPoint(loc, xSize, ySize) && loc != NULL_LOC && loc != PASS_LOC
  {
    DivMod(y + 1, x + 1, xSize + 1);
    assert (y + 1) * (xSize + 1) >= 1 * (xSize + 1);
  }

  lemma LocBack(loc: Loc, xSize: nat)
    ensures GetLoc(GetX(loc, xSize), GetY(loc, xSize), xSize) == loc
  {
  }

  /** A point or a pass. */
  predicate Playable(loc: Loc, xSize: nat, ySize: nat) { IsMove(loc, xSize, ySize) && loc != NULL_LOC }

  /** The symmetries the book uses: all eight on a square board, else the four that keep the sides. */
  predicate InGroup(s: Sym, xSize: nat, ySize: nat) { xSize == ySize || !s.transpose }

  lemma GroupClosed(a: Sym, b: Sym, xSize: nat, ySize: nat)
    requires InGroup(a, xSize, ySize) && InGroup(b, xSize, ySize)
    ensures InGroup(Compose(a, b), xSize, ySize) && InGroup(Invert(a), xSize, ySize) && InGroup(IDENTITY, xSize, ySize)
  {
  }

  function SymX(x: int, y: int, xSize: nat, ySize: nat, s: Sym): int {
    if s.transpose then (if s.flipY then ySize - y - 1 else y) else if s.flipX then xSize - x - 1 else x
  }

  function SymY(x: int, y: int, xSize: nat, ySize: nat, s: Sym): int {
    if s.transpose then (if s.flipX then xSize - x - 1 else x) else if s.flipY then ySize - y - 1 else y
  }

  function SymLoc(loc: Loc, xSize: nat, ySize: nat, s: Sym): Loc {
    if loc == NULL_LOC || loc == PASS_LOC then loc
    else
      var x, y := GetX(loc, xSize), GetY(loc, xSize);
      GetLoc(SymX(x, y, xSize, ySize, s), SymY(x, y, xSize, ySize, s), if s.transpose then ySize else xSize)
  }

  /** Symmetries of the group map the board to itself. */
  lemma SymLocOnBoard(loc: Loc, xSize: nat, ySize: nat, s: Sym)
    requires IsMove(loc, xSize, ySize) && InGroup(s, xSize, ySize)
    ensures IsMove(SymLoc(loc, xSize, ySize, s), xSize, ySize)
    ensures SymLoc(loc, xSize, ySize, s) == NULL_LOC ==> loc == NULL_LOC
    ensures loc == NULL_LOC ==> SymLoc(loc, xSize, ySize, s) == NULL_LOC
    ensures loc != NULL_LOC && loc != PASS_LOC ==>
              var r, x, y := SymLoc(loc, xSize, ySize, s), GetX(loc, xSize), GetY(loc, xSize);
              && r != NULL_LOC && r != PASS_LOC && IsPoint(r, xSize, ySize)
              && GetX(r, xSize) == SymX(x, y, xSize, ySize, s) && GetY(r, xSize) == SymY(x, y, xSize, ySize, s)
  {
    if loc != NULL_LOC && loc != PASS_LOC {
      var x, y := GetX(loc, xSize), GetY(loc, xSize);
      LocOf(SymX(x, y, xSize, ySize, s), SymY(x, y, xSize, ySize, s), xSize, ySize);
    }
  }

  /** Moving a location by a, then by b, is moving it by their composition. */
  lemma SymLocActs(loc: Loc, xSize: nat, ySize: nat, a: Sym, b: Sym)
    requires IsMove(loc, xSize, ySize) && InGroup(a, xSize, ySize) && InGroup(b, xSize, ySize)
    ensures SymLoc(SymLoc(loc, xSize, ySize, a), xSize, ySize, b) == SymLoc(loc, xSize, ySize, Compose(a, b))
    ensures SymLoc(loc, xSize, ySize, IDENTITY) == loc
  {
    hide GetX, GetY, GetLoc;
    SymLocOnBoard(loc, xSize, ySize, a);
    LocBack(loc, xSize);
  }

  lemma SymLocBack(loc: Loc, xSize: nat, ySize: nat, s: Sym)
    requires IsMove(loc, xSize, ySize) && InGroup(s, xSize, ySize)
    ensures SymLoc(SymLoc(loc, xSize, ySize, s), xSize, ySize, Invert(s)) == loc
    ensures SymLoc(SymLoc(loc, xSize, ySize, Invert(s)), xSize, ySize, s) == loc
  {
    GroupClosed(s, s, xSize, ySize);
    GroupLaws(s, s, s);
    SymLocActs(loc, xSize, ySize, s, Invert(s));
    SymLocActs(loc, xSize, ySize, Invert(s), s);
  }

  // ---------------------------------------------------------------------------------------------
  // The web page's positions, x + y * xSize

  function PagePos(x: int, y: int, xSize: nat): int { x + y * xSize }

  /** getSymPos: the transposition only happens on square boards. */
  function PageSymPos(pos: int, xSize: nat, ySize: nat, s: Sym): int
    requires xSize > 0
  {
    var y, x := pos / xSize, pos % xSize;
    var y1 := if s.flipY then ySize - 1 - y else y;
    var x1 := if s.flipX then xSize - 1 - x else x;
    if s.transpose && xSize == ySize then PagePos(y1, x1, xSize) else PagePos(x1, y1, xSize)
  }

  function PageInvSymPos(pos: int, xSize: nat, ySize: nat, s: Sym): int
    requires xSize > 0
  {
    var y0, x0 := pos / xSize, pos % xSize;
    var y, x := if s.transpose && xSize == ySize then x0 else y0, if s.transpose && xSize == ySize then y0 else x0;
    PagePos(if s.flipX then xSize - 1 - x else x, if s.flipY then ySize - 1 - y else y, xSize)
  }

  /** The page moves positions as the book moves locations, and its inverse function is the inverse. */
  lemma PageAgrees(x: int, y: int, xSize: nat, ySize: nat, s: Sym)
    requires 0 <= x < xSize && 0 <= y < ySize && InGroup(s, xSize, ySize)
    ensures var r := SymLoc(GetLoc(x, y, xSize), xSize, ySize, s);
            && PageSymPos(PagePos(x, y, xSize), xSize, ySize, s) == PagePos(GetX(r, xSize), GetY(r, xSize), xSize)
            && PageInvSymPos(PageSymPos(PagePos(x, y, xSize), xSize, ySize, s), xSize, ySize, s) == PagePos(x, y, xSize)
  {
    var sx, sy := SymX(x, y, xSize, ySize, s), SymY(x, y, xSize, ySize, s);
    DivMod(y, x, xSize);
    DivMod(sy, sx, xSize);
    LocOf(x, y, xSize, ySize);
    LocOf(sx, sy, xSize, ySize);
  }
}
