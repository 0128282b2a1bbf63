/** getHashAndSymmetry: one hash, one orientation and the symmetries of a position, for all its symmetric copies. */
module Hashing {
  import opened Symmetry
  import opened BookData

  datatype Board = Board(xSize: nat, ySize: nat, colors: map<Loc, int>, koLoc: Loc)

  datatype History = History(initialBoard: Board, moves: seq<(Loc, Player)>, nextPla: Player)

  ghost predicate ValidBoard(b: Board) {
    && (forall loc :: loc in b.colors <==> loc != NULL_LOC && loc != PASS_LOC && IsPoint(loc, b.xSize, b.ySize))
    && IsMove(b.koLoc, b.xSize, b.ySize)
  }

  ghost predicate ValidHistory(h: History) {
    ValidBoard(h.initialBoard) && forall i :: 0 <= i < |h.moves| ==>
      IsMove(h.moves[i].0, h.initialBoard.xSize, h.initialBoard.ySize)
  }

  /** The board's group of symmetries. */
  predicate Allowed(h: History, s: Sym) { InGroup(s, h.initialBoard.xSize, h.initialBoard.ySize) }

  lemma FromPoint(b: Board, loc: Loc, s: Sym)
    requires ValidBoard(b) && loc in b.colors && InGroup(s, b.xSize, b.ySize)
    ensures SymLoc(loc, b.xSize, b.ySize, s) in b.colors
  {
    SymLocOnBoard(loc, b.xSize, b.ySize, s);
  }

  /** The stone at each location moves to where the symmetry takes the location. */
  function SymBoard(b: Board, s: Sym): (r: Board)
    requires ValidBoard(b) && InGroup(s, b.xSize, b.ySize)
    ensures ValidBoard(r) && r.xSize == b.xSize && r.ySize == b.ySize
  {
    GroupClosed(s, s, b.xSize, b.ySize);
    SymLocOnBoard(b.koLoc, b.xSize, b.ySize, s);
    assert forall loc :: loc in b.colors ==> SymLoc(loc, b.xSize, b.ySize, Invert(s)) in b.colors by {
      forall loc | loc in b.colors ensures SymLoc(loc, b.xSize, b.ySize, Invert(s)) in b.colors {
        FromPoint(b, loc, Invert(s));
      }
    }
    Board(b.xSize, b.ySize,
          map loc | loc in b.colors :: b.colors[SymLoc(loc, b.xSize, b.ySize, Invert(s))],
          SymLoc(b.koLoc, b.xSize, b.ySize, s))
  }

  function SymHistory(h: History, s: Sym): (r: History)
    requires ValidHistory(h) && Allowed(h, s)
    ensures ValidHistory(r) && |r.moves| == |h.moves|
    ensures r.initialBoard.xSize == h.initialBoard.xSize && r.initialBoard.ySize == h.initialBoard.ySize
  {
    var xSize, ySize := h.initialBoard.xSize, h.initialBoard.ySize;
    assert forall i :: 0 <= i < |h.moves| ==> IsMove(SymLoc(h.moves[i].0, xSize, ySize, s), xSize, ySize) by {
      forall i | 0 <= i < |h.moves| ensures IsMove(SymLoc(h.moves[i].0, xSize, ySize, s), xSize, ySize) {
        SymLocOnBoard(h.moves[i].0, xSize, ySize, s);
      }
    }
    History(SymBoard(h.initialBoard, s),
            seq(|h.moves|, i requires 0 <= i < |h.moves| => (SymLoc(h.moves[i].0, xSize, ySize, s), h.moves[i].1)),
            h.nextPla)
  }

  lemma SymBoardAt(b: Board, s: Sym, loc: Loc)
    requires ValidBoard(b) && InGroup(s, b.xSize, b.ySize) && loc in b.colors
    ensures SymBoard(b, s).colors.Keys == b.colors.Keys && SymLoc(loc, b.xSize, b.ySize, Invert(s)) in b.colors
    ensures SymBoard(b, s).colors[loc] == b.colors[SymLoc(loc, b.xSize, b.ySize, Invert(s))]
  {
    GroupClosed(s, s, b.xSize, b.ySize);
    FromPoint(b, loc, Invert(s));
  }

  lemma SymBoardActsAt(b: Board, s: Sym, t: Sym, loc: Loc)
    requires ValidBoard(b) && InGroup(s, b.xSize, b.ySize) && InGroup(t, b.xSize, b.ySize) && loc in b.colors
    ensures InGroup(Compose(s, t), b.xSize, b.ySize) && loc in SymBoard(SymBoard(b, s), t).colors
    ensures loc in SymBoard(b, Compose(s, t)).colors && loc in SymBoard(b, IDENTITY).colors
    ensures SymBoard(SymBoard(b, s), t).colors[loc] == SymBoard(b, Compose(s, t)).colors[loc]
    ensures SymBoard(b, IDENTITY).colors[loc] == b.colors[loc]
  {
    GroupClosed(s, t, b.xSize, b.ySize);
    GroupClosed(t, s, b.xSize, b.ySize);
    GroupLaws(s, t, s);
    assert IsMove(loc, b.xSize, b.ySize);
    hide SymBoard, SymLoc, IsPoint, Compose, ValidBoard;
    SymBoardAt(b, s, loc);
    SymBoardAt(SymBoard(b, s), t, loc);
    SymBoardAt(b, s, SymLoc(loc, b.xSize, b.ySize, Invert(t)));
    SymBoardAt(b, Compose(s, t), loc);
    SymBoardAt(b, IDENTITY, loc);
    SymLocActs(loc, b.xSize, b.ySize, Invert(t), Invert(s));
  }

  lemma SymBoardActs(b: Board, s: Sym, t: Sym)
    requires ValidBoard(b) && InGroup(s, b.xSize, b.ySize) && InGroup(t, b.xSize, b.ySize)
    ensures InGroup(Compose(s, t), b.xSize, b.ySize)
    ensures SymBoard(SymBoard(b, s), t) == SymBoard(b, Compose(s, t))
    ensures SymBoard(b, IDENTITY) == b
  {
    GroupClosed(s, t, b.xSize, b.ySize);
    SymLocActs(b.koLoc, b.xSize, b.ySize, s, t);
    SameKeys(b, s);
    SameKeys(SymBoard(b, s), t);
    SameKeys(b, Compose(s, t));
    SameKeys(b, IDENTITY);
    hide SymLoc, IsPoint, ValidBoard, Compose;
    assert SymBoard(SymBoard(b, s), t).colors == SymBoard(b, Compose(s, t)).colors
      && SymBoard(b, IDENTITY).colors == b.colors by {
      hide SymBoard;
      forall loc | loc in b.colors
        ensures SymBoard(SymBoard(b, s), t).colors[loc] == SymBoard(b, Compose(s, t)).colors[loc]
        ensures SymBoard(b, IDENTITY).colors[loc] == b.colors[loc]
      {
        SymBoardActsAt(b, s, t, loc);
      }
    }
  }

  lemma SameKeys(b: Board, s: Sym)
    requires ValidBoard(b) && InGroup(s, b.xSize, b.ySize)
    ensures SymBoard(b, s).colors.Keys == b.colors.Keys
  {
  }

  /** Turning a history by s, then by t, is turning it by their composition. */
  lemma SymHistoryActs(h: History, s: Sym, t: Sym)
    requires ValidHistory(h) && Allowed(h, s) && Allowed(h, t)
    ensures Allowed(h, Compose(s, t)) && SymHistory(SymHistory(h, s), t) == SymHistory(h, Compose(s, t))
    ensures SymHistory(h, IDENTITY) == h
  {
    SymBoardActs(h.initialBoard, s, t);
    var xSize, ySize := h.initialBoard.xSize, h.initialBoard.ySize;
    hide SymLoc, SymBoard;
    forall i | 0 <= i < |h.moves|
      ensures SymHistory(SymHistory(h, s), t).moves[i] == SymHistory(h, Compose(s, t)).moves[i]
      ensures SymHistory(h, IDENTITY).moves[i] == h.moves[i]
    {
      SymLocActs(h.moves[i].0, xSize, ySize, s, t);
    }
    assert SymHistory(h, IDENTITY).moves == h.moves;
  }

  // ---------------------------------------------------------------------------------------------
  // The hash of one history

  /** Go rules and hash functions, as far as the hashing uses them. S: a board with its history. */
  datatype Hasher<!S> = Hasher(
    start: Board -> S,
    stateHash: (S, Player) -> int,
    presumedNext: S -> Player,
    oldHash: (S, Player) -> int,
    mixIn: (int, int) -> int,
    play: (S, Loc, Player) -> S,
    repeatedTooOften: (S, Loc) -> bool,
    withExtra: (int, S) -> int,
    murmur: int -> int)

  datatype Running<S> = Running(state: S, accum: int)

  function Begin<S>(hs: Hasher<S>, b: Board): Running<S> { Running(hs.start(b), 0) }

  function Advance<S>(hs: Hasher<S>, v2: bool, r: Running<S>, loc: Loc, pla: Player): Running<S> {
    var nextHash := if v2 then hs.stateHash(r.state, hs.presumedNext(r.state)) else hs.oldHash(r.state, pla);
    var state := hs.play(r.state, loc, pla);
    Running(state, if hs.repeatedTooOften(state, loc) then 0 else hs.mixIn(r.accum, nextHash))
  }

  function Finish<S>(hs: Hasher<S>, v2: bool, r: Running<S>, nextPla: Player): BookHash {
    var history, state := hs.withExtra(r.accum, r.state), hs.stateHash(r.state, nextPla);
    if v2 then BookHash(hs.murmur(history), hs.murmur(state)) else BookHash(history, state)
  }

  /** After the first k moves. */
  function RunOf<S>(hs: Hasher<S>, v2: bool, h: History, k: nat): Running<S>
    requires k <= |h.moves|
  {
    if k == 0 then Begin(hs, h.initialBoard)
    else Advance(hs, v2, RunOf(hs, v2, h, k - 1), h.moves[k - 1].0, h.moves[k - 1].1)
  }

  function HashOf<S>(hs: Hasher<S>, v2: bool, h: History): BookHash {
    Finish(hs, v2, RunOf(hs, v2, h, |h.moves|), h.nextPla)
  }

  predicate Less(a: BookHash, b: BookHash) {
    a.stateHash < b.stateHash || (a.stateHash == b.stateHash && a.historyHash < b.historyHash)
  }

  function NumSymmetries(h: History): nat {
    if h.initialBoard.xSize != h.initialBoard.ySize then 4 else 8
  }

  lemma AllowedCodes(h: History, s: Sym)
    ensures Allowed(h, s) <==> Code(s) < NumSymmetries(h)
  {
  }

  lemma CodeOf(c: nat)
    requires c < 8
    ensures Code(FromCode(c)) == c
  {
  }

  // ---------------------------------------------------------------------------------------------
  // All orientations at once

  ghost function HashIn<S>(hs: Hasher<S>, v2: bool, h: History, s: Sym): BookHash
    requires ValidHistory(h) && Allowed(h, s)
  {
    HashOf(hs, v2, SymHistory(h, s))
  }

  ghost function RunIn<S>(hs: Hasher<S>, v2: bool, h: History, c: nat, k: nat): Running<S>
    requires ValidHistory(h) && c < NumSymmetries(h) && k <= |h.moves|
  {
    AllowedCodes(h, FromCode(c));
    CodeOf(c);
    RunOf(hs, v2, SymHistory(h, FromCode(c)), k)
  }

  ghost function AllRuns<S>(hs: Hasher<S>, v2: bool, h: History, k: nat): (runs: seq<Running<S>>)
    requires ValidHistory(h) && k <= |h.moves|
    ensures |runs| == NumSymmetries(h)
  {
    seq(NumSymmetries(h), c requires 0 <= c < NumSymmetries(h) => RunIn(hs, v2, h, c, k))
  }

  lemma NextRunIn<S>(hs: Hasher<S>, v2: bool, h: History, c: nat, k: nat)
    requires ValidHistory(h) && c < NumSymmetries(h) && k < |h.moves|
    ensures RunIn(hs, v2, h, c, k + 1) ==
            Advance(hs, v2, RunIn(hs, v2, h, c, k),
                    SymLoc(h.moves[k].0, h.initialBoard.xSize, h.initialBoard.ySize, FromCode(c)), h.moves[k].1)
  {
    AllowedCodes(h, FromCode(c));
    CodeOf(c);
  }

  method BeginAll<S>(hs: Hasher<S>, v2: bool, h: History) returns (runs: seq<Running<S>>)
    requires ValidHistory(h)
    ensures runs == AllRuns(hs, v2, h, 0)
  {
    runs := [];
    for c := 0 to NumSymmetries(h)
      invariant runs == AllRuns(hs, v2, h, 0)[..c]
    {
      AllowedCodes(h, FromCode(c));
      CodeOf(c);
      runs := runs + [Begin(hs, SymBoard(h.initialBoard, FromCode(c)))];
    }
  }

  /** Play move k in every orientation. */
  method AdvanceAll<S>(hs: Hasher<S>, v2: bool, h: History, k: nat,
                       runs0: seq<Running<S>>) returns (runs: seq<Running<S>>)
    requires ValidHistory(h) && k < |h.moves| && runs0 == AllRuns(hs, v2, h, k)
    ensures runs == AllRuns(hs, v2, h, k + 1)
  {
    hide Advance, RunIn, SymLoc;
    runs := runs0;
    for c := 0 to NumSymmetries(h)
      invariant |runs| == NumSymmetries(h)
      invariant forall d :: 0 <= d < c ==> runs[d] == RunIn(hs, v2, h, d, k + 1)
      invariant forall d :: c <= d < |runs| ==> runs[d] == RunIn(hs, v2, h, d, k)
    {
      var moveLoc := SymLoc(h.moves[k].0, h.initialBoard.xSize, h.initialBoard.ySize, FromCode(c));
      NextRunIn(hs, v2, h, c, k);
      runs := runs[c := Advance(hs, v2, runs[c], moveLoc, h.moves[k].1)];
    }
  }

  method HashAll<S>(hs: Hasher<S>, v2: bool, h: History) returns (hashes: seq<BookHash>)
    requires ValidHistory(h)
    ensures |hashes| == NumSymmetries(h)
    ensures forall c :: 0 <= c < |hashes| ==> Allowed(h, FromCode(c)) && hashes[c] == HashIn(hs, v2, h, FromCode(c))
  {
    hide Advance, SymLoc, SymBoard, Finish, RunOf, SymHistory;
    var runs := BeginAll(hs, v2, h);
    for k := 0 to |h.moves|
      invariant runs == AllRuns(hs, v2, h, k)
    {
      runs := AdvanceAll(hs, v2, h, k, runs);
    }
    hashes := [];
    for c := 0 to NumSymmetries(h)
      invariant |hashes| == c
      invariant forall d :: 0 <= d < c ==> Allowed(h, FromCode(d)) && hashes[d] == HashIn(hs, v2, h, FromCode(d))
    {
      FinishIn(hs, v2, h, c);
      hashes := hashes + [Finish(hs, v2, runs[c], h.nextPla)];
    }
  }

  lemma FinishIn<S>(hs: Hasher<S>, v2: bool, h: History, c: nat)
    requires ValidHistory(h) && c < NumSymmetries(h)
    ensures Allowed(h, FromCode(c))
    ensures Finish(hs, v2, RunIn(hs, v2, h, c, |h.moves|), h.nextPla) == HashIn(hs, v2, h, FromCode(c))
  {
    AllowedCodes(h, FromCode(c));
    CodeOf(c);
  }

  // ---------------------------------------------------------------------------------------------
  // The aligned orientation

  /** hash is the least over all orientations, align the first orientation that has it. */
  ghost predicate Aligns<S(!new)>(hs: Hasher<S>, v2: bool, h: History, hash: BookHash, align: Sym)
    requires ValidHistory(h)
  {
    && Allowed(h, align) && hash == HashIn(hs, v2, h, align)
    && (forall s :: Allowed(h, s) ==> !Less(HashIn(hs, v2, h, s), hash))
    && (forall s :: Allowed(h, s) && HashIn(hs, v2, h, s) == hash ==> Code(align) <= Code(s))
  }

  /** The symmetries that leave the hash of the aligned orientation as it is. */
  ghost predicate Preserves<S(!new)>(hs: Hasher<S>, v2: bool, h: History, hash: BookHash, align: Sym, s: Sym)
    requires ValidHistory(h) && Allowed(h, align)
  {
    Allowed(h, s) && HashIn(hs, v2, SymHistory(h, align), s) == hash
  }

  ghost predicate InCodeOrder(syms: seq<Sym>) {
    forall i, j :: 0 <= i < j < |syms| ==> Code(syms[i]) < Code(syms[j])
  }

  method Smallest<S(!new)>(hs: Hasher<S>, v2: bool, h: History, hashes: seq<BookHash>) returns (smallest: nat)
    requires ValidHistory(h) && |hashes| == NumSymmetries(h)
    requires forall c :: 0 <= c < |hashes| ==> Allowed(h, FromCode(c)) && hashes[c] == HashIn(hs, v2, h, FromCode(c))
    ensures smallest < |hashes| && Aligns(hs, v2, h, hashes[smallest], FromCode(smallest))
  {
    hide HashIn;
    smallest := 0;
    for c := 0 to |hashes|
      invariant smallest < |hashes| && (c > 0 ==> smallest < c)
      invariant forall d :: 0 <= d < c ==> !Less(hashes[d], hashes[smallest]) && (hashes[d] == hashes[smallest] ==> smallest <= d)
    {
      if c == 0 || Less(hashes[c], hashes[smallest]) {
        smallest := c;
      }
    }
    forall s | Allowed(h, s)
      ensures !Less(HashIn(hs, v2, h, s), hashes[smallest])
      ensures HashIn(hs, v2, h, s) == hashes[smallest] ==> smallest <= Code(s)
    {
      AllowedCodes(h, s);
      assert hashes[Code(s)] == HashIn(hs, v2, h, FromCode(Code(s)));
    }
    CodeOf(smallest);
  }

  /** The table entry the program looks up tells whether the symmetry preserves the aligned hash. */
  lemma LookUp<S(!new)>(hs: Hasher<S>, v2: bool, h: History, hashes: seq<BookHash>, hash: BookHash, align: Sym, c: nat)
    requires ValidHistory(h) && Allowed(h, align) && c < |hashes| == NumSymmetries(h)
    requires forall c :: 0 <= c < |hashes| ==> Allowed(h, FromCode(c)) && hashes[c] == HashIn(hs, v2, h, FromCode(c))
    ensures Code(FromCode(c)) == c && Code(Compose(align, FromCode(c))) < |hashes|
    ensures hashes[Code(Compose(align, FromCode(c)))] == hash <==> Preserves(hs, v2, h, hash, align, FromCode(c))
  {
    CodeOf(c);
    var s := FromCode(c);
    AllowedCodes(h, s);
    SymHistoryActs(h, align, s);
    AllowedCodes(h, Compose(align, s));
    hide HashOf, SymHistory;
    assert hashes[Code(Compose(align, s))] == HashIn(hs, v2, h, FromCode(Code(Compose(align, s))));
  }

  ghost predicate PreservingUpTo<S(!new)>(hs: Hasher<S>, v2: bool, h: History, hash: BookHash, align: Sym,
                                   syms: seq<Sym>, c: nat)
    requires ValidHistory(h) && Allowed(h, align)
  {
    && (forall s :: s in syms <==> Code(s) < c && Preserves(hs, v2, h, hash, align, s))
    && InCodeOrder(syms)
  }

  lemma PreservingNext<S(!new)>(hs: Hasher<S>, v2: bool, h: History, hash: BookHash, align: Sym, syms: seq<Sym>, c: nat)
    requires ValidHistory(h) && Allowed(h, align) && c < 8 && PreservingUpTo(hs, v2, h, hash, align, syms, c)
    ensures PreservingUpTo(hs, v2, h, hash, align,
              if Preserves(hs, v2, h, hash, align, FromCode(c)) then syms + [FromCode(c)] else syms, c + 1)
  {
    hide Preserves;
    CodeOf(c);
    forall s | Code(s) == c ensures s == FromCode(c) {
      assert FromCode(Code(s)) == s;
    }
    forall i | 0 <= i < |syms| ensures Code(syms[i]) < c {
      assert syms[i] in syms;
    }
  }

  method GetHashAndSymmetry<S(!new)>(hs: Hasher<S>, v2: bool, h: History)
    returns (hashRet: BookHash, symmetryToAlignRet: Sym, symmetriesRet: seq<Sym>)
    requires ValidHistory(h)
    ensures Aligns(hs, v2, h, hashRet, symmetryToAlignRet)
    ensures forall s :: s in symmetriesRet <==> Preserves(hs, v2, h, hashRet, symmetryToAlignRet, s)
    ensures InCodeOrder(symmetriesRet)
  {
    hide HashIn, Preserves, Compose, InCodeOrder;
    var hashes := HashAll(hs, v2, h);
    var smallest := Smallest(hs, v2, h, hashes);
    hashRet, symmetryToAlignRet := hashes[smallest], FromCode(smallest);
    symmetriesRet := [];
    PreservingNone(hs, v2, h, hashRet, symmetryToAlignRet);
    for c := 0 to |hashes|
      invariant PreservingUpTo(hs, v2, h, hashRet, symmetryToAlignRet, symmetriesRet, c)
    {
      LookUp(hs, v2, h, hashes, hashRet, symmetryToAlignRet, c);
      PreservingNext(hs, v2, h, hashRet, symmetryToAlignRet, symmetriesRet, c);
      if hashes[Code(Compose(symmetryToAlignRet, FromCode(c)))] == hashRet {
        symmetriesRet := symmetriesRet + [FromCode(c)];
      }
    }
    forall s | Preserves(hs, v2, h, hashRet, symmetryToAlignRet, s) ensures Code(s) < |hashes| {
      PreservesAllowed(hs, v2, h, hashRet, symmetryToAlignRet, s);
      AllowedCodes(h, s);
    }
  }

  lemma PreservingNone<S(!new)>(hs: Hasher<S>, v2: bool, h: History, hash: BookHash, align: Sym)
    requires ValidHistory(h) && Allowed(h, align)
    ensures PreservingUpTo(hs, v2, h, hash, align, [], 0)
  {
  }

  lemma PreservesAllowed<S(!new)>(hs: Hasher<S>, v2: bool, h: History, hash: BookHash, align: Sym, s: Sym)
    requires ValidHistory(h) && Allowed(h, align) && Preserves(hs, v2, h, hash, align, s)
    ensures Allowed(h, s)
  {
  }

  // ---------------------------------------------------------------------------------------------
  // The result is canonical

  lemma LessTotal(a: BookHash, b: BookHash)
    requires !Less(a, b) && !Less(b, a)
    ensures a == b
  {
  }

  /** A turned copy has the same hashes, in another order. */
  lemma CopyHashes<S(!new)>(hs: Hasher<S>, v2: bool, h: History, t: Sym, s: Sym)
    requires ValidHistory(h) && Allowed(h, t) && Allowed(h, s)
    ensures Allowed(h, Compose(t, s)) && Allowed(h, Compose(Invert(t), s))
    ensures HashIn(hs, v2, SymHistory(h, t), s) == HashIn(hs, v2, h, Compose(t, s))
    ensures HashIn(hs, v2, SymHistory(h, t), Compose(Invert(t), s)) == HashIn(hs, v2, h, s)
  {
    GroupClosed(t, t, h.initialBoard.xSize, h.initialBoard.ySize);
    GroupClosed(Invert(t), s, h.initialBoard.xSize, h.initialBoard.ySize);
    SymHistoryActs(h, t, s);
    SymHistoryActs(h, t, Compose(Invert(t), s));
    GroupLaws(t, Invert(t), s);
    GroupLaws(s, t, t);
  }

  /** All symmetric copies of a position get the same hash. */
  lemma CopiesGetSameHash<S(!new)>(hs: Hasher<S>, v2: bool, h: History, t: Sym,
                                   hash: BookHash, align: Sym, hash': BookHash, align': Sym)
    requires ValidHistory(h) && Allowed(h, t)
    requires Aligns(hs, v2, h, hash, align) && Aligns(hs, v2, SymHistory(h, t), hash', align')
    ensures hash == hash'
  {
    hide HashIn, SymHistory;
    CopyHashes(hs, v2, h, t, align);
    CopyHashes(hs, v2, h, t, align');
    LessTotal(hash, hash');
  }

  /** Two orientations of h with the same hash are the same history. */
  ghost predicate CollisionFree<S(!new)>(hs: Hasher<S>, v2: bool, h: History)
    requires ValidHistory(h)
  {
    forall s, t :: Allowed(h, s) && Allowed(h, t) && HashIn(hs, v2, h, s) == HashIn(hs, v2, h, t) ==>
      SymHistory(h, s) == SymHistory(h, t)
  }

  /** Aligning any symmetric copy gives the same history. */
  lemma CopiesGetSameRepresentative<S(!new)>(hs: Hasher<S>, v2: bool, h: History, t: Sym,
                                             hash: BookHash, align: Sym, hash': BookHash, align': Sym)
    requires ValidHistory(h) && Allowed(h, t) && CollisionFree(hs, v2, h)
    requires Aligns(hs, v2, h, hash, align) && Aligns(hs, v2, SymHistory(h, t), hash', align')
    ensures SymHistory(SymHistory(h, t), align') == SymHistory(h, align)
  {
    hide SymHistory, HashIn;
    CopiesGetSameHash(hs, v2, h, t, hash, align, hash', align');
    CopyHashes(hs, v2, h, t, align');
    SymHistoryActs(h, t, align');
  }

  /** The reported symmetries are exactly those that leave the representative as it is. */
  lemma SymmetriesAreStabiliser<S(!new)>(hs: Hasher<S>, v2: bool, h: History, hash: BookHash, align: Sym, s: Sym)
    requires ValidHistory(h) && CollisionFree(hs, v2, h) && Aligns(hs, v2, h, hash, align)
    ensures Preserves(hs, v2, h, hash, align, s) <==> Allowed(h, s) && SymHistory(SymHistory(h, align), s) == SymHistory(h, align)
  {
    hide SymHistory;
    if Allowed(h, s) {
      SymHistoryActs(h, align, s);
    }
  }

  /** They form a group. */
  lemma SymmetriesFormGroup<S(!new)>(hs: Hasher<S>, v2: bool, h: History, hash: BookHash, align: Sym, s: Sym, t: Sym)
    requires ValidHistory(h) && CollisionFree(hs, v2, h) && Aligns(hs, v2, h, hash, align)
    requires Preserves(hs, v2, h, hash, align, s) && Preserves(hs, v2, h, hash, align, t)
    ensures Preserves(hs, v2, h, hash, align, IDENTITY)
    ensures Preserves(hs, v2, h, hash, align, Compose(s, t))
    ensures Preserves(hs, v2, h, hash, align, Invert(s))
  {
    var rep := SymHistory(h, align);
    GroupClosed(s, t, h.initialBoard.xSize, h.initialBoard.ySize);
    SymmetriesAreStabiliser(hs, v2, h, hash, align, s);
    SymmetriesAreStabiliser(hs, v2, h, hash, align, t);
    SymmetriesAreStabiliser(hs, v2, h, hash, align, IDENTITY);
    SymmetriesAreStabiliser(hs, v2, h, hash, align, Compose(s, t));
    SymmetriesAreStabiliser(hs, v2, h, hash, align, Invert(s));
    SymHistoryActs(rep, s, t);
    SymHistoryActs(rep, s, Invert(s));
    GroupLaws(s, t, t);
    hide SymHistory, Preserves, Compose;
  }

  lemma FirstIsLeast(syms: seq<Sym>, i: nat)
    requires InCodeOrder(syms) && i < |syms|
    ensures Code(syms[0]) <= Code(syms[i])
  {
  }

  /** The identity is always reported, and first; so the list is never empty. */
  lemma IdentityComesFirst<S(!new)>(hs: Hasher<S>, v2: bool, h: History, hash: BookHash, align: Sym, syms: seq<Sym>)
    requires ValidHistory(h) && Aligns(hs, v2, h, hash, align)
    requires (forall s :: s in syms <==> Preserves(hs, v2, h, hash, align, s)) && InCodeOrder(syms)
    ensures syms != [] && syms[0] == IDENTITY
  {
    SymHistoryActs(SymHistory(h, align), IDENTITY, IDENTITY);
    hide SymHistory;
    assert IDENTITY in syms;
    var i :| 0 <= i < |syms| && syms[i] == IDENTITY;
    FirstIsLeast(syms, i);
    assert FromCode(Code(syms[0])) == syms[0];
  }
}
