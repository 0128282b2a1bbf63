/**
 What a position's hash tells of it: where the game stands, who is to move, and which positions it went
 through since the last repetition. A hash without collisions is faithful, as the book asks of it.
 */
module HashMeaning {
  import opened Symmetry
  import opened BookData
  import opened Hashing
  import opened Walks

  // ---------------------------------------------------------------------------------------------
  // The game behind a history

  /** The position after the first k moves. */
  function PositionAfter<S>(hs: Hasher<S>, h: History, k: nat): S
    requires k <= |h.moves|
  {
    if k == 0 then hs.start(h.initialBoard) else hs.play(PositionAfter(hs, h, k - 1), h.moves[k - 1].0, h.moves[k - 1].1)
  }

  function FinalPosition<S>(hs: Hasher<S>, h: History): S { PositionAfter(hs, h, |h.moves|) }

  /** The k-th move makes a position that has come up too often. */
  predicate Repeats<S>(hs: Hasher<S>, h: History, k: nat)
    requires k < |h.moves|
  {
    hs.repeatedTooOften(PositionAfter(hs, h, k + 1), h.moves[k].0)
  }

  /** How many of the first k moves come before the stretch without such repetitions. */
  function LastReset<S>(hs: Hasher<S>, h: History, k: nat): (r: nat)
    requires k <= |h.moves|
    ensures r <= k
  {
    if k == 0 then 0 else if Repeats(hs, h, k - 1) then k else LastReset(hs, h, k - 1)
  }

  /** What the accumulator takes in before the k-th move. */
  function FedAt<S>(hs: Hasher<S>, v2: bool, h: History, k: nat): int
    requires k < |h.moves|
  {
    var before := PositionAfter(hs, h, k);
    if v2 then hs.stateHash(before, hs.presumedNext(before)) else hs.oldHash(before, h.moves[k].1)
  }

  function Fed<S>(hs: Hasher<S>, v2: bool, h: History, from: nat, k: nat): (xs: seq<int>)
    requires from <= k <= |h.moves|
    ensures |xs| == k - from
  {
    if k == from then [] else Fed(hs, v2, h, from, k - 1) + [FedAt(hs, v2, h, k - 1)]
  }

  lemma {:induction false} FedIs<S>(hs: Hasher<S>, v2: bool, h: History, from: nat, k: nat, i: nat)
    requires from <= k <= |h.moves| && i < k - from
    ensures Fed(hs, v2, h, from, k)[i] == FedAt(hs, v2, h, from + i)
  {
    hide FedAt;
    if i < k - 1 - from {
      FedIs(hs, v2, h, from, k - 1, i);
    }
  }

  function Mixed<S>(hs: Hasher<S>, xs: seq<int>): int {
    if xs == [] then 0 else hs.mixIn(Mixed(hs, xs[..|xs| - 1]), xs[|xs| - 1])
  }

  /** The running hash is at the position, and has mixed all positions since the last repetition. */
  lemma {:induction false} RunIsGame<S>(hs: Hasher<S>, v2: bool, h: History, k: nat)
    requires k <= |h.moves|
    ensures RunOf(hs, v2, h, k).state == PositionAfter(hs, h, k)
    ensures RunOf(hs, v2, h, k).accum == Mixed(hs, Fed(hs, v2, h, LastReset(hs, h, k), k))
  {
    if k > 0 {
      RunIsGame(hs, v2, h, k - 1);
      var from := LastReset(hs, h, k - 1);
      var xs := Fed(hs, v2, h, from, k - 1);
      assert (xs + [FedAt(hs, v2, h, k - 1)])[..|xs|] == xs;
    }
  }

  // ---------------------------------------------------------------------------------------------
  // No collisions

  ghost predicate StatesApart<S(!new)>(hs: Hasher<S>) {
    && (forall a, b :: hs.murmur(a) == hs.murmur(b) ==> a == b)
    && (forall s, p, s', p' :: hs.stateHash(s, p) == hs.stateHash(s', p') ==> s == s' && p == p')
  }

  ghost predicate MixesApart<S(!new)>(hs: Hasher<S>) {
    && (forall xs, ys :: Mixed(hs, xs) == Mixed(hs, ys) ==> xs == ys)
    && (forall a, b, s :: hs.withExtra(a, s) == hs.withExtra(b, s) ==> a == b)
  }

  lemma HashParts<S(!new)>(hs: Hasher<S>, v2: bool, g: History, h: History)
    requires StatesApart(hs) && HashOf(hs, v2, g) == HashOf(hs, v2, h)
    ensures FinalPosition(hs, g) == FinalPosition(hs, h) && g.nextPla == h.nextPla
    ensures hs.withExtra(RunOf(hs, v2, g, |g.moves|).accum, FinalPosition(hs, g))
         == hs.withExtra(RunOf(hs, v2, h, |h.moves|).accum, FinalPosition(hs, h))
  {
    hide RunOf;
    RunIsGame(hs, v2, g, |g.moves|);
    RunIsGame(hs, v2, h, |h.moves|);
  }

  /** Histories with the same hash end in the same position with the same player to move. */
  lemma SameHashSamePosition<S(!new)>(hs: Hasher<S>, v2: bool, g: History, h: History)
    requires StatesApart(hs) && HashOf(hs, v2, g) == HashOf(hs, v2, h)
    ensures FinalPosition(hs, g) == FinalPosition(hs, h) && g.nextPla == h.nextPla
  {
    hide HashOf, PositionAfter;
    HashParts(hs, v2, g, h);
  }

  function MovesSince<S>(hs: Hasher<S>, h: History): nat { |h.moves| - LastReset(hs, h, |h.moves|) }

  /** The position before the i-th move since the last repetition. */
  function PositionSince<S>(hs: Hasher<S>, h: History, i: nat): S
    requires i < MovesSince(hs, h)
  {
    PositionAfter(hs, h, LastReset(hs, h, |h.moves|) + i)
  }

  /** The same position, reached through the same positions since the last repetition. */
  ghost predicate SameGame<S(!new)>(hs: Hasher<S>, g: History, h: History) {
    && FinalPosition(hs, g) == FinalPosition(hs, h) && g.nextPla == h.nextPla
    && MovesSince(hs, g) == MovesSince(hs, h)
    && forall i :: 0 <= i < MovesSince(hs, g) ==> PositionSince(hs, g, i) == PositionSince(hs, h, i)
  }

  function FedSince<S>(hs: Hasher<S>, v2: bool, h: History): (xs: seq<int>)
    ensures |xs| == MovesSince(hs, h)
  {
    Fed(hs, v2, h, LastReset(hs, h, |h.moves|), |h.moves|)
  }

  lemma FedSinceIs<S>(hs: Hasher<S>, h: History, i: nat)
    requires i < MovesSince(hs, h)
    ensures FedSince(hs, true, h)[i] == hs.stateHash(PositionSince(hs, h, i), hs.presumedNext(PositionSince(hs, h, i)))
  {
    hide LastReset, PositionAfter;
    FedIs(hs, true, h, LastReset(hs, h, |h.moves|), |h.moves|, i);
  }

  lemma HashByGame<S(!new)>(hs: Hasher<S>, v2: bool, h: History)
    ensures HashOf(hs, v2, h) == Finish(hs, v2, Running(FinalPosition(hs, h), Mixed(hs, FedSince(hs, v2, h))), h.nextPla)
  {
    hide Finish, PositionAfter, LastReset;
    RunIsGame(hs, v2, h, |h.moves|);
  }

  /**
   Version 2, without collisions: two histories have the same hash exactly if they end in the same position,
   with the same player to move, after the same positions since the last repetition.
   */
  lemma SameHashExactly<S(!new)>(hs: Hasher<S>, g: History, h: History)
    requires StatesApart(hs) && MixesApart(hs)
    ensures HashOf(hs, true, g) == HashOf(hs, true, h) <==> SameGame(hs, g, h)
  {
    hide HashOf, PositionAfter, LastReset, Finish, Mixed, PositionSince, FinalPosition, MovesSince;
    HashByGame(hs, true, g);
    HashByGame(hs, true, h);
    if HashOf(hs, true, g) == HashOf(hs, true, h) {
      HashParts(hs, true, g, h);
      AccumIsMixed(hs, g);
      AccumIsMixed(hs, h);
      assert Mixed(hs, FedSince(hs, true, g)) == Mixed(hs, FedSince(hs, true, h));
      forall i | 0 <= i < MovesSince(hs, g) ensures PositionSince(hs, g, i) == PositionSince(hs, h, i) {
        FedSinceIs(hs, g, i);
        FedSinceIs(hs, h, i);
      }
    }
    if SameGame(hs, g, h) {
      forall i | 0 <= i < MovesSince(hs, g) ensures FedSince(hs, true, g)[i] == FedSince(hs, true, h)[i] {
        FedSinceIs(hs, g, i);
        FedSinceIs(hs, h, i);
      }
      assert FedSince(hs, true, g) == FedSince(hs, true, h);
    }
  }

  lemma AccumIsMixed<S(!new)>(hs: Hasher<S>, h: History)
    ensures RunOf(hs, true, h, |h.moves|).accum == Mixed(hs, FedSince(hs, true, h))
  {
    RunIsGame(hs, true, h, |h.moves|);
  }

  lemma MixedLast<S>(hs: Hasher<S>, xs: seq<int>)
    ensures xs == [] ==> Mixed(hs, xs) == 0
    ensures xs != [] ==> exists a, x :: a == Mixed(hs, xs[..|xs| - 1]) && x == xs[|xs| - 1] && Mixed(hs, xs) == hs.mixIn(a, x)
  {
    if xs != [] {
      var a, x := Mixed(hs, xs[..|xs| - 1]), xs[|xs| - 1];
      assert Mixed(hs, xs) == hs.mixIn(a, x);
    }
  }

  /** It is enough that no step of the mixing collides and that none gives the accumulator it starts with. */
  lemma {:induction false} StepsApartSuffice<S(!new)>(hs: Hasher<S>, xs: seq<int>, ys: seq<int>)
    requires forall a, x, b, y :: hs.mixIn(a, x) == hs.mixIn(b, y) ==> a == b && x == y
    requires forall a, x :: hs.mixIn(a, x) != 0
    ensures Mixed(hs, xs) == Mixed(hs, ys) ==> xs == ys
  {
    hide Mixed;
    MixedLast(hs, xs);
    MixedLast(hs, ys);
    if Mixed(hs, xs) == Mixed(hs, ys) && (xs != [] || ys != []) {
      StepsApartSuffice(hs, xs[..|xs| - 1], ys[..|ys| - 1]);
      assert xs == xs[..|xs| - 1] + [xs[|xs| - 1]] && ys == ys[..|ys| - 1] + [ys[|ys| - 1]];
    }
  }

  // ---------------------------------------------------------------------------------------------
  // One difference always shows

  /** Mixing loses neither what was there nor what comes in. */
  ghost predicate MixKeepsBoth<S(!new)>(hs: Hasher<S>) {
    && (forall a, b, x :: hs.mixIn(a, x) == hs.mixIn(b, x) ==> a == b)
    && (forall a, x, y :: hs.mixIn(a, x) == hs.mixIn(a, y) ==> x == y)
    && (forall a, b, s :: hs.withExtra(a, s) == hs.withExtra(b, s) ==> a == b)
  }

  lemma {:induction false} MixedShows<S(!new)>(hs: Hasher<S>, xs: seq<int>, ys: seq<int>, j: nat)
    requires MixKeepsBoth(hs) && |xs| == |ys| && j < |xs| && forall i :: 0 <= i < |xs| && i != j ==> xs[i] == ys[i]
    requires Mixed(hs, xs) == Mixed(hs, ys)
    ensures xs[j] == ys[j]
  {
    var n := |xs| - 1;
    if j < n {
      MixedShows(hs, xs[..n], ys[..n], j);
    } else {
      assert xs[..n] == ys[..n];
    }
  }

  /**
   Even if mixing only keeps each of its two arguments apart: histories with the same hash, as long since
   the last repetition, and with the same positions before all later moves but one, had the same there too.
   */
  lemma OneDifferenceShows<S(!new)>(hs: Hasher<S>, g: History, h: History, j: nat)
    requires StatesApart(hs) && MixKeepsBoth(hs) && HashOf(hs, true, g) == HashOf(hs, true, h)
    requires MovesSince(hs, g) == MovesSince(hs, h) && j < MovesSince(hs, g)
    requires forall i :: 0 <= i < MovesSince(hs, g) && i != j ==> PositionSince(hs, g, i) == PositionSince(hs, h, i)
    ensures SameGame(hs, g, h)
  {
    hide HashOf, PositionAfter, LastReset, Mixed, PositionSince, FinalPosition, MovesSince, FedSince;
    HashParts(hs, true, g, h);
    AccumIsMixed(hs, g);
    AccumIsMixed(hs, h);
    forall i | 0 <= i < MovesSince(hs, g) && i != j ensures FedSince(hs, true, g)[i] == FedSince(hs, true, h)[i] {
      FedSinceIs(hs, g, i);
      FedSinceIs(hs, h, i);
    }
    MixedShows(hs, FedSince(hs, true, g), FedSince(hs, true, h), j);
    FedSinceIs(hs, g, j);
    FedSinceIs(hs, h, j);
  }

  // ---------------------------------------------------------------------------------------------
  // Such a hash is faithful

  /** The rules know no directions: turn moves positions as the symmetries move boards. */
  ghost predicate RulesTurn<S(!new)>(hs: Hasher<S>, turn: (S, Sym) -> S, xSize: nat, ySize: nat) {
    && (forall b, s :: ValidBoard(b) && b.xSize == xSize && b.ySize == ySize && InGroup(s, xSize, ySize) ==>
          hs.start(SymBoard(b, s)) == turn(hs.start(b), s))
    && (forall st, loc, pla, s :: IsMove(loc, xSize, ySize) && InGroup(s, xSize, ySize) ==>
          hs.play(turn(st, s), SymLoc(loc, xSize, ySize, s), pla) == turn(hs.play(st, loc, pla), s))
    && (forall st, loc, s :: IsMove(loc, xSize, ySize) && InGroup(s, xSize, ySize) ==>
          hs.repeatedTooOften(turn(st, s), SymLoc(loc, xSize, ySize, s)) == hs.repeatedTooOften(st, loc))
  }

  lemma TurnedMove(h: History, s: Sym, k: nat)
    requires ValidHistory(h) && Allowed(h, s) && k < |h.moves|
    ensures SymHistory(h, s).moves[k].0 == SymLoc(h.moves[k].0, h.initialBoard.xSize, h.initialBoard.ySize, s)
    ensures SymHistory(h, s).moves[k].1 == h.moves[k].1 && IsMove(h.moves[k].0, h.initialBoard.xSize, h.initialBoard.ySize)
  {
  }

  lemma {:induction false} PositionTurns<S(!new)>(hs: Hasher<S>, turn: (S, Sym) -> S, h: History, s: Sym, k: nat)
    requires ValidHistory(h) && Allowed(h, s) && k <= |h.moves|
    requires RulesTurn(hs, turn, h.initialBoard.xSize, h.initialBoard.ySize)
    ensures PositionAfter(hs, SymHistory(h, s), k) == turn(PositionAfter(hs, h, k), s)
  {
    hide SymLoc, SymBoard, IsMove, ValidBoard, SymHistory, RulesTurn;
    if k > 0 {
      PositionTurns(hs, turn, h, s, k - 1);
      TurnedMove(h, s, k - 1);
      PlayTurns(hs, turn, h, PositionAfter(hs, h, k - 1), h.moves[k - 1].0, h.moves[k - 1].1, s);
    } else {
      TurnedStart(h, s);
      StartTurns(hs, turn, h, s);
    }
  }

  lemma PlayTurns<S(!new)>(hs: Hasher<S>, turn: (S, Sym) -> S, h: History, st: S, loc: Loc, pla: Player, s: Sym)
    requires RulesTurn(hs, turn, h.initialBoard.xSize, h.initialBoard.ySize) && Allowed(h, s)
    requires IsMove(loc, h.initialBoard.xSize, h.initialBoard.ySize)
    ensures hs.play(turn(st, s), SymLoc(loc, h.initialBoard.xSize, h.initialBoard.ySize, s), pla)
         == turn(hs.play(st, loc, pla), s)
  {
    hide SymLoc, IsMove;
  }

  lemma StartTurns<S(!new)>(hs: Hasher<S>, turn: (S, Sym) -> S, h: History, s: Sym)
    requires ValidHistory(h) && Allowed(h, s)
    requires RulesTurn(hs, turn, h.initialBoard.xSize, h.initialBoard.ySize)
    ensures ValidBoard(h.initialBoard)
    ensures hs.start(SymBoard(h.initialBoard, s)) == turn(hs.start(h.initialBoard), s)
  {
    hide SymLoc, IsMove, SymBoard, ValidBoard;
  }

  lemma TurnedStart(h: History, s: Sym)
    requires ValidHistory(h) && Allowed(h, s)
    ensures SymHistory(h, s).initialBoard == SymBoard(h.initialBoard, s) && ValidBoard(h.initialBoard)
    ensures SymHistory(h, s).nextPla == h.nextPla
  {
  }

  lemma RepeatsTurns<S(!new)>(hs: Hasher<S>, turn: (S, Sym) -> S, h: History, s: Sym, k: nat)
    requires ValidHistory(h) && Allowed(h, s) && k < |h.moves|
    requires RulesTurn(hs, turn, h.initialBoard.xSize, h.initialBoard.ySize)
    ensures Repeats(hs, SymHistory(h, s), k) == Repeats(hs, h, k)
  {
    hide SymLoc, SymBoard, IsMove, ValidBoard, SymHistory, PositionAfter;
    PositionTurns(hs, turn, h, s, k + 1);
    TurnedMove(h, s, k);
  }

  lemma {:induction false} ResetTurns<S(!new)>(hs: Hasher<S>, turn: (S, Sym) -> S, h: History, s: Sym, k: nat)
    requires ValidHistory(h) && Allowed(h, s) && k <= |h.moves|
    requires RulesTurn(hs, turn, h.initialBoard.xSize, h.initialBoard.ySize)
    ensures LastReset(hs, SymHistory(h, s), k) == LastReset(hs, h, k)
  {
    hide Repeats, SymHistory, RulesTurn;
    if k > 0 {
      ResetTurns(hs, turn, h, s, k - 1);
      RepeatsTurns(hs, turn, h, s, k - 1);
    }
  }

  lemma GameTurns<S(!new)>(hs: Hasher<S>, turn: (S, Sym) -> S, h: History, s: Sym)
    requires ValidHistory(h) && Allowed(h, s)
    requires RulesTurn(hs, turn, h.initialBoard.xSize, h.initialBoard.ySize)
    ensures FinalPosition(hs, SymHistory(h, s)) == turn(FinalPosition(hs, h), s) && SymHistory(h, s).nextPla == h.nextPla
    ensures MovesSince(hs, SymHistory(h, s)) == MovesSince(hs, h)
    ensures forall i :: 0 <= i < MovesSince(hs, h) ==> PositionSince(hs, SymHistory(h, s), i) == turn(PositionSince(hs, h, i), s)
  {
    hide PositionAfter, SymHistory, RulesTurn, LastReset;
    TurnedStart(h, s);
    ResetTurns(hs, turn, h, s, |h.moves|);
    PositionTurns(hs, turn, h, s, |h.moves|);
    forall i | 0 <= i < MovesSince(hs, h) ensures PositionSince(hs, SymHistory(h, s), i) == turn(PositionSince(hs, h, i), s) {
      PositionTurns(hs, turn, h, s, LastReset(hs, h, |h.moves|) + i);
    }
  }

  /** Turned games are the same if the games are. */
  lemma SameGameTurns<S(!new)>(hs: Hasher<S>, turn: (S, Sym) -> S, g: History, h: History, s: Sym)
    requires ValidHistory(g) && ValidHistory(h) && Allowed(g, s) && Allowed(h, s) && SameGame(hs, g, h)
    requires RulesTurn(hs, turn, h.initialBoard.xSize, h.initialBoard.ySize)
    requires RulesTurn(hs, turn, g.initialBoard.xSize, g.initialBoard.ySize)
    ensures SameGame(hs, SymHistory(g, s), SymHistory(h, s))
  {
    hide PositionSince, FinalPosition, MovesSince, SymHistory, RulesTurn;
    GameTurns(hs, turn, g, s);
    GameTurns(hs, turn, h, s);
  }

  lemma {:induction false} PositionInExt<S>(hs: Hasher<S>, h: History, loc: Loc, k: nat)
    requires k <= |h.moves|
    ensures PositionAfter(hs, Ext(h, loc), k) == PositionAfter(hs, h, k)
    ensures k < |h.moves| ==> Ext(h, loc).moves[k] == h.moves[k]
  {
    if k > 0 {
      PositionInExt(hs, h, loc, k - 1);
    }
  }

  lemma {:induction false} ResetInExt<S>(hs: Hasher<S>, h: History, loc: Loc, k: nat)
    requires k <= |h.moves|
    ensures LastReset(hs, Ext(h, loc), k) == LastReset(hs, h, k)
  {
    hide PositionAfter, Ext;
    if k > 0 {
      ResetInExt(hs, h, loc, k - 1);
      PositionInExt(hs, h, loc, k - 1);
      PositionInExt(hs, h, loc, k);
    }
  }

  lemma ExtIs<S>(hs: Hasher<S>, h: History, loc: Loc)
    ensures var n, x := |h.moves|, Ext(h, loc);
            && |x.moves| == n + 1 && x.nextPla == Opponent(h.nextPla)
            && FinalPosition(hs, x) == hs.play(FinalPosition(hs, h), loc, h.nextPla)
            && (Repeats(hs, x, n) <==> hs.repeatedTooOften(FinalPosition(hs, x), loc))
            && LastReset(hs, x, n + 1) == if Repeats(hs, x, n) then n + 1 else LastReset(hs, h, n)
  {
    PositionInExt(hs, h, loc, |h.moves|);
    ResetInExt(hs, h, loc, |h.moves|);
  }

  /** So are games that go on with the same move. */
  lemma SameGameGoesOn<S(!new)>(hs: Hasher<S>, g: History, h: History, loc: Loc)
    requires SameGame(hs, g, h)
    ensures SameGame(hs, Ext(g, loc), Ext(h, loc))
  {
    ExtIs(hs, g, loc);
    ExtIs(hs, h, loc);
    hide PositionAfter, LastReset, Repeats, Ext;
    var x, y := Ext(g, loc), Ext(h, loc);
    forall i | 0 <= i < MovesSince(hs, x) ensures PositionSince(hs, x, i) == PositionSince(hs, y, i) {
      PositionInExt(hs, g, loc, LastReset(hs, g, |g.moves|) + i);
      PositionInExt(hs, h, loc, LastReset(hs, h, |h.moves|) + i);
      assert i < MovesSince(hs, g) ==> PositionSince(hs, g, i) == PositionSince(hs, h, i);
    }
  }

  /** With rules that know no directions, a version 2 hash without collisions is faithful. */
  lemma CollisionFreeIsFaithful<S(!new)>(hs: Hasher<S>, turn: (S, Sym) -> S, xSize: nat, ySize: nat)
    requires StatesApart(hs) && MixesApart(hs) && RulesTurn(hs, turn, xSize, ySize)
    ensures Faithful(KeyOf(hs, true), xSize, ySize)
  {
    hide StatesApart, MixesApart, RulesTurn, HashOf, SymHistory, Ext, FinalPosition, PositionSince, MovesSince;
    forall g, h | Sized(g, xSize, ySize) && Sized(h, xSize, ySize) && KeyOf(hs, true)(g) == KeyOf(hs, true)(h)
      ensures g.nextPla == h.nextPla && SameGame(hs, g, h)
    {
      SameHashExactly(hs, g, h);
    }
    forall g, h, s | Sized(g, xSize, ySize) && Sized(h, xSize, ySize) && InGroup(s, xSize, ySize)
                     && KeyOf(hs, true)(g) == KeyOf(hs, true)(h)
      ensures KeyOf(hs, true)(SymHistory(g, s)) == KeyOf(hs, true)(SymHistory(h, s))
    {
      SameGameTurns(hs, turn, g, h, s);
      SameHashExactly(hs, SymHistory(g, s), SymHistory(h, s));
    }
    forall g, h, loc | Sized(g, xSize, ySize) && Sized(h, xSize, ySize) && Playable(loc, xSize, ySize)
                       && KeyOf(hs, true)(g) == KeyOf(hs, true)(h)
      ensures KeyOf(hs, true)(Ext(g, loc)) == KeyOf(hs, true)(Ext(h, loc))
    {
      SameGameGoesOn(hs, g, h, loc);
      SameHashExactly(hs, Ext(g, loc), Ext(h, loc));
    }
  }
}
