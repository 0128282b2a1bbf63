/**
 The way a node was reached when it was expanded, told on snapshots: a path of stored moves from the
 root, whether its moves may be played, and the history they make.
 */
module Routes {
  import opened Util
  import opened Symmetry
  import opened BookData
  import opened BookViews
  import opened Hashing
  import opened Paths
  import opened BookWalks
  import opened Visits

  /** The nodes from the root down, the moves between them as stored, and their alignments. */
  datatype Route = Route(hashes: seq<BookHash>, moves: seq<Loc>, aligns: seq<Sym>)

  ghost predicate SizesFit(rt: Route) {
    |rt.moves| == |rt.hashes| == |rt.aligns| + 1
  }

  ghost predicate RouteStep(sn: Snapshot, rt: Route, k: nat)
    requires SizesFit(rt) && k < |rt.aligns|
  {
    && rt.hashes[k] in sn && rt.moves[k] in sn[rt.hashes[k]].moves
    && var m := sn[rt.hashes[k]].moves[rt.moves[k]];
       m.hash == rt.hashes[k + 1] && m.symmetryToAlign == rt.aligns[k]
  }

  ghost predicate BestChain(sn: Snapshot, rt: Route)
    requires SizesFit(rt)
  {
    forall k :: 0 <= k < |rt.aligns| ==> IsBestParent(sn, rt.hashes[k + 1], rt.hashes[k], rt.moves[k])
  }

  /** A path of stored moves from the root to the node; without cycles it is the chain of best parents. */
  ghost predicate RouteOk(b: Book, sn: Snapshot, h: BookHash, rt: Route) {
    && SizesFit(rt) && rt.hashes[0] == b.root.hash && rt.hashes[|rt.aligns|] == h
    && (forall k :: 0 <= k < |rt.aligns| ==> RouteStep(sn, rt, k))
    && ((exists rank :: AcyclicBy(sn, rank)) ==> BestChain(sn, rt))
  }

  /** Each of its moves, turned into the frame of the view, may be played after those before it. */
  ghost predicate MayBePlayed(b: Book, rules: Rules, sym: Sym, rt: Route) {
    SizesFit(rt) && forall k :: 0 <= k < |rt.aligns| ==> LegalAt(b, rt.moves, rt.aligns, sym, rules.replayable, k)
  }

  /** The history that plays these moves from the initial position turned into the frame of the view. */
  ghost predicate HistoryOf(b: Book, rules: Rules, sym: Sym, rt: Route, h: History) {
    && SizesFit(rt)
    && Replays(b, rules.initial, FrameFrom(rt.aligns, sym, 0), PlayedUpTo(b, rt.moves, rt.aligns, sym, |rt.aligns|), h)
  }

  function HashesAlong(path: seq<BookNode>): (hs: seq<BookHash>)
    ensures |hs| == |path| && forall i :: 0 <= i < |path| ==> hs[i] == path[i].hash
  {
    seq(|path|, i requires 0 <= i < |path| => path[i].hash)
  }

  lemma PathStep(b: Book, path: seq<BookNode>, moves: seq<Loc>, aligns: seq<Sym>, k: nat)
    requires b.Indexed() && DownPath(b, path, moves) && AlignsAre(b, path, moves, aligns) && |moves| == |path|
    requires k < |aligns|
    ensures RouteStep(b.Snapshot(), Route(HashesAlong(path), moves, aligns), k)
  {
    hide Book.Snapshot;
    assert path[k] in b.nodes && StepDown(b, path[k], moves[k], path[k + 1]);
    b.Has(path[k]);
  }

  /** A way down through the book's nodes is a route in its snapshot. */
  lemma PathIsRoute(b: Book, path: seq<BookNode>, moves: seq<Loc>, aligns: seq<Sym>, rank: map<BookHash, nat>)
    requires b.Indexed() && DownPath(b, path, moves) && AlignsAre(b, path, moves, aligns) && path[0] == b.root
    requires (exists r :: AcyclicBy(b.Snapshot(), r)) ==> AcyclicBy(b.Snapshot(), rank)
    requires AcyclicBy(b.Snapshot(), rank) ==> forall i, j :: 0 <= i && j == i + 1 && j < |path| ==>
               IsBestParent(b.Snapshot(), path[j].hash, path[i].hash, moves[i])
    ensures |path| > 0 && RouteOk(b, b.Snapshot(), path[|path| - 1].hash, Route(HashesAlong(path), moves, aligns))
  {
    PathSizes(b, path, moves, aligns);
    var rt := Route(HashesAlong(path), moves, aligns);
    hide Book.Snapshot, IsBestParent, DownPath, AlignsAre, RouteStep, AcyclicBy;
    forall k | 0 <= k < |aligns| ensures RouteStep(b.Snapshot(), rt, k) {
      PathStep(b, path, moves, aligns, k);
    }
    if exists r :: AcyclicBy(b.Snapshot(), r) {
      forall k | 0 <= k < |aligns| ensures IsBestParent(b.Snapshot(), rt.hashes[k + 1], rt.hashes[k], rt.moves[k]) {
      }
    }
  }

  lemma PlayedIs(b: Book, moves: seq<Loc>, aligns: seq<Sym>, sym: Sym, played: seq<Loc>)
    requires Played(b, moves, aligns, sym, played)
    ensures played == PlayedUpTo(b, moves, aligns, sym, |aligns|)
  {
    hide SymLoc, FrameFrom;
  }

  /** The j-th step from the end. */
  ghost predicate SameFromEnd(rt: Route, rt': Route, j: nat) {
    && SizesFit(rt) && SizesFit(rt') && 0 < j <= |rt.aligns| && j <= |rt'.aligns|
    && rt.moves[|rt.aligns| - j] == rt'.moves[|rt'.aligns| - j] && rt.aligns[|rt.aligns| - j] == rt'.aligns[|rt'.aligns| - j]
    && rt.hashes[|rt.aligns| - j] == rt'.hashes[|rt'.aligns| - j]
  }

  lemma {:induction false} TailsAgree(b: Book, sn: Snapshot, h: BookHash, rt: Route, rt': Route,
                                      rank: map<BookHash, nat>, k: nat)
    requires AcyclicBy(sn, rank) && RouteOk(b, sn, h, rt) && RouteOk(b, sn, h, rt') && k <= |rt.aligns|
    requires k <= |rt'.aligns|
    ensures rt.hashes[|rt.aligns| - k] == rt'.hashes[|rt'.aligns| - k]
    ensures forall j :: 0 < j <= k ==> SameFromEnd(rt, rt', j)
    decreases k
  {
    hide AcyclicBy;
    if k > 0 {
      TailsAgree(b, sn, h, rt, rt', rank, k - 1);
      var i, i' := |rt.aligns| - k, |rt'.aligns| - k;
      assert BestChain(sn, rt) && BestChain(sn, rt');
      assert IsBestParent(sn, rt.hashes[i + 1], rt.hashes[i], rt.moves[i]);
      assert IsBestParent(sn, rt'.hashes[i' + 1], rt'.hashes[i'], rt'.moves[i']);
      assert RouteStep(sn, rt, i) && RouteStep(sn, rt', i');
    }
  }

  lemma {:induction false} RankFalls(sn: Snapshot, rt: Route, rank: map<BookHash, nat>, k: nat)
    requires AcyclicBy(sn, rank) && SizesFit(rt) && 0 < k <= |rt.aligns|
    requires forall i :: 0 <= i < |rt.aligns| ==> RouteStep(sn, rt, i)
    ensures rt.hashes[0] in rank && rt.hashes[k] in rank && rank[rt.hashes[k]] < rank[rt.hashes[0]]
    decreases k
  {
    var i := k - 1;
    assert RouteStep(sn, rt, i) && rt.hashes[i + 1] == rt.hashes[k];
    var h, loc := rt.hashes[i], rt.moves[i];
    assert h in sn && loc in sn[h].moves;
    assert sn[h].moves[loc].hash in rank && rank[sn[h].moves[loc].hash] < rank[h];
    if k > 1 {
      RankFalls(sn, rt, rank, k - 1);
    }
  }

  lemma NotShorter(b: Book, sn: Snapshot, h: BookHash, rt: Route, rt': Route, rank: map<BookHash, nat>)
    requires AcyclicBy(sn, rank) && RouteOk(b, sn, h, rt) && RouteOk(b, sn, h, rt')
    ensures |rt.aligns| >= |rt'.aligns|
  {
    hide AcyclicBy, RouteStep, BestChain;
    var n, n' := |rt.aligns|, |rt'.aligns|;
    if n < n' {
      TailsAgree(b, sn, h, rt, rt', rank, n);
      RankFalls(sn, rt', rank, n' - n);
    }
  }

  /** On a book without cycles there is only one route to a node, so nothing is left to choose. */
  lemma RoutesAgree(b: Book, sn: Snapshot, h: BookHash, rt: Route, rt': Route, rank: map<BookHash, nat>)
    requires AcyclicBy(sn, rank) && RouteOk(b, sn, h, rt) && RouteOk(b, sn, h, rt')
    requires rt.moves[|rt.aligns|] == rt'.moves[|rt'.aligns|]   // the last entry is not used
    ensures rt == rt'
  {
    NotShorter(b, sn, h, rt, rt', rank);
    NotShorter(b, sn, h, rt', rt, rank);
    var n := |rt.aligns|;
    TailsAgree(b, sn, h, rt, rt', rank, n);
    hide AcyclicBy, RouteStep, BestChain;
    forall i | 0 <= i < n
      ensures rt.hashes[i] == rt'.hashes[i] && rt.moves[i] == rt'.moves[i] && rt.aligns[i] == rt'.aligns[i]
    {
      assert SameFromEnd(rt, rt', n - i);
    }
  }
}
