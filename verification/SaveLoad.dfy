/**
 Writing a book to a file and reading it back (file version 2 and later), at the level of records.

 Nodes refer to each other by their position in the hash list at the head of the file.
 */
module SaveLoad {
  import opened Util
  import opened Symmetry
  import opened BookData
  import opened CostTasks

  datatype Result<T> = Ok(value: T) | Err(error: string)

  datatype MoveRecord = MoveRecord(m: Loc, sym: Sym, id: nat, rP: real)

  datatype ParentRecord = ParentRecord(id: nat, loc: Loc)

  datatype ValuesRecord = ValuesRecord(
    wl: real, sM: real, ssM: real, wlE: real, sE: real, sStd: real, maxP: real, w: real, v: real)

  datatype NodeRecord = NodeRecord(
    id: nat, pla: Player, syms: seq<Sym>, vals: ValuesRecord, cEx: bool, mvs: seq<MoveRecord>, par: seq<ParentRecord>)

  datatype BookFile = BookFile(initialSymmetry: Sym, hashes: seq<BookHash>, nodes: seq<NodeRecord>)

  /** What the constructor derives from the initial board, rules and player. */
  datatype Start = Start(xSize: nat, ySize: nat, hash: BookHash, pla: Player, symmetries: seq<Sym>,
                         initialSymmetry: Sym)

  // ---------------------------------------------------------------------------------------------
  // Rounding

  /** To the nearest integer, halves away from zero. */
  function RoundHalfAway(x: real): int {
    if x >= 0.0 then (x + 0.5).Floor else -(-x + 0.5).Floor
  }

  function RoundTo(x: real, invMinPrec: real): real
    requires invMinPrec > 0.0
  {
    RoundHalfAway(x * invMinPrec) as real / invMinPrec
  }

  lemma RoundHalfAwayKeeps(n: int)
    ensures RoundHalfAway(n as real) == n
  {
    if n >= 0 {
      assert n as real <= n as real + 0.5 < (n + 1) as real;
    } else {
      assert (-n) as real <= -(n as real) + 0.5 < (-n + 1) as real;
    }
  }

  lemma HalfAwayIsOdd(y: real)
    ensures RoundHalfAway(-y) == -RoundHalfAway(y) && -0.5 <= RoundHalfAway(y) as real - y <= 0.5
  {
  }

  lemma QuotientTimes(a: real, k: real)
    requires k > 0.0
    ensures a / k * k == a
  {
  }

  lemma RoundsTo(x: real, k: real, n: int)
    requires k > 0.0 && x * k == n as real
    ensures RoundTo(x, k) == x
  {
    RoundHalfAwayKeeps(n);
  }

  /** A rounded number is a multiple of the step, at most half a step away, and rounds to itself. */
  lemma RoundToIsNearest(x: real, k: real)
    requires k > 0.0
    ensures RoundTo(x, k) * k == RoundHalfAway(x * k) as real
    ensures -0.5 <= RoundTo(x, k) * k - x * k <= 0.5
    ensures RoundTo(RoundTo(x, k), k) == RoundTo(x, k)
  {
    hide RoundHalfAway;
    var n := RoundHalfAway(x * k);
    QuotientTimes(n as real, k);
    RoundsTo(RoundTo(x, k), k, n);
    HalfAwayIsOdd(x * k);
  }

  function ValuesOut(v: BookValues): ValuesRecord {
    ValuesRecord(
      RoundTo(v.winLossValue, 100000000.0), RoundTo(v.scoreMean, 1000000.0), RoundTo(v.sharpScoreMeanRaw, 1000000.0),
      RoundTo(v.winLossError, 100000000.0), RoundTo(v.scoreError, 1000000.0), RoundTo(v.scoreStdev, 1000000.0),
      v.maxPolicy, RoundTo(v.weight, 1000.0), v.visits)
  }

  function ValuesIn(rec: ValuesRecord): BookValues {
    BookValues(rec.wl, rec.sM, rec.ssM, rec.wlE, rec.sE, rec.sStd, rec.maxP, rec.w, rec.v)
  }

  /** What a file keeps of a node's own values. */
  function RoundValues(v: BookValues): BookValues { ValuesIn(ValuesOut(v)) }

  /** Each value comes back in its own field, off by at most half a rounding step, and stays put from then on. */
  lemma ValuesComeBack(v: BookValues)
    ensures ValuesOut(RoundValues(v)) == ValuesOut(v) && RoundValues(RoundValues(v)) == RoundValues(v)
    ensures var r := RoundValues(v);
            && -0.5 <= (r.winLossValue - v.winLossValue) * 100000000.0 <= 0.5
            && -0.5 <= (r.scoreMean - v.scoreMean) * 1000000.0 <= 0.5
            && -0.5 <= (r.sharpScoreMeanRaw - v.sharpScoreMeanRaw) * 1000000.0 <= 0.5
            && -0.5 <= (r.winLossError - v.winLossError) * 100000000.0 <= 0.5
            && -0.5 <= (r.scoreError - v.scoreError) * 1000000.0 <= 0.5
            && -0.5 <= (r.scoreStdev - v.scoreStdev) * 1000000.0 <= 0.5
            && -0.5 <= (r.weight - v.weight) * 1000.0 <= 0.5
            && r.maxPolicy == v.maxPolicy && r.visits == v.visits
  {
    hide RoundTo;
    RoundToIsNearest(v.winLossValue, 100000000.0);
    RoundToIsNearest(v.scoreMean, 1000000.0);
    RoundToIsNearest(v.sharpScoreMeanRaw, 1000000.0);
    RoundToIsNearest(v.winLossError, 100000000.0);
    RoundToIsNearest(v.scoreError, 1000000.0);
    RoundToIsNearest(v.scoreStdev, 1000000.0);
    RoundToIsNearest(v.weight, 1000.0);
  }

  // ---------------------------------------------------------------------------------------------
  // A book as a value

  /** A book without the recursive bookkeeping: the node order, each node's symmetries and its state. */
  datatype BookImage = BookImage(order: seq<BookHash>, symmetries: map<BookHash, seq<Sym>>, sn: Snapshot)

  /** The list names every node exactly once. */
  ghost predicate Indexes(order: seq<BookHash>, hashes: set<BookHash>) {
    Distinct(order) && (forall h :: h in order <==> h in hashes)
  }

  ghost predicate WellFormed(img: BookImage) {
    Indexes(img.order, img.sn.Keys) && img.symmetries.Keys == img.sn.Keys
  }

  /** Every node that a move or a parent entry refers to is in the book. */
  ghost predicate RefersInside(sn: Snapshot) {
    && (forall h, l :: h in sn && l in sn[h].moves ==> sn[h].moves[l].hash in sn)
    && (forall h, e :: h in sn && e in sn[h].parents ==> e.0 in sn)
  }

  ghost predicate NodeRefersInside(st: NodeState, hashes: set<BookHash>) {
    && (forall l :: l in st.moves ==> st.moves[l].hash in hashes)
    && (forall e :: e in st.parents ==> e.0 in hashes)
  }

  function Positions(order: seq<BookHash>): map<BookHash, nat>
  {
    if order == [] then map[]
    else Positions(order[..|order| - 1])[order[|order| - 1] := |order| - 1]
  }

  lemma {:induction false} PositionsFind(order: seq<BookHash>)
    requires Distinct(order)
    ensures forall h :: h in Positions(order) <==> h in order
    ensures forall i :: 0 <= i < |order| ==> order[i] in Positions(order) && Positions(order)[order[i]] == i
  {
    if order != [] {
      PositionsFind(order[..|order| - 1]);
      assert order == order[..|order| - 1] + [order[|order| - 1]];
    }
  }

  // ---------------------------------------------------------------------------------------------
  // Writing

  function MoveOut(idx: map<BookHash, nat>, move: BookMove): MoveRecord
    requires move.hash in idx
  {
    MoveRecord(move.move, move.symmetryToAlign, idx[move.hash], move.rawPolicy)
  }

  ghost function MovesOut(idx: map<BookHash, nat>, moves: map<Loc, BookMove>, locs: seq<Loc>): (r: seq<MoveRecord>)
    requires forall i :: 0 <= i < |locs| ==> locs[i] in moves && moves[locs[i]].hash in idx
    ensures |r| == |locs| && forall i :: 0 <= i < |r| ==> r[i] == MoveOut(idx, moves[locs[i]])
  {
    seq(|locs|, i requires 0 <= i < |locs| => MoveOut(idx, moves[locs[i]]))
  }

  ghost function ParentsOut(idx: map<BookHash, nat>, parents: seq<(BookHash, Loc)>): (r: seq<ParentRecord>)
    requires forall e :: e in parents ==> e.0 in idx
    ensures |r| == |parents| && forall i :: 0 <= i < |r| ==> r[i] == ParentRecord(idx[parents[i].0], parents[i].1)
  {
    seq(|parents|, i requires 0 <= i < |parents| => ParentRecord(idx[parents[i].0], parents[i].1))
  }

  ghost function NodeOut(idx: map<BookHash, nat>, id: nat, syms: seq<Sym>, st: NodeState): NodeRecord
    requires NodeRefersInside(st, idx.Keys)
  {
    NodeRecord(id, st.inputs.pla, syms, ValuesOut(st.inputs.own), st.inputs.canExpand,
               MovesOut(idx, st.moves, Ascending(st.moves.Keys)), ParentsOut(idx, st.parents))
  }

  /** The node records, in the order of the node list. */
  ghost function NodesOut(img: BookImage): (r: seq<NodeRecord>)
    requires WellFormed(img) && RefersInside(img.sn)
    ensures |r| == |img.order|
  {
    PositionsFind(img.order);
    seq(|img.order|, i requires 0 <= i < |img.order| =>
      NodeOut(Positions(img.order), i, img.symmetries[img.order[i]], img.sn[img.order[i]]))
  }

  // ---------------------------------------------------------------------------------------------
  // Reading

  ghost predicate IdsWithin(rec: NodeRecord, n: nat) {
    && (forall i :: 0 <= i < |rec.mvs| ==> rec.mvs[i].id < n)
    && (forall i :: 0 <= i < |rec.par| ==> rec.par[i].id < n)
  }

  function MoveIn(dict: seq<BookHash>, rec: MoveRecord): BookMove
    requires rec.id < |dict|
  {
    BookMove(rec.m, rec.sym, dict[rec.id], rec.rP, 0.0, false, 0.0)
  }

  /** Later records replace earlier ones for the same location. */
  function MovesIn(dict: seq<BookHash>, moves: map<Loc, BookMove>, recs: seq<MoveRecord>): map<Loc, BookMove>
    requires forall i :: 0 <= i < |recs| ==> recs[i].id < |dict|
  {
    if recs == [] then moves
    else
      var last := recs[|recs| - 1];
      MovesIn(dict, moves, recs[..|recs| - 1])[last.m := MoveIn(dict, last)]
  }

  ghost function ParentsIn(dict: seq<BookHash>, recs: seq<ParentRecord>): (r: seq<(BookHash, Loc)>)
    requires forall i :: 0 <= i < |recs| ==> recs[i].id < |dict|
    ensures |r| == |recs| && forall i :: 0 <= i < |r| ==> r[i] == (dict[recs[i].id], recs[i].loc)
  {
    seq(|recs|, i requires 0 <= i < |recs| => (dict[recs[i].id], recs[i].loc))
  }

  ghost function NodeIn(dict: seq<BookHash>, st: NodeState, rec: NodeRecord): NodeState
    requires IdsWithin(rec, |dict|)
  {
    NodeState(
      NodeInputs(st.inputs.pla, ValuesIn(rec.vals), rec.cEx, st.inputs.canReExpand),
      MovesIn(dict, st.moves, rec.mvs), st.parents + ParentsIn(dict, rec.par), st.values, st.costs, st.flag)
  }

  /** The node a record is about, entered as a new node unless the book has it already. */
  ghost function Entered(img: BookImage, hash: BookHash, rec: NodeRecord): Result<BookImage>
    requires img.symmetries.Keys == img.sn.Keys
  {
    if hash !in img.sn then
      Ok(BookImage(img.order + [hash], img.symmetries[hash := rec.syms], img.sn[hash := FreshState(rec.pla)]))
    else if img.sn[hash].inputs.pla != rec.pla then Err("Inconsistent pla for root node with initialization")
    else if img.symmetries[hash] != rec.syms then Err("Inconsistent symmetries for root node with initialization")
    else Ok(img)
  }

  ghost function RecordIn(dict: seq<BookHash>, img: BookImage, rec: NodeRecord): (r: Result<BookImage>)
    requires img.symmetries.Keys == img.sn.Keys
    ensures r.Ok? ==> r.value.symmetries.Keys == r.value.sn.Keys
  {
    if rec.id >= |dict| then Err("Bad node id")
    else
      match Entered(img, dict[rec.id], rec)
      case Err(e) => Err(e)
      case Ok(with) =>
        if !IdsWithin(rec, |dict|) then Err("Bad node id")
        else Ok(with.(sn := with.sn[dict[rec.id] := NodeIn(dict, with.sn[dict[rec.id]], rec)]))
  }

  ghost function RecordsIn(dict: seq<BookHash>, img: BookImage, recs: seq<NodeRecord>): (r: Result<BookImage>)
    requires img.symmetries.Keys == img.sn.Keys
    ensures r.Ok? ==> r.value.symmetries.Keys == r.value.sn.Keys
  {
    if recs == [] then Ok(img)
    else
      match RecordsIn(dict, img, recs[..|recs| - 1])
      case Err(e) => Err(e)
      case Ok(img') => RecordIn(dict, img', recs[|recs| - 1])
  }

  ghost function Empty(start: Start): BookImage {
    BookImage([start.hash], map[start.hash := start.symmetries], map[start.hash := FreshState(start.pla)])
  }

  /** A file holds no best parents: no node that was read has one yet. */
  lemma {:induction false} ReadBestParents(dict: seq<BookHash>, img: BookImage, recs: seq<NodeRecord>)
    requires img.symmetries.Keys == img.sn.Keys && forall h :: h in img.sn ==> img.sn[h].costs.bestParentIdx == 0
    ensures var r := RecordsIn(dict, img, recs);
            r.Ok? ==> BestParentsOk(r.value.sn) && forall h :: h in r.value.sn ==> r.value.sn[h].costs.bestParentIdx == 0
  {
    hide MovesIn, ParentsIn, ValuesIn, IdsWithin;
    if recs != [] {
      ReadBestParents(dict, img, recs[..|recs| - 1]);
    }
  }

  /** What a file means to a program that derives start from the file's header. */
  ghost function FileIn(start: Start, file: BookFile): Result<BookImage> {
    if file.initialSymmetry != start.initialSymmetry then Err("Inconsistent initial symmetry with initialization")
    else RecordsIn(file.hashes, Empty(start), file.nodes)
  }

  ghost function FileOut(img: BookImage, initialSymmetry: Sym): BookFile
    requires WellFormed(img) && RefersInside(img.sn)
  {
    BookFile(initialSymmetry, img.order, NodesOut(img))
  }

  // ---------------------------------------------------------------------------------------------
  // Reading back what was written

  /** The part of a node that a file keeps; the rest starts afresh and is recomputed. */
  ghost function Kept(st: NodeState): NodeState {
    NodeState(NodeInputs(st.inputs.pla, RoundValues(st.inputs.own), st.inputs.canExpand, true), StrippedMoves(st.moves),
              st.parents, FreshState(st.inputs.pla).values, FreshState(st.inputs.pla).costs, 0)
  }

  ghost predicate KeyedByMove(sn: Snapshot) {
    forall h, l :: h in sn && l in sn[h].moves ==> sn[h].moves[l].move == l
  }

  ghost predicate NodeKeyed(st: NodeState) {
    forall l :: l in st.moves ==> st.moves[l].move == l
  }

  /** A book that was built from the given start, is consistent and lists its root first. */
  ghost predicate Saveable(img: BookImage, start: Start) {
    && WellFormed(img) && RefersInside(img.sn) && KeyedByMove(img.sn)
    && img.order != [] && img.order[0] == start.hash
    && img.sn[start.hash].inputs.pla == start.pla && img.symmetries[start.hash] == start.symmetries
  }

  /** The moves at the given locations can be written, and their ids lead back to their hashes. */
  ghost predicate Writable(order: seq<BookHash>, moves: map<Loc, BookMove>, locs: seq<Loc>) {
    forall i :: 0 <= i < |locs| ==> locs[i] in moves && moves[locs[i]].hash in order && moves[locs[i]].move == locs[i]
  }

  lemma PositionOf(order: seq<BookHash>, h: BookHash)
    requires Distinct(order) && h in order
    ensures h in Positions(order) && Positions(order)[h] < |order| && order[Positions(order)[h]] == h
  {
    hide Distinct, Positions;
    PositionsFind(order);
    var p :| 0 <= p < |order| && order[p] == h;
    assert Positions(order)[order[p]] == p;
  }

  lemma MoveIdsWithin(order: seq<BookHash>, moves: map<Loc, BookMove>, locs: seq<Loc>)
    requires Distinct(order) && Writable(order, moves, locs)
    ensures forall i :: 0 <= i < |locs| ==> locs[i] in moves && moves[locs[i]].hash in Positions(order)
    ensures var recs := MovesOut(Positions(order), moves, locs);
            forall i :: 0 <= i < |recs| ==> recs[i].id < |order| && MoveIn(order, recs[i]) == Stripped(moves[locs[i]])
  {
    hide Distinct, Positions;
    forall i | 0 <= i < |locs|
      ensures moves[locs[i]].hash in Positions(order)
      ensures Positions(order)[moves[locs[i]].hash] < |order|
        && order[Positions(order)[moves[locs[i]].hash]] == moves[locs[i]].hash
    {
      PositionOf(order, moves[locs[i]].hash);
    }
  }

  lemma {:induction false} MovesComeBack(order: seq<BookHash>, moves: map<Loc, BookMove>, locs: seq<Loc>)
    requires Distinct(order) && Writable(order, moves, locs)
    ensures forall i :: 0 <= i < |locs| ==> locs[i] in moves && moves[locs[i]].hash in Positions(order)
    ensures var recs := MovesOut(Positions(order), moves, locs);
            && (forall i :: 0 <= i < |recs| ==> recs[i].id < |order|)
            && var m := MovesIn(order, map[], recs);
               && (forall l :: l in m <==> l in locs)
               && (forall l :: l in m && l in moves ==> m[l] == Stripped(moves[l]))
  {
    hide Distinct, Positions, Stripped, MoveIn;
    MoveIdsWithin(order, moves, locs);
    var recs := MovesOut(Positions(order), moves, locs);
    if locs == [] {
      assert recs == [];
    } else {
      var n := |locs| - 1;
      MovesComeBack(order, moves, locs[..n]);
      assert recs[..n] == MovesOut(Positions(order), moves, locs[..n]);
      assert locs == locs[..n] + [locs[n]];
      assert MoveIn(order, recs[n]) == Stripped(moves[locs[n]]);
      assert recs[n].m == locs[n];
    }
  }

  lemma ParentsComeBack(order: seq<BookHash>, parents: seq<(BookHash, Loc)>)
    requires Distinct(order) && forall e :: e in parents ==> e.0 in order
    ensures forall e :: e in parents ==> e.0 in Positions(order)
    ensures var recs := ParentsOut(Positions(order), parents);
            && (forall i :: 0 <= i < |recs| ==> recs[i].id < |order|)
            && ParentsIn(order, recs) == parents
  {
    hide Distinct, Positions;
    forall e | e in parents
      ensures e.0 in Positions(order) && Positions(order)[e.0] < |order| && order[Positions(order)[e.0]] == e.0
    {
      PositionOf(order, e.0);
    }
    var recs := ParentsOut(Positions(order), parents);
    forall i | 0 <= i < |recs| ensures recs[i].id < |order| && order[recs[i].id] == parents[i].0 {
      assert parents[i] in parents;
    }
  }

  lemma FreshFacts(pla: Player)
    ensures var st := FreshState(pla);
            st.inputs.pla == pla && st.inputs.canReExpand && st.moves == map[] && st.parents == [] && st.flag == 0
  {
  }

  lemma NodeWritable(order: seq<BookHash>, hashes: set<BookHash>, st: NodeState)
    requires Indexes(order, hashes) && NodeKeyed(st) && NodeRefersInside(st, hashes)
    ensures Writable(order, st.moves, Ascending(st.moves.Keys)) && forall e :: e in st.parents ==> e.0 in order
    ensures NodeRefersInside(st, Positions(order).Keys)
  {
    hide Ascending, Positions;
    PositionsFind(order);
    var locs := Ascending(st.moves.Keys);
    assert forall i :: 0 <= i < |locs| ==> locs[i] in locs;
  }

  lemma SameMoves(back: map<Loc, BookMove>, moves: map<Loc, BookMove>)
    requires back.Keys == moves.Keys
    requires forall l :: l in back && l in moves ==> back[l] == Stripped(moves[l])
    ensures back == StrippedMoves(moves)
  {
    hide Stripped;
    var kept := StrippedMoves(moves);
    forall l | l in back ensures l in kept && back[l] == kept[l] {
      assert l in back.Keys;
    }
    forall l | l in kept ensures l in back {
      assert l in kept.Keys;
    }
    assert back == kept;
  }

  lemma MovesAllComeBack(order: seq<BookHash>, moves: map<Loc, BookMove>)
    requires Distinct(order) && Writable(order, moves, Ascending(moves.Keys))
    ensures var locs := Ascending(moves.Keys);
            && (forall i :: 0 <= i < |locs| ==> locs[i] in moves && moves[locs[i]].hash in Positions(order))
            && var recs := MovesOut(Positions(order), moves, locs);
               && (forall i :: 0 <= i < |recs| ==> recs[i].id < |order|)
               && MovesIn(order, map[], recs) == StrippedMoves(moves)
  {
    hide Stripped, Positions, Writable, Distinct, MovesIn, MovesOut, StrippedMoves, Ascending, Increasing;
    var locs := Ascending(moves.Keys);
    MovesComeBack(order, moves, locs);
    var recs := MovesOut(Positions(order), moves, locs);
    assert forall i :: 0 <= i < |recs| ==> recs[i].id < |order|;
    var back := MovesIn(order, map[], recs);
    forall l | l in moves ensures l in back {
      assert l in moves.Keys;
    }
    forall l | l in back ensures l in moves {
      assert l in locs;
    }
    assert back.Keys == moves.Keys;
    SameMoves(back, moves);
  }

  lemma NodeComesBack(order: seq<BookHash>, hashes: set<BookHash>, id: nat, syms: seq<Sym>, st: NodeState)
    requires Indexes(order, hashes) && NodeKeyed(st) && NodeRefersInside(st, hashes)
    ensures NodeRefersInside(st, Positions(order).Keys)
    ensures var rec := NodeOut(Positions(order), id, syms, st);
            IdsWithin(rec, |order|) && NodeIn(order, FreshState(st.inputs.pla), rec) == Kept(st)
  {
    hide ValuesOut, ValuesIn, Positions, FreshState, Ascending, Writable, NodeKeyed, Distinct, MovesOut, ParentsOut,
         MovesIn, ParentsIn, StrippedMoves;
    NodeWritable(order, hashes, st);
    MovesAllComeBack(order, st.moves);
    ParentsComeBack(order, st.parents);
    FreshFacts(st.inputs.pla);
  }

  // ---------------------------------------------------------------------------------------------
  // Whole books

  ghost function SymmetriesAt(img: BookImage, hashes: set<BookHash>): map<BookHash, seq<Sym>>
    requires hashes <= img.symmetries.Keys
  {
    map h | h in hashes :: img.symmetries[h]
  }

  ghost function KeptAt(sn: Snapshot, hashes: set<BookHash>): Snapshot
    requires hashes <= sn.Keys
  {
    map h | h in hashes :: Kept(sn[h])
  }

  ghost function First(order: seq<BookHash>, k: nat): set<BookHash>
    requires k <= |order|
  {
    set h | h in order[..k]
  }

  lemma FirstGrows(order: seq<BookHash>, hashes: set<BookHash>, k: nat)
    requires Indexes(order, hashes) && k <= |order|
    ensures First(order, k) <= hashes && First(order, |order|) == hashes
    ensures k < |order| ==>
              order[k] in hashes && order[k] !in First(order, k) && First(order, k + 1) == First(order, k) + {order[k]}
              && order[..k + 1] == order[..k] + [order[k]]
  {
    assert order[..|order|] == order;
    forall h | h in order[..k] ensures h in order {
    }
    if k < |order| {
      assert order[k] in order;
      assert order[..k + 1] == order[..k] + [order[k]];
    }
  }

  /** What a file keeps of a whole book. */
  ghost function Restored(img: BookImage): BookImage
    requires img.symmetries.Keys == img.sn.Keys
  {
    BookImage(img.order, img.symmetries, KeptAt(img.sn, img.sn.Keys))
  }

  /** The book after the first k records of its file have been read. */
  ghost function ReadSoFar(img: BookImage, start: Start, k: nat): (r: BookImage)
    requires WellFormed(img) && k <= |img.order|
    ensures r.symmetries.Keys == r.sn.Keys
  {
    if k == 0 then Empty(start)
    else
      FirstGrows(img.order, img.sn.Keys, k);
      var done := First(img.order, k);
      BookImage(img.order[..k], SymmetriesAt(img, done), KeptAt(img.sn, done))
  }

  lemma RecordAt(img: BookImage, start: Start, k: nat)
    requires Saveable(img, start) && k < |img.order|
    ensures img.order[k] in img.sn && img.order[k] in img.symmetries
    ensures NodeKeyed(img.sn[img.order[k]]) && NodeRefersInside(img.sn[img.order[k]], img.sn.Keys)
    ensures NodeRefersInside(img.sn[img.order[k]], Positions(img.order).Keys)
    ensures NodesOut(img)[k] == NodeOut(Positions(img.order), k, img.symmetries[img.order[k]], img.sn[img.order[k]])
  {
    hide Positions, NodeOut, Distinct;
    assert img.order[k] in img.order;
    PositionsFind(img.order);
  }

  /** What entering the node of the k-th record does to the book read so far. */
  ghost function WithNode(img: BookImage, start: Start, k: nat): (r: BookImage)
    requires Saveable(img, start) && k < |img.order|
    ensures r.symmetries.Keys == r.sn.Keys
  {
    RecordAt(img, start, k);
    var before := ReadSoFar(img, start, k);
    var hash := img.order[k];
    if k == 0 then before
    else BookImage(before.order + [hash], before.symmetries[hash := img.symmetries[hash]],
                   before.sn[hash := FreshState(img.sn[hash].inputs.pla)])
  }

  lemma NodeEnters(img: BookImage, start: Start, k: nat)
    requires Saveable(img, start) && k < |img.order|
    ensures Entered(ReadSoFar(img, start, k), img.order[k], NodesOut(img)[k]) == Ok(WithNode(img, start, k))
    ensures img.order[k] in img.sn && img.order[k] in WithNode(img, start, k).sn
    ensures WithNode(img, start, k).sn[img.order[k]] == FreshState(img.sn[img.order[k]].inputs.pla)
  {
    hide NodesOut, Positions, Ascending, Kept, FreshState, Distinct, RefersInside, KeyedByMove;
    RecordAt(img, start, k);
    FirstGrows(img.order, img.sn.Keys, k);
    FreshFacts(start.pla);
  }

  lemma PartsGrow(img: BookImage, done: set<BookHash>, hash: BookHash)
    requires img.symmetries.Keys == img.sn.Keys && done <= img.sn.Keys && hash in img.sn
    ensures SymmetriesAt(img, done + {hash}) == SymmetriesAt(img, done)[hash := img.symmetries[hash]]
    ensures KeptAt(img.sn, done + {hash}) == KeptAt(img.sn, done)[hash := Kept(img.sn[hash])]
  {
    hide Kept;
  }

  lemma NodeFilled(img: BookImage, start: Start, k: nat)
    requires Saveable(img, start) && k < |img.order|
    ensures img.order[k] in img.sn
    ensures var with := WithNode(img, start, k);
            with.(sn := with.sn[img.order[k] := Kept(img.sn[img.order[k]])]) == ReadSoFar(img, start, k + 1)
  {
    hide Kept, FreshState, Distinct, RefersInside, KeyedByMove, SymmetriesAt, KeptAt, First, NodesOut, Positions,
         Ascending;
    FirstGrows(img.order, img.sn.Keys, k);
    PartsGrow(img, First(img.order, k), img.order[k]);
    if k == 0 {
      FirstGrows(img.order, img.sn.Keys, 1);
      RootFilled(img, start);
    } else {
      TwoUpdates(ReadSoFar(img, start, k).sn, img.order[k], FreshState(img.sn[img.order[k]].inputs.pla),
                 Kept(img.sn[img.order[k]]));
    }
  }

  lemma TwoUpdates(sn: Snapshot, h: BookHash, a: NodeState, b: NodeState)
    ensures sn[h := a][h := b] == sn[h := b]
  {
  }

  lemma RootFilled(img: BookImage, start: Start)
    requires Saveable(img, start)
    ensures start.hash in img.sn && {start.hash} <= img.sn.Keys && First(img.order, 1) == {start.hash}
    ensures SymmetriesAt(img, {start.hash}) == map[start.hash := img.symmetries[start.hash]]
    ensures KeptAt(img.sn, {start.hash}) == map[start.hash := Kept(img.sn[start.hash])]
    ensures img.order[..1] == [start.hash]
  {
    hide Kept, Distinct, RefersInside, KeyedByMove;
    assert img.order[0] in img.order;
    assert img.order[..1] == [start.hash];
  }

  /** Reading the k-th record of a saved book restores the k-th node and leaves the others alone. */
  lemma RecordComesBack(img: BookImage, start: Start, k: nat)
    requires Saveable(img, start) && k < |img.order|
    ensures RecordIn(img.order, ReadSoFar(img, start, k), NodesOut(img)[k]) == Ok(ReadSoFar(img, start, k + 1))
  {
    hide NodeIn, Kept, FreshState, NodeKeyed, NodeRefersInside, NodesOut, IdsWithin, Entered, ReadSoFar, WithNode,
         Positions, RefersInside, KeyedByMove, Distinct, MovesOut, ParentsOut, ValuesOut, Ascending;
    RecordAt(img, start, k);
    var hash := img.order[k];
    NodeComesBack(img.order, img.sn.Keys, k, img.symmetries[hash], img.sn[hash]);
    NodeEnters(img, start, k);
    NodeFilled(img, start, k);
  }

  lemma {:induction false} RecordsComeBack(img: BookImage, start: Start, k: nat)
    requires Saveable(img, start) && k <= |img.order|
    ensures RecordsIn(img.order, Empty(start), NodesOut(img)[..k]) == Ok(ReadSoFar(img, start, k))
  {
    hide RecordIn, NodesOut, Empty, WellFormed, RefersInside, KeyedByMove;
    if k > 0 {
      RecordsComeBack(img, start, k - 1);
      RecordComesBack(img, start, k - 1);
      assert NodesOut(img)[..k][..k - 1] == NodesOut(img)[..k - 1];
    }
  }

  /**
   Reading a saved book succeeds and restores the node order and, at every node, the player, the
   symmetries, the moves, the parents and whether it can be expanded; its own values come back rounded.
   */
  lemma LoadRestoresBook(img: BookImage, start: Start)
    requires Saveable(img, start)
    ensures FileIn(start, FileOut(img, start.initialSymmetry)) == Ok(Restored(img))
    ensures var back := Restored(img);
            && back.order == img.order && back.symmetries == img.symmetries && back.sn.Keys == img.sn.Keys
            && forall h :: h in img.sn ==> NodeRestored(img.sn[h], back.sn[h])
  {
    hide RecordsIn, NodesOut, Kept, Empty, RefersInside, KeyedByMove, NodeRestored, Distinct;
    var n := |img.order|;
    RecordsComeBack(img, start, n);
    FirstGrows(img.order, img.sn.Keys, n);
    assert NodesOut(img)[..n] == NodesOut(img);
    assert img.order[..n] == img.order;
    assert SymmetriesAt(img, img.sn.Keys) == img.symmetries;
    forall h | h in img.sn ensures NodeRestored(img.sn[h], Kept(img.sn[h])) {
      KeptIsRestored(img.sn[h]);
    }
  }

  ghost predicate NodeRestored(st: NodeState, st': NodeState) {
    && st'.inputs.pla == st.inputs.pla && st'.inputs.canExpand == st.inputs.canExpand
    && st'.inputs.own == RoundValues(st.inputs.own)
    && st'.parents == st.parents && st'.moves.Keys == st.moves.Keys
    && forall l :: l in st.moves ==>
         && st'.moves[l].hash == st.moves[l].hash && st'.moves[l].move == st.moves[l].move
         && st'.moves[l].symmetryToAlign == st.moves[l].symmetryToAlign && st'.moves[l].rawPolicy == st.moves[l].rawPolicy
  }

  lemma KeptIsRestored(st: NodeState)
    ensures NodeRestored(st, Kept(st)) && Kept(st).inputs.canReExpand && Kept(st).flag == 0
  {
    hide RoundValues, StrippedMoves;
  }

  lemma NodeOutOnce(idx: map<BookHash, nat>, id: nat, syms: seq<Sym>, st: NodeState)
    requires NodeRefersInside(st, idx.Keys)
    ensures NodeRefersInside(Kept(st), idx.Keys) && NodeOut(idx, id, syms, Kept(st)) == NodeOut(idx, id, syms, st)
  {
    hide ValuesOut, RoundValues, FreshState, Ascending, StrippedMoves;
    ValuesComeBack(st.inputs.own);
    MovesOutOnce(idx, st.moves, Ascending(st.moves.Keys));
  }

  lemma MovesOutOnce(idx: map<BookHash, nat>, moves: map<Loc, BookMove>, locs: seq<Loc>)
    requires forall i :: 0 <= i < |locs| ==> locs[i] in moves && moves[locs[i]].hash in idx
    ensures MovesOut(idx, StrippedMoves(moves), locs) == MovesOut(idx, moves, locs)
  {
  }

  lemma KeptOnce(st: NodeState)
    ensures Kept(Kept(st)) == Kept(st)
  {
    hide RoundValues, FreshState, StrippedMoves;
    ValuesComeBack(st.inputs.own);
    SameMoves(StrippedMoves(st.moves), StrippedMoves(st.moves));
  }

  /** What was read back can be saved again, and the second file is the first. */
  lemma SaveAgainIsSame(img: BookImage, start: Start)
    requires Saveable(img, start)
    ensures Saveable(Restored(img), start) && Restored(Restored(img)) == Restored(img)
    ensures FileOut(Restored(img), start.initialSymmetry) == FileOut(img, start.initialSymmetry)
  {
    hide NodeOut, RoundValues, Positions, Distinct;
    RestoredIsSaveable(img, start);
    var back := Restored(img);
    forall k | 0 <= k < |img.order| ensures NodesOut(back)[k] == NodesOut(img)[k] {
      RecordAt(img, start, k);
      RecordAt(back, start, k);
      NodeOutOnce(Positions(img.order), k, img.symmetries[img.order[k]], img.sn[img.order[k]]);
    }
    assert NodesOut(back) == NodesOut(img);
    forall h | h in img.sn ensures Kept(Kept(img.sn[h])) == Kept(img.sn[h]) {
      KeptOnce(img.sn[h]);
    }
  }

  lemma RestoredIsSaveable(img: BookImage, start: Start)
    requires Saveable(img, start)
    ensures Saveable(Restored(img), start)
  {
    hide RoundValues, Distinct, StrippedMoves;
  }

  /** A consistent book stays consistent, rooted and acyclic through a file, so that it can be recomputed. */
  lemma GraphComesBack(img: BookImage, start: Start, depth: map<BookHash, nat>, rank: map<BookHash, nat>)
    requires Saveable(img, start) && Linked(img.sn, start.hash)
    ensures Linked(Restored(img).sn, start.hash) && FlagsBelow(Restored(img).sn, 1)
    ensures RootedBy(img.sn, start.hash, depth) ==> RootedBy(Restored(img).sn, start.hash, depth)
    ensures AcyclicBy(img.sn, rank) ==> AcyclicBy(Restored(img).sn, rank)
  {
    assert forall st :: Kept(st).costs.bestParentIdx == 0;
    hide RoundValues, StrippedMoves, FreshState, Saveable;
  }
}
