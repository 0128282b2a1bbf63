/** saveToStream and loadFromStream on the book's own objects, and the recomputation after loading. */
module BookFiles {
  import opened Util
  import opened Symmetry
  import opened BookData
  import opened SaveLoad

  ghost function SymmetriesOf(b: Book): (m: map<BookHash, seq<Sym>>)
    requires b.Indexed()
    reads b`nodes, b`nodeIdx
    ensures m.Keys == b.nodeIdx.Keys
  {
    map h | h in b.nodeIdx :: b.Get(h).symmetries
  }

  ghost function ImageOf(b: Book): (img: BookImage)
    requires b.Indexed()
    reads b`nodes, b`nodeIdx, b.nodes
    ensures img.order == HashesOf(b.nodes) && img.symmetries == SymmetriesOf(b) && img.sn == b.Snapshot()
  {
    BookImage(HashesOf(b.nodes), SymmetriesOf(b), b.Snapshot())
  }

  lemma IndexIsPositions(b: Book)
    requires b.Indexed()
    ensures WellFormed(ImageOf(b)) && Positions(HashesOf(b.nodes)) == b.nodeIdx
  {
    hide Positions, Book.Snapshot;
    var order := HashesOf(b.nodes);
    forall h | h in b.nodeIdx ensures h in order {
      assert order[b.nodeIdx[h]] == h;
    }
    PositionsFind(order);
    forall h | h in b.nodeIdx ensures h in Positions(order) && Positions(order)[h] == b.nodeIdx[h] {
      assert order[b.nodeIdx[h]] == h;
    }
    assert Positions(order) == b.nodeIdx;
  }

  // ---------------------------------------------------------------------------------------------
  // Saving

  method SaveMoves(idx: map<BookHash, nat>, moves: map<Loc, BookMove>) returns (r: Option<seq<MoveRecord>>)
    ensures r.Some? <==> forall l :: l in moves ==> moves[l].hash in idx
    ensures r.Some? ==>
              (forall i :: 0 <= i < |Ascending(moves.Keys)| ==> Ascending(moves.Keys)[i] in moves)
              && r.value == MovesOut(idx, moves, Ascending(moves.Keys))
  {
    hide Ascending, Increasing;
    var locs := Ascending(moves.Keys);
    assert forall i :: 0 <= i < |locs| ==> locs[i] in locs;
    var recs := [];
    for i := 0 to |locs|
      invariant |recs| == i
      invariant forall j :: 0 <= j < i ==> moves[locs[j]].hash in idx && recs[j] == MoveOut(idx, moves[locs[j]])
    {
      if moves[locs[i]].hash !in idx {
        ghost var l := locs[i];
        assert l in moves && moves[l].hash !in idx;
        return None;
      }
      recs := recs + [MoveOut(idx, moves[locs[i]])];
    }
    forall l | l in moves ensures moves[l].hash in idx {
      assert l in moves.Keys;
    }
    r := Some(recs);
  }

  method SaveParents(idx: map<BookHash, nat>, parents: seq<(BookHash, Loc)>) returns (r: Option<seq<ParentRecord>>)
    ensures r.Some? <==> forall e :: e in parents ==> e.0 in idx
    ensures r.Some? ==> r.value == ParentsOut(idx, parents)
  {
    var recs := [];
    for i := 0 to |parents|
      invariant |recs| == i
      invariant forall j :: 0 <= j < i ==> parents[j].0 in idx && recs[j] == ParentRecord(idx[parents[j].0], parents[j].1)
    {
      if parents[i].0 !in idx {
        assert parents[i] in parents;
        return None;
      }
      recs := recs + [ParentRecord(idx[parents[i].0], parents[i].1)];
    }
    r := Some(recs);
  }

  method SaveNode(idx: map<BookHash, nat>, id: nat, node: BookNode) returns (r: Option<NodeRecord>)
    ensures r.Some? <==> NodeRefersInside(node.State(), idx.Keys)
    ensures r.Some? ==> r.value == NodeOut(idx, id, node.symmetries, node.State())
  {
    hide ValuesOut, MovesOut, ParentsOut, Ascending;
    var mvs := SaveMoves(idx, node.moves);
    var par := SaveParents(idx, node.parents);
    if mvs == None || par == None {
      return None;
    }
    r := Some(NodeRecord(id, node.pla, node.symmetries, ValuesOut(node.thisValuesNotInBook), node.canExpand, mvs.value,
                         par.value));
  }

  ghost predicate NodesSaved(b: Book, recs: seq<NodeRecord>)
    reads b`nodes, b`nodeIdx, b.nodes
  {
    && |recs| <= |b.nodes|
    && forall i :: 0 <= i < |recs| ==>
         NodeRefersInside(b.nodes[i].State(), b.nodeIdx.Keys)
         && recs[i] == NodeOut(b.nodeIdx, i, b.nodes[i].symmetries, b.nodes[i].State())
  }

  /** Saving fails exactly when some node refers to a hash that is not in the book. */
  method SaveToStream(b: Book) returns (r: Result<BookFile>)
    requires b.Indexed()
    ensures r.Ok? <==> RefersInside(b.Snapshot())
    ensures r.Ok? ==> WellFormed(ImageOf(b)) && r.value == FileOut(ImageOf(b), b.initialSymmetry)
  {
    hide NodeRefersInside, NodeOut, RefersInside, Book.Indexed, Book.Snapshot, FileOut;
    var hashes := [];
    for i := 0 to |b.nodes|
      invariant hashes == HashesOf(b.nodes[..i])
    {
      hashes := hashes + [b.nodes[i].hash];
    }
    assert b.nodes[..|b.nodes|] == b.nodes;
    var recs := [];
    for i := 0 to |b.nodes|
      invariant |recs| == i && NodesSaved(b, recs)
    {
      var rec := SaveNode(b.nodeIdx, i, b.nodes[i]);
      if rec == None {
        NodeRefers(b, b.nodes[i]);
        return Err("Node idx not found for hash");
      }
      recs := recs + [rec.value];
    }
    IndexIsPositions(b);
    AllNodesSaved(b, recs);
    r := Ok(BookFile(b.initialSymmetry, hashes, recs));
  }

  lemma NodeRefers(b: Book, node: BookNode)
    requires b.Indexed() && node in b.nodes
    ensures RefersInside(b.Snapshot()) ==> NodeRefersInside(node.State(), b.nodeIdx.Keys)
  {
    b.Has(node);
  }

  lemma AllNodesSaved(b: Book, recs: seq<NodeRecord>)
    requires b.Indexed() && |recs| == |b.nodes| && NodesSaved(b, recs) && WellFormed(ImageOf(b))
    ensures RefersInside(b.Snapshot())
    ensures FileOut(ImageOf(b), b.initialSymmetry) == BookFile(b.initialSymmetry, HashesOf(b.nodes), recs)
  {
    hide NodeOut, Positions, WellFormed, Book.Snapshot;
    IndexIsPositions(b);
    forall h | h in b.Snapshot() ensures NodeRefersInside(b.Snapshot()[h], b.nodeIdx.Keys) {
      b.At(h);
      assert b.nodes[b.nodeIdx[h]] == b.Get(h);
    }
    assert RefersInside(b.Snapshot());
    forall i | 0 <= i < |recs| ensures recs[i] == NodesOut(ImageOf(b))[i] {
      b.Has(b.nodes[i]);
    }
    assert recs == NodesOut(ImageOf(b));
  }

  // ---------------------------------------------------------------------------------------------
  // Loading

  method LoadMoves(node: BookNode, dict: seq<BookHash>, recs: seq<MoveRecord>) returns (ok: bool)
    modifies node`moves
    ensures ok <==> forall i :: 0 <= i < |recs| ==> recs[i].id < |dict|
    ensures ok ==> node.moves == MovesIn(dict, old(node.moves), recs)
  {
    for i := 0 to |recs|
      invariant forall j :: 0 <= j < i ==> recs[j].id < |dict|
      invariant node.moves == MovesIn(dict, old(node.moves), recs[..i])
    {
      if recs[i].id >= |dict| {
        return false;
      }
      assert recs[..i + 1][..i] == recs[..i];
      node.moves := node.moves[recs[i].m := MoveIn(dict, recs[i])];
    }
    assert recs[..|recs|] == recs;
    ok := true;
  }

  method LoadParents(node: BookNode, dict: seq<BookHash>, recs: seq<ParentRecord>) returns (ok: bool)
    modifies node`parents
    ensures ok <==> forall i :: 0 <= i < |recs| ==> recs[i].id < |dict|
    ensures ok ==> node.parents == old(node.parents) + ParentsIn(dict, recs)
  {
    for i := 0 to |recs|
      invariant forall j :: 0 <= j < i ==> recs[j].id < |dict|
      invariant node.parents == old(node.parents) + ParentsIn(dict, recs[..i])
    {
      if recs[i].id >= |dict| {
        return false;
      }
      assert ParentsIn(dict, recs[..i + 1]) == ParentsIn(dict, recs[..i]) + [(dict[recs[i].id], recs[i].loc)];
      node.parents := node.parents + [(dict[recs[i].id], recs[i].loc)];
    }
    assert recs[..|recs|] == recs;
    ok := true;
  }

  method LoadNode(node: BookNode, dict: seq<BookHash>, rec: NodeRecord) returns (ok: bool)
    modifies node
    ensures ok <==> IdsWithin(rec, |dict|)
    ensures ok ==> node.State() == NodeIn(dict, old(node.State()), rec)
  {
    hide ValuesIn, MovesIn, ParentsIn;
    node.thisValuesNotInBook := ValuesIn(rec.vals);
    node.sharpScoreMeanClamped := node.thisValuesNotInBook.sharpScoreMeanRaw;
    node.canExpand := rec.cEx;
    ok := LoadMoves(node, dict, rec.mvs);
    if ok {
      ok := LoadParents(node, dict, rec.par);
    }
  }

  method AddNode(b: Book, hash: BookHash, pla: Player, symmetries: seq<Sym>) returns (node: BookNode)
    requires b.Indexed() && hash !in b.nodeIdx
    modifies b`nodes, b`nodeIdx
    ensures b.Indexed() && hash in b.nodeIdx && node == b.Get(hash) && fresh(node) && b.nodes == old(b.nodes) + [node]
    ensures ImageOf(b) == BookImage(old(ImageOf(b)).order + [hash], old(ImageOf(b)).symmetries[hash := symmetries],
                                    old(b.Snapshot())[hash := FreshState(pla)])
  {
    hide FreshState, Book.Snapshot, HashesOf;
    node := new BookNode(hash, pla, symmetries);
    var suc := b.Add(node);
    b.AddedAt(node);
    HashesGrow(old(b.nodes), node);
    assert SymmetriesOf(b) == old(SymmetriesOf(b))[hash := symmetries];
  }

  /** Find the node a record is about, or make it; an existing node must agree with the record. */
  method EnterNode(b: Book, hash: BookHash, rec: NodeRecord) returns (r: Result<BookNode>)
    requires b.Indexed()
    modifies b`nodes, b`nodeIdx
    ensures b.Indexed() && (r.Ok? ==> hash in b.nodeIdx && r.value == b.Get(hash))
    ensures forall n :: n in b.nodes ==> n in old(b.nodes) || fresh(n)
    ensures r.Ok? <==> Entered(old(ImageOf(b)), hash, rec).Ok?
    ensures r.Ok? ==> Entered(old(ImageOf(b)), hash, rec) == Ok(ImageOf(b))
  {
    hide FreshState, Book.Snapshot, HashesOf;
    if hash in b.nodeIdx {
      var node := b.Get(hash);
      b.At(hash);
      if node.pla != rec.pla {
        return Err("Inconsistent pla for root node with initialization");
      }
      if node.symmetries != rec.syms {
        return Err("Inconsistent symmetries for root node with initialization");
      }
      return Ok(node);
    }
    var node := AddNode(b, hash, rec.pla, rec.syms);
    r := Ok(node);
  }

  /** One line of the file. All nodes stay within repr, which only gains new objects. */
  method LoadRecord(b: Book, dict: seq<BookHash>, rec: NodeRecord, ghost repr: set<BookNode>)
    returns (r: Result<()>, ghost repr': set<BookNode>)
    requires b.Indexed() && forall n :: n in b.nodes ==> n in repr
    modifies b`nodes, b`nodeIdx, repr
    ensures b.Indexed() && repr <= repr' && fresh(repr' - repr) && forall n :: n in b.nodes ==> n in repr'
    ensures r.Ok? <==> RecordIn(dict, old(ImageOf(b)), rec).Ok?
    ensures r.Ok? ==> RecordIn(dict, old(ImageOf(b)), rec) == Ok(ImageOf(b))
  {
    hide Entered, NodeIn, IdsWithin, Book.Snapshot, Book.Indexed, SymmetriesOf, HashesOf;
    repr' := repr;
    if rec.id >= |dict| {
      return Err("Bad node id"), repr;
    }
    var hash := dict[rec.id];
    var entered := EnterNode(b, hash, rec);
    repr' := repr + set n | n in b.nodes;
    if entered.Err? {
      return Err(entered.error), repr';
    }
    b.At(hash);
    var ok := FillNode(b, hash, dict, rec);
    r := if ok then Ok(()) else Err("Bad node id");
  }

  method FillNode(b: Book, hash: BookHash, dict: seq<BookHash>, rec: NodeRecord) returns (ok: bool)
    requires b.Indexed() && hash in b.nodeIdx
    modifies b.Get(hash)
    ensures b.Indexed() && (ok <==> IdsWithin(rec, |dict|))
    ensures hash in old(b.Snapshot())
    ensures ok ==> ImageOf(b) == old(ImageOf(b)).(sn := old(b.Snapshot())[hash := NodeIn(dict, old(b.Snapshot())[hash], rec)])
  {
    hide Book.Snapshot, NodeIn, IdsWithin;
    var node := b.Get(hash);
    b.At(hash);
    ok := LoadNode(node, dict, rec);
    b.ChangedAt(hash);
  }

  /** Everything loadFromStream does before it recomputes the book. */
  method LoadFromStream(start: Start, file: BookFile) returns (r: Result<Book>)
    ensures r.Ok? <==> FileIn(start, file).Ok?
    ensures r.Ok? ==>
              fresh(r.value) && r.value.Indexed() && (forall i :: 0 <= i < |r.value.nodes| ==> fresh(r.value.nodes[i]))
              && FileIn(start, file) == Ok(ImageOf(r.value)) && r.value.nextVisitedDoneValue == 1
              && BestParentsOk(r.value.Snapshot())
              && r.value.root.hash == start.hash && r.value.initialSymmetry == start.initialSymmetry
  {
    hide RecordIn, RecordsIn, Book.Snapshot, FreshState, Linked, BestParentsOk, SymmetriesOf, HashesOf, Book.Indexed,
         Empty;
    var b := new Book(start.xSize, start.ySize, start.initialSymmetry, start.hash, start.pla, start.symmetries);
    NewBookIsEmpty(b, start);
    if file.initialSymmetry != b.initialSymmetry {
      return Err("Inconsistent initial symmetry with initialization");
    }
    ghost var repr := {b.root};
    RecordsStart(file.hashes, Empty(start), file.nodes);
    for i := 0 to |file.nodes|
      invariant b.Indexed() && b.nextVisitedDoneValue == 1 && fresh(repr) && forall n :: n in b.nodes ==> n in repr
      invariant RecordsIn(file.hashes, Empty(start), file.nodes[..i]) == Ok(ImageOf(b))
    {
      RecordsStep(file.hashes, Empty(start), file.nodes, i);
      var loaded;
      loaded, repr := LoadRecord(b, file.hashes, file.nodes[i], repr);
      if loaded.Err? {
        ErrorsStay(file.hashes, Empty(start), file.nodes, i + 1);
        return Err(loaded.error);
      }
    }
    assert file.nodes[..|file.nodes|] == file.nodes;
    assert forall i :: 0 <= i < |b.nodes| ==> b.nodes[i] in repr;
    EmptyBestParents(start);
    ReadBestParents(file.hashes, Empty(start), file.nodes);
    r := Ok(b);
  }

  lemma RecordsStart(dict: seq<BookHash>, img: BookImage, recs: seq<NodeRecord>)
    requires img.symmetries.Keys == img.sn.Keys
    ensures RecordsIn(dict, img, recs[..0]) == Ok(img)
  {
  }

  lemma RecordsStep(dict: seq<BookHash>, img: BookImage, recs: seq<NodeRecord>, i: nat)
    requires img.symmetries.Keys == img.sn.Keys && i < |recs| && RecordsIn(dict, img, recs[..i]).Ok?
    ensures RecordsIn(dict, img, recs[..i + 1]) == RecordIn(dict, RecordsIn(dict, img, recs[..i]).value, recs[i])
  {
    hide RecordIn;
    assert recs[..i + 1][..i] == recs[..i];
  }

  lemma EmptyBestParents(start: Start)
    ensures forall h :: h in Empty(start).sn ==> Empty(start).sn[h].costs.bestParentIdx == 0
  {
  }

  lemma NewBookIsEmpty(b: Book, start: Start)
    requires b.Indexed() && b.nodes == [b.root] && b.nodeIdx == map[start.hash := 0]
    requires b.root.hash == start.hash && b.root.symmetries == start.symmetries
    requires b.root.State() == FreshState(start.pla)
    ensures ImageOf(b) == Empty(start)
  {
    hide FreshState;
  }

  lemma {:induction false} ErrorsStay(dict: seq<BookHash>, img: BookImage, recs: seq<NodeRecord>, k: nat)
    requires img.symmetries.Keys == img.sn.Keys && k <= |recs| && RecordsIn(dict, img, recs[..k]).Err?
    ensures RecordsIn(dict, img, recs).Err?
  {
    hide RecordIn;
    if k == |recs| {
      assert recs[..k] == recs;
    } else {
      var init := recs[..|recs| - 1];
      assert init[..k] == recs[..k];
      ErrorsStay(dict, img, init, k);
    }
  }
}
