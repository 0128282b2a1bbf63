/** The value pass as a traversal task: each node's values are a function of its children's. */
module ValueTasks {
  import opened Util
  import opened BookData
  import opened ValueRules
  import opened Symmetry
  import Traversal

  type Values = map<BookHash, RecursiveBookValues>
  type Shapes = map<BookHash, NodeShape>

  /** The children in the order of the move map. */
  function KidsOf(moves: map<Loc, BookMove>): (kids: seq<Kid>) {
    var locs := Ascending(moves.Keys);
    seq(|locs|, i requires 0 <= i < |locs| => Kid(moves[locs[i]].hash, moves[locs[i]].rawPolicy))
  }

  lemma KidsAreMoves(moves: map<Loc, BookMove>)
    ensures forall kid :: kid in KidsOf(moves) ==> exists loc :: loc in moves && moves[loc].hash == kid.hash
    ensures forall loc :: loc in moves ==> Kid(moves[loc].hash, moves[loc].rawPolicy) in KidsOf(moves)
  {
    var locs := Ascending(moves.Keys);
    forall loc | loc in moves ensures Kid(moves[loc].hash, moves[loc].rawPolicy) in KidsOf(moves) {
      var i :| 0 <= i < |locs| && locs[i] == loc;
      assert KidsOf(moves)[i] == Kid(moves[loc].hash, moves[loc].rawPolicy);
    }
  }

  function ShapeOf(node: NodeState): NodeShape {
    NodeShape(node.inputs.pla, node.inputs.own, KidsOf(node.moves))
  }

  ghost function ShapesOf(sn: Snapshot): (shapes: Shapes)
    ensures shapes.Keys == sn.Keys
  {
    map h | h in sn :: ShapeOf(sn[h])
  }

  ghost predicate KidsIn<V>(kids: seq<Kid>, vals: map<BookHash, V>) {
    forall i :: 0 <= i < |kids| ==> kids[i].hash in vals
  }

  ghost function KidValues<V>(kids: seq<Kid>, vals: map<BookHash, V>): (vs: seq<V>)
    requires KidsIn(kids, vals)
    ensures |vs| == |kids|
  {
    seq(|kids|, i requires 0 <= i < |kids| => vals[kids[i].hash])
  }

  ghost function KidHashes(kids: seq<Kid>): seq<BookHash> {
    seq(|kids|, i requires 0 <= i < |kids| => kids[i].hash)
  }

  ghost predicate ClosedShapes(shapes: Shapes) {
    forall h :: h in shapes ==> KidsIn(shapes[h].kids, shapes)
  }

  lemma LinkedKids(sn: Snapshot, root: BookHash, h: BookHash, i: nat)
    requires Linked(sn, root) && h in sn && i < |KidsOf(sn[h].moves)|
    ensures KidsOf(sn[h].moves)[i].hash in sn
  {
    var locs := Ascending(sn[h].moves.Keys);
    assert locs[i] in locs;
  }

  lemma LinkedCloses(sn: Snapshot, root: BookHash)
    requires Linked(sn, root)
    ensures ClosedShapes(ShapesOf(sn))
  {
    hide Linked, KidsOf;
    forall h | h in sn ensures KidsIn(ShapesOf(sn)[h].kids, ShapesOf(sn)) {
      forall i | 0 <= i < |KidsOf(sn[h].moves)| ensures KidsOf(sn[h].moves)[i].hash in sn {
        LinkedKids(sn, root, h, i);
      }
    }
  }

  ghost function NO_VALUES(): RecursiveBookValues {
    RecursiveBookValues(0.0, 0.0, 0.0, 0.0, 0.0, 0.0, 0.0, 0.0, 0.0, 0.0, 0.0, 0.0)
  }

  ghost function ValueAt(p: Params, shapes: Shapes, h: BookHash, vals: Values): RecursiveBookValues {
    if h in shapes && KidsIn(shapes[h].kids, vals) then NodeValues(p, shapes[h], KidValues(shapes[h].kids, vals))
    else NO_VALUES()
  }

  ghost function ValueRule(p: Params, shapes: Shapes): (BookHash, Values) -> RecursiveBookValues {
    (h, vals) => ValueAt(p, shapes, h, vals)
  }

  ghost function ValueTask(p: Params, shapes: Shapes,
                           dirty: set<BookHash>): Traversal.Task<BookHash, RecursiveBookValues> {
    Traversal.Task(map h | h in shapes :: KidHashes(shapes[h].kids), dirty, false, ValueRule(p, shapes))
  }

  lemma ValueTaskOk(p: Params, shapes: Shapes, dirty: set<BookHash>)
    requires ClosedShapes(shapes) && dirty <= shapes.Keys
    ensures Traversal.ValidTask(ValueTask(p, shapes, dirty))
    ensures Traversal.Local(ValueTask(p, shapes, dirty))
  {
    var t := ValueTask(p, shapes, dirty);
    forall k, v, v' | k in t.deps && Traversal.AgreeOn(t.deps[k], v, v') ensures t.f(k, v) == t.f(k, v') {
      var kids := shapes[k].kids;
      forall i | 0 <= i < |kids| ensures kids[i].hash in v && kids[i].hash in v' && v[kids[i].hash] == v'[kids[i].hash] {
        assert t.deps[k][i] == kids[i].hash;
        assert kids[i].hash in t.deps[k];
      }
      assert KidValues(kids, v) == KidValues(kids, v');
    }
    forall k, d | k in t.deps && d in t.deps[k] ensures d in t.deps {
      var i :| 0 <= i < |t.deps[k]| && t.deps[k][i] == d;
      assert KidsIn(shapes[k].kids, shapes);
    }
  }
}
