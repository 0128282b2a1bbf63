/** recomputeNodeValues and recomputeAdjustedVisits, in place on the book's nodes. */
module ValuePass {
  import opened Util
  import opened BookData
  import opened ValueRules
  import opened ValueTasks

  /** vals are the values the book's nodes hold now. */
  ghost predicate Holds(b: Book, vals: Values)
    reads b, b.nodes
  {
    b.Indexed() && vals == ValuesOf(b.Snapshot())
  }

  lemma ReadValue(b: Book, vals: Values, h: BookHash)
    requires Holds(b, vals) && h in vals
    ensures b.Indexed() && h in b.nodeIdx && b.Get(h).recursiveValues == vals[h]
  {
  }

  /** Sort the items, then walk from best to worst adding up capped visits. */
  method SumCapped(p: Params, items: seq<VisitItem>) returns (adjustedVisits: real)
    ensures adjustedVisits == CappedVisits(p, SortItems(items), 0)
  {
    var sorted := SortItems(items);
    var caps: seq<real> := [];
    for i := 0 to |sorted|
      invariant |caps| == i
      invariant forall j :: 0 <= j < i ==> caps[j] == CapOf(p, sorted, j)
    {
      caps := caps + [MaxR(p.ewmaOf(sorted[..i + 1]), sorted[i].visits)];
    }
    adjustedVisits := 0.0;
    var lowestCapSoFar := UNBOUNDED;
    for i := |sorted| downto 0
      invariant lowestCapSoFar == LowestCap(p, sorted, i)
      invariant adjustedVisits == CappedVisits(p, sorted, i)
    {
      lowestCapSoFar := MinR(caps[i], lowestCapSoFar);
      adjustedVisits := adjustedVisits + MinR(4.0 * lowestCapSoFar + p.visitsScale, sorted[i].visits);
    }
  }

  method ListVisitItems(b: Book, p: Params, pla: Player, kids: seq<Kid>,
                        ghost vals: Values) returns (items: seq<VisitItem>)
    requires Holds(b, vals) && KidsIn(kids, vals)
    ensures |items| == |kids|
    ensures forall i :: 0 <= i < |kids| ==> items[i] == KidItem(p, pla, kids[i], vals[kids[i].hash])
  {
    items := [];
    hide Holds;
    for i := 0 to |kids|
      invariant |items| == i
      invariant forall j :: 0 <= j < i ==> items[j] == KidItem(p, pla, kids[j], vals[kids[j].hash])
    {
      ReadValue(b, vals, kids[i].hash);
      var child := b.Get(kids[i].hash);
      items := items + [KidItem(p, pla, kids[i], child.recursiveValues)];
    }
  }

  lemma VisitItemsFrom(p: Params, shape: NodeShape, vals: Values, items: seq<VisitItem>)
    requires KidsIn(shape.kids, vals) && |items| == |shape.kids|
    requires forall i :: 0 <= i < |items| ==> items[i] == KidItem(p, shape.pla, shape.kids[i], vals[shape.kids[i].hash])
    ensures items + [VisitItem(p.sortingValueOf(shape.pla, NotInBook(p, shape.own), shape.own.maxPolicy), shape.own.visits)]
            == VisitItems(p, shape, KidValues(shape.kids, vals))
  {
  }

  method RecomputeAdjustedVisits(b: Book, p: Params, node: BookNode, ghost vals: Values)
    requires Holds(b, vals) && KidsIn(KidsOf(node.moves), vals)
    modifies node`recursiveValues
    ensures node.recursiveValues == old(node.recursiveValues).(adjustedVisits :=
              NodeValues(p, old(ShapeOf(node.State())), KidValues(old(KidsOf(node.moves)), vals)).adjustedVisits)
  {
    hide Holds, KidsOf, NotInBook, CombineAll;
    ghost var shape := ShapeOf(node.State());
    var items := ListVisitItems(b, p, node.pla, KidsOf(node.moves), vals);
    VisitItemsFrom(p, shape, vals, items);
    items := items + [VisitItem(
      p.sortingValueOf(node.pla, NotInBook(p, node.thisValuesNotInBook), node.thisValuesNotInBook.maxPolicy),
      node.thisValuesNotInBook.visits)];
    var adjustedVisits := SumCapped(p, items);
    node.recursiveValues := node.recursiveValues.(adjustedVisits := adjustedVisits);
  }

  ghost predicate SameButAdjusted(v: RecursiveBookValues, v': RecursiveBookValues) {
    v == v'.(adjustedVisits := v.adjustedVisits)
  }

  lemma CombineNext(pla: Player, a: RecursiveBookValues, vs: seq<RecursiveBookValues>, i: nat, v: RecursiveBookValues)
    requires i < |vs| && SameButAdjusted(v, vs[i])
    ensures CombineAll(pla, a, vs[..i + 1]) == Combine(pla, CombineAll(pla, a, vs[..i]), v)
  {
    assert vs[..i + 1][..i] == vs[..i];
  }

  method CombineKids(b: Book, node: BookNode, kids: seq<Kid>, notInBook: RecursiveBookValues,
                     ghost vals: Values, ghost vs: seq<RecursiveBookValues>) returns (acc: RecursiveBookValues)
    requires Holds(b, vals) && KidsIn(kids, vals) && |vs| == |kids|
    requires forall i :: 0 <= i < |kids| ==> SameButAdjusted(vals[kids[i].hash], vs[i])
    ensures acc == CombineAll(node.pla, notInBook, vs)
  {
    hide Holds, Combine, SameButAdjusted;
    acc := notInBook;
    for i := 0 to |kids|
      invariant acc == CombineAll(node.pla, notInBook, vs[..i])
    {
      ReadValue(b, vals, kids[i].hash);
      var child := b.Get(kids[i].hash);
      CombineNext(node.pla, notInBook, vs, i, child.recursiveValues);
      acc := Combine(node.pla, acc, child.recursiveValues);
    }
    assert vs[..|vs|] == vs;
  }

  lemma NodeValuesFrom(p: Params, shape: NodeShape, vs: seq<RecursiveBookValues>,
                       acc: RecursiveBookValues, adjustedVisits: real)
    requires |vs| == |shape.kids|
    requires acc == CombineAll(shape.pla, NotInBook(p, shape.own), vs)
    requires adjustedVisits == NodeValues(p, shape, vs).adjustedVisits
    ensures acc.(adjustedVisits := adjustedVisits) == NodeValues(p, shape, vs)
  {
  }

  /** A node may be its own child in a cyclic book: only its adjusted visits have changed so far. */
  lemma OnlyAdjusted(vals: Values, vals': Values, h: BookHash, v: RecursiveBookValues, kids: seq<Kid>)
    requires h in vals && KidsIn(kids, vals) && SameButAdjusted(v, vals[h]) && vals' == vals[h := v]
    ensures KidsIn(kids, vals')
    ensures forall i :: 0 <= i < |kids| ==> SameButAdjusted(vals'[kids[i].hash], KidValues(kids, vals)[i])
  {
  }

  ghost function WithValue(node: NodeState, v: RecursiveBookValues): NodeState { node.(values := v) }

  lemma ValueWritten(sn: Snapshot, h: BookHash, v: RecursiveBookValues)
    requires h in sn
    ensures ValuesOf(sn[h := WithValue(sn[h], v)]) == ValuesOf(sn)[h := v]
  {
  }

  method AdjustFirst(b: Book, p: Params, node: BookNode, ghost vals: Values) returns (ghost vals': Values)
    requires Holds(b, vals) && node in b.nodes && KidsIn(KidsOf(node.moves), vals)
    modifies node`recursiveValues
    ensures Holds(b, vals') && node.State() == WithValue(old(node.State()), node.recursiveValues)
    ensures node.recursiveValues.adjustedVisits ==
            NodeValues(p, old(ShapeOf(node.State())), KidValues(old(KidsOf(node.moves)), vals)).adjustedVisits
    ensures node.hash in vals && vals' == vals[node.hash := node.recursiveValues]
    ensures SameButAdjusted(node.recursiveValues, vals[node.hash])
  {
    hide KidsOf, NodeValues, KidValues, KidsIn, ShapeOf, Book.Snapshot, Book.Indexed, ValuesOf;
    b.Has(node);
    ReadValue(b, vals, node.hash);
    RecomputeAdjustedVisits(b, p, node, vals);
    vals' := ValuesOf(b.Snapshot());
    b.ChangedAt(node.hash);
    ValueWritten(old(b.Snapshot()), node.hash, node.recursiveValues);
  }

  method RecomputeNodeValues(b: Book, p: Params, node: BookNode, ghost vals: Values)
    requires Holds(b, vals) && node in b.nodes && KidsIn(KidsOf(node.moves), vals)
    modifies node`recursiveValues, node`sharpScoreMeanClamped
    ensures node.State() == WithValue(old(node.State()),
              NodeValues(p, old(ShapeOf(node.State())), KidValues(old(KidsOf(node.moves)), vals)))
  {
    hide KidsOf, NotInBook, CombineAll, NodeValues, KidsIn, KidValues, Holds, Book.Snapshot, Book.Indexed, ValuesOf,
         SameButAdjusted;
    ghost var shape := ShapeOf(node.State());
    ghost var vs := KidValues(shape.kids, vals);
    var notInBook := NotInBook(p, node.thisValuesNotInBook);
    ghost var vals' := AdjustFirst(b, p, node, vals);
    OnlyAdjusted(vals, vals', node.hash, node.recursiveValues, shape.kids);
    var acc := CombineKids(b, node, KidsOf(node.moves), notInBook, vals', vs);
    NodeValuesFrom(p, shape, vs, acc, node.recursiveValues.adjustedVisits);
    node.recursiveValues := acc.(adjustedVisits := node.recursiveValues.adjustedVisits);
    node.sharpScoreMeanClamped := notInBook.sharpScoreMean;  // nothing above reads it
  }

  // ---------------------------------------------------------------------------------------------
  // One node of the pass

  /** All that the value pass does not write. */
  ghost function Rest(sn: Snapshot): (rest: Snapshot)
    ensures rest.Keys == sn.Keys
  {
    map h | h in sn :: sn[h].(values := NO_VALUES(), flag := 0)
  }

  ghost function Processed(node: NodeState, v: RecursiveBookValues, doneValue: int): NodeState {
    node.(values := v, flag := doneValue)
  }

  lemma ProcessedViews(sn: Snapshot, h: BookHash, v: RecursiveBookValues, doneValue: int)
    requires h in sn
    ensures var sn' := sn[h := Processed(sn[h], v, doneValue)];
            && Rest(sn') == Rest(sn)
            && ValuesOf(sn') == ValuesOf(sn)[h := v]
            && Flagged(sn', doneValue) == Flagged(sn, doneValue) + {h}
            && (FlagsBelow(sn, doneValue + 1) ==> FlagsBelow(sn', doneValue + 1))
  {
  }

  lemma RestKeepsShapes(sn: Snapshot)
    ensures ShapesOf(Rest(sn)) == ShapesOf(sn)
  {
  }

  /** The node function of the pass: recompute the node, then raise its flag. */
  method ProcessNode(b: Book, p: Params, doneValue: int, node: BookNode, ghost vals: Values)
    requires Holds(b, vals) && node in b.nodes && KidsIn(KidsOf(node.moves), vals)
    modifies node
    ensures b.Indexed() && b.nodes == old(b.nodes)
    ensures node.hash in old(b.Snapshot()) && old(b.Snapshot())[node.hash] == old(node.State())
    ensures b.Snapshot() == old(b.Snapshot())[node.hash := Processed(old(node.State()),
              NodeValues(p, old(ShapeOf(node.State())), KidValues(old(KidsOf(node.moves)), vals)), doneValue)]
  {
    hide KidsOf, NodeValues, KidValues, KidsIn, ShapeOf, Book.Snapshot, ValuesOf, Holds;
    assert b.Indexed() by { HoldsIndexed(b, vals); }
    b.Has(node);
    RecomputeNodeValues(b, p, node, vals);
    node.visitedFlag := doneValue;
    b.ChangedAt(node.hash);
  }

  lemma HoldsIndexed(b: Book, vals: Values)
    requires Holds(b, vals)
    ensures b.Indexed()
  {
  }
}
