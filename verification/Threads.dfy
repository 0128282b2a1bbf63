/**
 The passes run by many threads: for every schedule they visit what they should, in an order that
 respects the links, and end with the values of the single-threaded passes.
 */
module Threads {
  import opened BookData
  import opened ValueRules
  import opened ValueTasks
  import opened ValuePass
  import opened CostRules
  import opened CostTasks
  import opened MarkDirty
  import opened Settled
  import opened Recompute
  import opened Symmetry
  import T = Traversal
  import LT = LockedTraversal

  type ValueState = T.State<BookHash, RecursiveBookValues>
  type CostState = T.State<BookHash, NodeCosts>

  /** Any number of threads, shuffled children, any interleaving: two finished passes end with the same values. */
  lemma SchedulesAgree(p: Params, sn: Snapshot, root: BookHash, dirty: set<BookHash>, depth: map<BookHash, nat>,
                       rank: map<BookHash, nat>, run: seq<ValueState>, run': seq<ValueState>)
    requires ReadyFor(sn, root, dirty, depth, rank)
    requires ValueRun(ValueTask(p, ShapesOf(sn), dirty), root, run)
    requires ValueRun(ValueTask(p, ShapesOf(sn), dirty), root, run')
    requires run[0].vals == ValuesOf(sn) && run'[0].vals == ValuesOf(sn)
    ensures T.Last(run).vals == T.Last(run').vals
  {
    hide ShapesOf, ValuesOf, ValueRule, T.Finished, T.ValidTask, T.Local, T.Acyclic, T.DirtyClosed, T.Rooted;
    var t := ValueTask(p, ShapesOf(sn), dirty);
    ValueTaskReady(p, sn, root, dirty, depth, rank);
    T.RunSettles(t, {root}, depth, rank, run);
    T.RunSettles(t, {root}, depth, rank, run');
    T.SettledUnique(t, rank, T.Last(run).vals, T.Last(run').vals);
  }

  /** Many threads: the same values as one thread. */
  lemma ThreadedValuesAreSequential(p: Params, sn: Snapshot, root: BookHash, dirty: set<BookHash>,
                                    depth: map<BookHash, nat>, rank: map<BookHash, nat>,
                                    threaded: seq<ValueState>, solo: seq<ValueState>)
    requires ReadyFor(sn, root, dirty, depth, rank)
    requires ValueRun(ValueTask(p, ShapesOf(sn), dirty), root, threaded)
    requires solo != [] && T.SoloRun(ValueTask(p, ShapesOf(sn), dirty), {root}, [root], solo)
    requires T.Finished(T.Last(solo))
    requires threaded[0].vals == ValuesOf(sn) && solo[0].vals == ValuesOf(sn)
    ensures T.Last(threaded).vals == T.Last(solo).vals
  {
    hide ShapesOf, ValuesOf, ValueRule, T.Finished;
    SchedulesAgree(p, sn, root, dirty, depth, rank, threaded, solo);
  }

  lemma ThreadedCostsAreSequential(cp: CostParams, sn: Snapshot, root: BookHash, rank: map<BookHash, nat>,
                                   pending: seq<BookHash>,
                                   threaded: seq<CostState>, solo: seq<CostState>)
    requires Linked(sn, root) && AcyclicBy(sn, rank)
    requires CostRun(CostTask(cp, CostShapesOf(sn, root)), threaded)
    requires solo != [] && T.SoloRun(CostTask(cp, CostShapesOf(sn, root)), sn.Keys, pending, solo)
    requires T.Finished(T.Last(solo))
    requires threaded[0].vals == CostsOf(sn) && solo[0].vals == CostsOf(sn)
    ensures T.Last(threaded).vals == T.Last(solo).vals
  {
    hide CostsOf, CostRule, T.Finished, T.ValidTask, T.Local, T.Acyclic, T.DirtyClosed, T.Rooted, CostShapeOf;
    var t := CostTask(cp, CostShapesOf(sn, root));
    var down := CostTaskReady(cp, sn, root, rank);
    T.RunSettles(t, t.dirty, map[], down, threaded);
    T.RunSettles(t, t.dirty, map[], down, solo);
    T.SettledUnique(t, down, T.Last(threaded).vals, T.Last(solo).vals);
  }

  /**
   At any moment of any run: a node that carries the pass's flag, or that some thread visited and
   left, already has the value it will end with, and computing it again changes nothing.
   */
  lemma LeftNodesAreFinal(p: Params, sn: Snapshot, root: BookHash, dirty: set<BookHash>,
                          depth: map<BookHash, nat>, rank: map<BookHash, nat>,
                          run: seq<ValueState>, final: Values, i: nat, h: BookHash)
    requires ReadyFor(sn, root, dirty, depth, rank)
    requires var t := ValueTask(p, ShapesOf(sn), dirty);
             && T.Run(t, run) && T.Initial(t, {root}, run[0]) && run[0].vals == ValuesOf(sn)
             && forall k :: k in t.deps ==>
                  k in final && k in run[0].vals && if k in dirty then T.Settled(t, final, k) else final[k] == run[0].vals[k]
    requires h in T.Last(run).done || (i < |T.Last(run).ws| && h in T.Last(run).ws[i].visited && h !in T.Last(run).ws[i].stack)
    ensures h in sn && h in T.Last(run).vals && h in final && T.Last(run).vals[h] == final[h]
    ensures T.Settled(ValueTask(p, ShapesOf(sn), dirty), T.Last(run).vals, h)
  {
    hide ShapesOf, ValuesOf, ValueRule, T.ValidTask, T.Local, T.Acyclic, T.DirtyClosed, T.Rooted;
    var t := ValueTask(p, ShapesOf(sn), dirty);
    ValueTaskReady(p, sn, root, dirty, depth, rank);
    T.RunKeepsDepsFirst(t, {root}, rank, run);
    T.RunKeepsSettled(t, {root}, rank, run);
    T.RunKeepsClean(t, {root}, run);
    T.LeftIsLogged(t, {root}, T.Last(run), i, h);
    T.LoggedIsFinal(t, {root}, rank, T.Last(run), final, h);
  }

  /** One thread recomputes each dirty node exactly once, on cyclic books too. */
  lemma ValuePassVisitsOnce(p: Params, sn: Snapshot, root: BookHash, dirty: set<BookHash>, depth: map<BookHash, nat>,
                            run: seq<ValueState>)
    requires Linked(sn, root) && RootedBy(sn, root, depth) && dirty <= sn.Keys && AncestorClosed(ParentMapOf(sn), dirty)
    requires T.SoloRun(ValueTask(p, ShapesOf(sn), dirty), {root}, [root], run) && T.Finished(T.Last(run))
    ensures forall h :: h in dirty <==> h in T.Order(T.Last(run))
    ensures forall i, j :: 0 <= i < j < |T.Order(T.Last(run))| ==> T.Order(T.Last(run))[i] != T.Order(T.Last(run))[j]
  {
    LinkedCloses(sn, root);
    ValueTaskOk(p, ShapesOf(sn), dirty);
    ValueTaskRooted(p, sn, root, dirty, depth);
    hide ShapesOf, ValueRule, T.ValidTask, T.Rooted, T.Finished, T.Order, T.SoloRun;
    T.SoloVisitsOnce(ValueTask(p, ShapesOf(sn), dirty), {root}, [root], depth, run);
  }

  /** On an acyclic book every dirty child is recomputed before its parent, whatever the schedule. */
  lemma ValuePassChildrenFirst(p: Params, sn: Snapshot, root: BookHash, dirty: set<BookHash>, rank: map<BookHash, nat>,
                               run: seq<ValueState>, i: nat, loc: Loc)
    requires Linked(sn, root) && AcyclicBy(sn, rank) && dirty <= sn.Keys
    requires T.Run(ValueTask(p, ShapesOf(sn), dirty), run)
    requires T.Initial(ValueTask(p, ShapesOf(sn), dirty), {root}, run[0])
    requires i < |T.Order(T.Last(run))| && T.Order(T.Last(run))[i] in sn && loc in sn[T.Order(T.Last(run))[i]].moves
    requires sn[T.Order(T.Last(run))[i]].moves[loc].hash in dirty
    ensures exists j :: 0 <= j < i && T.Order(T.Last(run))[j] == sn[T.Order(T.Last(run))[i]].moves[loc].hash
  {
    LinkedCloses(sn, root);
    ValueTaskOk(p, ShapesOf(sn), dirty);
    ValueTaskAcyclic(p, sn, dirty, rank);
    var h := T.Order(T.Last(run))[i];
    KidIsMove(sn[h].moves, sn[h].moves[loc].hash);
    hide T.ValidTask, T.Acyclic, T.Order, T.Run, T.Initial, Linked, AcyclicBy;
    T.RunDepsFirst(ValueTask(p, ShapesOf(sn), dirty), {root}, rank, run, i, sn[h].moves[loc].hash);
  }

  /** One thread costs each node exactly once, on cyclic books too. */
  lemma CostPassVisitsOnce(cp: CostParams, sn: Snapshot, root: BookHash, pending: seq<BookHash>, run: seq<CostState>)
    requires Linked(sn, root)
    requires T.SoloRun(CostTask(cp, CostShapesOf(sn, root)), sn.Keys, pending, run) && T.Finished(T.Last(run))
    ensures forall h :: h in sn <==> h in T.Order(T.Last(run))
    ensures forall i, j :: 0 <= i < j < |T.Order(T.Last(run))| ==> T.Order(T.Last(run))[i] != T.Order(T.Last(run))[j]
  {
    LinkedShapesOf(sn, root);
    CostTaskOk(cp, CostShapesOf(sn, root));
    hide CostRule, T.ValidTask, T.Finished, T.Order, T.SoloRun, CostShapeOf;
    T.SoloVisitsOnce(CostTask(cp, CostShapesOf(sn, root)), sn.Keys, pending, map[], run);
  }

  /** On an acyclic book every parent is costed before its children, whatever the schedule. */
  lemma CostPassParentsFirst(cp: CostParams, sn: Snapshot, root: BookHash, rank: map<BookHash, nat>,
                             run: seq<CostState>, i: nat, e: (BookHash, Loc))
    requires Linked(sn, root) && AcyclicBy(sn, rank)
    requires T.Run(CostTask(cp, CostShapesOf(sn, root)), run)
      && T.Initial(CostTask(cp, CostShapesOf(sn, root)), sn.Keys, run[0])
    requires i < |T.Order(T.Last(run))| && T.Order(T.Last(run))[i] in sn && e in sn[T.Order(T.Last(run))[i]].parents
    ensures exists j :: 0 <= j < i && T.Order(T.Last(run))[j] == e.0
  {
    var down := CostTaskReady(cp, sn, root, rank);
    var h := T.Order(T.Last(run))[i];
    ParentEdge(sn, root, h, e);
    hide T.ValidTask, T.Acyclic, T.Order, T.Run, T.Initial, Linked, AcyclicBy, T.Local, T.DirtyClosed, T.Rooted;
    T.RunDepsFirst(CostTask(cp, CostShapesOf(sn, root)), sn.Keys, down, run, i, e.0);
  }

  // ---------------------------------------------------------------------------------------------
  // A whole recomputation

  /** What a threaded value pass does to the book. */
  ghost predicate ValuePassBy(p: Params, sn: Snapshot, sn1: Snapshot, root: BookHash, dirty: set<BookHash>,
                              run: seq<ValueState>) {
    && Rest(sn1) == Rest(sn)
    && if dirty == {} then sn1 == sn
       else ValueRun(ValueTask(p, ShapesOf(sn), dirty), root, run)
            && run[0].vals == ValuesOf(sn) && T.Last(run).vals == ValuesOf(sn1)
  }

  /** What a threaded cost pass does to the book. */
  ghost predicate CostPassBy(cp: CostParams, sn1: Snapshot, sn2: Snapshot, root: BookHash, run: seq<CostState>) {
    && CostRest(sn2, root) == CostRest(sn1, root) && CostRun(CostTask(cp, CostShapesOf(sn1, root)), run)
    && run[0].vals == CostsOf(sn1) && T.Last(run).vals == CostsOf(sn2)
  }

  /** Both passes by any number of threads under any schedules settle the dirty values and all costs. */
  lemma ThreadedRecomputeSettles(p: Params, cp: CostParams, sn: Snapshot, sn1: Snapshot, sn2: Snapshot, root: BookHash,
                                 dirty: set<BookHash>, depth: map<BookHash, nat>, rank: map<BookHash, nat>,
                                 valueRun: seq<ValueState>, costRun: seq<CostState>)
    requires ReadyFor(sn, root, dirty, depth, rank)
    requires ValuePassBy(p, sn, sn1, root, dirty, valueRun) && CostPassBy(cp, sn1, sn2, root, costRun)
    ensures ValuesRecomputed(p, sn, sn2, dirty) && CostsSettled(cp, sn2, root)
    ensures Structure(sn2, root) == Structure(sn, root)
    ensures BestParentsOk(sn) ==> BestParentsOk(sn2)
  {
    hide ShapesOf, ValuesOf, CostsOf, CostShapesOf, ValueTask, CostTask, Rest, CostRest, T.Finished, Linked, RootedBy,
         AcyclicBy, BestParentsOk, AncestorClosed, ParentMapOf, Structure, ValueAt, CostAt, CostOf;
    if dirty == {} {
      assert ValuesRecomputed(p, sn, sn1, dirty);
    } else {
      ValuePassSettles(p, sn, sn1, root, dirty, depth, rank, valueRun);
    }
    RestGivesStructure(sn, sn1, root);
    StructureKeepsLinks(sn, sn1, root);
    StructureKeepsRank(sn, sn1, root, rank);
    CostPassSettles(cp, sn1, sn2, root, rank, costRun);
    CostPassKeepsRecomputed(p, sn, sn1, sn2, root, dirty);
    PassesKeepStructure(sn, sn1, sn2, root);
    if BestParentsOk(sn) {
      RestKeepsBestParents(sn, sn1);
      CostPassGivesBestParents(cp, sn1, sn2, root, costRun);
    }
  }

  /**
   So a threaded recomputation ends with exactly the values and costs of any other recomputation of
   the same dirty nodes: the single-threaded one or one under another schedule.
   */
  lemma ThreadedRecomputeIsSequential(p: Params, cp: CostParams, sn: Snapshot, sn1: Snapshot, sn2: Snapshot,
                                      root: BookHash, dirty: set<BookHash>, depth: map<BookHash, nat>,
                                      rank: map<BookHash, nat>, valueRun: seq<ValueState>, costRun: seq<CostState>,
                                      other: Snapshot)
    requires ReadyFor(sn, root, dirty, depth, rank)
    requires ValuePassBy(p, sn, sn1, root, dirty, valueRun) && CostPassBy(cp, sn1, sn2, root, costRun)
    requires Structure(other, root) == Structure(sn, root) && ValuesRecomputed(p, sn, other, dirty)
    requires CostsSettled(cp, other, root)
    ensures ValuesOf(sn2) == ValuesOf(other) && CostsOf(sn2) == CostsOf(other)
  {
    hide ShapesOf, ValuesOf, CostsOf, CostShapesOf, ValuePassBy, CostPassBy, Linked, RootedBy, AcyclicBy,
         AncestorClosed, ParentMapOf, Structure, ValuesRecomputed, CostsSettled;
    ThreadedRecomputeSettles(p, cp, sn, sn1, sn2, root, dirty, depth, rank, valueRun, costRun);
    RecomputedBooksAgree(p, cp, sn, sn2, other, root, dirty, rank);
  }

  // ---------------------------------------------------------------------------------------------
  // With the locks

  type LockedValueState = LT.State<BookHash, RecursiveBookValues>
  type LockedCostState = LT.State<BookHash, NodeCosts>

  /** A value pass by threads that take locks and read one value at a time. */
  ghost predicate LockedValuePassBy(p: Params, sn: Snapshot, sn1: Snapshot, root: BookHash, dirty: set<BookHash>,
                                    mutexOf: BookHash -> int, run: seq<LockedValueState>) {
    && Rest(sn1) == Rest(sn)
    && if dirty == {} then sn1 == sn
       else LT.WholeRun(ValueTask(p, ShapesOf(sn), dirty), {root}, mutexOf, run)
            && run[0].base.vals == ValuesOf(sn) && run[|run| - 1].base.vals == ValuesOf(sn1)
  }

  /** A cost pass by threads that take locks and read one value at a time. */
  ghost predicate LockedCostPassBy(cp: CostParams, sn1: Snapshot, sn2: Snapshot, root: BookHash,
                                   mutexOf: BookHash -> int, run: seq<LockedCostState>) {
    && CostRest(sn2, root) == CostRest(sn1, root)
    && LT.WholeRun(CostTask(cp, CostShapesOf(sn1, root)), CostTask(cp, CostShapesOf(sn1, root)).dirty, mutexOf, run)
    && run[0].base.vals == CostsOf(sn1) && run[|run| - 1].base.vals == CostsOf(sn2)
  }

  lemma LockedValuePass(p: Params, sn: Snapshot, sn1: Snapshot, root: BookHash, dirty: set<BookHash>,
                        depth: map<BookHash, nat>, rank: map<BookHash, nat>, mutexOf: BookHash -> int,
                        locked: seq<LockedValueState>)
    returns (run: seq<ValueState>)
    requires ReadyFor(sn, root, dirty, depth, rank) && LockedValuePassBy(p, sn, sn1, root, dirty, mutexOf, locked)
    ensures ValuePassBy(p, sn, sn1, root, dirty, run)
  {
    hide ShapesOf, ValuesOf, ValueRule, Rest, T.Finished, T.ValidTask, T.Local, T.Acyclic, T.DirtyClosed, T.Rooted,
         LT.WholeRun, T.Run, T.Initial;
    run := [];
    if dirty != {} {
      var t := ValueTask(p, ShapesOf(sn), dirty);
      ValueTaskReady(p, sn, root, dirty, depth, rank);
      run := LT.WholeRunIsAtomic(t, {root}, mutexOf, locked);
    }
  }

  lemma LockedCostPass(cp: CostParams, sn1: Snapshot, sn2: Snapshot, root: BookHash, rank: map<BookHash, nat>,
                       mutexOf: BookHash -> int, locked: seq<LockedCostState>)
    returns (run: seq<CostState>)
    requires Linked(sn1, root) && AcyclicBy(sn1, rank) && LockedCostPassBy(cp, sn1, sn2, root, mutexOf, locked)
    ensures CostPassBy(cp, sn1, sn2, root, run)
  {
    hide CostsOf, CostRule, CostRest, CostShapeOf, T.Finished, T.ValidTask, T.Local, T.Acyclic, T.DirtyClosed, T.Rooted,
         LT.WholeRun, T.Run, T.Initial;
    var down := CostTaskReady(cp, sn1, root, rank);
    var t := CostTask(cp, CostShapesOf(sn1, root));
    run := LT.WholeRunIsAtomic(t, t.dirty, mutexOf, locked);
  }

  /**
   The whole of it: both passes by any number of threads that choose their nodes as they go, take locks
   in order, read one value at a time and write, under any interleaving and any assignment of mutexes,
   end with exactly the values and costs of the single-threaded recomputation.
   */
  lemma LockedRecomputeIsSequential(p: Params, cp: CostParams, sn: Snapshot, sn1: Snapshot, sn2: Snapshot,
                                    root: BookHash, dirty: set<BookHash>, depth: map<BookHash, nat>,
                                    rank: map<BookHash, nat>, mutexOf: BookHash -> int,
                                    lockedValues: seq<LockedValueState>, lockedCosts: seq<LockedCostState>,
                                    other: Snapshot)
    requires ReadyFor(sn, root, dirty, depth, rank)
    requires LockedValuePassBy(p, sn, sn1, root, dirty, mutexOf, lockedValues)
    requires LockedCostPassBy(cp, sn1, sn2, root, mutexOf, lockedCosts)
    requires Structure(other, root) == Structure(sn, root) && ValuesRecomputed(p, sn, other, dirty)
    requires CostsSettled(cp, other, root)
    ensures ValuesOf(sn2) == ValuesOf(other) && CostsOf(sn2) == CostsOf(other)
    ensures ValuesRecomputed(p, sn, sn2, dirty) && CostsSettled(cp, sn2, root)
    ensures Structure(sn2, root) == Structure(sn, root)
  {
    hide ShapesOf, ValuesOf, CostsOf, CostShapesOf, ValuePassBy, CostPassBy, Linked, RootedBy, AcyclicBy,
         AncestorClosed, ParentMapOf, Structure, ValuesRecomputed, CostsSettled, LT.WholeRun, ValueTask, CostTask, Rest,
         CostRest;
    var valueRun := LockedValuePass(p, sn, sn1, root, dirty, depth, rank, mutexOf, lockedValues);
    RestGivesStructure(sn, sn1, root);
    StructureKeepsLinks(sn, sn1, root);
    StructureKeepsRank(sn, sn1, root, rank);
    var costRun := LockedCostPass(cp, sn1, sn2, root, rank, mutexOf, lockedCosts);
    ThreadedRecomputeSettles(p, cp, sn, sn1, sn2, root, dirty, depth, rank, valueRun, costRun);
    ThreadedRecomputeIsSequential(p, cp, sn, sn1, sn2, root, dirty, depth, rank, valueRun, costRun, other);
  }
}
