/**
 A settled book: recomputing any node would change nothing. A finished pass, run by any number of
 threads under any schedule, settles an acyclic book, and a book has only one settled state.
 */
module Settled {
  import opened BookData
  import opened ValueRules
  import opened ValueTasks
  import opened ValuePass
  import opened CostRules
  import opened CostTasks
  import opened MarkDirty
  import opened Symmetry
  import T = Traversal

  ghost predicate ValueSettledAt(p: Params, sn: Snapshot, h: BookHash)
    requires h in sn
  {
    sn[h].values == ValueAt(p, ShapesOf(sn), h, ValuesOf(sn))
  }

  ghost predicate ValuesSettled(p: Params, sn: Snapshot) {
    forall h :: h in sn ==> ValueSettledAt(p, sn, h)
  }

  ghost predicate CostsSettled(cp: CostParams, sn: Snapshot, root: BookHash) {
    forall h :: h in sn ==> CostOf(sn[h]) == CostAt(cp, CostShapesOf(sn, root), h, CostsOf(sn))
  }

  // ---------------------------------------------------------------------------------------------
  // The value pass

  lemma KidIsMove(moves: map<Loc, BookMove>, d: BookHash)
    ensures d in KidHashes(KidsOf(moves)) <==> exists loc :: loc in moves && moves[loc].hash == d
  {
    hide KidsOf, KidHashes;
    KidsAreMoves(moves);
    InKidHashes(KidsOf(moves), d);
    if loc :| loc in moves && moves[loc].hash == d {
      assert Kid(moves[loc].hash, moves[loc].rawPolicy) in KidsOf(moves);
    }
  }

  lemma InKidHashes(kids: seq<Kid>, d: BookHash)
    ensures d in KidHashes(kids) <==> exists kid :: kid in kids && kid.hash == d
  {
    if kid :| kid in kids && kid.hash == d {
      var i :| 0 <= i < |kids| && kids[i] == kid;
      assert KidHashes(kids)[i] == d;
    }
  }

  /** Children and parents mirror each other. */
  lemma KidIffParent(sn: Snapshot, root: BookHash, h: BookHash, d: BookHash)
    requires Linked(sn, root) && h in sn
    ensures d in KidHashes(KidsOf(sn[h].moves)) <==> d in sn && h in ParentHashes(sn[d].parents)
  {
    hide KidHashes, KidsOf, ParentHashes;
    KidIsMove(sn[h].moves, d);
    if d in sn {
      InParentHashes(sn[d].parents, h);
    }
    if loc :| loc in sn[h].moves && sn[h].moves[loc].hash == d {
      assert (h, loc) in sn[d].parents;
    }
    if d in sn {
      if e :| e in sn[d].parents && e.0 == h {
        var moves, l := sn[h].moves, e.1;
        assert l in moves && moves[l].hash == d;
      }
    }
  }

  lemma InParentHashes(parents: seq<(BookHash, Loc)>, h: BookHash)
    ensures h in ParentHashes(parents) <==> exists e :: e in parents && e.0 == h
  {
    if e :| e in parents && e.0 == h {
      var i :| 0 <= i < |parents| && parents[i] == e;
      assert ParentHashes(parents)[i] == h;
    }
    if h in ParentHashes(parents) {
      var i :| 0 <= i < |parents| && ParentHashes(parents)[i] == h;
      assert parents[i] in parents;
    }
  }

  lemma ParentEdge(sn: Snapshot, root: BookHash, k: BookHash, e: (BookHash, Loc))
    requires Linked(sn, root) && k in sn && e in sn[k].parents
    ensures e.0 in sn && e.1 in sn[e.0].moves && sn[e.0].moves[e.1].hash == k
    ensures e.0 in ParentMapOf(sn)[k] && k in KidHashes(KidsOf(sn[e.0].moves))
  {
    var i :| 0 <= i < |sn[k].parents| && sn[k].parents[i] == e;
    assert ParentHashes(sn[k].parents)[i] == e.0;
    KidIffParent(sn, root, e.0, k);
  }

  lemma ParentEntry(sn: Snapshot, k: BookHash, d: BookHash) returns (e: (BookHash, Loc))
    requires k in sn && d in ParentHashes(sn[k].parents)
    ensures e in sn[k].parents && e.0 == d
  {
    var i :| 0 <= i < |sn[k].parents| && ParentHashes(sn[k].parents)[i] == d;
    e := sn[k].parents[i];
  }

  lemma ValueTaskAcyclic(p: Params, sn: Snapshot, dirty: set<BookHash>, rank: map<BookHash, nat>)
    requires AcyclicBy(sn, rank)
    ensures T.Acyclic(ValueTask(p, ShapesOf(sn), dirty), rank)
  {
    var t := ValueTask(p, ShapesOf(sn), dirty);
    forall k, d | T.IsDep(t, k, d) ensures k in rank && d in rank && rank[d] < rank[k] {
      KidIsMove(sn[k].moves, d);
    }
  }

  lemma ValueTaskDirtyClosed(p: Params, sn: Snapshot, root: BookHash, dirty: set<BookHash>)
    requires Linked(sn, root) && AncestorClosed(ParentMapOf(sn), dirty)
    ensures T.DirtyClosed(ValueTask(p, ShapesOf(sn), dirty))
  {
    var t := ValueTask(p, ShapesOf(sn), dirty);
    forall k, d | k in t.deps && d in t.deps[k] && d in t.dirty ensures k in t.dirty {
      KidIffParent(sn, root, k, d);
      assert k in ParentMapOf(sn)[d];
    }
  }

  /** Every dirty node is reached from the root through dirty nodes. */
  lemma ValueTaskRooted(p: Params, sn: Snapshot, root: BookHash, dirty: set<BookHash>, depth: map<BookHash, nat>)
    requires Linked(sn, root) && RootedBy(sn, root, depth) && AncestorClosed(ParentMapOf(sn), dirty) && dirty <= sn.Keys
    ensures T.Rooted(ValueTask(p, ShapesOf(sn), dirty), {root}, depth)
  {
    hide KidsOf, Linked;
    var t := ValueTask(p, ShapesOf(sn), dirty);
    forall k | k in t.dirty && k != root
      ensures k in depth
      ensures exists q :: q in t.dirty && q in depth && depth[q] < depth[k] && q in t.deps && k in t.deps[q]
    {
      var e :| e in sn[k].parents && e.0 in depth && depth[e.0] < depth[k];
      ParentEdge(sn, root, k, e);
      assert e.0 in t.dirty && k in t.deps[e.0];
    }
  }

  /** With a nonempty dirty set closed under parents, the root is dirty. */
  lemma {:induction false} RootIsDirty(sn: Snapshot, root: BookHash, dirty: set<BookHash>, depth: map<BookHash, nat>,
                                       h: BookHash)
    requires Linked(sn, root) && RootedBy(sn, root, depth) && AncestorClosed(ParentMapOf(sn), dirty) && h in dirty
    requires h in sn
    ensures root in dirty
    decreases if h in depth then depth[h] else 0
  {
    if h != root {
      var e :| e in sn[h].parents && e.0 in depth && depth[e.0] < depth[h];
      ParentEdge(sn, root, h, e);
      RootIsDirty(sn, root, dirty, depth, e.0);
    }
  }

  ghost predicate ValueRun(t: T.Task<BookHash, RecursiveBookValues>, root: BookHash,
                           run: seq<T.State<BookHash, RecursiveBookValues>>) {
    T.Run(t, run) && T.Initial(t, {root}, run[0]) && T.Finished(T.Last(run))
  }

  /** What a pass over the dirty nodes may rely on. */
  ghost predicate ReadyFor(sn: Snapshot, root: BookHash, dirty: set<BookHash>, depth: map<BookHash, nat>,
                           rank: map<BookHash, nat>) {
    && Linked(sn, root) && RootedBy(sn, root, depth) && AcyclicBy(sn, rank)
    && dirty <= sn.Keys && AncestorClosed(ParentMapOf(sn), dirty)
  }

  /** The dirty nodes are settled, all others have the values they had. */
  ghost predicate ValuesRecomputed(p: Params, sn: Snapshot, sn': Snapshot, dirty: set<BookHash>) {
    forall h :: h in sn ==> h in sn' && if h in dirty then ValueSettledAt(p, sn', h) else sn'[h].values == sn[h].values
  }

  lemma ValueTaskReady(p: Params, sn: Snapshot, root: BookHash, dirty: set<BookHash>, depth: map<BookHash, nat>,
                       rank: map<BookHash, nat>)
    requires ReadyFor(sn, root, dirty, depth, rank)
    ensures var t := ValueTask(p, ShapesOf(sn), dirty);
            && T.ValidTask(t) && T.Local(t) && T.Acyclic(t, rank) && T.DirtyClosed(t) && T.Rooted(t, {root}, depth)
  {
    LinkedCloses(sn, root);
    ValueTaskOk(p, ShapesOf(sn), dirty);
    ValueTaskAcyclic(p, sn, dirty, rank);
    ValueTaskDirtyClosed(p, sn, root, dirty);
    ValueTaskRooted(p, sn, root, dirty, depth);
  }

  lemma RecomputedFromTask(p: Params, sn: Snapshot, sn': Snapshot, dirty: set<BookHash>)
    requires Rest(sn') == Rest(sn)
    requires forall h :: h in sn && h in dirty ==> T.Settled(ValueTask(p, ShapesOf(sn), dirty), ValuesOf(sn'), h)
    requires forall h :: h in sn && h !in dirty ==> h in sn' && ValuesOf(sn')[h] == ValuesOf(sn)[h]
    ensures ValuesRecomputed(p, sn, sn', dirty)
  {
    RestKeepsShapes(sn);
    RestKeepsShapes(sn');
    assert sn'.Keys == Rest(sn').Keys == sn.Keys;
    hide ValueAt, ShapesOf, Rest;
    forall h | h in sn ensures h in sn' && if h in dirty then ValueSettledAt(p, sn', h) else sn'[h].values == sn[h].values {
      if h in dirty {
        assert T.Settled(ValueTask(p, ShapesOf(sn), dirty), ValuesOf(sn'), h);
      } else {
        assert ValuesOf(sn')[h] == ValuesOf(sn)[h];
      }
    }
  }

  /**
   A finished value pass, by any number of threads under any schedule, settles the dirty nodes and
   changes no other.
   */
  lemma ValuePassSettles(p: Params, sn: Snapshot, sn': Snapshot, root: BookHash, dirty: set<BookHash>,
                         depth: map<BookHash, nat>, rank: map<BookHash, nat>,
                         run: seq<T.State<BookHash, RecursiveBookValues>>)
    requires ReadyFor(sn, root, dirty, depth, rank)
    requires ValueRun(ValueTask(p, ShapesOf(sn), dirty), root, run)
    requires run[0].vals == ValuesOf(sn) && T.Last(run).vals == ValuesOf(sn') && Rest(sn') == Rest(sn)
    ensures ValuesRecomputed(p, sn, sn', dirty)
  {
    hide ShapesOf, ValuesOf, ValueAt, T.Finished, T.ValidTask, T.Local, T.Acyclic, T.DirtyClosed, T.Rooted, Rest;
    var t := ValueTask(p, ShapesOf(sn), dirty);
    ValueTaskReady(p, sn, root, dirty, depth, rank);
    T.RunSettles(t, {root}, depth, rank, run);
    RecomputedFromTask(p, sn, sn', dirty);
  }

  // ---------------------------------------------------------------------------------------------
  // The cost pass

  lemma {:induction false} Bounded(rank: map<BookHash, nat>, keys: set<BookHash>) returns (m: nat)
    requires keys <= rank.Keys
    ensures forall h :: h in keys ==> rank[h] <= m
  {
    if keys == {} {
      m := 0;
    } else {
      var h :| h in keys;
      m := Bounded(rank, keys - {h});
      if rank[h] > m {
        m := rank[h];
      }
    }
  }

  lemma ParentRanksHigher(sn: Snapshot, root: BookHash, rank: map<BookHash, nat>, k: BookHash, d: BookHash)
    requires Linked(sn, root) && AcyclicBy(sn, rank) && k in sn && d in ParentHashes(sn[k].parents)
    ensures k in rank && d in rank && rank[k] < rank[d]
  {
    var e := ParentEntry(sn, k, d);
    ParentEdge(sn, root, k, e);
  }

  lemma CostTaskAcyclic(cp: CostParams, sn: Snapshot, root: BookHash, rank: map<BookHash, nat>)
    returns (down: map<BookHash, nat>)
    requires Linked(sn, root) && AcyclicBy(sn, rank)
    ensures T.Acyclic(CostTask(cp, CostShapesOf(sn, root)), down)
  {
    hide Linked, AcyclicBy, CostRule;
    var m := Bounded(rank, rank.Keys);
    down := map h | h in rank :: m - rank[h];
    var t := CostTask(cp, CostShapesOf(sn, root));
    forall k, d | T.IsDep(t, k, d) ensures k in down && d in down && down[d] < down[k] {
      ParentRanksHigher(sn, root, rank, k, d);
    }
  }

  ghost predicate CostRun(t: T.Task<BookHash, NodeCosts>, run: seq<T.State<BookHash, NodeCosts>>) {
    T.Run(t, run) && T.Initial(t, t.dirty, run[0]) && T.Finished(T.Last(run))
  }

  lemma CostTaskReady(cp: CostParams, sn: Snapshot, root: BookHash, rank: map<BookHash, nat>)
    returns (down: map<BookHash, nat>)
    requires Linked(sn, root) && AcyclicBy(sn, rank)
    ensures var t := CostTask(cp, CostShapesOf(sn, root));
            T.ValidTask(t) && T.Local(t) && T.Acyclic(t, down) && T.DirtyClosed(t) && T.Rooted(t, t.dirty, map[])
  {
    LinkedShapesOf(sn, root);
    CostTaskOk(cp, CostShapesOf(sn, root));
    CostTaskLocal(cp, CostShapesOf(sn, root));
    down := CostTaskAcyclic(cp, sn, root, rank);
  }

  lemma CostsSettledFrom(cp: CostParams, sn: Snapshot, sn': Snapshot, root: BookHash)
    requires CostRest(sn', root) == CostRest(sn, root)
    requires forall h :: h in sn ==> T.Settled(CostTask(cp, CostShapesOf(sn, root)), CostsOf(sn'), h)
    ensures CostsSettled(cp, sn', root)
  {
    ShapesFromRest(sn, root);
    ShapesFromRest(sn', root);
    assert sn'.Keys == CostRest(sn', root).Keys == sn.Keys;
    hide CostAt, CostShapesOf, CostRest, CostOf;
    forall h | h in sn' ensures CostOf(sn'[h]) == CostAt(cp, CostShapesOf(sn', root), h, CostsOf(sn')) {
      assert T.Settled(CostTask(cp, CostShapesOf(sn, root)), CostsOf(sn'), h);
    }
  }

  /** A finished cost pass, by any number of threads under any schedule, settles all costs. */
  lemma CostPassSettles(cp: CostParams, sn: Snapshot, sn': Snapshot, root: BookHash, rank: map<BookHash, nat>,
                        run: seq<T.State<BookHash, NodeCosts>>)
    requires Linked(sn, root) && AcyclicBy(sn, rank)
    requires CostRun(CostTask(cp, CostShapesOf(sn, root)), run)
    requires run[0].vals == CostsOf(sn) && T.Last(run).vals == CostsOf(sn') && CostRest(sn', root) == CostRest(sn, root)
    ensures CostsSettled(cp, sn', root)
  {
    var t := CostTask(cp, CostShapesOf(sn, root));
    var down := CostTaskReady(cp, sn, root, rank);
    T.RunSettles(t, t.dirty, map[], down, run);
    CostsSettledFrom(cp, sn, sn', root);
  }
}
