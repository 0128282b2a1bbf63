/** iterateDirtyNodesPostOrder with the node function of the value pass, as one thread runs it. */
module ValueTraversal {
  import opened Util
  import opened BookData
  import opened ValueRules
  import opened ValueTasks
  import opened ValuePass
  import opened Symmetry
  import T = Traversal

  type State = T.State<BookHash, RecursiveBookValues>
  type Task = T.Task<BookHash, RecursiveBookValues>

  /** What one call of the traversal works on. */
  datatype Scope = Scope(dirtyNodes: set<BookHash>, allDirty: bool, doneValue: int)

  /** The children still to try at one level; the next one is the last. */
  ghost function Targets(moves: map<Loc, BookMove>, locs: seq<Loc>): seq<BookHash>
    requires forall i :: 0 <= i < |locs| ==> locs[i] in moves
  {
    seq(|locs|, i requires 0 <= i < |locs| => moves[locs[i]].hash)
  }

  function FillChildren(moves: map<Loc, BookMove>): (locs: seq<Loc>)
    ensures forall i :: 0 <= i < |locs| ==> locs[i] in moves
  {
    var locs := Ascending(moves.Keys);
    assert forall i :: 0 <= i < |locs| ==> locs[i] in locs;
    Reverse(locs)
  }

  lemma FillChildrenBag(moves: map<Loc, BookMove>)
    ensures multiset(Targets(moves, FillChildren(moves))) == multiset(KidHashes(KidsOf(moves)))
  {
    assert Targets(moves, FillChildren(moves)) == Reverse(KidHashes(KidsOf(moves)));
    ReverseBag(KidHashes(KidsOf(moves)));
  }

  // ---------------------------------------------------------------------------------------------
  // The loop's variables as the state of a traversal by one worker

  ghost predicate TracksLevel(rest: Snapshot, locs: seq<Loc>, h: BookHash, bag: multiset<BookHash>) {
    && h in rest
    && (forall i :: 0 <= i < |locs| ==> locs[i] in rest[h].moves)
    && bag == multiset(Targets(rest[h].moves, locs))
  }

  ghost predicate Tracks(rest: Snapshot, todo: seq<seq<Loc>>, visited: set<BookHash>, w: T.Worker<BookHash>) {
    && |w.stack| == |todo| && |w.todo| == |todo|
    && (forall p :: 0 <= p < |todo| ==> TracksLevel(rest, todo[p], w.stack[p], w.todo[p]))
    && w.visited == visited && w.pending == [] && !w.computed
  }

  /** The dependencies are the book's moves, and the dirty nodes are processed. */
  ghost predicate ChildTask(rest: Snapshot, t: Task, sc: Scope) {
    && T.ValidTask(t) && t.deps.Keys == rest.Keys
    && t.dirty == (if sc.allDirty then rest.Keys else sc.dirtyNodes)
    && (forall h {:trigger t.deps[h]} :: h in rest ==> t.deps[h] == KidHashes(KidsOf(rest[h].moves)))
  }

  /** The loop's variables stand for the traversal state s. */
  ghost predicate Follows(sn: Snapshot, t: Task, root: BookHash, sc: Scope, hashes: seq<BookHash>, todo: seq<seq<Loc>>,
                          visited: set<BookHash>, s: State) {
    && ChildTask(Rest(sn), t, sc)
    && T.Ok(t, {root}, s) && |s.ws| == 1 && s.ws[0].stack == hashes
    && Tracks(Rest(sn), todo, visited, s.ws[0])
    && s.vals == ValuesOf(sn)
    && s.done == Flagged(sn, sc.doneValue)
    && FlagsBelow(sn, sc.doneValue + 1)
  }

  // --- one child ---

  lemma TracksRest(rest: Snapshot, locs: seq<Loc>, h: BookHash, bag: multiset<BookHash>)
    requires TracksLevel(rest, locs, h, bag) && locs != []
    ensures rest[h].moves[locs[|locs| - 1]].hash in bag
    ensures TracksLevel(rest, locs[..|locs| - 1], h, bag - multiset{rest[h].moves[locs[|locs| - 1]].hash})
  {
    var d := rest[h].moves[locs[|locs| - 1]].hash;
    assert Targets(rest[h].moves, locs) == Targets(rest[h].moves, locs[..|locs| - 1]) + [d];
  }

  ghost function Without(w: T.Worker<BookHash>, d: BookHash): T.Worker<BookHash>
    requires w.stack != [] && |w.todo| == |w.stack|
  {
    w.(todo := w.todo[|w.stack| - 1 := w.todo[|w.stack| - 1] - multiset{d}])
  }

  function Shortened(todo: seq<seq<Loc>>): (todo': seq<seq<Loc>>)
    requires todo != [] && todo[|todo| - 1] != []
    ensures |todo'| == |todo|
  {
    var top := |todo| - 1;
    todo[top := todo[top][..|todo[top]| - 1]]
  }

  /** The child hash the loop looks at next. */
  ghost predicate NextChild(rest: Snapshot, todo: seq<seq<Loc>>, w: T.Worker<BookHash>, d: BookHash) {
    && todo != [] && |w.stack| == |todo| && todo[|todo| - 1] != []
    && var locs, h := todo[|todo| - 1], w.stack[|todo| - 1];
    && h in rest && locs[|locs| - 1] in rest[h].moves && d == rest[h].moves[locs[|locs| - 1]].hash
  }

  lemma PassOverTracks(rest: Snapshot, todo: seq<seq<Loc>>, visited: set<BookHash>, w: T.Worker<BookHash>, d: BookHash)
    requires Tracks(rest, todo, visited, w) && NextChild(rest, todo, w, d)
    ensures d in w.todo[|todo| - 1]
    ensures Tracks(rest, Shortened(todo), visited, Without(w, d))
  {
    hide TracksLevel;
    var top := |todo| - 1;
    TracksRest(rest, todo[top], w.stack[top], w.todo[top]);
    var todo', w' := Shortened(todo), Without(w, d);
    forall q | 0 <= q < |todo'| ensures TracksLevel(rest, todo'[q], w'.stack[q], w'.todo[q]) {
      assert TracksLevel(rest, todo[q], w.stack[q], w.todo[q]);
    }
  }

  lemma FreshLevel(rest: Snapshot, t: Task, sc: Scope, d: BookHash)
    requires ChildTask(rest, t, sc) && d in rest
    ensures d in t.deps && TracksLevel(rest, FillChildren(rest[d].moves), d, multiset(t.deps[d]))
  {
    FillChildrenBag(rest[d].moves);
    assert t.deps[d] == KidHashes(KidsOf(rest[d].moves));
  }

  lemma DescendTracks(rest: Snapshot, t: Task, sc: Scope, todo: seq<seq<Loc>>, visited: set<BookHash>,
                      w: T.Worker<BookHash>, d: BookHash)
    requires ChildTask(rest, t, sc) && Tracks(rest, todo, visited, w) && d in rest
    ensures d in t.deps
    ensures Tracks(rest, todo + [FillChildren(rest[d].moves)], visited + {d}, T.Push(t, w, d))
  {
    FreshLevel(rest, t, sc, d);
    hide TracksLevel, ChildTask, FillChildren;
    var todo', w' := todo + [FillChildren(rest[d].moves)], T.Push(t, w, d);
    forall q | 0 <= q < |todo'| ensures TracksLevel(rest, todo'[q], w'.stack[q], w'.todo[q]) {
      if q < |todo| {
        assert TracksLevel(rest, todo[q], w.stack[q], w.todo[q]);
      }
    }
  }

  lemma NextChildIn(rest: Snapshot, t: Task, root: BookHash, sc: Scope, s: State, todo: seq<seq<Loc>>,
                    visited: set<BookHash>, w: T.Worker<BookHash>)
    requires ChildTask(rest, t, sc) && Tracks(rest, todo, visited, w) && T.WorkerOk(t, {root}, s, w)
    requires todo != [] && todo[|todo| - 1] != []
    ensures w.stack[|todo| - 1] in rest && todo[|todo| - 1][|todo[|todo| - 1]| - 1] in rest[w.stack[|todo| - 1]].moves
    ensures rest[w.stack[|todo| - 1]].moves[todo[|todo| - 1][|todo[|todo| - 1]| - 1]].hash in rest
  {
    var top := |todo| - 1;
    assert TracksLevel(rest, todo[top], w.stack[top], w.todo[top]);
    TracksRest(rest, todo[top], w.stack[top], w.todo[top]);
    assert T.LevelOk(t, s, w, top);
  }

  /** The child has not been visited here, is dirty, and carries no flag of this pass. */
  predicate NeedsVisit(b: Book, sc: Scope, visited: set<BookHash>, h: BookHash)
    requires b.Indexed() && h in b.nodeIdx
    reads b, b.Get(h)
  {
    h !in visited && (sc.allDirty || h in sc.dirtyNodes) && b.Get(h).visitedFlag != sc.doneValue
  }

  lemma TracksSizes(rest: Snapshot, todo: seq<seq<Loc>>, visited: set<BookHash>, w: T.Worker<BookHash>)
    requires Tracks(rest, todo, visited, w)
    ensures |w.stack| == |todo| && |w.todo| == |todo| && w.visited == visited && w.pending == [] && !w.computed
  {
  }

  lemma TrySkips(rest: Snapshot, t: Task, todo: seq<seq<Loc>>, visited: set<BookHash>, s: State, d: BookHash)
    returns (s': State)
    requires |s.ws| == 1 && Tracks(rest, todo, visited, s.ws[0]) && NextChild(rest, todo, s.ws[0], d) && d in t.deps
    requires d in visited || d !in t.dirty || d in s.done
    ensures T.Try(t, s, s', 0, d) && s' == T.Put(s, 0, Without(s.ws[0], d))
    ensures Tracks(rest, Shortened(todo), visited, s'.ws[0])
  {
    hide Tracks;
    TracksSizes(rest, todo, visited, s.ws[0]);
    PassOverTracks(rest, todo, visited, s.ws[0], d);
    s' := T.Put(s, 0, Without(s.ws[0], d));
  }

  lemma TryDescends(rest: Snapshot, t: Task, sc: Scope, todo: seq<seq<Loc>>, visited: set<BookHash>, s: State,
                    d: BookHash)
    returns (s': State)
    requires ChildTask(rest, t, sc) && d in rest
    requires |s.ws| == 1 && Tracks(rest, todo, visited, s.ws[0]) && NextChild(rest, todo, s.ws[0], d)
    requires d !in visited && d in t.dirty && d !in s.done
    ensures d in t.deps && T.Try(t, s, s', 0, d) && s' == T.Put(s, 0, T.Push(t, Without(s.ws[0], d), d))
    ensures Tracks(rest, Shortened(todo) + [FillChildren(rest[d].moves)], visited + {d}, s'.ws[0])
  {
    hide Tracks, ChildTask, FillChildren;
    TracksSizes(rest, todo, visited, s.ws[0]);
    PassOverTracks(rest, todo, visited, s.ws[0], d);
    DescendTracks(rest, t, sc, Shortened(todo), visited, Without(s.ws[0], d), d);
    s' := T.Put(s, 0, T.Push(t, Without(s.ws[0], d), d));
  }

  lemma PassesOver(sn: Snapshot, t: Task, root: BookHash, sc: Scope, hashes: seq<BookHash>, todo: seq<seq<Loc>>,
                   visited: set<BookHash>, s: State, d: BookHash) returns (s': State)
    requires Follows(sn, t, root, sc, hashes, todo, visited, s) && NextChild(Rest(sn), todo, s.ws[0], d) && d in sn
    requires d in visited || !(sc.allDirty || d in sc.dirtyNodes) || sn[d].flag == sc.doneValue
    ensures Follows(sn, t, root, sc, hashes, Shortened(todo), visited, s') && T.Step(t, s, s', 0)
  {
    hide T.Ok, T.Try, Tracks, NextChild, Rest, ValuesOf;
    s' := TrySkips(Rest(sn), t, todo, visited, s, d);
    T.TryKeeps(t, {root}, s, s', 0, d);
  }

  lemma Descends(sn: Snapshot, t: Task, root: BookHash, sc: Scope, hashes: seq<BookHash>, todo: seq<seq<Loc>>,
                 visited: set<BookHash>, s: State, d: BookHash) returns (s': State)
    requires Follows(sn, t, root, sc, hashes, todo, visited, s) && NextChild(Rest(sn), todo, s.ws[0], d) && d in sn
    requires d !in visited && (sc.allDirty || d in sc.dirtyNodes) && sn[d].flag != sc.doneValue
    ensures Follows(sn, t, root, sc, hashes + [d], Shortened(todo) + [FillChildren(sn[d].moves)], visited + {d}, s')
    ensures T.Step(t, s, s', 0)
  {
    hide T.Ok, T.Try, Tracks, NextChild, ValuesOf;
    s' := TryDescends(Rest(sn), t, sc, todo, visited, s, d);
    T.TryKeeps(t, {root}, s, s', 0, d);
  }

  // --- all children tried ---

  lemma PopTracks(rest: Snapshot, todo: seq<seq<Loc>>, visited: set<BookHash>, w: T.Worker<BookHash>, top: nat)
    requires Tracks(rest, todo, visited, w) && todo != [] && top == |todo| - 1
    ensures Tracks(rest, todo[..top], visited, T.Popped(w))
    ensures todo[top] == [] ==> w.todo[top] == multiset{}
  {
    assert todo[top] == [] ==> w.todo[top] == multiset{} by {
      assert TracksLevel(rest, todo[top], w.stack[top], w.todo[top]);
      assert Targets(rest[w.stack[top]].moves, []) == [];
    }
    hide TracksLevel;
    forall q | 0 <= q < top ensures TracksLevel(rest, todo[..top][q], w.stack[..top][q], w.todo[..top][q]) {
      assert TracksLevel(rest, todo[q], w.stack[q], w.todo[q]);
    }
  }

  lemma KidsInBook(sn: Snapshot, t: Task, sc: Scope, h: BookHash)
    requires ChildTask(Rest(sn), t, sc) && h in sn
    ensures KidsIn(KidsOf(sn[h].moves), ValuesOf(sn))
  {
    var kids := KidsOf(Rest(sn)[h].moves);
    forall i | 0 <= i < |kids| ensures kids[i].hash in sn {
      assert t.deps[h][i] == kids[i].hash;
      assert kids[i].hash in t.deps[h];
    }
  }

  lemma Processes(sn: Snapshot, p: Params, t: Task, root: BookHash, sc: Scope, hashes: seq<BookHash>,
                  todo: seq<seq<Loc>>, visited: set<BookHash>, s: State, h: BookHash)
    returns (s1: State, s2: State)
    requires Follows(sn, t, root, sc, hashes, todo, visited, s) && t.f == ValueRule(p, ShapesOf(sn))
    requires hashes != [] && |todo| == |hashes| && h == hashes[|hashes| - 1] && h in sn && todo[|hashes| - 1] == []
    ensures KidsIn(KidsOf(sn[h].moves), ValuesOf(sn))
    ensures T.Step(t, s, s1, 0) && T.Step(t, s1, s2, 0) && T.Ok(t, {root}, s1) && |s1.ws| == 1
    ensures Follows(sn[h := Processed(sn[h], NodeValues(p, ShapeOf(sn[h]), KidValues(KidsOf(sn[h].moves), ValuesOf(sn))),
                                      sc.doneValue)],
                    t, root, sc, hashes[..|hashes| - 1], todo[..|hashes| - 1], visited, s2)
  {
    hide T.Ok, T.Step, ChildTask, KidsOf, NodeValues, Rest, ValuesOf, Flagged;
    var top := |hashes| - 1;
    PopTracks(Rest(sn), todo, visited, s.ws[0], top);
    KidsInBook(sn, t, sc, h);
    var v := NodeValues(p, ShapeOf(sn[h]), KidValues(KidsOf(sn[h].moves), ValuesOf(sn)));
    assert t.f(h, s.vals) == v;
    s1, s2 := T.ComputeAndFinish(t, {root}, s, 0, h);
    ProcessedViews(sn, h, v, sc.doneValue);
  }

  // ---------------------------------------------------------------------------------------------
  // Runs by one worker

  lemma Solo(t: Task, h: BookHash, vals: Values) returns (s0: State, s1: State)
    requires T.ValidTask(t) && !t.checkStart && h in t.dirty && vals.Keys == t.deps.Keys
    ensures T.Initial(t, {h}, s0) && s0.vals == vals && |s0.ws| == 1 && s0.ws[0].pending == [h]
    ensures T.Step(t, s0, s1, 0) && T.Ok(t, {h}, s1)
    ensures s1.vals == vals && s1.done == {} && |s1.ws| == 1
    ensures s1.ws[0] == T.Push(t, T.Worker([], [], [], {}, false), h)
  {
    s0 := T.State(vals, {}, [T.Worker([h], [], [], {}, false)], []);
    s1 := T.Put(s0, 0, T.Push(t, T.Worker([], [], [], {}, false), h));
    assert T.Begin(t, s0, s1, 0) by {
      assert [h][1..] == [];
    }
    T.InitialOk(t, {h}, s0);
    T.BeginKeeps(t, {h}, s0, s1, 0);
  }

  lemma SoloStart(t: Task, root: BookHash, s0: State, s1: State)
    requires T.Initial(t, {root}, s0) && |s0.ws| == 1 && s0.ws[0].pending == [root] && T.Step(t, s0, s1, 0)
    ensures T.SoloRun(t, {root}, [root], [s0] + [s1])
  {
    hide T.Initial, T.Step;
    assert T.Run(t, [s0]);
    T.ExtendRun(t, {root}, [root], [s0], s1);
  }

  lemma ChildTaskFacts(rest: Snapshot, t: Task, sc: Scope)
    requires ChildTask(rest, t, sc)
    ensures T.ValidTask(t) && t.deps.Keys == rest.Keys
  {
  }

  lemma BeginsAtRoot(sn: Snapshot, t: Task, root: BookHash, sc: Scope) returns (run: seq<State>)
    requires ChildTask(Rest(sn), t, sc) && !t.checkStart && root in t.dirty && root in sn
    requires FlagsBelow(sn, sc.doneValue)
    ensures run != [] && T.SoloRun(t, {root}, [root], run) && run[0].vals == ValuesOf(sn)
    ensures Follows(sn, t, root, sc, [root], [FillChildren(sn[root].moves)], {root}, T.Last(run))
  {
    hide ChildTask, FillChildren, Rest, ValuesOf, T.Ok, T.Step, Tracks, T.Initial, Flagged, FlagsBelow, T.SoloRun;
    NoneFlagged(sn, sc.doneValue);
    ChildTaskFacts(Rest(sn), t, sc);
    var s0, s1 := Solo(t, root, ValuesOf(sn));
    RootTracks(sn, t, sc, root);
    SoloStart(t, root, s0, s1);
    run := [s0] + [s1];
  }

  lemma RootTracks(sn: Snapshot, t: Task, sc: Scope, h: BookHash)
    requires ChildTask(Rest(sn), t, sc) && h in sn
    ensures h in t.deps
    ensures Tracks(Rest(sn), [FillChildren(sn[h].moves)], {h}, T.Push(t, T.Worker([], [], [], {}, false), h))
  {
    DescendTracks(Rest(sn), t, sc, [], {}, T.Worker([], [], [], {}, false), h);
    assert [] + [FillChildren(sn[h].moves)] == [FillChildren(sn[h].moves)];
    assert {} + {h} == {h};
  }

  // ---------------------------------------------------------------------------------------------
  // The loop on the book

  /** What a traversal of b keeps: the nodes, all they hold but values and flags, and what is to be done. */
  datatype Pass = Pass(repr: set<BookNode>, rest: Snapshot, task: Task)

  ghost predicate LoopInv(b: Book, p: Params, sc: Scope, g: Pass, stack: seq<BookNode>, todo: seq<seq<Loc>>,
                          visited: set<BookHash>, s: State)
    reads b, b.nodes
  {
    && b.Indexed() && g.repr == (set n | n in b.nodes)
    && Rest(b.Snapshot()) == g.rest && g.task.f == ValueRule(p, ShapesOf(g.rest))
    && (forall n :: n in stack ==> n in b.nodes)
    && Follows(b.Snapshot(), g.task, b.root.hash, sc, HashesOf(stack), todo, visited, s)
  }

  lemma FollowsFacts(sn: Snapshot, t: Task, root: BookHash, sc: Scope, hashes: seq<BookHash>, todo: seq<seq<Loc>>,
                     visited: set<BookHash>, s: State)
    requires Follows(sn, t, root, sc, hashes, todo, visited, s)
    ensures s.vals == ValuesOf(sn) && |todo| == |hashes| && |s.ws| == 1 && T.Ok(t, {root}, s)
    ensures s.ws[0].stack == hashes && FlagsBelow(sn, sc.doneValue + 1)
    ensures hashes == [] ==> T.Finished(s)
  {
    hide T.Ok, ChildTask, Rest, ValuesOf, TracksLevel;
    assert hashes == [] ==> s.ws[0].Idle();
  }

  lemma LoopFacts(b: Book, p: Params, sc: Scope, g: Pass, stack: seq<BookNode>, todo: seq<seq<Loc>>,
                  visited: set<BookHash>, s: State)
    requires LoopInv(b, p, sc, g, stack, todo, visited, s)
    ensures b.Indexed() && Rest(b.Snapshot()) == g.rest && s.vals == ValuesOf(b.Snapshot())
    ensures FlagsBelow(b.Snapshot(), sc.doneValue + 1)
    ensures |todo| == |stack| && |s.ws| == 1 && T.Ok(g.task, {b.root.hash}, s)
    ensures stack != [] ==> stack[|stack| - 1] in b.nodes
    ensures stack == [] ==> T.Finished(s)
  {
    hide Follows, T.Ok, T.Finished, Rest, Book.Snapshot, Book.Indexed, ValuesOf;
    FollowsFacts(b.Snapshot(), g.task, b.root.hash, sc, HashesOf(stack), todo, visited, s);
  }

  lemma TopInRest(sn: Snapshot, t: Task, root: BookHash, sc: Scope, hashes: seq<BookHash>, todo: seq<seq<Loc>>,
                  visited: set<BookHash>, s: State, loc: Loc)
    requires Follows(sn, t, root, sc, hashes, todo, visited, s) && |s.ws| == 1 && |todo| == |hashes|
    requires hashes != [] && todo[|hashes| - 1] != [] && loc == todo[|hashes| - 1][|todo[|hashes| - 1]| - 1]
    ensures hashes[|hashes| - 1] in sn && loc in sn[hashes[|hashes| - 1]].moves
    ensures sn[hashes[|hashes| - 1]].moves[loc].hash in sn
    ensures NextChild(Rest(sn), todo, s.ws[0], sn[hashes[|hashes| - 1]].moves[loc].hash)
  {
    hide T.Ok, ChildTask, Tracks, T.WorkerOk;
    TheWorkerOk(t, root, s);
    NextChildIn(Rest(sn), t, root, sc, s, todo, visited, s.ws[0]);
  }

  /** The next child at the top of the stack is a node of the book. */
  lemma TopChild(b: Book, p: Params, sc: Scope, g: Pass, stack: seq<BookNode>, todo: seq<seq<Loc>>,
                 visited: set<BookHash>, s: State, loc: Loc)
    requires LoopInv(b, p, sc, g, stack, todo, visited, s) && |todo| == |stack| && |s.ws| == 1
    requires stack != [] && todo[|stack| - 1] != [] && loc == todo[|stack| - 1][|todo[|stack| - 1]| - 1]
    ensures b.Indexed() && stack[|stack| - 1] in b.nodes && loc in stack[|stack| - 1].moves
    ensures stack[|stack| - 1].moves[loc].hash in b.nodeIdx
    ensures NextChild(Rest(b.Snapshot()), todo, s.ws[0], stack[|stack| - 1].moves[loc].hash)
  {
    hide Follows, Rest, NextChild, Book.Snapshot, Book.Indexed;
    b.Has(stack[|stack| - 1]);
    TopHash(stack);
    TopInRest(b.Snapshot(), g.task, b.root.hash, sc, HashesOf(stack), todo, visited, s, loc);
  }

  lemma TheWorkerOk(t: Task, root: BookHash, s: State)
    requires T.Ok(t, {root}, s) && |s.ws| == 1
    ensures T.WorkerOk(t, {root}, s, s.ws[0])
  {
  }

  lemma TurnPasses(b: Book, p: Params, sc: Scope, g: Pass, stack: seq<BookNode>, todo: seq<seq<Loc>>,
                   visited: set<BookHash>, s: State, d: BookHash) returns (s': State)
    requires LoopInv(b, p, sc, g, stack, todo, visited, s) && |s.ws| == 1
    requires NextChild(Rest(b.Snapshot()), todo, s.ws[0], d) && d in b.nodeIdx && !NeedsVisit(b, sc, visited, d)
    ensures LoopInv(b, p, sc, g, stack, Shortened(todo), visited, s')
    ensures T.OneOrTwoSteps(g.task, {b.root.hash}, s, s, s')
  {
    hide Follows, T.Step, Rest;
    s' := PassesOver(b.Snapshot(), g.task, b.root.hash, sc, HashesOf(stack), todo, visited, s, d);
  }

  lemma TurnDescends(b: Book, p: Params, sc: Scope, g: Pass, stack: seq<BookNode>, todo: seq<seq<Loc>>,
                     visited: set<BookHash>, s: State, d: BookHash) returns (s': State)
    requires LoopInv(b, p, sc, g, stack, todo, visited, s) && |s.ws| == 1
    requires NextChild(Rest(b.Snapshot()), todo, s.ws[0], d) && d in b.nodeIdx && NeedsVisit(b, sc, visited, d)
    ensures LoopInv(b, p, sc, g, stack + [b.Get(d)], Shortened(todo) + [FillChildren(b.Get(d).moves)], visited + {d}, s')
    ensures T.OneOrTwoSteps(g.task, {b.root.hash}, s, s, s')
  {
    hide Follows, T.Step, Rest, Book.Snapshot, Book.Indexed, FillChildren, NextChild, HashesOf;
    b.At(d);
    s' := Descends(b.Snapshot(), g.task, b.root.hash, sc, HashesOf(stack), todo, visited, s, d);
    HashesGrow(stack, b.Get(d));
  }

  /** All children of the top have been tried: compute it, raise its flag and go up one level. */
  method ProcessTop(b: Book, p: Params, sc: Scope, ghost g: Pass, stack: seq<BookNode>, todo: seq<seq<Loc>>,
                    ghost visited: set<BookHash>, ghost s: State)
    returns (stack': seq<BookNode>, todo': seq<seq<Loc>>, ghost mid: State, ghost s': State)
    requires LoopInv(b, p, sc, g, stack, todo, visited, s)
    requires stack != [] && |todo| == |stack| && todo[|stack| - 1] == []
    modifies g.repr
    ensures LoopInv(b, p, sc, g, stack', todo', visited, s') && T.OneOrTwoSteps(g.task, {b.root.hash}, s, mid, s')
  {
    hide Follows, T.Step, T.Ok, Rest, Book.Snapshot, Book.Indexed, ValuesOf, NodeValues, KidsOf, KidValues, KidsIn;
    var top := |stack| - 1;
    var node := stack[top];
    b.Has(node);
    ghost var sn := b.Snapshot();
    ghost var vals := ValuesOf(sn);
    RestKeepsShapes(sn);
    mid, s' := Processes(sn, p, g.task, b.root.hash, sc, HashesOf(stack), todo, visited, s, node.hash);
    stack', todo' := stack[..top], todo[..top];
    assert HashesOf(stack') == HashesOf(stack)[..top];
    ProcessedViews(sn, node.hash, NodeValues(p, ShapeOf(sn[node.hash]), KidValues(KidsOf(sn[node.hash].moves), vals)),
                   sc.doneValue);
    ProcessNode(b, p, sc.doneValue, node, vals);
  }

  /** One turn of the traversal loop. */
  method Turn(b: Book, p: Params, sc: Scope, ghost g: Pass, stack: seq<BookNode>, todo: seq<seq<Loc>>,
              visited: set<BookHash>, ghost s: State)
    returns (stack': seq<BookNode>, todo': seq<seq<Loc>>, visited': set<BookHash>, ghost mid: State, ghost s': State)
    requires LoopInv(b, p, sc, g, stack, todo, visited, s) && stack != []
    modifies g.repr
    ensures LoopInv(b, p, sc, g, stack', todo', visited', s') && T.OneOrTwoSteps(g.task, {b.root.hash}, s, mid, s')
  {
    hide LoopInv, T.OneOrTwoSteps, T.Ok, FillChildren, Rest, ValuesOf, Book.Snapshot, Book.Indexed, NextChild;
    LoopFacts(b, p, sc, g, stack, todo, visited, s);
    if todo[|stack| - 1] != [] {
      // Take the last child still to try and descend into it if it needs a visit
      var locs := todo[|stack| - 1];
      TopChild(b, p, sc, g, stack, todo, visited, s, locs[|locs| - 1]);
      var nextChildHash := stack[|stack| - 1].moves[locs[|locs| - 1]].hash;
      stack', todo', visited', mid := stack, Shortened(todo), visited, s;
      if NeedsVisit(b, sc, visited, nextChildHash) {
        s' := TurnDescends(b, p, sc, g, stack, todo, visited, s, nextChildHash);
        var nextChild := b.Get(nextChildHash);
        stack', todo', visited' := stack + [nextChild], todo' + [FillChildren(nextChild.moves)], visited + {nextChildHash};
      } else {
        s' := TurnPasses(b, p, sc, g, stack, todo, visited, s, nextChildHash);
      }
    } else {
      stack', todo', mid, s' := ProcessTop(b, p, sc, g, stack, todo, visited, s);
      visited' := visited;
    }
  }

  method Traverse(b: Book, p: Params, sc: Scope, ghost g: Pass, ghost run0: seq<State>) returns (ghost run: seq<State>)
    requires run0 != [] && T.SoloRun(g.task, {b.root.hash}, [b.root.hash], run0)
    requires LoopInv(b, p, sc, g, [b.root], [FillChildren(b.root.moves)], {b.root.hash}, T.Last(run0))
    modifies g.repr
    ensures b.Indexed() && Rest(b.Snapshot()) == g.rest && FlagsBelow(b.Snapshot(), sc.doneValue + 1)
    ensures run != [] && T.SoloRun(g.task, {b.root.hash}, [b.root.hash], run) && run[0] == run0[0]
    ensures T.Finished(T.Last(run)) && T.Last(run).vals == ValuesOf(b.Snapshot())
  {
    hide *;
    run := run0;
    ghost var s := T.Last(run);
    var stack, todo, visited := [b.root], [FillChildren(b.root.moves)], {b.root.hash};
    LoopFacts(b, p, sc, g, stack, todo, visited, s);
    ghost var w := s.ws[0];
    while stack != []
      invariant LoopInv(b, p, sc, g, stack, todo, visited, s)
      invariant run != [] && T.SoloRun(g.task, {b.root.hash}, [b.root.hash], run) && T.Last(run) == s
      invariant run[0] == run0[0]
      invariant |s.ws| == 1 && w == s.ws[0]
      decreases |w.pending|, |g.task.dirty - w.visited|, T.Untried(w.todo), T.Height(w)
    {
      LoopFacts(b, p, sc, g, stack, todo, visited, s);
      ghost var before, mid := s, s;
      stack, todo, visited, mid, s := Turn(b, p, sc, g, stack, todo, visited, s);
      run := T.AdvanceTurn(g.task, {b.root.hash}, [b.root.hash], run, before, mid, s);
      w := s.ws[0];
    }
    LoopFacts(b, p, sc, g, stack, todo, visited, s);
  }

  lemma TaskOfBook(sn: Snapshot, p: Params, sc: Scope, root: BookHash) returns (t: Task)
    requires Linked(sn, root) && sc.dirtyNodes <= sn.Keys
    ensures t == ValueTask(p, ShapesOf(sn), if sc.allDirty then sn.Keys else sc.dirtyNodes)
    ensures ChildTask(Rest(sn), t, sc) && t.f == ValueRule(p, ShapesOf(Rest(sn)))
  {
    t := ValueTask(p, ShapesOf(sn), if sc.allDirty then sn.Keys else sc.dirtyNodes);
    LinkedCloses(sn, root);
    ValueTaskOk(p, ShapesOf(sn), t.dirty);
    RestKeepsShapes(sn);
  }

  lemma StartInv(b: Book, p: Params, sc: Scope, g: Pass, s: State)
    requires b.Indexed() && g.repr == (set n | n in b.nodes)
    requires Rest(b.Snapshot()) == g.rest && g.task.f == ValueRule(p, ShapesOf(g.rest))
    requires b.root.hash in b.Snapshot()
    requires Follows(b.Snapshot(), g.task, b.root.hash, sc, [b.root.hash],
                     [FillChildren(b.Snapshot()[b.root.hash].moves)], {b.root.hash}, s)
    ensures LoopInv(b, p, sc, g, [b.root], [FillChildren(b.root.moves)], {b.root.hash}, s)
  {
    hide Follows, Rest, FillChildren, Book.Snapshot, Book.Indexed;
    b.RootIn();
    b.Has(b.root);
    assert HashesOf([b.root]) == [b.root.hash];
  }

  /**
   Visit the dirty nodes children first, recomputing each. The loop is a run of the traversal
   machine by a single worker; it ends on cyclic books too.
   */
  method IterateDirtyNodesPostOrder(b: Book, p: Params, sc: Scope) returns (ghost t: Task, ghost run: seq<State>)
    requires b.Valid() && sc.dirtyNodes <= b.nodeIdx.Keys
    requires sc.allDirty || sc.dirtyNodes == {} || b.root.hash in sc.dirtyNodes
    requires FlagsBelow(b.Snapshot(), sc.doneValue)
    modifies b.nodes
    ensures b.Indexed() && FlagsBelow(b.Snapshot(), sc.doneValue + 1)
    ensures b.Indexed() && Rest(b.Snapshot()) == old(Rest(b.Snapshot()))
    ensures t == ValueTask(p, old(ShapesOf(b.Snapshot())), if sc.allDirty then b.nodeIdx.Keys else sc.dirtyNodes)
    ensures !sc.allDirty && sc.dirtyNodes == {} ==> b.Snapshot() == old(b.Snapshot())
    ensures sc.allDirty || sc.dirtyNodes != {} ==>
      && run != [] && T.SoloRun(t, {b.root.hash}, [b.root.hash], run) && T.Finished(T.Last(run))
      && run[0].vals == old(ValuesOf(b.Snapshot())) && T.Last(run).vals == ValuesOf(b.Snapshot())
  {
    hide Linked, ChildTask, Rest, FlagsBelow, T.SoloRun, LoopInv, Follows, ValuesOf, ShapesOf, FillChildren,
         ValueRule, T.Finished, BestParentsOk, Book.Snapshot;
    ghost var sn := b.Snapshot();
    NoneFlagged(sn, sc.doneValue);
    t := TaskOfBook(sn, p, sc, b.root.hash);
    run := [];
    if !sc.allDirty && |sc.dirtyNodes| <= 0 {
      return;
    }
    b.RootIn();
    ghost var g := Pass((set n | n in b.nodes), Rest(sn), t);
    ghost var run0 := BeginsAtRoot(sn, t, b.root.hash, sc);
    StartInv(b, p, sc, g, T.Last(run0));
    run := Traverse(b, p, sc, g, run0);
  }
}
