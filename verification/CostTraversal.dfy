/**
 iterateEntireBookPreOrder with the node function of the cost pass: from every node of the book in
 turn a reverse depth-first search over parents, so that parents are processed before children.
 */
module CostTraversal {
  import opened BookData
  import opened CostRules
  import opened CostTasks
  import opened CostPass
  import opened MarkDirty
  import T = Traversal

  type State = T.State<BookHash, NodeCosts>
  type Task = T.Task<BookHash, NodeCosts>

  // ---------------------------------------------------------------------------------------------
  // The loop's variables as the state of a traversal by one worker

  ghost predicate TracksLevel(rest: Snapshot, idx: nat, h: BookHash, bag: multiset<BookHash>) {
    && h in rest && idx <= |rest[h].parents|
    && bag == multiset(ParentHashes(rest[h].parents)[idx..])
  }

  ghost predicate Tracks(rest: Snapshot, idxs: seq<nat>, visited: set<BookHash>, w: T.Worker<BookHash>) {
    && |w.stack| == |idxs| && |w.todo| == |idxs|
    && (forall p :: 0 <= p < |idxs| ==> TracksLevel(rest, idxs[p], w.stack[p], w.todo[p]))
    && (idxs != [] ==> w.visited == visited) && !w.computed
  }

  /** The dependencies are the nodes' parents, and all nodes are processed. */
  ghost predicate ParentTask(rest: Snapshot, t: Task) {
    && T.ValidTask(t) && t.deps.Keys == rest.Keys && t.dirty == rest.Keys && t.checkStart
    && (forall h {:trigger t.deps[h]} :: h in rest ==> t.deps[h] == ParentHashes(rest[h].parents))
  }

  /** Where the two nested loops are: nodes not tried yet as starts, and the search under way. */
  datatype At = At(pending: seq<BookHash>, hashes: seq<BookHash>, idxs: seq<nat>, visited: set<BookHash>,
                   processed: set<BookHash>)

  ghost predicate Follows(sn: Snapshot, root: BookHash, t: Task, doneValue: int, at: At, s: State) {
    && ParentTask(CostRest(sn, root), t)
    && T.Ok(t, sn.Keys, s) && |s.ws| == 1 && s.ws[0].stack == at.hashes && s.ws[0].pending == at.pending
    && Tracks(CostRest(sn, root), at.idxs, at.visited, s.ws[0])
    && s.vals == CostsOf(sn)
    && s.done == at.processed == Flagged(sn, doneValue)
    && FlagsBelow(sn, doneValue + 1)
    && (forall h :: h in at.hashes ==> h !in at.processed)
  }

  lemma TracksSizes(rest: Snapshot, idxs: seq<nat>, visited: set<BookHash>, w: T.Worker<BookHash>)
    requires Tracks(rest, idxs, visited, w)
    ensures |w.stack| == |idxs| && |w.todo| == |idxs| && !w.computed
    ensures idxs != [] ==> w.visited == visited
  {
  }

  // --- one parent ---

  ghost predicate NextParent(rest: Snapshot, idxs: seq<nat>, w: T.Worker<BookHash>, d: BookHash) {
    && idxs != [] && |w.stack| == |idxs|
    && var h := w.stack[|idxs| - 1];
    && h in rest && idxs[|idxs| - 1] < |rest[h].parents| && d == rest[h].parents[idxs[|idxs| - 1]].0
  }

  function Bumped(idxs: seq<nat>): (idxs': seq<nat>)
    requires idxs != []
    ensures |idxs'| == |idxs|
  {
    idxs[|idxs| - 1 := idxs[|idxs| - 1] + 1]
  }

  ghost function Without(w: T.Worker<BookHash>, d: BookHash): T.Worker<BookHash>
    requires w.stack != [] && |w.todo| == |w.stack|
  {
    w.(todo := w.todo[|w.stack| - 1 := w.todo[|w.stack| - 1] - multiset{d}])
  }

  lemma LevelBumped(rest: Snapshot, idx: nat, h: BookHash, bag: multiset<BookHash>)
    requires TracksLevel(rest, idx, h, bag) && idx < |rest[h].parents|
    ensures rest[h].parents[idx].0 in bag
    ensures TracksLevel(rest, idx + 1, h, bag - multiset{rest[h].parents[idx].0})
  {
    var hs := ParentHashes(rest[h].parents);
    assert hs[idx..] == [hs[idx]] + hs[idx + 1..];
  }

  lemma BumpTracks(rest: Snapshot, idxs: seq<nat>, visited: set<BookHash>, w: T.Worker<BookHash>, d: BookHash)
    requires Tracks(rest, idxs, visited, w) && NextParent(rest, idxs, w, d)
    ensures d in w.todo[|idxs| - 1]
    ensures Tracks(rest, Bumped(idxs), visited, Without(w, d))
  {
    hide TracksLevel;
    var top := |idxs| - 1;
    LevelBumped(rest, idxs[top], w.stack[top], w.todo[top]);
    var idxs', w' := Bumped(idxs), Without(w, d);
    forall q | 0 <= q < |idxs'| ensures TracksLevel(rest, idxs'[q], w'.stack[q], w'.todo[q]) {
      assert TracksLevel(rest, idxs[q], w.stack[q], w.todo[q]);
    }
  }

  lemma FreshLevel(rest: Snapshot, t: Task, d: BookHash)
    requires ParentTask(rest, t) && d in rest
    ensures d in t.deps && TracksLevel(rest, 0, d, multiset(t.deps[d]))
  {
    assert t.deps[d][0..] == t.deps[d];
  }

  lemma PushTracks(rest: Snapshot, t: Task, idxs: seq<nat>, visited: set<BookHash>, w: T.Worker<BookHash>, d: BookHash)
    requires ParentTask(rest, t) && Tracks(rest, idxs, visited, w) && w.visited == visited && d in rest
    ensures d in t.deps
    ensures Tracks(rest, idxs + [0], visited + {d}, T.Push(t, w, d))
  {
    FreshLevel(rest, t, d);
    hide TracksLevel, ParentTask;
    var idxs', w' := idxs + [0], T.Push(t, w, d);
    forall q | 0 <= q < |idxs'| ensures TracksLevel(rest, idxs'[q], w'.stack[q], w'.todo[q]) {
      if q < |idxs| {
        assert TracksLevel(rest, idxs[q], w.stack[q], w.todo[q]);
      }
    }
  }

  lemma TrySkips(rest: Snapshot, t: Task, idxs: seq<nat>, visited: set<BookHash>, s: State, d: BookHash)
    returns (s': State)
    requires |s.ws| == 1 && Tracks(rest, idxs, visited, s.ws[0]) && NextParent(rest, idxs, s.ws[0], d) && d in t.deps
    requires d in visited || d !in t.dirty || d in s.done
    ensures T.Try(t, s, s', 0, d) && s' == T.Put(s, 0, Without(s.ws[0], d))
    ensures Tracks(rest, Bumped(idxs), visited, s'.ws[0])
  {
    hide Tracks;
    TracksSizes(rest, idxs, visited, s.ws[0]);
    BumpTracks(rest, idxs, visited, s.ws[0], d);
    s' := T.Put(s, 0, Without(s.ws[0], d));
  }

  lemma TryPushes(rest: Snapshot, t: Task, idxs: seq<nat>, visited: set<BookHash>, s: State, d: BookHash)
    returns (s': State)
    requires ParentTask(rest, t) && d in rest
    requires |s.ws| == 1 && Tracks(rest, idxs, visited, s.ws[0]) && NextParent(rest, idxs, s.ws[0], d)
    requires d !in visited && d in t.dirty && d !in s.done
    ensures d in t.deps && T.Try(t, s, s', 0, d) && s' == T.Put(s, 0, T.Push(t, Without(s.ws[0], d), d))
    ensures Tracks(rest, Bumped(idxs) + [0], visited + {d}, s'.ws[0])
  {
    hide Tracks, ParentTask;
    TracksSizes(rest, idxs, visited, s.ws[0]);
    BumpTracks(rest, idxs, visited, s.ws[0], d);
    PushTracks(rest, t, Bumped(idxs), visited, Without(s.ws[0], d), d);
    s' := T.Put(s, 0, T.Push(t, Without(s.ws[0], d), d));
  }

  lemma SkipsParent(sn: Snapshot, root: BookHash, t: Task, doneValue: int, at: At, s: State,
                    d: BookHash) returns (s': State)
    requires Follows(sn, root, t, doneValue, at, s) && NextParent(CostRest(sn, root), at.idxs, s.ws[0], d) && d in sn
    requires d in at.visited || sn[d].flag == doneValue
    ensures Follows(sn, root, t, doneValue, at.(idxs := Bumped(at.idxs)), s') && T.Step(t, s, s', 0)
  {
    hide T.Ok, T.Try, Tracks, NextParent, CostRest, CostsOf;
    s' := TrySkips(CostRest(sn, root), t, at.idxs, at.visited, s, d);
    T.TryKeeps(t, sn.Keys, s, s', 0, d);
  }

  lemma PushesParent(sn: Snapshot, root: BookHash, t: Task, doneValue: int, at: At, s: State,
                     d: BookHash) returns (s': State)
    requires Follows(sn, root, t, doneValue, at, s) && NextParent(CostRest(sn, root), at.idxs, s.ws[0], d) && d in sn
    requires d !in at.visited && sn[d].flag != doneValue
    ensures Follows(sn, root, t, doneValue,
              at.(hashes := at.hashes + [d], idxs := Bumped(at.idxs) + [0], visited := at.visited + {d}), s')
    ensures T.Step(t, s, s', 0)
  {
    hide T.Ok, T.Try, Tracks, NextParent, CostRest, CostsOf;
    s' := TryPushes(CostRest(sn, root), t, at.idxs, at.visited, s, d);
    T.TryKeeps(t, sn.Keys, s, s', 0, d);
  }

  // --- starts ---

  lemma StartTracks(rest: Snapshot, t: Task, w: T.Worker<BookHash>, d: BookHash)
    requires ParentTask(rest, t) && d in rest && w.stack == [] && w.todo == [] && !w.computed && w.visited == {}
    ensures d in t.deps
    ensures Tracks(rest, [0], {d}, T.Push(t, w, d))
  {
    PushTracks(rest, t, [], {}, w, d);
    assert [] + [0] == [0];
    assert {} + {d} == {d};
  }

  lemma BeginPushes(rest: Snapshot, t: Task, pending: seq<BookHash>, visited: set<BookHash>,
                    s: State) returns (s': State)
    requires ParentTask(rest, t) && |s.ws| == 1 && Tracks(rest, [], visited, s.ws[0])
    requires pending == s.ws[0].pending && pending != [] && pending[0] in rest && pending[0] !in s.done
    ensures pending[0] in t.deps && T.Begin(t, s, s', 0)
    ensures s' == T.Put(s, 0, T.Push(t, s.ws[0].(pending := pending[1..], visited := {}), pending[0]))
    ensures s'.ws[0].stack == [pending[0]] && s'.ws[0].pending == pending[1..]
    ensures Tracks(rest, [0], {pending[0]}, s'.ws[0])
  {
    TracksSizes(rest, [], visited, s.ws[0]);
    var w := s.ws[0].(pending := pending[1..], visited := {});
    hide Tracks;
    StartTracks(rest, t, w, pending[0]);
    s' := T.Put(s, 0, T.Push(t, w, pending[0]));
  }

  lemma SkipsStart(sn: Snapshot, root: BookHash, t: Task, doneValue: int, at: At, s: State) returns (s': State)
    requires Follows(sn, root, t, doneValue, at, s) && at.hashes == [] && at.pending != [] && at.pending[0] in sn
    requires sn[at.pending[0]].flag == doneValue
    ensures Follows(sn, root, t, doneValue, at.(pending := at.pending[1..]), s') && T.Step(t, s, s', 0)
  {
    hide T.Ok, CostRest, CostsOf, TracksLevel;
    s' := T.Put(s, 0, s.ws[0].(pending := at.pending[1..]));
    assert T.Begin(t, s, s', 0);
    T.BeginKeeps(t, sn.Keys, s, s', 0);
  }

  lemma Starts(sn: Snapshot, root: BookHash, t: Task, doneValue: int, at: At, s: State) returns (s': State)
    requires Follows(sn, root, t, doneValue, at, s) && at.hashes == [] && at.pending != [] && at.pending[0] in sn
    requires sn[at.pending[0]].flag != doneValue
    ensures Follows(sn, root, t, doneValue,
              at.(pending := at.pending[1..], hashes := [at.pending[0]], idxs := [0], visited := {at.pending[0]}), s')
    ensures T.Step(t, s, s', 0)
  {
    hide T.Ok, CostRest, CostsOf, Tracks, T.Begin;
    StackEmpty(CostRest(sn, root), at.idxs, at.visited, s.ws[0]);
    s' := BeginPushes(CostRest(sn, root), t, at.pending, at.visited, s);
    T.BeginKeeps(t, sn.Keys, s, s', 0);
  }

  lemma StackEmpty(rest: Snapshot, idxs: seq<nat>, visited: set<BookHash>, w: T.Worker<BookHash>)
    requires Tracks(rest, idxs, visited, w) && w.stack == []
    ensures idxs == []
  {
  }

  // --- all parents tried ---

  lemma PopTracks(rest: Snapshot, idxs: seq<nat>, visited: set<BookHash>, w: T.Worker<BookHash>, top: nat)
    requires Tracks(rest, idxs, visited, w) && idxs != [] && top == |idxs| - 1
    ensures Tracks(rest, idxs[..top], visited, T.Popped(w))
    ensures w.stack[top] in rest
    ensures idxs[top] >= |rest[w.stack[top]].parents| ==> w.todo[top] == multiset{}
  {
    assert TracksLevel(rest, idxs[top], w.stack[top], w.todo[top]);
    hide TracksLevel;
    forall q | 0 <= q < top ensures TracksLevel(rest, idxs[..top][q], w.stack[..top][q], w.todo[..top][q]) {
      assert TracksLevel(rest, idxs[q], w.stack[q], w.todo[q]);
    }
  }

  lemma EntriesInBook(sn: Snapshot, root: BookHash, h: BookHash)
    requires LinkedShapes(CostShapesOf(sn, root)) && h in sn
    ensures EntriesIn(sn[h].parents, CostsOf(sn))
  {
    var ps := sn[h].parents;
    forall i | 0 <= i < |ps| ensures ps[i].0 in sn && ps[i].1 in CostsOf(sn)[ps[i].0].moves {
      assert ps[i] in CostShapesOf(sn, root)[h].parents;
    }
  }

  lemma Processes(sn: Snapshot, cp: CostParams, root: BookHash, t: Task, doneValue: int, at: At, s: State, h: BookHash)
    returns (s1: State, s2: State)
    requires Follows(sn, root, t, doneValue, at, s) && t.f == CostRule(cp, CostShapesOf(sn, root))
      && LinkedShapes(CostShapesOf(sn, root))
    requires at.hashes != [] && |at.idxs| == |at.hashes| && h == at.hashes[|at.hashes| - 1] && h in sn
    requires at.idxs[|at.hashes| - 1] >= |sn[h].parents|
    ensures EntriesIn(sn[h].parents, CostsOf(sn))
    ensures T.Step(t, s, s1, 0) && T.Step(t, s1, s2, 0) && T.Ok(t, sn.Keys, s1) && |s1.ws| == 1
    ensures Follows(AfterNode(cp, sn, root, h, doneValue), root, t, doneValue,
              at.(hashes := at.hashes[..|at.hashes| - 1], idxs := at.idxs[..|at.hashes| - 1],
                  processed := at.processed + {h}), s2)
  {
    hide T.Ok, T.Step, ParentTask, CostsOf, Flagged, FlagsBelow, LinkedShapes, CostAt, AfterNode, Tracks;
    var top := |at.hashes| - 1;
    TracksSizes(CostRest(sn, root), at.idxs, at.visited, s.ws[0]);
    PopTracks(CostRest(sn, root), at.idxs, at.visited, s.ws[0], top);
    EntriesInBook(sn, root, h);
    s1, s2 := T.ComputeAndFinish(t, sn.Keys, s, 0, h);
    AfterNodeViews(cp, sn, root, h, doneValue);
    assert AfterNode(cp, sn, root, h, doneValue).Keys == sn.Keys by { SameKeys(cp, sn, root, h, doneValue); }
    TopOnce(t, sn.Keys, s, top);
    StillUnprocessed(at.hashes, at.processed, top);
  }

  lemma StillUnprocessed(hashes: seq<BookHash>, processed: set<BookHash>, top: nat)
    requires top < |hashes| && hashes[top] !in hashes[..top] && forall h :: h in hashes ==> h !in processed
    ensures forall h :: h in hashes[..top] ==> h !in processed + {hashes[top]}
  {
  }

  lemma TopOnce(t: Task, roots: set<BookHash>, s: State, top: nat)
    requires T.Ok(t, roots, s) && |s.ws| == 1 && top == |s.ws[0].stack| - 1
    ensures s.ws[0].stack[top] !in s.ws[0].stack[..top]
  {
    assert T.WorkerOk(t, roots, s, s.ws[0]);
  }

  lemma SameKeys(cp: CostParams, sn: Snapshot, root: BookHash, h: BookHash, doneValue: int)
    requires h in sn && EntriesIn(sn[h].parents, CostsOf(sn))
    ensures AfterNode(cp, sn, root, h, doneValue).Keys == sn.Keys
  {
  }

  lemma FollowsFacts(sn: Snapshot, root: BookHash, t: Task, doneValue: int, at: At, s: State)
    requires Follows(sn, root, t, doneValue, at, s)
    ensures s.vals == CostsOf(sn) && |at.idxs| == |at.hashes| && |s.ws| == 1 && T.Ok(t, sn.Keys, s)
    ensures FlagsBelow(sn, doneValue + 1)
    ensures s.ws[0].stack == at.hashes && forall h :: h in at.hashes ==> h !in at.processed
    ensures at.hashes == [] && at.pending == [] ==> T.Finished(s)
  {
    hide T.Ok, ParentTask, CostRest, CostsOf, TracksLevel;
    assert at.hashes == [] && at.pending == [] ==> s.ws[0].Idle();
  }

  lemma InitialFollows(sn: Snapshot, root: BookHash, t: Task, doneValue: int, pending: seq<BookHash>) returns (s: State)
    requires ParentTask(CostRest(sn, root), t) && FlagsBelow(sn, doneValue)
    requires forall h :: h in pending <==> h in sn
    ensures T.SoloRun(t, sn.Keys, pending, [s]) && s.vals == CostsOf(sn)
    ensures Follows(sn, root, t, doneValue, At(pending, [], [], {}, {}), s)
  {
    hide CostsOf, CostRest;
    NoneFlagged(sn, doneValue);
    s := T.State(CostsOf(sn), {}, [T.Worker(pending, [], [], {}, false)], []);
    T.InitialOk(t, sn.Keys, s);
  }

  // ---------------------------------------------------------------------------------------------
  // The loops on the book

  /** What a traversal of b keeps: the nodes, all the pass does not write, and what is to be done. */
  datatype Pass = Pass(repr: set<BookNode>, nodes: seq<BookNode>, rest: Snapshot, task: Task)

  ghost predicate MovesClosed(sn: Snapshot) {
    forall h, loc :: h in sn && loc in sn[h].moves ==> sn[h].moves[loc].hash in sn
  }

  ghost predicate PassOk(b: Book, cp: CostParams, g: Pass)
    reads b, b.nodes
  {
    && b.Indexed() && g.repr == (set n | n in b.nodes) && g.nodes == b.nodes
    && CostRest(b.Snapshot(), b.root.hash) == g.rest && g.task.f == CostRule(cp, CostShapesOf(g.rest, b.root.hash))
    && LinkedShapes(CostShapesOf(g.rest, b.root.hash)) && MovesClosed(g.rest)
  }

  ghost predicate LoopInv(b: Book, cp: CostParams, doneValue: int, g: Pass, next: nat, stack: seq<BookNode>,
                          idxs: seq<nat>, visited: set<BookHash>, processed: set<BookHash>, s: State)
    reads b, b.nodes
  {
    && PassOk(b, cp, g) && next <= |g.nodes| && (forall n :: n in stack ==> n in b.nodes)
    && Follows(b.Snapshot(), b.root.hash, g.task, doneValue,
               At(HashesOf(g.nodes)[next..], HashesOf(stack), idxs, visited, processed), s)
  }

  lemma LoopFacts(b: Book, cp: CostParams, doneValue: int, g: Pass, next: nat, stack: seq<BookNode>, idxs: seq<nat>,
                  visited: set<BookHash>, processed: set<BookHash>, s: State)
    requires LoopInv(b, cp, doneValue, g, next, stack, idxs, visited, processed, s)
    ensures b.Indexed() && b.nodes == g.nodes && next <= |b.nodes| && b.nodeIdx.Keys == g.rest.Keys
    ensures CostRest(b.Snapshot(), b.root.hash) == g.rest && s.vals == CostsOf(b.Snapshot())
    ensures FlagsBelow(b.Snapshot(), doneValue + 1)
    ensures |idxs| == |stack| && |s.ws| == 1 && T.Ok(g.task, g.rest.Keys, s)
    ensures stack != [] ==> stack[|stack| - 1] in b.nodes && stack[|stack| - 1].hash !in processed
    ensures stack == [] && next == |b.nodes| ==> T.Finished(s)
  {
    hide Follows, T.Ok, T.Finished, CostRest, Book.Snapshot, Book.Indexed, CostsOf, LinkedShapes, MovesClosed;
    var at := At(HashesOf(g.nodes)[next..], HashesOf(stack), idxs, visited, processed);
    FollowsFacts(b.Snapshot(), b.root.hash, g.task, doneValue, at, s);
    if stack != [] {
      assert HashesOf(stack)[|stack| - 1] in HashesOf(stack);
    }
  }

  lemma RestParents(sn: Snapshot, root: BookHash, h: BookHash)
    requires h in sn
    ensures CostRest(sn, root)[h].parents == sn[h].parents
  {
  }

  lemma ParentInRest(rest: Snapshot, root: BookHash, h: BookHash, k: nat)
    requires LinkedShapes(CostShapesOf(rest, root)) && h in rest && k < |rest[h].parents|
    ensures rest[h].parents[k].0 in rest
  {
    assert rest[h].parents[k] in CostShapesOf(rest, root)[h].parents;
  }

  lemma TopInRest(sn: Snapshot, root: BookHash, t: Task, doneValue: int, at: At, s: State, top: nat)
    requires Follows(sn, root, t, doneValue, at, s) && top == |at.hashes| - 1 && |at.idxs| == |at.hashes|
    requires LinkedShapes(CostShapesOf(CostRest(sn, root), root))
    requires at.hashes[top] in sn && at.idxs[top] < |sn[at.hashes[top]].parents|
    ensures sn[at.hashes[top]].parents[at.idxs[top]].0 in sn && |s.ws| == 1
    ensures NextParent(CostRest(sn, root), at.idxs, s.ws[0], sn[at.hashes[top]].parents[at.idxs[top]].0)
  {
    hide T.Ok, ParentTask, CostRest, CostsOf, Tracks, LinkedShapes, CostShapesOf;
    TracksSizes(CostRest(sn, root), at.idxs, at.visited, s.ws[0]);
    RestParents(sn, root, at.hashes[top]);
    ParentInRest(CostRest(sn, root), root, at.hashes[top], at.idxs[top]);
  }

  lemma TopParent(b: Book, cp: CostParams, doneValue: int, g: Pass, next: nat, stack: seq<BookNode>, idxs: seq<nat>,
                  visited: set<BookHash>, processed: set<BookHash>, s: State)
    requires LoopInv(b, cp, doneValue, g, next, stack, idxs, visited, processed, s)
    requires |idxs| == |stack| && |s.ws| == 1 && stack != [] && idxs[|stack| - 1] < |stack[|stack| - 1].parents|
    ensures b.Indexed() && stack[|stack| - 1] in b.nodes
    ensures stack[|stack| - 1].parents[idxs[|stack| - 1]].0 in b.nodeIdx
    ensures NextParent(CostRest(b.Snapshot(), b.root.hash), idxs, s.ws[0], stack[|stack| - 1].parents[idxs[|stack| - 1]].0)
  {
    hide Follows, Book.Snapshot, Book.Indexed, LinkedShapes, MovesClosed, CostRest, CostShapesOf, NextParent;
    b.Has(stack[|stack| - 1]);
    TopHash(stack);
    TopInRest(b.Snapshot(), b.root.hash, g.task, doneValue,
              At(HashesOf(g.nodes)[next..], HashesOf(stack), idxs, visited, processed), s, |stack| - 1);
  }

  lemma TurnSkips(b: Book, cp: CostParams, doneValue: int, g: Pass, next: nat, stack: seq<BookNode>, idxs: seq<nat>,
                  visited: set<BookHash>, processed: set<BookHash>, s: State, d: BookHash) returns (s': State)
    requires LoopInv(b, cp, doneValue, g, next, stack, idxs, visited, processed, s) && |s.ws| == 1
    requires NextParent(CostRest(b.Snapshot(), b.root.hash), idxs, s.ws[0], d) && d in b.nodeIdx
    requires d in visited || b.Get(d).visitedFlag == doneValue
    ensures LoopInv(b, cp, doneValue, g, next, stack, Bumped(idxs), visited, processed, s')
    ensures T.OneOrTwoSteps(g.task, g.rest.Keys, s, s, s')
  {
    hide Follows, T.Step, CostRest, Book.Snapshot, Book.Indexed, LinkedShapes, MovesClosed;
    b.At(d);
    s' := SkipsParent(b.Snapshot(), b.root.hash, g.task, doneValue,
                      At(HashesOf(g.nodes)[next..], HashesOf(stack), idxs, visited, processed), s, d);
  }

  /** The first parent a newly found node tries: none when the node was processed before. */
  function FirstParent(processed: set<BookHash>, node: BookNode): nat
    reads node
  {
    if node.hash in processed then |node.parents| else 0
  }

  lemma FlagMeansProcessed(sn: Snapshot, root: BookHash, t: Task, doneValue: int, at: At, s: State, d: BookHash)
    requires Follows(sn, root, t, doneValue, at, s) && d in sn
    ensures d in at.processed <==> sn[d].flag == doneValue
  {
  }

  lemma TurnPushes(b: Book, cp: CostParams, doneValue: int, g: Pass, next: nat, stack: seq<BookNode>, idxs: seq<nat>,
                   visited: set<BookHash>, processed: set<BookHash>, s: State, d: BookHash) returns (s': State)
    requires LoopInv(b, cp, doneValue, g, next, stack, idxs, visited, processed, s) && |s.ws| == 1
    requires NextParent(CostRest(b.Snapshot(), b.root.hash), idxs, s.ws[0], d) && d in b.nodeIdx
    requires d !in visited && b.Get(d).visitedFlag != doneValue
    ensures LoopInv(b, cp, doneValue, g, next, stack + [b.Get(d)], Bumped(idxs) + [FirstParent(processed, b.Get(d))],
                    visited + {d}, processed, s')
    ensures T.OneOrTwoSteps(g.task, g.rest.Keys, s, s, s')
  {
    hide Follows, T.Step, CostRest, Book.Snapshot, Book.Indexed, LinkedShapes, MovesClosed;
    b.At(d);
    var at := At(HashesOf(g.nodes)[next..], HashesOf(stack), idxs, visited, processed);
    FlagMeansProcessed(b.Snapshot(), b.root.hash, g.task, doneValue, at, s, d);
    s' := PushesParent(b.Snapshot(), b.root.hash, g.task, doneValue, at, s, d);
    HashesGrow(stack, b.Get(d));
  }

  lemma AfterKeepsPass(cp: CostParams, sn: Snapshot, root: BookHash, h: BookHash, doneValue: int)
    requires h in sn && EntriesIn(sn[h].parents, CostsOf(sn))
    ensures CostRest(AfterNode(cp, sn, root, h, doneValue), root) == CostRest(sn, root)
  {
    AfterNodeViews(cp, sn, root, h, doneValue);
  }

  lemma NodeMovesIn(b: Book, g: Pass, node: BookNode)
    requires b.Indexed() && node in b.nodes && CostRest(b.Snapshot(), b.root.hash) == g.rest && MovesClosed(g.rest)
    ensures MovesIn(b, node)
  {
    b.Has(node);
    forall loc | loc in node.moves ensures node.moves[loc].hash in b.nodeIdx {
      assert loc in g.rest[node.hash].moves;
    }
  }

  /** All parents of the top have been tried: compute its costs, raise its flag and go up one level. */
  method ProcessTop(b: Book, cp: CostParams, doneValue: int, ghost g: Pass, ghost next: nat, stack: seq<BookNode>,
                    idxs: seq<nat>, ghost visited: set<BookHash>, processed: set<BookHash>, ghost s: State)
    returns (stack': seq<BookNode>, idxs': seq<nat>, processed': set<BookHash>, ghost mid: State, ghost s': State)
    requires LoopInv(b, cp, doneValue, g, next, stack, idxs, visited, processed, s) && |idxs| == |stack| && stack != []
    requires idxs[|stack| - 1] >= |stack[|stack| - 1].parents|
    modifies g.repr
    ensures LoopInv(b, cp, doneValue, g, next, stack', idxs', visited, processed', s')
    ensures T.OneOrTwoSteps(g.task, g.rest.Keys, s, mid, s')
  {
    hide Follows, T.Step, T.Ok, CostRest, Book.Snapshot, Book.Indexed, LinkedShapes, MovesClosed, CostShapesOf,
         AfterNode, EntriesIn, CostsOf, MovesIn;
    var top := |stack| - 1;
    var node := stack[top];
    ghost var sn := b.Snapshot();
    b.Has(node);
    NodeMovesIn(b, g, node);
    ShapesFromRest(sn, b.root.hash);
    mid, s' := Processes(sn, cp, b.root.hash, g.task, doneValue,
                         At(HashesOf(g.nodes)[next..], HashesOf(stack), idxs, visited, processed), s, node.hash);
    AfterKeepsPass(cp, sn, b.root.hash, node.hash, doneValue);
    stack', idxs', processed' := stack[..top], idxs[..top], processed + {node.hash};
    assert HashesOf(stack') == HashesOf(stack)[..top];
    ProcessCostNode(b, cp, doneValue, node, sn);
  }

  /** One turn of the search: try the next parent of the top, or finish the top. */
  method Turn(b: Book, cp: CostParams, doneValue: int, ghost g: Pass, ghost next: nat, stack: seq<BookNode>,
              idxs: seq<nat>, visited: set<BookHash>, processed: set<BookHash>, ghost s: State)
    returns (stack': seq<BookNode>, idxs': seq<nat>, visited': set<BookHash>, processed': set<BookHash>,
             ghost mid: State, ghost s': State)
    requires LoopInv(b, cp, doneValue, g, next, stack, idxs, visited, processed, s) && stack != []
    modifies g.repr
    ensures LoopInv(b, cp, doneValue, g, next, stack', idxs', visited', processed', s')
    ensures T.OneOrTwoSteps(g.task, g.rest.Keys, s, mid, s')
  {
    hide LoopInv, T.OneOrTwoSteps, T.Ok, CostRest, CostsOf, Book.Snapshot, Book.Indexed, NextParent;
    LoopFacts(b, cp, doneValue, g, next, stack, idxs, visited, processed, s);
    var node := stack[|stack| - 1];
    if idxs[|stack| - 1] < |node.parents| {
      TopParent(b, cp, doneValue, g, next, stack, idxs, visited, processed, s);
      var nextParentHash := node.parents[idxs[|stack| - 1]].0;
      stack', idxs', visited', processed', mid := stack, Bumped(idxs), visited, processed, s;
      if nextParentHash !in visited && b.Get(nextParentHash).visitedFlag != doneValue {
        s' := TurnPushes(b, cp, doneValue, g, next, stack, idxs, visited, processed, s, nextParentHash);
        var nextParent := b.Get(nextParentHash);
        stack', idxs' := stack + [nextParent], idxs' + [FirstParent(processed, nextParent)];
        visited' := visited + {nextParentHash};
      } else {
        s' := TurnSkips(b, cp, doneValue, g, next, stack, idxs, visited, processed, s, nextParentHash);
      }
    } else {
      // LoopFacts: the top was not processed before, so the finishing function always runs
      stack', idxs', processed', mid, s' := ProcessTop(b, cp, doneValue, g, next, stack, idxs, visited, processed, s);
      visited' := visited;
    }
  }

  lemma DropFirst(nodes: seq<BookNode>, next: nat)
    requires next < |nodes|
    ensures HashesOf(nodes)[next..] == [nodes[next].hash] + HashesOf(nodes)[next + 1..]
  {
  }

  lemma StartsAt(b: Book, cp: CostParams, doneValue: int, g: Pass, next: nat, visited: set<BookHash>,
                 processed: set<BookHash>, s: State) returns (s': State)
    requires LoopInv(b, cp, doneValue, g, next, [], [], visited, processed, s) && b.Indexed() && b.nodes == g.nodes
    requires next < |b.nodes|
    ensures var n := b.nodes[next];
            if n.hash in processed || n.visitedFlag == doneValue
            then LoopInv(b, cp, doneValue, g, next + 1, [], [], visited, processed, s')
            else LoopInv(b, cp, doneValue, g, next + 1, [n], [FirstParent(processed, n)], {n.hash}, processed, s')
    ensures T.OneOrTwoSteps(g.task, g.rest.Keys, s, s, s')
  {
    hide Follows, T.Step, CostRest, Book.Snapshot, Book.Indexed, LinkedShapes, MovesClosed, CostShapesOf, HashesOf;
    var n := b.nodes[next];
    assert n in b.nodes;
    b.Has(n);
    DropFirst(g.nodes, next);
    assert HashesOf([]) == [];
    var at := At(HashesOf(g.nodes)[next..], [], [], visited, processed);
    FlagMeansProcessed(b.Snapshot(), b.root.hash, g.task, doneValue, at, s, n.hash);
    if n.visitedFlag == doneValue {
      s' := SkipsStart(b.Snapshot(), b.root.hash, g.task, doneValue, at, s);
    } else {
      s' := Starts(b.Snapshot(), b.root.hash, g.task, doneValue, at, s);
      OneHash(n);
    }
  }

  lemma OneHash(n: BookNode)
    ensures HashesOf([n]) == [n.hash]
  {
  }

  ghost predicate RunTo(g: Pass, run: seq<State>, s0: State, s: State) {
    && run != [] && T.SoloRun(g.task, g.rest.Keys, HashesOf(g.nodes), run) && T.Last(run) == s && run[0] == s0
  }

  lemma RunOn(g: Pass, run: seq<State>, s0: State, s: State, mid: State, s': State) returns (run': seq<State>)
    requires RunTo(g, run, s0, s) && |s.ws| == 1 && T.Ok(g.task, g.rest.Keys, s)
    requires T.OneOrTwoSteps(g.task, g.rest.Keys, s, mid, s')
    ensures RunTo(g, run', s0, s') && |s'.ws| == 1 && T.Shrinks(g.task, s.ws[0], s'.ws[0])
  {
    hide T.Ok, T.OneOrTwoSteps, T.SoloRun;
    run' := T.AdvanceTurn(g.task, g.rest.Keys, HashesOf(g.nodes), run, s, mid, s');
  }

  /** reverseDepthFirstSearchWithPostF from the node that was just pushed. */
  method SearchUp(b: Book, cp: CostParams, doneValue: int, ghost g: Pass, ghost next: nat, stack0: seq<BookNode>,
                  idxs0: seq<nat>, visited0: set<BookHash>, processed0: set<BookHash>, ghost s0: State, ghost s1: State,
                  ghost run0: seq<State>)
    returns (ghost visited: set<BookHash>, processed: set<BookHash>, ghost s: State, ghost run: seq<State>)
    requires LoopInv(b, cp, doneValue, g, next, stack0, idxs0, visited0, processed0, s1) && RunTo(g, run0, s0, s1)
    modifies g.repr
    ensures LoopInv(b, cp, doneValue, g, next, [], [], visited, processed, s) && RunTo(g, run, s0, s)
  {
    hide LoopInv, RunTo, T.Ok, T.OneOrTwoSteps, T.Untried, T.Height, T.Finished, Book.Snapshot, Book.Indexed,
         CostRest, CostsOf;
    var stack, idxs, visitedHashes := stack0, idxs0, visited0;
    processed, s, run := processed0, s1, run0;
    LoopFacts(b, cp, doneValue, g, next, stack, idxs, visitedHashes, processed, s);
    ghost var w := s.ws[0];
    while stack != []
      invariant LoopInv(b, cp, doneValue, g, next, stack, idxs, visitedHashes, processed, s) && RunTo(g, run, s0, s)
      invariant |s.ws| == 1 && w == s.ws[0]
      decreases |w.pending|, |g.task.dirty - w.visited|, T.Untried(w.todo), T.Height(w)
    {
      LoopFacts(b, cp, doneValue, g, next, stack, idxs, visitedHashes, processed, s);
      ghost var before, mid := s, s;
      stack, idxs, visitedHashes, processed, mid, s := Turn(b, cp, doneValue, g, next, stack, idxs, visitedHashes,
                                                            processed, s);
      run := RunOn(g, run, s0, before, mid, s);
      w := s.ws[0];
    }
    LoopFacts(b, cp, doneValue, g, next, stack, idxs, visitedHashes, processed, s);
    visited := visitedHashes;
  }

  method Traverse(b: Book, cp: CostParams, doneValue: int, ghost g: Pass,
                  ghost s0: State) returns (ghost run: seq<State>)
    requires LoopInv(b, cp, doneValue, g, 0, [], [], {}, {}, s0) && RunTo(g, [s0], s0, s0)
    modifies g.repr
    ensures b.Indexed() && CostRest(b.Snapshot(), b.root.hash) == g.rest && FlagsBelow(b.Snapshot(), doneValue + 1)
    ensures run != [] && RunTo(g, run, s0, T.Last(run))
    ensures T.Finished(T.Last(run)) && T.Last(run).vals == CostsOf(b.Snapshot())
  {
    hide *;
    ghost var s, visited := s0, {};
    var processed := {};
    run := [s0];
    LoopFacts(b, cp, doneValue, g, 0, [], [], visited, processed, s);
    for next := 0 to |b.nodes|
      invariant b.nodes == g.nodes && LoopInv(b, cp, doneValue, g, next, [], [], visited, processed, s)
        && RunTo(g, run, s0, s)
    {
      var initialNode := b.nodes[next];
      LoopFacts(b, cp, doneValue, g, next, [], [], visited, processed, s);
      ghost var before := s;
      s := StartsAt(b, cp, doneValue, g, next, visited, processed, s);
      run := RunOn(g, run, s0, before, before, s);
      if initialNode.hash !in processed && initialNode.visitedFlag != doneValue {
        visited, processed, s, run := SearchUp(b, cp, doneValue, g, next + 1, [initialNode],
                                               [FirstParent(processed, initialNode)], {initialNode.hash}, processed, s0,
                                               s, run);
      }
      LoopFacts(b, cp, doneValue, g, next + 1, [], [], visited, processed, s);
    }
    LoopFacts(b, cp, doneValue, g, |b.nodes|, [], [], visited, processed, s);
    LastOf(g, run, s0, s);
  }

  lemma LastOf(g: Pass, run: seq<State>, s0: State, s: State)
    requires RunTo(g, run, s0, s)
    ensures run != [] && T.Last(run) == s
  {
  }

  lemma TaskOfBook(sn: Snapshot, cp: CostParams, root: BookHash) returns (t: Task)
    requires Linked(sn, root)
    ensures t == CostTask(cp, CostShapesOf(sn, root))
    ensures ParentTask(CostRest(sn, root), t) && t.f == CostRule(cp, CostShapesOf(CostRest(sn, root), root))
    ensures LinkedShapes(CostShapesOf(CostRest(sn, root), root)) && MovesClosed(CostRest(sn, root))
  {
    t := CostTask(cp, CostShapesOf(sn, root));
    LinkedShapesOf(sn, root);
    CostTaskOk(cp, CostShapesOf(sn, root));
    ShapesFromRest(sn, root);
    RestMovesClosed(sn, root);
  }

  lemma RestMovesClosed(sn: Snapshot, root: BookHash)
    requires Linked(sn, root)
    ensures MovesClosed(CostRest(sn, root))
  {
    var rest := CostRest(sn, root);
    forall h, loc | h in rest && loc in rest[h].moves ensures rest[h].moves[loc].hash in rest {
      assert loc in sn[h].moves && rest[h].moves[loc] == Stripped(sn[h].moves[loc]);
    }
  }

  lemma NodeHashes(b: Book)
    requires b.Indexed()
    ensures forall h :: h in HashesOf(b.nodes) <==> h in b.nodeIdx
  {
    forall h | h in b.nodeIdx ensures h in HashesOf(b.nodes) {
      assert HashesOf(b.nodes)[b.nodeIdx[h]] == h;
    }
  }

  lemma StartInv(b: Book, cp: CostParams, doneValue: int, g: Pass, s0: State)
    requires PassOk(b, cp, g)
    requires Follows(b.Snapshot(), b.root.hash, g.task, doneValue, At(HashesOf(g.nodes), [], [], {}, {}), s0)
    ensures LoopInv(b, cp, doneValue, g, 0, [], [], {}, {}, s0)
  {
    hide PassOk, Follows;
    assert HashesOf(g.nodes)[0..] == HashesOf(g.nodes);
    assert HashesOf([]) == [];
  }

  lemma NewPass(b: Book, cp: CostParams) returns (g: Pass)
    requires b.Valid()
    ensures g.repr == (set n | n in b.nodes) && g.nodes == b.nodes
    ensures g.rest == CostRest(b.Snapshot(), b.root.hash)
    ensures g.task == CostTask(cp, CostShapesOf(b.Snapshot(), b.root.hash))
    ensures PassOk(b, cp, g) && ParentTask(g.rest, g.task)
  {
    hide Linked, ParentTask, CostRest, CostTask, CostShapesOf, CostRule, LinkedShapes, MovesClosed, Book.Snapshot,
         Book.Indexed;
    var t := TaskOfBook(b.Snapshot(), cp, b.root.hash);
    g := Pass((set n | n in b.nodes), b.nodes, CostRest(b.Snapshot(), b.root.hash), t);
  }

  lemma BeginPass(b: Book, cp: CostParams, doneValue: int) returns (g: Pass, s0: State)
    requires b.Valid() && FlagsBelow(b.Snapshot(), doneValue)
    ensures g.repr == (set n | n in b.nodes) && g.nodes == b.nodes
    ensures g.rest == CostRest(b.Snapshot(), b.root.hash)
    ensures g.task == CostTask(cp, CostShapesOf(b.Snapshot(), b.root.hash))
    ensures LoopInv(b, cp, doneValue, g, 0, [], [], {}, {}, s0) && RunTo(g, [s0], s0, s0)
    ensures s0.vals == CostsOf(b.Snapshot())
  {
    hide Linked, ParentTask, CostRest, CostTask, FlagsBelow, T.SoloRun, LoopInv, Follows, CostsOf, CostShapesOf,
         PassOk, Book.Snapshot, Book.Indexed, HashesOf;
    NodeHashes(b);
    g := NewPass(b, cp);
    s0 := InitialFollows(b.Snapshot(), b.root.hash, g.task, doneValue, HashesOf(b.nodes));
    StartInv(b, cp, doneValue, g, s0);
  }

  lemma EndPass(b: Book, cp: CostParams, g: Pass, s0: State, run: seq<State>, keys: set<BookHash>)
    requires run != [] && RunTo(g, run, s0, T.Last(run)) && keys == g.rest.Keys
    ensures T.SoloRun(g.task, keys, HashesOf(g.nodes), run) && run[0] == s0
  {
  }

  /** Process every node, parents first on an acyclic book. Ends on cyclic books too. */
  method IterateEntireBookPreOrder(b: Book, cp: CostParams,
                                   doneValue: int) returns (ghost t: Task, ghost run: seq<State>)
    requires b.Valid() && FlagsBelow(b.Snapshot(), doneValue)
    modifies b.nodes
    ensures b.Indexed() && FlagsBelow(b.Snapshot(), doneValue + 1)
    ensures CostRest(b.Snapshot(), b.root.hash) == old(CostRest(b.Snapshot(), b.root.hash))
    ensures t == CostTask(cp, old(CostShapesOf(b.Snapshot(), b.root.hash)))
    ensures run != [] && T.SoloRun(t, b.nodeIdx.Keys, HashesOf(b.nodes), run) && T.Finished(T.Last(run))
    ensures run[0].vals == old(CostsOf(b.Snapshot())) && T.Last(run).vals == CostsOf(b.Snapshot())
  {
    hide CostTask, Linked, CostRest, FlagsBelow, RunTo, T.SoloRun, LoopInv, CostsOf, CostShapesOf, T.Finished,
         T.Last, Book.Snapshot, Book.Indexed, HashesOf;
    ghost var g, s0 := BeginPass(b, cp, doneValue);
    t := g.task;
    run := Traverse(b, cp, doneValue, g, s0);
    EndPass(b, cp, g, s0, run, b.nodeIdx.Keys);
  }
}
