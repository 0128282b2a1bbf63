/**
 The depth-first traversals of the book, as a state machine run by any number of workers.

 Each worker owns an explicit stack, the list of dependencies still to try at every stack level,
 and the set of nodes it has visited. All workers share the node values and the "done" flags.
 One step is one shared access: looking at a dependency's flag, computing a node's value
 (atomic, because the worker then holds the locks of the node and of its dependencies), or
 raising the node's own flag.

 For the value pass the dependencies of a node are its children; for the cost pass its parents.
 */
module Traversal {

  /** What a pass works on: who depends on whom, which nodes to process, and the node function. */
  datatype Task<!K, !V> = Task(
    deps: map<K, seq<K>>,
    dirty: set<K>,
    checkStart: bool,           // a start node whose flag is already raised is skipped
    f: (K, map<K, V>) -> V)

  datatype Worker<K(==)> = Worker(
    pending: seq<K>,           // start nodes not tried yet
    stack: seq<K>,             // the current path; the last element is on top
    todo: seq<multiset<K>>,    // for each stack level, dependencies still to try
    visited: set<K>,           // nodes pushed since the last start node
    computed: bool)            // the top has been computed, its flag is not raised yet
  {
    predicate Idle() { pending == [] && stack == [] }

    predicate OnStack(k: K) { k in stack }
  }

  datatype State<K(==), !V> = State(
    vals: map<K, V>,
    done: set<K>,                  // nodes whose visitedFlag equals this pass's done value
    ws: seq<Worker<K>>,
    log: seq<(nat, K)>)            // calls of the node function: (worker, node)

  /** d is a dependency of k. */
  ghost predicate IsDep<K(!new), V(!new)>(t: Task<K, V>, k: K, d: K) {
    k in t.deps && d in t.deps[k]
  }

  ghost predicate ValidTask<K(!new), V(!new)>(t: Task<K, V>) {
    && t.dirty <= t.deps.Keys
    && (forall k, d :: k in t.deps && d in t.deps[k] ==> d in t.deps)
  }

  /** The node function looks only at the values of the node's dependencies. */
  ghost predicate Local<K(!new), V(!new)>(t: Task<K, V>) {
    forall k, v, v' :: k in t.deps && AgreeOn(t.deps[k], v, v') ==> t.f(k, v) == t.f(k, v')
  }

  ghost predicate AgreeOn<K(!new), V(!new)>(ks: seq<K>, v: map<K, V>, v': map<K, V>) {
    forall d :: d in ks ==> d in v && d in v' && v[d] == v'[d]
  }

  /** rank witnesses that the dependencies have no cycle. */
  ghost predicate Acyclic<K(!new), V(!new)>(t: Task<K, V>, rank: map<K, nat>) {
    forall k, d :: IsDep(t, k, d) ==> k in rank && d in rank && rank[d] < rank[k]
  }

  // ---------------------------------------------------------------------------------------------
  // Steps

  function Put<K(!new), V(!new)>(s: State<K, V>, i: nat, w: Worker<K>): State<K, V>
    requires i < |s.ws|
  {
    s.(ws := s.ws[i := w])
  }

  function Push<K(!new), V(!new)>(t: Task<K, V>, w: Worker<K>, d: K): Worker<K>
    requires d in t.deps
  {
    w.(stack := w.stack + [d], todo := w.todo + [multiset(t.deps[d])], visited := w.visited + {d})
  }

  /** Take the next start node; a checking pass skips it when its flag is already raised. */
  ghost predicate Begin<K(!new), V(!new)>(t: Task<K, V>, s: State<K, V>, s': State<K, V>, i: nat) {
    i < |s.ws| &&
    var w := s.ws[i];
    && w.stack == [] && w.pending != [] && w.pending[0] in t.deps
    && var w' := w.(pending := w.pending[1..]);
       s' == Put(s, i, if t.checkStart && w.pending[0] in s.done then w' else Push(t, w'.(visited := {}), w.pending[0]))
  }

  /** Try one dependency d of the top: descend into it unless clean, visited or done. */
  ghost predicate Try<K(!new), V(!new)>(t: Task<K, V>, s: State<K, V>, s': State<K, V>, i: nat, d: K) {
    i < |s.ws| &&
    var w := s.ws[i];
    && w.stack != [] && |w.todo| == |w.stack| && !w.computed
    && var top := |w.stack| - 1;
    && d in w.todo[top] && d in t.deps
    && var w' := w.(todo := w.todo[top := w.todo[top] - multiset{d}]);
       s' == Put(s, i, if d !in w.visited && d in t.dirty && d !in s.done then Push(t, w', d) else w')
  }

  /** All dependencies tried: compute the top's value. */
  ghost predicate Compute<K(!new), V(!new)>(t: Task<K, V>, s: State<K, V>, s': State<K, V>, i: nat) {
    i < |s.ws| &&
    var w := s.ws[i];
    && w.stack != [] && |w.todo| == |w.stack| && !w.computed
    && w.todo[|w.stack| - 1] == multiset{}
    && var n := w.stack[|w.stack| - 1];
       s' == Put(s, i, w.(computed := true)).(vals := s.vals[n := t.f(n, s.vals)], log := s.log + [(i, n)])
  }

  /** Raise the top's flag and go up one level. */
  ghost predicate Finish<K(!new), V(!new)>(s: State<K, V>, s': State<K, V>, i: nat) {
    i < |s.ws| &&
    var w := s.ws[i];
    && w.stack != [] && |w.todo| == |w.stack| && w.computed
    && var top := |w.stack| - 1;
       s' == Put(s, i, w.(stack := w.stack[..top], todo := w.todo[..top], computed := false))
             .(done := s.done + {w.stack[top]})
  }

  ghost predicate Step<K(!new), V(!new)>(t: Task<K, V>, s: State<K, V>, s': State<K, V>, i: nat) {
    || Begin(t, s, s', i)
    || (exists d :: d in t.deps && Try(t, s, s', i, d))
    || Compute(t, s, s', i)
    || Finish(s, s', i)
  }

  ghost predicate Next<K(!new), V(!new)>(t: Task<K, V>, s: State<K, V>, s': State<K, V>) {
    exists i: nat :: i < |s.ws| && Step(t, s, s', i)
  }

  /** A run: any schedule of any number of workers. */
  ghost predicate Run<K(!new), V(!new)>(t: Task<K, V>, run: seq<State<K, V>>) {
    && run != []
    && forall j, k :: 0 <= j && k == j + 1 && k < |run| ==> Next(t, run[j], run[k])
  }

  ghost predicate Finished<K(!new), V(!new)>(s: State<K, V>) {
    forall i :: 0 <= i < |s.ws| ==> s.ws[i].Idle()
  }

  /** Every dirty node is a start node of some worker or depends-into from a dirty node nearer to one. */
  ghost predicate Rooted<K(!new), V(!new)>(t: Task<K, V>, roots: set<K>, dist: map<K, nat>) {
    forall k :: k in t.dirty ==>
      || k in roots
      || (k in dist && exists p :: p in t.dirty && p in dist && dist[p] < dist[k] && p in t.deps && k in t.deps[p])
  }

  ghost predicate Initial<K(!new), V(!new)>(t: Task<K, V>, roots: set<K>, s: State<K, V>) {
    && s.vals.Keys == t.deps.Keys && s.done == {} && s.log == [] && s.ws != []
    && roots <= t.dirty
    && forall i :: 0 <= i < |s.ws| ==>
        var w := s.ws[i];
        && w.stack == [] && w.todo == [] && w.visited == {} && !w.computed
        && (forall r :: r in roots <==> r in w.pending)
  }

  // ---------------------------------------------------------------------------------------------
  // What every step keeps

  ghost predicate Logged<K(!new), V(!new)>(s: State<K, V>, k: K) {
    exists p :: 0 <= p < |s.log| && s.log[p].1 == k
  }

  /** A dependency needs no more work from this worker: it is clean, visited or done. */
  ghost predicate Settles<K(!new), V(!new)>(t: Task<K, V>, s: State<K, V>, w: Worker<K>, d: K) {
    d !in t.dirty || d in w.visited || d in s.done
  }

  ghost predicate LevelOk<K(!new), V(!new)>(t: Task<K, V>, s: State<K, V>, w: Worker<K>, p: nat)
    requires p < |w.stack| && p < |w.todo|
  {
    var k := w.stack[p];
    && k in t.deps && k in w.visited
    && (forall d :: d in w.todo[p] ==> d in t.deps[k])
    && (forall d :: d in t.deps[k] ==> d in w.todo[p] || Settles(t, s, w, d))
  }

  /** Each node on the stack was reached as a dependency of the one below it. */
  ghost predicate Path<K(!new), V(!new)>(t: Task<K, V>, stack: seq<K>) {
    forall p, q :: 0 <= p && q == p + 1 && q < |stack| ==> IsDep(t, stack[p], stack[q])
  }

  ghost predicate WorkerOk<K(!new), V(!new)>(t: Task<K, V>, roots: set<K>, s: State<K, V>, w: Worker<K>) {
    && |w.todo| == |w.stack|
    && w.visited <= t.dirty
    && (forall p :: 0 <= p < |w.stack| ==> LevelOk(t, s, w, p))
    && Path(t, w.stack)
    && (forall p, q :: 0 <= p < q < |w.stack| ==> w.stack[p] != w.stack[q])
    && (forall k :: k in w.visited ==> k in w.stack || k in s.done)
    && (w.computed ==> w.stack != [] && w.todo[|w.stack| - 1] == multiset{} && Logged(s, w.stack[|w.stack| - 1]))
    && (forall r :: r in w.pending ==> r in roots)
    && (forall r :: r in roots ==> r in w.pending || r in s.done || r in w.stack)
  }

  ghost predicate OnSomeStack<K(!new), V(!new)>(s: State<K, V>, k: K) {
    exists i :: 0 <= i < |s.ws| && s.ws[i].OnStack(k)
  }

  ghost predicate Ok<K(!new), V(!new)>(t: Task<K, V>, roots: set<K>, s: State<K, V>) {
    && ValidTask(t) && roots <= t.dirty
    && s.vals.Keys == t.deps.Keys
    && s.done <= t.dirty
    && (forall i :: 0 <= i < |s.ws| ==> WorkerOk(t, roots, s, s.ws[i]))
    && (forall k :: k in s.done ==> Logged(s, k))
    && (forall p :: 0 <= p < |s.log| ==> s.log[p].0 < |s.ws| && s.log[p].1 in t.dirty)
    && (forall k, d :: k in s.done && d in t.deps[k] && d in t.dirty ==> d in s.done || OnSomeStack(s, d))
  }

  lemma InitialOk<K(!new), V(!new)>(t: Task<K, V>, roots: set<K>, s: State<K, V>)
    requires ValidTask(t) && Initial(t, roots, s)
    ensures Ok(t, roots, s)
  {
  }

  /** Raising flags and computing more values never hurts another worker. */
  lemma OtherWorkersKeep<K(!new), V(!new)>(t: Task<K, V>, roots: set<K>, s: State<K, V>, s': State<K, V>, i: nat)
    requires Ok(t, roots, s) && i < |s.ws| == |s'.ws|
    requires s.done <= s'.done && s.log <= s'.log
    requires forall j :: 0 <= j < |s.ws| && j != i ==> s'.ws[j] == s.ws[j]
    ensures forall j :: 0 <= j < |s.ws| && j != i ==> WorkerOk(t, roots, s', s'.ws[j])
    ensures forall k :: Logged(s, k) ==> Logged(s', k)
  {
    forall k | Logged(s, k) ensures Logged(s', k) {
      var p :| 0 <= p < |s.log| && s.log[p].1 == k;
      assert s'.log[p].1 == k;
    }
    forall j | 0 <= j < |s.ws| && j != i ensures WorkerOk(t, roots, s', s'.ws[j]) {
      var w := s.ws[j];
      assert WorkerOk(t, roots, s, w);
      forall p | 0 <= p < |w.stack| ensures LevelOk(t, s', w, p) {
        assert LevelOk(t, s, w, p);
      }
    }
  }

  /** Dependencies of finished nodes stay on a stack until they are finished themselves. */
  lemma DoneDepsKeep<K(!new), V(!new)>(t: Task<K, V>, roots: set<K>, s: State<K, V>, s': State<K, V>, i: nat)
    requires Ok(t, roots, s) && i < |s.ws| == |s'.ws|
    requires s.done <= s'.done
    requires forall j :: 0 <= j < |s.ws| && j != i ==> s'.ws[j] == s.ws[j]
    requires forall k :: k in s.ws[i].stack ==> k in s'.ws[i].stack || k in s'.done
    ensures forall k, d :: k in s.done && d in t.deps[k] && d in t.dirty ==> d in s'.done || OnSomeStack(s', d)
  {
    forall k, d | k in s.done && d in t.deps[k] && d in t.dirty
      ensures d in s'.done || OnSomeStack(s', d)
    {
      if d !in s'.done {
        var j :| 0 <= j < |s.ws| && s.ws[j].OnStack(d);
        assert s'.ws[j].OnStack(d);
      }
    }
  }

  lemma BeginKeeps<K(!new), V(!new)>(t: Task<K, V>, roots: set<K>, s: State<K, V>, s': State<K, V>, i: nat)
    requires Ok(t, roots, s) && Begin(t, s, s', i)
    ensures Ok(t, roots, s')
  {
    OtherWorkersKeep(t, roots, s, s', i);
    DoneDepsKeep(t, roots, s, s', i);
    var w, w' := s.ws[i], s'.ws[i];
    assert WorkerOk(t, roots, s, w) && w.pending[0] in roots;
    assert w.pending == [w.pending[0]] + w.pending[1..];
    assert WorkerOk(t, roots, s', w');
  }

  lemma PassOverOk<K(!new), V(!new)>(t: Task<K, V>, roots: set<K>, s: State<K, V>, w: Worker<K>, d: K)
    requires WorkerOk(t, roots, s, w) && w.stack != [] && !w.computed && Settles(t, s, w, d)
    ensures WorkerOk(t, roots, s, w.(todo := w.todo[|w.stack| - 1 := w.todo[|w.stack| - 1] - multiset{d}]))
  {
    var w' := w.(todo := w.todo[|w.stack| - 1 := w.todo[|w.stack| - 1] - multiset{d}]);
    forall p | 0 <= p < |w'.stack| ensures LevelOk(t, s, w', p) {
      assert LevelOk(t, s, w, p);
    }
  }

  lemma DescendOk<K(!new), V(!new)>(t: Task<K, V>, roots: set<K>, s: State<K, V>, w: Worker<K>, d: K)
    requires ValidTask(t) && WorkerOk(t, roots, s, w) && w.stack != [] && !w.computed
    requires d in w.todo[|w.stack| - 1] && d in t.dirty && d !in w.visited
    ensures WorkerOk(t, roots, s, Push(t, w.(todo := w.todo[|w.stack| - 1 := w.todo[|w.stack| - 1] - multiset{d}]), d))
  {
    var n := |w.stack|;
    var w' := Push(t, w.(todo := w.todo[n - 1 := w.todo[n - 1] - multiset{d}]), d);
    assert LevelOk(t, s, w, n - 1);
    forall p | 0 <= p < n + 1 ensures LevelOk(t, s, w', p) {
      if p < n {
        assert LevelOk(t, s, w, p);
      }
    }
    forall p | 0 <= p < n ensures w.stack[p] != d {
      assert LevelOk(t, s, w, p);
    }
  }

  lemma TryKeeps<K(!new), V(!new)>(t: Task<K, V>, roots: set<K>, s: State<K, V>, s': State<K, V>, i: nat, d: K)
    requires Ok(t, roots, s) && Try(t, s, s', i, d)
    ensures Ok(t, roots, s')
  {
    hide WorkerOk;
    OtherWorkersKeep(t, roots, s, s', i);
    DoneDepsKeep(t, roots, s, s', i);
    var w := s.ws[i];
    if d !in w.visited && d in t.dirty && d !in s.done {
      DescendOk(t, roots, s, w, d);
    } else {
      PassOverOk(t, roots, s, w, d);
    }
    assert WorkerOk(t, roots, s, s'.ws[i]);
    SameShared(t, roots, s, s', s'.ws[i]);
  }

  lemma SameShared<K(!new), V(!new)>(t: Task<K, V>, roots: set<K>, s: State<K, V>, s': State<K, V>, w: Worker<K>)
    requires WorkerOk(t, roots, s, w) && s'.done == s.done && s'.log == s.log
    ensures WorkerOk(t, roots, s', w)
  {
    forall p | 0 <= p < |w.stack| ensures LevelOk(t, s', w, p) {
      assert LevelOk(t, s, w, p);
    }
  }

  lemma ComputeKeeps<K(!new), V(!new)>(t: Task<K, V>, roots: set<K>, s: State<K, V>, s': State<K, V>, i: nat)
    requires Ok(t, roots, s) && Compute(t, s, s', i)
    ensures Ok(t, roots, s')
  {
    OtherWorkersKeep(t, roots, s, s', i);
    DoneDepsKeep(t, roots, s, s', i);
    var w, w' := s.ws[i], s'.ws[i];
    assert WorkerOk(t, roots, s, w);
    var n := w.stack[|w.stack| - 1];
    assert s'.log[|s.log|] == (i, n);
    assert LevelOk(t, s, w, |w.stack| - 1);
    forall p | 0 <= p < |w.stack| ensures LevelOk(t, s', w', p) {
      assert LevelOk(t, s, w, p);
    }
    assert WorkerOk(t, roots, s', w');
    assert s'.vals.Keys == s.vals.Keys + {n};
  }

  lemma FinishKeeps<K(!new), V(!new)>(t: Task<K, V>, roots: set<K>, s: State<K, V>, s': State<K, V>, i: nat)
    requires Ok(t, roots, s) && Finish(s, s', i)
    ensures Ok(t, roots, s')
  {
    OtherWorkersKeep(t, roots, s, s', i);
    DoneDepsKeep(t, roots, s, s', i);
    var w, w' := s.ws[i], s'.ws[i];
    assert WorkerOk(t, roots, s, w);
    var n := w.stack[|w.stack| - 1];
    assert LevelOk(t, s, w, |w.stack| - 1);
    assert w.stack == w'.stack + [n];
    forall p | 0 <= p < |w'.stack| ensures LevelOk(t, s', w', p) {
      assert LevelOk(t, s, w, p);
    }
    assert WorkerOk(t, roots, s', w');
    forall d | d in t.deps[n] && d in t.dirty ensures d in s'.done || OnSomeStack(s', d) {
      assert Settles(t, s, w, d);
      if d !in s'.done {
        assert s'.ws[i].OnStack(d);
      }
    }
  }

  /** The invariant survives every step of every worker, on cyclic graphs too. */
  lemma NextKeeps<K(!new), V(!new)>(t: Task<K, V>, roots: set<K>, s: State<K, V>, s': State<K, V>)
    requires Ok(t, roots, s) && Next(t, s, s')
    ensures Ok(t, roots, s')
  {
    var i: nat :| i < |s.ws| && Step(t, s, s', i);
    if Begin(t, s, s', i) {
      BeginKeeps(t, roots, s, s', i);
    } else if d :| d in t.deps && Try(t, s, s', i, d) {
      TryKeeps(t, roots, s, s', i, d);
    } else if Compute(t, s, s', i) {
      ComputeKeeps(t, roots, s, s', i);
    } else {
      FinishKeeps(s := s, s' := s', i := i, t := t, roots := roots);
    }
  }

  function Popped<K>(w: Worker<K>): Worker<K>
    requires w.stack != [] && |w.todo| == |w.stack|
  {
    w.(stack := w.stack[..|w.stack| - 1], todo := w.todo[..|w.stack| - 1], computed := false)
  }

  /** Computing the top and raising its flag, with no other worker in between. */
  lemma ComputeAndFinish<K(!new), V(!new)>(t: Task<K, V>, roots: set<K>, s: State<K, V>, i: nat, n: K)
    returns (s1: State<K, V>, s2: State<K, V>)
    requires Ok(t, roots, s) && i < |s.ws| && s.ws[i].stack != [] && !s.ws[i].computed
    requires |s.ws[i].todo| == |s.ws[i].stack| && s.ws[i].todo[|s.ws[i].stack| - 1] == multiset{}
    requires n == s.ws[i].stack[|s.ws[i].stack| - 1]
    ensures Step(t, s, s1, i) && Ok(t, roots, s1) && |s1.ws| == |s.ws|
    ensures Step(t, s1, s2, i) && Ok(t, roots, s2)
    ensures s2.ws == s.ws[i := Popped(s.ws[i])]
    ensures s2.vals == s.vals[n := t.f(n, s.vals)] && s2.done == s.done + {n}
  {
    var w := s.ws[i];
    s1 := Put(s, i, w.(computed := true)).(vals := s.vals[n := t.f(n, s.vals)], log := s.log + [(i, n)]);
    assert Compute(t, s, s1, i);
    ComputeKeeps(t, roots, s, s1, i);
    s2 := Put(s1, i, Popped(s1.ws[i])).(done := s1.done + {n});
    assert Finish(s1, s2, i);
    FinishKeeps(t, roots, s1, s2, i);
  }

  // ---------------------------------------------------------------------------------------------
  // Every dirty node is processed, cyclic graph or not

  lemma {:induction false} ReachedIsDone<K(!new), V(!new)>(
    t: Task<K, V>, roots: set<K>, dist: map<K, nat>, s: State<K, V>, k: K)
    requires Ok(t, roots, s) && Finished(s) && s.ws != [] && Rooted(t, roots, dist) && k in t.dirty
    ensures k in s.done
    decreases if k in dist then dist[k] else 0
  {
    if k in roots {
      assert WorkerOk(t, roots, s, s.ws[0]) && s.ws[0].Idle();
    } else {
      var p :| p in t.dirty && p in dist && dist[p] < dist[k] && p in t.deps && k in t.deps[p];
      ReachedIsDone(t, roots, dist, s, p);
      assert !OnSomeStack(s, k);
    }
  }

  lemma FinishedCovers<K(!new), V(!new)>(t: Task<K, V>, roots: set<K>, dist: map<K, nat>, s: State<K, V>)
    requires Ok(t, roots, s) && Finished(s) && s.ws != [] && Rooted(t, roots, dist)
    ensures s.done == t.dirty
    ensures forall k :: k in t.dirty <==> Logged(s, k)
  {
    forall k | k in t.dirty ensures k in s.done {
      ReachedIsDone(t, roots, dist, s, k);
    }
  }

  // ---------------------------------------------------------------------------------------------
  // No worker processes a node twice

  ghost predicate Called<K(!new), V(!new)>(s: State<K, V>, i: nat, k: K) { (i, k) in s.log }

  ghost predicate Uncomputed<K(!new)>(w: Worker<K>, p: nat) {
    p < |w.stack| && !(w.computed && p == |w.stack| - 1)
  }

  ghost predicate OnceWorker<K(!new), V(!new)>(t: Task<K, V>, s: State<K, V>, i: nat)
    requires i < |s.ws|
  {
    var w := s.ws[i];
    && (forall k :: Called(s, i, k) ==> k in s.done || (w.computed && w.stack != [] && k == w.stack[|w.stack| - 1]))
    && (forall p: nat :: Uncomputed(w, p) ==> !Called(s, i, w.stack[p]))
    && (!t.checkStart && w.pending != [] ==> |w.pending| == 1 && w.stack == [] && forall k :: !Called(s, i, k))
  }

  ghost predicate OnceOk<K(!new), V(!new)>(t: Task<K, V>, s: State<K, V>) {
    && (forall p, q :: 0 <= p < q < |s.log| ==> s.log[p] != s.log[q])
    && (forall i :: 0 <= i < |s.ws| ==> OnceWorker(t, s, i))
  }

  lemma OtherWorkersOnce<K(!new), V(!new)>(t: Task<K, V>, s: State<K, V>, s': State<K, V>, i: nat)
    requires OnceOk(t, s) && i < |s.ws| == |s'.ws| && s.done <= s'.done
    requires forall j :: 0 <= j < |s.ws| && j != i ==> s'.ws[j] == s.ws[j]
    requires forall j: nat, k :: Called(s', j, k) && j != i ==> Called(s, j, k)
    ensures forall j :: 0 <= j < |s.ws| && j != i ==> OnceWorker(t, s', j)
  {
    forall j | 0 <= j < |s.ws| && j != i ensures OnceWorker(t, s', j) {
      assert OnceWorker(t, s, j);
    }
  }

  lemma NextKeepsOnce<K(!new), V(!new)>(t: Task<K, V>, roots: set<K>, s: State<K, V>, s': State<K, V>)
    requires Ok(t, roots, s) && OnceOk(t, s) && Next(t, s, s')
    ensures OnceOk(t, s')
  {
    var i: nat :| i < |s.ws| && Step(t, s, s', i);
    if Begin(t, s, s', i) {
      BeginKeepsOnce(t, s, s', i);
    } else if d :| d in t.deps && Try(t, s, s', i, d) {
      TryKeepsOnce(t, s, s', i, d);
    } else if Compute(t, s, s', i) {
      assert WorkerOk(t, roots, s, s.ws[i]);
      ComputeKeepsOnce(t, s, s', i);
    } else {
      FinishKeepsOnce(t, s, s', i);
    }
  }

  lemma BeginKeepsOnce<K(!new), V(!new)>(t: Task<K, V>, s: State<K, V>, s': State<K, V>, i: nat)
    requires OnceOk(t, s) && Begin(t, s, s', i)
    ensures OnceOk(t, s')
  {
    assert forall j: nat, k :: Called(s', j, k) <==> Called(s, j, k);
    OtherWorkersOnce(t, s, s', i);
    assert OnceWorker(t, s, i);
  }

  lemma TryKeepsOnce<K(!new), V(!new)>(t: Task<K, V>, s: State<K, V>, s': State<K, V>, i: nat, d: K)
    requires OnceOk(t, s) && Try(t, s, s', i, d)
    ensures OnceOk(t, s')
  {
    assert forall j: nat, k :: Called(s', j, k) <==> Called(s, j, k);
    OtherWorkersOnce(t, s, s', i);
    var w, w' := s.ws[i], s'.ws[i];
    assert OnceWorker(t, s, i);
    forall p: nat | Uncomputed(w', p) ensures !Called(s', i, w'.stack[p]) {
      if p < |w.stack| {
        assert Uncomputed(w, p);
      }
    }
  }

  lemma ComputeKeepsOnce<K(!new), V(!new)>(t: Task<K, V>, s: State<K, V>, s': State<K, V>, i: nat)
    requires OnceOk(t, s) && Compute(t, s, s', i)
    requires forall p, q :: 0 <= p < q < |s.ws[i].stack| ==> s.ws[i].stack[p] != s.ws[i].stack[q]
    ensures OnceOk(t, s')
  {
    var w, w' := s.ws[i], s'.ws[i];
    var n := w.stack[|w.stack| - 1];
    assert forall j: nat, k :: Called(s', j, k) <==> Called(s, j, k) || (j == i && k == n);
    OtherWorkersOnce(t, s, s', i);
    assert OnceWorker(t, s, i) && Uncomputed(w, |w.stack| - 1);
    assert !Called(s, i, n);
    forall p: nat | Uncomputed(w', p) ensures !Called(s', i, w'.stack[p]) {
      assert Uncomputed(w, p);
    }
    assert OnceWorker(t, s', i);
    forall p | 0 <= p < |s.log| ensures s.log[p] != (i, n) {
      assert s.log[p] in s.log;
    }
  }

  lemma FinishKeepsOnce<K(!new), V(!new)>(t: Task<K, V>, s: State<K, V>, s': State<K, V>, i: nat)
    requires OnceOk(t, s) && Finish(s, s', i)
    ensures OnceOk(t, s')
  {
    assert forall j: nat, k :: Called(s', j, k) <==> Called(s, j, k);
    OtherWorkersOnce(t, s, s', i);
    var w, w' := s.ws[i], s'.ws[i];
    assert OnceWorker(t, s, i);
    forall p: nat | Uncomputed(w', p) ensures !Called(s', i, w'.stack[p]) {
      assert Uncomputed(w, p);
    }
    assert OnceWorker(t, s', i);
  }

  // ---------------------------------------------------------------------------------------------
  // On an acyclic graph: dependencies first, and processed nodes already hold their final values

  ghost predicate DepsFirst<K(!new), V(!new)>(t: Task<K, V>, s: State<K, V>) {
    forall p, d :: 0 <= p < |s.log| && s.log[p].1 in t.deps && d in t.deps[s.log[p].1] && d in t.dirty ==>
      LoggedBefore(s, p, d)
  }

  ghost predicate LoggedBefore<K(!new), V(!new)>(s: State<K, V>, p: nat, d: K) {
    exists q :: 0 <= q < p && q < |s.log| && s.log[q].1 == d
  }

  /** Recomputing k would change nothing. */
  ghost predicate Settled<K(!new), V(!new)>(t: Task<K, V>, vals: map<K, V>, k: K) {
    k in vals && vals[k] == t.f(k, vals)
  }

  ghost predicate AllSettled<K(!new), V(!new)>(t: Task<K, V>, s: State<K, V>) {
    forall k :: k in t.deps && Logged(s, k) ==> Settled(t, s.vals, k)
  }

  /** Whatever depends on a dirty node is dirty. */
  ghost predicate DirtyClosed<K(!new), V(!new)>(t: Task<K, V>) {
    forall k, d :: k in t.deps && d in t.deps[k] && d in t.dirty ==> k in t.dirty
  }

  lemma {:induction false} StackRank<K(!new), V(!new)>(
    t: Task<K, V>, rank: map<K, nat>, stack: seq<K>, p: nat, q: nat)
    requires Acyclic(t, rank) && Path(t, stack) && p <= q < |stack|
    requires stack[q] in rank
    ensures stack[p] in rank && rank[stack[q]] <= rank[stack[p]]
    decreases q - p
  {
    if p < q {
      assert IsDep(t, stack[q - 1], stack[q]);
      StackRank(t, rank, stack, p, q - 1);
    }
  }

  /** When a node is computed, every dirty dependency of it carries the done value. */
  lemma ComputedDepsDone<K(!new), V(!new)>(
    t: Task<K, V>, roots: set<K>, rank: map<K, nat>, s: State<K, V>, w: Worker<K>, d: K)
    requires WorkerOk(t, roots, s, w) && Acyclic(t, rank)
    requires w.stack != [] && w.todo[|w.stack| - 1] == multiset{}
    requires w.stack[|w.stack| - 1] in t.deps && d in t.deps[w.stack[|w.stack| - 1]] && d in t.dirty
    ensures d in s.done
  {
    var top := |w.stack| - 1;
    assert LevelOk(t, s, w, top);
    assert Settles(t, s, w, d);
    if d in w.stack {
      var p :| 0 <= p < |w.stack| && w.stack[p] == d;
      assert IsDep(t, w.stack[top], d);
      StackRank(t, rank, w.stack, p, top);
    }
  }

  lemma ComputeKeepsDepsFirst<K(!new), V(!new)>(
    t: Task<K, V>, roots: set<K>, rank: map<K, nat>, s: State<K, V>, s': State<K, V>, i: nat)
    requires Ok(t, roots, s) && Acyclic(t, rank) && DepsFirst(t, s) && Compute(t, s, s', i)
    ensures DepsFirst(t, s')
  {
    var w := s.ws[i];
    assert WorkerOk(t, roots, s, w) && LevelOk(t, s, w, |w.stack| - 1);
    forall p, d | 0 <= p < |s'.log| && s'.log[p].1 in t.deps && d in t.deps[s'.log[p].1] && d in t.dirty
      ensures LoggedBefore(s', p, d)
    {
      if p < |s.log| {
        assert LoggedBefore(s, p, d);
        var q :| 0 <= q < p && q < |s.log| && s.log[q].1 == d;
        assert s'.log[q].1 == d;
      } else {
        ComputedDepsDone(t, roots, rank, s, w, d);
        var q :| 0 <= q < |s.log| && s.log[q].1 == d;
        assert s'.log[q].1 == d;
      }
    }
  }

  /** On an acyclic graph a node is only processed after its dirty dependencies. */
  lemma NextKeepsDepsFirst<K(!new), V(!new)>(
    t: Task<K, V>, roots: set<K>, rank: map<K, nat>, s: State<K, V>, s': State<K, V>)
    requires Ok(t, roots, s) && Acyclic(t, rank) && DepsFirst(t, s) && Next(t, s, s')
    ensures DepsFirst(t, s')
  {
    var i: nat :| i < |s.ws| && Step(t, s, s', i);
    if Compute(t, s, s', i) {
      ComputeKeepsDepsFirst(t, roots, rank, s, s', i);
    } else {
      assert s'.log == s.log;
      forall p, d | 0 <= p < |s'.log| && s'.log[p].1 in t.deps && d in t.deps[s'.log[p].1] && d in t.dirty
        ensures LoggedBefore(s', p, d)
      {
        assert LoggedBefore(s, p, d);
      }
    }
  }

  lemma ComputeKeepsSettled<K(!new), V(!new)>(
    t: Task<K, V>, roots: set<K>, rank: map<K, nat>, s: State<K, V>, s': State<K, V>, i: nat)
    requires Ok(t, roots, s) && Local(t) && DirtyClosed(t) && Acyclic(t, rank)
    requires DepsFirst(t, s) && AllSettled(t, s) && Compute(t, s, s', i)
    ensures AllSettled(t, s')
  {
    var w := s.ws[i];
    var n := w.stack[|w.stack| - 1];
    assert WorkerOk(t, roots, s, w) && LevelOk(t, s, w, |w.stack| - 1);
    forall k | k in t.deps && Logged(s', k) ensures Settled(t, s'.vals, k) {
      if k != n {
        var p :| 0 <= p < |s'.log| && s'.log[p].1 == k;
        assert s.log[p].1 == k;
        if n in t.deps[k] {
          assert LoggedBefore(s, p, n);
        }
      }
      if Logged(s, n) {
        assert Settled(t, s.vals, n);
        assert s'.vals == s.vals;
      } else {
        assert n in t.deps[n] ==> IsDep(t, n, n);
        assert AgreeOn(t.deps[k], s.vals, s'.vals);
      }
    }
  }

  /** Processed nodes already hold final values: processing any of them again changes nothing. */
  lemma NextKeepsSettled<K(!new), V(!new)>(
    t: Task<K, V>, roots: set<K>, rank: map<K, nat>, s: State<K, V>, s': State<K, V>)
    requires Ok(t, roots, s) && Local(t) && DirtyClosed(t) && Acyclic(t, rank)
    requires DepsFirst(t, s) && AllSettled(t, s) && Next(t, s, s')
    ensures AllSettled(t, s')
  {
    var i: nat :| i < |s.ws| && Step(t, s, s', i);
    if Compute(t, s, s', i) {
      ComputeKeepsSettled(t, roots, rank, s, s', i);
    } else {
      assert s'.log == s.log && s'.vals == s.vals;
      assert forall k :: Logged(s', k) ==> Logged(s, k);
    }
  }

  // ---------------------------------------------------------------------------------------------
  // Whole runs

  ghost function Last<K(!new), V(!new)>(run: seq<State<K, V>>): State<K, V>
    requires run != []
  {
    run[|run| - 1]
  }

  lemma {:induction false} RunKeeps<K(!new), V(!new)>(t: Task<K, V>, roots: set<K>, run: seq<State<K, V>>)
    requires ValidTask(t) && Run(t, run) && Initial(t, roots, run[0])
    requires !t.checkStart ==> forall w :: w in run[0].ws ==> |w.pending| <= 1
    ensures Ok(t, roots, Last(run)) && OnceOk(t, Last(run)) && |Last(run).ws| == |run[0].ws|
    decreases |run|
  {
    if |run| == 1 {
      InitialOk(t, roots, run[0]);
      assert forall i :: 0 <= i < |run[0].ws| ==> run[0].ws[i] in run[0].ws;
    } else {
      var prefix := run[..|run| - 1];
      RunKeeps(t, roots, prefix);
      assert Next(t, run[|run| - 2], run[|run| - 1]);
      NextKeeps(t, roots, Last(prefix), Last(run));
      NextKeepsOnce(t, roots, Last(prefix), Last(run));
    }
  }

  /**
   Whatever the schedule and however cyclic the graph, a finished run has called the node function
   on every dirty node and on nothing else, and no worker has called it twice on the same node.
   */
  lemma RunVisitsAll<K(!new), V(!new)>(t: Task<K, V>, roots: set<K>, dist: map<K, nat>, run: seq<State<K, V>>)
    requires ValidTask(t) && Rooted(t, roots, dist)
    requires Run(t, run) && Initial(t, roots, run[0]) && Finished(Last(run))
    requires !t.checkStart ==> forall w :: w in run[0].ws ==> |w.pending| <= 1
    ensures forall k :: k in t.dirty <==> Logged(Last(run), k)
    ensures forall p, q :: 0 <= p < q < |Last(run).log| ==> Last(run).log[p] != Last(run).log[q]
    ensures Last(run).done == t.dirty
  {
    RunKeeps(t, roots, run);
    FinishedCovers(t, roots, dist, Last(run));
  }

  lemma {:induction false} RunKeepsDepsFirst<K(!new), V(!new)>(t: Task<K, V>, roots: set<K>, rank: map<K, nat>,
                                               run: seq<State<K, V>>)
    requires ValidTask(t) && Acyclic(t, rank) && Run(t, run) && Initial(t, roots, run[0])
    ensures Ok(t, roots, Last(run)) && DepsFirst(t, Last(run)) && |Last(run).ws| == |run[0].ws|
    decreases |run|
  {
    if |run| == 1 {
      InitialOk(t, roots, run[0]);
    } else {
      var prefix := run[..|run| - 1];
      RunKeepsDepsFirst(t, roots, rank, prefix);
      assert Next(t, run[|run| - 2], run[|run| - 1]);
      NextKeeps(t, roots, Last(prefix), Last(run));
      NextKeepsDepsFirst(t, roots, rank, Last(prefix), Last(run));
    }
  }

  lemma {:induction false} RunKeepsSettled<K(!new), V(!new)>(
    t: Task<K, V>, roots: set<K>, rank: map<K, nat>, run: seq<State<K, V>>)
    requires ValidTask(t) && Acyclic(t, rank) && Local(t) && DirtyClosed(t)
    requires Run(t, run) && Initial(t, roots, run[0])
    ensures AllSettled(t, Last(run))
    decreases |run|
  {
    if |run| == 1 {
    } else {
      var prefix := run[..|run| - 1];
      RunKeepsSettled(t, roots, rank, prefix);
      RunKeepsDepsFirst(t, roots, rank, prefix);
      assert Next(t, run[|run| - 2], run[|run| - 1]);
      NextKeepsSettled(t, roots, rank, Last(prefix), Last(run));
    }
  }

  /** A run leaves the values of all other nodes as they are. */
  lemma {:induction false} RunKeepsClean<K(!new), V(!new)>(t: Task<K, V>, roots: set<K>, run: seq<State<K, V>>)
    requires ValidTask(t) && Run(t, run) && Initial(t, roots, run[0])
    ensures Ok(t, roots, Last(run)) && Last(run).vals.Keys == run[0].vals.Keys
    ensures forall k :: k in t.deps && k !in t.dirty ==> Last(run).vals[k] == run[0].vals[k]
    decreases |run|
  {
    if |run| == 1 {
      InitialOk(t, roots, run[0]);
    } else {
      var prefix := run[..|run| - 1];
      RunKeepsClean(t, roots, prefix);
      assert Next(t, run[|run| - 2], run[|run| - 1]);
      NextKeeps(t, roots, Last(prefix), Last(run));
      NextKeepsClean(t, roots, Last(prefix), Last(run));
    }
  }

  lemma NextKeepsClean<K(!new), V(!new)>(t: Task<K, V>, roots: set<K>, s: State<K, V>, s': State<K, V>)
    requires Ok(t, roots, s) && Next(t, s, s')
    ensures s'.vals.Keys == s.vals.Keys && forall k :: k in t.deps && k !in t.dirty ==> s'.vals[k] == s.vals[k]
  {
    var i: nat :| i < |s.ws| && Step(t, s, s', i);
    if Compute(t, s, s', i) {
      assert WorkerOk(t, roots, s, s.ws[i]) && LevelOk(t, s, s.ws[i], |s.ws[i].stack| - 1);
    }
  }

  /** A step stores at most one value, and that comes from the node function. */
  lemma NextStores<K(!new), V(!new)>(t: Task<K, V>, s: State<K, V>, s': State<K, V>)
    requires Next(t, s, s')
    ensures s'.vals == s.vals || exists n :: s'.vals == s.vals[n := t.f(n, s.vals)]
  {
    var i: nat :| i < |s.ws| && Step(t, s, s', i);
    if Compute(t, s, s', i) {
      var n := s.ws[i].stack[|s.ws[i].stack| - 1];
      assert s'.vals == s.vals[n := t.f(n, s.vals)];
    }
  }

  /** What the node function always establishes of the value it stores holds of all values throughout a run. */
  lemma {:induction false} RunKeepsEach<K(!new), V(!new)>(t: Task<K, V>, p: (K, V) -> bool, run: seq<State<K, V>>)
    requires Run(t, run)
    requires forall k :: k in run[0].vals ==> p(k, run[0].vals[k])
    requires forall k, vals :: p(k, t.f(k, vals))
    ensures forall k :: k in Last(run).vals ==> p(k, Last(run).vals[k])
    decreases |run|
  {
    if |run| > 1 {
      var prefix := run[..|run| - 1];
      RunKeepsEach(t, p, prefix);
      assert Next(t, run[|run| - 2], run[|run| - 1]);
      NextStores(t, Last(prefix), Last(run));
      if Last(run).vals != Last(prefix).vals {
        var n :| Last(run).vals == Last(prefix).vals[n := t.f(n, Last(prefix).vals)];
        assert p(n, t.f(n, Last(prefix).vals));
      }
    }
  }

  /**
   A finished run on an acyclic graph settles the dirty nodes, and no others: they keep their values,
   and are settled after it exactly if they were before.
   */
  lemma RunSettles<K(!new), V(!new)>(
    t: Task<K, V>, roots: set<K>, dist: map<K, nat>, rank: map<K, nat>, run: seq<State<K, V>>)
    requires ValidTask(t) && Acyclic(t, rank) && Local(t) && DirtyClosed(t) && Rooted(t, roots, dist)
    requires Run(t, run) && Initial(t, roots, run[0]) && Finished(Last(run))
    ensures forall k :: k in t.deps ==> (Settled(t, Last(run).vals, k) <==> k in t.dirty || Settled(t, run[0].vals, k))
    ensures Last(run).vals.Keys == t.deps.Keys
    ensures forall k :: k in t.deps && k !in t.dirty ==> k in run[0].vals && Last(run).vals[k] == run[0].vals[k]
  {
    RunKeepsSettled(t, roots, rank, run);
    RunKeepsDepsFirst(t, roots, rank, run);
    RunKeepsClean(t, roots, run);
    FinishedCovers(t, roots, dist, Last(run));
    forall k | k in t.deps && k !in t.dirty ensures Settled(t, Last(run).vals, k) <==> Settled(t, run[0].vals, k) {
      assert forall d :: d in t.deps[k] ==> d !in t.dirty;
      assert AgreeOn(t.deps[k], Last(run).vals, run[0].vals);
    }
  }

  /** The two assignments are settled at the dirty nodes and agree at the others. */
  ghost predicate SettledAlike<K(!new), V(!new)>(t: Task<K, V>, v: map<K, V>, v': map<K, V>) {
    forall k :: k in t.deps ==> AlikeAt(t, v, v', k)
  }

  ghost predicate AlikeAt<K(!new), V(!new)>(t: Task<K, V>, v: map<K, V>, v': map<K, V>, k: K) {
    k in v && k in v' && if k in t.dirty then Settled(t, v, k) && Settled(t, v', k) else v[k] == v'[k]
  }

  lemma {:induction false} SettledValueUnique<K(!new), V(!new)>(
    t: Task<K, V>, rank: map<K, nat>, v: map<K, V>, v': map<K, V>, k: K)
    requires ValidTask(t) && Acyclic(t, rank) && Local(t) && k in t.deps && SettledAlike(t, v, v')
    ensures k in v && k in v' && v[k] == v'[k]
    decreases if k in rank then rank[k] else 0
  {
    assert AlikeAt(t, v, v', k);
    if k in t.dirty {
      forall d | d in t.deps[k] ensures d in v && d in v' && v[d] == v'[d] {
        assert IsDep(t, k, d);
        SettledValueUnique(t, rank, v, v', d);
      }
      assert AgreeOn(t.deps[k], v, v');
    }
  }

  /** On an acyclic graph the values at the other nodes determine the settled values at the dirty ones. */
  lemma SettledUnique<K(!new), V(!new)>(t: Task<K, V>, rank: map<K, nat>, v: map<K, V>, v': map<K, V>)
    requires ValidTask(t) && Acyclic(t, rank) && Local(t) && SettledAlike(t, v, v')
    requires v.Keys == t.deps.Keys && v'.Keys == t.deps.Keys
    ensures v == v'
  {
    forall k | k in t.deps ensures v[k] == v'[k] {
      SettledValueUnique(t, rank, v, v', k);
    }
  }

  // ---------------------------------------------------------------------------------------------
  // Progress and termination

  /** While a worker is not idle it can step, whatever the others do. */
  lemma Progress<K(!new), V(!new)>(t: Task<K, V>, roots: set<K>, s: State<K, V>, i: nat) returns (s': State<K, V>)
    requires Ok(t, roots, s) && i < |s.ws| && !s.ws[i].Idle()
    ensures Step(t, s, s', i)
  {
    var w := s.ws[i];
    assert WorkerOk(t, roots, s, w);
    if w.stack == [] {
      var w' := w.(pending := w.pending[1..]);
      assert w.pending[0] in roots;
      s' := Put(s, i, if t.checkStart && w.pending[0] in s.done then w' else Push(t, w'.(visited := {}), w.pending[0]));
      assert Begin(t, s, s', i);
      return;
    }
    var top := |w.stack| - 1;
    assert LevelOk(t, s, w, top);
    if w.computed {
      s' := Put(s, i, w.(stack := w.stack[..top], todo := w.todo[..top], computed := false))
            .(done := s.done + {w.stack[top]});
      assert Finish(s, s', i);
    } else if w.todo[top] == multiset{} {
      var n := w.stack[top];
      s' := Put(s, i, w.(computed := true)).(vals := s.vals[n := t.f(n, s.vals)], log := s.log + [(i, n)]);
      assert Compute(t, s, s', i);
    } else {
      var d :| d in w.todo[top];
      var w' := w.(todo := w.todo[top := w.todo[top] - multiset{d}]);
      s' := Put(s, i, if d !in w.visited && d in t.dirty && d !in s.done then Push(t, w', d) else w');
      assert Try(t, s, s', i, d);
    }
  }

  ghost function Total<K(!new)>(ws: seq<Worker<K>>, size: Worker<K> -> nat): nat {
    if ws == [] then 0 else size(ws[0]) + Total(ws[1..], size)
  }

  lemma {:induction false} TotalUpdate<K(!new)>(ws: seq<Worker<K>>, size: Worker<K> -> nat, i: nat, w: Worker<K>)
    requires i < |ws|
    ensures Total(ws[i := w], size) + size(ws[i]) == Total(ws, size) + size(w)
  {
    if i > 0 {
      assert ws[i := w][1..] == ws[1..][i - 1 := w];
      TotalUpdate(ws[1..], size, i - 1, w);
    }
  }

  ghost function Untried<K(!new)>(todo: seq<multiset<K>>): nat {
    if todo == [] then 0 else Untried(todo[..|todo| - 1]) + |todo[|todo| - 1]|
  }

  ghost function Height<K(!new)>(w: Worker<K>): nat {
    if w.computed then 2 * |w.stack| else 2 * |w.stack| + 1
  }

  ghost function PendingSize<K(!new)>(): Worker<K> -> nat { (w: Worker<K>) => |w.pending| }
  ghost function UnvisitedSize<K(!new), V(!new)>(t: Task<K, V>): Worker<K> -> nat { (w: Worker<K>) => |t.dirty - w.visited| }
  ghost function UntriedSize<K(!new)>(): Worker<K> -> nat { (w: Worker<K>) => Untried(w.todo) }
  ghost function HeightSize<K(!new)>(): Worker<K> -> nat { (w: Worker<K>) => Height(w) }

  /** One worker's progress: less pending, or less unvisited, or less to try, or nearer to the top. */
  ghost predicate Shrinks<K(!new), V(!new)>(t: Task<K, V>, w: Worker<K>, w': Worker<K>) {
    (|w.pending|, |t.dirty - w.visited|, Untried(w.todo), Height(w)
     decreases to
     |w'.pending|, |t.dirty - w'.visited|, Untried(w'.todo), Height(w'))
  }

  lemma TryShrinks<K(!new), V(!new)>(t: Task<K, V>, s: State<K, V>, s': State<K, V>, i: nat, d: K)
    requires Try(t, s, s', i, d)
    ensures Shrinks(t, s.ws[i], s'.ws[i])
  {
    var w, w' := s.ws[i], s'.ws[i];
    if d !in w.visited && d in t.dirty && d !in s.done {
      assert t.dirty - w'.visited == (t.dirty - w.visited) - {d};
    } else {
      assert w'.todo[..|w.stack| - 1] == w.todo[..|w.stack| - 1];
    }
  }

  lemma FinishShrinks<K(!new), V(!new)>(t: Task<K, V>, roots: set<K>, s: State<K, V>, s': State<K, V>, i: nat)
    requires Ok(t, roots, s) && Finish(s, s', i)
    ensures Shrinks(t, s.ws[i], s'.ws[i])
  {
    assert WorkerOk(t, roots, s, s.ws[i]);
  }

  lemma StepShrinks<K(!new), V(!new)>(t: Task<K, V>, roots: set<K>, s: State<K, V>, s': State<K, V>, i: nat)
    requires Ok(t, roots, s) && i < |s.ws| && Step(t, s, s', i)
    ensures s'.ws == s.ws[i := s'.ws[i]] && Shrinks(t, s.ws[i], s'.ws[i])
  {
    if Begin(t, s, s', i) {
    } else if d :| d in t.deps && Try(t, s, s', i, d) {
      TryShrinks(t, s, s', i, d);
    } else if Compute(t, s, s', i) {
    } else {
      FinishShrinks(t, roots, s, s', i);
    }
  }

  /** Every step of any worker decreases this measure, so no schedule runs forever. */
  lemma NextDecreases<K(!new), V(!new)>(t: Task<K, V>, roots: set<K>, s: State<K, V>, s': State<K, V>)
    requires Ok(t, roots, s) && Next(t, s, s')
    ensures (Total(s.ws, PendingSize()), Total(s.ws, UnvisitedSize(t)), Total(s.ws, UntriedSize()), Total(s.ws, HeightSize())
             decreases to
             Total(s'.ws, PendingSize()), Total(s'.ws, UnvisitedSize(t)), Total(s'.ws, UntriedSize()), Total(s'.ws, HeightSize()))
  {
    var i: nat :| i < |s.ws| && Step(t, s, s', i);
    StepShrinks(t, roots, s, s', i);
    TotalUpdate(s.ws, PendingSize(), i, s'.ws[i]);
    TotalUpdate(s.ws, UnvisitedSize(t), i, s'.ws[i]);
    TotalUpdate(s.ws, UntriedSize(), i, s'.ws[i]);
    TotalUpdate(s.ws, HeightSize(), i, s'.ws[i]);
  }

  // ---------------------------------------------------------------------------------------------
  // Runs by one worker

  /** A run by one worker that tries the start nodes in the order of pending. */
  ghost predicate SoloRun<K(!new), V(!new)>(t: Task<K, V>, roots: set<K>, pending: seq<K>, run: seq<State<K, V>>) {
    && Run(t, run) && Initial(t, roots, run[0])
    && |run[0].ws| == 1 && run[0].ws[0].pending == pending
  }

  lemma ExtendRun<K(!new), V(!new)>(t: Task<K, V>, roots: set<K>, pending: seq<K>, run: seq<State<K, V>>,
                                    s': State<K, V>)
    requires SoloRun(t, roots, pending, run) && |Last(run).ws| == 1 && Step(t, Last(run), s', 0)
    ensures SoloRun(t, roots, pending, run + [s'])
  {
    assert Next(t, Last(run), s');
    var run' := run + [s'];
    forall j, k | 0 <= j && k == j + 1 && k < |run'| ensures Next(t, run'[j], run'[k]) {
      if k < |run| {
        assert Next(t, run[j], run[k]);
      }
    }
  }

  lemma Advance<K(!new), V(!new)>(t: Task<K, V>, roots: set<K>, pending: seq<K>, run: seq<State<K, V>>,
                                  s: State<K, V>, s': State<K, V>)
    requires SoloRun(t, roots, pending, run) && Last(run) == s && |s.ws| == 1
    requires Ok(t, roots, s) && Step(t, s, s', 0)
    ensures SoloRun(t, roots, pending, run + [s']) && |s'.ws| == 1 && Shrinks(t, s.ws[0], s'.ws[0])
  {
    ExtendRun(t, roots, pending, run, s');
    StepShrinks(t, roots, s, s', 0);
  }

  ghost predicate OneOrTwoSteps<K(!new), V(!new)>(t: Task<K, V>, roots: set<K>, s: State<K, V>, mid: State<K, V>,
                                  s': State<K, V>) {
    && (mid == s || (|mid.ws| == 1 && Ok(t, roots, mid) && Step(t, s, mid, 0)))
    && Step(t, mid, s', 0)
  }

  lemma AdvanceTurn<K(!new), V(!new)>(t: Task<K, V>, roots: set<K>, pending: seq<K>, run: seq<State<K, V>>,
                                      s: State<K, V>, mid: State<K, V>,
                                      s': State<K, V>) returns (run': seq<State<K, V>>)
    requires SoloRun(t, roots, pending, run) && Last(run) == s && |s.ws| == 1 && Ok(t, roots, s)
    requires OneOrTwoSteps(t, roots, s, mid, s')
    ensures run' != [] && SoloRun(t, roots, pending, run') && Last(run') == s' && run'[0] == run[0]
    ensures |s'.ws| == 1 && Shrinks(t, s.ws[0], s'.ws[0])
  {
    run' := run;
    if mid != s {
      Advance(t, roots, pending, run', s, mid);
      run' := run' + [mid];
    }
    Advance(t, roots, pending, run', mid, s');
    run' := run' + [s'];
  }

  /** The nodes in the order in which they were processed. */
  ghost function Order<K(!new), V(!new)>(s: State<K, V>): (order: seq<K>)
    ensures |order| == |s.log|
  {
    seq(|s.log|, i requires 0 <= i < |s.log| => s.log[i].1)
  }

  /** One thread processes every dirty node exactly once, cycles or not. */
  lemma SoloVisitsOnce<K(!new), V(!new)>(t: Task<K, V>, roots: set<K>, pending: seq<K>, dist: map<K, nat>,
                         run: seq<State<K, V>>)
    requires ValidTask(t) && Rooted(t, roots, dist) && SoloRun(t, roots, pending, run) && Finished(Last(run))
    requires !t.checkStart ==> |pending| <= 1
    ensures forall k :: k in t.dirty <==> k in Order(Last(run))
    ensures forall p, q :: 0 <= p < q < |Order(Last(run))| ==> Order(Last(run))[p] != Order(Last(run))[q]
  {
    var s := Last(run);
    RunVisitsAll(t, roots, dist, run);
    RunKeeps(t, roots, run);
    forall k | k in t.dirty ensures k in Order(s) {
      assert Logged(s, k);
      var p :| 0 <= p < |s.log| && s.log[p].1 == k;
      assert Order(s)[p] == k;
    }
    forall p, q | 0 <= p < q < |Order(s)| ensures Order(s)[p] != Order(s)[q] {
      assert s.log[p] != s.log[q] && s.log[p].0 == 0 && s.log[q].0 == 0;
    }
    forall k | k in Order(s) ensures k in t.dirty {
      var p :| 0 <= p < |s.log| && Order(s)[p] == k;
      assert Logged(s, k);
    }
  }

  /** On an acyclic graph every dirty dependency of a node comes before the node. */
  lemma RunDepsFirst<K(!new), V(!new)>(t: Task<K, V>, roots: set<K>, rank: map<K, nat>, run: seq<State<K, V>>, p: nat,
                                       d: K)
    requires ValidTask(t) && Acyclic(t, rank) && Run(t, run) && Initial(t, roots, run[0])
    requires p < |Last(run).log| && IsDep(t, Order(Last(run))[p], d) && d in t.dirty
    ensures exists q :: 0 <= q < p && Order(Last(run))[q] == d
  {
    RunKeepsDepsFirst(t, roots, rank, run);
    assert LoggedBefore(Last(run), p, d);
    var q :| 0 <= q < p && q < |Last(run).log| && Last(run).log[q].1 == d;
    assert Order(Last(run))[q] == d;
  }

  /** A flagged node, or one a worker visited and left, has been computed. */
  lemma LeftIsLogged<K(!new), V(!new)>(t: Task<K, V>, roots: set<K>, s: State<K, V>, i: nat, k: K)
    requires Ok(t, roots, s)
    requires k in s.done || (i < |s.ws| && k in s.ws[i].visited && k !in s.ws[i].stack)
    ensures k in t.deps && Logged(s, k)
  {
    if i < |s.ws| {
      assert WorkerOk(t, roots, s, s.ws[i]);
    }
  }

  /** A computed node already has the value it has in any assignment that is settled at the dirty nodes. */
  lemma {:induction false} LoggedIsFinal<K(!new), V(!new)>(
    t: Task<K, V>, roots: set<K>, rank: map<K, nat>, s: State<K, V>, final: map<K, V>, k: K)
    requires Ok(t, roots, s) && Acyclic(t, rank) && Local(t) && DirtyClosed(t) && DepsFirst(t, s) && AllSettled(t, s)
    requires forall n :: n in t.deps ==>
               n in final && if n in t.dirty then Settled(t, final, n) else final[n] == s.vals[n]
    requires k in t.deps && (k !in t.dirty || Logged(s, k))
    ensures k in s.vals && s.vals[k] == final[k]
    ensures Logged(s, k) ==> Settled(t, s.vals, k)
    decreases if k in rank then rank[k] else 0
  {
    if k in t.dirty {
      forall d | d in t.deps[k] ensures d in s.vals && d in final && s.vals[d] == final[d] {
        assert IsDep(t, k, d);
        if d in t.dirty {
          var p :| 0 <= p < |s.log| && s.log[p].1 == k;
          assert LoggedBefore(s, p, d);
        }
        LoggedIsFinal(t, roots, rank, s, final, d);
      }
      assert AgreeOn(t.deps[k], s.vals, final);
      assert Settled(t, s.vals, k) && Settled(t, final, k);
    }
  }
}
