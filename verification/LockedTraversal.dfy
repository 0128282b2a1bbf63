/**
 The traversal with its locks, read by read. A worker that is to call the node function takes the
 mutexes of the node and of its dependencies in increasing order, copies the values of the dependencies
 one at a time, stores the node's value and lets go; other workers step in between. Seen from outside
 every such run is a run of the traversal whose calls are atomic, and none gets stuck.
 */
module LockedTraversal {
  import L = LockOrder
  import T = Traversal

  /** The traversal, the number of mutexes each worker holds, and what each has read. */
  datatype State<K(==), !V> = State(base: T.State<K, V>, taken: seq<nat>, copies: seq<map<K, V>>)

  /** All dependencies have been tried and the node function is to be called on the top. */
  ghost predicate AtCall<K(!new), V(!new)>(t: T.Task<K, V>, w: T.Worker<K>) {
    && w.stack != [] && |w.todo| == |w.stack| && !w.computed && w.todo[|w.stack| - 1] == multiset{}
    && w.stack[|w.stack| - 1] in t.deps
  }

  ghost function Top<K(!new), V(!new)>(t: T.Task<K, V>, w: T.Worker<K>): K
    requires AtCall(t, w)
  {
    w.stack[|w.stack| - 1]
  }

  /** The worker as the locks see it: the call locks the node and its dependencies. */
  ghost function ViewOf<K(!new), V(!new)>(t: T.Task<K, V>, w: T.Worker<K>, taken: nat): L.Worker<K> {
    L.Worker(if AtCall(t, w) then [[Top(t, w)] + t.deps[Top(t, w)]] else [], taken)
  }

  ghost predicate SizesOk<K(!new), V(!new)>(s: State<K, V>) {
    |s.taken| == |s.base.ws| && |s.copies| == |s.base.ws|
  }

  ghost function Views<K(!new), V(!new)>(t: T.Task<K, V>, s: State<K, V>): (views: L.State<K>)
    requires SizesOk(s)
    ensures |views| == |s.base.ws|
  {
    seq(|s.base.ws|, i requires 0 <= i < |s.base.ws| => ViewOf(t, s.base.ws[i], s.taken[i]))
  }

  ghost predicate HoldsAll<K(!new), V(!new)>(t: T.Task<K, V>, mutexOf: K -> int, s: State<K, V>, i: nat) {
    SizesOk(s) && i < |s.base.ws| && AtCall(t, s.base.ws[i]) && L.InCall(mutexOf, ViewOf(t, s.base.ws[i], s.taken[i]))
  }

  /** A step of the traversal that needs no locks: start, try a dependency, raise the flag. */
  ghost predicate Free<K(!new), V(!new)>(t: T.Task<K, V>, s: State<K, V>, s': State<K, V>, i: nat) {
    && (|| T.Begin(t, s.base, s'.base, i)
        || (exists d :: d in t.deps && T.Try(t, s.base, s'.base, i, d))
        || T.Finish(s.base, s'.base, i))
    && s' == s.(base := s'.base)
  }

  ghost predicate Acquire<K(!new), V(!new)>(t: T.Task<K, V>, mutexOf: K -> int, s: State<K, V>, s': State<K, V>,
                                            i: nat) {
    && SizesOk(s) && i < |s.taken|
    && (exists m :: L.Wants(mutexOf, ViewOf(t, s.base.ws[i], s.taken[i]), m) && L.Free(mutexOf, Views(t, s), m))
    && s' == s.(taken := s.taken[i := s.taken[i] + 1])
  }

  /** Copy the value of one dependency. */
  ghost predicate Read<K(!new), V(!new)>(t: T.Task<K, V>, mutexOf: K -> int, s: State<K, V>, s': State<K, V>, i: nat,
                                         d: K) {
    && HoldsAll(t, mutexOf, s, i)
    && d in t.deps[Top(t, s.base.ws[i])] && d !in s.copies[i] && d in s.base.vals
    && s' == s.(copies := s.copies[i := s.copies[i][d := s.base.vals[d]]])
  }

  /** All dependencies have been read: store the node's value, computed from the copies, and let go of the locks. */
  ghost predicate Write<K(!new), V(!new)>(t: T.Task<K, V>, mutexOf: K -> int, s: State<K, V>, s': State<K, V>, i: nat) {
    && HoldsAll(t, mutexOf, s, i)
    && var w := s.base.ws[i];
       var n := Top(t, w);
       && (forall d :: d in t.deps[n] ==> d in s.copies[i])
       && s' == State(
            T.Put(s.base, i, w.(computed := true))
              .(vals := s.base.vals[n := t.f(n, s.copies[i])], log := s.base.log + [(i, n)]),
            s.taken[i := 0], s.copies[i := map[]])
  }

  ghost predicate Step<K(!new), V(!new)>(t: T.Task<K, V>, mutexOf: K -> int, s: State<K, V>, s': State<K, V>, i: nat) {
    || Free(t, s, s', i)
    || Acquire(t, mutexOf, s, s', i)
    || (exists d :: d in s.base.vals && Read(t, mutexOf, s, s', i, d))
    || Write(t, mutexOf, s, s', i)
  }

  // ---------------------------------------------------------------------------------------------
  // What every step keeps

  /** What a worker has read is still what is stored, because nobody else holds those locks. */
  ghost predicate ReadsCurrent<K(!new), V(!new)>(t: T.Task<K, V>, mutexOf: K -> int, s: State<K, V>, i: nat)
    requires SizesOk(s) && i < |s.base.ws|
  {
    s.copies[i] != map[] ==>
      && HoldsAll(t, mutexOf, s, i)
      && forall d :: d in s.copies[i] ==>
           d in t.deps[Top(t, s.base.ws[i])] && d in s.base.vals && s.copies[i][d] == s.base.vals[d]
  }

  ghost predicate Inv<K(!new), V(!new)>(t: T.Task<K, V>, mutexOf: K -> int, s: State<K, V>) {
    && SizesOk(s) && L.Inv(mutexOf, Views(t, s))
    && forall i :: 0 <= i < |s.base.ws| ==> ReadsCurrent(t, mutexOf, s, i)
  }

  /** No worker holds or has read anything. */
  ghost predicate Started<K(!new), V(!new)>(s: State<K, V>) {
    SizesOk(s) && forall i :: 0 <= i < |s.base.ws| ==> s.taken[i] == 0 && s.copies[i] == map[]
  }

  lemma StartInv<K(!new), V(!new)>(t: T.Task<K, V>, mutexOf: K -> int, s: State<K, V>)
    requires Started(s)
    ensures Inv(t, mutexOf, s)
  {
    L.StartInv(mutexOf, Views(t, s));
  }

  /** A worker that is not at a call holds nothing and has read nothing. */
  lemma NotAtCall<K(!new), V(!new)>(t: T.Task<K, V>, mutexOf: K -> int, s: State<K, V>, i: nat)
    requires Inv(t, mutexOf, s) && i < |s.base.ws| && !AtCall(t, s.base.ws[i])
    ensures s.taken[i] == 0 && s.copies[i] == map[]
  {
    hide L.Locks, L.Holds;
    assert L.Ok(mutexOf, Views(t, s)[i]);
    assert ReadsCurrent(t, mutexOf, s, i);
  }

  /** A worker that holds nothing may start any call. */
  lemma ResetKeepsInv<K>(mutexOf: K -> int, s: L.State<K>, i: nat, w: L.Worker<K>)
    requires L.Inv(mutexOf, s) && i < |s| && w.taken == 0
    ensures L.Inv(mutexOf, s[i := w])
  {
    hide L.Locks;
    assert forall m :: !L.Holds(mutexOf, w, m);
    assert L.Ok(mutexOf, w);
    hide L.Holds, L.Ok;
  }

  lemma FreeIsElsewhere<K(!new), V(!new)>(t: T.Task<K, V>, s: State<K, V>, s': State<K, V>, i: nat)
    requires SizesOk(s) && Free(t, s, s', i)
    ensures i < |s.base.ws| && !AtCall(t, s.base.ws[i]) && |s'.base.ws| == |s.base.ws| && s'.base.vals == s.base.vals
    ensures forall j :: 0 <= j < |s.base.ws| && j != i ==> s'.base.ws[j] == s.base.ws[j]
    ensures T.Step(t, s.base, s'.base, i)
  {
  }

  lemma FreeKeepsInv<K(!new), V(!new)>(t: T.Task<K, V>, mutexOf: K -> int, s: State<K, V>, s': State<K, V>, i: nat)
    requires Inv(t, mutexOf, s) && Free(t, s, s', i)
    ensures Inv(t, mutexOf, s')
  {
    FreeIsElsewhere(t, s, s', i);
    NotAtCall(t, mutexOf, s, i);
    hide Free, L.Inv, AtCall, L.InCall;
    assert SizesOk(s');
    var w := ViewOf(t, s'.base.ws[i], 0);
    assert Views(t, s') == Views(t, s)[i := w];
    ResetKeepsInv(mutexOf, Views(t, s), i, w);
    forall j | 0 <= j < |s'.base.ws| ensures ReadsCurrent(t, mutexOf, s', j) {
      assert ReadsCurrent(t, mutexOf, s, j);
    }
  }

  lemma AcquireKeepsInv<K(!new), V(!new)>(t: T.Task<K, V>, mutexOf: K -> int, s: State<K, V>, s': State<K, V>, i: nat)
    requires Inv(t, mutexOf, s) && Acquire(t, mutexOf, s, s', i)
    ensures Inv(t, mutexOf, s')
  {
    hide L.Inv, AtCall, L.Free, L.Locks;
    var views := Views(t, s);
    assert views[i] == ViewOf(t, s.base.ws[i], s.taken[i]);
    assert Views(t, s') == views[i := views[i].(taken := views[i].taken + 1)];
    assert L.Acquire(mutexOf, views, Views(t, s'), i);
    L.StepKeepsInv(mutexOf, views, Views(t, s'), i);
    forall j | 0 <= j < |s'.base.ws| ensures ReadsCurrent(t, mutexOf, s', j) {
      assert ReadsCurrent(t, mutexOf, s, j);
    }
  }

  lemma ReadKeepsInv<K(!new), V(!new)>(t: T.Task<K, V>, mutexOf: K -> int, s: State<K, V>, s': State<K, V>, i: nat,
                                       d: K)
    requires Inv(t, mutexOf, s) && Read(t, mutexOf, s, s', i, d)
    ensures Inv(t, mutexOf, s')
  {
    hide L.Inv, L.InCall, AtCall;
    assert Views(t, s') == Views(t, s);
    forall j | 0 <= j < |s'.base.ws| ensures ReadsCurrent(t, mutexOf, s', j) {
      assert ReadsCurrent(t, mutexOf, s, j);
    }
  }

  /** Nobody else has read the node that is being written. */
  lemma OthersDoNotReadIt<K(!new), V(!new)>(t: T.Task<K, V>, mutexOf: K -> int, s: State<K, V>, i: nat, j: nat)
    requires Inv(t, mutexOf, s) && HoldsAll(t, mutexOf, s, i) && j < |s.base.ws| && j != i
    ensures Top(t, s.base.ws[i]) !in s.copies[j]
  {
    hide L.Inv, L.Locks, L.InCall;
    var n := Top(t, s.base.ws[i]);
    assert ReadsCurrent(t, mutexOf, s, j);
    if n in s.copies[j] {
      var views := Views(t, s);
      var deps := t.deps[Top(t, s.base.ws[j])];
      var b :| 0 <= b < |deps| && deps[b] == n;
      assert views[j].calls[0] == [Top(t, s.base.ws[j])] + deps && views[i].calls[0][0] == n;
      assert views[j].calls[0][b + 1] == n;
      L.ConcurrentCallsAreDisjoint(mutexOf, views, i, j, 0, b + 1);
    }
  }

  lemma WriteKeepsInv<K(!new), V(!new)>(t: T.Task<K, V>, mutexOf: K -> int, s: State<K, V>, s': State<K, V>, i: nat)
    requires Inv(t, mutexOf, s) && Write(t, mutexOf, s, s', i)
    ensures Inv(t, mutexOf, s')
  {
    hide L.Inv, L.Locks, L.InCall;
    assert SizesOk(s') && !AtCall(t, s'.base.ws[i]);
    var w := ViewOf(t, s'.base.ws[i], 0);
    assert Views(t, s') == Views(t, s)[i := w];
    ResetKeepsInv(mutexOf, Views(t, s), i, w);
    forall j | 0 <= j < |s'.base.ws| ensures ReadsCurrent(t, mutexOf, s', j) {
      if j != i {
        OthersDoNotReadIt(t, mutexOf, s, i, j);
        assert ReadsCurrent(t, mutexOf, s, j);
      }
    }
  }

  lemma StepKeepsInv<K(!new), V(!new)>(t: T.Task<K, V>, mutexOf: K -> int, s: State<K, V>, s': State<K, V>, i: nat)
    requires Inv(t, mutexOf, s) && Step(t, mutexOf, s, s', i)
    ensures Inv(t, mutexOf, s')
  {
    hide Inv, Free, Acquire, Read, Write;
    if Free(t, s, s', i) {
      FreeKeepsInv(t, mutexOf, s, s', i);
    } else if Acquire(t, mutexOf, s, s', i) {
      AcquireKeepsInv(t, mutexOf, s, s', i);
    } else if Write(t, mutexOf, s, s', i) {
      WriteKeepsInv(t, mutexOf, s, s', i);
    } else {
      var d :| d in s.base.vals && Read(t, mutexOf, s, s', i, d);
      ReadKeepsInv(t, mutexOf, s, s', i, d);
    }
  }

  // ---------------------------------------------------------------------------------------------
  // Every run is a run of the traversal

  /** A step is invisible or a step of the traversal; a write is a call from the values at that moment. */
  lemma StepIsAtomic<K(!new), V(!new)>(t: T.Task<K, V>, mutexOf: K -> int, s: State<K, V>, s': State<K, V>, i: nat)
    requires T.Local(t) && Inv(t, mutexOf, s) && Step(t, mutexOf, s, s', i)
    ensures s'.base == s.base || T.Next(t, s.base, s'.base)
    ensures Write(t, mutexOf, s, s', i) ==> T.Compute(t, s.base, s'.base, i)
  {
    hide L.Inv, L.InCall, L.Locks;
    if Write(t, mutexOf, s, s', i) {
      var n := Top(t, s.base.ws[i]);
      assert ReadsCurrent(t, mutexOf, s, i);
      assert T.AgreeOn(t.deps[n], s.copies[i], s.base.vals);
      assert T.Compute(t, s.base, s'.base, i);
      assert T.Step(t, s.base, s'.base, i);
    } else if Free(t, s, s', i) {
      FreeIsElsewhere(t, s, s', i);
    }
  }

  ghost predicate Next<K(!new), V(!new)>(t: T.Task<K, V>, mutexOf: K -> int, s: State<K, V>, s': State<K, V>) {
    exists i: nat :: Step(t, mutexOf, s, s', i)
  }

  ghost predicate Run<K(!new), V(!new)>(t: T.Task<K, V>, mutexOf: K -> int, run: seq<State<K, V>>) {
    && run != []
    && forall j, k :: 0 <= j && k == j + 1 && k < |run| ==> Next(t, mutexOf, run[j], run[k])
  }

  /** Whatever the interleaving of locks, reads and writes, it is a run of the traversal with atomic calls. */
  lemma {:induction false} RunIsAtomic<K(!new), V(!new)>(t: T.Task<K, V>, mutexOf: K -> int, run: seq<State<K, V>>)
    returns (atomic: seq<T.State<K, V>>)
    requires Run(t, mutexOf, run) && T.Local(t) && Inv(t, mutexOf, run[0])
    ensures Inv(t, mutexOf, run[|run| - 1])
    ensures T.Run(t, atomic) && atomic[0] == run[0].base && T.Last(atomic) == run[|run| - 1].base
    decreases |run|
  {
    hide Inv, Step, T.Local, T.Next;
    if |run| == 1 {
      atomic := [run[0].base];
    } else {
      var init := run[..|run| - 1];
      atomic := RunIsAtomic(t, mutexOf, init);
      var s, s' := run[|run| - 2], run[|run| - 1];
      assert Next(t, mutexOf, s, s');
      var i: nat :| Step(t, mutexOf, s, s', i);
      StepKeepsInv(t, mutexOf, s, s', i);
      StepIsAtomic(t, mutexOf, s, s', i);
      if s'.base != s.base {
        Longer(t, atomic, s'.base);
        atomic := atomic + [s'.base];
      }
    }
  }

  /** A finished run of a pass with its locks. */
  ghost predicate WholeRun<K(!new), V(!new)>(t: T.Task<K, V>, roots: set<K>, mutexOf: K -> int, run: seq<State<K, V>>) {
    && Run(t, mutexOf, run) && Started(run[0]) && T.Initial(t, roots, run[0].base) && T.Finished(run[|run| - 1].base)
  }

  lemma WholeRunIsAtomic<K(!new), V(!new)>(t: T.Task<K, V>, roots: set<K>, mutexOf: K -> int, run: seq<State<K, V>>)
    returns (atomic: seq<T.State<K, V>>)
    requires WholeRun(t, roots, mutexOf, run) && T.Local(t)
    ensures T.Run(t, atomic) && T.Initial(t, roots, atomic[0]) && T.Finished(T.Last(atomic))
    ensures atomic[0].vals == run[0].base.vals && T.Last(atomic).vals == run[|run| - 1].base.vals
  {
    hide Run, T.Local, T.Run, Inv;
    RunNotEmpty(t, mutexOf, run);
    StartInv(t, mutexOf, run[0]);
    atomic := RunIsAtomic(t, mutexOf, run);
    AtomicNotEmpty(t, atomic);
  }

  lemma RunNotEmpty<K(!new), V(!new)>(t: T.Task<K, V>, mutexOf: K -> int, run: seq<State<K, V>>)
    requires Run(t, mutexOf, run)
    ensures run != []
  {
  }

  lemma AtomicNotEmpty<K(!new), V(!new)>(t: T.Task<K, V>, run: seq<T.State<K, V>>)
    requires T.Run(t, run)
    ensures run != []
  {
  }

  lemma Longer<K(!new), V(!new)>(t: T.Task<K, V>, run: seq<T.State<K, V>>, s: T.State<K, V>)
    requires T.Run(t, run) && T.Next(t, T.Last(run), s)
    ensures T.Run(t, run + [s]) && T.Last(run + [s]) == s && (run + [s])[0] == run[0]
  {
    hide T.Next;
  }

  // ---------------------------------------------------------------------------------------------
  // No run gets stuck and none goes on forever

  lemma ReadOrWrite<K(!new), V(!new)>(t: T.Task<K, V>, mutexOf: K -> int, s: State<K, V>,
                                      i: nat) returns (s': State<K, V>)
    requires T.ValidTask(t) && s.base.vals.Keys == t.deps.Keys && HoldsAll(t, mutexOf, s, i)
    ensures Step(t, mutexOf, s, s', i)
  {
    hide L.InCall;
    var w := s.base.ws[i];
    var n := Top(t, w);
    if d :| d in t.deps[n] && d !in s.copies[i] {
      s' := s.(copies := s.copies[i := s.copies[i][d := s.base.vals[d]]]);
      assert d in s.base.vals && Read(t, mutexOf, s, s', i, d);
    } else {
      var vals := s.base.vals[n := t.f(n, s.copies[i])];
      s' := State(T.Put(s.base, i, w.(computed := true)).(vals := vals, log := s.base.log + [(i, n)]),
                  s.taken[i := 0], s.copies[i := map[]]);
      assert Write(t, mutexOf, s, s', i);
    }
  }

  /** While any worker is not idle, some worker can step: neither the locks nor the traversal block. */
  lemma SomeoneCanStep<K(!new), V(!new)>(t: T.Task<K, V>, roots: set<K>, mutexOf: K -> int, s: State<K, V>)
    returns (j: nat, s': State<K, V>)
    requires Inv(t, mutexOf, s) && T.Ok(t, roots, s.base) && !T.Finished(s.base)
    ensures Step(t, mutexOf, s, s', j)
  {
    var i :| 0 <= i < |s.base.ws| && !s.base.ws[i].Idle();
    if AtCall(t, s.base.ws[i]) {
      j, s' := LocksMoveOn(t, mutexOf, s, i);
    } else {
      j := i;
      var base := T.Progress(t, roots, s.base, i);
      ComputesAtCalls(t, roots, s.base, base, i);
      s' := s.(base := base);
      assert Free(t, s, s', i);
    }
  }

  lemma ComputesAtCalls<K(!new), V(!new)>(t: T.Task<K, V>, roots: set<K>, s: T.State<K, V>, s': T.State<K, V>, i: nat)
    requires T.Ok(t, roots, s)
    ensures T.Compute(t, s, s', i) ==> AtCall(t, s.ws[i])
  {
    if T.Compute(t, s, s', i) {
      assert T.WorkerOk(t, roots, s, s.ws[i]);
      assert T.LevelOk(t, s, s.ws[i], |s.ws[i].stack| - 1);
    }
  }

  lemma LocksMoveOn<K(!new), V(!new)>(t: T.Task<K, V>, mutexOf: K -> int, s: State<K, V>,
                                      i: nat) returns (j: nat, s': State<K, V>)
    requires Inv(t, mutexOf, s) && i < |s.base.ws| && AtCall(t, s.base.ws[i])
    requires T.ValidTask(t) && s.base.vals.Keys == t.deps.Keys
    ensures Step(t, mutexOf, s, s', j)
  {
    hide L.Inv, L.Locks, L.Free, L.Wants;
    var views := Views(t, s);
    assert views[i].calls != [];
    assert L.Unfinished(views);
    var views';
    j, views' := L.SomeoneCanStep(mutexOf, views);
    if L.InCall(mutexOf, views[j]) {
      assert HoldsAll(t, mutexOf, s, j);
      s' := ReadOrWrite(t, mutexOf, s, j);
    } else {
      assert views[j] == ViewOf(t, s.base.ws[j], s.taken[j]);
      s' := s.(taken := s.taken[j := s.taken[j] + 1]);
      assert Acquire(t, mutexOf, s, s', j);
    }
  }

  /** Mutexes still to take and dependencies still to read. */
  ghost function Left<K(!new), V(!new)>(t: T.Task<K, V>, mutexOf: K -> int, w: T.Worker<K>, taken: nat,
                                        copies: map<K, V>): int {
    if AtCall(t, w)
    then |L.Locks(mutexOf, [Top(t, w)] + t.deps[Top(t, w)])| - taken + |Deps(t, Top(t, w)) - copies.Keys|
    else 0
  }

  ghost function Deps<K(!new), V(!new)>(t: T.Task<K, V>, n: K): set<K>
    requires n in t.deps
  {
    set d | d in t.deps[n]
  }

  ghost function AllLeft<K(!new), V(!new)>(t: T.Task<K, V>, mutexOf: K -> int, s: State<K, V>, n: nat): int
    requires SizesOk(s) && n <= |s.base.ws|
  {
    if n == 0 then 0
    else AllLeft(t, mutexOf, s, n - 1) + Left(t, mutexOf, s.base.ws[n - 1], s.taken[n - 1], s.copies[n - 1])
  }

  lemma {:induction false} AllLeftChange<K(!new), V(!new)>(t: T.Task<K, V>, mutexOf: K -> int, s: State<K, V>,
                                                           s': State<K, V>, i: nat, n: nat)
    requires SizesOk(s) && SizesOk(s') && |s.base.ws| == |s'.base.ws| && i < |s.base.ws| && n <= |s.base.ws|
    requires forall j :: 0 <= j < |s.base.ws| && j != i ==>
               s'.base.ws[j] == s.base.ws[j] && s'.taken[j] == s.taken[j] && s'.copies[j] == s.copies[j]
    ensures AllLeft(t, mutexOf, s', n) == AllLeft(t, mutexOf, s, n) +
            if i < n
            then Left(t, mutexOf, s'.base.ws[i], s'.taken[i], s'.copies[i])
                 - Left(t, mutexOf, s.base.ws[i], s.taken[i], s.copies[i])
            else 0
    decreases n
  {
    hide Left;
    if n > 0 {
      AllLeftChange(t, mutexOf, s, s', i, n - 1);
    }
  }

  lemma {:induction false} AllLeftNonNegative<K(!new), V(!new)>(t: T.Task<K, V>, mutexOf: K -> int, s: State<K, V>, n: nat)
    requires Inv(t, mutexOf, s) && n <= |s.base.ws|
    ensures AllLeft(t, mutexOf, s, n) >= 0
    decreases n
  {
    hide L.Locks;
    if n > 0 {
      AllLeftNonNegative(t, mutexOf, s, n - 1);
      assert L.Ok(mutexOf, Views(t, s)[n - 1]);
    }
  }

  /** A step that the traversal does not see takes a mutex or reads a value, and there are only so many. */
  lemma InvisibleStepsRunOut<K(!new), V(!new)>(t: T.Task<K, V>, mutexOf: K -> int, s: State<K, V>, s': State<K, V>,
                                               i: nat)
    requires Inv(t, mutexOf, s) && Step(t, mutexOf, s, s', i) && s'.base == s.base
    ensures AllLeft(t, mutexOf, s', |s'.base.ws|) < AllLeft(t, mutexOf, s, |s.base.ws|)
  {
    hide L.Inv, L.Locks, AllLeft;
    if Acquire(t, mutexOf, s, s', i) {
      AllLeftChange(t, mutexOf, s, s', i, |s.base.ws|);
    } else if d :| d in s.base.vals && Read(t, mutexOf, s, s', i, d) {
      var deps := Deps(t, Top(t, s.base.ws[i]));
      assert deps - s'.copies[i].Keys == deps - s.copies[i].Keys - {d};
      AllLeftChange(t, mutexOf, s, s', i, |s.base.ws|);
    } else {
      assert false by { VisibleSteps(t, mutexOf, s, s', i); }
    }
  }

  /** Any other step changes the worker that makes it. */
  lemma VisibleSteps<K(!new), V(!new)>(t: T.Task<K, V>, mutexOf: K -> int, s: State<K, V>, s': State<K, V>, i: nat)
    requires SizesOk(s)
    ensures Write(t, mutexOf, s, s', i) || Free(t, s, s', i) ==> s'.base != s.base
  {
    hide L.InCall;
    if Write(t, mutexOf, s, s', i) {
      assert s'.base.ws[i].computed && !s.base.ws[i].computed;
    } else if T.Begin(t, s.base, s'.base, i) {
      assert |s'.base.ws[i].pending| == |s.base.ws[i].pending| - 1;
    } else if T.Finish(s.base, s'.base, i) {
      assert |s'.base.ws[i].stack| == |s.base.ws[i].stack| - 1;
    } else if d :| d in t.deps && T.Try(t, s.base, s'.base, i, d) {
      TryChanges(t, s.base, s'.base, i, d);
    }
  }

  lemma TryChanges<K(!new), V(!new)>(t: T.Task<K, V>, s: T.State<K, V>, s': T.State<K, V>, i: nat, d: K)
    requires T.Try(t, s, s', i, d)
    ensures s' != s
  {
    var top := |s.ws[i].stack| - 1;
    assert s'.ws[i].todo[top] == s.ws[i].todo[top] - multiset{d};
    assert s'.ws[i].todo[top][d] == s.ws[i].todo[top][d] - 1;
  }
}
