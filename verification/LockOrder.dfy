/**
 The locks around each call of the node function: every worker takes the mutexes of the nodes it
 touches in increasing order, calls the function, and releases them. Any number of workers, any
 calls, any assignment of mutexes to nodes.
 */
module LockOrder {
  import opened Util

  /** The calls still to make, the first one under way; each call is the nodes it touches. */
  datatype Worker<K> = Worker(calls: seq<seq<K>>, taken: nat)

  type State<K> = seq<Worker<K>>

  /** The mutexes of a call: computed for every node, sorted, duplicates removed. */
  function Locks<K>(mutexOf: K -> int, nodes: seq<K>): (locks: seq<int>)
    ensures Increasing(locks)
    ensures forall m :: m in locks <==> exists i :: 0 <= i < |nodes| && mutexOf(nodes[i]) == m
  {
    var indices := set i | 0 <= i < |nodes| :: mutexOf(nodes[i]);
    Ascending(indices)
  }

  ghost predicate Ok<K>(mutexOf: K -> int, w: Worker<K>) {
    if w.calls == [] then w.taken == 0 else w.taken <= |Locks(mutexOf, w.calls[0])|
  }

  ghost predicate Holds<K>(mutexOf: K -> int, w: Worker<K>, m: int) {
    w.calls != [] && exists i :: 0 <= i < w.taken && i < |Locks(mutexOf, w.calls[0])| && Locks(mutexOf, w.calls[0])[i] == m
  }

  /** The mutex the worker takes next. */
  ghost predicate Wants<K>(mutexOf: K -> int, w: Worker<K>, m: int) {
    w.calls != [] && w.taken < |Locks(mutexOf, w.calls[0])| && Locks(mutexOf, w.calls[0])[w.taken] == m
  }

  ghost predicate Free<K>(mutexOf: K -> int, s: State<K>, m: int) {
    forall i :: 0 <= i < |s| ==> !Holds(mutexOf, s[i], m)
  }

  ghost predicate Acquire<K>(mutexOf: K -> int, s: State<K>, s': State<K>, i: nat) {
    i < |s| && (exists m :: Wants(mutexOf, s[i], m) && Free(mutexOf, s, m)) && s' == s[i := s[i].(taken := s[i].taken + 1)]
  }

  /** All mutexes held: call the node function and release them. */
  ghost predicate InCall<K>(mutexOf: K -> int, w: Worker<K>) {
    w.calls != [] && w.taken == |Locks(mutexOf, w.calls[0])|
  }

  ghost predicate CallAndRelease<K>(mutexOf: K -> int, s: State<K>, s': State<K>, i: nat) {
    i < |s| && InCall(mutexOf, s[i]) && s' == s[i := Worker(s[i].calls[1..], 0)]
  }

  ghost predicate Step<K>(mutexOf: K -> int, s: State<K>, s': State<K>, i: nat) {
    Acquire(mutexOf, s, s', i) || CallAndRelease(mutexOf, s, s', i)
  }

  /** No mutex has two holders. */
  ghost predicate Inv<K>(mutexOf: K -> int, s: State<K>) {
    && (forall i :: 0 <= i < |s| ==> Ok(mutexOf, s[i]))
    && forall i, j, m :: 0 <= i < |s| && 0 <= j < |s| && Holds(mutexOf, s[i], m) && Holds(mutexOf, s[j], m) ==> i == j
  }

  lemma StartInv<K>(mutexOf: K -> int, s: State<K>)
    requires forall i :: 0 <= i < |s| ==> s[i].taken == 0
    ensures Inv(mutexOf, s)
  {
  }

  lemma HoldsAfterAcquire<K>(mutexOf: K -> int, w: Worker<K>, m: int)
    requires Wants(mutexOf, w, m)
    ensures Ok(mutexOf, w.(taken := w.taken + 1))
    ensures forall x :: Holds(mutexOf, w.(taken := w.taken + 1), x) ==> x == m || Holds(mutexOf, w, x)
  {
    hide Locks;
  }

  lemma StepKeepsInv<K>(mutexOf: K -> int, s: State<K>, s': State<K>, i: nat)
    requires Inv(mutexOf, s) && Step(mutexOf, s, s', i)
    ensures Inv(mutexOf, s')
  {
    hide Locks;
    if Acquire(mutexOf, s, s', i) {
      var m :| Wants(mutexOf, s[i], m) && Free(mutexOf, s, m);
      HoldsAfterAcquire(mutexOf, s[i], m);
      hide Holds, Wants, Ok;
    } else {
      assert forall x :: !Holds(mutexOf, s'[i], x);
      hide Wants;
    }
  }

  /** Mutexes are taken in increasing order: the next one is above all that are held. */
  lemma WantsAboveHeld<K>(mutexOf: K -> int, w: Worker<K>, m: int, held: int)
    requires Wants(mutexOf, w, m) && Holds(mutexOf, w, held)
    ensures held < m
  {
  }

  ghost predicate Unfinished<K>(s: State<K>) { exists i :: 0 <= i < |s| && s[i].calls != [] }

  ghost predicate CanStep<K>(mutexOf: K -> int, s: State<K>, i: nat) {
    i < |s| && (InCall(mutexOf, s[i]) || exists m :: Wants(mutexOf, s[i], m) && Free(mutexOf, s, m))
  }

  lemma UnfinishedWantsOrCalls<K>(mutexOf: K -> int, w: Worker<K>) returns (m: int)
    requires Ok(mutexOf, w) && w.calls != []
    ensures InCall(mutexOf, w) || Wants(mutexOf, w, m)
  {
    hide Locks;
    m := 0;
    if w.taken < |Locks(mutexOf, w.calls[0])| {
      m := Locks(mutexOf, w.calls[0])[w.taken];
    }
  }

  /** Follow a blocked worker to the holder of what it wants; wanted mutexes only get larger. */
  lemma {:induction false} FollowTheBlocked<K>(mutexOf: K -> int, s: State<K>, i: nat, m: int,
                                               seen: set<nat>) returns (j: nat)
    requires Inv(mutexOf, s) && i < |s| && Wants(mutexOf, s[i], m)
    requires forall k :: k in seen ==> k < |s| && exists x :: x <= m && Wants(mutexOf, s[k], x)
    requires i in seen
    ensures CanStep(mutexOf, s, j)
    decreases |s| - |seen|
  {
    hide Locks, Ok;
    if Free(mutexOf, s, m) {
      j := i;
    } else {
      var k :| 0 <= k < |s| && Holds(mutexOf, s[k], m);
      assert Ok(mutexOf, s[k]);
      var next := UnfinishedWantsOrCalls(mutexOf, s[k]);
      if InCall(mutexOf, s[k]) {
        j := k;
      } else {
        WantsAboveHeld(mutexOf, s[k], next, m);
        HolderIsNew(mutexOf, s, m, k, next, seen);
        SeenBounded(|s|, seen + {k});
        j := FollowTheBlocked(mutexOf, s, k, next, seen + {k});
      }
    }
  }

  lemma HolderIsNew<K>(mutexOf: K -> int, s: State<K>, m: int, k: nat, next: int, seen: set<nat>)
    requires k < |s| && Wants(mutexOf, s[k], next) && m < next
    requires forall i :: i in seen ==> i < |s| && exists x :: x <= m && Wants(mutexOf, s[i], x)
    ensures k !in seen
  {
    forall i | i in seen ensures i != k {
      var x :| x <= m && Wants(mutexOf, s[i], x);
    }
  }

  lemma {:induction false} SeenBounded(n: nat, seen: set<nat>)
    requires forall k :: k in seen ==> k < n
    ensures |seen| <= n
  {
    if n > 0 {
      SeenBounded(n - 1, seen - {n - 1});
    } else {
      assert seen == {};
    }
  }

  /** No deadlock: while any worker has calls left, some worker can step. */
  lemma SomeoneCanStep<K>(mutexOf: K -> int, s: State<K>) returns (j: nat, s': State<K>)
    requires Inv(mutexOf, s) && Unfinished(s)
    ensures Step(mutexOf, s, s', j)
  {
    hide Locks, Ok, Wants, InCall;
    var i :| 0 <= i < |s| && s[i].calls != [];
    assert Ok(mutexOf, s[i]);
    var m := UnfinishedWantsOrCalls(mutexOf, s[i]);
    if InCall(mutexOf, s[i]) {
      j := i;
    } else {
      j := FollowTheBlocked(mutexOf, s, i, m, {i});
    }
    if InCall(mutexOf, s[j]) {
      NotEmptyInCall(mutexOf, s[j]);
      s' := s[j := Worker(s[j].calls[1..], 0)];
    } else {
      s' := s[j := s[j].(taken := s[j].taken + 1)];
    }
  }

  lemma NotEmptyInCall<K>(mutexOf: K -> int, w: Worker<K>)
    requires InCall(mutexOf, w)
    ensures w.calls != []
  {
  }

  /** Calls running at the same time touch different nodes, so each can be seen as one atomic step. */
  lemma ConcurrentCallsAreDisjoint<K>(mutexOf: K -> int, s: State<K>, i: nat, j: nat, a: nat, b: nat)
    requires Inv(mutexOf, s) && i < |s| && j < |s| && i != j && InCall(mutexOf, s[i]) && InCall(mutexOf, s[j])
    requires a < |s[i].calls[0]| && b < |s[j].calls[0]|
    ensures s[i].calls[0][a] != s[j].calls[0][b]
  {
    HoldsItsNode(mutexOf, s[i], a);
    HoldsItsNode(mutexOf, s[j], b);
  }

  lemma HoldsItsNode<K>(mutexOf: K -> int, w: Worker<K>, a: nat)
    requires InCall(mutexOf, w) && a < |w.calls[0]|
    ensures Holds(mutexOf, w, mutexOf(w.calls[0][a]))
  {
    var m := mutexOf(w.calls[0][a]);
    assert m in Locks(mutexOf, w.calls[0]);
    hide Locks;
    var i :| 0 <= i < |Locks(mutexOf, w.calls[0])| && Locks(mutexOf, w.calls[0])[i] == m;
  }

  // ---------------------------------------------------------------------------------------------
  // Every run ends

  ghost function Work<K>(mutexOf: K -> int, calls: seq<seq<K>>): nat {
    if calls == [] then 0 else |Locks(mutexOf, calls[0])| + 1 + Work(mutexOf, calls[1..])
  }

  ghost function Remaining<K>(mutexOf: K -> int, s: State<K>): int {
    if s == [] then 0 else Work(mutexOf, s[0].calls) - s[0].taken + Remaining(mutexOf, s[1..])
  }

  lemma {:induction false} RemainingUpdate<K>(mutexOf: K -> int, s: State<K>, i: nat, w: Worker<K>)
    requires i < |s|
    ensures Remaining(mutexOf, s[i := w]) ==
            Remaining(mutexOf, s) - (Work(mutexOf, s[i].calls) - s[i].taken) + (Work(mutexOf, w.calls) - w.taken)
  {
    hide Work;
    if i > 0 {
      assert s[i := w][1..] == s[1..][i - 1 := w];
      RemainingUpdate(mutexOf, s[1..], i - 1, w);
    } else {
      assert s[i := w][1..] == s[1..];
    }
  }

  /** Each step uses up one unit of the work left, so no schedule runs forever. */
  lemma StepUsesWork<K>(mutexOf: K -> int, s: State<K>, s': State<K>, i: nat)
    requires Inv(mutexOf, s) && Step(mutexOf, s, s', i)
    ensures Remaining(mutexOf, s') == Remaining(mutexOf, s) - 1
  {
    hide Locks, Holds, Remaining;
    RemainingUpdate(mutexOf, s, i, s'[i]);
  }

  lemma {:induction false} RemainingNonNegative<K>(mutexOf: K -> int, s: State<K>)
    requires forall i :: 0 <= i < |s| ==> Ok(mutexOf, s[i])
    ensures Remaining(mutexOf, s) >= 0
  {
    hide Locks;
    if s != [] {
      assert Ok(mutexOf, s[0]);
      RemainingNonNegative(mutexOf, s[1..]);
    }
  }
}
