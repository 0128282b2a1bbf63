# The opening book and its neighbours: a verified model

This project models the hardest state-changing parts of the repository and proves what they are meant
to guarantee. `dafny verify dfyconfig.toml` checks everything.

**The opening book** (`cpp/book/book.cpp`). The book is a graph of Go positions, each stored once for
its whole symmetry class, linked by moves and by parent entries. Search values flow up by minimax,
costs flow down.

- `Symmetry`: the eight symmetries, how they compose and how they move locations.
- `Hashing`: one hash, one orientation and the stabiliser for all symmetric copies of a history.
- `HashMeaning`: which histories have the same hash, if nothing collides.
- `Views`, `BookViews`: following, listing and adding moves through a symmetry; the canonical parent.
- `BookData`: nodes and the book as classes. `Book.Snapshot()` is the book's state as a map from hash
  to node state; method contracts relate snapshots, and the theorems are about snapshots.
- `Traversal`: both traversals as one state machine run by any number of workers, with the
  single-threaded loops as runs by one worker. Dependencies are children in the value pass and parents
  in the cost pass. The machine's invariants hold on cyclic books too.
- `ValueRules`, `ValueTasks`, `ValuePass`, `ValueTraversal`: the value pass, from the rule for one node
  to the loop over explicit stacks. `CostRules`, `CostTasks`, `CostPass`, `CostTraversal`: the cost pass.
- `MarkDirty`, `Settled`, `Recompute`, `Threads`: dirty marking, and that incremental, full and
  multi-threaded recomputation agree. A book is settled when recomputing any node changes nothing.
- `LockOrder`, `LockedTraversal`: the sorted mutexes around each call of the node function, and the
  traversal with its locks and reads, which refines the one with atomic calls.
- `Meaning`, `VisitCaps`, `Lines`, `CostMeaning`: what the estimates, marks, visit counts, costs and depths
  stored in a settled book say, without reference to the rules that computed them.
- `MinCost`, `MinCostSearch`: the AND/OR search for the cheapest set of nodes that would change a
  value, as a plain function and as the cached, de-duplicating, pruning code. `MinCostMeaning`: what
  suffices to change the value, and that the search finds it, at the least price where there are no
  transpositions.
- `Walks`, `BookWalks`: histories walking through the book; every history that follows the book's moves
  to a node hashes to that node, so the integrity check of the book generator cannot fail.
- `Growth`, `Visits`, `Recording`: runs of edits; the edits that recording a search tree calls for, one
  visit for each move; the code that records it. `Recorded`, `Effects`: what that leaves in the book, in
  terms of the search's numbers.
- `Routes`, `Rounds`, `Expansion`: rounds of expansions from the constructor on: reach the nodes, check
  their hashes, record, recompute incrementally; and what a round can leave stale. `Interleaving`: the
  same by threads that take turns at the book. `MissedSearch`: a round that leaves a leaf stale.
- `Paths`: histories that reach a node.
- `SaveLoad`, `BookFiles`, `Reloading`: writing a book to records and reading it back; what recomputing
  restores and what the file forgets.

**Training data.** `Shuffle` (rows are conserved by grouping, sharding, merging and waves),
`TrainBucket` (a token bucket over whole runs).

**Position generator.** `ClumpyGrid`, `ClumpyLabels`, `ClumpyBoard`: labelling, merging, growing and
shrinking regions in place on the grids.

Conventions. `double` is `real`. Acyclicity and reachability from the root are witnessed by a rank and
a depth map given as ghost arguments; results that do not need them do not ask for them. A book is
consistent (`Linked`) when every move leads to a node that lists it as a parent and conversely. The
order of a `std::map` is ascending order of its keys (`Ascending`).

Where code and comments differ, the model follows the code:

- `recomputeAdjustedVisits` does not divide by `adjustedVisitsWLScale` although its comment says so; the
  cap is an arbitrary function here, so both are covered.
- The message for a loaded node that disagrees with an existing one says "root node", but the test
  applies to every node that two records name; `EnterNode` does the same.
- The comment on `iterateDirtyNodesPostOrder` promises children before parents; on cyclic books some
  child comes later, so that claim is made for acyclic books and the others for all books.
- `reverseDepthFirstSearchWithMoves` leaves a node without trying its other parents when the best-parent
  index is past the end of the parent list. That cannot happen: `BestParentsOk` is part of the book's
  invariant `Valid`, kept by construction, every edit, loading, and cost passes on any book.
- Incremental recomputation promises the state of a full one for the nodes it is told of. The generator
  tells it too little: a search that is stored at a leaf already in the book is not listed
  (cpp/command/genbook.cpp:1096-1106), so the leaf keeps its old values, and its ancestors are computed
  from them, until the next full recomputation. `RoundSettlesExactly` says exactly when,
  `MissedAreOldLeaves` that nothing else is missed, and `MissedSearchExample` gives a book. A sound book
  says which leaves are stale.
- The list of win/loss values along the path to a node ends with the node's value twice, because the
  path already contains the node.
- The file leaves out canReExpand on purpose (cpp/book/book.cpp:3091), so saving and loading a book can
  change its costs; `ReloadedBookIsOriginal`, `NothingForgotten` and `ForgottenFlagMatters` say when.
- The search for the principal variation starts from a sentinel of -1e100, so it is wrong about nodes
  whose moves are all at or below it; `WLPVReachesItsValue` says exactly when.

## Model

| member | source | states |
|---|---|---|
| Symmetry.GroupLaws | cpp/neuralnet/nninputs.cpp:599-615 | `compose` and `invert` make the eight symmetries a group: associativity, identity, two-sided inverses, inverse of a composition |
| Symmetry.BitsAgree | cpp/neuralnet/nninputs.cpp:599-611 | the bit-twiddling forms of `compose` and `invert` compute the group operations |
| Symmetry.SymLocOnBoard | cpp/neuralnet/nninputs.cpp:617-643 | a symmetry allowed on the board sends board points to board points, at the flipped and transposed coordinates, and fixes pass and the null location |
| Symmetry.SymLocActs | cpp/neuralnet/nninputs.cpp:607-643 | moving a location by `a` and then by `b` is moving it by `compose(a,b)`, on square boards by all eight and on rectangles by four symmetries |
| Symmetry.SymLocBack | cpp/neuralnet/nninputs.cpp:599-643 | moving by a symmetry and by its inverse cancel, in both orders |
| Symmetry.PageAgrees | cpp/book/bookcssjs.cpp:169-196 | the page's `getSymPos` moves positions as the book moves locations, and `getInvSymPos` undoes it |
| Traversal.NextKeeps | cpp/book/book.cpp:1532-1605 | the invariant tying stacks, visited sets, "done" flags and the log of calls survives every step of every worker, on cyclic graphs too |
| Traversal.NextDecreases | cpp/book/book.cpp:1532-1605 | every step of any worker decreases a well-founded measure, so no schedule runs forever, cyclic graphs included |
| Traversal.Progress | cpp/book/book.cpp:1532-1605 | a worker that is not idle can always step, whatever the others do |
| Traversal.RunVisitsAll | cpp/book/book.cpp:1532-1605 | under any schedule a finished run has processed exactly the dirty nodes, no worker twice the same one, and flagged exactly those |
| Traversal.RunDepsFirst | cpp/book/book.cpp:1528-1530 | on an acyclic graph every dirty dependency of a node is processed before the node, whatever the schedule |
| Traversal.NextKeepsSettled | cpp/book/book.cpp:1025-1096 | processed nodes hold final values: processing any of them again would change nothing, after every step of every worker |
| Traversal.RunSettles | cpp/book/book.cpp:1025-1096 | a finished run on an acyclic graph settles the dirty nodes and no others: the others keep their values, and are settled after it exactly if they were before |
| Traversal.SettledUnique | cpp/book/book.cpp:1732-1837 | on an acyclic graph the values of the other nodes determine the settled values of the dirty ones |
| BookData.Book.Add | cpp/book/book.cpp:1372-1380 | a node is entered exactly when its hash is new; hash index and node list keep agreeing, all other entries stay |
| BookData.Book.constructor | cpp/book/book.cpp:858-907 | a new book has its root first in the node list and is consistent |
| ValueRules.NodeIsMinimax | cpp/book/book.cpp:1789-1822 | each of the nine estimates computed for a node is the best, for the player to move, of the node's own estimate and its children's |
| ValueRules.OwnEstimates | cpp/book/book.cpp:1745-1775 | a node's own estimates: the means are the search's; the win/loss and final-score bounds lie at `errorFactor` times the error or deviation on both sides; the score bounds are widened just enough to hold the raw sharp score; the clamped sharp score is the point within the outlier cap of the mean nearest to the raw one |
| VisitCaps.SortSorts | cpp/book/book.cpp:1688-1695 | the items are sorted from worst to best, and none is lost |
| VisitCaps.AdjustedAreCapped | cpp/book/book.cpp:1649-1729 | however the items are listed: without ties, adjusted visits are the sum of each item's visits, cut off at four times the least cap of the items at least as good plus `visitsScale` |
| ValueRules.AdjustedAtMostVisits | cpp/book/book.cpp:1649-1730 | adjusted visits of a node are at most its visits if that holds of its children, whatever the caps are |
| ValuePass.SumCapped | cpp/book/book.cpp:1700-1729 | sorting and walking from best to worst adds up the capped visits of the specification |
| ValuePass.RecomputeAdjustedVisits | cpp/book/book.cpp:1649-1730 | stores the specified adjusted visits and changes nothing else |
| ValuePass.RecomputeNodeValues | cpp/book/book.cpp:1732-1837 | one node's recursive values become the combination of its own and its children's that `NodeIsMinimax`, `OwnEstimates`, `SettledAdjustedVisits` and `SumOverLines` describe; nothing else of the node changes |
| ValuePass.ProcessNode | cpp/book/book.cpp:981-991 | recompute the node, raise its flag; no other node changes |
| ValueTraversal.IterateDirtyNodesPostOrder | cpp/book/book.cpp:1532-1605 | the explicit-stack loop over the nodes is a finished run of the traversal machine by one worker, so all theorems about runs apply to it; it writes only values and flags, and ends on cyclic books |
| MarkDirty.MarkAncestorsDirty | cpp/book/book.cpp:966-977 | the upward search adds to the dirty set exactly what is needed: the result is closed under parents and is the least such set |
| CostRules.BestParentIsCheapest | cpp/book/book.cpp:1976-2000 | the best parent has the least cost from the root, and is the first such parent, if any parent costs less than the sentinel of 1e100; if none does, the costs are the sentinel and the index is 0 |
| CostRules.PickIsBest | cpp/book/book.cpp:2026-2040 | the chosen move has the best value of all children for the player to move |
| CostPass.CostFromParents | cpp/book/book.cpp:1971-2000 | the loop over parents computes the specified minima |
| CostPass.FindWLPV | cpp/book/book.cpp:2026-2054 | the loop over moves finds the principal variation move, or that the node itself is to be expanded |
| CostPass.RecomputeNodeCost | cpp/book/book.cpp:1961-2055 | one node's cost fields and the cost fields of its moves become the specified function of its parents, values and children; nothing else of the node changes |
| CostTraversal.IterateEntireBookPreOrder | cpp/book/book.cpp:1607-1647 | the loop over all nodes with the upward searches is a finished run of the traversal machine by one worker; it writes only costs and flags, and ends on cyclic books |
| Settled.KidIffParent | cpp/book/book.h:143-144 | in a consistent book a node is listed as a parent exactly where it has the child |
| Settled.ValuePassSettles | cpp/book/book.cpp:1025-1096 | a finished value pass over a dirty set closed under parents, by any number of threads and under any schedule, settles the dirty nodes of an acyclic book and changes no other value |
| Settled.CostPassSettles | cpp/book/book.cpp:1097-1151 | a finished cost pass, by any number of threads and under any schedule, settles the costs of an acyclic book |
| Recompute.MarkAllDirty | cpp/book/book.cpp:966-980 | the dirty set of all changed nodes is exactly their ancestor closure |
| Recompute.UntouchedStaySettled | cpp/book/book.cpp:966-1000 | a node that was settled stays settled if it is not among those whose search values or moves changed or that were added |
| Recompute.RecomputeChanged | cpp/book/book.cpp:966-1000 | incremental recomputation of an acyclic book settles the listed nodes and their ancestors, changes no other value and settles all costs; so if all nodes but the listed ones were settled, all are afterwards; links and search values stay |
| Recompute.SettledExactlyWhere | cpp/book/book.cpp:966-1000 | afterwards a node is settled if and only if it was marked dirty or was settled before |
| Recompute.SettledIffNothingMissed | cpp/book/book.cpp:966-1000 | so the book is settled afterwards if and only if all nodes that were not marked were settled before |
| Recompute.RecomputeEverything | cpp/book/book.cpp:1002-1023 | full recomputation of an acyclic book settles all values and costs; links and search values stay |
| Recompute.SettledBooksAgree | cpp/book/book.cpp:966-1023 | links and search values of an acyclic book determine all values and costs, so incremental and full recomputation give the same book |
| Recompute.RecomputedBooksAgree | cpp/book/book.cpp:966-1000 | however the dirty nodes are recomputed, the book ends up with the same values and costs, stale nodes elsewhere or not |
| Threads.SchedulesAgree | cpp/book/book.cpp:1025-1096 | any two interleavings, with any numbers of threads, end with the same values |
| Threads.ThreadedValuesAreSequential | cpp/book/book.cpp:1025-1096 | any number of threads, any interleaving: the value pass ends with exactly the values of the single-threaded pass |
| Threads.ThreadedCostsAreSequential | cpp/book/book.cpp:1097-1151 | any number of threads, any interleaving: the cost pass ends with exactly the costs of the single-threaded pass |
| Threads.ThreadedRecomputeSettles | cpp/book/book.cpp:1025-1151 | both passes by any number of threads under any schedules settle the dirty nodes and all costs, change no other value and keep links and searches |
| Threads.ThreadedRecomputeIsSequential | cpp/book/book.cpp:1025-1151 | so a threaded recomputation ends with exactly the values and costs of any other recomputation of the same dirty nodes |
| Threads.LeftNodesAreFinal | cpp/book/book.cpp:1025-1096 | at any moment, a node that carries the pass's flag, or that some thread visited and left, already has its final values, and computing it again changes nothing |
| Threads.ValuePassVisitsOnce | cpp/book/book.cpp:1532-1605 | one thread recomputes each dirty node exactly once, on cyclic books too |
| Threads.ValuePassChildrenFirst | cpp/book/book.cpp:1528-1530 | on an acyclic book every dirty child is recomputed before its parent, whatever the schedule |
| Threads.CostPassVisitsOnce | cpp/book/book.cpp:1607-1647 | one thread costs each node exactly once, on cyclic books too |
| Threads.CostPassParentsFirst | cpp/book/book.cpp:1607-1647 | on an acyclic book every parent is costed before its children, whatever the schedule |
| LockOrder.StepKeepsInv | cpp/book/book.cpp:1052-1083 | no mutex is ever held twice, and every worker holds a prefix of its sorted list |
| LockOrder.SomeoneCanStep | cpp/book/book.cpp:1067-1083 | no deadlock: in every reachable state with work left some worker can step, for any lock sets and any mapping of nodes to mutexes |
| LockOrder.FollowTheBlocked | cpp/book/book.cpp:1067-1083 | from any blocked worker, following holders of wanted mutexes leads to a worker that can step |
| LockOrder.ConcurrentCallsAreDisjoint | cpp/book/book.cpp:1052-1083 | calls running at the same time touch different nodes |
| LockedTraversal.StepIsAtomic | cpp/book/book.cpp:1052-1083 | a step of the traversal with locks changes nothing that others see, or is a step of the traversal; a call that copies the values it reads one at a time while other threads step in between is an atomic call at the moment of its write |
| LockedTraversal.RunIsAtomic | cpp/book/book.cpp:1032-1089 | so every interleaving of flags, stacks, locks, reads and writes is a run of the traversal with atomic calls |
| LockedTraversal.SomeoneCanStep | cpp/book/book.cpp:1032-1089 | locks and traversal together never get stuck: while any thread is not done some thread can step |
| LockedTraversal.InvisibleStepsRunOut | cpp/book/book.cpp:1067-1083 | between two steps of the traversal there are only so many lock acquisitions and reads, so with Traversal.NextDecreases no schedule runs forever |
| Threads.LockedRecomputeIsSequential | cpp/book/book.cpp:1025-1151 | the whole of it: both passes by any number of threads that choose nodes as they go, lock, read one value at a time and write, under any interleaving and any assignment of mutexes, end with exactly the values and costs of the single-threaded recomputation |
| LockOrder.StepUsesWork | cpp/book/book.cpp:1067-1083 | every step uses up one unit of remaining work |
| Meaning.SettledIsMinimax | cpp/book/book.cpp:1789-1822 | in a settled book each of the nine estimates of a node is the best, for the player, over the node's own not-in-book estimate and all children's |
| Meaning.SettledBoundsEnclose | cpp/book/book.cpp:1745-1822 | with errors that are not negative, every mean at every node of a settled acyclic book lies between its lower and its upper bound |
| Meaning.SettledAdjustedVisits | cpp/book/book.cpp:1649-1729 | a node's stored adjusted visits, if no two of its items sort equal, are its moves' and its own visits, each up to the least cap of the items at least as good |
| CostMeaning.SettledCostIsCheapest | cpp/book/book.cpp:1963-2020 | before the user's bonus and the 500 for missing visits, a node's stored cost is that of the cheapest of its parents' moves to it, found at the first such parent, the stored best parent; the sentinel if none is cheaper; nothing for the root |
| CostMeaning.SettledWLPVCostIsLeast | cpp/book/book.cpp:1990-2024 | the stored WLPV cost is the least of the node's own cost and the WLPV costs of the parents whose move here is marked |
| CostMeaning.WLPVCostIsLowerBound | cpp/book/book.cpp:1990-2024 | no node from which marked moves lead here costs less than the WLPV cost, on cyclic books too |
| CostMeaning.WLPVCostIsAttained | cpp/book/book.cpp:1990-2024 | and on an acyclic book some such node costs exactly that, unless it is the root's 0 or the sentinel |
| CostMeaning.DepthIsShortestLine | cpp/book/book.cpp:1964-1996 | the stored depth is the length of the shortest line of moves from the root, up to the sentinel of 0x3FFFFFFF, on cyclic books too |
| CostMeaning.RootedDepthIsExact | cpp/book/book.cpp:1964-1996 | on an acyclic rooted book with no more nodes than the sentinel it is exactly that length |
| CostMeaning.SettledHeuristics | cpp/book/book.cpp:2026-2600 | the heuristics have seen the costs that are stored and the marked move, and each result is stored where it belongs |
| Meaning.WLPVPathKeepsValue | cpp/book/book.cpp:2026-2055 | along moves marked as principal variation the win/loss value never changes, whatever the values are |
| Meaning.WLPVStepUnique | cpp/book/book.cpp:2026-2055 | at most one move of a node carries the mark, and none if the node itself is to be expanded |
| Meaning.WLPVReachesItsValue | cpp/book/book.cpp:2026-2055 | following the marks from any node of an acyclic book ends at a node marked for expansion with the start node's minimax value; that is its own search value if and only if it is not the case that its own value is worse than some move while no move is above the sentinel of 1e100 |
| Meaning.OrdinaryNumbersSuffice | cpp/book/book.cpp:2026-2055 | no node is in that case if every search value is on the right side of the sentinel |
| Meaning.BelowTheSentinel | cpp/book/book.cpp:2026-2055 | a node in that case: the code marks it for expansion although its move is worth more |
| Meaning.AdjustedNeverExceeds | cpp/book/book.cpp:1649-1730 | adjusted visits are at most visits at every node of a settled acyclic book |
| Lines.SumOverLines | cpp/book/bookcssjs.cpp:725 | a node's visits, and its weight, are those of the searches summed over all lines of play from it, transpositions counted once for each line |
| Lines.LinesFromComplete | cpp/book/book.cpp:1743-1832 | the lines summed over are all lines of play from the node |
| Lines.LinesFromDistinct | cpp/book/book.cpp:1743-1832 | and none is listed twice |
| MinCostSearch.AddChild | cpp/book/book.cpp:1937-1948 | adding a child's result takes off the cost of nodes already counted; the cost cache always has them |
| MinCostSearch.EvaluateCost | cpp/book/book.cpp:1887-1908 | the cost of changing one node, through the cost cache, which stays correct |
| MinCostSearch.ComputeMinCost | cpp/book/book.cpp:1870-1885 | with correct caches the cached, mutating search returns what the plain recursive search returns, and keeps the caches correct; it ends on cyclic books |
| MinCostSearch.ComputeMinCostToChangeWinLoss | cpp/book/book.cpp:1843-1857 | the public operation does the same from caller-supplied caches; nothing for the null node |
| MinCostSearch.MinCostIsSound | cpp/book/book.cpp:1843-1959 | if after new searches every returned node meets the threshold, by its own or its re-expandable recursive value, and no value got worse, the queried node's recomputed minimax value meets it: for both directions and both players |
| MinCostSearch.PrunedAnswerIsFull | cpp/book/book.cpp:1929-1953 | pruning is transparent: up to the limit the pruned search returns the full answer, and it exceeds the limit exactly when the full one does |
| MinCostSearch.MinCostIsLeast | cpp/book/book.cpp:1843-1959 | with costs that are not negative, in a book whose nodes have at most one parent each, an answer within the limit is the least price of anything that suffices, and its nodes, with some moves, suffice at that price; an answer beyond the limit means that nothing within it suffices |
| MinCostMeaning.CheapestOfOne | cpp/book/book.cpp:1917-1927 | where one child is enough the answer is the cheapest of changing the node itself and of each child's answer with its edge, and is one of them |
| MinCostMeaning.SearchSuffices | cpp/book/book.cpp:1910-1958 | on every acyclic book the answer's nodes, with some moves, suffice, and cost no more than its total |
| MinCostMeaning.NoneCheaper | cpp/book/book.cpp:1910-1958 | where no node has two parents, whatever suffices for a node costs at least the answer |
| MinCostMeaning.SufficesExactly | cpp/book/book.cpp:1910-1958 | a set of nodes suffices if and only if, whenever they come to meet the threshold and no value gets worse, the recomputed minimax value meets it |
| MinCostMeaning.SharedChildIsMissed | cpp/book/book.cpp:1910-1958 | a book with a shared child, for which the answer costs 4 although changing that child for 3 suffices |
| MinCost.SearchPays | cpp/book/book.cpp:1940-1948 | with free edges the total is the sum of the node costs over the returned set |
| MinCost.PruningTransparent | cpp/book/book.cpp:1910-1958 | with non-negative costs pruned and full search agree, result and node set, whenever the full cost is within the limit, and otherwise both exceed it |
| MinCostMeaning.SearchIsSound | cpp/book/book.cpp:1910-1958 | soundness of the search function, by way of the strategy its answer bears out |
| Hashing.SymBoardActs | cpp/neuralnet/nninputs.cpp:646-673 | turning a board by `a` and then `b` is turning it by their composition |
| Hashing.GetHashAndSymmetry | cpp/book/book.cpp:134-218 | returns the least hash over all allowed orientations, the first orientation that has it, and in increasing order exactly the symmetries under which the aligned position keeps that hash; `HashMeaning` says what the hash of an orientation tells |
| HashMeaning.RunIsGame | cpp/book/book.cpp:153-180 | the running state is the position after the moves so far, and the accumulator has mixed exactly the positions since the last repetition |
| HashMeaning.SameHashSamePosition | cpp/book/book.cpp:182-196 | in both versions, if state hashes and the final mixing do not collide, histories with equal hashes end in the same position with the same player to move |
| HashMeaning.SameHashExactly | cpp/book/book.cpp:134-197 | version 2, without collisions: hashes are equal if and only if the final positions, the players to move and all positions since the last repetition are |
| HashMeaning.OneDifferenceShows | cpp/book/book.cpp:165-178 | if mixing only keeps each of its two arguments apart, histories with equal hashes, as long since the last repetition, cannot differ in just one position before a later move |
| HashMeaning.CollisionFreeIsFaithful | cpp/book/book.cpp:134-218 | with rules that know no directions such a hash has all that the book asks of hashes: equal hashes stay equal when positions are turned or go on with the same move |
| Hashing.AdvanceAll | cpp/book/book.cpp:153-180 | one replayed move advances the running hash of every orientation |
| Hashing.Smallest | cpp/book/book.cpp:199-207 | the first orientation with the least hash |
| Hashing.CopiesGetSameHash | cpp/book/book.cpp:134-218 | all symmetric copies of a history get the same hash |
| Hashing.CopiesGetSameRepresentative | cpp/book/book.cpp:209-210 | without hash collisions, aligning any symmetric copy gives the same history |
| Hashing.SymmetriesAreStabiliser | cpp/book/book.cpp:212-217 | without hash collisions, the reported symmetries are exactly those that leave the aligned history as it is |
| Hashing.SymmetriesFormGroup | cpp/book/book.cpp:212-217 | they contain the identity and are closed under composition and inverse |
| Hashing.IdentityComesFirst | cpp/book/book.cpp:212-217 | the list starts with the identity, so it is never empty |
| Views.FollowsWhatIsInBook | cpp/book/book.cpp:436-447 | a view can follow exactly the moves that `isMoveInBook` reports |
| Views.FollowTurns | cpp/book/book.cpp:568-585 | turning the view and the move by one symmetry turns the view reached by the same symmetry |
| Views.ListedMoveFollows | cpp/book/book.cpp:271-286 | following a move from `getUniqueMovesInBook` reaches its child in the orientation that is the inverse of the listed `symmetryToAlign` |
| Views.OrbitsCoverTheMoves | cpp/book/book.cpp:2884-2905 | the listed moves turned by the view's symmetries are exactly the locations where `isMoveInBook` holds |
| Views.OrbitsAreDisjoint | cpp/book/book.cpp:460-468 | orbits of different listed moves do not meet |
| Views.CanonicalParentLeadsBack | cpp/book/bookcssjs.cpp:204-215 | composing the stored alignment with the current symmetry gives the parent's frame from which the stored move leads back to this frame |
| BookViews.CanonicalParentIsParent | cpp/book/book.cpp:531-547 | in a consistent book the canonical parent exists for every node with parents, and following its move leads back to exactly this view |
| Views.ChooseLoc | cpp/book/book.cpp:632-656 | the stored form of a move is the location of its orbit nearest to the upper right corner |
| BookViews.GetOrAdd | cpp/book/book.cpp:674-683 | a known hash gives the node already there and reports a transposition, a new one gives a fresh node; other nodes stay |
| BookViews.LinkingKeepsLinked | cpp/book/book.cpp:684-692 | recording the edge at both ends keeps children and parents mirrored |
| BookViews.LinkingKeepsRooted | cpp/book/book.cpp:621-694 | adding a move keeps every node below the root |
| BookViews.PlayAndAddMove | cpp/book/book.cpp:621-694 | after adding a move, `follow` from the same view reaches the returned child, in its orientation up to a symmetry that fixes the position and the move; the stored location is the orbit's nearest to the upper right corner; no node ever holds two moves of one orbit; nothing else in the book changes, and nothing at all for an illegal move |
| Walks.FollowKeepsStanding | cpp/book/book.cpp:568-585 | a history that stands at a view and plays a move that can be followed stands at the view it leads to |
| Walks.AddedMoveIsNamed | cpp/book/book.cpp:664-692 | the move stored for one history is right for every position that has the node's hash |
| Walks.HashedSymmetries | cpp/book/book.cpp:212-217 | the symmetries hashing reports are those of every position with that hash, and form a group |
| BookWalks.NewBook | cpp/book/book.cpp:858-907 | the constructor's root is right about every position that has its hash, and the initial position stands at it in every frame |
| BookWalks.WalkKeepsStanding | cpp/book/book.cpp:568-585 | a history that plays the moves followed stands where following them ends |
| BookWalks.AddMoveFromHistory | cpp/book/book.cpp:621-694 | adding a move with the history that stands at the view, hashing included, keeps every node right about all positions that have its hash; the history after the move stands at the returned view |
| BookWalks.IntegrityCheckPasses | cpp/command/genbook.cpp:1205-1222 | hashing the history that reaches a view gives the hash of the view's node, and the player to move is the node's |
| BookViews.HashedSymmetriesOk | cpp/book/book.cpp:212-217 | the symmetries that hashing reports satisfy what views ask of a node |
| Growth.EditsTouchOnly | cpp/command/genbook.cpp:1527-1550 | after any number of added moves and stored searches, in any order, the book is consistent and rooted, and apart from parent entries only the touched nodes differ |
| Growth.EditedBookIsReady | cpp/command/genbook.cpp:1527-1550 | after any run of edits all that can be unsettled is what was before and what was touched |
| Growth.LeafIsDirtyIfListed | cpp/book/book.cpp:966-980 | a leaf is marked dirty if and only if it is listed itself |
| Growth.SearchNoticedIffListed | cpp/command/genbook.cpp:1096-1102 | a search with more visits stored at a leaf is noticed by incremental recomputation if and only if the leaf is listed; otherwise the leaf keeps its old values and the book is not settled |
| Visits.EndsAreListed | cpp/command/genbook.cpp:1108-1123 | both ends of every added move are listed |
| Recorded.WantedMovesAreRecorded | cpp/command/genbook.cpp:1017-1162 | at every search node that recording goes into, from the start through recorded children with visits for the tree that do not end the game, within the depth, the first time an id is met: each playable child that is the best move or has visits for a leaf can be followed from that node's view afterwards |
| Recorded.NewMovesAreWanted | cpp/command/genbook.cpp:1069-1123 | conversely each move that is in the book afterwards and was not before is such a child of such a node |
| Recorded.SeenAfterIs | cpp/command/genbook.cpp:1022-1027 | the ids met are exactly those of the search nodes gone into |
| Recorded.SearchedAgainExactly | cpp/command/genbook.cpp:1102-1171 | a node is noted for another search if and only if a move was added at it, or it was a leaf with too few visits when one of its parents' moves was recorded |
| Effects.VisitEffect | cpp/command/genbook.cpp:1078-1149 | recording one move stores the search at the child if that is new or a leaf with fewer visits, closes the node if the move may not be played, enters an added move and its child, and leaves everything else |
| Effects.WorkEffect | cpp/command/genbook.cpp:1201-1336 | what a whole request leaves at each node: closed, untouched, or recorded, with the noted nodes holding their new searches and the expanded node no longer to be searched again as a whole |
| Effects.RequestRecordsWanted | cpp/command/genbook.cpp:1286-1324 | after a request whose search was recorded, every move the numbers call for can be followed |
| Effects.RequestAddsOnlyWanted | cpp/command/genbook.cpp:1286-1324 | and every move a request added is one of those |
| Recording.RecordMove | cpp/command/genbook.cpp:1108-1149 | recording a move that is not in the book makes exactly these edits: an unplayable move closes the node; otherwise the link is added, and the search is stored at the child exactly if the child is new or a leaf with fewer visits; the child is listed, and noted for another search if it is a leaf with few visits; the child returned is where the played history stands |
| Recording.RecordKnown | cpp/command/genbook.cpp:1082-1106 | recording a move that is in the book makes exactly these edits: an illegal move closes the node, and the search is stored if the child is a leaf with fewer visits; nothing is listed, and the child is noted for another search if it is a leaf with few visits |
| Recording.RecordTree | cpp/command/genbook.cpp:1017-1174 | recording a search tree makes exactly the edits of the visits its trace calls for: the selected children in order, the recursion below those with many visits down to the depth, no search node twice; the listed nodes and the nodes noted for another search are exactly those of the visits |
| Recording.SearchAgain | cpp/command/genbook.cpp:1302-1324 | one search is stored for each node of the list, which is closed if it has no other moves; nothing else changes |
| Routes.RoutesAgree | cpp/command/genbook.cpp:1176-1200 | on a book without cycles there is only one route to a node, the chain of best parents, so what is done for a request is determined |
| Rounds.RoundExplained | cpp/command/genbook.cpp:1527-1550 | every edit of a round has its reason: both ends of an added move are listed; a stored search is one that a request found, or a repeated one, and its node is listed or was a leaf then with fewer visits than the search or than leaves must have |
| Rounds.MissedAreOldLeaves | cpp/command/genbook.cpp:1527-1550 | a round can only miss old leaves: a node at which a search was stored without being listed was a leaf before the round and still is, keeps its values, and its new search was deeper than those |
| Rounds.RoundSettlesExactly | cpp/command/genbook.cpp:1527-1550 | a round of expansions settles a settled book without cycles if and only if it missed no search that gives its leaf other values than the leaf had; in particular not if it missed one with another number of visits |
| Rounds.RoundLeavesStale | cpp/command/genbook.cpp:1527-1550 | after a round all nodes are settled but those that were stale and not marked dirty, and those missed |
| Rounds.SettledIffStaleAgree | cpp/command/genbook.cpp:1527-1550 | a book whose stale nodes are leaves is settled if and only if each has the values its own search gives |
| Interleaving.StepKeepsInv | cpp/command/genbook.cpp:1530-1548 | threads that expand nodes at the same time and let go of the lock between finding a child and storing the search there: every step keeps that each edit so far has its reason and that what a thread is about to store or search again will have one |
| Interleaving.ThreadedRoundReasons | cpp/command/genbook.cpp:1527-1550 | so whatever the interleaving all edits of a round by threads have their reasons, and a round by threads can only miss old leaves |
| Interleaving.ThreadedRoundSettlesExactly | cpp/command/genbook.cpp:1527-1550 | a round by threads settles a settled book without cycles if and only if it missed no search that gives its leaf other values than the leaf had |
| MissedSearch.MissedSearchExample | cpp/command/genbook.cpp:1082-1106 | a root with one leaf: recording a search of the root stores a deeper search at the leaf and lists only the root, there is a round that does just this, the book is settled before it and not after it |
| Expansion.RecomputeEdited | cpp/command/genbook.cpp:1550 | recomputing from the listed nodes settles them and their ancestors and all costs, and keeps the book consistent, framed, rooted and every node right about its positions |
| Expansion.ExpandNode | cpp/command/genbook.cpp:1176-1337 | the integrity check on the hash of the history that reaches the node never fails; the node is closed for expansion if and only if a move of the route to it may not be played, the game is over there or there is nothing new to search; otherwise a stopped search does nothing, and a finished one is recorded by its trace, each noted node is searched again once, and the node is closed for re-expansion; nothing else is edited, and exactly what the trace lists and the node itself are listed |
| Expansion.ExpandRound | cpp/command/genbook.cpp:1527-1550 | one round works on every request exactly as it calls for, lists the nodes asked for and those the work lists, recomputes from just these, and takes a sound book to a sound book, where what is stale is what was and is not dirty and what was missed; no integrity check fails |
| Expansion.ExpandRounds | cpp/command/genbook.cpp:1486-1553 | any sequence of rounds is such a chain of rounds from a sound book to a sound book; the stale leaves are those that rounds missed and no later round marked dirty; if no round missed any and the links have no cycle the book is settled |
| Expansion.SoundIsSettledWhen | cpp/command/genbook.cpp:1486-1553 | a sound book without cycles has settled costs, and settled values if and only if every stale leaf has the values its own search gives |
| Expansion.BuildBook | cpp/command/genbook.cpp:1527-1550 | all this holds of a book made by the constructor, however it is expanded |
| Paths.ReverseSearchToRoot | cpp/book/book.cpp:1390-1457 | the upward search always finds a path from any node to the root of a consistent rooted book, cyclic or not, recomputed or not, and on an acyclic one it is the chain of best parents |
| Paths.NeverExhausted | cpp/book/book.cpp:1445-1454 | the search cannot run out of parents before it meets the root |
| Paths.ReplayFollows | cpp/book/book.cpp:755-773 | the replayed moves, each carried into the final frame, followed from the root arrive at exactly the view asked for |
| Paths.GetBoardHistoryReachingHere | cpp/book/book.cpp:707-778 | plays the stored moves of a path from the root, each carried into the final frame; followed from the root these moves arrive at exactly the view asked for; the win/loss values returned are those along the path, the last one twice; it fails if and only if one of the moves may not be played after those before it, and then stops there; on an acyclic book the path is the best-parent chain |
| CostTasks.CostPassGivesBestParents | cpp/book/book.cpp:1976-2000 | a cost pass, by any number of threads and on cyclic books too, leaves every best-parent index pointing at a parent, or 0 |
| CostTasks.CostRunKeepsBestParents | cpp/book/book.cpp:1976-2000 | so it is at every moment of the pass |
| SaveLoad.RoundToIsNearest | cpp/book/book.cpp:3001-3003 | a rounded number is a multiple of the step, at most half a step away, and rounds to itself |
| SaveLoad.ValuesComeBack | cpp/book/book.cpp:3081-3089 | each search value comes back in its own field, off by at most half its own step, and is unchanged by a second save |
| BookFiles.SaveToStream | cpp/book/book.cpp:3063-3155 | writes the hash list and one record a node with positions in place of hashes; fails exactly when a move or parent names a hash that is not in the book |
| BookFiles.EnterNode | cpp/book/book.cpp:3310-3319 | a record's node is found or made; an existing node must agree in player and symmetries |
| BookFiles.LoadFromStream | cpp/book/book.cpp:3192-3397 | for any file, consistent or not: record by record, a node is found or made, its values are replaced and the record's moves and parents added to it; loading fails exactly on a wrong initial symmetry, a disagreeing record or a position outside the hash list |
| SaveLoad.LoadRestoresBook | cpp/book/book.cpp:3274-3397 | loading a saved book succeeds and restores node order, hashes, players, symmetries, moves, parents and expandability; own values come back rounded |
| SaveLoad.SaveAgainIsSame | cpp/book/book.cpp:3001-3155 | saving the loaded book gives the same file, and loading that gives the same book |
| SaveLoad.GraphComesBack | cpp/book/book.cpp:3356-3397 | a consistent, rooted, acyclic book is so again after loading |
| Reloading.LoadAndRecompute | cpp/book/book.cpp:3399-3401 | loading and recomputing a saved acyclic book gives a settled book with the saved nodes and links |
| Reloading.ReloadedBookIsOriginal | cpp/book/book.cpp:3399-3401 | if the search values have few enough digits, all recursive values come back although the file holds none; the file does not store canReExpand, so the costs come back if and only if they are settled with that flag set at every node |
| Reloading.NothingForgotten | cpp/book/book.cpp:2160 | so they come back if every node that has been expanded has more visits than maxVisitsForReExpansion |
| Reloading.ForgottenFlagMatters | cpp/book/book.cpp:2160 | and they need not otherwise: there are settings with which the costs come back for no book that has an expanded node with so few visits |
| Reloading.ValidIsSaveable | cpp/book/book.cpp:3063-3155 | every consistent book can be saved |
| Reloading.SaveAndReload | cpp/book/book.cpp:3007-3016 | saving a book and loading the file gives a fresh book with the same node order and links, settled if acyclic; if no digits are lost, with the same values, and with the same costs if and only if those are settled with canReExpand set at every node |
| ClumpyGrid.RemovalIsSafeExactlyWhen | python/genclumpyposes.py:438-468 | taking a stone away splits no group if and only if its neighbours of that colour stay joined, which is what the program looks at |
| ClumpyGrid.ReplacingSplitsNothing | python/genclumpyposes.py:470-477 | putting an opponent stone there instead splits nothing either |
| ClumpyBoard.Position.LabelOwnedRegion | python/genclumpyposes.py:277-290 | the recursion labels the cells it reaches and only these, with one label, and counts them |
| ClumpyBoard.Position.LabelAllRegions | python/genclumpyposes.py:292-299 | afterwards adjacent cells of one owner share a label, and each recorded size is the number of cells with the label |
| ClumpyBoard.Position.Merge | python/genclumpyposes.py:303-311 | renames the second label to the first and keeps labels and sizes right |
| ClumpyBoard.Position.Grow | python/genclumpyposes.py:376-409 | grows one cell that may grow, if there is one, with the label of the one region it touches; labels and sizes stay right; otherwise nothing changes |
| ClumpyBoard.Position.FloodFill | python/genclumpyposes.py:445-455 | the queue fills exactly the stones joined to the start |
| ClumpyBoard.Position.CanRemove | python/genclumpyposes.py:438-468 | decides exactly whether the neighbours stay joined, and restores the board |
| ClumpyBoard.Position.Shrink | python/genclumpyposes.py:417-477 | takes away or turns over one stone that may go, if there is one; unless disconnecting is allowed, stones that were joined and are still there stay joined |
| TrainBucket.TrainState.FillBucket | python/train.py:1244-1267 | the fill step as a transition on the bucket |
| TrainBucket.TrainState.TakeEpoch | python/train.py:1433-1452 | the consumption step as a transition on the bucket |
| TrainBucket.RunInBounds | python/train.py:1244-1267 | in every run the level stays above minus a hundredth of an epoch and at most the cap |
| TrainBucket.RowsAreAccountedFor | python/train.py:1248-1259 | in every run the rows trained on, the gain in level and what fills spilled over the cap make up exactly the fill for new rows |
| TrainBucket.UncappedRowsAreExact | python/train.py:1248-1259 | over a run in which no fill comes above the cap nothing is spilled, and rows trained on plus the gain in level are the whole fill |
| TrainBucket.FillIsExact | python/train.py:1246-1267 | a load raises the level by the fill for the rows beyond the last count; a fill that would reach the cap leaves the level at the cap; a smaller count only resets the count |
| TrainBucket.WindowBound | python/train.py:1433-1452 | over any stretch of any run the rows trained on stay below the cap plus a hundredth of an epoch plus the fill for rows counted as new, row counts going backward included |
| TrainBucket.MonotoneRowsCountOnce | python/train.py:1246-1253 | while row counts never go backward each row is counted as new exactly once |
| Shuffle.GroupFilesByRows | python/shuffle.py:384-404 | groups hold the nonempty files in order, each once; each group but the last only just reaches the size |
| Shuffle.Shardify | python/shuffle.py:228-276 | the shards together hold rows of the readable files, exactly as many as are to be kept, all rows if nothing is dropped |
| Shuffle.SplitEvenly | python/shuffle.py:364-366 | consecutive output files hold the rows and differ in length by at most one |
| Shuffle.MergeBucket | python/shuffle.py:334-382 | a bucket's output files hold exactly the rows of its shards and differ in length by at most one |
| Shuffle.ColumnsAreShards | python/shuffle.py:624-643 | reading shards by bucket instead of by group gives the same rows |
| Shuffle.RunTwoPhaseShuffle | python/shuffle.py:576-650 | the output rows are input rows, as multisets, and as many as are to be kept of all groups; with all rows kept they are the input rows |
| Shuffle.WaveRows | python/shuffle.py:1286-1297 | a wave's input files hold exactly what was scattered to the wave |
| Shuffle.RunWaves | python/shuffle.py:1267-1319 | the same with any number of waves |

## Left out

- BookViews.PlayAndAddMove: the legality of the move and the child's hash, alignment and symmetries are parameters; BookWalks.AddMoveFromHistory computes them from the history by hashing.
- LockedTraversal.StepIsAtomic: memory-model effects of reading a flag without a lock are not modelled.
- BookWalks.AddMoveFromHistory: asks that equal hashes mean the same player to move and stay equal when both positions are turned or the same move is played in both (Faithful); a hash without collisions is so (HashMeaning.CollisionFreeIsFaithful), real hashes only very likely.
- Paths.GetBoardHistoryReachingHere: the rules of the game are a parameter saying which move is playable.
- MinCostMeaning.NoneCheaper: one direction only, on books without transpositions; with a shared child the answer can be too dear, because the choice among children ignores nodes that other branches buy anyway (MinCostMeaning.SharedChildIsMissed).
- HashMeaning.SameHashExactly: that state hashes and their mixing do not collide is an assumption; real hashes are only very likely to keep positions apart.
- MinCostSearch.ComputeMinCost: equality with the plain search is stated for acyclic books; on cyclic ones only termination and that every returned node has a cached cost.
- ClumpyBoard.Position.Shrink: nothing is said about labels after a stone has been turned over; the code then neither updates sizes nor looks at neighbours beyond the chosen one.
- Recording.RecordMove: a move that is not in the book and cannot be played is not recorded; the code then goes on with a null child.
- Recording.RecordTree: what a search finds, whether a move is legal and whether a game is finished are parameters.
- Recording.SearchAgain: does not model that the program gives up if one of these nodes cannot be reached by a legal history.
- Expansion.ExpandRound: expands the nodes one after another; Interleaving has the threads, as a machine on the states of the book.
- Interleaving.ThreadedRoundReasons: threads append to the shared list of changed nodes and clear canReExpand without the lock (cpp/command/genbook.cpp:1336-1337); every append is taken to arrive, and clearing to be one step. That a history which stands at a node hashes to it is proved of the sequential code, and a condition of reaching a node here.
- BookFiles.LoadFromStream: a record whose position is outside the hash list is an error here; the code indexes a vector without a bounds test.
- Reloading.LoadAndRecompute: the recomputation after loading is the single-threaded one; the theorems in Threads say that the threaded passes end alike.
- The numeric heuristics of `recomputeNodeCost` (policy boosts, bonuses, tanh, log and pow terms) and the adjusted score error are arbitrary functions of what they read; the exponentially weighted caps of `recomputeAdjustedVisits` are arbitrary values.
- Rounding, overflow and NaN of `double`.
- Go rules, superko, Zobrist tables and mixing functions: a history is an initial board and a list of moves, and hashing is an arbitrary function of the oriented state.
- ValuePass.SumCapped: items that sort equal come in one fixed order; the code's sort may order them either way.
- The many hash buckets of the node index: one map.
- Version 1 files, the header line with its parameters, JSON text, streams, file renaming.
- The `skip` and `abort` actions of the searches beyond the uses modelled.
- Expansion choice (`getNextNToExpand`), leaf listing, HTML export and the page's drawing code.
- Randomness in the shuffle and the position generator: any choice is allowed, nothing is said about distributions.
- Weights of growth spots, patterns in corners and how often merging, growing and shrinking are repeated in the position generator.
- Row count and resource estimates of the shuffle; temporary directories and their removal; processes of the pool run one after another.
- Neural network training, export, user interfaces and the search engine itself.
