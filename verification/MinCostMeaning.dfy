/**
 What the answers of computeMinCostToChangeWinLoss mean. A set of purchases suffices if it bears out a
 strategy; that is so exactly if changing its nodes is certain to bring the recomputed value to the
 threshold. The search buys a set that suffices, and where no node has two parents none is cheaper.
 */
module MinCostMeaning {
  import opened Util
  import opened BookData
  import opened MinCost
  import opened ValueRules
  import opened Symmetry

  // ---------------------------------------------------------------------------------------------
  // Purchases

  /** What can be paid for: changing a node, and playing a move. */
  datatype Purchase = Change(h: BookHash) | Play(h: BookHash, loc: Loc)

  ghost function PriceOf(sn: Snapshot, q: Query): Purchase -> real {
    (x: Purchase) =>
      match x
      case Change(h) => q.costOf(h)
      case Play(h, loc) => if h in sn && loc in sn[h].moves then q.edgeCost(h, sn[h].moves[loc]) else 0.0
  }

  ghost function Price(sn: Snapshot, q: Query, bought: set<Purchase>): real { SumOver(PriceOf(sn, q), bought) }

  ghost function Changes(bought: set<Purchase>): set<BookHash> { set x | x in bought && x.Change? :: x.h }

  /** The node's own search value meets the threshold, or is bought to. */
  ghost predicate Itself(sn: Snapshot, q: Query, h: BookHash, bought: set<Purchase>)
    requires h in sn
  {
    Meets(q, Own(sn, h)) || Change(h) in bought
  }

  ghost predicate Via(sn: Snapshot, q: Query, rank: map<BookHash, nat>, h: BookHash, loc: Loc, bought: set<Purchase>)
    requires Ranked(sn, rank) && h in sn && loc in sn[h].moves
    decreases RankOf(rank, h), 0
  {
    Play(h, loc) in bought && Suffices(sn, q, rank, sn[h].moves[loc].hash, bought)
  }

  /**
   The purchases bring the node's value to the threshold: it is there already; or the node is searched
   again as a whole; or else the node itself and its children come to meet it, one of them if the player
   to move wants it, all of them if not.
   */
  ghost predicate Suffices(sn: Snapshot, q: Query, rank: map<BookHash, nat>, h: BookHash, bought: set<Purchase>)
    requires Ranked(sn, rank) && h in sn
    decreases RankOf(rank, h), 1
  {
    || Meets(q, Value(sn, h))
    || if ReExpandable(sn, q, h) then Change(h) in bought
       else if OneIsEnough(q, sn[h].inputs.pla) then
         Itself(sn, q, h, bought) || exists loc :: loc in sn[h].moves && Via(sn, q, rank, h, loc, bought)
       else
         Itself(sn, q, h, bought) && forall loc :: loc in sn[h].moves ==> Via(sn, q, rank, h, loc, bought)
  }

  lemma {:induction false} MoreSuffices(sn: Snapshot, q: Query, rank: map<BookHash, nat>, h: BookHash,
                                        bought: set<Purchase>, more: set<Purchase>)
    requires Ranked(sn, rank) && h in sn && Suffices(sn, q, rank, h, bought) && bought <= more
    ensures Suffices(sn, q, rank, h, more)
    decreases RankOf(rank, h)
  {
    hide Ranked, ReExpandable;
    forall loc | loc in sn[h].moves && Via(sn, q, rank, h, loc, bought) ensures Via(sn, q, rank, h, loc, more) {
      MoveDown(sn, rank, h, loc);
      MoreSuffices(sn, q, rank, sn[h].moves[loc].hash, bought, more);
    }
  }

  lemma MoveDown(sn: Snapshot, rank: map<BookHash, nat>, h: BookHash, loc: Loc)
    requires Ranked(sn, rank) && h in sn && loc in sn[h].moves
    ensures sn[h].moves[loc].hash in sn && RankOf(rank, sn[h].moves[loc].hash) < RankOf(rank, h)
  {
  }

  // ---------------------------------------------------------------------------------------------
  // Prices

  lemma PricesNonNegative(sn: Snapshot, q: Query)
    requires NonNegative(q)
    ensures forall x :: PriceOf(sn, q)(x) >= 0.0
  {
  }

  lemma {:induction false} PriceCoversChanges(sn: Snapshot, q: Query, s: set<Purchase>)
    requires NonNegative(q)
    ensures SumOver(q.costOf, Changes(s)) <= Price(sn, q, s)
  {
    if s != {} {
      var x :| x in s && Price(sn, q, s) == PriceOf(sn, q)(x) + Price(sn, q, s - {x});
      PriceCoversChanges(sn, q, s - {x});
      if x.Change? {
        assert Changes(s) - {x.h} == Changes(s - {x});
        SumTakeOut(q.costOf, Changes(s), x.h);
      } else {
        assert Changes(s - {x}) == Changes(s);
      }
    }
  }

  /** Two shopping lists together: nodes on both are paid once. */
  lemma PriceTogether(sn: Snapshot, q: Query, a: set<Purchase>, b: set<Purchase>)
    requires NonNegative(q)
    ensures Price(sn, q, a + b) <= Price(sn, q, a) + Price(sn, q, b) - SumOver(q.costOf, Changes(a) * Changes(b))
    ensures Changes(a + b) == Changes(a) + Changes(b)
  {
    hide PriceOf;
    SumUnion(PriceOf(sn, q), a, b);
    PriceCoversChanges(sn, q, a * b);
    assert Changes(a * b) == Changes(a) * Changes(b) by {
      forall h | h in Changes(a) * Changes(b) ensures h in Changes(a * b) {
        assert Change(h) in a && Change(h) in b;
      }
    }
  }

  lemma PriceOfOne(sn: Snapshot, q: Query, x: Purchase)
    ensures Price(sn, q, {x}) == PriceOf(sn, q)(x) && Price(sn, q, {}) == 0.0
  {
    SumTakeOut(PriceOf(sn, q), {x}, x);
    assert {x} - {x} == {};
  }

  // ---------------------------------------------------------------------------------------------
  // The search buys a set that suffices

  /** The set buys what the result says, at no more than its total. */
  ghost predicate Buys(sn: Snapshot, q: Query, bought: set<Purchase>, r: MinCostResult) {
    Changes(bought) == r.nodes && (NonNegative(q) ==> Price(sn, q, bought) <= r.totalCost)
  }

  lemma BuyThisNode(sn: Snapshot, q: Query, h: BookHash) returns (bought: set<Purchase>)
    requires h in sn
    ensures Buys(sn, q, bought, ThisNode(sn, q, h))
    ensures ReExpandable(sn, q, h) ==> Meets(q, Value(sn, h)) || Change(h) in bought
    ensures !ReExpandable(sn, q, h) ==> Itself(sn, q, h, bought)
  {
    PriceOfOne(sn, q, Change(h));
    bought := if ThisNode(sn, q, h) == NOTHING then {} else {Change(h)};
    assert Changes({Change(h)}) == {h} by { assert Change(h) in {Change(h)}; }
  }

  lemma BuyChild(sn: Snapshot, q: Query, rank: map<BookHash, nat>, h: BookHash, i: nat) returns (bought: set<Purchase>)
    requires Ranked(sn, rank) && h in sn && i < |sn[h].moves|
    ensures Buys(sn, q, bought, ChildResult(sn, q, None, rank, h, i))
    ensures Via(sn, q, rank, h, Locs(sn[h].moves)[i], bought)
    decreases RankOf(rank, h), i, 0
  {
    hide *;
    ChildFacts(sn, q, None, rank, h, i);
    var loc := Locs(sn[h].moves)[i];
    var d := sn[h].moves[loc].hash;
    var below := SearchSuffices(sn, q, rank, d);
    bought := below + {Play(h, loc)};
    MoreSuffices(sn, q, rank, d, below, bought);
    AlsoPlay(sn, q, below, Search(sn, q, None, rank, d), h, loc);
    IsVia(sn, q, rank, h, loc, bought);
  }

  lemma IsVia(sn: Snapshot, q: Query, rank: map<BookHash, nat>, h: BookHash, loc: Loc, bought: set<Purchase>)
    requires Ranked(sn, rank) && h in sn && loc in sn[h].moves && Play(h, loc) in bought
    requires sn[h].moves[loc].hash in sn && Suffices(sn, q, rank, sn[h].moves[loc].hash, bought)
    ensures Via(sn, q, rank, h, loc, bought)
  {
  }

  lemma AlsoPlay(sn: Snapshot, q: Query, below: set<Purchase>, r: MinCostResult, h: BookHash, loc: Loc)
    requires h in sn && loc in sn[h].moves && Buys(sn, q, below, r)
    ensures Buys(sn, q, below + {Play(h, loc)}, r.(totalCost := r.totalCost + q.edgeCost(h, sn[h].moves[loc])))
  {
    assert Changes(below + {Play(h, loc)}) == Changes(below);
    PriceOfOne(sn, q, Play(h, loc));
    if NonNegative(q) {
      PriceTogether(sn, q, below, {Play(h, loc)});
      SumNonNegative(q.costOf, Changes(below) * Changes({Play(h, loc)}));
    }
  }

  lemma BuyBoth(sn: Snapshot, q: Query, a: set<Purchase>, u: MinCostResult, b: set<Purchase>, v: MinCostResult)
    requires Buys(sn, q, a, u) && Buys(sn, q, b, v)
    ensures Buys(sn, q, a + b, Merge(q, u, v))
  {
    if NonNegative(q) {
      PriceTogether(sn, q, a, b);
    }
    assert Changes(a + b) == Changes(a) + Changes(b);
  }

  lemma {:induction false} BuyAny(sn: Snapshot, q: Query, rank: map<BookHash, nat>, h: BookHash, k: nat)
    returns (bought: set<Purchase>)
    requires Ranked(sn, rank) && h in sn && k <= |sn[h].moves| && !ReExpandable(sn, q, h)
    ensures Buys(sn, q, bought, AnyChild(sn, q, None, rank, h, k))
    ensures Itself(sn, q, h, bought) || exists loc :: loc in sn[h].moves && Via(sn, q, rank, h, loc, bought)
    decreases RankOf(rank, h), k
  {
    hide *;
    if k == 0 {
      NoSteps(sn, q, None, rank, h);
      bought := BuyThisNode(sn, q, h);
    } else {
      Steps(sn, q, None, rank, h, k - 1);
      var acc, child := AnyChild(sn, q, None, rank, h, k - 1), ChildResult(sn, q, None, rank, h, k - 1);
      if Cheaper(acc, child) == acc {
        bought := BuyAny(sn, q, rank, h, k - 1);
      } else {
        CheaperIsOne(acc, child);
        bought := BuyChild(sn, q, rank, h, k - 1);
        assert Locs(sn[h].moves)[k - 1] in sn[h].moves;
      }
    }
  }

  lemma CheaperIsOne(a: MinCostResult, b: MinCostResult)
    ensures Cheaper(a, b) == a || Cheaper(a, b) == b
  {
  }

  /** The first k children are paid for. */
  ghost predicate ViaFirst(sn: Snapshot, q: Query, rank: map<BookHash, nat>, h: BookHash, k: nat, bought: set<Purchase>)
    requires Ranked(sn, rank) && h in sn && k <= |sn[h].moves|
  {
    forall i :: 0 <= i < k ==> Via(sn, q, rank, h, Locs(sn[h].moves)[i], bought)
  }

  lemma ViaMore(sn: Snapshot, q: Query, rank: map<BookHash, nat>, h: BookHash, loc: Loc, bought: set<Purchase>,
                more: set<Purchase>)
    requires Ranked(sn, rank) && h in sn && loc in sn[h].moves && Via(sn, q, rank, h, loc, bought) && bought <= more
    ensures Via(sn, q, rank, h, loc, more)
  {
    hide Suffices;
    MoveDown(sn, rank, h, loc);
    MoreSuffices(sn, q, rank, sn[h].moves[loc].hash, bought, more);
  }

  lemma {:induction false} BuyAll(sn: Snapshot, q: Query, rank: map<BookHash, nat>, h: BookHash, k: nat)
    returns (bought: set<Purchase>)
    requires Ranked(sn, rank) && h in sn && k <= |sn[h].moves| && !ReExpandable(sn, q, h)
    ensures Buys(sn, q, bought, AllChildren(sn, q, None, rank, h, k))
    ensures Itself(sn, q, h, bought) && ViaFirst(sn, q, rank, h, k, bought)
    decreases RankOf(rank, h), k
  {
    hide Ranked, ReExpandable, Via, AllChildren, ThisNode, Locs, Buys, ChildResult, Merge;
    if k == 0 {
      NoSteps(sn, q, None, rank, h);
      bought := BuyThisNode(sn, q, h);
    } else {
      Steps(sn, q, None, rank, h, k - 1);
      var first := BuyAll(sn, q, rank, h, k - 1);
      var last := BuyChild(sn, q, rank, h, k - 1);
      bought := first + last;
      BuyBoth(sn, q, first, AllChildren(sn, q, None, rank, h, k - 1), last, ChildResult(sn, q, None, rank, h, k - 1));
      forall i | 0 <= i < k ensures Via(sn, q, rank, h, Locs(sn[h].moves)[i], bought) {
        ViaMore(sn, q, rank, h, Locs(sn[h].moves)[i], if i < k - 1 then first else last, bought);
      }
    }
  }

  /** The answer's nodes, with some moves, suffice, and cost no more than its total. */
  lemma {:induction false} SearchSuffices(sn: Snapshot, q: Query, rank: map<BookHash, nat>, h: BookHash)
    returns (bought: set<Purchase>)
    requires Ranked(sn, rank) && h in sn
    ensures Suffices(sn, q, rank, h, bought) && Buys(sn, q, bought, Search(sn, q, None, rank, h))
    decreases RankOf(rank, h), |sn[h].moves| + 1
  {
    hide Ranked, Via, AnyChild, AllChildren, ReExpandable, Itself, Buys, Locs;
    if Meets(q, Value(sn, h)) {
      bought := {};
      NothingBought(sn, q);
    } else if ReExpandable(sn, q, h) {
      bought := BuyThisNode(sn, q, h);
    } else if OneIsEnough(q, sn[h].inputs.pla) {
      bought := BuyAny(sn, q, rank, h, |sn[h].moves|);
    } else {
      bought := BuyAll(sn, q, rank, h, |sn[h].moves|);
      forall loc | loc in sn[h].moves ensures Via(sn, q, rank, h, loc, bought) {
        var i :| 0 <= i < |Locs(sn[h].moves)| && Locs(sn[h].moves)[i] == loc;
        assert Via(sn, q, rank, h, Locs(sn[h].moves)[i], bought);
      }
    }
  }

  lemma NothingBought(sn: Snapshot, q: Query)
    ensures Buys(sn, q, {}, NOTHING)
  {
    PriceOfOne(sn, q, Change(BookHash(0, 0)));
  }

  // ---------------------------------------------------------------------------------------------
  // What sufficing means for the recomputed values

  /** w is the best for the player among the node's own value and its children's. */
  ghost predicate MinimaxAt(sn: Snapshot, h: BookHash, own: real, val: map<BookHash, real>)
    requires h in sn
  {
    && h in val && (forall loc :: loc in sn[h].moves ==> sn[h].moves[loc].hash in val)
    && (val[h] == own || exists loc :: loc in sn[h].moves && val[h] == val[sn[h].moves[loc].hash])
    && NoBetter(sn[h].inputs.pla, own, val[h])
    && forall loc :: loc in sn[h].moves ==> NoBetter(sn[h].inputs.pla, val[sn[h].moves[loc].hash], val[h])
  }

  predicate NoBetter(pla: Player, x: real, y: real) { if pla == White then x <= y else y <= x }

  /** y is at least as near to the goal as x. */
  predicate NoWorse(q: Query, x: real, y: real) { if q.increasing then x <= y else y <= x }

  /** The values of the book as it stands. */
  ghost predicate Minimaxed(sn: Snapshot, val: map<BookHash, real>) {
    forall h :: h in sn ==> MinimaxAt(sn, h, Own(sn, h), val)
  }

  /**
   New search values and new recomputed values: no search value got worse, nodes that can be
   searched again as a whole did not get worse, and every node of the set met the threshold.
   */
  ghost predicate Improved(sn: Snapshot, q: Query, set0: set<BookHash>, val: map<BookHash, real>,
                           own': map<BookHash, real>, val': map<BookHash, real>) {
    && (forall h :: h in sn ==> h in own' && h in val && h in val')
    && (forall h :: h in sn && !ReExpandable(sn, q, h) ==> MinimaxAt(sn, h, own'[h], val') && NoWorse(q, Own(sn, h), own'[h]))
    && (forall h :: h in sn && ReExpandable(sn, q, h) ==> NoWorse(q, val[h], val'[h]))
    && (forall h :: h in sn && h in set0 ==> Meets(q, if ReExpandable(sn, q, h) then val'[h] else own'[h]))
  }

  lemma {:induction false} NothingGotWorse(sn: Snapshot, q: Query, rank: map<BookHash, nat>, val: map<BookHash, real>,
                                           set0: set<BookHash>,
                                           own': map<BookHash, real>, val': map<BookHash, real>, h: BookHash)
    requires Ranked(sn, rank) && Minimaxed(sn, val) && Improved(sn, q, set0, val, own', val') && h in sn
    ensures h in val && h in val' && NoWorse(q, val[h], val'[h])
    decreases RankOf(rank, h)
  {
    assert MinimaxAt(sn, h, Own(sn, h), val);
    if !ReExpandable(sn, q, h) {
      forall loc | loc in sn[h].moves
        ensures var d := sn[h].moves[loc].hash; d in val && d in val' && NoWorse(q, val[d], val'[d])
      {
        NothingGotWorse(sn, q, rank, val, set0, own', val', sn[h].moves[loc].hash);
      }
      assert MinimaxAt(sn, h, own'[h], val');
    }
  }

  /** A set that suffices brings the recomputed value to the threshold, whatever else improves. */
  lemma {:induction false} SufficesIsSound(sn: Snapshot, q: Query, rank: map<BookHash, nat>, bought: set<Purchase>,
                                           val: map<BookHash, real>, own': map<BookHash, real>,
                                           val': map<BookHash, real>, h: BookHash)
    requires Ranked(sn, rank) && Minimaxed(sn, val) && h in sn && Suffices(sn, q, rank, h, bought)
    requires forall h :: h in sn ==> h in val && val[h] == Value(sn, h)
    requires Improved(sn, q, Changes(bought), val, own', val')
    ensures h in val' && Meets(q, val'[h])
    decreases RankOf(rank, h)
  {
    hide Ranked, Minimaxed;
    if Meets(q, Value(sn, h)) {
      NothingGotWorse(sn, q, rank, val, Changes(bought), own', val', h);
    } else if ReExpandable(sn, q, h) {
      assert Change(h).h in Changes(bought);
    } else {
      assert MinimaxAt(sn, h, own'[h], val');
      ItselfSound(sn, q, bought, val, own', val', h);
      forall loc | loc in sn[h].moves && Via(sn, q, rank, h, loc, bought)
        ensures sn[h].moves[loc].hash in val' && Meets(q, val'[sn[h].moves[loc].hash])
      {
        MoveDown(sn, rank, h, loc);
        SufficesIsSound(sn, q, rank, bought, val, own', val', sn[h].moves[loc].hash);
      }
      hide Improved;
      BestMeets(sn, q, rank, h, own'[h], val', bought);
    }
  }

  lemma ItselfSound(sn: Snapshot, q: Query, bought: set<Purchase>, val: map<BookHash, real>,
                    own': map<BookHash, real>, val': map<BookHash, real>, h: BookHash)
    requires h in sn && Improved(sn, q, Changes(bought), val, own', val') && !ReExpandable(sn, q, h)
    ensures h in own' && (Itself(sn, q, h, bought) ==> Meets(q, own'[h]))
  {
    if Change(h) in bought {
      assert Change(h).h in Changes(bought);
    }
  }

  lemma BestMeets(sn: Snapshot, q: Query, rank: map<BookHash, nat>, h: BookHash, own: real, val: map<BookHash, real>,
                  bought: set<Purchase>)
    requires Ranked(sn, rank) && h in sn && MinimaxAt(sn, h, own, val) && !ReExpandable(sn, q, h)
    requires Suffices(sn, q, rank, h, bought) && !Meets(q, Value(sn, h))
    requires Itself(sn, q, h, bought) ==> Meets(q, own)
    requires forall loc :: loc in sn[h].moves && Via(sn, q, rank, h, loc, bought) ==>
      sn[h].moves[loc].hash in val && Meets(q, val[sn[h].moves[loc].hash])
    ensures Meets(q, val[h])
  {
    hide Via, Itself, ReExpandable;
  }

  /**
   If every returned node comes to meet the threshold, and nothing else gets worse, then the
   recomputed minimax value of the queried node meets it.
   */
  lemma SearchIsSound(sn: Snapshot, q: Query, rank: map<BookHash, nat>, val: map<BookHash, real>,
                      own': map<BookHash, real>, val': map<BookHash, real>, h: BookHash)
    requires Ranked(sn, rank) && Minimaxed(sn, val) && h in sn
    requires forall h :: h in sn ==> h in val && val[h] == Value(sn, h)
    requires Improved(sn, q, Search(sn, q, None, rank, h).nodes, val, own', val')
    ensures h in val' && Meets(q, val'[h])
  {
    hide Ranked, Minimaxed, Improved, Search, Suffices;
    var bought := SearchSuffices(sn, q, rank, h);
    SufficesIsSound(sn, q, rank, bought, val, own', val', h);
  }

  // --- and nothing less does ---

  ghost function Raised(q: Query, changed: bool, x: real): real { if changed && !Meets(q, x) then q.threshold else x }

  /** The node's value when exactly the changed nodes come to the threshold, and nothing else happens. */
  ghost function NewValue(sn: Snapshot, q: Query, rank: map<BookHash, nat>, changed: set<BookHash>, h: BookHash): real
    requires Ranked(sn, rank) && h in sn
    decreases RankOf(rank, h), |sn[h].moves| + 1
  {
    if ReExpandable(sn, q, h) then Raised(q, h in changed, Value(sn, h))
    else BestOf(sn, q, rank, changed, h, |sn[h].moves|)
  }

  ghost function BestOf(sn: Snapshot, q: Query, rank: map<BookHash, nat>, changed: set<BookHash>, h: BookHash,
                        k: nat): real
    requires Ranked(sn, rank) && h in sn && k <= |sn[h].moves|
    decreases RankOf(rank, h), k
  {
    if k == 0 then Raised(q, h in changed, Own(sn, h))
    else
      Better(sn[h].inputs.pla, BestOf(sn, q, rank, changed, h, k - 1),
             NewValue(sn, q, rank, changed, sn[h].moves[Locs(sn[h].moves)[k - 1]].hash))
  }

  ghost function NewValues(sn: Snapshot, q: Query, rank: map<BookHash, nat>,
                           changed: set<BookHash>): (val: map<BookHash, real>)
    requires Ranked(sn, rank)
    ensures val.Keys == sn.Keys && forall h :: h in sn ==> val[h] == NewValue(sn, q, rank, changed, h)
  {
    map h | h in sn :: NewValue(sn, q, rank, changed, h)
  }

  ghost function NewOwns(sn: Snapshot, q: Query, changed: set<BookHash>): map<BookHash, real> {
    map h | h in sn :: Raised(q, h in changed, Own(sn, h))
  }

  lemma {:induction false} BestOfIsBest(sn: Snapshot, q: Query, rank: map<BookHash, nat>, changed: set<BookHash>,
                                        h: BookHash, k: nat)
    requires Ranked(sn, rank) && h in sn && k <= |sn[h].moves|
    ensures var best, own, pla, val :=
              BestOf(sn, q, rank, changed, h, k), Raised(q, h in changed, Own(sn, h)), sn[h].inputs.pla,
              NewValues(sn, q, rank, changed);
            && (forall i :: 0 <= i < k ==> sn[h].moves[Locs(sn[h].moves)[i]].hash in sn)
            && NoBetter(pla, own, best)
            && (forall i :: 0 <= i < k ==> NoBetter(pla, val[sn[h].moves[Locs(sn[h].moves)[i]].hash], best))
            && (best == own || exists i :: 0 <= i < k && best == val[sn[h].moves[Locs(sn[h].moves)[i]].hash])
    decreases k
  {
    hide NewValue, Raised, Locs, NewValues;
    if k > 0 {
      BestOfIsBest(sn, q, rank, changed, h, k - 1);
      MoveDown(sn, rank, h, Locs(sn[h].moves)[k - 1]);
    }
  }

  lemma NewIsMinimax(sn: Snapshot, q: Query, rank: map<BookHash, nat>, changed: set<BookHash>, h: BookHash)
    requires Ranked(sn, rank) && h in sn && !ReExpandable(sn, q, h)
    ensures MinimaxAt(sn, h, Raised(q, h in changed, Own(sn, h)), NewValues(sn, q, rank, changed))
  {
    hide BestOf, Raised, Locs, ReExpandable, NewValues;
    BestOfIsBest(sn, q, rank, changed, h, |sn[h].moves|);
    var val := NewValues(sn, q, rank, changed);
    forall loc | loc in sn[h].moves
      ensures sn[h].moves[loc].hash in val && NoBetter(sn[h].inputs.pla, val[sn[h].moves[loc].hash], val[h])
    {
      var i :| 0 <= i < |Locs(sn[h].moves)| && Locs(sn[h].moves)[i] == loc;
      assert NoBetter(sn[h].inputs.pla, val[sn[h].moves[Locs(sn[h].moves)[i]].hash], val[h]);
    }
  }

  lemma NewIsImproved(sn: Snapshot, q: Query, rank: map<BookHash, nat>, changed: set<BookHash>, val: map<BookHash, real>)
    requires Ranked(sn, rank) && val.Keys == sn.Keys && forall h :: h in sn ==> val[h] == Value(sn, h)
    ensures Improved(sn, q, changed, val, NewOwns(sn, q, changed), NewValues(sn, q, rank, changed))
  {
    hide Ranked, BestOf, MinimaxAt, Locs;
    var own', val' := NewOwns(sn, q, changed), NewValues(sn, q, rank, changed);
    forall h | h in sn
      ensures h in own' && h in val'
      ensures !ReExpandable(sn, q, h) ==> MinimaxAt(sn, h, own'[h], val') && NoWorse(q, Own(sn, h), own'[h])
      ensures ReExpandable(sn, q, h) ==> NoWorse(q, val[h], val'[h])
      ensures h in changed ==> Meets(q, if ReExpandable(sn, q, h) then val'[h] else own'[h])
    {
      if !ReExpandable(sn, q, h) {
        NewIsMinimax(sn, q, rank, changed, h);
      }
    }
  }

  /** Every move may be played. */
  ghost predicate AllPlays(sn: Snapshot, bought: set<Purchase>) {
    forall h, loc :: h in sn && loc in sn[h].moves ==> Play(h, loc) in bought
  }

  lemma {:induction false} OnlySufficingMeets(sn: Snapshot, q: Query, rank: map<BookHash, nat>, bought: set<Purchase>,
                                              h: BookHash)
    requires Ranked(sn, rank) && h in sn && AllPlays(sn, bought)
    requires Meets(q, NewValue(sn, q, rank, Changes(bought), h))
    ensures Suffices(sn, q, rank, h, bought)
    decreases RankOf(rank, h)
  {
    hide Ranked, BestOf, Locs, AllPlays, NewValues;
    var val' := NewValues(sn, q, rank, Changes(bought));
    if !ReExpandable(sn, q, h) {
      NewIsMinimax(sn, q, rank, Changes(bought), h);
      forall loc | loc in sn[h].moves && sn[h].moves[loc].hash in val' && Meets(q, val'[sn[h].moves[loc].hash])
        ensures Via(sn, q, rank, h, loc, bought)
      {
        MoveDown(sn, rank, h, loc);
        OnlySufficingMeets(sn, q, rank, bought, sn[h].moves[loc].hash);
        assert Play(h, loc) in bought by { PlayIn(sn, bought, h, loc); }
      }
      assert val'[h] == NewValue(sn, q, rank, Changes(bought), h);
      hide NewValue;
    }
  }

  lemma PlayIn(sn: Snapshot, bought: set<Purchase>, h: BookHash, loc: Loc)
    requires AllPlays(sn, bought) && h in sn && loc in sn[h].moves
    ensures Play(h, loc) in bought
  {
  }

  /**
   Moves aside, a set suffices exactly if, whenever its nodes come to meet the threshold and nothing gets
   worse, the recomputed value of h meets it too.
   */
  lemma SufficesExactly(sn: Snapshot, q: Query, rank: map<BookHash, nat>, bought: set<Purchase>,
                        val: map<BookHash, real>, h: BookHash)
    requires Ranked(sn, rank) && Minimaxed(sn, val) && h in sn && AllPlays(sn, bought) && val.Keys == sn.Keys
    requires forall h :: h in sn ==> val[h] == Value(sn, h)
    ensures Suffices(sn, q, rank, h, bought)
            <==> forall own', val' :: Improved(sn, q, Changes(bought), val, own', val') ==> h in val' && Meets(q, val'[h])
  {
    hide Ranked, Minimaxed, Improved, Suffices, AllPlays, NewValue;
    if Suffices(sn, q, rank, h, bought) {
      forall own', val' | Improved(sn, q, Changes(bought), val, own', val') ensures h in val' && Meets(q, val'[h]) {
        SufficesIsSound(sn, q, rank, bought, val, own', val', h);
      }
    } else {
      NewIsImproved(sn, q, rank, Changes(bought), val);
      if Meets(q, NewValue(sn, q, rank, Changes(bought), h)) {
        OnlySufficingMeets(sn, q, rank, bought, h);
      }
    }
  }

  // ---------------------------------------------------------------------------------------------
  // The answer is the least

  /** What a single child would cost, with the move to it. */
  ghost function ViaCost(sn: Snapshot, q: Query, prune: Option<real>, rank: map<BookHash, nat>, h: BookHash,
                         loc: Loc): real
    requires Ranked(sn, rank) && h in sn && loc in sn[h].moves
  {
    Search(sn, q, prune, rank, sn[h].moves[loc].hash).totalCost + q.edgeCost(h, sn[h].moves[loc])
  }

  /** r is the node alone, or a child's answer, with the move to it added. */
  ghost predicate FromOne(sn: Snapshot, q: Query, prune: Option<real>, rank: map<BookHash, nat>, h: BookHash,
                          r: MinCostResult)
    requires Ranked(sn, rank) && h in sn
  {
    || (Meets(q, Own(sn, h)) && r == MinCostResult(0.0, {}))
    || (!Meets(q, Own(sn, h)) && r == MinCostResult(q.costOf(h), {h}))
    || exists loc :: loc in sn[h].moves && r.totalCost == ViaCost(sn, q, prune, rank, h, loc)
                     && r.nodes == Search(sn, q, prune, rank, sn[h].moves[loc].hash).nodes
  }

  lemma {:induction false} AnyIsLeast(sn: Snapshot, q: Query, prune: Option<real>, rank: map<BookHash, nat>,
                                      h: BookHash, k: nat)
    requires Ranked(sn, rank) && h in sn && k <= |sn[h].moves| && !ReExpandable(sn, q, h)
    ensures var r := AnyChild(sn, q, prune, rank, h, k);
      && r.totalCost <= (if Meets(q, Own(sn, h)) then 0.0 else q.costOf(h))
      && (forall i :: 0 <= i < k ==> r.totalCost <= ViaCost(sn, q, prune, rank, h, Locs(sn[h].moves)[i]))
      && FromOne(sn, q, prune, rank, h, r)
    decreases k
  {
    hide Ranked, ReExpandable, Search, Locs, AnyChild, ChildResult, Own, Meets;
    if k == 0 {
      NoSteps(sn, q, prune, rank, h);
    } else {
      Steps(sn, q, prune, rank, h, k - 1);
      ChildFacts(sn, q, prune, rank, h, k - 1);
      AnyIsLeast(sn, q, prune, rank, h, k - 1);
      assert Locs(sn[h].moves)[k - 1] in sn[h].moves;
    }
  }

  /** Where one child is enough, the answer is the cheapest of the node alone and of each child with the move to it. */
  lemma CheapestOfOne(sn: Snapshot, q: Query, prune: Option<real>, rank: map<BookHash, nat>, h: BookHash)
    requires Ranked(sn, rank) && h in sn && !Meets(q, Value(sn, h)) && !ReExpandable(sn, q, h)
    requires OneIsEnough(q, sn[h].inputs.pla)
    ensures var r := Search(sn, q, prune, rank, h);
      && r.totalCost <= (if Meets(q, Own(sn, h)) then 0.0 else q.costOf(h))
      && (forall loc :: loc in sn[h].moves ==> r.totalCost <= ViaCost(sn, q, prune, rank, h, loc))
      && FromOne(sn, q, prune, rank, h, r)
  {
    hide Ranked, ReExpandable, Locs, AnyChild, AllChildren, Own, FromOne, ViaCost;
    AnyIsLeast(sn, q, prune, rank, h, |sn[h].moves|);
    forall loc | loc in sn[h].moves
      ensures AnyChild(sn, q, prune, rank, h, |sn[h].moves|).totalCost <= ViaCost(sn, q, prune, rank, h, loc)
    {
      var i :| 0 <= i < |Locs(sn[h].moves)| && Locs(sn[h].moves)[i] == loc;
      assert AnyChild(sn, q, prune, rank, h, |sn[h].moves|).totalCost
          <= ViaCost(sn, q, prune, rank, h, Locs(sn[h].moves)[i]);
    }
  }

  /** No node is reached by two moves. */
  ghost predicate OneParent(sn: Snapshot) {
    forall h, loc, h', loc' ::
      h in sn && loc in sn[h].moves && h' in sn && loc' in sn[h'].moves && sn[h].moves[loc].hash == sn[h'].moves[loc'].hash
      ==> h == h' && loc == loc'
  }

  /** Moves lead from a to d. */
  ghost predicate Under(sn: Snapshot, rank: map<BookHash, nat>, a: BookHash, d: BookHash)
    requires Ranked(sn, rank) && a in sn
    decreases RankOf(rank, a)
  {
    a == d || exists loc :: loc in sn[a].moves && Under(sn, rank, sn[a].moves[loc].hash, d)
  }

  lemma {:induction false} UnderIsLower(sn: Snapshot, rank: map<BookHash, nat>, a: BookHash, d: BookHash)
    requires Ranked(sn, rank) && a in sn && Under(sn, rank, a, d)
    ensures d in sn && (a == d || RankOf(rank, d) < RankOf(rank, a))
    decreases RankOf(rank, a)
  {
    if a != d {
      var loc :| loc in sn[a].moves && Under(sn, rank, sn[a].moves[loc].hash, d);
      MoveDown(sn, rank, a, loc);
      UnderIsLower(sn, rank, sn[a].moves[loc].hash, d);
    }
  }

  /** The last move of the way from a to d. */
  lemma {:induction false} LastMove(sn: Snapshot, rank: map<BookHash, nat>, a: BookHash, d: BookHash)
    returns (e: BookHash, loc: Loc)
    requires Ranked(sn, rank) && a in sn && Under(sn, rank, a, d) && a != d
    ensures e in sn && Under(sn, rank, a, e) && loc in sn[e].moves && sn[e].moves[loc].hash == d
    decreases RankOf(rank, a)
  {
    var first :| first in sn[a].moves && Under(sn, rank, sn[a].moves[first].hash, d);
    MoveDown(sn, rank, a, first);
    if sn[a].moves[first].hash == d {
      e, loc := a, first;
    } else {
      e, loc := LastMove(sn, rank, sn[a].moves[first].hash, d);
    }
  }

  /** Where no node has two parents, what lies above a node is a chain. */
  lemma {:induction false} AboveIsChain(sn: Snapshot, rank: map<BookHash, nat>, a: BookHash, b: BookHash, d: BookHash)
    requires Ranked(sn, rank) && OneParent(sn) && a in sn && b in sn && Under(sn, rank, a, d) && Under(sn, rank, b, d)
    ensures Under(sn, rank, a, b) || Under(sn, rank, b, a)
    decreases RankOf(rank, a) - RankOf(rank, d)
  {
    UnderIsLower(sn, rank, a, d);
    hide Under;
    if a != d && b != d {
      var e, loc := LastMove(sn, rank, a, d);
      var e', loc' := LastMove(sn, rank, b, d);
      assert e == e';
      UnderIsLower(sn, rank, a, e);
      MoveDown(sn, rank, e, loc);
      hide Ranked, OneParent;
      AboveIsChain(sn, rank, a, b, e);
    }
  }

  /** Two moves of a node lead to disjoint parts of the book, and away from the node. */
  lemma BranchesDisjoint(sn: Snapshot, rank: map<BookHash, nat>, h: BookHash, loc: Loc, loc': Loc, d: BookHash)
    requires Ranked(sn, rank) && OneParent(sn) && h in sn && loc in sn[h].moves && loc' in sn[h].moves && loc != loc'
    requires sn[h].moves[loc].hash in sn && sn[h].moves[loc'].hash in sn
    ensures !(Under(sn, rank, sn[h].moves[loc].hash, d) && Under(sn, rank, sn[h].moves[loc'].hash, d))
  {
    if Under(sn, rank, sn[h].moves[loc].hash, d) && Under(sn, rank, sn[h].moves[loc'].hash, d) {
      AboveIsChain(sn, rank, sn[h].moves[loc].hash, sn[h].moves[loc'].hash, d);
      if Under(sn, rank, sn[h].moves[loc].hash, sn[h].moves[loc'].hash) {
        NotBeside(sn, rank, h, loc, loc');
      } else {
        NotBeside(sn, rank, h, loc', loc);
      }
    }
  }

  lemma NotBeside(sn: Snapshot, rank: map<BookHash, nat>, h: BookHash, loc: Loc, loc': Loc)
    requires Ranked(sn, rank) && OneParent(sn) && h in sn && loc in sn[h].moves && loc' in sn[h].moves && loc != loc'
    requires sn[h].moves[loc].hash in sn
    ensures !Under(sn, rank, sn[h].moves[loc].hash, sn[h].moves[loc'].hash)
  {
    var c, c' := sn[h].moves[loc].hash, sn[h].moves[loc'].hash;
    assert c != c';
    MoveDown(sn, rank, h, loc);
    hide Under;
    if Under(sn, rank, c, c') {
      var e, last := LastMove(sn, rank, c, c');
      assert e == h;
      UnderIsLower(sn, rank, c, h);
    }
  }

  /** The purchases made at nodes below h. */
  ghost function Below(sn: Snapshot, rank: map<BookHash, nat>, h: BookHash, bought: set<Purchase>): set<Purchase>
    requires Ranked(sn, rank) && h in sn
  {
    set x | x in bought && Under(sn, rank, h, x.h)
  }

  /** The purchases along one move. */
  ghost function Along(sn: Snapshot, rank: map<BookHash, nat>, h: BookHash, loc: Loc, bought: set<Purchase>): set<Purchase>
    requires Ranked(sn, rank) && h in sn && loc in sn[h].moves
  {
    {Play(h, loc)} + Below(sn, rank, sn[h].moves[loc].hash, bought)
  }

  lemma AlongCost(sn: Snapshot, q: Query, rank: map<BookHash, nat>, h: BookHash, loc: Loc, bought: set<Purchase>)
    requires Ranked(sn, rank) && NonNegative(q) && h in sn && loc in sn[h].moves && Play(h, loc) in bought
    ensures sn[h].moves[loc].hash in sn && Along(sn, rank, h, loc, bought) <= Below(sn, rank, h, bought)
    ensures Price(sn, q, Along(sn, rank, h, loc, bought))
            == Price(sn, q, Below(sn, rank, sn[h].moves[loc].hash, bought)) + q.edgeCost(h, sn[h].moves[loc])
    ensures Change(h) !in Along(sn, rank, h, loc, bought)
  {
    MoveDown(sn, rank, h, loc);
    var d := sn[h].moves[loc].hash;
    var below := Below(sn, rank, d, bought);
    assert !Under(sn, rank, d, h) by {
      if Under(sn, rank, d, h) {
        UnderIsLower(sn, rank, d, h);
      }
    }
    assert Along(sn, rank, h, loc, bought) <= Below(sn, rank, h, bought);
    hide Under, Ranked;
    assert Play(h, loc) !in below && Change(h) !in below;
    SumTakeOut(PriceOf(sn, q), Along(sn, rank, h, loc, bought), Play(h, loc));
    assert Along(sn, rank, h, loc, bought) - {Play(h, loc)} == below;
  }

  /** The purchases at the node itself and along its first k moves. */
  ghost function AlongFirst(sn: Snapshot, rank: map<BookHash, nat>, h: BookHash, k: nat, bought: set<Purchase>): set<Purchase>
    requires Ranked(sn, rank) && h in sn && k <= |sn[h].moves|
  {
    if k == 0 then bought * {Change(h)}
    else AlongFirst(sn, rank, h, k - 1, bought) + Along(sn, rank, h, Locs(sn[h].moves)[k - 1], bought)
  }

  lemma {:induction false} AlongFirstAre(sn: Snapshot, q: Query, rank: map<BookHash, nat>, h: BookHash, k: nat,
                                         bought: set<Purchase>)
    requires Ranked(sn, rank) && h in sn && k <= |sn[h].moves| && NonNegative(q) && ViaFirst(sn, q, rank, h, k, bought)
    ensures AlongFirst(sn, rank, h, k, bought) <= Below(sn, rank, h, bought)
    ensures forall x :: x in AlongFirst(sn, rank, h, k, bought) ==>
      x == Change(h) || exists i :: 0 <= i < k && x in Along(sn, rank, h, Locs(sn[h].moves)[i], bought)
    decreases k
  {
    hide Ranked, Along, Locs, Suffices;
    if k > 0 {
      AlongFirstAre(sn, q, rank, h, k - 1, bought);
      AlongCost(sn, q, rank, h, Locs(sn[h].moves)[k - 1], bought);
    } else {
      assert Under(sn, rank, h, h);
    }
  }

  lemma AlongDisjoint(sn: Snapshot, rank: map<BookHash, nat>, h: BookHash, loc: Loc, loc': Loc, bought: set<Purchase>)
    requires Ranked(sn, rank) && OneParent(sn) && h in sn && loc in sn[h].moves && loc' in sn[h].moves && loc != loc'
    ensures Along(sn, rank, h, loc, bought) !! Along(sn, rank, h, loc', bought)
  {
    MoveDown(sn, rank, h, loc);
    MoveDown(sn, rank, h, loc');
    var c, c' := sn[h].moves[loc].hash, sn[h].moves[loc'].hash;
    forall x | x in Along(sn, rank, h, loc, bought) && x in Along(sn, rank, h, loc', bought) ensures false {
      BranchesDisjoint(sn, rank, h, loc, loc', x.h);
      if Under(sn, rank, c, h) {
        UnderIsLower(sn, rank, c, h);
      }
      if Under(sn, rank, c', h) {
        UnderIsLower(sn, rank, c', h);
      }
    }
  }

  lemma AlongFirstDisjoint(sn: Snapshot, q: Query, rank: map<BookHash, nat>, h: BookHash, k: nat, bought: set<Purchase>)
    requires Ranked(sn, rank) && OneParent(sn) && h in sn && k < |sn[h].moves| && NonNegative(q)
    requires ViaFirst(sn, q, rank, h, k + 1, bought)
    ensures AlongFirst(sn, rank, h, k, bought) !! Along(sn, rank, h, Locs(sn[h].moves)[k], bought)
  {
    hide Ranked, OneParent, Along, AlongFirst, Suffices;
    var locs := Locs(sn[h].moves);
    AlongFirstAre(sn, q, rank, h, k, bought);
    AlongCost(sn, q, rank, h, locs[k], bought);
    forall x | x in AlongFirst(sn, rank, h, k, bought) ensures x !in Along(sn, rank, h, locs[k], bought) {
      if x != Change(h) {
        var i :| 0 <= i < k && x in Along(sn, rank, h, locs[i], bought);
        LocsDistinct(sn[h].moves, i, k);
        AlongDisjoint(sn, rank, h, locs[i], locs[k], bought);
      }
    }
  }

  lemma LocsDistinct(moves: map<Loc, BookMove>, i: nat, j: nat)
    requires i < j < |moves|
    ensures Locs(moves)[i] != Locs(moves)[j]
  {
  }

  lemma PriceOfMore(sn: Snapshot, q: Query, a: set<Purchase>, b: set<Purchase>)
    requires NonNegative(q) && a <= b
    ensures Price(sn, q, a) <= Price(sn, q, b)
  {
    PricesNonNegative(sn, q);
    SumMonotone(PriceOf(sn, q), a, b);
  }

  lemma ThisNodeIsLeast(sn: Snapshot, q: Query, rank: map<BookHash, nat>, h: BookHash, bought: set<Purchase>)
    requires Ranked(sn, rank) && NonNegative(q) && h in sn
    requires if ReExpandable(sn, q, h) then Change(h) in bought else Itself(sn, q, h, bought)
    ensures ThisNode(sn, q, h).totalCost <= Price(sn, q, bought * {Change(h)})
    ensures bought * {Change(h)} <= Below(sn, rank, h, bought)
  {
    PricesNonNegative(sn, q);
    SumNonNegative(PriceOf(sn, q), bought * {Change(h)});
    PriceOfOne(sn, q, Change(h));
    if Change(h) in bought {
      assert bought * {Change(h)} == {Change(h)};
    }
  }

  lemma {:induction false} AllIsLeast(sn: Snapshot, q: Query, rank: map<BookHash, nat>, h: BookHash, k: nat,
                                      bought: set<Purchase>)
    requires Ranked(sn, rank) && NonNegative(q) && OneParent(sn) && h in sn && k <= |sn[h].moves|
    requires !ReExpandable(sn, q, h) && Itself(sn, q, h, bought) && ViaFirst(sn, q, rank, h, k, bought)
    ensures AllChildren(sn, q, None, rank, h, k).totalCost <= Price(sn, q, AlongFirst(sn, rank, h, k, bought))
    decreases RankOf(rank, h), k
  {
    hide *;
    if k == 0 {
      NoSteps(sn, q, None, rank, h);
      ThisNodeIsLeast(sn, q, rank, h, bought);
      NoneAlong(sn, rank, h, bought);
    } else {
      Steps(sn, q, None, rank, h, k - 1);
      NeverOver(AllChildren(sn, q, None, rank, h, k - 1).totalCost);
      ChildFacts(sn, q, None, rank, h, k - 1);
      var loc := Locs(sn[h].moves)[k - 1];
      NextVia(sn, q, rank, h, k, bought);
      AllIsLeast(sn, q, rank, h, k - 1, bought);
      AlongCost(sn, q, rank, h, loc, bought);
      NoneCheaper(sn, q, rank, sn[h].moves[loc].hash, bought);
      AlongFirstDisjoint(sn, q, rank, h, k - 1, bought);
      DisjointPrices(sn, q, AlongFirst(sn, rank, h, k - 1, bought), Along(sn, rank, h, loc, bought));
      MergeAtMost(q, AllChildren(sn, q, None, rank, h, k - 1), ChildResult(sn, q, None, rank, h, k - 1));
    }
  }

  lemma NoneAlong(sn: Snapshot, rank: map<BookHash, nat>, h: BookHash, bought: set<Purchase>)
    requires Ranked(sn, rank) && h in sn
    ensures AlongFirst(sn, rank, h, 0, bought) == bought * {Change(h)}
  {
  }

  lemma NextVia(sn: Snapshot, q: Query, rank: map<BookHash, nat>, h: BookHash, k: nat, bought: set<Purchase>)
    requires Ranked(sn, rank) && h in sn && 0 < k <= |sn[h].moves| && ViaFirst(sn, q, rank, h, k, bought)
    ensures var loc := Locs(sn[h].moves)[k - 1];
            && loc in sn[h].moves && Play(h, loc) in bought && sn[h].moves[loc].hash in sn
            && Suffices(sn, q, rank, sn[h].moves[loc].hash, bought)
            && AlongFirst(sn, rank, h, k, bought) ==
               AlongFirst(sn, rank, h, k - 1, bought) + Along(sn, rank, h, loc, bought)
    ensures ViaFirst(sn, q, rank, h, k - 1, bought)
  {
    hide Suffices, Along;
    assert Via(sn, q, rank, h, Locs(sn[h].moves)[k - 1], bought);
    MoveDown(sn, rank, h, Locs(sn[h].moves)[k - 1]);
  }

  lemma DisjointPrices(sn: Snapshot, q: Query, a: set<Purchase>, b: set<Purchase>)
    requires a !! b
    ensures Price(sn, q, a + b) == Price(sn, q, a) + Price(sn, q, b)
  {
    SumUnion(PriceOf(sn, q), a, b);
    assert a * b == {};
    PriceOfOne(sn, q, Change(BookHash(0, 0)));
  }

  lemma MergeAtMost(q: Query, a: MinCostResult, b: MinCostResult)
    requires NonNegative(q)
    ensures Merge(q, a, b).totalCost <= a.totalCost + b.totalCost
  {
    SumNonNegative(q.costOf, a.nodes * b.nodes);
  }

  /** Where no node has two parents, no purchases that suffice for h cost less than the answer. */
  lemma {:induction false} NoneCheaper(sn: Snapshot, q: Query, rank: map<BookHash, nat>, h: BookHash,
                                       bought: set<Purchase>)
    requires Ranked(sn, rank) && NonNegative(q) && OneParent(sn) && h in sn && Suffices(sn, q, rank, h, bought)
    ensures Search(sn, q, None, rank, h).totalCost <= Price(sn, q, Below(sn, rank, h, bought))
    decreases RankOf(rank, h), |sn[h].moves| + 1
  {
    hide Ranked, OneParent, AnyChild, AllChildren, Via, ReExpandable, Below, Price, ThisNode, NonNegative, Itself;
    if Meets(q, Value(sn, h)) {
      PriceOfMore(sn, q, {}, Below(sn, rank, h, bought));
      PriceOfOne(sn, q, Change(h));
    } else if ReExpandable(sn, q, h) {
      ThisNodeIsLeast(sn, q, rank, h, bought);
      PriceOfMore(sn, q, bought * {Change(h)}, Below(sn, rank, h, bought));
    } else if !OneIsEnough(q, sn[h].inputs.pla) {
      assert ViaFirst(sn, q, rank, h, |sn[h].moves|, bought) by { hide Suffices; }
      AllIsLeast(sn, q, rank, h, |sn[h].moves|, bought);
      AlongFirstAre(sn, q, rank, h, |sn[h].moves|, bought);
      PriceOfMore(sn, q, AlongFirst(sn, rank, h, |sn[h].moves|, bought), Below(sn, rank, h, bought));
    } else {
      AnyIsLeast(sn, q, None, rank, h, |sn[h].moves|);
      if Itself(sn, q, h, bought) {
        ThisNodeIsLeast(sn, q, rank, h, bought);
        PriceOfMore(sn, q, bought * {Change(h)}, Below(sn, rank, h, bought));
        ThisNodeCost(sn, q, h);
      } else {
        var loc :| loc in sn[h].moves && Via(sn, q, rank, h, loc, bought);
        ViaIsLeast(sn, q, rank, h, loc, bought);
        CheapestOfOne(sn, q, None, rank, h);
      }
    }
  }

  lemma ThisNodeCost(sn: Snapshot, q: Query, h: BookHash)
    requires h in sn && !ReExpandable(sn, q, h)
    ensures ThisNode(sn, q, h).totalCost == if Meets(q, Own(sn, h)) then 0.0 else q.costOf(h)
  {
  }

  lemma ViaIsLeast(sn: Snapshot, q: Query, rank: map<BookHash, nat>, h: BookHash, loc: Loc, bought: set<Purchase>)
    requires Ranked(sn, rank) && NonNegative(q) && OneParent(sn) && h in sn && loc in sn[h].moves
    requires Via(sn, q, rank, h, loc, bought)
    ensures ViaCost(sn, q, None, rank, h, loc) <= Price(sn, q, Below(sn, rank, h, bought))
    decreases RankOf(rank, h), 0
  {
    hide Ranked, OneParent, Along, Price, NonNegative, Search, Suffices, Below;
    MoveDown(sn, rank, h, loc);
    NoneCheaper(sn, q, rank, sn[h].moves[loc].hash, bought);
    AlongCost(sn, q, rank, h, loc, bought);
    PriceOfMore(sn, q, Along(sn, rank, h, loc, bought), Below(sn, rank, h, bought));
  }

  /**
   With costs that are not negative and no node with two parents: the answer's nodes, with some moves,
   suffice for exactly its total, and nothing that suffices costs less.
   */
  lemma SearchIsLeast(sn: Snapshot, q: Query, rank: map<BookHash, nat>, h: BookHash) returns (bought: set<Purchase>)
    requires Ranked(sn, rank) && NonNegative(q) && OneParent(sn) && h in sn
    ensures var r := Search(sn, q, None, rank, h);
      && Suffices(sn, q, rank, h, bought) && Changes(bought) == r.nodes && Price(sn, q, bought) == r.totalCost
      && forall other :: Suffices(sn, q, rank, h, other) ==> r.totalCost <= Price(sn, q, other)
  {
    hide Ranked, OneParent, Search, Suffices, NonNegative, Price, Below, Changes;
    bought := SearchSuffices(sn, q, rank, h);
    forall other | Suffices(sn, q, rank, h, other)
      ensures Search(sn, q, None, rank, h).totalCost <= Price(sn, q, other)
    {
      NoneCheaper(sn, q, rank, h, other);
      BelowIsPart(sn, rank, h, other);
      PriceOfMore(sn, q, Below(sn, rank, h, other), other);
    }
  }

  lemma BelowIsPart(sn: Snapshot, rank: map<BookHash, nat>, h: BookHash, bought: set<Purchase>)
    requires Ranked(sn, rank) && h in sn
    ensures Below(sn, rank, h, bought) <= bought
  {
  }

  // ---------------------------------------------------------------------------------------------
  // Two parents are too many

  function Id(i: int): BookHash { BookHash(i, 0) }

  function MoveTo(loc: Loc, i: int): BookMove { BookMove(loc, IDENTITY, Id(i), 0.0, 0.0, false, 0.0) }

  function Searched(pla: Player, winLoss: real, moves: map<Loc, BookMove>): NodeState {
    FreshState(pla).(inputs := NodeInputs(pla, BookValues(winLoss, 0.0, 0.0, 0.0, 0.0, 0.0, 0.0, 0.0, 0.0), false, false),
                     moves := moves)
  }

  /** Black at 0 needs both children, 1 and 2; either is changed for 2, or by way of 3, their common child, for 3. */
  function SharedChild(): Snapshot {
    map[Id(0) := Searched(Black, 1.0, map[4 := MoveTo(4, 1), 5 := MoveTo(5, 2)]),
        Id(1) := Searched(White, 0.0, map[7 := MoveTo(7, 3)]),
        Id(2) := Searched(White, 0.0, map[7 := MoveTo(7, 3)]),
        Id(3) := Searched(Black, 0.0, map[])]
  }

  function SharedRank(): map<BookHash, nat> { map[Id(0) := 2, Id(1) := 1, Id(2) := 1, Id(3) := 0] }

  function SharedQuery(): Query {
    Query((h: BookHash) => if h == Id(3) then 3.0 else 2.0, (h: BookHash, m: BookMove) => 0.0, 0.5, true, 0.0)
  }

  lemma SharedSetting()
    ensures Ranked(SharedChild(), SharedRank()) && NonNegative(SharedQuery())
    ensures SharedChild().Keys == {Id(0), Id(1), Id(2), Id(3)}
    ensures SharedChild()[Id(0)] == Searched(Black, 1.0, map[4 := MoveTo(4, 1), 5 := MoveTo(5, 2)])
    ensures SharedChild()[Id(1)] == Searched(White, 0.0, map[7 := MoveTo(7, 3)]) == SharedChild()[Id(2)]
    ensures SharedChild()[Id(3)] == Searched(Black, 0.0, map[])
  {
  }

  lemma SharedLeaf()
    ensures Ranked(SharedChild(), SharedRank()) && Id(3) in SharedChild()
    ensures Search(SharedChild(), SharedQuery(), None, SharedRank(), Id(3)) == MinCostResult(3.0, {Id(3)})
  {
    SharedSetting();
    hide Ranked, SharedChild, SharedRank;
    NoSteps(SharedChild(), SharedQuery(), None, SharedRank(), Id(3));
  }

  lemma SharedBranch(i: int)
    requires i == 1 || i == 2
    ensures Ranked(SharedChild(), SharedRank()) && Id(i) in SharedChild()
    ensures Search(SharedChild(), SharedQuery(), None, SharedRank(), Id(i)) == MinCostResult(2.0, {Id(i)})
  {
    SharedSetting();
    SharedLeaf();
    hide Ranked, SharedChild, SharedRank, Search;
    CheapestOfOne(SharedChild(), SharedQuery(), None, SharedRank(), Id(i));
  }

  lemma TwoLocs(moves: map<Loc, BookMove>)
    requires moves == map[4 := MoveTo(4, 1), 5 := MoveTo(5, 2)]
    ensures |moves| == 2 && Locs(moves)[0] == 4 && Locs(moves)[1] == 5
  {
    assert moves.Keys == {4, 5};
    assert 4 in moves && 5 in moves;
    LocsDistinct(moves, 0, 1);
    LocsAscend(moves);
  }

  lemma LocsAscend(moves: map<Loc, BookMove>)
    ensures Increasing(Locs(moves))
  {
  }

  /** With a shared child the answer costs 4 although purchases for 3 suffice: each parent's choice ignores the other's. */
  lemma SharedChildIsMissed()
    ensures Ranked(SharedChild(), SharedRank()) && NonNegative(SharedQuery()) && Id(0) in SharedChild()
    ensures Search(SharedChild(), SharedQuery(), None, SharedRank(), Id(0)).totalCost == 4.0
    ensures var bought := {Change(Id(3)), Play(Id(0), 4), Play(Id(0), 5), Play(Id(1), 7), Play(Id(2), 7)};
            && Suffices(SharedChild(), SharedQuery(), SharedRank(), Id(0), bought)
            && Price(SharedChild(), SharedQuery(), bought) == 3.0
  {
    SharedSetting();
    SharedTotal();
    SharedSuffices();
    SharedPrice();
  }

  lemma TwoChildren(sn: Snapshot, q: Query, rank: map<BookHash, nat>, h: BookHash)
    requires Ranked(sn, rank) && h in sn && |sn[h].moves| == 2 && Meets(q, Own(sn, h))
    requires !Meets(q, Value(sn, h)) && !ReExpandable(sn, q, h) && !OneIsEnough(q, sn[h].inputs.pla)
    ensures var a, b := ChildResult(sn, q, None, rank, h, 0), ChildResult(sn, q, None, rank, h, 1);
            a.nodes * b.nodes == {} ==> Search(sn, q, None, rank, h).totalCost == a.totalCost + b.totalCost
  {
    hide Ranked, AllChildren, ChildResult, AnyChild, Value, Own, ReExpandable, Meets;
    NoSteps(sn, q, None, rank, h);
    Steps(sn, q, None, rank, h, 0);
    Steps(sn, q, None, rank, h, 1);
    NothingOver(q.costOf);
    var a := ChildResult(sn, q, None, rank, h, 0);
    assert {} * a.nodes == {} && {} + a.nodes == a.nodes;
  }

  lemma NothingOver(cost: BookHash -> real)
    ensures SumOver(cost, {}) == 0.0
  {
  }

  lemma SharedRoot()
    ensures Ranked(SharedChild(), SharedRank()) && Id(0) in SharedChild()
    ensures var sn, q := SharedChild(), SharedQuery();
            && |sn[Id(0)].moves| == 2 && sn[Id(0)].moves[Locs(sn[Id(0)].moves)[0]] == MoveTo(4, 1)
            && sn[Id(0)].moves[Locs(sn[Id(0)].moves)[1]] == MoveTo(5, 2) && Meets(q, Own(sn, Id(0)))
            && !Meets(q, Value(sn, Id(0))) && !ReExpandable(sn, q, Id(0)) && !OneIsEnough(q, sn[Id(0)].inputs.pla)
  {
    SharedSetting();
    hide Ranked, SharedChild, SharedRank, Locs;
    TwoLocs(SharedChild()[Id(0)].moves);
  }

  lemma SharedTotal()
    ensures Ranked(SharedChild(), SharedRank()) && Id(0) in SharedChild()
    ensures Search(SharedChild(), SharedQuery(), None, SharedRank(), Id(0)).totalCost == 4.0
  {
    var sn, q, rank := SharedChild(), SharedQuery(), SharedRank();
    SharedRoot();
    SharedBranch(1);
    SharedBranch(2);
    hide *;
    ChildFacts(sn, q, None, rank, Id(0), 0);
    ChildFacts(sn, q, None, rank, Id(0), 1);
    TwoChildren(sn, q, rank, Id(0));
    NoEdges(MoveTo(4, 1), MoveTo(5, 2));
    assert {Id(1)} * {Id(2)} == {} by { assert Id(1) != Id(2); }
  }

  lemma NoEdges(m: BookMove, m': BookMove)
    ensures SharedQuery().edgeCost(Id(0), m) == 0.0 == SharedQuery().edgeCost(Id(0), m')
    ensures MoveTo(4, 1).hash == Id(1) && MoveTo(5, 2).hash == Id(2) && Id(1) != Id(2)
  {
  }

  lemma SharedSuffices()
    ensures Ranked(SharedChild(), SharedRank()) && Id(0) in SharedChild()
    ensures Suffices(SharedChild(), SharedQuery(), SharedRank(), Id(0),
                     {Change(Id(3)), Play(Id(0), 4), Play(Id(0), 5), Play(Id(1), 7), Play(Id(2), 7)})
  {
    SharedSetting();
    hide Ranked, SharedChild, SharedRank;
    var bought := {Change(Id(3)), Play(Id(0), 4), Play(Id(0), 5), Play(Id(1), 7), Play(Id(2), 7)};
    var sn, q, rank := SharedChild(), SharedQuery(), SharedRank();
    assert Suffices(sn, q, rank, Id(3), bought);
    assert Via(sn, q, rank, Id(1), 7, bought) && Via(sn, q, rank, Id(2), 7, bought);
    assert Suffices(sn, q, rank, Id(1), bought) && Suffices(sn, q, rank, Id(2), bought);
  }

  lemma SharedPrice()
    ensures Price(SharedChild(), SharedQuery(),
                  {Change(Id(3)), Play(Id(0), 4), Play(Id(0), 5), Play(Id(1), 7), Play(Id(2), 7)}) == 3.0
  {
    hide SharedChild;
    var sn, q := SharedChild(), SharedQuery();
    var plays := {Play(Id(0), 4), Play(Id(0), 5), Play(Id(1), 7), Play(Id(2), 7)};
    PlaysAreFree(sn, q, plays);
    DisjointPrices(sn, q, {Change(Id(3))}, plays);
    PriceOfOne(sn, q, Change(Id(3)));
    assert {Change(Id(3))} + plays == {Change(Id(3)), Play(Id(0), 4), Play(Id(0), 5), Play(Id(1), 7), Play(Id(2), 7)};
  }

  lemma {:induction false} PlaysAreFree(sn: Snapshot, q: Query, plays: set<Purchase>)
    requires FreeEdges(q) && forall x :: x in plays ==> x.Play?
    ensures Price(sn, q, plays) == 0.0
  {
    if plays != {} {
      var x :| x in plays && Price(sn, q, plays) == PriceOf(sn, q)(x) + Price(sn, q, plays - {x});
      PlaysAreFree(sn, q, plays - {x});
    }
  }
}
