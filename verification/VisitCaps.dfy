/**
 What adjusted visits are, whatever way the items are sorted and walked: each item counts with its own
 visits, capped by the least cap of the items at least as good as it.
 */
module VisitCaps {
  import opened Util
  import opened ValueRules

  predicate WorstFirst(items: seq<VisitItem>) {
    forall i, j :: 0 <= i < j < |items| ==> items[i].sortingValue <= items[j].sortingValue
  }

  predicate NoTies(items: seq<VisitItem>) {
    forall i, j :: 0 <= i < j < |items| ==> items[i].sortingValue != items[j].sortingValue
  }

  lemma {:induction false} InsertKeeps(x: VisitItem, items: seq<VisitItem>)
    ensures multiset(InsertItem(x, items)) == multiset{x} + multiset(items)
  {
    if items != [] && !(x.sortingValue <= items[0].sortingValue) {
      InsertKeeps(x, items[1..]);
      assert items == [items[0]] + items[1..];
    }
  }

  lemma PrependWorst(x: VisitItem, rest: seq<VisitItem>)
    requires WorstFirst(rest) && forall y :: y in multiset(rest) ==> x.sortingValue <= y.sortingValue
    ensures WorstFirst([x] + rest)
  {
    forall j | 0 <= j < |rest| ensures x.sortingValue <= rest[j].sortingValue {
      assert rest[j] in multiset(rest);
    }
  }

  lemma {:induction false} InsertSorted(x: VisitItem, items: seq<VisitItem>)
    requires WorstFirst(items)
    ensures WorstFirst(InsertItem(x, items))
  {
    if items != [] && !(x.sortingValue <= items[0].sortingValue) {
      InsertSorted(x, items[1..]);
      InsertKeeps(x, items[1..]);
      FirstIsWorst(items);
      PrependWorst(items[0], InsertItem(x, items[1..]));
    }
  }

  lemma FirstIsWorst(items: seq<VisitItem>)
    requires WorstFirst(items) && items != []
    ensures forall y :: y in multiset(items[1..]) ==> items[0].sortingValue <= y.sortingValue
  {
    forall y | y in multiset(items[1..]) ensures items[0].sortingValue <= y.sortingValue {
      assert y in items[1..];
    }
  }

  /** The list is sorted from worst to best and holds the same items. */
  lemma {:induction false} SortSorts(items: seq<VisitItem>)
    ensures WorstFirst(SortItems(items)) && multiset(SortItems(items)) == multiset(items)
  {
    hide WorstFirst, InsertItem;
    if items != [] {
      SortSorts(items[1..]);
      InsertSorted(items[0], SortItems(items[1..]));
      InsertKeeps(items[0], SortItems(items[1..]));
      assert items == [items[0]] + items[1..];
    } else {
      NothingSorted();
    }
  }

  lemma NothingSorted()
    ensures WorstFirst([])
  {
  }

  lemma LastIsBest(a: seq<VisitItem>, x: VisitItem)
    requires WorstFirst(a) && x in multiset(a)
    ensures x.sortingValue <= a[|a| - 1].sortingValue
  {
    assert x in a;
  }

  lemma SameLast(a: seq<VisitItem>, b: seq<VisitItem>)
    requires WorstFirst(a) && WorstFirst(b) && NoTies(a) && multiset(a) == multiset(b) && a != [] && b != []
    ensures a[|a| - 1] == b[|b| - 1]
  {
    assert a[|a| - 1] in multiset(a) && b[|b| - 1] in multiset(b);
    LastIsBest(a, b[|b| - 1]);
    LastIsBest(b, a[|a| - 1]);
    hide WorstFirst;
    assert b[|b| - 1] in a;
  }

  lemma WithoutLast(a: seq<VisitItem>)
    requires a != []
    ensures multiset(a[..|a| - 1]) == multiset(a) - multiset{a[|a| - 1]}
    ensures WorstFirst(a) ==> WorstFirst(a[..|a| - 1])
    ensures NoTies(a) ==> NoTies(a[..|a| - 1])
  {
    assert a == a[..|a| - 1] + [a[|a| - 1]];
  }

  /** Without ties there is only one such order. */
  lemma {:induction false} OneOrder(a: seq<VisitItem>, b: seq<VisitItem>)
    requires WorstFirst(a) && WorstFirst(b) && NoTies(a) && multiset(a) == multiset(b)
    ensures a == b
  {
    hide WorstFirst, NoTies;
    assert |a| == |multiset(a)| == |multiset(b)| == |b|;
    if a != [] {
      SameLast(a, b);
      WithoutLast(a);
      WithoutLast(b);
      OneOrder(a[..|a| - 1], b[..|b| - 1]);
      assert a == a[..|a| - 1] + [a[|a| - 1]] && b == b[..|b| - 1] + [b[|b| - 1]];
    }
  }

  /** c is the least cap put up by an item at least as good as x; the sentinel if that is lower. */
  ghost predicate LeastCap(p: Params, sorted: seq<VisitItem>, x: VisitItem, c: real) {
    && c <= UNBOUNDED
    && (forall j :: 0 <= j < |sorted| && x.sortingValue <= sorted[j].sortingValue ==>
          c <= MaxR(p.ewmaOf(sorted[..j + 1]), sorted[j].visits))
    && (c == UNBOUNDED
        || exists j :: 0 <= j < |sorted| && x.sortingValue <= sorted[j].sortingValue
                       && c == MaxR(p.ewmaOf(sorted[..j + 1]), sorted[j].visits))
  }

  lemma {:induction false} LowestFrom(p: Params, sorted: seq<VisitItem>, k: nat)
    requires k <= |sorted|
    ensures LowestCap(p, sorted, k) <= UNBOUNDED
    ensures forall j :: k <= j < |sorted| ==> LowestCap(p, sorted, k) <= MaxR(p.ewmaOf(sorted[..j + 1]), sorted[j].visits)
    ensures LowestCap(p, sorted, k) == UNBOUNDED
            || exists j :: k <= j < |sorted| && LowestCap(p, sorted, k) == MaxR(p.ewmaOf(sorted[..j + 1]), sorted[j].visits)
    decreases |sorted| - k
  {
    if k < |sorted| {
      LowestFrom(p, sorted, k + 1);
    }
  }

  /** Without ties an item's lowest cap is that of the items at least as good. */
  lemma LowestIsLeast(p: Params, sorted: seq<VisitItem>, k: nat)
    requires WorstFirst(sorted) && NoTies(sorted) && k < |sorted|
    ensures LeastCap(p, sorted, sorted[k], LowestCap(p, sorted, k))
  {
    hide LowestCap;
    LowestFrom(p, sorted, k);
  }

  lemma LeastCapUnique(p: Params, sorted: seq<VisitItem>, x: VisitItem, c: real, c': real)
    requires LeastCap(p, sorted, x, c) && LeastCap(p, sorted, x, c')
    ensures c == c'
  {
  }

  function CappedAt(p: Params, c: real, x: VisitItem): real { MinR(4.0 * c + p.visitsScale, x.visits) }

  function SumCappedAt(p: Params, cap: VisitItem -> real, items: seq<VisitItem>): real {
    if items == [] then 0.0 else CappedAt(p, cap(items[0]), items[0]) + SumCappedAt(p, cap, items[1..])
  }

  lemma {:induction false} InsertKeepsCapped(p: Params, cap: VisitItem -> real, x: VisitItem, items: seq<VisitItem>)
    ensures SumCappedAt(p, cap, InsertItem(x, items)) == CappedAt(p, cap(x), x) + SumCappedAt(p, cap, items)
  {
    hide CappedAt;
    if items == [] || x.sortingValue <= items[0].sortingValue {
      assert ([x] + items)[1..] == items;
    } else {
      InsertKeepsCapped(p, cap, x, items[1..]);
      assert InsertItem(x, items)[1..] == InsertItem(x, items[1..]);
    }
  }

  lemma {:induction false} SortKeepsCapped(p: Params, cap: VisitItem -> real, items: seq<VisitItem>)
    ensures SumCappedAt(p, cap, SortItems(items)) == SumCappedAt(p, cap, items)
  {
    hide CappedAt, InsertItem;
    if items != [] {
      SortKeepsCapped(p, cap, items[1..]);
      InsertKeepsCapped(p, cap, items[0], SortItems(items[1..]));
    }
  }

  lemma {:induction false} WalkIsSum(p: Params, cap: VisitItem -> real, sorted: seq<VisitItem>, k: nat)
    requires WorstFirst(sorted) && NoTies(sorted) && k <= |sorted|
    requires forall i :: 0 <= i < |sorted| ==> LeastCap(p, sorted, sorted[i], cap(sorted[i]))
    ensures CappedVisits(p, sorted, k) == SumCappedAt(p, cap, sorted[k..])
    decreases |sorted| - k
  {
    hide WorstFirst, NoTies, LeastCap, LowestCap;
    if k < |sorted| {
      WalkIsSum(p, cap, sorted, k + 1);
      LowestIsLeast(p, sorted, k);
      LeastCapUnique(p, sorted, sorted[k], cap(sorted[k]), LowestCap(p, sorted, k));
      assert sorted[k..][1..] == sorted[k + 1..];
    }
  }

  /** However the items are listed: if no two sort equal, each counts with its visits up to the least cap above it. */
  lemma AdjustedAreCapped(p: Params, items: seq<VisitItem>, sorted: seq<VisitItem>, cap: VisitItem -> real)
    requires WorstFirst(sorted) && NoTies(sorted) && multiset(sorted) == multiset(items)
    requires forall i :: 0 <= i < |sorted| ==> LeastCap(p, sorted, sorted[i], cap(sorted[i]))
    ensures CappedVisits(p, SortItems(items), 0) == SumCappedAt(p, cap, items)
  {
    hide LeastCap, CappedAt, WorstFirst, NoTies;
    SortSorts(items);
    OneOrder(sorted, SortItems(items));
    WalkIsSum(p, cap, sorted, 0);
    assert sorted[0..] == sorted;
    SortKeepsCapped(p, cap, items);
  }
}
