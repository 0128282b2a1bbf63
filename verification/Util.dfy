/** Small helpers shared by the book modules. */
module Util {

  datatype Option<T> = None | Some(value: T)

  function MaxR(a: real, b: real): real { if a < b then b else a }

  function MinR(a: real, b: real): real { if b < a then b else a }

  predicate LeastOf(s: set<int>, m: int) {
    m in s && forall x | x in s :: m <= x
  }

  lemma EmptyOrInhabited(s: set<int>)
    ensures s == {} || exists y: int :: y in s
  {
    if forall y: int :: y !in s {
      assert s == {};
    }
  }

  lemma {:induction false} LeastExists(s: set<int>)
    requires s != {}
    ensures exists m :: LeastOf(s, m)
  {
    EmptyOrInhabited(s);
    var y: int :| y in s;
    var rest := s - {y};
    if rest == {} {
      assert s == {y};
      assert LeastOf(s, y);
    } else {
      LeastExists(rest);
      var m :| LeastOf(rest, m);
      assert forall x :: x in s ==> x == y || x in rest;
      assert LeastOf(s, if y < m then y else m);
    }
  }

  function Least(s: set<int>): (m: int)
    requires s != {}
    ensures LeastOf(s, m)
  {
    LeastExists(s);
    var m :| LeastOf(s, m);
    m
  }

  predicate Increasing(r: seq<int>) {
    forall i, j :: 0 <= i < j < |r| ==> r[i] < r[j]
  }

  lemma PrependLeast(s: set<int>, m: int, rest: seq<int>)
    requires LeastOf(s, m) && Increasing(rest) && forall x :: x in s - {m} <==> x in rest
    ensures Increasing([m] + rest) && forall x :: x in s <==> x in [m] + rest
  {
    forall j | 0 <= j < |rest| ensures m < rest[j] {
      assert rest[j] in rest;
    }
    forall x | x in s ensures x in [m] + rest {
      if x != m {
        assert x in rest;
      }
    }
  }

  /** The elements of a set in increasing order: the order in which a std::map is iterated. */
  function Ascending(s: set<int>): (r: seq<int>)
    ensures |r| == |s| && Increasing(r)
    ensures forall x :: x in s <==> x in r
  {
    if s == {} then []
    else
      var m := Least(s);
      var rest := Ascending(s - {m});
      PrependLeast(s, m, rest);
      [m] + rest
  }

  lemma MultipleGrows(d: int, k: int)
    requires d > 0 && k >= 1
    ensures d * k >= d
  {
    assert d * k == d + d * (k - 1);
  }

  lemma SmallMultiple(d: int, k: int)
    requires -d < d * k < d
    ensures k == 0
  {
    MultipleGrows(d, if k >= 1 then k else if k <= -1 then -k else 1);
    assert d * -k == -(d * k);
  }

  lemma DivModUnique(n: int, d: int, q: int, r: int)
    requires 0 <= r < d && n == r + q * d
    ensures n / d == q && n % d == r
  {
    var m := n / d;
    assert n == d * m + n % d;
    assert d * (m - q) == d * m - q * d;
    SmallMultiple(d, m - q);
  }

  // ---------------------------------------------------------------------------------------------
  // Sequences and sets

  ghost predicate Distinct<X(!new)>(s: seq<X>) {
    forall i, j :: 0 <= i < j < |s| ==> s[i] != s[j]
  }

  function Reverse<X>(s: seq<X>): (r: seq<X>)
    ensures |r| == |s|
  {
    seq(|s|, i requires 0 <= i < |s| => s[|s| - 1 - i])
  }

  lemma {:induction false} ReverseBag<X>(s: seq<X>)
    ensures multiset(Reverse(s)) == multiset(s)
  {
    if s != [] {
      assert s == [s[0]] + s[1..];
      assert Reverse(s) == Reverse(s[1..]) + [s[0]];
      ReverseBag(s[1..]);
    }
  }

  lemma {:induction false} SubsetSize<X>(a: set<X>, b: set<X>)
    requires a <= b
    ensures |a| <= |b|
  {
    if a != {} {
      var x :| x in a;
      SubsetSize(a - {x}, b - {x});
    }
  }
}
