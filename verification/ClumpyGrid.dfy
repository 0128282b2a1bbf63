/** Cells, neighbours, and what it means for stones to be joined. */
module ClumpyGrid {
  import opened Util

  type Cell = (int, int)
  type Grid = map<Cell, int>

  /** The grid has a value at every cell of the board and nowhere else. */
  ghost predicate IsGrid(g: Grid, xsize: nat, ysize: nat) {
    forall c: Cell :: c in g <==> 0 <= c.0 < xsize && 0 <= c.1 < ysize
  }

  lemma SameCells(g: Grid, h: Grid, xsize: nat, ysize: nat)
    requires IsGrid(g, xsize, ysize) && IsGrid(h, xsize, ysize)
    ensures g.Keys == h.Keys
  {
  }

  lemma SetCell(g: Grid, xsize: nat, ysize: nat, c: Cell, v: int)
    requires IsGrid(g, xsize, ysize) && 0 <= c.0 < xsize && 0 <= c.1 < ysize
    ensures IsGrid(g[c := v], xsize, ysize) && c in g
  {
  }

  lemma OnBoardIn(g: Grid, xsize: nat, ysize: nat, c: Cell)
    requires IsGrid(g, xsize, ysize)
    ensures c in g <==> 0 <= c.0 < xsize && 0 <= c.1 < ysize
  {
  }

  predicate Adjacent(a: Cell, b: Cell) {
    (a.0 == b.0 && (a.1 == b.1 + 1 || b.1 == a.1 + 1)) || (a.1 == b.1 && (a.0 == b.0 + 1 || b.0 == a.0 + 1))
  }

  /** The neighbours of a cell, in the order left, right, up, down. */
  function Neighbours(c: Cell, xsize: nat, ysize: nat): (ns: seq<Cell>)
    requires 0 <= c.0 < xsize && 0 <= c.1 < ysize
    ensures forall n: Cell :: n in ns <==> Adjacent(c, n) && 0 <= n.0 < xsize && 0 <= n.1 < ysize
    ensures |ns| <= 4
  {
    (if c.0 > 0 then [(c.0 - 1, c.1)] else [])
    + (if c.0 < xsize - 1 then [(c.0 + 1, c.1)] else [])
    + (if c.1 > 0 then [(c.0, c.1 - 1)] else [])
    + (if c.1 < ysize - 1 then [(c.0, c.1 + 1)] else [])
  }

  lemma NeighbourCells(g: Grid, xsize: nat, ysize: nat, c: Cell)
    requires IsGrid(g, xsize, ysize) && 0 <= c.0 < xsize && 0 <= c.1 < ysize
    ensures var ns := Neighbours(c, xsize, ysize);
            (forall k :: 0 <= k < |ns| ==> ns[k] in g && Adjacent(c, ns[k]))
              && (forall d :: d in g && Adjacent(c, d) ==> d in ns)
  {
    var ns := Neighbours(c, xsize, ysize);
    hide Neighbours, Adjacent;
    forall k | 0 <= k < |ns| ensures ns[k] in g && Adjacent(c, ns[k]) {
      assert ns[k] in ns;
    }
  }

  // ---------------------------------------------------------------------------------------------
  // Joined stones

  /** A walk over neighbouring stones of one colour. */
  ghost predicate Path(stones: Grid, pla: int, p: seq<Cell>) {
    && p != []
    && (forall i :: 0 <= i < |p| ==> p[i] in stones && stones[p[i]] == pla)
    && forall i, j :: 0 <= i && j == i + 1 && j < |p| ==> Adjacent(p[i], p[j])
  }

  ghost predicate Joined(stones: Grid, pla: int, a: Cell, b: Cell) {
    exists p :: Path(stones, pla, p) && p[0] == a && p[|p| - 1] == b
  }

  lemma JoinedSelf(stones: Grid, pla: int, a: Cell)
    requires a in stones && stones[a] == pla
    ensures Joined(stones, pla, a, a)
  {
    assert Path(stones, pla, [a]);
  }

  lemma JoinedEnds(stones: Grid, pla: int, a: Cell, b: Cell)
    requires Joined(stones, pla, a, b)
    ensures a in stones && stones[a] == pla && b in stones && stones[b] == pla
  {
  }

  lemma JoinedStep(stones: Grid, pla: int, a: Cell, b: Cell, c: Cell)
    requires Joined(stones, pla, a, b) && Adjacent(b, c) && c in stones && stones[c] == pla
    ensures Joined(stones, pla, a, c)
  {
    var p :| Path(stones, pla, p) && p[0] == a && p[|p| - 1] == b;
    assert Path(stones, pla, p + [c]);
  }

  lemma JoinedSymmetric(stones: Grid, pla: int, a: Cell, b: Cell)
    requires Joined(stones, pla, a, b)
    ensures Joined(stones, pla, b, a)
  {
    var p :| Path(stones, pla, p) && p[0] == a && p[|p| - 1] == b;
    var r := Reverse(p);
    forall i, j | 0 <= i && j == i + 1 && j < |r| ensures Adjacent(r[i], r[j]) {
      assert Adjacent(p[|p| - 1 - j], p[|p| - 1 - i]);
    }
    assert Path(stones, pla, r);
  }

  lemma JoinedTransitive(stones: Grid, pla: int, a: Cell, b: Cell, c: Cell)
    requires Joined(stones, pla, a, b) && Joined(stones, pla, b, c)
    ensures Joined(stones, pla, a, c)
  {
    var p :| Path(stones, pla, p) && p[0] == a && p[|p| - 1] == b;
    var q :| Path(stones, pla, q) && q[0] == b && q[|q| - 1] == c;
    var r := p + q[1..];
    forall i, j | 0 <= i && j == i + 1 && j < |r| ensures Adjacent(r[i], r[j]) {
      if j < |p| {
        assert r[i] == p[i] && r[j] == p[j];
      } else {
        assert r[j] == q[j - |p| + 1] && r[i] == q[i - |p| + 1];
        assert Adjacent(q[i - |p| + 1], q[j - |p| + 1]);
      }
    }
    assert Path(stones, pla, r);
    assert r[|r| - 1] == c;
  }

  /** A set that contains a and, with each cell, its neighbours of the colour, contains all that is joined to a. */
  lemma {:induction false} ClosedContainsJoined(stones: Grid, pla: int, s: set<Cell>, p: seq<Cell>)
    requires Path(stones, pla, p) && p[0] in s
    requires forall c, d :: c in s && d in stones && Adjacent(c, d) && stones[d] == pla ==> d in s
    ensures p[|p| - 1] in s
  {
    if |p| > 1 {
      assert Path(stones, pla, p[..|p| - 1]);
      ClosedContainsJoined(stones, pla, s, p[..|p| - 1]);
      assert Adjacent(p[|p| - 2], p[|p| - 1]);
    }
  }

  // ---------------------------------------------------------------------------------------------
  // Taking one stone away

  /** All stones of its colour next to r are joined to one another once r is empty. */
  ghost predicate NeighboursStayJoined(stones: Grid, r: Cell)
    requires r in stones
  {
    forall a, b ::
      a in stones && b in stones && Adjacent(r, a) && Adjacent(r, b) && stones[a] == stones[r] && stones[b] == stones[r] ==>
      Joined(stones[r := 0], stones[r], a, b)
  }

  /** Any two other stones that were joined still are. */
  ghost predicate NoGroupSplits(stones: Grid, r: Cell)
    requires r in stones
  {
    forall pla, a, b :: pla != 0 && a != r && b != r && Joined(stones, pla, a, b) ==> Joined(stones[r := 0], pla, a, b)
  }

  lemma {:induction false} Reroute(stones: Grid, r: Cell, pla: int, p: seq<Cell>)
    requires r in stones && pla != 0 && NeighboursStayJoined(stones, r)
    requires Path(stones, pla, p) && p[0] != r && p[|p| - 1] != r
    ensures Joined(stones[r := 0], pla, p[0], p[|p| - 1])
    decreases |p|
  {
    var stones' := stones[r := 0];
    var b := p[|p| - 1];
    if |p| == 1 {
      JoinedSelf(stones', pla, b);
    } else {
      var c := p[|p| - 2];
      assert Adjacent(c, b);
      assert Path(stones, pla, p[..|p| - 1]);
      if c != r {
        Reroute(stones, r, pla, p[..|p| - 1]);
        JoinedStep(stones', pla, p[0], c, b);
      } else {
        var d := p[|p| - 3];
        assert Adjacent(p[|p| - 3], p[|p| - 2]);
        assert Path(stones, pla, p[..|p| - 2]);
        Reroute(stones, r, pla, p[..|p| - 2]);
        JoinedTransitive(stones', pla, p[0], d, b);
      }
    }
  }

  /** What the program looks for before removing a stone is exact: it finds it if and only if no group splits. */
  lemma RemovalIsSafeExactlyWhen(stones: Grid, r: Cell)
    requires r in stones && stones[r] != 0
    ensures NeighboursStayJoined(stones, r) <==> NoGroupSplits(stones, r)
  {
    if NeighboursStayJoined(stones, r) {
      forall pla, a, b | pla != 0 && a != r && b != r && Joined(stones, pla, a, b) ensures Joined(stones[r := 0], pla, a, b) {
        var p :| Path(stones, pla, p) && p[0] == a && p[|p| - 1] == b;
        Reroute(stones, r, pla, p);
      }
    }
    if NoGroupSplits(stones, r) {
      forall a, b | a in stones && b in stones && Adjacent(r, a) && Adjacent(r, b) && stones[a] == stones[r]
        && stones[b] == stones[r]
        ensures Joined(stones[r := 0], stones[r], a, b)
      {
        var p := [a, r, b];
        assert Path(stones, stones[r], p) && p[0] == a && p[|p| - 1] == b;
        assert Joined(stones, stones[r], a, b);
      }
    }
  }

  /** Putting an opponent stone there instead splits nothing either. */
  lemma ReplacingSplitsNothing(stones: Grid, r: Cell, v: int)
    requires r in stones && stones[r] != 0 && v != stones[r] && NeighboursStayJoined(stones, r)
    ensures forall pla, a, b :: pla != 0 && a != r && b != r && Joined(stones, pla, a, b) ==>
      Joined(stones[r := v], pla, a, b)
  {
    RemovalIsSafeExactlyWhen(stones, r);
    forall pla, a, b | pla != 0 && a != r && b != r && Joined(stones, pla, a, b) ensures Joined(stones[r := v], pla, a, b) {
      var p :| Path(stones[r := 0], pla, p) && p[0] == a && p[|p| - 1] == b;
      assert Path(stones[r := v], pla, p);
    }
  }
}
