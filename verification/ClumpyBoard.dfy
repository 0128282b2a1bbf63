/** Labelling, growing and shrinking the regions of a generated board, in place. */
module ClumpyBoard {
  import opened ClumpyGrid
  import opened ClumpyLabels
  import Util

  class Position {
    const xsize: nat
    const ysize: nat
    var stones: Grid        // 0 empty, 1 and 2 the players
    var owned: Grid
    var ownedLabels: Grid
    var infoByLabel: Infos

    constructor (xsize: nat, ysize: nat, stones: Grid, owned: Grid)
      requires IsGrid(stones, xsize, ysize) && IsGrid(owned, xsize, ysize)
      ensures Valid() && this.xsize == xsize && this.ysize == ysize && this.stones == stones && this.owned == owned
      ensures PartLabelled(owned, ownedLabels, infoByLabel, 1)
    {
      this.xsize, this.ysize, this.stones, this.owned := xsize, ysize, stones, owned;
      ownedLabels := map c | c in owned :: 0;
      infoByLabel := map[];
    }

    ghost predicate Valid()
      reads this
    {
      IsGrid(stones, xsize, ysize) && IsGrid(owned, xsize, ysize) && IsGrid(ownedLabels, xsize, ysize)
    }

    predicate OnBoard(c: Cell) { 0 <= c.0 < xsize && 0 <= c.1 < ysize }

    // -------------------------------------------------------------------------------------------
    // Labels

    /** Give the label to this cell and on to its neighbours. */
    method LabelOwnedRegion(tag: int, pla: int, x: int, y: int)
      requires Valid() && OnBoard((x, y)) && tag != 0 && pla != 0 && tag in infoByLabel && infoByLabel[tag].pla == pla
      requires LabelsMatch(owned, ownedLabels, infoByLabel) && SizesMatch(ownedLabels, infoByLabel)
      modifies `ownedLabels, `infoByLabel
      ensures Valid() && LabelsMatch(owned, ownedLabels, infoByLabel) && SizesMatch(ownedLabels, infoByLabel)
      ensures infoByLabel.Keys == old(infoByLabel.Keys) && tag in infoByLabel && infoByLabel[tag].pla == pla
      ensures Spread(owned, old(ownedLabels), ownedLabels, pla, tag)
      ensures owned[(x, y)] == pla ==> ownedLabels[(x, y)] != 0
      decreases Count(ownedLabels, 0), 0
    {
      hide LabelsMatch, SizesMatch, Spread, Count;
      var c := (x, y);
      SpreadNothing(owned, ownedLabels, pla, tag);
      if ownedLabels[c] == 0 && owned[c] == pla {
        LabelCell(owned, ownedLabels, infoByLabel, c, tag, infoByLabel[tag].hasEye || stones[c] == 0);
        var info := infoByLabel[tag];
        infoByLabel := infoByLabel[tag := GroupInfo(info.pla, info.size + 1, info.hasEye || stones[c] == 0)];
        ownedLabels := ownedLabels[c := tag];
        ghost var labelled := ownedLabels;
        LabelNeighbours(tag, pla, x, y);
        SpreadKeeps(owned, labelled, ownedLabels, pla, tag, c);
        SpreadFromCell(owned, old(ownedLabels), c, ownedLabels, pla, tag);
      }
    }

    method LabelNeighbours(tag: int, pla: int, x: int, y: int)
      requires Valid() && OnBoard((x, y)) && tag != 0 && pla != 0 && tag in infoByLabel && infoByLabel[tag].pla == pla
      requires LabelsMatch(owned, ownedLabels, infoByLabel) && SizesMatch(ownedLabels, infoByLabel)
      modifies `ownedLabels, `infoByLabel
      ensures Valid() && LabelsMatch(owned, ownedLabels, infoByLabel) && SizesMatch(ownedLabels, infoByLabel)
      ensures infoByLabel.Keys == old(infoByLabel.Keys) && tag in infoByLabel && infoByLabel[tag].pla == pla
      ensures Spread(owned, old(ownedLabels), ownedLabels, pla, tag)
      ensures forall d :: d in owned && Adjacent((x, y), d) && owned[d] == pla ==> ownedLabels[d] != 0
      decreases Count(ownedLabels, 0), 1
    {
      hide LabelsMatch, SizesMatch, Count, Spread, IsGrid, Adjacent, Neighbours;
      SameCells(owned, ownedLabels, xsize, ysize);
      SpreadNothing(owned, ownedLabels, pla, tag);
      ghost var l0 := ownedLabels;
      var ns := Neighbours((x, y), xsize, ysize);
      for i := 0 to |ns|
        invariant Valid() && LabelsMatch(owned, ownedLabels, infoByLabel) && SizesMatch(ownedLabels, infoByLabel)
        invariant infoByLabel.Keys == old(infoByLabel.Keys) && tag in infoByLabel && infoByLabel[tag].pla == pla
        invariant Spread(owned, l0, ownedLabels, pla, tag) && ownedLabels.Keys == owned.Keys
        invariant forall k :: 0 <= k < i && ns[k] in owned && owned[ns[k]] == pla ==> ownedLabels[ns[k]] != 0
      {
        ghost var l1 := ownedLabels;
        SpreadShrinksUnlabelled(owned, l0, l1, pla, tag);
        assert ns[i] in ns;
        LabelOwnedRegion(tag, pla, ns[i].0, ns[i].1);
        SpreadTwice(owned, l0, l1, ownedLabels, pla, tag);
        SameCells(owned, ownedLabels, xsize, ysize);
        forall k | 0 <= k < i && ns[k] in owned && owned[ns[k]] == pla ensures ownedLabels[ns[k]] != 0 {
          SpreadKeeps(owned, l1, ownedLabels, pla, tag, ns[k]);
        }
      }
      forall d | d in owned && Adjacent((x, y), d) && owned[d] == pla ensures ownedLabels[d] != 0 {
        OnBoardIn(owned, xsize, ysize, d);
        assert d in ns;
        var k :| 0 <= k < |ns| && ns[k] == d;
      }
    }

    method LabelAllRegions()
      requires Valid() && PartLabelled(owned, ownedLabels, infoByLabel, 1)
      modifies `ownedLabels, `infoByLabel
      ensures Valid() && LabelsOk(owned, ownedLabels, infoByLabel)
    {
      hide PartLabelled, LabelsOk;
      var nextOwnedLabel := 1;
      for y := 0 to ysize
        invariant Valid() && PartLabelled(owned, ownedLabels, infoByLabel, nextOwnedLabel)
        invariant forall c: Cell :: OnBoard(c) && c.1 < y && owned[c] != 0 ==> ownedLabels[c] != 0
      {
        for x := 0 to xsize
          invariant Valid() && PartLabelled(owned, ownedLabels, infoByLabel, nextOwnedLabel)
          invariant forall c: Cell :: OnBoard(c) && (c.1 < y || (c.1 == y && c.0 < x)) && owned[c] != 0 ==>
            ownedLabels[c] != 0
        {
          if ownedLabels[(x, y)] == 0 && owned[(x, y)] != 0 {
            LabelOneRegion(nextOwnedLabel, x, y);
            nextOwnedLabel := nextOwnedLabel + 1;
          }
        }
      }
      ClosedAndLabelledIsOk(owned, ownedLabels, infoByLabel, nextOwnedLabel);
    }

    method LabelOneRegion(next: int, x: int, y: int)
      requires Valid() && OnBoard((x, y)) && owned[(x, y)] != 0 && PartLabelled(owned, ownedLabels, infoByLabel, next)
      modifies `ownedLabels, `infoByLabel
      ensures Valid() && PartLabelled(owned, ownedLabels, infoByLabel, next + 1)
      ensures ownedLabels[(x, y)] != 0 && forall c :: c in owned && old(ownedLabels[c]) != 0 ==> ownedLabels[c] != 0
    {
      var pla := owned[(x, y)];
      FreshTag(owned, ownedLabels, infoByLabel, next, pla);
      infoByLabel := infoByLabel[next := GroupInfo(pla, 0, false)];
      LabelOwnedRegion(next, pla, x, y);
      RegionDone(owned, old(ownedLabels), ownedLabels, pla, next);
    }

    /** Merge the second label into the first. */
    method Merge(label1: int, label2: int)
      requires Valid() && LabelsOk(owned, ownedLabels, infoByLabel)
      requires label1 in infoByLabel && label2 in infoByLabel && label1 != label2
        && infoByLabel[label1].pla == infoByLabel[label2].pla
      modifies `ownedLabels, `infoByLabel
      ensures Valid() && LabelsOk(owned, ownedLabels, infoByLabel)
      ensures ownedLabels == Renamed(old(ownedLabels), label2, label1)
    {
      hide LabelsOk, Renamed, MergedInfo, RenamedUpTo;
      ghost var before := ownedLabels;
      MergeKeepsLabelsOk(owned, before, infoByLabel, label1, label2);
      infoByLabel := MergedInfo(infoByLabel, label1, label2);
      ghost var merged := infoByLabel;
      RenamedNone(before, xsize, ysize, label2, label1);
      for y := 0 to ysize
        invariant Valid() && infoByLabel == merged && ownedLabels == RenamedUpTo(before, label2, label1, 0, y)
      {
        for x := 0 to xsize
          invariant Valid() && infoByLabel == merged && ownedLabels == RenamedUpTo(before, label2, label1, x, y)
        {
          RenamedNext(before, xsize, ysize, label2, label1, x, y);
          if ownedLabels[(x, y)] == label2 {
            ownedLabels := ownedLabels[(x, y) := label1];
          }
        }
        RenamedRow(before, xsize, ysize, label2, label1, y);
      }
      RenamedAll(before, xsize, ysize, label2, label1);
    }

    // -------------------------------------------------------------------------------------------
    // Growing

    function AdjacentLabels(c: Cell, pla: int): set<int>
      requires Valid() && OnBoard(c)
      reads this
    {
      var ns := Neighbours(c, xsize, ysize);
      set i | 0 <= i < |ns| && owned[ns[i]] == pla :: ownedLabels[ns[i]]
    }

    /** A diagonal cell, seen past at least one unowned cell. */
    predicate DiagReachable(c: Cell, d: Cell)
      requires Valid() && OnBoard(c)
      reads this
    {
      && OnBoard(d) && (d.0 == c.0 - 1 || d.0 == c.0 + 1) && (d.1 == c.1 - 1 || d.1 == c.1 + 1)
      && (owned[(d.0, c.1)] == 0 || owned[(c.0, d.1)] == 0)
    }

    function DiagLabel(c: Cell, d: Cell, pla: int): set<int>
      requires Valid() && OnBoard(c)
      reads this
    {
      if DiagReachable(c, d) && owned[d] == pla then {ownedLabels[d]} else {}
    }

    function BlockerLabels(c: Cell, pla: int): set<int>
      requires Valid() && OnBoard(c)
      reads this
    {
      DiagLabel(c, (c.0 - 1, c.1 - 1), pla) + DiagLabel(c, (c.0 - 1, c.1 + 1), pla)
      + DiagLabel(c, (c.0 + 1, c.1 - 1), pla) + DiagLabel(c, (c.0 + 1, c.1 + 1), pla) - AdjacentLabels(c, pla)
    }

    /** An unowned cell between two opponent cells and one of the player that has another label. */
    predicate IsCrossroads(c: Cell, pla: int, tag: int)
      requires Valid() && OnBoard(c)
      reads this
    {
      var ns := Neighbours(c, xsize, ysize);
      && owned[c] == 0
      && |set i | 0 <= i < |ns| && owned[ns[i]] == pla && ownedLabels[ns[i]] != tag :: i| == 1
      && |set i | 0 <= i < |ns| && owned[ns[i]] == 3 - pla && !(owned[ns[i]] == pla && ownedLabels[ns[i]] != tag) :: i| == 2
    }

    /** The region of the player can take this cell. */
    predicate CanGrow(c: Cell, pla: int, allowDiagBlocker: bool)
      requires Valid() && OnBoard(c)
      reads this
    {
      var ns := Neighbours(c, xsize, ysize);
      && owned[c] == 0 && |AdjacentLabels(c, pla)| == 1 && (allowDiagBlocker || |BlockerLabels(c, pla)| == 0)
      && forall tag :: tag in AdjacentLabels(c, pla) ==> forall i :: 0 <= i < |ns| ==> !IsCrossroads(ns[i], pla, tag)
    }

    method TheLabel(c: Cell, pla: int) returns (tag: int)
      requires Valid() && OnBoard(c) && |AdjacentLabels(c, pla)| == 1
      ensures AdjacentLabels(c, pla) == {tag}
    {
      var labels := AdjacentLabels(c, pla);
      hide AdjacentLabels;
      assert labels != {};
      Util.EmptyOrInhabited(labels);
      tag :| tag in labels;
      Singleton(labels, tag);
    }

    /** The scan, row by row, has passed this cell. */
    static predicate Passed(c: Cell, x: int, y: int) {
      c.1 < y || (c.1 == y && c.0 < x)
    }

    /**
     Let one region of the player grow by one cell, if any can. Whichever cell is drawn, it takes the
     label of the one region it touches, and labels and sizes stay right.
     */
    method Grow(pla: int, allowDiagBlocker: bool)
      requires Valid() && LabelsOk(owned, ownedLabels, infoByLabel) && (pla == 1 || pla == 2)
      modifies `stones, `owned, `ownedLabels, `infoByLabel
      ensures Valid() && LabelsOk(owned, ownedLabels, infoByLabel)
      ensures (forall c :: OnBoard(c) ==> !old(CanGrow(c, pla, allowDiagBlocker))) ==>
        stones == old(stones) && owned == old(owned) && ownedLabels == old(ownedLabels) && infoByLabel == old(infoByLabel)
      ensures (exists c :: OnBoard(c) && old(CanGrow(c, pla, allowDiagBlocker))) ==>
        exists c, tag :: OnBoard(c) && old(CanGrow(c, pla, allowDiagBlocker)) && old(AdjacentLabels(c, pla)) == {tag}
          && tag in old(infoByLabel)
          && owned == old(owned)[c := pla] && stones == old(stones)[c := pla] && ownedLabels == old(ownedLabels)[c := tag]
          && infoByLabel == old(infoByLabel)[tag := old(infoByLabel)[tag].(size := old(infoByLabel)[tag].size + 1)]
    {
      hide LabelsOk, CanGrow, Neighbours, AdjacentLabels;
      var growspots: seq<Cell> := [];
      for y := 0 to ysize
        invariant forall k :: 0 <= k < |growspots| ==> OnBoard(growspots[k]) && CanGrow(growspots[k], pla, allowDiagBlocker)
        invariant growspots == [] ==> forall c :: OnBoard(c) && Passed(c, 0, y) ==> !CanGrow(c, pla, allowDiagBlocker)
      {
        for x := 0 to xsize
          invariant forall k :: 0 <= k < |growspots| ==> OnBoard(growspots[k]) && CanGrow(growspots[k], pla, allowDiagBlocker)
          invariant growspots == [] ==> forall c :: OnBoard(c) && Passed(c, x, y) ==> !CanGrow(c, pla, allowDiagBlocker)
        {
          if CanGrow((x, y), pla, allowDiagBlocker) {
            growspots := growspots + [(x, y)];
          }
        }
      }
      if |growspots| > 0 {
        var k :| 0 <= k < |growspots|;
        ghost var tag := GrowAt(growspots[k], pla, allowDiagBlocker);
      }
    }

    method GrowAt(c: Cell, pla: int, ghost allowDiagBlocker: bool) returns (ghost tag: int)
      requires Valid() && LabelsOk(owned, ownedLabels, infoByLabel) && (pla == 1 || pla == 2)
      requires OnBoard(c) && CanGrow(c, pla, allowDiagBlocker)
      modifies `stones, `owned, `ownedLabels, `infoByLabel
      ensures Valid() && LabelsOk(owned, ownedLabels, infoByLabel)
      ensures old(AdjacentLabels(c, pla)) == {tag} && tag in old(infoByLabel)
      ensures owned == old(owned)[c := pla] && stones == old(stones)[c := pla]
      ensures ownedLabels == old(ownedLabels)[c := tag]
      ensures infoByLabel == old(infoByLabel)[tag := old(infoByLabel)[tag].(size := old(infoByLabel)[tag].size + 1)]
    {
      hide LabelsOk, IsGrid, AdjacentLabels, BlockerLabels, IsCrossroads, Neighbours, Adjacent;
      var theLabel := TheLabel(c, pla);
      tag := theLabel;
      SetCell(owned, xsize, ysize, c, pla);
      SetCell(ownedLabels, xsize, ysize, c, theLabel);
      SetCell(stones, xsize, ysize, c, pla);
      OneLabelAround(c, pla, tag);
      GrowKeepsLabelsOk(owned, ownedLabels, infoByLabel, c, pla, tag);
      owned := owned[c := pla];
      ownedLabels := ownedLabels[c := theLabel];
      stones := stones[c := pla];
      infoByLabel := infoByLabel[theLabel := infoByLabel[theLabel].(size := infoByLabel[theLabel].size + 1)];
    }

    lemma OneLabelAround(c: Cell, pla: int, tag: int)
      requires Valid() && LabelsOk(owned, ownedLabels, infoByLabel) && OnBoard(c) && pla != 0
        && AdjacentLabels(c, pla) == {tag}
      ensures tag in infoByLabel && infoByLabel[tag].pla == pla
      ensures forall d :: d in owned && Adjacent(c, d) && owned[d] == pla ==> ownedLabels[d] == tag
    {
      hide Neighbours, IsGrid, SizesMatch, RegionsAgree, Adjacent;
      NeighbourCells(owned, xsize, ysize, c);
      SameCells(owned, ownedLabels, xsize, ysize);
      var ns := Neighbours(c, xsize, ysize);
      forall d | d in owned && Adjacent(c, d) && owned[d] == pla ensures ownedLabels[d] == tag {
        assert d in ns;
        var i :| 0 <= i < |ns| && ns[i] == d;
        assert ownedLabels[ns[i]] in AdjacentLabels(c, pla);
      }
      assert tag in AdjacentLabels(c, pla);
      var i :| 0 <= i < |ns| && owned[ns[i]] == pla && ownedLabels[ns[i]] == tag;
      assert ns[i] in ns;
    }

    // -------------------------------------------------------------------------------------------
    // Shrinking

    /** Everything joined to the start, by a queue of cells still to look at. */
    method FloodFill(start: Cell, pla: int) returns (floodfill: set<Cell>)
      requires Valid() && OnBoard(start) && stones[start] == pla
      ensures forall d :: d in floodfill <==> Joined(stones, pla, start, d)
    {
      hide Joined, IsGrid, Neighbours, Adjacent, NeighboursQueued;
      floodfill := {};
      OnBoardIn(stones, xsize, ysize, start);
      JoinedSelf(stones, pla, start);
      var queue, idx := [start], 0;
      NothingFilled(queue, pla);
      while idx < |queue|
        invariant idx <= |queue| && queue != [] && queue[0] == start && floodfill <= stones.Keys
        invariant Queued(queue, start, pla)
        invariant forall k :: 0 <= k < idx ==> queue[k] in floodfill
        invariant forall c :: c in floodfill ==> Joined(stones, pla, start, c)
        invariant NeighboursQueued(floodfill, queue, pla)
        decreases |stones.Keys - floodfill|, |queue| - idx
      {
        var cell := queue[idx];
        idx := idx + 1;
        if cell !in floodfill {
          OnBoardIn(stones, xsize, ysize, cell);
          FewerUnfilled(floodfill, cell);
          var longer := QueueNeighbours(queue, start, cell, pla);
          MoreQueued(floodfill, queue, longer, cell, pla);
          queue := longer;
          floodfill := floodfill + {cell};
        }
      }
      forall d | Joined(stones, pla, start, d) ensures d in floodfill {
        FilledAll(floodfill, queue, start, d, pla);
      }
    }

    /** All that is queued is joined to the start. */
    ghost predicate Queued(queue: seq<Cell>, start: Cell, pla: int)
      reads this
    {
      forall k :: 0 <= k < |queue| ==> OnBoard(queue[k]) && Joined(stones, pla, start, queue[k])
    }

    /** The neighbours of filled cells have been queued. */
    ghost predicate NeighboursQueued(floodfill: set<Cell>, queue: seq<Cell>, pla: int)
      reads this
    {
      forall c, d :: c in floodfill && d in stones && Adjacent(c, d) && stones[d] == pla ==> d in queue
    }

    lemma NothingFilled(queue: seq<Cell>, pla: int)
      ensures NeighboursQueued({}, queue, pla)
    {
    }

    lemma MoreQueued(floodfill: set<Cell>, queue: seq<Cell>, longer: seq<Cell>, cell: Cell, pla: int)
      requires NeighboursQueued(floodfill, queue, pla) && queue <= longer
      requires forall d :: d in stones && Adjacent(cell, d) && stones[d] == pla ==> d in longer
      ensures NeighboursQueued(floodfill + {cell}, longer, pla)
    {
      forall c, d | c in floodfill + {cell} && d in stones && Adjacent(c, d) && stones[d] == pla ensures d in longer {
        if c != cell {
          assert d in queue;
        }
      }
    }

    lemma FewerUnfilled(floodfill: set<Cell>, cell: Cell)
      requires cell in stones && cell !in floodfill
      ensures |stones.Keys - (floodfill + {cell})| < |stones.Keys - floodfill|
    {
      assert stones.Keys - (floodfill + {cell}) == stones.Keys - floodfill - {cell};
    }

    lemma FilledAll(floodfill: set<Cell>, queue: seq<Cell>, start: Cell, d: Cell, pla: int)
      requires queue != [] && queue[0] == start && Joined(stones, pla, start, d)
      requires (forall k :: 0 <= k < |queue| ==> queue[k] in floodfill) && NeighboursQueued(floodfill, queue, pla)
      ensures d in floodfill
    {
      var p :| Path(stones, pla, p) && p[0] == start && p[|p| - 1] == d;
      ClosedContainsJoined(stones, pla, floodfill, p);
    }

    /** Append the cell's neighbours of the colour. */
    method QueueNeighbours(queue0: seq<Cell>, ghost start: Cell, cell: Cell, pla: int) returns (queue: seq<Cell>)
      requires Valid() && OnBoard(cell) && Joined(stones, pla, start, cell)
      requires Queued(queue0, start, pla)
      ensures queue0 <= queue && Queued(queue, start, pla)
      ensures forall d :: d in stones && Adjacent(cell, d) && stones[d] == pla ==> d in queue
    {
      hide Joined, IsGrid, Adjacent, Neighbours;
      queue := queue0;
      var ns := Neighbours(cell, xsize, ysize);
      for i := 0 to |ns|
        invariant queue0 <= queue
        invariant forall k :: 0 <= k < |queue| ==> OnBoard(queue[k]) && Joined(stones, pla, start, queue[k])
        invariant forall k :: 0 <= k < i && ns[k] in stones && stones[ns[k]] == pla ==> ns[k] in queue
      {
        assert ns[i] in ns;
        OnBoardIn(stones, xsize, ysize, ns[i]);
        if stones[ns[i]] == pla {
          JoinedStep(stones, pla, start, cell, ns[i]);
          queue := queue + [ns[i]];
        }
      }
      forall d | d in stones && Adjacent(cell, d) && stones[d] == pla ensures d in queue {
        OnBoardIn(stones, xsize, ysize, d);
        assert d in ns;
        var k :| 0 <= k < |ns| && ns[k] == d;
      }
    }

    /**
     Try the removal on the board and undo it: are all neighbours of the stone's colour joined to the
     first of them without the stone?
     */
    method CanRemove(c: Cell) returns (allow: bool)
      requires Valid() && OnBoard(c) && c in stones && stones[c] != 0
      modifies `stones
      ensures Valid() && stones == old(stones)
      ensures allow <==> NeighboursStayJoined(stones, c)
    {
      hide IsGrid, Adjacent, Joined, Neighbours;
      ghost var before := stones;
      var pla := stones[c];
      SetCell(stones, xsize, ysize, c, 0);
      NeighbourCells(stones, xsize, ysize, c);
      NotItsOwn(c);
      stones := stones[c := 0];
      var ns := Neighbours(c, xsize, ysize);
      var first := FirstOfColour(ns, pla);
      if first < |ns| {
        var floodfill := FloodFill(ns[first], pla);
        allow := forall k :: 0 <= k < |ns| && ns[k] in stones && stones[ns[k]] == pla ==> ns[k] in floodfill;
        if allow {
          AllInFlood(before, c, ns, first, floodfill);
        } else {
          var k :| 0 <= k < |ns| && ns[k] in stones && stones[ns[k]] == pla && ns[k] !in floodfill;
          assert ns[k] in ns && ns[first] in ns;
          StrandedNeighbour(before, c, ns[first], ns[k]);
        }
      } else {
        allow := true;
        NoNeighbours(before, c, ns);
      }
      SetCell(stones, xsize, ysize, c, pla);
      stones := stones[c := pla];
      assert stones == before;
    }

    method FirstOfColour(ns: seq<Cell>, pla: int) returns (first: nat)
      requires Valid() && forall k :: 0 <= k < |ns| ==> ns[k] in stones
      ensures first <= |ns| && (first < |ns| ==> stones[ns[first]] == pla)
      ensures forall k :: 0 <= k < first ==> stones[ns[k]] != pla
    {
      first := 0;
      while first < |ns| && stones[ns[first]] != pla
        invariant first <= |ns| && forall k :: 0 <= k < first ==> stones[ns[k]] != pla
      {
        first := first + 1;
      }
    }

    /** The cell holds a stone next to one region of its player and one of the opponent. */
    predicate Shrinkable(c: Cell, allowFarShrink: bool, replaceWithOpp: bool)
      requires Valid() && OnBoard(c)
      reads this
    {
      var ns := Neighbours(c, xsize, ysize);
      var pla := stones[c];
      && pla != 0
      && |set i | 0 <= i < |ns| && owned[ns[i]] == pla :: ownedLabels[ns[i]]| == 1
      && |OppLabels(c, allowFarShrink)| == 1
      && (replaceWithOpp ==>
            |set i | 0 <= i < |ns| && owned[ns[i]] == 3 - pla && (allowFarShrink || stones[ns[i]] == 3 - pla) :: i| == 1)
    }

    function OppLabels(c: Cell, allowFarShrink: bool): set<int>
      requires Valid() && OnBoard(c)
      reads this
    {
      var ns := Neighbours(c, xsize, ysize);
      var opp := 3 - stones[c];
      set i | 0 <= i < |ns| && owned[ns[i]] == opp && (allowFarShrink || stones[ns[i]] == opp) :: ownedLabels[ns[i]]
    }

    /** Is this a cell that shrinking may choose? The board is tried without the stone and restored. */
    method MayShrink(c: Cell, allowFarShrink: bool, allowDisconnect: bool, replaceWithOpp: bool) returns (allow: bool)
      requires Valid() && OnBoard(c)
      modifies `stones
      ensures Valid() && stones == old(stones)
      ensures (allow <==> Candidate(c, allowFarShrink, allowDisconnect, replaceWithOpp))
    {
      hide Joined, NeighboursStayJoined, Shrinkable, IsGrid, OppLabels;
      allow := Shrinkable(c, allowFarShrink, replaceWithOpp);
      if allow {
        HoldsStone(c, allowFarShrink, replaceWithOpp);
        if !allowDisconnect {
          allow := CanRemove(c);
        }
      }
    }

    /**
     Take one stone away, or turn it over, if any stone may go. Unless disconnecting is allowed, all
     stones that were joined and are still there stay joined.
     */
    method Shrink(allowFarShrink: bool, allowDisconnect: bool, replaceWithOpp: bool)
      requires Valid()
      requires forall c :: c in stones ==> stones[c] == 0 || stones[c] == 1 || stones[c] == 2
      modifies `stones, `owned, `ownedLabels
      ensures Valid()
      ensures (forall c :: OnBoard(c) ==> !old(Candidate(c, allowFarShrink, allowDisconnect, replaceWithOpp))) ==>
        stones == old(stones) && owned == old(owned) && ownedLabels == old(ownedLabels)
      ensures (exists c :: OnBoard(c) && old(Candidate(c, allowFarShrink, allowDisconnect, replaceWithOpp))) ==>
        exists c :: OnBoard(c) && old(Candidate(c, allowFarShrink, allowDisconnect, replaceWithOpp)) && c in old(stones)
          && if replaceWithOpp then TurnedOver(c, old(stones), old(owned), old(ownedLabels), old(OppLabels(c, allowFarShrink)))
             else stones == old(stones)[c := 0] && owned == old(owned) && ownedLabels == old(ownedLabels)
      ensures !allowDisconnect ==> KeepsJoined(old(stones), stones)
    {
      hide Joined, KeepsJoined, NeighboursStayJoined, Shrinkable, IsGrid, OppLabels;
      var shrinkables: seq<Cell> := [];
      for y := 0 to ysize
        invariant Valid() && stones == old(stones) && owned == old(owned) && ownedLabels == old(ownedLabels)
        invariant Candidates(shrinkables, allowFarShrink, allowDisconnect, replaceWithOpp)
        invariant shrinkables == [] ==> NoCandidate(0, y, allowFarShrink, allowDisconnect, replaceWithOpp)
      {
        for x := 0 to xsize
          invariant Valid() && stones == old(stones) && owned == old(owned) && ownedLabels == old(ownedLabels)
          invariant Candidates(shrinkables, allowFarShrink, allowDisconnect, replaceWithOpp)
          invariant shrinkables == [] ==> NoCandidate(x, y, allowFarShrink, allowDisconnect, replaceWithOpp)
        {
          var allow := MayShrink((x, y), allowFarShrink, allowDisconnect, replaceWithOpp);
          if allow {
            shrinkables := shrinkables + [(x, y)];
          }
        }
      }
      AllStayJoined(stones);
      if |shrinkables| > 0 {
        var k :| 0 <= k < |shrinkables|;
        ShrinkAt(shrinkables[k], allowFarShrink, allowDisconnect, replaceWithOpp);
      }
    }

    lemma HoldsStone(c: Cell, allowFarShrink: bool, replaceWithOpp: bool)
      requires Valid() && OnBoard(c) && Shrinkable(c, allowFarShrink, replaceWithOpp)
      ensures c in stones && stones[c] != 0 && |OppLabels(c, allowFarShrink)| == 1
    {
    }

    ghost predicate Candidate(c: Cell, allowFarShrink: bool, allowDisconnect: bool, replaceWithOpp: bool)
      requires Valid()
      reads this
    {
      OnBoard(c) && Shrinkable(c, allowFarShrink, replaceWithOpp) && stones[c] != 0
        && (allowDisconnect || NeighboursStayJoined(stones, c))
    }

    ghost predicate Candidates(cs: seq<Cell>, allowFarShrink: bool, allowDisconnect: bool, replaceWithOpp: bool)
      requires Valid()
      reads this
    {
      forall k :: 0 <= k < |cs| ==> Candidate(cs[k], allowFarShrink, allowDisconnect, replaceWithOpp)
    }

    ghost predicate NoCandidate(x: int, y: int, allowFarShrink: bool, allowDisconnect: bool, replaceWithOpp: bool)
      requires Valid()
      reads this
    {
      forall c :: OnBoard(c) && Passed(c, x, y) ==> !Candidate(c, allowFarShrink, allowDisconnect, replaceWithOpp)
    }

    /** The stone at c changed sides, and its cell went to the neighbouring opponent region. */
    ghost predicate TurnedOver(c: Cell, stones0: Grid, owned0: Grid, labels0: Grid, oppLabels: set<int>)
      reads this
    {
      && c in stones0 && stones == stones0[c := 3 - stones0[c]] && owned == owned0[c := 3 - stones0[c]]
      && exists tag :: oppLabels == {tag} && ownedLabels == labels0[c := tag]
    }

    method ShrinkAt(c: Cell, allowFarShrink: bool, ghost allowDisconnect: bool, replaceWithOpp: bool)
      requires Valid() && Candidate(c, allowFarShrink, allowDisconnect, replaceWithOpp)
      requires forall c :: c in stones ==> stones[c] == 0 || stones[c] == 1 || stones[c] == 2
      modifies `stones, `owned, `ownedLabels
      ensures Valid() && c in old(stones)
      ensures if replaceWithOpp then TurnedOver(c, old(stones), old(owned), old(ownedLabels), old(OppLabels(c, allowFarShrink)))
              else stones == old(stones)[c := 0] && owned == old(owned) && ownedLabels == old(ownedLabels)
      ensures !allowDisconnect ==> KeepsJoined(old(stones), stones)
    {
      hide Joined, KeepsJoined, NeighboursStayJoined, Shrinkable, IsGrid, OppLabels, Neighbours;
      HoldsStone(c, allowFarShrink, replaceWithOpp);
      var pla := stones[c];
      SetCell(stones, xsize, ysize, c, 3 - pla);
      SetCell(stones, xsize, ysize, c, 0);
      SetCell(owned, xsize, ysize, c, 3 - pla);
      if replaceWithOpp {
        var labels := OppLabels(c, allowFarShrink);
        Util.EmptyOrInhabited(labels);
        var adjOppLabel :| adjOppLabel in labels;
        Singleton(labels, adjOppLabel);
        SetCell(ownedLabels, xsize, ysize, c, adjOppLabel);
        StaysJoined(c, 3 - pla);
        stones := stones[c := 3 - pla];
        ownedLabels := ownedLabels[c := adjOppLabel];
        owned := owned[c := 3 - pla];
      } else {
        StaysJoined(c, 0);
        stones := stones[c := 0];
      }
    }

    lemma StaysJoined(c: Cell, v: int)
      requires c in stones && stones[c] != 0 && v != stones[c]
      ensures NeighboursStayJoined(stones, c) ==> KeepsJoined(stones, stones[c := v])
    {
      hide Joined;
      if NeighboursStayJoined(stones, c) {
        ReplacingSplitsNothing(stones, c, v);
        var after := stones[c := v];
        forall pla, a, b | pla != 0 && Joined(stones, pla, a, b) && a in after && b in after && after[a] == pla
          && after[b] == pla
          ensures Joined(after, pla, a, b)
        {
          JoinedEnds(stones, pla, a, b);
        }
      }
    }
  }

  /** Stones that were joined, and are still there, are still joined. */
  ghost predicate KeepsJoined(before: Grid, after: Grid) {
    forall pla, a, b ::
      pla != 0 && Joined(before, pla, a, b) && a in after && b in after && after[a] == pla && after[b] == pla ==>
      Joined(after, pla, a, b)
  }

  lemma AllStayJoined(stones: Grid)
    ensures KeepsJoined(stones, stones)
  {
  }

  lemma NotItsOwn(c: Cell)
    ensures !Adjacent(c, c)
  {
  }

  lemma AllInFlood(before: Grid, c: Cell, ns: seq<Cell>, first: nat, floodfill: set<Cell>)
    requires c in before && first < |ns|
    requires forall d :: d in before && Adjacent(c, d) ==> d in ns
    requires forall d :: d in floodfill <==> Joined(before[c := 0], before[c], ns[first], d)
    requires forall k :: 0 <= k < |ns| && ns[k] in before[c := 0] && before[c := 0][ns[k]] == before[c] ==> ns[k] in floodfill
    ensures NeighboursStayJoined(before, c)
  {
    var pla, after := before[c], before[c := 0];
    hide Joined;
    forall a, b | a in before && b in before && Adjacent(c, a) && Adjacent(c, b) && before[a] == pla && before[b] == pla
      ensures Joined(after, pla, a, b)
    {
      var i :| 0 <= i < |ns| && ns[i] == a;
      var j :| 0 <= j < |ns| && ns[j] == b;
      JoinedSymmetric(after, pla, ns[first], a);
      JoinedTransitive(after, pla, a, ns[first], b);
    }
  }

  lemma StrandedNeighbour(before: Grid, c: Cell, a: Cell, b: Cell)
    requires c in before && a in before && b in before && Adjacent(c, a) && Adjacent(c, b) && before[a] == before[c]
      && before[b] == before[c]
    requires !Joined(before[c := 0], before[c], a, b)
    ensures !NeighboursStayJoined(before, c)
  {
  }

  lemma NoNeighbours(before: Grid, c: Cell, ns: seq<Cell>)
    requires c in before && forall d :: d in before && Adjacent(c, d) ==> d in ns
    requires forall k :: 0 <= k < |ns| ==> ns[k] in before && before[c := 0][ns[k]] != before[c]
    ensures NeighboursStayJoined(before, c)
  {
  }

  lemma Singleton(s: set<int>, x: int)
    requires |s| == 1 && x in s
    ensures s == {x}
  {
    assert |s - {x}| == 0;
  }
}
