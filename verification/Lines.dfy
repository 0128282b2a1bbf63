/** Lines of play through a book, and what is added up over them. */
module Lines {
  import opened Util
  import opened BookData
  import opened ValueRules
  import opened ValueTasks
  import opened Settled
  import opened Meaning
  import opened Symmetry

  /** Locations played from h lead along moves of the book. */
  ghost predicate IsLine(sn: Snapshot, h: BookHash, line: seq<Loc>)
    decreases line
  {
    h in sn && (line == [] || (line[0] in sn[h].moves && IsLine(sn, sn[h].moves[line[0]].hash, line[1..])))
  }

  ghost function LineEnd(sn: Snapshot, h: BookHash, line: seq<Loc>): (d: BookHash)
    requires IsLine(sn, h, line)
    ensures d in sn
    decreases line
  {
    if line == [] then h else LineEnd(sn, sn[h].moves[line[0]].hash, line[1..])
  }

  ghost function Prepend(loc: Loc, lines: seq<seq<Loc>>): (r: seq<seq<Loc>>)
    ensures |r| == |lines|
  {
    seq(|lines|, i requires 0 <= i < |lines| => [loc] + lines[i])
  }

  /** All lines of play from h, the empty one first: the tree unfolding of the book below h. */
  ghost function LinesFrom(sn: Snapshot, root: BookHash, rank: map<BookHash, nat>, h: BookHash): seq<seq<Loc>>
    requires Linked(sn, root) && AcyclicBy(sn, rank) && h in sn
    decreases if h in rank then rank[h] else 0, |sn[h].moves| + 1
  {
    assert |Ascending(sn[h].moves.Keys)| == |sn[h].moves.Keys| == |sn[h].moves|;
    [[]] + LinesVia(sn, root, rank, h, |Ascending(sn[h].moves.Keys)|)
  }

  /** The lines whose first move is among the first k moves. */
  ghost function LinesVia(sn: Snapshot, root: BookHash, rank: map<BookHash, nat>, h: BookHash, k: nat): seq<seq<Loc>>
    requires Linked(sn, root) && AcyclicBy(sn, rank) && h in sn && k <= |Ascending(sn[h].moves.Keys)|
    decreases if h in rank then rank[h] else 0, k
  {
    if k == 0 then []
    else
      var loc := Ascending(sn[h].moves.Keys)[k - 1];
      assert loc in sn[h].moves;
      LinesVia(sn, root, rank, h, k - 1) + Prepend(loc, LinesFrom(sn, root, rank, sn[h].moves[loc].hash))
  }

  ghost predicate AllLines(sn: Snapshot, h: BookHash, lines: seq<seq<Loc>>) {
    forall i :: 0 <= i < |lines| ==> IsLine(sn, h, lines[i])
  }

  ghost function SumOwn(t: Total, sn: Snapshot, h: BookHash, lines: seq<seq<Loc>>): real
    requires AllLines(sn, h, lines)
  {
    if lines == [] then 0.0
    else
      assert AllLines(sn, h, lines[..|lines| - 1]);
      SumOwn(t, sn, h, lines[..|lines| - 1]) + OwnTotal(t, sn[LineEnd(sn, h, lines[|lines| - 1])].inputs.own)
  }

  lemma {:induction false} SumOwnAppend(t: Total, sn: Snapshot, h: BookHash, a: seq<seq<Loc>>, b: seq<seq<Loc>>)
    requires AllLines(sn, h, a) && AllLines(sn, h, b)
    ensures AllLines(sn, h, a + b) && SumOwn(t, sn, h, a + b) == SumOwn(t, sn, h, a) + SumOwn(t, sn, h, b)
  {
    if b == [] {
      assert a + b == a;
    } else {
      var init := b[..|b| - 1];
      SumOwnAppend(t, sn, h, a, init);
      assert (a + b)[..|a + b| - 1] == a + init;
    }
  }

  lemma {:induction false} SumOwnPrepend(t: Total, sn: Snapshot, h: BookHash, loc: Loc, lines: seq<seq<Loc>>)
    requires h in sn && loc in sn[h].moves && AllLines(sn, sn[h].moves[loc].hash, lines)
    ensures AllLines(sn, h, Prepend(loc, lines))
    ensures SumOwn(t, sn, h, Prepend(loc, lines)) == SumOwn(t, sn, sn[h].moves[loc].hash, lines)
  {
    var r := Prepend(loc, lines);
    forall i | 0 <= i < |r| ensures IsLine(sn, h, r[i]) {
      assert r[i][1..] == lines[i];
    }
    if lines != [] {
      var init := lines[..|lines| - 1];
      SumOwnPrepend(t, sn, h, loc, init);
      assert r[..|r| - 1] == Prepend(loc, init);
      assert r[|r| - 1][1..] == lines[|lines| - 1];
    }
  }

  lemma MoveFacts(sn: Snapshot, root: BookHash, rank: map<BookHash, nat>, h: BookHash, loc: Loc)
    requires Linked(sn, root) && AcyclicBy(sn, rank) && h in sn && loc in sn[h].moves
    ensures sn[h].moves[loc].hash in sn && h in rank && sn[h].moves[loc].hash in rank
    ensures rank[sn[h].moves[loc].hash] < rank[h]
  {
  }

  lemma KidFacts(sn: Snapshot, h: BookHash, k: nat)
    requires h in sn && k < |Ascending(sn[h].moves.Keys)| && KidsIn(KidsOf(sn[h].moves), ValuesOf(sn))
    ensures var loc := Ascending(sn[h].moves.Keys)[k];
            && loc in sn[h].moves && |KidsOf(sn[h].moves)| == |Ascending(sn[h].moves.Keys)|
            && KidsOf(sn[h].moves)[k].hash == sn[h].moves[loc].hash && sn[h].moves[loc].hash in sn
            && KidValues(KidsOf(sn[h].moves), ValuesOf(sn))[k] == sn[sn[h].moves[loc].hash].values
  {
    assert Ascending(sn[h].moves.Keys)[k] in Ascending(sn[h].moves.Keys);
  }

  lemma ViaStep(sn: Snapshot, root: BookHash, rank: map<BookHash, nat>, h: BookHash, k: nat)
    requires Linked(sn, root) && AcyclicBy(sn, rank) && h in sn && k < |Ascending(sn[h].moves.Keys)|
    ensures var loc := Ascending(sn[h].moves.Keys)[k];
            && loc in sn[h].moves && sn[h].moves[loc].hash in sn
            && LinesVia(sn, root, rank, h, k + 1) ==
               LinesVia(sn, root, rank, h, k) + Prepend(loc, LinesFrom(sn, root, rank, sn[h].moves[loc].hash))
  {
    var loc := Ascending(sn[h].moves.Keys)[k];
    assert loc in Ascending(sn[h].moves.Keys);
    MoveFacts(sn, root, rank, h, loc);
  }

  lemma FromStep(sn: Snapshot, root: BookHash, rank: map<BookHash, nat>, h: BookHash)
    requires Linked(sn, root) && AcyclicBy(sn, rank) && h in sn
    ensures LinesFrom(sn, root, rank, h) == [[]] + LinesVia(sn, root, rank, h, |Ascending(sn[h].moves.Keys)|)
    ensures LinesVia(sn, root, rank, h, 0) == []
    ensures |Ascending(sn[h].moves.Keys)| == |sn[h].moves|
  {
  }

  /** A node's visits, and its weight, are those of the searches summed over all lines of play from it. */
  lemma {:induction false} SumOverLines(t: Total, p: Params, sn: Snapshot, root: BookHash, rank: map<BookHash, nat>,
                                              h: BookHash)
    requires Linked(sn, root) && ValuesSettled(p, sn) && AcyclicBy(sn, rank) && h in sn
    ensures AllLines(sn, h, LinesFrom(sn, root, rank, h))
    ensures TotalOf(t, sn[h].values) == SumOwn(t, sn, h, LinesFrom(sn, root, rank, h))
    decreases if h in rank then rank[h] else 0, |sn[h].moves| + 1
  {
    hide *;
    SettledTotal(t, p, sn, root, h);
    FromStep(sn, root, rank, h);
    var n := |Ascending(sn[h].moves.Keys)|;
    var vs := KidValues(KidsOf(sn[h].moves), ValuesOf(sn));
    KidCount(sn[h].moves);
    TotalsVia(t, p, sn, root, rank, h, vs, n);
    assert vs[..n] == vs;
    OneLine(t, sn, h);
    SumOwnAppend(t, sn, h, [[]], LinesVia(sn, root, rank, h, n));
  }

  lemma SettledTotal(t: Total, p: Params, sn: Snapshot, root: BookHash, h: BookHash)
    requires Linked(sn, root) && ValuesSettled(p, sn) && h in sn
    ensures KidsIn(KidsOf(sn[h].moves), ValuesOf(sn))
    ensures TotalOf(t, sn[h].values) == OwnTotal(t, sn[h].inputs.own) + SumTotals(t, KidValues(KidsOf(sn[h].moves), ValuesOf(sn)))
  {
    hide ValuesSettled, Linked, ValuesOf, SumTotals, KidsOf, KidValues, CombineAll, NotInBook;
    SettledNode(p, sn, root, h);
    CombineSums(t, sn[h].inputs.pla, NotInBook(p, sn[h].inputs.own), KidValues(KidsOf(sn[h].moves), ValuesOf(sn)));
    OwnTotals(t, p, sn[h].inputs.own);
  }

  lemma OwnTotals(t: Total, p: Params, own: BookValues)
    ensures TotalOf(t, NotInBook(p, own)) == OwnTotal(t, own)
  {
  }

  lemma KidCount(moves: map<Loc, BookMove>)
    ensures |KidsOf(moves)| == |Ascending(moves.Keys)|
  {
  }

  lemma OneLine(t: Total, sn: Snapshot, h: BookHash)
    requires h in sn
    ensures AllLines(sn, h, [[]]) && SumOwn(t, sn, h, [[]]) == OwnTotal(t, sn[h].inputs.own)
  {
    var lines: seq<seq<Loc>> := [[]];
    assert lines[..|lines| - 1] == [];
  }

  lemma NoLines(t: Total, sn: Snapshot, h: BookHash)
    ensures AllLines(sn, h, []) && SumOwn(t, sn, h, []) == 0.0
  {
  }

  lemma SumTotalsStep(t: Total, vs: seq<RecursiveBookValues>, k: nat)
    requires k <= |vs|
    ensures SumTotals(t, vs[..k]) == if k == 0 then 0.0 else SumTotals(t, vs[..k - 1]) + TotalOf(t, vs[k - 1])
  {
    if k > 0 {
      assert vs[..k][..k - 1] == vs[..k - 1];
    }
  }

  lemma {:induction false} TotalsVia(t: Total, p: Params, sn: Snapshot, root: BookHash, rank: map<BookHash, nat>, h: BookHash,
                                     vs: seq<RecursiveBookValues>, k: nat)
    requires Linked(sn, root) && ValuesSettled(p, sn) && AcyclicBy(sn, rank) && h in sn
    requires k <= |Ascending(sn[h].moves.Keys)|
    requires KidsIn(KidsOf(sn[h].moves), ValuesOf(sn)) && vs == KidValues(KidsOf(sn[h].moves), ValuesOf(sn))
    requires |vs| == |Ascending(sn[h].moves.Keys)|
    ensures AllLines(sn, h, LinesVia(sn, root, rank, h, k))
    ensures SumTotals(t, vs[..k]) == SumOwn(t, sn, h, LinesVia(sn, root, rank, h, k))
    decreases if h in rank then rank[h] else 0, k
  {
    hide ValuesSettled, Linked, AcyclicBy, ValuesOf, SumTotals, SumOwn, LinesVia, LinesFrom, KidsOf, KidValues,
         AllLines, KidsIn, Ascending;
    SumTotalsStep(t, vs, k);
    if k > 0 {
      TotalsVia(t, p, sn, root, rank, h, vs, k - 1);
      ViaStep(sn, root, rank, h, k - 1);
      KidFacts(sn, h, k - 1);
      var loc := Ascending(sn[h].moves.Keys)[k - 1];
      MoveFacts(sn, root, rank, h, loc);
      var d := sn[h].moves[loc].hash;
      SumOverLines(t, p, sn, root, rank, d);
      SumOwnPrepend(t, sn, h, loc, LinesFrom(sn, root, rank, d));
      SumOwnAppend(t, sn, h, LinesVia(sn, root, rank, h, k - 1), Prepend(loc, LinesFrom(sn, root, rank, d)));
    } else {
      FromStep(sn, root, rank, h);
      NoLines(t, sn, h);
    }
  }

  /** LinesFrom lists every line of play. */
  lemma {:induction false} LinesFromComplete(sn: Snapshot, root: BookHash, rank: map<BookHash, nat>, h: BookHash,
                                             line: seq<Loc>)
    requires Linked(sn, root) && AcyclicBy(sn, rank) && IsLine(sn, h, line)
    ensures line in LinesFrom(sn, root, rank, h)
    decreases line
  {
    hide Linked, AcyclicBy, LinesVia, LinesFrom, Ascending;
    FromStep(sn, root, rank, h);
    var locs := Ascending(sn[h].moves.Keys);
    var via := LinesVia(sn, root, rank, h, |locs|);
    if line == [] {
      assert ([[]] + via)[0] == line;
    } else {
      var k :| 0 <= k < |locs| && locs[k] == line[0];
      LinesFromComplete(sn, root, rank, sn[h].moves[line[0]].hash, line[1..]);
      ViaContains(sn, root, rank, h, k, |locs|, line);
    }
  }

  lemma {:induction false} ViaContains(sn: Snapshot, root: BookHash, rank: map<BookHash, nat>, h: BookHash, k: nat,
                                       n: nat, line: seq<Loc>)
    requires Linked(sn, root) && AcyclicBy(sn, rank) && h in sn && k < n <= |Ascending(sn[h].moves.Keys)|
    requires line != [] && line[0] == Ascending(sn[h].moves.Keys)[k] && line[0] in sn[h].moves
      && sn[h].moves[line[0]].hash in sn
    requires line[1..] in LinesFrom(sn, root, rank, sn[h].moves[line[0]].hash)
    ensures line in LinesVia(sn, root, rank, h, n)
    decreases n
  {
    hide Linked, AcyclicBy, LinesVia, LinesFrom, Ascending;
    ViaStep(sn, root, rank, h, n - 1);
    if k == n - 1 {
      PrependContains(line, LinesFrom(sn, root, rank, sn[h].moves[line[0]].hash));
    } else {
      ViaContains(sn, root, rank, h, k, n - 1, line);
    }
  }

  lemma PrependContains(line: seq<Loc>, lines: seq<seq<Loc>>)
    requires line != [] && line[1..] in lines
    ensures line in Prepend(line[0], lines)
  {
    var i :| 0 <= i < |lines| && lines[i] == line[1..];
    assert Prepend(line[0], lines)[i] == line;
  }

  // --- no line is listed twice ---

  ghost predicate FirstAmong(locs: seq<Loc>, k: nat, lines: seq<seq<Loc>>)
    requires k <= |locs|
  {
    forall i :: 0 <= i < |lines| ==> lines[i] != [] && exists j :: 0 <= j < k && lines[i][0] == locs[j]
  }

  lemma DistinctAppend(locs: seq<Loc>, k: nat, a: seq<seq<Loc>>, b: seq<seq<Loc>>)
    requires Increasing(locs) && k < |locs| && Distinct(a) && Distinct(b) && FirstAmong(locs, k, a)
    ensures Distinct(a + Prepend(locs[k], b)) && FirstAmong(locs, k + 1, a + Prepend(locs[k], b))
  {
    var c := Prepend(locs[k], b);
    forall i, j | 0 <= i < j < |a + c| ensures (a + c)[i] != (a + c)[j] {
      if i < |a| {
        assert a[i] != [] && exists q :: 0 <= q < k && a[i][0] == locs[q];
        var q :| 0 <= q < k && a[i][0] == locs[q];
      } else {
        assert c[i - |a|][1..] == b[i - |a|] && c[j - |a|][1..] == b[j - |a|];
      }
    }
    forall i | 0 <= i < |a + c| ensures (a + c)[i] != [] && exists j :: 0 <= j < k + 1 && (a + c)[i][0] == locs[j] {
      if i < |a| {
        assert a[i] != [] && exists q :: 0 <= q < k && a[i][0] == locs[q];
        var q :| 0 <= q < k && a[i][0] == locs[q];
      } else {
        assert (a + c)[i][0] == locs[k];
      }
    }
  }

  lemma {:induction false} LinesFromDistinct(sn: Snapshot, root: BookHash, rank: map<BookHash, nat>, h: BookHash)
    requires Linked(sn, root) && AcyclicBy(sn, rank) && h in sn
    ensures Distinct(LinesFrom(sn, root, rank, h))
    decreases if h in rank then rank[h] else 0, |sn[h].moves| + 1
  {
    hide Linked, AcyclicBy, LinesVia, LinesFrom, Ascending;
    FromStep(sn, root, rank, h);
    ViaDistinct(sn, root, rank, h, |Ascending(sn[h].moves.Keys)|);
  }

  lemma {:induction false} ViaDistinct(sn: Snapshot, root: BookHash, rank: map<BookHash, nat>, h: BookHash, k: nat)
    requires Linked(sn, root) && AcyclicBy(sn, rank) && h in sn && k <= |Ascending(sn[h].moves.Keys)|
    ensures Distinct(LinesVia(sn, root, rank, h, k))
    ensures FirstAmong(Ascending(sn[h].moves.Keys), k, LinesVia(sn, root, rank, h, k))
    decreases if h in rank then rank[h] else 0, k
  {
    hide Linked, AcyclicBy, LinesVia, LinesFrom, Ascending;
    FromStep(sn, root, rank, h);
    if k > 0 {
      var locs := Ascending(sn[h].moves.Keys);
      ViaStep(sn, root, rank, h, k - 1);
      MoveFacts(sn, root, rank, h, locs[k - 1]);
      ViaDistinct(sn, root, rank, h, k - 1);
      LinesFromDistinct(sn, root, rank, sn[h].moves[locs[k - 1]].hash);
      DistinctAppend(locs, k - 1, LinesVia(sn, root, rank, h, k - 1),
                     LinesFrom(sn, root, rank, sn[h].moves[locs[k - 1]].hash));
    }
  }
}
