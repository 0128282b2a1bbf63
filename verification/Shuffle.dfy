/**
 The two-phase shuffle of training rows: files are grouped, each group scatters its rows into
 buckets, each bucket is merged and split into output files; in wave mode the rows are first
 scattered into waves. Random draws are arbitrary choices.
 */
module Shuffle {
  import opened Util

  type File = int   // a file name

  function Concat<R>(ss: seq<seq<R>>): seq<R> {
    if ss == [] then [] else ss[0] + Concat(ss[1..])
  }

  /** All rows of a list of lists, each as often as it occurs. */
  ghost function Bag<R>(ss: seq<seq<R>>): multiset<R> {
    if ss == [] then multiset{} else Bag(ss[..|ss| - 1]) + multiset(ss[|ss| - 1])
  }

  lemma {:induction false} BagAppend<R>(a: seq<seq<R>>, b: seq<seq<R>>)
    ensures Bag(a + b) == Bag(a) + Bag(b)
  {
    if b == [] {
      assert a + b == a;
    } else {
      BagAppend(a, b[..|b| - 1]);
      assert (a + b)[..|a + b| - 1] == a + b[..|b| - 1];
    }
  }

  lemma {:induction false} BagConcat<R>(ss: seq<seq<R>>)
    ensures multiset(Concat(ss)) == Bag(ss)
  {
    if ss != [] {
      BagConcat(ss[1..]);
      assert ss == [ss[0]] + ss[1..];
      BagAppend([ss[0]], ss[1..]);
      assert [ss[0]][..0] == [];
      assert Bag([ss[0]]) == multiset(ss[0]);
    }
  }

  // ---------------------------------------------------------------------------------------------
  // Grouping

  /** The files with rows, in order. */
  function Nonempty(files: seq<(File, int)>): seq<(File, int)> {
    if files == [] then []
    else if files[|files| - 1].1 <= 0 then Nonempty(files[..|files| - 1])
    else Nonempty(files[..|files| - 1]) + [files[|files| - 1]]
  }

  function Names(files: seq<(File, int)>): (names: seq<File>)
    ensures |names| == |files|
  {
    seq(|files|, i requires 0 <= i < |files| => files[i].0)
  }

  function RowSum(files: seq<(File, int)>): int {
    if files == [] then 0 else RowSum(files[..|files| - 1]) + files[|files| - 1].1
  }

  lemma {:induction false} ConcatAppend<R>(ss: seq<seq<R>>, s: seq<R>)
    ensures Concat(ss + [s]) == Concat(ss) + s
  {
    if ss == [] {
      assert ss + [s] == [s];
    } else {
      ConcatAppend(ss[1..], s);
      assert (ss + [s])[1..] == ss[1..] + [s];
    }
  }

  /** The group has the rows asked for, and would not have them without its last file. */
  ghost predicate JustFull(group: seq<(File, int)>, size: int) {
    group != [] && RowSum(group) >= size && RowSum(group[..|group| - 1]) < size
  }

  /** Clump the files into groups that just reach workerGroupSize rows; the last may fall short. */
  method GroupFilesByRows(files: seq<(File, int)>, workerGroupSize: int)
    returns (groups: seq<seq<File>>, ghost pairs: seq<seq<(File, int)>>)
    requires workerGroupSize > 0
    ensures |groups| == |pairs| && forall g :: 0 <= g < |pairs| ==> groups[g] == Names(pairs[g])
    ensures Concat(pairs) == Nonempty(files)
    ensures forall g :: 0 <= g < |pairs| - 1 ==> JustFull(pairs[g], workerGroupSize)
    ensures forall g :: 0 <= g < |pairs| ==> pairs[g] != []
  {
    groups, pairs := [], [];
    var groupSoFar: seq<File>, groupSizeSoFar := [], 0;
    ghost var pairsSoFar: seq<(File, int)> := [];
    for i := 0 to |files|
      invariant Concat(pairs) + pairsSoFar == Nonempty(files[..i])
      invariant |groups| == |pairs| && forall g :: 0 <= g < |pairs| ==> groups[g] == Names(pairs[g])
      invariant forall g :: 0 <= g < |pairs| ==> JustFull(pairs[g], workerGroupSize)
      invariant groupSoFar == Names(pairsSoFar) && groupSizeSoFar == RowSum(pairsSoFar) < workerGroupSize
      invariant groupSizeSoFar >= 0 && (groupSizeSoFar > 0 <==> pairsSoFar != [])
    {
      assert files[..i + 1][..i] == files[..i];
      if files[i].1 > 0 {
        ghost var longer := pairsSoFar + [files[i]];
        assert longer[..|pairsSoFar|] == pairsSoFar;
        groupSoFar := groupSoFar + [files[i].0];
        groupSizeSoFar := groupSizeSoFar + files[i].1;
        pairsSoFar := longer;
        if groupSizeSoFar >= workerGroupSize {
          ConcatAppend(pairs, pairsSoFar);
          groups, pairs := groups + [groupSoFar], pairs + [pairsSoFar];
          groupSoFar, groupSizeSoFar, pairsSoFar := [], 0, [];
        }
      }
    }
    assert files[..|files|] == files;
    if groupSizeSoFar > 0 {
      ConcatAppend(pairs, pairsSoFar);
      groups, pairs := groups + [groupSoFar], pairs + [pairsSoFar];
    }
  }

  // ---------------------------------------------------------------------------------------------
  // Shuffling and splitting one worker's rows

  /** Draw n rows one after another. */
  method ShuffleTakeFirstN<R>(n: nat, rows: seq<R>) returns (taken: seq<R>)
    requires n <= |rows|
    ensures |taken| == n && multiset(taken) <= multiset(rows)
    ensures n == |rows| ==> multiset(taken) == multiset(rows)
  {
    taken := [];
    var rest := rows;
    while |taken| < n
      invariant |taken| + |rest| == |rows| && |taken| <= n && multiset(taken) + multiset(rest) == multiset(rows)
    {
      var k :| 0 <= k < |rest|;
      assert rest == rest[..k] + [rest[k]] + rest[k + 1..];
      taken, rest := taken + [rest[k]], rest[..k] + rest[k + 1..];
    }
    if n == |rows| {
      assert rest == [];
    }
  }

  function Sum(counts: seq<nat>): nat {
    if counts == [] then 0 else Sum(counts[..|counts| - 1]) + counts[|counts| - 1]
  }

  lemma {:induction false} SumBump(counts: seq<nat>, d: nat)
    requires d < |counts|
    ensures Sum(counts[d := counts[d] + 1]) == Sum(counts) + 1
  {
    if d < |counts| - 1 {
      SumBump(counts[..|counts| - 1], d);
      assert counts[d := counts[d] + 1][..|counts| - 1] == counts[..|counts| - 1][d := counts[d] + 1];
    } else {
      assert counts[d := counts[d] + 1][..|counts| - 1] == counts[..|counts| - 1];
    }
  }

  lemma {:induction false} SumZeros(n: nat)
    ensures Sum(seq(n, i => 0)) == 0
  {
    if n > 0 {
      SumZeros(n - 1);
      assert seq(n, i => 0)[..n - 1] == seq(n - 1, i => 0);
    }
  }

  /** Draw a bucket for each row; how many rows each bucket got. */
  method DrawCounts(numRows: nat, numOutFiles: nat) returns (counts: seq<nat>)
    requires numOutFiles > 0
    ensures |counts| == numOutFiles && Sum(counts) == numRows
  {
    counts := seq(numOutFiles, i => 0);
    SumZeros(numOutFiles);
    for i := 0 to numRows
      invariant |counts| == numOutFiles && Sum(counts) == i
    {
      var d: nat :| d < numOutFiles;
      SumBump(counts, d);
      counts := counts[d := counts[d] + 1];
    }
  }

  lemma {:induction false} SumTake(counts: seq<nat>, k: nat)
    requires k <= |counts|
    ensures Sum(counts[..k]) <= Sum(counts)
    ensures k < |counts| ==> Sum(counts[..k + 1]) == Sum(counts[..k]) + counts[k]
  {
    if k < |counts| {
      assert counts[..k + 1][..k] == counts[..k];
      if k + 1 < |counts| {
        SumTake(counts[..|counts| - 1], k);
        assert counts[..|counts| - 1][..k] == counts[..k];
      } else {
        assert counts[..k + 1] == counts;
      }
    } else {
      assert counts[..k] == counts;
    }
  }

  /** Cut the rows into consecutive pieces of the given sizes. */
  method SplitByCounts<R>(rows: seq<R>, counts: seq<nat>) returns (pieces: seq<seq<R>>)
    requires Sum(counts) == |rows|
    ensures |pieces| == |counts| && Bag(pieces) == multiset(rows)
  {
    pieces := [];
    var start := 0;
    for outIdx := 0 to |counts|
      invariant |pieces| == outIdx && start == Sum(counts[..outIdx]) <= |rows| && Bag(pieces) == multiset(rows[..start])
    {
      SumTake(counts, outIdx);
      SumTake(counts, outIdx + 1);
      var stop := start + counts[outIdx];
      assert rows[..stop] == rows[..start] + rows[start..stop];
      assert (pieces + [rows[start..stop]])[..|pieces|] == pieces;
      pieces := pieces + [rows[start..stop]];
      start := stop;
    }
    assert counts[..|counts|] == counts;
    assert rows[..start] == rows;
  }

  // ---------------------------------------------------------------------------------------------
  // One worker's phases

  /** The rows of those files that can be read. */
  function RowsIn<R>(content: map<File, seq<R>>, files: seq<File>): seq<R> {
    if files == [] then []
    else RowsIn(content, files[..|files| - 1]) + (if files[|files| - 1] in content then content[files[|files| - 1]] else [])
  }

  function RowsToKeep(n: nat, keepProb: real, rounded: real -> int): nat {
    if keepProb < 1.0 then (var k := rounded(n as real * keepProb); if k < 0 then 0 else if k < n then k else n) else n
  }

  /** How many rows are kept of all groups together. */
  function RowsKept<R>(groups: seq<seq<File>>, content: map<File, seq<R>>, keepProb: real, rounded: real -> int): nat {
    if groups == [] then 0
    else
      RowsKept(groups[..|groups| - 1], content, keepProb, rounded)
      + RowsToKeep(|RowsIn(content, groups[|groups| - 1])|, keepProb, rounded)
  }

  /** Read a group's files, shuffle, and scatter the rows; nothing is written if no file could be read. */
  method Shardify<R>(group: seq<File>, content: map<File, seq<R>>, numOutFiles: nat, keepProb: real,
                     rounded: real -> int)
    returns (numFilesNotFound: nat, shards: seq<seq<R>>)
    requires numOutFiles > 0
    ensures if exists i :: 0 <= i < |group| && group[i] in content then |shards| == numOutFiles else shards == []
    ensures Bag(shards) <= multiset(RowsIn(content, group))
    ensures |Bag(shards)| == RowsToKeep(|RowsIn(content, group)|, keepProb, rounded)
    ensures keepProb >= 1.0 ==> Bag(shards) == multiset(RowsIn(content, group))
  {
    numFilesNotFound := 0;
    var rows: seq<R>, anyFound := [], false;
    for i := 0 to |group|
      invariant rows == RowsIn(content, group[..i])
      invariant anyFound <==> exists k :: 0 <= k < i && group[k] in content
      invariant !anyFound ==> rows == []
    {
      assert group[..i + 1][..i] == group[..i];
      if group[i] in content {
        rows := rows + content[group[i]];
        anyFound := true;
      } else {
        numFilesNotFound := numFilesNotFound + 1;
      }
    }
    assert group[..|group|] == group;
    if !anyFound {
      return numFilesNotFound, [];
    }
    var kept := ShuffleTakeFirstN(RowsToKeep(|rows|, keepProb, rounded), rows);
    var counts := DrawCounts(|kept|, numOutFiles);
    shards := SplitByCounts(kept, counts);
  }

  lemma DivStep(j: nat, n: nat, size: nat)
    requires size > 0
    ensures (j + 1) * n / size - j * n / size >= n / size
    ensures (j + 1) * n / size - j * n / size <= n / size + 1
  {
    var a, q := j * n, n / size;
    assert (j + 1) * n == a + n;
    var x, y := a / size, (a + n) / size;
    assert a == size * x + a % size && n == size * q + n % size && a + n == size * y + (a + n) % size;
    var carry := if a % size + n % size >= size then 1 else 0;
    assert size * (y - x - q - carry) == size * y - size * x - size * q - size * carry;
    SmallMultiple(size, y - x - q - carry);
  }

  /** Piece j of n rows cut into equal parts, as nearly as possible. */
  function Cut(j: nat, n: nat, parts: nat): nat
    requires parts > 0
  {
    j * n / parts
  }

  lemma CutEnds(n: nat, parts: nat)
    requires parts > 0
    ensures Cut(0, n, parts) == 0 && Cut(parts, n, parts) == n
  {
    assert parts * n == 0 + n * parts;
    DivModUnique(parts * n, parts, n, 0);
  }

  lemma CutSteps(j: nat, n: nat, parts: nat)
    requires parts > 0 && j < parts
    ensures Cut(j, n, parts) <= Cut(j + 1, n, parts) <= n
    ensures n / parts <= Cut(j + 1, n, parts) - Cut(j, n, parts) <= n / parts + 1
    decreases parts - j
  {
    DivStep(j, n, parts);
    if j + 1 < parts {
      CutSteps(j + 1, n, parts);
    } else {
      CutEnds(n, parts);
    }
  }

  /** Cut the rows into consecutive files whose sizes differ by at most one. */
  method SplitEvenly<R>(rows: seq<R>, numOutFiles: nat) returns (files: seq<seq<R>>)
    requires numOutFiles > 0
    ensures |files| == numOutFiles && Bag(files) == multiset(rows)
    ensures forall i, j :: 0 <= i < |files| && 0 <= j < |files| ==> |files[i]| <= |files[j]| + 1
  {
    hide Cut;
    var numRows := |rows|;
    files := [];
    CutEnds(numRows, numOutFiles);
    for j := 0 to numOutFiles
      invariant |files| == j && Cut(j, numRows, numOutFiles) <= numRows
      invariant Bag(files) == multiset(rows[..Cut(j, numRows, numOutFiles)])
      invariant forall i :: 0 <= i < |files| ==> numRows / numOutFiles <= |files[i]| <= numRows / numOutFiles + 1
    {
      CutSteps(j, numRows, numOutFiles);
      var start, stop := Cut(j, numRows, numOutFiles), Cut(j + 1, numRows, numOutFiles);
      assert rows[..stop] == rows[..start] + rows[start..stop];
      assert (files + [rows[start..stop]])[..|files|] == files;
      files := files + [rows[start..stop]];
    }
    assert rows[..numRows] == rows;
  }

  /** What bucket b received from the groups; groups that wrote nothing are skipped. */
  function Column<R>(shards: seq<seq<seq<R>>>, b: nat): seq<seq<R>>
    requires forall g :: 0 <= g < |shards| ==> shards[g] == [] || b < |shards[g]|
  {
    if shards == [] then []
    else
      var init := shards[..|shards| - 1];
      Column(init, b) + (if shards[|shards| - 1] == [] then [] else [shards[|shards| - 1][b]])
  }

  /** Merge one bucket's shards, shuffle, and split; nothing is written for a bucket without shards. */
  method MergeBucket<R>(shardFiles: seq<seq<R>>, numOutFiles: nat) returns (files: seq<seq<R>>)
    requires numOutFiles > 0
    ensures Bag(files) == Bag(shardFiles)
    ensures shardFiles != [] ==> |files| == numOutFiles
    ensures forall i, j :: 0 <= i < |files| && 0 <= j < |files| ==> |files[i]| <= |files[j]| + 1
  {
    if shardFiles == [] {
      return [];
    }
    var rows := Concat(shardFiles);
    BagConcat(shardFiles);
    var shuffled := ShuffleTakeFirstN(|rows|, rows);
    files := SplitEvenly(shuffled, numOutFiles);
  }

  // ---------------------------------------------------------------------------------------------
  // The two phases together

  /** Every group wrote nothing, or one shard for each of n buckets. */
  ghost predicate ShardsOk<R>(shards: seq<seq<seq<R>>>, n: nat) {
    forall g :: 0 <= g < |shards| ==> shards[g] == [] || |shards[g]| == n
  }

  ghost function AllShards<R>(shards: seq<seq<seq<R>>>): multiset<R> {
    if shards == [] then multiset{} else AllShards(shards[..|shards| - 1]) + Bag(shards[|shards| - 1])
  }

  ghost function Columns<R>(shards: seq<seq<seq<R>>>, n: nat, b: nat): multiset<R>
    requires ShardsOk(shards, n) && b <= n
  {
    if b == 0 then multiset{} else Columns(shards, n, b - 1) + Bag(Column(shards, b - 1))
  }

  lemma OneBag<R>(s: seq<R>)
    ensures Bag([s]) == multiset(s)
  {
    assert [s][..0] == [];
  }

  lemma ColumnStep<R>(shards: seq<seq<seq<R>>>, b: nat)
    requires shards != [] && forall g :: 0 <= g < |shards| ==> shards[g] == [] || b < |shards[g]|
    ensures var init, last := shards[..|shards| - 1], shards[|shards| - 1];
            Bag(Column(shards, b)) == Bag(Column(init, b)) + (if last == [] then multiset{} else multiset(last[b]))
  {
    var init, last := shards[..|shards| - 1], shards[|shards| - 1];
    if last == [] {
      assert Column(shards, b) == Column(init, b);
    } else {
      BagAppend(Column(init, b), [last[b]]);
      OneBag(last[b]);
    }
  }

  lemma BagStep<R>(ss: seq<seq<R>>, b: nat)
    requires b < |ss|
    ensures Bag(ss[..b + 1]) == Bag(ss[..b]) + multiset(ss[b]) && Bag(ss[..0]) == multiset{}
  {
    assert ss[..b + 1][..b] == ss[..b];
  }

  lemma {:induction false} OneMoreGroup<R>(shards: seq<seq<seq<R>>>, n: nat, b: nat)
    requires ShardsOk(shards, n) && b <= n && shards != []
    ensures ShardsOk(shards[..|shards| - 1], n)
    ensures var last := shards[|shards| - 1];
            Columns(shards, n,
                    b) == Columns(shards[..|shards| - 1], n, b) + (if last == [] then multiset{} else Bag(last[..b]))
  {
    hide Column, Bag;
    var init, last := shards[..|shards| - 1], shards[|shards| - 1];
    if b == 0 {
      if last != [] {
        BagStep(last, 0);
      }
    } else {
      OneMoreGroup(shards, n, b - 1);
      ColumnStep(shards, b - 1);
      if last != [] {
        BagStep(last, b - 1);
      }
    }
  }

  /** Bucket by bucket or group by group, the shards hold the same rows. */
  lemma {:induction false} ColumnsAreShards<R>(shards: seq<seq<seq<R>>>, n: nat)
    requires ShardsOk(shards, n)
    ensures Columns(shards, n, n) == AllShards(shards)
  {
    if shards == [] {
      NoColumns<R>(n, n);
    } else {
      OneMoreGroup(shards, n, n);
      ColumnsAreShards(shards[..|shards| - 1], n);
      var last := shards[|shards| - 1];
      if last != [] {
        assert last[..n] == last;
      } else {
        assert Bag(last) == multiset{};
      }
    }
  }

  lemma {:induction false} NoColumns<R>(n: nat, b: nat)
    requires b <= n
    ensures Columns<R>([], n, b) == multiset{}
  {
    if b > 0 {
      NoColumns<R>(n, b - 1);
    }
  }

  lemma {:induction false} RowsInAppend<R>(content: map<File, seq<R>>, a: seq<File>, b: seq<File>)
    ensures RowsIn(content, a + b) == RowsIn(content, a) + RowsIn(content, b)
  {
    if b == [] {
      assert a + b == a;
    } else {
      RowsInAppend(content, a, b[..|b| - 1]);
      assert (a + b)[..|a + b| - 1] == a + b[..|b| - 1];
    }
  }

  /** Shardify every group. */
  method ShardifyAll<R>(groups: seq<seq<File>>, content: map<File, seq<R>>, numBuckets: nat, keepProb: real,
                        rounded: real -> int)
    returns (shards: seq<seq<seq<R>>>)
    requires numBuckets > 0
    ensures |shards| == |groups| && ShardsOk(shards, numBuckets)
    ensures AllShards(shards) <= multiset(RowsIn(content, Concat(groups)))
    ensures |AllShards(shards)| == RowsKept(groups, content, keepProb, rounded)
    ensures keepProb >= 1.0 ==> AllShards(shards) == multiset(RowsIn(content, Concat(groups)))
  {
    hide RowsIn, Bag, RowsToKeep, AllShards, RowsKept, Concat;
    shards := [];
    ghost var files: seq<File> := [];
    NoGroups(groups, content, keepProb, rounded);
    for g := 0 to |groups|
      invariant |shards| == g && ShardsOk(shards, numBuckets) && files == Concat(groups[..g])
      invariant AllShards(shards) <= multiset(RowsIn(content, files))
      invariant |AllShards(shards)| == RowsKept(groups[..g], content, keepProb, rounded)
      invariant keepProb >= 1.0 ==> AllShards(shards) == multiset(RowsIn(content, files))
    {
      var _, shard := Shardify(groups[g], content, numBuckets, keepProb, rounded);
      RowsInAppend(content, files, groups[g]);
      NextGroup(groups, g, content, keepProb, rounded);
      NextShards(shards, shard);
      shards := shards + [shard];
      files := files + groups[g];
    }
    assert groups[..|groups|] == groups;
  }

  lemma NoGroups<R>(groups: seq<seq<File>>, content: map<File, seq<R>>, keepProb: real, rounded: real -> int)
    ensures RowsKept(groups[..0], content, keepProb, rounded) == 0 && Concat(groups[..0]) == []
    ensures RowsIn(content, []) == []
    ensures AllShards<R>([]) == multiset{}
  {
  }

  lemma NextGroup<R>(groups: seq<seq<File>>, g: nat, content: map<File, seq<R>>, keepProb: real, rounded: real -> int)
    requires g < |groups|
    ensures Concat(groups[..g + 1]) == Concat(groups[..g]) + groups[g]
    ensures RowsKept(groups[..g + 1], content, keepProb, rounded) ==
            RowsKept(groups[..g], content, keepProb,
                     rounded) + RowsToKeep(|RowsIn(content, groups[g])|, keepProb, rounded)
  {
    hide RowsToKeep, RowsIn;
    assert groups[..g + 1] == groups[..g] + [groups[g]];
    assert groups[..g + 1][..g] == groups[..g];
    ConcatAppend(groups[..g], groups[g]);
  }

  lemma NextShards<R>(shards: seq<seq<seq<R>>>, shard: seq<seq<R>>)
    ensures AllShards(shards + [shard]) == AllShards(shards) + Bag(shard)
    ensures |AllShards(shards + [shard])| == |AllShards(shards)| + |Bag(shard)|
  {
    hide Bag;
    assert (shards + [shard])[..|shards|] == shards;
  }

  lemma {:induction false} NamesConcat(pairs: seq<seq<(File, int)>>, groups: seq<seq<File>>)
    requires |groups| == |pairs| && forall g :: 0 <= g < |pairs| ==> groups[g] == Names(pairs[g])
    ensures Concat(groups) == Names(Concat(pairs))
  {
    if pairs != [] {
      NamesConcat(pairs[1..], groups[1..]);
    }
  }

  /** Shardify all groups, then merge every bucket: with all rows kept, the output holds exactly the input rows. */
  method RunTwoPhaseShuffle<R>(files: seq<(File, int)>, content: map<File, seq<R>>, numBuckets0: nat,
                               numOutFilesPerBucket0: nat,
                               workerGroupSize: int, keepProb: real, rounded: real -> int)
    returns (written: seq<seq<R>>, ghost groups: seq<seq<File>>)
    requires workerGroupSize > 0
    ensures Concat(groups) == Names(Nonempty(files)) && |Bag(written)| == RowsKept(groups, content, keepProb, rounded)
    ensures Bag(written) <= multiset(RowsIn(content, Names(Nonempty(files))))
    ensures keepProb >= 1.0 ==> Bag(written) == multiset(RowsIn(content, Names(Nonempty(files))))
  {
    hide Bag, RowsIn, Column, AllShards, Nonempty, Concat, RowsKept;
    var numBuckets := if numBuckets0 < 1 then 1 else numBuckets0;
    var numOutFilesPerBucket := if numOutFilesPerBucket0 < 1 then 1 else numOutFilesPerBucket0;
    var fileGroups, pairs := GroupFilesByRows(files, workerGroupSize);
    groups := fileGroups;
    NamesConcat(pairs, groups);
    var shards := ShardifyAll(fileGroups, content, numBuckets, keepProb, rounded);
    ColumnsAreShards(shards, numBuckets);
    written := [];
    EmptyBag<R>();
    for b := 0 to numBuckets
      invariant Bag(written) == Columns(shards, numBuckets, b)
    {
      var bucketFiles := MergeBucket(Column(shards, b), numOutFilesPerBucket);
      BagAppend(written, bucketFiles);
      written := written + bucketFiles;
    }
  }

  lemma EmptyBag<R>()
    ensures Bag<R>([]) == multiset{}
  {
  }

  // ---------------------------------------------------------------------------------------------
  // Waves

  /** The shards that wave w received, by group, with their row counts. */
  function WaveFiles<R>(shards: seq<seq<seq<R>>>, w: nat): seq<(File, int)>
    requires forall g :: 0 <= g < |shards| ==> shards[g] == [] || w < |shards[g]|
  {
    if shards == [] then []
    else
      var g := |shards| - 1;
      WaveFiles(shards[..g], w) + (if shards[g] == [] then [] else [(g, |shards[g][w]|)])
  }

  function WaveContent<R>(shards: seq<seq<seq<R>>>, w: nat): map<File, seq<R>>
    requires forall g :: 0 <= g < |shards| ==> shards[g] == [] || w < |shards[g]|
  {
    map g: File | 0 <= g < |shards| && shards[g] != [] :: shards[g][w]
  }

  lemma {:induction false} SameRows<R>(content: map<File, seq<R>>, content': map<File, seq<R>>, files: seq<File>)
    requires forall f :: f in files ==> (f in content <==> f in content') && (f in content ==> content[f] == content'[f])
    ensures RowsIn(content, files) == RowsIn(content', files)
  {
    if files != [] {
      var f := files[|files| - 1];
      assert f in files;
      assert f in content ==> content[f] == content'[f];
      SameRows(content, content', files[..|files| - 1]);
    }
  }

  lemma {:induction false} WaveFileNames<R>(shards: seq<seq<seq<R>>>, w: nat)
    requires forall g :: 0 <= g < |shards| ==> shards[g] == [] || w < |shards[g]|
    ensures forall f :: f in Names(Nonempty(WaveFiles(shards, w))) ==> 0 <= f < |shards| && shards[f] != []
  {
    if shards != [] {
      var g := |shards| - 1;
      WaveFileNames(shards[..g], w);
      var before, after := WaveFiles(shards[..g], w), WaveFiles(shards, w);
      if shards[g] != [] {
        assert after[..|after| - 1] == before;
        assert Names(Nonempty(after)) == Names(Nonempty(before)) || Names(Nonempty(after)) == Names(Nonempty(before)) + [g];
      } else {
        assert after == before;
      }
    }
  }

  lemma WaveStep<R>(shards: seq<seq<seq<R>>>, w: nat)
    requires shards != [] && forall g :: 0 <= g < |shards| ==> shards[g] == [] || w < |shards[g]|
    ensures var g := |shards| - 1;
            var names := Names(Nonempty(WaveFiles(shards[..g], w)));
            Names(Nonempty(WaveFiles(shards, w))) == if shards[g] != [] && |shards[g][w]| > 0 then names + [g] else names
  {
    var g := |shards| - 1;
    var before, after := WaveFiles(shards[..g], w), WaveFiles(shards, w);
    if shards[g] == [] {
      assert after == before;
    } else {
      assert after[..|after| - 1] == before;
    }
  }

  lemma RowsInStep<R>(content: map<File, seq<R>>, files: seq<File>, f: File)
    requires f in content
    ensures RowsIn(content, files + [f]) == RowsIn(content, files) + content[f]
  {
    assert (files + [f])[..|files|] == files;
  }

  /** A wave's input files hold what the wave received. */
  lemma {:induction false} WaveRows<R>(shards: seq<seq<seq<R>>>, w: nat)
    requires forall g :: 0 <= g < |shards| ==> shards[g] == [] || w < |shards[g]|
    ensures multiset(RowsIn(WaveContent(shards, w), Names(Nonempty(WaveFiles(shards, w))))) == Bag(Column(shards, w))
  {
    hide RowsIn, Nonempty, Bag;
    if shards == [] {
      NoWave(shards, w);
    } else {
      var g := |shards| - 1;
      var names := Names(Nonempty(WaveFiles(shards[..g], w)));
      WaveRows(shards[..g], w);
      WaveFileNames(shards[..g], w);
      SameRows(WaveContent(shards[..g], w), WaveContent(shards, w), names);
      WaveStep(shards, w);
      ColumnStep(shards, w);
      if shards[g] != [] && |shards[g][w]| > 0 {
        RowsInStep(WaveContent(shards, w), names, g);
      }
    }
  }

  lemma NoWave<R>(shards: seq<seq<seq<R>>>, w: nat)
    requires shards == []
    ensures RowsIn(WaveContent(shards, w), Names(Nonempty(WaveFiles(shards, w)))) == []
      && Bag(Column(shards, w)) == multiset{}
  {
  }

  /** Scatter into waves, then shuffle each wave by the two phases. */
  method RunWaves<R>(files: seq<(File, int)>, content: map<File, seq<R>>, numWaves: nat, numBucketsPerWave: nat,
                     numOutFilesPerBucket: nat, workerGroupSize: int, keepProb: real, rounded: real -> int)
    returns (allWritten: seq<seq<R>>, ghost groups: seq<seq<File>>)
    requires workerGroupSize > 0 && numWaves > 0
    ensures Concat(groups) == Names(Nonempty(files))
    ensures |Bag(allWritten)| == RowsKept(groups, content, keepProb, rounded)
    ensures Bag(allWritten) <= multiset(RowsIn(content, Names(Nonempty(files))))
    ensures keepProb >= 1.0 ==> Bag(allWritten) == multiset(RowsIn(content, Names(Nonempty(files))))
  {
    hide Bag, RowsIn, Column, AllShards, Nonempty, Concat, WaveFiles, WaveContent, RowsKept;
    var fileGroups, pairs := GroupFilesByRows(files, workerGroupSize);
    groups := fileGroups;
    NamesConcat(pairs, groups);
    var shards := ShardifyAll(fileGroups, content, numWaves, keepProb, rounded);
    ColumnsAreShards(shards, numWaves);
    allWritten := [];
    EmptyBag<R>();
    for w := 0 to numWaves
      invariant Bag(allWritten) == Columns(shards, numWaves, w)
    {
      WaveRows(shards, w);
      ghost var waveGroups;
      var waveWritten;
      waveWritten, waveGroups := RunTwoPhaseShuffle(WaveFiles(shards, w), WaveContent(shards, w), numBucketsPerWave,
                                                    numOutFilesPerBucket, workerGroupSize, 1.0, rounded);
      BagAppend(allWritten, waveWritten);
      allWritten := allWritten + waveWritten;
    }
  }
}
