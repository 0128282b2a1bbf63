/** Regions with labels: adjacent cells of one owner share a label, and sizes are cell counts. */
module ClumpyLabels {
  import opened Util
  import opened ClumpyGrid

  datatype GroupInfo = GroupInfo(pla: int, size: int, hasEye: bool)

  type Infos = map<int, GroupInfo>

  ghost function CellsOf(labels: Grid, tag: int): set<Cell> { set c | c in labels && labels[c] == tag }

  ghost function Count(labels: Grid, tag: int): nat { |CellsOf(labels, tag)| }

  /** Labels are known, belong to the cell's owner, and only unowned cells have none. */
  ghost predicate LabelsMatch(owned: Grid, labels: Grid, info: Infos) {
    && owned.Keys == labels.Keys && 0 !in info
    && (forall c :: c in labels && labels[c] != 0 ==> labels[c] in info && info[labels[c]].pla == owned[c] && owned[c] != 0)
  }

  ghost predicate SizesMatch(labels: Grid, info: Infos) {
    forall tag :: tag in info ==> info[tag].size == Count(labels, tag)
  }

  /** Neighbouring cells of one owner carry the same label. */
  ghost predicate RegionsAgree(owned: Grid, labels: Grid) {
    forall c, d :: c in owned && d in owned && Adjacent(c, d) && owned[c] == owned[d] != 0 && c in labels && d in labels ==>
      labels[c] == labels[d]
  }

  ghost predicate AllLabelled(owned: Grid, labels: Grid) {
    forall c :: c in owned && owned[c] != 0 && c in labels ==> labels[c] != 0
  }

  ghost predicate LabelsOk(owned: Grid, labels: Grid, info: Infos) {
    LabelsMatch(owned, labels,
                info) && SizesMatch(labels, info) && RegionsAgree(owned, labels) && AllLabelled(owned, labels)
  }

  lemma CountSet(labels: Grid, c: Cell, tag: int)
    requires c in labels && labels[c] != tag
    ensures Count(labels[c := tag], tag) == Count(labels, tag) + 1
    ensures Count(labels[c := tag], labels[c]) == Count(labels, labels[c]) - 1
    ensures forall l :: l != tag && l != labels[c] ==> Count(labels[c := tag], l) == Count(labels, l)
  {
    var labels' := labels[c := tag];
    assert CellsOf(labels', tag) == CellsOf(labels, tag) + {c};
    assert CellsOf(labels', labels[c]) == CellsOf(labels, labels[c]) - {c};
    forall l | l != tag && l != labels[c] ensures Count(labels', l) == Count(labels, l) {
      assert CellsOf(labels', l) == CellsOf(labels, l);
    }
  }

  // ---------------------------------------------------------------------------------------------
  // Merging two labels

  ghost function Renamed(labels: Grid, from: int, to: int): (r: Grid)
    ensures r.Keys == labels.Keys
  {
    map c | c in labels :: if labels[c] == from then to else labels[c]
  }

  /** Renaming row by row, before cell (x, y). */
  ghost function RenamedUpTo(labels: Grid, from: int, to: int, x: int, y: int): (r: Grid)
    ensures r.Keys == labels.Keys
  {
    map c | c in labels :: if (c.1 < y || (c.1 == y && c.0 < x)) && labels[c] == from then to else labels[c]
  }

  lemma RenamedNone(labels: Grid, xsize: nat, ysize: nat, from: int, to: int)
    requires IsGrid(labels, xsize, ysize)
    ensures RenamedUpTo(labels, from, to, 0, 0) == labels
  {
  }

  lemma RenamedNext(labels: Grid, xsize: nat, ysize: nat, from: int, to: int, x: nat, y: nat)
    requires IsGrid(labels, xsize, ysize) && x < xsize && y < ysize
    ensures var done := RenamedUpTo(labels, from, to, x, y);
            RenamedUpTo(labels, from, to, x + 1, y) == if done[(x, y)] == from then done[(x, y) := to] else done
  {
  }

  lemma RenamedRow(labels: Grid, xsize: nat, ysize: nat, from: int, to: int, y: nat)
    requires IsGrid(labels, xsize, ysize)
    ensures RenamedUpTo(labels, from, to, xsize, y) == RenamedUpTo(labels, from, to, 0, y + 1)
  {
  }

  lemma RenamedAll(labels: Grid, xsize: nat, ysize: nat, from: int, to: int)
    requires IsGrid(labels, xsize, ysize)
    ensures RenamedUpTo(labels, from, to, 0, ysize) == Renamed(labels, from, to)
  {
  }

  function MergedInfo(info: Infos, label1: int, label2: int): Infos
    requires label1 in info && label2 in info
  {
    info[label1 := GroupInfo(info[label1].pla, info[label1].size + info[label2].size, info[label1].hasEye || info[label2].hasEye)]
    - {label2}
  }

  /** Merging keeps regions in agreement and sizes exact. */
  lemma MergeKeepsLabelsOk(owned: Grid, labels: Grid, info: Infos, label1: int, label2: int)
    requires LabelsOk(owned, labels, info) && label1 in info && label2 in info && label1 != label2
    requires info[label1].pla == info[label2].pla
    ensures LabelsOk(owned, Renamed(labels, label2, label1), MergedInfo(info, label1, label2))
  {
    var labels', info' := Renamed(labels, label2, label1), MergedInfo(info, label1, label2);
    assert CellsOf(labels', label1) == CellsOf(labels, label1) + CellsOf(labels, label2);
    forall l | l in info' && l != label1 ensures Count(labels', l) == Count(labels, l) {
      assert CellsOf(labels', l) == CellsOf(labels, l);
    }
  }

  // ---------------------------------------------------------------------------------------------
  // Growing a region by one cell

  lemma GrowKeepsLabelsOk(owned: Grid, labels: Grid, info: Infos, c: Cell, pla: int, tag: int)
    requires LabelsOk(owned, labels, info) && c in owned && owned[c] == 0 && pla != 0
    requires tag in info && info[tag].pla == pla
    requires forall d :: d in owned && Adjacent(c, d) && owned[d] == pla ==> labels[d] == tag
    ensures LabelsOk(owned[c := pla], labels[c := tag], info[tag := info[tag].(size := info[tag].size + 1)])
  {
    assert labels[c] == 0;
    CountSet(labels, c, tag);
  }

  // ---------------------------------------------------------------------------------------------
  // Labelling the regions at the start

  /** While regions are being labelled: the labels in use are below next, and labelled cells belong together. */
  ghost predicate PartLabelled(owned: Grid, labels: Grid, info: Infos, next: int) {
    && LabelsMatch(owned, labels, info) && SizesMatch(labels, info) && RegionsClosed(owned, labels)
    && next > 0 && forall l :: l in info ==> 0 < l < next
  }

  /** A labelled cell's neighbours of the same owner are labelled the same. */
  ghost predicate RegionsClosed(owned: Grid, labels: Grid) {
    forall c, d ::
      c in owned && d in owned && Adjacent(c, d) && owned[c] == owned[d] && c in labels && d in labels && labels[c] != 0 ==>
      labels[d] == labels[c]
  }

  lemma ClosedAndLabelledIsOk(owned: Grid, labels: Grid, info: Infos, next: int)
    requires PartLabelled(owned, labels, info, next) && AllLabelled(owned, labels)
    ensures LabelsOk(owned, labels, info)
  {
  }

  /** What one recursive call leaves: it only adds its label, to cells of its player, and tries all their neighbours. */
  ghost predicate Spread(owned: Grid, before: Grid, after: Grid, pla: int, tag: int) {
    && before.Keys == after.Keys == owned.Keys
    && (forall c :: c in before && after[c] != before[c] ==> before[c] == 0 && after[c] == tag && owned[c] == pla)
    && (forall c, d :: c in before && after[c] != before[c] && d in owned && Adjacent(c, d) && owned[d] == pla ==> after[d] != 0)
  }

  lemma SpreadNothing(owned: Grid, labels: Grid, pla: int, tag: int)
    requires labels.Keys == owned.Keys
    ensures Spread(owned, labels, labels, pla, tag)
  {
  }

  lemma SpreadKeeps(owned: Grid, before: Grid, after: Grid, pla: int, tag: int, c: Cell)
    requires Spread(owned, before, after, pla, tag) && c in before && before[c] != 0
    ensures c in after && after[c] == before[c]
  {
  }

  lemma SpreadTwice(owned: Grid, a: Grid, b: Grid, c: Grid, pla: int, tag: int)
    requires Spread(owned, a, b, pla, tag) && Spread(owned, b, c, pla, tag)
    ensures Spread(owned, a, c, pla, tag)
  {
  }

  lemma SpreadFromCell(owned: Grid, before: Grid, c: Cell, after: Grid, pla: int, tag: int)
    requires c in before && before[c] == 0 && before.Keys == owned.Keys && owned[c] == pla && tag != 0
    requires Spread(owned, before[c := tag], after, pla, tag)
    requires forall d :: d in owned && Adjacent(c, d) && owned[d] == pla ==> after[d] != 0
    ensures Spread(owned, before, after, pla, tag)
  {
  }

  /** A whole region has been labelled: everything reached belongs together. */
  lemma RegionDone(owned: Grid, before: Grid, after: Grid, pla: int, tag: int)
    requires Spread(owned, before, after, pla, tag) && RegionsClosed(owned, before) && tag != 0
    requires forall c :: c in before ==> before[c] != tag
    ensures RegionsClosed(owned, after)
  {
    forall c, d | c in owned && d in owned && Adjacent(c, d) && owned[c] == owned[d]
      && after[c] != 0 ensures after[d] == after[c] {
      if before[c] != 0 {
        assert before[d] == before[c];
      }
    }
  }

  lemma SpreadShrinksUnlabelled(owned: Grid, before: Grid, after: Grid, pla: int, tag: int)
    requires Spread(owned, before, after, pla, tag) && tag != 0
    ensures Count(after, 0) <= Count(before, 0)
  {
    SubsetSize(CellsOf(after, 0), CellsOf(before, 0));
  }

  /** One more cell gets the label being spread. */
  lemma LabelCell(owned: Grid, labels: Grid, info: Infos, c: Cell, tag: int, eye: bool)
    requires LabelsMatch(owned, labels, info) && SizesMatch(labels, info) && c in labels && labels[c] == 0
    requires tag in info && info[tag].pla == owned[c] && owned[c] != 0
    ensures var info' := info[tag := GroupInfo(info[tag].pla, info[tag].size + 1, eye)];
            LabelsMatch(owned, labels[c := tag], info') && SizesMatch(labels[c := tag], info')
    ensures Count(labels[c := tag], 0) < Count(labels, 0)
  {
    CountSet(labels, c, tag);
  }

  lemma FreshTag(owned: Grid, labels: Grid, info: Infos, next: int, pla: int)
    requires PartLabelled(owned, labels, info, next)
    ensures forall c :: c in labels ==> labels[c] != next
    ensures next !in info && next != 0
    ensures LabelsMatch(owned, labels, info[next := GroupInfo(pla, 0, false)])
    ensures SizesMatch(labels, info[next := GroupInfo(pla, 0, false)])
  {
    assert CellsOf(labels, next) == {};
  }
}
