/**
 What the sliding-window hierarchical Count-Min sketch of rdma_pacer/countmin.c means, as functions
 of the window it stands for: which cell of which level an item falls in, the estimate of a node,
 and the block decomposition of a range query.
 */
module SketchSpec {
  import opened Arith
  import opened Hash31

  /** The parameters CMH_Init fixes for the life of a sketch. */
  datatype Shape = Shape(U: nat, gran: nat, levels: nat, freelim: nat, depth: nat, width: nat,
                         windowSize: nat, hasha: seq<seq<nat>>, hashb: seq<seq<nat>>) {

    /** Children of a node: `1 << gran`. */
    function Base(): (b: nat)
      ensures b >= 1 && (gran >= 1 ==> b >= 2)
    {
      Pow2(gran)
    }

    /** Size of the universe: `1 << U`. */
    function Top(): nat {
      Pow2(U)
    }

    /** Cells that CMH_Init allocates at a level. */
    function Cells(level: nat): nat
      requires level < levels
    {
      if level >= freelim then Pow2(gran * (levels - level)) else depth * width
    }

    ghost predicate Ok() {
      && 1 <= gran <= U
      && gran * (levels - 1) < U <= gran * levels
      && 1 <= freelim <= levels
      && depth >= 1 && width >= 1 && windowSize >= 1
      && |hasha| >= freelim && |hashb| >= freelim
      && (forall l :: 0 <= l < freelim ==> |hasha[l]| == depth && |hashb[l]| == depth)
      && (forall l, j :: 0 <= l < freelim && 0 <= j < depth ==> hasha[l][j] <= MOD && hashb[l][j] <= MOD)
    }
  }

  /** `node >> gran`: the block a node belongs to, one level up. */
  function Parent(c: Shape, node: nat): (p: nat)
    ensures p * c.Base() <= node < p * c.Base() + c.Base()
  {
    DivBlock(node, c.Base());
    DivAtLeast(node, c.Base(), 0);
    node / c.Base()
  }

  /** `item >>= gran`, `level` times over: the node of that level an item lies under. */
  function Shift(c: Shape, item: nat, level: nat): nat {
    if level == 0 then item else Parent(c, Shift(c, item, level - 1))
  }

  /** Cell of row `row` that counts node `node` of a sketched level. */
  function Slot(c: Shape, level: nat, row: nat, node: nat): (k: nat)
    requires c.Ok() && level < c.freelim && row < c.depth
    ensures row * c.width <= k < row * c.width + c.width
    ensures k < c.depth * c.width
  {
    var k := Hash(c.hasha[level][row], c.hashb[level][row], node) % c.width + row * c.width;
    assert row * c.width + c.width <= c.depth * c.width by {
      MulMonotone(row + 1, c.depth, c.width);
    }
    k
  }

  /**
   What the slot is: within its row, the residue modulo `width` of a number below 2^31 that is congruent
   to `a*node + b` modulo the prime 2^31 - 1, less the carry if there is one, for the row's own `a` and `b`.
   */
  lemma SlotHashes(c: Shape, level: nat, row: nat, node: nat) returns (h: nat)
    requires c.Ok() && level < c.freelim && row < c.depth && node <= 2147483647
    ensures h < 2147483648 && Slot(c, level, row, node) == row * c.width + h % c.width
    ensures var product := c.hasha[level][row] * node + c.hashb[level][row];
            (h + if Carries(product) then 1 else 0) % 2147483647 == product % 2147483647
  {
    h := Hash(c.hasha[level][row], c.hashb[level][row], node);
    HashResidue(c.hasha[level][row], c.hashb[level][row], node);
    ResidueOnce(h, c.hasha[level][row] * node + c.hashb[level][row]);
  }

  lemma ResidueOnce(h: nat, product: nat)
    requires Carries(product) ==> h + 1 == product % 2147483647
    requires !Carries(product) ==> h % 2147483647 == product % 2147483647
    ensures (h + if Carries(product) then 1 else 0) % 2147483647 == product % 2147483647
  {
    if Carries(product) { DivMod(h + 1, 2147483647, 0, h + 1); }
  }

  /** Whether an item under node `node` is counted by a given cell of the level. */
  predicate Hits(c: Shape, level: nat, cell: nat, node: nat)
    requires c.Ok() && level < c.levels
  {
    if level >= c.freelim then node == cell
    else var row := cell / c.width; row < c.depth && Slot(c, level, row, node) == cell
  }

  /** Which cells of a sketched level count a node. */
  ghost function HitMap(c: Shape, level: nat, node: nat): (hits: seq<bool>)
    requires c.Ok() && level < c.freelim
    ensures |hits| == c.Cells(level)
    ensures forall k :: 0 <= k < |hits| ==> hits[k] == Hits(c, level, k, node)
  {
    assert c.depth * c.width >= 0;
    seq(c.depth * c.width, k requires 0 <= k < c.depth * c.width => Hits(c, level, k, node))
  }

  /** Within the cells of one row, only the row's own slot counts a node. */
  lemma RowCells(c: Shape, level: nat, row: nat, node: nat, hits: seq<bool>, offset: nat, slot: nat)
    requires c.Ok() && level < c.freelim && row < c.depth && hits == HitMap(c, level, node)
    requires offset == row * c.width && slot == Slot(c, level, row, node)
    ensures offset <= slot < offset + c.width <= |hits|
    ensures offset + c.width == (row + 1) * c.width
    ensures forall k :: offset <= k < offset + c.width ==> (hits[k] <==> k == slot)
  {
    MulMonotone(row + 1, c.depth, c.width);
    forall k | offset <= k < offset + c.width ensures hits[k] <==> k == slot {
      DivUnique(k, c.width, row);
    }
  }

  /** 1 for the items that a cell counts, 0 for all others. */
  ghost function InCell(c: Shape, level: nat, cell: nat): int -> nat
    requires c.Ok() && level < c.levels
  {
    x => if x >= 0 && Hits(c, level, cell, Shift(c, x, level)) then 1 else 0
  }

  /** 1 for the items under a node. */
  ghost function InNode(c: Shape, level: nat, node: nat): int -> nat {
    x => if x >= 0 && Shift(c, x, level) == node then 1 else 0
  }

  /** 1 for the items under the nodes `lo..hi-1` of a level. */
  ghost function InNodes(c: Shape, level: nat, lo: int, hi: int): int -> nat {
    x => if x >= 0 && lo <= Shift(c, x, level) < hi then 1 else 0
  }

  /** What a cell holds: the number of window items that fall in it. */
  ghost function CellCount(c: Shape, w: seq<int>, level: nat, cell: nat): nat
    requires c.Ok() && level < c.levels
  {
    Total(w, InCell(c, level, cell))
  }

  /** The true number of window items under a node. */
  ghost function TrueCount(c: Shape, w: seq<int>, level: nat, node: nat): nat {
    Total(w, InNode(c, level, node))
  }

  /** The true number of window items in `start..end`, both included. */
  ghost function InRange(c: Shape, w: seq<int>, start: int, end: int): nat {
    Total(w, InNodes(c, 0, start, end + 1))
  }

  /** Smallest of the first `rows` cells that count a node. */
  ghost function MinRow(c: Shape, w: seq<int>, level: nat, node: nat, rows: nat): nat
    requires c.Ok() && level < c.freelim && 1 <= rows <= c.depth
  {
    var last := CellCount(c, w, level, Slot(c, level, rows - 1, node));
    if rows == 1 then last else Min(MinRow(c, w, level, node, rows - 1), last)
  }

  /** The answer of CMH_count. */
  ghost function Estimate(c: Shape, w: seq<int>, level: nat, node: nat): nat
    requires c.Ok()
  {
    if level >= c.levels then c.windowSize
    else if level >= c.freelim then CellCount(c, w, level, node)
    else MinRow(c, w, level, node, c.depth)
  }

  // ----- point queries -----

  /** Another item of the window shares the cell that row `row` uses for `node`. */
  ghost predicate Collides(c: Shape, w: seq<int>, level: nat, node: nat, row: nat)
    requires c.Ok() && level < c.freelim && row < c.depth
  {
    exists x :: x in w && x >= 0 && Shift(c, x, level) != node
                && Slot(c, level, row, Shift(c, x, level)) == Slot(c, level, row, node)
  }

  lemma SlotRow(c: Shape, level: nat, row: nat, node: nat)
    requires c.Ok() && level < c.freelim && row < c.depth
    ensures Slot(c, level, row, node) / c.width == row
  {
    DivUnique(Slot(c, level, row, node), c.width, row);
  }

  /** One cell never counts less than the node it stands for, and counts exactly it without a collision. */
  lemma CellBounds(c: Shape, w: seq<int>, level: nat, node: nat, row: nat)
    requires c.Ok() && level < c.freelim && row < c.depth
    ensures TrueCount(c, w, level, node) <= CellCount(c, w, level, Slot(c, level, row, node)) <= |w|
    ensures CellCount(c, w, level, Slot(c, level, row, node)) == TrueCount(c, w, level, node)
            <==> !Collides(c, w, level, node, row)
  {
    var cell := Slot(c, level, row, node);
    SlotRow(c, level, row, node);
    var f, g := InNode(c, level, node), InCell(c, level, cell);
    TotalTight(w, f, g);
    TotalMonotone(w, f, g);
    TotalBound(w, g, 1);
    if x :| x in w && f(x) != g(x) {
      assert Shift(c, x, level) != node && Slot(c, level, row, Shift(c, x, level)) == cell;
    }
    if Collides(c, w, level, node, row) {
      var x :| x in w && x >= 0 && Shift(c, x, level) != node && Slot(c, level, row, Shift(c, x, level)) == cell;
      assert f(x) != g(x);
    }
  }

  lemma {:induction false} MinRowBounds(c: Shape, w: seq<int>, level: nat, node: nat, rows: nat)
    requires c.Ok() && level < c.freelim && 1 <= rows <= c.depth
    ensures TrueCount(c, w, level, node) <= MinRow(c, w, level, node, rows) <= |w|
    ensures MinRow(c, w, level, node, rows) == TrueCount(c, w, level, node)
            <==> exists row :: 0 <= row < rows && !Collides(c, w, level, node, row)
  {
    CellBounds(c, w, level, node, rows - 1);
    if rows > 1 { MinRowBounds(c, w, level, node, rows - 1); }
  }

  /**
   A point query at a real level never answers less than the truth, nor more than the number of
   items in the window. It is exact at every exact level; at a sketched level it is exact if and
   only if some row has no collision on that node.
   */
  lemma EstimateBounds(c: Shape, w: seq<int>, level: nat, node: nat)
    requires c.Ok() && level < c.levels
    ensures TrueCount(c, w, level, node) <= Estimate(c, w, level, node) <= |w|
    ensures Estimate(c, w, level, node) == TrueCount(c, w, level, node)
            <==> level >= c.freelim || exists row :: 0 <= row < c.depth && !Collides(c, w, level, node, row)
  {
    if level >= c.freelim {
      TotalEqual(w, InNode(c, level, node), InCell(c, level, node));
      TotalBound(w, InNode(c, level, node), 1);
    } else {
      MinRowBounds(c, w, level, node, c.depth);
    }
  }

  // ----- range queries -----

  /** Sum of the estimates of the nodes `lo..hi-1` of a level. */
  ghost function SumEstimates(c: Shape, w: seq<int>, level: nat, lo: nat, hi: int): nat
    requires c.Ok()
    decreases hi - lo
  {
    if lo >= hi then 0 else SumEstimates(c, w, level, lo, hi - 1) + Estimate(c, w, level, hi - 1)
  }

  lemma {:induction false} SumEstimatesFirst(c: Shape, w: seq<int>, level: nat, lo: nat, hi: int)
    requires c.Ok() && lo < hi
    ensures SumEstimates(c, w, level, lo, hi) == Estimate(c, w, level, lo) + SumEstimates(c, w, level, lo + 1, hi)
    decreases hi - lo
  {
    if lo + 1 < hi { SumEstimatesFirst(c, w, level, lo, hi - 1); }
  }

  /** Distance from `start` to the next block boundary, a whole block when it is on one. */
  function LeftEnd(c: Shape, start: nat): (d: nat)
    ensures 1 <= d <= c.Base()
  {
    (Parent(c, start) + 1) * c.Base() - start
  }

  /** Distance back from `end` to the last block boundary. */
  function RightEnd(c: Shape, end: nat): (d: nat)
    ensures d < c.Base() && d <= end
  {
    end - Parent(c, end) * c.Base()
  }

  /** The loop of CMH_Rangesum from `level` on, for the nodes `start..end-1`. */
  ghost function RangeFrom(c: Shape, w: seq<int>, level: nat, start: nat, end: int): nat
    requires c.Ok() && level <= c.levels + 1
    decreases c.levels + 1 - level
  {
    if level > c.levels || start == end then 0
    else if end - start + 1 < c.Base() then SumEstimates(c, w, level, start, end)
    else
      var left, right := LeftEnd(c, start), RightEnd(c, end);
      SumEstimates(c, w, level, start, start + left) + SumEstimates(c, w, level, end - right, end)
      + RangeFrom(c, w, level + 1, Parent(c, start) + 1, Parent(c, end))
  }

  /** Whether the loop stops at an interval. */
  predicate LastLevel(c: Shape, start: nat, end: int) {
    start == end || end - start + 1 < c.Base()
  }

  /** What one turn of the loop adds up. */
  ghost function LevelSum(c: Shape, w: seq<int>, level: nat, start: nat, end: int): nat
    requires c.Ok()
  {
    if start == end then 0
    else if end - start + 1 < c.Base() then SumEstimates(c, w, level, start, end)
    else
      SumEstimates(c, w, level, start, start + LeftEnd(c, start))
      + SumEstimates(c, w, level, end - RightEnd(c, end), end)
  }

  lemma RangeFromTurn(c: Shape, w: seq<int>, level: nat, start: nat, end: int)
    requires c.Ok() && level <= c.levels
    ensures RangeFrom(c, w, level, start, end)
            == LevelSum(c, w, level, start, end)
               + if LastLevel(c, start, end) then 0
                 else RangeFrom(c, w, level + 1, Parent(c, start) + 1, Parent(c, end))
  {
  }

  /** The answer of CMH_Rangesum. */
  ghost function Rangesum(c: Shape, w: seq<int>, start: nat, end: int): nat
    requires c.Ok()
  {
    if end > c.Top() && start == 0 then c.windowSize
    else RangeFrom(c, w, 0, start, Min(c.Top(), end) + 1)
  }

  function Between(lo: int, hi: int, v: int): nat {
    if lo <= v < hi then 1 else 0
  }

  /** How many of the nodes queried from `level` on lie above a value whose node at `level` is `v`. */
  function Times(c: Shape, level: nat, start: nat, end: int, v: nat): nat
    decreases c.levels + 1 - level
  {
    if level > c.levels || start == end then 0
    else if end - start + 1 < c.Base() then Between(start, end, v)
    else
      Between(start, start + LeftEnd(c, start), v) + Between(end - RightEnd(c, end), end, v)
      + Times(c, level + 1, Parent(c, start) + 1, Parent(c, end), Parent(c, v))
  }

  /** Some level is left with one aligned interval of exactly `Base() - 1` blocks. */
  predicate Doubled(c: Shape, level: nat, start: nat, end: int)
    decreases c.levels + 1 - level
  {
    && level <= c.levels && start != end && end - start + 1 >= c.Base()
    && ((start == Parent(c, start) * c.Base() && end - start == c.Base() - 1)
        || Doubled(c, level + 1, Parent(c, start) + 1, Parent(c, end)))
  }

  /** The intervals that a query of `[start, end]` with `end <= 2^U` can leave for a level. */
  ghost predicate Reachable(c: Shape, level: nat, start: nat, end: int) {
    && level <= c.levels
    && (level > 0 ==> start > 0)
    && end * Pow2(c.gran * level) <= c.Top() + 1
  }

  lemma ReachableFirst(c: Shape, start: nat, end: int)
    requires end <= c.Top() + 1
    ensures Reachable(c, 0, start, end)
  {
    assert c.gran * 0 == 0;
  }

  lemma ReachableNext(c: Shape, level: nat, start: nat, end: int)
    requires c.Ok() && Reachable(c, level, start, end)
    requires start < end && end - start + 1 >= c.Base()
    ensures level < c.levels
    ensures Reachable(c, level + 1, Parent(c, start) + 1, Parent(c, end))
  {
    if level == c.levels {
      TopInterval(c, start, end);
      assert false;
    }
    Pow2Next(c.gran, level);
    ShrinkBound(Parent(c, end), c.Base(), Pow2(c.gran * level), end, c.Top() + 1);
  }

  /** One turn of the loop keeps the running sum right and stays within what can be reached. */
  lemma TurnKeeps(c: Shape, w: seq<int>, level: nat, start: nat, end: int, done: nat, total: nat)
    requires c.Ok() && Reachable(c, level, start, end)
    requires done + RangeFrom(c, w, level, start, end) == total
    ensures LastLevel(c, start, end) ==> done + LevelSum(c, w, level, start, end) == total
    ensures !LastLevel(c, start, end) ==>
              && level < c.levels && end >= 0
              && Reachable(c, level + 1, Parent(c, start) + 1, Parent(c, end))
              && done + LevelSum(c, w, level, start, end)
                 + RangeFrom(c, w, level + 1, Parent(c, start) + 1, Parent(c, end)) == total
  {
    RangeFromTurn(c, w, level, start, end);
    if !LastLevel(c, start, end) { ReachableNext(c, level, start, end); }
  }

  /** Nothing is left to add up once the loop reaches the virtual level above the real ones. */
  lemma TopInterval(c: Shape, start: nat, end: int)
    requires c.Ok() && Reachable(c, c.levels, start, end)
    ensures start >= end
  {
    var p := Pow2(c.gran * c.levels);
    Pow2Monotone(c.U, c.gran * c.levels);
    if end >= 2 {
      MulMonotone(2, end, p);
      assert false;
    }
  }

  lemma ParentAtLeast(c: Shape, node: nat, q: nat)
    ensures q <= Parent(c, node) <==> q * c.Base() <= node
  {
    var p := Parent(c, node);
    if q <= p {
      MulMonotone(q, p, c.Base());
    } else {
      MulMonotone(p + 1, q, c.Base());
    }
  }

  /** Where a value falls relative to the blocks around the two ends of an interval. */
  lemma Blocks(c: Shape, start: nat, end: nat, v: nat)
    requires c.gran >= 1 && start < end && end - start + 1 >= c.Base()
    ensures Parent(c, start) == Parent(c, end)
            <==> start == Parent(c, start) * c.Base() && end - start == c.Base() - 1
    ensures Parent(c, start) <= Parent(c, end)
    ensures v < start + LeftEnd(c, start) <==> Parent(c, v) < Parent(c, start) + 1
    ensures v >= end - RightEnd(c, end) <==> Parent(c, v) >= Parent(c, end)
  {
    var b := c.Base();
    var s, e := Parent(c, start), Parent(c, end);
    ParentAtLeast(c, end, s + 1);
    ParentAtLeast(c, end, s);
    ParentAtLeast(c, v, s + 1);
    ParentAtLeast(c, v, e);
    assert (s + 1) * b == s * b + b;
  }

  /**
   The covering argument. From any interval the loop can meet, a value inside is counted once or
   twice, a value before it never, a value after it at most once; and as long as no level is left
   with an aligned interval of one block less than a full one, the queried nodes partition it.
   */
  lemma {:induction false} TimesBounds(c: Shape, level: nat, start: nat, end: int, v: nat)
    requires c.Ok() && Reachable(c, level, start, end)
    ensures v < start ==> Times(c, level, start, end, v) == 0
    ensures start <= v < end ==> 1 <= Times(c, level, start, end, v) <= 2
    ensures v >= end ==> Times(c, level, start, end, v) <= 1
    ensures !Doubled(c, level, start, end) ==> Times(c, level, start, end, v) == Between(start, end, v)
    decreases c.levels + 1 - level
  {
    if start != end && end - start + 1 >= c.Base() {
      ReachableNext(c, level, start, end);
      Blocks(c, start, end, v);
      TimesBounds(c, level + 1, Parent(c, start) + 1, Parent(c, end), Parent(c, v));
    }
  }

  lemma FirstChild(c: Shape, p: nat) returns (v: nat)
    ensures v == p * c.Base() && Parent(c, v) == p
  {
    v := p * c.Base();
    DivMod(v, c.Base(), p, 0);
  }

  /** How often a value is counted, one turn of the loop at a time. */
  lemma TimesTurn(c: Shape, level: nat, start: nat, end: nat, v: nat, p: nat)
    requires level <= c.levels && start < end && end - start + 1 >= c.Base() && p == Parent(c, v)
    ensures Times(c, level, start, end, v)
            == Between(start, start + LeftEnd(c, start), v) + Between(end - RightEnd(c, end), end, v)
               + Times(c, level + 1, Parent(c, start) + 1, Parent(c, end), p)
  {
  }

  /** A value under a doubly counted node one level up is itself counted twice. */
  lemma LiftWitness(c: Shape, level: nat, start: nat, end: nat, p: nat) returns (v: nat)
    requires c.gran >= 1 && level <= c.levels && start < end && end - start + 1 >= c.Base()
    requires Parent(c, start) + 1 <= p < Parent(c, end)
    requires Times(c, level + 1, Parent(c, start) + 1, Parent(c, end), p) == 2
    ensures start <= v < end && Times(c, level, start, end, v) == 2
  {
    v := FirstChild(c, p);
    Blocks(c, start, end, v);
    TimesTurn(c, level, start, end, v, p);
  }

  /** In the excepted case some value of the interval really is counted twice. */
  lemma {:induction false} DoubledWitness(c: Shape, level: nat, start: nat, end: int) returns (v: nat)
    requires c.Ok() && Reachable(c, level, start, end) && Doubled(c, level, start, end)
    ensures start <= v < end && Times(c, level, start, end, v) == 2
    decreases c.levels + 1 - level
  {
    ReachableNext(c, level, start, end);
    if start == Parent(c, start) * c.Base() && end - start == c.Base() - 1 {
      v := start;
      Blocks(c, start, end, v);
      TimesBounds(c, level + 1, Parent(c, start) + 1, Parent(c, end), Parent(c, v));
    } else {
      var p := DoubledWitness(c, level + 1, Parent(c, start) + 1, Parent(c, end));
      v := LiftWitness(c, level, start, end, p);
    }
  }

  /** The queried nodes partition the interval if and only if no level is left with the excepted one. */
  lemma PartitionIff(c: Shape, start: nat, end: int)
    requires c.Ok() && end <= c.Top() + 1
    ensures (forall v: nat :: Times(c, 0, start, end, v) == Between(start, end, v)) <==> !Doubled(c, 0, start, end)
  {
    if Doubled(c, 0, start, end) {
      var v := DoubledWitness(c, 0, start, end);
    } else {
      forall v: nat ensures Times(c, 0, start, end, v) == Between(start, end, v) {
        TimesBounds(c, 0, start, end, v);
      }
    }
  }

  /** The estimates of the nodes `lo..hi-1` are all exact. */
  ghost predicate ExactNodes(c: Shape, w: seq<int>, level: nat, lo: nat, hi: int)
    requires c.Ok()
  {
    forall node: nat :: lo <= node < hi ==> Estimate(c, w, level, node) == TrueCount(c, w, level, node)
  }

  /** Every estimate that the query adds up is exact. */
  ghost predicate ExactQueries(c: Shape, w: seq<int>, level: nat, start: nat, end: int)
    requires c.Ok()
    decreases c.levels + 1 - level
  {
    if level > c.levels || start == end then true
    else if end - start + 1 < c.Base() then ExactNodes(c, w, level, start, end)
    else
      && ExactNodes(c, w, level, start, start + LeftEnd(c, start))
      && ExactNodes(c, w, level, end - RightEnd(c, end), end)
      && ExactQueries(c, w, level + 1, Parent(c, start) + 1, Parent(c, end))
  }

  lemma {:induction false} SumEstimatesBounds(c: Shape, w: seq<int>, level: nat, lo: nat, hi: int)
    requires c.Ok() && level < c.levels
    ensures SumEstimates(c, w, level, lo, hi) >= Total(w, InNodes(c, level, lo, hi))
    ensures ExactNodes(c, w, level, lo, hi)
            <==> SumEstimates(c, w, level, lo, hi) == Total(w, InNodes(c, level, lo, hi))
    decreases hi - lo
  {
    if lo >= hi {
      TotalBound(w, InNodes(c, level, lo, hi), 0);
    } else {
      SumEstimatesBounds(c, w, level, lo, hi - 1);
      EstimateBounds(c, w, level, hi - 1);
      TotalSum(w, InNodes(c, level, lo, hi - 1), InNode(c, level, hi - 1), InNodes(c, level, lo, hi));
    }
  }

  /** How often an item of the window is counted by the query from `level` on. */
  ghost function TimesOf(c: Shape, level: nat, start: nat, end: int): int -> nat {
    x => if x >= 0 then Times(c, level, start, end, Shift(c, x, level)) else 0
  }

  /** One turn of the loop counts an item under the left nodes, the right nodes, or in what is left. */
  lemma TimesOfSplit(c: Shape, w: seq<int>, level: nat, start: nat, end: nat, left: nat, right: nat)
    requires level <= c.levels && start < end && end - start + 1 >= c.Base()
    requires left == start + LeftEnd(c, start) && right == end - RightEnd(c, end)
    ensures Total(w, TimesOf(c, level, start, end))
            == Total(w, InNodes(c, level, start, left)) + Total(w, InNodes(c, level, right, end))
               + Total(w, TimesOf(c, level + 1, Parent(c, start) + 1, Parent(c, end)))
  {
    var f, g := InNodes(c, level, start, left), InNodes(c, level, right, end);
    var h, whole := TimesOf(c, level + 1, Parent(c, start) + 1, Parent(c, end)), TimesOf(c, level, start, end);
    forall x | x in w ensures whole(x) == f(x) + g(x) + h(x) {
      if x >= 0 {
        assert Shift(c, x, level + 1) == Parent(c, Shift(c, x, level));
      }
    }
    TotalSum3(w, f, g, h, whole);
  }

  /** The turn of the loop that answers the rest of the interval node by node. */
  lemma RangeTotalLast(c: Shape, w: seq<int>, level: nat, start: nat, end: int)
    requires c.Ok() && Reachable(c, level, start, end) && start != end && end - start + 1 < c.Base()
    ensures RangeFrom(c, w, level, start, end) >= Total(w, TimesOf(c, level, start, end))
    ensures ExactQueries(c, w, level, start, end)
            <==> RangeFrom(c, w, level, start, end) == Total(w, TimesOf(c, level, start, end))
  {
    TotalEqual(w, TimesOf(c, level, start, end), InNodes(c, level, start, end));
    if level == c.levels {
      TopInterval(c, start, end);
      TotalBound(w, TimesOf(c, level, start, end), 0);
    } else {
      SumEstimatesBounds(c, w, level, start, end);
    }
  }

  /** What a turn that leaves a coarser interval adds up. */
  lemma RangeSplit(c: Shape, w: seq<int>, level: nat, start: nat, end: nat, left: nat, right: nat, s: nat, e: nat)
    requires c.Ok() && level < c.levels && start < end && end - start + 1 >= c.Base()
    requires left == start + LeftEnd(c, start) && right == end - RightEnd(c, end)
    requires s == Parent(c, start) + 1 && e == Parent(c, end)
    ensures RangeFrom(c, w, level, start, end)
            == SumEstimates(c, w, level, start, left) + SumEstimates(c, w, level, right, end)
               + RangeFrom(c, w, level + 1, s, e)
  {
  }

  /** What it needs to be exact. */
  lemma ExactSplit(c: Shape, w: seq<int>, level: nat, start: nat, end: nat, left: nat, right: nat, s: nat, e: nat)
    requires c.Ok() && level < c.levels && start < end && end - start + 1 >= c.Base()
    requires left == start + LeftEnd(c, start) && right == end - RightEnd(c, end)
    requires s == Parent(c, start) + 1 && e == Parent(c, end)
    ensures ExactQueries(c, w, level, start, end)
            == (ExactNodes(c, w, level, start, left) && ExactNodes(c, w, level, right, end)
                && ExactQueries(c, w, level + 1, s, e))
  {
  }

  /** Three lower bounds add up exactly if and only if each is exact. */
  lemma TightSum(a: nat, b: nat, c: nat, x: nat, y: nat, z: nat)
    requires a >= x && b >= y && c >= z
    ensures a + b + c >= x + y + z
    ensures a + b + c == x + y + z <==> a == x && b == y && c == z
  {
  }

  /** The turn of the loop that leaves a coarser interval, given what holds of that one. */
  lemma RangeTotalTurn(c: Shape, w: seq<int>, level: nat, start: nat, end: nat, left: nat, right: nat, s: nat, e: nat,
                       range: nat, total: nat)
    requires c.Ok() && level < c.levels && start < end && end - start + 1 >= c.Base()
    requires left == start + LeftEnd(c, start) && right == end - RightEnd(c, end)
    requires s == Parent(c, start) + 1 && e == Parent(c, end)
    requires range == RangeFrom(c, w, level + 1, s, e) && total == Total(w, TimesOf(c, level + 1, s, e))
    requires range >= total && (ExactQueries(c, w, level + 1, s, e) <==> range == total)
    ensures RangeFrom(c, w, level, start, end) >= Total(w, TimesOf(c, level, start, end))
    ensures ExactQueries(c, w, level, start, end)
            <==> RangeFrom(c, w, level, start, end) == Total(w, TimesOf(c, level, start, end))
  {
    SumEstimatesBounds(c, w, level, start, left);
    SumEstimatesBounds(c, w, level, right, end);
    TimesOfSplit(c, w, level, start, end, left, right);
    RangeSplit(c, w, level, start, end, left, right, s, e);
    ExactSplit(c, w, level, start, end, left, right, s, e);
    TightSum(SumEstimates(c, w, level, start, left), SumEstimates(c, w, level, right, end), range,
             Total(w, InNodes(c, level, start, left)), Total(w, InNodes(c, level, right, end)), total);
  }

  /** Summing estimates node by node is summing, item by item, how often the item was counted. */
  lemma {:induction false} RangeTotal(c: Shape, w: seq<int>, level: nat, start: nat, end: int)
    requires c.Ok() && Reachable(c, level, start, end)
    ensures RangeFrom(c, w, level, start, end) >= Total(w, TimesOf(c, level, start, end))
    ensures ExactQueries(c, w, level, start, end)
            <==> RangeFrom(c, w, level, start, end) == Total(w, TimesOf(c, level, start, end))
    decreases c.levels + 1 - level
  {
    if start == end {
      TotalBound(w, TimesOf(c, level, start, end), 0);
    } else if end - start + 1 < c.Base() {
      RangeTotalLast(c, w, level, start, end);
    } else {
      ReachableNext(c, level, start, end);
      var s, e := Parent(c, start) + 1, Parent(c, end);
      RangeTotal(c, w, level + 1, s, e);
      RangeTotalTurn(c, w, level, start, end, start + LeftEnd(c, start), end - RightEnd(c, end), s, e,
                     RangeFrom(c, w, level + 1, s, e), Total(w, TimesOf(c, level + 1, s, e)));
    }
  }

  /** The items a sketch accepts. */
  ghost predicate Accepted(c: Shape, w: seq<int>) {
    forall x :: x in w ==> 0 <= x <= c.Top()
  }

  /** A range query never answers less than the number of window items in the range. */
  lemma RangesumNeverUnder(c: Shape, w: seq<int>, start: nat, end: int)
    requires c.Ok() && Accepted(c, w) && |w| <= c.windowSize
    ensures Rangesum(c, w, start, end) >= InRange(c, w, start, end)
  {
    var f := InNodes(c, 0, start, end + 1);
    if end > c.Top() && start == 0 {
      TotalBound(w, f, 1);
    } else {
      var e := Min(c.Top(), end) + 1;
      RangeTotal(c, w, 0, start, e);
      forall x | x in w ensures f(x) <= TimesOf(c, 0, start, e)(x) {
        TimesBounds(c, 0, start, e, x);
      }
      TotalMonotone(w, f, TimesOf(c, 0, start, e));
    }
  }

  /**
   When every queried estimate is exact, a range query that does not end in the excepted interval
   is exact too; in the excepted case it answers at most one count too many per item of the window.
   */
  lemma {:induction false} RangesumExact(c: Shape, w: seq<int>, start: nat, end: int)
    requires c.Ok() && Accepted(c, w) && !(end > c.Top() && start == 0)
    requires ExactQueries(c, w, 0, start, Min(c.Top(), end) + 1)
    ensures !Doubled(c, 0, start, Min(c.Top(), end) + 1) ==> Rangesum(c, w, start, end) == InRange(c, w, start, end)
    ensures Rangesum(c, w, start, end) <= InRange(c, w, start, end) + |w|
  {
    var e := Min(c.Top(), end) + 1;
    var f, g := InNodes(c, 0, start, end + 1), TimesOf(c, 0, start, e);
    RangeTotal(c, w, 0, start, e);
    forall x | x in w
      ensures !Doubled(c, 0, start, e) ==> f(x) == g(x)
      ensures g(x) <= f(x) + 1
    {
      TimesBounds(c, 0, start, e, x);
    }
    if !Doubled(c, 0, start, e) { TotalEqual(w, f, g); }
    var one: int -> nat := x => 1;
    var h: int -> nat := x => f(x) + one(x);
    TotalSum(w, f, one, h);
    TotalMonotone(w, g, h);
    TotalBound(w, one, 1);
  }

  /**
   Exactly when a range query is exact, collisions included: every estimate it adds up is exact, and
   every item of the window is counted as often as it lies in the range. The early answer for the
   whole universe is exact if and only if the window is full.
   */
  lemma RangesumExactIff(c: Shape, w: seq<int>, start: nat, end: int)
    requires c.Ok() && Accepted(c, w) && |w| <= c.windowSize
    ensures Rangesum(c, w, start, end) == InRange(c, w, start, end)
            <==> if end > c.Top() && start == 0 then |w| == c.windowSize
                 else var e := Min(c.Top(), end) + 1;
                      ExactQueries(c, w, 0, start, e) && CountedRight(c, w, start, e)
  {
    var f, e := InNodes(c, 0, start, end + 1), Min(c.Top(), end) + 1;
    if end > c.Top() && start == 0 {
      TotalConstant(w, f);
    } else {
      var g := TimesOf(c, 0, start, e);
      RangeTotal(c, w, 0, start, e);
      forall x | x in w ensures f(x) == Between(start, e, x) <= g(x) == Times(c, 0, start, e, x) {
        TimesBounds(c, 0, start, e, x);
      }
      TotalMonotone(w, f, g);
      TotalTight(w, f, g);
    }
  }

  /** Every item of the window is counted once if it lies in the range, and not at all otherwise. */
  ghost predicate CountedRight(c: Shape, w: seq<int>, start: nat, e: int) {
    forall x :: x in w && x >= 0 ==> Times(c, 0, start, e, x) == Between(start, e, x)
  }

  /**
   The excepted case is met by the plainest of queries, `DoubledFromZero` says: the first `Base() - 1`
   values. All but the next value are then counted twice, and that one once.
   */
  lemma FirstBlockDoubled(c: Shape, w: seq<int>, last: nat)
    requires c.Ok() && last + 2 == c.Base() && ExactQueries(c, w, 0, 0, last + 1)
    ensures Rangesum(c, w, 0, last) == InRange(c, w, 0, last) + InRange(c, w, 0, last + 1)
  {
    Pow2Monotone(c.gran, c.U);
    FirstBlockTurn(c, w);
    SumEstimatesBounds(c, w, 0, 0, c.Base());
    SumEstimatesBounds(c, w, 0, 0, c.Base() - 1);
  }

  /** The left end counts the whole block, the right end counts it again but for its last value. */
  lemma FirstBlockTurn(c: Shape, w: seq<int>)
    requires c.Ok()
    ensures LeftEnd(c, 0) == c.Base() && RightEnd(c, c.Base() - 1) == c.Base() - 1
    ensures Parent(c, 0) == 0 == Parent(c, c.Base() - 1)
    ensures RangeFrom(c, w, 0, 0, c.Base() - 1)
            == SumEstimates(c, w, 0, 0, c.Base()) + SumEstimates(c, w, 0, 0, c.Base() - 1)
  {
    ParentOfSmall(c, 0);
    ParentOfSmall(c, c.Base() - 1);
    RangeFromTurn(c, w, 0, 0, c.Base() - 1);
    assert RangeFrom(c, w, 1, 1, 0) == SumEstimates(c, w, 1, 1, 0) == 0;
  }

  lemma ParentOfSmall(c: Shape, node: nat)
    requires node < c.Base()
    ensures Parent(c, node) == 0
  {
    ParentAtLeast(c, node, 1);
  }

  /** The item count of a range is split by any cut: what lies up to `v` and what lies from `v + 1` on. */
  lemma InRangeSplit(c: Shape, w: seq<int>, v: int)
    requires Accepted(c, w) && -1 <= v <= c.Top()
    ensures InRange(c, w, 0, v) + InRange(c, w, v + 1, c.Top()) == |w|
  {
    var one: int -> nat := x => 1;
    TotalSum(w, InNodes(c, 0, 0, v + 1), InNodes(c, 0, v + 1, c.Top() + 1), one);
    TotalConstant(w, one);
  }

  lemma InRangeMonotone(c: Shape, w: seq<int>, u: int, v: int)
    requires u <= v
    ensures InRange(c, w, 0, u) <= InRange(c, w, 0, v)
  {
    TotalMonotone(w, InNodes(c, 0, 0, u + 1), InNodes(c, 0, 0, v + 1));
  }

  // ----- which indices are in bounds -----

  lemma {:induction false} ShiftBlock(c: Shape, item: nat, level: nat)
    ensures Shift(c, item, level) * Pow2(c.gran * level) <= item < (Shift(c, item, level) + 1) * Pow2(c.gran * level)
  {
    if level > 0 {
      ShiftBlock(c, item, level - 1);
      Pow2Next(c.gran, level - 1);
      SplitBlock(Shift(c, item, level), c.Base(), Shift(c, item, level - 1), Pow2(c.gran * (level - 1)), item);
    }
  }

  /** The nodes of a level times the items under each make up the whole padded universe. */
  lemma CellsSpan(c: Shape, level: nat)
    requires c.Ok() && c.freelim <= level < c.levels
    ensures c.Cells(level) * Pow2(c.gran * level) == Pow2(c.gran * c.levels) >= c.Top()
  {
    Pow2Mul(c.gran, c.levels - level, level);
    Pow2Monotone(c.U, c.gran * c.levels);
  }

  /** Updating with this item stays inside the cells of every exact level. */
  ghost predicate Fits(c: Shape, item: nat)
    requires c.Ok()
  {
    forall level :: c.freelim <= level < c.levels ==> Shift(c, item, level) < c.Cells(level)
  }

  /**
   CMH_Update lets every item up to and including `2^U` through. All of them index inside every
   exact level, except `2^U` itself when `gran` divides `U` and there is an exact level at all.
   */
  lemma FitsIff(c: Shape, item: nat)
    requires c.Ok() && item <= c.Top()
    ensures Fits(c, item) <==> item < c.Top() || c.U < c.gran * c.levels || c.freelim == c.levels
  {
    if c.U < c.gran * c.levels { Pow2StrictlyMonotone(c.U, c.gran * c.levels); }
    forall level | c.freelim <= level < c.levels
      ensures Shift(c, item, level) < c.Cells(level) <==> item < Pow2(c.gran * c.levels)
    {
      var s, p := Shift(c, item, level), Pow2(c.gran * level);
      ShiftBlock(c, item, level);
      CellsSpan(c, level);
      if s < c.Cells(level) { MulMonotone(s + 1, c.Cells(level), p); } else { MulMonotone(c.Cells(level), s, p); }
    }
    if c.freelim < c.levels && !(item < c.Top() || c.U < c.gran * c.levels) {
      CellsSpan(c, c.freelim);
      assert Shift(c, item, c.freelim) >= c.Cells(c.freelim);
    }
  }

  /** Every node that a range query asks about at an exact level has a cell there. */
  lemma QueriesFit(c: Shape, level: nat, start: nat, end: int, node: nat)
    requires c.Ok() && Reachable(c, level, start, end) && c.freelim <= level < c.levels && start < end
    requires node < end || node < start + LeftEnd(c, start)
    ensures node < c.Cells(level)
  {
    EndFits(c, level, start, end);
    LastBlockFits(c, c.levels - level - 1, start);
  }

  /** A node below a power of the base lies in a block that ends at or below that power. */
  lemma LastBlockFits(c: Shape, k: nat, start: nat)
    requires start < Pow2(c.gran * (k + 1))
    ensures start + LeftEnd(c, start) <= Pow2(c.gran * (k + 1))
  {
    Pow2Next(c.gran, k);
    NextBlock(c, start, Pow2(c.gran * k));
  }

  lemma NextBlock(c: Shape, start: nat, up: nat)
    requires start < c.Base() * up
    ensures start + LeftEnd(c, start) <= c.Base() * up
  {
    var b, p := c.Base(), Parent(c, start);
    Swapped(b, up);
    ParentAtLeast(c, start, up);
    MulMonotone(p + 1, up, b);
  }

  lemma Swapped(a: int, b: int)
    ensures a * b == b * a
  {
  }

  lemma EndFits(c: Shape, level: nat, start: nat, end: int)
    requires c.Ok() && Reachable(c, level, start, end) && c.freelim <= level < c.levels
    ensures end <= c.Cells(level)
  {
    CellsSpan(c, level);
    MulMonotone(1, level, c.gran);
    AtMostCells(end, c.Cells(level), Pow2(c.gran * level), c.Top());
  }

  // ----- quantiles -----

  /** `q` is the smallest value that more than `t` items of the window do not exceed (the top if none is). */
  ghost predicate IsQuantile(c: Shape, w: seq<int>, t: real, q: int) {
    && 0 <= q <= c.Top()
    && (q < c.Top() ==> InRange(c, w, 0, q) as real > t)
    && (q > 0 ==> InRange(c, w, 0, q - 1) as real <= t)
  }

  /** Where CMH_FindRange(sum) stops: `low` and `low + 1` bracket the answer of the range query. */
  ghost predicate BracketLeft(c: Shape, w: seq<int>, sum: int, low: nat)
    requires c.Ok()
  {
    && low < c.Top()
    && (low > 0 ==> Rangesum(c, w, 0, low) <= sum)
    && (low + 1 < c.Top() ==> Rangesum(c, w, 0, low + 1) > sum)
  }

  /** Where CMH_AltFindRange(sum) stops: the same from the right end of the universe. */
  ghost predicate BracketRight(c: Shape, w: seq<int>, sum: int, low: nat)
    requires c.Ok()
  {
    && low < c.Top()
    && (low > 0 ==> Rangesum(c, w, low, c.Top()) >= sum)
    && (low + 1 < c.Top() ==> Rangesum(c, w, low + 1, c.Top()) < sum)
  }

  /** At most `sum` window items are at or below the left bracket, fewer than `sum` at or above the right one. */
  lemma BracketCounts(c: Shape, w: seq<int>, sum: int, low: nat)
    requires c.Ok() && Accepted(c, w) && |w| <= c.windowSize
    ensures BracketLeft(c, w, sum, low) && low > 0 ==> InRange(c, w, 0, low) <= sum
    ensures BracketRight(c, w, sum, low) && low + 1 < c.Top() ==> InRange(c, w, low + 1, c.Top()) < sum
  {
    RangesumNeverUnder(c, w, 0, low);
    RangesumNeverUnder(c, w, low + 1, c.Top());
  }

  ghost predicate QuantilesWithin(c: Shape, w: seq<int>, t: real, lo: int, hi: int) {
    forall q :: IsQuantile(c, w, t, q) ==> lo <= q <= hi
  }

  /** The odd one of `low` and `low + 1`: the last place that a search halving down to them looked at. */
  function OddEnd(low: nat): nat {
    if low % 2 == 1 then low else low + 1
  }

  /** A search from the left stopped at `mid`, the odd one of two neighbours that bracket `sum`. */
  ghost predicate LeftAt(c: Shape, w: seq<int>, sum: int, mid: nat, low: nat)
    requires c.Ok()
  {
    && BracketLeft(c, w, sum, low) && mid == OddEnd(low)
    && (low > 0 ==> InRange(c, w, 0, low) <= sum)
  }

  /** What CMH_FindRange promises. */
  ghost predicate StopsLeft(c: Shape, w: seq<int>, sum: int, mid: nat)
    requires c.Ok()
  {
    exists low: nat :: LeftAt(c, w, sum, mid, low)
  }

  /** A search from the right stopped at `mid`. */
  ghost predicate RightAt(c: Shape, w: seq<int>, sum: int, mid: nat, low: nat)
    requires c.Ok()
  {
    && BracketRight(c, w, sum, low) && mid == OddEnd(low)
    && (low + 1 < c.Top() ==> InRange(c, w, low + 1, c.Top()) < sum)
  }

  /** What CMH_AltFindRange promises. */
  ghost predicate StopsRight(c: Shape, w: seq<int>, sum: int, mid: nat)
    requires c.Ok()
  {
    exists low: nat :: RightAt(c, w, sum, mid, low)
  }

  lemma OddHalf(mid: nat, low: nat, half: nat)
    requires low <= mid <= low + 1 && mid == 2 * half + 1
    ensures mid == OddEnd(low)
  {
  }

  lemma StoppedLeft(c: Shape, w: seq<int>, sum: int, mid: nat, low: nat, half: nat, atLow: int, atHigh: int)
    requires c.Ok() && Accepted(c, w) && |w| <= c.windowSize
    requires atLow == Rangesum(c, w, 0, low) && atHigh == Rangesum(c, w, 0, low + 1)
    requires low < c.Top() && low <= mid <= low + 1 && mid == 2 * half + 1
    requires low > 0 ==> atLow <= sum
    requires low + 1 < c.Top() ==> atHigh > sum
    ensures StopsLeft(c, w, sum, mid)
  {
    BracketCounts(c, w, sum, low);
    OddHalf(mid, low, half);
    assert LeftAt(c, w, sum, mid, low);
  }

  lemma StoppedRight(c: Shape, w: seq<int>, sum: int, mid: nat, low: nat, half: nat, atLow: int, atHigh: int)
    requires c.Ok() && Accepted(c, w) && |w| <= c.windowSize
    requires atLow == Rangesum(c, w, low, c.Top()) && atHigh == Rangesum(c, w, low + 1, c.Top())
    requires low < c.Top() && low <= mid <= low + 1 && mid == 2 * half + 1
    requires low > 0 ==> atLow >= sum
    requires low + 1 < c.Top() ==> atHigh < sum
    ensures StopsRight(c, w, sum, mid)
  {
    BracketCounts(c, w, sum, low);
    OddHalf(mid, low, half);
    assert RightAt(c, w, sum, mid, low);
  }

  /** The estimates next to two brackets are exact, and the left one is not at the excepted query. */
  ghost predicate ExactNextTo(c: Shape, w: seq<int>, lowA: nat, lowB: nat)
    requires c.Ok()
  {
    && (lowA + 1 < c.Top() ==> lowA + 2 != c.Base() - 1 && ExactQueries(c, w, 0, 0, lowA + 2))
    && (lowB > 0 ==> ExactQueries(c, w, 0, lowB, c.Top() + 1))
  }

  /**
   What CMH_Quantile promises of its answer `res` for rank `t`: it is exactly half-way between the places
   where the searches for `left` and `right` stopped; every quantile of that rank lies, with it, between
   their brackets; and if the rank is an integer and the estimates next to the brackets are exact, every
   quantile is within one of it.
   */
  ghost predicate Halfway(c: Shape, w: seq<int>, left: int, right: int, t: real, res: int)
    requires c.Ok()
  {
    exists lowA: nat, lowB: nat :: HalfwayBetween(c, w, left, right, t, res, lowA, lowB)
  }

  ghost predicate HalfwayBetween(c: Shape, w: seq<int>, left: int, right: int, t: real, res: int, lowA: nat, lowB: nat)
    requires c.Ok()
  {
    && BracketLeft(c, w, left, lowA) && BracketRight(c, w, right, lowB)
    && 2 * res == OddEnd(lowA) + OddEnd(lowB)
    && lowA <= res <= lowB + 1
    && QuantilesWithin(c, w, t, lowA, lowB + 1)
    && (t == t.Floor as real && ExactNextTo(c, w, lowA, lowB) ==> QuantilesWithin(c, w, t, res - 1, res + 1))
  }

  /** The rank that a fraction of the window stands for, and the two integer search targets. */
  function Rank(c: Shape, frac: real): real {
    c.windowSize as real * frac
  }

  lemma Targets(c: Shape, frac: real)
    requires 0.0 <= frac <= 1.0
    ensures 0.0 <= Rank(c, frac)
    ensures Rank(c, frac).Floor as real <= Rank(c, frac)
    ensures Rank(c, 1.0 - frac).Floor as real <= c.windowSize as real - Rank(c, frac)
  {
    assert Rank(c, 1.0 - frac) == c.windowSize as real - Rank(c, frac);
  }

  lemma QuantileBetween(c: Shape, w: seq<int>, t: real, left: int, right: int, lowA: nat, lowB: nat, q: int)
    requires c.Ok() && Accepted(c, w) && |w| == c.windowSize
    requires left as real <= t && right as real <= c.windowSize as real - t
    requires BracketLeft(c, w, left, lowA)
    requires BracketRight(c, w, right, lowB)
    requires IsQuantile(c, w, t, q)
    ensures lowA <= q <= lowB + 1 && (lowA > 0 ==> lowA < q)
  {
    BracketCounts(c, w, left, lowA);
    BracketCounts(c, w, right, lowB);
    if lowA > 0 && q <= lowA { InRangeMonotone(c, w, q, lowA); }
    InRangeSplit(c, w, lowB);
    if lowB + 1 < c.Top() && q > lowB { InRangeMonotone(c, w, lowB, q - 1); }
  }

  /**
   CMH_Quantile averages the ends `a` and `b` of the two searches. On a full window, whatever the
   collisions and although neither search runs over a monotone function, its answer and the true
   quantile both lie between the left bracket of the one and the right bracket of the other.
   */
  lemma QuantileSound(c: Shape, w: seq<int>, frac: real, lowA: nat, a: nat, lowB: nat, b: nat)
    requires c.Ok() && Accepted(c, w) && |w| == c.windowSize && 0.0 <= frac <= 1.0
    requires BracketLeft(c, w, Rank(c, frac).Floor, lowA)
    requires BracketRight(c, w, Rank(c, 1.0 - frac).Floor, lowB)
    requires lowA <= a <= lowA + 1 && lowB <= b <= lowB + 1
    ensures lowA <= (a + b) / 2 <= lowB + 1
    ensures QuantilesWithin(c, w, Rank(c, frac), lowA, lowB + 1)
  {
    var t, left, right := Rank(c, frac), Rank(c, frac).Floor, Rank(c, 1.0 - frac).Floor;
    Targets(c, frac);
    forall q | IsQuantile(c, w, t, q) ensures lowA <= q <= lowB + 1 {
      QuantileBetween(c, w, t, left, right, lowA, lowB, q);
    }
    var q := QuantileExists(c, w, t);
    QuantileBetween(c, w, t, left, right, lowA, lowB, q);
  }

  /** From the second value on no interval of the loop is an excepted one: it never starts on a boundary. */
  lemma {:induction false} FromOneNotDoubled(c: Shape, level: nat, end: int)
    requires c.gran >= 1
    ensures !Doubled(c, level, 1, end)
    decreases c.levels + 1 - level
  {
    ParentOfSmall(c, 1);
    if level <= c.levels && end - 1 + 1 >= c.Base() && end != 1 { FromOneNotDoubled(c, level + 1, Parent(c, end)); }
  }

  /** Of the queries that start at 0, only the one of the first `Base() - 1` values is excepted. */
  lemma DoubledFromZero(c: Shape, end: int)
    requires c.Ok()
    ensures Doubled(c, 0, 0, end) <==> end == c.Base() - 1 && end > 0
  {
    ParentOfSmall(c, 0);
    if end != 0 && end + 1 >= c.Base() { FromOneNotDoubled(c, 1, Parent(c, end)); }
  }

  /**
   How wide the left bracket is: if the query just above it has exact estimates and is not the excepted
   one, every quantile of that rank is one of the bracket's two ends, and the upper one unless the
   lower end is 0.
   */
  lemma LeftBracketTight(c: Shape, w: seq<int>, t: real, low: nat, q: int)
    requires c.Ok() && Accepted(c, w) && |w| <= c.windowSize && t >= 0.0
    requires BracketLeft(c, w, t.Floor, low) && IsQuantile(c, w, t, q)
    requires low + 1 < c.Top() ==> low + 2 != c.Base() - 1 && ExactQueries(c, w, 0, 0, low + 2)
    ensures low <= q <= low + 1 && (low > 0 ==> q == low + 1)
  {
    BracketCounts(c, w, t.Floor, low);
    if low + 1 < c.Top() {
      DoubledFromZero(c, low + 2);
      RangesumExact(c, w, 0, low + 1);
    }
    PinnedQuantile(c, w, t, low, q);
  }

  lemma PinnedQuantile(c: Shape, w: seq<int>, t: real, low: nat, q: int)
    requires t >= 0.0 && low < c.Top() && IsQuantile(c, w, t, q)
    requires low > 0 ==> InRange(c, w, 0, low) <= t.Floor
    requires low + 1 < c.Top() ==> InRange(c, w, 0, low + 1) > t.Floor
    ensures low <= q <= low + 1 && (low > 0 ==> q == low + 1)
  {
    if low > 0 && q <= low { InRangeMonotone(c, w, q, low); }
    if low + 1 < c.Top() && q > low + 1 { InRangeMonotone(c, w, low + 1, q - 1); }
  }

  lemma PowerBlock(c: Shape, e: nat)
    requires e >= c.gran
    ensures Pow2(e) == Pow2(e - c.gran) * c.Base() && Parent(c, Pow2(e)) == Pow2(e - c.gran)
  {
    Pow2Add(e - c.gran, c.gran);
    DivMod(Pow2(e), c.Base(), Pow2(e - c.gran), 0);
  }

  /** `start` blocks below a boundary is a boundary only if `start` is. */
  lemma NoBoundary(c: Shape, start: nat, end: nat, p: nat, less: nat)
    requires end == p * c.Base() + less && less < 2 && start + c.Base() - 1 == end && less + 1 < c.Base()
    ensures start != Parent(c, start) * c.Base()
  {
    var b, s := c.Base(), Parent(c, start);
    if start == s * b {
      assert s * b + b == p * b + (less + 1);
      assert (s + 1) * b == s * b + b;
      DivMod(p * b + (less + 1), b, p, less + 1);
      DivMod((s + 1) * b, b, s + 1, 0);
    }
  }

  /** An interval that ends at a power of two is never an excepted one, and neither is what it leaves. */
  lemma {:induction false} UpToPowerNotDoubled(c: Shape, level: nat, start: nat, e: nat)
    requires c.gran >= 1 && start > 0
    ensures !Doubled(c, level, start, Pow2(e))
    decreases c.levels + 1 - level
  {
    var end := Pow2(e);
    if level <= c.levels && start != end && end - start + 1 >= c.Base() {
      if e < c.gran { Pow2StrictlyMonotone(e, c.gran); }
      PowerBlock(c, e);
      if end - start == c.Base() - 1 { NoBoundary(c, start, end, Pow2(e - c.gran), 0); }
      UpToPowerNotDoubled(c, level + 1, Parent(c, start) + 1, e - c.gran);
    }
  }

  lemma TopBlock(c: Shape)
    requires c.Ok()
    ensures c.Top() == Pow2(c.U - c.gran) * c.Base() && Parent(c, c.Top() + 1) == Pow2(c.U - c.gran)
  {
    PowerBlock(c, c.U);
    DivMod(c.Top() + 1, c.Base(), Pow2(c.U - c.gran), 1);
  }

  /** Of the queries that end at the top of the universe, none that starts below it is excepted. */
  lemma DoubledToTop(c: Shape, start: nat)
    requires c.Ok() && start < c.Top()
    ensures !Doubled(c, 0, start, c.Top() + 1)
  {
    var end := c.Top() + 1;
    if end - start + 1 >= c.Base() {
      TopBlock(c);
      if end - start == c.Base() - 1 { NoBoundary(c, start, end, Pow2(c.U - c.gran), 1); }
      UpToPowerNotDoubled(c, 1, Parent(c, start) + 1, c.U - c.gran);
    }
  }

  /**
   How wide the right bracket is, for an integer rank, which leaves the integer target `sum`: if the
   query at the lower end has exact estimates, every quantile of that rank is the lower end, or at the
   top of the universe one of the two ends.
   */
  lemma RightBracketTight(c: Shape, w: seq<int>, sum: int, low: nat, q: int)
    requires c.Ok() && Accepted(c, w) && |w| <= c.windowSize
    requires BracketRight(c, w, sum, low) && IsQuantile(c, w, (|w| - sum) as real, q)
    requires low > 0 ==> ExactQueries(c, w, 0, low, c.Top() + 1)
    ensures low <= q <= low + 1 && (low + 1 < c.Top() ==> q == low)
  {
    BracketCounts(c, w, sum, low);
    if low > 0 {
      DoubledToTop(c, low);
      RangesumExact(c, w, low, c.Top());
    }
    PinnedFromTop(c, w, sum, low, q);
  }

  lemma PinnedFromTop(c: Shape, w: seq<int>, sum: int, low: nat, q: int)
    requires Accepted(c, w) && low < c.Top() && IsQuantile(c, w, (|w| - sum) as real, q)
    requires low > 0 ==> InRange(c, w, low, c.Top()) >= sum
    requires low + 1 < c.Top() ==> InRange(c, w, low + 1, c.Top()) < sum
    ensures low <= q <= low + 1 && (low + 1 < c.Top() ==> q == low)
  {
    InRangeSplit(c, w, low);
    InRangeSplit(c, w, low - 1);
    if q < low { InRangeMonotone(c, w, q, low - 1); }
    if low + 1 < c.Top() && q > low { InRangeMonotone(c, w, low, q - 1); }
  }

  lemma IntegerTargets(c: Shape, frac: real, rank: nat)
    requires Rank(c, frac) == rank as real
    ensures Rank(c, frac).Floor == rank && Rank(c, 1.0 - frac).Floor == c.windowSize - rank
  {
    assert Rank(c, 1.0 - frac) == c.windowSize as real - Rank(c, frac);
  }

  /**
   What CMH_Quantile is worth where the sketch is exact: on a full window, for a fraction that is an
   integer rank, and with exact estimates next to both brackets, its answer is within one of every
   quantile of that rank.
   */
  lemma QuantileWithinOne(c: Shape, w: seq<int>, frac: real, rank: nat, lowA: nat, a: nat, lowB: nat, b: nat, q: int)
    requires c.Ok() && Accepted(c, w) && |w| == c.windowSize && Rank(c, frac) == rank as real
    requires BracketLeft(c, w, Rank(c, frac).Floor, lowA) && lowA <= a <= lowA + 1
    requires BracketRight(c, w, Rank(c, 1.0 - frac).Floor, lowB) && lowB <= b <= lowB + 1
    requires lowA + 1 < c.Top() ==> lowA + 2 != c.Base() - 1 && ExactQueries(c, w, 0, 0, lowA + 2)
    requires lowB > 0 ==> ExactQueries(c, w, 0, lowB, c.Top() + 1)
    requires IsQuantile(c, w, Rank(c, frac), q)
    ensures -1 <= (a + b) / 2 - q <= 1
  {
    IntegerTargets(c, frac, rank);
    LeftBracketTight(c, w, rank as real, lowA, q);
    RightBracketTight(c, w, |w| - rank, lowB, q);
  }

  /**
   The integer rank matters. Every rank above the window size less one floors to a target of 0 on the
   right, and that sends the right-hand search to the top, and the answer to at least the middle of the
   universe, whatever the window holds.
   */
  lemma ZeroTargetAtTop(c: Shape, w: seq<int>, frac: real, low: nat, a: nat, b: nat)
    requires c.Ok() && frac <= 1.0 && Rank(c, frac) > c.windowSize as real - 1.0 && low <= b
    ensures BracketRight(c, w, Rank(c, 1.0 - frac).Floor, low) <==> low + 1 == c.Top()
    ensures low + 1 == c.Top() ==> (a + b) / 2 >= (c.Top() - 1) / 2
  {
    NoTarget(c, frac);
  }

  lemma NoTarget(c: Shape, frac: real)
    requires frac <= 1.0 && Rank(c, frac) > c.windowSize as real - 1.0
    ensures Rank(c, 1.0 - frac).Floor == 0
  {
    var rest := 1.0 - frac;
    assert Rank(c, rest) == c.windowSize as real - Rank(c, frac);
    assert c.windowSize as real * rest >= 0.0;
  }

  /** The answer for rank `t`, with `rest` for what lies above it: both targets are rounded down. */
  ghost predicate AnswerFor(c: Shape, w: seq<int>, t: real, rest: real, res: int)
    requires c.Ok()
  {
    && Halfway(c, w, t.Floor, rest.Floor, t, res)
    && (t > c.windowSize as real - 1.0 ==> 2 * res >= c.Top())
  }

  /** What CMH_Quantile promises of its answer to a fraction. */
  ghost predicate QuantileAnswer(c: Shape, w: seq<int>, frac: real, res: int)
    requires c.Ok()
  {
    AnswerFor(c, w, c.windowSize as real * frac, c.windowSize as real * (1.0 - frac), res)
  }

  lemma IsAnswerFor(c: Shape, w: seq<int>, frac: real, t: real, rest: real, a: nat, b: nat, res: int)
    requires c.Ok() && Accepted(c, w) && |w| == c.windowSize && 0.0 <= frac <= 1.0
    requires t == Rank(c, frac) && rest == Rank(c, 1.0 - frac) && res == (a + b) / 2
    requires StopsLeft(c, w, t.Floor, a) && StopsRight(c, w, rest.Floor, b)
    ensures AnswerFor(c, w, t, rest, res)
  {
    QuantileAnswered(c, w, frac, t, t.Floor, rest.Floor, a, b);
    if t > c.windowSize as real - 1.0 { AnsweredPastMiddle(c, w, frac, rest.Floor, a, b); }
  }

  lemma QuantileIsAnswer(c: Shape, w: seq<int>, frac: real, a: nat, b: nat, res: int)
    requires c.Ok() && Accepted(c, w) && |w| == c.windowSize && 0.0 <= frac <= 1.0
    requires StopsLeft(c, w, Rank(c, frac).Floor, a) && StopsRight(c, w, Rank(c, 1.0 - frac).Floor, b)
    requires res == (a + b) / 2
    ensures QuantileAnswer(c, w, frac, res)
  {
    IsAnswerFor(c, w, frac, Rank(c, frac), Rank(c, 1.0 - frac), a, b, res);
  }

  lemma AnsweredWithinOne(c: Shape, w: seq<int>, frac: real, lowA: nat, a: nat, lowB: nat, b: nat)
    requires c.Ok() && Accepted(c, w) && |w| == c.windowSize && 0.0 <= frac <= 1.0
    requires BracketLeft(c, w, Rank(c, frac).Floor, lowA) && lowA <= a <= lowA + 1
    requires BracketRight(c, w, Rank(c, 1.0 - frac).Floor, lowB) && lowB <= b <= lowB + 1
    requires Rank(c, frac) == Rank(c, frac).Floor as real && ExactNextTo(c, w, lowA, lowB)
    ensures QuantilesWithin(c, w, Rank(c, frac), (a + b) / 2 - 1, (a + b) / 2 + 1)
  {
    var t := Rank(c, frac);
    Targets(c, frac);
    forall q | IsQuantile(c, w, t, q) ensures -1 <= (a + b) / 2 - q <= 1 {
      QuantileWithinOne(c, w, frac, t.Floor, lowA, a, lowB, b, q);
    }
  }

  lemma OddEnds(lowA: nat, lowB: nat)
    ensures lowA <= OddEnd(lowA) <= lowA + 1 && lowB <= OddEnd(lowB) <= lowB + 1
    ensures 2 * ((OddEnd(lowA) + OddEnd(lowB)) / 2) == OddEnd(lowA) + OddEnd(lowB)
  {
  }

  lemma HalfwayAnswer(c: Shape, w: seq<int>, frac: real, lowA: nat, a: nat, lowB: nat, b: nat)
    requires c.Ok() && Accepted(c, w) && |w| == c.windowSize && 0.0 <= frac <= 1.0
    requires BracketLeft(c, w, Rank(c, frac).Floor, lowA) && lowA <= a <= lowA + 1
    requires BracketRight(c, w, Rank(c, 1.0 - frac).Floor, lowB) && lowB <= b <= lowB + 1
    ensures lowA <= (a + b) / 2 <= lowB + 1
    ensures QuantilesWithin(c, w, Rank(c, frac), lowA, lowB + 1)
    ensures Rank(c, frac) == Rank(c, frac).Floor as real && ExactNextTo(c, w, lowA, lowB) ==>
              QuantilesWithin(c, w, Rank(c, frac), (a + b) / 2 - 1, (a + b) / 2 + 1)
  {
    QuantileSound(c, w, frac, lowA, a, lowB, b);
    if Rank(c, frac) == Rank(c, frac).Floor as real && ExactNextTo(c, w, lowA, lowB) {
      AnsweredWithinOne(c, w, frac, lowA, a, lowB, b);
    }
  }

  /** The two searches together answer as promised. */
  lemma QuantileAnswered(c: Shape, w: seq<int>, frac: real, t: real, left: int, right: int, a: nat, b: nat)
    requires c.Ok() && Accepted(c, w) && |w| == c.windowSize && 0.0 <= frac <= 1.0
    requires t == Rank(c, frac) && left == t.Floor && right == Rank(c, 1.0 - frac).Floor
    requires StopsLeft(c, w, left, a) && StopsRight(c, w, right, b)
    ensures Halfway(c, w, left, right, t, (a + b) / 2)
  {
    var lowA: nat :| LeftAt(c, w, left, a, lowA);
    var lowB: nat :| RightAt(c, w, right, b, lowB);
    OddEnds(lowA, lowB);
    HalfwayAnswer(c, w, frac, lowA, a, lowB, b);
    assert HalfwayBetween(c, w, left, right, t, (a + b) / 2, lowA, lowB);
  }

  /** A target of 0 on the right sends the answer past the middle. */
  lemma AnsweredPastMiddle(c: Shape, w: seq<int>, frac: real, right: int, a: nat, b: nat)
    requires c.Ok() && frac <= 1.0 && Rank(c, frac) > c.windowSize as real - 1.0
    requires right == Rank(c, 1.0 - frac).Floor && StopsRight(c, w, right, b) && a >= 1
    ensures 2 * ((a + b) / 2) >= c.Top()
  {
    var lowB: nat :| RightAt(c, w, right, b, lowB);
    NoTarget(c, frac);
    assert c.Top() == 2 * Pow2(c.U - 1);
  }

  lemma QuantileExists(c: Shape, w: seq<int>, t: real) returns (q: int)
    requires t >= 0.0
    ensures IsQuantile(c, w, t, q)
  {
    q := 0;
    while q < c.Top() && InRange(c, w, 0, q) as real <= t
      invariant 0 <= q <= c.Top()
      invariant q > 0 ==> InRange(c, w, 0, q - 1) as real <= t
    {
      q := q + 1;
    }
  }
}
