/**
 The sketch of rdma_pacer/countmin.c as the source keeps it: one array of cells per level, changed in
 place, over the ring buffer that remembers the window.
 */
module Sketch {
  import opened Arith
  import opened Hash31
  import opened SketchSpec
  import Queue
  import Prng

  /**
   A search that halves `0 .. 2^U` is down to `lo .. high`, of length `2^n`: it goes on to the right of
   the one end and to the left of the other. In the end the last look was at an odd place.
   */
  ghost predicate Closing(left: nat -> bool, U: nat, n: nat, lo: nat, high: nat, mid: nat, half: nat) {
    && high == lo + Pow2(n) && high <= Pow2(U)
    && (lo > 0 ==> !left(lo))
    && (high < Pow2(U) ==> left(high))
    && if n > 0 then lo == 2 * half else mid == 2 * half + 1 && (mid == lo || mid == high)
  }

  /** One look in the middle. */
  lemma CloseIn(left: nat -> bool, U: nat, n: nat, lo: nat, high: nat, before: nat, mid: nat, half: nat)
    returns (next: nat)
    requires n > 0 && mid == (lo + high) / 2 && Closing(left, U, n, lo, high, before, half)
    ensures if left(mid) then Closing(left, U, n - 1, lo, mid, mid, next)
            else Closing(left, U, n - 1, mid, high, mid, next)
  {
    assert Pow2(n) == 2 * Pow2(n - 1);
    next := half;
    if n > 1 && !left(mid) { next := half + Pow2(n - 2); }
  }

  class CMH {
    const shape: Shape
    const counts: seq<array<int>>
    const items: Queue.Queue
    var count: nat

    /** Every level has an array of its own, of the size that CMH_Init gave it. */
    ghost predicate Allocated() {
      && shape.Ok()
      && |counts| == shape.levels
      && (forall l :: 0 <= l < |counts| ==> counts[l].Length == shape.Cells(l))
      && (forall l, m :: 0 <= l < m < |counts| ==> counts[l] != counts[m])
      && items.array_ !in counts
    }

    /** The cells agree with a window: each holds the number of its items that fall there. */
    ghost predicate Holds(w: seq<int>)
      requires Allocated()
      reads counts
    {
      forall l, k :: 0 <= l < shape.levels && 0 <= k < shape.Cells(l)
                     ==> counts[l][k] == CellCount(shape, w, l, k)
    }

    /** The last `count` items that were accepted, oldest first. */
    ghost function Window(): seq<int>
      requires items.Valid()
      reads items, items.array_
    {
      items.Contents()
    }

    ghost predicate Valid()
      reads this, items, items.array_, counts
    {
      && Allocated()
      && items.Valid() && items.size == shape.windowSize + 1
      && count == |Window()| <= shape.windowSize
      && Accepted(shape, Window())
      && (forall x :: x in Window() ==> Fits(shape, x))
      && Holds(Window())
    }

    constructor Empty(shape: Shape, counts: seq<array<int>>, items: Queue.Queue)
      requires shape.Ok() && |counts| == shape.levels
      requires forall l :: 0 <= l < |counts| ==> counts[l].Length == shape.Cells(l)
      requires forall l, m :: 0 <= l < m < |counts| ==> counts[l] != counts[m]
      requires forall l, k :: 0 <= l < |counts| && 0 <= k < counts[l].Length ==> counts[l][k] == 0
      requires items.Valid() && items.size == shape.windowSize + 1 && items.Contents() == []
      requires items.array_ !in counts
      ensures this.shape == shape && this.counts == counts && this.items == items
      ensures Valid() && Window() == []
    {
      this.shape, this.counts, this.items, this.count := shape, counts, items, 0;
    }

    // ----- updates -----

    /** The row loop of an update at a sketched level. */
    method BumpRows(level: nat, node: nat, delta: int)
      requires Allocated() && level < shape.freelim
      modifies counts[level]
      ensures forall k :: 0 <= k < shape.Cells(level) ==>
                counts[level][k] == old(counts[level][k]) + if Hits(shape, level, k, node) then delta else 0
    {
      var a := counts[level];
      ghost var hits := HitMap(shape, level, node);
      var offset := 0;
      for j := 0 to shape.depth
        invariant offset == j * shape.width <= a.Length
        invariant forall k :: 0 <= k < offset ==> a[k] == old(a[k]) + if hits[k] then delta else 0
        invariant forall k :: offset <= k < a.Length ==> a[k] == old(a[k])
      {
        var cell := Hash(shape.hasha[level][j], shape.hashb[level][j], node) % shape.width + offset;
        RowCells(shape, level, j, node, hits, offset, cell);
        a[cell] := a[cell] + delta;
        offset := offset + shape.width;
      }
    }

    /** One turn of the level loop. */
    method BumpLevel(level: nat, node: nat, delta: int)
      requires Allocated() && level < shape.levels
      requires level >= shape.freelim ==> node < shape.Cells(level)
      modifies counts[level]
      ensures forall k :: 0 <= k < shape.Cells(level) ==>
                counts[level][k] == old(counts[level][k]) + if Hits(shape, level, k, node) then delta else 0
    {
      if level >= shape.freelim {
        counts[level][node] := counts[level][node] + delta;
      } else {
        BumpRows(level, node, delta);
      }
    }

    /** The level loop that CMH_Delete runs with -1 and CMH_Update with +1. */
    method Bump(item: nat, delta: int)
      requires Allocated() && Fits(shape, item)
      modifies counts
      ensures forall l, k :: 0 <= l < shape.levels && 0 <= k < shape.Cells(l) ==>
                counts[l][k] == old(counts[l][k]) + delta * InCell(shape, l, k)(item)
    {
      var node := item;
      for i := 0 to shape.levels
        invariant node == Shift(shape, item, i)
        invariant forall l, k :: 0 <= l < i && 0 <= k < shape.Cells(l) ==>
                    counts[l][k] == old(counts[l][k]) + delta * InCell(shape, l, k)(item)
        invariant forall l, k :: i <= l < shape.levels && 0 <= k < shape.Cells(l) ==>
                    counts[l][k] == old(counts[l][k])
      {
        BumpLevel(i, node, delta);
        node := Parent(shape, node);
      }
    }

    /** Takes the oldest item of a window out of every level. */
    method Delete(item: nat, ghost rest: seq<int>)
      requires Allocated() && Fits(shape, item) && Holds([item] + rest)
      modifies counts
      ensures Holds(rest)
    {
      forall l, k | 0 <= l < shape.levels && 0 <= k < shape.Cells(l)
        ensures CellCount(shape, [item] + rest, l, k) == CellCount(shape, rest, l, k) + InCell(shape, l, k)(item)
      {
        assert ([item] + rest)[1..] == rest;
      }
      Bump(item, -1);
    }

    method Insert(item: nat, ghost w: seq<int>)
      requires Allocated() && Fits(shape, item) && Holds(w)
      modifies counts
      ensures Holds(w + [item])
    {
      forall l, k | 0 <= l < shape.levels && 0 <= k < shape.Cells(l)
        ensures CellCount(shape, w + [item], l, k) == CellCount(shape, w, l, k) + InCell(shape, l, k)(item)
      {
        TotalAppend(w, item, InCell(shape, l, k));
      }
      Bump(item, 1);
    }

    /** Returns 0 when the item entered the window and 1, changing nothing, when it is out of range. */
    method Update(item: int) returns (status: int)
      requires Valid()
      // the guard lets 2^U through; see FitsIff for when that item has a cell at every level
      requires 0 <= item <= shape.Top() ==> Fits(shape, item)
      modifies this`count, items, items.array_, counts
      ensures Valid()
      ensures status == if 0 <= item <= shape.Top() then 0 else 1
      ensures status == 1 ==> Window() == old(Window())
      ensures status == 0 ==> Window() == Slide(old(Window()), item, shape.windowSize)
    {
      if item > shape.Top() {
        return 1;
      }
      if item < 0 {
        return 1;
      }
      CleanSlide(item);
      if count < shape.windowSize {
        count := count + 1;
      } else {
        EvictOldest();
      }
      ghost var w := Window();
      var pushed := items.Push(item);
      assert pushed;
      Insert(item, w);
      return 0;
    }

    lemma CleanSlide(item: int)
      requires Valid() && 0 <= item <= shape.Top() && Fits(shape, item)
      ensures var w := Slide(Window(), item, shape.windowSize);
              Accepted(shape, w) && forall x :: x in w ==> Fits(shape, x)
    {
      var w, v := Window(), Slide(Window(), item, shape.windowSize);
      assert forall x :: x in v ==> x in w || x == item;
    }

    /** The full-window branch of CMH_Update: the pop that never finds the ring empty. */
    method EvictOldest()
      requires Valid() && count == shape.windowSize
      modifies items, counts
      ensures items.Valid() && Allocated()
      ensures Window() == old(Window())[1..]
      ensures Holds(Window())
    {
      ghost var w := Window();
      var popped, oldest := items.Pop();
      assert popped && w == [oldest] + Window() && oldest == w[0];
      assert oldest in w;
      Delete(oldest, Window());
    }

    // ----- queries -----

    /** CMH_count: a node's estimate, read from the cells. */
    method Count(level: nat, node: nat) returns (estimate: int)
      requires Valid()
      requires shape.freelim <= level < shape.levels ==> node < shape.Cells(level)
      ensures estimate == Estimate(shape, Window(), level, node)
    {
      if level >= shape.levels {
        return shape.windowSize;
      }
      if level >= shape.freelim {
        return counts[level][node];
      }
      var offset := 0;
      estimate := counts[level][Hash(shape.hasha[level][0], shape.hashb[level][0], node) % shape.width + offset];
      assert estimate == CellCount(shape, Window(), level, Slot(shape, level, 0, node));
      for j := 1 to shape.depth
        invariant offset == (j - 1) * shape.width
        invariant estimate == MinRow(shape, Window(), level, node, j)
      {
        offset := offset + shape.width;
        var k := Hash(shape.hasha[level][j], shape.hashb[level][j], node) % shape.width + offset;
        assert k == Slot(shape, level, j, node);
        estimate := Min(estimate, counts[level][k]);
      }
    }

    /** CMH_Rangesum. `RangesumNeverUnder` says that the answer is never below the truth. */
    method RangeSum(start: nat, end: int) returns (result: int)
      requires Valid()
      ensures result == Rangesum(shape, Window(), start, end)
    {
      if end > shape.Top() && start == 0 {
        return shape.windowSize;
      }
      result := SumLevels(start, Min(shape.Top(), end) + 1, Window());
    }

    /** The block decomposition, level by level. */
    method SumLevels(start_: nat, end_: int, ghost w: seq<int>) returns (result: int)
      requires Valid() && w == Window() && end_ <= shape.Top() + 1
      ensures result == RangeFrom(shape, w, 0, start_, end_)
    {
      var start: nat, end: int := start_, end_;
      ghost var total := RangeFrom(shape, w, 0, start, end);
      result := 0;
      var level := 0;
      ReachableFirst(shape, start, end);
      while level <= shape.levels
        invariant 0 <= level <= shape.levels && result >= 0
        invariant Reachable(shape, level, start, end)
        invariant result + RangeFrom(shape, w, level, start, end) == total
        decreases shape.levels - level
      {
        TurnKeeps(shape, w, level, start, end, result, total);
        var part := SumLevel(level, start, end, w);
        result := result + part;
        if LastLevel(shape, start, end) {
          break;
        }
        start, end, level := Parent(shape, start) + 1, Parent(shape, end), level + 1;
      }
    }

    /** At an exact level both the interval and its left block end within the cells. */
    lemma EndsFit(level: nat, start: nat, end: int)
      requires shape.Ok() && Reachable(shape, level, start, end)
      ensures shape.freelim <= level < shape.levels && start < end ==>
                end <= shape.Cells(level) && start + LeftEnd(shape, start) <= shape.Cells(level)
    {
      if shape.freelim <= level < shape.levels && start < end {
        QueriesFit(shape, level, start, end, end - 1);
        QueriesFit(shape, level, start, end, start + LeftEnd(shape, start) - 1);
      }
    }

    /** What one turn of the level loop adds: all of a short interval, or the two ends of a long one. */
    method SumLevel(level: nat, start: nat, end: int, ghost w: seq<int>) returns (part: int)
      requires Valid() && w == Window() && Reachable(shape, level, start, end)
      ensures part == LevelSum(shape, w, level, start, end)
    {
      if start == end {
        part := 0;
      } else if end - start + 1 < shape.Base() {
        EndsFit(level, start, end);
        part := CountNodes(level, start, end, w);
      } else {
        EndsFit(level, start, end);
        part := CountEnds(level, start, end, LeftEnd(shape, start), RightEnd(shape, end), w);
      }
    }

    /** The nodes at the two ends of an interval that do not fill a block. */
    method CountEnds(level: nat, start: nat, end: nat, leftend: nat, rightend: nat, ghost w: seq<int>)
      returns (sum: int)
      requires Valid() && w == Window() && rightend <= end
      requires shape.freelim <= level < shape.levels ==>
                 start + leftend <= shape.Cells(level) && end <= shape.Cells(level)
      ensures sum == SumEstimates(shape, w, level, start, start + leftend)
                     + SumEstimates(shape, w, level, end - rightend, end)
    {
      var left := CountNodes(level, start, start + leftend, w);
      var right := CountNodesDown(level, end, rightend, w);
      sum := left + right;
    }

    /** Adds up the estimates of the nodes `start..hi-1`, left to right. */
    method CountNodes(level: nat, start: nat, hi: int, ghost w: seq<int>) returns (sum: int)
      requires Valid() && w == Window()
      requires shape.freelim <= level < shape.levels && start < hi ==> hi <= shape.Cells(level)
      ensures sum == SumEstimates(shape, w, level, start, hi)
    {
      sum := 0;
      var i := start;
      while i < hi
        invariant start <= i && (i <= hi || (i == start && sum == 0))
        invariant sum == SumEstimates(shape, w, level, start, i)
      {
        var e := Count(level, i);
        sum := sum + e;
        i := i + 1;
      }
    }

    /** Adds up the estimates of the last `n` nodes before `end`, right to left. */
    method CountNodesDown(level: nat, end: nat, n: nat, ghost w: seq<int>) returns (sum: int)
      requires Valid() && w == Window() && n <= end
      requires shape.freelim <= level < shape.levels ==> end <= shape.Cells(level)
      ensures sum == SumEstimates(shape, w, level, end - n, end)
    {
      sum := 0;
      for i := 0 to n
        invariant sum == SumEstimates(shape, w, level, end - i, end)
      {
        var e := Count(level, end - i - 1);
        sum := sum + e;
        SumEstimatesFirst(shape, w, level, end - i - 1, end);
      }
    }

    /**
     CMH_FindRange. The search stops at the odd one of two neighbours `low` and `low + 1`, so that at
     most `sum` items of the window are at or below `low`, unless the search never went right.
     */
    method FindRange(sum: int) returns (mid: nat)
      requires Valid()
      ensures StopsLeft(shape, Window(), sum, mid)
    {
      ghost var w, top := Window(), shape.Top();
      ghost var low, half;
      mid, low, half := HalveLeft(0, sum, (m: nat) => Rangesum(shape, w, 0, m) > sum);
      StoppedLeft(shape, w, sum, mid, low, half, Rangesum(shape, w, 0, low), Rangesum(shape, w, 0, low + 1));
    }

    /** Its loop, with 0 for `start`, and where that leaves `low`; `left` says where it goes to the left. */
    method HalveLeft(start: nat, sum: int, ghost left: nat -> bool) returns (mid: nat, ghost low: nat, ghost half: nat)
      requires Valid() && forall m: nat {:trigger Rangesum(shape, Window(), start, m)} ::
                 left(m) <==> Rangesum(shape, Window(), start, m) > sum
      ensures low < shape.Top() && low <= mid <= low + 1 && mid == 2 * half + 1
      ensures low > 0 ==> !left(low)
      ensures low + 1 < shape.Top() ==> left(low + 1)
    {
      var lo: nat, high := 0, shape.Top();
      half, mid := 0, 0;
      for i := 0 to shape.U
        invariant Closing(left, shape.U, shape.U - i, lo, high, mid, half)
      {
        ghost var before := mid;
        mid := (lo + high) / 2;
        var est := RangeSum(start, mid);
        assert left(mid) <==> est > sum;
        half := CloseIn(left, shape.U, shape.U - i, lo, high, before, mid, half);
        if est > sum {
          high := mid;
        } else {
          lo := mid;
        }
      }
      low := lo;
    }

    /** CMH_AltFindRange, the mirror search: fewer than `sum` items are above `low`. */
    method AltFindRange(sum: int) returns (mid: nat)
      requires Valid()
      ensures StopsRight(shape, Window(), sum, mid)
    {
      ghost var w, top := Window(), shape.Top();
      ghost var low, half;
      mid, low, half := HalveRight(sum, (m: nat) => Rangesum(shape, w, m, top) < sum);
      StoppedRight(shape, w, sum, mid, low, half, Rangesum(shape, w, low, top), Rangesum(shape, w, low + 1, top));
    }

    /** Its loop, and where that leaves `low`; `left` says at which places it goes to the left. */
    method HalveRight(sum: int, ghost left: nat -> bool) returns (mid: nat, ghost low: nat, ghost half: nat)
      requires Valid() && forall m: nat {:trigger Rangesum(shape, Window(), m, shape.Top())} ::
                 left(m) <==> Rangesum(shape, Window(), m, shape.Top()) < sum
      ensures low < shape.Top() && low <= mid <= low + 1 && mid == 2 * half + 1
      ensures low > 0 ==> !left(low)
      ensures low + 1 < shape.Top() ==> left(low + 1)
    {
      var lo: nat, high := 0, shape.Top();
      half, mid := 0, 0;
      for i := 0 to shape.U
        invariant Closing(left, shape.U, shape.U - i, lo, high, mid, half)
      {
        ghost var before := mid;
        mid := (lo + high) / 2;
        var est := RangeSum(mid, shape.Top());
        assert left(mid) <==> est < sum;
        half := CloseIn(left, shape.U, shape.U - i, lo, high, before, mid, half);
        if est < sum {
          high := mid;
        } else {
          lo := mid;
        }
      }
      low := lo;
    }

    /**
     CMH_Quantile over the reals. On a full window the answer is half-way between the places where the
     two searches stopped, and the true quantile lies in one interval with it; in an exact sketch, for an
     integer rank, it is within one of the quantile. A rank above the window size less one is answered
     with at least the middle of the universe, whatever the window holds.
     */
    method Quantile(frac: real) returns (res: int)
      requires Valid()
      ensures frac < 0.0 || count < shape.windowSize ==> res == 0
      ensures frac > 1.0 && count == shape.windowSize ==> res == shape.Top()
      ensures 0.0 <= frac <= 1.0 && count == shape.windowSize ==>
                QuantileAnswer(shape, Window(), frac, res)
    {
      if frac < 0.0 || count < shape.windowSize {
        return 0;
      }
      if frac > 1.0 {
        return shape.Top();
      }
      var a := FindRange(Rank(shape, frac).Floor);
      var b := AltFindRange(Rank(shape, 1.0 - frac).Floor);
      res := (a + b) / 2;
      QuantileIsAnswer(shape, Window(), frac, a, b, res);
    }
  }

  /** The window after one more item: the last `size` items seen. */
  function Slide(w: seq<int>, item: int, size: nat): seq<int>
    requires size >= 1
  {
    if |w| < size then w + [item] else w[1..] + [item]
  }

  /** The level `j` places below the virtual top one is exact precisely if `2^(gran*j)` cells are not too many. */
  ghost predicate ExactWhereCheaper(c: Shape) {
    forall j :: 0 <= j < c.levels ==> (c.levels - j >= c.freelim <==> Pow2(c.gran * j) <= c.depth * c.width)
  }

  /**
   CMH_Init. The answer is null exactly for the parameters the source turns down; otherwise it is a
   sketch of the empty window that keeps exact counts at precisely those levels above the lowest
   where they take no more cells than a sketch would, and whose hash functions are what the generator
   seeded with -12784 yields.
   */
  method Init(width: nat, depth: nat, U: int, gran: int, windowSize: nat) returns (cmh: CMH?)
    requires width >= 1 && depth >= 1 && windowSize >= 1
    ensures cmh == null <==> U <= 0 || U >= 32 || gran > U || gran < 1
    ensures cmh != null ==>
              && cmh.Valid() && cmh.Window() == [] && fresh(cmh) && fresh(cmh.items) && fresh(cmh.items.array_)
              && (forall a :: a in cmh.counts ==> fresh(a))
              && cmh.shape.U == U && cmh.shape.gran == gran && cmh.shape.windowSize == windowSize
              && cmh.shape.width == width && cmh.shape.depth == depth
              && ExactWhereCheaper(cmh.shape) && HashesDrawn(cmh.shape)
  {
    if U <= 0 || U >= 32 {
      return null;
    }
    if gran > U || gran < 1 {
      return null;
    }
    var shape := Parameters(width, depth, U, gran, windowSize);
    var items := new Queue.Queue(windowSize);
    var counts := AllocateLevels(shape);
    cmh := new CMH.Empty(shape, counts, items);
  }

  /** Levels, the limit of exact counting, and the hash functions. */
  method Parameters(width: nat, depth: nat, U: nat, gran: nat, windowSize: nat) returns (shape: Shape)
    requires width >= 1 && depth >= 1 && windowSize >= 1 && 1 <= gran <= U
    ensures shape.Ok() && ExactWhereCheaper(shape) && HashesDrawn(shape)
    ensures shape.U == U && shape.gran == gran && shape.windowSize == windowSize
    ensures shape.width == width && shape.depth == depth
  {
    var prng := NewGenerator();
    var levels := (U + gran - 1) / gran;
    Ceiling(U, gran);
    PositiveCells(depth, width);
    var exact := ExactLevels(gran, levels, depth * width);
    var hasha, hashb := PickHashes(prng, levels - exact, depth);
    shape := Shape(U, gran, levels, levels - exact, depth, width, windowSize, hasha, hashb);
    assert DrawnFrom(prng.history, hasha, hashb, depth);
  }

  lemma PositiveCells(depth: nat, width: nat)
    requires depth >= 1 && width >= 1
    ensures depth * width >= 1
  {
    MulMonotone(1, depth, width);
  }

  /** Zeroed cells for every level, from the top level down. */
  method AllocateLevels(shape: Shape) returns (counts: seq<array<int>>)
    requires shape.Ok()
    ensures |counts| == shape.levels
    ensures forall a :: a in counts ==> fresh(a)
    ensures forall l :: 0 <= l < |counts| ==> counts[l].Length == shape.Cells(l)
    ensures forall l, m :: 0 <= l < m < |counts| ==> counts[l] != counts[m]
    ensures forall l, k :: 0 <= l < |counts| && 0 <= k < counts[l].Length ==> counts[l][k] == 0
  {
    counts := [];
    var i := shape.levels - 1;
    var j := 1;
    while i >= 0
      invariant -1 <= i < shape.levels && |counts| == shape.levels - 1 - i
      invariant i >= shape.freelim - 1 ==> j == shape.levels - i
      invariant forall a :: a in counts ==> fresh(a)
      invariant forall l :: 0 <= l < |counts| ==> counts[l].Length == shape.Cells(i + 1 + l)
      invariant forall l, m :: 0 <= l < m < |counts| ==> counts[l] != counts[m]
      invariant forall l, k :: 0 <= l < |counts| && 0 <= k < counts[l].Length ==> counts[l][k] == 0
    {
      var a;
      if i >= shape.freelim {
        a := new int[Pow2(shape.gran * j)](_ => 0);
        j := j + 1;
      } else {
        a := new int[shape.depth * shape.width](_ => 0);
      }
      counts := [a] + counts;
      i := i - 1;
    }
  }

  /** The coefficients of one level: from place `n` on, two words of the generator for each row, `a` and then `b`. */
  ghost predicate RowDrawn(h: seq<nat>, n: nat, as_: seq<nat>, bs: seq<nat>) {
    && |as_| == |bs| && n + 2 * |as_| <= |h|
    && forall k :: 0 <= k < |as_| ==> as_[k] == h[n + 2 * k] % 0x8000_0000 && bs[k] == h[n + 2 * k + 1] % 0x8000_0000
  }

  /** Where the words for level number `m` start, two for each row of the levels before it. */
  function Place(n: nat, depth: nat, m: nat): nat {
    if m == 0 then n else Place(n, depth, m - 1) + 2 * depth
  }

  lemma {:induction false} PlaceOf(n: nat, depth: nat, m: nat)
    ensures Place(n, depth, m) == n + 2 * depth * m
  {
    if m > 0 { PlaceOf(n, depth, m - 1); }
  }

  /** All levels, the highest sketched one first. */
  ghost predicate RowsDrawn(h: seq<nat>, n: nat, depth: nat, hasha: seq<seq<nat>>, hashb: seq<seq<nat>>) {
    && |hasha| == |hashb|
    && forall l :: 0 <= l < |hasha| ==>
         |hasha[l]| == depth && RowDrawn(h, Place(n, depth, |hasha| - 1 - l), hasha[l], hashb[l])
  }

  /**
   `h` is a history of the ring generator from the seed -12784, its two draws at the start and all those
   for the coefficients included, and the coefficients are the words from place 319 on.
   */
  ghost predicate DrawnFrom(h: seq<nat>, hasha: seq<seq<nat>>, hashb: seq<seq<nat>>, depth: nat) {
    && |h| == Place(319, depth, |hasha|) && |h| >= 17
    && Prng.Words(h) && Prng.Recurrence(h) && h[..17] == Prng.SeedHistory(TWO64 - 12784)
    && RowsDrawn(h, 319, depth, hasha, hashb)
  }

  ghost predicate HashesDrawn(c: Shape) {
    |c.hasha| == c.freelim && exists h :: DrawnFrom(h, c.hasha, c.hashb, c.depth)
  }

  /** That leaves no choice: sketches of the same shape hash alike. */
  lemma HashesDetermined(c: Shape, d: Shape, l: nat, k: nat)
    requires HashesDrawn(c) && HashesDrawn(d) && c.freelim == d.freelim && c.depth == d.depth
    requires l < c.freelim && k < c.depth
    ensures c.hasha[l][k] == d.hasha[l][k] && c.hashb[l][k] == d.hashb[l][k]
  {
    var g :| DrawnFrom(g, c.hasha, c.hashb, c.depth);
    var h :| DrawnFrom(h, d.hasha, d.hashb, d.depth);
    Prng.RecurrenceUnique(g, h);
  }

  lemma Reordered(depth: int, m: int)
    ensures 2 * depth * m == 2 * (m * depth)
  {
  }

  /** Which words they are. */
  lemma CoefficientWords(c: Shape, h: seq<nat>, l: nat, k: nat, n: int)
    requires |c.hasha| == c.freelim && DrawnFrom(h, c.hasha, c.hashb, c.depth) && l < c.freelim && k < c.depth
    requires n == 319 + 2 * ((c.freelim - 1 - l) * c.depth + k)
    ensures 319 <= n && n + 1 < |h|
    ensures c.hasha[l][k] == h[n] % 0x8000_0000 && c.hashb[l][k] == h[n + 1] % 0x8000_0000
  {
    var m := c.freelim - 1 - l;
    PlaceOf(319, c.depth, m);
    Reordered(c.depth, m);
    assert RowDrawn(h, Place(319, c.depth, m), c.hasha[l], c.hashb[l]);
  }

  lemma RowStays(h: seq<nat>, later: seq<nat>, n: nat, as_: seq<nat>, bs: seq<nat>)
    requires RowDrawn(h, n, as_, bs) && h <= later
    ensures RowDrawn(later, n, as_, bs)
  {
  }

  lemma RowAdded(h: seq<nat>, later: seq<nat>, n: nat, depth: nat, hasha: seq<seq<nat>>, hashb: seq<seq<nat>>,
                 as_: seq<nat>, bs: seq<nat>)
    requires RowsDrawn(h, n, depth, hasha, hashb) && h <= later
    requires |as_| == depth && RowDrawn(later, Place(n, depth, |hasha|), as_, bs)
    ensures RowsDrawn(later, n, depth, [as_] + hasha, [bs] + hashb)
  {
    forall l | 0 <= l < |hasha| + 1
      ensures RowDrawn(later, Place(n, depth, |hasha| - l), ([as_] + hasha)[l], ([bs] + hashb)[l])
    {
      if l > 0 { RowStays(h, later, Place(n, depth, |hasha| - l), hasha[l - 1], hashb[l - 1]); }
    }
  }

  lemma RowMore(h: seq<nat>, later: seq<nat>, n: nat, as_: seq<nat>, bs: seq<nat>, a: nat, b: nat)
    requires RowDrawn(h, n, as_, bs) && |h| == n + 2 * |as_| && later == h + [a] + [b]
    ensures RowDrawn(later, n, as_ + [a % 0x8000_0000], bs + [b % 0x8000_0000])
  {
  }

  /** The coefficients of one level. */
  method PickRow(prng: Prng.Prng, depth: nat) returns (as_: seq<nat>, bs: seq<nat>)
    requires prng.RingValid()
    modifies prng`r_p1, prng`r_p2, prng`history, prng.randbuffer
    ensures prng.RingValid() && old(prng.history) <= prng.history
    ensures |prng.history| == |old(prng.history)| + 2 * depth
    ensures |as_| == depth && RowDrawn(prng.history, |old(prng.history)|, as_, bs)
  {
    as_, bs := [], [];
    ghost var n := |prng.history|;
    for k := 0 to depth
      invariant prng.RingValid() && old(prng.history) <= prng.history
      invariant |prng.history| == n + 2 * k && |as_| == |bs| == k
      invariant RowDrawn(prng.history, n, as_, bs)
    {
      ghost var h := prng.history;
      var a := prng.Ran3();
      var b := prng.Ran3();
      RowMore(h, prng.history, n, as_, bs, a, b);
      as_, bs := as_ + [a % TWO31], bs + [b % TWO31];
    }
  }

  /**
   The coefficients of the hash functions, level `freelim - 1` first. The source draws them in the
   loop that allocates the levels, in this order.
   */
  method PickHashes(prng: Prng.Prng, freelim: nat, depth: nat) returns (hasha: seq<seq<nat>>, hashb: seq<seq<nat>>)
    requires prng.RingValid()
    modifies prng`r_p1, prng`r_p2, prng`history, prng.randbuffer
    ensures prng.RingValid() && old(prng.history) <= prng.history
    ensures |prng.history| == Place(|old(prng.history)|, depth, freelim)
    ensures |hasha| == |hashb| == freelim
    ensures RowsDrawn(prng.history, |old(prng.history)|, depth, hasha, hashb)
    ensures forall l, k :: 0 <= l < freelim && 0 <= k < depth ==> hasha[l][k] <= MOD && hashb[l][k] <= MOD
  {
    hasha, hashb := [], [];
    ghost var n := |prng.history|;
    var i := freelim - 1;
    while i >= 0
      invariant prng.RingValid() && old(prng.history) <= prng.history
      invariant -1 <= i < freelim && |hasha| == |hashb| == freelim - 1 - i
      invariant |prng.history| == Place(n, depth, |hasha|)
      invariant RowsDrawn(prng.history, n, depth, hasha, hashb)
      invariant forall l, k :: 0 <= l < |hasha| && 0 <= k < depth ==> hasha[l][k] <= MOD && hashb[l][k] <= MOD
    {
      ghost var h := prng.history;
      var as_, bs := PickRow(prng, depth);
      assert forall k :: 0 <= k < depth ==> as_[k] <= MOD && bs[k] <= MOD;
      RowAdded(h, prng.history, n, depth, hasha, hashb, as_, bs);
      hasha, hashb := [as_] + hasha, [bs] + hashb;
      i := i - 1;
    }
  }

  /** The ring generator with the seed that picks the hash functions. */
  method NewGenerator() returns (prng: Prng.Prng)
    ensures prng.RingValid() && fresh(prng) && fresh(prng.randbuffer)
    ensures |prng.history| == 319 && prng.history[..17] == Prng.SeedHistory(TWO64 - 12784)
  {
    prng := new Prng.Prng.Init(-12784, 2);
    assert -12784 % TWO64 == TWO64 - 12784;
  }

  lemma Ceiling(U: nat, gran: nat)
    requires 1 <= gran <= U
    ensures var levels := (U + gran - 1) / gran; levels >= 1 && gran * (levels - 1) < U <= gran * levels
  {
    DivBlock(U + gran - 1, gran);
    DivAtLeast(U + gran - 1, gran, 1);
  }

  /** Levels counted from the top that are no dearer exact than sketched: the search for freelim. */
  method ExactLevels(gran: nat, levels: nat, cells: nat) returns (exact: nat)
    requires levels >= 1 && cells >= 1
    ensures exact < levels
    ensures forall j :: 0 <= j < levels ==> (j <= exact <==> Pow2(gran * j) <= cells)
  {
    exact := 0;
    var j := 0;
    while j < levels
      invariant 0 <= j <= levels
      invariant exact == if j == 0 then 0 else j - 1
      invariant forall m :: 0 <= m < j ==> Pow2(gran * m) <= cells
    {
      if Pow2(gran * j) > cells {
        forall m | j <= m < levels ensures Pow2(gran * m) > cells {
          MulMonotone(j, m, gran);
          assert gran * j <= gran * m;
          Pow2Monotone(gran * j, gran * m);
        }
        break;
      }
      exact := j;
      j := j + 1;
    }
  }

  // ----- whole runs -----

  /** The window after a run of accepted items. */
  function WindowAfter(xs: seq<int>, size: nat): (w: seq<int>)
    requires size >= 1
    ensures |w| == Min(|xs|, size)
  {
    if xs == [] then [] else Slide(WindowAfter(xs[..|xs| - 1], size), xs[|xs| - 1], size)
  }

  /** The last `min(n, size)` items of a run. */
  function Last(xs: seq<int>, size: nat): seq<int> {
    xs[|xs| - Min(|xs|, size)..]
  }

  lemma SlideLast(xs: seq<int>, x: int, size: nat)
    requires size >= 1
    ensures Slide(Last(xs, size), x, size) == Last(xs + [x], size)
  {
  }

  /** Whatever came before, the window is the last `min(n, size)` items of the run. */
  lemma {:induction false} WindowIsSuffix(xs: seq<int>, size: nat)
    requires size >= 1
    ensures WindowAfter(xs, size) == Last(xs, size)
  {
    if xs != [] {
      var ys, x := xs[..|xs| - 1], xs[|xs| - 1];
      assert ys + [x] == xs;
      WindowIsSuffix(ys, size);
      SlideLast(ys, x, size);
    }
  }

  /**
   Forgetting is perfect: two runs that end in the same `windowSize` items leave the same window, so by
   `Valid` the very same cells. In particular a sketch that has forgotten what came before cannot be
   told from a fresh one that was fed the last items only.
   */
  lemma ForgetsPerfectly(c: Shape, xs: seq<int>, ys: seq<int>)
    requires c.Ok() && Last(xs, c.windowSize) == Last(ys, c.windowSize)
    ensures WindowAfter(xs, c.windowSize) == WindowAfter(ys, c.windowSize) == Last(ys, c.windowSize)
    ensures forall l, k :: 0 <= l < c.levels && 0 <= k < c.Cells(l) ==>
              CellCount(c, WindowAfter(xs, c.windowSize), l, k) == CellCount(c, Last(ys, c.windowSize), l, k)
  {
    WindowIsSuffix(xs, c.windowSize);
    WindowIsSuffix(ys, c.windowSize);
  }
}
