/**
 The in-place selection of rdma_pacer/massdal.c: quickselect with a median-of-three pivot and scans
 that carry no bounds check. The array is indexed from 1, as in the source; index 0 is not used.
 */
module MedSelect {
  import opened Arith

  ghost predicate InOrder(s: seq<int>, p: int, q: int)
    requires 0 <= p < |s| && 0 <= q < |s|
  {
    s[p] <= s[q]
  }

  /** Nothing before position `m` exceeds anything from `m` on. */
  ghost predicate SplitAt(s: seq<int>, m: int) {
    forall p, q {:trigger InOrder(s, p, q)} :: 1 <= p < m <= q < |s| ==> InOrder(s, p, q)
  }

  /** Position `k` holds what it would hold in sorted order. */
  ghost predicate Selected(s: seq<int>, k: int) {
    SplitAt(s, k) && SplitAt(s, k + 1)
  }

  /**
   What holds whenever the outer loop starts over: everything outside `l..ir` is on its right side,
   and either `k` is still inside or its element is in place already. The scans may leave `l` beyond
   `k`, so `l <= k <= ir` alone is not kept.
   */
  ghost predicate Narrowed(s: seq<int>, k: int, l: int, ir: int) {
    && SplitAt(s, l) && SplitAt(s, ir + 1)
    && (l <= k <= ir || (!(l <= k <= ir) && Selected(s, k)))
  }

  /** `t` is `s` with two positions of `lo..hi` exchanged. */
  ghost predicate Exchanged(s: seq<int>, t: seq<int>, x: int, y: int) {
    && 0 <= x < |s| && 0 <= y < |s|
    && t == s[x := s[y]][y := s[x]]
  }

  /** A permutation that leaves the unused index 0 alone. */
  ghost predicate SameItems(s: seq<int>, t: seq<int>) {
    multiset(s) == multiset(t) && |s| == |t| >= 1 && s[0] == t[0]
  }

  lemma ExchangeKeepsItems(s: seq<int>, x: int, y: int)
    requires 1 <= x < |s| && 1 <= y < |s|
    ensures SameItems(s, s[x := s[y]][y := s[x]])
  {
  }

  /** Exchanges on one side of a cut keep the cut. */
  lemma ExchangeKeepsSplit(s: seq<int>, t: seq<int>, x: int, y: int, m: int)
    requires SplitAt(s, m) && Exchanged(s, t, x, y) && 1 <= x && 1 <= y
    requires (x < m && y < m) || (x >= m && y >= m)
    ensures SplitAt(t, m)
  {
    forall p, q {:trigger InOrder(t, p, q)} | 1 <= p < m <= q < |t| ensures InOrder(t, p, q) {
      var p' := if p == x then y else if p == y then x else p;
      var q' := if q == x then y else if q == y then x else q;
      assert t[p] == s[p'] && t[q] == s[q'] && InOrder(s, p', q');
    }
  }

  lemma ExchangeKeepsNarrowed(s: seq<int>, t: seq<int>, x: int, y: int, k: int, l: int, ir: int)
    requires Narrowed(s, k, l, ir) && Exchanged(s, t, x, y)
    requires 1 <= l <= x <= ir && l <= y <= ir
    ensures Narrowed(t, k, l, ir)
  {
    ExchangeKeepsSplit(s, t, x, y, l);
    ExchangeKeepsSplit(s, t, x, y, ir + 1);
    if !(l <= k <= ir) {
      ExchangeKeepsSplit(s, t, x, y, k);
      ExchangeKeepsSplit(s, t, x, y, k + 1);
    }
  }

  method Swap(arr: array<int>, x: int, y: int, ghost k: int, ghost l: int, ghost ir: int)
    requires 1 <= l <= x <= ir < arr.Length && l <= y <= ir
    requires Narrowed(arr[..], k, l, ir)
    modifies arr
    ensures arr[x] == old(arr[y]) && arr[y] == old(arr[x])
    ensures forall p :: 0 <= p < arr.Length && p != x && p != y ==> arr[p] == old(arr[p])
    ensures SameItems(old(arr[..]), arr[..])
    ensures Narrowed(arr[..], k, l, ir)
  {
    ghost var s := arr[..];
    var temp := arr[x];
    arr[x] := arr[y];
    arr[y] := temp;
    assert arr[..] == s[x := s[y]][y := s[x]];
    ExchangeKeepsItems(s, x, y);
    ExchangeKeepsNarrowed(s, arr[..], x, y, k, l, ir);
  }

  /** `do i++; while (arr[i] < a)`: some element up to `stop` is what ends the scan. */
  method ScanUp(arr: array<int>, from: int, ghost stop: int, a: int) returns (i: int)
    requires 0 <= from < stop < arr.Length && arr[stop] >= a
    ensures from < i <= stop && arr[i] >= a
    ensures forall p :: from < p < i ==> arr[p] < a
  {
    i := from + 1;
    while arr[i] < a
      invariant from < i <= stop
      invariant forall p :: from < p < i ==> arr[p] < a
      decreases stop - i
    {
      i := i + 1;
    }
  }

  /** `do j--; while (arr[j] > a)`: some element down to `stop` is what ends the scan. */
  method ScanDown(arr: array<int>, from: int, ghost stop: int, a: int) returns (j: int)
    requires 0 <= stop < from <= arr.Length && arr[stop] <= a
    ensures stop <= j < from && arr[j] <= a
    ensures forall p :: j < p < from ==> arr[p] > a
  {
    j := from - 1;
    while arr[j] > a
      invariant stop <= j < from
      invariant forall p :: j < p < from ==> arr[p] > a
      decreases j - stop
    {
      j := j - 1;
    }
  }

  /** Orders the first, second and last element of the interval; the second becomes the pivot. */
  method MedianOfThree(arr: array<int>, l: int, ir: int, ghost k: int)
    requires 1 <= l && l + 1 < ir < arr.Length && Narrowed(arr[..], k, l, ir)
    modifies arr
    ensures Narrowed(arr[..], k, l, ir) && SameItems(old(arr[..]), arr[..])
    ensures arr[l] <= arr[l + 1] <= arr[ir]
  {
    var mid := (l + ir) / 2;
    Swap(arr, mid, l + 1, k, l, ir);
    if arr[l] > arr[ir] { Swap(arr, l, ir, k, l, ir); }
    if arr[l + 1] > arr[ir] { Swap(arr, l + 1, ir, k, l, ir); }
    if arr[l] > arr[l + 1] { Swap(arr, l, l + 1, k, l, ir); }
  }

  /** The partition around the pivot `arr[l + 1]`; the scans meet or cross, with `i` up to `j + 2`. */
  method Partition(arr: array<int>, l: int, ir: int, ghost k: int) returns (i: int, j: int)
    requires 1 <= l && l + 1 < ir < arr.Length && Narrowed(arr[..], k, l, ir)
    requires arr[l] <= arr[l + 1] <= arr[ir]
    modifies arr
    ensures Narrowed(arr[..], k, l, ir) && SameItems(old(arr[..]), arr[..])
    ensures l < j < ir && j < i <= ir && (i == j + 1 || i == j + 2)
    ensures forall p :: l <= p < i ==> arr[p] <= arr[j]
    ensures forall p :: j <= p <= ir ==> arr[j] <= arr[p]
  {
    i := l + 1;
    j := ir;
    var a := arr[l + 1];
    while true
      invariant l + 1 <= i <= j <= ir && (i == l + 1 <==> j == ir)
      invariant Narrowed(arr[..], k, l, ir) && SameItems(old(arr[..]), arr[..])
      invariant arr[l + 1] == a
      invariant forall p :: l <= p <= i ==> arr[p] <= a
      invariant forall p :: j <= p <= ir ==> arr[p] >= a
      decreases j - i
    {
      ghost var high := j;
      ghost var stopUp := if i == j then i + 1 else j;
      ghost var stopDown := if i == j then j - 1 else i;
      i := ScanUp(arr, i, stopUp, a);
      j := ScanDown(arr, j, stopDown, a);
      if j < i {
        assert j + 1 < high ==> arr[j + 1] > a;
        break;
      }
      Swap(arr, i, j, k, l, ir);
    }
    // arr[l + 1] = arr[j]; arr[j] = a
    Swap(arr, l + 1, j, k, l, ir);
  }

  /** Cutting the interval on either side of the pivot's final position. */
  lemma Narrow(s: seq<int>, k: int, l: int, ir: int, i: int, j: int)
    requires Narrowed(s, k, l, ir) && 1 <= l < j < ir < |s| && j < i <= ir && (i == j + 1 || i == j + 2)
    requires forall p :: l <= p < i ==> s[p] <= s[j]
    requires forall p :: j <= p <= ir ==> s[j] <= s[p]
    ensures Narrowed(s, k, if j <= k then i else l, if j >= k then j - 1 else ir)
  {
    forall m | j <= m <= i ensures SplitAt(s, m) {
      forall p, q {:trigger InOrder(s, p, q)} | 1 <= p < m <= q < |s| ensures InOrder(s, p, q) {
        assert p < l ==> InOrder(s, p, q);
        assert q > ir ==> InOrder(s, p, q);
        assert p >= l ==> s[p] <= s[j];
        assert q <= ir ==> s[j] <= s[q];
      }
    }
  }

  // ----- what is selected -----

  ghost function Below(v: int): int -> nat {
    x => if x < v then 1 else 0
  }

  ghost function UpTo(v: int): int -> nat {
    x => if x <= v then 1 else 0
  }

  /** `v` is the `k`-th smallest: fewer than `k` items are below it, at least `k` are not above it. */
  ghost predicate IsKth(w: seq<int>, k: int, v: int) {
    Total(w, Below(v)) < k <= Total(w, UpTo(v))
  }

  /** There is only one `k`-th smallest value, whatever the order of the items. */
  lemma KthUnique(v: seq<int>, w: seq<int>, k: int, a: int, b: int)
    requires multiset(v) == multiset(w) && IsKth(v, k, a) && IsKth(w, k, b)
    ensures a == b
  {
    TotalPermutation(v, w, Below(a));
    TotalPermutation(v, w, UpTo(a));
    if a < b {
      TotalMonotone(w, UpTo(a), Below(b));
    } else if b < a {
      TotalMonotone(w, UpTo(b), Below(a));
    }
  }

  lemma NoneBelow(w: seq<int>, v: int)
    requires forall x :: x in w ==> v <= x
    ensures Total(w, Below(v)) == 0
  {
    TotalBound(w, Below(v), 0);
  }

  lemma AllUpTo(w: seq<int>, v: int)
    requires forall x :: x in w ==> x <= v
    ensures Total(w, UpTo(v)) == |w|
  {
    TotalConstant(w, UpTo(v));
  }

  /** An item with nothing greater before it and nothing smaller after it is the one of its position. */
  lemma InPlaceIsKth(w: seq<int>, k: nat)
    requires 1 <= k <= |w|
    requires forall p :: 0 <= p < k - 1 ==> w[p] <= w[k - 1]
    requires forall p :: k <= p < |w| ==> w[k - 1] <= w[p]
    ensures IsKth(w, k, w[k - 1])
  {
    var v := w[k - 1];
    var before, after := w[..k - 1], w[k..];
    assert w == before + ([v] + after);
    assert ([v] + after)[1..] == after;
    TotalConcat(before, [v] + after, Below(v));
    TotalConcat(before, [v] + after, UpTo(v));
    TotalBound(before, Below(v), 1);
    NoneBelow(after, v);
    AllUpTo(before, v);
  }

  lemma SameRest(s: seq<int>, t: seq<int>)
    requires SameItems(s, t)
    ensures multiset(s[1..]) == multiset(t[1..])
  {
    assert s == [s[0]] + s[1..] && t == [t[0]] + t[1..];
    assert multiset(s) == multiset(s[1..]) + multiset{s[0]};
    assert multiset(t) == multiset(t[1..]) + multiset{t[0]};
    assert multiset(s[1..]) == multiset(s) - multiset{s[0]};
    assert multiset(t[1..]) == multiset(t) - multiset{t[0]};
  }

  /** The answer read off the final array is the `k`-th smallest of the initial one. */
  lemma SelectedIsKth(s: seq<int>, t: seq<int>, k: nat)
    requires SameItems(s, t) && 1 <= k < |t|
    requires forall p :: 1 <= p < k ==> t[p] <= t[k]
    requires forall p :: k < p < |t| ==> t[k] <= t[p]
    ensures IsKth(s[1..], k, t[k])
  {
    var w := t[1..];
    assert w[k - 1] == t[k];
    InPlaceIsKth(w, k);
    SameRest(s, t);
    TotalPermutation(s[1..], w, Below(t[k]));
    TotalPermutation(s[1..], w, UpTo(t[k]));
  }

  /**
   MedSelect. The array ends up a permutation of the input in which `arr[k]`, the answer, has
   nothing greater before it and nothing smaller after it.
   */
  method MedSelect(k: int, n: int, arr: array<int>) returns (v: int)
    requires 1 <= k <= n && arr.Length == n + 1
    modifies arr
    ensures SameItems(old(arr[..]), arr[..])
    ensures v == arr[k] && IsKth(old(arr[1..]), k, v)
    ensures forall p :: 1 <= p < k ==> arr[p] <= arr[k]
    ensures forall p :: k < p <= n ==> arr[k] <= arr[p]
  {
    var l, ir := 1, n;
    while true
      invariant 1 <= l && 0 <= ir <= n
      invariant Narrowed(arr[..], k, l, ir) && SameItems(old(arr[..]), arr[..])
      decreases ir - l
    {
      if ir <= l + 1 {
        if ir == l + 1 && arr[ir] < arr[l] {
          Swap(arr, l, ir, k, l, ir);
        }
        forall p | 1 <= p <= n ensures (p < k ==> arr[p] <= arr[k]) && (k < p ==> arr[k] <= arr[p]) {
          ghost var s := arr[..];
          assert p < k ==> InOrder(s, p, k);
          assert k < p ==> InOrder(s, k, p);
        }
        assert old(arr[..])[1..] == old(arr[1..]);
        SelectedIsKth(old(arr[..]), arr[..], k);
        return arr[k];
      }
      MedianOfThree(arr, l, ir, k);
      var i, j := Partition(arr, l, ir, k);
      Narrow(arr[..], k, l, ir, i, j);
      var l' := if j <= k then i else l;
      if j >= k { ir := j - 1; }
      l := l';
    }
  }
}
