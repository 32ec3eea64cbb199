/** Powers of two, iterated division and sums over a window: the vocabulary shared by the models. */
module Arith {

  const TWO32: nat := 0x1_0000_0000
  const TWO64: nat := 0x1_0000_0000_0000_0000

  function Min(a: int, b: int): int {
    if a < b then a else b
  }

  function Max(a: int, b: int): int {
    if a < b then b else a
  }

  /** `1 << n`. */
  function Pow2(n: nat): (r: nat)
    ensures r >= 1
    ensures n > 0 ==> r >= 2
  {
    if n == 0 then 1 else 2 * Pow2(n - 1)
  }

  function Power(b: nat, n: nat): (p: nat)
    requires b >= 1
    ensures p >= 1
  {
    if n == 0 then 1 else b * Power(b, n - 1)
  }

  lemma {:induction false} Pow2Add(a: nat, b: nat)
    ensures Pow2(a + b) == Pow2(a) * Pow2(b)
  {
    if a > 0 {
      Pow2Add(a - 1, b);
      assert Pow2(a + b) == 2 * Pow2(a - 1 + b);
    }
  }

  lemma Pow2Mul(g: nat, a: nat, b: nat)
    ensures Pow2(g * (a + b)) == Pow2(g * a) * Pow2(g * b)
  {
    assert g * (a + b) == g * a + g * b;
    Pow2Add(g * a, g * b);
  }

  lemma Pow2Next(g: nat, a: nat)
    ensures Pow2(g * (a + 1)) == Pow2(g) * Pow2(g * a)
  {
    assert g * 1 == g;
    Pow2Mul(g, 1, a);
  }

  lemma {:induction false} Pow2Monotone(a: nat, b: nat)
    requires a <= b
    ensures Pow2(a) <= Pow2(b)
    decreases b
  {
    if a < b { Pow2Monotone(a, b - 1); }
  }

  lemma {:induction false} Pow2StrictlyMonotone(a: nat, b: nat)
    requires a < b
    ensures 2 * Pow2(a) <= Pow2(b)
  {
    Pow2Monotone(a + 1, b);
  }

  /** The quotient is the only number whose block holds the dividend. */
  lemma DivUnique(x: int, b: int, q: int)
    requires b > 0
    requires q * b <= x < q * b + b
    ensures x / b == q
  {
    var r := x / b;
    assert r * b <= x < r * b + b by {
      assert x == b * r + x % b;
    }
    if r < q {
      assert (r + 1) * b <= q * b by { MulMonotone(r + 1, q, b); }
    } else if r > q {
      assert (q + 1) * b <= r * b by { MulMonotone(q + 1, r, b); }
    }
  }

  /** Quotient and remainder are the only pair that recombines to the dividend. */
  lemma DivMod(x: int, b: int, q: int, r: int)
    requires b > 0 && x == q * b + r && 0 <= r < b
    ensures x / b == q && x % b == r
  {
    DivUnique(x, b, q);
    DivBlock(x, b);
  }

  lemma MulMonotone(x: int, y: int, b: int)
    requires x <= y && 0 <= b
    ensures x * b <= y * b
  {
    assert 0 <= (y - x) * b;
  }

  lemma DivBlock(x: int, b: int)
    requires b > 0
    ensures x / b * b <= x < x / b * b + b
    ensures x == x / b * b + x % b && 0 <= x % b < b
  {
    assert x == b * (x / b) + x % b;
  }

  /** Block boundaries: comparing quotients is comparing against a multiple of the divisor. */
  lemma DivAtLeast(x: int, b: int, q: int)
    requires b > 0
    ensures q <= x / b <==> q * b <= x
  {
    DivBlock(x, b);
    if q <= x / b {
      MulMonotone(q, x / b, b);
    } else {
      MulMonotone(x / b + 1, q, b);
    }
  }

  /** Sum of `f` over the items of a window. */
  function Total(w: seq<int>, f: int -> nat): nat {
    if w == [] then 0 else f(w[0]) + Total(w[1..], f)
  }

  lemma {:induction false} TotalConcat(v: seq<int>, w: seq<int>, f: int -> nat)
    ensures Total(v + w, f) == Total(v, f) + Total(w, f)
  {
    if v == [] {
      assert v + w == w;
    } else {
      assert (v + w)[1..] == v[1..] + w;
      TotalConcat(v[1..], w, f);
    }
  }

  lemma TotalAppend(w: seq<int>, x: int, f: int -> nat)
    ensures Total(w + [x], f) == Total(w, f) + f(x)
  {
    TotalConcat(w, [x], f);
    assert Total([x], f) == f(x) + Total([], f);
  }

  lemma {:induction false} TotalMonotone(w: seq<int>, f: int -> nat, g: int -> nat)
    requires forall x :: x in w ==> f(x) <= g(x)
    ensures Total(w, f) <= Total(w, g)
  {
    if w != [] {
      var x := w[0];
      assert x in w;
      TotalMonotone(w[1..], f, g);
    }
  }

  lemma {:induction false} TotalSum(w: seq<int>, f: int -> nat, g: int -> nat, h: int -> nat)
    requires forall x :: x in w ==> h(x) == f(x) + g(x)
    ensures Total(w, h) == Total(w, f) + Total(w, g)
  {
    if w != [] {
      var x := w[0];
      assert x in w;
      TotalSum(w[1..], f, g, h);
    }
  }

  lemma TotalSum3(w: seq<int>, f: int -> nat, g: int -> nat, h: int -> nat, sum: int -> nat)
    requires forall x :: x in w ==> sum(x) == f(x) + g(x) + h(x)
    ensures Total(w, sum) == Total(w, f) + Total(w, g) + Total(w, h)
  {
    var gh: int -> nat := x => g(x) + h(x);
    TotalSum(w, g, h, gh);
    TotalSum(w, f, gh, sum);
  }

  lemma TotalEqual(w: seq<int>, f: int -> nat, g: int -> nat)
    requires forall x :: x in w ==> f(x) == g(x)
    ensures Total(w, f) == Total(w, g)
  {
    TotalMonotone(w, f, g);
    TotalMonotone(w, g, f);
  }

  /** Functions ordered pointwise have equal sums only if they agree on every item of the window. */
  lemma {:induction false} TotalTight(w: seq<int>, f: int -> nat, g: int -> nat)
    requires forall x :: x in w ==> f(x) <= g(x)
    ensures Total(w, f) == Total(w, g) <==> forall x :: x in w ==> f(x) == g(x)
  {
    if w != [] {
      TotalTight(w[1..], f, g);
      TotalMonotone(w[1..], f, g);
      assert forall x :: x in w <==> x == w[0] || x in w[1..];
    }
  }

  lemma {:induction false} TotalBound(w: seq<int>, f: int -> nat, k: nat)
    requires forall x :: x in w ==> f(x) <= k
    ensures Total(w, f) <= k * |w|
  {
    if w != [] {
      var x := w[0];
      assert x in w;
      TotalBound(w[1..], f, k);
      assert k * |w| == k * |w[1..]| + k;
    }
  }

  lemma {:induction false} TotalConstant(w: seq<int>, one: int -> nat)
    requires forall x :: x in w ==> one(x) == 1
    ensures Total(w, one) == |w|
  {
    if w != [] {
      var x := w[0];
      assert x in w;
      TotalConstant(w[1..], one);
    }
  }

  lemma ShrinkBound(q: nat, b: nat, p: nat, e: nat, t: nat)
    requires q * b <= e && e * p <= t
    ensures q * (b * p) <= t
  {
    MulMonotone(q * b, e, p);
    assert q * (b * p) == q * b * p;
  }

  /** Splitting a block of `b` into sub-blocks of size `p`: the block of a sub-block's index. */
  lemma SplitBlock(s: nat, b: nat, below: nat, p: nat, x: nat)
    requires s * b <= below < s * b + b
    requires below * p <= x < (below + 1) * p
    ensures s * (b * p) <= x < (s + 1) * (b * p)
  {
    ShrinkBound(s, b, p, below, x);
    MulMonotone(below + 1, s * b + b, p);
    assert (s * b + b) * p == (s + 1) * (b * p);
  }

  lemma AtMostCells(end: int, cells: nat, p: nat, top: nat)
    requires p >= 2 && cells * p >= top && end * p <= top + 1
    ensures end <= cells
  {
    if end > cells {
      MulMonotone(cells + 1, end, p);
    }
  }

  // ----- plain sums -----

  function Sum(s: seq<nat>): nat {
    if s == [] then 0 else s[0] + Sum(s[1..])
  }

  lemma {:induction false} SumUpdate(s: seq<nat>, q: nat, v: nat)
    requires q < |s|
    ensures Sum(s[q := v]) == Sum(s) - s[q] + v
  {
    if q == 0 {
      assert s[0 := v][1..] == s[1..];
    } else {
      assert s[q := v][1..] == s[1..][q - 1 := v];
      SumUpdate(s[1..], q - 1, v);
    }
  }

  lemma {:induction false} SumAtMost(s: seq<nat>, t: seq<nat>)
    requires |s| == |t| && forall q :: 0 <= q < |s| ==> s[q] <= t[q]
    ensures Sum(s) <= Sum(t)
    ensures Sum(s) == Sum(t) ==> s == t
  {
    if s != [] {
      SumAtMost(s[1..], t[1..]);
      assert s == [s[0]] + s[1..] && t == [t[0]] + t[1..];
    }
  }

  /** Taking one item out of a window. */
  lemma PullOutItems(before: seq<int>, x: int, after: seq<int>)
    ensures multiset(before + after) == multiset(before + ([x] + after)) - multiset{x}
  {
    assert multiset(before + ([x] + after)) == multiset(before) + multiset{x} + multiset(after);
  }

  lemma PullOutTotal(before: seq<int>, x: int, after: seq<int>, f: int -> nat)
    ensures Total(before + ([x] + after), f) == f(x) + Total(before + after, f)
  {
    assert ([x] + after)[1..] == after;
    TotalConcat(before, [x] + after, f);
    TotalConcat(before, after, f);
  }

  lemma Uncons(v: seq<int>)
    requires v != []
    ensures multiset(v[1..]) == multiset(v) - multiset{v[0]}
  {
    assert v == [v[0]] + v[1..];
  }

  lemma SplitAround(w: seq<int>, i: nat)
    requires i < |w|
    ensures w == w[..i] + ([w[i]] + w[i + 1..])
  {
  }

  /** Sums over a window do not depend on the order of its items. */
  lemma {:induction false} TotalPermutation(v: seq<int>, w: seq<int>, f: int -> nat)
    requires multiset(v) == multiset(w)
    ensures Total(v, f) == Total(w, f)
    decreases |v|
  {
    if v == [] {
      assert |w| == |multiset(w)| == 0;
    } else {
      var x := v[0];
      assert x in multiset(w);
      var i :| 0 <= i < |w| && w[i] == x;
      var before, after := w[..i], w[i + 1..];
      SplitAround(w, i);
      PullOutItems(before, x, after);
      PullOutTotal(before, x, after, f);
      Uncons(v);
      TotalPermutation(v[1..], before + after, f);
    }
  }
}
