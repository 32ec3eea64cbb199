/**
 The generators of rdma_pacer/prng.c: the shuffled Schrage generator behind ran1 and ran2, which
 share one table, and the lagged-Fibonacci ring generator behind ran3.
 */
module Prng {
  import opened Arith

  const IA := 16807
  const IM := 2147483647
  const IQ := 127773
  const IR := 2836
  const NTAB := 32
  const NDIV := 1 + (IM - 1) / NTAB
  /** Steps that fill the table, the last NTAB of which are kept. */
  const WARM := NTAB + 8

  // ----- the Schrage step -----

  /** The seeds are 64-bit longs; negating the least one overflows. */
  predicate IsLong(x: int) {
    -0x8000_0000_0000_0000 < x < 0x8000_0000_0000_0000
  }

  /** `x / IQ` as C computes it, toward zero. */
  function Quotient(x: int): int {
    if x >= 0 then x / IQ else -(-x / IQ)
  }

  /** One step of the minimal standard generator, without the product `IA * x`. */
  function Schrage(x: int): int {
    var k := Quotient(x);
    var t := IA * (x - k * IQ) - IR * k;
    if t < 0 then t + IM else t
  }

  predicate IsState(x: int) {
    1 <= x < IM
  }

  /** The step differs from the product `IA * x` by a multiple of IM. */
  lemma SchrageMultiple(x: int) returns (q: int)
    ensures Schrage(x) == IA * x - q * IM
  {
    var k := Quotient(x);
    var t := IA * (x - k * IQ) - IR * k;
    assert IA * x == k * IM + t;
    q := if t < 0 then k - 1 else k;
  }

  /** A step divides what is out of range by at least 45. */
  lemma SchrageShrinks(x: int, b: int)
    requires b >= IM && -45 * b < x < 45 * b
    ensures -b < Schrage(x) < b
    ensures b == IM ==> 0 <= Schrage(x)
  {
    var k := Quotient(x);
    DivBlock(if x >= 0 then x else -x, IQ);
    assert -b < IR * k < b;
    assert -IM < IA * (x - k * IQ) < IM;
  }

  /** From any long the step is computed without overflow, and is a long again. */
  lemma SchrageFits(x: int)
    requires IsLong(x)
    ensures IsLong(IA * (x - Quotient(x) * IQ)) && IsLong(IR * Quotient(x)) && IsLong(Schrage(x))
    ensures IsLong(IA * (x - Quotient(x) * IQ) - IR * Quotient(x))
  {
    DivBlock(if x >= 0 then x else -x, IQ);
  }

  lemma SchrageDivides(x: int)
    requires 0 <= x < IM
    ensures (IA * x) % IM == Schrage(x)
    ensures 0 <= Schrage(x) < IM
    ensures 0 <= IA * (x % IQ) < IM && 0 <= IR * (x / IQ) < IM
  {
    var q := SchrageMultiple(x);
    SchrageShrinks(x, IM);
    DivMod(IA * x, IM, q, Schrage(x));
    DivBlock(x, IQ);
  }

  /** Inverse of IA modulo IM, and the quotient left over. */
  const INVERSE := 1407677000
  const COFACTOR := 11017

  /** The step can be undone: the inverse of IA recovers the number it started from, up to multiples of IM. */
  lemma SchrageInverse(x: int) returns (c: int)
    ensures INVERSE * Schrage(x) == c * IM + x
  {
    var q := SchrageMultiple(x);
    c := COFACTOR * x - INVERSE * q;
  }

  /** A step makes a multiple of IM of a multiple of IM, and of nothing else. */
  lemma SchrageMultiples(x: int)
    ensures Schrage(x) % IM == 0 <==> x % IM == 0
  {
    var q := SchrageMultiple(x);
    var c := SchrageInverse(x);
    var y := Schrage(x);
    DivBlock(x, IM);
    DivBlock(y, IM);
    if x % IM == 0 {
      DivMod(y, IM, IA * (x / IM) - q, 0);
    }
    if y % IM == 0 {
      DivMod(x, IM, INVERSE * (y / IM) - c, 0);
    }
  }

  /**
   The step is multiplication by IA modulo IM, every product along the way fits in a signed 32-bit
   word, the state stays in 1 .. IM - 1, and no two states step to the same one.
   */
  lemma SchrageStep(x: nat, y: nat)
    requires IsState(x) && IsState(y)
    ensures Schrage(x) == (IA * x) % IM && IsState(Schrage(x))
    ensures 0 <= IA * (x % IQ) < IM && 0 <= IR * (x / IQ) < IM
    ensures Schrage(x) == Schrage(y) ==> x == y
  {
    SchrageDivides(x);
    SchrageDivides(y);
    SchrageStuck(x);
    SmallResidue(x);
    var c := SchrageInverse(x);
    var d := SchrageInverse(y);
    if Schrage(x) == Schrage(y) {
      DivUniqueBlock(x, y, d - c);
    }
  }

  lemma SmallResidue(x: int)
    requires 0 <= x < IM
    ensures x % IM == x
  {
  }

  lemma DivUniqueBlock(x: int, y: int, k: int)
    requires 0 <= x < IM && 0 <= y < IM && x - y == k * IM
    ensures x == y
  {
  }

  /**
   Which numbers a step takes out of the states: the multiples of IM, and they all step to 0.
   Everything else below 45 times IM, in particular everything up to 2^31, steps to a state.
   */
  lemma SchrageStuck(x: int)
    requires -45 * IM < x < 45 * IM
    ensures IsState(Schrage(x)) <==> x % IM != 0
    ensures x % IM == 0 ==> Schrage(x) == 0
  {
    SchrageShrinks(x, IM);
    SchrageMultiples(x);
    SmallResidue(Schrage(x));
  }

  // ----- the shuffle table shared by ran1 and ran2 -----

  /** The output register and the table. */
  datatype Shuffler = Shuffler(iy: int, iv: seq<int>)

  function Iterate(x: int, n: nat): int {
    if n == 0 then x else Schrage(Iterate(x, n - 1))
  }

  /** IM times 45 to the power `n`. */
  function Reach(n: nat): (b: int)
    ensures b >= IM
  {
    if n == 0 then IM else 45 * Reach(n - 1)
  }

  lemma {:induction false} IterateShrinks(x: int, n: nat, m: nat)
    requires -Reach(n + m) < x < Reach(n + m)
    ensures -Reach(m) < Iterate(x, n) < Reach(m)
  {
    if n > 0 {
      var y := Iterate(x, n - 1);
      IterateShrinks(x, n - 1, m + 1);
      SchrageShrinks(y, Reach(m));
    }
  }

  /** Steps after which every long has come down to a residue. */
  const SETTLE := 6

  lemma LongsReach(x: int)
    requires IsLong(x)
    ensures -Reach(SETTLE) < x < Reach(SETTLE)
  {
    assert Reach(1) == 45 * IM && Reach(3) == 45 * (45 * Reach(1)) && Reach(5) == 45 * (45 * Reach(3));
  }

  lemma {:induction false} IterateMultiples(x: int, n: nat)
    ensures Iterate(x, n) % IM == 0 <==> x % IM == 0
  {
    if n > 0 {
      IterateMultiples(x, n - 1);
      SchrageMultiples(Iterate(x, n - 1));
    }
  }

  lemma {:induction false} IterateInRange(x: int, n: nat)
    requires IsLong(x) && n >= SETTLE
    ensures 0 <= Iterate(x, n) < IM
  {
    if n == SETTLE {
      LongsReach(x);
      IterateShrinks(x, n - 1, 1);
      SchrageShrinks(Iterate(x, n - 1), IM);
    } else {
      IterateInRange(x, n - 1);
      SchrageShrinks(Iterate(x, n - 1), IM);
    }
  }

  /** Six steps turn any long into a state, or into 0 if and only if it is a multiple of IM. */
  lemma IterateSettles(x: int, n: nat)
    requires IsLong(x) && n >= SETTLE
    ensures if x % IM == 0 then Iterate(x, n) == 0 else IsState(Iterate(x, n))
  {
    IterateInRange(x, n);
    IterateMultiples(x, n);
    SmallResidue(Iterate(x, n));
  }

  /** The positive number from which a refill starts: a negative seed without its sign, 1 for any other. */
  function Positive(idum: int): nat {
    if -idum < 1 then 1 else -idum
  }

  function Filled(x: nat): seq<int> {
    seq(NTAB, j requires 0 <= j < NTAB => Iterate(x, WARM - j))
  }

  predicate NeedsFill(idum: int, g: Shuffler) {
    idum <= 0 || g.iy == 0
  }

  /** The state and the table with which a call starts drawing. */
  function Prepared(idum: int, g: Shuffler): (int, Shuffler) {
    if NeedsFill(idum, g) then
      var x := Positive(idum);
      (Iterate(x, WARM), Shuffler(Filled(x)[0], Filled(x)))
    else
      (idum, g)
  }

  /** A seed that no call has used yet, or what a call leaves. */
  predicate IsSeed(idum: int) {
    IsLong(idum) && idum < IM
  }

  /** The seeds that the generator cannot be started from. */
  predicate Sticks(idum: int) {
    idum < 0 && idum % IM == 0
  }

  /** Unless the register is 0, when the next call starts anew, register and table hold states only. */
  predicate GoodTable(g: Shuffler) {
    && |g.iv| == NTAB && 0 <= g.iy < IM
    && (g.iy != 0 ==> AllStates(g.iv))
  }

  predicate AllStates(s: seq<int>) {
    forall j :: 0 <= j < |s| ==> IsState(s[j])
  }

  predicate AllZero(s: seq<int>) {
    forall j :: 0 <= j < |s| ==> s[j] == 0
  }

  lemma PositiveSticks(idum: int)
    requires IsSeed(idum)
    ensures IsLong(Positive(idum)) && (Positive(idum) % IM == 0 <==> Sticks(idum))
  {
    if idum < 0 { NegatedMultiple(idum); } else { SmallResidue(1); }
  }

  lemma NegatedMultiple(x: int)
    ensures (-x) % IM == 0 <==> x % IM == 0
  {
    DivBlock(x, IM);
    DivBlock(-x, IM);
    if x % IM == 0 { DivMod(-x, IM, -(x / IM), 0); }
    if (-x) % IM == 0 { DivMod(x, IM, -(-x / IM), 0); }
  }

  /** In `n` steps a state is multiplied by 16807 to the power `n`. */
  lemma {:induction false} IteratePower(x: int, n: nat)
    requires IsState(x)
    ensures IsState(Iterate(x, n)) && Iterate(x, n) == Power(16807, n) * x % 2147483647
  {
    if n > 0 {
      IteratePower(x, n - 1);
      NextPower(x, Power(16807, n - 1), Iterate(x, n - 1));
    } else {
      SmallResidue(x);
    }
  }

  lemma NextPower(x: int, p: nat, y: int)
    requires IsState(y) && y == p * x % 2147483647
    ensures IsState(Schrage(y)) && Schrage(y) == 16807 * p * x % 2147483647
  {
    SchrageStep(y, 1);
    ProductResidue(p * x, y);
    assert 16807 * p * x == 16807 * (p * x);
  }

  lemma ProductResidue(big: int, y: int)
    requires y == big % 2147483647
    ensures 16807 * y % 2147483647 == 16807 * big % 2147483647
  {
    var m := 2147483647;
    var q := big / m;
    DivBlock(big, m);
    DivBlock(16807 * y, m);
    DivMod(16807 * big, m, 16807 * q + 16807 * y / m, 16807 * y % m);
  }

  /** What a refill from a state leaves: row `j` of 32 is the state after `40 - j` steps. */
  lemma FilledPower(x: nat, j: nat)
    requires IsState(x) && j < 32
    ensures |Filled(x)| == 32 && Filled(x)[j] == Power(16807, 40 - j) * x % 2147483647
  {
    IteratePower(x, 40 - j);
  }

  /** A filled table holds states only, or only zeros if its seed sticks. */
  lemma FilledGood(x: nat)
    requires IsLong(x)
    ensures |Filled(x)| == NTAB
    ensures if x % IM == 0 then AllZero(Filled(x)) else AllStates(Filled(x))
  {
    forall j | 0 <= j < NTAB
      ensures Filled(x)[j] == Iterate(x, WARM - j)
      ensures if x % IM == 0 then Iterate(x, WARM - j) == 0 else IsState(Iterate(x, WARM - j))
    {
      IterateSettles(x, WARM - j);
    }
  }

  lemma PreparedGood(idum: int, g: Shuffler)
    requires IsSeed(idum) && GoodTable(g)
    ensures GoodTable(Prepared(idum, g).1)
    ensures !Sticks(idum) ==> IsState(Prepared(idum, g).0) && Prepared(idum, g).1.iy != 0
    ensures Sticks(idum) ==> Prepared(idum, g).0 == 0 && AllZero(Prepared(idum, g).1.iv) && Prepared(idum, g).1.iy == 0
  {
    if NeedsFill(idum, g) {
      var x := Positive(idum);
      PositiveSticks(idum);
      IterateSettles(x, WARM);
      FilledGood(x);
    }
  }

  /** Row of the table that a register selects. */
  function Pick(iy: int): (j: nat)
    requires 0 <= iy < IM
    ensures j < NTAB
    ensures j * 67108864 <= iy < (j + 1) * 67108864
  {
    assert NDIV == 67108864;
    iy / NDIV
  }

  /** One call of ran1 or ran2: the new state, and the register and table after it. */
  function Call(idum: int, g: Shuffler): (int, Shuffler)
    requires IsSeed(idum) && GoodTable(g)
  {
    PreparedGood(idum, g);
    var (x, p) := Prepared(idum, g);
    var j := Pick(p.iy);
    (Schrage(x), Shuffler(p.iv[j], p.iv[j := Schrage(x)]))
  }

  /**
   What a call keeps and what it conserves: the new state is the successor of the old one, the
   register and the table stay states, and as multisets register and table lose the register's
   last output and gain the new state. All that holds for every seed, but from one that sticks the
   state and the number drawn are 0, and from no other.
   */
  lemma CallKeeps(idum: int, g: Shuffler)
    requires IsSeed(idum) && GoodTable(g)
    ensures 0 <= Call(idum, g).0 < IM && GoodTable(Call(idum, g).1)
    ensures Call(idum, g).0 == 0 <==> Sticks(idum)
    ensures Call(idum, g).1.iy == 0 <==> Sticks(idum)
    ensures Call(idum, g).0 == (IA * Prepared(idum, g).0) % IM
    ensures multiset(Call(idum, g).1.iv) + multiset{Call(idum, g).1.iy}
            == multiset(Prepared(idum, g).1.iv) + multiset{Call(idum, g).0}
  {
    PreparedGood(idum, g);
    var (x, p) := Prepared(idum, g);
    SchrageDivides(x);
    SchrageStuck(x);
    SmallResidue(x);
    Replaced(p.iv, Pick(p.iy), Schrage(x));
  }

  lemma Replaced(s: seq<int>, j: nat, v: int)
    requires j < |s|
    ensures multiset(s[j := v]) + multiset{s[j]} == multiset(s) + multiset{v}
  {
    assert s == s[..j] + [s[j]] + s[j + 1..];
    assert s[j := v] == s[..j] + [v] + s[j + 1..];
  }

  /** Both seeds with the table they share. */
  datatype Pair = Pair(floatidum: int, intidum: int, shared: Shuffler)

  predicate GoodPair(p: Pair) {
    IsSeed(p.floatidum) && IsSeed(p.intidum) && GoodTable(p.shared)
  }

  /** The seed of ran1 (`true`) or of ran2 (`false`). */
  function SeedOf(p: Pair, first: bool): int {
    if first then p.floatidum else p.intidum
  }

  /** One call of ran1 (`true`) or of ran2 (`false`). */
  function CallEither(p: Pair, first: bool): Pair
    requires GoodPair(p)
  {
    if first then
      var (x, g) := Call(p.floatidum, p.shared); Pair(x, p.intidum, g)
    else
      var (x, g) := Call(p.intidum, p.shared); Pair(p.floatidum, x, g)
  }

  function Run(p: Pair, calls: seq<bool>): Pair
    requires GoodPair(p)
    ensures GoodPair(Run(p, calls))
    decreases |calls|
  {
    if calls == [] then p
    else
      var q := Run(p, calls[..|calls| - 1]);
      CallKeeps(q.floatidum, q.shared);
      CallKeeps(q.intidum, q.shared);
      CallEither(q, calls[|calls| - 1])
  }

  lemma RunMore(p: Pair, calls: seq<bool>, first: bool)
    requires GoodPair(p)
    ensures Run(p, calls + [first]) == CallEither(Run(p, calls), first)
  {
    assert (calls + [first])[..|calls|] == calls;
  }

  /** A seed is used up by its first call: after that it is a state or 0, and never sticks again. */
  lemma {:induction false} OnlyFirstSticks(p: Pair, calls: seq<bool>, first: bool)
    requires GoodPair(p)
    ensures Sticks(SeedOf(Run(p, calls), first)) <==> first !in calls && Sticks(SeedOf(p, first))
    decreases |calls|
  {
    if calls != [] {
      var m := |calls| - 1;
      var q := Run(p, calls[..m]);
      OnlyFirstSticks(p, calls[..m], first);
      assert calls == calls[..m] + [calls[m]];
      CallKeeps(SeedOf(q, calls[m]), q.shared);
    }
  }

  /**
   From any seeds that prng_Init sets or a call leaves, over every interleaving of ran1 and ran2: the number drawn is a
   state, and so is the seed that the call leaves, unless this is the first call of its generator and
   the seed given to it was a negative multiple of IM; then both are 0. The table holds states whenever
   the register does, and each state is IA times its prepared predecessor modulo IM.
   */
  lemma RunKeeps(p: Pair, calls: seq<bool>, first: bool)
    requires GoodPair(p)
    ensures
      var before, after := Run(p, calls), Run(p, calls + [first]);
      var bad := first !in calls && Sticks(SeedOf(p, first));
      && GoodPair(after)
      && (if bad then after.shared.iy == 0 else IsState(after.shared.iy))
      && (if bad then SeedOf(after, first) == 0 else IsState(SeedOf(after, first)))
      && SeedOf(after, first) == (IA * Prepared(SeedOf(before, first), before.shared).0) % IM
      && SeedOf(after, !first) == SeedOf(before, !first)
  {
    var q := Run(p, calls);
    RunMore(p, calls, first);
    OnlyFirstSticks(p, calls, first);
    CallKeeps(SeedOf(q, first), q.shared);
  }

  // ----- where the states go -----

  /** What one call puts into the table: the new state, and the whole new table of a refill. */
  function Entering(idum: int, g: Shuffler): multiset<int>
    requires IsSeed(idum) && GoodTable(g)
  {
    multiset{Call(idum, g).0} + if NeedsFill(idum, g) then multiset(Filled(Positive(idum))) else multiset{}
  }

  /** What one call takes out of it: the number drawn, and the whole old table of a refill. */
  function Leaving(idum: int, g: Shuffler): multiset<int>
    requires IsSeed(idum) && GoodTable(g)
  {
    multiset{Call(idum, g).1.iy} + if NeedsFill(idum, g) then multiset(g.iv) else multiset{}
  }

  lemma CallConserves(idum: int, g: Shuffler)
    requires IsSeed(idum) && GoodTable(g)
    ensures multiset(Call(idum, g).1.iv) + Leaving(idum, g) == multiset(g.iv) + Entering(idum, g)
  {
    CallKeeps(idum, g);
  }

  /** Everything that has been in the table in a run, what it started with included. */
  function Entered(p: Pair, calls: seq<bool>): multiset<int>
    requires GoodPair(p)
    decreases |calls|
  {
    if calls == [] then multiset(p.shared.iv)
    else
      var m := |calls| - 1;
      var q := Run(p, calls[..m]);
      Entered(p, calls[..m]) + Entering(SeedOf(q, calls[m]), q.shared)
  }

  /** Everything that a run took out of it. */
  function Left(p: Pair, calls: seq<bool>): multiset<int>
    requires GoodPair(p)
    decreases |calls|
  {
    if calls == [] then multiset{}
    else
      var m := |calls| - 1;
      var q := Run(p, calls[..m]);
      Left(p, calls[..m]) + Leaving(SeedOf(q, calls[m]), q.shared)
  }

  lemma Ledger(table: multiset<int>, left: multiset<int>, entered: multiset<int>, after: multiset<int>,
               leaving: multiset<int>, entering: multiset<int>)
    requires table + left == entered && after + leaving == table + entering
    ensures after + (left + leaving) == entered + entering
  {
    assert after + (left + leaving) == (after + leaving) + left;
    assert (table + entering) + left == (table + left) + entering;
  }

  /**
   Conservation over every run, refills included: the table holds exactly what entered it and has not
   left it. So from one refill to the next no generated state is lost and none is drawn twice.
   */
  lemma {:induction false} RunConserves(p: Pair, calls: seq<bool>)
    requires GoodPair(p)
    ensures multiset(Run(p, calls).shared.iv) + Left(p, calls) == Entered(p, calls)
    decreases |calls|
  {
    if calls != [] {
      var m := |calls| - 1;
      var q := Run(p, calls[..m]);
      var seed := SeedOf(q, calls[m]);
      RunConserves(p, calls[..m]);
      CallConserves(seed, q.shared);
      Ledger(multiset(q.shared.iv), Left(p, calls[..m]), Entered(p, calls[..m]),
             multiset(Call(seed, q.shared).1.iv), Leaving(seed, q.shared), Entering(seed, q.shared));
    }
  }

  /**
   From seeds that do not stick, the table is filled exactly twice in any run: by the first call of
   each generator.
   */
  lemma {:induction false} RefillsIff(p: Pair, calls: seq<bool>, first: bool)
    requires GoodPair(p) && p.floatidum <= 0 && p.intidum <= 0
    requires !Sticks(p.floatidum) && !Sticks(p.intidum)
    ensures NeedsFill(SeedOf(Run(p, calls), first), Run(p, calls).shared) <==> first !in calls
    ensures SeedOf(Run(p, calls), first) <= 0 <==> first !in calls
    ensures calls != [] ==> Run(p, calls).shared.iy != 0
    decreases |calls|
  {
    if calls != [] {
      var m := |calls| - 1;
      assert calls == calls[..m] + [calls[m]];
      RefillsIff(p, calls[..m], first);
      RunKeeps(p, calls[..m], calls[m]);
    }
  }

  // ----- the ring generator behind ran3 -----

  const KK := 17
  const JJ := 10
  const R1 := 5
  const R2 := 3

  /**
   `x << r | x >> 64 - r` on 64 bits, for the two amounts in use: the two parts share no bit, so
   their union is their sum.
   */
  function Rotl(x: nat, r: nat): (y: nat)
    requires x < TWO64 && (r == R1 || r == R2)
  {
    if r == R1 then x * 32 % TWO64 + x / 0x800_0000_0000_0000
    else x * 8 % TWO64 + x / 0x2000_0000_0000_0000
  }

  /** Rotating stays in 64 bits and can be undone. */
  lemma RotlInverse(x: nat, y: nat, r: nat)
    requires x < TWO64 && y < TWO64 && (r == R1 || r == R2)
    ensures Rotl(x, r) < TWO64
    ensures Rotl(x, r) == Rotl(y, r) ==> x == y
  {
    if r == R1 {
      RotlPart(x, Rotl(x, r), 32, 0x800_0000_0000_0000);
      RotlPart(y, Rotl(y, r), 32, 0x800_0000_0000_0000);
    } else {
      RotlPart(x, Rotl(x, r), 8, 0x2000_0000_0000_0000);
      RotlPart(y, Rotl(y, r), 8, 0x2000_0000_0000_0000);
    }
  }

  /**
   `y` is `x` rotated left by as many bits as make a factor of `times`: rotating is multiplying modulo
   2^64 - 1, where 0 and 2^64 - 1 are kept apart. This says nothing of how it is computed.
   */
  ghost predicate Rotated(x: nat, y: nat, times: nat) {
    && y < TWO64
    && (times * x - y) % (TWO64 - 1) == 0
    && (y == 0 <==> x == 0)
  }

  /** There is only one such word. */
  lemma RotatedUnique(x: nat, y: nat, z: nat, times: nat)
    requires Rotated(x, y, times) && Rotated(x, z, times)
    ensures y == z
  {
    var m := TWO64 - 1;
    DivBlock(times * x - y, m);
    DivBlock(times * x - z, m);
    SameMultiple(y, z, (times * x - z) / m - (times * x - y) / m, m);
  }

  lemma SameMultiple(y: nat, z: nat, k: int, m: nat)
    requires m > 0 && y <= m && z <= m && y - z == k * m && (y == 0 <==> z == 0)
    ensures y == z
  {
    if k >= 1 { MulMonotone(1, k, m); }
    if k <= -1 { MulMonotone(k, -1, m); }
  }

  /** The two amounts in use: 5 bits make a factor of 32 and 3 bits one of 8. */
  lemma RotlTurns(x: nat)
    requires x < TWO64
    ensures Rotated(x, Rotl(x, 5), 32) && Rotated(x, Rotl(x, 3), 8)
  {
    Turned(x, Rotl(x, 5), 32, 0x800_0000_0000_0000);
    Turned(x, Rotl(x, 3), 8, 0x2000_0000_0000_0000);
  }

  lemma Turned(x: nat, rotated: nat, up: nat, down: nat)
    requires x < TWO64 && up * down == TWO64 && up >= 1 && down >= 1
    requires rotated == x * up % TWO64 + x / down
    ensures Rotated(x, rotated, up)
  {
    var hi, lo := x / down, x % down;
    RotlPart(x, rotated, up, down);
    DivBlock(x, down);
    DivAtLeast(x, down, 0);
    MulMonotone(lo + 1, down, up);
    Regroup(hi, lo, up, down);
    DivMod(x * up, TWO64, hi, lo * up);
    assert up * x - rotated == hi * (TWO64 - 1);
    DivMod(up * x - rotated, TWO64 - 1, hi, 0);
    if rotated == 0 {
      assert x == rotated % up * down + rotated / up == 0 * down + 0;
    }
  }

  /** The rotated word shows both parts of the original: the low bits on top, the high bits below. */
  lemma RotlPart(x: nat, rotated: nat, up: nat, down: nat)
    requires x < TWO64 && up * down == TWO64 && up >= 1 && down >= 1
    requires rotated == x * up % TWO64 + x / down
    ensures rotated < TWO64
    ensures x == rotated % up * down + rotated / up
  {
    var hi, lo := x / down, x % down;
    DivBlock(x, down);
    DivAtLeast(x, down, up);
    DivAtLeast(x, down, 0);
    MulMonotone(lo + 1, down, up);
    Regroup(hi, lo, up, down);
    DivMod(x * up, TWO64, hi, lo * up);
    DivMod(rotated, up, lo, hi);
  }

  lemma Regroup(hi: int, lo: int, up: int, down: int)
    ensures (hi * down + lo) * up == hi * (up * down) + lo * up
    ensures (lo + 1) * up == lo * up + up
    ensures down * up == up * down
  {
  }

  function Mix(a: nat, b: nat): (x: nat)
    requires a < TWO64 && b < TWO64
    ensures x < TWO64
  {
    (Rotl(a, R1) + Rotl(b, R2)) % TWO64
  }

  predicate Words(h: seq<nat>) {
    forall i :: 0 <= i < |h| ==> h[i] < TWO64
  }

  /** The number that follows a history: X[n-10] rotated by 5 plus X[n-17] rotated by 3, modulo 2^64. */
  function NextWord(h: seq<nat>): (x: nat)
    requires |h| >= KK && Words(h)
    ensures x < TWO64
  {
    Mix(h[|h| - JJ], h[|h| - KK])
  }

  /** `x` is `a` rotated by 5 bits plus `b` rotated by 3, modulo 2^64. */
  ghost predicate Combined(a: nat, b: nat, x: nat) {
    exists u: nat, v: nat :: Rotated(a, u, 32) && Rotated(b, v, 8) && x == (u + v) % TWO64
  }

  lemma MixCombines(a: nat, b: nat)
    requires a < TWO64 && b < TWO64
    ensures Combined(a, b, Mix(a, b))
  {
    RotlTurns(a);
    RotlTurns(b);
  }

  /** Two words leave one possibility for the word that combines them. */
  lemma CombinedUnique(a: nat, b: nat, x: nat, y: nat)
    requires Combined(a, b, x) && Combined(a, b, y)
    ensures x == y
  {
    var u: nat, v: nat :| Rotated(a, u, 32) && Rotated(b, v, 8) && x == (u + v) % TWO64;
    var s: nat, t: nat :| Rotated(a, s, 32) && Rotated(b, t, 8) && y == (s + t) % TWO64;
    RotatedUnique(a, u, s, 32);
    RotatedUnique(b, v, t, 8);
  }

  predicate Recurrence(h: seq<nat>)
    requires Words(h)
  {
    forall n :: KK <= n < |h| ==> h[n] == Mix(h[n - JJ], h[n - KK])
  }

  /** Index `m` places after `p` in the ring of KK words. */
  function After(p: int, m: int): (i: int)
    requires 0 <= p < KK && 0 <= m <= KK
    ensures 0 <= i < KK
  {
    if p + m < KK then p + m else p + m - KK
  }

  /** Moving the ring pointer one place back moves every place one further after it. */
  lemma Shifted(p: int, m: int)
    requires 0 <= p < KK && 1 < m <= KK
    ensures After(Back(p), m) == After(p, m - 1) != p
  {
  }

  /** The buffer is a window on the history: the word `m` steps back stands `m` places after `p`. */
  ghost predicate RingHolds(p: int, buffer: seq<nat>, history: seq<nat>) {
    && 0 <= p < KK && |buffer| == KK && |history| >= KK
    && forall m {:trigger After(p, m)} :: 1 <= m <= KK ==> buffer[After(p, m)] == history[|history| - m]
  }

  /** The two words that the generator combines are those 10 and 17 steps back. */
  lemma RingReads(p: int, buffer: seq<nat>, history: seq<nat>)
    requires RingHolds(p, buffer, history)
    ensures buffer[After(p, JJ)] == history[|history| - JJ] && buffer[p] == history[|history| - KK]
  {
    assert After(p, KK) == p;
  }

  lemma RingShifted(p: int, buffer: seq<nat>, history: seq<nat>, x: nat)
    requires RingHolds(p, buffer, history)
    ensures RingHolds(Back(p), buffer[p := x], history + [x])
  {
    var q := Back(p);
    forall m {:trigger After(q, m)} | 1 <= m <= KK
      ensures buffer[p := x][After(q, m)] == (history + [x])[|history| + 1 - m]
    {
      if m > 1 { Shifted(p, m); }
    }
  }

  function NextSeed(s: nat): (x: nat)
    requires s < TWO64
    ensures x < TWO64
  {
    (Rotl(s, 5) + 97) % TWO64
  }

  /** Word `i` that RanrotAInit puts in the buffer. */
  function SeedWord(seed: nat, i: nat): (x: nat)
    requires seed < TWO64
    ensures x < TWO64
  {
    if i == 0 then seed else NextSeed(SeedWord(seed, i - 1))
  }

  /** The freshly seeded buffer, read as a history. */
  function SeedHistory(seed: nat): (h: seq<nat>)
    requires seed < TWO64
    ensures |h| == KK && Words(h)
  {
    seq(KK, k requires 0 <= k < KK => if k == 0 then SeedWord(seed, 0) else SeedWord(seed, KK - k))
  }

  /** `next` is `s` rotated by 5 bits, plus 97, modulo 2^64. */
  ghost predicate Stepped(s: nat, next: nat) {
    exists u: nat :: Rotated(s, u, 32) && next == (u + 97) % TWO64
  }

  lemma SeedStep(s: nat)
    requires s < TWO64
    ensures Stepped(s, NextSeed(s))
  {
    RotlTurns(s);
  }

  lemma SeedWordStep(seed: nat, i: nat, j: nat)
    requires seed < TWO64 && j == i + 1
    ensures Stepped(SeedWord(seed, i), SeedWord(seed, j))
  {
    SeedStep(SeedWord(seed, i));
    assert SeedWord(seed, j) == NextSeed(SeedWord(seed, i));
  }

  lemma SeedAt(seed: nat, k: nat)
    requires seed < TWO64 && k < KK
    ensures SeedHistory(seed)[k] == SeedWord(seed, if k == 0 then 0 else KK - k)
  {
  }

  /** What the buffer is seeded with: the seed first, and then, from the far end, one step after another. */
  lemma SeedHistoryLaw(seed: nat, k: nat)
    requires seed < TWO64 && 1 <= k <= 16
    ensures SeedHistory(seed)[0] == seed
    ensures Stepped(if k == 16 then seed else SeedHistory(seed)[k + 1], SeedHistory(seed)[k])
  {
    SeedAt(seed, 0);
    SeedAt(seed, k);
    if k < 16 { SeedAt(seed, k + 1); }
    SeedWordStep(seed, 16 - k, 17 - k);
  }

  /** The recurrence in the numbers of the generator: word `n` from those 10 and 17 before it. */
  lemma RecurrenceLaw(h: seq<nat>, n: nat)
    requires Words(h) && Recurrence(h) && 17 <= n < |h|
    ensures Combined(h[n - 10], h[n - 17], h[n])
  {
    MixCombines(h[n - 10], h[n - 17]);
  }

  /** The seed words and the recurrence leave no freedom: everything ran3 ever returns is determined. */
  lemma {:induction false} RecurrenceUnique(g: seq<nat>, h: seq<nat>)
    requires |g| == |h| >= KK && Words(g) && Words(h) && Recurrence(g) && Recurrence(h)
    requires g[..KK] == h[..KK]
    ensures g == h
    decreases |g|
  {
    var n := |g| - 1;
    if n >= KK {
      assert g[..n][..KK] == h[..n][..KK] by { assert g[..n][..KK] == g[..KK] && h[..n][..KK] == h[..KK]; }
      RecurrenceUnique(g[..n], h[..n]);
      assert g[n - JJ] == g[..n][n - JJ] == h[n - JJ] && g[n - KK] == g[..n][n - KK] == h[n - KK];
      assert g == g[..n] + [g[n]] && h == h[..n] + [h[n]];
    } else {
      assert g == g[..KK] && h == h[..KK];
    }
  }

  /** One place back in the ring. */
  function Back(p: int): (q: int)
    requires 0 <= p < KK
    ensures 0 <= q < KK
  {
    if p == 0 then KK - 1 else p - 1
  }

  lemma BackTogether(p: int)
    requires 0 <= p < KK
    ensures Back(After(p, JJ)) == After(Back(p), JJ)
  {
  }

  lemma HistoryGrows(h: seq<nat>)
    requires |h| >= KK && Words(h) && Recurrence(h)
    ensures Words(h + [NextWord(h)]) && Recurrence(h + [NextWord(h)])
  {
  }

  class Prng {
    var floatidum: int
    var intidum: int
    var iy: int
    const iv: array<int>
    const randbuffer: array<nat>
    var r_p1: int
    var r_p2: int
    /** Everything the ring generator has produced, after the words that seeded it. */
    ghost var history: seq<nat>

    ghost function Pair_(): Pair
      reads this, iv
    {
      Pair(floatidum, intidum, Shuffler(iy, iv[..]))
    }

    ghost predicate Valid()
      reads this, iv, randbuffer
    {
      && iv.Length == NTAB && randbuffer.Length == KK
      && GoodPair(Pair_())
    }

    ghost predicate RingValid()
      reads this, randbuffer
    {
      && randbuffer.Length == KK
      && 0 <= r_p1 < KK && r_p2 == After(r_p1, JJ)
      && |history| >= KK && Words(history) && Recurrence(history)
      && RingHolds(r_p1, randbuffer[..], history)
    }

    /**
     prng_Init: generator 1 is the shuffled one and 2 the ring; for any other number nothing of what is
     modelled here is seeded or drawn. The least long is the one seed whose negation overflows.
     */
    constructor Init(seed: int, nric: int)
      requires nric == 1 ==> IsLong(seed)
      ensures fresh(iv) && fresh(randbuffer)
      ensures Valid()
      ensures nric == 1 ==>
                var s := if seed > 0 then -seed else seed;
                Pair_() == Run(Pair(s, s, Shuffler(0, seq(NTAB, _ => 0))), [true, false])
      ensures nric != 1 ==> Pair_() == Pair(-1, -1, Shuffler(0, seq(NTAB, _ => 0)))
      ensures nric == 2 ==>
                && RingValid() && |history| == KK + 302
                && history[..KK] == SeedHistory(seed % TWO64)
      ensures nric != 2 ==> randbuffer[..] == seq(KK, _ => 0)
    {
      floatidum, intidum, iy, r_p1, r_p2 := -1, -1, 0, 0, 0;
      iv := new int[NTAB](_ => 0);
      randbuffer := new nat[KK](_ => 0);
      history := [];
      new;
      assert iv[..] == seq(NTAB, _ => 0);
      assert randbuffer[..] == seq(KK, _ => 0);
      if nric == 2 {
        StartRing(seed % TWO64);
      } else if nric == 1 {
        if seed > 0 {
          floatidum, intidum := -seed, -seed;
        } else {
          floatidum, intidum := seed, seed;
        }
        DrawBoth();
      }
    }

    /** The ring seeded, with the two draws that prng_Init makes from it. */
    method StartRing(seed: nat)
      requires randbuffer.Length == KK && seed < TWO64
      modifies this`r_p1, this`r_p2, this`history, randbuffer
      ensures RingValid() && |history| == KK + 302 && history[..KK] == SeedHistory(seed)
    {
      RanrotAInit(seed);
      var _ := Ran3();
      var _ := Ran3();
    }

    /** The two draws that prng_Init makes to get the shuffled generator going. */
    method DrawBoth()
      requires Valid()
      modifies this`floatidum, this`intidum, this`iy, iv
      ensures Valid() && Pair_() == Run(old(Pair_()), [true, false])
    {
      ghost var p := Pair_();
      RunMore(p, [], true);
      RunMore(p, [true], false);
      assert [] + [true] == [true] && [true] + [false] == [true, false];
      var _ := Ran1();
      var _ := Ran2();
    }

    /** Seeds the ring and discards the first 300 words. */
    method RanrotAInit(seed: nat)
      requires randbuffer.Length == KK && seed < TWO64
      modifies this`r_p1, this`r_p2, this`history, randbuffer
      ensures RingValid()
      ensures |history| == KK + 300 && history[..KK] == SeedHistory(seed)
    {
      Seed(seed);
      for i := 0 to 300
        invariant RingValid()
        invariant |history| == KK + i && history[..KK] == SeedHistory(seed)
      {
        var _ := Ran3();
      }
    }

    method Seed(seed: nat)
      requires randbuffer.Length == KK && seed < TWO64
      modifies this`r_p1, this`r_p2, this`history, randbuffer
      ensures RingValid() && history == SeedHistory(seed)
    {
      var s := seed;
      for i := 0 to KK
        invariant s == SeedWord(seed, i)
        invariant forall k :: 0 <= k < i ==> randbuffer[k] == SeedWord(seed, k)
      {
        randbuffer[i] := s;
        s := NextSeed(s);
      }
      r_p1 := 0;
      r_p2 := JJ;
      history := SeedHistory(seed);
    }

    /** Restarts the generator from a seed: WARM steps, the last NTAB of them kept in the table. */
    method Fill(idum: int) returns (next: int)
      requires iv.Length == NTAB && IsSeed(idum)
      modifies iv
      ensures next == Iterate(Positive(idum), WARM)
      ensures iv[..] == Filled(Positive(idum))
    {
      next := idum;
      if -next < 1 { next := 1; } else { next := -next; }
      ghost var x, table := next, Filled(next);
      var j := NTAB + 7;
      while j >= 0
        invariant -1 <= j <= NTAB + 7
        invariant next == Iterate(x, NTAB + 7 - j)
        invariant forall i :: j < i < NTAB ==> iv[i] == table[i]
      {
        next := Advance(next, x, NTAB + 7 - j);
        if j < NTAB {
          assert table[j] == Iterate(x, WARM - j);
          iv[j] := next;
        }
        j := j - 1;
      }
    }

    /** The Schrage step as the source writes it. */
    static method Advance(x: int, ghost seed: int, ghost n: nat) returns (next: int)
      requires x == Iterate(seed, n)
      ensures next == Schrage(x) == Iterate(seed, n + 1)
    {
      var k := Quotient(x);
      next := IA * (x - k * IQ) - IR * k;
      if next < 0 { next := next + IM; }
    }

    /** The body that ran1 and ran2 have in common, on the seed that each keeps for itself. */
    method Draw(idum: int) returns (next: int)
      requires Valid() && IsSeed(idum)
      modifies this`iy, iv
      ensures (next, Shuffler(iy, iv[..])) == Call(idum, old(Shuffler(iy, iv[..])))
      ensures idum > 0 && old(iy) != 0 ==>
                var j := old(iy) / 67108864;
                && next == 16807 * idum % 2147483647
                && 0 <= j < 32 && iy == old(iv[..])[j] && iv[..] == old(iv[..])[j := next]
    {
      next := idum;
      PreparedGood(idum, Shuffler(iy, iv[..]));
      if idum > 0 { SchrageDivides(idum); }
      if next <= 0 || iy == 0 {
        next := Fill(next);
        iy := iv[0];
      }
      var j := Pick(iy);
      next := Advance(next, next, 0);
      iy := iv[j];
      iv[j] := next;
    }

    /** ran1, up to the scaling of the drawn integer to a float in (0, 1). */
    method Ran1() returns (drawn: int)
      requires Valid()
      modifies this`floatidum, this`iy, iv
      ensures Valid() && Pair_() == CallEither(old(Pair_()), true)
      ensures drawn == iy && if Sticks(old(floatidum)) then drawn == 0 else IsState(drawn)
    {
      CallKeeps(floatidum, Shuffler(iy, iv[..]));
      floatidum := Draw(floatidum);
      drawn := iy;
    }

    method Ran2() returns (drawn: int)
      requires Valid()
      modifies this`intidum, this`iy, iv
      ensures Valid() && Pair_() == CallEither(old(Pair_()), false)
      ensures drawn == iy && if Sticks(old(intidum)) then drawn == 0 else IsState(drawn)
    {
      CallKeeps(intidum, Shuffler(iy, iv[..]));
      intidum := Draw(intidum);
      drawn := iy;
    }

    /** The word that the two pointers select. */
    method Combine() returns (x: nat)
      requires RingValid()
      ensures x == NextWord(history)
    {
      RingReads(r_p1, randbuffer[..], history);
      x := Mix(randbuffer[r_p2], randbuffer[r_p1]);
    }

    /** Stores it and moves both pointers one place back. */
    method Rotate(x: nat)
      requires RingValid() && x == NextWord(history)
      modifies this`r_p1, this`r_p2, this`history, randbuffer
      ensures RingValid() && history == old(history) + [x]
    {
      ghost var p, buffer := r_p1, randbuffer[..];
      HistoryGrows(history);
      RingShifted(p, buffer, history, x);
      BackTogether(p);
      randbuffer[r_p1] := x;
      assert randbuffer[..] == buffer[p := x];
      r_p1 := r_p1 - 1;
      if r_p1 < 0 { r_p1 := KK - 1; }
      r_p2 := r_p2 - 1;
      if r_p2 < 0 { r_p2 := KK - 1; }
      history := history + [x];
    }

    /** Refines the recurrence: the answer is the next word of the history. */
    method Ran3() returns (x: nat)
      requires RingValid()
      modifies this`r_p1, this`r_p2, this`history, randbuffer
      ensures RingValid()
      ensures x == NextWord(old(history)) && history == old(history) + [x]
      ensures var n := |old(history)|; Combined(old(history)[n - 10], old(history)[n - 17], x)
    {
      MixCombines(history[|history| - JJ], history[|history| - KK]);
      x := Combine();
      Rotate(x);
    }
  }
}
