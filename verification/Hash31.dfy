/** The pairwise hash of rdma_pacer/prng.c: `a*x + b` folded modulo the Mersenne prime 2^31 - 1. */
module Hash31 {
  import opened Arith

  const MOD: nat := 2147483647
  const TWO31: nat := 2147483648

  /** `((r >> 31) + r) & MOD`: one fold of the high half onto the low half, carry dropped. */
  function Fold(r: nat): (h: nat)
    ensures h <= MOD
  {
    (r / TWO31 + r) % TWO31
  }

  function Hash(a: nat, b: nat, x: nat): (h: nat)
    ensures h <= MOD
  {
    Fold(a * x + b)
  }

  /** The high and the low half add up to 2^31 or more: the mask throws that carry away. */
  predicate Carries(r: nat) {
    r / TWO31 + r % TWO31 >= TWO31
  }

  lemma FoldHalves(r: nat)
    ensures Fold(r) == (r / TWO31 + r % TWO31) % TWO31
    ensures r % MOD == (r / TWO31 + r % TWO31) % MOD
  {
    var hi, lo := r / TWO31, r % TWO31;
    var sum := hi + lo;
    DivMod(hi + r, TWO31, hi + sum / TWO31, sum % TWO31);
    DivMod(r, MOD, hi + sum / MOD, sum % MOD);
  }

  lemma ProductBound(a: nat, x: nat, m: nat)
    requires a <= m && x <= m
    ensures a * x <= m * m
  {
    assert a * x <= m * x by { assert (m - a) * x >= 0; }
    assert m * x <= m * m by { assert m * (m - x) >= 0; }
  }

  lemma FoldResidue(r: nat)
    requires r <= MOD * TWO31
    ensures Fold(r) % MOD == r % MOD <==> !Carries(r)
    ensures Carries(r) ==> Fold(r) + 1 == r % MOD
  {
    FoldHalves(r);
    var hi, lo := r / TWO31, r % TWO31;
    assert hi <= MOD;
    assert hi == MOD ==> lo == 0;
    if Carries(r) {
      assert (hi + lo) % TWO31 == hi + lo - TWO31;
      assert (hi + lo) % MOD == hi + lo - MOD;
    } else {
      assert (hi + lo) % TWO31 == hi + lo;
    }
  }

  /**
   The hash is the residue of `a*x + b` exactly when the fold does not carry; when it does carry,
   the hash is one less than the residue.
   */
  lemma HashResidue(a: nat, b: nat, x: nat)
    requires a <= MOD && b <= MOD && x <= MOD
    ensures Hash(a, b, x) % MOD == (a * x + b) % MOD <==> !Carries(a * x + b)
    ensures Carries(a * x + b) ==> Hash(a, b, x) + 1 == (a * x + b) % MOD
  {
    ProductBound(a, x, MOD);
    FoldResidue(a * x + b);
  }

  /** A hash that is not the residue: 2^30 * 2 + (2^31 - 1) hashes to 0, and its residue is 1. */
  lemma HashOffByOne()
    ensures Hash(1073741824, MOD, 2) == 0 && (1073741824 * 2 + MOD) % MOD == 1
  {
  }
}
