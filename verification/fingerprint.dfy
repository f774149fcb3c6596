/**
  Fingerprints and the prefilter `compare_fp`.

  A fingerprint is the set of bit positions it has switched on. The screening
  code only ever combines two fingerprints with `&` and compares the outcome
  with `==`, so the set view loses nothing; the second half of this module
  proves that on the integer encoding, where `&` is bitwise conjunction, the
  test means the same thing.
 */
module Fingerprint {

  /** The bit positions switched on in a fingerprint. */
  type Fp = set<nat>

  /**
    `compare_fp(query_fp, fp)`: the query fingerprint is unchanged by masking
    it with the conformer's, which is to say every bit the query sets is also
    set by the conformer.
   */
  predicate CompareFp(queryFp: Fp, fp: Fp): (r: bool)
    ensures r <==> forall b :: b in queryFp ==> b in fp
  {
    queryFp * fp == queryFp
  }

  /** A fingerprint always passes against itself. */
  lemma CompareFpReflexive(fp: Fp)
    ensures CompareFp(fp, fp)
  {
  }

  /** An empty query passes against every conformer. */
  lemma EmptyQueryPassesAll(fp: Fp)
    ensures CompareFp({}, fp)
  {
  }

  /** Passing is transitive: it is inclusion of bit sets. */
  lemma CompareFpTransitive(a: Fp, b: Fp, c: Fp)
    requires CompareFp(a, b) && CompareFp(b, c)
    ensures CompareFp(a, c)
  {
  }

  /** A conformer that sets more bits, or a query that demands fewer, still passes. */
  lemma CompareFpMonotone(q: Fp, q': Fp, fp: Fp, fp': Fp)
    requires CompareFp(q, fp) && q' <= q && fp <= fp'
    ensures CompareFp(q', fp')
  {
  }

  // ---------------------------------------------------------------------
  // The integer encoding: a fingerprint as a non-negative integer.
  // ---------------------------------------------------------------------

  /** Bit `i` (counting from the least significant) of `n`. */
  predicate Bit(n: nat, i: nat)
    decreases i
  {
    if i == 0 then n % 2 == 1 else Bit(n / 2, i - 1)
  }

  /** Python's `&` on non-negative integers. */
  function BitAnd(a: nat, b: nat): (r: nat)
    ensures r <= a && r <= b
  {
    if a == 0 || b == 0 then 0
    else 2 * BitAnd(a / 2, b / 2) + (if a % 2 == 1 && b % 2 == 1 then 1 else 0)
  }

  /** Zero has no bit set. */
  lemma {:induction false} ZeroHasNoBits(i: nat)
    ensures !Bit(0, i)
  {
    if i > 0 {
      ZeroHasNoBits(i - 1);
    }
  }

  /** The lowest bit of `a & b` is the AND of the lowest bits, and the rest is the AND of the rest. */
  lemma LowBitAndRest(a: nat, b: nat)
    requires a != 0 && b != 0
    ensures BitAnd(a, b) % 2 == 1 <==> a % 2 == 1 && b % 2 == 1
    ensures BitAnd(a, b) / 2 == BitAnd(a / 2, b / 2)
  {
    var x := BitAnd(a / 2, b / 2);
    var d := if a % 2 == 1 && b % 2 == 1 then 1 else 0;
    assert BitAnd(a, b) == 2 * x + d;
    assert (2 * x + d) % 2 == d && (2 * x + d) / 2 == x;
  }

  /** A bit of `a & b` is set exactly when it is set in both `a` and `b`. */
  lemma {:induction false} BitAndBits(a: nat, b: nat, i: nat)
    ensures Bit(BitAnd(a, b), i) <==> Bit(a, i) && Bit(b, i)
    decreases i
  {
    if a == 0 || b == 0 {
      ZeroHasNoBits(i);
    } else {
      LowBitAndRest(a, b);
      if i > 0 {
        BitAndBits(a / 2, b / 2, i - 1);
      }
    }
  }

  /** Two integers with the same bits are equal. */
  lemma {:induction false} SameBitsSameNumber(a: nat, b: nat)
    requires forall i: nat :: Bit(a, i) <==> Bit(b, i)
    ensures a == b
    decreases a + b
  {
    if a != 0 || b != 0 {
      assert Bit(a, 0) <==> Bit(b, 0);
      forall i: nat ensures Bit(a / 2, i) <==> Bit(b / 2, i) {
        assert Bit(a, i + 1) <==> Bit(b, i + 1);
      }
      SameBitsSameNumber(a / 2, b / 2);
    }
  }

  /** A set bit lies below the number itself (the number is at least two to its position). */
  lemma {:induction false} BitBelow(n: nat, i: nat)
    requires Bit(n, i)
    ensures i < n
    decreases i
  {
    if i > 0 {
      BitBelow(n / 2, i - 1);
    }
  }

  /** The bit positions switched on in `n`. */
  function BitSet(n: nat): (s: Fp)
    ensures forall i :: i in s <==> Bit(n, i)
  {
    forall i: nat | Bit(n, i) ensures i < n {
      BitBelow(n, i);
    }
    set i: nat | i < n && Bit(n, i)
  }

  /**
    On the integer encoding `compare_fp` is inclusion of bit positions, so it
    agrees with the set encoding used by the rest of the model.
   */
  lemma {:induction false} CompareFpOnIntegers(q: nat, fp: nat)
    ensures BitAnd(q, fp) == q <==> CompareFp(BitSet(q), BitSet(fp))
  {
    if BitAnd(q, fp) == q {
      forall i: nat | Bit(q, i) ensures Bit(fp, i) {
        BitAndBits(q, fp, i);
      }
    }
    if CompareFp(BitSet(q), BitSet(fp)) {
      forall i: nat ensures Bit(BitAnd(q, fp), i) <==> Bit(q, i) {
        BitAndBits(q, fp, i);
        assert Bit(q, i) ==> i in BitSet(q);
      }
      SameBitsSameNumber(BitAnd(q, fp), q);
    }
  }
}
