/**
  Products of two unknowns, written as repeated addition.

  Image code indexes row y of a w-wide buffer at y * w. The proofs about that code go
  through `Mul`, defined by recursion on the row count, so that the solver reasons about
  one row at a time instead of about products of unknowns; `MulIsProduct` says it is `*`.
 */
module Arith {

  /** a * b, written as repeated addition. */
  function Mul(a: nat, b: nat): (p: nat)
    decreases a
  {
    if a == 0 then 0 else Mul(a - 1, b) + b
  }

  lemma {:induction false} MulIsProduct(a: nat, b: nat)
    ensures Mul(a, b) == a * b
    decreases a
  {
    if a > 0 {
      MulIsProduct(a - 1, b);
    }
  }

  /** Rows further down start further on. */
  lemma {:induction false} MulMono(a: nat, b: nat, n: nat)
    requires a <= b
    ensures Mul(a, n) <= Mul(b, n)
    decreases b - a
  {
    if a < b {
      MulMono(a + 1, b, n);
    }
  }

  /** Twice as many rows of twice the width hold four times as much. */
  lemma {:induction false} MulDoubled(a: nat, b: nat)
    ensures Mul(2 * a, 2 * b) == 4 * Mul(a, b)
    decreases a
  {
    if a > 0 {
      MulDoubled(a - 1, b);
      assert Mul(2 * a, 2 * b) == Mul(2 * a - 1, 2 * b) + 2 * b;
      assert Mul(2 * a - 1, 2 * b) == Mul(2 * (a - 1), 2 * b) + 2 * b;
    }
  }

  lemma {:induction false} MulTriple(a: nat, b: nat)
    ensures Mul(a, 3 * b) == 3 * Mul(a, b)
    decreases a
  {
    if a > 0 {
      MulTriple(a - 1, b);
    }
  }

  /** a rows of at least one element hold at least a elements. */
  lemma {:induction false} MulAtLeast(a: nat, b: nat)
    requires b >= 1
    ensures Mul(a, b) >= a
    decreases a
  {
    if a > 0 {
      MulAtLeast(a - 1, b);
    }
  }

  /** Rows y + r of a w-wide buffer start r rows after row y. */
  lemma {:induction false} MulAdd(a: nat, b: nat, n: nat)
    ensures Mul(a + b, n) == Mul(a, n) + Mul(b, n)
    decreases b
  {
    if b > 0 {
      MulAdd(a, b - 1, n);
    }
  }
}
