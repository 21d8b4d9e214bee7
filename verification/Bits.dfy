/** Bitwise "or" and "and" on unsigned values, and the tests the drivers build from them. */
module Bits {
  import Arith

  function BitOr(a: nat, b: nat): nat {
    if a == 0 && b == 0 then 0
    else 2 * BitOr(a / 2, b / 2) + (if a % 2 == 1 || b % 2 == 1 then 1 else 0)
  }

  function BitAnd(a: nat, b: nat): nat {
    if a == 0 || b == 0 then 0
    else 2 * BitAnd(a / 2, b / 2) + (if a % 2 == 1 && b % 2 == 1 then 1 else 0)
  }

  function Pow2(k: nat): (r: nat)
    ensures r >= 1
  {
    if k == 0 then 1 else 2 * Pow2(k - 1)
  }

  /** Masking with a power of two less one is the remainder by that power. */
  lemma {:induction false} MaskIsRemainder(n: nat, k: nat)
    ensures BitAnd(n, Pow2(k) - 1) == n % Pow2(k)
  {
    if k > 0 {
      var p := Pow2(k - 1);
      assert (2 * p - 1) / 2 == p - 1 && (2 * p - 1) % 2 == 1;
      MaskIsRemainder(n / 2, k - 1);
      HalfRemainder(n, p);
    }
  }

  lemma HalfRemainder(n: nat, p: nat)
    requires p >= 1
    ensures n % (2 * p) == 2 * (n / 2 % p) + n % 2
  {
    var q, r := n / 2 / p, n / 2 % p;
    Arith.Identity(n / 2, p);
    assert q * (2 * p) == 2 * (q * p);
    Arith.DivModUnique(n, 2 * p, q, 2 * r + n % 2);
  }

  lemma {:induction false} OrBit(a: nat, b: nat)
    ensures BitOr(a, b) % 2 == 0 <==> a % 2 == 0 && b % 2 == 0
    ensures BitOr(a, b) / 2 == BitOr(a / 2, b / 2)
  {
  }

  /** No bit of either operand is under the mask exactly when both are multiples of the power. */
  lemma {:induction false} AlignedTogether(a: nat, b: nat, k: nat)
    ensures BitAnd(BitOr(a, b), Pow2(k) - 1) == 0 <==> a % Pow2(k) == 0 && b % Pow2(k) == 0
  {
    var v := BitOr(a, b);
    MaskIsRemainder(v, k);
    OrMultiple(a, b, k);
  }

  lemma {:induction false} OrMultiple(a: nat, b: nat, k: nat)
    ensures BitOr(a, b) % Pow2(k) == 0 <==> a % Pow2(k) == 0 && b % Pow2(k) == 0
  {
    if k > 0 {
      var p, v := Pow2(k - 1), BitOr(a, b);
      OrBit(a, b);
      OrMultiple(a / 2, b / 2, k - 1);
      HalfRemainder(v, p);
      HalfRemainder(a, p);
      HalfRemainder(b, p);
    }
  }
}
