/** Division facts with a variable divisor, kept away from the lemmas that use them. */
module Arith {

  lemma MulAtLeast(k: int, d: int)
    requires k >= 1 && d >= 0
    ensures k * d >= d
  {
  }

  lemma Distribute(a: int, b: int, d: int)
    ensures (a - b) * d == a * d - b * d
    ensures (a + b) * d == a * d + b * d
  {
  }

  lemma DivModUnique(n: nat, d: nat, q: nat, r: nat)
    requires d > 0 && r < d && n == q * d + r
    ensures n / d == q && n % d == r
  {
    var q', r' := n / d, n % d;
    assert n == q' * d + r' && 0 <= r' < d;
    Distribute(q', q, d);
    if q' > q {
      MulAtLeast(q' - q, d);
      assert false;
    } else if q' < q {
      Distribute(q, q', d);
      MulAtLeast(q - q', d);
      assert false;
    }
  }

  /** Moving inside one block of size d. */
  lemma WithinBlock(n: nat, k: nat, d: nat)
    requires d > 0 && n % d + k < d
    ensures (n + k) / d == n / d && (n + k) % d == n % d + k
  {
    DivModUnique(n + k, d, n / d, n % d + k);
  }

  /** Moving to the start of the next block. */
  lemma NextBlock(n: nat, d: nat)
    requires d > 0
    ensures (n + (d - n % d)) / d == n / d + 1 && (n + (d - n % d)) % d == 0
  {
    Distribute(n / d, 1, d);
    DivModUnique(n + (d - n % d), d, n / d + 1, 0);
  }

  lemma SameBlock(m: nat, n: nat, d: nat)
    requires d > 0 && m / d == n / d
    ensures m - n == m % d - n % d
  {
  }

  /** A quotient is below q exactly when the number is below q blocks. */
  lemma QuotientBelow(n: nat, d: nat, q: nat)
    requires d > 0
    ensures n / d < q <==> n < q * d
  {
    var q' := n / d;
    assert n == q' * d + n % d;
    if q' < q {
      Distribute(q, q', d);
      MulAtLeast(q - q', d);
    } else {
      Distribute(q', q, d);
      if q' > q { MulAtLeast(q' - q, d); }
    }
  }

  lemma Regroup(item: int, slot: int, off: int, a: int, b: int)
    ensures (item * b + slot) * a + off == item * (a * b) + (slot * a + off)
  {
    Distribute(item * b, slot, a);
    assert item * (a * b) == (item * b) * a;
  }

  lemma SlotBelow(rest: nat, a: nat, b: nat)
    requires a > 0 && rest < a * b
    ensures rest / a < b
  {
    assert a * b == b * a;
    QuotientBelow(rest, a, b);
  }

  lemma Identity(n: nat, d: nat)
    requires d > 0
    ensures n == (n / d) * d + n % d && n % d < d
  {
  }

  lemma Digits(n: nat, a: nat, b: nat, size: nat, item: nat, rest: nat, slot: nat, off: nat)
    requires a > 0 && size == a * b && n == item * size + rest && rest == slot * a + off && off < a
    ensures n / a == item * b + slot && n % a == off
  {
    Regroup(item, slot, off, a, b);
    DivModUnique(n, a, item * b + slot, off);
  }

  /** Splitting a number in two levels, a * b and then a, or in one gives the same digits. */
  lemma TwoLevels(n: nat, a: nat, b: nat, size: nat)
    requires a > 0 && b > 0 && size == a * b && size > 0
    ensures (n % size) / a < b
    ensures n / a == (n / size) * b + (n % size) / a
    ensures n % a == (n % size) % a
  {
    var rest := n % size;
    Identity(n, size);
    Identity(rest, a);
    SlotBelow(rest, a, b);
    Digits(n, a, b, size, n / size, rest, rest / a, rest % a);
  }

  lemma DigitsFrom(n: nat, a: nat, b: nat, size: nat, item: nat, slot: nat, off: nat)
    requires a > 0 && size == a * b && size > 0 && slot < b && off < a && n == (item * b + slot) * a + off
    ensures n / size == item && n % size == slot * a + off
  {
    Regroup(item, slot, off, a, b);
    SlotWithin(slot, off, a, b);
    DivModUnique(n, size, item, slot * a + off);
  }

  lemma SlotWithin(slot: nat, off: nat, a: nat, b: nat)
    requires slot < b && off < a
    ensures slot * a + off < a * b
  {
    Distribute(b, slot, a);
    MulAtLeast(b - slot, a);
  }

  /** The digits determine the number, and the number its digits. */
  lemma DigitsUnique(n: nat, a: nat, b: nat, item: nat, slot: nat, off: nat)
    requires a > 0 && b > 0 && a * b > 0 && slot < b && off < a
    ensures n / (a * b) == item && (n % (a * b)) / a == slot && (n % (a * b)) % a == off
            <==> n == (item * b + slot) * a + off
  {
    var size := a * b;
    DivModUnique(slot * a + off, a, slot, off);
    if n == (item * b + slot) * a + off {
      DigitsFrom(n, a, b, size, item, slot, off);
    }
    if n / size == item && (n % size) / a == slot && (n % size) % a == off {
      Identity(n, size);
      Identity(n % size, a);
      Regroup(item, slot, off, a, b);
    }
  }

  /** Quantum number n is slot n % qset of item n / qset, and of no other. */
  lemma SlotOf(n: nat, qset: nat, item: nat, slot: nat)
    requires slot < qset
    ensures n == item * qset + slot <==> n / qset == item && n % qset == slot
  {
    var at := item * qset + slot;
    DivModUnique(at, qset, item, slot);
    if n / qset == item && n % qset == slot { SameBlock(n, at, qset); }
  }
}
