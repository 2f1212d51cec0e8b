/** Bitwise operations on natural numbers, bit by bit from the lowest. */
module Bits {

  function And(a: nat, b: nat): nat {
    if a == 0 || b == 0 then 0 else 2 * And(a / 2, b / 2) + if a % 2 == 1 && b % 2 == 1 then 1 else 0
  }

  function Xor(a: nat, b: nat): nat
    decreases a + b
  {
    if a == 0 && b == 0 then 0 else 2 * Xor(a / 2, b / 2) + if a % 2 == b % 2 then 0 else 1
  }

  predicate IsPowerOfTwo(n: nat) {
    n == 1 || (n > 1 && n % 2 == 0 && IsPowerOfTwo(n / 2))
  }

  function PowerOfTwo(k: nat): (p: nat)
    ensures p >= 1
  {
    if k == 0 then 1 else 2 * PowerOfTwo(k - 1)
  }

  lemma {:induction false} AndSelf(n: nat)
    ensures And(n, n) == n
  {
    if n > 0 { AndSelf(n / 2); }
  }

  /** The usual test: a number and its predecessor share no bit. */
  lemma {:induction false} AndPredecessor(n: nat)
    requires 0 < n
    ensures And(n, n - 1) == 0 <==> IsPowerOfTwo(n)
  {
    if n % 2 == 1 {
      AndSelf(n / 2);
      assert (n - 1) / 2 == n / 2;
    } else {
      AndPredecessor(n / 2);
      assert (n - 1) / 2 == n / 2 - 1;
    }
  }

  lemma {:induction false} PowersOfTwo(k: nat)
    ensures IsPowerOfTwo(PowerOfTwo(k))
  {
    if k > 0 { PowersOfTwo(k - 1); }
  }

  lemma {:induction false} XorSame(a: nat)
    ensures Xor(a, a) == 0
  {
    if a > 0 { XorSame(a / 2); }
  }

  lemma {:induction false} XorZero(a: nat)
    ensures Xor(a, 0) == a
  {
    if a > 0 { XorZero(a / 2); }
  }

  /** Exactly one bit differs. */
  predicate OneBitApart(a: nat, b: nat) {
    IsPowerOfTwo(Xor(a, b))
  }

  lemma DoubledOneBit(a: nat, b: nat)
    requires a % 2 == b % 2 && OneBitApart(a / 2, b / 2)
    ensures OneBitApart(a, b)
  {
  }

  lemma LowBitOnly(a: nat, b: nat)
    requires a / 2 == b / 2 && a % 2 != b % 2
    ensures OneBitApart(a, b)
  {
    XorSame(a / 2);
    assert Xor(a, b) == 1;
  }

  /** Equal low fields cancel, and leave the difference of the high ones above them. */
  lemma {:induction false} XorHigh(a: nat, b: nat, r: nat, k: nat)
    requires r < PowerOfTwo(k) && OneBitApart(a, b)
    ensures OneBitApart(a * PowerOfTwo(k) + r, b * PowerOfTwo(k) + r)
  {
    if k > 0 {
      var x, y := a * PowerOfTwo(k) + r, b * PowerOfTwo(k) + r;
      XorHigh(a, b, r / 2, k - 1);
      Halved(a, r, k);
      Halved(b, r, k);
      DoubledOneBit(x, y);
    } else {
      assert a * PowerOfTwo(k) + r == a && b * PowerOfTwo(k) + r == b;
    }
  }

  /** Equal high fields cancel. */
  lemma {:induction false} XorLow(a: nat, r: nat, s: nat, k: nat)
    requires r < PowerOfTwo(k) && s < PowerOfTwo(k)
    ensures Xor(a * PowerOfTwo(k) + r, a * PowerOfTwo(k) + s) == Xor(r, s)
  {
    if k == 0 {
      XorSame(a);
    } else {
      XorLow(a, r / 2, s / 2, k - 1);
      Halved(a, r, k);
      Halved(a, s, k);
    }
  }

  lemma Halved(a: nat, r: nat, k: nat)
    requires 0 < k && r < PowerOfTwo(k)
    ensures (a * PowerOfTwo(k) + r) / 2 == a * PowerOfTwo(k - 1) + r / 2
    ensures (a * PowerOfTwo(k) + r) % 2 == r % 2
  {
    var half := a * PowerOfTwo(k - 1);
    assert a * PowerOfTwo(k) == 2 * half;
  }
}
