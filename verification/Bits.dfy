/** Bitwise operators on natural numbers, defined bit by bit. */
module Bits {

  function Pow2(k: nat): (r: nat)
    ensures r >= 1
  {
    if k == 0 then 1 else 2 * Pow2(k - 1)
  }

  function BitAnd(a: nat, b: nat): nat
    decreases a
  {
    if a == 0 then 0
    else (if a % 2 == 1 && b % 2 == 1 then 1 else 0) + 2 * BitAnd(a / 2, b / 2)
  }

  function BitOr(a: nat, b: nat): nat
    decreases a
  {
    if a == 0 then b
    else (if a % 2 == 1 || b % 2 == 1 then 1 else 0) + 2 * BitOr(a / 2, b / 2)
  }

  function BitXor(a: nat, b: nat): nat
    decreases a
  {
    if a == 0 then b
    else (if a % 2 != b % 2 then 1 else 0) + 2 * BitXor(a / 2, b / 2)
  }

  /** Clearing bits of an all-ones word stores the operand exactly. */
  lemma {:induction false} AndOnes(k: nat, b: nat)
    requires b < Pow2(k)
    ensures BitAnd(Pow2(k) - 1, b) == b
    decreases k
  {
    if k > 0 {
      AndOnes(k - 1, b / 2);
      assert (Pow2(k) - 1) / 2 == Pow2(k - 1) - 1;
      assert (Pow2(k) - 1) % 2 == 1;
    }
  }

  lemma AndByte(b: nat)
    requires b < 256
    ensures BitAnd(255, b) == b
  {
    assert Pow2(8) == 256 by { assert Pow2(4) == 16; }
    AndOnes(8, b);
  }

  /** Setting bits from position `k` up in a word that is empty there is addition. */
  lemma {:induction false} OrDisjoint(k: nat, a: nat, q: nat)
    requires a < Pow2(k)
    ensures BitOr(a, Pow2(k) * q) == a + Pow2(k) * q
    decreases k
  {
    if k > 0 {
      OrDisjoint(k - 1, a / 2, q);
      Doubled(Pow2(k - 1), q);
      hide Pow2;
      OrDouble(a, Pow2(k - 1) * q);
    }
  }

  lemma Doubled(p: nat, q: nat)
    ensures 2 * p * q == 2 * (p * q)
  {}

  /** The lowest bit of an even operand is no bit of it. */
  lemma OrDouble(a: nat, x: nat)
    ensures BitOr(a, 2 * x) == a % 2 + 2 * BitOr(a / 2, x)
  {
    assert 2 * x / 2 == x && 2 * x % 2 == 0;
  }

  lemma {:induction false} XorInvolution(a: nat, b: nat)
    ensures BitXor(BitXor(a, b), b) == a
    decreases a + b
  {
    if a == 0 {
      XorSelf(b);
    } else {
      XorInvolution(a / 2, b / 2);
      XorHalves(a, b);
      XorHalves(BitXor(a, b), b);
    }
  }

  /** A word is its lowest bit and its other half, before and after. */
  lemma XorHalves(a: nat, b: nat)
    ensures BitXor(a, b) % 2 == (if a % 2 != b % 2 then 1 else 0) && BitXor(a, b) / 2 == BitXor(a / 2, b / 2)
  {
    hide BitXor;
    XorOne(a, b);
    if a == 0 {
      XorOne(0, b / 2);
    } else {
      LowestBit(if a % 2 != b % 2 then 1 else 0, BitXor(a / 2, b / 2));
    }
  }

  lemma LowestBit(bit: nat, rest: nat)
    requires bit < 2
    ensures (bit + 2 * rest) % 2 == bit && (bit + 2 * rest) / 2 == rest
  {}

  lemma XorOne(a: nat, b: nat)
    ensures BitXor(a, b) == if a == 0 then b else (if a % 2 != b % 2 then 1 else 0) + 2 * BitXor(a / 2, b / 2)
  {}

  lemma {:induction false} XorSelf(b: nat)
    ensures BitXor(b, b) == 0
    decreases b
  {
    if b > 0 { XorSelf(b / 2); }
  }

  lemma {:induction false} XorSymmetric(a: nat, b: nat)
    ensures BitXor(a, b) == BitXor(b, a)
    decreases a
  {
    if a == 0 {
      XorZero(b);
    } else if b == 0 {
      XorZero(a);
    } else {
      XorSymmetric(a / 2, b / 2);
    }
  }

  lemma {:induction false} XorZero(a: nat)
    ensures BitXor(a, 0) == a
    decreases a
  {
    if a > 0 { XorZero(a / 2); }
  }

  lemma {:induction false} XorBound(k: nat, a: nat, b: nat)
    requires a < Pow2(k) && b < Pow2(k)
    ensures BitXor(a, b) < Pow2(k)
    decreases k
  {
    if k > 0 { XorBound(k - 1, a / 2, b / 2); }
  }

  /** Exclusive or with a fixed operand is injective, on either side. */
  lemma XorInjective(a: nat, b: nat, c: nat, d: nat)
    ensures BitXor(a, c) == BitXor(b, c) ==> a == b
    ensures BitXor(a, c) == BitXor(a, d) ==> c == d
  {
    XorInvolution(a, c);
    XorInvolution(b, c);
    XorSymmetric(a, c);
    XorSymmetric(a, d);
    XorInvolution(c, a);
    XorInvolution(d, a);
  }
}
