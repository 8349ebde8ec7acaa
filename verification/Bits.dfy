/** Unsigned machine words as natural numbers: bitwise operations defined bit by bit, and the laws
    that tie them to multiplication, division and remainder by powers of two. */
module Bits {

  function Pow2(k: nat): (p: nat)
    ensures p >= 1
  {
    if k == 0 then 1 else 2 * Pow2(k - 1)
  }

  function BitXor(a: nat, b: nat): nat
    decreases a + b
  {
    if a == 0 && b == 0 then 0
    else 2 * BitXor(a / 2, b / 2) + (if a % 2 != b % 2 then 1 else 0)
  }

  function BitOr(a: nat, b: nat): nat
    decreases a + b
  {
    if a == 0 && b == 0 then 0
    else 2 * BitOr(a / 2, b / 2) + (if a % 2 == 1 || b % 2 == 1 then 1 else 0)
  }

  function BitAnd(a: nat, b: nat): nat
    decreases a + b
  {
    if a == 0 || b == 0 then 0
    else 2 * BitAnd(a / 2, b / 2) + (if a % 2 == 1 && b % 2 == 1 then 1 else 0)
  }

  function Shl(a: nat, k: nat): nat {
    a * Pow2(k)
  }

  function Shr(a: nat, k: nat): nat
    decreases k
  {
    if k == 0 then a else Shr(a / 2, k - 1)
  }

  lemma DivModUnique(a: int, m: int, q: int, r: int)
    requires m > 0 && 0 <= r < m && a == m * q + r
    ensures a / m == q && a % m == r
  {
    var d := a / m - q;
    assert m * d == r - a % m by {
      assert a == m * (a / m) + a % m;
      assert m * (a / m) - m * q == m * d;
    }
    assert d >= 1 ==> m * d >= m;
    assert d <= -1 ==> m * d <= -m;
  }

  /** The remainder modulo 2 * m, from the remainder of the half. */
  lemma HalveMod(a: nat, m: nat)
    requires m >= 1
    ensures a % (2 * m) == 2 * (a / 2 % m) + a % 2
  {
    HalveDivMod(a, m);
  }

  lemma HalveDiv(a: nat, m: nat)
    requires m >= 1
    ensures a / (2 * m) == a / 2 / m
  {
    HalveDivMod(a, m);
  }

  /** Halving first and dividing by half as much afterwards. */
  lemma HalveDivMod(a: nat, m: nat)
    requires m >= 1
    ensures a / (2 * m) == a / 2 / m && a % (2 * m) == 2 * (a / 2 % m) + a % 2
  {
    var h := a / 2;
    assert a == 2 * h + a % 2;
    assert h == m * (h / m) + h % m;
    assert 2 * m * (h / m) == 2 * (m * (h / m));
    DivModUnique(a, 2 * m, h / m, 2 * (h % m) + a % 2);
  }

  lemma {:induction false} XorCancels(a: nat, b: nat)
    ensures BitXor(BitXor(a, b), b) == a
    decreases a + b
  {
    if a != 0 || b != 0 {
      XorCancels(a / 2, b / 2);
    }
  }

  lemma {:induction false} ShrIsDiv(a: nat, k: nat)
    ensures Shr(a, k) == a / Pow2(k)
    decreases k
  {
    if k > 0 {
      ShrIsDiv(a / 2, k - 1);
      HalveDiv(a, Pow2(k - 1));
    }
  }

  /** Five more places drop one base-32 digit more. */
  lemma {:induction false} ShrFive(a: nat, k: nat)
    ensures Shr(a, k + 5) == Shr(a, k) / 32
    decreases k
  {
    if k == 0 {
      assert Shr(a, 5) == Shr(a / 2, 4) == Shr(a / 4, 3) == Shr(a / 8, 2) == Shr(a / 16, 1) == a / 32;
    } else {
      ShrFive(a / 2, k - 1);
    }
  }

  /** The k low bits. */
  function Low(a: nat, k: nat): nat {
    if k == 0 then 0 else 2 * Low(a / 2, k - 1) + a % 2
  }

  lemma {:induction false} LowIsMod(a: nat, k: nat)
    ensures Low(a, k) == a % Pow2(k)
    decreases k
  {
    if k > 0 {
      LowIsMod(a / 2, k - 1);
      HalveMod(a, Pow2(k - 1));
    }
  }

  lemma XorStep(h: nat, r: nat, h': nat, r': nat)
    requires r < 2 && r' < 2
    ensures BitXor(2 * h + r, 2 * h' + r') == 2 * BitXor(h, h') + (if r != r' then 1 else 0)
  {
    assert (2 * h + r) / 2 == h && (2 * h + r) % 2 == r;
    assert (2 * h' + r') / 2 == h' && (2 * h' + r') % 2 == r';
  }

  lemma LowStep(h: nat, r: nat, k: nat)
    requires r < 2 && k > 0
    ensures Low(2 * h + r, k) == 2 * Low(h, k - 1) + r
  {
    assert (2 * h + r) / 2 == h && (2 * h + r) % 2 == r;
  }

  lemma {:induction false} XorOfLow(a: nat, b: nat, k: nat)
    ensures Low(BitXor(a, b), k) == BitXor(Low(a, k), Low(b, k))
    decreases k
  {
    if k > 0 {
      XorOfLow(a / 2, b / 2, k - 1);
      XorStep(a / 2, a % 2, b / 2, b % 2);
      LowStep(BitXor(a / 2, b / 2), if a % 2 != b % 2 then 1 else 0, k);
      XorStep(Low(a / 2, k - 1), a % 2, Low(b / 2, k - 1), b % 2);
    }
  }

  /** The low bits of an exclusive or depend on the low bits only. */
  lemma XorLowBits(a: nat, b: nat, k: nat)
    ensures BitXor(a, b) % Pow2(k) == BitXor(a % Pow2(k), b % Pow2(k))
  {
    XorOfLow(a, b, k);
    LowIsMod(a, k);
    LowIsMod(b, k);
    LowIsMod(BitXor(a, b), k);
  }

  lemma {:induction false} AndOfLow(a: nat, k: nat)
    ensures BitAnd(a, Pow2(k) - 1) == Low(a, k)
    decreases k
  {
    if k > 0 {
      AndOfLow(a / 2, k - 1);
      assert (Pow2(k) - 1) / 2 == Pow2(k - 1) - 1;
      AllZero(a, k);
    }
  }

  lemma {:induction false} AllZero(a: nat, k: nat)
    ensures a == 0 ==> Low(a, k) == 0
    decreases k
  {
    if k > 0 {
      AllZero(a / 2, k - 1);
    }
  }

  lemma AndMask(a: nat, k: nat)
    ensures BitAnd(a, Pow2(k) - 1) == a % Pow2(k)
  {
    AndOfLow(a, k);
    LowIsMod(a, k);
  }

  /** Fields that do not overlap are joined by or. */
  lemma {:induction false} OrJoins(a: nat, b: nat, k: nat)
    requires b < Pow2(k)
    ensures BitOr(a * Pow2(k), b) == a * Pow2(k) + b
    decreases k
  {
    if k == 0 {
      OrZero(a);
    } else {
      var m := Pow2(k - 1);
      assert a * Pow2(k) == 2 * (a * m);
      OrJoins(a, b / 2, k - 1);
    }
  }

  lemma {:induction false} OrZero(a: nat)
    ensures BitOr(a, 0) == a
    decreases a
  {
    if a > 0 {
      OrZero(a / 2);
    }
  }
}
