/** Bits of natural numbers, and the operators of C on them. */
module Binary {
  import opened Basics

  function Pow2(k: nat): (p: nat)
    ensures p > 0
  {
    if k == 0 then 1 else 2 * Pow2(k - 1)
  }

  /** Bit `i` of a number. */
  predicate Bit(b: nat, i: nat)
  {
    if i == 0 then b % 2 == 1 else Bit(b / 2, i - 1)
  }

  /** A number is determined by its bits. */
  lemma {:induction false} SameBits(a: nat, b: nat, k: nat)
    requires a < Pow2(k) && b < Pow2(k) && forall i: nat :: i < k ==> Bit(a, i) == Bit(b, i)
    ensures a == b
  {
    if k > 0 {
      assert Bit(a, 0) == Bit(b, 0);
      forall i: nat | i < k - 1
        ensures Bit(a / 2, i) == Bit(b / 2, i)
      {
        assert Bit(a, i + 1) == Bit(b, i + 1);
      }
      SameBits(a / 2, b / 2, k - 1);
    }
  }

  /** `a | b` */
  function Or(a: nat, b: nat): nat
    decreases a + b
  {
    if a == 0 && b == 0 then 0 else 2 * Or(a / 2, b / 2) + if a % 2 == 1 || b % 2 == 1 then 1 else 0
  }

  /** `a & b` */
  function And(a: nat, b: nat): nat
    decreases a + b
  {
    if a == 0 && b == 0 then 0 else 2 * And(a / 2, b / 2) + if a % 2 == 1 && b % 2 == 1 then 1 else 0
  }

  lemma {:induction false} OrZero(a: nat)
    ensures Or(a, 0) == a
  {
    if a > 0 {
      OrZero(a / 2);
    }
  }

  lemma {:induction false} OrCommutes(a: nat, b: nat)
    ensures Or(a, b) == Or(b, a)
    decreases a + b
  {
    if a != 0 || b != 0 {
      OrCommutes(a / 2, b / 2);
    }
  }

  lemma {:induction false} AndZero(a: nat)
    ensures And(a, 0) == 0
  {
    if a > 0 {
      AndZero(a / 2);
    }
  }

  /** One bit further, on numbers `2 * p` that have no low bits. */
  lemma OrDoubled(p: nat, b: nat, c: nat)
    requires Or(p + b / 2, c / 2) == p + Or(b / 2, c / 2)
    ensures Or(2 * p + b, c) == 2 * p + Or(b, c)
  {
    hide Or;
    OrStep(2 * p + b, c);
    OrStep(b, c);
  }

  /** `a << k` */
  function Shl(a: nat, k: nat): nat
  {
    if k == 0 then a else 2 * Shl(a, k - 1)
  }

  /** Or-ing bits below 2^k in does not touch the bits above. */
  lemma {:induction false} OrLow(a: nat, b: nat, c: nat, k: nat)
    requires b < Pow2(k) && c < Pow2(k)
    ensures Or(Shl(a, k) + b, c) == Shl(a, k) + Or(b, c) && Or(b, c) < Pow2(k)
  {
    if k == 0 {
      OrZero(a);
    } else {
      hide Or;
      OrLow(a, b / 2, c / 2, k - 1);
      OrDoubled(Shl(a, k - 1), b, c);
      OrStep(b, c);
    }
  }

  lemma OrStep(a: nat, b: nat)
    ensures Or(a, b) == 2 * Or(a / 2, b / 2) + if a % 2 == 1 || b % 2 == 1 then 1 else 0
  {
  }

  lemma AndStep(a: nat, b: nat)
    ensures And(a, b) == 2 * And(a / 2, b / 2) + if a % 2 == 1 && b % 2 == 1 then 1 else 0
  {
  }

  /** A mask of k ones leaves the remainder. */
  lemma {:induction false} AndMask(n: nat, k: nat)
    ensures And(n, Pow2(k) - 1) == Rest(n, Pow2(k))
  {
    hide And, Rest;
    if k == 0 {
      AndZero(n);
      RestOfOne(n);
    } else {
      AndMask(n / 2, k - 1);
      AndOnes(n, Pow2(k - 1));
      HalfRemainder(n, Pow2(k - 1));
    }
  }

  function Rest(n: nat, m: nat): nat
    requires m > 0
  {
    n % m
  }

  lemma RestOfOne(n: nat)
    ensures Rest(n, 1) == 0
  {
  }

  lemma AndOnes(n: nat, m: nat)
    requires m > 0
    ensures And(n, 2 * m - 1) == 2 * And(n / 2, m - 1) + n % 2
  {
    hide And;
    AndStep(n, 2 * m - 1);
    assert (2 * m - 1) / 2 == m - 1;
  }

  lemma HalfRemainder(n: nat, m: nat)
    requires m > 0
    ensures Rest(n, 2 * m) == 2 * Rest(n / 2, m) + n % 2
  {
    var h := n / 2;
    var q, r := h / m, h % m;
    assert h == q * m + r;
    assert n == q * (2 * m) + (2 * r + n % 2);
    DivUnique(n, 2 * m, q, 2 * r + n % 2);
  }

  /** A mask of one bit leaves that bit. */
  lemma {:induction false} AndBit(n: nat, k: nat)
    ensures And(n, Pow2(k)) == if n / Pow2(k) % 2 == 1 then Pow2(k) else 0
  {
    AndStep(n, Pow2(k));
    if k == 0 {
      AndZero(n / 2);
    } else {
      AndBit(n / 2, k - 1);
      HalfQuotient(n, Pow2(k - 1));
    }
  }

  lemma HalfQuotient(n: nat, m: nat)
    requires m > 0
    ensures n / (2 * m) == n / 2 / m
  {
    var h := n / 2;
    var q, r := h / m, h % m;
    assert h == q * m + r;
    assert n == q * (2 * m) + (2 * r + n % 2);
    DivUnique(n, 2 * m, q, 2 * r + n % 2);
  }

  /** Bit `i` set (`b | 1u << i`) or cleared (`b & ~(1u << i)`). */
  function WithBit(b: nat, i: nat, value: bool): nat
  {
    if i == 0 then b / 2 * 2 + (if value then 1 else 0) else WithBit(b / 2, i - 1, value) * 2 + b % 2
  }

  lemma {:induction false} WithBitAt(b: nat, i: nat, value: bool, j: nat)
    ensures Bit(WithBit(b, i, value), j) == if j == i then value else Bit(b, j)
  {
    var c := WithBit(b, i, value);
    WithBitParts(b, i, value);
    hide WithBit;
    if i == 0 && j != 0 {
      assert Bit(c, j) == Bit(b / 2, j - 1);
    } else if i != 0 && j != 0 {
      WithBitAt(b / 2, i - 1, value, j - 1);
    }
  }

  /** The lowest bit and the rest. */
  lemma WithBitParts(b: nat, i: nat, value: bool)
    ensures WithBit(b, i, value) % 2 == if i == 0 then (if value then 1 else 0) else b % 2
    ensures WithBit(b, i, value) / 2 == if i == 0 then b / 2 else WithBit(b / 2, i - 1, value)
  {
  }

  lemma {:induction false} WithBitFits(b: nat, i: nat, value: bool, k: nat)
    requires i < k && b < Pow2(k)
    ensures WithBit(b, i, value) < Pow2(k)
  {
    WithBitParts(b, i, value);
    var c := WithBit(b, i, value);
    hide WithBit;
    if i != 0 {
      WithBitFits(b / 2, i - 1, value, k - 1);
    }
    assert c == 2 * (c / 2) + c % 2 && Pow2(k) == 2 * Pow2(k - 1);
  }

  function ByteWithBit(b: Byte, i: nat, value: bool): (c: Byte)
    requires i < 8
    ensures forall j: nat :: Bit(c, j) == if j == i then value else Bit(b, j)
  {
    assert Pow2(4) == 16 && Pow2(8) == 256;
    WithBitFits(b, i, value, 8);
    assert forall j: nat :: Bit(WithBit(b, i, value), j) == if j == i then value else Bit(b, j) by {
      forall j: nat
        ensures Bit(WithBit(b, i, value), j) == if j == i then value else Bit(b, j)
      {
        WithBitAt(b, i, value, j);
      }
    }
    WithBit(b, i, value)
  }
}
