/** Page indices as strings of 9-bit digits, the way the physical page map (exec.c) reads them. */
module Radix {
  import opened Basics

  /** P_L2_SIZE */
  const L2_SIZE: nat := 512

  /** P_L2_LEVELS with ADDR_SPACE_BITS == 64, TARGET_PAGE_BITS == 12 and P_L2_BITS == 9. */
  const LEVELS: nat := 6

  /** Pages under one entry of a node at `level`. */
  function Step(level: nat): (s: nat)
    ensures s > 0
  {
    if level == 0 then 1 else 512 * Step(level - 1)
  }

  /** `(x >> (level * P_L2_BITS)) & (P_L2_SIZE - 1)` */
  function Digit(x: nat, level: nat): (d: nat)
    ensures d < L2_SIZE
  {
    x / Step(level) % L2_SIZE
  }

  /** First page under entry `k` of the node at `level` that starts at page `base`. */
  function Slot(base: nat, level: nat, k: nat): nat
  {
    base + k * Step(level)
  }

  /** The pages under the node at `level` that starts at `base`. */
  predicate InNode(x: nat, level: nat, base: nat)
  {
    base <= x < base + Step(level + 1)
  }

  /** `(index & (step - 1)) == 0` */
  predicate OnStep(index: nat, level: nat)
  {
    index % Step(level) == 0
  }

  lemma SlotNext(base: nat, level: nat, k: nat)
    ensures Slot(base, level, 0) == base
    ensures Slot(base, level, k + 1) == Slot(base, level, k) + Step(level)
    ensures Slot(base, level, L2_SIZE) == base + Step(level + 1)
  {
    MulSucc(k, Step(level));
  }

  lemma SlotMonotone(base: nat, level: nat, j: nat, k: nat)
    requires j <= k
    ensures Slot(base, level, j) <= Slot(base, level, k)
    ensures j < k ==> Slot(base, level, j) + Step(level) <= Slot(base, level, k)
  {
    MulMonotone(j, k, Step(level));
    if j < k {
      MulMonotone(j + 1, k, Step(level));
      MulSucc(j, Step(level));
    }
  }

  /** A page in slot `k` has digit `k`. */
  lemma SlotDigit(x: nat, base: nat, level: nat, k: nat)
    requires base % Step(level + 1) == 0 && k < L2_SIZE
    requires Slot(base, level, k) <= x < Slot(base, level, k) + Step(level)
    ensures Digit(x, level) == k
  {
    var s := Step(level);
    var q := base / Step(level + 1);
    Aligned(base, Step(level + 1));
    assert base == q * (512 * s);
    Regroup(q, s, k);
    DivUnique(x, s, q * 512 + k, x - Slot(base, level, k));
    DivUnique(q * 512 + k, 512, q, k);
  }

  lemma Aligned(base: nat, s: nat)
    requires s > 0 && base % s == 0
    ensures base == base / s * s
  {
  }

  lemma Regroup(q: nat, s: nat, k: nat)
    ensures (q * 512 + k) * s == q * (512 * s) + k * s
  {
  }

  /** Every page of a node is in one of its slots. */
  lemma SlotOf(x: nat, base: nat, level: nat) returns (k: nat)
    requires InNode(x, level, base)
    ensures k < L2_SIZE && Slot(base, level, k) <= x < Slot(base, level, k) + Step(level)
  {
    var s := Step(level);
    k := (x - base) / s;
    DivBounds(x - base, s, 512);
  }

  lemma DivBounds(y: nat, s: nat, n: nat)
    requires s > 0 && y < n * s
    ensures y / s < n && y / s * s <= y < y / s * s + s
  {
    if y / s >= n {
      MulMonotone(n, y / s, s);
      assert false;
    }
  }

  /** Slots start where the nodes below them are aligned. */
  lemma SlotAligned(base: nat, level: nat, k: nat)
    requires base % Step(level + 1) == 0
    ensures Slot(base, level, k) % Step(level) == 0
  {
    var s := Step(level);
    Aligned(base, 512 * s);
    Regroup(base / (512 * s), s, k);
    DivUnique(Slot(base, level, k), s, base / (512 * s) * 512 + k, 0);
  }
}
