/** Types shared by every component of the model. */
module Basics {

  datatype Option<+T> = None | Some(value: T)

  /** One byte of guest memory, of a migration stream or of a file. */
  type Byte = b: int | 0 <= b < 256

  /** TARGET_PAGE_SIZE with TARGET_PAGE_BITS == 12. */
  const PAGE_SIZE: nat := 4096

  function Min(a: int, b: int): int { if a <= b then a else b }

  function Max(a: int, b: int): int { if a >= b then a else b }

  lemma MulSucc(k: nat, s: nat)
    ensures (k + 1) * s == k * s + s
  {
  }

  lemma MulMonotone(j: nat, k: nat, s: nat)
    requires j <= k
    ensures j * s <= k * s
  {
  }

  /** Quotient and remainder are determined by their equation. */
  lemma DivUnique(x: nat, s: nat, m: nat, r: nat)
    requires s > 0 && x == m * s + r && r < s
    ensures x / s == m && x % s == r
  {
    var q, t := x / s, x % s;
    assert x == q * s + t && t < s;
    if q < m {
      MulMonotone(q + 1, m, s);
      MulSucc(q, s);
      assert false;
    } else if m < q {
      MulMonotone(m + 1, q, s);
      MulSucc(m, s);
      assert false;
    }
  }

  /** `s` with `data` written over it at `offset`. */
  function Splice<T>(s: seq<T>, offset: nat, data: seq<T>): (s': seq<T>)
    requires offset + |data| <= |s|
    ensures |s'| == |s|
  {
    s[..offset] + data + s[offset + |data|..]
  }

  /** Elements outside the data are not touched by a splice. */
  lemma SpliceElsewhere<T>(s: seq<T>, offset: nat, data: seq<T>, lo: nat, hi: nat)
    requires offset + |data| <= |s| && lo <= hi <= |s|
    requires hi <= offset || offset + |data| <= lo
    ensures Splice(s, offset, data)[lo..hi] == s[lo..hi]
  {
  }
}
