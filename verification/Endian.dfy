/** Numbers as bytes. */
module Endian {
  import opened Basics

  /** The `k` low-order base-256 digits of `n`, most significant first (qemu_put_be16, _be64). */
  function BigEndian(n: nat, k: nat): (s: seq<Byte>)
    ensures |s| == k
  {
    if k == 0 then [] else BigEndian(n / 256, k - 1) + [n % 256]
  }

  function FromBigEndian(s: seq<Byte>): nat
  {
    if s == [] then 0 else FromBigEndian(s[..|s| - 1]) * 256 + s[|s| - 1]
  }

  function Pow256(k: nat): (p: nat)
    ensures p > 0
  {
    if k == 0 then 1 else 256 * Pow256(k - 1)
  }

  /** The most significant digit comes first. */
  lemma {:induction false} BigEndianDigit(n: nat, k: nat, i: nat)
    requires i < k
    ensures BigEndian(n, k)[i] == n / Pow256(k - 1 - i) % 256
  {
    if i < k - 1 {
      BigEndianDigit(n / 256, k - 1, i);
      DivTwice(n, Pow256(k - 2 - i));
    }
  }

  lemma DivTwice(n: nat, p: nat)
    requires p > 0
    ensures n / 256 / p == n / (256 * p)
  {
    var q, m := n / (256 * p), n % (256 * p);
    assert n == q * p * 256 + m by { assert q * (256 * p) == q * p * 256; }
    DivUnique(n, 256, q * p + m / 256, m % 256);
    DivUnique(q * p + m / 256, p, q, m / 256);
  }

  lemma {:induction false} BigEndianRoundTrip(n: nat, k: nat)
    requires n < Pow256(k)
    ensures FromBigEndian(BigEndian(n, k)) == n
  {
    if k > 0 {
      BigEndianRoundTrip(n / 256, k - 1);
      var s := BigEndian(n, k);
      assert s[..|s| - 1] == BigEndian(n / 256, k - 1);
    }
  }

  lemma Be64RoundTrip(n: nat)
    requires n < 0x1_0000_0000_0000_0000
    ensures FromBigEndian(BigEndian(n, 8)) == n
  {
    assert Pow256(4) == 0x1_0000_0000 by {
      assert Pow256(2) == 0x1_0000;
    }
    assert Pow256(6) == 0x1_0000_0000_0000;
    assert Pow256(8) == 0x1_0000_0000_0000_0000;
    BigEndianRoundTrip(n, 8);
  }

  lemma Be16RoundTrip(n: nat)
    requires n < 0x1_0000
    ensures FromBigEndian(BigEndian(n, 2)) == n
  {
    assert Pow256(2) == 0x1_0000;
    BigEndianRoundTrip(n, 2);
  }

  lemma Be32RoundTrip(n: nat)
    requires n < 0x1_0000_0000
    ensures FromBigEndian(BigEndian(n, 4)) == n
  {
    assert Pow256(2) == 0x1_0000;
    assert Pow256(4) == 0x1_0000_0000;
    BigEndianRoundTrip(n, 4);
  }

  function Reversed(s: seq<Byte>): (r: seq<Byte>)
    ensures |r| == |s|
  {
    if s == [] then [] else Reversed(s[1..]) + [s[0]]
  }

  lemma {:induction false} ReversedTwice(s: seq<Byte>)
    ensures Reversed(Reversed(s)) == s
  {
    if s != [] {
      ReversedTwice(s[1..]);
      ReversedSnoc(Reversed(s[1..]), s[0]);
    }
  }

  lemma {:induction false} ReversedSnoc(s: seq<Byte>, b: Byte)
    ensures Reversed(s + [b]) == [b] + Reversed(s)
  {
    if s != [] {
      assert (s + [b])[1..] == s[1..] + [b];
      ReversedSnoc(s[1..], b);
    }
  }

  /** The `k` bytes of `n` in the byte order asked for. */
  function Digits(n: nat, k: nat, big: bool): (s: seq<Byte>)
    ensures |s| == k
  {
    if big then BigEndian(n, k) else Reversed(BigEndian(n, k))
  }

  function FromDigits(s: seq<Byte>, big: bool): nat
  {
    FromBigEndian(if big then s else Reversed(s))
  }

  lemma DigitsRoundTrip(n: nat, big: bool)
    ensures n < 0x1_0000_0000_0000_0000 ==> FromDigits(Digits(n, 8, big), big) == n
    ensures n < 0x1_0000_0000 ==> FromDigits(Digits(n, 4, big), big) == n
  {
    ReversedTwice(BigEndian(n, 8));
    ReversedTwice(BigEndian(n, 4));
    if n < 0x1_0000_0000_0000_0000 {
      Be64RoundTrip(n);
    }
    if n < 0x1_0000_0000 {
      Be32RoundTrip(n);
    }
  }
}
