/** Scatter/gather lists (util/iov.c), as far as merging writes needs them. */
module Iovec {
  import opened Basics

  type Iov = seq<Byte>

  /** QEMUIOVector: a list of buffers. */
  type Qiov = seq<Iov>

  /** The bytes of all buffers, in order. */
  function Flat(q: Qiov): seq<Byte>
  {
    if q == [] then [] else q[0] + Flat(q[1..])
  }

  lemma {:induction false} FlatAppend(p: Qiov, q: Qiov)
    ensures Flat(p + q) == Flat(p) + Flat(q)
  {
    if p == [] {
      assert p + q == q;
    } else {
      assert (p + q)[1..] == p[1..] + q;
      FlatAppend(p[1..], q);
    }
  }

  lemma FlatCons(f: Iov, rest: Qiov)
    ensures Flat([f] + rest) == f + Flat(rest)
  {
    assert ([f] + rest)[1..] == rest;
  }

  /** The buffers, cut at both ends, that hold `sbytes` bytes from `soffset` on. */
  function Part(src: Qiov, soffset: nat, sbytes: nat): Qiov
  {
    if sbytes == 0 || src == [] then []
    else if soffset < |src[0]| then
      var len := Min(|src[0]| - soffset, sbytes);
      [src[0][soffset..soffset + len]] + Part(src[1..], 0, sbytes - len)
    else Part(src[1..], soffset - |src[0]|, sbytes)
  }

  /** `n` bytes of `x` from `a` on, or as many as there are. */
  function Window(x: seq<Byte>, a: nat, n: nat): seq<Byte>
  {
    x[Min(a, |x|)..Min(a + n, |x|)]
  }

  /** The part ends where the source does, if not before. */
  lemma {:induction false} PartHolds(src: Qiov, soffset: nat, sbytes: nat)
    ensures Flat(Part(src, soffset, sbytes)) == Window(Flat(src), soffset, sbytes)
  {
    hide Window;
    if sbytes == 0 || src == [] {
      NoWindow(Flat(src), soffset, sbytes);
    } else {
      var f, rest := src[0], src[1..];
      if soffset < |f| {
        var len := Min(|f| - soffset, sbytes);
        PartHolds(rest, 0, sbytes - len);
        FirstPart(f, Flat(rest), soffset, sbytes);
        FlatCons(f[soffset..soffset + len], Part(rest, 0, sbytes - len));
      } else {
        PartHolds(rest, soffset - |f|, sbytes);
        LaterPart(f, Flat(rest), soffset, sbytes);
      }
    }
  }

  lemma NoWindow(x: seq<Byte>, a: nat, n: nat)
    requires n == 0 || x == []
    ensures Window(x, a, n) == []
  {
  }

  lemma FirstPart(f: Iov, rest: seq<Byte>, soffset: nat, sbytes: nat)
    requires soffset < |f|
    ensures var len := Min(|f| - soffset, sbytes);
            Window(f + rest, soffset, sbytes) == f[soffset..soffset + len] + Window(rest, 0, sbytes - len)
  {
  }

  lemma LaterPart(f: Iov, rest: seq<Byte>, soffset: nat, sbytes: nat)
    requires |f| <= soffset
    ensures Window(f + rest, soffset, sbytes) == Window(rest, soffset - |f|, sbytes)
  {
  }

  lemma {:induction false} PartCount(src: Qiov, soffset: nat, sbytes: nat)
    ensures |Part(src, soffset, sbytes)| <= |src|
  {
    if sbytes != 0 && src != [] {
      if soffset < |src[0]| {
        PartCount(src[1..], 0, sbytes - Min(|src[0]| - soffset, sbytes));
      } else {
        PartCount(src[1..], soffset - |src[0]|, sbytes);
      }
    }
  }

  /** Taking a piece out of the middle splits at most one buffer in two. */
  lemma {:induction false} SplitCount(src: Qiov, a: nat, b: nat, c: nat)
    requires a <= b
    ensures |Part(src, 0, a)| + |Part(src, b, c)| <= |src| + 1
  {
    PartCount(src, b, c);
    if a != 0 && src != [] && src[0] != [] {
      if |src[0]| < a {
        SplitCount(src[1..], a - |src[0]|, b - |src[0]|, c);
      }
    } else if a != 0 && src != [] {
      SplitCount(src[1..], a, b, c);
    }
  }

  /** qemu_iovec_concat; its assertion asks for an offset within the source, unless nothing is asked for. */
  method Concat(dst: Qiov, src: Qiov, soffset: nat, sbytes: nat) returns (dst': Qiov)
    requires sbytes == 0 || soffset <= |Flat(src)|
    ensures dst' == dst + Part(src, soffset, sbytes)
  {
    dst' := dst;
    if sbytes == 0 {
      return;
    }
    var i, done, offset := 0, 0, soffset;
    while done < sbytes && i < |src|
      invariant i <= |src| && done <= sbytes && offset >= 0
      invariant dst' + Part(src[i..], offset, sbytes - done) == dst + Part(src, soffset, sbytes)
      invariant offset <= |Flat(src[i..])| && (done == sbytes ==> offset == 0)
      decreases |src| - i
    {
      var rest := src[i + 1..];
      assert src[i..][1..] == rest;
      if offset < |src[i]| {
        var len := Min(|src[i]| - offset, sbytes - done);
        dst' := dst' + [src[i][offset..offset + len]];
        done := done + len;
        offset := 0;
      } else {
        offset := offset - |src[i]|;
      }
      i := i + 1;
    }
    assert offset == 0;
  }
}
