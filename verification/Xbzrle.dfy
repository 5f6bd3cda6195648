/**
 The XBZRLE delta codec (xbzrle.c): a page is sent as alternating runs of unchanged and
 changed bytes relative to an older copy that both sides hold.

 `Encode` is the plain byte-by-byte meaning of the format.  `EncodeBuffer` is the encoder as it
 is written, which skips over eight bytes at a time and gives up when its buffer is too small;
 `DecodeBuffer` patches the older copy in place.
 */
module Xbzrle {
  import opened Basics
  import opened Binary

  /** sizeof(long) */
  const WORD: nat := 8

  /** The largest length `uleb128_encode_small` accepts. */
  const ULEB_MAX: nat := 0x3fff

  // ---------------------------------------------------------------- lengths

  function Uleb(n: nat): (s: seq<Byte>)
    requires n <= ULEB_MAX
    ensures 1 <= |s| <= 2
  {
    if n < 0x80 then [n] else [n % 0x80 + 0x80, n / 0x80]
  }

  datatype Length = BadLength | Length(count: nat, width: nat)

  /** Reads a length at `src[i..]`; the caller has checked that two bytes are there. */
  function UlebDecode(src: seq<Byte>, i: nat): (r: Length)
    requires i + 2 <= |src|
    ensures r.Length? ==> 1 <= r.width <= 2 && r.count <= ULEB_MAX
  {
    if src[i] < 0x80 then Length(src[i], 1)
    else if src[i + 1] >= 0x80 then BadLength
    else Length((src[i] as int) % 0x80 + (src[i + 1] as int) * 0x80, 2)
  }

  lemma UlebRoundTrip(n: nat, src: seq<Byte>, i: nat)
    requires n <= ULEB_MAX && i + 2 <= |src| && Uleb(n) <= src[i..]
    ensures UlebDecode(src, i) == Length(n, |Uleb(n)|)
  {
    assert src[i] == src[i..][0] && src[i + 1] == src[i..][1];
    assert Uleb(n)[0] == src[i..][0];
    if n >= 0x80 {
      assert Uleb(n)[1] == src[i..][1];
    }
  }

  // ---------------------------------------------------------------- runs

  /** The end of the maximal run starting at `i` on which the buffers agree (`same`) or differ. */
  function RunEnd(prev: seq<Byte>, cur: seq<Byte>, same: bool, i: nat): (e: nat)
    requires i <= |prev| == |cur|
    ensures i <= e <= |prev|
    ensures forall k :: i <= k < e ==> ((prev[k] == cur[k]) <==> same)
    ensures e < |prev| ==> !((prev[e] == cur[e]) <==> same)
    decreases |prev| - i
  {
    if i < |prev| && ((prev[i] == cur[i]) <==> same) then RunEnd(prev, cur, same, i + 1) else i
  }

  /** A run is determined by what its contract says of it. */
  lemma {:induction false} RunEndUnique(prev: seq<Byte>, cur: seq<Byte>, same: bool, i: nat, e: nat)
    requires i <= e <= |prev| == |cur|
    requires forall k :: i <= k < e ==> ((prev[k] == cur[k]) <==> same)
    requires e < |prev| ==> !((prev[e] == cur[e]) <==> same)
    ensures e == RunEnd(prev, cur, same, i)
    decreases e - i
  {
    if i < e {
      RunEndUnique(prev, cur, same, i + 1, e);
    }
  }

  /** The delta from `prev` to `cur` from byte `i` on; the last unchanged run is left out. */
  function Encode(prev: seq<Byte>, cur: seq<Byte>, i: nat): seq<Byte>
    requires i <= |prev| == |cur| <= ULEB_MAX
    decreases |prev| - i
  {
    var z := RunEnd(prev, cur, true, i);
    if z == |prev| then []
    else
      var e := RunEnd(prev, cur, false, z);
      Uleb(z - i) + Uleb(e - z) + cur[z..e] + Encode(prev, cur, e)
  }

  /** Unfolds the first round of a delta. */
  lemma EncodeRound(prev: seq<Byte>, cur: seq<Byte>, i: nat)
    requires i <= |prev| == |cur| <= ULEB_MAX
    ensures var z := RunEnd(prev, cur, true, i);
            var e := RunEnd(prev, cur, false, z);
            Encode(prev, cur, i) ==
            if z == |prev| then [] else Uleb(z - i) + Uleb(e - z) + cur[z..e] + Encode(prev, cur, e)
  {
    hide RunEnd;
    hide Uleb;
  }

  /** One round of the format: skip `zeros` bytes, then take `count` bytes from `src[from..]`. */
  datatype Round = BadRound | Round(zeros: nat, from: nat, count: nat)

  /** Reads the two lengths of a round at `src[i..]`, where `room` bytes of the page are left. */
  function ReadRound(src: seq<Byte>, i: nat, room: nat): (r: Round)
    requires i < |src|
    ensures r.Round? ==> i < r.from && r.from + r.count <= |src| && r.zeros + r.count <= room
  {
    if |src| - i < 2 then BadRound
    else
      var z := UlebDecode(src, i);
      if z.BadLength? || (i > 0 && z.count == 0) || z.count > room || |src| - (i + z.width) < 2 then BadRound
      else
        var n := UlebDecode(src, i + z.width);
        var from := i + z.width + if n.Length? then n.width else 0;
        if n.BadLength? || n.count == 0 || z.count + n.count > room || from + n.count > |src| then BadRound
        else Round(z.count, from, n.count)
  }

  /** `dst` with `bytes` written over it from `at` on. */
  function Patch(dst: seq<Byte>, at: nat, bytes: seq<Byte>): (r: seq<Byte>)
    requires at + |bytes| <= |dst|
    ensures |r| == |dst| && r[..at] == dst[..at]
  {
    dst[..at] + bytes + dst[at + |bytes|..]
  }

  /** What the decoder makes of `src[i..]` once it has filled `dst[..d]`. */
  function Decode(src: seq<Byte>, i: nat, dst: seq<Byte>, d: nat): (r: Option<seq<Byte>>)
    requires i <= |src| && d <= |dst|
    ensures r.Some? ==> |r.value| == |dst|
    decreases |src| - i
  {
    if i == |src| then Some(dst)
    else
      match ReadRound(src, i, |dst| - d)
      case BadRound => None
      case Round(z, from, n) =>
        Decode(src, from + n, Patch(dst, d + z, src[from..from + n]), d + z + n)
  }

  /** Where the pieces of a concatenation are. */
  lemma Slices(s: seq<Byte>, j: nat, a: seq<Byte>, b: seq<Byte>, c: seq<Byte>, rest: seq<Byte>)
    requires j <= |s| && s[j..] == a + b + c + rest
    ensures j + |a| + |b| + |c| <= |s|
    ensures a <= s[j..] && b <= s[j + |a|..]
    ensures s[j + |a| + |b|..j + |a| + |b| + |c|] == c
    ensures s[j + |a| + |b| + |c|..] == rest
  {
    var t := s[j..];
    assert s[j + |a|..] == t[|a|..] == b + (c + rest);
    assert s[j + |a| + |b|..j + |a| + |b| + |c|] == t[|a| + |b|..|a| + |b| + |c|];
    assert s[j + |a| + |b| + |c|..] == t[|a| + |b| + |c|..];
  }

  /** The decoder reads back the lengths the encoder wrote. */
  lemma ReadRoundBack(src: seq<Byte>, j: nat, z: nat, body: seq<Byte>, rest: seq<Byte>, room: nat)
    requires z + |body| <= room <= ULEB_MAX && body != [] && (j > 0 ==> z > 0)
    requires j <= |src| && src[j..] == Uleb(z) + Uleb(|body|) + body + rest
    ensures var from := j + |Uleb(z)| + |Uleb(|body|)|;
            && j < |src| && ReadRound(src, j, room) == Round(z, from, |body|)
            && src[from..from + |body|] == body && src[from + |body|..] == rest
  {
    hide Uleb, UlebDecode;
    Slices(src, j, Uleb(z), Uleb(|body|), body, rest);
    UlebRoundTrip(z, src, j);
    UlebRoundTrip(|body|, src, j + |Uleb(z)|);
  }

  /** The receiver, patching its copy of the old page, ends with exactly the new page. */
  lemma RoundTrip(prev: seq<Byte>, cur: seq<Byte>)
    requires |prev| == |cur| <= ULEB_MAX
    ensures Decode(Encode(prev, cur, 0), 0, prev, 0) == Some(cur)
  {
    assert cur[..0] + prev[0..] == prev;
    RoundTripFrom(prev, cur, 0, Encode(prev, cur, 0), 0);
  }

  /** Patching the changed run in turns one more stretch of the old page into the new page. */
  lemma PatchRound(prev: seq<Byte>, cur: seq<Byte>, i: nat, z: nat, e: nat)
    requires i <= z <= e <= |prev| == |cur|
    requires forall k :: i <= k < z ==> prev[k] == cur[k]
    ensures Patch(cur[..i] + prev[i..], z, cur[z..e]) == cur[..e] + prev[e..]
  {
  }

  /** One round of the decoder. */
  lemma DecodeRound(src: seq<Byte>, i: nat, dst: seq<Byte>, d: nat, r: Round,
                    i': nat, dst': seq<Byte>, d': nat)
    requires i < |src| && d <= |dst| && ReadRound(src, i, |dst| - d) == r && r.Round?
    requires i' == r.from + r.count && d' == d + r.zeros + r.count
    requires dst' == Patch(dst, d + r.zeros, src[r.from..i'])
    ensures Decode(src, i, dst, d) == Decode(src, i', dst', d')
  {
    hide ReadRound;
    hide Patch;
    var rest := Decode(src, i', dst', d');
    assert Decode(src, i, dst, d) == rest;
  }

  /** Where the decoder stops. */
  lemma DecodeCases(src: seq<Byte>, i: nat, dst: seq<Byte>, d: nat)
    requires i <= |src| && d <= |dst|
    ensures i == |src| ==> Decode(src, i, dst, d) == Some(dst)
    ensures i < |src| && ReadRound(src, i, |dst| - d).BadRound? ==> Decode(src, i, dst, d).None?
  {
    hide ReadRound;
  }

  /** The first round of a delta: what the decoder reads and how it patches the page up to `e`. */
  lemma FirstRound(prev: seq<Byte>, cur: seq<Byte>, i: nat, src: seq<Byte>, j: nat)
    returns (e: nat, r: Round, j': nat)
    requires i <= |prev| == |cur| <= ULEB_MAX && j <= |src|
    requires src[j..] == Encode(prev, cur, i) && RunEnd(prev, cur, true, i) < |prev|
    requires j > 0 ==> prev[i] == cur[i]
    ensures i < e <= |prev| && (e < |prev| ==> prev[e] == cur[e])
    ensures j < |src| && r.Round? && ReadRound(src, j, |prev| - i) == r
    ensures i + r.zeros + r.count == e && j' == r.from + r.count <= |src|
    ensures src[j'..] == Encode(prev, cur, e) && src[r.from..j'] == cur[i + r.zeros..e]
    ensures forall k :: i <= k < i + r.zeros ==> prev[k] == cur[k]
  {
    hide *;
    EncodeRound(prev, cur, i);
    var z := RunEnd(prev, cur, true, i);
    e := RunEnd(prev, cur, false, z);
    var body := cur[z..e];
    ReadRoundBack(src, j, z - i, body, Encode(prev, cur, e), |prev| - i);
    r := ReadRound(src, j, |prev| - i);
    j' := r.from + r.count;
  }

  lemma {:induction false} RoundTripFrom(prev: seq<Byte>, cur: seq<Byte>, i: nat, src: seq<Byte>, j: nat)
    requires i <= |prev| == |cur| <= ULEB_MAX && j <= |src|
    requires src[j..] == Encode(prev, cur, i)
    requires j > 0 && i < |prev| ==> prev[i] == cur[i]
    ensures Decode(src, j, cur[..i] + prev[i..], i) == Some(cur)
    decreases |prev| - i
  {
    hide Encode, RunEnd, ReadRound, Patch;
    EncodeRound(prev, cur, i);
    if RunEnd(prev, cur, true, i) == |prev| {
      assert cur[..i] + prev[i..] == cur && j == |src|;
      DecodeCases(src, j, cur, i);
    } else {
      hide *;
      var e, r, j' := FirstRound(prev, cur, i, src, j);
      PatchRound(prev, cur, i, i + r.zeros, e);
      DecodeRound(src, j, cur[..i] + prev[i..], i, r, j', cur[..e] + prev[e..], e);
      RoundTripFrom(prev, cur, e, src, j');
    }
  }

  // ---------------------------------------------------------------- the encoder as written

  /** Four bits, put together as a number. */
  function Nibble(b0: bool, b1: bool, b2: bool, b3: bool): bv64
  {
    (if b0 then 1 else 0) | (if b1 then 2 else 0) | (if b2 then 4 else 0) | (if b3 then 8 else 0)
  }

  /** The bits of a byte, put together again as a word. */
  function Packed(b0: bool, b1: bool, b2: bool, b3: bool, b4: bool, b5: bool, b6: bool, b7: bool): bv64
  {
    Nibble(b0, b1, b2, b3) | (Nibble(b4, b5, b6, b7) << 4)
  }

  /** A byte as the low byte of a word. */
  function AsWord(b: Byte): bv64
  {
    Packed(Bit(b, 0), Bit(b, 1), Bit(b, 2), Bit(b, 3), Bit(b, 4), Bit(b, 5), Bit(b, 6), Bit(b, 7))
  }

  lemma NibbleLow(b0: bool, b1: bool, b2: bool, b3: bool)
    ensures Nibble(b0, b1, b2, b3) & !0xf == 0
  {
  }

  lemma JoinLow(x: bv64, y: bv64)
    requires x & !0xf == 0 && y & !0xf == 0
    ensures (x | (y << 4)) & !0xff == 0
  {
  }

  lemma NibbleApart(a0: bool, a1: bool, a2: bool, a3: bool, b0: bool, b1: bool, b2: bool, b3: bool)
    requires Nibble(a0, a1, a2, a3) == Nibble(b0, b1, b2, b3)
    ensures a0 == b0 && a1 == b1 && a2 == b2 && a3 == b3
  {
  }

  lemma JoinApart(x: bv64, y: bv64, x': bv64, y': bv64)
    requires x & !0xf == 0 && y & !0xf == 0 && x' & !0xf == 0 && y' & !0xf == 0
    requires (x | (y << 4)) == (x' | (y' << 4))
    ensures x == x' && y == y'
  {
  }

  lemma PackedApart(a0: bool, a1: bool, a2: bool, a3: bool, a4: bool, a5: bool, a6: bool, a7: bool,
                    b0: bool, b1: bool, b2: bool, b3: bool, b4: bool, b5: bool, b6: bool, b7: bool)
    requires Packed(a0, a1, a2, a3, a4, a5, a6, a7) == Packed(b0, b1, b2, b3, b4, b5, b6, b7)
    ensures a0 == b0 && a1 == b1 && a2 == b2 && a3 == b3 && a4 == b4 && a5 == b5 && a6 == b6 && a7 == b7
  {
    hide Nibble;
    NibbleLow(a0, a1, a2, a3);
    NibbleLow(a4, a5, a6, a7);
    NibbleLow(b0, b1, b2, b3);
    NibbleLow(b4, b5, b6, b7);
    JoinApart(Nibble(a0, a1, a2, a3), Nibble(a4, a5, a6, a7), Nibble(b0, b1, b2, b3), Nibble(b4, b5, b6, b7));
    NibbleApart(a0, a1, a2, a3, b0, b1, b2, b3);
    NibbleApart(a4, a5, a6, a7, b4, b5, b6, b7);
  }

  /** Different bytes are different words. */
  lemma AsWordApart(a: Byte, b: Byte)
    requires AsWord(a) == AsWord(b)
    ensures a == b
  {
    hide Packed, Bit;
    PackedApart(Bit(a, 0), Bit(a, 1), Bit(a, 2), Bit(a, 3), Bit(a, 4), Bit(a, 5), Bit(a, 6), Bit(a, 7),
                Bit(b, 0), Bit(b, 1), Bit(b, 2), Bit(b, 3), Bit(b, 4), Bit(b, 5), Bit(b, 6), Bit(b, 7));
    assert Pow2(4) == 16 && Pow2(8) == 256;
    forall i: nat | i < 8
      ensures Bit(a, i) == Bit(b, i)
    {
      assert i in {0, 1, 2, 3, 4, 5, 6, 7};
    }
    SameBits(a, b, 8);
  }

  lemma PackedLow(b0: bool, b1: bool, b2: bool, b3: bool, b4: bool, b5: bool, b6: bool, b7: bool)
    ensures Packed(b0, b1, b2, b3, b4, b5, b6, b7) & !0xff == 0
  {
    hide Nibble;
    NibbleLow(b0, b1, b2, b3);
    NibbleLow(b4, b5, b6, b7);
    JoinLow(Nibble(b0, b1, b2, b3), Nibble(b4, b5, b6, b7));
  }

  lemma AsWordLow(b: Byte)
    ensures AsWord(b) & !0xff == 0
  {
    hide Packed, Bit;
    PackedLow(Bit(b, 0), Bit(b, 1), Bit(b, 2), Bit(b, 3), Bit(b, 4), Bit(b, 5), Bit(b, 6), Bit(b, 7));
  }

  /** `*(unsigned long *)(buf + i)`, the lowest byte first. */
  function LoadWord(buf: seq<Byte>, i: nat): bv64
    requires i + WORD <= |buf|
  {
    Joined(AsWord(buf[i]), AsWord(buf[i + 1]), AsWord(buf[i + 2]), AsWord(buf[i + 3]),
           AsWord(buf[i + 4]), AsWord(buf[i + 5]), AsWord(buf[i + 6]), AsWord(buf[i + 7]))
  }

  function Joined(x0: bv64, x1: bv64, x2: bv64, x3: bv64, x4: bv64, x5: bv64, x6: bv64, x7: bv64): bv64
  {
    x0 | (x1 << 8) | (x2 << 16) | (x3 << 24) | (x4 << 32) | (x5 << 40) | (x6 << 48) | (x7 << 56)
  }

  /** `(xor - mask) & ~xor & (mask << 7)` */
  predicate FindsZeroByte(x: bv64)
  {
    (x - 0x0101010101010101) & !x & (0x0101010101010101 << 7) != 0
  }

  /** The test finds exactly the words with a byte that is zero. */
  lemma ZeroByteTest(x0: bv64, x1: bv64, x2: bv64, x3: bv64, x4: bv64, x5: bv64, x6: bv64, x7: bv64)
    requires x0 & !0xff == 0 && x1 & !0xff == 0 && x2 & !0xff == 0 && x3 & !0xff == 0
    requires x4 & !0xff == 0 && x5 & !0xff == 0 && x6 & !0xff == 0 && x7 & !0xff == 0
    ensures FindsZeroByte(Joined(x0, x1, x2, x3, x4, x5, x6, x7)) <==>
            || x0 == 0 || x1 == 0 || x2 == 0 || x3 == 0 || x4 == 0 || x5 == 0 || x6 == 0 || x7 == 0
  {
  }

  function Xor(x: bv64, y: bv64): bv64
  {
    x ^ y
  }

  /** The bytes of the xor of two words are the xors of their bytes. */
  lemma XorOfWords(x0: bv64, x1: bv64, x2: bv64, x3: bv64, x4: bv64, x5: bv64, x6: bv64, x7: bv64,
                   y0: bv64, y1: bv64, y2: bv64, y3: bv64, y4: bv64, y5: bv64, y6: bv64, y7: bv64)
    requires x0 & !0xff == 0 && x1 & !0xff == 0 && x2 & !0xff == 0 && x3 & !0xff == 0
    requires x4 & !0xff == 0 && x5 & !0xff == 0 && x6 & !0xff == 0 && x7 & !0xff == 0
    requires y0 & !0xff == 0 && y1 & !0xff == 0 && y2 & !0xff == 0 && y3 & !0xff == 0
    requires y4 & !0xff == 0 && y5 & !0xff == 0 && y6 & !0xff == 0 && y7 & !0xff == 0
    ensures Xor(Joined(x0, x1, x2, x3, x4, x5, x6, x7), Joined(y0, y1, y2, y3, y4, y5, y6, y7)) ==
            Joined(Xor(x0, y0), Xor(x1, y1), Xor(x2, y2), Xor(x3, y3),
                   Xor(x4, y4), Xor(x5, y5), Xor(x6, y6), Xor(x7, y7))
  {
  }

  lemma XorByte(x: bv64, y: bv64)
    requires x & !0xff == 0 && y & !0xff == 0
    ensures Xor(x, y) & !0xff == 0
    ensures Xor(x, y) == 0 <==> x == y
  {
  }

  lemma JoinedApart(x0: bv64, x1: bv64, x2: bv64, x3: bv64, x4: bv64, x5: bv64, x6: bv64, x7: bv64,
                    y0: bv64, y1: bv64, y2: bv64, y3: bv64, y4: bv64, y5: bv64, y6: bv64, y7: bv64)
    requires x0 & !0xff == 0 && x1 & !0xff == 0 && x2 & !0xff == 0 && x3 & !0xff == 0
    requires x4 & !0xff == 0 && x5 & !0xff == 0 && x6 & !0xff == 0 && x7 & !0xff == 0
    requires y0 & !0xff == 0 && y1 & !0xff == 0 && y2 & !0xff == 0 && y3 & !0xff == 0
    requires y4 & !0xff == 0 && y5 & !0xff == 0 && y6 & !0xff == 0 && y7 & !0xff == 0
    ensures Joined(x0, x1, x2, x3, x4, x5, x6, x7) == Joined(y0, y1, y2, y3, y4, y5, y6, y7) <==>
            && x0 == y0 && x1 == y1 && x2 == y2 && x3 == y3 && x4 == y4 && x5 == y5 && x6 == y6 && x7 == y7
  {
  }

  lemma BytesLow(buf: seq<Byte>, i: nat)
    requires i + WORD <= |buf|
    ensures forall k :: i <= k < i + WORD ==> AsWord(buf[k]) & !0xff == 0
  {
    forall k | i <= k < i + WORD
      ensures AsWord(buf[k]) & !0xff == 0
    {
      AsWordLow(buf[k]);
    }
  }

  function DiffByte(prev: seq<Byte>, cur: seq<Byte>, k: nat): bv64
    requires k < |prev| == |cur|
  {
    Xor(AsWord(prev[k]), AsWord(cur[k]))
  }

  /** A byte of the xor is zero exactly where the buffers agree. */
  lemma DiffByteZero(prev: seq<Byte>, cur: seq<Byte>, k: nat)
    requires k < |prev| == |cur|
    ensures DiffByte(prev, cur, k) & !0xff == 0
    ensures DiffByte(prev, cur, k) == 0 <==> prev[k] == cur[k]
  {
    hide AsWord, Xor;
    AsWordLow(prev[k]);
    AsWordLow(cur[k]);
    XorByte(AsWord(prev[k]), AsWord(cur[k]));
    if AsWord(prev[k]) == AsWord(cur[k]) {
      AsWordApart(prev[k], cur[k]);
    }
  }

  lemma DiffWord(prev: seq<Byte>, cur: seq<Byte>, i: nat)
    requires i + WORD <= |prev| == |cur|
    ensures Xor(LoadWord(prev, i), LoadWord(cur, i)) ==
            Joined(DiffByte(prev, cur, i), DiffByte(prev, cur, i + 1), DiffByte(prev, cur, i + 2), DiffByte(prev, cur, i + 3),
                   DiffByte(prev, cur, i + 4), DiffByte(prev, cur, i + 5), DiffByte(prev, cur, i + 6), DiffByte(prev, cur, i + 7))
  {
    hide AsWord, Joined, Xor;
    BytesLow(prev, i);
    BytesLow(cur, i);
    XorOfWords(AsWord(prev[i]), AsWord(prev[i + 1]), AsWord(prev[i + 2]), AsWord(prev[i + 3]),
               AsWord(prev[i + 4]), AsWord(prev[i + 5]), AsWord(prev[i + 6]), AsWord(prev[i + 7]),
               AsWord(cur[i]), AsWord(cur[i + 1]), AsWord(cur[i + 2]), AsWord(cur[i + 3]),
               AsWord(cur[i + 4]), AsWord(cur[i + 5]), AsWord(cur[i + 6]), AsWord(cur[i + 7]));
  }

  /** The test on two words of the buffers: does some byte agree? */
  lemma WordTest(prev: seq<Byte>, cur: seq<Byte>, i: nat)
    requires i + WORD <= |prev| == |cur|
    ensures FindsZeroByte(Xor(LoadWord(prev, i), LoadWord(cur, i))) <==>
            exists k :: i <= k < i + WORD && prev[k] == cur[k]
  {
    hide LoadWord, Joined, FindsZeroByte, Xor, DiffByte;
    forall k: nat | i <= k < i + WORD
      ensures DiffByte(prev, cur, k) & !0xff == 0
      ensures DiffByte(prev, cur, k) == 0 <==> prev[k] == cur[k]
    {
      DiffByteZero(prev, cur, k);
    }
    DiffWord(prev, cur, i);
    ZeroByteTest(DiffByte(prev, cur, i), DiffByte(prev, cur, i + 1), DiffByte(prev, cur, i + 2), DiffByte(prev, cur, i + 3),
                 DiffByte(prev, cur, i + 4), DiffByte(prev, cur, i + 5), DiffByte(prev, cur, i + 6), DiffByte(prev, cur, i + 7));
  }

  lemma SameBytes(prev: seq<Byte>, cur: seq<Byte>, i: nat)
    requires i + WORD <= |prev| == |cur|
    ensures forall k :: i <= k < i + WORD ==> (AsWord(prev[k]) == AsWord(cur[k]) <==> prev[k] == cur[k])
  {
    hide AsWord;
    forall k | i <= k < i + WORD
      ensures AsWord(prev[k]) == AsWord(cur[k]) <==> prev[k] == cur[k]
    {
      if AsWord(prev[k]) == AsWord(cur[k]) {
        AsWordApart(prev[k], cur[k]);
      }
    }
  }

  /** Words are equal exactly if their bytes are. */
  lemma SameWord(prev: seq<Byte>, cur: seq<Byte>, i: nat)
    requires i + WORD <= |prev| == |cur|
    ensures LoadWord(prev, i) == LoadWord(cur, i) <==> forall k :: i <= k < i + WORD ==> prev[k] == cur[k]
  {
    hide AsWord, Joined;
    BytesLow(prev, i);
    BytesLow(cur, i);
    JoinedApart(AsWord(prev[i]), AsWord(prev[i + 1]), AsWord(prev[i + 2]), AsWord(prev[i + 3]),
                AsWord(prev[i + 4]), AsWord(prev[i + 5]), AsWord(prev[i + 6]), AsWord(prev[i + 7]),
                AsWord(cur[i]), AsWord(cur[i + 1]), AsWord(cur[i + 2]), AsWord(cur[i + 3]),
                AsWord(cur[i + 4]), AsWord(cur[i + 5]), AsWord(cur[i + 6]), AsWord(cur[i + 7]));
    SameBytes(prev, cur, i);
  }

  /** Advances over an unchanged run: bytes up to a word boundary, then words, then bytes. */
  method SkipSame(prev: seq<Byte>, cur: seq<Byte>, start: nat) returns (i: nat)
    requires start <= |prev| == |cur| && |prev| % WORD == 0
    ensures i == RunEnd(prev, cur, true, start)
  {
    hide LoadWord;
    i := start;
    var res := (|prev| - i) % WORD;
    while res > 0 && prev[i] == cur[i]
      invariant start <= i <= |prev| && res == (|prev| - i) % WORD
      invariant forall k :: start <= k < i ==> prev[k] == cur[k]
      decreases res
    {
      i := i + 1;
      res := res - 1;
    }
    if res == 0 {
      while i < |prev| && LoadWord(prev, i) == LoadWord(cur, i)
        invariant start <= i <= |prev| && (|prev| - i) % WORD == 0
        invariant forall k :: start <= k < i ==> prev[k] == cur[k]
      {
        SameWord(prev, cur, i);
        i := i + WORD;
      }
      while i < |prev| && prev[i] == cur[i]
        invariant start <= i <= |prev|
        invariant forall k :: start <= k < i ==> prev[k] == cur[k]
      {
        i := i + 1;
      }
    }
    RunEndUnique(prev, cur, true, start, i);
  }

  /** Advances over a changed run, a word at a time while no byte of the word agrees. */
  method SkipChanged(prev: seq<Byte>, cur: seq<Byte>, start: nat) returns (i: nat)
    requires start <= |prev| == |cur| && |prev| % WORD == 0
    ensures i == RunEnd(prev, cur, false, start)
  {
    hide LoadWord, FindsZeroByte, Xor;
    i := start;
    var res := (|prev| - i) % WORD;
    while res > 0 && prev[i] != cur[i]
      invariant start <= i <= |prev| && res == (|prev| - i) % WORD
      invariant forall k :: start <= k < i ==> prev[k] != cur[k]
      decreases res
    {
      i := i + 1;
      res := res - 1;
    }
    if res == 0 {
      while i < |prev|
        invariant start <= i <= |prev| && (|prev| - i) % WORD == 0
        invariant forall k :: start <= k < i ==> prev[k] != cur[k]
      {
        WordTest(prev, cur, i);
        var xor := Xor(LoadWord(prev, i), LoadWord(cur, i));
        if FindsZeroByte(xor) {
          ghost var k :| i <= k < i + WORD && prev[k] == cur[k];
          while prev[i] != cur[i]
            invariant start <= i <= k
            invariant forall k :: start <= k < i ==> prev[k] != cur[k]
            decreases k - i
          {
            i := i + 1;
          }
          break;
        } else {
          i := i + WORD;
        }
      }
    }
    RunEndUnique(prev, cur, false, start, i);
  }

  /** Room the encoder insists on: the delta, and two more bytes when an unchanged run ends it. */
  function RoomNeeded(prev: seq<Byte>, cur: seq<Byte>): nat
    requires |prev| == |cur| <= ULEB_MAX
  {
    var n := |prev|;
    |Encode(prev, cur, 0)| + if n > 0 && prev[n - 1] == cur[n - 1] then 2 else 0
  }

  lemma EncodeEmpty(prev: seq<Byte>, cur: seq<Byte>, i: nat)
    requires i <= |prev| == |cur| <= ULEB_MAX
    ensures Encode(prev, cur, i) == [] <==> prev[i..] == cur[i..]
    ensures Encode(prev, cur, i) != [] ==> |Encode(prev, cur, i)| >= 3
    ensures Encode(prev, cur, i) == [] && i < |prev| ==> prev[|prev| - 1] == cur[|prev| - 1]
  {
    var z := RunEnd(prev, cur, true, i);
    if z < |prev| {
      assert prev[i..][z - i] != cur[i..][z - i];
    }
  }

  /**
   Emits one round: the unchanged run `[start, at)` and the changed run that follows it.  Fails
   exactly when the round does not fit.
   */
  method EmitRound(prev: seq<Byte>, cur: seq<Byte>, start: nat, at: nat, dst: array<Byte>, d: nat)
    returns (ok: bool, e: nat, d': nat)
    requires start <= at < |prev| == |cur| <= ULEB_MAX && |prev| % WORD == 0
    requires prev[at] != cur[at] && d + 2 <= dst.Length
    modifies dst
    ensures e == RunEnd(prev, cur, false, at)
    ensures ok <==> d + |Uleb(at - start)| + |Uleb(e - at)| + (e - at) <= dst.Length
    ensures ok ==> d' <= dst.Length && dst[..d'] == old(dst[..d]) + Uleb(at - start) + Uleb(e - at) + cur[at..e]
  {
    d' := Put(dst, d, Uleb(at - start));
    e := SkipChanged(prev, cur, at);
    if d' + 2 > dst.Length {
      return false, e, d';
    }
    d' := Put(dst, d', Uleb(e - at));
    if d' + (e - at) > dst.Length {
      return false, e, d';
    }
    d' := Put(dst, d', cur[at..e]);
    ok := true;
  }

  /** `done` is what the encoder has written once it has come to byte `i`. */
  ghost predicate Written(prev: seq<Byte>, cur: seq<Byte>, i: nat, done: seq<Byte>)
    requires |prev| == |cur| <= ULEB_MAX
  {
    && i <= |prev|
    && (i == 0 <==> done == [])
    && (i > 0 ==> prev[i - 1] != cur[i - 1])
    && Encode(prev, cur, 0) == done + Encode(prev, cur, i)
  }

  lemma Regroup(done: seq<Byte>, a: seq<Byte>, b: seq<Byte>, c: seq<Byte>, rest: seq<Byte>)
    ensures done + (a + b + c + rest) == done + a + b + c + rest
  {
  }

  lemma WrittenRound(prev: seq<Byte>, cur: seq<Byte>, i: nat, done: seq<Byte>, z: nat, e: nat)
    requires |prev| == |cur| <= ULEB_MAX && Written(prev, cur, i, done)
    requires z == RunEnd(prev, cur, true, i) < |prev| && e == RunEnd(prev, cur, false, z)
    ensures e <= |prev| && Written(prev, cur, e, done + Uleb(z - i) + Uleb(e - z) + cur[z..e])
    ensures |done| + |Uleb(z - i)| + |Uleb(e - z)| + (e - z) <= |Encode(prev, cur, 0)|
  {
    hide Encode, Uleb, RunEnd;
    EncodeRound(prev, cur, i);
    Regroup(done, Uleb(z - i), Uleb(e - z), cur[z..e], Encode(prev, cur, e));
    assert |cur[z..e]| == e - z > 0;
  }

  lemma WrittenAll(prev: seq<Byte>, cur: seq<Byte>, i: nat, done: seq<Byte>)
    requires |prev| == |cur| <= ULEB_MAX && Written(prev, cur, i, done)
    ensures RunEnd(prev, cur, true, i) == |prev| ==> done == Encode(prev, cur, 0)
    ensures RunEnd(prev, cur, true, i) == |prev| && i == 0 ==> prev == cur
    ensures RunEnd(prev, cur, true, i) == |prev| && 0 < i == |prev| ==> RoomNeeded(prev, cur) == |done|
    ensures RunEnd(prev, cur, true, i) == |prev| && i < |prev| ==> RoomNeeded(prev, cur) == |done| + 2
    ensures RunEnd(prev, cur, true, i) < |prev| ==> RoomNeeded(prev, cur) >= |done| + 3
  {
    hide Encode, RunEnd, Uleb;
    EncodeEmpty(prev, cur, i);
    EncodeRound(prev, cur, i);
    if i == 0 {
      assert prev[0..] == prev && cur[0..] == cur;
    }
  }

  /**
   xbzrle_encode_buffer: 0 exactly for an unchanged page, -1 exactly when `RoomNeeded` does not
   fit, and otherwise the length of the reference delta, which it leaves at the start of `dst`.
   */
  method EncodeBuffer(prev: seq<Byte>, cur: seq<Byte>, dst: array<Byte>) returns (ret: int)
    requires |prev| == |cur| <= ULEB_MAX && |prev| % WORD == 0
    modifies dst
    ensures ret == -1 <==> RoomNeeded(prev, cur) > dst.Length
    ensures ret == 0 ==> prev == cur
    ensures ret != -1 ==> 0 <= ret <= dst.Length && dst[..ret] == Encode(prev, cur, 0)
  {
    var n := |prev|;
    var d: nat, i: nat := 0, 0;
    assert Written(prev, cur, 0, dst[..0]);
    hide *;
    while i < n
      invariant i <= n && d <= dst.Length
      invariant Written(prev, cur, i, dst[..d])
      decreases n - i
    {
      WrittenAll(prev, cur, i, dst[..d]);
      if d + 2 > dst.Length {
        return -1;
      }
      var zrunStart := i;
      i := SkipSame(prev, cur, i);
      if i - zrunStart == n {
        return 0;
      }
      if i == n {
        return d;
      }
      ghost var done := dst[..d];
      var ok, e, d' := EmitRound(prev, cur, zrunStart, i, dst, d);
      WrittenRound(prev, cur, zrunStart, done, i, e);
      if !ok {
        return -1;
      }
      d, i := d', e;
    }
    WrittenAll(prev, cur, i, dst[..d]);
    return d;
  }

  /** Writes `bytes` at `dst[d..]` and returns the position after them. */
  method Put(dst: array<Byte>, d: nat, bytes: seq<Byte>) returns (d': nat)
    requires d + |bytes| <= dst.Length
    modifies dst
    ensures d' == d + |bytes| && dst[..d'] == old(dst[..d]) + bytes
  {
    for k := 0 to |bytes|
      invariant dst[..d] == old(dst[..d]) && dst[d..d + k] == bytes[..k]
    {
      dst[d + k] := bytes[k];
      assert dst[d..d + k + 1] == dst[d..d + k] + [bytes[k]];
    }
    d' := d + |bytes|;
    assert dst[..d'] == dst[..d] + dst[d..d'];
  }

  /**
   xbzrle_decode_buffer: rejects exactly what the reference decoder rejects, for any bytes at all,
   and otherwise leaves its result in `dst`.
   */
  method DecodeBuffer(src: seq<Byte>, dst: array<Byte>) returns (ret: int)
    modifies dst
    ensures ret == -1 <==> Decode(src, 0, old(dst[..]), 0).None?
    ensures ret != -1 ==> 0 <= ret <= dst.Length && Some(dst[..]) == Decode(src, 0, old(dst[..]), 0)
  {
    var i: nat, d: nat := 0, 0;
    ghost var want := Decode(src, 0, dst[..], 0);
    hide *;
    while i < |src|
      invariant i <= |src| && d <= dst.Length
      invariant Decode(src, i, dst[..], d) == want
      decreases |src| - i
    {
      DecodeCases(src, i, dst[..], d);
      var r := ReadRound(src, i, dst.Length - d);
      if r.BadRound? {
        return -1;
      }
      i, d := DecodeRoundInPlace(src, i, dst, d, r);
    }
    DecodeCases(src, i, dst[..], d);
    return d;
  }

  method DecodeRoundInPlace(src: seq<Byte>, i: nat, dst: array<Byte>, d: nat, r: Round)
    returns (i': nat, d': nat)
    requires i < |src| && d <= dst.Length && ReadRound(src, i, dst.Length - d) == r && r.Round?
    modifies dst
    ensures i < i' <= |src| && d <= d' <= dst.Length
    ensures Decode(src, i', dst[..], d') == Decode(src, i, old(dst[..]), d)
  {
    hide *;
    i', d' := r.from + r.count, d + r.zeros + r.count;
    Overwrite(dst, d + r.zeros, src[r.from..i']);
    DecodeRound(src, i, old(dst[..]), d, r, i', dst[..], d');
  }

  /** memcpy(dst + at, bytes, |bytes|) */
  method Overwrite(dst: array<Byte>, at: nat, bytes: seq<Byte>)
    requires at + |bytes| <= dst.Length
    modifies dst
    ensures dst[..] == Patch(old(dst[..]), at, bytes)
  {
    for k := 0 to |bytes|
      invariant dst[..] == Patch(old(dst[..]), at, bytes[..k])
    {
      dst[at + k] := bytes[k];
    }
    assert bytes[..|bytes|] == bytes;
  }
}
