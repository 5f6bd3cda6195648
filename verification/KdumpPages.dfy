/**
 The page descriptors and page data of a kdump file (dump.c): what write_dump_pages lays out, and
 that a reader gets every page back.
 */
module KdumpPages {
  import opened Basics
  import opened Endian
  import opened KdumpFormat

  type Bytes = seq<Byte>

  /** A compressor, which may fail, its inverse, and the flag that stands for it. */
  datatype Codec = Codec(flag: nat, compress: Bytes -> Option<Bytes>, decompress: Bytes -> Option<Bytes>)

  ghost predicate ValidCodec(c: Codec)
  {
    && 0 < c.flag < 0x1_0000_0000
    && forall p :: c.compress(p).Some? ==> c.decompress(c.compress(p).value) == Some(p)
  }

  /** PageDescriptor, 24 bytes long; `page_flags` is always 0. */
  datatype Desc = Desc(offset: nat, size: nat, flags: nat)

  const DESC_SIZE: nat := 24

  function DescBytes(d: Desc, big: bool): (s: Bytes)
    ensures |s| == DESC_SIZE
  {
    Digits(d.offset, 8, big) + Digits(d.size, 4, big) + Digits(d.flags, 4, big) + Digits(0, 8, big)
  }

  ghost predicate DescFits(d: Desc)
  {
    d.offset < 0x1_0000_0000_0000_0000 && d.size < 0x1_0000_0000 && d.flags < 0x1_0000_0000
  }

  // ---------------------------------------------------------------- what is written

  predicate IsZeroPage(data: Bytes)
  {
    forall i :: 0 <= i < |data| ==> data[i] == 0
  }

  /** How a page is stored: compressed if that works and is shorter, otherwise as it is. */
  function StoredFlags(c: Codec, data: Bytes): nat
  {
    var z := c.compress(data);
    if z.Some? && |z.value| < PAGE_SIZE then c.flag else 0
  }

  function StoredBytes(c: Codec, data: Bytes): Bytes
  {
    var z := c.compress(data);
    if z.Some? && |z.value| < PAGE_SIZE then z.value else data
  }

  /** The page data: one zero page, then every page that is not zero. */
  function DataStream(c: Codec, pages: seq<PageInfo>): Bytes
  {
    if pages == [] then ZeroWindow()
    else
      var before, p := DataStream(c, pages[..|pages| - 1]), pages[|pages| - 1];
      if IsZeroPage(p.data) then before else before + StoredBytes(c, p.data)
  }

  /** The descriptor of the page that comes after `before`; page data starts at `base`. */
  function DescFor(c: Codec, base: nat, before: seq<PageInfo>, data: Bytes): Desc
  {
    if IsZeroPage(data) then Desc(base, PAGE_SIZE, 0)
    else Desc(base + |DataStream(c, before)|, |StoredBytes(c, data)|, StoredFlags(c, data))
  }

  function DescStream(c: Codec, base: nat, pages: seq<PageInfo>, big: bool): (s: Bytes)
    ensures |s| == DESC_SIZE * |pages|
  {
    if pages == [] then []
    else
      var n := |pages| - 1;
      DescStream(c, base, pages[..n], big) + DescBytes(DescFor(c, base, pages[..n], pages[n].data), big)
  }

  // ---------------------------------------------------------------- reading

  function ReadBytes(file: File, at: nat, n: nat): (s: Bytes)
    ensures |s| == n
  {
    if n == 0 then []
    else ReadBytes(file, at, n - 1) + [if at + n - 1 in file then file[at + n - 1] else 0]
  }

  function ReadDesc(file: File, at: nat, big: bool): Desc
  {
    Desc(FromDigits(ReadBytes(file, at, 8), big), FromDigits(ReadBytes(file, at + 8, 4), big), FromDigits(ReadBytes(file, at + 12, 4), big))
  }

  /** Number of frames below `p` whose bit is set. */
  function Rank(file: File, base: nat, p: nat): nat
  {
    if p == 0 then 0 else Rank(file, base, p - 1) + if FileBit(file, base, p - 1) then 1 else 0
  }

  /** The data a descriptor stands for. */
  function ReadData(file: File, c: Codec, d: Desc): Option<Bytes>
  {
    var s := ReadBytes(file, d.offset, d.size);
    if d.flags == 0 then Some(s) else if d.flags == c.flag then c.decompress(s) else None
  }

  /** A page by its frame number: its bit, the descriptor with as many others before it, and its data. */
  function ReadPage(file: File, c: Codec, big: bool, bitmap: nat, descs: nat, pfn: nat): Option<Bytes>
  {
    if FileBit(file, bitmap, pfn) then ReadData(file, c, ReadDesc(file, descs + DESC_SIZE * Rank(file, bitmap, pfn), big)) else None
  }

  // ---------------------------------------------------------------- the reader gets back what was written

  lemma HoldsAt(file: File, at: nat, data: Bytes, i: nat)
    requires Holds(file, at, data) && i < |data|
    ensures at + i in file && file[at + i] == data[i]
  {
    assert ByteHeld(file, at, data, i);
  }

  lemma {:induction false} ReadBack(file: File, at: nat, data: Bytes)
    requires Holds(file, at, data)
    ensures ReadBytes(file, at, |data|) == data
  {
    if data != [] {
      var n := |data| - 1;
      HoldsPart(file, at, data, 0, n);
      ReadBack(file, at, data[..n]);
      HoldsAt(file, at, data, n);
    }
  }

  lemma HoldsPart(file: File, at: nat, data: Bytes, lo: nat, hi: nat)
    requires Holds(file, at, data) && lo <= hi <= |data|
    ensures Holds(file, at + lo, data[lo..hi])
  {
    var at', part := at + lo, data[lo..hi];
    forall i: nat | i < |part|
      ensures ByteHeld(file, at', part, i)
    {
      HoldsAt(file, at, data, lo + i);
    }
  }

  lemma ReadDescBack(file: File, at: nat, d: Desc, big: bool)
    requires DescFits(d) && Holds(file, at, DescBytes(d, big))
    ensures ReadDesc(file, at, big) == d
  {
    hide Holds, Digits, FromDigits, ReadBytes;
    var s := DescBytes(d, big);
    HoldsPart(file, at, s, 0, 8);
    HoldsPart(file, at, s, 8, 12);
    HoldsPart(file, at, s, 12, 16);
    ReadBack(file, at, s[0..8]);
    ReadBack(file, at + 8, s[8..12]);
    ReadBack(file, at + 12, s[12..16]);
    assert s[0..8] == Digits(d.offset, 8, big);
    assert s[8..12] == Digits(d.size, 4, big);
    assert s[12..16] == Digits(d.flags, 4, big);
    DigitsRoundTrip(d.offset, big);
    DigitsRoundTrip(d.size, big);
    DigitsRoundTrip(d.flags, big);
  }

  /** Descriptor `k` is at its place. */
  lemma {:induction false} DescAt(c: Codec, base: nat, pages: seq<PageInfo>, big: bool, k: nat)
    requires k < |pages|
    ensures DESC_SIZE * k + DESC_SIZE <= |DescStream(c, base, pages, big)|
    ensures DescStream(c, base, pages, big)[DESC_SIZE * k..DESC_SIZE * k + DESC_SIZE]
            == DescBytes(DescFor(c, base, pages[..k], pages[k].data), big)
    decreases |pages|
  {
    hide DescBytes, DescFor;
    var n := |pages| - 1;
    var before, own := DescStream(c, base, pages[..n], big), DescBytes(DescFor(c, base, pages[..n], pages[n].data), big);
    assert DescStream(c, base, pages, big) == before + own;
    hide DescStream;
    if k < n {
      DescAt(c, base, pages[..n], big, k);
      assert pages[..n][..k] == pages[..k];
      assert (before + own)[DESC_SIZE * k..DESC_SIZE * k + DESC_SIZE] == before[DESC_SIZE * k..DESC_SIZE * k + DESC_SIZE];
    } else {
      assert (before + own)[DESC_SIZE * k..DESC_SIZE * k + DESC_SIZE] == own;
    }
  }

  /** Page data once written stays a part of the stream. */
  lemma {:induction false} DataGrows(c: Codec, pages: seq<PageInfo>, k: nat)
    requires k <= |pages|
    ensures |DataStream(c, pages[..k])| <= |DataStream(c, pages)|
    ensures DataStream(c, pages)[..|DataStream(c, pages[..k])|] == DataStream(c, pages[..k])
    decreases |pages|
  {
    if k == |pages| {
      assert pages[..k] == pages;
    } else {
      var n := |pages| - 1;
      DataGrows(c, pages[..n], k);
      assert pages[..n][..k] == pages[..k];
    }
  }

  ghost predicate WholePages(pages: seq<PageInfo>)
  {
    forall k :: 0 <= k < |pages| ==> |pages[k].data| == PAGE_SIZE
  }

  lemma {:induction false} StreamStart(c: Codec, pages: seq<PageInfo>)
    ensures PAGE_SIZE <= |DataStream(c, pages)| && DataStream(c, pages)[..PAGE_SIZE] == ZeroWindow()
  {
    if pages != [] {
      StreamStart(c, pages[..|pages| - 1]);
    }
  }

  /** Pages of zeroes share the one page of zeroes at the start. */
  lemma {:induction false} ZeroesAreShared(c: Codec, pages: seq<PageInfo>)
    requires forall k, i :: 0 <= k < |pages| && 0 <= i < |pages[k].data| ==> pages[k].data[i] == 0
    ensures |DataStream(c, pages)| == PAGE_SIZE
  {
    if pages != [] {
      ZeroesAreShared(c, pages[..|pages| - 1]);
    }
  }

  /** A page that the compressor makes shorter is stored that short, and no page is stored longer than it is. */
  lemma StoredNoLonger(c: Codec, data: Bytes)
    requires |data| == PAGE_SIZE
    ensures |StoredBytes(c, data)| <= PAGE_SIZE
    ensures c.compress(data).Some? ==> |StoredBytes(c, data)| <= |c.compress(data).value|
  {
  }

  /** There is at most a page of data for each page. */
  lemma {:induction false} StreamSize(c: Codec, pages: seq<PageInfo>)
    requires WholePages(pages)
    ensures |DataStream(c, pages)| <= PAGE_SIZE * (|pages| + 1)
  {
    if pages != [] {
      StreamSize(c, pages[..|pages| - 1]);
    }
  }

  /** The data of page `k` is where its descriptor says. */
  lemma DataAt(c: Codec, base: nat, pages: seq<PageInfo>, k: nat)
    requires k < |pages| && WholePages(pages)
    ensures var d := DescFor(c, base, pages[..k], pages[k].data);
            var o := d.offset - base;
            && 0 <= o && o + d.size <= |DataStream(c, pages)|
            && DataStream(c, pages)[o..o + d.size] == if IsZeroPage(pages[k].data) then pages[k].data else StoredBytes(c, pages[k].data)
  {
    var data := pages[k].data;
    if IsZeroPage(data) {
      StreamStart(c, pages);
      assert ZeroWindow() == data;
    } else {
      hide IsZeroPage;
      DataGrows(c, pages, k + 1);
      assert pages[..k + 1][..k] == pages[..k];
      var before, own := DataStream(c, pages[..k]), StoredBytes(c, data);
      assert DataStream(c, pages[..k + 1]) == before + own;
      PrefixPart(DataStream(c, pages), before, own);
    }
  }

  lemma PrefixPart(s: Bytes, before: Bytes, own: Bytes)
    requires |before| + |own| <= |s| && s[..|before| + |own|] == before + own
    ensures s[|before|..|before| + |own|] == own
  {
    assert s[|before|..|before| + |own|] == s[..|before| + |own|][|before|..];
  }

  /** Offsets and sizes fit their fields. */
  lemma DescIsSmall(c: Codec, base: nat, pages: seq<PageInfo>, k: nat)
    requires k < |pages| && WholePages(pages) && ValidCodec(c)
    requires base + PAGE_SIZE * (|pages| + 1) < 0x1_0000_0000_0000_0000
    ensures DescFits(DescFor(c, base, pages[..k], pages[k].data))
  {
    StreamSize(c, pages[..k]);
  }

  /** With descriptors and data in place, descriptor `k` leads to page `k`. */
  lemma PageBack(file: File, c: Codec, big: bool, descs: nat, base: nat, pages: seq<PageInfo>, k: nat)
    requires k < |pages| && WholePages(pages) && ValidCodec(c)
    requires base + PAGE_SIZE * (|pages| + 1) < 0x1_0000_0000_0000_0000
    requires Holds(file, descs, DescStream(c, base, pages, big)) && Holds(file, base, DataStream(c, pages))
    ensures ReadData(file, c, ReadDesc(file, descs + DESC_SIZE * k, big)) == Some(pages[k].data)
  {
    hide Holds, DescStream, DataStream, ReadBytes, ReadDesc, WholePages, DescFor, DescBytes, DescFits, IsZeroPage, StoredBytes;
    var d := DescFor(c, base, pages[..k], pages[k].data);
    DescAt(c, base, pages, big, k);
    HoldsPart(file, descs, DescStream(c, base, pages, big), DESC_SIZE * k, DESC_SIZE * k + DESC_SIZE);
    DescIsSmall(c, base, pages, k);
    ReadDescBack(file, descs + DESC_SIZE * k, d, big);
    DataAt(c, base, pages, k);
    HoldsPart(file, base, DataStream(c, pages), d.offset - base, d.offset - base + d.size);
    ReadBack(file, d.offset, DataStream(c, pages)[d.offset - base..d.offset - base + d.size]);
    Unstore(c, base, pages[..k], pages[k].data);
  }

  /** The flags tell how to get the page from what is stored. */
  lemma Unstore(c: Codec, base: nat, before: seq<PageInfo>, data: Bytes)
    requires ValidCodec(c)
    ensures var d := DescFor(c, base, before, data);
            var s := if IsZeroPage(data) then data else StoredBytes(c, data);
            (if d.flags == 0 then Some(s) else if d.flags == c.flag then c.decompress(s) else None) == Some(data)
  {
    hide DataStream, IsZeroPage;
  }

  // ---------------------------------------------------------------- the k-th set bit

  ghost function Pfns(pages: seq<PageInfo>): set<nat>
  {
    set k | 0 <= k < |pages| :: pages[k].pfn
  }

  /** With the bits of the pages set, `j` of them are below a frame that `j` pages are below of. */
  lemma {:induction false} RankIs(file: File, base: nat, pages: seq<PageInfo>, n: nat, p: nat, j: nat)
    requires Increasing(pages) && BitmapHolds(file, base, n, Pfns(pages)) && p <= n && j <= |pages|
    requires (forall i :: 0 <= i < |pages| ==> (pages[i].pfn < p <==> i < j)) && (j > 0 ==> pages[j - 1].pfn < p)
    ensures Rank(file, base, p) == j
  {
    if p > 0 {
      assert FileBit(file, base, p - 1) <==> p - 1 in Pfns(pages);
      if p - 1 in Pfns(pages) {
        var k :| 0 <= k < |pages| && pages[k].pfn == p - 1;
        assert k == j - 1;
        RankIs(file, base, pages, n, p - 1, j - 1);
      } else {
        RankIs(file, base, pages, n, p - 1, j);
      }
    }
  }

  /** The file is a dump of these pages. */
  ghost predicate IsDumpOf(file: File, c: Codec, big: bool, bitmap: nat, descs: nat, n: nat, pages: seq<PageInfo>)
  {
    && BitmapHolds(file, bitmap, n, Pfns(pages))
    && Holds(file, descs, DescStream(c, descs + DESC_SIZE * |pages|, pages, big))
    && Holds(file, descs + DESC_SIZE * |pages|, DataStream(c, pages))
  }

  /** A reader of the dump gets exactly the pages, each with its contents. */
  lemma ReaderGetsPages(file: File, c: Codec, big: bool, bitmap: nat, descs: nat, n: nat, pages: seq<PageInfo>)
    requires IsDumpOf(file, c, big, bitmap, descs, n, pages) && Increasing(pages) && WholePages(pages) && ValidCodec(c)
    requires descs + DESC_SIZE * |pages| + PAGE_SIZE * (|pages| + 1) < 0x1_0000_0000_0000_0000
    ensures forall k :: 0 <= k < |pages| && pages[k].pfn < n ==>
              ReadPage(file, c, big, bitmap, descs, pages[k].pfn) == Some(pages[k].data)
    ensures forall p: nat :: p < n && p !in Pfns(pages) ==> ReadPage(file, c, big, bitmap, descs, p) == None
  {
    hide Holds, DescStream, DataStream, Rank, ReadData, ReadDesc, WholePages, ValidCodec;
    forall k | 0 <= k < |pages| && pages[k].pfn < n
      ensures ReadPage(file, c, big, bitmap, descs, pages[k].pfn) == Some(pages[k].data)
    {
      assert pages[k].pfn in Pfns(pages);
      RankIs(file, bitmap, pages, n, pages[k].pfn, k);
      PageBack(file, c, big, descs, descs + DESC_SIZE * |pages|, pages, k);
    }
  }
}
