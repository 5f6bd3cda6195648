/** The kdump writer (dump.c): both bitmaps, then page descriptors and page data through two caches. */
module Kdump {
  import opened Basics
  import opened Binary
  import opened KdumpFormat
  import opened KdumpPages

  const BUFSIZE_DATA_CACHE: nat := 4 * PAGE_SIZE

  /** DIV_ROUND_UP */
  function DivUp(n: nat, d: nat): nat
    requires d > 0
  {
    (n + d - 1) / d
  }

  /** len_dump_bitmap (dump_init) */
  function BitmapLength(maxMapnr: nat): nat
  {
    DivUp(DivUp(maxMapnr, 8), PAGE_SIZE) * PAGE_SIZE
  }

  /** The bitmap is just long enough for the windows that are written. */
  lemma BitmapLengthIsWindows(lastPfn: nat)
    ensures BitmapLength(lastPfn + 1) == PAGE_SIZE * (lastPfn / WINDOW + 1)
  {
  }

  lemma WholeBlocks(n: nat)
    ensures DivUp(n * PAGE_SIZE, PAGE_SIZE) == n
  {
  }

  /** The positions written are those below `w` windows of both bitmaps. */
  ghost predicate WindowsWritten(file: File, bitmap: nat, len: nat, w: nat)
  {
    forall o: nat :: o in file <==> bitmap <= o < bitmap + PAGE_SIZE * w || bitmap + len <= o < bitmap + len + PAGE_SIZE * w
  }

  /** Both bitmaps hold `s` in their first `w` windows, and nothing else has been written. */
  ghost predicate BothHold(file: File, bitmap: nat, len: nat, w: nat, s: set<nat>)
  {
    && PAGE_SIZE * w <= len && WindowsWritten(file, bitmap, len, w)
    && BitmapHolds(file, bitmap, w * WINDOW, s) && BitmapHolds(file, bitmap + len, w * WINDOW, s)
  }

  lemma WindowsFlushed(file: File, bitmap: nat, len: nat, w: nat, buf: seq<Byte>)
    requires WindowsWritten(file, bitmap, len, w) && |buf| == PAGE_SIZE && PAGE_SIZE * (w + 1) <= len
    ensures var file1 := Put(file, bitmap + PAGE_SIZE * w, buf);
            && Unwritten(file, bitmap + PAGE_SIZE * w, |buf|)
            && Unwritten(file1, bitmap + len + PAGE_SIZE * w, |buf|)
            && WindowsWritten(Put(file1, bitmap + len + PAGE_SIZE * w, buf), bitmap, len, w + 1)
  {
    hide Put;
  }

  /** Window `w` goes to both bitmaps. */
  lemma BothFlushed(file: File, bitmap: nat, len: nat, w: nat, s: set<nat>, buf: seq<Byte>)
    requires BothHold(file, bitmap, len, w, s) && WindowHolds(buf, w, s) && PAGE_SIZE * (w + 1) <= len
    ensures var file1 := Put(file, bitmap + PAGE_SIZE * w, buf);
            && Unwritten(file, bitmap + PAGE_SIZE * w, |buf|)
            && Unwritten(file1, bitmap + len + PAGE_SIZE * w, |buf|)
            && BothHold(Put(file1, bitmap + len + PAGE_SIZE * w, buf), bitmap, len, w + 1, s)
  {
    hide Put, BitmapHolds, WindowHolds, WindowsWritten, Unwritten;
    WindowLength(buf, w, s);
    var file1 := Put(file, bitmap + PAGE_SIZE * w, buf);
    WindowsFlushed(file, bitmap, len, w, buf);
    FlushWindow(file, bitmap, w, buf, s);
    PutElsewhere(file, bitmap + PAGE_SIZE * w, buf, bitmap + len, w, s);
    FlushWindow(file1, bitmap + len, w, buf, s);
    PutElsewhere(file1, bitmap + len + PAGE_SIZE * w, buf, bitmap, w + 1, s);
  }

  /** A bit of window `w` does not matter to the windows before. */
  lemma BothHoldBelow(file: File, bitmap: nat, len: nat, w: nat, s: set<nat>, p: nat, value: bool)
    requires BothHold(file, bitmap, len, w, s) && p / WINDOW == w
    ensures BothHold(file, bitmap, len, w, if value then s + {p} else s - {p})
  {
    hide FileBit;
  }

  lemma WindowLength(buf: seq<Byte>, w: nat, s: set<nat>)
    requires WindowHolds(buf, w, s)
    ensures |buf| == PAGE_SIZE
  {
  }

  function MaxMapnr(blocks: seq<GuestBlock>): nat
    requires blocks != []
  {
    BlockEnd(blocks[|blocks| - 1]) / PAGE_SIZE
  }

  // ---------------------------------------------------------------- pages got so far

  lemma {:induction false} BlocksPrefix(blocks: seq<GuestBlock>, k: nat, n: nat)
    requires k <= n <= |blocks|
    ensures PagesUpTo(blocks, k) <= PagesUpTo(blocks, n)
    decreases n
  {
    if k < n {
      BlocksPrefix(blocks, k, n - 1);
    }
  }

  lemma PartOfBlock(b: GuestBlock, n: nat)
    requires n <= PageCount(b)
    ensures BlockPages(b, n) <= BlockPages(b, PageCount(b))
  {
  }

  lemma SeenPrefix(blocks: seq<GuestBlock>, c: Cursor)
    requires ValidCursor(blocks, c)
    ensures Seen(blocks, c) <= AllPages(blocks)
  {
    hide BlockPages;
    if c.In? {
      BlocksPrefix(blocks, c.block + 1, |blocks|);
      var b := blocks[c.block];
      PartOfBlock(b, c.pfn - FirstPfn(b) + 1);
      var before, part, own := PagesUpTo(blocks, c.block), BlockPages(b, c.pfn - FirstPfn(b) + 1), BlockPages(b, PageCount(b));
      assert PagesUpTo(blocks, c.block + 1) == before + own;
      hide PagesUpTo;
      assert before + part <= before + own;
    }
  }

  /** What the loops over pages know of the pages they have seen. */
  lemma SeenPages(blocks: seq<GuestBlock>, c: Cursor)
    requires ValidBlocks(blocks) && ValidCursor(blocks, c)
    ensures var seen := Seen(blocks, c);
            && Increasing(seen) && WholePages(seen) && |seen| <= |AllPages(blocks)|
            && forall k :: 0 <= k < |seen| ==> seen[k].pfn < MaxMapnr(blocks)
  {
    var seen, all := Seen(blocks, c), AllPages(blocks);
    SeenPrefix(blocks, c);
    PagesIncrease(blocks, |blocks|);
    forall k | 0 <= k < |seen|
      ensures seen[k].pfn < MaxMapnr(blocks) && |seen[k].data| == PAGE_SIZE
    {
      assert seen[k] == all[k] && all[k] in all;
      assert all[k].pfn <= all[|all| - 1].pfn;
    }
  }

  lemma OneMorePfn(pages: seq<PageInfo>, page: PageInfo)
    ensures Pfns(pages + [page]) == Pfns(pages) + {page.pfn}
  {
    var all := pages + [page];
    assert all[|pages|] == page;
    forall p | p in Pfns(pages)
      ensures p in Pfns(all)
    {
      var k :| 0 <= k < |pages| && pages[k].pfn == p;
      assert all[k].pfn == p;
    }
  }

  /** last_pfn */
  function LastPfn(pages: seq<PageInfo>): nat
  {
    if pages == [] then 0 else pages[|pages| - 1].pfn
  }

  /** Bits of the pages seen: in the file below the current window, in the buffer for the window itself. */
  ghost predicate BitmapsUpTo(file: File, bitmap: nat, len: nat, buf: seq<Byte>, seen: seq<PageInfo>)
  {
    var w := LastPfn(seen) / WINDOW;
    WindowHolds(buf, w, Pfns(seen)) && BothHold(file, bitmap, len, w, Pfns(seen))
  }

  lemma NothingSeen(bitmap: nat, len: nat)
    ensures BitmapsUpTo(map[], bitmap, len, ZeroWindow(), [])
  {
    assert Pfns([]) == {};
    ZeroWindowHolds(0, {});
  }

  lemma SeenBelow(seen: seq<PageInfo>)
    requires Increasing(seen)
    ensures forall p :: p in Pfns(seen) ==> p <= LastPfn(seen)
  {
  }

  lemma CursorStart(blocks: seq<GuestBlock>)
    ensures ValidCursor(blocks, Start) && Seen(blocks, Start) == []
  {
  }

  /** The next page comes after those seen, and its window is within the bitmap. */
  lemma NextPfn(blocks: seq<GuestBlock>, c: Cursor, seen: seq<PageInfo>, page: PageInfo)
    requires ValidBlocks(blocks) && ValidCursor(blocks, c) && Seen(blocks, c) == seen + [page]
    ensures LastPfn(seen) <= page.pfn && PAGE_SIZE * (page.pfn / WINDOW) <= BitmapLength(MaxMapnr(blocks))
    ensures |seen| < |AllPages(blocks)|
    ensures forall p :: p in Pfns(seen) ==> p <= LastPfn(seen)
  {
    SeenPages(blocks, c);
    var all := seen + [page];
    assert all[|seen|] == page;
    assert forall i :: 0 <= i < |seen| ==> all[i] == seen[i];
    SeenBelow(seen);
    EarlyWindow(page.pfn, MaxMapnr(blocks));
  }

  lemma EarlyWindow(pfn: nat, max: nat)
    requires pfn < max
    ensures PAGE_SIZE * (pfn / WINDOW) <= BitmapLength(max)
  {
    BitmapLengthIsWindows(max - 1);
  }

  /** After the last page there is one window to flush, and then the bitmap is complete. */
  lemma LastWindow(blocks: seq<GuestBlock>)
    requires ValidBlocks(blocks)
    ensures var seen := AllPages(blocks);
            var next := LastPfn(seen) + WINDOW;
            && |seen| > 0 && Pfns(seen) - {next} == Pfns(seen)
            && BitmapLength(MaxMapnr(blocks)) == PAGE_SIZE * (next / WINDOW)
            && BitmapLength(MaxMapnr(blocks)) / PAGE_SIZE == next / WINDOW
            && forall p :: p in Pfns(seen) ==> p <= LastPfn(seen)
  {
    hide Pfns, BitmapLength, Increasing;
    PagesIncrease(blocks, |blocks|);
    SeenBelow(AllPages(blocks));
    var last := LastPfn(AllPages(blocks));
    BitmapLengthIsWindows(last);
    assert (last + WINDOW) / WINDOW == last / WINDOW + 1;
  }

  // ---------------------------------------------------------------- caches

  /** What was there is still there. */
  ghost predicate Extends(file: File, file': File)
  {
    forall o: nat :: o in file ==> o in file' && file'[o] == file[o]
  }

  /** What a cache has been given, all but what it still holds, is in the file from `start` on. */
  ghost predicate Cached(file: File, start: nat, offset: nat, buf: seq<Byte>, stream: seq<Byte>)
  {
    && |buf| <= |stream| && |buf| <= BUFSIZE_DATA_CACHE && offset + |buf| == start + |stream|
    && buf == stream[|stream| - |buf|..] && Holds(file, start, stream[..|stream| - |buf|])
  }

  lemma CachedKept(file: File, file': File, start: nat, offset: nat, buf: seq<Byte>, stream: seq<Byte>)
    requires Cached(file, start, offset, buf, stream) && Extends(file, file')
    ensures Cached(file', start, offset, buf, stream)
  {
    HoldsKept(file, file', start, stream[..|stream| - |buf|]);
  }

  lemma HoldsKept(file: File, file': File, at: nat, data: seq<Byte>)
    requires Holds(file, at, data) && Extends(file, file')
    ensures Holds(file', at, data)
  {
    forall i: nat | i < |data|
      ensures ByteHeld(file', at, data, i)
    {
      HoldsAt(file, at, data, i);
      var o: nat := at + i;
      assert o in file;
    }
  }

  lemma HoldsJoin(file: File, at: nat, a: seq<Byte>, b: seq<Byte>)
    requires Holds(file, at, a) && Holds(file, at + |a|, b)
    ensures Holds(file, at, a + b)
  {
    forall i: nat | i < |a + b|
      ensures ByteHeld(file, at, a + b, i)
    {
      if i < |a| {
        HoldsAt(file, at, a, i);
      } else {
        HoldsAt(file, at + |a|, b, i - |a|);
      }
    }
  }

  lemma PutExtends(file: File, at: nat, data: seq<Byte>)
    requires Unwritten(file, at, |data|)
    ensures Extends(file, Put(file, at, data))
  {
    hide Put;
  }

  lemma CachedFlush(file: File, start: nat, offset: nat, buf: seq<Byte>, stream: seq<Byte>)
    requires Cached(file, start, offset, buf, stream) && Unwritten(file, offset, |buf|)
    ensures Cached(Put(file, offset, buf), start, offset + |buf|, [], stream)
    ensures Extends(file, Put(file, offset, buf))
  {
    hide Holds, Put, Unwritten;
    var file', n := Put(file, offset, buf), |stream| - |buf|;
    PutExtends(file, offset, buf);
    PutKeeps(file, offset, buf, start, stream[..n]);
    PutHolds(file, offset, buf);
    assert stream == stream[..n] + buf;
    HoldsJoin(file', start, stream[..n], buf);
    assert stream[..|stream|] == stream;
  }

  lemma CachedMore(file: File, start: nat, offset: nat, buf: seq<Byte>, stream: seq<Byte>, data: seq<Byte>)
    requires Cached(file, start, offset, buf, stream) && |buf| + |data| <= BUFSIZE_DATA_CACHE
    ensures Cached(file, start, offset, buf + data, stream + data)
  {
    assert (stream + data)[..|stream| - |buf|] == stream[..|stream| - |buf|];
  }

  /** A cache without rest has put everything into the file. */
  lemma CachedAll(file: File, start: nat, offset: nat, stream: seq<Byte>)
    requires Cached(file, start, offset, [], stream)
    ensures Holds(file, start, stream)
  {
    assert stream[..|stream|] == stream;
  }

  class DataCache {
    var buf: seq<Byte>
    var offset: nat

    /** prepare_data_cache */
    constructor (at: nat)
      ensures buf == [] && offset == at
    {
      buf, offset := [], at;
    }
  }

  // ---------------------------------------------------------------- descriptors and data

  /** What has been written is the bitmaps, the descriptors up to `d` and the data from `base` to `e`. */
  ghost predicate Regions(file: File, bitmap: nat, descs: nat, d: nat, base: nat, e: nat)
  {
    descs <= d <= base <= e && forall o: nat :: o in file <==> bitmap <= o < d || base <= o < e
  }

  /** Both caches while the pages `seen` have been dealt with; page data starts at `base`. */
  ghost predicate Laid(file: File, c: Codec, big: bool, bitmap: nat, descs: nat, base: nat,
                       desc: Kept, data: Kept, seen: seq<PageInfo>, written: seq<PageInfo>)
  {
    && Cached(file, descs, desc.offset, desc.buf, DescStream(c, base, seen, big))
    && Cached(file, base, data.offset, data.buf, DataStream(c, written))
    && Regions(file, bitmap, descs, desc.offset, base, data.offset)
    && desc.offset + |desc.buf| <= base
  }

  /** What a cache holds at one moment. */
  datatype Kept = Kept(offset: nat, buf: seq<Byte>)

  lemma LaidUnwritten(file: File, c: Codec, big: bool, bitmap: nat, descs: nat, base: nat,
                      desc: Kept, data: Kept, seen: seq<PageInfo>, written: seq<PageInfo>)
    requires Laid(file, c, big, bitmap, descs, base, desc, data, seen, written) && bitmap <= descs
    ensures Unwritten(file, desc.offset, |desc.buf|) && Unwritten(file, data.offset, |data.buf|)
  {
    hide Cached, DescStream, DataStream;
  }

  lemma LaidCached(file: File, c: Codec, big: bool, bitmap: nat, descs: nat, base: nat,
                   desc: Kept, data: Kept, seen: seq<PageInfo>, written: seq<PageInfo>)
    requires Laid(file, c, big, bitmap, descs, base, desc, data, seen, written)
    ensures Cached(file, descs, desc.offset, desc.buf, DescStream(c, base, seen, big))
    ensures Cached(file, base, data.offset, data.buf, DataStream(c, written))
  {
  }

  /** The file has grown where a cache was. */
  ghost predicate Grown(file: File, file': File, from: nat, to: nat)
  {
    && Extends(file, file') && from <= to
    && forall o: nat :: o in file' <==> o in file || from <= o < to
  }

  lemma DataLaid(file: File, file': File, c: Codec, big: bool, bitmap: nat, descs: nat, base: nat,
                 desc: Kept, data: Kept, data': Kept, seen: seq<PageInfo>, written: seq<PageInfo>, written': seq<PageInfo>)
    requires Laid(file, c, big, bitmap, descs, base, desc, data, seen, written)
    requires Grown(file, file', data.offset, data'.offset)
    requires Cached(file', base, data'.offset, data'.buf, DataStream(c, written'))
    ensures Laid(file', c, big, bitmap, descs, base, desc, data', seen, written')
  {
    hide Cached, DescStream, DataStream;
    CachedKept(file, file', descs, desc.offset, desc.buf, DescStream(c, base, seen, big));
  }

  lemma DescLaid(file: File, file': File, c: Codec, big: bool, bitmap: nat, descs: nat, base: nat,
                 desc: Kept, desc': Kept, data: Kept, seen: seq<PageInfo>, seen': seq<PageInfo>, written: seq<PageInfo>)
    requires Laid(file, c, big, bitmap, descs, base, desc, data, seen, written) && bitmap <= descs
    requires Grown(file, file', desc.offset, desc'.offset) && desc'.offset + |desc'.buf| <= base
    requires Cached(file', descs, desc'.offset, desc'.buf, DescStream(c, base, seen', big))
    ensures Laid(file', c, big, bitmap, descs, base, desc', data, seen', written)
  {
    hide Cached, DescStream, DataStream;
    CachedKept(file, file', base, data.offset, data.buf, DataStream(c, written));
  }

  lemma CachedNothing(file: File, start: nat)
    ensures Cached(file, start, start, [], []) && Unwritten(file, start, 0)
  {
  }

  lemma CachedEnd(file: File, start: nat, offset: nat, buf: seq<Byte>, stream: seq<Byte>)
    requires Cached(file, start, offset, buf, stream)
    ensures offset + |buf| == start + |stream|
  {
  }

  lemma StreamEnd(file: File, descs: nat, base: nat, desc: Kept, stream: seq<Byte>, c: Codec, big: bool,
                  bitmap: nat, data: Kept, seen: seq<PageInfo>)
    requires Laid(file, c, big, bitmap, descs, base, desc, data, seen, seen) && stream == DescStream(c, base, seen, big)
    ensures descs + |stream| <= base
  {
  }

  /** A page without data of its own leaves the data as it is. */
  lemma SameData(file: File, c: Codec, big: bool, bitmap: nat, descs: nat, base: nat,
                 desc: Kept, data: Kept, seen: seq<PageInfo>, written: seq<PageInfo>, written': seq<PageInfo>)
    requires Laid(file, c, big, bitmap, descs, base, desc, data, seen, written)
    requires DataStream(c, written') == DataStream(c, written)
    ensures Laid(file, c, big, bitmap, descs, base, desc, data, seen, written')
  {
  }

  /** After the zero page has gone into the data. */
  lemma StartLaid(file: File, file': File, c: Codec, big: bool, bitmap: nat, len: nat, base: nat, desc: Kept, data: Kept)
    requires PAGE_SIZE * (len / PAGE_SIZE) == len && WindowsWritten(file, bitmap, len, len / PAGE_SIZE)
    requires Grown(file, file', base, data.offset) && bitmap + 2 * len <= base
    requires desc == Kept(bitmap + 2 * len, [])
    requires Cached(file', base, data.offset, data.buf, [] + ZeroWindow())
    ensures Laid(file', c, big, bitmap, bitmap + 2 * len, base, desc, data, [], [])
    ensures DataStream(c, []) == ZeroWindow()
  {
    assert [] + ZeroWindow() == ZeroWindow();
    CachedNothing(file', bitmap + 2 * len);
  }

  lemma NextWhole(blocks: seq<GuestBlock>, c: Cursor, seen: seq<PageInfo>, page: PageInfo)
    requires ValidBlocks(blocks) && ValidCursor(blocks, c) && Seen(blocks, c) == seen + [page]
    ensures |page.data| == PAGE_SIZE
  {
    SeenPages(blocks, c);
    assert (seen + [page])[|seen|] == page;
  }

  lemma StreamsOneMore(c: Codec, base: nat, seen: seq<PageInfo>, page: PageInfo, big: bool)
    ensures DescStream(c, base, seen + [page], big) == DescStream(c, base, seen, big) + DescBytes(DescFor(c, base, seen, page.data), big)
    ensures DataStream(c, seen + [page]) == DataStream(c, seen) + if IsZeroPage(page.data) then [] else StoredBytes(c, page.data)
  {
    hide DescBytes, DescFor;
    assert (seen + [page])[..|seen|] == seen;
  }

  class DumpState {
    const blocks: seq<GuestBlock>
    const codec: Codec
    const bigEndian: bool
    const bitmap: nat
    const bitmapLength: nat
    const offsetPage: nat
    var file: File
    var numDumpable: nat
    /** A write to the file has failed. */
    ghost var failed: bool

    /** The layout (dump_init, create_header64): the file holds what comes after the headers. */
    constructor (memory: seq<GuestBlock>, compressor: Codec, big: bool, subHeaderBlocks: nat)
      requires ValidBlocks(memory)
      ensures blocks == memory && codec == compressor && bigEndian == big && file == map[] && !failed
      ensures bitmap == (1 + subHeaderBlocks) * PAGE_SIZE
      ensures bitmapLength == BitmapLength(MaxMapnr(memory)) && offsetPage == bitmap + 2 * bitmapLength
    {
      blocks, codec, bigEndian, file, numDumpable, failed := memory, compressor, big, map[], 0, false;
      var length := BitmapLength(MaxMapnr(memory));
      bitmap, bitmapLength := (1 + subHeaderBlocks) * PAGE_SIZE, length;
      offsetPage := (1 + subHeaderBlocks + DivUp(length, PAGE_SIZE) * 2) * PAGE_SIZE;
      WholeBlocks(DivUp(DivUp(MaxMapnr(memory), 8), PAGE_SIZE));
    }

    /** write_buffer; no position is ever written a second time. */
    method WriteBuffer(at: nat, data: seq<Byte>) returns (ok: bool)
      requires Unwritten(file, at, |data|) && !failed
      modifies `file, `failed
      ensures ok <==> !failed
      ensures file == if ok then Put(old(file), at, data) else old(file)
    {
      ok := *;
      if ok {
        file := Put(file, at, data);
      }
      failed := !ok;
    }

    /** set_dump_bitmap */
    method SetDumpBitmap(lastPfn: nat, pfn: nat, value: bool, buf: seq<Byte>, ghost s: set<nat>) returns (ok: bool, buf': seq<Byte>)
      requires !failed && lastPfn <= pfn && PAGE_SIZE * (pfn / WINDOW) <= bitmapLength
      requires forall p :: p in s ==> p <= lastPfn
      requires WindowHolds(buf, lastPfn / WINDOW, s) && BothHold(file, bitmap, bitmapLength, lastPfn / WINDOW, s)
      modifies `file, `failed
      ensures ok <==> !failed
      ensures ok ==> var s' := if value then s + {pfn} else s - {pfn};
                WindowHolds(buf', pfn / WINDOW, s') && BothHold(file, bitmap, bitmapLength, pfn / WINDOW, s')
    {
      hide BothHold, WindowHolds, Unwritten, Put;
      buf' := buf;
      var oldOffset, newOffset := PAGE_SIZE * (lastPfn / WINDOW), PAGE_SIZE * (pfn / WINDOW);
      ghost var w := lastPfn / WINDOW;
      while oldOffset < newOffset
        invariant oldOffset == PAGE_SIZE * w && lastPfn / WINDOW <= w <= pfn / WINDOW
        invariant WindowHolds(buf', w, s) && BothHold(file, bitmap, bitmapLength, w, s) && !failed
        decreases newOffset - oldOffset
      {
        BothFlushed(file, bitmap, bitmapLength, w, s, buf');
        ok := WriteBuffer(bitmap + oldOffset, buf');
        if !ok {
          return;
        }
        ok := WriteBuffer(bitmap + bitmapLength + oldOffset, buf');
        if !ok {
          return;
        }
        ZeroWindowHolds(w + 1, s);
        buf' := ZeroWindow();
        oldOffset := oldOffset + PAGE_SIZE;
        w := w + 1;
      }
      WindowLength(buf', w, s);
      SetInWindow(buf', w, s, pfn, value);
      BothHoldBelow(file, bitmap, bitmapLength, w, s, pfn, value);
      var byte, bit := pfn % WINDOW / 8, pfn % WINDOW % 8;
      buf' := buf'[byte := ByteWithBit(buf'[byte], bit, value)];
      ok := true;
    }

    /** write_dump_bitmap */
    method WriteDumpBitmap() returns (ok: bool)
      requires !failed && ValidBlocks(blocks) && file == map[] && bitmapLength == BitmapLength(MaxMapnr(blocks))
      modifies `file, `numDumpable, `failed
      ensures ok <==> !failed
      ensures ok ==> numDumpable == |AllPages(blocks)| && PAGE_SIZE * (bitmapLength / PAGE_SIZE) == bitmapLength
      ensures ok ==> BothHold(file, bitmap, bitmapLength, bitmapLength / PAGE_SIZE, Pfns(AllPages(blocks)))
    {
      hide WindowHolds, BothHold, Pfns, Seen, AllPages, ValidBlocks, ValidCursor, Increasing, WholePages;
      var buf := ZeroWindow();
      var n, lastPfn, c := 0, 0, Start;
      ghost var seen: seq<PageInfo> := [];
      CursorStart(blocks);
      NothingSeen(bitmap, bitmapLength);
      var more, c', page := GetNextPage(blocks, c);
      while more
        invariant ValidCursor(blocks, c) && ValidCursor(blocks, c') && seen == Seen(blocks, c)
        invariant n == |seen| && lastPfn == LastPfn(seen)
        invariant more ==> Seen(blocks, c') == seen + [page]
        invariant !more ==> seen == AllPages(blocks)
        invariant BitmapsUpTo(file, bitmap, bitmapLength, buf, seen) && !failed
        decreases |AllPages(blocks)| - |seen|, more
      {
        NextPfn(blocks, c', seen, page);
        ok, buf := SetDumpBitmap(lastPfn, page.pfn, true, buf, Pfns(seen));
        if !ok {
          return;
        }
        OneMorePfn(seen, page);
        c, seen := c', seen + [page];
        lastPfn, n := page.pfn, n + 1;
        more, c', page := GetNextPage(blocks, c);
      }
      LastWindow(blocks);
      if n > 0 {
        ok, buf := SetDumpBitmap(lastPfn, lastPfn + WINDOW, false, buf, Pfns(seen));
        if !ok {
          return;
        }
      }
      numDumpable := n;
      ok := true;
    }

    /** write_cache; `stream` is all that the cache has been given before. */
    method WriteCache(dc: DataCache, data: seq<Byte>, sync: bool, ghost start: nat, ghost stream: seq<Byte>) returns (ok: bool)
      requires !failed && |data| <= BUFSIZE_DATA_CACHE && (sync ==> data == [])
      requires Cached(file, start, dc.offset, dc.buf, stream) && Unwritten(file, dc.offset, |dc.buf|)
      modifies `file, `failed, dc
      ensures ok <==> !failed
      ensures ok ==> Cached(file, start, dc.offset, dc.buf, stream + data) && (sync ==> dc.buf == [])
      ensures ok ==> Grown(old(file), file, old(dc.offset), dc.offset)
    {
      hide Cached, Put, Unwritten;
      if (!sync && |dc.buf| + |data| > BUFSIZE_DATA_CACHE) || (sync && |dc.buf| > 0) {
        CachedFlush(file, start, dc.offset, dc.buf, stream);
        ok := WriteBuffer(dc.offset, dc.buf);
        if !ok {
          return;
        }
        dc.offset := dc.offset + |dc.buf|;
        dc.buf := [];
      }
      assert stream + [] == stream;
      if !sync {
        CachedMore(file, start, dc.offset, dc.buf, stream, data);
        dc.buf := dc.buf + data;
      }
      ok := true;
    }

    ghost function KeptBy(dc: DataCache): Kept
      reads dc
    {
      Kept(dc.offset, dc.buf)
    }

    /** The data of one page that is not zero. */
    method WriteData(desc: DataCache, data: DataCache, ghost descs: nat, ghost base: nat, ghost seen: seq<PageInfo>, page: PageInfo)
      returns (ok: bool, size: nat, flags: nat)
      requires !failed && desc != data && bitmap <= descs && |page.data| == PAGE_SIZE && !IsZeroPage(page.data)
      requires Laid(file, codec, bigEndian, bitmap, descs, base, KeptBy(desc), KeptBy(data), seen, seen)
      modifies `file, `failed, data
      ensures ok <==> !failed
      ensures ok ==> size == |StoredBytes(codec, page.data)| && flags == StoredFlags(codec, page.data)
      ensures ok ==> Laid(file, codec, bigEndian, bitmap, descs, base, KeptBy(desc), KeptBy(data), seen, seen + [page])
      ensures ok ==> Extends(old(file), file)
    {
      hide Laid, IsZeroPage, DataStream, Cached;
      ghost var file0, data0 := file, KeptBy(data);
      LaidUnwritten(file, codec, bigEndian, bitmap, descs, base, KeptBy(desc), data0, seen, seen);
      LaidCached(file, codec, bigEndian, bitmap, descs, base, KeptBy(desc), data0, seen, seen);
      StreamsOneMore(codec, base, seen, page, bigEndian);
      var z := codec.compress(page.data);
      if z.Some? && |z.value| < PAGE_SIZE {
        flags, size := codec.flag, |z.value|;
        ok := WriteCache(data, z.value, false, base, DataStream(codec, seen));
      } else {
        flags, size := 0, PAGE_SIZE;
        ok := WriteCache(data, page.data, false, base, DataStream(codec, seen));
      }
      if ok {
        DataLaid(file0, file, codec, bigEndian, bitmap, descs, base, KeptBy(desc), data0, KeptBy(data), seen, seen, seen + [page]);
      }
    }

    /** The descriptor of one page, once its data has been dealt with. */
    method WriteDesc(desc: DataCache, data: DataCache, ghost descs: nat, ghost base: nat, ghost seen: seq<PageInfo>,
                     ghost page: PageInfo, d: Desc)
      returns (ok: bool)
      requires !failed && desc != data && bitmap <= descs && d == DescFor(codec, base, seen, page.data)
      requires descs + DESC_SIZE * (|seen| + 1) <= base
      requires Laid(file, codec, bigEndian, bitmap, descs, base, KeptBy(desc), KeptBy(data), seen, seen + [page])
      modifies `file, `failed, desc
      ensures ok <==> !failed
      ensures ok ==> Laid(file, codec, bigEndian, bitmap, descs, base, KeptBy(desc), KeptBy(data), seen + [page], seen + [page])
      ensures ok ==> Extends(old(file), file)
    {
      hide Laid, DataStream, DescStream, Cached, DescBytes, DescFor;
      ghost var file0, desc0 := file, KeptBy(desc);
      LaidUnwritten(file, codec, bigEndian, bitmap, descs, base, desc0, KeptBy(data), seen, seen + [page]);
      LaidCached(file, codec, bigEndian, bitmap, descs, base, desc0, KeptBy(data), seen, seen + [page]);
      StreamsOneMore(codec, base, seen, page, bigEndian);
      ok := WriteCache(desc, DescBytes(d, bigEndian), false, descs, DescStream(codec, base, seen, bigEndian));
      if ok {
        CachedEnd(file, descs, desc.offset, desc.buf, DescStream(codec, base, seen + [page], bigEndian));
        DescLaid(file0, file, codec, bigEndian, bitmap, descs, base, desc0, KeptBy(desc), KeptBy(data), seen, seen + [page], seen + [page]);
      }
    }

    /** One page: zero pages share the first page of data. */
    method WritePage(desc: DataCache, data: DataCache, ghost descs: nat, base: nat, ghost seen: seq<PageInfo>,
                     page: PageInfo, offsetData: nat)
      returns (ok: bool, offsetData': nat)
      requires !failed && desc != data && bitmap <= descs && |page.data| == PAGE_SIZE && descs + DESC_SIZE * (|seen| + 1) <= base
      requires Laid(file, codec, bigEndian, bitmap, descs, base, KeptBy(desc), KeptBy(data), seen, seen)
      requires offsetData == base + |DataStream(codec, seen)|
      modifies `file, `failed, desc, data
      ensures ok <==> !failed
      ensures ok ==> Laid(file, codec, bigEndian, bitmap, descs, base, KeptBy(desc), KeptBy(data), seen + [page], seen + [page])
      ensures ok ==> Extends(old(file), file) && offsetData' == base + |DataStream(codec, seen + [page])|
    {
      hide Laid, DataStream, IsZeroPage;
      StreamsOneMore(codec, base, seen, page, bigEndian);
      offsetData' := offsetData;
      if IsZeroPage(page.data) {
        SameData(file, codec, bigEndian, bitmap, descs, base, KeptBy(desc), KeptBy(data), seen, seen, seen + [page]);
        ok := WriteDesc(desc, data, descs, base, seen, page, Desc(base, PAGE_SIZE, 0));
      } else {
        var size, flags;
        ok, size, flags := WriteData(desc, data, descs, base, seen, page);
        if ok {
          offsetData' := offsetData + size;
          ok := WriteDesc(desc, data, descs, base, seen, page, Desc(offsetData, size, flags));
        }
      }
    }

    /** write_dump_pages */
    method WriteDumpPages() returns (ok: bool)
      requires !failed && ValidBlocks(blocks) && numDumpable == |AllPages(blocks)|
      requires PAGE_SIZE * (bitmapLength / PAGE_SIZE) == bitmapLength
      requires WindowsWritten(file, bitmap, bitmapLength, bitmapLength / PAGE_SIZE) && offsetPage == bitmap + 2 * bitmapLength
      modifies `file, `failed
      ensures ok <==> !failed
      ensures ok ==> var descs, pages := offsetPage, AllPages(blocks);
                && Holds(file, descs, DescStream(codec, descs + DESC_SIZE * |pages|, pages, bigEndian))
                && Holds(file, descs + DESC_SIZE * |pages|, DataStream(codec, pages))
      ensures ok ==> Extends(old(file), file)
    {
      hide Laid, DataStream, DescStream, Cached, Holds, Seen, AllPages, ValidBlocks, ValidCursor, Increasing, WholePages;
      var descs := offsetPage;
      var base := descs + DESC_SIZE * numDumpable;
      var desc := new DataCache(descs);
      var data := new DataCache(base);
      ghost var file0 := file;
      CachedNothing(file, descs);
      CachedNothing(file, base);
      ok := WriteCache(data, ZeroWindow(), false, base, []);
      if !ok {
        return;
      }
      StartLaid(file0, file, codec, bigEndian, bitmap, bitmapLength, base, KeptBy(desc), KeptBy(data));
      var offsetData := base + PAGE_SIZE;
      var c := Start;
      CursorStart(blocks);
      ghost var seen: seq<PageInfo> := [];
      var more, c', page := GetNextPage(blocks, c);
      while more
        invariant ValidCursor(blocks, c) && ValidCursor(blocks, c') && seen == Seen(blocks, c)
        invariant more ==> Seen(blocks, c') == seen + [page]
        invariant !more ==> seen == AllPages(blocks)
        invariant Laid(file, codec, bigEndian, bitmap, descs, base, KeptBy(desc), KeptBy(data), seen, seen)
        invariant offsetData == base + |DataStream(codec, seen)| && Extends(file0, file) && !failed
        decreases |AllPages(blocks)| - |seen|, more
      {
        NextPfn(blocks, c', seen, page);
        NextWhole(blocks, c', seen, page);
        ok, offsetData := WritePage(desc, data, descs, base, seen, page, offsetData);
        if !ok {
          return;
        }
        c, seen := c', seen + [page];
        more, c', page := GetNextPage(blocks, c);
      }
      ok := Sync(desc, data, descs, base, seen);
    }

    /** The last two calls: both caches are emptied. */
    method Sync(desc: DataCache, data: DataCache, ghost descs: nat, ghost base: nat, ghost seen: seq<PageInfo>) returns (ok: bool)
      requires !failed && desc != data && bitmap <= descs
      requires Laid(file, codec, bigEndian, bitmap, descs, base, KeptBy(desc), KeptBy(data), seen, seen)
      modifies `file, `failed, desc, data
      ensures ok <==> !failed
      ensures ok ==> Extends(old(file), file)
      ensures ok ==> Holds(file, descs, DescStream(codec, base, seen, bigEndian)) && Holds(file, base, DataStream(codec, seen))
    {
      hide Laid, DataStream, DescStream, Cached, Holds;
      ghost var file0, desc0, data0 := file, KeptBy(desc), KeptBy(data);
      ghost var ds, dt := DescStream(codec, base, seen, bigEndian), DataStream(codec, seen);
      LaidUnwritten(file, codec, bigEndian, bitmap, descs, base, desc0, data0, seen, seen);
      LaidCached(file, codec, bigEndian, bitmap, descs, base, desc0, data0, seen, seen);
      assert ds + [] == ds && dt + [] == dt;
      ok := WriteCache(desc, [], true, descs, ds);
      if !ok {
        return;
      }
      CachedAll(file, descs, desc.offset, ds);
      CachedEnd(file, descs, desc.offset, desc.buf, ds);
      StreamEnd(file0, descs, base, desc0, ds, codec, bigEndian, bitmap, data0, seen);
      DescLaid(file0, file, codec, bigEndian, bitmap, descs, base, desc0, KeptBy(desc), data0, seen, seen, seen);
      LaidUnwritten(file, codec, bigEndian, bitmap, descs, base, KeptBy(desc), data0, seen, seen);
      LaidCached(file, codec, bigEndian, bitmap, descs, base, KeptBy(desc), data0, seen, seen);
      ghost var file1 := file;
      ok := WriteCache(data, [], true, base, dt);
      if !ok {
        return;
      }
      CachedAll(file, base, data.offset, dt);
      HoldsKept(file1, file, descs, ds);
    }

    /**
     create_kdump_vmcore after the headers.  It succeeds unless a write fails, and then a reader with either bitmap gets the contents
     of every page of guest memory, and no page where there is none.
     */
    method CreateVmcore() returns (ok: bool)
      requires !failed && ValidBlocks(blocks) && ValidCodec(codec) && file == map[]
      requires bitmapLength == BitmapLength(MaxMapnr(blocks)) && offsetPage == bitmap + 2 * bitmapLength
      requires offsetPage + (DESC_SIZE + PAGE_SIZE) * (|AllPages(blocks)| + 1) < 0x1_0000_0000_0000_0000
      modifies `file, `numDumpable, `failed
      ensures ok <==> !failed
      ensures ok ==> GivesBack(file, codec, bigEndian, bitmap, offsetPage, blocks)
      ensures ok ==> GivesBack(file, codec, bigEndian, bitmap + bitmapLength, offsetPage, blocks)
    {
      hide AllPages, ValidBlocks, ValidCodec, BothHold, WindowsWritten, Holds, DescStream, DataStream, Extends, GivesBack;
      ok := WriteDumpBitmap();
      if !ok {
        return;
      }
      ghost var file0, windows := file, bitmapLength / PAGE_SIZE;
      BitmapsComplete(file, bitmap, bitmapLength, windows, blocks);
      ok := WriteDumpPages();
      if !ok {
        return;
      }
      BitmapsKept(file0, file, bitmap, bitmapLength, windows, Pfns(AllPages(blocks)));
      DumpGivesBack(file, codec, bigEndian, bitmap, offsetPage, windows, blocks);
      DumpGivesBack(file, codec, bigEndian, bitmap + bitmapLength, offsetPage, windows, blocks);
    }
  }

  /** A reader finds the byte at a guest address. */
  ghost predicate FindsByte(file: File, c: Codec, big: bool, bitmap: nat, descs: nat, addr: nat, x: Byte)
  {
    var page := ReadPage(file, c, big, bitmap, descs, addr / PAGE_SIZE);
    page.Some? && |page.value| == PAGE_SIZE && page.value[addr % PAGE_SIZE] == x
  }

  /** What a reader gets is guest memory: its byte at every address of every block, and no page outside the blocks. */
  ghost predicate GivesBack(file: File, c: Codec, big: bool, bitmap: nat, descs: nat, blocks: seq<GuestBlock>)
    requires blocks != []
  {
    && (forall b, addr: nat :: 0 <= b < |blocks| && InBlock(blocks[b], addr) ==>
          FindsByte(file, c, big, bitmap, descs, addr, blocks[b].mem[addr - blocks[b].start]))
    && forall p: nat :: IsHole(blocks, p) ==> ReadPage(file, c, big, bitmap, descs, p) == None
  }

  /** A frame below the end of memory that is in no block. */
  ghost predicate IsHole(blocks: seq<GuestBlock>, p: nat)
    requires blocks != []
  {
    p * PAGE_SIZE < BlockEnd(blocks[|blocks| - 1]) && forall b :: 0 <= b < |blocks| ==> !InBlock(blocks[b], p * PAGE_SIZE)
  }

  lemma FindsEveryByte(file: File, c: Codec, big: bool, bitmap: nat, descs: nat, blocks: seq<GuestBlock>, b: nat, addr: nat)
    requires b < |blocks| && ValidBlock(blocks[b]) && InBlock(blocks[b], addr)
    requires forall k :: 0 <= k < |AllPages(blocks)| ==>
               ReadPage(file, c, big, bitmap, descs, AllPages(blocks)[k].pfn) == Some(AllPages(blocks)[k].data)
    ensures FindsByte(file, c, big, bitmap, descs, addr, blocks[b].mem[addr - blocks[b].start])
  {
    hide ReadPage, PagesUpTo;
    var k := PageWith(blocks, |blocks|, b, addr);
    assert AllPages(blocks)[k].data[addr % PAGE_SIZE] == blocks[b].mem[addr - blocks[b].start];
  }

  lemma NoPageInHole(blocks: seq<GuestBlock>, p: nat)
    requires ValidBlocks(blocks) && IsHole(blocks, p)
    ensures p !in Pfns(AllPages(blocks)) && p < MaxMapnr(blocks)
  {
    hide PagesUpTo;
    assert ValidBlock(blocks[|blocks| - 1]);
    forall k | 0 <= k < |AllPages(blocks)|
      ensures AllPages(blocks)[k].pfn != p
    {
      var b := BlockWith(blocks, |blocks|, k);
    }
  }

  lemma BitmapsComplete(file: File, bitmap: nat, len: nat, w: nat, blocks: seq<GuestBlock>)
    requires BothHold(file, bitmap, len, w, Pfns(AllPages(blocks)))
    ensures WindowsWritten(file, bitmap, len, w)
  {
  }

  /** Bitmaps stay when the pages are written. */
  lemma BitmapsKept(file: File, file': File, bitmap: nat, len: nat, w: nat, s: set<nat>)
    requires BothHold(file, bitmap, len, w, s) && Extends(file, file')
    ensures BitmapHolds(file', bitmap, w * WINDOW, s) && BitmapHolds(file', bitmap + len, w * WINDOW, s)
  {
    BitmapKept(file, file', bitmap, w, s);
    BitmapKept(file, file', bitmap + len, w, s);
  }

  lemma BitmapKept(file: File, file': File, base: nat, w: nat, s: set<nat>)
    requires BitmapHolds(file, base, w * WINDOW, s) && Extends(file, file')
    requires forall o: nat :: base <= o < base + PAGE_SIZE * w ==> o in file
    ensures BitmapHolds(file', base, w * WINDOW, s)
  {
    forall p: nat | p < w * WINDOW
      ensures FileBit(file', base, p) <==> p in s
    {
      var o: nat := base + p / 8;
      assert o in file;
      assert FileBit(file, base, p) <==> p in s;
    }
  }

  lemma DumpGivesBack(file: File, c: Codec, big: bool, bitmap: nat, descs: nat, w: nat, blocks: seq<GuestBlock>)
    requires ValidBlocks(blocks) && ValidCodec(c) && PAGE_SIZE * w == BitmapLength(MaxMapnr(blocks))
    requires descs + (DESC_SIZE + PAGE_SIZE) * (|AllPages(blocks)| + 1) < 0x1_0000_0000_0000_0000
    requires IsDumpOf(file, c, big, bitmap, descs, w * WINDOW, AllPages(blocks))
    ensures GivesBack(file, c, big, bitmap, descs, blocks)
  {
    hide IsDumpOf, ReadPage, Pfns, WholePages, Increasing, BitmapLength, AllPages, ValidBlocks, ValidCodec, MaxMapnr;
    WholeAndBelow(blocks);
    ReaderGetsPages(file, c, big, bitmap, descs, w * WINDOW, AllPages(blocks));
    forall b, addr: nat | 0 <= b < |blocks| && InBlock(blocks[b], addr)
      ensures FindsByte(file, c, big, bitmap, descs, addr, blocks[b].mem[addr - blocks[b].start])
    {
      EachValid(blocks, b);
      FindsEveryByte(file, c, big, bitmap, descs, blocks, b, addr);
    }
    forall p: nat | IsHole(blocks, p)
      ensures ReadPage(file, c, big, bitmap, descs, p) == None
    {
      NoPageInHole(blocks, p);
    }
  }

  lemma EachValid(blocks: seq<GuestBlock>, b: nat)
    requires ValidBlocks(blocks) && b < |blocks|
    ensures ValidBlock(blocks[b])
  {
  }

  lemma WholeAndBelow(blocks: seq<GuestBlock>)
    requires ValidBlocks(blocks)
    ensures blocks != [] && WholePages(AllPages(blocks)) && Increasing(AllPages(blocks))
    ensures MaxMapnr(blocks) <= BitmapLength(MaxMapnr(blocks)) * 8
    ensures forall k :: 0 <= k < |AllPages(blocks)| ==> AllPages(blocks)[k].pfn < MaxMapnr(blocks)
  {
    PagesIncrease(blocks, |blocks|);
    var pages := AllPages(blocks);
    assert forall k :: 0 <= k < |pages| ==> pages[k] in pages;
    assert forall k :: 0 <= k < |pages| ==> pages[k].pfn <= pages[|pages| - 1].pfn;
  }
}
