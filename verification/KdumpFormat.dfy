/**
 The kdump-compressed format (dump.c): guest memory as a list of pages, the file as bytes with
 positions, and what a reader makes of it.
 */
module KdumpFormat {
  import opened Basics
  import opened Binary

  // ---------------------------------------------------------------- guest memory

  /** GuestPhysBlock: physical address and contents. */
  datatype GuestBlock = GuestBlock(start: nat, mem: seq<Byte>)

  datatype PageInfo = PageInfo(pfn: nat, data: seq<Byte>)

  function BlockEnd(b: GuestBlock): nat { b.start + |b.mem| }

  ghost predicate ValidBlock(b: GuestBlock)
  {
    b.start % PAGE_SIZE == 0 && |b.mem| % PAGE_SIZE == 0 && |b.mem| > 0
  }

  /** Non-empty blocks of whole pages, in increasing order. */
  ghost predicate ValidBlocks(blocks: seq<GuestBlock>)
  {
    && |blocks| > 0
    && (forall b :: 0 <= b < |blocks| ==> ValidBlock(blocks[b]))
    && forall b, c :: 0 <= b < c < |blocks| ==> BlockEnd(blocks[b]) <= blocks[c].start
  }

  function FirstPfn(b: GuestBlock): nat { b.start / PAGE_SIZE }

  function PageCount(b: GuestBlock): nat { |b.mem| / PAGE_SIZE }

  function PageOf(b: GuestBlock, i: nat): PageInfo
    requires i < PageCount(b)
  {
    PageInfo(FirstPfn(b) + i, b.mem[i * PAGE_SIZE..i * PAGE_SIZE + PAGE_SIZE])
  }

  /** The first `n` pages of a block. */
  function BlockPages(b: GuestBlock, n: nat): (pages: seq<PageInfo>)
    requires n <= PageCount(b)
    ensures |pages| == n && forall i :: 0 <= i < n ==> pages[i] == PageOf(b, i)
  {
    if n == 0 then [] else BlockPages(b, n - 1) + [PageOf(b, n - 1)]
  }

  /** All pages of the first `k` blocks. */
  function PagesUpTo(blocks: seq<GuestBlock>, k: nat): seq<PageInfo>
    requires k <= |blocks|
  {
    if k == 0 then [] else PagesUpTo(blocks, k - 1) + BlockPages(blocks[k - 1], PageCount(blocks[k - 1]))
  }

  function AllPages(blocks: seq<GuestBlock>): seq<PageInfo>
  {
    PagesUpTo(blocks, |blocks|)
  }

  predicate InBlock(b: GuestBlock, addr: nat)
  {
    b.start <= addr < BlockEnd(b)
  }

  /** The page has the bytes that the block has at the addresses of its frame. */
  ghost predicate HasMemory(b: GuestBlock, p: PageInfo)
  {
    && |p.data| == PAGE_SIZE && b.start <= p.pfn * PAGE_SIZE && p.pfn * PAGE_SIZE + PAGE_SIZE <= BlockEnd(b)
    && forall o :: 0 <= o < PAGE_SIZE ==> p.data[o] == b.mem[p.pfn * PAGE_SIZE - b.start + o]
  }

  lemma PageHasMemory(b: GuestBlock, i: nat)
    requires ValidBlock(b) && i < PageCount(b)
    ensures HasMemory(b, PageOf(b, i))
  {
  }

  /** Every address of a block is on one of the pages. */
  lemma {:induction false} PageWith(blocks: seq<GuestBlock>, n: nat, b: nat, addr: nat) returns (k: nat)
    requires b < n <= |blocks| && ValidBlock(blocks[b]) && InBlock(blocks[b], addr)
    ensures var pages := PagesUpTo(blocks, n); k < |pages| && pages[k].pfn == addr / PAGE_SIZE && HasMemory(blocks[b], pages[k])
  {
    if b < n - 1 {
      k := PageWith(blocks, n - 1, b, addr);
    } else {
      var i := (addr - blocks[b].start) / PAGE_SIZE;
      PageHasMemory(blocks[b], i);
      k := |PagesUpTo(blocks, b)| + i;
    }
  }

  /** Every page is one of a block. */
  lemma {:induction false} BlockWith(blocks: seq<GuestBlock>, n: nat, k: nat) returns (b: nat)
    requires n <= |blocks| && k < |PagesUpTo(blocks, n)| && forall i :: 0 <= i < n ==> ValidBlock(blocks[i])
    ensures b < n && HasMemory(blocks[b], PagesUpTo(blocks, n)[k])
  {
    var before := PagesUpTo(blocks, n - 1);
    if k < |before| {
      b := BlockWith(blocks, n - 1, k);
    } else {
      b := n - 1;
      PageHasMemory(blocks[b], k - |before|);
    }
  }

  ghost predicate Increasing(pages: seq<PageInfo>)
  {
    forall i, j :: 0 <= i < j < |pages| ==> pages[i].pfn < pages[j].pfn
  }

  /** Pages come in increasing order, and end where the last block does. */
  lemma {:induction false} PagesIncrease(blocks: seq<GuestBlock>, k: nat)
    requires ValidBlocks(blocks) && k <= |blocks|
    ensures Increasing(PagesUpTo(blocks, k))
    ensures forall p :: p in PagesUpTo(blocks, k) ==> |p.data| == PAGE_SIZE
    ensures k > 0 ==> var pages := PagesUpTo(blocks, k);
              |pages| > 0 && pages[|pages| - 1].pfn + 1 == BlockEnd(blocks[k - 1]) / PAGE_SIZE
  {
    if k > 0 {
      PagesIncrease(blocks, k - 1);
      var before, b := PagesUpTo(blocks, k - 1), blocks[k - 1];
      var own := BlockPages(b, PageCount(b));
      if k > 1 {
        assert BlockEnd(blocks[k - 2]) <= b.start;
        assert before[|before| - 1].pfn < FirstPfn(b);
      }
      JoinIncreasing(before, own);
    }
  }

  lemma JoinIncreasing(before: seq<PageInfo>, own: seq<PageInfo>)
    requires Increasing(before) && Increasing(own)
    requires before != [] && own != [] ==> before[|before| - 1].pfn < own[0].pfn
    ensures Increasing(before + own)
  {
    forall i, j | 0 <= i < |before| && 0 <= j < |own|
      ensures before[i].pfn < own[j].pfn
    {
      assert before[i].pfn <= before[|before| - 1].pfn;
      assert own[0].pfn <= own[j].pfn;
    }
  }

  /** Where get_next_page is: its block, if it has begun, and its page. */
  datatype Cursor = Start | In(block: nat, pfn: nat)

  ghost predicate ValidCursor(blocks: seq<GuestBlock>, c: Cursor)
  {
    c.In? ==> c.block < |blocks| && FirstPfn(blocks[c.block]) <= c.pfn < FirstPfn(blocks[c.block]) + PageCount(blocks[c.block])
  }

  /** The pages got so far. */
  ghost function Seen(blocks: seq<GuestBlock>, c: Cursor): seq<PageInfo>
    requires ValidCursor(blocks, c)
  {
    match c
    case Start => []
    case In(b, pfn) => PagesUpTo(blocks, b) + BlockPages(blocks[b], pfn - FirstPfn(blocks[b]) + 1)
  }

  /** get_next_page: each page once, in order. */
  method GetNextPage(blocks: seq<GuestBlock>, c: Cursor) returns (more: bool, c': Cursor, page: PageInfo)
    requires ValidBlocks(blocks) && ValidCursor(blocks, c)
    ensures ValidCursor(blocks, c')
    ensures more ==> c'.In? && c'.pfn == page.pfn && HasMemory(blocks[c'.block], page)
    ensures more ==> Seen(blocks, c') == Seen(blocks, c) + [page]
    ensures !more ==> Seen(blocks, c) == AllPages(blocks)
  {
    hide HasMemory;
    page := PageInfo(0, []);
    if c == Start {
      var b := blocks[0];
      assert ValidBlock(b);
      c' := In(0, b.start / PAGE_SIZE);
      page := PageInfo(c'.pfn, b.mem[..PAGE_SIZE]);
      PageHasMemory(b, 0);
      assert page == PageOf(b, 0);
      assert BlockPages(b, 1) == BlockPages(b, 0) + [PageOf(b, 0)];
      return true, c', page;
    }
    var b := blocks[c.block];
    assert ValidBlock(b);
    var pfn := c.pfn + 1;
    var addr := pfn * PAGE_SIZE;
    if addr >= b.start && addr + PAGE_SIZE <= BlockEnd(b) {
      c' := In(c.block, pfn);
      page := PageInfo(pfn, b.mem[addr - b.start..addr - b.start + PAGE_SIZE]);
      PageHasMemory(b, pfn - FirstPfn(b));
      NextInBlock(blocks, c, page);
      return true, c', page;
    }
    assert pfn - FirstPfn(b) == PageCount(b);
    if c.block + 1 == |blocks| {
      return false, c, page;
    }
    var b' := blocks[c.block + 1];
    assert ValidBlock(b');
    c' := In(c.block + 1, b'.start / PAGE_SIZE);
    page := PageInfo(c'.pfn, b'.mem[..PAGE_SIZE]);
    PageHasMemory(b', 0);
    FirstOfNext(blocks, c, page);
    return true, c', page;
  }

  lemma NextInBlock(blocks: seq<GuestBlock>, c: Cursor, page: PageInfo)
    requires ValidCursor(blocks, c) && c.In? && ValidBlock(blocks[c.block])
    requires c.pfn + 1 < FirstPfn(blocks[c.block]) + PageCount(blocks[c.block])
    requires page == PageOf(blocks[c.block], c.pfn + 1 - FirstPfn(blocks[c.block]))
    ensures Seen(blocks, In(c.block, c.pfn + 1)) == Seen(blocks, c) + [page]
  {
    var b, n := blocks[c.block], c.pfn - FirstPfn(blocks[c.block]) + 1;
    assert BlockPages(b, n + 1) == BlockPages(b, n) + [PageOf(b, n)];
  }

  lemma FirstOfNext(blocks: seq<GuestBlock>, c: Cursor, page: PageInfo)
    requires ValidCursor(blocks, c) && c.In? && c.block + 1 < |blocks| && ValidBlock(blocks[c.block + 1])
    requires c.pfn + 1 == FirstPfn(blocks[c.block]) + PageCount(blocks[c.block])
    requires page == PageOf(blocks[c.block + 1], 0)
    ensures Seen(blocks, In(c.block + 1, page.pfn)) == Seen(blocks, c) + [page]
  {
    var b' := blocks[c.block + 1];
    assert BlockPages(b', 1) == BlockPages(b', 0) + [PageOf(b', 0)];
  }

  // ---------------------------------------------------------------- the file

  /** What has been written, by position; the flattened format carries the position with each piece. */
  type File = map<nat, Byte>

  /** The byte of `data` for position `o`, when it starts at `at`. */
  function ByteFor(data: seq<Byte>, at: nat, o: nat): Byte
    requires at <= o < at + |data|
  {
    data[o - at]
  }

  /** The file with `data` written at `at` (write_buffer). */
  function Put(file: File, at: nat, data: seq<Byte>): (file': File)
    ensures forall o: nat :: o in file' <==> o in file || at <= o < at + |data|
    ensures forall o: nat :: o in file' ==> file'[o] == if at <= o < at + |data| then data[o - at] else file[o]
  {
    file + map o: nat | at <= o < at + |data| :: ByteFor(data, at, o)
  }

  ghost predicate Holds(file: File, at: nat, data: seq<Byte>)
  {
    forall i: nat :: i < |data| ==> ByteHeld(file, at, data, i)
  }

  ghost predicate ByteHeld(file: File, at: nat, data: seq<Byte>, i: nat)
    requires i < |data|
  {
    at + i in file && file[at + i] == data[i]
  }

  /** Nothing has been written to these positions yet. */
  ghost predicate Unwritten(file: File, at: nat, n: nat)
  {
    forall o: nat :: at <= o < at + n ==> o !in file
  }

  lemma PutHolds(file: File, at: nat, data: seq<Byte>)
    ensures Holds(Put(file, at, data), at, data)
  {
  }

  lemma PutKeeps(file: File, at: nat, data: seq<Byte>, at': nat, data': seq<Byte>)
    requires Holds(file, at', data') && Unwritten(file, at, |data|)
    ensures Holds(Put(file, at, data), at', data')
  {
    forall i: nat | i < |data'|
      ensures ByteHeld(Put(file, at, data), at', data', i)
    {
      assert ByteHeld(file, at', data', i);
    }
  }

  // ---------------------------------------------------------------- bitmaps

  /** PFN_BUFBITMAP: page frames per window of the bitmap; a window is one page. */
  const WINDOW: nat := 8 * PAGE_SIZE

  predicate BufBit(buf: seq<Byte>, i: nat)
  {
    i / 8 < |buf| && Bit(buf[i / 8], i % 8)
  }

  ghost predicate InWindow(s: set<nat>, w: nat, i: nat)
  {
    w * WINDOW + i in s
  }

  /** The buffer holds window `w` of the bitmap of `s`. */
  ghost predicate WindowHolds(buf: seq<Byte>, w: nat, s: set<nat>)
  {
    |buf| == PAGE_SIZE && forall i: nat :: i < WINDOW ==> (BufBit(buf, i) <==> InWindow(s, w, i))
  }

  predicate FileBit(file: File, base: nat, p: nat)
  {
    base + p / 8 in file && Bit(file[base + p / 8], p % 8)
  }

  /** The bitmap at `base` is that of `s`, as far as frame `n`. */
  ghost predicate BitmapHolds(file: File, base: nat, n: nat, s: set<nat>)
  {
    forall p: nat :: p < n ==> (FileBit(file, base, p) <==> p in s)
  }

  lemma FlushWindow(file: File, base: nat, w: nat, buf: seq<Byte>, s: set<nat>)
    requires BitmapHolds(file, base, w * WINDOW, s) && WindowHolds(buf, w, s)
    ensures BitmapHolds(Put(file, base + PAGE_SIZE * w, buf), base, (w + 1) * WINDOW, s)
  {
    var file' := Put(file, base + PAGE_SIZE * w, buf);
    forall p: nat | p < (w + 1) * WINDOW
      ensures FileBit(file', base, p) <==> p in s
    {
      if p < w * WINDOW {
        assert FileBit(file, base, p) <==> p in s;
      } else {
        var i := p - w * WINDOW;
        assert p / 8 == PAGE_SIZE * w + i / 8 && p % 8 == i % 8;
        assert BufBit(buf, i) <==> InWindow(s, w, i);
      }
    }
  }

  lemma PutElsewhere(file: File, at: nat, data: seq<Byte>, base: nat, n: nat, s: set<nat>)
    requires BitmapHolds(file, base, n * WINDOW, s)
    requires at + |data| <= base || base + PAGE_SIZE * n <= at
    ensures BitmapHolds(Put(file, at, data), base, n * WINDOW, s)
  {
    var file' := Put(file, at, data);
    forall p: nat | p < n * WINDOW
      ensures FileBit(file', base, p) <==> p in s
    {
      assert p / 8 < PAGE_SIZE * n;
      assert FileBit(file, base, p) <==> p in s;
    }
  }

  /** memset(buf, 0, BUFSIZE_BITMAP) */
  function ZeroWindow(): (buf: seq<Byte>)
    ensures |buf| == PAGE_SIZE && forall i :: 0 <= i < |buf| ==> buf[i] == 0
  {
    seq(PAGE_SIZE, _ => 0)
  }

  lemma {:induction false} NoBits(i: nat)
    ensures !Bit(0, i)
  {
    if i > 0 {
      NoBits(i - 1);
    }
  }

  lemma ZeroWindowHolds(w: nat, s: set<nat>)
    requires forall p :: p in s ==> p < w * WINDOW
    ensures WindowHolds(ZeroWindow(), w, s)
  {
    forall i: nat | i < WINDOW
      ensures BufBit(ZeroWindow(), i) <==> InWindow(s, w, i)
    {
      NoBits(i % 8);
    }
  }

  /** One bit of the window is set or cleared. */
  lemma SetInWindow(buf: seq<Byte>, w: nat, s: set<nat>, p: nat, value: bool)
    requires WindowHolds(buf, w, s) && p / WINDOW == w
    ensures var i := p % WINDOW;
            var buf' := buf[i / 8 := ByteWithBit(buf[i / 8], i % 8, value)];
            WindowHolds(buf', w, if value then s + {p} else s - {p})
  {
    var k := p % WINDOW;
    var buf' := buf[k / 8 := ByteWithBit(buf[k / 8], k % 8, value)];
    var s' := if value then s + {p} else s - {p};
    forall i: nat | i < WINDOW
      ensures BufBit(buf', i) <==> InWindow(s', w, i)
    {
      assert BufBit(buf, i) <==> InWindow(s, w, i);
      assert w * WINDOW + i == p <==> i == k;
    }
  }
}
