/**
 The migration bitmap and the guest's dirty log (arch_init.c): one bit per page, grouped in
 64-bit words, and `migration_dirty_pages`, the running count of marked RAM pages.
 */
module Bitmap {
  import opened Wire

  /** BITS_PER_LONG */
  const BITS: nat := 64

  type Bits = seq<bool>

  ghost predicate InBlock(b: RamBlock, p: nat)
  {
    b.first <= p < b.first + b.pages
  }

  /** `p` is a page of some RAM block, not of a gap between them. */
  ghost predicate InRam(blocks: seq<RamBlock>, p: nat)
  {
    exists b :: 0 <= b < |blocks| && InBlock(blocks[b], p)
  }

  /** How many RAM pages below `n` are marked. */
  ghost function Dirty(blocks: seq<RamBlock>, bits: Bits, n: nat): nat
    requires n <= |bits|
  {
    if n == 0 then 0
    else Dirty(blocks, bits, n - 1) + if InRam(blocks, n - 1) && bits[n - 1] then 1 else 0
  }

  /** How many pages of `[lo, hi)` are in the log and not yet in the bitmap. */
  ghost function Fresh(bitmap: Bits, log: Bits, lo: nat, hi: nat): nat
    requires lo <= hi <= |bitmap| == |log|
    decreases hi
  {
    if lo == hi then 0
    else Fresh(bitmap, log, lo, hi - 1) + if log[hi - 1] && !bitmap[hi - 1] then 1 else 0
  }

  lemma {:induction false} DirtySame(blocks: seq<RamBlock>, a: Bits, b: Bits, n: nat)
    requires n <= |a| && n <= |b|
    requires forall p :: 0 <= p < n && InRam(blocks, p) ==> a[p] == b[p]
    ensures Dirty(blocks, a, n) == Dirty(blocks, b, n)
  {
    if n > 0 {
      DirtySame(blocks, a, b, n - 1);
    }
  }

  /** Clearing the mark of a marked RAM page takes one off the count, which was therefore not 0. */
  lemma {:induction false} DirtyClear(blocks: seq<RamBlock>, bits: Bits, p: nat, n: nat)
    requires p < n <= |bits| && InRam(blocks, p) && bits[p]
    ensures Dirty(blocks, bits, n) == Dirty(blocks, bits[p := false], n) + 1
  {
    if p == n - 1 {
      DirtySame(blocks, bits, bits[p := false], p);
    } else {
      DirtyClear(blocks, bits, p, n - 1);
    }
  }

  lemma {:induction false} DirtyMerge(blocks: seq<RamBlock>, bitmap: Bits, log: Bits, merged: Bits, lo: nat, hi: nat, n: nat)
    requires |bitmap| == |log| == |merged| && lo <= hi <= n <= |bitmap|
    requires forall p :: 0 <= p < |log| && log[p] ==> InRam(blocks, p)
    requires forall p :: 0 <= p < n ==> merged[p] == (bitmap[p] || (lo <= p < hi && log[p]))
    ensures Dirty(blocks, merged, n) == Dirty(blocks, bitmap, n) + Fresh(bitmap, log, lo, hi)
  {
    if n == hi == lo {
      DirtySame(blocks, bitmap, merged, n);
    } else if n == hi {
      DirtyMerge(blocks, bitmap, log, merged, lo, hi - 1, n - 1);
    } else {
      DirtyMerge(blocks, bitmap, log, merged, lo, hi, n - 1);
    }
  }

  /** How many pages below `n` are in the block. */
  ghost function PagesBelow(b: RamBlock, n: nat): nat
  {
    if n == 0 then 0 else PagesBelow(b, n - 1) + if InBlock(b, n - 1) then 1 else 0
  }

  lemma {:induction false} PagesBelowAll(b: RamBlock, n: nat)
    ensures PagesBelow(b, n) == if n <= b.first then 0 else if n <= b.first + b.pages then n - b.first else b.pages
  {
    if n > 0 {
      PagesBelowAll(b, n - 1);
    }
  }

  lemma {:induction false} DirtySplit(blocks: seq<RamBlock>, bits: Bits, n: nat)
    requires |blocks| > 0 && n <= |bits|
    requires forall p :: 0 <= p < n && InRam(blocks, p) ==> bits[p]
    requires forall c :: 1 <= c < |blocks| ==> Apart(blocks[0], blocks[c])
    ensures Dirty(blocks, bits, n) == PagesBelow(blocks[0], n) + Dirty(blocks[1..], bits, n)
  {
    if n > 0 {
      DirtySplit(blocks, bits, n - 1);
      RamSplit(blocks, n - 1);
    }
  }

  lemma RamSplit(blocks: seq<RamBlock>, p: nat)
    requires |blocks| > 0 && forall c :: 1 <= c < |blocks| ==> Apart(blocks[0], blocks[c])
    ensures InRam(blocks, p) <==> InBlock(blocks[0], p) || InRam(blocks[1..], p)
    ensures !(InBlock(blocks[0], p) && InRam(blocks[1..], p))
  {
    if InRam(blocks[1..], p) {
      var c :| 0 <= c < |blocks[1..]| && InBlock(blocks[1..][c], p);
      assert InBlock(blocks[c + 1], p);
    }
    if InRam(blocks, p) && !InBlock(blocks[0], p) {
      var c :| 0 <= c < |blocks| && InBlock(blocks[c], p);
      assert InBlock(blocks[1..][c - 1], p);
    }
  }

  /** When every RAM page is marked the count is the number of pages of all blocks. */
  lemma {:induction false} DirtyAll(blocks: seq<RamBlock>, bits: Bits)
    requires forall p :: 0 <= p < |bits| && InRam(blocks, p) ==> bits[p]
    requires forall b, c :: 0 <= b < |blocks| && 0 <= c < |blocks| && b != c ==> Apart(blocks[b], blocks[c])
    requires forall b :: 0 <= b < |blocks| ==> blocks[b].first + blocks[b].pages <= |bits|
    ensures Dirty(blocks, bits, |bits|) == TotalPages(blocks)
    decreases |blocks|
  {
    if blocks == [] {
      DirtyNone(bits, |bits|);
    } else {
      DirtySplit(blocks, bits, |bits|);
      PagesBelowAll(blocks[0], |bits|);
      forall p | 0 <= p < |bits| && InRam(blocks[1..], p)
        ensures bits[p]
      {
        RamSplit(blocks, p);
      }
      DirtyAll(blocks[1..], bits);
    }
  }

  lemma {:induction false} DirtyNone(bits: Bits, n: nat)
    requires n <= |bits|
    ensures Dirty([], bits, n) == 0
  {
    if n > 0 {
      DirtyNone(bits, n - 1);
    }
  }

  // ---------------------------------------------------------------- words

  function Word(bits: Bits, k: nat): (w: Bits)
    requires BITS * (k + 1) <= |bits|
    ensures |w| == BITS
  {
    bits[BITS * k..BITS * k + BITS]
  }

  function SetWord(bits: Bits, k: nat, w: Bits): (r: Bits)
    requires BITS * (k + 1) <= |bits| && |w| == BITS
    ensures |r| == |bits|
    ensures forall p :: 0 <= p < |bits| ==>
              r[p] == if BITS * k <= p < BITS * k + BITS then w[p - BITS * k] else bits[p]
  {
    bits[..BITS * k] + w + bits[BITS * k + BITS..]
  }

  function Or(a: Bits, b: Bits): (r: Bits)
    requires |a| == |b|
    ensures |r| == |a| && forall i :: 0 <= i < |a| ==> r[i] == (a[i] || b[i])
  {
    seq(|a|, i requires 0 <= i < |a| => a[i] || b[i])
  }

  function And(a: Bits, b: Bits): (r: Bits)
    requires |a| == |b|
    ensures |r| == |a| && forall i :: 0 <= i < |a| ==> r[i] == (a[i] && b[i])
  {
    seq(|a|, i requires 0 <= i < |a| => a[i] && b[i])
  }

  function Not(a: Bits): (r: Bits)
    ensures |r| == |a| && forall i :: 0 <= i < |a| ==> r[i] == !a[i]
  {
    seq(|a|, i requires 0 <= i < |a| => !a[i])
  }

  /** ctpopl */
  function PopCount(w: Bits): nat
  {
    if w == [] then 0 else PopCount(w[..|w| - 1]) + if w[|w| - 1] then 1 else 0
  }

  lemma {:induction false} PopCountFresh(bitmap: Bits, log: Bits, added: Bits, lo: nat, j: nat)
    requires |bitmap| == |log| && j <= |added| && lo + |added| <= |log|
    requires forall i :: 0 <= i < |added| ==> added[i] == (!bitmap[lo + i] && log[lo + i])
    ensures PopCount(added[..j]) == Fresh(bitmap, log, lo, lo + j)
  {
    if j > 0 {
      PopCountFresh(bitmap, log, added, lo, j - 1);
      assert added[..j][..j - 1] == added[..j - 1];
    }
  }

  lemma {:induction false} FreshSplit(bitmap: Bits, log: Bits, lo: nat, mid: nat, hi: nat)
    requires lo <= mid <= hi <= |bitmap| == |log|
    ensures Fresh(bitmap, log, lo, hi) == Fresh(bitmap, log, lo, mid) + Fresh(bitmap, log, mid, hi)
    decreases hi
  {
    if mid < hi {
      FreshSplit(bitmap, log, lo, mid, hi - 1);
    }
  }

  lemma {:induction false} FreshSame(bitmap: Bits, log: Bits, bitmap': Bits, log': Bits, lo: nat, hi: nat)
    requires lo <= hi <= |bitmap| == |log| == |bitmap'| == |log'|
    requires forall p :: lo <= p < hi ==> bitmap[p] == bitmap'[p] && log[p] == log'[p]
    ensures Fresh(bitmap, log, lo, hi) == Fresh(bitmap', log', lo, hi)
    decreases hi
  {
    if lo < hi {
      FreshSame(bitmap, log, bitmap', log', lo, hi - 1);
    }
  }

  // ---------------------------------------------------------------- synchronising

  /** The pages of `[lo, hi)` have moved from the log to the bitmap. */
  ghost predicate Moved(bitmap: Bits, log: Bits, bitmap': Bits, log': Bits, lo: nat, hi: nat)
  {
    && |bitmap| == |log| == |bitmap'| == |log'|
    && (forall p :: 0 <= p < |bitmap| ==> bitmap'[p] == (bitmap[p] || (lo <= p < hi && log[p])))
    && (forall p :: 0 <= p < |bitmap| ==> log'[p] == (log[p] && !(lo <= p < hi)))
  }

  /** The word-wise path: whole words, counting the bits that are new by population count. */
  method SyncWords(bitmap: Bits, log: Bits, dirty: nat, first: nat, nr: nat)
    returns (bitmap': Bits, log': Bits, dirty': nat)
    requires |bitmap| == |log| && BITS * (first + nr) <= |bitmap|
    ensures Moved(bitmap, log, bitmap', log', BITS * first, BITS * (first + nr))
    ensures dirty' == dirty + Fresh(bitmap, log, BITS * first, BITS * (first + nr))
  {
    bitmap', log', dirty' := bitmap, log, dirty;
    for k := first to first + nr
      invariant Moved(bitmap, log, bitmap', log', BITS * first, BITS * k)
      invariant dirty' == dirty + Fresh(bitmap, log, BITS * first, BITS * k)
    {
      FreshSame(bitmap, log, bitmap', log', BITS * k, BITS * (k + 1));
      bitmap', log', dirty' := SyncWord(bitmap', log', dirty', k);
      FreshSplit(bitmap, log, BITS * first, BITS * k, BITS * (k + 1));
    }
  }

  /** One word; an all-zero word of the log is skipped. */
  method SyncWord(bitmap: Bits, log: Bits, dirty: nat, k: nat)
    returns (bitmap': Bits, log': Bits, dirty': nat)
    requires |bitmap| == |log| && BITS * (k + 1) <= |bitmap|
    ensures Moved(bitmap, log, bitmap', log', BITS * k, BITS * (k + 1))
    ensures dirty' == dirty + Fresh(bitmap, log, BITS * k, BITS * (k + 1))
  {
    bitmap', log', dirty' := bitmap, log, dirty;
    var src := Word(log, k);
    ghost var lo := BITS * k;
    var added := And(Not(Word(bitmap, k)), src);
    assert added[..BITS] == added;
    PopCountFresh(bitmap, log, added, lo, BITS);
    if exists i :: 0 <= i < BITS && src[i] {
      bitmap' := SetWord(bitmap, k, Or(Word(bitmap, k), src));
      dirty' := dirty + PopCount(added);
      log' := SetWord(log, k, seq(BITS, _ => false));
    } else {
      assert forall p :: lo <= p < lo + BITS ==> log[p] == src[p - lo];
      NothingFresh(bitmap, log, lo, lo + BITS);
    }
  }

  lemma {:induction false} NothingFresh(bitmap: Bits, log: Bits, lo: nat, hi: nat)
    requires lo <= hi <= |bitmap| == |log|
    requires forall p :: lo <= p < hi ==> !log[p]
    ensures Fresh(bitmap, log, lo, hi) == 0
    decreases hi
  {
    if lo < hi {
      NothingFresh(bitmap, log, lo, hi - 1);
    }
  }

  /** The page-by-page path, for a block that does not start at a word. */
  method SyncPages(bitmap: Bits, log: Bits, dirty: nat, start: nat, length: nat)
    returns (bitmap': Bits, log': Bits, dirty': nat)
    requires |bitmap| == |log| && start + length <= |bitmap|
    ensures Moved(bitmap, log, bitmap', log', start, start + length)
    ensures dirty' == dirty + Fresh(bitmap, log, start, start + length)
  {
    bitmap', log', dirty' := bitmap, log, dirty;
    for addr := 0 to length
      invariant Moved(bitmap, log, bitmap', log', start, start + addr)
      invariant dirty' == dirty + Fresh(bitmap, log, start, start + addr)
    {
      var p := start + addr;
      if log'[p] {
        log' := log'[p := false];
        // migration_bitmap_set_dirty
        if !bitmap'[p] {
          dirty' := dirty' + 1;
        }
        bitmap' := bitmap'[p := true];
      }
    }
  }

  /**
   migration_bitmap_sync_range.  Whichever path is taken, the union of bitmap and log stays the
   same, nothing of the block is left in the log, and the count stays exact.
   */
  method SyncRange(blocks: seq<RamBlock>, bitmap: Bits, log: Bits, dirty: nat, start: nat, length: nat)
    returns (bitmap': Bits, log': Bits, dirty': nat)
    requires |bitmap| == |log| && |bitmap| % BITS == 0 && start + length <= |bitmap|
    requires forall p :: 0 <= p < |log| && log[p] ==> InRam(blocks, p)
    requires dirty == Dirty(blocks, bitmap, |bitmap|)
    ensures |bitmap'| == |log'| == |bitmap|
    ensures forall p :: 0 <= p < |bitmap| ==> (bitmap'[p] || log'[p] <==> bitmap[p] || log[p])
    ensures forall p :: 0 <= p < |bitmap| ==> (bitmap[p] ==> bitmap'[p]) && (log'[p] ==> log[p])
    ensures forall p :: start <= p < start + length ==> !log'[p]
    ensures dirty' == Dirty(blocks, bitmap', |bitmap'|)
  {
    var page := start / BITS;
    ghost var hi := start + length;
    if page * BITS == start {
      var nr := (length + BITS - 1) / BITS;
      bitmap', log', dirty' := SyncWords(bitmap, log, dirty, page, nr);
      hi := BITS * (page + nr);
    } else {
      bitmap', log', dirty' := SyncPages(bitmap, log, dirty, start, length);
    }
    DirtyMerge(blocks, bitmap, log, bitmap', start, hi, |bitmap|);
  }

  // ---------------------------------------------------------------- scanning

  /** find_next_bit: the first marked page of `[from, size)`, or `size`. */
  method FindNextBit(bits: Bits, size: nat, from: nat) returns (next: nat)
    requires size <= |bits| && from <= size
    ensures from <= next <= size
    ensures forall p :: from <= p < next ==> !bits[p]
    ensures next < size ==> bits[next]
  {
    next := from;
    while next < size && !bits[next]
      invariant from <= next <= size
      invariant forall p :: from <= p < next ==> !bits[p]
    {
      next := next + 1;
    }
  }
}
