/**
 Live migration of guest RAM (arch_init.c), sender side.

 The guest runs whenever the sender lets it (`GuestRuns`): between any two looks of the sender at
 guest memory, before every scan, before and after every merge of the log, and before it is stopped.
 A theorem about every `guest` schedule is so a theorem about every interleaving.  `dest` is what the receiver holds after the bytes sent so far.
 */
module Migration {
  import opened Basics
  import opened Wire
  import opened Bitmap
  import Xbzrle

  /** The guest stores `data` into RAM page `page` and its dirty bit is logged. */
  datatype GuestWrite = GuestWrite(page: nat, data: Page)

  /** A slot of the XBZRLE page cache (page_cache.c); the cache is direct-mapped. */
  datatype Slot = Empty | Cached(page: nat, data: Page)

  ghost predicate ValidCache(cache: seq<Slot>, n: nat)
  {
    && |cache| > 0
    && forall k :: 0 <= k < |cache| && cache[k].Cached? ==> cache[k].page < n && cache[k].page % |cache| == k
  }

  ghost predicate NothingCached(cache: seq<Slot>)
  {
    forall k :: 0 <= k < |cache| ==> cache[k].Empty?
  }

  /**
   Every cached page is the destination's copy.  In the last stage the cache is no longer kept up,
   so there the claim is for pages still marked, and for `hand`, the page being sent.
   */
  ghost predicate CacheAgrees(cache: seq<Slot>, dest: seq<Page>, bitmap: Bits, lastStage: bool, hand: int)
  {
    forall k :: 0 <= k < |cache| && cache[k].Cached? &&
                cache[k].page < |dest| && cache[k].page < |bitmap| &&
                (lastStage ==> bitmap[cache[k].page] || cache[k].page == hand) ==>
      cache[k].data == dest[cache[k].page]
  }

  /** The destination has the page, or the page is marked to be sent, or it is in the dirty log. */
  ghost predicate Covered(ram: seq<Page>, dest: seq<Page>, bitmap: Bits, log: Bits, p: int)
  {
    && 0 <= p < |ram| && p < |dest| && p < |bitmap| && p < |log|
    && (dest[p] == ram[p] || bitmap[p] || log[p])
  }

  lemma CoveredIsPage(ram: seq<Page>, dest: seq<Page>, bitmap: Bits, log: Bits, p: int)
    requires Covered(ram, dest, bitmap, log, p)
    ensures 0 <= p < |ram| && p < |dest|
  {
  }

  /** Guest memory after these stores; those outside RAM have no effect. */
  ghost function AfterStores(blocks: seq<RamBlock>, ram: seq<Page>, writes: seq<GuestWrite>): (ram': seq<Page>)
    ensures |ram'| == |ram|
  {
    if writes == [] then ram
    else
      var before, w := AfterStores(blocks, ram, writes[..|writes| - 1]), writes[|writes| - 1];
      if InRam(blocks, w.page) && w.page < |ram| then before[w.page := w.data] else before
  }

  lemma OneMoreStore(blocks: seq<RamBlock>, ram: seq<Page>, writes: seq<GuestWrite>, i: nat)
    requires i < |writes|
    ensures var before, w := AfterStores(blocks, ram, writes[..i]), writes[i];
            AfterStores(blocks, ram, writes[..i + 1]) ==
            if InRam(blocks, w.page) && w.page < |ram| then before[w.page := w.data] else before
  {
    assert writes[..i + 1][..i] == writes[..i];
  }

  lemma NoStores(blocks: seq<RamBlock>, ram: seq<Page>)
    ensures AfterStores(blocks, ram, []) == ram
  {
  }

  /** Between two states of guest memory only logged pages changed, and nothing left the log. */
  ghost predicate GuestRan(blocks: seq<RamBlock>, ram: seq<Page>, log: Bits, ram': seq<Page>, log': Bits)
  {
    && |ram| == |log| == |ram'| == |log'|
    && (forall p :: 0 <= p < |log| && log[p] ==> log'[p])
    && (forall p :: 0 <= p < |ram| ==> ram'[p] == ram[p] || log'[p])
    && (forall p :: 0 <= p < |log'| && log'[p] ==> log[p] || InRam(blocks, p))
  }

  lemma GuestRanTwice(blocks: seq<RamBlock>, ram: seq<Page>, log: Bits, ram': seq<Page>, log': Bits,
                      ram'': seq<Page>, log'': Bits)
    requires GuestRan(blocks, ram, log, ram', log') && GuestRan(blocks, ram', log', ram'', log'')
    ensures GuestRan(blocks, ram, log, ram'', log'')
  {
    hide InRam;
  }

  /** The parts of the state a scan changes, at one moment. */
  datatype Moment = Moment(ram: seq<Page>, log: Bits, dest: Receiver, bitmap: Bits, dirty: nat, sent: nat)

  /**
   What a scan does between two moments, having sent `bytes` bytes: guest memory changes only by
   logged writes (and not at all when the guest is stopped), sending a page uses up a mark, and
   every page that was covered still is, except `LastPage` if the scan `forgets` it.
   */
  ghost predicate Kept(blocks: seq<RamBlock>, s: Moment, t: Moment, running: bool, forgets: bool, bytes: nat)
  {
    && GuestRan(blocks, s.ram, s.log, t.ram, t.log)
    && (!running ==> t.ram == s.ram && t.log == s.log)
    && t.sent == s.sent + bytes
    && (bytes == 0 ==> t.dest == s.dest)
    && t.dirty <= s.dirty && (bytes > 0 ==> t.dirty < s.dirty)
    && (forgets ==> bytes == 0)
    && (forall p :: Covered(s.ram, s.dest.ram, s.bitmap, s.log, p) && !(forgets && p == LastPage(blocks)) ==>
          Covered(t.ram, t.dest.ram, t.bitmap, t.log, p))
  }

  lemma FewerDirty(blocks: seq<RamBlock>, s: Moment, t: Moment, running: bool, forgets: bool, bytes: nat)
    requires Kept(blocks, s, t, running, forgets, bytes) && bytes > 0
    ensures t.dirty < s.dirty
  {
  }

  lemma KeptTwice(blocks: seq<RamBlock>, s: Moment, t: Moment, u: Moment, running: bool, forgets: bool, bytes: nat)
    requires Kept(blocks, s, t, running, forgets, 0) && Kept(blocks, t, u, running, forgets, bytes)
    ensures Kept(blocks, s, u, running, forgets, bytes)
  {
    hide Covered;
    hide GuestRan;
    hide LastPage;
    GuestRanTwice(blocks, s.ram, s.log, t.ram, t.log, u.ram, u.log);
  }

  /** Whatever the guest does, a covered page stays covered: its stores are logged. */
  lemma GuestKeeps(blocks: seq<RamBlock>, s: Moment, t: Moment, running: bool)
    requires GuestRan(blocks, s.ram, s.log, t.ram, t.log) && (!running ==> t.ram == s.ram && t.log == s.log)
    requires t == s.(ram := t.ram, log := t.log)
    ensures Kept(blocks, s, t, running, false, 0)
  {
    hide InRam, LastPage;
  }

  lemma KeptNothing(blocks: seq<RamBlock>, s: Moment, running: bool, forgets: bool)
    requires |s.ram| == |s.log|
    ensures Kept(blocks, s, s, running, forgets, 0)
  {
  }

  /** What any run of the sender upholds; `lost` if some scan of it forgot `LastPage`. */
  ghost predicate Upheld(blocks: seq<RamBlock>, s: Moment, t: Moment, running: bool, lost: bool)
  {
    && GuestRan(blocks, s.ram, s.log, t.ram, t.log)
    && (!running ==> t.ram == s.ram && t.log == s.log)
    && (forall p :: Covered(s.ram, s.dest.ram, s.bitmap, s.log, p) && !(lost && p == LastPage(blocks)) ==>
          Covered(t.ram, t.dest.ram, t.bitmap, t.log, p))
  }

  lemma UpheldOn(blocks: seq<RamBlock>, s: Moment, t: Moment, u: Moment, running: bool, lost: bool, forgets: bool, bytes: nat)
    requires Upheld(blocks, s, t, running, lost) && Kept(blocks, t, u, running, forgets, bytes)
    ensures Upheld(blocks, s, u, running, lost || forgets)
  {
    hide Covered;
    hide GuestRan;
    hide LastPage;
    GuestRanTwice(blocks, s.ram, s.log, t.ram, t.log, u.ram, u.log);
  }

  lemma UpheldNothing(blocks: seq<RamBlock>, s: Moment, running: bool, lost: bool)
    requires |s.ram| == |s.log|
    ensures Upheld(blocks, s, s, running, lost)
  {
  }

  /** A scan that has just sent a page does not forget it: its mark is off. */
  lemma TakenIsSafe(blocks: seq<RamBlock>, bitmap0: Bits, bitmap: Bits, first: bool, startBulk: bool, bulk: bool,
                    b0: nat, off0: nat, b: nat, off: nat)
    requires Taken(blocks, bitmap0, bitmap, first, startBulk, bulk, b0, off0, b, off)
    ensures !Forgets(blocks, bitmap, bulk, Some(b), off)
  {
    hide InRam;
  }

  /** The bitmap after the log has been merged into it. */
  ghost function Merged(bitmap: Bits, log: Bits): (r: Bits)
    requires |bitmap| == |log|
    ensures |r| == |bitmap| && forall p :: 0 <= p < |r| ==> r[p] == (bitmap[p] || log[p])
  {
    Or(bitmap, log)
  }

  lemma MergedCovers(ram: seq<Page>, dest: seq<Page>, bitmap: Bits, log: Bits, bitmap': Bits, log': Bits, p: int)
    requires |bitmap| == |log| == |bitmap'| == |log'| && Covered(ram, dest, bitmap, log, p)
    requires forall q :: 0 <= q < |bitmap| ==> bitmap'[q] == (bitmap[q] || log[q])
    ensures Covered(ram, dest, bitmap', log', p)
  {
  }

  /**
   A scan has stopped at the page it sent.  During the first pass that page is the only mark it
   took, the very first scan takes the very first page, and only a scan from the last page of the
   last block ends the first pass.
   */
  ghost predicate Taken(blocks: seq<RamBlock>, bitmap0: Bits, bitmap: Bits, first: bool, startBulk: bool, bulk: bool,
                        b0: nat, off0: nat, b: nat, off: nat)
  {
    && b < |blocks| && off < blocks[b].pages && blocks[b].first + off < |bitmap| && !bitmap[blocks[b].first + off]
    && (first ==> b == 0 && off == 0)
    && (startBulk ==>
          && blocks[b].first + off < |bitmap0| && bitmap0[blocks[b].first + off]
          && bitmap == bitmap0[blocks[b].first + off := false]
          && (!bulk ==> AtLastPage(blocks, Some(b0), off0)))
  }

  /** The cursor is on the last page of the last block. */
  ghost predicate AtLastPage(blocks: seq<RamBlock>, lastSeen: Option<nat>, lastOffset: nat)
  {
    lastSeen == Some(|blocks| - 1) && lastOffset + 1 == blocks[|blocks| - 1].pages
  }

  /** The scan order puts page `p` of block `c` behind the place (`b`, `off`). */
  ghost predicate Behind(blocks: seq<RamBlock>, c: nat, p: nat, b: nat, off: nat)
    requires b < |blocks|
  {
    c < b || (c == b && p < blocks[b].first + off)
  }

  /** Every page ahead of the cursor is still marked: the first pass has not come to it. */
  ghost predicate AheadMarked(blocks: seq<RamBlock>, bitmap: Bits, b: nat, off: nat)
    requires b < |blocks|
  {
    forall c: nat, p: nat :: c < |blocks| && InBlock(blocks[c], p) && p < |bitmap| && !Behind(blocks, c, p, b, off + 1) ==>
      bitmap[p]
  }

  /** A scan that started at (`b0`, `off0`) has passed the page on its way to (`b`, `off`). */
  ghost predicate LookedAt(blocks: seq<RamBlock>, c: nat, p: nat, b0: nat, off0: nat, wrapped: bool, b: nat, off: nat)
    requires b0 < |blocks| && b < |blocks|
  {
    if wrapped then !Behind(blocks, c, p, b0, off0) || Behind(blocks, c, p, b, off)
    else !Behind(blocks, c, p, b0, off0) && Behind(blocks, c, p, b, off)
  }

  /**
   A scan that started at (`b0`, `off0`) and has come to (`b`, `off`), `wrapped` if past the last
   block, has left no page it looked at marked; `skip` is the page it did not look at.
   */
  ghost predicate Swept(blocks: seq<RamBlock>, bitmap: Bits, b0: nat, off0: nat, wrapped: bool,
                        b: nat, off: nat, skip: int)
    requires b0 < |blocks| && b < |blocks|
  {
    forall c: nat, p: nat :: c < |blocks| && InBlock(blocks[c], p) && p < |bitmap| && p != skip &&
                   LookedAt(blocks, c, p, b0, off0, wrapped, b, off)
      ==> !bitmap[p]
  }

  /** No RAM page is marked. */
  ghost predicate Unmarked(blocks: seq<RamBlock>, bitmap: Bits)
  {
    forall p: nat :: p < |bitmap| && InRam(blocks, p) ==> !bitmap[p]
  }

  ghost function LastPage(blocks: seq<RamBlock>): int
  {
    if |blocks| == 0 then -1 else blocks[|blocks| - 1].first + blocks[|blocks| - 1].pages - 1
  }

  /**
   The one situation in which a scan drops a mark without looking at the page: the first pass has
   just sent the last page of the last block, that page has been marked again, and nothing else is.
   */
  ghost predicate Forgets(blocks: seq<RamBlock>, bitmap: Bits, bulk: bool, lastSeen: Option<nat>, lastOffset: nat)
  {
    && bulk && lastSeen == Some(|blocks| - 1)
    && 0 < lastOffset == blocks[|blocks| - 1].pages - 1
    && 0 <= LastPage(blocks) < |bitmap| && bitmap[LastPage(blocks)]
    && (forall p :: 0 <= p < |bitmap| && InRam(blocks, p) && p != LastPage(blocks) ==> !bitmap[p])
  }

  /** Looking at `[off, off')` of block `b` moves the scan on. */
  lemma SweptOn(blocks: seq<RamBlock>, bitmap: Bits, b0: nat, off0: nat, wrapped: bool,
                b: nat, off: nat, off': nat, skip: int)
    requires b0 < |blocks| && b < |blocks| && off <= off'
    requires Swept(blocks, bitmap, b0, off0, wrapped, b, off, skip)
    requires forall p :: blocks[b].first + off <= p < blocks[b].first + off' && p < |bitmap| && p != skip ==> !bitmap[p]
    ensures Swept(blocks, bitmap, b0, off0, wrapped, b, off', skip)
  {
  }

  /** At the end of a block the scan goes on to the next, and from the last to the first. */
  lemma SweptBlock(blocks: seq<RamBlock>, bitmap: Bits, b0: nat, off0: nat, wrapped: bool, b: nat, skip: int)
    requires b0 < |blocks| && b < |blocks|
    requires Swept(blocks, bitmap, b0, off0, wrapped, b, blocks[b].pages, skip)
    ensures b + 1 < |blocks| ==> Swept(blocks, bitmap, b0, off0, wrapped, b + 1, 0, skip)
    ensures b + 1 == |blocks| && !wrapped ==> Swept(blocks, bitmap, b0, off0, true, 0, 0, skip)
  {
  }

  lemma SweptClear(blocks: seq<RamBlock>, bitmap: Bits, b0: nat, off0: nat, wrapped: bool,
                   b: nat, off: nat, skip: int, p: nat)
    requires b0 < |blocks| && b < |blocks| && p < |bitmap|
    requires Swept(blocks, bitmap, b0, off0, wrapped, b, off, skip)
    ensures Swept(blocks, bitmap[p := false], b0, off0, wrapped, b, off, skip)
  {
  }

  /** A completed round leaves no mark, except possibly on the page it skipped. */
  lemma RoundComplete(blocks: seq<RamBlock>, bitmap: Bits, b0: nat, off0: nat, off: nat, skip: int)
    requires b0 < |blocks| && off0 <= off
    requires Swept(blocks, bitmap, b0, off0, true, b0, off, skip)
    ensures forall p: nat :: p < |bitmap| && InRam(blocks, p) && p != skip ==> !bitmap[p]
  {
    forall p: nat | p < |bitmap| && InRam(blocks, p) && p != skip
      ensures !bitmap[p]
    {
      var c: nat :| c < |blocks| && InBlock(blocks[c], p);
      assert LookedAt(blocks, c, p, b0, off0, true, b0, off);
    }
  }

  /**
   How far a scan that started at (`b0`, `off0`) can have come.  One that started during the first
   pass only ever moves to the start of the next block, or wraps from the end of the last one.
   */
  ghost predicate OnItsWay(blocks: seq<RamBlock>, first: bool, startBulk: bool, bulk: bool,
                           b0: nat, off0: nat, wrapped: bool, b: nat, off: nat)
  {
    && b0 < |blocks| && off0 <= blocks[b0].pages && b < |blocks| && off <= blocks[b].pages
    && (bulk <==> startBulk && !wrapped)
    && (first ==> startBulk && !wrapped && b == b0 == off == off0 == 0)
    && (!wrapped ==> b0 <= b && (b == b0 ==> off0 <= off))
    && (wrapped ==> b <= b0 && (b == b0 ==> off <= off0))
    && (startBulk && !wrapped && !(b == b0 && off == off0) ==> b == b0 + 1 && off == 0)
    && (startBulk && (wrapped || b > b0) ==> off0 + 1 == blocks[b0].pages)
    && (startBulk && wrapped ==> b0 + 1 == |blocks|)
  }

  /** The bitmap and the cursor of a scan between two pages. */
  ghost predicate ScanState(blocks: seq<RamBlock>, bitmap: Bits, first: bool, startBulk: bool, bulk: bool,
                            b0: nat, off0: nat, skip: int, wrapped: bool, b: nat, off: nat)
  {
    && OnItsWay(blocks, first, startBulk, bulk, b0, off0, wrapped, b, off)
    && (forall c :: 0 <= c < |blocks| ==> blocks[c].first + blocks[c].pages <= |bitmap|)
    && Swept(blocks, bitmap, b0, off0, wrapped, b, off, skip)
    && skip == (if startBulk && off0 > 0 then blocks[b0].first + off0 else -1)
    && (startBulk ==> off0 < blocks[b0].pages && AheadMarked(blocks, bitmap, b0, off0))
    && (first ==> bitmap[blocks[0].first])
  }

  /** In the first pass the page after the cursor is marked. */
  lemma NextMarked(blocks: seq<RamBlock>, bitmap: Bits, b: nat, off: nat)
    requires b < |blocks| && off + 1 < blocks[b].pages && blocks[b].first + blocks[b].pages <= |bitmap|
    requires AheadMarked(blocks, bitmap, b, off)
    ensures bitmap[blocks[b].first + off + 1]
  {
    assert InBlock(blocks[b], blocks[b].first + off + 1);
    assert !Behind(blocks, b, blocks[b].first + off + 1, b, off + 1);
  }

  /** In the first pass a search from the start of a block ahead finds its first page. */
  lemma FirstMarked(blocks: seq<RamBlock>, bitmap: Bits, b0: nat, off0: nat, b: nat)
    requires b0 < b < |blocks| && 0 < blocks[b].pages && blocks[b].first + blocks[b].pages <= |bitmap|
    requires AheadMarked(blocks, bitmap, b0, off0)
    ensures bitmap[blocks[b].first]
  {
    assert InBlock(blocks[b], blocks[b].first);
    assert !Behind(blocks, b, blocks[b].first, b0, off0 + 1);
  }

  /** What has been learnt once a scan has looked at `[off, off')` of the current block. */
  lemma Looked(blocks: seq<RamBlock>, bitmap: Bits, first: bool, startBulk: bool, bulk: bool,
               b0: nat, off0: nat, skip: int, wrapped: bool, b: nat, off: nat, off': nat)
    requires ValidBlocks(blocks)
    requires ScanState(blocks, bitmap, first, startBulk, bulk, b0, off0, skip, wrapped, b, off)
    requires off <= off' <= blocks[b].pages
    requires bulk && off > 0 ==> off' == off + 1
    requires !(bulk && off > 0) ==> forall p :: blocks[b].first + off <= p < blocks[b].first + off' ==> !bitmap[p]
    ensures Swept(blocks, bitmap, b0, off0, wrapped, b, off', skip)
    ensures off' == blocks[b].pages ==>
              !first && (startBulk && !wrapped ==> b == b0 && off0 + 1 == blocks[b0].pages)
  {
    assert ValidBlock(blocks[b]);
    hide Swept;
    hide AheadMarked;
    hide ValidBlocks;
    if startBulk && !wrapped && off == 0 && b > b0 {
      FirstMarked(blocks, bitmap, b0, off0, b);
    }
    if startBulk && !wrapped && off == 0 && b == b0 && blocks[b].pages > 1 {
      NextMarked(blocks, bitmap, b, 0);
    }
    SweptOn(blocks, bitmap, b0, off0, wrapped, b, off, off', skip);
  }

  lemma TakesMark(blocks: seq<RamBlock>, bitmap: Bits, first: bool, startBulk: bool, bulk: bool,
                  b0: nat, off0: nat, skip: int, wrapped: bool, b: nat, off: nat, off': nat)
    requires ScanState(blocks, bitmap, first, startBulk, bulk, b0, off0, skip, wrapped, b, off)
    requires off <= off' < blocks[b].pages && bitmap[blocks[b].first + off']
    requires !(bulk && off > 0) ==> forall p :: blocks[b].first + off <= p < blocks[b].first + off' ==> !bitmap[p]
    ensures Taken(blocks, bitmap, bitmap[blocks[b].first + off' := false], first, startBulk, bulk, b0, off0, b, off')
  {
    hide Swept;
    hide AheadMarked;
  }

  /** Pages ahead of a later place are ahead of an earlier one. */
  lemma AheadLater(blocks: seq<RamBlock>, bitmap: Bits, b0: nat, off0: nat, b: nat, off: nat, p: nat)
    requires ValidBlocks(blocks) && b0 <= b < |blocks| && (b == b0 ==> off0 <= off) && off < blocks[b].pages
    requires AheadMarked(blocks, bitmap, b0, off0) && p == blocks[b].first + off < |bitmap|
    ensures AheadMarked(blocks, bitmap[p := false], b, off)
  {
    forall c: nat, q: nat | c < |blocks| && InBlock(blocks[c], q) && q < |bitmap| && !Behind(blocks, c, q, b, off + 1)
      ensures bitmap[p := false][q]
    {
      assert !Behind(blocks, c, q, b0, off0 + 1);
      if q == p && c != b {
        assert Apart(blocks[c], blocks[b]);
      }
    }
  }

  lemma AllMarked(blocks: seq<RamBlock>, bitmap: Bits)
    requires ValidBlocks(blocks) && blocks[0].first < |bitmap|
    requires forall p :: 0 <= p < |bitmap| && InRam(blocks, p) ==> bitmap[p]
    ensures AheadMarked(blocks, bitmap, 0, 0) && bitmap[blocks[0].first] && blocks[0].pages > 0
  {
    assert ValidBlock(blocks[0]) && InBlock(blocks[0], blocks[0].first);
  }

  /**
   The scan has come full circle.  Either nothing is marked any more, or the one page that is was
   skipped at the start, and its mark has now been taken off although nobody looked at it.
   */
  lemma RoundOver(blocks: seq<RamBlock>, startBulk: bool, bitmap: Bits, b0: nat, off0: nat, off: nat, off': nat, skip: int)
    requires ValidBlocks(blocks) && b0 < |blocks| && off <= off0 <= off' <= blocks[b0].pages
    requires blocks[b0].first + blocks[b0].pages <= |bitmap|
    requires Swept(blocks, bitmap, b0, off0, true, b0, off', skip)
    requires forall p :: blocks[b0].first + off <= p < blocks[b0].first + off' ==> !bitmap[p]
    requires off' < blocks[b0].pages ==> bitmap[blocks[b0].first + off']
    requires skip == (if startBulk && off0 > 0 then blocks[b0].first + off0 else -1)
    requires startBulk ==> b0 + 1 == |blocks| && off0 + 1 == blocks[b0].pages
    ensures off' == blocks[b0].pages ==> forall p: nat :: p < |bitmap| && InRam(blocks, p) ==> !bitmap[p]
    ensures off' < blocks[b0].pages ==>
              && startBulk && blocks[b0].first + off' == LastPage(blocks)
              && Forgets(blocks, bitmap, startBulk, Some(b0), off0)
              && forall p: nat :: p < |bitmap| && InRam(blocks, p) ==> !bitmap[blocks[b0].first + off' := false][p]
  {
    RoundComplete(blocks, bitmap, b0, off0, off', skip);
    if off' < blocks[b0].pages {
      assert InBlock(blocks[b0], blocks[b0].first + off');
      assert InRam(blocks, blocks[b0].first + off');
    }
  }

  /** While `Forgets` holds, no page is ever found to send. */
  lemma NothingFound(blocks: seq<RamBlock>, startBulk: bool, bitmap: Bits, lastSeen: Option<nat>,
                     b0: nat, off0: nat, wrapped: bool, b: nat, off: nat)
    requires ValidBlocks(blocks) && b0 < |blocks| && b < |blocks| && off < blocks[b].pages
    requires blocks[b].first + off < |bitmap| && bitmap[blocks[b].first + off]
    requires !wrapped ==> b0 <= b && (startBulk && b == b0 && off0 > 0 ==> off > off0)
    requires wrapped ==> b <= b0 && (b == b0 ==> off < off0)
    requires lastSeen.Some? ==> lastSeen == Some(b0)
    ensures !Forgets(blocks, bitmap, startBulk, lastSeen, off0)
  {
    var p := blocks[b].first + off;
    assert InBlock(blocks[b], p);
    assert InRam(blocks, p);
    if b != |blocks| - 1 {
      assert Apart(blocks[b], blocks[|blocks| - 1]);
      assert ValidBlock(blocks[|blocks| - 1]);
    }
  }

  lemma CacheTakeMark(cache: seq<Slot>, dest: seq<Page>, bitmap: Bits, lastStage: bool, at: nat)
    requires CacheAgrees(cache, dest, bitmap, lastStage, -1) && at < |bitmap| && bitmap[at]
    ensures CacheAgrees(cache, dest, bitmap[at := false], lastStage, -1)
    ensures CacheAgrees(cache, dest, bitmap[at := false], lastStage, at)
  {
  }

  /** Taking the mark off a page the destination now has keeps every page covered. */
  lemma CoveredOn(ram: seq<Page>, dest: seq<Page>, bitmap: Bits, log: Bits, at: nat, blocks: seq<RamBlock>,
                  ram': seq<Page>, dest': seq<Page>, log': Bits, p: int)
    requires |ram| == |dest| == |bitmap| == |log| == |dest'| && at < |ram|
    requires GuestRan(blocks, ram, log, ram', log')
    requires forall q :: 0 <= q < |dest| && q != at ==> dest'[q] == dest[q]
    requires dest'[at] == ram'[at] || log'[at]
    requires Covered(ram, dest, bitmap, log, p)
    ensures Covered(ram', dest', bitmap[at := false], log', p)
  {
  }

  lemma CoveredElsewhere(ram: seq<Page>, dest: seq<Page>, bitmap: Bits, log: Bits, at: nat, p: int)
    requires |ram| == |dest| == |bitmap| == |log| && at < |ram| && p != at
    requires Covered(ram, dest, bitmap, log, p)
    ensures Covered(ram, dest, bitmap[at := false], log, p)
  {
  }

  /** The state in which a scan starts. */
  datatype ScanStart = ScanStart(bitmap: Bits, bulk: bool, lastSeen: Option<nat>, lastOffset: nat)

  /** One of these scans started where `LastPage` is forgotten. */
  ghost predicate SomeForgot(blocks: seq<RamBlock>, scans: seq<ScanStart>)
  {
    exists i :: 0 <= i < |scans| &&
      Forgets(blocks, scans[i].bitmap, scans[i].bulk, scans[i].lastSeen, scans[i].lastOffset)
  }

  lemma ForgotBefore(blocks: seq<RamBlock>, scans: seq<ScanStart>, more: seq<ScanStart>)
    requires scans <= more && SomeForgot(blocks, scans)
    ensures SomeForgot(blocks, more)
  {
    hide Forgets;
  }

  lemma ForgotNow(blocks: seq<RamBlock>, scans: seq<ScanStart>, s: ScanStart)
    requires Forgets(blocks, s.bitmap, s.bulk, s.lastSeen, s.lastOffset)
    ensures SomeForgot(blocks, scans + [s])
  {
    hide Forgets;
    assert (scans + [s])[|scans|] == s;
  }

  /** Every RAM page is covered, except possibly a lost `LastPage`. */
  ghost predicate AllCovered(blocks: seq<RamBlock>, m: Moment, lost: bool)
  {
    forall p :: 0 <= p < |m.ram| && InRam(blocks, p) && !(lost && p == LastPage(blocks)) ==>
      Covered(m.ram, m.dest.ram, m.bitmap, m.log, p)
  }

  lemma AllCoveredKept(blocks: seq<RamBlock>, s: Moment, t: Moment, running: bool, lost: bool)
    requires AllCovered(blocks, s, lost) && Kept(blocks, s, t, running, false, 0)
    ensures AllCovered(blocks, t, lost)
  {
    hide Covered, InRam, LastPage;
  }

  lemma AllCoveredOn(blocks: seq<RamBlock>, s: Moment, t: Moment, running: bool, lost: bool, more: bool)
    requires AllCovered(blocks, s, lost) && Upheld(blocks, s, t, running, more)
    ensures AllCovered(blocks, t, lost || more)
  {
    hide Covered;
    hide InRam;
    hide LastPage;
  }

  /** One turn of the migration thread: it merges the log if less than `maxSize` bytes are left, then sends up to `budget` pages. */
  datatype Turn = Turn(maxSize: nat, budget: nat)

  class Source {
    const blocks: seq<RamBlock>
    /** Number of pages the bitmaps have room for; a whole number of words. */
    const size: nat
    const useXbzrle: bool
    /** What the guest does each time it gets to run, and whether each allocation succeeds. */
    const guest: nat -> seq<GuestWrite>
    const memory: nat -> bool

    var clock: nat
    var running: bool
    var ram: seq<Page>
    var log: Bits

    var bitmap: Bits
    var dirtyPages: nat
    var lastSeen: Option<nat>
    var lastSent: Option<nat>
    var lastOffset: nat
    var bulk: bool
    var cache: seq<Slot>
    var stream: seq<Byte>

    /** The receiver as it started, and as it is after what has been sent. */
    ghost const dest0: Receiver
    ghost var dest: Receiver
    /** The records sent so far: in closed sections, and in the section being written. */
    ghost var sections: seq<seq<Record>>
    ghost var open: seq<Record>
    /** Where the scans of this migration started. */
    ghost var scans: seq<ScanStart>

    ghost function Start(): ScanStart
      reads `bitmap, `bulk, `lastSeen, `lastOffset
    {
      ScanStart(bitmap, bulk, lastSeen, lastOffset)
    }

    // -------------------------------------------------------------- invariants

    ghost predicate ValidLists()
      reads `ram, `log, `bitmap, `dest, `cache
    {
      && ValidBlocks(blocks)
      && (forall b :: 0 <= b < |blocks| ==> blocks[b].first + blocks[b].pages <= size)
      && size % BITS == 0
      && |ram| == |log| == |bitmap| == |dest.ram| == |dest0.ram| == size
      && (forall p :: 0 <= p < size && log[p] ==> InRam(blocks, p))
      && ValidCache(cache, size) && (!useXbzrle ==> NothingCached(cache))
      && Fits(blocks, dest)
    }

    /** The bytes on the wire are the records, and loading them gives `dest`. */
    ghost predicate Linked()
      reads `stream, `dest, `sections, `open
    {
      && ValidBlocks(blocks) && Fits(blocks, dest0) && Fits(blocks, dest)
      && (forall k :: 0 <= k < |sections| ==> NamesBlocks(blocks, sections[k]))
      && NamesBlocks(blocks, open)
      && ApplySections(blocks, dest0, sections).Some?
      && ApplyAll(blocks, ApplySections(blocks, dest0, sections).value, open) == Some(dest)
      && stream == StreamBytes(blocks, sections) + RecordsBytes(blocks, open)
    }

    constructor (blocks: seq<RamBlock>, size: nat, useXbzrle: bool, slots: nat, guest: nat -> seq<GuestWrite>,
                 memory: nat -> bool, ram: seq<Page>, log: Bits, ghost dest: Receiver)
      requires ValidBlocks(blocks) && size % BITS == 0 && slots > 0 && Fits(blocks, dest)
      requires forall b :: 0 <= b < |blocks| ==> blocks[b].first + blocks[b].pages <= size
      requires |ram| == |log| == |dest.ram| == size
      requires forall p :: 0 <= p < size && log[p] ==> InRam(blocks, p)
      ensures this.blocks == blocks && this.size == size && this.ram == ram && this.log == log
      ensures this.dest == dest && dest0 == dest && running
      ensures ValidLists() && NothingCached(cache)
    {
      this.blocks, this.size, this.useXbzrle := blocks, size, useXbzrle;
      this.guest, this.memory := guest, memory;
      this.ram, this.log, clock, running := ram, log, 0, true;
      this.bitmap, dirtyPages := seq(size, _ => false), 0;
      lastSeen, lastSent, lastOffset, bulk := None, None, 0, true;
      cache := seq(slots, _ => Empty);
      stream := [];
      this.dest, dest0, sections, open, scans := dest, dest, [], [], [];
    }

    /** vm_stop and vm_start */
    method SetRunning(on: bool)
      modifies `running
      ensures running == on && (old(Valid(false)) ==> Valid(false))
    {
      running := on;
    }

    // -------------------------------------------------------------- the guest

    /** Lets the guest run for a while, unless it is stopped. */
    method GuestRuns()
      requires ValidLists()
      modifies `ram, `log, `clock
      ensures ValidLists()
      ensures GuestRan(blocks, old(ram), old(log), ram, log)
      ensures !running ==> ram == old(ram) && log == old(log) && clock == old(clock)
      ensures running ==> clock == old(clock) + 1 && ram == AfterStores(blocks, old(ram), guest(old(clock)))
    {
      hide AfterStores, InRam, ValidBlocks;
      if !running { return; }
      var writes := guest(clock);
      NoStores(blocks, ram);
      assert writes[..0] == [];
      clock := clock + 1;
      for i := 0 to |writes|
        invariant ValidLists()
        invariant GuestRan(blocks, old(ram), old(log), ram, log)
        invariant clock == old(clock) + 1 && ram == AfterStores(blocks, old(ram), writes[..i])
      {
        OneMoreStore(blocks, old(ram), writes, i);
        var inRam := IsRam(writes[i].page);
        if inRam {
          GuestStore(writes[i]);
        }
      }
      assert writes[..|writes|] == writes;
    }

    /** One store of the running guest. */
    method GuestStore(w: GuestWrite)
      requires ValidLists() && running && InRam(blocks, w.page) && w.page < size
      modifies `ram, `log
      ensures ValidLists() && (old(Valid(false)) ==> Valid(false))
      ensures ram == old(ram)[w.page := w.data] && log == old(log)[w.page := true]
    {
      ram := ram[w.page := w.data];
      log := log[w.page := true];
    }

    method IsRam(p: nat) returns (r: bool)
      requires ValidLists()
      ensures r <==> InRam(blocks, p)
      ensures r ==> p < size
    {
      r := exists b :: 0 <= b < |blocks| && blocks[b].first <= p < blocks[b].first + blocks[b].pages;
    }

    // -------------------------------------------------------------- the wire

    /** Puts a record on the wire; the receiver will read it as meant. */
    method Emit(r: Record) returns (bytes: nat)
      requires Linked() && Acceptable(blocks, dest, r)
      modifies `stream, `dest, `open
      ensures Linked() && dest == Apply(blocks, old(dest), r).value
      ensures bytes > 0 && |stream| == |old(stream)| + bytes
    {
      hide StreamBytes;
      hide RecordsBytes;
      hide ApplyAll;
      hide ApplySections;
      RecordsAppend(blocks, ApplySections(blocks, dest0, sections).value, open, dest, r);
      var sent := RecordBytes(blocks, r);
      stream := stream + sent;
      bytes := |sent|;
      open := open + [r];
      dest := Apply(blocks, dest, r).value;
    }

    // -------------------------------------------------------------- one page

    /** The common part of what sending a page needs and keeps. */
    ghost predicate Sending(b: nat, off: nat, lastStage: bool)
      reads this
    {
      && ValidLists() && Linked()
      && b < |blocks| && off < blocks[b].pages && !bitmap[blocks[b].first + off]
      && (lastStage ==> !running)
      && (lastSent.Some? ==> dest.block == lastSent)
    }

    /** cache_insert: fails only when the slot has no buffer yet and none can be allocated. */
    method CacheInsert(p: nat, data: Page) returns (ok: bool)
      requires ValidCache(cache, size) && p < size
      modifies `cache, `clock
      ensures ValidCache(cache, size) && |cache| == |old(cache)|
      ensures ok ==> cache == old(cache)[p % |cache| := Cached(p, data)]
      ensures !ok ==> cache == old(cache) && cache[p % |cache|].Empty?
    {
      var pos := p % |cache|;
      if cache[pos].Empty? {
        clock := clock + 1;
        if !memory(clock) {
          return false;
        }
      }
      cache := cache[pos := Cached(p, data)];
      return true;
    }

    /** What SaveXbzrlePage leaves to do. */
    ghost predicate Unsent(p: nat, live: bool, lastStage: bool)
      reads this
      requires ValidLists() && p < size
    {
      && (forall k :: 0 <= k < |cache| && cache[k].Cached? && cache[k].page != p &&
                      (lastStage ==> bitmap[cache[k].page]) ==>
            cache[k].data == dest.ram[cache[k].page])
      && (live && !lastStage ==> cache[p % |cache|] == Empty)
      && (!live ==> var slot := cache[p % |cache|];
                    slot.Cached? && slot.page == p && (slot.data == ram[p] || log[p]))
    }

    /**
     save_xbzrle_page.  0: the page is unchanged since the destination got it.  Positive: a delta
     was sent.  -1: the page must be sent in full, from guest memory (`live`) or from the cache.
     */
    method SaveXbzrlePage(b: nat, off: nat, cont: bool, lastStage: bool) returns (ret: int, live: bool)
      requires useXbzrle && Sending(b, off, lastStage)
      requires cont ==> dest.block == Some(b)
      requires CacheAgrees(cache, dest.ram, bitmap, lastStage, blocks[b].first + off)
      modifies `ram, `log, `clock, `cache, `stream, `dest, `open
      ensures ValidLists() && Linked() && GuestRan(blocks, old(ram), old(log), ram, log)
      ensures !running ==> ram == old(ram) && log == old(log)
      ensures -1 <= ret && |stream| == |old(stream)| + if ret > 0 then ret else 0
      ensures ret <= 0 ==> dest == old(dest) && stream == old(stream)
      ensures ret > 0 ==> dest.block == Some(b)
      ensures forall q :: 0 <= q < size && q != blocks[b].first + off ==> dest.ram[q] == old(dest.ram[q])
      ensures ret >= 0 ==>
                var p := blocks[b].first + off;
                && (dest.ram[p] == ram[p] || log[p])
                && CacheAgrees(cache, dest.ram, bitmap, lastStage, -1)
      ensures ret == -1 ==> Unsent(blocks[b].first + off, live, lastStage)
      ensures NothingCached(old(cache)) ==> ret == -1
    {
      hide AfterStores;
      hide Linked;
      hide Xbzrle.Encode;
      hide Xbzrle.Decode;
      hide Xbzrle.RoomNeeded;
      hide InRam;
      hide ValidBlocks;
      var p := blocks[b].first + off;
      live := true;
      var slot := cache[p % |cache|];
      if !(slot.Cached? && slot.page == p) {
        live := CacheMiss(p, lastStage);
        return -1, live;
      }
      GuestRuns();
      var current := ram[p];
      var buf := new Byte[PAGE_SIZE];
      var len := Xbzrle.EncodeBuffer(slot.data, current, buf);
      GuestRuns();
      if len == 0 {
        return 0, live;
      }
      if len == -1 {
        if !lastStage {
          cache := cache[p % |cache| := Cached(p, ram[p])];
          live := false;
        }
        return -1, live;
      }
      ret := SendDelta(b, off, cont, lastStage, slot.data, current, buf[..len]);
    }

    /** The page is not cached; before the last stage it takes a slot, unless memory is short. */
    method CacheMiss(p: nat, lastStage: bool) returns (live: bool)
      requires useXbzrle && ValidLists() && Linked() && p < size && (lastStage ==> !running)
      requires cache[p % |cache|].Cached? ==> cache[p % |cache|].page != p
      requires CacheAgrees(cache, dest.ram, bitmap, lastStage, p)
      modifies `ram, `log, `clock, `cache
      ensures ValidLists() && Linked() && GuestRan(blocks, old(ram), old(log), ram, log)
      ensures !running ==> ram == old(ram) && log == old(log)
      ensures Unsent(p, live, lastStage)
    {
      hide AfterStores;
      hide Linked;
      hide InRam;
      live := true;
      if !lastStage {
        GuestRuns();
        var ok := CacheInsert(p, ram[p]);
        live := !ok;
      }
    }

    /** Sends the delta that turns the destination's copy into `current`. */
    method SendDelta(b: nat, off: nat, cont: bool, lastStage: bool, prev: Page, current: Page, enc: seq<Byte>)
      returns (bytes: nat)
      requires useXbzrle && Sending(b, off, lastStage)
      requires cont ==> dest.block == Some(b)
      requires CacheAgrees(cache, dest.ram, bitmap, lastStage, blocks[b].first + off)
      requires var p := blocks[b].first + off; cache[p % |cache|] == Cached(p, prev)
      requires enc == Xbzrle.Encode(prev, current, 0) && |enc| <= PAGE_SIZE
      modifies `cache, `stream, `dest, `open
      ensures ValidLists() && Linked()
      ensures bytes > 0 && |stream| == |old(stream)| + bytes
      ensures dest == Receiver(old(dest.ram)[blocks[b].first + off := current], Some(b))
      ensures CacheAgrees(cache, dest.ram, bitmap, lastStage, -1)
    {
      hide Linked;
      hide Xbzrle.Encode;
      hide Xbzrle.Decode;
      hide InRam;
      var p := blocks[b].first + off;
      Xbzrle.RoundTrip(prev, current);
      bytes := Emit(Record(b, off, cont, Delta(enc)));
      if !lastStage {
        cache := cache[p % |cache| := Cached(p, current)];
      }
    }

    /**
     ram_save_page: sends the page as zero, as a delta or in full, or finds that the destination
     already has it.  Whatever the guest does meanwhile, afterwards the destination has the page
     or the page is in the dirty log.
     */
    method SavePage(b: nat, off: nat, lastStage: bool) returns (bytes: nat)
      requires Sending(b, off, lastStage)
      requires CacheAgrees(cache, dest.ram, bitmap, lastStage, blocks[b].first + off)
      requires bulk ==> NothingCached(cache)
      modifies `ram, `log, `clock, `cache, `stream, `dest, `open
      ensures ValidLists() && Linked() && GuestRan(blocks, old(ram), old(log), ram, log)
      ensures !running ==> ram == old(ram) && log == old(log)
      ensures |stream| == |old(stream)| + bytes
      ensures bytes == 0 ==> dest == old(dest) && stream == old(stream)
      ensures bytes > 0 ==> dest.block == Some(b)
      ensures forall q :: 0 <= q < size && q != blocks[b].first + off ==> dest.ram[q] == old(dest.ram[q])
      ensures var p := blocks[b].first + off; dest.ram[p] == ram[p] || log[p]
      ensures CacheAgrees(cache, dest.ram, bitmap, lastStage, -1)
      ensures NothingCached(old(cache)) ==> bytes > 0
      ensures bulk ==> cache == old(cache)
    {
      hide AfterStores;
      hide Linked;
      hide InRam;
      hide GuestRan;
      hide ValidBlocks;
      var p := blocks[b].first + off;
      var cont := lastSent == Some(b);
      GuestRuns();
      ghost var ram1, log1 := ram, log;
      if ram[p] == ZERO_PAGE {
        bytes := SaveZeroPage(b, off, cont, lastStage);
      } else if !bulk && useXbzrle {
        var ret, live := SaveXbzrlePage(b, off, cont, lastStage);
        if ret == -1 {
          ghost var ram2, log2 := ram, log;
          bytes := SaveFullPage(b, off, cont, lastStage, live);
          GuestRanTwice(blocks, ram1, log1, ram2, log2, ram, log);
        } else {
          bytes := ret;
        }
      } else {
        bytes := SaveFullPage(b, off, cont, lastStage, true);
      }
      GuestRanTwice(blocks, old(ram), old(log), ram1, log1, ram, log);
    }

    /** A page of zeros; a cached older copy is replaced (xbzrle_cache_zero_page). */
    method SaveZeroPage(b: nat, off: nat, cont: bool, lastStage: bool) returns (bytes: nat)
      requires Sending(b, off, lastStage) && ram[blocks[b].first + off] == ZERO_PAGE
      requires cont ==> dest.block == Some(b)
      requires CacheAgrees(cache, dest.ram, bitmap, lastStage, blocks[b].first + off)
      requires bulk ==> NothingCached(cache)
      modifies `ram, `log, `clock, `cache, `stream, `dest, `open
      ensures ValidLists() && Linked() && GuestRan(blocks, old(ram), old(log), ram, log)
      ensures !running ==> ram == old(ram) && log == old(log)
      ensures bytes > 0 && |stream| == |old(stream)| + bytes
      ensures dest == Receiver(old(dest.ram)[blocks[b].first + off := ZERO_PAGE], Some(b))
      ensures var p := blocks[b].first + off; dest.ram[p] == ram[p] || log[p]
      ensures CacheAgrees(cache, dest.ram, bitmap, lastStage, -1)
      ensures bulk ==> cache == old(cache)
    {
      hide AfterStores;
      hide Linked;
      hide InRam;
      hide ValidBlocks;
      bytes := Emit(Record(b, off, cont, Zero));
      GuestRuns();
      if !(bulk || !useXbzrle) {
        var _ := CacheInsert(blocks[b].first + off, ZERO_PAGE);
      }
    }

    /** The whole page, from guest memory as it is when it is read or from the cache. */
    method SaveFullPage(b: nat, off: nat, cont: bool, lastStage: bool, live: bool) returns (bytes: nat)
      requires Sending(b, off, lastStage)
      requires cont ==> dest.block == Some(b)
      requires Unsent(blocks[b].first + off, live, lastStage)
      modifies `ram, `log, `clock, `stream, `dest, `open
      ensures ValidLists() && Linked() && GuestRan(blocks, old(ram), old(log), ram, log)
      ensures !running ==> ram == old(ram) && log == old(log)
      ensures bytes > 0 && |stream| == |old(stream)| + bytes
      ensures dest.block == Some(b)
      ensures forall q :: 0 <= q < size && q != blocks[b].first + off ==> dest.ram[q] == old(dest.ram[q])
      ensures var p := blocks[b].first + off; dest.ram[p] == ram[p] || log[p]
      ensures CacheAgrees(cache, dest.ram, bitmap, lastStage, -1)
    {
      hide AfterStores;
      hide Linked;
      hide InRam;
      hide ValidBlocks;
      var p := blocks[b].first + off;
      GuestRuns();
      var data := if live then ram[p] else cache[p % |cache|].data;
      bytes := Emit(Record(b, off, cont, Full(data)));
      GuestRuns();
    }

    // -------------------------------------------------------------- the scan

    ghost predicate Counted()
      reads `bitmap, `dirtyPages
    {
      size <= |bitmap| && dirtyPages == Dirty(blocks, bitmap, size)
    }

    /** Where the scan stands; during the first pass everything ahead is marked and nothing cached. */
    ghost predicate ValidCursor()
      reads `lastSeen, `lastOffset, `bulk, `bitmap, `cache
    {
      match lastSeen
      case None =>
        && bulk && lastOffset == 0 && NothingCached(cache)
        && forall p :: 0 <= p < |bitmap| && InRam(blocks, p) ==> bitmap[p]
      case Some(b) =>
        && b < |blocks| && lastOffset <= blocks[b].pages
        && (bulk ==>
              && lastOffset < blocks[b].pages
              && AheadMarked(blocks, bitmap, b, lastOffset)
              && NothingCached(cache))
    }

    ghost predicate Valid(lastStage: bool)
      reads `ram, `log, `bitmap, `dest, `cache, `stream, `sections, `open, `dirtyPages, `lastSent, `running,
            `bulk, `lastSeen, `lastOffset
    {
      && ValidLists() && Linked() && Counted() && ValidCursor()
      && (lastSent.Some? ==> dest.block == lastSent)
      && CacheAgrees(cache, dest.ram, bitmap, lastStage, -1)
      && (lastStage ==> !running)
    }

    /** migration_bitmap_find_and_reset_dirty: the first pass takes the next page without looking. */
    method FindAndReset(b: nat, start: nat) returns (off: nat)
      requires ValidLists() && Counted() && b < |blocks| && start <= blocks[b].pages
      requires bulk && start > 0 ==> start < blocks[b].pages
      requires bulk && start > 0 && start + 1 < blocks[b].pages ==> bitmap[blocks[b].first + start + 1]
      modifies `bitmap, `dirtyPages
      ensures ValidLists() && Counted() && start <= off <= blocks[b].pages
      ensures bulk && start > 0 ==> off == start + 1
      ensures !(bulk && start > 0) ==>
                forall p :: blocks[b].first + start <= p < blocks[b].first + off ==> !old(bitmap)[p]
      ensures off == blocks[b].pages ==> bitmap == old(bitmap) && dirtyPages == old(dirtyPages)
      ensures off < blocks[b].pages ==>
                && old(bitmap)[blocks[b].first + off]
                && bitmap == old(bitmap)[blocks[b].first + off := false]
                && dirtyPages + 1 == old(dirtyPages)
    {
      var base := blocks[b].first;
      var end := base + blocks[b].pages;
      var next;
      if bulk && start > 0 {
        next := base + start + 1;
      } else {
        next := FindNextBit(bitmap, end, base + start);
      }
      if next < end {
        assert InBlock(blocks[b], next);
        DirtyClear(blocks, bitmap, next, size);
        bitmap := bitmap[next := false];
        dirtyPages := dirtyPages - 1;
      }
      off := next - base;
    }

    /** The state of a scan between two pages. */
    ghost predicate Scanning(b0: nat, off0: nat, startBulk: bool, skip: int,
                             wrapped: bool, b: nat, off: nat, lastStage: bool)
      reads `ram, `log, `bitmap, `dest, `cache, `stream, `sections, `open, `dirtyPages, `lastSent, `running,
            `bulk, `lastSeen, `lastOffset
    {
      && Keeping(lastStage)
      && CacheAgrees(cache, dest.ram, bitmap, lastStage, -1)
      && lastOffset == off0 && (lastSeen.Some? ==> lastSeen == Some(b0))
      && (startBulk ==> NothingCached(cache))
      && ScanState(blocks, bitmap, lastSeen.None?, startBulk, bulk, b0, off0, skip, wrapped, b, off)
    }

    /** What every part of a scan keeps. */
    ghost predicate Keeping(lastStage: bool)
      reads `ram, `log, `bitmap, `dest, `cache, `stream, `sections, `open, `dirtyPages, `lastSent, `running
    {
      && ValidLists() && Linked() && Counted()
      && (lastSent.Some? ==> dest.block == lastSent)
      && (lastStage ==> !running)
    }

    /** The scan has taken the mark off page `off` of block `b`; `bitmap1` is the bitmap before. */
    ghost predicate Found(b0: nat, off0: nat, startBulk: bool, bitmap1: Bits, skip: int,
                          wrapped: bool, b: nat, off: nat, lastStage: bool)
      reads this
    {
      && Keeping(lastStage)
      && b0 < |blocks| && b < |blocks| && off < blocks[b].pages
      && |bitmap1| == size && bitmap1[blocks[b].first + off]
      && bitmap == bitmap1[blocks[b].first + off := false]
      && CacheAgrees(cache, dest.ram, bitmap, lastStage, blocks[b].first + off)
      && lastOffset == off0 && (lastSeen.Some? ==> lastSeen == Some(b0))
      && off0 <= blocks[b0].pages
      && (bulk <==> startBulk && !wrapped) && (lastSeen.None? ==> startBulk)
      && (!wrapped ==> b0 <= b && (b == b0 ==> off0 <= off))
      && (wrapped ==> b <= b0 && (b == b0 ==> off < off0))
      && Swept(blocks, bitmap1, b0, off0, wrapped, b, off, skip)
      && skip == (if startBulk && off0 > 0 then blocks[b0].first + off0 else -1)
      && (startBulk ==> NothingCached(cache) && AheadMarked(blocks, bitmap1, b0, off0))
    }

    /** The scan may stop at page `off` of block `b`. */
    ghost predicate MayStop(b: nat, off: nat, lastStage: bool)
      reads `ram, `log, `bitmap, `dest, `cache, `stream, `sections, `open, `dirtyPages, `lastSent, `running, `bulk
    {
      && Keeping(lastStage)
      && CacheAgrees(cache, dest.ram, bitmap, lastStage, -1)
      && b < |blocks| && off <= blocks[b].pages
      && (bulk ==> off < blocks[b].pages && AheadMarked(blocks, bitmap, b, off) && NothingCached(cache))
    }

    ghost function Now(): Moment
      reads `ram, `log, `dest, `bitmap, `dirtyPages, `stream
    {
      Moment(ram, log, dest, bitmap, dirtyPages, |stream|)
    }

    /** Sends the page the scan has found; an unchanged page lets the scan go on. */
    method SendFound(ghost b0: nat, ghost off0: nat, ghost startBulk: bool, ghost bitmap1: Bits, ghost skip: int,
                     ghost wrapped: bool, b: nat, off: nat, lastStage: bool) returns (bytes: nat)
      requires Found(b0, off0, startBulk, bitmap1, skip, wrapped, b, off, lastStage)
      modifies `ram, `log, `clock, `cache, `stream, `dest, `open, `lastSent
      ensures bytes == 0 ==> Scanning(b0, off0, startBulk, skip, wrapped, b, off, lastStage) && !startBulk
      ensures bytes > 0 ==> MayStop(b, off, lastStage)
      ensures Kept(blocks, old(Now()).(bitmap := bitmap1, dirty := dirtyPages + 1), Now(), running, false, bytes)
    {
      hide Linked;
      hide Dirty;
      hide InRam;
      hide ValidBlocks;
      hide GuestRan;
      hide Swept;
      hide Covered;
      hide LastPage;
      bytes := SavePage(b, off, lastStage);
      forall p | Covered(old(ram), old(dest.ram), bitmap1, old(log), p)
        ensures Covered(ram, dest.ram, bitmap, log, p)
      {
        CoveredOn(old(ram), old(dest.ram), bitmap1, old(log), blocks[b].first + off, blocks, ram, dest.ram, log, p);
      }
      if bytes > 0 {
        lastSent := Some(b);
        if bulk {
          AheadLater(blocks, bitmap1, b0, off0, b, off, blocks[b].first + off);
        }
      } else {
        SweptClear(blocks, bitmap1, b0, off0, wrapped, b, off, skip, blocks[b].first + off);
      }
    }

    /** Looking for the next marked page of the current block, and taking its mark off. */
    method TakeMark(ghost b0: nat, ghost off0: nat, ghost startBulk: bool, ghost skip: int,
                    ghost wrapped: bool, b: nat, off: nat, ghost lastStage: bool) returns (off': nat)
      requires Scanning(b0, off0, startBulk, skip, wrapped, b, off, lastStage)
      modifies `bitmap, `dirtyPages
      ensures ValidLists() && Counted() && off <= off' <= blocks[b].pages
      ensures Swept(blocks, old(bitmap), b0, off0, wrapped, b, off', skip)
      ensures !(bulk && off > 0) ==> forall p :: blocks[b].first + off <= p < blocks[b].first + off' ==> !old(bitmap)[p]
      ensures bulk && off > 0 ==> off' == off + 1
      ensures off' == blocks[b].pages ==>
                && bitmap == old(bitmap) && dirtyPages == old(dirtyPages) && lastSeen.Some?
                && (startBulk && !wrapped ==> b == b0 && off0 + 1 == blocks[b0].pages)
      ensures off' < blocks[b].pages ==>
                && old(bitmap)[blocks[b].first + off']
                && bitmap == old(bitmap)[blocks[b].first + off' := false]
                && dirtyPages + 1 == old(dirtyPages)
    {
      hide Linked;
      hide Dirty;
      hide Swept;
      hide InRam;
      hide ValidBlocks;
      hide CacheAgrees;
      hide AheadMarked;
      if bulk && off > 0 && off + 1 < blocks[b].pages {
        NextMarked(blocks, bitmap, b, off);
      }
      off' := FindAndReset(b, off);
      Looked(blocks, old(bitmap), lastSeen.None?, startBulk, bulk, b0, off0, skip, wrapped, b, off, off');
    }

    /** The scan found a page it may send. */
    lemma FoundOne(b0: nat, off0: nat, startBulk: bool, bitmap1: Bits, skip: int, first: bool,
                   wrapped: bool, b: nat, off: nat, off': nat, lastStage: bool)
      requires Keeping(lastStage) && lastOffset == off0 && (lastSeen.Some? ==> lastSeen == Some(b0)) && first == lastSeen.None?
      requires |bitmap1| == size && (startBulk ==> NothingCached(cache))
      requires CacheAgrees(cache, dest.ram, bitmap1, lastStage, -1)
      requires ScanState(blocks, bitmap1, first, startBulk, bulk, b0, off0, skip, wrapped, b, off)
      requires off <= off' < blocks[b].pages && bitmap1[blocks[b].first + off']
      requires bitmap == bitmap1[blocks[b].first + off' := false]
      requires Swept(blocks, bitmap1, b0, off0, wrapped, b, off', skip)
      requires !(wrapped && lastSeen == Some(b) && off' >= lastOffset)
      ensures Found(b0, off0, startBulk, bitmap1, skip, wrapped, b, off', lastStage)
    {
      hide Linked;
      hide Dirty;
      hide Swept;
      hide InRam;
      hide ValidBlocks;
      hide AheadMarked;
      hide CacheAgrees;
      CacheTakeMark(cache, dest.ram, bitmap1, lastStage, blocks[b].first + off');
    }

    /** The current block is exhausted; wrapping to the first block ends the first pass. */
    method NextBlock(ghost b0: nat, ghost off0: nat, ghost startBulk: bool, ghost skip: int,
                     wrapped: bool, b: nat, ghost off: nat, ghost lastStage: bool) returns (wrapped': bool, b': nat)
      requires Scanning(b0, off0, startBulk, skip, wrapped, b, off, lastStage)
      requires Swept(blocks, bitmap, b0, off0, wrapped, b, blocks[b].pages, skip)
      requires startBulk && !wrapped ==> b == b0 && off0 + 1 == blocks[b0].pages
      requires wrapped ==> lastSeen != Some(b)
      requires lastSeen.Some?
      modifies `bulk
      ensures Scanning(b0, off0, startBulk, skip, wrapped', b', 0, lastStage)
      ensures (wrapped' == wrapped && b' == b + 1) || (!wrapped && wrapped')
    {
      hide Linked;
      hide Dirty;
      hide Swept;
      hide InRam;
      hide ValidBlocks;
      SweptBlock(blocks, bitmap, b0, off0, wrapped, b, skip);
      wrapped', b' := wrapped, b + 1;
      if b' == |blocks| {
        b' := 0;
        wrapped' := true;
        bulk := false;
      }
    }

    /** The scan has come full circle. */
    lemma CameRound(b0: nat, off0: nat, startBulk: bool, bitmap1: Bits, dirty1: nat, skip: int,
                    b: nat, off: nat, off': nat, lastStage: bool)
      requires Keeping(lastStage) && lastSeen == Some(b) && lastOffset == off0 && b == b0
      requires |bitmap1| == size && CacheAgrees(cache, dest.ram, bitmap1, lastStage, -1)
      requires ScanState(blocks, bitmap1, false, startBulk, bulk, b0, off0, skip, true, b, off)
      requires off <= off' <= blocks[b].pages && off0 <= off' && dirtyPages <= dirty1
      requires Swept(blocks, bitmap1, b0, off0, true, b, off', skip)
      requires forall p :: blocks[b].first + off <= p < blocks[b].first + off' ==> !bitmap1[p]
      requires off' < blocks[b].pages ==> bitmap1[blocks[b].first + off'] && bitmap == bitmap1[blocks[b].first + off' := false]
      requires off' == blocks[b].pages ==> bitmap == bitmap1
      ensures MayStop(b, off', lastStage) && Unmarked(blocks, bitmap)
      ensures Kept(blocks, Now().(bitmap := bitmap1, dirty := dirty1), Now(), running,
                   startBulk && Forgets(blocks, bitmap1, startBulk, lastSeen, off0), 0)
    {
      hide Linked;
      hide Dirty;
      hide InRam;
      hide Swept;
      hide AheadMarked;
      hide CacheAgrees;
      hide Covered;
      hide Forgets;
      hide LastPage;
      hide GuestRan;
      GuestIdle(blocks, ram, log);
      RoundOver(blocks, startBulk, bitmap1, b0, off0, off, off', skip);
      if off' < blocks[b].pages {
        CacheTakeMark(cache, dest.ram, bitmap1, lastStage, blocks[b].first + off');
        forall p | p != LastPage(blocks) && Covered(ram, dest.ram, bitmap1, log, p)
          ensures Covered(ram, dest.ram, bitmap, log, p)
        {
          CoveredElsewhere(ram, dest.ram, bitmap1, log, LastPage(blocks), p);
        }
      }
    }

    /** One turn of the loop of ram_find_and_save_block. */
    method ScanStep(ghost b0: nat, ghost off0: nat, ghost startBulk: bool, ghost skip: int,
                    wrapped: bool, b: nat, off: nat, lastStage: bool)
      returns (stop: bool, wrapped': bool, b': nat, off': nat, bytes: nat)
      requires Scanning(b0, off0, startBulk, skip, wrapped, b, off, lastStage)
      modifies `ram, `log, `clock, `cache, `stream, `dest, `open, `bitmap, `dirtyPages, `lastSent, `bulk
      ensures !stop ==> Scanning(b0, off0, startBulk, skip, wrapped', b', off', lastStage) && bytes == 0
      ensures stop ==> MayStop(b', off', lastStage) && (bytes == 0 ==> Unmarked(blocks, bitmap))
      ensures bytes > 0 ==> Taken(blocks, old(bitmap), bitmap, lastSeen.None?, startBulk, bulk, b0, off0, b', off')
      ensures startBulk && !stop ==> bitmap == old(bitmap)
      ensures startBulk && stop && bytes == 0 ==> AtLastPage(blocks, lastSeen, off0)
      ensures !stop && dirtyPages == old(dirtyPages) ==>
                (!wrapped && wrapped') || (wrapped' == wrapped && b < b' < |blocks|)
      ensures Kept(blocks, old(Now()), Now(), running,
                   startBulk && Forgets(blocks, old(bitmap), startBulk, lastSeen, off0), bytes)
    {
      hide Linked, Dirty, InRam, Swept, AheadMarked, CacheAgrees, Forgets, Kept, Taken, Unmarked, NothingCached, LastPage;
      hide Found, MayStop, ValidBlocks;
      stop, wrapped', b', bytes := false, wrapped, b, 0;
      ghost var forgets := startBulk && Forgets(blocks, bitmap, startBulk, lastSeen, off0);
      KeptNothing(blocks, Now(), running, forgets);
      off' := TakeMark(b0, off0, startBulk, skip, wrapped, b, off, lastStage);
      if wrapped && lastSeen == Some(b) && off' >= lastOffset {
        CameRound(b0, off0, startBulk, old(bitmap), old(dirtyPages), skip, b, off, off', lastStage);
        stop := true;
      } else if off' >= blocks[b].pages {
        wrapped', b' := NextBlock(b0, off0, startBulk, skip, wrapped, b, off, lastStage);
        off' := 0;
      } else {
        FoundOne(b0, off0, startBulk, old(bitmap), skip, lastSeen.None?, wrapped, b, off, off', lastStage);
        NothingFound(blocks, startBulk, old(bitmap), lastSeen, b0, off0, wrapped, b, off');
        TakesMark(blocks, old(bitmap), lastSeen.None?, startBulk, bulk, b0, off0, skip, wrapped, b, off, off');
        bytes := SendFound(b0, off0, startBulk, old(bitmap), skip, wrapped, b, off', lastStage);
        stop := bytes > 0;
      }
    }

    lemma ScanBegins(b0: nat, off0: nat, startBulk: bool, skip: int, lastStage: bool, forgets: bool)
      requires Scanning(b0, off0, startBulk, skip, false, b0, off0, lastStage)
      ensures Kept(blocks, Now(), Now(), running, forgets, 0) && lastOffset == off0
    {
      KeptNothing(blocks, Now(), running, forgets);
    }

    /** The loop of ram_find_and_save_block. */
    method ScanLoop(ghost b0: nat, ghost off0: nat, ghost startBulk: bool, ghost skip: int, lastStage: bool)
      returns (b: nat, off: nat, bytes: nat)
      requires Scanning(b0, off0, startBulk, skip, false, b0, off0, lastStage)
      requires b0 == (if lastSeen.None? then 0 else lastSeen.value)
      modifies `ram, `log, `clock, `cache, `stream, `dest, `open, `bitmap, `dirtyPages, `lastSent, `bulk
      ensures MayStop(b, off, lastStage) && (bytes == 0 ==> Unmarked(blocks, bitmap))
      ensures startBulk && bytes == 0 ==> AtLastPage(blocks, lastSeen, off0)
      ensures bytes > 0 ==> Taken(blocks, if startBulk then old(bitmap) else [], bitmap, lastSeen.None?, startBulk, bulk, b0, off0, b, off)
      ensures Kept(blocks, old(Now()), Now(), running,
                   startBulk && Forgets(blocks, old(bitmap), startBulk, lastSeen, off0), bytes)
    {
      hide Scanning, MayStop, Taken, Unmarked, Forgets, AtLastPage, Covered, GuestRan, LastPage;
      ghost var forgets := startBulk && Forgets(blocks, bitmap, startBulk, lastSeen, off0);
      ScanBegins(b0, off0, startBulk, skip, lastStage, forgets);
      b, off, bytes := if lastSeen.None? then 0 else lastSeen.value, lastOffset, 0;
      var wrapped, stop := false, false;
      while !stop
        invariant !stop ==> Scanning(b0, off0, startBulk, skip, wrapped, b, off, lastStage) && bytes == 0
        invariant stop ==> MayStop(b, off, lastStage) && (bytes == 0 ==> Unmarked(blocks, bitmap))
        invariant bytes > 0 ==>
                    Taken(blocks, if startBulk then old(bitmap) else [], bitmap, lastSeen.None?, startBulk, bulk, b0, off0, b, off)
        invariant startBulk && !stop ==> bitmap == old(bitmap)
        invariant startBulk && stop && bytes == 0 ==> AtLastPage(blocks, lastSeen, off0)
        invariant Kept(blocks, old(Now()), Now(), running, forgets, bytes)
        decreases !stop, dirtyPages, if wrapped then 0 else 1, |blocks| - b
      {
        ghost var before := Now();
        stop, wrapped, b, off, bytes := ScanStep(b0, off0, startBulk, skip, wrapped, b, off, lastStage);
        KeptTwice(blocks, old(Now()), before, Now(), running, forgets, bytes);
        if bytes > 0 && !startBulk {
          TakenLater(blocks, before.bitmap, bitmap, lastSeen.None?, bulk, b0, off0, b, off);
        }
      }
    }

    /**
     ram_find_and_save_block.  Sends at least one marked page, or finds nothing left to send.

     Every covered page stays covered, whatever the guest does, with one exception: when
     `Forgets` holds at the start, the scan returns 0 having dropped the mark of `LastPage`.
     */
    method FindAndSaveBlock(lastStage: bool) returns (bytes: nat)
      requires Valid(lastStage)
      modifies `ram, `log, `clock, `cache, `stream, `dest, `open, `bitmap, `dirtyPages,
               `lastSeen, `lastSent, `lastOffset, `bulk, `scans
      ensures scans == old(scans) + [old(Start())]
      ensures Valid(lastStage) && (bytes == 0 ==> Unmarked(blocks, bitmap))
      ensures old(bulk) && bytes == 0 ==> AtLastPage(blocks, old(lastSeen), old(lastOffset))
      ensures bytes > 0 ==>
                lastSeen.Some? &&
                Taken(blocks, if old(bulk) then old(bitmap) else [], bitmap, old(lastSeen).None?, old(bulk), bulk,
                      if old(lastSeen).None? then 0 else old(lastSeen).value, old(lastOffset), lastSeen.value, lastOffset)
      ensures Kept(blocks, old(Now()), Now(), running,
                   Forgets(blocks, old(bitmap), old(bulk), old(lastSeen), old(lastOffset)), bytes)
    {
      hide *;
      scans := scans + [Start()];
      ghost var b0: nat := if lastSeen.None? then 0 else lastSeen.value;
      ghost var skip := StartScan(b0, lastStage);
      var b, off;
      b, off, bytes := ScanLoop(b0, lastOffset, bulk, skip, lastStage);
      lastSeen := Some(b);
      lastOffset := off;
      EndScan(b, off, lastStage);
    }

    lemma StartScan(b0: nat, lastStage: bool) returns (skip: int)
      requires Valid(lastStage) && b0 == (if lastSeen.None? then 0 else lastSeen.value)
      ensures Scanning(b0, lastOffset, bulk, skip, false, b0, lastOffset, lastStage)
      ensures Forgets(blocks, bitmap, bulk, lastSeen, lastOffset) ==> bulk
    {
      assert |blocks| > 0 && ValidBlock(blocks[0]);
      hide Linked;
      hide Dirty;
      hide InRam;
      hide Swept;
      hide AheadMarked;
      hide CacheAgrees;
      hide ValidBlocks;
      skip := if bulk && lastOffset > 0 then blocks[b0].first + lastOffset else -1;
      if lastSeen.None? {
        AllMarked(blocks, bitmap);
      }
      SweptNothing(blocks, bitmap, b0, lastOffset, skip);
    }

    lemma EndScan(b: nat, off: nat, lastStage: bool)
      requires MayStop(b, off, lastStage) && lastSeen == Some(b) && lastOffset == off
      ensures Valid(lastStage)
    {
      hide Linked;
      hide Dirty;
      hide InRam;
      hide AheadMarked;
      hide CacheAgrees;
      hide ValidBlocks;
    }

    // -------------------------------------------------------------- synchronising with the log

    /**
     migration_bitmap_sync: everything logged becomes marked, nothing is left in the log, and the
     count of marked pages stays exact.
     */
    method BitmapSync()
      requires Valid(false)
      modifies `bitmap, `log, `dirtyPages
      ensures Valid(false)
      ensures forall p :: 0 <= p < size ==> bitmap[p] == (old(bitmap)[p] || old(log)[p]) && !log[p]
    {
      hide Linked;
      hide Dirty;
      hide CacheAgrees;
      ghost var bitmap0 := bitmap;
      for k := 0 to |blocks|
        invariant ValidLists() && Counted()
        invariant forall p :: 0 <= p < size ==> (bitmap[p] || log[p] <==> old(bitmap)[p] || old(log)[p])
        invariant forall p :: 0 <= p < size ==> (old(bitmap)[p] ==> bitmap[p]) && (log[p] ==> old(log)[p])
        invariant forall c, p: nat :: 0 <= c < k && InBlock(blocks[c], p) && p < size ==> !log[p]
      {
        bitmap, log, dirtyPages := SyncRange(blocks, bitmap, log, dirtyPages, blocks[k].first, blocks[k].pages);
      }
      CacheMarks(cache, dest.ram, bitmap0, bitmap);
    }

    // -------------------------------------------------------------- the stages

    method CountPages() returns (n: nat)
      ensures n == TotalPages(blocks)
    {
      n := 0;
      for k := 0 to |blocks|
        invariant n + TotalPages(blocks[k..]) == TotalPages(blocks)
      {
        assert blocks[k..][1..] == blocks[k + 1..];
        n := n + blocks[k].pages;
      }
    }

    /** Every page is marked, and the count is the sum of the block sizes. */
    method MarkEverything()
      requires ValidLists()
      modifies `bitmap, `dirtyPages
      ensures ValidLists() && Counted() && |bitmap| == size
      ensures forall p :: 0 <= p < |bitmap| && InRam(blocks, p) ==> bitmap[p]
    {
      hide InRam;
      hide Dirty;
      var end := RamEnd(blocks);
      bitmap := seq(size, p => p < end);
      AllMarkedBelow(blocks, bitmap, end);
      dirtyPages := CountPages();
      DirtyAll(blocks, bitmap);
    }

    lemma NothingSent()
      requires ValidBlocks(blocks) && Fits(blocks, dest) && dest == dest0
      requires stream == SetupBytes(blocks) && sections == [] && open == []
      ensures Linked()
    {
      hide SetupBytes;
      assert StreamBytes(blocks, []) == SetupBytes(blocks);
      assert RecordsBytes(blocks, []) == [];
      assert stream == SetupBytes(blocks) + [];
    }

    /**
     ram_save_setup: every page is marked, the count is the sum of the block sizes, the log is
     merged and the RAM list goes on the wire.
     */
    method SaveSetup()
      requires ValidLists() && NothingCached(cache) && dest == dest0
      modifies `lastSeen, `lastSent, `lastOffset, `bulk, `bitmap, `dirtyPages, `log, `stream, `sections, `open, `scans
      ensures scans == []
      ensures Valid(false) && bulk && lastSeen.None? && lastSent.None?
      ensures forall p :: 0 <= p < size ==> !log[p]
      ensures forall p :: 0 <= p < size && InRam(blocks, p) ==> bitmap[p]
    {
      hide *;
      lastSeen, lastSent, lastOffset, bulk := None, None, 0, true;
      MarkEverything();
      RamListKnown();
      stream, sections, open, scans := SetupBytes(blocks), [], [], [];
      NothingSent();
      SetUp();
      BitmapSync();
      StillMarked();
    }

    lemma RamListKnown()
      requires ValidLists()
      ensures ValidBlocks(blocks) && Fits(blocks, dest) && size <= |bitmap|
    {
    }

    lemma SetUp()
      requires ValidLists() && NothingCached(cache) && Linked() && Counted()
      requires lastSeen.None? && lastSent.None? && lastOffset == 0 && bulk
      requires forall p :: 0 <= p < |bitmap| && InRam(blocks, p) ==> bitmap[p]
      ensures Valid(false)
    {
      hide InRam;
      hide Linked;
      hide Dirty;
      hide ValidBlocks;
    }

    lemma StillMarked()
      requires Valid(false) && lastSeen.None?
      ensures forall p :: 0 <= p < size && InRam(blocks, p) ==> bitmap[p]
    {
      hide InRam;
      hide Linked;
      hide Dirty;
      hide ValidBlocks;
      hide CacheAgrees;
    }

    /** The end-of-section mark. */
    method EndSection()
      requires Linked()
      modifies `stream, `sections, `open
      ensures Linked() && open == []
    {
      hide StreamBytes;
      hide RecordsBytes;
      hide ApplySections;
      hide ApplyAll;
      SectionsAppend(blocks, dest0, sections, open);
      ghost var rx := ApplySections(blocks, dest0, sections).value;
      NoRecords(blocks, dest);
      stream := stream + END;
      sections := sections + [open];
      open := [];
      assert stream == StreamBytes(blocks, sections) + [];
    }

    /** ram_save_iterate: at most `budget` pages, as rate limit and clock allow. */
    method SaveIterate(budget: nat) returns (ghost lost: bool)
      requires Valid(false)
      modifies `ram, `log, `clock, `cache, `stream, `dest, `open, `sections, `bitmap, `dirtyPages,
               `lastSeen, `lastSent, `lastOffset, `bulk, `scans
      ensures old(scans) <= scans && (lost ==> SomeForgot(blocks, scans))
      ensures Valid(false) && open == []
      ensures Upheld(blocks, old(Now()), Now(), running, lost)
      ensures Unmarked(blocks, bitmap) || dirtyPages + budget <= old(dirtyPages)
    {
      hide Valid, Covered, GuestRan, LastPage, InRam, SomeForgot, Upheld, Kept, Taken, Forgets, Unmarked;
      lost := false;
      NothingLostYet(false, false);
      var i := 0;
      while i < budget
        invariant Valid(false)
        invariant Upheld(blocks, old(Now()), Now(), running, lost)
        invariant old(scans) <= scans && (lost ==> SomeForgot(blocks, scans))
        invariant dirtyPages + i <= old(dirtyPages) || (i == budget && Unmarked(blocks, bitmap))
        decreases budget - i
      {
        ghost var idle := Now();
        GuestTurn();
        UpheldOn(blocks, old(Now()), idle, Now(), running, lost, false, 0);
        ghost var before, scans0, start := Now(), scans, Start();
        ghost var forgets := Forgets(blocks, bitmap, bulk, lastSeen, lastOffset);
        var bytes := FindAndSaveBlock(false);
        UpheldOn(blocks, old(Now()), before, Now(), running, lost, forgets, bytes);
        if bytes > 0 {
          FewerDirty(blocks, before, Now(), running, forgets, bytes);
        }
        Forgetting(scans0, start, lost, forgets);
        lost := lost || forgets;
        i := if bytes == 0 then budget else i + 1;
      }
      CloseSection(lost, old(Now()), false);
    }

    /** The guest runs while the sender is between two scans. */
    method GuestTurn()
      requires Valid(false)
      modifies `ram, `log, `clock
      ensures Valid(false)
      ensures Kept(blocks, old(Now()), Now(), running, false, 0)
      ensures clock == if running then old(clock) + 1 else old(clock)
      ensures running ==> ram == AfterStores(blocks, old(ram), guest(old(clock)))
    {
      hide AfterStores, Linked, Dirty, InRam, CacheAgrees, AheadMarked, ValidBlocks, GuestRan, Covered, LastPage;
      ghost var before := Now();
      GuestRuns();
      GuestKeeps(blocks, before, Now(), running);
    }

    lemma NothingLostYet(lastStage: bool, lost: bool)
      requires Valid(lastStage)
      ensures Upheld(blocks, Now(), Now(), running, lost)
    {
      UpheldNothing(blocks, Now(), running, lost);
    }

    lemma Forgetting(scans0: seq<ScanStart>, start: ScanStart, lost: bool, forgets: bool)
      requires lost ==> SomeForgot(blocks, scans0)
      requires forgets ==> Forgets(blocks, start.bitmap, start.bulk, start.lastSeen, start.lastOffset)
      ensures lost || forgets ==> SomeForgot(blocks, scans0 + [start])
    {
      hide *;
      if forgets {
        ForgotNow(blocks, scans0, start);
      } else if lost {
        ForgotBefore(blocks, scans0, scans0 + [start]);
      }
    }

    /** Ends the section; only the stream changes. */
    method CloseSection(ghost lost: bool, ghost start: Moment, ghost lastStage: bool)
      requires Valid(lastStage)
      requires Upheld(blocks, start, Now(), running, lost)
      modifies `stream, `sections, `open
      ensures Valid(lastStage) && open == []
      ensures Upheld(blocks, start, Now(), running, lost)
    {
      hide Linked;
      hide Dirty;
      hide InRam;
      hide Covered;
      hide GuestRan;
      hide CacheAgrees;
      hide AheadMarked;
      hide ValidBlocks;
      EndSection();
    }

    /** The synchronisation that starts the last stage. */
    method MergeBeforeLast()
      requires Valid(false) && !running
      modifies `bitmap, `log, `dirtyPages
      ensures Valid(true) && |old(bitmap)| == |old(log)| && bitmap == Merged(old(bitmap), old(log))
      ensures forall p :: 0 <= p < |log| ==> !log[p]
      ensures forall p :: old(Covered(ram, dest.ram, bitmap, log, p)) ==> Covered(ram, dest.ram, bitmap, log, p)
    {
      hide Linked;
      hide Dirty;
      hide InRam;
      hide Covered;
      hide CacheAgrees;
      hide AheadMarked;
      hide ValidBlocks;
      ghost var bitmap0, log0 := bitmap, log;
      BitmapSync();
      assert bitmap == Merged(bitmap0, log0);
      CacheMarks(cache, dest.ram, bitmap, bitmap);
      forall p | Covered(ram, dest.ram, bitmap0, log0, p)
        ensures Covered(ram, dest.ram, bitmap, log, p)
      {
        MergedCovers(ram, dest.ram, bitmap0, log0, bitmap, log, p);
      }
    }

    /** One scan of the last stage. */
    method LastScan(ghost start: Moment, ghost forgot: bool) returns (bytes: nat)
      requires Valid(true) && Upheld(blocks, start, Now(), running, forgot)
      requires Forgets(blocks, bitmap, bulk, lastSeen, lastOffset) ==> forgot
      modifies `ram, `log, `clock, `cache, `stream, `dest, `open, `bitmap, `dirtyPages,
               `lastSeen, `lastSent, `lastOffset, `bulk, `scans
      ensures scans == old(scans) + [old(Start())]
      ensures Valid(true) && Upheld(blocks, start, Now(), running, forgot)
      ensures bytes == 0 ==> Unmarked(blocks, bitmap) && dest == old(dest)
      ensures bytes > 0 ==> dirtyPages < old(dirtyPages) && !Forgets(blocks, bitmap, bulk, lastSeen, lastOffset)
      ensures bytes > 0 ==> !Forgets(blocks, old(bitmap), old(bulk), old(lastSeen), old(lastOffset))
    {
      hide Valid;
      hide Forgets;
      hide Upheld;
      hide Unmarked;
      hide Taken;
      hide GuestRan;
      hide Covered;
      hide LastPage;
      ghost var before := Now();
      ghost var forgets := Forgets(blocks, bitmap, bulk, lastSeen, lastOffset);
      bytes := FindAndSaveBlock(true);
      UpheldOn(blocks, start, before, Now(), running, forgot, forgets, bytes);
      if bytes > 0 {
        TakenIsSafe(blocks, if old(bulk) then old(bitmap) else [], bitmap, old(lastSeen).None?, old(bulk), bulk,
                    if old(lastSeen).None? then 0 else old(lastSeen).value, old(lastOffset), lastSeen.value, lastOffset);
      }
    }

    /** When a stopped guest has nothing marked any more, the destination has every covered page. */
    lemma SentInTheEnd(start: Moment, forgot: bool)
      requires Upheld(blocks, start, Now(), false, forgot) && Unmarked(blocks, bitmap)
      requires forall p :: 0 <= p < |start.log| ==> !start.log[p]
      ensures forall p :: Covered(start.ram, start.dest.ram, start.bitmap, start.log, p) && InRam(blocks, p) &&
                          !(forgot && p == LastPage(blocks)) ==>
                0 <= p < |ram| && p < |dest.ram| && dest.ram[p] == ram[p]
    {
      hide InRam;
      hide LastPage;
    }

    /**
     ram_save_complete, with the guest stopped: merges the log, sends everything that is marked and
     stops when nothing is.  `forgot` says whether the first scan forgets `LastPage`; if not, the
     destination ends with every page that was covered, and if so nothing at all is sent.
     */
    method SaveComplete() returns (ghost forgot: bool)
      requires Valid(false) && !running
      modifies `clock, `log, `ram, `cache, `stream, `dest, `open, `sections, `bitmap, `dirtyPages,
               `lastSeen, `lastSent, `lastOffset, `bulk, `scans
      ensures old(scans) <= scans && (forgot ==> SomeForgot(blocks, scans))
      ensures Valid(true) && open == [] && ram == old(ram)
      ensures |old(bitmap)| == |old(log)|
      ensures forgot == Forgets(blocks, Merged(old(bitmap), old(log)), old(bulk), old(lastSeen), old(lastOffset))
      ensures forgot ==> dest == old(dest)
      ensures forall p :: old(Covered(ram, dest.ram, bitmap, log, p)) && InRam(blocks, p) &&
                          !(forgot && p == LastPage(blocks)) ==>
                0 <= p < |ram| && p < |dest.ram| && dest.ram[p] == ram[p]
      ensures forall p :: old(Covered(ram, dest.ram, bitmap, log, p)) && p == LastPage(blocks) && InRam(blocks, p) ==>
                0 <= p < |ram| && p < |dest.ram| &&
                (dest.ram[p] == ram[p] <==> !forgot || (p < |old(dest.ram)| && old(dest.ram)[p] == ram[p]))
    {
      hide Valid, Covered, GuestRan, LastPage, InRam, SomeForgot, Upheld, Kept, Taken, Forgets, Unmarked, Merged;
      MergeBeforeLast();
      ghost var start := Now();
      forgot := Forgets(blocks, bitmap, bulk, lastSeen, lastOffset);
      NothingLostYet(true, forgot);
      FlushAll(start, forgot);
      CloseSection(forgot, start, true);
      SentInTheEnd(start, forgot);
      StoppedGuest(start, forgot);
      forall p | old(Covered(ram, dest.ram, bitmap, log, p))
        ensures 0 <= p < |old(ram)| && p < |old(dest.ram)|
      {
        CoveredIsPage(old(ram), old(dest.ram), old(bitmap), old(log), p);
      }
    }

    lemma StoppedGuest(start: Moment, forgot: bool)
      requires Upheld(blocks, start, Now(), false, forgot)
      ensures ram == start.ram
    {
    }

    /** The final loop; the count of marked pages is what makes it end. */
    method FlushAll(ghost start: Moment, ghost forgot: bool)
      requires Valid(true) && !running && Upheld(blocks, start, Now(), running, forgot)
      requires forgot == Forgets(blocks, bitmap, bulk, lastSeen, lastOffset)
      modifies `clock, `log, `ram, `cache, `stream, `dest, `open, `bitmap, `dirtyPages,
               `lastSeen, `lastSent, `lastOffset, `bulk, `scans
      ensures old(scans) <= scans && (forgot ==> SomeForgot(blocks, scans))
      ensures Valid(true) && Upheld(blocks, start, Now(), running, forgot) && Unmarked(blocks, bitmap)
      ensures forgot ==> dest == old(dest)
    {
      ghost var scans0, first := scans, ScanStart(bitmap, bulk, lastSeen, lastOffset);
      assert first == Start();
      hide *;
      Forgetting(scans0, first, false, forgot);
      var bytes := LastScan(start, forgot);
      while bytes > 0
        invariant scans0 + [first] <= scans
        invariant Valid(true) && Upheld(blocks, start, Now(), running, forgot)
        invariant bytes == 0 ==> Unmarked(blocks, bitmap)
        invariant bytes > 0 ==> !Forgets(blocks, bitmap, bulk, lastSeen, lastOffset)
        invariant forgot ==> bytes == 0 && dest == old(dest)
        decreases bytes > 0, dirtyPages
      {
        bytes := LastScan(start, forgot);
      }
      if forgot {
        ForgotBefore(blocks, scans0 + [first], scans);
      }
    }

    // -------------------------------------------------------------- a whole migration

    /** ram_save_pending: merges the log when little is left to send, and says how much there is then. */
    method SavePending(maxSize: nat, ghost lost: bool) returns (remaining: nat)
      requires Valid(false) && AllCovered(blocks, Now(), lost)
      modifies `bitmap, `log, `dirtyPages
      ensures Valid(false) && AllCovered(blocks, Now(), lost)
      ensures remaining == PAGE_SIZE * dirtyPages
      ensures if PAGE_SIZE * old(dirtyPages) < maxSize
              then forall p :: 0 <= p < size ==> bitmap[p] == (old(bitmap)[p] || old(log)[p]) && !log[p]
              else bitmap == old(bitmap) && log == old(log)
    {
      hide Linked;
      hide Dirty;
      hide InRam;
      hide Covered;
      hide CacheAgrees;
      hide AheadMarked;
      hide ValidBlocks;
      hide LastPage;
      remaining := PAGE_SIZE * dirtyPages;
      if remaining < maxSize {
        ghost var bitmap0, log0 := bitmap, log;
        BitmapSync();
        forall p | Covered(ram, dest.ram, bitmap0, log0, p)
          ensures Covered(ram, dest.ram, bitmap, log, p)
        {
          MergedCovers(ram, dest.ram, bitmap0, log0, bitmap, log, p);
        }
        remaining := PAGE_SIZE * dirtyPages;
      }
    }

    lemma AllCoveredAtFirst()
      requires Valid(false) && forall p :: 0 <= p < size && InRam(blocks, p) ==> bitmap[p]
      ensures AllCovered(blocks, Now(), false)
    {
      hide InRam, Linked, Dirty, CacheAgrees, AheadMarked, ValidBlocks;
    }

    /** The receiver makes of the closed stream exactly what the sender believes it has. */
    lemma Delivered()
      requires Linked() && open == []
      ensures LoadStream(blocks, stream, 0, dest0) == Some(dest)
    {
      NoRecords(blocks, ApplySections(blocks, dest0, sections).value);
      hide StreamBytes;
      hide RecordsBytes;
      hide ApplySections;
      hide ApplyAll;
      hide LoadStream;
      StreamRoundTrip(blocks, dest0, sections);
      assert stream == StreamBytes(blocks, sections);
    }

    /** The destination has every page, except `LastPage` if some scan forgot it. */
    ghost predicate Arrived()
      reads `ram, `dest, `scans
    {
      forall p :: 0 <= p < size && InRam(blocks, p) && (p == LastPage(blocks) ==> !SomeForgot(blocks, scans)) ==>
        p < |ram| && p < |dest.ram| && dest.ram[p] == ram[p]
    }

    method LastStage(ghost lost: bool)
      requires Valid(false) && !running && AllCovered(blocks, Now(), lost)
      requires lost ==> SomeForgot(blocks, scans)
      modifies `clock, `log, `ram, `cache, `stream, `dest, `open, `sections, `bitmap, `dirtyPages,
               `lastSeen, `lastSent, `lastOffset, `bulk, `scans
      ensures Valid(true) && open == [] && Arrived()
    {
      hide Linked;
      hide Dirty;
      hide InRam;
      hide Covered;
      hide CacheAgrees;
      hide AheadMarked;
      hide ValidBlocks;
      hide LastPage;
      hide Forgets;
      hide SomeForgot;
      ghost var scans0 := scans;
      ghost var forgot := SaveComplete();
      if lost {
        ForgotBefore(blocks, scans0, scans);
      }
    }

    /**
     A whole migration, for every guest and every way of interleaving it with the sender: once the
     guest has been stopped and the last stage is over, a receiver that loads the stream holds the
     guest's memory, page for page.  The exception is `LastPage`, and only if some scan forgot it.
     */
    method Migrate(turns: seq<Turn>)
      requires ValidLists() && NothingCached(cache) && dest == dest0
      modifies this
      ensures Fits(blocks, dest0) && LoadStream(blocks, stream, 0, dest0) == Some(dest)
      ensures Arrived()
    {
      hide Valid, AllCovered, SomeForgot, Linked, Arrived, LoadStream, InRam;
      SaveSetup();
      AllCoveredAtFirst();
      ghost var lost := false;
      for k := 0 to |turns|
        invariant Valid(false) && AllCovered(blocks, Now(), lost)
        invariant lost ==> SomeForgot(blocks, scans)
      {
        lost := OneTurn(turns[k], lost);
      }
      GuestAtLarge(lost);
      StopGuest(lost);
      LastStage(lost);
      AllSent();
      Delivered();
    }

    /** One turn of the migration thread, with the guest running in between. */
    method OneTurn(turn: Turn, ghost lost: bool) returns (ghost lost': bool)
      requires Valid(false) && AllCovered(blocks, Now(), lost) && (lost ==> SomeForgot(blocks, scans))
      modifies `ram, `log, `clock, `cache, `stream, `dest, `open, `sections, `bitmap, `dirtyPages,
               `lastSeen, `lastSent, `lastOffset, `bulk, `scans
      ensures Valid(false) && AllCovered(blocks, Now(), lost') && (lost' ==> SomeForgot(blocks, scans))
      ensures old(scans) <= scans
    {
      hide Valid, AllCovered, SomeForgot, Upheld;
      GuestAtLarge(lost);
      var _ := SavePending(turn.maxSize, lost);
      GuestAtLarge(lost);
      ghost var before, scans0 := Now(), scans;
      ghost var more := SaveIterate(turn.budget);
      AllCoveredOn(blocks, before, Now(), running, lost, more);
      if lost {
        ForgotBefore(blocks, scans0, scans);
      }
      lost' := lost || more;
    }

    /** The guest runs while the sender is at nothing. */
    method GuestAtLarge(ghost lost: bool)
      requires Valid(false) && AllCovered(blocks, Now(), lost)
      modifies `ram, `log, `clock
      ensures Valid(false) && AllCovered(blocks, Now(), lost)
    {
      hide *;
      ghost var before := Now();
      GuestTurn();
      AllCoveredKept(blocks, before, Now(), running, lost);
    }

    method StopGuest(ghost lost: bool)
      requires Valid(false) && AllCovered(blocks, Now(), lost)
      modifies `running
      ensures Valid(false) && AllCovered(blocks, Now(), lost) && !running
    {
      hide Linked;
      hide Dirty;
      hide InRam;
      hide CacheAgrees;
      hide AllCovered;
      SetRunning(false);
    }

    lemma AllSent()
      requires Valid(true)
      ensures Linked() && Fits(blocks, dest0)
    {
    }
  }

  lemma NoRecords(blocks: seq<RamBlock>, rx: Receiver)
    requires ValidBlocks(blocks) && Fits(blocks, rx)
    ensures ApplyAll(blocks, rx, []) == Some(rx) && RecordsBytes(blocks, []) == []
  {
  }

  /** Before the last stage the cache does not depend on the marks. */
  lemma CacheMarks(cache: seq<Slot>, dest: seq<Page>, bitmap: Bits, bitmap': Bits)
    requires CacheAgrees(cache, dest, bitmap, false, -1) && |bitmap| == |bitmap'|
    ensures CacheAgrees(cache, dest, bitmap', false, -1)
    ensures CacheAgrees(cache, dest, bitmap', true, -1)
  {
  }

  lemma AllMarkedBelow(blocks: seq<RamBlock>, bitmap: Bits, end: nat)
    requires forall b :: 0 <= b < |blocks| ==> blocks[b].first + blocks[b].pages <= end
    requires forall p :: 0 <= p < |bitmap| ==> bitmap[p] == (p < end)
    ensures forall p :: 0 <= p < |bitmap| && InRam(blocks, p) ==> bitmap[p]
  {
  }

  lemma TakenLater(blocks: seq<RamBlock>, bitmap0: Bits, bitmap: Bits, first: bool, bulk: bool,
                   b0: nat, off0: nat, b: nat, off: nat)
    requires Taken(blocks, bitmap0, bitmap, first, false, bulk, b0, off0, b, off)
    ensures Taken(blocks, [], bitmap, first, false, bulk, b0, off0, b, off)
  {
  }

  lemma SweptNothing(blocks: seq<RamBlock>, bitmap: Bits, b: nat, off: nat, skip: int)
    requires b < |blocks|
    ensures Swept(blocks, bitmap, b, off, false, b, off, skip)
  {
  }

  lemma GuestIdle(blocks: seq<RamBlock>, ram: seq<Page>, log: Bits)
    requires |ram| == |log|
    ensures GuestRan(blocks, ram, log, ram, log)
  {
  }

  // ---------------------------------------------------------------- a page that is forgotten

  const SMALL_RAM := [RamBlock([109], 0, 2)]

  lemma SmallRam()
    ensures ValidBlocks(SMALL_RAM) && LastPage(SMALL_RAM) == 1
    ensures forall p: nat :: InRam(SMALL_RAM, p) <==> p < 2
  {
    assert TotalPages(SMALL_RAM) == 2;
    assert InBlock(SMALL_RAM[0], 0) && InBlock(SMALL_RAM[0], 1);
  }

  lemma SmallRamSizes(s: Source)
    requires s.Valid(false) && s.size == BITS
    ensures |s.ram| == |s.bitmap| == |s.log| == |s.dest.ram| == BITS
    ensures s.lastSeen.None? ==> s.lastOffset == 0
  {
  }

  lemma SentPage(s: Moment, t: Moment, bytes: nat, p: nat)
    requires Kept(SMALL_RAM, s, t, false, false, bytes)
    requires p < |s.ram| == |s.dest.ram| == |s.bitmap| == |s.log| && s.bitmap[p]
    ensures t.ram == s.ram && t.log == s.log
    ensures p < |t.dest.ram| && p < |t.bitmap| && p < |t.log| && (!t.bitmap[p] && !t.log[p] ==> t.dest.ram[p] == s.ram[p])
  {
    assert Covered(s.ram, s.dest.ram, s.bitmap, s.log, p);
  }

  /** During the first pass over `SMALL_RAM` a scan takes the first page that is marked. */
  lemma TakenSmall(bitmap0: Bits, bitmap: Bits, first: bool, bulk: bool, b: nat, off: nat)
    requires Taken(SMALL_RAM, bitmap0, bitmap, first, true, bulk, 0, 0, b, off)
    requires |bitmap0| == BITS && bitmap0[0] == first && bitmap0[1]
    ensures b == 0 && off == (if first then 0 else 1) && bulk && bitmap == bitmap0[off := false]
  {
  }

  lemma NotForgetful(first: bool, bitmap: Bits)
    ensures !Forgets(SMALL_RAM, bitmap, true, if first then None else Some(0), 0)
    ensures !AtLastPage(SMALL_RAM, if first then None else Some(0), 0)
  {
  }

  /** The state of the sender at page `k` of the first pass over `SMALL_RAM`, the guest paused. */
  ghost predicate FirstPassAt(s: Source, k: nat)
    reads s
  {
    && s.blocks == SMALL_RAM && s.size == BITS && s.Valid(false) && !s.running && s.bulk
    && (if k == 0 then s.lastSeen.None? else s.lastSeen == Some(0) && s.lastOffset == k - 1)
    && |s.ram| == |s.bitmap| == |s.log| == |s.dest.ram| == BITS
    && s.bitmap[0] == (k == 0) && s.bitmap[1] == (k < 2) && !s.log[0] && !s.log[1]
  }

  method ScanSmallRam(s: Source, k: nat)
    requires k < 2 && FirstPassAt(s, k)
    modifies s
    ensures FirstPassAt(s, k + 1) && s.ram == old(s.ram) && s.dest.ram[k] == s.ram[k]
  {
    hide Source.Valid, Forgets, AtLastPage, Unmarked, Taken, Kept;
    SmallRamSizes(s);
    NotForgetful(k == 0, s.bitmap);
    ghost var before := s.Now();
    var bytes := s.FindAndSaveBlock(false);
    SmallRamSizes(s);
    TakenSmall(before.bitmap, s.bitmap, k == 0, s.bulk, s.lastSeen.value, s.lastOffset);
    SentPage(before, s.Now(), bytes, k);
  }

  /** The guest stores to the page the first pass has just ended with, and is stopped. */
  method StoreAndComplete(s: Source, data: Page)
    requires FirstPassAt(s, 2)
    modifies s
    ensures s.Valid(true) && s.open == [] && |s.ram| == |s.dest.ram| == BITS
    ensures s.ram[1] == data && s.dest == old(s.dest)
    ensures Fits(s.blocks, s.dest0) && LoadStream(s.blocks, s.stream, 0, s.dest0) == Some(s.dest)
  {
    SmallRam();
    hide InRam;
    hide Source.Linked;
    hide Dirty;
    s.SetRunning(true);
    s.GuestStore(GuestWrite(1, data));
    s.SetRunning(false);
    SmallRamSizes(s);
    assert Forgets(s.blocks, Merged(s.bitmap, s.log), s.bulk, s.lastSeen, s.lastOffset);
    hide *;
    var forgot := s.SaveComplete();
    FinalSizes(s);
    s.AllSent();
    s.Delivered();
  }

  lemma FinalSizes(s: Source)
    requires s.Valid(true) && s.size == BITS
    ensures |s.ram| == |s.dest.ram| == BITS
  {
  }

  /** Two pages of zeroes, set up for migration with the guest paused. */
  method SmallSource() returns (s: Source)
    ensures fresh(s) && s.blocks == SMALL_RAM && FirstPassAt(s, 0) && s.ram[1] == ZERO_PAGE
  {
    SmallRam();
    s := new Source(SMALL_RAM, BITS, false, 1, _ => [], _ => true, seq(BITS, _ => ZERO_PAGE), seq(BITS, _ => false),
                    Receiver(seq(BITS, _ => ZERO_PAGE), None));
    s.SetRunning(false);
    s.SaveSetup();
    SmallRamSizes(s);
  }

  /**
   The forgotten page, in a concrete run.  There are two pages, and the first pass has sent both;
   then the guest stores to the second one and is stopped.  The last stage sends nothing, and the
   destination is left with the old contents of that page.
   */
  method ForgottenPage() returns (s: Source)
    ensures s.Valid(true) && s.open == [] && |s.ram| == |s.dest.ram| == BITS
    ensures s.blocks == SMALL_RAM && InRam(s.blocks, 1)
    ensures Fits(s.blocks, s.dest0) && LoadStream(s.blocks, s.stream, 0, s.dest0) == Some(s.dest)
    ensures s.dest.ram[1] != s.ram[1]
  {
    hide FirstPassAt, Filled, Source.Valid, LoadStream, InRam;
    SmallRam();
    s := SmallSource();
    ScanSmallRam(s, 0);
    ScanSmallRam(s, 1);
    StoreAndComplete(s, Filled(7));
    assert Filled(7)[0] == 7 && Filled(0)[0] == 0;
  }
}
