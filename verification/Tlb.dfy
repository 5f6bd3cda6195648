/**
 The software TLB (cputlb.c): a direct-mapped table and a victim table for each MMU mode, and one address and mask
 that stand for all large pages entered since the last full flush.
 */
module Tlb {
  import opened Basics

  type Addr = bv64

  const PAGE_MASK: Addr := 0xffff_ffff_ffff_f000
  const INVALID: Addr := 0x8
  const NOTDIRTY: Addr := 0x10
  const MMIO: Addr := 0x20

  const TLB_SIZE: nat := 256
  const VTLB_SIZE: nat := 8

  /** `(target_ulong)-1` */
  const NONE: Addr := 0xffff_ffff_ffff_ffff

  /** CPUTLBEntry, without the addend. */
  datatype Entry = Entry(read: Addr, write: Addr, code: Addr)

  const EMPTY := Entry(NONE, NONE, NONE)

  /** What a field is compared with the page of an address. */
  function Tag(f: Addr): Addr
  {
    f & (PAGE_MASK | INVALID)
  }

  /** The entry is used for accesses to the page. */
  predicate Maps(e: Entry, page: Addr)
  {
    Tag(e.read) == page || Tag(e.write) == page || Tag(e.code) == page
  }

  predicate IsPage(page: Addr)
  {
    page & PAGE_MASK == page
  }

  function PageOf(a: Addr): Addr
  {
    a & PAGE_MASK
  }

  /** The only slot of the main table for a page. */
  function Index(page: Addr): (i: nat)
    ensures i < TLB_SIZE
  {
    ((page >> 12) & 0xff) as nat
  }

  /** All fields in use are for the same page. */
  ghost predicate OnePage(e: Entry)
  {
    forall p, q :: IsPage(p) && IsPage(q) && Maps(e, p) && Maps(e, q) ==> p == q
  }

  lemma EmptyMapsNothing(page: Addr)
    requires IsPage(page)
    ensures !Maps(EMPTY, page)
  {
  }

  /** Flag bits that tlb_set_page may add to an address. */
  predicate Flags(f: Addr)
  {
    f & !(NOTDIRTY | MMIO) == 0
  }

  lemma TagOfPage(page: Addr, flags: Addr)
    requires IsPage(page) && Flags(flags)
    ensures Tag(page | flags) == page
  {
  }

  // ---------------------------------------------------------------- large pages

  /** A page of any size: the addresses whose bits under `mask` are those of `base`. */
  datatype Large = Large(base: Addr, mask: Addr)

  predicate Within(a: Addr, l: Large)
  {
    a & l.mask == l.base
  }

  /** Ones down to some bit, zeroes below: `~(size - 1)` for a power of two. */
  predicate HighOnes(m: Addr)
  {
    (m << 1) & !m == 0
  }

  /** The flush address and mask take in the whole large page. */
  predicate Covers(flushAddr: Addr, flushMask: Addr, l: Large)
  {
    Narrows(flushMask, l.mask) && Based(l.base, flushMask, flushAddr)
  }

  predicate Based(base: Addr, mask: Addr, addr: Addr)
  {
    base & mask == addr
  }

  lemma CoveredIsFlushed(flushAddr: Addr, flushMask: Addr, l: Large, a: Addr)
    requires Covers(flushAddr, flushMask, l) && Within(a, l)
    ensures a & flushMask == flushAddr
  {
  }

  /** `m` has no bit that `n` does not have. */
  predicate Narrows(m: Addr, n: Addr)
  {
    m & n == m
  }

  /** Shifting drops the lowest one, until nothing is left. */
  lemma ShiftShrinks(m: Addr)
    requires HighOnes(m) && m != 0
    ensures HighOnes(m << 1) && (m << 1) < m && Narrows(m << 1, m)
  {
  }

  lemma HighOnesMeet(m: Addr, n: Addr)
    requires HighOnes(m) && HighOnes(n)
    ensures HighOnes(m & n) && Narrows(m & n, m) && Narrows(m & n, n)
  {
  }

  lemma NarrowsTrans(m: Addr, n: Addr, k: Addr)
    requires Narrows(m, n) && Narrows(n, k)
    ensures Narrows(m, k)
  {
  }

  /** A wider region keeps what the old one covered. */
  lemma WiderKeeps(flushAddr: Addr, flushMask: Addr, mask: Addr, l: Large)
    requires Covers(flushAddr, flushMask, l) && Narrows(mask, flushMask)
    ensures Covers(flushAddr & mask, mask, l)
  {
    hide Narrows, Based;
    NarrowsTrans(mask, flushMask, l.mask);
    StillBased(l.base, flushMask, flushAddr, mask);
  }

  lemma StillBased(base: Addr, flushMask: Addr, flushAddr: Addr, mask: Addr)
    requires Based(base, flushMask, flushAddr) && Narrows(mask, flushMask)
    ensures Based(base, mask, flushAddr & mask)
  {
  }

  /** A region that agrees with `vaddr` under its mask covers the page of `vaddr`. */
  lemma WiderTakes(flushAddr: Addr, mask: Addr, vaddr: Addr, m: Addr)
    requires Agree(flushAddr, vaddr, mask) && Narrows(mask, m)
    ensures Covers(flushAddr & mask, mask, Large(vaddr & m, m)) && Settled(flushAddr & mask, mask)
  {
  }

  lemma FirstTakes(vaddr: Addr, m: Addr)
    requires HighOnes(m) && Narrows(m, PAGE_MASK)
    ensures Covers(vaddr & m, m, Large(vaddr & m, m)) && Settled(vaddr & m, m) && vaddr & m != NONE
  {
  }

  lemma NotNone(a: Addr, mask: Addr)
    requires Narrows(mask, PAGE_MASK)
    ensures a & mask != NONE
  {
  }

  /** The flush address has no bit outside its mask. */
  predicate Settled(flushAddr: Addr, flushMask: Addr)
  {
    flushAddr & flushMask == flushAddr
  }

  /** `~(size - 1)` */
  function SizeMask(size: Addr): Addr
  {
    !(size - 1)
  }

  /** The large page of `vaddr`. */
  function LargePage(vaddr: Addr, size: Addr): Large
  {
    Large(vaddr & SizeMask(size), SizeMask(size))
  }

  /** Sizes are powers of two and at least a page. */
  predicate IsSize(size: Addr)
  {
    size >= 0x1000 && size & (size - 1) == 0
  }

  lemma SizeMaskIsHigh(size: Addr)
    requires IsSize(size)
    ensures HighOnes(SizeMask(size)) && Narrows(SizeMask(size), PAGE_MASK)
  {
  }

  predicate Agree(a: Addr, b: Addr, mask: Addr)
  {
    (a ^ b) & mask == 0
  }

  lemma Shifted(mask: Addr, m: Addr, n: Addr, a: Addr, b: Addr)
    requires HighOnes(mask) && Narrows(mask, m) && Narrows(mask, n) && !Agree(a, b, mask)
    ensures HighOnes(mask << 1) && (mask << 1) < mask && Narrows(mask << 1, m) && Narrows(mask << 1, n)
  {
    hide HighOnes, Narrows;
    AgreeOnNothing(a, b, mask);
    ShiftShrinks(mask);
    NarrowsTrans(mask << 1, mask, m);
    NarrowsTrans(mask << 1, mask, n);
  }

  lemma AgreeOnNothing(a: Addr, b: Addr, mask: Addr)
    requires !Agree(a, b, mask)
    ensures mask != 0
  {
  }

  lemma Widened(flushAddr: Addr, flushMask: Addr, vaddr: Addr, size: Addr, mask: Addr)
    requires IsSize(size) && Narrows(mask, SizeMask(size)) && Narrows(mask, flushMask) && Agree(flushAddr, vaddr, mask)
    ensures Settled(flushAddr & mask, mask) && flushAddr & mask != NONE
    ensures Covers(flushAddr & mask, mask, LargePage(vaddr, size))
    ensures forall l :: Covers(flushAddr, flushMask, l) ==> Covers(flushAddr & mask, mask, l)
  {
    hide Narrows, Covers, Settled, SizeMask, HighOnes, IsSize, Agree;
    SizeMaskIsHigh(size);
    WiderTakes(flushAddr, mask, vaddr, SizeMask(size));
    NarrowsTrans(mask, SizeMask(size), PAGE_MASK);
    NotNone(flushAddr, mask);
    forall l | Covers(flushAddr, flushMask, l)
      ensures Covers(flushAddr & mask, mask, l)
    {
      WiderKeeps(flushAddr, flushMask, mask, l);
    }
  }

  /** The loop of tlb_add_large_page: the mask is widened until the addresses agree under it. */
  method WidenMask(flushAddr: Addr, flushMask: Addr, vaddr: Addr, sizeMask: Addr) returns (mask: Addr)
    requires HighOnes(sizeMask) && HighOnes(flushMask)
    ensures Joins(mask, flushAddr, flushMask, vaddr, sizeMask)
    ensures forall m :: Joins(m, flushAddr, flushMask, vaddr, sizeMask) ==> Narrows(m, mask)
  {
    hide HighOnes, Narrows, Agree;
    HighOnesMeet(sizeMask, flushMask);
    mask := sizeMask & flushMask;
    LongestAtFirst(flushAddr, flushMask, vaddr, sizeMask);
    while !Agree(flushAddr, vaddr, mask)
      invariant HighOnes(mask) && Narrows(mask, sizeMask) && Narrows(mask, flushMask)
      invariant forall m :: Joins(m, flushAddr, flushMask, vaddr, sizeMask) ==> Narrows(m, mask)
      decreases mask
    {
      Shifted(mask, sizeMask, flushMask, flushAddr, vaddr);
      LongestStill(flushAddr, flushMask, vaddr, sizeMask, mask);
      mask := mask << 1;
    }
  }

  /** A region with this mask can take in the old region and the new page. */
  predicate Joins(mask: Addr, flushAddr: Addr, flushMask: Addr, vaddr: Addr, sizeMask: Addr)
  {
    HighOnes(mask) && Narrows(mask, sizeMask) && Narrows(mask, flushMask) && Agree(flushAddr, vaddr, mask)
  }

  lemma LongestAtFirst(flushAddr: Addr, flushMask: Addr, vaddr: Addr, sizeMask: Addr)
    ensures forall m :: Joins(m, flushAddr, flushMask, vaddr, sizeMask) ==> Narrows(m, sizeMask & flushMask)
  {
    hide Narrows, HighOnes, Agree;
    forall m | Joins(m, flushAddr, flushMask, vaddr, sizeMask)
      ensures Narrows(m, sizeMask & flushMask)
    {
      NarrowsBoth(m, sizeMask, flushMask);
    }
  }

  lemma NarrowsBoth(m: Addr, n: Addr, k: Addr)
    requires Narrows(m, n) && Narrows(m, k)
    ensures Narrows(m, n & k)
  {
  }

  lemma LongestStill(flushAddr: Addr, flushMask: Addr, vaddr: Addr, sizeMask: Addr, mask: Addr)
    requires HighOnes(mask) && !Agree(flushAddr, vaddr, mask)
    requires forall m :: Joins(m, flushAddr, flushMask, vaddr, sizeMask) ==> Narrows(m, mask)
    ensures forall m :: Joins(m, flushAddr, flushMask, vaddr, sizeMask) ==> Narrows(m, mask << 1)
  {
    hide Narrows, HighOnes, Agree;
    forall m | Joins(m, flushAddr, flushMask, vaddr, sizeMask)
      ensures Narrows(m, mask << 1)
    {
      NarrowsShifted(m, mask);
    }
  }

  lemma NarrowsShifted(m: Addr, n: Addr)
    requires HighOnes(m) && HighOnes(n) && Narrows(m, n) && m != n
    ensures Narrows(m, n << 1)
  {
  }

  /** tlb_add_large_page: the widened region takes in what the old one did, and the new page. */
  method AddLargePage(flushAddr: Addr, flushMask: Addr, vaddr: Addr, size: Addr) returns (addr: Addr, mask: Addr)
    requires IsSize(size) && HighOnes(flushMask)
    ensures HighOnes(mask) && Settled(addr, mask) && addr != NONE
    ensures Covers(addr, mask, LargePage(vaddr, size))
    ensures flushAddr != NONE ==> forall l :: Covers(flushAddr, flushMask, l) ==> Covers(addr, mask, l)
    ensures flushAddr == NONE ==> mask == SizeMask(size)
    ensures flushAddr != NONE ==> forall m :: Joins(m, flushAddr, flushMask, vaddr, SizeMask(size)) ==> Narrows(m, mask)
  {
    hide HighOnes, Covers, Narrows, Settled, SizeMask, Agree, IsSize;
    SizeMaskIsHigh(size);
    if flushAddr == NONE {
      mask := SizeMask(size);
      FirstTakes(vaddr, mask);
      addr := vaddr & mask;
    } else {
      mask := WidenMask(flushAddr, flushMask, vaddr, SizeMask(size));
      Widened(flushAddr, flushMask, vaddr, size, mask);
      addr := flushAddr & mask;
    }
  }

  // ---------------------------------------------------------------- the tables

  type Row = seq<Entry>

  /** Rows of the main table: an entry is in the slot of its page. */
  ghost predicate GoodMain(row: Row)
  {
    |row| == TLB_SIZE && forall i :: 0 <= i < TLB_SIZE ==> OnePage(row[i]) && InPlace(row[i], i)
  }

  ghost predicate InPlace(e: Entry, i: nat)
  {
    forall p :: IsPage(p) && Maps(e, p) ==> Index(p) == i
  }

  ghost predicate GoodVictim(row: Row)
  {
    |row| == VTLB_SIZE && forall i :: 0 <= i < VTLB_SIZE ==> OnePage(row[i])
  }

  /** No entry of the row is used for the page. */
  ghost predicate RowFree(row: Row, page: Addr)
  {
    forall i :: 0 <= i < |row| ==> !Maps(row[i], page)
  }

  /** Only entries that are used for the page have changed. */
  ghost predicate RowKept(row: Row, row': Row, page: Addr)
  {
    |row'| == |row| && forall i :: 0 <= i < |row| ==> row'[i] == row[i] || Maps(row[i], page)
  }

  ghost predicate Kept(tables: seq<Row>, tables': seq<Row>, page: Addr)
  {
    |tables'| == |tables| && forall m :: 0 <= m < |tables| ==> RowKept(tables[m], tables'[m], page)
  }

  ghost predicate TablesFree(tables: seq<Row>, page: Addr)
  {
    forall m :: 0 <= m < |tables| ==> RowFree(tables[m], page)
  }

  lemma EmptyIsGood(i: nat)
    ensures OnePage(EMPTY) && InPlace(EMPTY, i)
    ensures forall p :: IsPage(p) ==> !Maps(EMPTY, p)
  {
    hide Maps, IsPage, Index;
    forall p | IsPage(p)
      ensures !Maps(EMPTY, p)
    {
      EmptyMapsNothing(p);
    }
  }

  function EmptyRow(n: nat): (row: Row)
    ensures |row| == n && forall i :: 0 <= i < n ==> row[i] == EMPTY
  {
    if n == 0 then [] else EmptyRow(n - 1) + [EMPTY]
  }

  function EmptyTables(modes: nat, n: nat): (tables: seq<Row>)
    ensures |tables| == modes && forall m :: 0 <= m < modes ==> tables[m] == EmptyRow(n)
  {
    if modes == 0 then [] else EmptyTables(modes - 1, n) + [EmptyRow(n)]
  }

  /** tlb_flush_entry */
  function FlushEntry(e: Entry, page: Addr): (r: Entry)
  {
    if Maps(e, page) then EMPTY else e
  }

  lemma FlushEntryFlushes(e: Entry, page: Addr, i: nat)
    requires IsPage(page)
    ensures !Maps(FlushEntry(e, page), page)
    ensures OnePage(e) ==> OnePage(FlushEntry(e, page))
    ensures InPlace(e, i) ==> InPlace(FlushEntry(e, page), i)
    ensures forall p :: IsPage(p) && !Maps(e, p) ==> !Maps(FlushEntry(e, page), p)
  {
    hide Maps, IsPage, Index;
    EmptyIsGood(i);
  }

  /** In the main table only one slot can be used for a page. */
  lemma OtherSlots(row: Row, page: Addr)
    requires GoodMain(row) && IsPage(page) && !Maps(row[Index(page)], page)
    ensures RowFree(row, page)
  {
    hide Maps, IsPage;
  }

  /** An entry for one page, as tlb_set_page fills it in. */
  function NewEntry(page: Addr, read: Option<Addr>, write: Option<Addr>, code: Option<Addr>): Entry
  {
    Entry(Field(page, read), Field(page, write), Field(page, code))
  }

  /** A field: the page with flags if the access is allowed, otherwise -1. */
  function Field(page: Addr, flags: Option<Addr>): Addr
  {
    if flags.Some? then page | flags.value else NONE
  }

  lemma FieldTag(page: Addr, flags: Option<Addr>, p: Addr)
    requires IsPage(page) && IsPage(p) && FlagsIn(flags)
    ensures Tag(Field(page, flags)) == p ==> p == page
  {
    if flags.Some? {
      TagOfPage(page, flags.value);
    } else {
      EmptyMapsNothing(p);
    }
  }

  predicate FlagsIn(flags: Option<Addr>)
  {
    flags.Some? ==> Flags(flags.value)
  }

  lemma NewEntryIsGood(page: Addr, read: Option<Addr>, write: Option<Addr>, code: Option<Addr>)
    requires IsPage(page) && FlagsIn(read) && FlagsIn(write) && FlagsIn(code)
    ensures OnePage(NewEntry(page, read, write, code)) && InPlace(NewEntry(page, read, write, code), Index(page))
    ensures forall p :: IsPage(p) && Maps(NewEntry(page, read, write, code), p) ==> p == page
  {
    hide IsPage, Index, Tag, Flags, Field;
    var e := NewEntry(page, read, write, code);
    forall p | IsPage(p) && Maps(e, p)
      ensures p == page
    {
      FieldTag(page, read, p);
      FieldTag(page, write, p);
      FieldTag(page, code, p);
    }
  }

  /** The entry serves just the accesses that are allowed. */
  lemma NewEntryServes(page: Addr, read: Option<Addr>, write: Option<Addr>, code: Option<Addr>)
    requires IsPage(page) && FlagsIn(read) && FlagsIn(write) && FlagsIn(code)
    ensures var e := NewEntry(page, read, write, code);
            && (Tag(e.read) == page <==> read.Some?) && (Tag(e.write) == page <==> write.Some?) && (Tag(e.code) == page <==> code.Some?)
  {
    hide IsPage, Tag, Flags;
    FieldServes(page, read);
    FieldServes(page, write);
    FieldServes(page, code);
  }

  lemma FieldServes(page: Addr, flags: Option<Addr>)
    requires IsPage(page) && FlagsIn(flags)
    ensures Tag(Field(page, flags)) == page <==> flags.Some?
  {
    if flags.Some? {
      TagOfPage(page, flags.value);
    } else {
      EmptyMapsNothing(page);
    }
  }

  datatype Access = Reading | Writing | Fetching

  function Get(e: Entry, f: Access): Addr
  {
    match f
    case Reading => e.read
    case Writing => e.write
    case Fetching => e.code
  }

  /** The entry is used for this kind of access to the page. */
  predicate Serves(e: Entry, f: Access, page: Addr)
  {
    Tag(Get(e, f)) == page
  }

  predicate Allowed(f: Access, read: Option<Addr>, write: Option<Addr>, code: Option<Addr>)
  {
    match f
    case Reading => read.Some?
    case Writing => write.Some?
    case Fetching => code.Some?
  }

  lemma PageIsItsTag(page: Addr)
    requires IsPage(page)
    ensures Tag(page) == page
  {
  }

  lemma HitIsInPlace(e: Entry, f: Access, page: Addr)
    requires OnePage(e) && IsPage(page) && Get(e, f) == page
    ensures Maps(e, page) && InPlace(e, Index(page))
  {
    PageIsItsTag(page);
    hide IsPage, Index, Tag;
  }

  /** Two entries have changed places. */
  ghost predicate Swapped(main: seq<Row>, victim: seq<Row>, main': seq<Row>, victim': seq<Row>, mode: nat, i: nat, k: nat)
  {
    && mode < |main| && mode < |victim| && i < |main[mode]| && k < |victim[mode]|
    && main' == main[mode := main[mode][i := victim[mode][k]]] && victim' == victim[mode := victim[mode][k := main[mode][i]]]
  }

  class CpuTlb {
    const modes: nat
    var main: seq<Row>
    var victim: seq<Row>
    var vtlbIndex: nat
    var flushAddr: Addr
    var flushMask: Addr
    /** Large pages entered since the last full flush. */
    ghost var larges: set<Large>

    ghost predicate Valid()
      reads `main, `victim, `flushAddr, `flushMask, `larges
    {
      && |main| == |victim| == modes
      && (forall m :: 0 <= m < modes ==> GoodMain(main[m]) && GoodVictim(victim[m]))
      && HighOnes(flushMask) && (flushAddr == NONE ==> larges == {})
      && forall l :: l in larges ==> Covers(flushAddr, flushMask, l)
    }

    ghost function Now(): Tables
      reads `main, `victim, `larges
    {
      Tables(main, victim, larges)
    }

    /** No entry in any mode is used for the page. */
    ghost predicate Flushed(page: Addr)
      reads this
    {
      TablesFree(main, page) && TablesFree(victim, page)
    }

    constructor (n: nat)
      ensures Valid() && modes == n && larges == {}
    {
      modes := n;
      main, victim, vtlbIndex, flushAddr, flushMask, larges := EmptyTables(n, TLB_SIZE), EmptyTables(n, VTLB_SIZE), 0, NONE, 0, {};
      new;
      EmptyRowsAreGood();
    }

    /** tlb_flush */
    method Flush()
      requires Valid()
      modifies `main, `victim, `vtlbIndex, `flushAddr, `flushMask, `larges
      ensures Valid() && larges == {} && forall p :: IsPage(p) ==> Flushed(p)
      ensures vtlbIndex == 0 && flushAddr == NONE && flushMask == 0
    {
      hide Covers, HighOnes, IsPage;
      main, victim := EmptyTables(modes, TLB_SIZE), EmptyTables(modes, VTLB_SIZE);
      vtlbIndex, flushAddr, flushMask, larges := 0, NONE, 0, {};
      EmptyRowsAreGood();
    }

    /**
     tlb_flush_page: afterwards no entry is used for the page of `a`, nor for any page of a large page that `a` is
     in, if it was entered since the last full flush.
     */
    method FlushPage(a: Addr)
      requires Valid()
      modifies `main, `victim, `vtlbIndex, `flushAddr, `flushMask, `larges
      ensures Valid() && Flushed(PageOf(a))
      ensures forall l, p :: l in old(larges) && Within(a, l) && Within(p, l) && IsPage(p) ==> Flushed(p)
      ensures forall p :: IsPage(p) && old(Flushed(p)) ==> Flushed(p)
      ensures larges == if a & old(flushMask) == old(flushAddr) then {} else old(larges)
      ensures a & old(flushMask) == old(flushAddr) ==> forall p :: IsPage(p) ==> Flushed(p)
      ensures a & old(flushMask) != old(flushAddr) ==>
                && Kept(old(main), main, PageOf(a)) && Kept(old(victim), victim, PageOf(a))
                && vtlbIndex == old(vtlbIndex) && flushAddr == old(flushAddr) && flushMask == old(flushMask)
    {
      hide Kept, Covers, HighOnes, IsPage, Within, GoodMain, GoodVictim, PageOf, TablesFree, Index;
      PageOfIsPage(a);
      if a & flushMask == flushAddr {
        Flush();
        return;
      }
      forall l | l in larges
        ensures !Within(a, l)
      {
        NotCovered(flushAddr, flushMask, l, a);
      }
      FlushMain(PageOf(a));
      FlushVictim(PageOf(a));
    }

    /**
     tlb_set_page: the old entry of the slot goes to the victim table, and the size of the page is remembered if it
     is a large one.
     */
    method SetPage(vaddr: Addr, mode: nat, size: Addr, read: Option<Addr>, write: Option<Addr>, code: Option<Addr>)
      requires Valid() && mode < modes && IsPage(vaddr) && IsSize(size)
      requires FlagsIn(read) && FlagsIn(write) && FlagsIn(code)
      modifies `main, `victim, `vtlbIndex, `flushAddr, `flushMask, `larges
      ensures Valid()
      ensures larges == if size == 0x1000 then old(larges) else old(larges) + {LargePage(vaddr, size)}
      ensures mode < |main| == |old(main)| && |old(main)[mode]| == TLB_SIZE && |old(victim)[mode]| == VTLB_SIZE
      ensures main == old(main)[mode := old(main)[mode][Index(vaddr) := NewEntry(vaddr, read, write, code)]]
      ensures victim == old(victim)[mode := old(victim)[mode][old(vtlbIndex) % VTLB_SIZE := old(main)[mode][Index(vaddr)]]]
      ensures forall p :: IsPage(p) && p != vaddr && old(Flushed(p)) ==> Flushed(p)
      ensures forall f :: Serves(main[mode][Index(vaddr)], f, vaddr) <==> Allowed(f, read, write, code)
    {
      hide Covers, HighOnes, IsPage, Index, IsSize, OnePage, InPlace, NewEntry, LargePage, FlagsIn, CpuTlb.Valid, Tag;
      NewEntryServes(vaddr, read, write, code);
      var vidx := vtlbIndex % VTLB_SIZE;
      vtlbIndex := vtlbIndex + 1;
      if size != 0x1000 {
        NoteLargePage(vaddr, size);
      }
      Refill(mode, vidx, Index(vaddr), vaddr, read, write, code);
    }

    /** The flush address and mask take in one more large page. */
    method NoteLargePage(vaddr: Addr, size: Addr)
      requires Valid() && IsSize(size)
      modifies `flushAddr, `flushMask, `larges
      ensures Valid() && larges == old(larges) + {LargePage(vaddr, size)}
    {
      hide Covers, HighOnes, IsSize, GoodMain, GoodVictim, LargePage;
      var addr, mask := AddLargePage(flushAddr, flushMask, vaddr, size);
      flushAddr, flushMask, larges := addr, mask, larges + {LargePage(vaddr, size)};
    }

    /** The entry of the slot is moved to the victim table and filled in anew. */
    method Refill(mode: nat, vidx: nat, index: nat, vaddr: Addr, read: Option<Addr>, write: Option<Addr>, code: Option<Addr>)
      requires Valid() && mode < modes && IsPage(vaddr) && index == Index(vaddr) && vidx < VTLB_SIZE
      requires FlagsIn(read) && FlagsIn(write) && FlagsIn(code)
      modifies `main, `victim
      ensures Valid()
      ensures mode < |main| == |old(main)| && |old(main)[mode]| == TLB_SIZE && |old(victim)[mode]| == VTLB_SIZE
      ensures main == old(main)[mode := old(main)[mode][index := NewEntry(vaddr, read, write, code)]]
      ensures victim == old(victim)[mode := old(victim)[mode][vidx := old(main)[mode][index]]]
      ensures forall p :: IsPage(p) && p != vaddr && old(Flushed(p)) ==> Flushed(p)
    {
      hide Covers, HighOnes, IsPage, Index, OnePage, InPlace, NewEntry, FlagsIn, Maps;
      NewEntryIsGood(vaddr, read, write, code);
      assert GoodMain(main[mode]) && GoodVictim(victim[mode]);
      victim := victim[mode := victim[mode][vidx := main[mode][index]]];
      main := main[mode := main[mode][index := NewEntry(vaddr, read, write, code)]];
    }

    /** VICTIM_TLB_HIT: an entry found in the victim table changes places with the one in the main table. */
    method VictimHit(mode: nat, addr: Addr, field: Access) returns (hit: bool)
      requires Valid() && mode < modes
      modifies `main, `victim
      ensures Valid()
      ensures forall p :: IsPage(p) && old(Flushed(p)) ==> Flushed(p)
      ensures hit <==> exists k :: 0 <= k < |old(victim)[mode]| && Get(old(victim)[mode][k], field) == PageOf(addr)
      ensures hit ==> Get(main[mode][Index(PageOf(addr))], field) == PageOf(addr)
      ensures hit ==> exists k :: 0 <= k < VTLB_SIZE && Swapped(old(main), old(victim), main, victim, mode, Index(PageOf(addr)), k)
      ensures !hit ==> main == old(main) && victim == old(victim)
    {
      hide Covers, HighOnes, IsPage, Index, OnePage, InPlace, Maps, PageOf;
      PageOfIsPage(addr);
      var page := PageOf(addr);
      var index := Index(page);
      assert GoodMain(main[mode]) && GoodVictim(victim[mode]);
      var k: nat := VTLB_SIZE;
      while k > 0
        invariant k <= VTLB_SIZE && Valid() && main == old(main) && victim == old(victim)
        invariant |victim[mode]| == VTLB_SIZE && forall j :: k <= j < VTLB_SIZE ==> Get(victim[mode][j], field) != page
      {
        k := k - 1;
        if Get(victim[mode][k], field) == page {
          HitIsInPlace(victim[mode][k], field, page);
          var e := main[mode][index];
          main := main[mode := main[mode][index := victim[mode][k]]];
          victim := victim[mode := victim[mode][k := e]];
          assert Swapped(old(main), old(victim), main, victim, mode, index, k);
          return true;
        }
      }
      return false;
    }

    /** The one slot of each mode's main table. */
    method FlushMain(page: Addr)
      requires Valid() && IsPage(page)
      modifies `main
      ensures Valid() && TablesFree(main, page) && Kept(old(main), main, page)
      ensures forall p :: IsPage(p) && old(TablesFree(main, p)) ==> TablesFree(main, p)
    {
      hide Covers, HighOnes, IsPage, GoodMain, GoodVictim, RowFree, RowKept, Index, FlushEntry;
      forall k | 0 <= k < |main|
        ensures RowKept(main[k], main[k], page)
      {
        KeptItself(main[k], page);
      }
      ghost var main0 := main;
      var i := Index(page);
      for m := 0 to modes
        invariant Valid() && |main| == |main0|
        invariant forall k :: 0 <= k < |main| ==> RowKept(main0[k], main[k], page) && (m <= k ==> main[k] == main0[k])
        invariant forall k :: 0 <= k < m ==> RowFree(main[k], page)
        invariant forall k, p :: 0 <= k < |main| && IsPage(p) && RowFree(main0[k], p) ==> RowFree(main[k], p)
      {
        MainRow(main[m], page);
        main := main[m := main[m][i := FlushEntry(main[m][i], page)]];
      }
    }

    /** All of each mode's victim table. */
    method FlushVictim(page: Addr)
      requires Valid() && IsPage(page)
      modifies `victim
      ensures Valid() && TablesFree(victim, page) && Kept(old(victim), victim, page)
      ensures forall p :: IsPage(p) && old(TablesFree(victim, p)) ==> TablesFree(victim, p)
    {
      hide Covers, HighOnes, IsPage, GoodMain, GoodVictim, RowFree, RowKept;
      forall k | 0 <= k < |victim|
        ensures RowKept(victim[k], victim[k], page)
      {
        KeptItself(victim[k], page);
      }
      ghost var victim0 := victim;
      for m := 0 to modes
        invariant Valid() && |victim| == |victim0|
        invariant forall k :: 0 <= k < |victim| ==> RowKept(victim0[k], victim[k], page) && (m <= k ==> victim[k] == victim0[k])
        invariant forall k :: 0 <= k < m ==> RowFree(victim[k], page)
        invariant forall k, p :: 0 <= k < |victim| && IsPage(p) && RowFree(victim0[k], p) ==> RowFree(victim[k], p)
      {
        var row := FlushRow(victim[m], page);
        victim := victim[m := row];
      }
    }
  }

  lemma EmptyRowsAreGood()
    ensures GoodMain(EmptyRow(TLB_SIZE)) && GoodVictim(EmptyRow(VTLB_SIZE)) && HighOnes(0)
    ensures forall p, n :: IsPage(p) ==> RowFree(EmptyRow(n), p)
  {
    hide Maps, IsPage, Index;
    EmptyIsGood(0);
    forall i: nat
      ensures InPlace(EMPTY, i)
    {
      EmptyIsGood(i);
    }
  }

  lemma PageOfIsPage(a: Addr)
    ensures IsPage(PageOf(a))
  {
  }

  lemma NotCovered(flushAddr: Addr, flushMask: Addr, l: Large, a: Addr)
    requires Covers(flushAddr, flushMask, l) && a & flushMask != flushAddr
    ensures !Within(a, l)
  {
    if Within(a, l) {
      CoveredIsFlushed(flushAddr, flushMask, l, a);
      assert false;
    }
  }

  lemma MainRow(row: Row, page: Addr)
    requires GoodMain(row) && IsPage(page)
    ensures |row| == TLB_SIZE
    ensures var row' := row[Index(page) := FlushEntry(row[Index(page)], page)];
            && GoodMain(row') && RowFree(row', page) && RowKept(row, row', page)
            && forall p :: IsPage(p) && RowFree(row, p) ==> RowFree(row', p)
  {
    hide Maps, IsPage, Index;
    var i := Index(page);
    var row' := row[i := FlushEntry(row[i], page)];
    FlushEntryFlushes(row[i], page, i);
    OtherSlots(row', page);
  }

  lemma KeptItself(row: Row, page: Addr)
    ensures RowKept(row, row, page)
  {
  }

  method FlushRow(row: Row, page: Addr) returns (row': Row)
    requires GoodVictim(row) && IsPage(page)
    ensures GoodVictim(row') && RowFree(row', page) && RowKept(row, row', page)
    ensures forall p :: IsPage(p) && RowFree(row, p) ==> RowFree(row', p)
  {
    hide Maps, IsPage, OnePage;
    row' := row;
    for k := 0 to VTLB_SIZE
      invariant |row'| == VTLB_SIZE && forall i :: 0 <= i < VTLB_SIZE ==> OnePage(row'[i])
      invariant forall i :: 0 <= i < k ==> !Maps(row'[i], page)
      invariant forall i :: 0 <= i < VTLB_SIZE ==> row'[i] == row[i] || (i < k && Maps(row[i], page))
      invariant forall i, p :: 0 <= i < VTLB_SIZE && IsPage(p) && !Maps(row[i], p) ==> !Maps(row'[i], p)
    {
      FlushEntryFlushes(row'[k], page, 0);
      row' := row'[k := FlushEntry(row'[k], page)];
    }
  }

  /** All that happens to a TLB. */
  datatype Event =
    | Sets(vaddr: Addr, mode: nat, size: Addr, read: Option<Addr>, write: Option<Addr>, code: Option<Addr>)
    | Flushes
    | FlushesPage(a: Addr)
    | Misses(mode: nat, addr: Addr, field: Access)

  /** The event is a call of tlb_set_page as a target makes it. */
  predicate Enters(e: Event, modes: nat)
  {
    e.Sets? && e.mode < modes && IsPage(e.vaddr) && IsSize(e.size) && FlagsIn(e.read) && FlagsIn(e.write) && FlagsIn(e.code)
  }

  /** Page `p` has been entered again among the events `(i, n)`. */
  ghost predicate EnteredSince(events: seq<Event>, modes: nat, i: int, n: int, p: Addr)
  {
    exists j :: i < j < n && j < |events| && 0 <= j && Enters(events[j], modes) && events[j].vaddr == p
  }

  /** The contents of a TLB at one moment. */
  datatype Tables = Tables(main: seq<Row>, victim: seq<Row>, larges: set<Large>)

  ghost predicate FreeIn(t: Tables, page: Addr)
  {
    TablesFree(t.main, page) && TablesFree(t.victim, page)
  }

  /** A large page entered by an event of the history, and one of its pages, not entered again before event `n`. */
  ghost predicate StillOf(events: seq<Event>, modes: nat, n: nat, i: nat, p: Addr)
  {
    && i < n && i < |events| && events[i].Sets? && Enters(events[i], modes) && IsPage(p)
    && Within(p, LargePage(events[i].vaddr, events[i].size)) && !EnteredSince(events, modes, i, n, p)
  }

  /**
   Of the first `n` events, every large page is remembered, unless a full flush has since emptied the tables: then
   no page of it is in use that has not been entered again.
   */
  ghost predicate Accounted(events: seq<Event>, modes: nat, n: nat, t: Tables)
  {
    forall i: nat, p :: StillOf(events, modes, n, i, p) && events[i].size != 0x1000 ==>
      LargePage(events[i].vaddr, events[i].size) in t.larges || FreeIn(t, p)
  }

  ghost predicate IsIn(tables: seq<Row>, mode: nat, i: nat, e: Entry)
  {
    mode < |tables| && i < |tables[mode]| && tables[mode][i] == e
  }

  /** What one event does to the tables. */
  ghost predicate Changes(e: Event, modes: nat, t: Tables, t': Tables)
  {
    && (Enters(e, modes) && e.size != 0x1000 ==> LargePage(e.vaddr, e.size) in t'.larges)
    && (t.larges <= t'.larges || forall p :: IsPage(p) ==> FreeIn(t', p))
    && (Enters(e, modes) ==> IsIn(t'.main, e.mode, Index(e.vaddr), NewEntry(e.vaddr, e.read, e.write, e.code)))
    && (e.FlushesPage? ==> FreeIn(t', PageOf(e.a)))
    && (e.Flushes? ==> forall p :: IsPage(p) ==> FreeIn(t', p))
    && forall p :: IsPage(p) && FreeIn(t, p) && !(Enters(e, modes) && e.vaddr == p) ==> FreeIn(t', p)
  }

  /** Being entered is for good, and event `n` counts from then on. */
  lemma EnteredStays(events: seq<Event>, modes: nat, i: int, n: nat, p: Addr)
    requires i < n < |events| && !EnteredSince(events, modes, i, n + 1, p)
    ensures !EnteredSince(events, modes, i, n, p) && !(Enters(events[n], modes) && events[n].vaddr == p)
  {
  }

  lemma OneMoreEvent(events: seq<Event>, modes: nat, n: nat, t: Tables, t': Tables)
    requires n < |events| && Accounted(events, modes, n, t) && Changes(events[n], modes, t, t')
    ensures Accounted(events, modes, n + 1, t')
  {
    hide IsPage, Enters, Within, LargePage, FreeIn, EnteredSince;
    forall i: nat, p | StillOf(events, modes, n + 1, i, p) && events[i].size != 0x1000
      ensures LargePage(events[i].vaddr, events[i].size) in t'.larges || FreeIn(t', p)
    {
      if i < n {
        EnteredStays(events, modes, i, n, p);
        assert StillOf(events, modes, n, i, p);
      }
    }
  }

  /** A page of the ordinary size is all of its own large page. */
  lemma OrdinaryPage(a: Addr, p: Addr, vaddr: Addr)
    requires IsPage(p) && Within(a, LargePage(vaddr, 0x1000)) && Within(p, LargePage(vaddr, 0x1000))
    ensures p == PageOf(a)
  {
  }

  /** One event. */
  method Happen(tlb: CpuTlb, e: Event)
    requires tlb.Valid()
    modifies tlb
    ensures tlb.Valid() && Changes(e, tlb.modes, old(tlb.Now()), tlb.Now())
  {
    hide IsPage, IsSize, FlagsIn, CpuTlb.Valid, Within, PageOf, LargePage, Maps, NewEntry, Index, TablesFree;
    match e
    case Sets(vaddr, mode, size, read, write, code) =>
      if Enters(e, tlb.modes) {
        tlb.SetPage(vaddr, mode, size, read, write, code);
      }
    case Flushes =>
      tlb.Flush();
    case FlushesPage(b) =>
      tlb.FlushPage(b);
    case Misses(mode, addr, field) =>
      if mode < tlb.modes {
        var _ := tlb.VictimHit(mode, addr, field);
      }
  }

  /**
   After any history and a flush of `a`, no entry is used for the page of `a`, nor for any page of a large page with
   `a` in it that the history has entered, unless that page has been entered again since.
   */
  method Run(modes: nat, events: seq<Event>, a: Addr) returns (tlb: CpuTlb)
    ensures tlb.Valid() && tlb.modes == modes && tlb.Flushed(PageOf(a))
    ensures forall i: nat, p :: StillOf(events, modes, |events|, i, p) && Within(a, LargePage(events[i].vaddr, events[i].size)) ==>
              tlb.Flushed(p)
  {
    hide IsPage, CpuTlb.Valid, Within, PageOf, LargePage, Enters, EnteredSince, Accounted, Changes, TablesFree;
    tlb := new CpuTlb(modes);
    NothingEntered(events, modes, tlb.Now());
    for n := 0 to |events|
      invariant fresh(tlb) && tlb.Valid() && tlb.modes == modes && Accounted(events, modes, n, tlb.Now())
    {
      ghost var before := tlb.Now();
      Happen(tlb, events[n]);
      OneMoreEvent(events, modes, n, before, tlb.Now());
    }
    ghost var before := tlb.Now();
    tlb.FlushPage(a);
    forall i: nat, p | StillOf(events, modes, |events|, i, p) && Within(a, LargePage(events[i].vaddr, events[i].size))
      ensures tlb.Flushed(p)
    {
      if events[i].size == 0x1000 {
        OrdinaryPage(a, p, events[i].vaddr);
      } else {
        RememberedOrFree(events, modes, before, i, p);
      }
    }
  }

  lemma NothingEntered(events: seq<Event>, modes: nat, t: Tables)
    ensures Accounted(events, modes, 0, t)
  {
  }

  lemma RememberedOrFree(events: seq<Event>, modes: nat, t: Tables, i: nat, p: Addr)
    requires Accounted(events, modes, |events|, t) && StillOf(events, modes, |events|, i, p) && events[i].size != 0x1000
    ensures LargePage(events[i].vaddr, events[i].size) in t.larges || FreeIn(t, p)
  {
  }
}
