/**
 The address space dispatch (exec.c): flat, disjoint memory sections are cut into pieces that cover
 whole pages, which go into the page map, and pieces inside one page, which go into that page's
 subpage table.
 */
module Dispatch {
  import opened Basics
  import opened Radix
  import opened PageTree
  import opened Compaction
  import opened PageMap

  /** Memory regions as far as dispatching tells them apart. */
  datatype Region = Unassigned | NotDirty | Rom | Watch | Subpage(id: nat) | Guest(name: nat)

  /** MemoryRegionSection */
  datatype Section = Section(mr: Region, offset: nat, inRegion: nat, size: nat)

  const SPACE: nat := 0x1_0000_0000_0000_0000

  /** Number of pages of the address space. */
  const PAGES: nat := 0x10_0000_0000_0000

  /** Number of pages the tree can hold: P_L2_LEVELS digits. */
  const TREE_PAGES: nat := 0x40_0000_0000_0000

  /** The contents of a dispatch at one moment. */
  datatype Tables = Tables(nodes: seq<Node>, root: Entry, sections: seq<Section>, subpages: seq<seq<nat>>)

  predicate Contains(s: Section, addr: nat)
  {
    s.offset <= addr < s.offset + s.size
  }

  /** The range check at the end of phys_page_find; a section of 2^64 bytes has `size.hi` set. */
  predicate Covers(s: Section, addr: nat)
  {
    s.size >= SPACE || Contains(s, addr)
  }

  ghost function At(t: Tables, x: nat): nat
  {
    Find(t.nodes, t.root, LEVELS, x)
  }

  /** phys_page_find */
  ghost function PageFind(t: Tables, addr: nat): nat
  {
    var s := At(t, addr / PAGE_SIZE);
    if s < |t.sections| && Covers(t.sections[s], addr) then s else UNASSIGNED
  }

  /** address_space_lookup_region with `resolve_subpage` */
  ghost function Lookup(t: Tables, addr: nat): nat
  {
    Resolve(t, PageFind(t, addr), addr % PAGE_SIZE)
  }

  ghost function Resolve(t: Tables, s: nat, o: nat): nat
  {
    if s < |t.sections| && t.sections[s].mr.Subpage? then
      var id := t.sections[s].mr.id;
      if id < |t.subpages| && o < |t.subpages[id]| then t.subpages[id][o] else UNASSIGNED
    else s
  }

  // ---------------------------------------------------------------- what holds at all times

  /** The page `x` lies in the section. */
  predicate HasPage(s: Section, x: nat)
  {
    s.offset <= x * PAGE_SIZE && x * PAGE_SIZE + PAGE_SIZE <= s.offset + s.size
  }

  predicate WholePages(s: Section)
  {
    s.offset % PAGE_SIZE == 0 && s.size % PAGE_SIZE == 0 && s.offset + s.size <= SPACE
  }

  /** An entry of a subpage table: nothing, or the number of a guest section. */
  ghost predicate GoodSlot(sections: seq<Section>, n: nat)
  {
    n == UNASSIGNED || (n < |sections| && sections[n].mr.Guest?)
  }

  ghost predicate GoodTable(sections: seq<Section>, table: seq<nat>)
  {
    && |table| == PAGE_SIZE
    && (forall o :: 0 <= o < PAGE_SIZE ==> GoodSlot(sections, table[o]))
    && exists o :: 0 <= o < PAGE_SIZE && table[o] != UNASSIGNED
  }

  /** All pages of section `s` lead to it. */
  ghost predicate Full(t: Tables, s: nat)
    requires s < |t.sections|
  {
    forall z: nat :: HasPage(t.sections[s], z) ==> At(t, z) == s
  }

  /** What a page leads to: nothing, or a section all of whose pages lead to it. */
  ghost predicate GoodPage(t: Tables, x: nat)
  {
    At(t, x) == UNASSIGNED || GoodTarget(t, At(t, x), x)
  }

  ghost predicate GoodTarget(t: Tables, s: nat, x: nat)
  {
    && s < |t.sections| && WholePages(t.sections[s]) && HasPage(t.sections[s], x) && Full(t, s)
    && match t.sections[s].mr {
         case Guest(_) => true
         case Subpage(id) => t.sections[s].size == PAGE_SIZE && id < |t.subpages| && GoodTable(t.sections, t.subpages[id])
         case _ => false
       }
  }

  /** mem_begin's four sections. */
  ghost predicate Fixed(sections: seq<Section>)
  {
    |sections| >= 4 && sections[..4] == FIXED
  }

  const FIXED := [Section(Unassigned, 0, 0, SPACE), Section(NotDirty, 0, 0, SPACE), Section(Rom, 0, 0, SPACE), Section(Watch, 0, 0, SPACE)]

  /** Every subpage table belongs to one section. */
  ghost predicate OwnTables(t: Tables)
  {
    && (forall s :: 0 <= s < |t.sections| && t.sections[s].mr.Subpage? ==> t.sections[s].mr.id < |t.subpages|)
    && (forall i :: 0 <= i < |t.subpages| ==> |t.subpages[i]| == PAGE_SIZE)
    && forall s, s' :: 0 <= s < s' < |t.sections| && t.sections[s].mr.Subpage? ==> t.sections[s].mr != t.sections[s'].mr
  }

  ghost predicate Sound(t: Tables)
  {
    && Fixed(t.sections) && OwnTables(t)
    && forall x: nat :: x < TREE_PAGES ==> GoodPage(t, x)
  }

  /** Nothing is registered for any address of the section. */
  ghost predicate Free(t: Tables, section: Section)
  {
    forall addr: nat :: Contains(section, addr) ==> Lookup(t, addr) == UNASSIGNED
  }

  /** The addresses of the piece now lead to section `n`, all others where they led before. */
  ghost predicate Registers(t: Tables, t': Tables, piece: Section, n: nat)
  {
    && |t.sections| <= n < |t'.sections| && t.sections <= t'.sections && t'.sections[n] == piece
    && forall addr: nat :: addr < SPACE ==> Lookup(t', addr) == if Contains(piece, addr) then n else Lookup(t, addr)
  }

  /** How the page map has changed. */
  ghost predicate Mapped(t: Tables, t': Tables, lo: nat, hi: nat, n: nat)
  {
    forall x: nat :: x < TREE_PAGES ==> At(t', x) == if lo <= x < hi then n else At(t, x)
  }

  ghost predicate Unmapped(t: Tables, lo: nat, hi: nat)
  {
    forall z: nat :: lo <= z < hi ==> At(t, z) == UNASSIGNED
  }

  /** Adding sections does not touch the map. */
  lemma SectionsApart(t: Tables, t': Tables, lo: nat, hi: nat)
    requires t'.nodes == t.nodes && t'.root == t.root && Unmapped(t, lo, hi)
    ensures Unmapped(t', lo, hi)
    ensures forall z: nat :: At(t', z) == At(t, z)
  {
    hide Find;
    forall z: nat | lo <= z < hi
      ensures At(t', z) == UNASSIGNED
    {
      assert At(t, z) == UNASSIGNED;
    }
  }

  lemma MappedSince(t: Tables, t': Tables, t'': Tables, lo: nat, hi: nat, n: nat)
    requires Mapped(t', t'', lo, hi, n) && forall z: nat :: At(t', z) == At(t, z)
    ensures Mapped(t, t'', lo, hi, n)
  {
  }

  lemma MappedStill(t: Tables, t': Tables, t'': Tables, lo: nat, hi: nat, n: nat)
    requires Mapped(t, t', lo, hi, n) && t''.nodes == t'.nodes && t''.root == t'.root
    ensures Mapped(t, t'', lo, hi, n)
  {
    hide Find;
    forall x: nat | x < TREE_PAGES
      ensures At(t'', x) == if lo <= x < hi then n else At(t, x)
    {
      assert At(t', x) == At(t'', x);
    }
  }

  lemma OnePage(t: Tables, x: nat)
    requires At(t, x) == UNASSIGNED
    ensures Unmapped(t, x, x + 1)
  {
  }

  lemma PageCount(section: Section)
    requires WholePages(section) && section.size > 0
    ensures section.offset / PAGE_SIZE + section.size / PAGE_SIZE == (section.offset + section.size) / PAGE_SIZE <= PAGES
    ensures section.size / PAGE_SIZE > 0
  {
  }

  lemma SoundSections(t: Tables)
    requires Sound(t)
    ensures |t.sections| >= 4
  {
  }

  lemma PageOf(addr: nat)
    requires addr < SPACE
    ensures addr / PAGE_SIZE < PAGES
    ensures addr == addr / PAGE_SIZE * PAGE_SIZE + addr % PAGE_SIZE
  {
  }

  /** A mapped page passes the range check. */
  lemma FindsPage(t: Tables, addr: nat)
    requires Sound(t) && addr < SPACE
    ensures PageFind(t, addr) == At(t, addr / PAGE_SIZE)
  {
    hide Find;
    PageOf(addr);
    assert GoodPage(t, addr / PAGE_SIZE);
  }

  /** Pages that are wholly free are not mapped. */
  lemma FreePage(t: Tables, section: Section, x: nat)
    requires Sound(t) && Free(t, section) && x < PAGES && HasPage(section, x)
    ensures At(t, x) == UNASSIGNED
  {
    hide Find;
    assert GoodPage(t, x);
    if At(t, x) != UNASSIGNED {
      var s := At(t, x);
      var o := 0;
      if t.sections[s].mr.Subpage? {
        o :| 0 <= o < PAGE_SIZE && t.subpages[t.sections[s].mr.id][o] != UNASSIGNED;
      }
      assert Contains(section, x * PAGE_SIZE + o);
      FindsPage(t, x * PAGE_SIZE + o);
      assert false;
    }
  }

  lemma FreePages(t: Tables, section: Section)
    requires Sound(t) && Free(t, section) && WholePages(section)
    ensures Unmapped(t, section.offset / PAGE_SIZE, (section.offset + section.size) / PAGE_SIZE)
  {
    hide Sound, Free, At;
    forall z: nat | section.offset / PAGE_SIZE <= z < (section.offset + section.size) / PAGE_SIZE
      ensures At(t, z) == UNASSIGNED
    {
      FreePage(t, section, z);
    }
  }

  // ---------------------------------------------------------------- registering a piece

  /** A mapped section stays good while its pages and its table stay. */
  lemma KeepsTarget(t: Tables, t': Tables, s: nat, x: nat)
    requires GoodTarget(t, s, x) && t.sections <= t'.sections
    requires t.sections[s].mr.Subpage? ==>
               t.sections[s].mr.id < |t'.subpages| && t'.subpages[t.sections[s].mr.id] == t.subpages[t.sections[s].mr.id]
    requires forall z: nat :: HasPage(t.sections[s], z) ==> At(t', z) == s
    ensures GoodTarget(t', s, x)
  {
    hide At, HasPage;
  }

  /** Pages outside the newly mapped range lead where they led, and so do all pages of their section. */
  lemma KeepsPage(t: Tables, t': Tables, lo: nat, hi: nat, n: nat, x: nat)
    requires Sound(t) && t.sections <= t'.sections && t.subpages <= t'.subpages
    requires Mapped(t, t', lo, hi, n) && Unmapped(t, lo, hi)
    requires x < TREE_PAGES && !(lo <= x < hi)
    ensures GoodPage(t', x)
  {
    hide At, GoodTable;
    assert GoodPage(t, x);
    var s := At(t, x);
    if s != UNASSIGNED {
      forall z: nat | HasPage(t.sections[s], z)
        ensures At(t', z) == s
      {
        assert At(t, z) == s;
      }
      KeepsTarget(t, t', s, x);
    }
  }

  /** Addresses on other pages are looked up as before. */
  lemma KeepsLookup(t: Tables, t': Tables, addr: nat)
    requires Sound(t) && Sound(t') && addr < SPACE && t.sections <= t'.sections
    requires At(t', addr / PAGE_SIZE) == At(t, addr / PAGE_SIZE)
    requires At(t, addr / PAGE_SIZE) < |t.sections|
    requires t.sections[At(t, addr / PAGE_SIZE)].mr.Subpage? ==>
               var id := t.sections[At(t, addr / PAGE_SIZE)].mr.id;
               id < |t.subpages| && id < |t'.subpages| && t'.subpages[id] == t.subpages[id]
    ensures Lookup(t', addr) == Lookup(t, addr)
  {
    hide At, Sound;
    FindsPage(t, addr);
    FindsPage(t', addr);
  }

  lemma MultipageRegistered(t: Tables, t': Tables, section: Section)
    requires Sound(t) && Free(t, section) && WholePages(section) && section.size > 0 && section.mr.Guest?
    requires t'.sections == t.sections + [section] && t'.subpages == t.subpages
    requires Mapped(t, t', section.offset / PAGE_SIZE, (section.offset + section.size) / PAGE_SIZE, |t.sections|)
    ensures Sound(t') && Registers(t, t', section, |t.sections|)
  {
    hide At, GoodTable, Free;
    var lo, hi, n := section.offset / PAGE_SIZE, (section.offset + section.size) / PAGE_SIZE, |t.sections|;
    FreePages(t, section);
    forall x: nat | x < TREE_PAGES
      ensures GoodPage(t', x)
    {
      if !(lo <= x < hi) {
        KeepsPage(t, t', lo, hi, n, x);
      }
    }
    forall addr: nat | addr < SPACE
      ensures Lookup(t', addr) == if Contains(section, addr) then n else Lookup(t, addr)
    {
      PageOf(addr);
      FindsPage(t', addr);
      assert GoodPage(t, addr / PAGE_SIZE);
      if !Contains(section, addr) {
        KeepsLookup(t, t', addr);
      }
    }
  }

  /** A piece that lies within page `x`. */
  predicate InsidePage(s: Section, x: nat)
  {
    x * PAGE_SIZE <= s.offset && s.offset + s.size <= x * PAGE_SIZE + PAGE_SIZE && s.size > 0 && x < PAGES
  }

  /** What a page without section reads as in a subpage table. */
  function Blank(): (table: seq<nat>)
    ensures |table| == PAGE_SIZE && forall o :: 0 <= o < PAGE_SIZE ==> table[o] == UNASSIGNED
  {
    seq(PAGE_SIZE, _ => UNASSIGNED)
  }

  /** `table'` has section `n` at the places `[lo, hi)` and is `table` elsewhere. */
  predicate Filled(table: seq<nat>, table': seq<nat>, lo: nat, hi: nat, n: nat)
  {
    && |table'| == |table|
    && forall o :: 0 <= o < |table| ==> table'[o] == if lo <= o < hi then n else table[o]
  }

  /** The page's place in its subpage table. */
  predicate FilledFor(table: seq<nat>, table': seq<nat>, piece: Section, n: nat)
  {
    Filled(table, table', piece.offset % PAGE_SIZE, piece.offset % PAGE_SIZE + piece.size, n)
  }

  lemma FillKeepsGood(sections: seq<Section>, sections': seq<Section>, table: seq<nat>, table': seq<nat>, piece: Section, x: nat, n: nat)
    requires InsidePage(piece, x) && |table| == PAGE_SIZE && FilledFor(table, table', piece, n)
    requires forall o :: 0 <= o < PAGE_SIZE ==> GoodSlot(sections, table[o])
    requires sections <= sections' && UNASSIGNED < n < |sections'| && sections'[n].mr.Guest?
    ensures GoodTable(sections', table')
  {
    assert table'[piece.offset % PAGE_SIZE] == n;
    forall o | 0 <= o < PAGE_SIZE
      ensures GoodSlot(sections', table'[o])
    {
      assert GoodSlot(sections, table[o]);
    }
  }

  /** Only one section has page `x`, so no other page uses its table. */
  lemma OtherTable(t: Tables, x: nat, y: nat)
    requires Sound(t) && x < TREE_PAGES && y < TREE_PAGES && x != y
    requires At(t, x) < |t.sections| && t.sections[At(t, x)].mr.Subpage?
    requires At(t, y) < |t.sections| && t.sections[At(t, y)].mr.Subpage?
    ensures t.sections[At(t, x)].mr != t.sections[At(t, y)].mr
  {
    hide At;
    assert GoodPage(t, x) && GoodPage(t, y);
  }

  /** The first piece on a page. */
  lemma FirstOnPage(t: Tables, t': Tables, piece: Section, x: nat)
    requires Sound(t) && InsidePage(piece, x) && piece.mr.Guest? && At(t, x) == UNASSIGNED
    requires t'.sections == t.sections + [Section(Subpage(|t.subpages|), x * PAGE_SIZE, 0, PAGE_SIZE), piece]
    requires |t'.subpages| == |t.subpages| + 1 && t.subpages <= t'.subpages
    requires FilledFor(Blank(), t'.subpages[|t.subpages|], piece, |t.sections| + 1)
    requires Mapped(t, t', x, x + 1, |t.sections|)
    ensures Sound(t') && Registers(t, t', piece, |t.sections| + 1)
  {
    hide At, GoodTable;
    var n := |t.sections|;
    FillKeepsGood(t.sections, t'.sections, Blank(), t'.subpages[|t.subpages|], piece, x, n + 1);
    forall y: nat | y < TREE_PAGES
      ensures GoodPage(t', y)
    {
      if y != x {
        KeepsPage(t, t', x, x + 1, n, y);
      } else {
        assert GoodTarget(t', n, x);
      }
    }
    forall addr: nat | addr < SPACE
      ensures Lookup(t', addr) == if Contains(piece, addr) then n + 1 else Lookup(t, addr)
    {
      PageOf(addr);
      FindsPage(t, addr);
      FindsPage(t', addr);
      assert GoodPage(t, addr / PAGE_SIZE);
      if addr / PAGE_SIZE != x {
        KeepsLookup(t, t', addr);
      }
    }
  }

  /** A further piece on a page. */
  lemma NextOnPage(t: Tables, t': Tables, piece: Section, x: nat)
    requires Sound(t) && InsidePage(piece, x) && piece.mr.Guest?
    requires At(t, x) < |t.sections| && t.sections[At(t, x)].mr.Subpage?
    requires t'.nodes == t.nodes && t'.root == t.root && t'.sections == t.sections + [piece]
    requires var id := t.sections[At(t, x)].mr.id;
             id < |t.subpages| && |t'.subpages| == |t.subpages| && FilledFor(t.subpages[id], t'.subpages[id], piece, |t.sections|) &&
             forall i :: 0 <= i < |t.subpages| && i != id ==> t'.subpages[i] == t.subpages[i]
    ensures Sound(t') && Registers(t, t', piece, |t.sections|)
  {
    hide GoodTable;
    var n, s := |t.sections|, At(t, x);
    var id := t.sections[s].mr.id;
    assert forall z: nat :: At(t', z) == At(t, z);
    hide At;
    assert GoodPage(t, x);
    TableSlots(t.sections, t.subpages[id]);
    FillKeepsGood(t.sections, t'.sections, t.subpages[id], t'.subpages[id], piece, x, n);
    forall y: nat | y < TREE_PAGES
      ensures GoodPage(t', y)
    {
      assert GoodPage(t, y);
      if y == x {
        assert GoodTarget(t', s, x);
      } else if At(t, y) != UNASSIGNED {
        if t.sections[At(t, y)].mr.Subpage? {
          OtherTable(t, x, y);
        }
        KeepsTarget(t, t', At(t, y), y);
      }
    }
    forall addr: nat | addr < SPACE
      ensures Lookup(t', addr) == if Contains(piece, addr) then n else Lookup(t, addr)
    {
      PageOf(addr);
      FindsPage(t, addr);
      FindsPage(t', addr);
      assert GoodPage(t, addr / PAGE_SIZE);
      if addr / PAGE_SIZE != x {
        if t.sections[At(t, addr / PAGE_SIZE)].mr.Subpage? {
          OtherTable(t, x, addr / PAGE_SIZE);
        }
        KeepsLookup(t, t', addr);
      }
    }
  }

  lemma TableSlots(sections: seq<Section>, table: seq<nat>)
    requires GoodTable(sections, table)
    ensures |table| == PAGE_SIZE && forall o :: 0 <= o < PAGE_SIZE ==> GoodSlot(sections, table[o])
  {
  }

  // ---------------------------------------------------------------- compaction

  /** Same lookup everywhere, for all addresses. */
  ghost predicate SameLookup(t: Tables, t': Tables)
  {
    forall addr: nat :: addr < SPACE ==> PageFind(t', addr) == PageFind(t, addr) && Lookup(t', addr) == Lookup(t, addr)
  }

  /**
   Compaction does not change what any address leads to: where a page without section takes on the
   section of another page, that section has all its pages mapped, so it does not contain this one
   and the range check turns it away.
   */
  lemma CompactedLookup(t: Tables, t': Tables)
    requires Sound(t) && t'.sections == t.sections && t'.subpages == t.subpages
    requires Blurs(t.nodes, t.root, t'.nodes, t'.root, LEVELS - 1, 0)
    ensures SameLookup(t, t') && forall x: nat :: x < PAGES ==> At(t', x) < |t'.sections|
  {
    hide Find;
    forall x: nat | x < PAGES
      ensures At(t', x) < |t'.sections|
    {
      SpaceFits(x);
      assert BlursAt(t.nodes, t.root, t'.nodes, t'.root, LEVELS - 1, 0, x);
      if At(t', x) != At(t, x) {
        var y: nat :| InNode(y, LEVELS - 1, 0) && Find(t.nodes, t.root, LEVELS, y) == At(t', x);
        SpaceFits(y);
        assert GoodPage(t, y);
      } else {
        assert GoodPage(t, x);
      }
    }
    forall addr: nat | addr < SPACE
      ensures PageFind(t', addr) == PageFind(t, addr) && Lookup(t', addr) == Lookup(t, addr)
    {
      PageOf(addr);
      SpaceFits(addr / PAGE_SIZE);
      assert BlursAt(t.nodes, t.root, t'.nodes, t'.root, LEVELS - 1, 0, addr / PAGE_SIZE);
      if At(t', addr / PAGE_SIZE) != At(t, addr / PAGE_SIZE) {
        var s := At(t', addr / PAGE_SIZE);
        var y: nat :| InNode(y, LEVELS - 1, 0) && Find(t.nodes, t.root, LEVELS, y) == s;
        SpaceFits(y);
        assert GoodPage(t, y);
      }
    }
  }

  lemma TreePages()
    ensures Step(LEVELS) == TREE_PAGES
  {
    assert Step(6) == 512 * (512 * (512 * (512 * Step(2))));
  }

  /** The tree is larger than the address space. */
  lemma SpaceFits(x: nat)
    ensures InNode(x, LEVELS - 1, 0) <==> x < TREE_PAGES
  {
    assert Step(6) == 512 * (512 * (512 * (512 * Step(2))));
  }

  // ---------------------------------------------------------------- how many sections are used

  ghost predicate HasTable(t: Tables, x: nat)
  {
    At(t, x) < |t.sections| && t.sections[At(t, x)].mr.Subpage?
  }

  /** The pages with a subpage table. */
  ghost function Tabled(t: Tables): set<nat>
  {
    set x: nat | x < PAGES && HasTable(t, x)
  }

  /** `n` pieces have been added and the pages `xs` have tables now: a section a piece, and one for each new table. */
  ghost predicate Uses(t: Tables, t': Tables, n: nat, xs: set<nat>)
  {
    Tabled(t') == Tabled(t) + xs && |t'.sections| - |Tabled(t')| == |t.sections| - |Tabled(t)| + n
  }

  /** There are numbers left for all of that. */
  ghost predicate RoomFor(t: Tables, n: nat, xs: set<nat>)
  {
    |t.sections| - |Tabled(t)| + n + |Tabled(t) + xs| <= PAGE_SIZE
  }

  /** A new table takes a number in addition to that of the piece. */
  ghost function ForPage(t: Tables, x: nat): nat
  {
    if HasTable(t, x) then 1 else 2
  }

  lemma RoomForPage(t: Tables, x: nat)
    requires x < PAGES && RoomFor(t, 1, {x})
    ensures |t.sections| + ForPage(t, x) <= PAGE_SIZE
  {
    if HasTable(t, x) {
      assert Tabled(t) + {x} == Tabled(t);
    } else {
      assert x !in Tabled(t);
    }
  }

  lemma RoomForOne(t: Tables)
    requires RoomFor(t, 1, {})
    ensures |t.sections| < PAGE_SIZE
  {
    assert Tabled(t) + {} == Tabled(t);
  }

  lemma UsesNothing(t: Tables)
    ensures Uses(t, t, 0, {})
  {
    assert Tabled(t) + {} == Tabled(t);
  }

  lemma UsesMore(t: Tables, t': Tables, t'': Tables, n: nat, xs: set<nat>, n': nat, xs': set<nat>)
    requires Uses(t, t', n, xs) && Uses(t', t'', n', xs')
    ensures Uses(t, t'', n + n', xs + xs')
  {
    hide Tabled;
    assert Tabled(t) + xs + xs' == Tabled(t) + (xs + xs');
  }

  /** Room for all is room for the rest once a part has been added. */
  lemma RoomLeft(t: Tables, t': Tables, n: nat, xs: set<nat>, n': nat, xs': set<nat>)
    requires Uses(t, t', n, xs) && RoomFor(t, n + n', xs + xs')
    ensures RoomFor(t', n', xs')
  {
    hide Tabled;
    assert Tabled(t) + xs + xs' == Tabled(t) + (xs + xs');
  }

  lemma {:induction false} FewerPages(xs: set<nat>, ys: set<nat>)
    requires xs <= ys
    ensures |xs| <= |ys|
  {
    if x :| x in xs {
      FewerPages(xs - {x}, ys - {x});
    }
  }

  /** Room for more is room for less. */
  lemma RoomForLess(t: Tables, n: nat, xs: set<nat>, n': nat, xs': set<nat>)
    requires RoomFor(t, n', xs') && n <= n' && xs <= xs'
    ensures RoomFor(t, n, xs)
  {
    hide Tabled;
    FewerPages(Tabled(t) + xs, Tabled(t) + xs');
  }

  lemma TabledFirst(t: Tables, t': Tables, piece: Section, x: nat)
    requires Sound(t) && x < PAGES && At(t, x) == UNASSIGNED && piece.mr.Guest?
    requires t'.sections == t.sections + [Section(Subpage(|t.subpages|), x * PAGE_SIZE, 0, PAGE_SIZE), piece]
    requires Mapped(t, t', x, x + 1, |t.sections|)
    ensures Uses(t, t', 1, {x})
  {
    hide At;
    assert t.sections[0] == t.sections[..4][0];
    assert !HasTable(t, x);
    forall y: nat | y < PAGES
      ensures HasTable(t', y) <==> HasTable(t, y) || y == x
    {
      assert GoodPage(t, y);
    }
    assert Tabled(t') == Tabled(t) + {x};
  }

  lemma TabledNext(t: Tables, t': Tables, piece: Section, x: nat)
    requires Sound(t) && x < PAGES && HasTable(t, x)
    requires t'.nodes == t.nodes && t'.root == t.root && t'.sections == t.sections + [piece]
    ensures Uses(t, t', 1, {x})
  {
    assert forall z: nat :: At(t', z) == At(t, z);
    hide At;
    forall y: nat | y < PAGES
      ensures HasTable(t', y) <==> HasTable(t, y)
    {
      assert GoodPage(t, y);
    }
    assert x in Tabled(t);
    assert Tabled(t') == Tabled(t) == Tabled(t) + {x};
  }

  lemma TabledMultipage(t: Tables, t': Tables, section: Section, lo: nat, hi: nat)
    requires Sound(t) && Unmapped(t, lo, hi) && section.mr.Guest? && t'.sections == t.sections + [section]
    requires Mapped(t, t', lo, hi, |t.sections|)
    ensures Uses(t, t', 1, {})
  {
    hide At;
    assert t.sections[0] == t.sections[..4][0];
    forall y: nat | y < PAGES
      ensures HasTable(t', y) <==> HasTable(t, y)
    {
      assert GoodPage(t, y);
    }
    assert Tabled(t') == Tabled(t) + {};
  }

  /** The bytes of a section before the first page boundary. */
  function HeadSize(s: Section): (n: nat)
    ensures n <= s.size
  {
    if s.offset % PAGE_SIZE == 0 then 0 else Min(PAGE_SIZE - s.offset % PAGE_SIZE, s.size)
  }

  /** The bytes after the last page boundary, unless they are before the first as well. */
  function TailSize(s: Section): nat
  {
    (s.size - HeadSize(s)) % PAGE_SIZE
  }

  /** The number of pieces a section is cut into. */
  function PieceCount(s: Section): nat
  {
    (if HeadSize(s) > 0 then 1 else 0) + (if s.size - HeadSize(s) >= PAGE_SIZE then 1 else 0) + if TailSize(s) > 0 then 1 else 0
  }

  /** The pages that a section covers in part. */
  function PartialPages(s: Section): set<nat>
  {
    (if HeadSize(s) > 0 then {s.offset / PAGE_SIZE} else {}) + if TailSize(s) > 0 then {(s.offset + s.size) / PAGE_SIZE} else {}
  }

  lemma HeadCounts(s: Section)
    requires s.size > 0
    ensures var head := s.(size := HeadSize(s));
            if HeadSize(s) == 0 then PieceCount(head) == 0 && PartialPages(head) == {}
            else PieceCount(head) == 1 && PartialPages(head) == {s.offset / PAGE_SIZE}
    ensures HeadSize(s) != s.size ==> (s.offset + HeadSize(s)) % PAGE_SIZE == 0
  {
  }

  /** The pieces of a section cut off at a page boundary are among those of the section. */
  lemma CutCounts(s: Section, n: nat)
    requires HeadSize(s) <= n <= s.size && (n == s.size || (s.offset + n) % PAGE_SIZE == 0)
    ensures PieceCount(s.(size := n)) <= PieceCount(s) && PartialPages(s.(size := n)) <= PartialPages(s)
  {
    if n < s.size {
      assert (s.offset + HeadSize(s)) % PAGE_SIZE == 0;
      assert TailSize(s.(size := n)) == 0;
    }
  }

  lemma TailCounts(s: Section, n: nat)
    requires HeadSize(s) <= n < s.size && (s.offset + n) % PAGE_SIZE == 0 && s.size - n < PAGE_SIZE
    ensures PieceCount(s) == PieceCount(s.(size := n)) + 1
    ensures PartialPages(s) == PartialPages(s.(size := n)) + {(s.offset + n) / PAGE_SIZE}
  {
    assert (s.offset + HeadSize(s)) % PAGE_SIZE == 0;
    assert TailSize(s) == s.size - n && TailSize(s.(size := n)) == 0;
    assert (s.offset + s.size) / PAGE_SIZE == (s.offset + n) / PAGE_SIZE;
  }

  lemma MiddleCounts(s: Section, n: nat)
    requires n == HeadSize(s) && s.size - n >= PAGE_SIZE
    ensures var n' := s.size - (s.size - n) % PAGE_SIZE;
            && PieceCount(s.(size := n')) == PieceCount(s.(size := n)) + 1
            && PartialPages(s.(size := n')) == PartialPages(s.(size := n)) + {}
  {
    var n' := s.size - (s.size - n) % PAGE_SIZE;
    assert HeadSize(s.(size := n')) == n && HeadSize(s.(size := n)) == n;
    assert TailSize(s.(size := n')) == 0 && TailSize(s.(size := n)) == 0;
  }

  // ---------------------------------------------------------------- the operations

  /** Where register_subpage puts a free piece: on a page that is unassigned or already has a table. */
  lemma SubpageOrNothing(t: Tables, piece: Section, x: nat)
    requires Sound(t) && Free(t, piece) && InsidePage(piece, x)
    ensures PageFind(t, x * PAGE_SIZE) == At(t, x) < |t.sections|
    ensures var s := At(t, x);
            if t.sections[s].mr.Subpage? then
              t.sections[s].mr.id < |t.subpages| && |t.subpages[t.sections[s].mr.id]| == PAGE_SIZE
            else s == UNASSIGNED && t.sections[s].mr == Unassigned
  {
    hide Find;
    FindsPage(t, x * PAGE_SIZE);
    FindsPage(t, piece.offset);
    assert GoodPage(t, x);
    assert Contains(piece, piece.offset);
    assert t.sections[0] == t.sections[..4][0];
  }

  /** A piece of `section` that contains `addr`: same region, same place in the region for every byte. */
  ghost predicate PieceOf(piece: Section, section: Section, addr: nat)
  {
    && piece.mr == section.mr && Contains(piece, addr)
    && piece.inRegion - piece.offset == section.inRegion - section.offset
    && section.offset <= piece.offset && piece.offset + piece.size <= section.offset + section.size
  }

  ghost predicate LeadsToPiece(t: Tables, section: Section, addr: nat)
  {
    Lookup(t, addr) < |t.sections| && PieceOf(t.sections[Lookup(t, addr)], section, addr)
  }

  /** The addresses of `section` below `end` have been added, and nothing else has changed. */
  ghost predicate Adds(t: Tables, t': Tables, section: Section, end: nat)
  {
    && t.sections <= t'.sections
    && (forall addr: nat :: section.offset <= addr < end ==> LeadsToPiece(t', section, addr))
    && forall addr: nat :: addr < SPACE && !(section.offset <= addr < end) ==> Lookup(t', addr) == Lookup(t, addr)
  }

  lemma AddsNothing(t: Tables, section: Section)
    ensures Adds(t, t, section, section.offset)
  {
  }

  /** The rest of the section is still free. */
  lemma FreePart(t: Tables, t': Tables, section: Section, from: nat, piece: Section)
    requires Free(t, section) && Adds(t, t', section, from) && section.offset + section.size <= SPACE
    requires section.offset <= from <= piece.offset && piece.offset + piece.size <= section.offset + section.size
    ensures Free(t', piece)
  {
    hide Lookup;
    forall addr: nat | Contains(piece, addr)
      ensures Lookup(t', addr) == UNASSIGNED
    {
      assert Contains(section, addr);
    }
  }

  lemma AddsPiece(t: Tables, t': Tables, t'': Tables, section: Section, from: nat, piece: Section)
    requires Adds(t, t', section, from) && section.offset <= from == piece.offset && piece.mr == section.mr
    requires piece.offset + piece.size <= section.offset + section.size <= SPACE
    requires piece.inRegion - piece.offset == section.inRegion - section.offset
    requires |t''.sections| > 0 && Registers(t', t'', piece, |t''.sections| - 1)
    ensures Adds(t, t'', section, from + piece.size)
  {
    hide Lookup;
    forall addr: nat | section.offset <= addr < from + piece.size
      ensures LeadsToPiece(t'', section, addr)
    {
      assert addr < from ==> LeadsToPiece(t', section, addr);
    }
  }

  /** TARGET_PAGE_ALIGN on 64-bit addresses */
  function AlignUp(addr: nat): nat
  {
    (addr + PAGE_SIZE - 1) % SPACE / PAGE_SIZE * PAGE_SIZE
  }

  /** On the last page the aligned address wraps around to 0; the difference is right all the same. */
  lemma LeftOnPage(addr: nat)
    requires addr < SPACE && addr % PAGE_SIZE != 0
    ensures (AlignUp(addr) - addr) % SPACE == PAGE_SIZE - addr % PAGE_SIZE
  {
    if addr + PAGE_SIZE - 1 < SPACE {
      assert AlignUp(addr) - addr == PAGE_SIZE - addr % PAGE_SIZE;
    } else {
      assert AlignUp(addr) == 0;
      assert (0 - addr) % SPACE == SPACE - addr;
    }
  }

  class AddressSpaceDispatch {
    const pages: PhysPageMap
    var sections: seq<Section>
    var subpages: seq<seq<nat>>

    ghost function Now(): Tables
      reads this, pages
    {
      Tables(pages.nodes, pages.root, sections, subpages)
    }

    /** Between mem_begin and mem_commit. */
    ghost predicate Open()
      reads this, pages
    {
      pages.Growing() && Sound(Now()) && |pages.nodes| <= 11 * |sections| && |sections| <= PAGE_SIZE
    }

    /** Lookups can be made. */
    ghost predicate Usable()
      reads this, pages
    {
      && (forall m :: 0 <= m < |pages.nodes| ==> |pages.nodes[m]| == L2_SIZE)
      && Fixed(sections) && OwnTables(Now())
      && forall x: nat :: x < PAGES ==> At(Now(), x) < |sections|
    }

    /** mem_begin */
    constructor ()
      ensures Open() && sections == FIXED && fresh(pages)
      ensures forall addr: nat :: addr < SPACE ==> Lookup(Now(), addr) == UNASSIGNED
    {
      pages := new PhysPageMap();
      sections, subpages := FIXED, [];
      new;
      assert forall x: nat :: pages.At(x) == At(Now(), x);
    }

    lemma OpenIsUsable()
      requires Open()
      ensures Usable()
    {
      hide Find;
      forall x: nat | x < PAGES
        ensures At(Now(), x) < |sections|
      {
        assert GoodPage(Now(), x);
      }
    }

    method PhysPageFind(addr: nat) returns (s: nat)
      requires Usable() && addr < SPACE
      ensures s == PageFind(Now(), addr)
      ensures s < |sections|
    {
      PageOf(addr);
      s := FindLoop(pages.nodes, pages.root, addr / PAGE_SIZE);
      assert s == At(Now(), addr / PAGE_SIZE);
      if !Covers(sections[s], addr) {
        s := UNASSIGNED;
      }
    }

    /** phys_section_add */
    method SectionAdd(section: Section) returns (n: nat)
      requires |sections| < PAGE_SIZE
      modifies `sections
      ensures n == |old(sections)| && sections == old(sections) + [section]
    {
      n := |sections|;
      sections := sections + [section];
    }

    /** subpage_register */
    method SubpageRegister(id: nat, start: nat, end: nat, n: nat) returns (ok: bool)
      requires id < |subpages| && |subpages[id]| == PAGE_SIZE
      modifies `subpages
      ensures ok <==> start < PAGE_SIZE && end < PAGE_SIZE
      ensures !ok ==> subpages == old(subpages)
      ensures ok ==> |subpages| == |old(subpages)| && Filled(old(subpages[id]), subpages[id], start, end + 1, n)
      ensures forall i :: 0 <= i < |subpages| && i != id ==> subpages[i] == old(subpages)[i]
    {
      if start >= PAGE_SIZE || end >= PAGE_SIZE {
        return false;
      }
      ghost var subpages0 := subpages;
      var i := start;
      while i <= end
        invariant start <= i && (i <= end + 1 || i == start)
        invariant |subpages| == |subpages0| && Filled(subpages0[id], subpages[id], start, i, n)
        invariant forall j :: 0 <= j < |subpages| && j != id ==> subpages[j] == subpages0[j]
      {
        var table: seq<nat> := subpages[id];
        subpages := subpages[id := table[i := n]];
        i := i + 1;
      }
      return true;
    }

    /** The call of phys_page_set. */
    method MapPages(index: nat, nb: nat, n: nat)
      requires pages.Growing() && nb > 0 && index + nb <= PAGES && UNASSIGNED < n < PAGE_SIZE
      requires |pages.nodes| <= 11 * PAGE_SIZE && Unmapped(Now(), index, index + nb)
      modifies pages
      ensures pages.Growing() && Mapped(old(Now()), Now(), index, index + nb, n)
      ensures |pages.nodes| <= |old(pages.nodes)| + 11
    {
      hide Find;
      SpaceFits(PAGES - 1);
      ghost var t0 := Now();
      forall x: nat
        ensures pages.At(x) == At(t0, x)
      {
      }
      TreePages();
      pages.PhysPageSet(index, nb, n);
      forall x: nat | x < TREE_PAGES
        ensures At(Now(), x) == if index <= x < index + nb then n else At(t0, x)
      {
        assert pages.At(x) == At(Now(), x);
      }
    }

    /** register_subpage */
    method RegisterSubpage(section: Section, ghost x: nat)
      requires Open() && Free(Now(), section) && InsidePage(section, x) && section.mr.Guest?
      requires |sections| + ForPage(Now(), x) <= PAGE_SIZE
      modifies this, pages
      ensures Open() && |sections| == |old(sections)| + ForPage(old(Now()), x) && Uses(old(Now()), Now(), 1, {x})
      ensures Registers(old(Now()), Now(), section, |sections| - 1)
    {
      hide Sound, Free, Registers, Mapped, Unmapped, Find, Uses;
      ghost var t0 := Now();
      var base := section.offset / PAGE_SIZE * PAGE_SIZE;
      OpenIsUsable();
      SoundSections(t0);
      SubpageOrNothing(t0, section, x);
      assert section.offset / PAGE_SIZE == x;
      var existing := PhysPageFind(base);
      var id;
      if !sections[existing].mr.Subpage? {
        id := |subpages|;
        subpages := subpages + [Blank()];
        var n := SectionAdd(Section(Subpage(id), base, 0, PAGE_SIZE));
        ghost var t1 := Now();
        OnePage(t0, x);
        SectionsApart(t0, t1, x, x + 1);
        MapPages(base / PAGE_SIZE, 1, n);
        MappedSince(t0, t1, Now(), x, x + 1, n);
      } else {
        id := sections[existing].mr.id;
      }
      ghost var t2 := Now();
      var start := section.offset % PAGE_SIZE;
      var end := start + section.size - 1;
      var n := SectionAdd(section);
      var _ := SubpageRegister(id, start, end, n);
      if t0.sections[existing].mr.Subpage? {
        NextOnPage(t0, Now(), section, x);
        TabledNext(t0, Now(), section, x);
      } else {
        MappedStill(t0, t2, Now(), x, x + 1, n - 1);
        FirstOnPage(t0, Now(), section, x);
        TabledFirst(t0, Now(), section, x);
      }
    }

    /** register_multipage */
    method RegisterMultipage(section: Section)
      requires Open() && Free(Now(), section) && WholePages(section) && section.size > 0 && section.mr.Guest?
      requires |sections| < PAGE_SIZE
      modifies this, pages
      ensures Open() && |sections| == |old(sections)| + 1 && Uses(old(Now()), Now(), 1, {})
      ensures Registers(old(Now()), Now(), section, |sections| - 1)
    {
      hide Sound, Free, Registers, Find, Uses;
      ghost var t0 := Now();
      FreePages(t0, section);
      PageCount(section);
      SoundSections(t0);
      var n := SectionAdd(section);
      ghost var t1 := Now();
      SectionsApart(t0, t1, section.offset / PAGE_SIZE, (section.offset + section.size) / PAGE_SIZE);
      var numPages := section.size / PAGE_SIZE;
      MapPages(section.offset / PAGE_SIZE, numPages, n);
      MappedSince(t0, t1, Now(), section.offset / PAGE_SIZE, (section.offset + section.size) / PAGE_SIZE, n);
      MultipageRegistered(t0, Now(), section);
      TabledMultipage(t0, Now(), section, section.offset / PAGE_SIZE, (section.offset + section.size) / PAGE_SIZE);
    }

    /** mem_add, the part up to the first page boundary. */
    method AddHead(section: Section) returns (now: Section)
      requires Open() && Free(Now(), section)
      requires section.mr.Guest? && section.size > 0 && section.offset + section.size <= SPACE
      requires RoomFor(Now(), PieceCount(section), PartialPages(section))
      modifies this, pages
      ensures Open() && now == section.(size := HeadSize(section))
      ensures Uses(old(Now()), Now(), PieceCount(now), PartialPages(now))
      ensures Adds(old(Now()), Now(), section, section.offset + now.size)
    {
      hide Sound, Free, Registers, Find, Adds, Lookup, Uses, RoomFor, PieceCount, PartialPages;
      ghost var t0 := Now();
      AddsNothing(t0, section);
      HeadCounts(section);
      if section.offset % PAGE_SIZE != 0 {
        var left := (AlignUp(section.offset) - section.offset) % SPACE;
        LeftOnPage(section.offset);
        now := section.(size := Min(left, section.size));
        CutCounts(section, now.size);
        RoomForLess(t0, 1, {now.offset / PAGE_SIZE}, PieceCount(section), PartialPages(section));
        RoomForPage(t0, now.offset / PAGE_SIZE);
        FreePart(t0, t0, section, section.offset, now);
        RegisterSubpage(now, now.offset / PAGE_SIZE);
        AddsPiece(t0, t0, Now(), section, section.offset, now);
      } else {
        now := section.(size := 0);
        UsesNothing(t0);
      }
    }

    /** One turn of mem_add's loop, `n` bytes of the section having been added; the unaligned branch is never taken. */
    method AddNext(ghost t0: Tables, ghost section: Section, ghost n: nat, remain: Section) returns (now: Section)
      requires Open() && Free(t0, section) && section.offset + section.size <= SPACE && section.mr.Guest?
      requires PieceOf(remain, section, remain.offset) && remain.offset + remain.size == section.offset + section.size
      requires remain.offset % PAGE_SIZE == 0 && Adds(t0, Now(), section, remain.offset)
      requires n == remain.offset - section.offset >= HeadSize(section) && (remain.size >= PAGE_SIZE ==> n == HeadSize(section))
      requires RoomFor(t0, PieceCount(section), PartialPages(section))
      requires Uses(t0, Now(), PieceCount(section.(size := n)), PartialPages(section.(size := n)))
      modifies this, pages
      ensures now == remain.(size := now.size) && 0 < now.size <= remain.size
      ensures Open() && remain.size - now.size < PAGE_SIZE
      ensures now.size != remain.size ==> (remain.offset + now.size) % PAGE_SIZE == 0
      ensures Uses(t0, Now(), PieceCount(section.(size := n + now.size)), PartialPages(section.(size := n + now.size)))
      ensures Adds(t0, Now(), section, remain.offset + now.size)
    {
      hide Sound, Free, Registers, Find, Adds, Lookup, Uses, RoomFor, PieceCount, PartialPages;
      ghost var t1 := Now();
      ghost var c, xs := PieceCount(section.(size := n)), PartialPages(section.(size := n));
      now := remain;
      if remain.size < PAGE_SIZE {
        ghost var x := now.offset / PAGE_SIZE;
        TailCounts(section, n);
        RoomLeft(t0, t1, c, xs, 1, {x});
        RoomForPage(t1, x);
        FreePart(t0, t1, section, remain.offset, now);
        RegisterSubpage(now, x);
        UsesMore(t0, t1, Now(), c, xs, 1, {x});
      } else if remain.offset % PAGE_SIZE != 0 {
        assert false;
      } else {
        now := now.(size := now.size - now.size % PAGE_SIZE);
        MiddleCounts(section, n);
        CutCounts(section, n + now.size);
        RoomForLess(t0, c + 1, xs + {}, PieceCount(section), PartialPages(section));
        RoomLeft(t0, t1, c, xs, 1, {});
        RoomForOne(t1);
        FreePart(t0, t1, section, remain.offset, now);
        RegisterMultipage(now);
        UsesMore(t0, t1, Now(), c, xs, 1, {});
      }
      AddsPiece(t0, t1, Now(), section, remain.offset, now);
    }

    /** mem_add; it needs a number for every piece and for every table that is made. */
    method MemAdd(section: Section)
      requires Open() && Free(Now(), section)
      requires section.mr.Guest? && section.size > 0 && section.offset + section.size <= SPACE
      requires RoomFor(Now(), PieceCount(section), PartialPages(section))
      modifies this, pages
      ensures Open() && Uses(old(Now()), Now(), PieceCount(section), PartialPages(section))
      ensures Adds(old(Now()), Now(), section, section.offset + section.size)
    {
      hide Open, Free, Adds, Uses, RoomFor, PieceCount, PartialPages;
      ghost var t0 := Now();
      HeadCounts(section);
      var remain := section;
      var now := AddHead(section);
      ghost var n := now.size;
      while remain.size != now.size
        invariant Open() && now == remain.(size := now.size) && now.size <= remain.size && remain.size > 0
        invariant PieceOf(remain, section, remain.offset) && remain.offset + remain.size == section.offset + section.size
        invariant remain.size != now.size ==> (remain.offset + now.size) % PAGE_SIZE == 0
        invariant n == remain.offset + now.size - section.offset >= HeadSize(section)
        invariant remain.size - now.size >= PAGE_SIZE ==> n == HeadSize(section)
        invariant Uses(t0, Now(), PieceCount(section.(size := n)), PartialPages(section.(size := n)))
        invariant Adds(t0, Now(), section, remain.offset + now.size)
        decreases remain.size - now.size
      {
        remain := Section(remain.mr, remain.offset + now.size, remain.inRegion + now.size, remain.size - now.size);
        now := AddNext(t0, section, n, remain);
        n := n + now.size;
      }
      assert section.(size := n) == section;
    }

    /** mem_commit */
    method MemCommit()
      requires Open()
      modifies pages
      ensures Usable() && SameLookup(old(Now()), Now()) && Tight(pages.nodes, pages.root, LEVELS)
    {
      hide Find, SameLookup, Blurs, Tight;
      ghost var t0 := Now();
      pages.CompactAll();
      CompactedLookup(t0, Now());
      WellSizes(pages.nodes, pages.shape);
    }

    /** address_space_lookup_region */
    method LookupRegion(addr: nat, resolveSubpage: bool) returns (s: nat)
      requires Usable() && addr < SPACE
      ensures s == if resolveSubpage then Lookup(Now(), addr) else PageFind(Now(), addr)
    {
      hide Find;
      s := PhysPageFind(addr);
      if resolveSubpage && sections[s].mr.Subpage? {
        s := subpages[sections[s].mr.id][addr % PAGE_SIZE];
      }
    }
  }

  // ---------------------------------------------------------------- a whole update

  /** Flat sections as memory.c hands them out. */
  ghost predicate FlatSection(s: Section)
  {
    s.mr.Guest? && s.size > 0 && s.offset + s.size <= SPACE
  }

  ghost predicate Disjoint(a: Section, b: Section)
  {
    a.offset + a.size <= b.offset || b.offset + b.size <= a.offset
  }

  ghost predicate Flat(sections: seq<Section>)
  {
    && (forall i :: 0 <= i < |sections| ==> FlatSection(sections[i]))
    && forall i, j :: 0 <= i < j < |sections| ==> Disjoint(sections[i], sections[j])
  }

  /** Every address leads to a piece of the flat section that contains it, or to the unassigned section. */
  ghost predicate Dispatches(t: Tables, flat: seq<Section>)
  {
    && (forall i, addr: nat :: 0 <= i < |flat| && Contains(flat[i], addr) ==> LeadsToPiece(t, flat[i], addr))
    && forall addr: nat :: addr < SPACE && (forall i :: 0 <= i < |flat| ==> !Contains(flat[i], addr)) ==>
         Lookup(t, addr) == UNASSIGNED
  }

  lemma NothingYet(t: Tables)
    requires forall addr: nat :: addr < SPACE ==> Lookup(t, addr) == UNASSIGNED
    ensures Dispatches(t, [])
  {
  }

  lemma SameDispatch(t: Tables, t': Tables, flat: seq<Section>)
    requires Flat(flat) && Dispatches(t, flat) && SameLookup(t, t') && t'.sections == t.sections
    ensures Dispatches(t', flat)
  {
    hide Lookup, PageFind;
  }

  lemma NextIsFree(t: Tables, flat: seq<Section>, k: nat)
    requires Flat(flat) && k < |flat| && Dispatches(t, flat[..k])
    ensures Free(t, flat[k])
  {
    hide Lookup;
  }

  lemma OneMore(t: Tables, t': Tables, flat: seq<Section>, k: nat)
    requires Flat(flat) && k < |flat| && Dispatches(t, flat[..k])
    requires Adds(t, t', flat[k], flat[k].offset + flat[k].size)
    ensures Dispatches(t', flat[..k + 1])
  {
    hide Lookup;
    forall i, addr: nat | 0 <= i < k + 1 && Contains(flat[i], addr)
      ensures LeadsToPiece(t', flat[i], addr)
    {
      if i < k {
        assert flat[i] == flat[..k][i];
        assert LeadsToPiece(t, flat[i], addr);
      }
    }
  }

  /** The pieces of all sections. */
  function AllPieces(flat: seq<Section>): nat
  {
    if flat == [] then 0 else AllPieces(flat[..|flat| - 1]) + PieceCount(flat[|flat| - 1])
  }

  /** The pages that some section covers in part. */
  function AllPartial(flat: seq<Section>): set<nat>
  {
    if flat == [] then {} else AllPartial(flat[..|flat| - 1]) + PartialPages(flat[|flat| - 1])
  }

  /** The sections a flat view needs: mem_begin's four, one a piece, and one a page that needs a table. */
  function SectionsNeeded(flat: seq<Section>): nat
  {
    4 + AllPieces(flat) + |AllPartial(flat)|
  }

  lemma {:induction false} NeededBefore(flat: seq<Section>, k: nat)
    requires k <= |flat|
    ensures AllPieces(flat[..k]) <= AllPieces(flat) && AllPartial(flat[..k]) <= AllPartial(flat)
    decreases |flat|
  {
    hide PieceCount, PartialPages;
    if k < |flat| {
      NeededBefore(flat[..|flat| - 1], k);
      assert flat[..|flat| - 1][..k] == flat[..k];
    } else {
      assert flat[..k] == flat;
    }
  }

  /** The numbers that the first `k` sections have used. */
  ghost predicate UsedUpTo(t: Tables, flat: seq<Section>, k: nat)
    requires k <= |flat|
  {
    Tabled(t) == AllPartial(flat[..k]) && |t.sections| == 4 + AllPieces(flat[..k]) + |AllPartial(flat[..k])|
  }

  lemma RoomForNext(t: Tables, flat: seq<Section>, k: nat)
    requires k < |flat| && UsedUpTo(t, flat, k) && SectionsNeeded(flat) <= PAGE_SIZE
    ensures RoomFor(t, PieceCount(flat[k]), PartialPages(flat[k]))
  {
    hide Tabled, PieceCount, PartialPages;
    assert flat[..k + 1][..k] == flat[..k];
    NeededBefore(flat, k + 1);
    FewerPages(AllPartial(flat[..k + 1]), AllPartial(flat));
  }

  lemma UsedNext(t: Tables, t': Tables, flat: seq<Section>, k: nat)
    requires k < |flat| && UsedUpTo(t, flat, k) && Uses(t, t', PieceCount(flat[k]), PartialPages(flat[k]))
    ensures UsedUpTo(t', flat, k + 1)
  {
    hide Tabled, PieceCount, PartialPages;
    assert flat[..k + 1][..k] == flat[..k];
  }

  lemma UsedAtFirst(t: Tables, flat: seq<Section>)
    requires t.sections == FIXED
    ensures UsedUpTo(t, flat, 0)
  {
    hide At;
    forall x: nat | x < PAGES
      ensures !HasTable(t, x)
    {
      assert At(t, x) < 4 ==> FIXED[At(t, x)].mr in {Unassigned, NotDirty, Rom, Watch};
    }
    assert Tabled(t) == {};
  }

  /** The listener calls of one topology update: begin, one mem_add a section, commit. */
  method Update(flat: seq<Section>) returns (d: AddressSpaceDispatch)
    requires Flat(flat) && SectionsNeeded(flat) <= PAGE_SIZE
    ensures fresh(d) && d.Usable() && Dispatches(d.Now(), flat)
    ensures |d.sections| == SectionsNeeded(flat)
  {
    hide Dispatches, Adds, SameLookup, Lookup, Free, AddressSpaceDispatch.Open, AddressSpaceDispatch.Usable;
    hide UsedUpTo, Uses, RoomFor, PieceCount, PartialPages;
    d := new AddressSpaceDispatch();
    NothingYet(d.Now());
    UsedAtFirst(d.Now(), flat);
    assert flat[..0] == [];
    var i := 0;
    while i < |flat|
      invariant i <= |flat| && fresh(d) && fresh(d.pages) && d.Open() && UsedUpTo(d.Now(), flat, i)
      invariant Dispatches(d.Now(), flat[..i])
    {
      ghost var t := d.Now();
      NextIsFree(t, flat, i);
      RoomForNext(t, flat, i);
      d.MemAdd(flat[i]);
      OneMore(t, d.Now(), flat, i);
      UsedNext(t, d.Now(), flat, i);
      i := i + 1;
    }
    ghost var t := d.Now();
    d.MemCommit();
    assert flat[..|flat|] == flat;
    UsedInAll(t, flat);
    SameDispatch(t, d.Now(), flat);
  }

  lemma UsedInAll(t: Tables, flat: seq<Section>)
    requires UsedUpTo(t, flat, |flat|)
    ensures |t.sections| == SectionsNeeded(flat)
  {
    assert flat[..|flat|] == flat;
  }
}
