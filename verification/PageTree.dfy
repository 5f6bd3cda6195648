/**
 The tree behind the physical page map (exec.c): a radix tree from page numbers to section numbers,
 kept in one growing array of nodes.  Large ranges are leaves high up in the tree, nodes are made when
 they are first needed, and an entry may skip levels.
 */
module PageTree {
  import opened Basics
  import opened Radix

  /** PHYS_MAP_NODE_NIL */
  const NIL: nat := 0x3ff_ffff

  /** PHYS_SECTION_UNASSIGNED */
  const UNASSIGNED: nat := 0

  /** `skip` levels further down is node `ptr`; with `skip == 0` the entry is a leaf for section `ptr`. */
  datatype Entry = Entry(skip: nat, ptr: nat)

  type Node = seq<Entry>

  const EMPTY := Entry(1, NIL)

  /** Where in the tree a node sits: its level and its first page. */
  datatype Shape = Shape(level: nat, base: nat)

  /**
   The section number `phys_page_find` arrives at for page `x`, starting at an entry whose node is
   `i - lp.skip` levels above the leaves.
   */
  function Find(nodes: seq<Node>, lp: Entry, i: nat, x: nat): nat
    decreases i
  {
    if lp.skip == 0 || i < lp.skip then lp.ptr
    else if lp.ptr == NIL || lp.ptr >= |nodes| || |nodes[lp.ptr]| != L2_SIZE then UNASSIGNED
    else Find(nodes, nodes[lp.ptr][Digit(x, i - lp.skip)], i - lp.skip, x)
  }

  /** `phys_page_find` up to its range check, as the loop it is. */
  method FindLoop(nodes: seq<Node>, root: Entry, x: nat) returns (section: nat)
    requires forall m :: 0 <= m < |nodes| ==> |nodes[m]| == L2_SIZE
    ensures section == Find(nodes, root, LEVELS, x)
  {
    var lp := root;
    var i: nat := LEVELS;
    while lp.skip != 0 && i >= lp.skip
      invariant Find(nodes, lp, i, x) == Find(nodes, root, LEVELS, x)
      decreases i
    {
      i := i - lp.skip;
      if lp.ptr == NIL || lp.ptr >= |nodes| {
        return UNASSIGNED;
      }
      lp := nodes[lp.ptr][Digit(x, i)];
    }
    return lp.ptr;
  }

  // ---------------------------------------------------------------- shape of the tree

  /** The pages of a node lie inside those of the node place (`level`, `base`). */
  ghost predicate Within(s: Shape, level: nat, base: nat)
  {
    s.level <= level && base <= s.base && s.base + Step(s.level + 1) <= base + Step(level + 1)
  }

  /** An entry that leads nowhere but into the node place (`level`, `base`). */
  ghost predicate Leads(nodes: seq<Node>, shape: seq<Shape>, e: Entry, level: nat, base: nat)
    requires |nodes| == |shape|
  {
    if e.skip == 0 then e.ptr < NIL
    else e.skip <= level + 1 &&
         (e.ptr == NIL || (e.ptr < |nodes| && shape[e.ptr].level == level + 1 - e.skip && Within(shape[e.ptr], level, base)))
  }

  /** An entry as it is before compaction: a leaf, empty, or pointing at exactly the next node. */
  ghost predicate Plain(nodes: seq<Node>, shape: seq<Shape>, e: Entry, level: nat, base: nat)
    requires |nodes| == |shape|
  {
    || (e.skip == 0 && UNASSIGNED < e.ptr < NIL)
    || (e.skip == 1 && (e.ptr == NIL || (e.ptr < |nodes| && shape[e.ptr] == Shape(level, base))))
  }

  ghost predicate WellPlaced(s: Shape)
  {
    s.level < LEVELS && s.base % Step(s.level + 1) == 0
  }

  lemma WholeTree()
    ensures WellPlaced(Shape(LEVELS - 1, 0)) && Step(LEVELS - 1 + 1) == Step(LEVELS)
  {
    DivUnique(0, Step(LEVELS), 0, 0);
  }

  /** The entries of one node; below the lowest level there are only leaves. */
  ghost predicate GoodEntry(nodes: seq<Node>, shape: seq<Shape>, m: nat, k: nat)
    requires |nodes| == |shape| && m < |nodes| && |nodes[m]| == L2_SIZE && k < L2_SIZE
  {
    if shape[m].level == 0 then nodes[m][k].skip == 0 && nodes[m][k].ptr < NIL
    else Leads(nodes, shape, nodes[m][k], shape[m].level - 1, Slot(shape[m].base, shape[m].level, k))
  }

  ghost predicate PlainEntry(nodes: seq<Node>, shape: seq<Shape>, m: nat, k: nat)
    requires |nodes| == |shape| && m < |nodes| && |nodes[m]| == L2_SIZE && k < L2_SIZE
  {
    if shape[m].level == 0 then nodes[m][k].skip == 0 && nodes[m][k].ptr < NIL
    else Plain(nodes, shape, nodes[m][k], shape[m].level - 1, Slot(shape[m].base, shape[m].level, k))
  }

  /** The node array at any time. */
  ghost predicate Well(nodes: seq<Node>, shape: seq<Shape>)
  {
    && |nodes| == |shape| && |nodes| <= NIL
    && (forall m :: 0 <= m < |nodes| ==> WellPlaced(shape[m]) && |nodes[m]| == L2_SIZE)
    && (forall m, k :: 0 <= m < |nodes| && 0 <= k < L2_SIZE ==> GoodEntry(nodes, shape, m, k))
  }

  /** The node array before compaction. */
  ghost predicate AllPlain(nodes: seq<Node>, shape: seq<Shape>)
  {
    && |nodes| == |shape| && |nodes| <= NIL
    && (forall m :: 0 <= m < |nodes| ==> WellPlaced(shape[m]) && |nodes[m]| == L2_SIZE)
    && (forall m, k :: 0 <= m < |nodes| && 0 <= k < L2_SIZE ==> PlainEntry(nodes, shape, m, k))
  }

  lemma SlotWithin(s: Shape, level: nat, base: nat, k: nat)
    requires level > 0 && k < L2_SIZE && Within(s, level - 1, Slot(base, level, k))
    ensures Within(s, level, base)
  {
    SlotNext(base, level, k);
    SlotMonotone(base, level, k + 1, L2_SIZE);
    SlotMonotone(base, level, 0, k);
  }

  lemma SlotsApart(s: Shape, level: nat, base: nat, j: nat, k: nat)
    requires level > 0 && j != k && Within(s, level - 1, Slot(base, level, j))
    ensures !Within(s, level - 1, Slot(base, level, k))
  {
    if j < k {
      SlotMonotone(base, level, j, k);
    } else {
      SlotMonotone(base, level, k, j);
    }
  }

  lemma WithinTrans(s: Shape, t: Shape, level: nat, base: nat)
    requires Within(s, t.level, t.base) && Within(t, level, base)
    ensures Within(s, level, base)
  {
  }

  lemma PlainIsGood(nodes: seq<Node>, shape: seq<Shape>)
    requires AllPlain(nodes, shape)
    ensures Well(nodes, shape)
  {
    forall m, k | 0 <= m < |nodes| && 0 <= k < L2_SIZE
      ensures GoodEntry(nodes, shape, m, k)
    {
      assert PlainEntry(nodes, shape, m, k);
    }
  }

  /** The nodes of the place (`level`, `base`) are the same in both arrays. */
  ghost predicate SameInside(nodes: seq<Node>, nodes': seq<Node>, shape: seq<Shape>, level: nat, base: nat)
    requires |nodes| == |shape|
  {
    && |nodes| <= |nodes'|
    && forall m :: 0 <= m < |nodes| && Within(shape[m], level, base) ==> nodes'[m] == nodes[m]
  }

  /** Only nodes of the place (`level`, `base`) differ between the arrays. */
  ghost predicate SameOutside(nodes: seq<Node>, nodes': seq<Node>, shape: seq<Shape>, level: nat, base: nat)
    requires |nodes| == |shape|
  {
    && |nodes| <= |nodes'|
    && forall m :: 0 <= m < |nodes| && !Within(shape[m], level, base) ==> nodes'[m] == nodes[m]
  }

  /** What an entry leads to depends on the nodes of its place only. */
  lemma {:induction false} FindSame(nodes: seq<Node>, nodes': seq<Node>, shape: seq<Shape>, e: Entry, level: nat, base: nat, x: nat)
    requires Well(nodes, shape) && Leads(nodes, shape, e, level, base) && SameInside(nodes, nodes', shape, level, base)
    ensures Find(nodes', e, level + 1, x) == Find(nodes, e, level + 1, x)
    decreases level
  {
    if !(e.skip == 0 || e.ptr == NIL) {
      var s := shape[e.ptr];
      var k := Digit(x, s.level);
      assert GoodEntry(nodes, shape, e.ptr, k);
      if s.level > 0 {
        var base' := Slot(s.base, s.level, k);
        forall m | 0 <= m < |nodes| && Within(shape[m], s.level - 1, base')
          ensures nodes'[m] == nodes[m]
        {
          SlotWithin(shape[m], s.level, s.base, k);
          WithinTrans(shape[m], s, level, base);
        }
        FindSame(nodes, nodes', shape, nodes[e.ptr][k], s.level - 1, base', x);
      }
    }
  }

  // ---------------------------------------------------------------- setting a range

  /** What node `p` at `level` leads to for page `x`. */
  ghost function Under(nodes: seq<Node>, p: nat, level: nat, x: nat): nat
    requires p < |nodes| && |nodes[p]| == L2_SIZE
  {
    Find(nodes, nodes[p][Digit(x, level)], level, x)
  }

  lemma EntryUnder(nodes: seq<Node>, p: nat, level: nat, x: nat)
    requires p < |nodes| && |nodes[p]| == L2_SIZE && p != NIL
    ensures Find(nodes, Entry(1, p), level + 1, x) == Under(nodes, p, level, x)
  {
  }

  /** The pages of `[lo, hi)` now lead to `leaf`, all others of the node where they led before. */
  ghost predicate Reassigned(nodes: seq<Node>, nodes': seq<Node>, p: nat, level: nat, base: nat, lo: nat, hi: nat, leaf: nat)
    requires p < |nodes| && |nodes[p]| == L2_SIZE && p < |nodes'| && |nodes'[p]| == L2_SIZE
  {
    forall x: nat :: InNode(x, level, base) ==>
      Under(nodes', p, level, x) == if lo <= x < hi then leaf else Under(nodes, p, level, x)
  }

  /** The same of an entry for the place (`level`, `base`). */
  ghost predicate Reassigns(nodes: seq<Node>, e: Entry, nodes': seq<Node>, e': Entry, level: nat, base: nat, lo: nat, hi: nat, leaf: nat)
  {
    forall x: nat :: InNode(x, level, base) ==>
      Find(nodes', e', level + 1, x) == if lo <= x < hi then leaf else Find(nodes, e, level + 1, x)
  }

  /** No page of `[lo, hi)` leads to a section yet. */
  ghost predicate VacantUnder(nodes: seq<Node>, p: nat, level: nat, lo: nat, hi: nat)
    requires p < |nodes| && |nodes[p]| == L2_SIZE
  {
    forall x: nat :: lo <= x < hi ==> Under(nodes, p, level, x) == UNASSIGNED
  }

  ghost predicate Vacant(nodes: seq<Node>, e: Entry, i: nat, lo: nat, hi: nat)
  {
    forall x: nat :: lo <= x < hi ==> Find(nodes, e, i, x) == UNASSIGNED
  }

  /** Node `m` is in the part of the tree below entry `k` of node `p`. */
  ghost predicate UnderSlot(shape: seq<Shape>, m: nat, p: nat, k: nat)
    requires m < |shape| && p < |shape|
  {
    shape[p].level > 0 && Within(shape[m], shape[p].level - 1, Slot(shape[p].base, shape[p].level, k))
  }

  /** Replacing entry `k` of node `p`, and nodes below it, affects the pages of that slot only. */
  lemma SlotReplaced(nodes: seq<Node>, nodes': seq<Node>, shape: seq<Shape>, p: nat, k: nat, x: nat)
    requires Well(nodes, shape) && p < |nodes| && k < L2_SIZE
    requires p < |nodes'| && |nodes'[p]| == L2_SIZE && |nodes| <= |nodes'|
    requires forall j :: 0 <= j < L2_SIZE && j != k ==> nodes'[p][j] == nodes[p][j]
    requires forall m :: 0 <= m < |nodes| && m != p && !UnderSlot(shape, m, p, k) ==> nodes'[m] == nodes[m]
    requires Digit(x, shape[p].level) != k
    ensures Under(nodes', p, shape[p].level, x) == Under(nodes, p, shape[p].level, x)
  {
    var s := shape[p];
    var j := Digit(x, s.level);
    assert GoodEntry(nodes, shape, p, j);
    if s.level > 0 {
      var base' := Slot(s.base, s.level, j);
      forall m | 0 <= m < |nodes| && Within(shape[m], s.level - 1, base')
        ensures nodes'[m] == nodes[m]
      {
        SlotsApart(shape[m], s.level, s.base, j, k);
      }
      FindSame(nodes, nodes', shape, nodes[p][j], s.level - 1, base', x);
    }
  }

  /** A page is under slot `k` of its node exactly when `k` is its digit. */
  lemma DigitSlot(x: nat, level: nat, base: nat, k: nat)
    requires base % Step(level + 1) == 0 && InNode(x, level, base) && k < L2_SIZE
    ensures Digit(x, level) == k <==> Slot(base, level, k) <= x < Slot(base, level, k) + Step(level)
  {
    var j := SlotOf(x, base, level);
    SlotDigit(x, base, level, j);
    if j < k {
      SlotMonotone(base, level, j, k);
    } else if k < j {
      SlotMonotone(base, level, k, j);
    }
  }

  /** The array has changed inside the place (`level`, `base`) only, and grown only there. */
  ghost predicate Grown(nodes: seq<Node>, shape: seq<Shape>, nodes': seq<Node>, shape': seq<Shape>, level: nat, base: nat)
  {
    && |nodes| == |shape| && |nodes'| == |shape'| && shape <= shape'
    && SameOutside(nodes, nodes', shape, level, base)
    && forall m :: |nodes| <= m < |nodes'| ==> Within(shape'[m], level, base)
  }

  lemma GrownOn(nodes: seq<Node>, shape: seq<Shape>, nodes': seq<Node>, shape': seq<Shape>,
                nodes'': seq<Node>, shape'': seq<Shape>, level: nat, base: nat)
    requires Grown(nodes, shape, nodes', shape', level, base) && Grown(nodes', shape', nodes'', shape'', level, base)
    ensures Grown(nodes, shape, nodes'', shape'', level, base)
  {
  }

  /** How many nodes setting a range under one place can take; `empty` if it has no node yet. */
  function NodesFor(empty: bool, level: nat, base: nat, index: nat, nb: nat): nat
  {
    (if empty then 1 else 0) + if index == base || index + nb >= base + Step(level + 1) then level else 2 * level
  }

  /** How many nodes setting a range can take below one slot. */
  function SlotNodes(level: nat, slot: nat, index: nat, nb: nat): nat
  {
    if index == slot && nb >= Step(level) then 0
    else if index == slot || index + nb >= slot + Step(level) then level
    else 2 * level
  }

  lemma AlignedInSlot(index: nat, base: nat, level: nat, k: nat)
    requires base % Step(level + 1) == 0 && Slot(base, level, k) <= index < Slot(base, level, k) + Step(level)
    ensures OnStep(index, level) <==> index == Slot(base, level, k)
    ensures level == 0 ==> Step(level) == 1
  {
    var s := Step(level);
    SlotAligned(base, level, k);
    Aligned(Slot(base, level, k), s);
    DivUnique(index, s, Slot(base, level, k) / s, index - Slot(base, level, k));
  }

  /** Storing one plain entry. */
  lemma PlainStore(nodes: seq<Node>, shape: seq<Shape>, p: nat, k: nat, e: Entry)
    requires AllPlain(nodes, shape) && p < |nodes| && k < L2_SIZE
    requires if shape[p].level == 0 then e.skip == 0 && e.ptr < NIL
             else Plain(nodes, shape, e, shape[p].level - 1, Slot(shape[p].base, shape[p].level, k))
    ensures AllPlain(nodes[p := nodes[p][k := e]], shape)
  {
    var nodes' := nodes[p := nodes[p][k := e]];
    forall m, j | 0 <= m < |nodes| && 0 <= j < L2_SIZE
      ensures PlainEntry(nodes', shape, m, j)
    {
      assert PlainEntry(nodes, shape, m, j);
    }
  }

  /** A leaf over a whole slot. */
  lemma WholeSlot(nodes: seq<Node>, shape: seq<Shape>, p: nat, k: nat, leaf: nat)
    requires AllPlain(nodes, shape) && p < |nodes| && k < L2_SIZE && UNASSIGNED < leaf < NIL
    ensures AllPlain(nodes[p := nodes[p][k := Entry(0, leaf)]], shape)
    ensures Grown(nodes, shape, nodes[p := nodes[p][k := Entry(0, leaf)]], shape, shape[p].level, shape[p].base)
    ensures Reassigned(nodes, nodes[p := nodes[p][k := Entry(0, leaf)]], p, shape[p].level, shape[p].base,
                       Slot(shape[p].base, shape[p].level, k), Slot(shape[p].base, shape[p].level, k) + Step(shape[p].level), leaf)
  {
    var s, nodes' := shape[p], nodes[p := nodes[p][k := Entry(0, leaf)]];
    PlainStore(nodes, shape, p, k, Entry(0, leaf));
    PlainIsGood(nodes, shape);
    var lo := Slot(s.base, s.level, k);
    forall x: nat | InNode(x, s.level, s.base)
      ensures Under(nodes', p, s.level, x) == if lo <= x < lo + Step(s.level) then leaf else Under(nodes, p, s.level, x)
    {
      DigitSlot(x, s.level, s.base, k);
      if Digit(x, s.level) != k {
        SlotReplaced(nodes, nodes', shape, p, k, x);
      }
    }
  }

  /** What the step down finds: a slot that is not yet a leaf. */
  lemma PartSlot(nodes: seq<Node>, shape: seq<Shape>, p: nat, k: nat, index: nat, hi: nat)
    requires AllPlain(nodes, shape) && p < |nodes| && k < L2_SIZE && shape[p].level > 0
    requires Slot(shape[p].base, shape[p].level, k) <= index < hi <= Slot(shape[p].base, shape[p].level, k) + Step(shape[p].level)
    requires VacantUnder(nodes, p, shape[p].level, index, hi)
    ensures nodes[p][k].skip == 1
    ensures Plain(nodes, shape, nodes[p][k], shape[p].level - 1, Slot(shape[p].base, shape[p].level, k))
    ensures WellPlaced(Shape(shape[p].level - 1, Slot(shape[p].base, shape[p].level, k)))
    ensures Vacant(nodes, nodes[p][k], shape[p].level, index, hi)
  {
    var s := shape[p];
    assert PlainEntry(nodes, shape, p, k);
    SlotAligned(s.base, s.level, k);
    forall x: nat | index <= x < hi
      ensures Find(nodes, nodes[p][k], s.level, x) == UNASSIGNED
    {
      SlotDigit(x, s.base, s.level, k);
      assert Under(nodes, p, s.level, x) == UNASSIGNED;
    }
    assert Find(nodes, nodes[p][k], s.level, index) == UNASSIGNED;
  }

  /** Storing back the entry that the step down has filled in. */
  lemma PartSet(nodes: seq<Node>, shape: seq<Shape>, nodes': seq<Node>, shape': seq<Shape>,
                p: nat, k: nat, e: Entry, lo: nat, hi: nat, leaf: nat)
    requires AllPlain(nodes, shape) && p < |nodes| && k < L2_SIZE && shape[p].level > 0
    requires AllPlain(nodes', shape')
    requires Grown(nodes, shape, nodes', shape', shape[p].level - 1, Slot(shape[p].base, shape[p].level, k))
    requires Plain(nodes', shape', e, shape[p].level - 1, Slot(shape[p].base, shape[p].level, k))
    requires Slot(shape[p].base, shape[p].level, k) <= lo <= hi <= Slot(shape[p].base, shape[p].level, k) + Step(shape[p].level)
    requires Reassigns(nodes, nodes[p][k], nodes', e, shape[p].level - 1, Slot(shape[p].base, shape[p].level, k), lo, hi, leaf)
    ensures AllPlain(nodes'[p := nodes'[p][k := e]], shape')
    ensures Grown(nodes, shape, nodes'[p := nodes'[p][k := e]], shape', shape[p].level, shape[p].base)
    ensures Reassigned(nodes, nodes'[p := nodes'[p][k := e]], p, shape[p].level, shape[p].base, lo, hi, leaf)
  {
    var s, nodes'' := shape[p], nodes'[p := nodes'[p][k := e]];
    var slot := Slot(s.base, s.level, k);
    PlainStore(nodes', shape', p, k, e);
    forall m | 0 <= m < |shape'| && Within(shape'[m], s.level - 1, slot)
      ensures Within(shape'[m], s.level, s.base)
    {
      SlotWithin(shape'[m], s.level, s.base, k);
    }
    PlainIsGood(nodes, shape);
    PlainIsGood(nodes', shape');
    forall x: nat | InNode(x, s.level, s.base)
      ensures Under(nodes'', p, s.level, x) == if lo <= x < hi then leaf else Under(nodes, p, s.level, x)
    {
      DigitSlot(x, s.level, s.base, k);
      if Digit(x, s.level) != k {
        SlotReplaced(nodes, nodes'', shape, p, k, x);
      } else {
        assert InNode(x, s.level - 1, slot);
        FindSame(nodes', nodes'', shape', e, s.level - 1, slot, x);
      }
    }
  }

  /** Node `p` at `level` leads where the entry led. */
  ghost predicate Agrees(nodes: seq<Node>, e: Entry, nodes': seq<Node>, p: nat, level: nat)
    requires p < |nodes'| && |nodes'[p]| == L2_SIZE
  {
    forall x: nat :: Under(nodes', p, level, x) == Find(nodes, e, level + 1, x)
  }

  /** An entry that gets its first node leads where it led before: nowhere. */
  lemma FreshNode(nodes: seq<Node>, shape: seq<Shape>, nodes': seq<Node>, shape': seq<Shape>, e: Entry, lo: nat, hi: nat)
    requires AllPlain(nodes, shape) && AllPlain(nodes', shape')
    requires e.skip == 1 && e.ptr == NIL
    requires |nodes'| == |nodes| + 1 && nodes'[..|nodes|] == nodes && shape <= shape'
    requires forall x :: Under(nodes', |nodes|, shape'[|nodes|].level, x) == UNASSIGNED
    ensures Grown(nodes, shape, nodes', shape', shape'[|nodes|].level, shape'[|nodes|].base)
    ensures Agrees(nodes, e, nodes', |nodes|, shape'[|nodes|].level)
    ensures VacantUnder(nodes', |nodes|, shape'[|nodes|].level, lo, hi)
  {
  }

  /** So does one that has its node already. */
  lemma OldNode(nodes: seq<Node>, shape: seq<Shape>, e: Entry, level: nat, base: nat, lo: nat, hi: nat)
    requires AllPlain(nodes, shape) && e.skip == 1 && e.ptr != NIL && Plain(nodes, shape, e, level, base)
    requires Vacant(nodes, e, level + 1, lo, hi)
    ensures Grown(nodes, shape, nodes, shape, level, base)
    ensures Agrees(nodes, e, nodes, e.ptr, level)
    ensures VacantUnder(nodes, e.ptr, level, lo, hi)
  {
    forall x: nat
      ensures Under(nodes, e.ptr, level, x) == Find(nodes, e, level + 1, x)
    {
      EntryUnder(nodes, e.ptr, level, x);
    }
  }

  lemma AllSlots(nodes: seq<Node>, e: Entry, nodes': seq<Node>, nodes'': seq<Node>, p: nat, level: nat, base: nat,
                 lo: nat, hi: nat, leaf: nat)
    requires p < |nodes'| && |nodes'[p]| == L2_SIZE && p < |nodes''| && |nodes''[p]| == L2_SIZE && p != NIL
    requires Agrees(nodes, e, nodes', p, level) && Reassigned(nodes', nodes'', p, level, base, lo, hi, leaf)
    ensures Reassigns(nodes, e, nodes'', Entry(1, p), level, base, lo, hi, leaf)
  {
    forall x: nat | InNode(x, level, base)
      ensures Find(nodes'', Entry(1, p), level + 1, x) == if lo <= x < hi then leaf else Find(nodes, e, level + 1, x)
    {
      EntryUnder(nodes'', p, level, x);
      assert Under(nodes', p, level, x) == Find(nodes, e, level + 1, x);
    }
  }

  lemma NodeAt(nodes: seq<Node>, shape: seq<Shape>, p: nat)
    requires AllPlain(nodes, shape) && p < |nodes|
    ensures |nodes| == |shape| && p < NIL && |nodes[p]| == L2_SIZE && WellPlaced(shape[p])
  {
  }

  lemma GrownKeeps(nodes: seq<Node>, shape: seq<Shape>, nodes': seq<Node>, shape': seq<Shape>, level: nat, base: nat, p: nat)
    requires Grown(nodes, shape, nodes', shape', level, base) && p < |nodes|
    ensures |nodes| <= |nodes'| && p < |shape| && p < |shape'| && shape'[p] == shape[p]
  {
  }

  /** Nodes taken by the entries before `k`, when more pages are to be set. */
  function NodesSoFar(level: nat, base: nat, k0: nat, k: nat, index: nat): nat
  {
    if k == k0 || index == Slot(base, level, k0) then 0 else level
  }

  /** Only the first and the last entry of a range can need nodes below them. */
  lemma NodesAddUp(level: nat, base: nat, k0: nat, k: nat, index: nat, nb: nat, index': nat, nb': nat)
    requires base <= Slot(base, level, k0) <= index && k0 <= k
    requires Slot(base, level, k) <= index' < Slot(base, level, k) + Step(level) <= base + Step(level + 1)
    requires index' + nb' == index + nb && if k == k0 then index' == index else index' == Slot(base, level, k)
    ensures NodesSoFar(level, base, k0, k, index) + SlotNodes(level, Slot(base, level, k), index', nb')
            <= NodesFor(false, level, base, index, nb)
    ensures index + nb > Slot(base, level, k) + Step(level) ==>
              NodesSoFar(level, base, k0, k, index) + SlotNodes(level, Slot(base, level, k), index', nb')
              <= NodesSoFar(level, base, k0, k + 1, index)
  {
    hide Step, Slot;
  }

  lemma NodesBound(level: nat, base: nat, k0: nat, k: nat, index: nat, nb: nat)
    ensures NodesSoFar(level, base, k0, k, index) <= level <= NodesFor(false, level, base, index, nb) <= 2 * level
  {
  }

  lemma Unchanged(nodes: seq<Node>, shape: seq<Shape>, p: nat, level: nat, base: nat, lo: nat, leaf: nat)
    requires |nodes| == |shape| && p < |nodes| && |nodes[p]| == L2_SIZE
    ensures Grown(nodes, shape, nodes, shape, level, base) && Reassigned(nodes, nodes, p, level, base, lo, lo, leaf)
  {
  }

  lemma VacantPart(nodes: seq<Node>, p: nat, level: nat, lo: nat, mid: nat, hi: nat)
    requires p < |nodes| && |nodes[p]| == L2_SIZE && mid <= hi && VacantUnder(nodes, p, level, lo, hi)
    ensures VacantUnder(nodes, p, level, lo, mid)
  {
  }

  /** What is left to do is still vacant, and the work done adds up. */
  lemma SlotDone(nodes: seq<Node>, nodes': seq<Node>, nodes'': seq<Node>, p: nat, level: nat, base: nat,
                 lo: nat, mid: nat, hi: nat, end: nat, leaf: nat)
    requires p < |nodes| && |nodes[p]| == L2_SIZE && p < |nodes'| && |nodes'[p]| == L2_SIZE && p < |nodes''| && |nodes''[p]| == L2_SIZE
    requires Reassigned(nodes, nodes', p, level, base, lo, mid, leaf) && Reassigned(nodes', nodes'', p, level, base, mid, hi, leaf)
    requires base <= lo <= mid <= hi <= end <= base + Step(level + 1) && VacantUnder(nodes', p, level, mid, end)
    ensures Reassigned(nodes, nodes'', p, level, base, lo, hi, leaf)
    ensures VacantUnder(nodes'', p, level, hi, end)
  {
    hide Under, Step;
    forall x: nat | hi <= x < end
      ensures Under(nodes'', p, level, x) == UNASSIGNED
    {
      assert InNode(x, level, base);
      assert Under(nodes', p, level, x) == UNASSIGNED;
    }
  }
}
