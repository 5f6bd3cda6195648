/** The physical page map (exec.c): how ranges of pages are added to the tree, and the compaction pass. */
module PageMap {
  import opened Basics
  import opened Radix
  import opened PageTree
  import opened Compaction

  class PhysPageMap {
    var nodes: seq<Node>
    var nodesAlloc: nat
    var root: Entry
    ghost var shape: seq<Shape>

    /** The map as it is while sections are added. */
    ghost predicate Growing()
      reads this
    {
      AllPlain(nodes, shape) && root.skip == 1 && Plain(nodes, shape, root, LEVELS - 1, 0)
    }

    /** The section number of page `x`. */
    ghost function At(x: nat): nat
      reads `nodes, `root
    {
      Find(nodes, root, LEVELS, x)
    }

    constructor ()
      ensures Growing() && nodes == [] && forall x: nat :: At(x) == UNASSIGNED
    {
      nodes, nodesAlloc, root, shape := [], 0, EMPTY, [];
    }

    /**
     phys_page_set: maps the pages `[index, index + nb)`, all of them unassigned so far, and no others.
     At most 2 * P_L2_LEVELS - 1 nodes are made, so the 3 * P_L2_LEVELS reserved beforehand are enough and
     the array does not move during the recursion.
     */
    method PhysPageSet(index: nat, nb: nat, leaf: nat)
      requires Growing() && nb > 0 && index + nb <= Step(LEVELS) && UNASSIGNED < leaf < NIL
      requires forall x: nat :: index <= x < index + nb ==> At(x) == UNASSIGNED
      requires |nodes| + 2 * LEVELS - 1 <= NIL
      modifies this
      ensures Growing()
      ensures forall x: nat :: x < Step(LEVELS) ==> At(x) == if index <= x < index + nb then leaf else old(At(x))
      ensures |nodes| <= |old(nodes)| + 2 * LEVELS - 1
    {
      hide Step, Find;
      forall x: nat | index <= x < index + nb
        ensures Find(nodes, root, LEVELS, x) == UNASSIGNED
      {
        assert At(x) == UNASSIGNED;
      }
      Reserve(3 * LEVELS);
      WholeTree();
      NodesBound(LEVELS - 1, 0, 0, 0, index, nb);
      ghost var nodes0, root0 := nodes, root;
      var e, last, left := SetLevel(root, LEVELS - 1, 0, index, nb, leaf);
      root := e;
      forall x: nat | x < Step(LEVELS)
        ensures At(x) == if index <= x < index + nb then leaf else Find(nodes0, root0, LEVELS, x)
      {
        assert InNode(x, LEVELS - 1, 0);
      }
    }

    /** phys_map_node_reserve: makes room; the only place where the array may move. */
    method Reserve(n: nat)
      modifies `nodesAlloc
      ensures |nodes| + n <= nodesAlloc
    {
      if |nodes| + n > nodesAlloc {
        nodesAlloc := if nodesAlloc * 2 > 16 then nodesAlloc * 2 else 16;
        nodesAlloc := if nodesAlloc > |nodes| + n then nodesAlloc else |nodes| + n;
      }
    }

    /** phys_map_node_alloc, and the initialisation of a lowest-level node. */
    method NewNode(level: nat, ghost base: nat) returns (p: nat)
      requires AllPlain(nodes, shape) && WellPlaced(Shape(level, base))
      requires |nodes| < nodesAlloc && |nodes| < NIL
      modifies `nodes, `shape
      ensures p == |old(nodes)| && |nodes| == p + 1
      ensures nodes[..p] == old(nodes) && shape == old(shape) + [Shape(level, base)]
      ensures AllPlain(nodes, shape)
      ensures forall x :: Under(nodes, p, level, x) == UNASSIGNED
    {
      p := |nodes|;
      var e := if level == 0 then Entry(0, UNASSIGNED) else EMPTY;
      nodes := nodes + [seq(L2_SIZE, _ => e)];
      shape := shape + [Shape(level, base)];
      forall m, k | 0 <= m < |nodes| && 0 <= k < L2_SIZE
        ensures PlainEntry(nodes, shape, m, k)
      {
        if m < p {
          assert PlainEntry(old(nodes), old(shape), m, k);
        }
      }
    }

    /** One turn of the loop: entry `k` of node `p` is filled as a whole, or handed down a level. */
    method SetSlot(p: nat, level: nat, ghost base: nat, k: nat, index: nat, nb: nat, leaf: nat)
      returns (index': nat, nb': nat)
      requires AllPlain(nodes, shape) && p < |nodes| && shape[p] == Shape(level, base) && k < L2_SIZE
      requires nb > 0 && UNASSIGNED < leaf < NIL
      requires Slot(base, level, k) <= index < Slot(base, level, k) + Step(level)
      requires VacantUnder(nodes, p, level, index, Min(index + nb, Slot(base, level, k) + Step(level)))
      requires |nodes| + SlotNodes(level, Slot(base, level, k), index, nb) <= Min(nodesAlloc, NIL)
      modifies `nodes, `shape
      ensures AllPlain(nodes, shape) && Grown(old(nodes), old(shape), nodes, shape, level, base)
      ensures p < |nodes| && shape[p] == Shape(level, base)
      ensures index' == Min(index + nb, Slot(base, level, k) + Step(level)) && index' + nb' == index + nb
      ensures Reassigned(old(nodes), nodes, p, level, base, index, index', leaf)
      ensures |nodes| <= |old(nodes)| + SlotNodes(level, Slot(base, level, k), index, nb)
      decreases level, 0
    {
      hide AllPlain, Grown, Reassigned, Reassigns, Vacant, VacantUnder, OnStep, Step, Slot;
      ghost var nodes0, shape0 := nodes, shape;
      ghost var slot := Slot(base, level, k);
      NodeAt(nodes, shape, p);
      AlignedInSlot(index, base, level, k);
      if OnStep(index, level) && nb >= Step(level) {
        nodes := nodes[p := nodes[p][k := Entry(0, leaf)]];
        index', nb' := index + Step(level), nb - Step(level);
        WholeSlot(nodes0, shape, p, k, leaf);
      } else {
        PartSlot(nodes, shape, p, k, index, Min(index + nb, slot + Step(level)));
        var e;
        e, index', nb' := SetLevel(nodes[p][k], level - 1, slot, index, nb, leaf);
        ghost var nodes1 := nodes;
        GrownKeeps(nodes0, shape0, nodes, shape, level - 1, slot, p);
        NodeAt(nodes, shape, p);
        nodes := nodes[p := nodes[p][k := e]];
        PartSet(nodes0, shape0, nodes1, shape, p, k, e, index, index', leaf);
      }
    }

    /** phys_page_set_level */
    method SetLevel(lp: Entry, level: nat, ghost base: nat, index: nat, nb: nat, leaf: nat)
      returns (lp': Entry, index': nat, nb': nat)
      requires AllPlain(nodes, shape) && WellPlaced(Shape(level, base))
      requires lp.skip == 1 && Plain(nodes, shape, lp, level, base)
      requires InNode(index, level, base) && nb > 0 && UNASSIGNED < leaf < NIL
      requires Vacant(nodes, lp, level + 1, index, Min(index + nb, base + Step(level + 1)))
      requires |nodes| + NodesFor(lp.ptr == NIL, level, base, index, nb) <= Min(nodesAlloc, NIL)
      modifies `nodes, `shape
      ensures AllPlain(nodes, shape) && Grown(old(nodes), old(shape), nodes, shape, level, base)
      ensures lp'.skip == 1 && lp'.ptr < |nodes| && shape[lp'.ptr] == Shape(level, base)
      ensures index' == Min(index + nb, base + Step(level + 1)) && index' + nb' == index + nb
      ensures Reassigns(old(nodes), lp, nodes, lp', level, base, index, index', leaf)
      ensures |nodes| <= |old(nodes)| + NodesFor(lp.ptr == NIL, level, base, index, nb)
      decreases level, 2
    {
      hide AllPlain, Grown, Reassigned, Reassigns, Vacant, VacantUnder, Agrees, Find, Under;
      ghost var nodes0, shape0 := nodes, shape;
      ghost var end := Min(index + nb, base + Step(level + 1));
      var p;
      if lp.skip != 0 && lp.ptr == NIL {
        p := NewNode(level, base);
        FreshNode(nodes0, shape0, nodes, shape, lp, index, end);
      } else {
        p := lp.ptr;
        OldNode(nodes, shape, lp, level, base, index, end);
      }
      NodeAt(nodes, shape, p);
      ghost var nodes1, shape1 := nodes, shape;
      lp' := Entry(lp.skip, p);
      index', nb' := SetSlots(p, level, base, index, nb, leaf);
      NodeAt(nodes, shape, p);
      AllSlots(nodes0, lp, nodes1, nodes, p, level, base, index, index', leaf);
      GrownOn(nodes0, shape0, nodes1, shape1, nodes, shape, level, base);
    }

    /** The loop of phys_page_set_level over the entries of node `p`. */
    method SetSlots(p: nat, level: nat, ghost base: nat, index: nat, nb: nat, leaf: nat)
      returns (index': nat, nb': nat)
      requires AllPlain(nodes, shape) && p < |nodes| && shape[p] == Shape(level, base)
      requires InNode(index, level, base) && nb > 0 && UNASSIGNED < leaf < NIL
      requires VacantUnder(nodes, p, level, index, Min(index + nb, base + Step(level + 1)))
      requires |nodes| + NodesFor(false, level, base, index, nb) <= Min(nodesAlloc, NIL)
      modifies `nodes, `shape
      ensures AllPlain(nodes, shape) && Grown(old(nodes), old(shape), nodes, shape, level, base)
      ensures p < |nodes| && shape[p] == Shape(level, base)
      ensures index' == Min(index + nb, base + Step(level + 1)) && index' + nb' == index + nb
      ensures Reassigned(old(nodes), nodes, p, level, base, index, index', leaf)
      ensures |nodes| <= |old(nodes)| + NodesFor(false, level, base, index, nb)
      decreases level, 1
    {
      ghost var nodes0, shape0 := nodes, shape;
      hide AllPlain, Grown, Reassigned, VacantUnder, Step, Slot, Digit, NodesFor, NodesSoFar, SlotNodes;
      NodeAt(nodes, shape, p);
      var k := Digit(index, level);
      ghost var k0 := k;
      ghost var end := Min(index + nb, base + Step(level + 1));
      Unchanged(nodes, shape, p, level, base, index, leaf);
      DigitSlot(index, level, base, k);
      index', nb' := index, nb;
      while nb' > 0 && k < L2_SIZE
        invariant k <= L2_SIZE && AllPlain(nodes, shape) && Grown(nodes0, shape0, nodes, shape, level, base)
        invariant p < |nodes| == |shape| && shape[p] == Shape(level, base)
        invariant index' + nb' == index + nb && index <= index' <= base + Step(level + 1)
        invariant nb' > 0 ==> Slot(base, level, k) <= index'
        invariant nb' > 0 && k < L2_SIZE ==> index' < Slot(base, level, k) + Step(level)
        invariant |nodes[p]| == L2_SIZE
        invariant Reassigned(nodes0, nodes, p, level, base, index, index', leaf) && VacantUnder(nodes, p, level, index', end)
        invariant if nb' == 0 then |nodes| <= |nodes0| + NodesFor(false, level, base, index, nb)
                  else |nodes| <= |nodes0| + NodesSoFar(level, base, k0, k, index)
        invariant k0 <= k && (k0 < k && nb' > 0 ==> index' == Slot(base, level, k))
        invariant k0 == k ==> index' == index && nb' == nb
        decreases L2_SIZE - k
      {
        SlotNext(base, level, k);
        SlotMonotone(base, level, k + 1, L2_SIZE);
        SlotMonotone(base, level, 0, k0);
        NodesAddUp(level, base, k0, k, index, nb, index', nb');
        ghost var nodes1, shape1, index1 := nodes, shape, index';
        VacantPart(nodes, p, level, index', Min(index' + nb', Slot(base, level, k) + Step(level)), end);
        index', nb' := SetSlot(p, level, base, k, index', nb', leaf);
        NodeAt(nodes, shape, p);
        GrownOn(nodes0, shape0, nodes1, shape1, nodes, shape, level, base);
        SlotDone(nodes0, nodes1, nodes, p, level, base, index, index1, index', end, leaf);
        k := k + 1;
      }
      SlotNext(base, level, k);
      NodesBound(level, base, k0, k, index, nb);
    }

    /** phys_page_compact, and the storing of the entry it is given. */
    method Compact(lp: Entry, ghost level: nat, ghost base: nat) returns (lp': Entry)
      requires Well(nodes, shape) && PlainInside(nodes, shape, level, base)
      requires lp.skip == 1 && Plain(nodes, shape, lp, level, base)
      modifies `nodes
      ensures |nodes| == |shape| == |old(nodes)| && Well(nodes, shape) && SameOutside(old(nodes), nodes, shape, level, base)
      ensures Leads(nodes, shape, lp', level, base) && Blurs(old(nodes), lp, nodes, lp', level, base)
      ensures lp'.ptr == NIL <==> lp.ptr == NIL
      ensures Tight(nodes, lp', level + 1)
      decreases level, 1
    {
      hide Well, PlainInside, SameOutside, Blurs, Find, PlainEntry, Slot, ToCompact, Tight, TightUpTo, Counted;
      WellSizes(nodes, shape);
      BlursSelf(nodes, shape, lp, level, base);
      if lp.ptr == NIL {
        TightNil(nodes, lp, level);
        return lp;
      }
      ghost var nodes0 := nodes;
      var p := lp.ptr;
      NothingCounted(nodes, p, level);
      StartCompact(nodes, shape, p);
      var i: nat, valid: nat, validPtr: nat := 0, 0, L2_SIZE;
      while i < L2_SIZE
        invariant i <= L2_SIZE && p < |nodes| == |shape| == |nodes0|
        invariant forall m :: 0 <= m < |nodes| ==> |nodes[m]| == L2_SIZE
        invariant Well(nodes, shape) && SameOutside(nodes0, nodes, shape, level, base)
        invariant Blurs(nodes0, lp, nodes, lp, level, base)
        invariant ToCompact(nodes, shape, p, i)
        invariant Counted(nodes[p], i, valid, validPtr) && TightUpTo(nodes, p, i, level)
        invariant level == 0 ==> valid == i
      {
        NextCompact(nodes, shape, p, i);
        if nodes[p][i].ptr == NIL || nodes[p][i].skip == 0 {
          TightNext(nodes, p, i, level);
        }
        if nodes[p][i].ptr == NIL {
          CountNone(nodes[p], i, valid, validPtr);
        } else {
          CountOne(nodes[p], i, valid, validPtr);
          validPtr := i;
          valid := valid + 1;
          if nodes[p][i].skip != 0 {
            ghost var nodes1 := nodes;
            CompactSlot(p, i, level, base);
            CountSame(nodes1[p], nodes[p], i + 1, valid, validPtr);
            NodeWell(nodes, shape, p);
            SameOutsideTrans(nodes0, nodes1, nodes, shape, level, base);
            BlursTrans(nodes0, lp, nodes1, lp, nodes, lp, level, base);
          }
        }
        i := i + 1;
      }
      CountedAll(nodes[p], valid, validPtr);
      if valid != 1 || lp.skip + nodes[p][validPtr].skip >= 8 {
        NodeWell(nodes, shape, p);
        TightNode(nodes, p, level, valid, validPtr);
        return lp;
      }
      var c := nodes[p][validPtr];
      lp' := Entry(if c.skip == 0 then 0 else lp.skip + c.skip, c.ptr);
      OneChild(nodes, shape, p, validPtr);
      BlursTrans(nodes0, lp, nodes, lp, nodes, lp', level, base);
      TightEntry(nodes, p, validPtr, level);
      TightPast(nodes, c, level);
    }

    /** The call for entry `k` of node `p`. */
    method CompactSlot(p: nat, k: nat, ghost level: nat, ghost base: nat)
      requires Well(nodes, shape) && p < |nodes| && shape[p] == Shape(level, base) && k < L2_SIZE
      requires ToCompact(nodes, shape, p, k) && nodes[p][k].ptr != NIL && nodes[p][k].skip != 0 && level > 0
      requires TightUpTo(nodes, p, k, level)
      modifies `nodes
      ensures |nodes| == |old(nodes)| && Well(nodes, shape) && SameOutside(old(nodes), nodes, shape, level, base)
      ensures Blurs(old(nodes), Entry(1, p), nodes, Entry(1, p), level, base)
      ensures ToCompact(nodes, shape, p, k + 1) && |nodes[p]| == L2_SIZE && TightUpTo(nodes, p, k + 1, level)
      ensures forall j :: 0 <= j < L2_SIZE ==> (nodes[p][j].ptr == NIL <==> old(nodes[p][j]).ptr == NIL)
      decreases level, 0
    {
      hide Well, PlainInside, SameOutside, Blurs, Find, PlainEntry, Slot, ToCompact, Tight, TightUpTo, Leads;
      ghost var nodes0 := nodes;
      NodeWell(nodes, shape, p);
      NextCompact(nodes, shape, p, k);
      var e := Compact(nodes[p][k], level - 1, Slot(base, level, k));
      ghost var nodes1 := nodes;
      NodeWell(nodes, shape, p);
      AboveSlot(nodes0, nodes1, shape, p, k);
      nodes := nodes[p := nodes[p][k := e]];
      TightSlots(nodes0, nodes1, shape, p, k, e);
      SlotCompacted(nodes0, nodes1, shape, p, k, e);
    }

    /** phys_page_compact_all: a mapped page stays as it is, a page without section may take on that of another. */
    method CompactAll()
      requires Growing()
      modifies `nodes, `root
      ensures Well(nodes, shape)
      ensures Blurs(old(nodes), old(root), nodes, root, LEVELS - 1, 0)
      ensures Tight(nodes, root, LEVELS)
    {
      hide Blurs, SameOutside, Tight;
      PlainIsGood(nodes, shape);
      assert PlainInside(nodes, shape, LEVELS - 1, 0);
      if root.skip != 0 {
        var e := Compact(root, LEVELS - 1, 0);
        root := e;
      }
    }
  }
}
