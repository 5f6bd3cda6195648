/**
 The compaction pass of the physical page map (phys_page_compact, exec.c): an entry whose node has a
 single child is made to lead past that node.  The digit that chose the child is then no longer
 compared, so pages that led nowhere may now lead to a section that lies elsewhere.
 */
module Compaction {
  import opened Basics
  import opened Radix
  import opened PageTree

  /** What compaction may change: a page that led nowhere may lead to a section found at another page. */
  ghost predicate Blurs(nodes: seq<Node>, e: Entry, nodes': seq<Node>, e': Entry, level: nat, base: nat)
  {
    forall x: nat :: InNode(x, level, base) ==> BlursAt(nodes, e, nodes', e', level, base, x)
  }

  ghost predicate BlursAt(nodes: seq<Node>, e: Entry, nodes': seq<Node>, e': Entry, level: nat, base: nat, x: nat)
  {
    || Find(nodes', e', level + 1, x) == Find(nodes, e, level + 1, x)
    || (Find(nodes, e, level + 1, x) == UNASSIGNED && Occurs(nodes, e, level, base, Find(nodes', e', level + 1, x)))
  }

  /** Some page of the place (`level`, `base`) leads to section `s`. */
  ghost predicate Occurs(nodes: seq<Node>, e: Entry, level: nat, base: nat, s: nat)
  {
    exists y: nat :: InNode(y, level, base) && Find(nodes, e, level + 1, y) == s
  }

  lemma BlursTrans(nodes: seq<Node>, e: Entry, nodes': seq<Node>, e': Entry, nodes'': seq<Node>, e'': Entry, level: nat, base: nat)
    requires Blurs(nodes, e, nodes', e', level, base) && Blurs(nodes', e', nodes'', e'', level, base)
    ensures Blurs(nodes, e, nodes'', e'', level, base)
  {
    hide Find, InNode;
    forall x: nat | InNode(x, level, base)
      ensures BlursAt(nodes, e, nodes'', e'', level, base, x)
    {
      assert BlursAt(nodes, e, nodes', e', level, base, x);
      assert BlursAt(nodes', e', nodes'', e'', level, base, x);
      var s := Find(nodes'', e'', level + 1, x);
      if s != Find(nodes', e', level + 1, x) {
        var y: nat :| InNode(y, level, base) && Find(nodes', e', level + 1, y) == s;
        assert BlursAt(nodes, e, nodes', e', level, base, y);
      }
    }
  }

  /** Pages a multiple of `Step(level)` apart have the same digits below `level`. */
  lemma SameDigits(x: nat, d: nat, level: nat, j: nat)
    requires j < level
    ensures Digit(x + d * Step(level), j) == Digit(x, j)
  {
    hide Step;
    var m := StepRatio(level, j);
    Shifted(x, d, m, Step(j), Step(level));
  }

  lemma Shifted(x: nat, d: nat, m: nat, s: nat, t: nat)
    requires s > 0 && t == m * 512 * s
    ensures (x + d * t) / s % 512 == x / s % 512
  {
    var q, r := x / s, x % s;
    Shuffle(q, d, m, s);
    DivUnique(x + d * t, s, q + d * m * 512, r);
  }

  lemma Shuffle(q: nat, d: nat, m: nat, s: nat)
    ensures (q + d * m * 512) * s == q * s + d * (m * 512 * s)
  {
    assert d * m * 512 * s == d * (m * 512 * s);
  }

  lemma {:induction false} StepRatio(level: nat, j: nat) returns (m: nat)
    requires j < level
    ensures Step(level) == m * 512 * Step(j)
    decreases level
  {
    if level == j + 1 {
      m := 1;
    } else {
      var n := StepRatio(level - 1, j);
      m := 512 * n;
    }
  }

  /** What an entry leads to depends on the digits below its level only. */
  lemma {:induction false} FindDigits(nodes: seq<Node>, e: Entry, i: nat, x: nat, d: nat, level: nat)
    requires i <= level
    ensures Find(nodes, e, i, x + d * Step(level)) == Find(nodes, e, i, x)
    decreases i
  {
    if !(e.skip == 0 || i < e.skip || e.ptr == NIL || e.ptr >= |nodes| || |nodes[e.ptr]| != L2_SIZE) {
      SameDigits(x, d, level, i - e.skip);
      FindDigits(nodes, nodes[e.ptr][Digit(x, i - e.skip)], i - e.skip, x, d, level);
    }
  }

  // ---------------------------------------------------------------- one node

  /** Nothing in the place (`level`, `base`) is compacted yet. */
  ghost predicate PlainInside(nodes: seq<Node>, shape: seq<Shape>, level: nat, base: nat)
    requires |nodes| == |shape| && forall m :: 0 <= m < |nodes| ==> |nodes[m]| == L2_SIZE
  {
    forall m, k :: 0 <= m < |nodes| && 0 <= k < L2_SIZE && Within(shape[m], level, base) ==> PlainEntry(nodes, shape, m, k)
  }

  /** The entries of node `p` from `i` on, and what is below them, are not compacted yet. */
  ghost predicate ToCompact(nodes: seq<Node>, shape: seq<Shape>, p: nat, i: nat)
    requires |nodes| == |shape| && forall m :: 0 <= m < |nodes| ==> |nodes[m]| == L2_SIZE
    requires p < |nodes|
  {
    forall j :: i <= j < L2_SIZE ==>
      && PlainEntry(nodes, shape, p, j)
      && (shape[p].level > 0 ==> PlainInside(nodes, shape, shape[p].level - 1, Slot(shape[p].base, shape[p].level, j)))
  }

  /** `valid` of the first `i` entries are in use, and if it is one then it is entry `k`. */
  ghost predicate Counted(node: Node, i: nat, valid: nat, k: nat)
    requires i <= |node|
  {
    && valid <= i
    && (valid == 0 ==> forall j :: 0 <= j < i ==> node[j].ptr == NIL)
    && (valid == 1 ==> k < i && node[k].ptr != NIL && forall j :: 0 <= j < i && j != k ==> node[j].ptr == NIL)
    && (valid > 1 ==> exists j, j' :: 0 <= j < j' < i && node[j].ptr != NIL && node[j'].ptr != NIL)
    && (valid > 0 ==> k < i && node[k].ptr != NIL)
  }

  /** One more entry is in use. */
  lemma CountOne(node: Node, i: nat, valid: nat, k: nat)
    requires i < |node| && Counted(node, i, valid, k) && node[i].ptr != NIL
    ensures Counted(node, i + 1, valid + 1, i)
  {
    if valid > 0 {
      assert 0 <= k < i < i + 1 && node[k].ptr != NIL && node[i].ptr != NIL;
    }
  }

  lemma WellSizes(nodes: seq<Node>, shape: seq<Shape>)
    requires Well(nodes, shape)
    ensures |nodes| == |shape| && forall m :: 0 <= m < |nodes| ==> |nodes[m]| == L2_SIZE
  {
  }

  lemma NodeWell(nodes: seq<Node>, shape: seq<Shape>, p: nat)
    requires Well(nodes, shape) && p < |nodes|
    ensures |nodes| == |shape| && p < NIL && WellPlaced(shape[p])
    ensures forall m :: 0 <= m < |nodes| ==> |nodes[m]| == L2_SIZE
    ensures Leads(nodes, shape, Entry(1, p), shape[p].level, shape[p].base)
  {
  }

  lemma SameOutsideTrans(nodes: seq<Node>, nodes': seq<Node>, nodes'': seq<Node>, shape: seq<Shape>, level: nat, base: nat)
    requires |nodes| == |nodes'| == |shape|
    requires SameOutside(nodes, nodes', shape, level, base) && SameOutside(nodes', nodes'', shape, level, base)
    ensures SameOutside(nodes, nodes'', shape, level, base)
  {
  }

  lemma BlursSelf(nodes: seq<Node>, shape: seq<Shape>, e: Entry, level: nat, base: nat)
    requires |nodes| == |shape|
    ensures Blurs(nodes, e, nodes, e, level, base) && SameOutside(nodes, nodes, shape, level, base)
  {
  }

  lemma StartCompact(nodes: seq<Node>, shape: seq<Shape>, p: nat)
    requires Well(nodes, shape) && p < |nodes| && PlainInside(nodes, shape, shape[p].level, shape[p].base)
    ensures ToCompact(nodes, shape, p, 0)
  {
    var s := shape[p];
    forall j, m, k | 0 <= j < L2_SIZE && s.level > 0 && 0 <= m < |nodes| && 0 <= k < L2_SIZE &&
                     Within(shape[m], s.level - 1, Slot(s.base, s.level, j))
      ensures PlainEntry(nodes, shape, m, k)
    {
      SlotWithin(shape[m], s.level, s.base, j);
    }
  }

  /** What the next entry is; in a node of the lowest level, always a leaf. */
  lemma NextCompact(nodes: seq<Node>, shape: seq<Shape>, p: nat, i: nat)
    requires Well(nodes, shape) && p < |nodes| && i < L2_SIZE && ToCompact(nodes, shape, p, i)
    ensures ToCompact(nodes, shape, p, i + 1)
    ensures PlainEntry(nodes, shape, p, i)
    ensures nodes[p][i].skip != 0 ==>
              && shape[p].level > 0 && nodes[p][i].skip == 1
              && Plain(nodes, shape, nodes[p][i], shape[p].level - 1, Slot(shape[p].base, shape[p].level, i))
              && PlainInside(nodes, shape, shape[p].level - 1, Slot(shape[p].base, shape[p].level, i))
    ensures shape[p].level == 0 ==> nodes[p][i].ptr != NIL
  {
  }

  /** A node is not among those below one of its slots. */
  lemma AboveSlot(nodes: seq<Node>, nodes': seq<Node>, shape: seq<Shape>, p: nat, k: nat)
    requires |nodes| == |shape| && p < |nodes| && shape[p].level > 0
    requires SameOutside(nodes, nodes', shape, shape[p].level - 1, Slot(shape[p].base, shape[p].level, k))
    ensures nodes'[p] == nodes[p]
  {
  }

  lemma WellStore(nodes: seq<Node>, shape: seq<Shape>, p: nat, k: nat, e: Entry)
    requires Well(nodes, shape) && p < |nodes| && k < L2_SIZE && shape[p].level > 0
    requires Leads(nodes, shape, e, shape[p].level - 1, Slot(shape[p].base, shape[p].level, k))
    ensures Well(nodes[p := nodes[p][k := e]], shape)
  {
    var nodes' := nodes[p := nodes[p][k := e]];
    forall m, j | 0 <= m < |nodes| && 0 <= j < L2_SIZE
      ensures GoodEntry(nodes', shape, m, j)
    {
      assert GoodEntry(nodes, shape, m, j);
    }
  }

  /** The entries after `k` are not affected by compacting below entry `k`. */
  lemma RestToCompact(nodes: seq<Node>, nodes': seq<Node>, shape: seq<Shape>, p: nat, k: nat, e: Entry)
    requires Well(nodes, shape) && Well(nodes', shape) && p < |nodes| && k < L2_SIZE && shape[p].level > 0
    requires SameOutside(nodes, nodes', shape, shape[p].level - 1, Slot(shape[p].base, shape[p].level, k))
    requires ToCompact(nodes, shape, p, k + 1)
    ensures ToCompact(nodes'[p := nodes'[p][k := e]], shape, p, k + 1)
  {
    var s, nodes'' := shape[p], nodes'[p := nodes'[p][k := e]];
    forall j | k + 1 <= j < L2_SIZE
      ensures PlainEntry(nodes'', shape, p, j) && PlainInside(nodes'', shape, s.level - 1, Slot(s.base, s.level, j))
    {
      assert PlainEntry(nodes, shape, p, j);
      forall m, i | 0 <= m < |nodes| && 0 <= i < L2_SIZE && Within(shape[m], s.level - 1, Slot(s.base, s.level, j))
        ensures PlainEntry(nodes'', shape, m, i)
      {
        SlotsApart(shape[m], s.level, s.base, j, k);
        assert PlainEntry(nodes, shape, m, i);
      }
    }
  }

  /** Compacting below entry `k` of node `p`, seen from the node. */
  lemma SlotBlurs(nodes: seq<Node>, nodes': seq<Node>, shape: seq<Shape>, p: nat, k: nat, e: Entry)
    requires Well(nodes, shape) && Well(nodes', shape) && p < |nodes| && k < L2_SIZE && shape[p].level > 0
    requires SameOutside(nodes, nodes', shape, shape[p].level - 1, Slot(shape[p].base, shape[p].level, k))
    requires Leads(nodes', shape, e, shape[p].level - 1, Slot(shape[p].base, shape[p].level, k))
    requires Blurs(nodes, nodes[p][k], nodes', e, shape[p].level - 1, Slot(shape[p].base, shape[p].level, k))
    ensures Blurs(nodes, Entry(1, p), nodes'[p := nodes'[p][k := e]], Entry(1, p), shape[p].level, shape[p].base)
  {
    var s, nodes'' := shape[p], nodes'[p := nodes'[p][k := e]];
    var slot, n := Slot(s.base, s.level, k), Entry(1, p);
    forall x: nat | InNode(x, s.level, s.base)
      ensures BlursAt(nodes, n, nodes'', n, s.level, s.base, x)
    {
      EntryUnder(nodes, p, s.level, x);
      EntryUnder(nodes'', p, s.level, x);
      DigitSlot(x, s.level, s.base, k);
      if Digit(x, s.level) != k {
        SlotReplaced(nodes, nodes'', shape, p, k, x);
      } else {
        FindSame(nodes', nodes'', shape, e, s.level - 1, slot, x);
        InSlot(nodes, nodes', shape, p, k, e, x);
      }
    }
  }

  lemma InSlot(nodes: seq<Node>, nodes': seq<Node>, shape: seq<Shape>, p: nat, k: nat, e: Entry, x: nat)
    requires Well(nodes, shape) && p < |nodes| && k < L2_SIZE && shape[p].level > 0
    requires Blurs(nodes, nodes[p][k], nodes', e, shape[p].level - 1, Slot(shape[p].base, shape[p].level, k))
    requires Slot(shape[p].base, shape[p].level, k) <= x < Slot(shape[p].base, shape[p].level, k) + Step(shape[p].level)
    ensures var s := shape[p];
            || Find(nodes', e, s.level, x) == Find(nodes, nodes[p][k], s.level, x)
            || (Find(nodes, nodes[p][k], s.level, x) == UNASSIGNED &&
                Occurs(nodes, Entry(1, p), s.level, s.base, Find(nodes', e, s.level, x)))
  {
    hide Find;
    var s := shape[p];
    var slot := Slot(s.base, s.level, k);
    assert InNode(x, s.level - 1, slot);
    assert BlursAt(nodes, nodes[p][k], nodes', e, s.level - 1, slot, x);
    var t := Find(nodes', e, s.level, x);
    if t != Find(nodes, nodes[p][k], s.level, x) {
      var y: nat :| InNode(y, s.level - 1, slot) && Find(nodes, nodes[p][k], s.level, y) == t;
      FoundFromNode(nodes, shape, p, k, y);
    }
  }

  /** From its node, a page of slot `k` is looked up in entry `k`. */
  lemma FoundFromNode(nodes: seq<Node>, shape: seq<Shape>, p: nat, k: nat, y: nat)
    requires Well(nodes, shape) && p < |nodes| && k < L2_SIZE
    requires Slot(shape[p].base, shape[p].level, k) <= y < Slot(shape[p].base, shape[p].level, k) + Step(shape[p].level)
    ensures InNode(y, shape[p].level, shape[p].base)
    ensures Find(nodes, Entry(1, p), shape[p].level + 1, y) == Find(nodes, nodes[p][k], shape[p].level, y)
  {
    var s := shape[p];
    SlotNext(s.base, s.level, k);
    SlotMonotone(s.base, s.level, k + 1, L2_SIZE);
    SlotMonotone(s.base, s.level, 0, k);
    SlotDigit(y, s.base, s.level, k);
    EntryUnder(nodes, p, s.level, y);
  }

  lemma SlotCompacted(nodes: seq<Node>, nodes': seq<Node>, shape: seq<Shape>, p: nat, k: nat, e: Entry)
    requires Well(nodes, shape) && Well(nodes', shape) && p < |nodes| && k < L2_SIZE && shape[p].level > 0
    requires SameOutside(nodes, nodes', shape, shape[p].level - 1, Slot(shape[p].base, shape[p].level, k))
    requires Leads(nodes', shape, e, shape[p].level - 1, Slot(shape[p].base, shape[p].level, k))
    requires Blurs(nodes, nodes[p][k], nodes', e, shape[p].level - 1, Slot(shape[p].base, shape[p].level, k))
    requires ToCompact(nodes, shape, p, k + 1)
    ensures Well(nodes'[p := nodes'[p][k := e]], shape)
    ensures SameOutside(nodes, nodes'[p := nodes'[p][k := e]], shape, shape[p].level, shape[p].base)
    ensures Blurs(nodes, Entry(1, p), nodes'[p := nodes'[p][k := e]], Entry(1, p), shape[p].level, shape[p].base)
    ensures ToCompact(nodes'[p := nodes'[p][k := e]], shape, p, k + 1)
  {
    hide Blurs, ToCompact, Leads, Slot;
    var s := shape[p];
    WellStore(nodes', shape, p, k, e);
    RestToCompact(nodes, nodes', shape, p, k, e);
    SlotBlurs(nodes, nodes', shape, p, k, e);
    forall m | 0 <= m < |nodes| && Within(shape[m], s.level - 1, Slot(s.base, s.level, k))
      ensures Within(shape[m], s.level, s.base)
    {
      SlotWithin(shape[m], s.level, s.base, k);
    }
  }

  // ---------------------------------------------------------------- what is left to compact

  ghost predicate OnlyChild(node: Node, k: nat)
    requires k < |node|
  {
    node[k].ptr != NIL && forall j :: 0 <= j < |node| && j != k ==> node[j].ptr == NIL
  }

  /** An entry that could lead past its node: there is a single child, and `skip` has the bits for it. */
  ghost predicate Joinable(e: Entry, node: Node)
  {
    exists k :: 0 <= k < |node| && OnlyChild(node, k) && e.skip + node[k].skip < 8
  }

  /** Neither the entry nor any entry below it could lead past its node. */
  ghost predicate Tight(nodes: seq<Node>, e: Entry, i: nat)
    decreases i
  {
    0 < e.skip <= i && e.ptr != NIL && e.ptr < |nodes| && |nodes[e.ptr]| == L2_SIZE ==>
      !Joinable(e, nodes[e.ptr]) && forall k :: 0 <= k < L2_SIZE ==> Tight(nodes, nodes[e.ptr][k], i - e.skip)
  }

  ghost predicate TightUpTo(nodes: seq<Node>, p: nat, n: nat, i: nat)
    requires p < |nodes| && n <= |nodes[p]|
  {
    forall k :: 0 <= k < n ==> Tight(nodes, nodes[p][k], i)
  }

  lemma {:induction false} TightSame(nodes: seq<Node>, nodes': seq<Node>, shape: seq<Shape>, e: Entry, level: nat, base: nat)
    requires Well(nodes, shape) && Leads(nodes, shape, e, level, base) && SameInside(nodes, nodes', shape, level, base)
    requires Tight(nodes, e, level + 1)
    ensures Tight(nodes', e, level + 1)
    decreases level
  {
    if e.skip != 0 && e.ptr != NIL {
      var s := shape[e.ptr];
      forall k | 0 <= k < L2_SIZE
        ensures Tight(nodes', nodes[e.ptr][k], s.level)
      {
        assert GoodEntry(nodes, shape, e.ptr, k) && Tight(nodes, nodes[e.ptr][k], s.level);
        if s.level > 0 {
          InsideSlot(nodes, nodes', shape, s, level, base, k);
          TightSame(nodes, nodes', shape, nodes[e.ptr][k], s.level - 1, Slot(s.base, s.level, k));
        }
      }
    }
  }

  lemma InsideSlot(nodes: seq<Node>, nodes': seq<Node>, shape: seq<Shape>, s: Shape, level: nat, base: nat, k: nat)
    requires |nodes| == |shape| && SameInside(nodes, nodes', shape, level, base) && Within(s, level, base) && s.level > 0 && k < L2_SIZE
    ensures SameInside(nodes, nodes', shape, s.level - 1, Slot(s.base, s.level, k))
  {
    forall m | 0 <= m < |nodes| && Within(shape[m], s.level - 1, Slot(s.base, s.level, k))
      ensures nodes'[m] == nodes[m]
    {
      SlotWithin(shape[m], s.level, s.base, k);
      WithinTrans(shape[m], s, level, base);
    }
  }

  /** An entry that has not to be compacted. */
  lemma TightNext(nodes: seq<Node>, p: nat, n: nat, i: nat)
    requires p < |nodes| && n < |nodes[p]| && TightUpTo(nodes, p, n, i) && (nodes[p][n].skip == 0 || nodes[p][n].ptr == NIL)
    ensures TightUpTo(nodes, p, n + 1, i)
  {
  }

  lemma TightNil(nodes: seq<Node>, e: Entry, level: nat)
    requires e.ptr == NIL
    ensures Tight(nodes, e, level + 1)
  {
  }

  lemma TightEntry(nodes: seq<Node>, p: nat, k: nat, i: nat)
    requires p < |nodes| && k < |nodes[p]| == L2_SIZE && TightUpTo(nodes, p, L2_SIZE, i)
    ensures Tight(nodes, nodes[p][k], i)
  {
  }

  lemma NothingCounted(nodes: seq<Node>, p: nat, level: nat)
    requires p < |nodes|
    ensures Counted(nodes[p], 0, 0, L2_SIZE) && TightUpTo(nodes, p, 0, level)
  {
  }

  lemma CountNone(node: Node, i: nat, valid: nat, k: nat)
    requires i < |node| && Counted(node, i, valid, k) && node[i].ptr == NIL
    ensures Counted(node, i + 1, valid, k)
  {
  }

  lemma CountSame(node: Node, node': Node, i: nat, valid: nat, k: nat)
    requires i <= |node| == |node'| && Counted(node, i, valid, k)
    requires forall j :: 0 <= j < |node| ==> (node'[j].ptr == NIL <==> node[j].ptr == NIL)
    ensures Counted(node', i, valid, k)
  {
  }

  lemma CountedAll(node: Node, valid: nat, k: nat)
    requires |node| == L2_SIZE && Counted(node, L2_SIZE, valid, k)
    ensures valid == 1 ==> k < L2_SIZE && node[k].ptr != NIL && forall j :: 0 <= j < L2_SIZE && j != k ==> node[j].ptr == NIL
  {
  }

  /** The entries of node `p` up to `k`, when entry `k` has been compacted. */
  lemma TightSlots(nodes: seq<Node>, nodes': seq<Node>, shape: seq<Shape>, p: nat, k: nat, e: Entry)
    requires Well(nodes, shape) && Well(nodes', shape) && p < |nodes| && k < L2_SIZE && shape[p].level > 0
    requires SameOutside(nodes, nodes', shape, shape[p].level - 1, Slot(shape[p].base, shape[p].level, k)) && nodes'[p] == nodes[p]
    requires Leads(nodes', shape, e, shape[p].level - 1, Slot(shape[p].base, shape[p].level, k))
    requires TightUpTo(nodes, p, k, shape[p].level) && Tight(nodes', e, shape[p].level)
    ensures TightUpTo(nodes'[p := nodes'[p][k := e]], p, k + 1, shape[p].level)
  {
    hide Tight, Well, Leads, Slot;
    NodeWell(nodes, shape, p);
    NodeWell(nodes', shape, p);
    var s, nodes'' := shape[p], nodes'[p := nodes'[p][k := e]];
    forall j | 0 <= j < k + 1
      ensures Tight(nodes'', nodes''[p][j], s.level)
    {
      if j == k {
        OutsideItself(nodes', nodes'', shape, p, k);
        TightSame(nodes', nodes'', shape, e, s.level - 1, Slot(s.base, s.level, k));
      } else {
        EntryLeads(nodes, shape, p, j);
        OtherSlot(nodes, nodes', nodes'', shape, p, j, k);
        TightSame(nodes, nodes'', shape, nodes[p][j], s.level - 1, Slot(s.base, s.level, j));
      }
    }
  }

  lemma EntryLeads(nodes: seq<Node>, shape: seq<Shape>, p: nat, j: nat)
    requires Well(nodes, shape) && p < |nodes| && j < L2_SIZE && shape[p].level > 0
    ensures |nodes[p]| == L2_SIZE && Leads(nodes, shape, nodes[p][j], shape[p].level - 1, Slot(shape[p].base, shape[p].level, j))
  {
    assert GoodEntry(nodes, shape, p, j);
  }

  lemma OutsideItself(nodes: seq<Node>, nodes': seq<Node>, shape: seq<Shape>, p: nat, k: nat)
    requires |nodes| == |nodes'| == |shape| && p < |nodes| && shape[p].level > 0
    requires forall m :: 0 <= m < |nodes| && m != p ==> nodes'[m] == nodes[m]
    ensures SameInside(nodes, nodes', shape, shape[p].level - 1, Slot(shape[p].base, shape[p].level, k))
  {
  }

  lemma OtherSlot(nodes: seq<Node>, nodes': seq<Node>, nodes'': seq<Node>, shape: seq<Shape>, p: nat, j: nat, k: nat)
    requires |nodes| == |nodes'| == |nodes''| == |shape| && p < |nodes| && shape[p].level > 0 && j != k
    requires SameOutside(nodes, nodes', shape, shape[p].level - 1, Slot(shape[p].base, shape[p].level, k))
    requires forall m :: 0 <= m < |nodes| && m != p ==> nodes''[m] == nodes'[m]
    ensures SameInside(nodes, nodes'', shape, shape[p].level - 1, Slot(shape[p].base, shape[p].level, j))
  {
    var s := shape[p];
    forall m | 0 <= m < |nodes| && Within(shape[m], s.level - 1, Slot(s.base, s.level, j))
      ensures nodes''[m] == nodes[m]
    {
      SlotsApart(shape[m], s.level, s.base, j, k);
    }
  }

  /** With all entries of its node compacted, an entry that may not lead past the node is done. */
  lemma TightNode(nodes: seq<Node>, p: nat, level: nat, valid: nat, k: nat)
    requires p < |nodes| && p != NIL && |nodes[p]| == L2_SIZE && TightUpTo(nodes, p, L2_SIZE, level) && Counted(nodes[p], L2_SIZE, valid, k)
    requires valid != 1 || 1 + nodes[p][k].skip >= 8
    ensures Tight(nodes, Entry(1, p), level + 1)
  {
    hide Tight;
    assert !Joinable(Entry(1, p), nodes[p]);
    TightIs(nodes, p, level);
  }

  lemma TightIs(nodes: seq<Node>, p: nat, level: nat)
    requires p < |nodes| && |nodes[p]| == L2_SIZE && TightUpTo(nodes, p, L2_SIZE, level) && !Joinable(Entry(1, p), nodes[p])
    ensures Tight(nodes, Entry(1, p), level + 1)
  {
  }

  /** And so is one that leads past it. */
  lemma TightPast(nodes: seq<Node>, c: Entry, level: nat)
    requires Tight(nodes, c, level)
    ensures Tight(nodes, Past(c), level + 1)
  {
  }

  // ---------------------------------------------------------------- leading past a node

  /** The entry that skips a node whose only child is `c`. */
  function Past(c: Entry): Entry
  {
    Entry(if c.skip == 0 then 0 else 1 + c.skip, c.ptr)
  }

  lemma FindPast(nodes: seq<Node>, c: Entry, level: nat, x: nat)
    requires c.skip <= level
    ensures Find(nodes, Past(c), level + 1, x) == Find(nodes, c, level, x)
  {
  }

  /** Seen through an entry that skips the node, a page looks like the page at its place in slot `k`. */
  lemma Moved(nodes: seq<Node>, c: Entry, base: nat, level: nat, j: nat, k: nat, x: nat) returns (y: nat)
    requires Slot(base, level, j) <= x < Slot(base, level, j) + Step(level)
    ensures Slot(base, level, k) <= y < Slot(base, level, k) + Step(level)
    ensures Find(nodes, c, level, y) == Find(nodes, c, level, x)
  {
    y := x - Slot(base, level, j) + Slot(base, level, k);
    if j <= k {
      Distance(j, k, Step(level));
      FindDigits(nodes, c, level, x, k - j, level);
    } else {
      Distance(k, j, Step(level));
      FindDigits(nodes, c, level, y, j - k, level);
    }
  }

  lemma Distance(j: nat, k: nat, s: nat)
    requires j <= k
    ensures k * s == j * s + (k - j) * s
  {
  }

  lemma OneChild(nodes: seq<Node>, shape: seq<Shape>, p: nat, k: nat)
    requires Well(nodes, shape) && p < |nodes| && shape[p].level > 0 && k < L2_SIZE && nodes[p][k].ptr != NIL
    requires forall j :: 0 <= j < L2_SIZE && j != k ==> nodes[p][j].ptr == NIL
    ensures Leads(nodes, shape, Past(nodes[p][k]), shape[p].level, shape[p].base)
    ensures Blurs(nodes, Entry(1, p), nodes, Past(nodes[p][k]), shape[p].level, shape[p].base)
  {
    var s, c := shape[p], nodes[p][k];
    assert GoodEntry(nodes, shape, p, k);
    if c.skip != 0 {
      SlotWithin(shape[c.ptr], s.level, s.base, k);
    }
    forall x: nat | InNode(x, s.level, s.base)
      ensures BlursAt(nodes, Entry(1, p), nodes, Past(c), s.level, s.base, x)
    {
      OneChildAt(nodes, shape, p, k, x);
    }
  }

  lemma OneChildAt(nodes: seq<Node>, shape: seq<Shape>, p: nat, k: nat, x: nat)
    requires Well(nodes, shape) && p < |nodes| && shape[p].level > 0 && k < L2_SIZE && nodes[p][k].skip <= shape[p].level
    requires forall j :: 0 <= j < L2_SIZE && j != k ==> nodes[p][j].ptr == NIL
    requires InNode(x, shape[p].level, shape[p].base)
    ensures BlursAt(nodes, Entry(1, p), nodes, Past(nodes[p][k]), shape[p].level, shape[p].base, x)
  {
    var s, c := shape[p], nodes[p][k];
    var j := SlotOf(x, s.base, s.level);
    FoundFromNode(nodes, shape, p, j, x);
    FindPast(nodes, c, s.level, x);
    if j != k {
      assert GoodEntry(nodes, shape, p, j);
      var y := Moved(nodes, c, s.base, s.level, j, k, x);
      FoundFromNode(nodes, shape, p, k, y);
    }
  }
}
