/** Merging of write requests (multiwrite_merge and multiwrite_cb, block.c). */
module Multiwrite {
  import opened Basics
  import opened Iovec

  const IOV_MAX: nat := 1024
  const SECTOR_SIZE: nat := 512

  /** ENOMEDIUM */
  const NO_MEDIUM: int := 123

  /** The part of a BlockRequest that says what to write. */
  datatype BlockRequest = BlockRequest(sector: nat, nbSectors: nat, qiov: Qiov)

  /** A BlockRequest in the caller's array; `who` stands for its callback and what that is called with. */
  datatype Slot = Slot(req: BlockRequest, flags: nat, who: nat, error: int)

  function Reqs(slots: seq<Slot>): (reqs: seq<BlockRequest>)
    ensures |reqs| == |slots|
  {
    seq(|slots|, i requires 0 <= i < |slots| => slots[i].req)
  }

  function Data(r: BlockRequest): seq<Byte> { Flat(r.qiov) }

  function Offset(r: BlockRequest): nat { r.sector * SECTOR_SIZE }

  function Last(r: BlockRequest): nat { r.sector + r.nbSectors }

  /** The request has as many bytes as it has sectors. */
  ghost predicate Sized(r: BlockRequest)
  {
    |Data(r)| == r.nbSectors * SECTOR_SIZE
  }

  ghost predicate AllSized(reqs: seq<BlockRequest>)
  {
    forall k :: 0 <= k < |reqs| ==> Sized(reqs[k])
  }

  ghost predicate Sorted(reqs: seq<BlockRequest>)
  {
    forall j, k :: 0 <= j < k < |reqs| ==> reqs[j].sector <= reqs[k].sector
  }

  /** The device reaches as far as the requests do. */
  ghost predicate Fits(disk: seq<Byte>, reqs: seq<BlockRequest>)
  {
    forall k :: 0 <= k < |reqs| ==> Offset(reqs[k]) + |Data(reqs[k])| <= |disk|
  }

  /** The requests carried out one after the other. */
  ghost function WriteAll(disk: seq<Byte>, reqs: seq<BlockRequest>): (disk': seq<Byte>)
    requires Fits(disk, reqs)
    ensures |disk'| == |disk|
  {
    if reqs == [] then disk
    else
      var k := |reqs| - 1;
      Splice(WriteAll(disk, reqs[..k]), Offset(reqs[k]), Data(reqs[k]))
  }

  lemma WriteOneMore(disk: seq<Byte>, reqs: seq<BlockRequest>, r: BlockRequest)
    requires Fits(disk, reqs) && Offset(r) + |Data(r)| <= |disk|
    ensures Fits(disk, reqs + [r])
    ensures WriteAll(disk, reqs + [r]) == Splice(WriteAll(disk, reqs), Offset(r), Data(r))
  {
    assert (reqs + [r])[..|reqs|] == reqs;
  }

  // ---------------------------------------------------------------- two requests

  predicate Touches(o: BlockRequest, r: BlockRequest)
  {
    r.sector <= Last(o)
  }

  predicate Merges(o: BlockRequest, r: BlockRequest)
  {
    Touches(o, r) && |o.qiov| + |r.qiov| + 1 <= IOV_MAX
  }

  /** The merged list: the first request up to the second, the second, and what is left of the first. */
  function MergedQiov(o: BlockRequest, r: BlockRequest): Qiov
    requires o.sector <= r.sector
  {
    var size := (r.sector - o.sector) * SECTOR_SIZE;
    var q := Part(o.qiov, 0, size) + Part(r.qiov, 0, |Data(r)|);
    if |Flat(q)| < |Data(o)| then q + Part(o.qiov, |Flat(q)|, |Data(o)| - |Flat(q)|) else q
  }

  function Merged(o: BlockRequest, r: BlockRequest): BlockRequest
    requires o.sector <= r.sector
  {
    var q := MergedQiov(o, r);
    BlockRequest(o.sector, |Flat(q)| / SECTOR_SIZE, q)
  }

  /** `x` with `y` written over it from `size` on, longer than `x` if need be. */
  function Overlay(x: seq<Byte>, size: nat, y: seq<Byte>): seq<Byte>
    requires size <= |x|
  {
    x[..size] + y + if size + |y| < |x| then x[size + |y|..] else []
  }

  lemma MergedData(o: BlockRequest, r: BlockRequest)
    requires Sized(o) && Sized(r) && o.sector <= r.sector && Touches(o, r)
    ensures (r.sector - o.sector) * SECTOR_SIZE <= |Data(o)|
    ensures Data(Merged(o, r)) == Overlay(Data(o), (r.sector - o.sector) * SECTOR_SIZE, Data(r))
  {
    hide Part, Flat;
    var size := (r.sector - o.sector) * SECTOR_SIZE;
    var p := Part(o.qiov, 0, size);
    var m := Part(r.qiov, 0, |Data(r)|);
    PartHolds(o.qiov, 0, size);
    PartHolds(r.qiov, 0, |Data(r)|);
    FlatAppend(p, m);
    var q := p + m;
    if |Flat(q)| < |Data(o)| {
      PartHolds(o.qiov, |Flat(q)|, |Data(o)| - |Flat(q)|);
      FlatAppend(q, Part(o.qiov, |Flat(q)|, |Data(o)| - |Flat(q)|));
    }
  }

  /** A merged request is well formed, reaches as far as both, and is not too long a list. */
  lemma MergedIsSized(o: BlockRequest, r: BlockRequest)
    requires Sized(o) && Sized(r) && o.sector <= r.sector && Touches(o, r)
    ensures Sized(Merged(o, r)) && Last(Merged(o, r)) == Max(Last(o), Last(r))
    ensures |Merged(o, r).qiov| <= |o.qiov| + |r.qiov| + 1
  {
    hide Part, Flat;
    MergedData(o, r);
    var size := (r.sector - o.sector) * SECTOR_SIZE;
    var n := Max(Last(o), Last(r)) - o.sector;
    assert |Data(Merged(o, r))| == n * SECTOR_SIZE;
    var q := Part(o.qiov, 0, size) + Part(r.qiov, 0, |Data(r)|);
    PartHolds(o.qiov, 0, size);
    PartHolds(r.qiov, 0, |Data(r)|);
    FlatAppend(Part(o.qiov, 0, size), Part(r.qiov, 0, |Data(r)|));
    PartCount(r.qiov, 0, |Data(r)|);
    PartCount(o.qiov, 0, size);
    if |Flat(q)| < |Data(o)| {
      SplitCount(o.qiov, size, |Flat(q)|, |Data(o)| - |Flat(q)|);
    }
  }

  lemma SpliceTwice(disk: seq<Byte>, a: nat, x: seq<Byte>, size: nat, y: seq<Byte>)
    requires size <= |x| && a + |x| <= |disk| && a + size + |y| <= |disk|
    ensures a + |Overlay(x, size, y)| <= |disk|
    ensures Splice(Splice(disk, a, x), a + size, y) == Splice(disk, a, Overlay(x, size, y))
  {
  }

  /** Writing the merged request is writing the one and then the other. */
  lemma MergedWrite(disk: seq<Byte>, o: BlockRequest, r: BlockRequest)
    requires Sized(o) && Sized(r) && o.sector <= r.sector && Touches(o, r)
    requires Offset(o) + |Data(o)| <= |disk| && Offset(r) + |Data(r)| <= |disk|
    ensures Offset(Merged(o, r)) + |Data(Merged(o, r))| <= |disk|
    ensures Splice(disk, Offset(Merged(o, r)), Data(Merged(o, r))) == Splice(Splice(disk, Offset(o), Data(o)), Offset(r), Data(r))
  {
    hide Data, MergedQiov;
    MergedData(o, r);
    SpliceTwice(disk, Offset(o), Data(o), (r.sector - o.sector) * SECTOR_SIZE, Data(r));
  }

  // ---------------------------------------------------------------- a whole list

  /** What is left when the next request `r` has been looked at. */
  function Absorb(out: seq<BlockRequest>, r: BlockRequest): (out': seq<BlockRequest>)
    requires out != [] && out[|out| - 1].sector <= r.sector
    ensures out' != [] && out'[|out'| - 1].sector <= r.sector && |out'| <= |out| + 1
  {
    var k := |out| - 1;
    if Merges(out[k], r) then out[..k] + [Merged(out[k], r)] else out + [r]
  }

  /** What is left of a sorted list. */
  function MergeAll(reqs: seq<BlockRequest>): (out: seq<BlockRequest>)
    requires reqs != [] && Sorted(reqs)
    ensures out != [] && |out| <= |reqs| && out[|out| - 1].sector <= reqs[|reqs| - 1].sector
  {
    if |reqs| == 1 then reqs else Absorb(MergeAll(reqs[..|reqs| - 1]), reqs[|reqs| - 1])
  }

  lemma AbsorbKeeps(out: seq<BlockRequest>, r: BlockRequest, disk: seq<Byte>)
    requires out != [] && out[|out| - 1].sector <= r.sector && AllSized(out) && Sized(r)
    requires Fits(disk, out) && Offset(r) + |Data(r)| <= |disk|
    ensures AllSized(Absorb(out, r)) && Fits(disk, Absorb(out, r))
    ensures WriteAll(disk, Absorb(out, r)) == Splice(WriteAll(disk, out), Offset(r), Data(r))
  {
    hide Merged, Data, Splice;
    var k := |out| - 1;
    var o := out[k];
    if Merges(o, r) {
      MergedIsSized(o, r);
      var before := WriteAll(disk, out[..k]);
      MergedWrite(before, o, r);
      WriteOneMore(disk, out[..k], Merged(o, r));
    } else {
      WriteOneMore(disk, out, r);
    }
  }

  /** Merging preserves meaning: what is left, in order, has the same effect on any device as the sorted originals. */
  lemma {:induction false} MergeMeansSame(reqs: seq<BlockRequest>, disk: seq<Byte>)
    requires reqs != [] && Sorted(reqs) && AllSized(reqs) && Fits(disk, reqs)
    ensures AllSized(MergeAll(reqs)) && Fits(disk, MergeAll(reqs))
    ensures WriteAll(disk, MergeAll(reqs)) == WriteAll(disk, reqs)
  {
    if |reqs| > 1 {
      var k := |reqs| - 1;
      MergeMeansSame(reqs[..k], disk);
      AbsorbKeeps(MergeAll(reqs[..k]), reqs[k], disk);
    }
  }

  // ---------------------------------------------------------------- gaps between what is left

  /** The limit on the length of a list stops a merge that the sectors call for. */
  ghost predicate Blocked(reqs: seq<BlockRequest>)
    requires reqs != [] && Sorted(reqs)
  {
    |reqs| > 1 &&
    var out := MergeAll(reqs[..|reqs| - 1]);
    var o, r := out[|out| - 1], reqs[|reqs| - 1];
    Blocked(reqs[..|reqs| - 1]) || (Touches(o, r) && !Merges(o, r))
  }

  /** There is a gap behind every request. */
  ghost predicate Spaced(reqs: seq<BlockRequest>)
  {
    forall k :: 0 <= k < |reqs| - 1 ==> Last(reqs[k]) < reqs[k + 1].sector
  }

  lemma AbsorbSpaced(out: seq<BlockRequest>, r: BlockRequest)
    requires out != [] && out[|out| - 1].sector <= r.sector && AllSized(out) && Sized(r)
    ensures AllSized(Absorb(out, r))
    ensures Spaced(Absorb(out, r)) <==> Spaced(out) && (Touches(out[|out| - 1], r) ==> Merges(out[|out| - 1], r))
  {
    var k := |out| - 1;
    var out' := Absorb(out, r);
    if Merges(out[k], r) {
      MergedIsSized(out[k], r);
      assert forall j :: 0 <= j < k ==> out'[j] == out[j];
      assert out'[k].sector == out[k].sector;
    } else {
      assert forall j :: 0 <= j <= k ==> out'[j] == out[j];
      assert out'[k + 1] == r;
      if Spaced(out') {
        forall j | 0 <= j < k
          ensures Last(out[j]) < out[j + 1].sector
        {
          assert out'[j + 1] == out[j + 1];
        }
      }
    }
  }

  /** What is left is disjoint and not adjacent, exactly if the limit never stops a merge. */
  lemma {:induction false} SpacedUnlessBlocked(reqs: seq<BlockRequest>)
    requires reqs != [] && Sorted(reqs) && AllSized(reqs)
    ensures AllSized(MergeAll(reqs))
    ensures Spaced(MergeAll(reqs)) <==> !Blocked(reqs)
  {
    if |reqs| > 1 {
      var k := |reqs| - 1;
      SpacedUnlessBlocked(reqs[..k]);
      AbsorbSpaced(MergeAll(reqs[..k]), reqs[k]);
    }
  }

  function Buffers(reqs: seq<BlockRequest>): nat
  {
    if reqs == [] then 0 else Buffers(reqs[..|reqs| - 1]) + |reqs[|reqs| - 1].qiov|
  }

  lemma {:induction false} LastIsShort(reqs: seq<BlockRequest>)
    requires reqs != [] && Sorted(reqs) && AllSized(reqs)
    ensures AllSized(MergeAll(reqs))
    ensures var out := MergeAll(reqs); |out[|out| - 1].qiov| <= Buffers(reqs) + |reqs| - 1
  {
    hide Merged, Data;
    if |reqs| > 1 {
      var k := |reqs| - 1;
      LastIsShort(reqs[..k]);
      var out := MergeAll(reqs[..k]);
      assert MergeAll(reqs) == Absorb(out, reqs[k]);
      hide MergeAll;
      AbsorbSpaced(out, reqs[k]);
      if Merges(out[|out| - 1], reqs[k]) {
        MergedIsSized(out[|out| - 1], reqs[k]);
      }
    }
  }

  /** A limit the caller can keep to. */
  lemma {:induction false} FewBuffersNeverBlock(reqs: seq<BlockRequest>)
    requires reqs != [] && Sorted(reqs) && AllSized(reqs) && Buffers(reqs) + |reqs| - 1 <= IOV_MAX
    ensures !Blocked(reqs)
  {
    if |reqs| > 1 {
      var k := |reqs| - 1;
      assert Buffers(reqs[..k]) <= Buffers(reqs);
      FewBuffersNeverBlock(reqs[..k]);
      LastIsShort(reqs[..k]);
    }
  }

  /** No merged list is longer than the limit. */
  lemma {:induction false} ListsWithinLimit(reqs: seq<BlockRequest>)
    requires reqs != [] && Sorted(reqs) && AllSized(reqs)
    requires forall k :: 0 <= k < |reqs| ==> |reqs[k].qiov| <= IOV_MAX
    ensures AllSized(MergeAll(reqs))
    ensures forall k :: 0 <= k < |MergeAll(reqs)| ==> |MergeAll(reqs)[k].qiov| <= IOV_MAX
  {
    hide Merged, Data;
    if |reqs| > 1 {
      var k := |reqs| - 1;
      ListsWithinLimit(reqs[..k]);
      var out := MergeAll(reqs[..k]);
      assert MergeAll(reqs) == Absorb(out, reqs[k]);
      hide MergeAll;
      AbsorbSpaced(out, reqs[k]);
      if Merges(out[|out| - 1], reqs[k]) {
        MergedIsSized(out[|out| - 1], reqs[k]);
      }
    }
  }

  // ---------------------------------------------------------------- order of finishing

  ghost predicate Has(r: BlockRequest, p: nat)
  {
    Offset(r) <= p < Offset(r) + |Data(r)|
  }

  ghost function ByteAt(r: BlockRequest, p: nat): Byte
    requires Has(r, p)
  {
    Data(r)[p - Offset(r)]
  }

  /** No byte belongs to two requests. */
  ghost predicate Apart(reqs: seq<BlockRequest>)
  {
    forall j, k, p: nat :: 0 <= j < |reqs| && 0 <= k < |reqs| && Has(reqs[j], p) && Has(reqs[k], p) ==> j == k
  }

  /** Requests that share a byte write the same there. */
  ghost predicate Agree(reqs: seq<BlockRequest>)
  {
    forall j, k, p: nat :: 0 <= j < |reqs| && 0 <= k < |reqs| && Has(reqs[j], p) && Has(reqs[k], p) ==>
      ByteAt(reqs[j], p) == ByteAt(reqs[k], p)
  }

  lemma {:induction false} SpacedFrom(reqs: seq<BlockRequest>, j: nat, k: nat)
    requires Spaced(reqs) && j < k < |reqs|
    ensures Last(reqs[j]) < reqs[k].sector
    decreases k
  {
    if j + 1 < k {
      SpacedFrom(reqs, j, k - 1);
    }
  }

  lemma SpacedIsApart(reqs: seq<BlockRequest>)
    requires Spaced(reqs) && AllSized(reqs)
    ensures Apart(reqs) && Agree(reqs)
  {
    forall j, k, p: nat | 0 <= j < |reqs| && 0 <= k < |reqs| && Has(reqs[j], p) && Has(reqs[k], p)
      ensures j == k
    {
      if j < k {
        SpacedFrom(reqs, j, k);
      } else if k < j {
        SpacedFrom(reqs, k, j);
      }
    }
  }

  /** A byte that a request has is what that request says. */
  lemma {:induction false} WriteAllHas(disk: seq<Byte>, reqs: seq<BlockRequest>, p: nat, k: nat)
    requires Fits(disk, reqs) && Agree(reqs) && k < |reqs| && Has(reqs[k], p)
    ensures p < |disk| && WriteAll(disk, reqs)[p] == ByteAt(reqs[k], p)
  {
    hide Data, Offset;
    var n := |reqs| - 1;
    if !Has(reqs[n], p) {
      WriteAllHas(disk, reqs[..n], p, k);
    }
  }

  /** Any other byte is what it was. */
  lemma {:induction false} WriteAllNot(disk: seq<Byte>, reqs: seq<BlockRequest>, p: nat)
    requires Fits(disk, reqs) && p < |disk| && forall k :: 0 <= k < |reqs| ==> !Has(reqs[k], p)
    ensures WriteAll(disk, reqs)[p] == disk[p]
  {
    hide Data, Offset;
    if reqs != [] {
      WriteAllNot(disk, reqs[..|reqs| - 1], p);
    }
  }

  /** `order` lists the numbers below `n`, each once. */
  ghost predicate Permutes(order: seq<nat>, n: nat)
  {
    && |order| == n && (forall i :: 0 <= i < n ==> order[i] < n)
    && (forall i, j :: 0 <= i < n && 0 <= j < n && order[i] == order[j] ==> i == j)
    && forall k: nat :: k < n ==> k in order
  }

  ghost predicate Reordered(reqs: seq<BlockRequest>, order: seq<nat>, reqs': seq<BlockRequest>)
  {
    Permutes(order, |reqs|) && |reqs'| == |reqs| && forall i :: 0 <= i < |reqs| ==> reqs'[i] == reqs[order[i]]
  }

  /** In whatever order the requests finish, the device ends up the same. */
  ghost predicate OrderFree(disk: seq<Byte>, reqs: seq<BlockRequest>)
    requires Fits(disk, reqs)
  {
    forall order, done :: Reordered(reqs, order, done) ==> Fits(disk, done) && WriteAll(disk, done) == WriteAll(disk, reqs)
  }

  lemma ReorderedAgrees(disk: seq<Byte>, reqs: seq<BlockRequest>, order: seq<nat>, reqs': seq<BlockRequest>)
    requires Fits(disk, reqs) && Reordered(reqs, order, reqs')
    ensures Fits(disk, reqs') && |reqs'| == |reqs| && (Agree(reqs) ==> Agree(reqs'))
  {
    hide Has, Data, Offset, ByteAt;
  }

  lemma SameByte(disk: seq<Byte>, reqs: seq<BlockRequest>, order: seq<nat>, reqs': seq<BlockRequest>, p: nat)
    requires Fits(disk, reqs) && Agree(reqs) && Reordered(reqs, order, reqs') && p < |disk|
    requires Fits(disk, reqs') && Agree(reqs') && |reqs'| == |reqs|
    ensures WriteAll(disk, reqs')[p] == WriteAll(disk, reqs)[p]
  {
    hide Has, Data, Offset, WriteAll, Agree, Fits, Reordered;
    if k :| 0 <= k < |reqs| && Has(reqs[k], p) {
      var i := NewPlace(reqs, order, reqs', k);
      WriteAllHas(disk, reqs, p, k);
      WriteAllHas(disk, reqs', p, i);
    } else {
      forall i | 0 <= i < |reqs'|
        ensures !Has(reqs'[i], p)
      {
        var k := OldPlace(reqs, order, reqs', i);
      }
      WriteAllNot(disk, reqs, p);
      WriteAllNot(disk, reqs', p);
    }
  }

  lemma NewPlace(reqs: seq<BlockRequest>, order: seq<nat>, reqs': seq<BlockRequest>, k: nat) returns (i: nat)
    requires Reordered(reqs, order, reqs') && k < |reqs|
    ensures i < |reqs'| && reqs'[i] == reqs[k]
  {
    assert k in order;
    i :| 0 <= i < |order| && order[i] == k;
  }

  lemma OldPlace(reqs: seq<BlockRequest>, order: seq<nat>, reqs': seq<BlockRequest>, i: nat) returns (k: nat)
    requires Reordered(reqs, order, reqs') && i < |reqs'|
    ensures k < |reqs| && reqs'[i] == reqs[k]
  {
    k := order[i];
  }

  /** Requests that agree may finish in any order. */
  lemma AnyOrder(disk: seq<Byte>, reqs: seq<BlockRequest>, order: seq<nat>, reqs': seq<BlockRequest>)
    requires Fits(disk, reqs) && Agree(reqs) && Reordered(reqs, order, reqs')
    ensures Fits(disk, reqs') && WriteAll(disk, reqs') == WriteAll(disk, reqs)
  {
    hide WriteAll, Agree, Fits, Reordered;
    ReorderedAgrees(disk, reqs, order, reqs');
    forall p: nat | p < |disk|
      ensures WriteAll(disk, reqs')[p] == WriteAll(disk, reqs)[p]
    {
      SameByte(disk, reqs, order, reqs', p);
    }
  }

  /** The order in which number `j` comes last. */
  ghost function MovedLast(n: nat, j: nat): seq<nat>
    requires j < n
  {
    seq(n, i requires 0 <= i < n => if i < j then i else if i < n - 1 then i + 1 else j)
  }

  lemma MovedLastPermutes(n: nat, j: nat)
    requires j < n
    ensures Permutes(MovedLast(n, j), n)
  {
    var order := MovedLast(n, j);
    forall k: nat | k < n
      ensures k in order
    {
      assert order[if k < j then k else if k == j then n - 1 else k - 1] == k;
    }
  }

  /** If the order does not matter, each request's bytes survive: it might be the last to finish. */
  lemma MightBeLast(disk: seq<Byte>, reqs: seq<BlockRequest>, j: nat, p: nat)
    requires Fits(disk, reqs) && OrderFree(disk, reqs) && j < |reqs| && Has(reqs[j], p)
    ensures p < |disk| && WriteAll(disk, reqs)[p] == ByteAt(reqs[j], p)
  {
    hide Has;
    var n := |reqs|;
    var order := MovedLast(n, j);
    MovedLastPermutes(n, j);
    var done := seq(n, i requires 0 <= i < n => reqs[order[i]]);
    assert Reordered(reqs, order, done) by { hide Permutes; }
    hide Reordered;
    assert Fits(disk, done) && WriteAll(disk, done) == WriteAll(disk, reqs);
    LastWins(disk, done, p);
  }

  lemma LastWins(disk: seq<Byte>, reqs: seq<BlockRequest>, p: nat)
    requires reqs != [] && Fits(disk, reqs) && Has(reqs[|reqs| - 1], p)
    ensures p < |disk| && WriteAll(disk, reqs)[p] == ByteAt(reqs[|reqs| - 1], p)
  {
  }

  /** The order in which requests finish does not matter exactly if no two of them differ on a byte. */
  lemma OrderFreeIffAgree(disk: seq<Byte>, reqs: seq<BlockRequest>)
    requires Fits(disk, reqs)
    ensures OrderFree(disk, reqs) <==> Agree(reqs)
  {
    hide Has, ByteAt, Fits, WriteAll, Reordered;
    if Agree(reqs) {
      forall order, done | Reordered(reqs, order, done)
        ensures Fits(disk, done) && WriteAll(disk, done) == WriteAll(disk, reqs)
      {
        AnyOrder(disk, reqs, order, done);
      }
    }
    if OrderFree(disk, reqs) {
      forall j, k, p: nat | 0 <= j < |reqs| && 0 <= k < |reqs| && Has(reqs[j], p) && Has(reqs[k], p)
        ensures ByteAt(reqs[j], p) == ByteAt(reqs[k], p)
      {
        MightBeLast(disk, reqs, j, p);
        MightBeLast(disk, reqs, k, p);
      }
    }
  }

  /** What is left has the effect of the sorted originals in every order, exactly if no two that are left differ on a byte. */
  lemma AnyOrderIffAgree(disk: seq<Byte>, reqs: seq<BlockRequest>)
    requires reqs != [] && Sorted(reqs) && AllSized(reqs) && Fits(disk, reqs)
    ensures Fits(disk, MergeAll(reqs))
    ensures (forall order, done :: Reordered(MergeAll(reqs), order, done) ==>
               Fits(disk, done) && WriteAll(disk, done) == WriteAll(disk, reqs)) <==> Agree(MergeAll(reqs))
  {
    hide WriteAll, Agree, Fits, Reordered, MergeAll;
    MergeMeansSame(reqs, disk);
    OrderFreeIffAgree(disk, MergeAll(reqs));
  }

  /** So they may finish in any order unless the limit stops a merge. */
  lemma AnyOrderUnlessBlocked(disk: seq<Byte>, reqs: seq<BlockRequest>, order: seq<nat>, done: seq<BlockRequest>)
    requires reqs != [] && Sorted(reqs) && AllSized(reqs) && Fits(disk, reqs) && !Blocked(reqs)
    requires Reordered(MergeAll(reqs), order, done)
    ensures Fits(disk, done) && WriteAll(disk, done) == WriteAll(disk, reqs)
  {
    hide WriteAll, Apart, Agree, Fits, Reordered, Blocked, MergeAll, Spaced;
    SpacedUnlessBlocked(reqs);
    SpacedIsApart(MergeAll(reqs));
    AnyOrderIffAgree(disk, reqs);
  }

  // ---------------------------------------------------------------- which stops matter

  /** `r` reaches into a request that it is not merged with. */
  ghost predicate Clash(out: seq<BlockRequest>, r: BlockRequest)
  {
    r.nbSectors > 0 &&
    exists j :: 0 <= j < |out| && r.sector < Last(out[j]) && (j == |out| - 1 ==> !Merges(out[j], r))
  }

  ghost predicate Clashes(reqs: seq<BlockRequest>)
    requires reqs != [] && Sorted(reqs)
  {
    |reqs| > 1 && (Clashes(reqs[..|reqs| - 1]) || Clash(MergeAll(reqs[..|reqs| - 1]), reqs[|reqs| - 1]))
  }

  lemma Overlap(o: BlockRequest, r: BlockRequest)
    requires Sized(o) && Sized(r) && o.sector <= r.sector
    ensures r.nbSectors > 0 && r.sector < Last(o) ==> Has(o, Offset(r)) && Has(r, Offset(r))
    ensures forall p: nat :: Has(o, p) && Has(r, p) ==> r.nbSectors > 0 && r.sector < Last(o)
  {
  }

  lemma MergedHas(o: BlockRequest, r: BlockRequest)
    requires Sized(o) && Sized(r) && o.sector <= r.sector && Touches(o, r)
    ensures forall p: nat :: Has(Merged(o, r), p) <==> Has(o, p) || Has(r, p)
  {
    MergedIsSized(o, r);
  }

  ghost predicate AllBefore(out: seq<BlockRequest>, r: BlockRequest)
  {
    forall j :: 0 <= j < |out| ==> out[j].sector <= r.sector
  }

  lemma ClashShares(out: seq<BlockRequest>, r: BlockRequest, out': seq<BlockRequest>)
    requires out != [] && AllBefore(out, r) && AllSized(out) && Sized(r) && out' == Absorb(out, r) && Clash(out, r)
    ensures !Apart(out')
  {
    hide Has, Sized, Merged;
    var k := |out| - 1;
    var j :| 0 <= j < |out| && r.sector < Last(out[j]) && (j == k ==> !Merges(out[k], r));
    Overlap(out[j], r);
    if Merges(out[k], r) {
      MergedHas(out[k], r);
      assert out'[j] == out[j] && Has(out'[k], Offset(r));
    } else {
      assert out'[j] == out[j] && out'[k + 1] == r;
    }
  }

  lemma ApartBefore(out: seq<BlockRequest>, r: BlockRequest, out': seq<BlockRequest>)
    requires out != [] && AllBefore(out, r) && AllSized(out) && Sized(r) && out' == Absorb(out, r) && Apart(out')
    ensures Apart(out)
  {
    hide Has, Sized, Merged;
    var k := |out| - 1;
    if Merges(out[k], r) {
      MergedHas(out[k], r);
    }
    assert forall j, p: nat :: 0 <= j < |out| && Has(out[j], p) ==> Has(out'[j], p);
  }

  lemma ApartAfter(out: seq<BlockRequest>, r: BlockRequest, out': seq<BlockRequest>)
    requires out != [] && AllBefore(out, r) && AllSized(out) && Sized(r) && out' == Absorb(out, r)
    requires Apart(out) && !Clash(out, r)
    ensures Apart(out')
  {
    hide Has, Sized, Merged;
    var k := |out| - 1;
    forall j | 0 <= j < |out|
      ensures (j == k ==> !Merges(out[k], r)) ==> forall p: nat :: !(Has(out[j], p) && Has(r, p))
    {
      Overlap(out[j], r);
    }
    if Merges(out[k], r) {
      MergedHas(out[k], r);
    }
  }

  lemma AbsorbSorted(out: seq<BlockRequest>, r: BlockRequest)
    requires out != [] && Sorted(out) && AllBefore(out, r)
    ensures Sorted(Absorb(out, r)) && AllBefore(Absorb(out, r), r)
  {
    hide MergedQiov;
  }

  lemma {:induction false} MergeAllSorted(reqs: seq<BlockRequest>)
    requires reqs != [] && Sorted(reqs)
    ensures Sorted(MergeAll(reqs)) && AllBefore(MergeAll(reqs), reqs[|reqs| - 1])
  {
    if |reqs| > 1 {
      var k := |reqs| - 1;
      MergeAllSorted(reqs[..k]);
      assert AllBefore(MergeAll(reqs[..k]), reqs[k]);
      AbsorbSorted(MergeAll(reqs[..k]), reqs[k]);
    }
  }

  /** What is left is disjoint exactly if no request reaches into one that it is not merged with. */
  lemma {:induction false} ApartUnlessClashes(reqs: seq<BlockRequest>)
    requires reqs != [] && Sorted(reqs) && AllSized(reqs)
    ensures AllSized(MergeAll(reqs))
    ensures Apart(MergeAll(reqs)) <==> !Clashes(reqs)
  {
    if |reqs| > 1 {
      hide Clash, Merged, Sized, Has;
      var k := |reqs| - 1;
      ApartUnlessClashes(reqs[..k]);
      MergeAllSorted(reqs[..k]);
      var out, out' := MergeAll(reqs[..k]), MergeAll(reqs);
      assert out' == Absorb(out, reqs[k]);
      hide Apart, Absorb, MergeAll;
      AbsorbSpaced(out, reqs[k]);
      if Clash(out, reqs[k]) {
        ClashShares(out, reqs[k], out');
      } else if Apart(out) {
        ApartAfter(out, reqs[k], out');
      } else if Apart(out') {
        ApartBefore(out, reqs[k], out');
      }
    }
  }

  /** The limit stops a merge of a request that starts within the one before it. */
  ghost predicate Overruns(reqs: seq<BlockRequest>)
    requires reqs != [] && Sorted(reqs)
  {
    |reqs| > 1 &&
    var out := MergeAll(reqs[..|reqs| - 1]);
    var o, r := out[|out| - 1], reqs[|reqs| - 1];
    Overruns(reqs[..|reqs| - 1]) || (r.sector < Last(o) && !Merges(o, r))
  }

  ghost predicate NoneEmpty(reqs: seq<BlockRequest>)
  {
    forall k :: 0 <= k < |reqs| ==> reqs[k].nbSectors > 0
  }

  lemma AbsorbNoneEmpty(out: seq<BlockRequest>, r: BlockRequest)
    requires out != [] && out[|out| - 1].sector <= r.sector && AllSized(out) && Sized(r) && NoneEmpty(out) && r.nbSectors > 0
    ensures AllSized(Absorb(out, r)) && NoneEmpty(Absorb(out, r))
  {
    hide Merged, Sized, AllSized;
    AbsorbSpaced(out, r);
    var o := out[|out| - 1];
    assert Sized(o) by { EachSized(out, |out| - 1); }
    if Merges(o, r) {
      MergedIsSized(o, r);
      MergedStart(o, r);
    }
  }

  lemma EachSized(reqs: seq<BlockRequest>, k: nat)
    requires AllSized(reqs) && k < |reqs|
    ensures Sized(reqs[k])
  {
  }

  lemma MergeAllLast(reqs: seq<BlockRequest>, k: nat)
    requires |reqs| > 1 && k == |reqs| - 1 && Sorted(reqs)
    ensures var out := MergeAll(reqs[..k]);
            out != [] && out[|out| - 1].sector <= reqs[k].sector && MergeAll(reqs) == Absorb(out, reqs[k])
  {
    hide Merged, Merges;
  }

  lemma {:induction false} MergeAllNoneEmpty(reqs: seq<BlockRequest>)
    requires reqs != [] && Sorted(reqs) && AllSized(reqs) && NoneEmpty(reqs)
    ensures AllSized(MergeAll(reqs)) && NoneEmpty(MergeAll(reqs))
  {
    if |reqs| > 1 {
      hide MergeAll, Absorb, Sized;
      var k := |reqs| - 1;
      MergeAllNoneEmpty(reqs[..k]);
      MergeAllLast(reqs, k);
      AbsorbNoneEmpty(MergeAll(reqs[..k]), reqs[k]);
    }
  }

  lemma MergedStart(o: BlockRequest, r: BlockRequest)
    requires o.sector <= r.sector
    ensures Merged(o, r).sector == o.sector
  {
  }

  /** Disjoint requests that are not empty lie one behind the other, so that only the last can be reached into. */
  lemma OnlyTheLast(out: seq<BlockRequest>, r: BlockRequest)
    requires out != [] && Sorted(out) && AllBefore(out, r) && AllSized(out) && NoneEmpty(out) && Apart(out) && r.nbSectors > 0
    ensures Clash(out, r) <==> r.sector < Last(out[|out| - 1]) && !Merges(out[|out| - 1], r)
  {
    hide Sized, Has;
    var k := |out| - 1;
    forall j | 0 <= j < k
      ensures Last(out[j]) <= out[k].sector
    {
      Overlap(out[j], out[k]);
    }
  }

  lemma LastClash(reqs: seq<BlockRequest>, k: nat)
    requires |reqs| > 1 && k == |reqs| - 1 && Sorted(reqs) && AllSized(reqs) && NoneEmpty(reqs) && !Clashes(reqs[..k])
    ensures var out := MergeAll(reqs[..k]);
            Clash(out, reqs[k]) <==> reqs[k].sector < Last(out[|out| - 1]) && !Merges(out[|out| - 1], reqs[k])
  {
    hide Clash, Clashes, Merges, Sized, Apart, MergeAll;
    ApartUnlessClashes(reqs[..k]);
    MergeAllSorted(reqs[..k]);
    MergeAllNoneEmpty(reqs[..k]);
    OnlyTheLast(MergeAll(reqs[..k]), reqs[k]);
  }

  lemma {:induction false} ClashesIsOverruns(reqs: seq<BlockRequest>)
    requires reqs != [] && Sorted(reqs) && AllSized(reqs) && NoneEmpty(reqs)
    ensures Clashes(reqs) <==> Overruns(reqs)
  {
    if |reqs| > 1 {
      hide Clash, Merges, Sized, MergeAll;
      var k := |reqs| - 1;
      ClashesIsOverruns(reqs[..k]);
      if !Clashes(reqs[..k]) {
        LastClash(reqs, k);
      }
    }
  }

  /** For requests that are not empty that is the guard of a stopped merge. */
  lemma ApartUnlessOverruns(reqs: seq<BlockRequest>)
    requires reqs != [] && Sorted(reqs) && AllSized(reqs) && NoneEmpty(reqs)
    ensures Apart(MergeAll(reqs)) <==> !Overruns(reqs)
  {
    hide Apart, Clashes, Overruns, MergeAll;
    ApartUnlessClashes(reqs);
    ClashesIsOverruns(reqs);
  }

  /** One sector full of `b`, in buffers of one byte each. */
  ghost function Crumbs(b: Byte): BlockRequest
  {
    BlockRequest(0, 1, seq(512, i => [b]))
  }

  lemma {:induction false} FlatCrumbs(n: nat, b: Byte)
    ensures Flat(seq(n, i => [b])) == seq(n, i => b)
  {
    if n > 0 {
      FlatCrumbs(n - 1, b);
      assert seq(n, i => [b])[1..] == seq(n - 1, i => [b]);
    }
  }

  lemma CrumbsAre(b: Byte)
    ensures Crumbs(b).sector == 0 && Crumbs(b).nbSectors == 1 && |Crumbs(b).qiov| == 512
    ensures Sized(Crumbs(b)) && Offset(Crumbs(b)) == 0 && |Data(Crumbs(b))| == 512 && Data(Crumbs(b))[0] == b
  {
    FlatCrumbs(512, b);
  }

  lemma TooScattered(x: BlockRequest, y: BlockRequest)
    requires x.sector == y.sector && x.nbSectors > 0 && |x.qiov| + |y.qiov| + 1 > IOV_MAX
    ensures Sorted([x, y]) && MergeAll([x, y]) == [x, y] && Blocked([x, y]) && Overruns([x, y])
  {
    assert [x, y][..1] == [x];
    assert MergeAll([x]) == [x];
  }

  lemma Swapped(x: BlockRequest, y: BlockRequest)
    ensures Reordered([x, y], [1, 0], [y, x])
  {
    assert [1, 0][0] == 1 && [1, 0][1] == 0;
  }

  /** Two writes of one sector that are too scattered to be merged: the device depends on which finishes last. */
  lemma OrderMatters() returns (disk: seq<Byte>, reqs: seq<BlockRequest>, order: seq<nat>, done: seq<BlockRequest>)
    ensures reqs != [] && Sorted(reqs) && AllSized(reqs) && NoneEmpty(reqs) && Fits(disk, reqs)
    ensures Blocked(reqs) && Overruns(reqs) && MergeAll(reqs) == reqs
    ensures Reordered(MergeAll(reqs), order, done) && Fits(disk, done)
    ensures WriteAll(disk, done) != WriteAll(disk, reqs)
  {
    hide Crumbs, Data, Offset, Sorted, MergeAll, Blocked, Overruns, Reordered, WriteAll, Sized;
    var x, y := Crumbs(0), Crumbs(1);
    disk, reqs, order, done := seq(512, i => 0), [x, y], [1, 0], [y, x];
    CrumbsAre(0);
    CrumbsAre(1);
    TooScattered(x, y);
    Swapped(x, y);
    LastWins(disk, reqs, 0);
    LastWins(disk, done, 0);
  }

  // ---------------------------------------------------------------- the operations

  /** The body of the merging branch. */
  method MergeTwo(o: BlockRequest, r: BlockRequest) returns (m: BlockRequest)
    requires Sized(o) && Sized(r) && o.sector <= r.sector && Touches(o, r)
    ensures m == Merged(o, r)
  {
    hide Part;
    MergedData(o, r);
    var size := (r.sector - o.sector) * SECTOR_SIZE;
    var qiov := Concat([], o.qiov, 0, size);
    assert qiov == Part(o.qiov, 0, size);
    qiov := Concat(qiov, r.qiov, 0, |Flat(r.qiov)|);
    if |Flat(qiov)| < |Flat(o.qiov)| {
      qiov := Concat(qiov, o.qiov, |Flat(qiov)|, |Flat(o.qiov)| - |Flat(qiov)|);
    }
    m := BlockRequest(o.sector, |Flat(qiov)| / SECTOR_SIZE, qiov);
  }

  ghost predicate SortedSlots(slots: seq<Slot>)
  {
    forall j, k :: 0 <= j < k < |slots| ==> slots[j].req.sector <= slots[k].req.sector
  }

  /** A request put in its place. */
  lemma InsertedSorted(sorted: seq<Slot>, k: nat, s: Slot)
    requires SortedSlots(sorted) && k <= |sorted| && (k > 0 ==> sorted[k - 1].req.sector <= s.req.sector)
    requires forall j :: k <= j < |sorted| ==> sorted[j].req.sector > s.req.sector
    ensures SortedSlots(sorted[..k] + [s] + sorted[k..])
  {
    var t := sorted[..k] + [s] + sorted[k..];
    forall i, j | 0 <= i < j < |t|
      ensures t[i].req.sector <= t[j].req.sector
    {
      var a := if i <= k then i else i - 1;
      var b := if j <= k then j else j - 1;
      assert t[i] == if i == k then s else sorted[a];
      assert t[j] == if j == k then s else sorted[b];
    }
  }

  lemma InsertedSame(sorted: seq<Slot>, k: nat, s: Slot)
    requires k <= |sorted|
    ensures multiset(sorted[..k] + [s] + sorted[k..]) == multiset(sorted) + multiset{s}
  {
    assert sorted == sorted[..k] + sorted[k..];
  }

  method Insert(sorted: seq<Slot>, s: Slot) returns (sorted': seq<Slot>)
    requires SortedSlots(sorted)
    ensures SortedSlots(sorted') && multiset(sorted') == multiset(sorted) + multiset{s}
  {
    hide SortedSlots;
    var k: nat := |sorted|;
    while k > 0 && sorted[k - 1].req.sector > s.req.sector
      invariant k <= |sorted|
      invariant forall j :: k <= j < |sorted| ==> sorted[j].req.sector > s.req.sector
    {
      k := k - 1;
    }
    InsertedSorted(sorted, k, s);
    InsertedSame(sorted, k, s);
    sorted' := sorted[..k] + [s] + sorted[k..];
  }

  /** qsort by start sector; the order of equal sectors is its own. */
  method SortBySector(slots: seq<Slot>) returns (sorted: seq<Slot>)
    ensures multiset(sorted) == multiset(slots) && SortedSlots(sorted)
  {
    hide SortedSlots;
    sorted := [];
    EmptyIsSorted();
    for i := 0 to |slots|
      invariant multiset(sorted) == multiset(slots[..i]) && SortedSlots(sorted)
    {
      sorted := Insert(sorted, slots[i]);
      assert slots[..i + 1] == slots[..i] + [slots[i]];
    }
    assert slots[..|slots|] == slots;
  }

  lemma EmptyIsSorted()
    ensures SortedSlots([])
  {
  }

  /** The lists made while merging, in the order of the slots they are recorded in. */
  function Recorded(free: seq<Option<nat>>): seq<nat>
  {
    if free == [] then []
    else Recorded(free[..|free| - 1]) + match free[|free| - 1] case Some(h) => [h] case None => []
  }

  /** The requests after `i` of them have been looked at: `n` are left, followed at `i` by those to come. */
  ghost predicate MergedSoFar(reqs: seq<BlockRequest>, all: seq<BlockRequest>, i: nat, n: nat)
  {
    && 1 <= n <= i <= |all| == |reqs| && Sorted(all) && AllSized(all)
    && reqs[..n] == MergeAll(all[..i]) && reqs[i..] == all[i..] && AllSized(MergeAll(all[..i]))
  }

  lemma MergeAllStep(all: seq<BlockRequest>, i: nat)
    requires 0 < i < |all| && Sorted(all)
    ensures MergeAll(all[..i + 1]) == Absorb(MergeAll(all[..i]), all[i])
  {
    assert all[..i + 1][..i] == all[..i];
  }

  lemma NextToMerge(reqs: seq<BlockRequest>, all: seq<BlockRequest>, i: nat, n: nat)
    requires MergedSoFar(reqs, all, i, n) && i < |all|
    ensures reqs[n - 1] == MergeAll(all[..i])[n - 1] && reqs[i] == all[i]
    ensures Sized(reqs[n - 1]) && Sized(reqs[i]) && reqs[n - 1].sector <= reqs[i].sector
  {
    hide Sized, MergeAll;
    assert reqs[i] == reqs[i..][0] == all[i..][0];
  }

  lemma MergedOne(reqs: seq<BlockRequest>, all: seq<BlockRequest>, i: nat, n: nat, reqs': seq<BlockRequest>)
    requires MergedSoFar(reqs, all, i, n) && i < |all| && reqs[n - 1].sector <= reqs[i].sector && Merges(reqs[n - 1], reqs[i])
    requires reqs' == reqs[n - 1 := Merged(reqs[n - 1], reqs[i])]
    ensures MergedSoFar(reqs', all, i + 1, n)
  {
    hide Merged, Sized, MergeAll, Merges;
    NextToMerge(reqs, all, i, n);
    MergeAllStep(all, i);
    AbsorbSpaced(MergeAll(all[..i]), all[i]);
    assert reqs'[..n] == reqs[..n][..n - 1] + [reqs'[n - 1]];
    assert reqs'[i + 1..] == reqs[i..][1..];
    assert all[i + 1..] == all[i..][1..];
  }

  lemma KeptOne(reqs: seq<BlockRequest>, all: seq<BlockRequest>, i: nat, n: nat, reqs': seq<BlockRequest>)
    requires MergedSoFar(reqs, all, i, n) && i < |all| && !Merges(reqs[n - 1], reqs[i])
    requires reqs' == reqs[n := reqs[i]]
    ensures MergedSoFar(reqs', all, i + 1, n + 1)
  {
    hide Merged, Sized, MergeAll, Merges;
    NextToMerge(reqs, all, i, n);
    MergeAllStep(all, i);
    AbsorbSpaced(MergeAll(all[..i]), all[i]);
    assert reqs'[..n + 1] == reqs[..n] + [reqs'[n]];
    assert reqs'[i + 1..] == reqs[i..][1..];
    assert all[i + 1..] == all[i..][1..];
  }

  /** The slots are those of `sorted` but for what they write. */
  ghost predicate SameFields(slots: seq<Slot>, sorted: seq<Slot>)
  {
    |slots| == |sorted| && forall i :: 0 <= i < |slots| ==> slots[i] == sorted[i].(req := slots[i].req)
  }

  lemma SetReq(slots: seq<Slot>, sorted: seq<Slot>, k: nat, r: BlockRequest, slots': seq<Slot>)
    requires SameFields(slots, sorted) && k < |slots| && slots' == slots[k := slots[k].(req := r)]
    ensures SameFields(slots', sorted) && Reqs(slots') == Reqs(slots)[k := r]
  {
  }

  /** The loop body; the list that is made is the `i - n`th. Only what is to be written is moved, not the flags. */
  method MergeNext(slots: array<Slot>, ghost sorted: seq<Slot>, i: nat, n: nat) returns (n': nat, h: Option<nat>)
    requires i < slots.Length == |sorted| && 1 <= n <= i && MergedSoFar(Reqs(slots[..]), Reqs(sorted), i, n)
    requires SameFields(slots[..], sorted)
    modifies slots
    ensures MergedSoFar(Reqs(slots[..]), Reqs(sorted), i + 1, n') && SameFields(slots[..], sorted)
    ensures if h.Some? then h.value == i - n && n' == n else n' == n + 1
  {
    hide Sorted, AllSized, Merged, MergeAll, Sized, MergedSoFar, SameFields;
    ghost var before := slots[..];
    NextToMerge(Reqs(before), Reqs(sorted), i, n);
    var o, r := slots[n - 1].req, slots[i].req;
    if Merges(o, r) {
      var m := MergeTwo(o, r);
      slots[n - 1] := slots[n - 1].(req := m);
      SetReq(before, sorted, n - 1, m, slots[..]);
      MergedOne(Reqs(before), Reqs(sorted), i, n, Reqs(slots[..]));
      n', h := n, Some(i - n);
    } else {
      slots[n] := slots[n].(req := r);
      SetReq(before, sorted, n, r, slots[..]);
      KeptOne(Reqs(before), Reqs(sorted), i, n, Reqs(slots[..]));
      n', h := n + 1, None;
    }
  }

  /**
   multiwrite_merge: works within the array; `free` records for each slot the list that was made for it,
   so that every list made is recorded in exactly one slot.
   */
  method MultiwriteMerge(slots: array<Slot>) returns (n: nat, free: seq<Option<nat>>, ghost sorted: seq<Slot>)
    requires slots.Length > 0 && AllSized(Reqs(slots[..]))
    modifies slots
    ensures multiset(sorted) == multiset(old(slots[..])) && Sorted(Reqs(sorted)) && AllSized(Reqs(sorted))
    ensures 0 < n <= slots.Length == |sorted| == |free| && Reqs(slots[..])[..n] == MergeAll(Reqs(sorted))
    ensures SameFields(slots[..], sorted)
    ensures Recorded(free) == Count(|sorted| - n)
  {
    hide Sorted, AllSized, MergeAll, MergedSoFar, Recorded, Count, SameFields;
    sorted := SortInPlace(slots);
    n, free := 1, [None];
    RecordNone();
    StartMerge(Reqs(sorted));
    for i := 1 to slots.Length
      invariant 1 <= n <= i == |free| && MergedSoFar(Reqs(slots[..]), Reqs(sorted), i, n) && SameFields(slots[..], sorted)
      invariant Recorded(free) == Count(i - n)
    {
      var h;
      n, h := MergeNext(slots, sorted, i, n);
      RecordOne(free, h);
      free := free + [h];
    }
    EndMerge(Reqs(slots[..]), Reqs(sorted), n);
  }

  lemma StartMerge(all: seq<BlockRequest>)
    requires all != [] && Sorted(all) && AllSized(all)
    ensures MergedSoFar(all, all, 1, 1)
  {
  }

  lemma EndMerge(reqs: seq<BlockRequest>, all: seq<BlockRequest>, n: nat)
    requires MergedSoFar(reqs, all, |all|, n)
    ensures AllSized(all) && reqs[..n] == MergeAll(all)
  {
    assert all[..|all|] == all;
  }

  method SortInPlace(slots: array<Slot>) returns (ghost sorted: seq<Slot>)
    requires AllSized(Reqs(slots[..]))
    modifies slots
    ensures multiset(sorted) == multiset(old(slots[..])) && Sorted(Reqs(sorted)) && AllSized(Reqs(sorted))
    ensures slots[..] == sorted && SameFields(slots[..], sorted)
  {
    hide SortedSlots, AllSized;
    ghost var before := slots[..];
    var all := SortBySector(slots[..]);
    SameElements(all, before);
    SortedReqs(all);
    assert |all| == slots.Length by { assert |multiset(all)| == |multiset(before)|; }
    for k := 0 to slots.Length
      invariant forall j :: 0 <= j < k ==> slots[j] == all[j]
    {
      slots[k] := all[k];
    }
    sorted := all;
  }

  lemma SortedReqs(slots: seq<Slot>)
    requires SortedSlots(slots)
    ensures Sorted(Reqs(slots))
  {
  }

  /** The numbers below `n`. */
  function Count(n: nat): seq<nat>
  {
    if n == 0 then [] else Count(n - 1) + [n - 1]
  }

  lemma RecordNone()
    ensures Recorded([None]) == Count(0)
  {
  }

  lemma RecordOne(free: seq<Option<nat>>, h: Option<nat>)
    ensures h == None ==> Recorded(free + [h]) == Recorded(free)
    ensures h.Some? && Recorded(free) == Count(h.value) ==> Recorded(free + [h]) == Count(h.value + 1)
  {
    assert (free + [h])[..|free|] == free;
  }

  lemma SameElements(slots: seq<Slot>, slots': seq<Slot>)
    requires multiset(slots) == multiset(slots') && AllSized(Reqs(slots'))
    ensures AllSized(Reqs(slots))
  {
    forall k | 0 <= k < |slots|
      ensures Sized(Reqs(slots)[k])
    {
      assert slots[k] in multiset(slots');
      var j :| 0 <= j < |slots'| && slots'[j] == slots[k];
      assert Sized(Reqs(slots')[j]);
    }
  }

  // ---------------------------------------------------------------- the flags

  /** For each request that is left, the first of those that went into it. */
  function Starts(reqs: seq<BlockRequest>): (starts: seq<nat>)
    requires reqs != [] && Sorted(reqs)
    ensures |starts| == |MergeAll(reqs)|
  {
    if |reqs| == 1 then [0]
    else
      var out := MergeAll(reqs[..|reqs| - 1]);
      var before := Starts(reqs[..|reqs| - 1]);
      if Merges(out[|out| - 1], reqs[|reqs| - 1]) then before else before + [|reqs| - 1]
  }

  lemma StartsStep(reqs: seq<BlockRequest>, k: nat)
    requires |reqs| > 1 && k == |reqs| - 1 && Sorted(reqs)
    ensures var out := MergeAll(reqs[..k]);
            && |Starts(reqs[..k])| == |out| <= k && out[|out| - 1].sector <= reqs[k].sector
            && MergeAll(reqs) == Absorb(out, reqs[k])
            && Starts(reqs) == if Merges(out[|out| - 1], reqs[k]) then Starts(reqs[..k]) else Starts(reqs[..k]) + [k]
  {
    hide Merged, Merges;
  }

  ghost predicate StartAt(starts: seq<nat>, out: seq<BlockRequest>, reqs: seq<BlockRequest>)
  {
    |starts| == |out| && forall k :: 0 <= k < |out| ==> k <= starts[k] < |reqs| && out[k].sector == reqs[starts[k]].sector
  }

  lemma StartAtAfter(starts: seq<nat>, out: seq<BlockRequest>, reqs: seq<BlockRequest>, k: nat)
    requires k < |reqs| && StartAt(starts, out, reqs[..k]) && out != [] && |out| <= k && out[|out| - 1].sector <= reqs[k].sector
    ensures StartAt(if Merges(out[|out| - 1], reqs[k]) then starts else starts + [k], Absorb(out, reqs[k]), reqs)
  {
    hide MergedQiov, Merges;
  }

  lemma {:induction false} StartsAre(reqs: seq<BlockRequest>)
    requires reqs != [] && Sorted(reqs)
    ensures StartAt(Starts(reqs), MergeAll(reqs), reqs)
  {
    if |reqs| > 1 {
      hide MergeAll, Starts, StartAt, Absorb, Merges;
      var k := |reqs| - 1;
      StartsAre(reqs[..k]);
      StartsStep(reqs, k);
      StartAtAfter(Starts(reqs[..k]), MergeAll(reqs[..k]), reqs, k);
    }
  }

  /** Each request that is left is submitted with the flags of the one it starts with. */
  ghost predicate FlagsFollow(reqs: seq<BlockRequest>, flags: seq<nat>)
    requires reqs != [] && Sorted(reqs)
  {
    forall k :: 0 <= k < |Starts(reqs)| && Starts(reqs)[k] < |flags| ==> k < |flags| && flags[k] == flags[Starts(reqs)[k]]
  }

  /** Some request is kept after another has been merged. */
  ghost predicate KeptAfterMerge(reqs: seq<BlockRequest>)
    requires reqs != [] && Sorted(reqs)
  {
    |reqs| > 1 &&
    var k := |reqs| - 1;
    var out := MergeAll(reqs[..k]);
    KeptAfterMerge(reqs[..k]) || (|out| < k && !Merges(out[|out| - 1], reqs[k]))
  }

  ghost predicate InPlace(starts: seq<nat>)
  {
    forall k :: 0 <= k < |starts| ==> starts[k] == k
  }

  lemma OneMoreInPlace(starts: seq<nat>, k: nat)
    ensures InPlace(starts + [k]) <==> InPlace(starts) && k == |starts|
  {
    assert (starts + [k])[|starts|] == k;
    if InPlace(starts + [k]) {
      forall j | 0 <= j < |starts|
        ensures starts[j] == j
      {
        assert (starts + [k])[j] == starts[j];
      }
    }
  }

  lemma {:induction false} StartsInPlace(reqs: seq<BlockRequest>)
    requires reqs != [] && Sorted(reqs)
    ensures InPlace(Starts(reqs)) <==> !KeptAfterMerge(reqs)
  {
    if |reqs| > 1 {
      hide MergeAll, Starts, Merged, Merges, InPlace;
      var k := |reqs| - 1;
      StartsInPlace(reqs[..k]);
      StartsStep(reqs, k);
      OneMoreInPlace(Starts(reqs[..k]), k);
    }
  }

  /**
   The flags stay behind when requests move up: they go with their requests, whatever they are,
   exactly if no request is kept after a merge.
   */
  lemma FlagsFollowUnlessKept(reqs: seq<BlockRequest>)
    requires reqs != [] && Sorted(reqs)
    ensures (forall flags: seq<nat> :: |flags| == |reqs| ==> FlagsFollow(reqs, flags)) <==> !KeptAfterMerge(reqs)
  {
    hide Starts, KeptAfterMerge, MergeAll;
    StartsAre(reqs);
    assert StartAt(Starts(reqs), MergeAll(reqs), reqs);
    StartsInPlace(reqs);
    if KeptAfterMerge(reqs) {
      var k :| 0 <= k < |Starts(reqs)| && Starts(reqs)[k] != k;
      var flags: seq<nat> := seq(|reqs|, i requires 0 <= i < |reqs| => i as nat);
      assert flags[k] != flags[Starts(reqs)[k]];
      assert !FlagsFollow(reqs, flags);
    }
  }

  lemma TwoEmpty(x: BlockRequest)
    requires x == BlockRequest(0, 0, [])
    ensures MergeAll([x, x]) == [x] && Starts([x, x]) == [0]
  {
    assert [x, x][..1] == [x];
    assert MergeAll([x]) == [x] && Starts([x]) == [0];
    assert Merged(x, x) == x;
  }

  lemma OneBehind(x: BlockRequest, y: BlockRequest)
    requires x == BlockRequest(0, 0, []) && y == BlockRequest(1, 0, [])
    ensures Sorted([x, x, y]) && Starts([x, x, y]) == [0, 2]
  {
    hide MergeAll, Starts;
    TwoEmpty(x);
    assert [x, x, y][..2] == [x, x];
    StartsStep([x, x, y], 2);
  }

  /** A request is submitted with the flags of one that was merged away. */
  lemma FlagsLeftBehind() returns (reqs: seq<BlockRequest>, flags: seq<nat>)
    ensures reqs != [] && Sorted(reqs) && AllSized(reqs) && |flags| == |reqs| && !FlagsFollow(reqs, flags)
  {
    hide Starts, Sorted;
    var x, y := BlockRequest(0, 0, []), BlockRequest(1, 0, []);
    reqs, flags := [x, x, y], [0, 0, 1];
    OneBehind(x, y);
    assert Starts(reqs)[1] == 2 && flags[1] == 0 && flags[2] == 1;
  }

  // ---------------------------------------------------------------- completion

  /** One run of a caller's callback. */
  datatype Called = Called(who: nat, error: int)

  /** `error` is the first failure among the results, in the order in which the writes finished, or 0 if there is none. */
  ghost predicate FirstFailure(rets: seq<int>, error: int)
  {
    if forall k :: 0 <= k < |rets| ==> rets[k] >= 0 then error == 0
    else exists k :: 0 <= k < |rets| && FailsFirst(rets, k) && error == rets[k]
  }

  ghost predicate FailsFirst(rets: seq<int>, k: nat)
    requires k < |rets|
  {
    rets[k] < 0 && forall j :: 0 <= j < k ==> rets[j] >= 0
  }

  lemma OneMoreResult(rets: seq<int>, error: int, ret: int)
    requires FirstFailure(rets, error)
    ensures FirstFailure(rets + [ret], if ret < 0 && error == 0 then ret else error)
  {
    var rets' := rets + [ret];
    if forall k :: 0 <= k < |rets| ==> rets[k] >= 0 {
      assert rets'[|rets|] == ret;
      assert ret < 0 ==> FailsFirst(rets', |rets|);
    } else {
      var k :| 0 <= k < |rets| && FailsFirst(rets, k) && error == rets[k];
      assert rets'[k] == rets[k];
      assert FailsFirst(rets', k);
    }
  }

  /** Every callback has run once, in order, with this error. */
  ghost predicate AllCalled(calls: seq<Called>, callbacks: seq<nat>, error: int)
  {
    |calls| == |callbacks| && forall i :: 0 <= i < |calls| ==> calls[i] == Called(callbacks[i], error)
  }

  /** MultiwriteCB; `results` are those of the writes that have finished. */
  class MultiwriteCB {
    const callbacks: seq<nat>
    const free: seq<Option<nat>>
    ghost const submitted: nat
    var error: int
    var numRequests: nat
    var calls: seq<Called>
    var freed: seq<nat>
    ghost var results: seq<int>

    /** No callback runs and no list is freed before the last write has finished; then each is, once. */
    ghost predicate Valid()
      reads this
    {
      && numRequests + |results| == submitted && |free| == |callbacks|
      && FirstFailure(results, error)
      && if numRequests > 0 then calls == [] && freed == []
         else AllCalled(calls, callbacks, error) && freed == Recorded(free)
    }

    constructor (opaques: seq<nat>, lists: seq<Option<nat>>, n: nat)
      requires n > 0 && |lists| == |opaques|
      ensures Valid() && submitted == n && callbacks == opaques && free == lists && results == []
    {
      callbacks, free, submitted, error, numRequests, calls, freed, results := opaques, lists, n, 0, n, [], [], [];
    }

    /** multiwrite_user_cb */
    method UserCb()
      requires calls == [] && freed == [] && |free| == |callbacks|
      modifies `calls, `freed
      ensures AllCalled(calls, callbacks, error) && freed == Recorded(free)
    {
      for i := 0 to |callbacks|
        invariant AllCalled(calls, callbacks[..i], error) && freed == Recorded(free[..i])
      {
        calls := calls + [Called(callbacks[i], error)];
        if free[i].Some? {
          freed := freed + [free[i].value];
        }
        assert free[..i + 1][..i] == free[..i];
      }
      assert callbacks[..|callbacks|] == callbacks && free[..|free|] == free;
    }

    /** multiwrite_cb; with the last result every callback is told the first failure. */
    method Complete(ret: int)
      requires Valid() && numRequests > 0
      modifies `error, `numRequests, `calls, `freed, `results
      ensures Valid() && results == old(results) + [ret]
    {
      results := results + [ret];
      OneMoreResult(old(results), old(error), ret);
      if ret < 0 && error == 0 {
        error := ret;
      }
      numRequests := numRequests - 1;
      if numRequests == 0 {
        UserCb();
      }
    }

    /** All writes finish, in some order, with these results. */
    method CompleteAll(rets: seq<int>)
      requires Valid() && results == [] && |rets| == submitted > 0
      modifies `error, `numRequests, `calls, `freed, `results
      ensures results == rets && |calls| == |callbacks| && freed == Recorded(free)
      ensures forall i :: 0 <= i < |calls| ==> calls[i].who == callbacks[i] && FirstFailure(rets, calls[i].error)
    {
      for i := 0 to |rets|
        invariant Valid() && results == rets[..i]
      {
        Complete(rets[i]);
      }
    }
  }

  /** A write handed to the driver. */
  datatype Submission = Submission(req: BlockRequest, flags: nat)

  function Whos(slots: seq<Slot>): seq<nat>
  {
    seq(|slots|, i requires 0 <= i < |slots| => slots[i].who)
  }

  /** The writes that are left, each with the flags found in its slot. */
  ghost predicate SubmittedAll(submitted: seq<Submission>, sorted: seq<Slot>)
    requires sorted != [] && Sorted(Reqs(sorted))
  {
    var left := MergeAll(Reqs(sorted));
    |submitted| == |left| && forall i :: 0 <= i < |left| ==> submitted[i] == Submission(left[i], sorted[i].flags)
  }

  /** Every request is marked as failed, and nothing else is changed. */
  method FailAll(slots: array<Slot>)
    modifies slots
    ensures forall i :: 0 <= i < slots.Length ==> slots[i] == old(slots[i]).(error := -NO_MEDIUM)
  {
    for i := 0 to slots.Length
      invariant forall j :: 0 <= j < slots.Length ==>
        slots[j] == if j < i then old(slots[j]).(error := -NO_MEDIUM) else old(slots[j])
    {
      slots[i] := slots[i].(error := -NO_MEDIUM);
    }
  }

  method SubmitAll(slots: array<Slot>, n: nat, ghost sorted: seq<Slot>) returns (submitted: seq<Submission>)
    requires 0 < n <= slots.Length == |sorted| && Sorted(Reqs(sorted))
    requires Reqs(slots[..])[..n] == MergeAll(Reqs(sorted)) && SameFields(slots[..], sorted)
    ensures SubmittedAll(submitted, sorted) && |submitted| == n
  {
    hide Sorted, MergeAll;
    submitted := [];
    for i := 0 to n
      invariant |submitted| == i
      invariant forall j :: 0 <= j < i ==> submitted[j] == Submission(slots[j].req, slots[j].flags)
    {
      submitted := submitted + [Submission(slots[i].req, slots[i].flags)];
    }
    assert forall j :: 0 <= j < n ==> Reqs(slots[..])[..n][j] == slots[j].req;
  }

  /**
   bdrv_aio_multiwrite: the writes handed to the driver, and the record through which their completions go.
   Without a medium every request is marked as failed and nothing is submitted; without requests there is nothing to do.
   */
  method AioMultiwrite(hasMedium: bool, slots: array<Slot>)
    returns (ret: int, submitted: seq<Submission>, mcb: MultiwriteCB?, ghost sorted: seq<Slot>)
    requires AllSized(Reqs(slots[..]))
    modifies slots
    ensures ret == if hasMedium then 0 else -1
    ensures mcb == null <==> !hasMedium || slots.Length == 0
    ensures mcb == null ==> submitted == []
    ensures !hasMedium ==> forall i :: 0 <= i < slots.Length ==> slots[i] == old(slots[i]).(error := -NO_MEDIUM)
    ensures mcb != null ==>
              && multiset(sorted) == multiset(old(slots[..])) && sorted != [] && Sorted(Reqs(sorted)) && AllSized(Reqs(sorted))
              && SameFields(slots[..], sorted) && SubmittedAll(submitted, sorted)
              && fresh(mcb) && mcb.Valid() && mcb.submitted == |submitted| && mcb.results == []
              && mcb.callbacks == Whos(old(slots[..])) && Recorded(mcb.free) == Count(|sorted| - |submitted|)
  {
    hide Sorted, AllSized, MergeAll, Recorded, Count, SubmittedAll, SameFields;
    submitted, mcb, sorted := [], null, [];
    if !hasMedium {
      FailAll(slots);
      return -1, [], null, [];
    }
    ret := 0;
    if slots.Length == 0 {
      return;
    }
    var callbacks := Whos(slots[..]);
    var n, free;
    n, free, sorted := MultiwriteMerge(slots);
    mcb := new MultiwriteCB(callbacks, free, n);
    submitted := SubmitAll(slots, n, sorted);
  }
}
