/**
 The list of tracked requests of a block device (block.c): serialisation of conflicting requests by waiting,
 and read-modify-write of unaligned writes, over every interleaving of the requests' coroutines.
 */
module Tracking {
  import opened Basics
  import opened Requests

  type Table = map<Id, Request>

  /** One write that has reached the device. */
  datatype Written = Written(id: Id, offset: nat, data: seq<Byte>)

  // ---------------------------------------------------------------- the list

  ghost predicate Listed(tracked: seq<Id>, reqs: Table)
  {
    && (forall i, j :: 0 <= i < j < |tracked| ==> tracked[i] != tracked[j])
    && forall a :: a in tracked ==> a in reqs
  }

  /** QLIST_REMOVE */
  function Remove(tracked: seq<Id>, id: Id): (rest: seq<Id>)
    ensures forall a :: a in rest <==> a in tracked && a != id
  {
    if tracked == [] then []
    else if tracked[0] == id then Remove(tracked[1..], id)
    else [tracked[0]] + Remove(tracked[1..], id)
  }

  lemma {:induction false} RemoveKeepsListed(tracked: seq<Id>, reqs: Table, id: Id)
    requires Listed(tracked, reqs)
    ensures Listed(Remove(tracked, id), reqs)
  {
    if tracked != [] {
      RemoveKeepsListed(tracked[1..], reqs, id);
      assert tracked[0] !in tracked[1..];
    }
  }

  /** Quantities summed over the list: serialising_in_flight, and the steps that requests have left. */
  datatype Measure = Serialising | StepsLeft

  function Weight(m: Measure, r: Request): nat
  {
    match m
    case Serialising => if r.serialising then 1 else 0
    case StepsLeft =>
      match r.phase
      case Begun => 7
      case Issued(HeadRead) => 6
      case Back(HeadRead, _) => 5
      case Issued(TailRead) => 4
      case Back(TailRead, _) => 3
      case Issued(StatusRead) => 6
      case Back(StatusRead, _) => 5
      case Issued(ClusterRead) => 4
      case Back(ClusterRead, _) => 3
      case Issued(_) => 2
      case Back(_, _) => 1
  }

  function Total(m: Measure, tracked: seq<Id>, reqs: Table): nat
    requires forall a :: a in tracked ==> a in reqs
  {
    if tracked == [] then 0 else Weight(m, reqs[tracked[0]]) + Total(m, tracked[1..], reqs)
  }

  lemma {:induction false} TotalSame(m: Measure, tracked: seq<Id>, reqs: Table, reqs': Table)
    requires forall a :: a in tracked ==> a in reqs && a in reqs' && Weight(m, reqs'[a]) == Weight(m, reqs[a])
    ensures Total(m, tracked, reqs') == Total(m, tracked, reqs)
  {
    if tracked != [] {
      TotalSame(m, tracked[1..], reqs, reqs');
    }
  }

  lemma {:induction false} TotalUpdate(m: Measure, tracked: seq<Id>, reqs: Table, id: Id, r: Request)
    requires Listed(tracked, reqs) && id in tracked
    ensures Total(m, tracked, reqs[id := r]) + Weight(m, reqs[id]) == Total(m, tracked, reqs) + Weight(m, r)
  {
    if tracked[0] == id {
      TotalSame(m, tracked[1..], reqs, reqs[id := r]);
    } else {
      TotalUpdate(m, tracked[1..], reqs, id, r);
    }
  }

  lemma {:induction false} TotalRemove(m: Measure, tracked: seq<Id>, reqs: Table, id: Id)
    requires Listed(tracked, reqs) && id in tracked
    ensures Total(m, Remove(tracked, id), reqs) + Weight(m, reqs[id]) == Total(m, tracked, reqs)
  {
    if tracked[0] == id {
      RemoveNothing(tracked[1..], id);
    } else {
      TotalRemove(m, tracked[1..], reqs, id);
      assert Remove(tracked, id)[1..] == Remove(tracked[1..], id);
    }
  }

  lemma {:induction false} RemoveNothing(tracked: seq<Id>, id: Id)
    requires id !in tracked
    ensures Remove(tracked, id) == tracked
  {
    if tracked != [] {
      RemoveNothing(tracked[1..], id);
    }
  }

  lemma {:induction false} TotalAtLeast(m: Measure, tracked: seq<Id>, reqs: Table, id: Id)
    requires (forall a :: a in tracked ==> a in reqs) && id in tracked
    ensures Total(m, tracked, reqs) >= Weight(m, reqs[id])
  {
    if tracked[0] != id {
      TotalAtLeast(m, tracked[1..], reqs, id);
    }
  }

  // ---------------------------------------------------------------- what holds at every moment

  /** No two requests that are past their wait conflict. */
  ghost predicate Separate(tracked: seq<Id>, reqs: Table)
    requires Listed(tracked, reqs)
  {
    forall a, b :: a in tracked && b in tracked && a != b && Active(reqs[a]) && Active(reqs[b]) ==> !Conflict(reqs[a], reqs[b])
  }

  /** A request waits for one that is past its wait or has ended. */
  ghost predicate ShortWaits(tracked: seq<Id>, reqs: Table)
    requires Listed(tracked, reqs)
  {
    forall a :: a in tracked && !Active(reqs[a]) ==>
      && reqs[a].waitingFor.value in reqs
      && (reqs[a].waitingFor.value in tracked ==> Active(reqs[reqs[a].waitingFor.value]))
  }

  ghost predicate AllGood(tracked: seq<Id>, reqs: Table, g: Geometry, disk: seq<Byte>)
    requires Listed(tracked, reqs) && ValidGeometry(g)
  {
    forall a :: a in tracked ==> GoodRequest(reqs[a], g) && BuffersHold(reqs[a], g, disk)
  }

  predicate HasWritten(r: Request)
  {
    r.phase == Back(DataWrite, true)
  }

  /** The log has exactly the requests whose write has been carried out, each once. */
  ghost predicate Logged(log: seq<Written>, reqs: Table)
  {
    && (forall i, j :: 0 <= i < j < |log| ==> log[i].id != log[j].id)
    && (forall i :: 0 <= i < |log| ==> log[i].id in reqs && HasWritten(reqs[log[i].id]) &&
                                       reqs[log[i].id].offset == log[i].offset && reqs[log[i].id].data == log[i].data)
    && forall a :: a in reqs && HasWritten(reqs[a]) ==> exists i :: 0 <= i < |log| && log[i].id == a
  }

  /** The writes applied one after the other, each to its own bytes only. */
  function SpliceAll(disk: seq<Byte>, log: seq<Written>): (disk': seq<Byte>)
    ensures |disk'| == |disk|
  {
    if log == [] then disk
    else
      var before := SpliceAll(disk, log[..|log| - 1]);
      var w := log[|log| - 1];
      if w.offset + |w.data| <= |disk| then Splice(before, w.offset, w.data) else before
  }

  lemma SpliceOneMore(disk: seq<Byte>, log: seq<Written>, w: Written)
    requires w.offset + |w.data| <= |disk|
    ensures SpliceAll(disk, log + [w]) == Splice(SpliceAll(disk, log), w.offset, w.data)
  {
    assert (log + [w])[..|log|] == log;
  }

  // ---------------------------------------------------------------- starting a request

  /** tracked_request_begin; a read is tracked with its padded range. */
  function NewRequest(kind: Kind, offset: nat, bytes: nat, data: seq<Byte>, g: Geometry): Request
    requires ValidGeometry(g)
  {
    var (o, b) := if kind == Write then (offset, bytes) else (Down(offset, g.align), Up(offset + bytes, g.align) - Down(offset, g.align));
    Request(kind, offset, bytes, data, false, o, b, None, Begun, None, None, None, None)
  }

  /** mark_request_serialising, for a request that is tracked with the range `[offset, offset + bytes)` */
  function Marked(r: Request, offset: nat, bytes: nat, align: nat): Request
    requires align > 0
  {
    var overlapOffset := Down(offset, align);
    var overlapBytes := Up(offset + bytes, align) - overlapOffset;
    r.(serialising := true, overlapOffset := Min(r.overlapOffset, overlapOffset), overlapBytes := Max(r.overlapBytes, overlapBytes))
  }

  /** A request as it comes to its first wait. */
  function Prepared(kind: Kind, offset: nat, bytes: nat, data: seq<Byte>, g: Geometry): Request
    requires ValidGeometry(g)
  {
    var r := NewRequest(kind, offset, bytes, data, g);
    if kind == CopyOnRead then Marked(r, r.overlapOffset, r.overlapBytes, g.cluster)
    else if NeedsHead(r, g) || NeedsTail(r, g) then Marked(r, offset, bytes, g.align)
    else r
  }

  /** The overlap range is all that the driver is going to touch: the padded range of a write, the clusters of a copy. */
  lemma PreparedRange(kind: Kind, offset: nat, bytes: nat, data: seq<Byte>, g: Geometry)
    requires ValidGeometry(g)
    ensures var r := Prepared(kind, offset, bytes, data, g);
            && r.overlapOffset == Lo(r, g) && r.overlapOffset + r.overlapBytes == Hi(r, g)
            && (r.serialising <==> MustSerialise(r, g))
            && (r.serialising <==> kind == CopyOnRead || (kind == Write && (offset % g.align != 0 || (offset + bytes) % g.align != 0)))
  {
    var r := NewRequest(kind, offset, bytes, data, g);
    var d, u := Down(offset, g.align), Up(offset + bytes, g.align);
    assert d <= offset <= offset + bytes <= u;
  }

  /** Marking a second time, before the tail is read, changes nothing. */
  lemma MarkedAgain(r: Request, g: Geometry)
    requires GoodRequest(r, g) && r.kind == Write && r.serialising
    ensures Marked(r, r.offset, r.bytes, g.align) == r
  {
  }

  // ---------------------------------------------------------------- changes to one request

  ghost predicate Holds(tracked: seq<Id>, reqs: Table, g: Geometry, disk: seq<Byte>)
  {
    && ValidGeometry(g) && Listed(tracked, reqs)
    && Separate(tracked, reqs) && ShortWaits(tracked, reqs) && AllGood(tracked, reqs, g, disk)
  }

  /** `r'` differs from `r` in its progress only. */
  predicate SameRequest(r: Request, r': Request)
  {
    && r'.kind == r.kind && r'.offset == r.offset && r'.bytes == r.bytes && r'.data == r.data
    && r'.serialising == r.serialising && r'.overlapOffset == r.overlapOffset && r'.overlapBytes == r.overlapBytes
  }

  /** An active request makes progress. */
  lemma ProgressKeeps(tracked: seq<Id>, reqs: Table, g: Geometry, disk: seq<Byte>, id: Id, r: Request)
    requires Holds(tracked, reqs, g, disk) && id in tracked && Active(reqs[id])
    requires SameRequest(reqs[id], r) && Active(r) && GoodRequest(r, g) && BuffersHold(r, g, disk)
    ensures Holds(tracked, reqs[id := r], g, disk)
  {
    hide GoodRequest, BuffersHold;
  }

  /** A request that finds nothing to wait for goes on. */
  lemma PassKeeps(tracked: seq<Id>, reqs: Table, g: Geometry, disk: seq<Byte>, id: Id, r: Request)
    requires Holds(tracked, reqs, g, disk) && id in tracked && !Active(reqs[id])
    requires Active(r) && GoodRequest(r, g) && BuffersHold(r, g, disk)
    requires forall b :: b in tracked && b != id && Active(reqs[b]) ==> !Conflict(reqs[b], r)
    ensures Holds(tracked, reqs[id := r], g, disk)
  {
    hide GoodRequest, BuffersHold;
    forall a, b | a in tracked && b in tracked && a != b && Active(reqs[id := r][a]) && Active(reqs[id := r][b])
      ensures !Conflict(reqs[id := r][a], reqs[id := r][b])
    {
      ConflictIsSymmetric(reqs[id := r][a], reqs[id := r][b]);
    }
  }

  /** A waiting request waits for another one. */
  lemma BlockKeeps(tracked: seq<Id>, reqs: Table, g: Geometry, disk: seq<Byte>, id: Id, r: Request)
    requires Holds(tracked, reqs, g, disk) && id in tracked && !Active(reqs[id])
    requires !Active(r) && GoodRequest(r, g) && BuffersHold(r, g, disk)
    requires r.waitingFor.value in tracked && Active(reqs[r.waitingFor.value])
    ensures Holds(tracked, reqs[id := r], g, disk)
  {
    hide GoodRequest, BuffersHold;
  }

  /** A new request that has to wait. */
  lemma EnterWaiting(tracked: seq<Id>, reqs: Table, g: Geometry, disk: seq<Byte>, id: Id, r: Request)
    requires Holds(tracked, reqs, g, disk) && id !in reqs
    requires !Active(r) && GoodRequest(r, g) && BuffersHold(r, g, disk)
    requires r.waitingFor.value in tracked && Active(reqs[r.waitingFor.value])
    ensures Holds([id] + tracked, reqs[id := r], g, disk)
  {
    hide GoodRequest, BuffersHold;
    EnterListed(tracked, reqs, id, r);
  }

  /** A new request that need not wait. */
  lemma EnterActive(tracked: seq<Id>, reqs: Table, g: Geometry, disk: seq<Byte>, id: Id, r: Request)
    requires Holds(tracked, reqs, g, disk) && id !in reqs
    requires Active(r) && GoodRequest(r, g) && BuffersHold(r, g, disk)
    requires forall b :: b in tracked && Active(reqs[b]) ==> !Conflict(reqs[b], r)
    ensures Holds([id] + tracked, reqs[id := r], g, disk)
  {
    hide GoodRequest, BuffersHold;
    EnterListed(tracked, reqs, id, r);
    var reqs' := reqs[id := r];
    forall a, b | a in [id] + tracked && b in [id] + tracked && a != b && Active(reqs'[a]) && Active(reqs'[b])
      ensures !Conflict(reqs'[a], reqs'[b])
    {
      ConflictIsSymmetric(reqs'[a], reqs'[b]);
    }
  }

  lemma EnterListed(tracked: seq<Id>, reqs: Table, id: Id, r: Request)
    requires Listed(tracked, reqs) && id !in reqs
    ensures Listed([id] + tracked, reqs[id := r])
    ensures forall a :: a in [id] + tracked <==> a == id || a in tracked
    ensures forall m :: Total(m, [id] + tracked, reqs[id := r]) == Weight(m, r) + Total(m, tracked, reqs)
  {
    assert id !in tracked;
    var all := [id] + tracked;
    assert all[1..] == tracked;
    forall m
      ensures Total(m, all, reqs[id := r]) == Weight(m, r) + Total(m, tracked, reqs)
    {
      TotalSame(m, tracked, reqs, reqs[id := r]);
    }
  }

  lemma LeaveKeeps(tracked: seq<Id>, reqs: Table, g: Geometry, disk: seq<Byte>, id: Id)
    requires Holds(tracked, reqs, g, disk)
    ensures Holds(Remove(tracked, id), reqs, g, disk)
  {
    hide GoodRequest, BuffersHold, Remove;
    RemoveKeepsListed(tracked, reqs, id);
  }

  /** The write of an active request, with the bytes around it, changes its data only and no one's buffers. */
  lemma WriteKeeps(tracked: seq<Id>, reqs: Table, g: Geometry, disk: seq<Byte>, id: Id)
    requires Holds(tracked, reqs, g, disk) && id in tracked && Active(reqs[id])
    requires reqs[id].phase in {Issued(DataWrite), Back(DataWrite, true)}
    ensures var w := reqs[id];
            && Lo(w, g) + |Padded(w, g)| <= |disk|
            && Splice(disk, Lo(w, g), Padded(w, g)) == Splice(disk, w.offset, w.data)
            && Holds(tracked, reqs, g, Splice(disk, w.offset, w.data))
  {
    var w := reqs[id];
    assert GoodRequest(w, g) && BuffersHold(w, g, disk);
    PaddedWrite(w, g, disk);
    var disk' := Splice(disk, w.offset, w.data);
    hide Splice, Padded;
    forall a | a in tracked
      ensures BuffersHold(reqs[a], g, disk')
    {
      if a == id {
        OwnBuffersSurvive(w, g, disk);
      } else if Active(reqs[a]) {
        BuffersSurvive(reqs[a], w, g, disk);
      } else {
        NoBuffers(reqs[a], g, disk, disk');
      }
    }
  }

  lemma NoBuffers(r: Request, g: Geometry, disk: seq<Byte>, disk': seq<Byte>)
    requires GoodRequest(r, g) && BuffersHold(r, g, disk) && !Active(r) && |disk'| == |disk|
    ensures BuffersHold(r, g, disk')
  {
  }

  // ---------------------------------------------------------------- progress of one request

  /** Bytes of a device of this length that the driver can be asked for: rounding up goes beyond the end. */
  function StorageSize(length: nat, g: Geometry): (size: nat)
    requires ValidGeometry(g)
    ensures length <= size
  {
    Up(Up(length, g.align), g.cluster)
  }

  ghost predicate Stored(length: nat, g: Geometry, disk: seq<Byte>)
  {
    ValidGeometry(g) && |disk| == StorageSize(length, g)
  }

  /** Beyond the end of the device there are zeros. */
  function Extended(contents: seq<Byte>, g: Geometry): (disk: seq<Byte>)
    requires ValidGeometry(g)
    ensures Stored(|contents|, g, disk)
  {
    contents + Zeros(StorageSize(|contents|, g) - |contents|)
  }

  function Zeros(n: nat): (zeros: seq<Byte>)
    ensures |zeros| == n
  {
    seq(n, i => 0)
  }

  ghost predicate Within(r: Request, length: nat)
  {
    End(r) <= length && (HasWritten(r) ==> |r.data| == r.bytes)
  }

  /** No request goes beyond the end of the device. */
  ghost predicate AllWithin(reqs: Table, length: nat)
  {
    forall a :: a in reqs ==> Within(reqs[a], length)
  }

  lemma StillWithin(reqs: Table, length: nat, g: Geometry, id: Id, r: Request)
    requires AllWithin(reqs, length) && GoodRequest(r, g)
    requires End(r) <= length || (id in reqs && SameRequest(reqs[id], r))
    ensures AllWithin(reqs[id := r], length)
  {
    hide Lo, Hi;
  }

  lemma StoredSame(length: nat, g: Geometry, disk: seq<Byte>, disk': seq<Byte>)
    requires Stored(length, g, disk) && |disk'| == |disk|
    ensures Stored(length, g, disk')
  {
  }

  lemma StoredIs(length: nat, g: Geometry, disk: seq<Byte>)
    requires Stored(length, g, disk)
    ensures ValidGeometry(g) && |disk| == StorageSize(length, g)
  {
  }

  /** So neither does a write, and what is beyond the end stays as it is. */
  lemma {:induction false} SpliceWithin(contents: seq<Byte>, beyond: seq<Byte>, log: seq<Written>)
    requires forall i :: 0 <= i < |log| ==> log[i].offset + |log[i].data| <= |contents|
    ensures SpliceAll(contents + beyond, log) == SpliceAll(contents, log) + beyond
  {
    if log != [] {
      SpliceWithin(contents, beyond, log[..|log| - 1]);
    }
  }

  /** A request before it is past its first wait. */
  ghost predicate Fresh(r: Request, g: Geometry, size: nat)
  {
    && ValidGeometry(g) && Hi(r, g) <= size
    && (r.kind == Write ==> |r.data| == r.bytes)
    && (r.serialising <==> MustSerialise(r, g))
    && r.overlapOffset == Lo(r, g) && r.overlapOffset + r.overlapBytes == Hi(r, g)
    && r.phase == Begun && r.head == None && r.tail == None && r.bounce == None
  }

  lemma HiFits(r: Request, g: Geometry, length: nat)
    requires ValidGeometry(g) && End(r) <= length
    ensures Hi(r, g) <= StorageSize(length, g)
  {
    UpMonotone(End(r), length, g.align);
    UpMonotone(Up(End(r), g.align), Up(length, g.align), g.cluster);
  }

  lemma PreparedIs(kind: Kind, offset: nat, bytes: nat, data: seq<Byte>, g: Geometry)
    requires ValidGeometry(g)
    ensures var r := Prepared(kind, offset, bytes, data, g);
            && r.kind == kind && r.offset == offset && r.bytes == bytes && r.data == data
            && r.phase == Begun && r.head == None && r.tail == None && r.bounce == None && Active(r)
  {
    hide Down, Up;
  }

  lemma PreparedIsFresh(kind: Kind, offset: nat, bytes: nat, data: seq<Byte>, g: Geometry, length: nat)
    requires ValidGeometry(g) && offset + bytes <= length && (kind == Write ==> |data| == bytes)
    ensures Fresh(Prepared(kind, offset, bytes, data, g), g, StorageSize(length, g))
    ensures var r := Prepared(kind, offset, bytes, data, g);
            Active(r) && r.kind == kind && r.offset == offset && r.bytes == bytes && r.data == data && r.phase == Begun
  {
    hide Prepared, Lo, Hi, MustSerialise, StorageSize;
    PreparedRange(kind, offset, bytes, data, g);
    PreparedIs(kind, offset, bytes, data, g);
    HiFits(Prepared(kind, offset, bytes, data, g), g, length);
  }

  function Waiting(r: Request, blocker: Id): Request
  {
    r.(waitingFor := Some(blocker))
  }

  /** A request after its first wait. */
  function Started(r: Request, g: Geometry): Request
    requires ValidGeometry(g)
  {
    r.(waitingFor := None, phase := Issued(FirstCall(r, g)))
  }

  lemma FreshCanWait(r: Request, g: Geometry, disk: seq<Byte>, blocker: Id)
    requires Fresh(r, g, |disk|)
    ensures GoodRequest(Waiting(r, blocker), g) && BuffersHold(Waiting(r, blocker), g, disk)
    ensures SameRequest(r, Waiting(r, blocker)) && Waiting(r, blocker).waitingFor == Some(blocker) && Waiting(r, blocker).phase == Begun
  {
    SameRanges(r, Waiting(r, blocker), g);
  }

  lemma FreshCanStart(r: Request, g: Geometry, disk: seq<Byte>)
    requires Fresh(r, g, |disk|)
    ensures GoodRequest(Started(r, g), g) && BuffersHold(Started(r, g), g, disk)
    ensures SameRequest(r, Started(r, g)) && Active(Started(r, g)) && Started(r, g).phase == Issued(FirstCall(Started(r, g), g))
  {
    SameRanges(r, Started(r, g), g);
  }

  lemma WaitingIsFresh(r: Request, g: Geometry, disk: seq<Byte>)
    requires GoodRequest(r, g) && BuffersHold(r, g, disk) && !Active(r)
    ensures Fresh(r.(waitingFor := None), g, |disk|)
  {
    SameRanges(r, r.(waitingFor := None), g);
  }

  lemma NextIsGood(r: Request, g: Geometry, disk: seq<Byte>, present: bool)
    requires GoodRequest(r, g) && BuffersHold(r, g, disk) && r.phase.Back? && r.phase.ok
    requires NextCall(r, g, r.phase.call, present).Some?
    ensures var r' := r.(phase := Issued(NextCall(r, g, r.phase.call, present).value));
            GoodRequest(r', g) && BuffersHold(r', g, disk) && SameRequest(r, r') && Active(r')
  {
    var r' := r.(phase := Issued(NextCall(r, g, r.phase.call, present).value));
    SameRanges(r, r', g);
  }

  // ---------------------------------------------------------------- the device

  /** What a read by the driver leaves in the request's buffers. */
  function WithBuffer(r: Request, g: Geometry, disk: seq<Byte>): Request
    requires ValidGeometry(g) && Hi(r, g) <= |disk| && r.phase.Issued? && GoodCall(r, g, r.phase.call)
  {
    match r.phase.call
    case HeadRead =>
      HeadFits(r, g);
      r.(head := Some(disk[Lo(r, g)..Lo(r, g) + g.align]))
    case TailRead =>
      var block := Down(End(r), g.align);
      r.(tail := Some(disk[block..block + g.align]))
    case ClusterRead =>
      r.(bounce := Some(disk[Lo(r, g)..Hi(r, g)]), result := Some(disk[Lo(r, g)..Hi(r, g)][r.offset - Lo(r, g)..][..r.bytes]))
    case DataRead =>
      r.(result := Some(disk[Lo(r, g)..Hi(r, g)][r.offset - Lo(r, g)..][..r.bytes]))
    case _ => r
  }

  /** The request when the driver comes back. */
  function BackWith(r: Request, g: Geometry, disk: seq<Byte>, ok: bool): Request
    requires ValidGeometry(g) && Hi(r, g) <= |disk| && r.phase.Issued? && GoodCall(r, g, r.phase.call)
  {
    var r' := if ok then WithBuffer(r, g, disk) else r;
    r'.(phase := Back(r.phase.call, ok))
  }

  lemma SameRanges(r: Request, r': Request, g: Geometry)
    requires ValidGeometry(g) && SameRequest(r, r')
    ensures Lo(r', g) == Lo(r, g) && Hi(r', g) == Hi(r, g)
    ensures NeedsHead(r', g) == NeedsHead(r, g) && NeedsTail(r', g) == NeedsTail(r, g)
    ensures MustSerialise(r', g) == MustSerialise(r, g)
  {
  }

  lemma BackIsGood(r: Request, g: Geometry, disk: seq<Byte>, ok: bool)
    requires GoodRequest(r, g) && r.phase.Issued? && BuffersHold(r, g, disk)
    ensures GoodRequest(BackWith(r, g, disk, ok), g) && SameRequest(r, BackWith(r, g, disk, ok))
    ensures BuffersHold(BackWith(r, g, disk, ok), g, disk)
  {
    hide Down, Up;
    BackRequest(r, g, disk, ok);
    var r' := BackWith(r, g, disk, ok);
    SameRanges(r, r', g);
    hide Lo, Hi, NeedsHead, NeedsTail;
    if ok {
      match r.phase.call
      case HeadRead => HeadBuffer(r, g, disk);
      case TailRead => TailBuffer(r, g, disk);
      case _ =>
    }
  }

  lemma BackRequest(r: Request, g: Geometry, disk: seq<Byte>, ok: bool)
    requires GoodRequest(r, g) && r.phase.Issued? && Hi(r, g) <= |disk|
    ensures GoodRequest(BackWith(r, g, disk, ok), g) && SameRequest(r, BackWith(r, g, disk, ok))
  {
    SameRanges(r, BackWith(r, g, disk, ok), g);
    hide Lo, Hi, Down, Up, NeedsHead, NeedsTail, MustSerialise;
  }

  /** Of the first block, the bytes before the data are kept. */
  lemma HeadBuffer(r: Request, g: Geometry, disk: seq<Byte>)
    requires ValidGeometry(g) && NeedsHead(r, g) && Hi(r, g) <= |disk|
    ensures Lo(r, g) + g.align <= Hi(r, g)
    ensures disk[Lo(r, g)..Lo(r, g) + g.align][..r.offset % g.align] == disk[Lo(r, g)..r.offset]
  {
    HeadFits(r, g);
  }

  /** Of the last block, the bytes behind the data are kept. */
  lemma TailBuffer(r: Request, g: Geometry, disk: seq<Byte>)
    requires ValidGeometry(g) && NeedsTail(r, g) && Hi(r, g) <= |disk|
    ensures Hi(r, g) == Down(End(r), g.align) + g.align
    ensures disk[Down(End(r), g.align)..Hi(r, g)][End(r) % g.align..] == disk[End(r)..Hi(r, g)]
  {
    TailFits(r, g);
  }

  lemma LogSame(log: seq<Written>, reqs: Table, id: Id, r: Request)
    requires Logged(log, reqs) && !HasWritten(r) && (id in reqs ==> !HasWritten(reqs[id]))
    ensures Logged(log, reqs[id := r])
  {
  }

  /** A request that has written stays as it is. */
  lemma LogOneMore(log: seq<Written>, reqs: Table, id: Id, r: Request)
    requires Logged(log, reqs) && id in reqs && !HasWritten(reqs[id]) && HasWritten(r)
    ensures Logged(log + [Written(id, r.offset, r.data)], reqs[id := r])
  {
    var log', reqs' := log + [Written(id, r.offset, r.data)], reqs[id := r];
    forall a | a in reqs' && HasWritten(reqs'[a])
      ensures exists i :: 0 <= i < |log'| && log'[i].id == a
    {
      if a == id {
        assert log'[|log|].id == a;
      } else {
        var i :| 0 <= i < |log| && log[i].id == a;
        assert log'[i].id == a;
      }
    }
  }

  /** What the driver's doing does to the table. */
  lemma DriveKeeps(tracked: seq<Id>, reqs: Table, g: Geometry, disk: seq<Byte>, id: Id, ok: bool)
    requires Holds(tracked, reqs, g, disk) && id in tracked && reqs[id].phase.Issued?
    ensures id in reqs && GoodRequest(reqs[id], g) && BuffersHold(reqs[id], g, disk)
    ensures Holds(tracked, reqs[id := BackWith(reqs[id], g, disk, ok)], g, disk)
    ensures GoodRequest(BackWith(reqs[id], g, disk, ok), g)
    ensures SameRequest(reqs[id], BackWith(reqs[id], g, disk, ok)) && Active(BackWith(reqs[id], g, disk, ok))
    ensures Total(Serialising, tracked, reqs[id := BackWith(reqs[id], g, disk, ok)]) == Total(Serialising, tracked, reqs)
  {
    var r := reqs[id];
    assert GoodRequest(r, g) && BuffersHold(r, g, disk);
    BackIsGood(r, g, disk, ok);
    var r' := BackWith(r, g, disk, ok);
    hide GoodRequest, BuffersHold, BackWith, AllGood, Separate, ShortWaits;
    assert Active(r) && Active(r') by {
      GoodIsActive(r, g);
      GoodIsActive(r', g);
    }
    ProgressKeeps(tracked, reqs, g, disk, id, r');
    TotalUpdate(Serialising, tracked, reqs, id, r');
  }

  lemma BackPhase(r: Request, g: Geometry, disk: seq<Byte>, ok: bool)
    requires ValidGeometry(g) && Hi(r, g) <= |disk| && r.phase.Issued? && GoodCall(r, g, r.phase.call)
    ensures BackWith(r, g, disk, ok).phase == Back(r.phase.call, ok)
    ensures r.phase.call == DataWrite ==>
              var r' := BackWith(r, g, disk, ok); Padded(r', g) == Padded(r, g) && Lo(r', g) == Lo(r, g)
    ensures ok && r.phase.call in {DataRead, ClusterRead} ==> BackWith(r, g, disk, ok).result == Some(disk[r.offset..End(r)])
    ensures r.phase.call == ClusterWrite ==> BackWith(r, g, disk, ok).result == r.result
  {
    hide Down, Up;
    if ok && r.phase.call in {DataRead, ClusterRead} {
      ReadPart(disk, Lo(r, g), Hi(r, g), r.offset, r.bytes);
    }
  }

  /** Of the padded range, the bytes the guest asked for. */
  lemma ReadPart(disk: seq<Byte>, lo: nat, hi: nat, offset: nat, bytes: nat)
    requires lo <= offset && offset + bytes <= hi <= |disk|
    ensures disk[lo..hi][offset - lo..][..bytes] == disk[offset..offset + bytes]
  {
  }

  lemma GoodIsActive(r: Request, g: Geometry)
    requires GoodRequest(r, g)
    ensures Active(r) <==> r.phase != Begun
  {
  }

  lemma HoldsBasics(tracked: seq<Id>, reqs: Table, g: Geometry, disk: seq<Byte>)
    requires Holds(tracked, reqs, g, disk)
    ensures ValidGeometry(g) && Listed(tracked, reqs)
  {
  }

  lemma HoldsAt(tracked: seq<Id>, reqs: Table, g: Geometry, disk: seq<Byte>, id: Id)
    requires Holds(tracked, reqs, g, disk) && id in tracked
    ensures ValidGeometry(g) && Listed(tracked, reqs) && id in reqs
    ensures GoodRequest(reqs[id], g) && BuffersHold(reqs[id], g, disk)
    ensures Active(reqs[id]) <==> reqs[id].phase != Begun
  {
  }

  lemma GoodPhaseOf(r: Request, g: Geometry)
    requires GoodRequest(r, g)
    ensures GoodPhase(r, g)
  {
  }

  lemma GoodRange(r: Request, g: Geometry)
    requires GoodRequest(r, g)
    ensures r.overlapOffset == Lo(r, g) && r.overlapOffset + r.overlapBytes == Hi(r, g)
    ensures r.serialising <==> MustSerialise(r, g)
  {
  }

  /** A request past its first wait finds nothing to wait for, however often it looks. */
  lemma NeverBlocks(tracked: seq<Id>, reqs: Table, g: Geometry, disk: seq<Byte>, id: Id)
    requires Holds(tracked, reqs, g, disk) && id in tracked && Active(reqs[id])
    ensures forall b :: b in tracked && b != id && Active(reqs[b]) ==> !Conflict(reqs[b], reqs[id])
  {
    hide GoodRequest, BuffersHold;
  }

  lemma SameConflicts(others: seq<Id>, reqs: Table, r: Request, r': Request)
    requires (forall a :: a in others ==> a in reqs) && SameRequest(r, r')
    ensures forall b :: b in others ==> Conflict(reqs[b], r') == Conflict(reqs[b], r)
  {
  }

  // ---------------------------------------------------------------- what requests that have ended have done

  /** What is known of a request besides itself: the writes on the log when it was submitted, and the answer to its StatusRead. */
  datatype Past = Past(began: nat, present: Option<bool>)

  /** The device held `data` at `offset` at a moment when at least `began` writes were on the log. */
  ghost predicate WasThere(disk0: seq<Byte>, log: seq<Written>, began: nat, offset: nat, data: seq<Byte>)
  {
    exists n :: began <= n <= |log| && HeldAfter(disk0, log, n, offset, data)
  }

  ghost predicate HeldAfter(disk0: seq<Byte>, log: seq<Written>, n: nat, offset: nat, data: seq<Byte>)
    requires n <= |log|
  {
    offset + |data| <= |disk0| && SpliceAll(disk0, log[..n])[offset..offset + |data|] == data
  }

  predicate InCall(r: Request, call: Call)
  {
    !r.phase.Begun? && r.phase.call == call
  }

  /** A read that has been carried out has given bytes that were there since it was submitted. */
  ghost predicate ReadGood(r: Request, past: Past, disk0: seq<Byte>, log: seq<Written>)
  {
    past.began <= |log| &&
    (r.phase in {Back(DataRead, true), Back(ClusterRead, true), Issued(ClusterWrite), Back(ClusterWrite, true)} ==>
       r.result.Some? && |r.result.value| == r.bytes && WasThere(disk0, log, past.began, r.offset, r.result.value))
  }

  /** A copy on read reads plainly only if told that all is present, and copies only if told that it is not. */
  ghost predicate AnswerHeeded(r: Request, past: Past)
  {
    r.kind == CopyOnRead ==>
      && (InCall(r, DataRead) ==> past.present == Some(true))
      && (InCall(r, ClusterRead) || InCall(r, ClusterWrite) ==> past.present == Some(false))
  }

  /**
   A request that has ended without a failed call has done what it was for: a write has written, a read has
   read, and a copy on read has copied unless all was present.
   */
  ghost predicate DoneRight(r: Request, past: Past)
  {
    r.phase.Back? &&
    (r.phase.ok ==>
       match r.kind
       case Write => r.phase.call == DataWrite
       case Read => r.phase.call == DataRead
       case CopyOnRead => r.phase.call == if past.present == Some(true) then DataRead else ClusterWrite)
  }

  ghost predicate Remembers(tracked: seq<Id>, reqs: Table, pasts: map<Id, Past>, disk0: seq<Byte>, log: seq<Written>)
  {
    && reqs.Keys == pasts.Keys
    && (forall a :: a in reqs ==> ReadGood(reqs[a], pasts[a], disk0, log) && AnswerHeeded(reqs[a], pasts[a]))
    && forall a :: a in reqs && a !in tracked ==> DoneRight(reqs[a], pasts[a])
  }

  lemma {:induction false} WasThereStill(disk0: seq<Byte>, log: seq<Written>, log': seq<Written>, began: nat, offset: nat, data: seq<Byte>)
    requires WasThere(disk0, log, began, offset, data) && log <= log'
    ensures WasThere(disk0, log', began, offset, data)
  {
    var n :| began <= n <= |log| && HeldAfter(disk0, log, n, offset, data);
    assert log'[..n] == log[..n];
    assert HeldAfter(disk0, log', n, offset, data);
  }

  /** One request changes, and perhaps the log grows. */
  lemma RemembersNext(tracked: seq<Id>, reqs: Table, pasts: map<Id, Past>, disk0: seq<Byte>, log: seq<Written>,
                      tracked': seq<Id>, id: Id, r: Request, past: Past, log': seq<Written>)
    requires Remembers(tracked, reqs, pasts, disk0, log) && log <= log'
    requires ReadGood(r, past, disk0, log') && AnswerHeeded(r, past)
    requires forall a :: a != id ==> (a in tracked' <==> a in tracked)
    requires id in tracked' || DoneRight(r, past)
    ensures Remembers(tracked', reqs[id := r], pasts[id := past], disk0, log')
  {
    hide AnswerHeeded, DoneRight, WasThere;
    forall a | a in reqs && a != id
      ensures ReadGood(reqs[a], pasts[a], disk0, log')
    {
      assert ReadGood(reqs[a], pasts[a], disk0, log);
      if reqs[a].result.Some? && WasThere(disk0, log, pasts[a].began, reqs[a].offset, reqs[a].result.value) {
        WasThereStill(disk0, log, log', pasts[a].began, reqs[a].offset, reqs[a].result.value);
      }
    }
  }

  /** A request at its first wait, or past it. */
  lemma StartRemembered(tracked: seq<Id>, reqs: Table, pasts: map<Id, Past>, disk0: seq<Byte>, log: seq<Written>, g: Geometry,
                        tracked': seq<Id>, id: Id, r: Request, past: Past)
    requires Remembers(tracked, reqs, pasts, disk0, log) && ValidGeometry(g) && past.began <= |log|
    requires r.phase == Begun || r.phase == Issued(FirstCall(r, g))
    requires id in tracked' && forall a :: a != id ==> (a in tracked' <==> a in tracked)
    ensures Remembers(tracked', reqs[id := r], pasts[id := past], disk0, log)
  {
    hide Remembers;
    RemembersNext(tracked, reqs, pasts, disk0, log, tracked', id, r, past, log);
  }

  /** A driver call returns. */
  lemma BackRemembered(tracked: seq<Id>, reqs: Table, pasts: map<Id, Past>, disk0: seq<Byte>, log: seq<Written>,
                       id: Id, r: Request, log': seq<Written>)
    requires Remembers(tracked, reqs, pasts, disk0, log) && id in reqs && id in tracked && reqs[id].phase.Issued? && log <= log'
    requires SameRequest(reqs[id], r) && r.phase.Back? && r.phase.call == reqs[id].phase.call
    requires r.phase in {Back(DataRead, true), Back(ClusterRead, true)} ==>
               End(r) <= |disk0| && r.result == Some(SpliceAll(disk0, log)[r.offset..End(r)])
    requires r.phase == Back(ClusterWrite, true) ==> r.result == reqs[id].result
    ensures Remembers(tracked, reqs[id := r], pasts, disk0, log')
  {
    var past := pasts[id];
    assert ReadGood(reqs[id], past, disk0, log) && AnswerHeeded(reqs[id], past);
    if r.phase in {Back(DataRead, true), Back(ClusterRead, true)} {
      assert log[..|log|] == log;
      assert HeldAfter(disk0, log, |log|, r.offset, r.result.value);
      assert WasThere(disk0, log, past.began, r.offset, r.result.value);
      WasThereStill(disk0, log, log', past.began, r.offset, r.result.value);
    } else if r.phase == Back(ClusterWrite, true) {
      WasThereStill(disk0, log, log', past.began, r.offset, r.result.value);
    }
    assert pasts[id := past] == pasts;
    RemembersNext(tracked, reqs, pasts, disk0, log, tracked, id, r, past, log');
  }

  /** The coroutine goes on with another call. */
  lemma NextRemembered(tracked: seq<Id>, reqs: Table, pasts: map<Id, Past>, disk0: seq<Byte>, log: seq<Written>, g: Geometry,
                       id: Id, r: Request, present: bool, past: Past)
    requires Remembers(tracked, reqs, pasts, disk0, log) && id in reqs && id in tracked && ValidGeometry(g)
    requires reqs[id].phase.Back? && reqs[id].phase.ok && NextCall(reqs[id], g, reqs[id].phase.call, present).Some?
    requires GoodCall(reqs[id], g, reqs[id].phase.call)
    requires r == reqs[id].(phase := Issued(NextCall(reqs[id], g, reqs[id].phase.call, present).value))
    requires past == if reqs[id].phase.call == StatusRead then pasts[id].(present := Some(present)) else pasts[id]
    ensures Remembers(tracked, reqs[id := r], pasts[id := past], disk0, log)
  {
    assert ReadGood(reqs[id], pasts[id], disk0, log) && AnswerHeeded(reqs[id], pasts[id]);
    RemembersNext(tracked, reqs, pasts, disk0, log, tracked, id, r, past, log);
  }

  /** After its last call, or a failed one, a request has done what it was for, or has failed. */
  lemma LastCall(tracked: seq<Id>, reqs: Table, pasts: map<Id, Past>, disk0: seq<Byte>, log: seq<Written>, g: Geometry, id: Id, present: bool)
    requires Remembers(tracked, reqs, pasts, disk0, log) && id in reqs && GoodRequest(reqs[id], g) && reqs[id].phase.Back?
    requires !reqs[id].phase.ok || NextCall(reqs[id], g, reqs[id].phase.call, present) == None
    ensures id in pasts && DoneRight(reqs[id], pasts[id])
  {
    hide Lo, Hi;
    assert AnswerHeeded(reqs[id], pasts[id]);
  }

  lemma EndRemembered(tracked: seq<Id>, reqs: Table, pasts: map<Id, Past>, disk0: seq<Byte>, log: seq<Written>, id: Id)
    requires Remembers(tracked, reqs, pasts, disk0, log) && id in reqs && id in pasts && DoneRight(reqs[id], pasts[id])
    ensures Remembers(Remove(tracked, id), reqs, pasts, disk0, log)
  {
    hide DoneRight, ReadGood, AnswerHeeded, Remove;
  }

  lemma BeganBefore(tracked: seq<Id>, reqs: Table, pasts: map<Id, Past>, disk0: seq<Byte>, log: seq<Written>, id: Id)
    requires Remembers(tracked, reqs, pasts, disk0, log) && id in reqs
    ensures id in pasts && pasts[id].began <= |log| && pasts[id := pasts[id]] == pasts
  {
    assert ReadGood(reqs[id], pasts[id], disk0, log);
  }

  class Device {
    const geometry: Geometry
    const length: nat
    var disk: seq<Byte>
    var tracked: seq<Id>
    var reqs: Table
    var serialisingInFlight: nat
    ghost var log: seq<Written>
    ghost var pasts: map<Id, Past>
    ghost const disk0: seq<Byte>

    ghost predicate Valid()
      reads this
    {
      && Holds(tracked, reqs, geometry, disk)
      && serialisingInFlight == Total(Serialising, tracked, reqs)
      && Stored(length, geometry, disk) && AllWithin(reqs, length)
      && Logged(log, reqs) && disk == SpliceAll(disk0, log)
      && Remembers(tracked, reqs, pasts, disk0, log)
    }

    constructor (g: Geometry, contents: seq<Byte>)
      requires ValidGeometry(g)
      ensures Valid() && tracked == [] && reqs == map[] && disk == disk0 == Extended(contents, g) && log == []
      ensures geometry == g && length == |contents|
    {
      geometry, length, disk, disk0 := g, |contents|, Extended(contents, g), Extended(contents, g);
      tracked, reqs, serialisingInFlight, log, pasts := [], map[], 0, [], map[];
    }

    /**
     One pass of wait_serialising_requests: the first request on the list that conflicts with `id` and does
     not itself wait.  Requests that wait are passed over.
     */
    method Scan(id: Id) returns (blocker: Option<Id>)
      requires Listed(tracked, reqs) && id in tracked && serialisingInFlight == Total(Serialising, tracked, reqs)
      ensures blocker.Some? ==> blocker.value in tracked && blocker.value != id && Active(reqs[blocker.value])
      ensures blocker.Some? ==> Conflict(reqs[blocker.value], reqs[id])
      ensures blocker == None ==> forall b :: b in tracked && b != id && Active(reqs[b]) ==> !Conflict(reqs[b], reqs[id])
    {
      if serialisingInFlight == 0 {
        forall b | b in tracked
          ensures !reqs[b].serialising
        {
          TotalAtLeast(Serialising, tracked, reqs, b);
        }
        return None;
      }
      var self := reqs[id];
      for i := 0 to |tracked|
        invariant forall j :: 0 <= j < i && tracked[j] != id && Active(reqs[tracked[j]]) ==> !Conflict(reqs[tracked[j]], self)
      {
        var req := reqs[tracked[i]];
        if tracked[i] == id || (!req.serialising && !self.serialising) {
          continue;
        }
        if Overlaps(req, self.overlapOffset, self.overlapBytes) {
          if req.waitingFor == None {
            return Some(tracked[i]);
          }
        }
      }
      return None;
    }

    /**
     The driver carries out the call that `id` has issued, or fails.  A write changes exactly the
     bytes the guest asked for, a read gets exactly those, and nothing else changes the device.
     */
    method Drive(id: Id, ok: bool)
      requires Valid() && id in tracked && reqs[id].phase.Issued?
      modifies `disk, `reqs, `log
      ensures Valid() && tracked == old(tracked)
      ensures reqs == old(reqs)[id := reqs[id]] && SameRequest(old(reqs[id]), reqs[id])
      ensures reqs[id].phase == Back(old(reqs[id]).phase.call, ok)
      ensures ok && old(reqs[id]).phase.call in {DataRead, ClusterRead} ==>
                reqs[id].offset + reqs[id].bytes <= |old(disk)| &&
                reqs[id].result == Some(old(disk)[reqs[id].offset..reqs[id].offset + reqs[id].bytes])
      ensures disk == if reqs[id].phase == Back(DataWrite, true) then Splice(old(disk), reqs[id].offset, reqs[id].data) else old(disk)
      ensures log == if reqs[id].phase == Back(DataWrite, true) then old(log) + [Written(id, reqs[id].offset, reqs[id].data)] else old(log)
    {
      hide Holds, Logged, BackWith, SpliceAll, Total, Splice, Padded, Stored, AllWithin, Remembers;
      DriveKeeps(tracked, reqs, geometry, disk, id, ok);
      var r := reqs[id];
      var r' := BackWith(r, geometry, disk, ok);
      BackPhase(r, geometry, disk, ok);
      StillWithin(reqs, length, geometry, id, r');
      if ok && r.phase.call == DataWrite {
        WriteKeeps(tracked, reqs[id := r'], geometry, disk, id);
        SpliceOneMore(disk0, log, Written(id, r.offset, r.data));
        LogOneMore(log, reqs, id, r');
        disk := Splice(disk, Lo(r, geometry), Padded(r, geometry));
        log := log + [Written(id, r.offset, r.data)];
      } else {
        LogSame(log, reqs, id, r');
        if ok && r.phase.call == ClusterWrite {
          BounceBack(r, geometry, disk);
          disk := Splice(disk, Lo(r, geometry), r.bounce.value);
        }
      }
      StoredSame(length, geometry, old(disk), disk);
      BackRemembered(tracked, reqs, pasts, disk0, old(log), id, r', log);
      reqs := reqs[id := r'];
    }

    /**
     A request is tracked, marked if it has to be serialised, and waits if it has to.
     Nothing yields in between.
     */
    method Submit(id: Id, kind: Kind, offset: nat, bytes: nat, data: seq<Byte>) returns (accepted: bool)
      requires Valid() && id !in reqs && (kind == Write ==> |data| == bytes)
      modifies `tracked, `reqs, `serialisingInFlight, `pasts
      ensures Valid()
      ensures accepted <==> offset + bytes <= length
      ensures !accepted ==> tracked == old(tracked) && reqs == old(reqs)
      ensures accepted ==> tracked == [id] + old(tracked) && id in reqs && reqs == old(reqs)[id := reqs[id]]
      ensures accepted ==> SameRequest(Prepared(kind, offset, bytes, data, geometry), reqs[id])
      ensures accepted ==> reqs[id].kind == kind && reqs[id].offset == offset && reqs[id].bytes == bytes && reqs[id].data == data
      ensures pasts == if accepted then old(pasts)[id := Past(|log|, None)] else old(pasts)
      ensures accepted && !Active(reqs[id]) ==>
                reqs[id].waitingFor.value in old(tracked) && Conflict(reqs[reqs[id].waitingFor.value], reqs[id])
    {
      hide Holds, Logged, SpliceAll, Total, Stored, AllWithin, Remembers, Fresh, Prepared, Conflict;
      if offset + bytes > length {
        return false;
      }
      StoredIs(length, geometry, disk);
      PreparedIsFresh(kind, offset, bytes, data, geometry, length);
      Begin(id, Prepared(kind, offset, bytes, data, geometry));
      accepted := true;
    }

    /** A new request is put on the list and comes to its first wait. */
    method Begin(id: Id, r: Request)
      requires Valid() && id !in reqs && Fresh(r, geometry, |disk|) && Active(r) && End(r) <= length
      modifies `tracked, `reqs, `serialisingInFlight, `pasts
      ensures Valid() && tracked == [id] + old(tracked) && id in reqs && reqs == old(reqs)[id := reqs[id]] && SameRequest(r, reqs[id])
      ensures !Active(reqs[id]) ==>
                reqs[id].waitingFor.value in old(tracked) && Conflict(reqs[reqs[id].waitingFor.value], reqs[id])
      ensures pasts == old(pasts)[id := Past(|log|, None)]
    {
      hide Started, Waiting, FirstCall, Holds, Logged, SpliceAll, Total, Stored, AllWithin, Remembers, GoodRequest, BuffersHold;
      hide Fresh, Conflict;
      ghost var tracked0, reqs0 := tracked, reqs;
      HoldsBasics(tracked, reqs, geometry, disk);
      EnterListed(tracked, reqs, id, r);
      if r.serialising {
        serialisingInFlight := serialisingInFlight + 1;
      }
      tracked := [id] + tracked;
      reqs := reqs[id := r];
      var blocker := Scan(id);
      if blocker.Some? {
        FreshCanWait(r, geometry, disk, blocker.value);
        reqs := reqs[id := Waiting(r, blocker.value)];
        SameConflicts(tracked0, reqs0, r, reqs[id]);
        EnterWaiting(tracked0, reqs0, geometry, disk, id, reqs[id]);
      } else {
        FreshCanStart(r, geometry, disk);
        reqs := reqs[id := Started(r, geometry)];
        SameConflicts(tracked0, reqs0, r, reqs[id]);
        EnterActive(tracked0, reqs0, geometry, disk, id, reqs[id]);
      }
      assert reqs == reqs0[id := reqs[id]];
      EnterListed(tracked0, reqs0, id, reqs[id]);
      LogSame(log, reqs0, id, reqs[id]);
      StillWithin(reqs0, length, geometry, id, reqs[id]);
      StartRemembered(tracked0, reqs0, pasts, disk0, log, geometry, tracked, id, reqs[id], Past(|log|, None));
      pasts := pasts[id := Past(|log|, None)];
    }

    /** The request that `id` waits for has ended: it looks again. */
    method Wake(id: Id)
      requires Valid() && id in tracked && !Active(reqs[id]) && reqs[id].waitingFor.value !in tracked
      modifies `reqs
      ensures Valid() && reqs == old(reqs)[id := reqs[id]] && SameRequest(old(reqs[id]), reqs[id])
      ensures if Active(reqs[id]) then reqs[id].phase == Issued(FirstCall(reqs[id], geometry))
              else reqs[id].waitingFor.value in tracked && reqs[id].phase == Begun &&
                   Conflict(reqs[reqs[id].waitingFor.value], reqs[id])
    {
      hide Started, Waiting, FirstCall, Holds, Logged, SpliceAll, Total, Stored, AllWithin, Remembers, GoodRequest, BuffersHold, Fresh, Conflict;
      ghost var reqs0 := reqs;
      HoldsAt(tracked, reqs, geometry, disk, id);
      WaitingIsFresh(reqs[id], geometry, disk);
      var r := reqs[id].(waitingFor := None);
      TotalUpdate(Serialising, tracked, reqs, id, r);
      reqs := reqs[id := r];
      var blocker := Scan(id);
      if blocker.Some? {
        FreshCanWait(r, geometry, disk, blocker.value);
        reqs := reqs[id := Waiting(r, blocker.value)];
        SameConflicts(Remove(tracked, id), reqs0, r, reqs[id]);
        BlockKeeps(tracked, reqs0, geometry, disk, id, reqs[id]);
      } else {
        FreshCanStart(r, geometry, disk);
        reqs := reqs[id := Started(r, geometry)];
        SameConflicts(Remove(tracked, id), reqs0, r, reqs[id]);
        PassKeeps(tracked, reqs0, geometry, disk, id, reqs[id]);
      }
      assert reqs == reqs0[id := reqs[id]];
      TotalUpdate(Serialising, tracked, reqs0, id, reqs[id]);
      LogSame(log, reqs0, id, reqs[id]);
      StillWithin(reqs0, length, geometry, id, reqs[id]);
      BeganBefore(tracked, reqs0, pasts, disk0, log, id);
      StartRemembered(tracked, reqs0, pasts, disk0, log, geometry, tracked, id, reqs[id], pasts[id]);
    }

    /** tracked_request_end */
    method EndRequest(id: Id)
      requires Valid() && id in tracked && id in reqs && id in pasts && DoneRight(reqs[id], pasts[id])
      modifies `tracked, `serialisingInFlight
      ensures Valid() && tracked == Remove(old(tracked), id)
    {
      hide Holds, Logged, SpliceAll, Total, Stored, AllWithin, Remembers, Remove, GoodRequest, BuffersHold;
      HoldsAt(tracked, reqs, geometry, disk, id);
      TotalRemove(Serialising, tracked, reqs, id);
      LeaveKeeps(tracked, reqs, geometry, disk, id);
      HoldsBasics(Remove(tracked, id), reqs, geometry, disk);
      EndRemembered(tracked, reqs, pasts, disk0, log, id);
      if reqs[id].serialising {
        serialisingInFlight := serialisingInFlight - 1;
      }
      tracked := Remove(tracked, id);
    }

    /**
     The coroutine goes on after a driver call: it issues the next one, or ends.  It is marked and waits
     again on the way, and neither changes anything: a request past its first wait never blocks again.
     */
    method Resume(id: Id, present: bool)
      requires Valid() && id in tracked && reqs[id].phase.Back?
      modifies `tracked, `reqs, `serialisingInFlight, `pasts
      ensures Valid() && id in reqs && reqs == old(reqs)[id := reqs[id]] && SameRequest(old(reqs[id]), reqs[id])
      ensures var r := old(reqs[id]);
              if !r.phase.ok || r.phase.call in {DataWrite, DataRead, ClusterWrite}
              then tracked == Remove(old(tracked), id) && reqs == old(reqs)
              else tracked == old(tracked) && reqs[id].phase == Issued(
                     match r.phase.call
                     case HeadRead => if (r.offset + r.bytes) % geometry.align != 0 then TailRead else DataWrite
                     case StatusRead => if present then DataRead else ClusterRead
                     case ClusterRead => ClusterWrite
                     case _ => DataWrite)
      ensures id in old(pasts) && pasts == old(pasts)[id := if old(reqs[id]).phase == Back(StatusRead, true)
                                                            then old(pasts)[id].(present := Some(present)) else old(pasts)[id]]
    {
      hide Holds, Logged, SpliceAll, Total, Stored, AllWithin, Remembers, Remove, GoodRequest, BuffersHold, DoneRight;
      HoldsAt(tracked, reqs, geometry, disk, id);
      BeganBefore(tracked, reqs, pasts, disk0, log, id);
      var r := reqs[id];
      GoodPhaseOf(r, geometry);
      var next := NextCall(r, geometry, r.phase.call, present);
      if !r.phase.ok || next == None {
        LastCall(tracked, reqs, pasts, disk0, log, geometry, id, present);
        EndRequest(id);
      } else {
        GoOn(id, present);
      }
    }

    /** The next driver call. */
    method GoOn(id: Id, present: bool)
      requires Valid() && id in tracked && id in reqs && id in pasts && reqs[id].phase.Back? && reqs[id].phase.ok
      requires ValidGeometry(geometry) && NextCall(reqs[id], geometry, reqs[id].phase.call, present).Some?
      modifies `reqs, `pasts
      ensures Valid() && reqs == old(reqs)[id := reqs[id]]
      ensures var r := old(reqs[id]); reqs[id] == r.(phase := Issued(NextCall(r, geometry, r.phase.call, present).value))
      ensures pasts == old(pasts)[id := if old(reqs[id]).phase.call == StatusRead
                                        then old(pasts)[id].(present := Some(present)) else old(pasts)[id]]
    {
      hide Holds, Logged, SpliceAll, Total, Stored, AllWithin, Remembers, GoodRequest, BuffersHold, Conflict, Marked;
      HoldsAt(tracked, reqs, geometry, disk, id);
      var r := reqs[id];
      var next := NextCall(r, geometry, r.phase.call, present).value;
      NextIsGood(r, geometry, disk, present);
      GoodRange(r, geometry);
      if next == TailRead {
        MarkedAgain(r, geometry);
        reqs := reqs[id := Marked(r, r.offset, r.bytes, geometry.align)];
        assert reqs == old(reqs);
      }
      if next !in {DataRead, ClusterRead, ClusterWrite} {
        NeverBlocks(tracked, reqs, geometry, disk, id);
        var blocker := Scan(id);
        assert blocker == None;
      }
      if next == DataWrite {
        assert r.overlapOffset <= Lo(r, geometry) && Hi(r, geometry) <= r.overlapOffset + r.overlapBytes;
      }
      var r' := r.(phase := Issued(next));
      ProgressKeeps(tracked, reqs, geometry, disk, id, r');
      TotalUpdate(Serialising, tracked, reqs, id, r');
      LogSame(log, reqs, id, r');
      StillWithin(reqs, length, geometry, id, r');
      ghost var past := if r.phase.call == StatusRead then pasts[id].(present := Some(present)) else pasts[id];
      GoodPhaseOf(r, geometry);
      NextRemembered(tracked, reqs, pasts, disk0, log, geometry, id, r', present, past);
      reqs := reqs[id := r'];
      pasts := pasts[id := past];
    }

    /** The coroutine of `id` or its driver call can go on. */
    predicate Enabled(id: Id)
      reads this
    {
      id in tracked && id in reqs && (Active(reqs[id]) || reqs[id].waitingFor.value !in tracked)
    }

    /** Waiting can not deadlock: while there are requests, one of them can go on. */
    lemma SomeEnabled()
      requires Valid() && tracked != []
      ensures exists id :: Enabled(id)
    {
      hide GoodRequest, BuffersHold, AllGood, Separate;
      var id := tracked[0];
      if !Enabled(id) {
        assert Enabled(reqs[id].waitingFor.value);
      } else {
        assert Enabled(id);
      }
    }

    ghost function StepsToGo(): nat
      requires Listed(tracked, reqs)
      reads this
    {
      Total(StepsLeft, tracked, reqs)
    }

    /** Requests whose wait is over but that have not looked again yet. */
    ghost function Ready(): set<Id>
      requires Listed(tracked, reqs)
      reads this
    {
      set a | a in tracked && !Active(reqs[a]) && reqs[a].waitingFor.value !in tracked
    }

    /** One step of `id`, whatever it is at; `ok` is the outcome of a driver call, `present` the answer to a StatusRead. */
    method Step(id: Id, ok: bool, present: bool)
      requires Valid() && Enabled(id)
      modifies `disk, `tracked, `reqs, `serialisingInFlight, `log, `pasts
      ensures Valid() && reqs.Keys == old(reqs).Keys && forall a :: a in tracked ==> a in old(tracked)
      ensures forall a :: a in reqs ==> SameRequest(old(reqs)[a], reqs[a])
      ensures StepsToGo() < old(StepsToGo()) ||
              (StepsToGo() == old(StepsToGo()) && id in old(Ready()) && Ready() == old(Ready()) - {id})
      ensures old(log) <= log
    {
      hide Holds, Logged, SpliceAll, Total, Stored, AllWithin, Remembers, Remove, GoodRequest, BuffersHold, Conflict, Splice;
      HoldsAt(tracked, reqs, geometry, disk, id);
      ghost var tracked0, reqs0 := tracked, reqs;
      if !Active(reqs[id]) {
        Wake(id);
        TotalUpdate(StepsLeft, tracked, reqs0, id, reqs[id]);
      } else if reqs[id].phase.Issued? {
        Drive(id, ok);
        TotalUpdate(StepsLeft, tracked, reqs0, id, reqs[id]);
      } else {
        Resume(id, present);
        TotalRemove(StepsLeft, tracked0, reqs0, id);
        TotalUpdate(StepsLeft, tracked0, reqs0, id, reqs[id]);
      }
      HoldsBasics(tracked, reqs, geometry, disk);
    }

    /** Whatever the order in which requests go on, all of them come to their end. */
    method Drain()
      requires Valid()
      modifies `disk, `tracked, `reqs, `serialisingInFlight, `log, `pasts
      ensures Valid() && tracked == [] && reqs.Keys == old(reqs).Keys && old(log) <= log
      ensures forall a :: a in reqs ==> SameRequest(old(reqs)[a], reqs[a]) && a in pasts && Finished(this, a)
    {
      hide Holds, Logged, SpliceAll, Total, Stored, AllWithin, Remembers, Enabled;
      HoldsBasics(tracked, reqs, geometry, disk);
      while tracked != []
        invariant Valid() && Listed(tracked, reqs) && reqs.Keys == old(reqs).Keys && old(log) <= log
        invariant forall a :: a in reqs ==> SameRequest(old(reqs)[a], reqs[a])
        decreases StepsToGo(), |Ready()|
      {
        SomeEnabled();
        var id :| Enabled(id);
        var ok, present: bool := *, *;
        Step(id, ok, present);
        HoldsBasics(tracked, reqs, geometry, disk);
      }
      forall a | a in reqs
        ensures a in pasts && Finished(this, a)
      {
        EndedIsFinished(this, a);
      }
    }
  }

  datatype Event =
    | Submitted(id: Id, kind: Kind, offset: nat, bytes: nat, data: seq<Byte>)
    | Stepped(id: Id, ok: bool, present: bool)

  /** The event is a submission that the device accepts. */
  ghost predicate Acceptable(e: Event, length: nat)
  {
    e.Submitted? && e.offset + e.bytes <= length && (e.kind == Write ==> |e.data| == e.bytes)
  }

  /** Request `e.id` is the one that was submitted. */
  ghost predicate IsSubmission(e: Event, reqs: Table)
  {
    e.Submitted? && e.id in reqs &&
    reqs[e.id].kind == e.kind && reqs[e.id].offset == e.offset && reqs[e.id].bytes == e.bytes && reqs[e.id].data == e.data
  }

  /** The first acceptable submission of each number has become a request. */
  ghost predicate AllTakenUp(events: seq<Event>, n: nat, length: nat, reqs: Table)
    requires n <= |events|
  {
    && (forall i :: 0 <= i < n && Acceptable(events[i], length) && NotBefore(events, i, length) ==> IsSubmission(events[i], reqs))
    && forall a :: a in reqs ==> exists i :: 0 <= i < n && Acceptable(events[i], length) && events[i].id == a
  }

  ghost predicate NotBefore(events: seq<Event>, i: nat, length: nat)
    requires i < |events| && events[i].Submitted?
  {
    forall j :: 0 <= j < i && Acceptable(events[j], length) ==> events[j].id != events[i].id
  }

  /** The write is on the log, once. */
  ghost predicate OnLogOnce(log: seq<Written>, id: Id, r: Request)
  {
    exists i :: 0 <= i < |log| && log[i] == Written(id, r.offset, r.data) && forall j :: 0 <= j < |log| && log[j].id == id ==> j == i
  }

  lemma WrittenOnce(log: seq<Written>, reqs: Table, id: Id)
    requires Logged(log, reqs) && id in reqs && HasWritten(reqs[id])
    ensures OnLogOnce(log, id, reqs[id])
  {
    var i :| 0 <= i < |log| && log[i].id == id;
    assert log[i] == Written(id, reqs[id].offset, reqs[id].data);
    forall j | 0 <= j < |log| && log[j].id == id
      ensures j == i
    {
    }
  }

  /** What a request that is no longer tracked has done, unless its last driver call failed. */
  ghost predicate Finished(d: Device, id: Id)
    requires id in d.reqs && id in d.pasts
    reads d
  {
    var r, past := d.reqs[id], d.pasts[id];
    r.phase.Back? &&
    (r.phase.ok ==>
       match r.kind
       case Write => OnLogOnce(d.log, id, r)
       case Read => r.result.Some? && |r.result.value| == r.bytes && WasThere(d.disk0, d.log, past.began, r.offset, r.result.value)
       case CopyOnRead =>
         && r.result.Some? && |r.result.value| == r.bytes && WasThere(d.disk0, d.log, past.began, r.offset, r.result.value)
         && (past.present == Some(true) || r.phase.call == ClusterWrite))
  }

  lemma EndedIsFinished(d: Device, id: Id)
    requires d.Valid() && id in d.reqs && id !in d.tracked
    ensures id in d.pasts && Finished(d, id)
  {
    hide WasThere, Holds, Logged, Stored, AllWithin;
    assert DoneRight(d.reqs[id], d.pasts[id]) && ReadGood(d.reqs[id], d.pasts[id], d.disk0, d.log);
    if d.reqs[id].kind == Write && d.reqs[id].phase.ok {
      WrittenOnce(d.log, d.reqs, id);
    }
  }

  lemma TakenUpSame(events: seq<Event>, n: nat, length: nat, reqs: Table, reqs': Table)
    requires n < |events| && AllTakenUp(events, n, length, reqs) && reqs'.Keys == reqs.Keys
    requires forall a :: a in reqs ==> SameRequest(reqs[a], reqs'[a])
    requires Acceptable(events[n], length) ==> events[n].id in reqs
    ensures AllTakenUp(events, n + 1, length, reqs')
  {
    forall i | 0 <= i < n + 1 && Acceptable(events[i], length) && NotBefore(events, i, length)
      ensures IsSubmission(events[i], reqs')
    {
      assert i < n ==> IsSubmission(events[i], reqs);
    }
    forall a | a in reqs'
      ensures exists i :: 0 <= i < n + 1 && Acceptable(events[i], length) && events[i].id == a
    {
      assert a in reqs;
    }
  }

  lemma TakenUpOne(events: seq<Event>, n: nat, length: nat, reqs: Table, reqs': Table)
    requires n < |events| && AllTakenUp(events, n, length, reqs) && Acceptable(events[n], length)
    requires events[n].id !in reqs && events[n].id in reqs' && reqs' == reqs[events[n].id := reqs'[events[n].id]]
    requires IsSubmission(events[n], reqs')
    ensures AllTakenUp(events, n + 1, length, reqs')
  {
    forall i | 0 <= i < n + 1 && Acceptable(events[i], length) && NotBefore(events, i, length)
      ensures IsSubmission(events[i], reqs')
    {
      assert i < n ==> IsSubmission(events[i], reqs);
    }
    forall a | a in reqs'
      ensures exists i :: 0 <= i < n + 1 && Acceptable(events[i], length) && events[i].id == a
    {
      if a == events[n].id {
        assert Acceptable(events[n], length);
      } else {
        assert a in reqs;
      }
    }
  }

  /** One event of a run, if it can happen. */
  method Happen(d: Device, events: seq<Event>, i: nat)
    requires d.Valid() && i < |events| && AllTakenUp(events, i, d.length, d.reqs)
    modifies d
    ensures d.Valid() && AllTakenUp(events, i + 1, d.length, d.reqs)
  {
    hide AllTakenUp, Holds, Logged, SpliceAll, Stored, AllWithin, Remembers, Acceptable, IsSubmission;
    ghost var reqs := d.reqs;
    match events[i]
    case Submitted(id, kind, offset, bytes, data) =>
      AcceptableIs(events[i], d.length);
      if id !in d.reqs && (kind == Write ==> |data| == bytes) {
        var accepted := d.Submit(id, kind, offset, bytes, data);
        if accepted {
          SubmissionIs(events[i], d.reqs);
          TakenUpOne(events, i, d.length, reqs, d.reqs);
          return;
        }
      }
      TakenUpSame(events, i, d.length, reqs, d.reqs);
    case Stepped(id, ok, present) =>
      if d.Enabled(id) {
        d.Step(id, ok, present);
      }
      AcceptableIs(events[i], d.length);
      TakenUpSame(events, i, d.length, reqs, d.reqs);
  }

  lemma AcceptableIs(e: Event, length: nat)
    ensures Acceptable(e, length) <==> e.Submitted? && e.offset + e.bytes <= length && (e.kind == Write ==> |e.data| == e.bytes)
  {
  }

  lemma SubmissionIs(e: Event, reqs: Table)
    requires e.Submitted? && e.id in reqs && reqs[e.id].kind == e.kind
    requires reqs[e.id].offset == e.offset && reqs[e.id].bytes == e.bytes && reqs[e.id].data == e.data
    ensures IsSubmission(e, reqs)
  {
  }

  /**
   Any run from an idle device: at its end no two requests past their wait conflict, no one waits for a
   waiting request, and the contents are exactly the writes carried out so far, one after the other.
   Every acceptable submission is a request, and every request that is no longer tracked has done what it
   was for unless a driver call failed.
   */
  method Run(g: Geometry, contents: seq<Byte>, events: seq<Event>) returns (d: Device)
    requires ValidGeometry(g)
    ensures d.Valid() && d.length == |contents| && d.disk == Extended(SpliceAll(contents, d.log), g)
    ensures AllTakenUp(events, |events|, |contents|, d.reqs)
    ensures Logged(d.log, d.reqs)
    ensures Separate(d.tracked, d.reqs) && ShortWaits(d.tracked, d.reqs)
    ensures forall a :: a in d.reqs && a !in d.tracked ==> a in d.pasts && Finished(d, a)
  {
    d := new Device(g, contents);
    for i := 0 to |events|
      invariant d.Valid() && d.disk0 == Extended(contents, g) && d.length == |contents| && fresh(d)
      invariant AllTakenUp(events, i, |contents|, d.reqs)
    {
      Happen(d, events, i);
    }
    LoggedWithin(d.log, d.reqs, |contents|);
    SpliceWithin(contents, Zeros(StorageSize(|contents|, g) - |contents|), d.log);
    forall a | a in d.reqs && a !in d.tracked
      ensures a in d.pasts && Finished(d, a)
    {
      EndedIsFinished(d, a);
    }
  }

  lemma LoggedWithin(log: seq<Written>, reqs: Table, length: nat)
    requires Logged(log, reqs) && AllWithin(reqs, length)
    ensures forall i :: 0 <= i < |log| ==> log[i].offset + |log[i].data| <= length
  {
  }
}
