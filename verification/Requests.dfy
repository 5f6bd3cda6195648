/**
 Requests in flight on a block device (block.c): what a tracked request is, which requests conflict, and
 what holds of all of them at every moment.
 */
module Requests {
  import opened Basics

  type Id = nat

  /** `CopyOnRead` is a read that also writes the clusters it touches back to the device. */
  datatype Kind = Read | Write | CopyOnRead

  /** A call into the block driver; `StatusRead` asks whether the sectors are allocated. */
  datatype Call = HeadRead | TailRead | DataWrite | DataRead | StatusRead | ClusterRead | ClusterWrite

  /** Where the request's coroutine is: before its first wait is over, in a driver call, or back from one. */
  datatype Phase = Begun | Issued(call: Call) | Back(call: Call, ok: bool)

  /**
   BdrvTrackedRequest together with the local variables of its coroutine.  `offset` and `bytes` are what
   the guest asked for; `data` is what it wants written, `result` what it gets to read.
   */
  datatype Request = Request(
    kind: Kind, offset: nat, bytes: nat, data: seq<Byte>,
    serialising: bool, overlapOffset: nat, overlapBytes: nat,
    waitingFor: Option<Id>, phase: Phase,
    head: Option<seq<Byte>>, tail: Option<seq<Byte>>, bounce: Option<seq<Byte>>, result: Option<seq<Byte>>)

  /** Alignment of the device and size of its clusters, in bytes. */
  datatype Geometry = Geometry(align: nat, cluster: nat)

  ghost predicate ValidGeometry(g: Geometry)
  {
    g.align > 0 && g.cluster > 0
  }

  // ---------------------------------------------------------------- alignment

  /** `n & ~(align - 1)` for a power of two. */
  function Down(n: nat, align: nat): (m: nat)
    requires align > 0
    ensures m <= n < m + align && m % align == 0
  {
    DownLemma(n, align);
    n - n % align
  }

  /** ROUND_UP(n, align) */
  function Up(n: nat, align: nat): (m: nat)
    requires align > 0
    ensures n <= m < n + align && m % align == 0
    ensures n % align == 0 <==> m == n
    ensures n % align != 0 ==> m == Down(n, align) + align
  {
    UpLemma(n, align);
    Down(n + align - 1, align)
  }

  lemma DownLemma(n: nat, align: nat)
    requires align > 0
    ensures n % align <= n && (n - n % align) % align == 0
  {
    var q := n / align;
    assert n - n % align == q * align;
    MultipleOf(q, align);
  }

  lemma MultipleOf(q: nat, align: nat)
    requires align > 0
    ensures q * align % align == 0
  {
    DivUnique(q * align, align, q, 0);
  }

  lemma UpLemma(n: nat, align: nat)
    requires align > 0
    ensures var m := Down(n + align - 1, align);
            if n % align == 0 then m == n else m == Down(n, align) + align
  {
    var q, r := n / align, n % align;
    if r == 0 {
      DivUnique(n + align - 1, align, q, align - 1);
    } else {
      assert (q + 1) * align == q * align + align;
      DivUnique(n + align - 1, align, q + 1, r - 1);
    }
  }

  // ---------------------------------------------------------------- ranges of a request

  function End(r: Request): nat
  {
    r.offset + r.bytes
  }

  /** First byte the driver touches for the request. */
  function Lo(r: Request, g: Geometry): (lo: nat)
    requires ValidGeometry(g)
    ensures lo <= r.offset
  {
    var lo := Down(r.offset, g.align);
    if r.kind == CopyOnRead then Down(lo, g.cluster) else lo
  }

  /** End of what the driver touches for the request. */
  function Hi(r: Request, g: Geometry): (hi: nat)
    requires ValidGeometry(g)
    ensures End(r) <= hi
  {
    var hi := Up(End(r), g.align);
    if r.kind == CopyOnRead then Up(hi, g.cluster) else hi
  }

  predicate NeedsHead(r: Request, g: Geometry)
    requires ValidGeometry(g)
  {
    r.kind == Write && r.offset % g.align != 0
  }

  predicate NeedsTail(r: Request, g: Geometry)
    requires ValidGeometry(g)
  {
    r.kind == Write && End(r) % g.align != 0
  }

  /** tracked_request_overlaps */
  predicate Overlaps(r: Request, offset: nat, bytes: nat)
  {
    !(offset >= r.overlapOffset + r.overlapBytes) && !(r.overlapOffset >= offset + bytes)
  }

  /** Ranges that are not empty overlap exactly if they share a byte. */
  lemma OverlapsIffShared(r: Request, offset: nat, bytes: nat)
    requires r.overlapBytes > 0 && bytes > 0
    ensures Overlaps(r, offset, bytes) <==>
            exists p: nat :: InRange(p, r.overlapOffset, r.overlapBytes) && InRange(p, offset, bytes)
  {
    if Overlaps(r, offset, bytes) {
      var p := Max(r.overlapOffset, offset);
      assert InRange(p, r.overlapOffset, r.overlapBytes) && InRange(p, offset, bytes);
    }
  }

  predicate InRange(p: nat, offset: nat, bytes: nat)
  {
    offset <= p < offset + bytes
  }

  predicate Conflict(a: Request, b: Request)
  {
    (a.serialising || b.serialising) && Overlaps(a, b.overlapOffset, b.overlapBytes)
  }

  lemma ConflictIsSymmetric(a: Request, b: Request)
    ensures Conflict(a, b) <==> Conflict(b, a)
  {
  }

  predicate Active(r: Request)
  {
    r.waitingFor == None
  }

  /** Is the request one that has to be serialised? */
  predicate MustSerialise(r: Request, g: Geometry)
    requires ValidGeometry(g)
  {
    r.kind == CopyOnRead || NeedsHead(r, g) || NeedsTail(r, g)
  }

  // ---------------------------------------------------------------- contents of the device

  /** What a request writes: the bytes it read before its data, its data, and the bytes it read behind. */
  function Padded(r: Request, g: Geometry): seq<Byte>
    requires ValidGeometry(g)
  {
    (match r.head case Some(head) => if r.offset % g.align <= |head| then head[..r.offset % g.align] else [] case None => [])
    + r.data +
    (match r.tail case Some(tail) => if End(r) % g.align <= |tail| then tail[End(r) % g.align..] else [] case None => [])
  }

  /** The buffers of a request still are what the device holds around its data. */
  ghost predicate BuffersHold(r: Request, g: Geometry, disk: seq<Byte>)
    requires ValidGeometry(g)
  {
    && Hi(r, g) <= |disk|
    && (r.head.Some? ==> NeedsHead(r, g) && |r.head.value| == g.align && r.head.value[..r.offset % g.align] == disk[Lo(r, g)..r.offset])
    && (r.tail.Some? ==> NeedsTail(r, g) && |r.tail.value| == g.align && r.tail.value[End(r) % g.align..] == disk[End(r)..Hi(r, g)])
    && (r.bounce.Some? ==> r.kind == CopyOnRead && r.bounce.value == disk[Lo(r, g)..Hi(r, g)])
  }

  /** A padded write with good buffers is a write of the data alone. */
  lemma PaddedWrite(r: Request, g: Geometry, disk: seq<Byte>)
    requires ValidGeometry(g) && BuffersHold(r, g, disk) && r.kind == Write && |r.data| == r.bytes
    requires (NeedsHead(r, g) ==> r.head.Some?) && (NeedsTail(r, g) ==> r.tail.Some?)
    ensures |Padded(r, g)| == Hi(r, g) - Lo(r, g)
    ensures Splice(disk, Lo(r, g), Padded(r, g)) == Splice(disk, r.offset, r.data)
  {
    var before := disk[Lo(r, g)..r.offset];
    var after := disk[End(r)..Hi(r, g)];
    assert Padded(r, g) == before + r.data + after;
    assert disk[..r.offset] == disk[..Lo(r, g)] + before;
    assert disk[End(r)..] == after + disk[Hi(r, g)..];
  }

  lemma BounceBack(r: Request, g: Geometry, disk: seq<Byte>)
    requires ValidGeometry(g) && BuffersHold(r, g, disk) && r.bounce.Some?
    ensures Splice(disk, Lo(r, g), r.bounce.value) == disk
  {
  }

  /** The buffers of a request survive the write of another that does not conflict with it. */
  lemma BuffersSurvive(r: Request, w: Request, g: Geometry, disk: seq<Byte>)
    requires ValidGeometry(g) && BuffersHold(r, g, disk) && GoodRequest(r, g) && GoodRequest(w, g)
    requires !Conflict(r, w) && w.kind == Write && Hi(w, g) <= |disk|
    ensures BuffersHold(r, g, Splice(disk, w.offset, w.data))
  {
    if r.head.Some? {
      SpliceElsewhere(disk, w.offset, w.data, Lo(r, g), r.offset);
    }
    if r.tail.Some? {
      SpliceElsewhere(disk, w.offset, w.data, End(r), Hi(r, g));
    }
    if r.bounce.Some? {
      SpliceElsewhere(disk, w.offset, w.data, Lo(r, g), Hi(r, g));
    }
  }

  /** Its own write does not make a request's buffers stale: they matter outside its data only. */
  lemma OwnBuffersSurvive(r: Request, g: Geometry, disk: seq<Byte>)
    requires ValidGeometry(g) && BuffersHold(r, g, disk) && r.kind == Write && |r.data| == r.bytes
    ensures BuffersHold(r, g, Splice(disk, r.offset, r.data))
  {
    if r.head.Some? {
      SpliceElsewhere(disk, r.offset, r.data, Lo(r, g), r.offset);
    }
    if r.tail.Some? {
      SpliceElsewhere(disk, r.offset, r.data, End(r), Hi(r, g));
    }
  }

  /** A first block that needs reading lies within the padded range. */
  lemma HeadFits(r: Request, g: Geometry)
    requires ValidGeometry(g) && NeedsHead(r, g)
    ensures Lo(r, g) + g.align <= Hi(r, g)
    ensures r.offset % g.align == r.offset - Lo(r, g)
  {
    MultiplesApart(Lo(r, g), Hi(r, g), g.align);
  }

  lemma TailFits(r: Request, g: Geometry)
    requires ValidGeometry(g) && NeedsTail(r, g)
    ensures Hi(r, g) == Down(End(r), g.align) + g.align
    ensures End(r) % g.align == End(r) - Down(End(r), g.align)
  {
  }

  lemma MultiplesApart(a: nat, b: nat, s: nat)
    requires s > 0 && a % s == 0 && b % s == 0 && a < b
    ensures a + s <= b
  {
    var p, q := a / s, b / s;
    assert a == p * s && b == q * s;
    if q <= p {
      MulMonotone(q, p, s);
      assert false;
    }
    MulMonotone(p + 1, q, s);
    MulSucc(p, s);
  }

  lemma UpMonotone(m: nat, n: nat, align: nat)
    requires align > 0 && m <= n
    ensures Up(m, align) <= Up(n, align)
  {
    UpFits(m, Up(n, align), align);
  }

  lemma UpFits(n: nat, size: nat, align: nat)
    requires align > 0 && n <= size && size % align == 0
    ensures Up(n, align) <= size
  {
    if size < Up(n, align) {
      MultiplesApart(size, Up(n, align), align);
      assert false;
    }
  }

  // ---------------------------------------------------------------- one request

  /** The driver calls a request of this kind makes, in order. */
  function FirstCall(r: Request, g: Geometry): Call
    requires ValidGeometry(g)
  {
    match r.kind
    case Read => DataRead
    case CopyOnRead => StatusRead
    case Write => if NeedsHead(r, g) then HeadRead else if NeedsTail(r, g) then TailRead else DataWrite
  }

  /** The call after `call`, or none; `present` is what a StatusRead has said of all the sectors. */
  function NextCall(r: Request, g: Geometry, call: Call, present: bool): Option<Call>
    requires ValidGeometry(g)
  {
    match call
    case HeadRead => if NeedsTail(r, g) then Some(TailRead) else Some(DataWrite)
    case TailRead => Some(DataWrite)
    case StatusRead => if present then Some(DataRead) else Some(ClusterRead)
    case ClusterRead => Some(ClusterWrite)
    case _ => None
  }

  /** What `phase` says about buffers. */
  ghost predicate GoodPhase(r: Request, g: Geometry)
    requires ValidGeometry(g)
  {
    match r.phase
    case Begun => r.head == None && r.tail == None && r.bounce == None
    case Issued(call) => GoodCall(r, g, call)
    case Back(call, ok) => GoodCall(r, g, call) && (ok ==> CallDone(r, call))
  }

  ghost predicate GoodCall(r: Request, g: Geometry, call: Call)
    requires ValidGeometry(g)
  {
    match call
    case HeadRead => NeedsHead(r, g)
    case TailRead => NeedsTail(r, g) && (NeedsHead(r, g) ==> r.head.Some?)
    case DataWrite => r.kind == Write && (NeedsHead(r, g) ==> r.head.Some?) && (NeedsTail(r, g) ==> r.tail.Some?)
    case DataRead => r.kind != Write
    case StatusRead => r.kind == CopyOnRead
    case ClusterRead => r.kind == CopyOnRead
    case ClusterWrite => r.kind == CopyOnRead && r.bounce.Some?
  }

  ghost predicate CallDone(r: Request, call: Call)
  {
    match call
    case HeadRead => r.head.Some?
    case TailRead => r.tail.Some?
    case ClusterRead => r.bounce.Some?
    case _ => true
  }

  /** What holds of every tracked request on its own. */
  ghost predicate GoodRequest(r: Request, g: Geometry)
  {
    && ValidGeometry(g)
    && (r.kind == Write ==> |r.data| == r.bytes)
    && (r.serialising <==> MustSerialise(r, g))
    && r.overlapOffset == Lo(r, g) && r.overlapOffset + r.overlapBytes == Hi(r, g)
    && GoodPhase(r, g)
    && (r.phase == Begun <==> !Active(r))
  }
}
