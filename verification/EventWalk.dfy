/**
 Deferred deletion in the event loop (async.c, aio-posix.c): callbacks add and delete bottom halves and file
 descriptor handlers, and start nested polls, while outer walks hold on to entries of the lists.
 */
module EventWalk {
  import opened Basics

  type Id = nat

  /**
   Where a call of aio_dispatch is.  The first two walk over bottom halves, `Sweeping` takes deleted ones off
   the list from position `k` on, the next three walk over handlers.
   */
  datatype Place =
    | BhAt(bh: Option<Id>)
    | BhCall(next: Option<Id>)
    | Sweeping(k: nat, quiet: bool)
    | FdAt(node: Option<Id>)
    | FdRead(id: Id, write: bool)
    | FdWrite(id: Id)
    | Timers

  predicate InCallback(p: Place)
  {
    p.BhCall? || p.FdRead? || p.FdWrite? || p.Timers?
  }

  predicate WalksBhs(p: Place)
  {
    p.BhAt? || p.BhCall?
  }

  /** A handler is in use. */
  predicate WalksFds(p: Place)
  {
    p.FdRead? || p.FdWrite?
  }

  /** How many of the calls are in such a place. */
  function Count(frames: seq<Place>, fds: bool): nat
  {
    if frames == [] then 0 else Count(frames[..|frames| - 1], fds) + Counts(frames[|frames| - 1], fds)
  }

  function Counts(p: Place, fds: bool): nat
  {
    if (if fds then WalksFds(p) else WalksBhs(p)) then 1 else 0
  }

  /** A list as the entries that can be reached from its head, in order. */
  ghost predicate Distinct(list: seq<Id>)
  {
    forall i, j :: 0 <= i < j < |list| ==> list[i] != list[j]
  }

  function Position(list: seq<Id>, id: Id): (k: nat)
    requires id in list
    ensures k < |list| && list[k] == id
  {
    if list[0] == id then 0 else 1 + Position(list[1..], id)
  }

  function First(list: seq<Id>): (r: Option<Id>)
    ensures r.Some? ==> r.value in list
  {
    if list == [] then None else Some(list[0])
  }

  /** `id->next` */
  function Next(list: seq<Id>, id: Id): (r: Option<Id>)
    requires id in list
    ensures r.Some? ==> r.value in list
  {
    First(list[Position(list, id) + 1..])
  }

  function Without(list: seq<Id>, id: Id): (r: seq<Id>)
    requires id in list
    ensures |r| == |list| - 1
  {
    var k := Position(list, id);
    list[..k] + list[k + 1..]
  }

  lemma WithoutKeeps(list: seq<Id>, id: Id)
    requires Distinct(list) && id in list
    ensures Distinct(Without(list, id)) && forall x :: x in Without(list, id) <==> x in list && x != id
  {
    var k := Position(list, id);
    assert list == list[..k] + [id] + list[k + 1..];
  }

  /** The entry the place holds on to can still be reached. */
  predicate Safe(bhs: seq<Id>, handlers: seq<Id>, p: Place)
  {
    match p
    case BhAt(bh) => bh.Some? ==> bh.value in bhs
    case BhCall(next) => next.Some? ==> next.value in bhs
    case Sweeping(k, _) => k <= |bhs|
    case FdAt(node) => node.Some? ==> node.value in handlers
    case FdRead(node, _) => node in handlers
    case FdWrite(node) => node in handlers
    case Timers => true
  }

  lemma PositionIs(list: seq<Id>, k: nat)
    requires Distinct(list) && k < |list|
    ensures Position(list, list[k]) == k
  {
  }

  /** A walk goes from an entry to the one behind it, until there is none. */
  lemma NextIs(list: seq<Id>, k: nat)
    requires Distinct(list) && k < |list|
    ensures Next(list, list[k]) == if k + 1 < |list| then Some(list[k + 1]) else None
  {
    PositionIs(list, k);
  }

  /** `next` is what comes behind `id`. */
  ghost predicate Follows(list: seq<Id>, id: Id, next: Option<Id>)
  {
    forall k :: 0 <= k < |list| && list[k] == id ==> next == if k + 1 < |list| then Some(list[k + 1]) else None
  }

  lemma NextFollows(list: seq<Id>, id: Id)
    requires Distinct(list) && id in list
    ensures Follows(list, id, Next(list, id))
  {
    forall k | 0 <= k < |list| && list[k] == id
      ensures Next(list, id) == if k + 1 < |list| then Some(list[k + 1]) else None
    {
      NextIs(list, k);
    }
  }

  /** There is only one entry behind another. */
  lemma FollowsIsNext(list: seq<Id>, id: Id, next: Option<Id>)
    requires Distinct(list) && id in list && Follows(list, id, next)
    ensures next == Next(list, id)
  {
    NextIs(list, Position(list, id));
  }

  lemma NextIsOther(list: seq<Id>, id: Id)
    requires Distinct(list) && id in list
    ensures Next(list, id) != Some(id)
  {
    NextIs(list, Position(list, id));
  }

  // ---------------------------------------------------------------- what a walk has still to look at

  /** The entries of the list from `at` on. */
  ghost function From(list: seq<Id>, at: Option<Id>): seq<Id>
  {
    if at.Some? && at.value in list then list[Position(list, at.value)..] else []
  }

  /** The entries behind `id`. */
  ghost function After(list: seq<Id>, id: Id): seq<Id>
  {
    if id in list then list[Position(list, id) + 1..] else []
  }

  lemma FromFirst(list: seq<Id>)
    ensures From(list, First(list)) == list
  {
  }

  lemma FromAt(list: seq<Id>, k: nat)
    requires Distinct(list) && k < |list|
    ensures From(list, Some(list[k])) == list[k..] && After(list, list[k]) == list[k + 1..]
  {
    PositionIs(list, k);
  }

  lemma FromNext(list: seq<Id>, id: Id)
    requires Distinct(list) && id in list
    ensures From(list, Next(list, id)) == After(list, id) && From(list, Some(id)) == [id] + After(list, id)
  {
    hide From, After, Next, Distinct;
    var k := Position(list, id);
    NextIs(list, k);
    FromAt(list, k);
    if k + 1 < |list| {
      FromAt(list, k + 1);
    } else {
      FromNone(list);
    }
  }

  /** New entries are put at the head, where no walk comes by any more. */
  lemma FromPrepend(list: seq<Id>, x: Id)
    requires x !in list
    ensures forall at: Option<Id> :: (at.Some? ==> at.value in list) ==> From([x] + list, at) == From(list, at)
    ensures forall id :: id in list ==> After([x] + list, id) == After(list, id)
  {
    forall id | id in list
      ensures ([x] + list)[Position([x] + list, id)..] == list[Position(list, id)..]
      ensures After([x] + list, id) == After(list, id)
    {
      assert ([x] + list)[1..] == list;
    }
  }

  lemma FromWithout(list: seq<Id>, id: Id)
    requires Distinct(list) && id in list
    ensures From(Without(list, id), Next(list, id)) == After(list, id)
  {
    var k := Position(list, id);
    NextIs(list, k);
    WithoutKeeps(list, id);
    if k + 1 < |list| {
      assert Without(list, id)[k] == list[k + 1];
      PositionIs(Without(list, id), k);
    }
  }

  /** One look of a walk at an entry: whether it was to be called, and whether it was. */
  datatype Look = Look(id: Id, ready: bool, called: bool)

  /** What a call of aio_dispatch has done: the lists it found and its looks at their entries. */
  datatype Walk = Walk(bhs: seq<Id>, looked: seq<Look>, fds: seq<Id>, seen: seq<Look>)

  ghost function Ids(looks: seq<Look>): (ids: seq<Id>)
    ensures |ids| == |looks|
  {
    seq(|looks|, i requires 0 <= i < |looks| => looks[i].id)
  }

  /** Just the entries that were to be called were called. */
  ghost predicate Heeded(looks: seq<Look>)
  {
    forall i :: 0 <= i < |looks| ==> looks[i].called == looks[i].ready
  }

  lemma OneMoreLook(looks: seq<Look>, l: Look)
    ensures Ids(looks + [l]) == Ids(looks) + [l.id]
    ensures Heeded(looks + [l]) <==> Heeded(looks) && l.called == l.ready
  {
    assert (looks + [l])[|looks|] == l;
    assert forall i :: 0 <= i < |looks| ==> (looks + [l])[i] == looks[i];
    if Heeded(looks + [l]) {
      forall i | 0 <= i < |looks|
        ensures looks[i].called == looks[i].ready
      {
        assert (looks + [l])[i] == looks[i];
      }
    }
  }

  /** What a call in place `p` has looked at, and what it has still to look at, are the lists it found. */
  ghost predicate OnTheWay(bhs: seq<Id>, handlers: seq<Id>, p: Place, w: Walk)
  {
    && Heeded(w.looked) && Heeded(w.seen)
    && match p
       case BhAt(bh) => Ids(w.looked) + From(bhs, bh) == w.bhs
       case BhCall(next) => Ids(w.looked) + From(bhs, next) == w.bhs
       case Sweeping(_, _) => Ids(w.looked) == w.bhs
       case FdAt(node) => Ids(w.looked) == w.bhs && Ids(w.seen) + From(handlers, node) == w.fds
       case FdRead(id, _) => Ids(w.looked) == w.bhs && Ids(w.seen) + After(handlers, id) == w.fds
       case FdWrite(id) => Ids(w.looked) == w.bhs && Ids(w.seen) + After(handlers, id) == w.fds
       case Timers => Complete(w)
  }

  /** Every entry of both lists has been looked at, in order, and called if it was to be. */
  ghost predicate Complete(w: Walk)
  {
    Ids(w.looked) == w.bhs && Heeded(w.looked) && Ids(w.seen) == w.fds && Heeded(w.seen)
  }

  ghost predicate AllOnTheWay(bhs: seq<Id>, handlers: seq<Id>, frames: seq<Place>, walks: seq<Walk>)
  {
    |walks| == |frames| && forall k :: 0 <= k < |frames| ==> OnTheWay(bhs, handlers, frames[k], walks[k])
  }

  /** The calls below the innermost one are not concerned by changes of the lists. */
  ghost predicate ListsKeep(bhs: seq<Id>, handlers: seq<Id>, bhs': seq<Id>, handlers': seq<Id>, p: Place)
  {
    match p
    case BhAt(bh) => From(bhs', bh) == From(bhs, bh)
    case BhCall(next) => From(bhs', next) == From(bhs, next)
    case Sweeping(_, _) => true
    case FdAt(node) => From(handlers', node) == From(handlers, node)
    case FdRead(id, _) => After(handlers', id) == After(handlers, id)
    case FdWrite(id) => After(handlers', id) == After(handlers, id)
    case Timers => true
  }

  lemma ListsChange(bhs: seq<Id>, handlers: seq<Id>, bhs': seq<Id>, handlers': seq<Id>, frames: seq<Place>, walks: seq<Walk>)
    requires AllOnTheWay(bhs, handlers, frames, walks)
    requires forall k :: 0 <= k < |frames| ==> ListsKeep(bhs, handlers, bhs', handlers', frames[k])
    ensures AllOnTheWay(bhs', handlers', frames, walks)
  {
    hide From, After, Ids, Heeded;
    forall k | 0 <= k < |frames|
      ensures OnTheWay(bhs', handlers', frames[k], walks[k])
    {
      assert OnTheWay(bhs, handlers, frames[k], walks[k]) && ListsKeep(bhs, handlers, bhs', handlers', frames[k]);
    }
  }

  lemma TopMoves(bhs: seq<Id>, handlers: seq<Id>, frames: seq<Place>, walks: seq<Walk>, p: Place, w: Walk)
    requires AllOnTheWay(bhs, handlers, frames, walks) && frames != [] && OnTheWay(bhs, handlers, p, w)
    ensures AllOnTheWay(bhs, handlers, frames[|frames| - 1 := p], walks[|frames| - 1 := w])
  {
    hide OnTheWay;
  }

  // ---------------------------------------------------------------- how many hold on

  lemma CountPush(frames: seq<Place>, p: Place, fds: bool)
    ensures Count(frames + [p], fds) == Count(frames, fds) + Counts(p, fds)
  {
    assert (frames + [p])[..|frames|] == frames;
  }

  /** If no call is counted, none is in such a place. */
  lemma {:induction false} CountNone(frames: seq<Place>, fds: bool)
    requires Count(frames, fds) == 0
    ensures forall k :: 0 <= k < |frames| ==> !(if fds then WalksFds(frames[k]) else WalksBhs(frames[k]))
  {
    if frames != [] {
      CountNone(frames[..|frames| - 1], fds);
    }
  }

  // ---------------------------------------------------------------- the context

  /** `revents` of the handlers are the sets `readable` and `writable`; `freed` are addresses given back. */
  datatype State = State(
    bhs: seq<Id>, deletedBhs: set<Id>, scheduled: set<Id>, freedBhs: set<Id>, walkingBh: nat,
    handlers: seq<Id>, deletedFds: set<Id>, readable: set<Id>, writable: set<Id>, freedFds: set<Id>, walkingHandlers: nat,
    frames: seq<Place>)

  const START := State([], {}, {}, {}, 0, [], {}, {}, {}, {}, 0, [])

  ghost predicate Valid(s: State)
  {
    && Distinct(s.bhs) && (forall b :: b in s.bhs ==> b !in s.freedBhs)
    && Distinct(s.handlers) && (forall h :: h in s.handlers ==> h !in s.freedFds)
    && s.walkingBh == Count(s.frames, false) && s.walkingHandlers == Count(s.frames, true)
    && AllSafe(s.bhs, s.handlers, s.frames)
    && (forall k :: 0 <= k < |s.frames| - 1 ==> InCallback(s.frames[k]))
    && (|s.frames| > 0 ==> SweepHolds(s, s.frames[|s.frames| - 1]))
  }

  ghost predicate AllSafe(bhs: seq<Id>, handlers: seq<Id>, frames: seq<Place>)
  {
    forall k :: 0 <= k < |frames| ==> Safe(bhs, handlers, frames[k])
  }

  /** A sweep runs only outside all walks, and unless disturbed has left no deleted entry behind it. */
  ghost predicate SweepHolds(s: State, p: Place)
  {
    p.Sweeping? ==> s.walkingBh == 0 && (p.quiet ==> forall i :: 0 <= i < p.k && i < |s.bhs| ==> s.bhs[i] !in s.deletedBhs)
  }

  /** No walk holds on to an entry that has been freed. */
  lemma NothingFreedIsHeld(s: State, k: nat)
    requires Valid(s) && k < |s.frames|
    ensures match s.frames[k]
            case BhAt(bh) => bh.Some? ==> bh.value !in s.freedBhs
            case BhCall(next) => next.Some? ==> next.value !in s.freedBhs
            case FdAt(node) => node.Some? ==> node.value !in s.freedFds
            case FdRead(id, _) => id !in s.freedFds
            case FdWrite(id) => id !in s.freedFds
            case _ => true
  {
    assert Safe(s.bhs, s.handlers, s.frames[k]);
  }

  /** A sweep under way may leave the newly deleted behind. */
  function Disturbed(frames: seq<Place>): seq<Place>
  {
    if frames != [] && frames[|frames| - 1].Sweeping? then frames[|frames| - 1 := frames[|frames| - 1].(quiet := false)] else frames
  }

  lemma TopIsSafe(s: State)
    requires Valid(s) && |s.frames| > 0
    ensures Safe(s.bhs, s.handlers, s.frames[|s.frames| - 1])
  {
  }

  /** Of the calls, only the innermost one has moved. */
  ghost predicate TopOnly(s: State, s': State)
  {
    |s.frames| > 0 && |s'.frames| == |s.frames| && s'.frames == s.frames[|s.frames| - 1 := s'.frames[|s.frames| - 1]]
  }

  /** The top call goes to another place that counts the same. */
  lemma Moved(frames: seq<Place>, p: Place)
    requires frames != []
    ensures var rest := frames[..|frames| - 1];
            && frames[|frames| - 1 := p] == rest + [p]
            && (forall fds :: Count(frames[|frames| - 1 := p], fds) == Count(rest, fds) + Counts(p, fds))
  {
    var rest := frames[..|frames| - 1];
    assert frames[|frames| - 1 := p] == rest + [p];
    forall fds
      ensures Count(frames[|frames| - 1 := p], fds) == Count(rest, fds) + Counts(p, fds)
    {
      CountPush(rest, p, fds);
    }
  }

  // ---------------------------------------------------------------- the walks

  /** The look at a bottom half. */
  lemma BhLooked(s: State, s': State, walks: seq<Walk>, b: Id, l: Look)
    requires Valid(s) && AllOnTheWay(s.bhs, s.handlers, s.frames, walks) && TopOnly(s, s') && s'.bhs == s.bhs && s'.handlers == s.handlers
    requires s.frames[|s.frames| - 1] == BhAt(Some(b)) && b in s.bhs && l.id == b && l.called == l.ready
    requires var p := s'.frames[|s.frames| - 1];
             (p.BhAt? && Follows(s.bhs, b, p.bh)) || (p.BhCall? && Follows(s.bhs, b, p.next))
    ensures var top := |s.frames| - 1;
            AllOnTheWay(s'.bhs, s'.handlers, s'.frames, walks[top := walks[top].(looked := walks[top].looked + [l])])
  {
    hide From, After, Ids, Heeded, Follows;
    var top := |s.frames| - 1;
    var p, w := s'.frames[top], walks[top];
    var next := if p.BhAt? then p.bh else p.next;
    FollowsIsNext(s.bhs, b, next);
    FromNext(s.bhs, b);
    OneMoreLook(w.looked, l);
    assert OnTheWay(s.bhs, s.handlers, s.frames[top], w);
    assert Ids(w.looked) + ([b] + After(s.bhs, b)) == Ids(w.looked) + [b] + After(s.bhs, b);
    TopMoves(s.bhs, s.handlers, s.frames, walks, p, w.(looked := w.looked + [l]));
  }

  /** The end of the walk over bottom halves, or of the sweep after it; the walk over handlers begins at their head. */
  lemma BhsDone(bhs: seq<Id>, handlers: seq<Id>, frames: seq<Place>, walks: seq<Walk>, p: Place)
    requires AllOnTheWay(bhs, handlers, frames, walks) && frames != []
    requires frames[|frames| - 1] == BhAt(None) || frames[|frames| - 1].Sweeping?
    requires p.Sweeping? || p == FdAt(First(handlers))
    ensures var top := |frames| - 1;
            AllOnTheWay(bhs, handlers, frames[top := p], walks[top := walks[top].(fds := handlers, seen := [])])
  {
    hide OnTheWay;
    var top := |frames| - 1;
    assert OnTheWay(bhs, handlers, frames[top], walks[top]);
    FdsBegin(bhs, handlers, frames[top], walks[top], p);
    TopMoves(bhs, handlers, frames, walks, p, walks[top].(fds := handlers, seen := []));
  }

  lemma FdsBegin(bhs: seq<Id>, handlers: seq<Id>, p: Place, w: Walk, p': Place)
    requires OnTheWay(bhs, handlers, p, w) && (p == BhAt(None) || p.Sweeping?) && (p'.Sweeping? || p' == FdAt(First(handlers)))
    ensures OnTheWay(bhs, handlers, p', w.(fds := handlers, seen := []))
  {
    hide From, Ids, Heeded;
    FromNone(bhs);
    FromFirst(handlers);
    NoLooks();
    assert Ids(w.looked) + [] == Ids(w.looked);
  }

  lemma FromNone(list: seq<Id>)
    ensures From(list, None) == []
  {
  }

  lemma NoLooks()
    ensures Ids([]) == [] && Heeded([])
  {
  }

  /** A sweep concerns no other call: none of them is at a bottom half. */
  lemma SweptKeeps(s: State, bhs: seq<Id>, walks: seq<Walk>)
    requires Valid(s) && AllOnTheWay(s.bhs, s.handlers, s.frames, walks) && s.walkingBh == 0
    ensures AllOnTheWay(bhs, s.handlers, s.frames, walks)
  {
    hide From, After;
    CountNone(s.frames, false);
    ListsChange(s.bhs, s.handlers, bhs, s.handlers, s.frames, walks);
  }

  /** The look at a handler whose callback is run. */
  lemma FdLooked(s: State, walks: seq<Walk>, n: Id, p: Place)
    requires Valid(s) && AllOnTheWay(s.bhs, s.handlers, s.frames, walks) && s.frames != []
    requires s.frames[|s.frames| - 1] == FdAt(Some(n)) && n in s.handlers && WalksFds(p) && p.id == n
    ensures var top := |s.frames| - 1;
            AllOnTheWay(s.bhs, s.handlers, s.frames[top := p], walks[top := walks[top].(seen := walks[top].seen + [Look(n, true, true)])])
  {
    hide From, After, Ids, Heeded;
    var top := |s.frames| - 1;
    var w := walks[top];
    FromNext(s.handlers, n);
    OneMoreLook(w.seen, Look(n, true, true));
    assert OnTheWay(s.bhs, s.handlers, s.frames[top], w);
    assert Ids(w.seen) + ([n] + After(s.handlers, n)) == Ids(w.seen) + [n] + After(s.handlers, n);
    TopMoves(s.bhs, s.handlers, s.frames, walks, p, w.(seen := w.seen + [Look(n, true, true)]));
  }

  /** A walk goes on behind a handler; if that one is freed, no other call is at a handler. */
  lemma LeftBehind(s: State, s': State, walks: seq<Walk>, n: Id, users: nat, w: Walk)
    requires Valid(s) && Valid(s') && TopOnly(s, s') && Left(s.(readable := s'.readable, writable := s'.writable), s', n, users)
    requires AllOnTheWay(s.bhs, s.handlers, s.frames, walks)
    requires Heeded(w.looked) && Heeded(w.seen) && Ids(w.looked) == w.bhs && Ids(w.seen) + After(s.handlers, n) == w.fds
    ensures AllOnTheWay(s'.bhs, s'.handlers, s'.frames, walks[|s.frames| - 1 := w])
  {
    hide Ids, Heeded, From, After, Follows, Without, Distinct;
    var top := |s.frames| - 1;
    FromLeft(s.handlers, n, s'.frames[top].node);
    assert OnTheWay(s'.bhs, s'.handlers, s'.frames[top], w);
    LeftOthers(s, s', walks);
  }

  lemma FromLeft(list: seq<Id>, n: Id, next: Option<Id>)
    requires Distinct(list) && n in list && Follows(list, n, next)
    ensures From(list, next) == After(list, n) && From(Without(list, n), next) == After(list, n)
  {
    hide From, After, Without;
    FollowsIsNext(list, n, next);
    FromNext(list, n);
    FromWithout(list, n);
  }

  lemma LeftOthers(s: State, s': State, walks: seq<Walk>)
    requires Valid(s) && Valid(s') && TopOnly(s, s') && s'.bhs == s.bhs && (s'.walkingHandlers > 0 ==> s'.handlers == s.handlers)
    requires AllOnTheWay(s.bhs, s.handlers, s.frames, walks)
    ensures forall k :: 0 <= k < |s.frames| - 1 ==> OnTheWay(s'.bhs, s'.handlers, s'.frames[k], walks[k])
  {
    hide Ids, Heeded, From, After, Distinct;
    if s'.walkingHandlers == 0 {
      CountNone(s'.frames, true);
    }
    forall k | 0 <= k < |s.frames| - 1
      ensures OnTheWay(s'.bhs, s'.handlers, s'.frames[k], walks[k])
    {
      assert OnTheWay(s.bhs, s.handlers, s.frames[k], walks[k]) && InCallback(s.frames[k]) && s'.frames[k] == s.frames[k];
    }
  }

  /** A walk has left handler `n`, with `users` walks using handlers now: it goes on behind it, and frees it if it may and must. */
  ghost predicate Left(s: State, s': State, n: Id, users: nat)
  {
    var free := users == 0 && n in s.deletedFds;
    && n in s.handlers && |s'.frames| > 0 && s'.frames[|s'.frames| - 1].FdAt? && Follows(s.handlers, n, s'.frames[|s'.frames| - 1].node)
    && s' == s.(handlers := if free then Without(s.handlers, n) else s.handlers,
                freedFds := if free then s.freedFds + {n} else s.freedFds, walkingHandlers := users, frames := s'.frames)
  }

  class AioContext {
    var s: State

    /** What the calls under way have done so far, and what those that have returned did. */
    ghost var walks: seq<Walk>
    ghost var done: seq<Walk>

    ghost predicate Tracks()
      reads this
    {
      Valid(s) && AllOnTheWay(s.bhs, s.handlers, s.frames, walks) && forall w :: w in done ==> Complete(w)
    }

    constructor ()
      ensures Tracks() && s == START && walks == [] && done == []
    {
      s, walks, done := START, [], [];
    }

    /** The place of the innermost call. */
    predicate At(p: Place)
      reads this
    {
      |s.frames| > 0 && s.frames[|s.frames| - 1] == p
    }

    /** The owner of the context can act: no call is under way, or one of its callbacks is running. */
    predicate OwnerActs()
      reads this
    {
      |s.frames| == 0 || InCallback(s.frames[|s.frames| - 1])
    }

    /** The innermost call moves on without taking up or letting go of a list. */
    method Go(p: Place)
      requires Valid(s) && |s.frames| > 0 && Safe(s.bhs, s.handlers, p) && SweepHolds(s, p)
      requires Counts(p, false) == Counts(s.frames[|s.frames| - 1], false) && Counts(p, true) == Counts(s.frames[|s.frames| - 1], true)
      modifies `s
      ensures Valid(s) && s == old(s).(frames := old(s).frames[|old(s).frames| - 1 := p])
    {
      var top := |s.frames| - 1;
      Moved(s.frames, s.frames[top]);
      Moved(s.frames, p);
      s := s.(frames := s.frames[top := p]);
    }

    /** aio_bh_new; the address may be one that was freed.  A sweep holds bh_lock. */
    method NewBh(id: Id)
      requires Valid(s) && id !in s.bhs && (|s.frames| > 0 ==> !s.frames[|s.frames| - 1].Sweeping?)
      modifies `s
      ensures Valid(s)
      ensures s == old(s).(bhs := [id] + old(s).bhs, deletedBhs := old(s).deletedBhs - {id},
                           scheduled := old(s).scheduled - {id}, freedBhs := old(s).freedBhs - {id})
    {
      s := s.(bhs := [id] + s.bhs, deletedBhs := s.deletedBhs - {id}, scheduled := s.scheduled - {id}, freedBhs := s.freedBhs - {id});
    }

    /** qemu_bh_schedule and qemu_bh_delete, by any thread. */
    method ScheduleBh(id: Id)
      requires Valid(s) && id in s.bhs
      modifies `s
      ensures Valid(s) && s == old(s).(scheduled := old(s).scheduled + {id})
    {
      s := s.(scheduled := s.scheduled + {id});
    }

    method DeleteBh(id: Id)
      requires Valid(s) && id in s.bhs
      modifies `s
      ensures Valid(s)
      ensures s == old(s).(deletedBhs := old(s).deletedBhs + {id}, scheduled := old(s).scheduled - {id}, frames := Disturbed(old(s).frames))
    {
      s := s.(deletedBhs := s.deletedBhs + {id}, scheduled := s.scheduled - {id});
      if |s.frames| > 0 && s.frames[|s.frames| - 1].Sweeping? {
        var top := |s.frames| - 1;
        var p := s.frames[top].(quiet := false);
        Moved(s.frames, p);
        Moved(s.frames, s.frames[top]);
        s := s.(frames := s.frames[top := p]);
      }
    }

    /** aio_set_fd_handler with handlers: a new entry, unless there is one that is not deleted. */
    method AddFd(id: Id)
      requires Valid(s) && OwnerActs() && id !in s.handlers
      modifies `s
      ensures Valid(s)
      ensures s == old(s).(handlers := [id] + old(s).handlers, deletedFds := old(s).deletedFds - {id}, readable := old(s).readable - {id},
                           writable := old(s).writable - {id}, freedFds := old(s).freedFds - {id})
    {
      s := s.(handlers := [id] + s.handlers, deletedFds := s.deletedFds - {id}, readable := s.readable - {id},
              writable := s.writable - {id}, freedFds := s.freedFds - {id});
    }

    /** aio_set_fd_handler without handlers: marked while a walk uses handlers, otherwise freed at once. */
    method DeleteFd(id: Id)
      requires Valid(s) && OwnerActs() && id in s.handlers
      modifies `s
      ensures Valid(s)
      ensures s == if old(s).walkingHandlers > 0
                   then old(s).(deletedFds := old(s).deletedFds + {id}, readable := old(s).readable - {id}, writable := old(s).writable - {id})
                   else old(s).(handlers := Without(old(s).handlers, id), freedFds := old(s).freedFds + {id})
    {
      if s.walkingHandlers > 0 {
        s := s.(deletedFds := s.deletedFds + {id}, readable := s.readable - {id}, writable := s.writable - {id});
      } else {
        CountNone(s.frames, true);
        WithoutKeeps(s.handlers, id);
        ghost var s0 := s;
        s := s.(handlers := Without(s.handlers, id), freedFds := s.freedFds + {id});
        forall k | 0 <= k < |s.frames|
          ensures Safe(s.bhs, s.handlers, s.frames[k])
        {
          assert Safe(s0.bhs, s0.handlers, s0.frames[k]) && !WalksFds(s0.frames[k]) && !s0.frames[k].FdAt?;
        }
      }
    }

    /** aio_poll has polled and calls aio_dispatch, which calls aio_bh_poll. */
    method Enter(readable: set<Id>, writable: set<Id>)
      requires Valid(s) && OwnerActs()
      modifies `s
      ensures Valid(s)
      ensures s == old(s).(readable := readable, writable := writable, walkingBh := old(s).walkingBh + 1,
                           frames := old(s).frames + [BhAt(First(old(s).bhs))])
    {
      CountPush(s.frames, BhAt(First(s.bhs)), false);
      CountPush(s.frames, BhAt(First(s.bhs)), true);
      s := s.(readable := readable, writable := writable, walkingBh := s.walkingBh + 1, frames := s.frames + [BhAt(First(s.bhs))]);
    }

    /** The innermost call looks at the next bottom half; `called` is the one whose callback is run. */
    method BhStep() returns (called: Option<Id>)
      requires Valid(s) && |s.frames| > 0 && s.frames[|s.frames| - 1].BhAt?
      modifies `s
      ensures Valid(s) && TopOnly(old(s), s)
      ensures s == old(s).(scheduled := s.scheduled, walkingBh := s.walkingBh, frames := s.frames)
      ensures called.Some? ==> called.value in s.bhs && called.value !in s.deletedBhs && called.value !in s.freedBhs
      ensures var p, p' := old(s).frames[|s.frames| - 1], s.frames[|s.frames| - 1];
              match p.bh
              case Some(b) =>
                && b in s.bhs && s.scheduled == old(s).scheduled - (if called.Some? then {b} else {})
                && called == (if b !in s.deletedBhs && b in old(s).scheduled then Some(b) else None)
                && (if called.Some? then p'.BhCall? && Follows(s.bhs, b, p'.next) else p'.BhAt? && Follows(s.bhs, b, p'.bh))
              case None =>
                called == None && s.scheduled == old(s).scheduled && p' == if old(s).walkingBh == 1 then Sweeping(0, true) else FdAt(First(s.handlers))
    {
      var top := |s.frames| - 1;
      called := None;
      match s.frames[top].bh
      case Some(b) =>
        assert Safe(s.bhs, s.handlers, s.frames[top]);
        assert b !in s.freedBhs;
        var next := Next(s.bhs, b);
        NextFollows(s.bhs, b);
        if b !in s.deletedBhs && b in s.scheduled {
          called := Some(b);
          s := s.(scheduled := s.scheduled - {b});
          Go(BhCall(next));
        } else {
          Go(BhAt(next));
        }
      case None =>
        EndBhWalk();
    }

    /** The walk over bottom halves ends; the outermost one sweeps. */
    method EndBhWalk()
      requires Valid(s) && At(BhAt(None))
      modifies `s
      ensures Valid(s) && TopOnly(old(s), s)
      ensures s == old(s).(walkingBh := old(s).walkingBh - 1, frames := s.frames)
      ensures At(if s.walkingBh == 0 then Sweeping(0, true) else FdAt(First(s.handlers)))
    {
      hide Distinct, Count;
      var top := |s.frames| - 1;
      CountPush(s.frames[..top], s.frames[top], false);
      CountPush(s.frames[..top], s.frames[top], true);
      assert s.frames == s.frames[..top] + [s.frames[top]];
      var p := if s.walkingBh == 1 then Sweeping(0, true) else FdAt(First(s.handlers));
      Moved(s.frames, p);
      s := s.(walkingBh := s.walkingBh - 1, frames := s.frames[top := p]);
    }

    /** A callback of a bottom half returns. */
    method BhReturn()
      requires Valid(s) && |s.frames| > 0 && s.frames[|s.frames| - 1].BhCall?
      modifies `s
      ensures Valid(s)
      ensures var top := |old(s).frames| - 1;
              s == old(s).(frames := old(s).frames[top := BhAt(old(s).frames[top].next)])
    {
      TopIsSafe(s);
      Go(BhAt(s.frames[|s.frames| - 1].next));
    }

    /** One turn of the loop that removes deleted bottom halves; undisturbed, it leaves none. */
    method SweepStep()
      requires Valid(s) && |s.frames| > 0 && s.frames[|s.frames| - 1].Sweeping?
      modifies `s
      ensures Valid(s) && TopOnly(old(s), s)
      ensures s == old(s).(bhs := s.bhs, freedBhs := s.freedBhs, frames := s.frames)
      ensures var p := old(s).frames[|s.frames| - 1];
              if p.k == |old(s).bhs|
              then s.bhs == old(s).bhs && s.freedBhs == old(s).freedBhs && At(FdAt(First(s.handlers))) &&
                   (p.quiet ==> forall b :: b in s.bhs ==> b !in s.deletedBhs)
              else if old(s).bhs[p.k] in s.deletedBhs
              then s.bhs == old(s).bhs[..p.k] + old(s).bhs[p.k + 1..] && s.freedBhs == old(s).freedBhs + {old(s).bhs[p.k]} && At(p)
              else s.bhs == old(s).bhs && s.freedBhs == old(s).freedBhs && At(p.(k := p.k + 1))
    {
      hide Valid;
      var p := s.frames[|s.frames| - 1];
      TopIsSafe(s);
      if p.k == |s.bhs| {
        SweepDone(p);
      } else if s.bhs[p.k] in s.deletedBhs {
        SweepOne(p);
      } else {
        SweepNext(p);
      }
    }

    method SweepDone(p: Place)
      requires Valid(s) && At(p) && p.Sweeping? && p.k == |s.bhs|
      modifies `s
      ensures Valid(s) && s == old(s).(frames := s.frames) && TopOnly(old(s), s) && At(FdAt(First(s.handlers)))
      ensures p.quiet ==> forall b :: b in s.bhs ==> b !in s.deletedBhs
    {
      Go(FdAt(First(s.handlers)));
    }

    method SweepNext(p: Place)
      requires Valid(s) && At(p) && p.Sweeping? && p.k < |s.bhs| && s.bhs[p.k] !in s.deletedBhs
      modifies `s
      ensures Valid(s) && s == old(s).(frames := s.frames) && TopOnly(old(s), s) && At(p.(k := p.k + 1))
    {
      Go(p.(k := p.k + 1));
    }

    /** The whole sweep, when no other thread deletes meanwhile: just the deleted bottom halves go. */
    method Sweep()
      requires Valid(s) && At(Sweeping(0, true))
      modifies `s
      ensures Valid(s) && At(FdAt(First(s.handlers))) && s.deletedBhs == old(s).deletedBhs
      ensures forall b :: b in s.bhs <==> b in old(s).bhs && b !in s.deletedBhs
    {
      while |s.frames| > 0 && s.frames[|s.frames| - 1].Sweeping?
        invariant Valid(s) && s.deletedBhs == old(s).deletedBhs && |s.frames| > 0
        invariant forall b :: b in old(s).bhs && b !in s.deletedBhs ==> b in s.bhs
        invariant forall b :: b in s.bhs ==> b in old(s).bhs
        invariant s.frames[|s.frames| - 1].Sweeping? ==> s.frames[|s.frames| - 1].quiet && s.frames[|s.frames| - 1].k <= |s.bhs|
        invariant !s.frames[|s.frames| - 1].Sweeping? ==> At(FdAt(First(s.handlers))) && forall b :: b in s.bhs ==> b !in s.deletedBhs
        decreases if s.frames[|s.frames| - 1].Sweeping? then 1 + |s.bhs| - s.frames[|s.frames| - 1].k else 0
      {
        ghost var bhs, k := s.bhs, s.frames[|s.frames| - 1].k;
        assert Safe(s.bhs, s.handlers, s.frames[|s.frames| - 1]);
        SweepStep();
        assert k < |bhs| ==> bhs == bhs[..k] + [bhs[k]] + bhs[k + 1..];
      }
    }

    /** A deleted bottom half is taken off the list and freed; no walk is at it. */
    method SweepOne(p: Place)
      requires Valid(s) && At(p) && p.Sweeping? && p.k < |s.bhs| && s.bhs[p.k] in s.deletedBhs
      modifies `s
      ensures Valid(s)
      ensures s == old(s).(bhs := old(s).bhs[..p.k] + old(s).bhs[p.k + 1..], freedBhs := old(s).freedBhs + {old(s).bhs[p.k]})
    {
      ghost var s0, b := s, s.bhs[p.k];
      CountNone(s.frames, false);
      s := s.(bhs := s.bhs[..p.k] + s.bhs[p.k + 1..], freedBhs := s.freedBhs + {s.bhs[p.k]});
      assert s0.bhs == s0.bhs[..p.k] + [b] + s0.bhs[p.k + 1..];
      forall k | 0 <= k < |s.frames|
        ensures Safe(s.bhs, s.handlers, s.frames[k])
      {
        assert Safe(s0.bhs, s0.handlers, s0.frames[k]) && !WalksBhs(s0.frames[k]);
      }
    }

    /** aio_dispatch looks at the next handler; `called` is the one whose callback is run. */
    method FdStep() returns (called: Option<Id>)
      requires Valid(s) && |s.frames| > 0 && s.frames[|s.frames| - 1].FdAt?
      modifies `s
      ensures Valid(s) && TopOnly(old(s), s)
      ensures called.Some? ==> called.value in s.handlers && called.value !in s.deletedFds && called.value !in s.freedFds
      ensures match old(s).frames[|s.frames| - 1].node
              case None => called == None && s == old(s).(frames := s.frames) && At(Timers)
              case Some(n) =>
                && n in old(s).handlers
                && called == (if n !in old(s).deletedFds && (n in old(s).readable || n in old(s).writable) then Some(n) else None)
                && if called.Some?
                   then && s == old(s).(readable := old(s).readable - {n}, writable := old(s).writable - {n},
                                        walkingHandlers := old(s).walkingHandlers + 1, frames := s.frames)
                        && At(if n in old(s).readable then FdRead(n, n in old(s).writable) else FdWrite(n))
                   else Left(old(s).(readable := old(s).readable - {n}, writable := old(s).writable - {n}), s, n, old(s).walkingHandlers)
    {
      var top := |s.frames| - 1;
      called := None;
      match s.frames[top].node
      case Some(n) =>
        assert Safe(s.bhs, s.handlers, s.frames[top]);
        assert n !in s.freedFds;
        var read, write := n in s.readable, n in s.writable;
        s := s.(readable := s.readable - {n}, writable := s.writable - {n});
        if n !in s.deletedFds && read {
          called := Some(n);
          Use(FdRead(n, write));
        } else if n !in s.deletedFds && write {
          called := Some(n);
          Use(FdWrite(n));
        } else {
          Use(FdWrite(n));
          Leave(n);
        }
      case None =>
        Go(Timers);
    }

    /** walking_handlers++ */
    method Use(p: Place)
      requires Valid(s) && |s.frames| > 0 && s.frames[|s.frames| - 1].FdAt? && WalksFds(p) && p.id in s.handlers
      modifies `s
      ensures Valid(s)
      ensures s == old(s).(walkingHandlers := old(s).walkingHandlers + 1, frames := old(s).frames[|old(s).frames| - 1 := p])
    {
      var top := |s.frames| - 1;
      Moved(s.frames, s.frames[top]);
      Moved(s.frames, p);
      s := s.(walkingHandlers := s.walkingHandlers + 1, frames := s.frames[top := p]);
    }

    /** walking_handlers--, after the next handler has been fetched; a deleted handler is freed if no walk uses handlers. */
    method Leave(n: Id)
      requires Valid(s) && |s.frames| > 0 && WalksFds(s.frames[|s.frames| - 1]) && s.frames[|s.frames| - 1].id == n
      modifies `s
      ensures Valid(s) && TopOnly(old(s), s) && old(s).walkingHandlers > 0
      ensures Left(old(s), s, n, old(s).walkingHandlers - 1)
    {
      var top := |s.frames| - 1;
      assert Safe(s.bhs, s.handlers, s.frames[top]);
      var node := Next(s.handlers, n);
      NextIsOther(s.handlers, n);
      NextFollows(s.handlers, n);
      Moved(s.frames, s.frames[top]);
      Moved(s.frames, FdAt(node));
      s := s.(walkingHandlers := s.walkingHandlers - 1, frames := s.frames[top := FdAt(node)]);
      if s.walkingHandlers == 0 && n in s.deletedFds {
        Free(n);
      }
    }

    method Free(n: Id)
      requires Valid(s) && s.walkingHandlers == 0 && n in s.handlers
      requires |s.frames| > 0 && s.frames[|s.frames| - 1].FdAt? && s.frames[|s.frames| - 1].node != Some(n)
      modifies `s
      ensures Valid(s) && s == old(s).(handlers := Without(old(s).handlers, n), freedFds := old(s).freedFds + {n})
    {
      CountNone(s.frames, true);
      WithoutKeeps(s.handlers, n);
      ghost var s0 := s;
      s := s.(handlers := Without(s.handlers, n), freedFds := s.freedFds + {n});
      forall k | 0 <= k < |s.frames|
        ensures Safe(s.bhs, s.handlers, s.frames[k])
      {
        assert Safe(s0.bhs, s0.handlers, s0.frames[k]) && !WalksFds(s0.frames[k]);
        assert k < |s.frames| - 1 ==> InCallback(s0.frames[k]);
      }
    }

    /** A callback of a handler returns: the write callback may follow, unless the handler is deleted by now. */
    method FdReturn() returns (called: Option<Id>)
      requires Valid(s) && |s.frames| > 0 && WalksFds(s.frames[|s.frames| - 1])
      modifies `s
      ensures Valid(s) && TopOnly(old(s), s) && old(s).walkingHandlers > 0
      ensures called.Some? ==> called.value in s.handlers && called.value !in s.deletedFds && called.value !in s.freedFds
      ensures var p := old(s).frames[|s.frames| - 1];
              && p.id in old(s).handlers
              && called == (if p.FdRead? && p.write && p.id !in old(s).deletedFds then Some(p.id) else None)
              && if called.Some? then s == old(s).(frames := s.frames) && At(FdWrite(p.id))
                 else Left(old(s), s, p.id, old(s).walkingHandlers - 1)
    {
      var top := |s.frames| - 1;
      var p := s.frames[top];
      called := None;
      assert Safe(s.bhs, s.handlers, p);
      assert p.id !in s.freedFds;
      if p.FdRead? && p.write && p.id !in s.deletedFds {
        called := Some(p.id);
        Go(FdWrite(p.id));
      } else {
        Leave(p.id);
      }
    }

    /** aio_dispatch returns. */
    method Exit()
      requires Valid(s) && At(Timers)
      modifies `s
      ensures Valid(s) && s == old(s).(frames := old(s).frames[..|old(s).frames| - 1])
    {
      var top := |s.frames| - 1;
      Moved(s.frames, s.frames[top]);
      s := s.(frames := s.frames[..top]);
    }

    /** The record of the innermost call. */
    ghost function Mine(): Walk
      requires walks != []
      reads this
    {
      walks[|walks| - 1]
    }

    /** The innermost call looks at a bottom half, or ends its walk over them. */
    method ProceedBh()
      requires Tracks() && |s.frames| > 0 && s.frames[|s.frames| - 1].BhAt?
      modifies this
      ensures Tracks() && Proceeded(old(s), s) && done == old(done) && |walks| == |old(walks)|
      ensures var b := old(s).frames[|old(s).frames| - 1].bh;
              b.Some? ==>
                var l := Look(b.value, b.value !in old(s).deletedBhs && b.value in old(s).scheduled, s.frames[|s.frames| - 1].BhCall?);
                Mine().looked == old(Mine().looked) + [l]
    {
      hide Valid, AllOnTheWay, Complete;
      ghost var s0 := s;
      WalksMatch(s, walks);
      var p := s.frames[|s.frames| - 1];
      var called := BhStep();
      if p.bh.Some? {
        ghost var b := p.bh.value;
        ghost var l := Look(b, b !in s0.deletedBhs && b in s0.scheduled, called.Some?);
        BhLooked(s0, s, walks, b, l);
        NextDiffers(s0);
        walks := walks[|s.frames| - 1 := walks[|s.frames| - 1].(looked := walks[|s.frames| - 1].looked + [l])];
      } else {
        BhsDone(s0.bhs, s0.handlers, s0.frames, walks, s.frames[|s.frames| - 1]);
        walks := walks[|s.frames| - 1 := walks[|s.frames| - 1].(fds := s.handlers, seen := [])];
      }
    }

    method ProceedSweep()
      requires Tracks() && |s.frames| > 0 && s.frames[|s.frames| - 1].Sweeping?
      modifies this
      ensures Tracks() && Proceeded(old(s), s) && done == old(done)
    {
      hide Valid, AllOnTheWay, Complete;
      ghost var s0 := s;
      WalksMatch(s, walks);
      SweepIsAlone(s);
      TopIsSafe(s);
      SweepStep();
      assert |s.bhs| < |s0.bhs| || s.frames != s0.frames;
      SweptKeeps(s0, s.bhs, walks);
      BhsDone(s.bhs, s.handlers, s0.frames, walks, s.frames[|s.frames| - 1]);
      walks := walks[|s.frames| - 1 := walks[|s.frames| - 1].(fds := s.handlers, seen := [])];
    }

    /** The innermost call looks at a handler, or ends its walk over them. */
    method ProceedFd()
      requires Tracks() && |s.frames| > 0 && s.frames[|s.frames| - 1].FdAt?
      modifies this
      ensures Tracks() && Proceeded(old(s), s) && done == old(done) && |walks| == |old(walks)|
      ensures var n := old(s).frames[|old(s).frames| - 1].node;
              n.Some? ==>
                var l := Look(n.value, n.value !in old(s).deletedFds && (n.value in old(s).readable || n.value in old(s).writable),
                              WalksFds(s.frames[|s.frames| - 1]));
                Mine().seen == old(Mine().seen) + [l]
    {
      hide Valid, AllOnTheWay, Complete, From, After;
      ghost var s0, top := s, |s.frames| - 1;
      WalksMatch(s, walks);
      var p := s.frames[|s.frames| - 1];
      var called := FdStep();
      ghost var w := walks[top];
      TopOnTheWay(s0, walks);
      if p.node.None? {
        FdsDone(s0, w);
        TopMoves(s0.bhs, s0.handlers, s0.frames, walks, Timers, w);
        assert walks[top := w] == walks;
      } else if called.Some? {
        FdLooked(s0, walks, p.node.value, s.frames[top]);
        walks := walks[top := w.(seen := w.seen + [Look(p.node.value, true, true)])];
      } else {
        ghost var n := p.node.value;
        OneMoreLook(w.seen, Look(n, false, false));
        FromHere(s0, n);
        NextDiffers(s0);
        assert Ids(w.seen) + ([n] + After(s0.handlers, n)) == Ids(w.seen) + [n] + After(s0.handlers, n);
        LeftBehind(s0, s, walks, n, s0.walkingHandlers, w.(seen := w.seen + [Look(n, false, false)]));
        walks := walks[top := w.(seen := w.seen + [Look(n, false, false)])];
      }
    }

    /** A callback of the innermost call returns, or the call itself does. */
    method ProceedBack()
      requires Tracks() && |s.frames| > 0 && InCallback(s.frames[|s.frames| - 1])
      modifies this
      ensures Tracks() && Proceeded(old(s), s)
      ensures done == if old(At(Timers)) then old(done) + [old(walks)[|old(s).frames| - 1]] else old(done)
    {
      hide Valid, AllOnTheWay, Complete, From, After;
      ghost var s0, top := s, |s.frames| - 1;
      WalksMatch(s, walks);
      TopOnTheWay(s0, walks);
      var p := s.frames[|s.frames| - 1];
      if p.BhCall? {
        BhReturn();
        TopMoves(s0.bhs, s0.handlers, s0.frames, walks, s.frames[top], walks[top]);
        assert walks[top := walks[top]] == walks;
      } else if p == Timers {
        Exit();
        done := done + [walks[top]];
        Popped(s0, walks);
        walks := walks[..top];
      } else {
        var called := FdReturn();
        if called.Some? {
          TopMoves(s0.bhs, s0.handlers, s0.frames, walks, s.frames[top], walks[top]);
        } else {
          LeftBehind(s0, s, walks, p.id, s0.walkingHandlers - 1, walks[top]);
        }
        assert walks[top := walks[top]] == walks;
      }
    }

    /** The innermost call takes its next step. */
    method Proceed()
      requires Tracks() && |s.frames| > 0
      modifies this
      ensures Tracks() && Proceeded(old(s), s) && old(done) <= done
    {
      hide Valid, AllOnTheWay, Complete, Proceeded;
      match s.frames[|s.frames| - 1]
      case BhAt(_) => ProceedBh();
      case Sweeping(_, _) => ProceedSweep();
      case FdAt(_) => ProceedFd();
      case _ => ProceedBack();
    }

    method Happen(e: Event)
      requires Tracks()
      modifies this
      ensures Tracks() && Happened(old(s), e, s) && old(done) <= done
    {
      hide Valid, AllOnTheWay, Complete, From, After, Proceeded;
      ghost var s0 := s;
      WalksMatch(s, walks);
      match e
      case AddsBh(id) =>
        if id !in s.bhs && (|s.frames| == 0 || !s.frames[|s.frames| - 1].Sweeping?) {
          NewBh(id);
          Prepended(s0, walks, id, true);
        }
      case SchedulesBh(id) =>
        if id in s.bhs {
          ScheduleBh(id);
        }
      case DeletesBh(id) =>
        if id in s.bhs {
          DeleteBh(id);
          DisturbedKeeps(s0, walks);
        }
      case AddsFd(id) =>
        if OwnerActs() && id !in s.handlers {
          AddFd(id);
          Prepended(s0, walks, id, false);
        }
      case DeletesFd(id) =>
        if OwnerActs() && id in s.handlers {
          DeleteFd(id);
          DeletedKeeps(s0, s, walks);
        }
      case Polls(readable, writable) =>
        if OwnerActs() {
          Enter(readable, writable);
          Pushed(s0, walks, BhAt(First(s0.bhs)));
          walks := walks + [Walk(s0.bhs, [], [], [])];
        }
      case Proceeds =>
        if |s.frames| > 0 {
          Proceed();
        }
    }
  }

  lemma WalksMatch(s: State, walks: seq<Walk>)
    requires AllOnTheWay(s.bhs, s.handlers, s.frames, walks)
    ensures |walks| == |s.frames|
  {
  }

  lemma TopOnTheWay(s: State, walks: seq<Walk>)
    requires AllOnTheWay(s.bhs, s.handlers, s.frames, walks) && s.frames != []
    ensures OnTheWay(s.bhs, s.handlers, s.frames[|s.frames| - 1], walks[|s.frames| - 1])
  {
  }

  /** What comes behind an entry is another one. */
  lemma NextDiffers(s: State)
    requires Valid(s)
    ensures forall b, next :: b in s.bhs && Follows(s.bhs, b, next) ==> next != Some(b)
    ensures forall n, next :: n in s.handlers && Follows(s.handlers, n, next) ==> next != Some(n)
  {
    forall b, next | b in s.bhs && Follows(s.bhs, b, next)
      ensures next != Some(b)
    {
      FollowsIsNext(s.bhs, b, next);
      NextIsOther(s.bhs, b);
    }
    forall n, next | n in s.handlers && Follows(s.handlers, n, next)
      ensures next != Some(n)
    {
      FollowsIsNext(s.handlers, n, next);
      NextIsOther(s.handlers, n);
    }
  }

  lemma FdsDone(s: State, w: Walk)
    requires OnTheWay(s.bhs, s.handlers, FdAt(None), w)
    ensures OnTheWay(s.bhs, s.handlers, Timers, w)
  {
    assert Ids(w.seen) + [] == Ids(w.seen);
  }

  lemma SweepIsAlone(s: State)
    requires Valid(s) && |s.frames| > 0 && s.frames[|s.frames| - 1].Sweeping?
    ensures s.walkingBh == 0
  {
  }

  lemma FromHere(s: State, n: Id)
    requires Valid(s) && n in s.handlers
    ensures From(s.handlers, Some(n)) == [n] + After(s.handlers, n)
  {
    FromNext(s.handlers, n);
  }

  lemma Popped(s: State, walks: seq<Walk>)
    requires AllOnTheWay(s.bhs, s.handlers, s.frames, walks) && s.frames != []
    ensures AllOnTheWay(s.bhs, s.handlers, s.frames[..|s.frames| - 1], walks[..|s.frames| - 1])
  {
    hide OnTheWay;
  }

  lemma Pushed(s: State, walks: seq<Walk>, p: Place)
    requires AllOnTheWay(s.bhs, s.handlers, s.frames, walks) && p == BhAt(First(s.bhs))
    ensures AllOnTheWay(s.bhs, s.handlers, s.frames + [p], walks + [Walk(s.bhs, [], [], [])])
  {
    FromFirst(s.bhs);
    assert Ids([]) + s.bhs == s.bhs;
    assert OnTheWay(s.bhs, s.handlers, p, Walk(s.bhs, [], [], []));
    hide OnTheWay;
  }

  lemma Prepended(s: State, walks: seq<Walk>, id: Id, bh: bool)
    requires Valid(s) && AllOnTheWay(s.bhs, s.handlers, s.frames, walks) && id !in if bh then s.bhs else s.handlers
    ensures AllOnTheWay(if bh then [id] + s.bhs else s.bhs, if bh then s.handlers else [id] + s.handlers, s.frames, walks)
  {
    hide From, After;
    FromPrepend(if bh then s.bhs else s.handlers, id);
    var bhs, handlers := if bh then [id] + s.bhs else s.bhs, if bh then s.handlers else [id] + s.handlers;
    forall k | 0 <= k < |s.frames|
      ensures ListsKeep(s.bhs, s.handlers, bhs, handlers, s.frames[k])
    {
      assert Safe(s.bhs, s.handlers, s.frames[k]);
    }
    ListsChange(s.bhs, s.handlers, bhs, handlers, s.frames, walks);
  }

  lemma DisturbedKeeps(s: State, walks: seq<Walk>)
    requires AllOnTheWay(s.bhs, s.handlers, s.frames, walks)
    ensures AllOnTheWay(s.bhs, s.handlers, Disturbed(s.frames), walks)
  {
    hide From, After, Ids, Heeded;
    if s.frames != [] {
      var top := |s.frames| - 1;
      assert OnTheWay(s.bhs, s.handlers, s.frames[top], walks[top]);
      assert walks[top := walks[top]] == walks && s.frames[top := s.frames[top]] == s.frames;
      TopMoves(s.bhs, s.handlers, s.frames, walks, Disturbed(s.frames)[top], walks[top]);
    }
  }

  /** A handler is freed at once only if no call is at one. */
  lemma DeletedKeeps(s: State, s': State, walks: seq<Walk>)
    requires Valid(s) && AllOnTheWay(s.bhs, s.handlers, s.frames, walks) && s'.frames == s.frames && s'.bhs == s.bhs
    requires s.frames == [] || InCallback(s.frames[|s.frames| - 1])
    requires s.walkingHandlers > 0 ==> s'.handlers == s.handlers
    ensures AllOnTheWay(s'.bhs, s'.handlers, s'.frames, walks)
  {
    hide From, After;
    if s.walkingHandlers == 0 {
      CountNone(s.frames, true);
      forall k | 0 <= k < |s.frames|
        ensures ListsKeep(s.bhs, s.handlers, s'.bhs, s'.handlers, s.frames[k])
      {
        assert InCallback(s.frames[k]);
      }
      ListsChange(s.bhs, s.handlers, s'.bhs, s'.handlers, s.frames, walks);
    }
  }

  /** All that can happen. */
  datatype Event =
    | AddsBh(id: Id)
    | SchedulesBh(id: Id)
    | DeletesBh(id: Id)
    | AddsFd(id: Id)
    | DeletesFd(id: Id)
    | Polls(readable: set<Id>, writable: set<Id>)
    | Proceeds

  /** The innermost call has moved, returned, or taken an entry off a list. */
  ghost predicate Proceeded(s: State, s': State)
  {
    |s.frames| > 0 && s' != s && if s.frames[|s.frames| - 1] == Timers then s'.frames == s.frames[..|s.frames| - 1] else TopOnly(s, s')
  }

  predicate CanAct(s: State)
  {
    |s.frames| == 0 || InCallback(s.frames[|s.frames| - 1])
  }

  /** What an event does, if it can happen. */
  ghost predicate Happened(s: State, e: Event, s': State)
  {
    match e
    case AddsBh(id) =>
      s' == if id !in s.bhs && (|s.frames| == 0 || !s.frames[|s.frames| - 1].Sweeping?)
            then s.(bhs := [id] + s.bhs, deletedBhs := s.deletedBhs - {id}, scheduled := s.scheduled - {id}, freedBhs := s.freedBhs - {id})
            else s
    case SchedulesBh(id) =>
      s' == if id in s.bhs then s.(scheduled := s.scheduled + {id}) else s
    case DeletesBh(id) =>
      s' == if id in s.bhs
            then s.(deletedBhs := s.deletedBhs + {id}, scheduled := s.scheduled - {id}, frames := Disturbed(s.frames))
            else s
    case AddsFd(id) =>
      s' == if CanAct(s) && id !in s.handlers
            then s.(handlers := [id] + s.handlers, deletedFds := s.deletedFds - {id}, readable := s.readable - {id},
                    writable := s.writable - {id}, freedFds := s.freedFds - {id})
            else s
    case DeletesFd(id) =>
      s' == if !CanAct(s) || id !in s.handlers then s
            else if s.walkingHandlers > 0
            then s.(deletedFds := s.deletedFds + {id}, readable := s.readable - {id}, writable := s.writable - {id})
            else s.(handlers := Without(s.handlers, id), freedFds := s.freedFds + {id})
    case Polls(readable, writable) =>
      s' == if CanAct(s)
            then s.(readable := readable, writable := writable, walkingBh := s.walkingBh + 1, frames := s.frames + [BhAt(First(s.bhs))])
            else s
    case Proceeds =>
      if |s.frames| > 0 then Proceeded(s, s') else s' == s
  }

  /**
   Every run: in each of its states no call of aio_dispatch, however deeply nested, holds on to a freed
   entry, and each call that has returned has looked at every entry of the lists it found, in order, and
   called just those that were to be called.
   */
  method Run(events: seq<Event>) returns (ctx: AioContext, ghost states: seq<State>)
    ensures |states| == |events| + 1 && states[0] == START && states[|events|] == ctx.s
    ensures forall i :: 0 <= i <= |events| ==> Valid(states[i])
    ensures forall i :: 0 <= i < |events| ==> Happened(states[i], events[i], states[i + 1])
    ensures ctx.Tracks() && forall w :: w in ctx.done ==> Complete(w)
  {
    hide Valid, AllOnTheWay, Complete, Happened;
    ctx := new AioContext();
    states := [ctx.s];
    for i := 0 to |events|
      invariant fresh(ctx) && ctx.Tracks() && |states| == i + 1 && states[0] == START && states[i] == ctx.s
      invariant forall k :: 0 <= k <= i ==> Valid(states[k])
      invariant forall k :: 0 <= k < i ==> Happened(states[k], events[k], states[k + 1])
    {
      ctx.Happen(events[i]);
      states := states + [ctx.s];
    }
  }
}
