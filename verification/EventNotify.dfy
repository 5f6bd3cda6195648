/**
 Waking up the event loop (async.c, aio-posix.c): bottom halves are scheduled by any thread while the loop
 decides whether it may block.  Every access to a shared variable is a step of its own; steps of all threads
 interleave in any order.
 */
module EventNotify {

  type Bh = nat

  /** Where a thread is in qemu_bh_schedule: before it, past the test, past the store, past the load of `dispatching`. */
  datatype Scheduler = Outside | Tested(bh: Bh) | Stored(bh: Bh) | Loaded(bh: Bh)

  /** How long a poll may last: not at all or for some time, or until something happens. */
  datatype Timeout = Finite | Infinite

  /** Where a call of aio_poll is; `Scanning(i)` has still to look at the first `i` bottom halves. */
  datatype Place =
    | Entered
    | Filling
    | Scanning(i: nat)
    | Polling(timeout: Timeout)
    | Returned
    | Walking(i: nat)
    | Handling

  /** A call of aio_poll, with the value of `dispatching` it found. */
  datatype Frame = Frame(was: bool, blocking: bool, place: Place)

  /** Only in these places can a callback be running, and with it a nested call. */
  predicate InCallback(p: Place)
  {
    p.Walking? || p.Handling?
  }

  /** The places from which the loop may go to sleep without looking at `bh` again. */
  predicate MayOversleep(p: Place, bh: Bh)
  {
    (p.Scanning? && p.i <= bh) || p == Polling(Infinite)
  }

  /** The thread is between storing `scheduled` of `bh` and the end of aio_notify. */
  predicate StillNotifying(s: Scheduler, bh: Bh)
  {
    s == Stored(bh) || s == Loaded(bh)
  }

  ghost predicate SomeoneNotifies(threads: seq<Scheduler>, bh: Bh)
  {
    exists t :: 0 <= t < |threads| && StillNotifying(threads[t], bh)
  }

  /**
   Everything the threads share, and where each of them is.  `ran` are the bottom halves whose callbacks have
   been run, and `taken` those that have been cancelled or deleted, in order.
   */
  datatype Loop = Loop(
    scheduled: seq<bool>, deleted: seq<bool>, dispatching: bool, notifier: bool,
    threads: seq<Scheduler>, frames: seq<Frame>, ran: seq<Bh>, taken: seq<Bh>)
  {
    ghost predicate Live(bh: Bh)
    {
      bh < |scheduled| == |deleted| && !deleted[bh] && scheduled[bh]
    }

    ghost predicate Top(p: Place)
    {
      |frames| > 0 && frames[|frames| - 1].place == p
    }

    /** A scheduled bottom half will be noticed. */
    ghost predicate Noticed()
    {
      |frames| > 0 ==>
        forall bh: Bh :: Live(bh) && MayOversleep(frames[|frames| - 1].place, bh) ==> notifier || SomeoneNotifies(threads, bh)
    }

    /** `dispatching` is off while a blocking poll is under way, and on while callbacks run. */
    ghost predicate Switched()
    {
      && (forall k :: 0 <= k < |frames| - 1 ==> InCallback(frames[k].place))
      && (forall k :: 0 < k < |frames| ==> frames[k].was)
      && (|frames| > 0 ==> match frames[|frames| - 1].place
            case Entered => |frames| > 1 ==> dispatching
            case Filling => dispatching == !frames[|frames| - 1].blocking
            case Scanning(_) => !dispatching && frames[|frames| - 1].blocking
            case Polling(t) => dispatching == !frames[|frames| - 1].blocking && (t == Infinite ==> !dispatching)
            case Returned => true
            case Walking(_) => dispatching
            case Handling => dispatching)
    }

    ghost predicate Valid()
    {
      |scheduled| == |deleted| && Noticed() && Switched()
    }

    /** The loop is asleep and only its notifier or a file descriptor can wake it. */
    ghost predicate Asleep()
    {
      Top(Polling(Infinite)) && !notifier
    }
  }

  /** The innermost aio_poll goes to another place. */
  function To(s: Loop, p: Place): Loop
    requires |s.frames| > 0
  {
    var top := |s.frames| - 1;
    s.(frames := s.frames[top := s.frames[top].(place := p)])
  }

  /** The innermost aio_poll one step further; `choice` is what timers, file descriptors and handlers decide. */
  ghost function Proceeded(s: Loop, choice: bool): Loop
    requires |s.frames| > 0
  {
    var top := |s.frames| - 1;
    var f := s.frames[top];
    match f.place
    case Entered => To(s, Filling).(dispatching := !f.blocking)
    case Filling => To(s, if f.blocking then Scanning(|s.scheduled|) else Polling(Finite))
    case Scanning(i) =>
      To(s, if i == 0 then Polling(if choice then Finite else Infinite) else if s.Live(i - 1) then Polling(Finite) else Scanning(i - 1))
    case Polling(t) => if t == Finite || s.notifier || choice then To(s, Returned) else s
    case Returned => To(s, Walking(|s.scheduled|)).(dispatching := true)
    case Walking(i) =>
      if i == 0 then To(s, Handling)
      else if s.Live(i - 1) then To(s, Walking(i - 1)).(scheduled := s.scheduled[i - 1 := false], ran := s.ran + [i - 1])
      else To(s, Walking(i - 1))
    case Handling =>
      if choice then s.(notifier := false) else s.(dispatching := f.was, frames := s.frames[..top])
  }

  /** What an event does, if it can happen. */
  ghost function Happened(s: Loop, e: Event): Loop
  {
    match e
    case NewBh => s.(scheduled := s.scheduled + [false], deleted := s.deleted + [false])
    case Test(t, bh) =>
      if t < |s.threads| && s.threads[t] == Outside && bh < |s.scheduled| && !s.scheduled[bh]
      then s.(threads := s.threads[t := Tested(bh)]) else s
    case Store(t) =>
      if t < |s.threads| && s.threads[t].Tested? && s.threads[t].bh < |s.scheduled|
      then s.(scheduled := s.scheduled[s.threads[t].bh := true], threads := s.threads[t := Stored(s.threads[t].bh)]) else s
    case Load(t) =>
      if t < |s.threads| && s.threads[t].Stored?
      then s.(threads := s.threads[t := if s.dispatching then Outside else Loaded(s.threads[t].bh)]) else s
    case Set(t) =>
      if t < |s.threads| && s.threads[t].Loaded?
      then s.(notifier := true, threads := s.threads[t := Outside]) else s
    case Cancel(bh) =>
      if bh < |s.scheduled| then s.(scheduled := s.scheduled[bh := false], taken := s.taken + [bh]) else s
    case Delete(bh) =>
      if bh < |s.scheduled| == |s.deleted|
      then s.(scheduled := s.scheduled[bh := false], deleted := s.deleted[bh := true], taken := s.taken + [bh]) else s
    case Call(blocking) =>
      if |s.frames| == 0 || InCallback(s.frames[|s.frames| - 1].place)
      then s.(frames := s.frames + [Frame(s.dispatching, blocking, Entered)]) else s
    case Proceed(choice) =>
      if |s.frames| > 0 then Proceeded(s, choice) else s
  }

  /** No wake-up is lost: a sleeping loop has no live bottom half scheduled, unless its scheduler is about to notify. */
  lemma NoLostWakeup(s: Loop, bh: Bh)
    requires s.Valid() && s.Asleep() && s.Live(bh)
    ensures SomeoneNotifies(s.threads, bh)
  {
    assert MayOversleep(s.frames[|s.frames| - 1].place, bh);
  }

  /** A step of one thread does not stop another from notifying. */
  lemma OthersNotify(threads: seq<Scheduler>, t: nat, x: Scheduler, bh: Bh)
    requires t < |threads| && SomeoneNotifies(threads, bh)
    requires StillNotifying(threads[t], bh) ==> StillNotifying(x, bh)
    ensures SomeoneNotifies(threads[t := x], bh)
  {
    var u :| 0 <= u < |threads| && StillNotifying(threads[u], bh);
    assert StillNotifying(threads[t := x][u], bh);
  }

  lemma StillNotified(threads: seq<Scheduler>, t: nat, x: Scheduler)
    requires t < |threads| && forall bh: Bh :: StillNotifying(threads[t], bh) ==> StillNotifying(x, bh)
    ensures forall bh: Bh :: SomeoneNotifies(threads, bh) ==> SomeoneNotifies(threads[t := x], bh)
  {
    forall bh: Bh | SomeoneNotifies(threads, bh)
      ensures SomeoneNotifies(threads[t := x], bh)
    {
      OthersNotify(threads, t, x, bh);
    }
  }

  /** All that can happen. */
  datatype Event =
    | NewBh
    | Test(t: nat, bh: Bh)
    | Store(t: nat)
    | Load(t: nat)
    | Set(t: nat)
    | Cancel(bh: Bh)
    | Delete(bh: Bh)
    | Call(blocking: bool)
    | Proceed(choice: bool)

  class AioContext {
    var s: Loop

    constructor (threads: nat, dispatching: bool)
      ensures s.Valid() && s.frames == [] && s.dispatching == dispatching && s.ran == [] && s.taken == []
    {
      s := Loop([], [], dispatching, false, seq(threads, _ => Outside), [], [], []);
    }

    /** qemu_bh_schedule: a bottom half that is scheduled already is left alone. */
    method TestStep(t: nat, bh: Bh)
      requires s.Valid() && t < |s.threads| && s.threads[t] == Outside && bh < |s.scheduled|
      modifies this
      ensures s.Valid()
      ensures s == if old(s).scheduled[bh] then old(s) else old(s).(threads := old(s).threads[t := Tested(bh)])
    {
      if !s.scheduled[bh] {
        StillNotified(s.threads, t, Tested(bh));
        ghost var s0 := s;
        s := s.(threads := s.threads[t := Tested(bh)]);
        assert forall b: Bh :: s.Live(b) ==> s0.Live(b);
      }
    }

    /** qemu_bh_schedule: `bh->scheduled = 1` */
    method StoreStep(t: nat)
      requires s.Valid() && t < |s.threads| && s.threads[t].Tested? && s.threads[t].bh < |s.scheduled|
      modifies this
      ensures s.Valid()
      ensures var bh := old(s).threads[t].bh;
              s == old(s).(scheduled := old(s).scheduled[bh := true], threads := old(s).threads[t := Stored(bh)])
    {
      var x := Stored(s.threads[t].bh);
      StillNotified(s.threads, t, x);
      ghost var s0 := s;
      s := s.(scheduled := s.scheduled[x.bh := true], threads := s.threads[t := x]);
      assert StillNotifying(s.threads[t], x.bh);
      assert forall b: Bh :: s.Live(b) && b != x.bh ==> s0.Live(b);
    }

    /** aio_notify: the load of `dispatching` */
    method LoadStep(t: nat)
      requires s.Valid() && t < |s.threads| && s.threads[t].Stored?
      modifies this
      ensures s.Valid()
      ensures s == old(s).(threads := old(s).threads[t := if old(s).dispatching then Outside else Loaded(old(s).threads[t].bh)])
    {
      ghost var s0 := s;
      if s.dispatching {
        s := s.(threads := s.threads[t := Outside]);
      } else {
        StillNotified(s.threads, t, Loaded(s.threads[t].bh));
        s := s.(threads := s.threads[t := Loaded(s.threads[t].bh)]);
      }
      assert forall b: Bh :: s.Live(b) ==> s0.Live(b);
    }

    /** aio_notify: event_notifier_set */
    method SetStep(t: nat)
      requires s.Valid() && t < |s.threads| && s.threads[t].Loaded?
      modifies this
      ensures s.Valid() && s == old(s).(notifier := true, threads := old(s).threads[t := Outside])
    {
      s := s.(notifier := true, threads := s.threads[t := Outside]);
    }

    /** aio_bh_new */
    method AddBh()
      requires s.Valid()
      modifies this
      ensures s.Valid() && s == old(s).(scheduled := old(s).scheduled + [false], deleted := old(s).deleted + [false])
    {
      ghost var s0 := s;
      s := s.(scheduled := s.scheduled + [false], deleted := s.deleted + [false]);
      assert forall b: Bh :: s.Live(b) ==> s0.Live(b);
    }

    /** qemu_bh_cancel and qemu_bh_delete, by any thread. */
    method TakeBack(bh: Bh, delete: bool)
      requires s.Valid() && bh < |s.scheduled|
      modifies this
      ensures s.Valid()
      ensures s == old(s).(scheduled := old(s).scheduled[bh := false], taken := old(s).taken + [bh],
                           deleted := if delete then old(s).deleted[bh := true] else old(s).deleted)
    {
      ghost var s0 := s;
      s := s.(scheduled := s.scheduled[bh := false], taken := s.taken + [bh],
              deleted := if delete then s.deleted[bh := true] else s.deleted);
      assert forall b: Bh :: s.Live(b) ==> s0.Live(b);
    }

    /** aio_poll is called, by the owner of the context outside of it or from one of its callbacks. */
    method Enter(blocking: bool)
      requires s.Valid() && (|s.frames| > 0 ==> InCallback(s.frames[|s.frames| - 1].place))
      modifies this
      ensures s.Valid() && s == old(s).(frames := old(s).frames + [Frame(old(s).dispatching, blocking, Entered)])
    {
      s := s.(frames := s.frames + [Frame(s.dispatching, blocking, Entered)]);
    }

    /** The innermost aio_poll up to the return of the poll; `finite` is what timers and file descriptors decide. */
    method Poll(finite: bool)
      requires s.Valid() && |s.frames| > 0 && !InCallback(s.frames[|s.frames| - 1].place)
      modifies this
      ensures s.Valid() && s == Proceeded(old(s), finite)
      ensures old(s).frames[|old(s).frames| - 1].place.Polling? && old(s).notifier ==> s.Top(Returned)
    {
      var f := s.frames[|s.frames| - 1];
      match f.place
      case Entered =>
        // aio_set_dispatching(ctx, !blocking)
        s := To(s, Filling).(dispatching := !f.blocking);
      case Filling =>
        // pollfds are filled; aio_compute_timeout loads first_bh if the poll blocks
        s := To(s, if f.blocking then Scanning(|s.scheduled|) else Polling(Finite));
      case Scanning(i) =>
        Scan(i, finite);
      case Polling(timeout) =>
        if timeout == Finite || s.notifier || finite {
          s := To(s, Returned);
        }
      case Returned =>
        // aio_set_dispatching(ctx, true); then aio_bh_poll loads first_bh
        s := To(s, Walking(|s.scheduled|)).(dispatching := true);
    }

    /** aio_compute_timeout, one bottom half at a time; at the end timers may still limit the timeout. */
    method Scan(i: nat, finite: bool)
      requires s.Valid() && s.Top(Scanning(i))
      modifies this
      ensures s.Valid() && s == Proceeded(old(s), finite)
    {
      if i > 0 && i <= |s.scheduled| && !s.deleted[i - 1] && s.scheduled[i - 1] {
        s := To(s, Polling(Finite));
      } else if i > 0 {
        s := To(s, Scanning(i - 1));
      } else {
        s := To(s, Polling(if finite then Finite else Infinite));
      }
    }

    /** aio_bh_poll looks at one bottom half; its callback, if it is run, may do any of the other steps. */
    method Walk(i: nat)
      requires s.Valid() && s.Top(Walking(i))
      modifies this
      ensures s.Valid() && s == Proceeded(old(s), false)
    {
      if i == 0 {
        s := To(s, Handling);
      } else {
        var run := i <= |s.scheduled| && !s.deleted[i - 1] && s.scheduled[i - 1];
        s := To(s, Walking(i - 1));
        if run {
          s := s.(scheduled := s.scheduled[i - 1 := false], ran := s.ran + [i - 1]);
        }
      }
    }

    /** The handlers: that of the notifier clears it; in the end aio_poll restores `dispatching` and returns. */
    method Handle(clear: bool)
      requires s.Valid() && s.Top(Handling)
      modifies this
      ensures s.Valid() && s == Proceeded(old(s), clear)
    {
      if clear {
        s := s.(notifier := false);
      } else {
        var top := |s.frames| - 1;
        s := s.(dispatching := s.frames[top].was, frames := s.frames[..top]);
      }
    }

    /** One event, if it can happen. */
    method Happen(e: Event)
      requires s.Valid()
      modifies this
      ensures s.Valid() && s == Happened(old(s), e)
    {
      match e
      case Call(blocking) =>
        if |s.frames| == 0 || InCallback(s.frames[|s.frames| - 1].place) {
          Enter(blocking);
        }
      case Proceed(choice) =>
        if |s.frames| > 0 {
          match s.frames[|s.frames| - 1].place
          case Walking(i) => Walk(i);
          case Handling => Handle(choice);
          case _ => Poll(choice);
        }
      case NewBh =>
        AddBh();
      case Cancel(bh) =>
        if bh < |s.scheduled| {
          TakeBack(bh, false);
        }
      case Delete(bh) =>
        if bh < |s.scheduled| {
          TakeBack(bh, true);
        }
      case Test(t, bh) =>
        if t < |s.threads| && s.threads[t] == Outside && bh < |s.scheduled| {
          TestStep(t, bh);
        }
      case Store(t) =>
        if t < |s.threads| && s.threads[t].Tested? && s.threads[t].bh < |s.scheduled| {
          StoreStep(t);
        }
      case Load(t) =>
        if t < |s.threads| && s.threads[t].Stored? {
          LoadStep(t);
        }
      case Set(t) =>
        if t < |s.threads| && s.threads[t].Loaded? {
          SetStep(t);
        }
    }
  }

  /** Outside of all calls `dispatching` is `d`, and the outermost call will set it to that again. */
  ghost predicate Restores(s: Loop, d: bool)
  {
    if s.frames == [] then s.dispatching == d else s.frames[0].was == d
  }

  lemma StillRestores(s: Loop, e: Event, d: bool)
    requires Restores(s, d)
    ensures Restores(Happened(s, e), d)
  {
    hide Proceeded;
    if e.Proceed? && |s.frames| > 0 {
      FramesStep(s, e.choice, Proceeded(s, e.choice));
      if |Proceeded(s, e.choice).frames| < |s.frames| {
        LeavesAsFound(s, e.choice, Proceeded(s, e.choice));
      }
    }
  }

  lemma LeavesAsFound(s: Loop, choice: bool, s': Loop)
    requires |s.frames| > 0 && s' == Proceeded(s, choice) && |s'.frames| < |s.frames|
    ensures s'.dispatching == s.frames[|s.frames| - 1].was
  {
    hide Loop.Live;
  }

  /** Every state of every run: no wake-up is lost, and between calls `dispatching` is what it was in the beginning. */
  method Run(threads: nat, dispatching: bool, events: seq<Event>) returns (ctx: AioContext, ghost states: seq<Loop>)
    ensures |states| == |events| + 1 && states[|events|] == ctx.s
    ensures forall i :: 0 <= i < |events| ==> states[i + 1] == Happened(states[i], events[i])
    ensures forall i :: 0 <= i <= |events| ==> states[i].Valid() && NoneOverslept(states[i]) && Restores(states[i], dispatching)
  {
    hide Happened, NoneOverslept, Loop.Valid;
    ctx := new AioContext(threads, dispatching);
    states := [ctx.s];
    NoneIsOverslept(ctx.s);
    for i := 0 to |events|
      invariant fresh(ctx) && ctx.s.Valid() && |states| == i + 1 && states[i] == ctx.s
      invariant forall k :: 0 <= k < i ==> states[k + 1] == Happened(states[k], events[k])
      invariant forall k :: 0 <= k <= i ==> states[k].Valid() && NoneOverslept(states[k]) && Restores(states[k], dispatching)
    {
      StillRestores(ctx.s, events[i], dispatching);
      ctx.Happen(events[i]);
      NoneIsOverslept(ctx.s);
      states := states + [ctx.s];
    }
  }

  /** While the loop is asleep, whoever has scheduled a live bottom half is about to notify. */
  ghost predicate NoneOverslept(s: Loop)
  {
    s.Asleep() ==> forall bh: Bh :: s.Live(bh) ==> SomeoneNotifies(s.threads, bh)
  }

  lemma NoneIsOverslept(s: Loop)
    requires s.Valid()
    ensures NoneOverslept(s)
  {
    if s.Asleep() {
      forall bh: Bh | s.Live(bh)
        ensures SomeoneNotifies(s.threads, bh)
      {
        NoLostWakeup(s, bh);
      }
    }
  }

  // ---------------------------------------------------------------- after the wake-up

  /** Since `s0`, the callback of `bh` has been run or `bh` has been taken back. */
  ghost predicate Served(s0: Loop, s: Loop, bh: Bh)
  {
    (|s0.ran| <= |s.ran| && bh in s.ran[|s0.ran|..]) || (|s0.taken| <= |s.taken| && bh in s.taken[|s0.taken|..])
  }

  /**
   Call `f` of aio_poll is past its poll.  What was live at `s0` is live or served, and what the walk of `f`
   has passed is served.
   */
  ghost predicate Serving(s0: Loop, s: Loop, f: nat)
  {
    && s0.ran <= s.ran && s0.taken <= s.taken && |s0.scheduled| <= |s.scheduled| == |s.deleted|
    && (forall bh: Bh :: s0.Live(bh) ==> s.Live(bh) || Served(s0, s, bh))
    && f < |s.frames|
    && match s.frames[f].place
       case Polling(_) => true
       case Returned => true
       case Walking(i) => forall bh: Bh :: s0.Live(bh) && i <= bh ==> Served(s0, s, bh)
       case Handling => forall bh: Bh :: s0.Live(bh) ==> Served(s0, s, bh)
       case _ => false
  }

  lemma ServedStill(s0: Loop, s: Loop, s': Loop)
    requires s0.ran <= s.ran <= s'.ran && s0.taken <= s.taken <= s'.taken
    ensures forall bh: Bh :: Served(s0, s, bh) ==> Served(s0, s', bh)
  {
    assert s.ran[|s0.ran|..] <= s'.ran[|s0.ran|..];
    assert s.taken[|s0.taken|..] <= s'.taken[|s0.taken|..];
  }

  /** A bottom half stays live until it is run or taken back. */
  lemma LiveUntil(s: Loop, e: Event, s': Loop, bh: Bh)
    requires s' == Happened(s, e) && s.Live(bh)
    ensures s'.Live(bh) || s'.ran == s.ran + [bh] || s'.taken == s.taken + [bh]
  {
    hide Proceeded;
    if e.Proceed? && |s.frames| > 0 {
      LiveThroughStep(s, e.choice, s', bh);
    }
  }

  lemma LiveThroughStep(s: Loop, choice: bool, s': Loop, bh: Bh)
    requires |s.frames| > 0 && s' == Proceeded(s, choice) && s.Live(bh)
    ensures s'.Live(bh) || s'.ran == s.ran + [bh]
  {
    match s.frames[|s.frames| - 1].place
    case Walking(i) =>
    case _ =>
  }

  lemma OnlyGrows(s: Loop, e: Event, s': Loop)
    requires s' == Happened(s, e) && |s.scheduled| == |s.deleted|
    ensures s.ran <= s'.ran && s.taken <= s'.taken && |s.scheduled| <= |s'.scheduled| == |s'.deleted|
  {
  }

  lemma LiveOrServed(s0: Loop, s: Loop, e: Event, s': Loop, bh: Bh)
    requires s0.ran <= s.ran && s0.taken <= s.taken && s' == Happened(s, e) && s.Live(bh)
    ensures s'.Live(bh) || Served(s0, s', bh)
  {
    hide Happened;
    LiveUntil(s, e, s', bh);
    if s'.ran == s.ran + [bh] {
      assert s'.ran[|s.ran|] == bh;
    }
    if s'.taken == s.taken + [bh] {
      assert s'.taken[|s.taken|] == bh;
    }
  }

  /** Where a call that is not yet at its handlers is after an event. */
  lemma FrameAfter(s: Loop, f: nat, e: Event, s': Loop)
    requires s' == Happened(s, e) && f < |s.frames| && s.frames[f].place != Handling
    ensures f < |s'.frames|
    ensures var p, p' := s.frames[f].place, s'.frames[f].place;
            p' == p || (f == |s.frames| - 1 && match p
              case Polling(_) => p' == Returned
              case Returned => p' == Walking(|s.scheduled|)
              case Walking(i) => (if i == 0 then p' == Handling else p' == Walking(i - 1) && !s'.Live(i - 1))
              case _ => true)
  {
    hide Proceeded;
    if e.Proceed? {
      FrameStep(s, e.choice, s', f);
    }
  }

  /** A step moves the innermost call only, or ends it. */
  lemma FramesStep(s: Loop, choice: bool, s': Loop)
    requires |s.frames| > 0 && s' == Proceeded(s, choice)
    ensures var top := |s.frames| - 1;
            || (s.frames[top].place == Handling && s'.frames == s.frames[..top])
            || (|s'.frames| == |s.frames| && s'.frames == s.frames[top := s.frames[top].(place := s'.frames[top].place)])
  {
    hide Loop.Live;
  }

  lemma FrameStep(s: Loop, choice: bool, s': Loop, f: nat)
    requires f < |s.frames| && s.frames[f].place != Handling && s' == Proceeded(s, choice)
    ensures f < |s'.frames| && (f < |s.frames| - 1 ==> s'.frames[f] == s.frames[f])
    ensures var p, p' := s.frames[f].place, s'.frames[f].place;
            f == |s.frames| - 1 ==> match p
              case Polling(_) => p' == p || p' == Returned
              case Returned => p' == Walking(|s.scheduled|)
              case Walking(i) => (if i == 0 then p' == Handling else p' == Walking(i - 1) && !s'.Live(i - 1))
              case _ => true
  {
    FramesStep(s, choice, s');
    if f < |s.frames| - 1 {
      hide Proceeded;
    }
  }

  /** Call `f` goes on serving through every event, until it has come to its handlers. */
  lemma StillServing(s0: Loop, s: Loop, f: nat, e: Event, s': Loop)
    requires Serving(s0, s, f) && s.frames[f].place != Handling && s' == Happened(s, e)
    ensures Serving(s0, s', f)
  {
    hide Served, Happened;
    OnlyGrows(s, e, s');
    ServedStill(s0, s, s');
    forall bh: Bh | s0.Live(bh)
      ensures s'.Live(bh) || Served(s0, s', bh)
    {
      if s.Live(bh) {
        LiveOrServed(s0, s, e, s', bh);
      }
    }
    FrameAfter(s, f, e, s');
  }

  predicate ByOthers(e: Event)
  {
    !e.Call? && !e.Proceed?
  }

  /** Steps of other threads, as many as there are. */
  method Others(ctx: AioContext, ghost s0: Loop, f: nat, events: seq<Event>)
    requires ctx.s.Valid() && Serving(s0, ctx.s, f) && ctx.s.frames[f].place != Handling
    modifies ctx
    ensures ctx.s.Valid() && Serving(s0, ctx.s, f) && ctx.s.frames == old(ctx.s).frames
    ensures old(ctx.s).notifier ==> ctx.s.notifier
  {
    assert f < |ctx.s.frames|;
    hide Serving, Loop.Valid;
    for i := 0 to |events|
      invariant ctx.s.Valid() && Serving(s0, ctx.s, f) && ctx.s.frames == old(ctx.s).frames
      invariant f < |ctx.s.frames| && ctx.s.frames[f].place != Handling
      invariant old(ctx.s).notifier ==> ctx.s.notifier
    {
      if ByOthers(events[i]) {
        StillServing(s0, ctx.s, f, events[i], Happened(ctx.s, events[i]));
        ctx.Happen(events[i]);
      }
    }
  }

  function Stage(p: Place): nat
  {
    match p
    case Polling(_) => 2
    case Returned => 1
    case _ => 0
  }

  function ToWalk(p: Place): nat
  {
    match p
    case Walking(i) => i + 1
    case _ => 0
  }

  /**
   A call of aio_poll whose notifier is set, or whose timeout is limited, comes to its handlers, whatever the
   other threads do meanwhile.  By then every bottom half that was live has been run or taken back.
   */
  method Serve(ctx: AioContext, others: nat -> seq<Event>, choices: nat -> bool)
    requires ctx.s.Valid() && |ctx.s.frames| > 0 && ctx.s.frames[|ctx.s.frames| - 1].place.Polling?
    requires ctx.s.notifier || ctx.s.Top(Polling(Finite))
    modifies ctx
    ensures ctx.s.Valid() && ctx.s.Top(Handling) && |ctx.s.frames| == |old(ctx.s).frames|
    ensures old(ctx.s).ran <= ctx.s.ran && old(ctx.s).taken <= ctx.s.taken
    ensures forall bh: Bh :: old(ctx.s).Live(bh) ==>
              bh in ctx.s.ran[|old(ctx.s).ran|..] || bh in ctx.s.taken[|old(ctx.s).taken|..]
  {
    var f := |ctx.s.frames| - 1;
    ghost var s0 := ctx.s;
    var k := 0;
    while ctx.s.frames[f].place != Handling
      invariant ctx.s.Valid() && |ctx.s.frames| == f + 1 && Serving(s0, ctx.s, f)
      invariant ctx.s.frames[f].place.Polling? ==> ctx.s.notifier || ctx.s.frames[f].place.timeout == Finite
      decreases Stage(ctx.s.frames[f].place), ToWalk(ctx.s.frames[f].place)
    {
      Others(ctx, s0, f, others(k));
      StillServing(s0, ctx.s, f, Proceed(choices(k)), Happened(ctx.s, Proceed(choices(k))));
      ctx.Happen(Proceed(choices(k)));
      k := k + 1;
    }
  }

  /** In any run, with callbacks that start calls of their own, a call that comes to its handlers has served what was live at its poll. */
  method ServeNested(ctx: AioContext, f: nat, events: seq<Event>) returns (served: bool)
    requires ctx.s.Valid() && f < |ctx.s.frames| && ctx.s.frames[f].place.Polling?
    modifies ctx
    ensures ctx.s.Valid() && old(ctx.s).ran <= ctx.s.ran && old(ctx.s).taken <= ctx.s.taken && f < |ctx.s.frames|
    ensures served <==> ctx.s.frames[f].place == Handling
    ensures served ==> forall bh: Bh :: old(ctx.s).Live(bh) ==>
              bh in ctx.s.ran[|old(ctx.s).ran|..] || bh in ctx.s.taken[|old(ctx.s).taken|..]
  {
    ghost var s0 := ctx.s;
    var i := 0;
    while i < |events| && ctx.s.frames[f].place != Handling
      invariant ctx.s.Valid() && Serving(s0, ctx.s, f)
    {
      StillServing(s0, ctx.s, f, events[i], Happened(ctx.s, events[i]));
      ctx.Happen(events[i]);
      i := i + 1;
    }
    served := ctx.s.frames[f].place == Handling;
  }

  /**
   The thread that is about to notify a sleeping loop does wake it: it finds `dispatching` off and sets the
   notifier, and the loop then runs every bottom half that was live, unless it is taken back before.
   */
  method WakeUp(ctx: AioContext, t: nat, others: nat -> seq<Event>, choices: nat -> bool)
    requires ctx.s.Valid() && ctx.s.Asleep() && t < |ctx.s.threads| && ctx.s.threads[t].Stored?
    modifies ctx
    ensures ctx.s.Valid() && ctx.s.Top(Handling) && |ctx.s.frames| == |old(ctx.s).frames|
    ensures old(ctx.s).ran <= ctx.s.ran && old(ctx.s).taken <= ctx.s.taken
    ensures forall bh: Bh :: old(ctx.s).Live(bh) ==>
              bh in ctx.s.ran[|old(ctx.s).ran|..] || bh in ctx.s.taken[|old(ctx.s).taken|..]
  {
    ghost var s0 := ctx.s;
    ctx.LoadStep(t);
    ctx.SetStep(t);
    assert forall bh: Bh :: s0.Live(bh) ==> ctx.s.Live(bh);
    Serve(ctx, others, choices);
  }

  /** Alone, a blocking call goes to sleep without limit exactly if no bottom half is live and no timer limits it. */
  method Block(ctx: AioContext, timers: bool)
    requires ctx.s.Valid() && ctx.s.Top(Entered) && ctx.s.frames[|ctx.s.frames| - 1].blocking
    modifies ctx
    ensures ctx.s.Valid() && |ctx.s.frames| == |old(ctx.s).frames|
    ensures ctx.s.Top(Polling(if timers || exists bh: Bh :: old(ctx.s).Live(bh) then Finite else Infinite))
  {
    hide Proceeded, Loop.Valid;
    ghost var s0 := ctx.s;
    ctx.Poll(timers);
    ScanBegins(s0, ctx.s, timers);
    ctx.Poll(timers);
    var i: nat := |ctx.s.scheduled|;
    while i > 0 && ctx.s.frames[|ctx.s.frames| - 1].place.Scanning?
      invariant ctx.s.Valid() && |ctx.s.frames| == |s0.frames| && ctx.s.scheduled == s0.scheduled && ctx.s.deleted == s0.deleted
      invariant ctx.s.Top(Scanning(i)) || (ctx.s.Top(Polling(Finite)) && exists bh: Bh :: s0.Live(bh))
      invariant ctx.s.Top(Scanning(i)) ==> forall bh: Bh :: i <= bh ==> !s0.Live(bh)
    {
      ScanGoes(ctx.s, i, timers);
      assert ctx.s.Live(i - 1) <==> s0.Live(i - 1);
      ctx.Poll(timers);
      i := i - 1;
    }
    if ctx.s.frames[|ctx.s.frames| - 1].place.Scanning? {
      ScanGoes(ctx.s, 0, timers);
      ctx.Poll(timers);
    }
  }

  lemma ScanBegins(s0: Loop, s: Loop, choice: bool)
    requires s0.Top(Entered) && s0.frames[|s0.frames| - 1].blocking && s == Proceeded(s0, choice)
    ensures |s.frames| == |s0.frames| && s.Top(Filling)
    ensures var s' := Proceeded(s, choice);
            s'.Top(Scanning(|s0.scheduled|)) && |s'.frames| == |s0.frames| && s'.scheduled == s0.scheduled && s'.deleted == s0.deleted
  {
  }

  lemma ScanGoes(s: Loop, i: nat, choice: bool)
    requires s.Top(Scanning(i))
    ensures var s' := Proceeded(s, choice);
            && |s'.frames| == |s.frames| && s'.scheduled == s.scheduled && s'.deleted == s.deleted
            && s'.Top(if i == 0 then Polling(if choice then Finite else Infinite) else if s.Live(i - 1) then Polling(Finite) else Scanning(i - 1))
  {
  }
}
