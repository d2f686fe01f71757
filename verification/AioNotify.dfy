/**
 The wake-up protocol of an event loop, qemu/async.c and qemu/aio-posix.c: threads that schedule
 bottom halves against the loop thread that goes to sleep in poll().

 The protocol is a state machine over the atomic steps of `qemu_bh_schedule`, `aio_notify`,
 `aio_notify_accept`, `aio_compute_timeout`, `aio_bh_poll`, `aio_poll` and the GSource callbacks,
 interleaved in every order, with any number of threads.  Memory is sequentially consistent:
 the source puts a full barrier or an atomic operation at each of these steps.
 */
module AioNotify {

  type BhId = nat

  /** A bottom half, with counts of how often it was armed (0 to 1), run and disarmed by a cancel. */
  datatype Bh = Bh(scheduled: bool, idle: bool, deleted: bool, arms: nat, runs: nat, drops: nat)

  /** Where a scheduling thread stands inside `qemu_bh_schedule` and `aio_notify`. */
  datatype ThreadPc =
    | Outside
    | Armed(bh: BhId)   // `bh->idle = 0` done, exchange of `scheduled` next
    | Notify            // inside aio_notify, read of `notify_me` next
    | SetEvent          // `notify_me` was not zero, event_notifier_set next
    | SetNotified       // event set, `notified = true` next

  /** How long poll() may sleep, in nanoseconds. */
  datatype Timeout = Ns(ns: nat) | Forever

  /** Bottom halves scheduled as idle are looked at this often. */
  const IDLE_PERIOD: Timeout := Ns(10_000_000)

  /** Where the loop thread stands.  `glib` tells a GSource iteration from a call of `aio_poll`. */
  datatype LoopPc =
    | Running
    | Entered(glib: bool)                                    // `notify_me` raised
    | Scan(glib: bool, rest: seq<BhId>, timeout: Timeout)    // aio_compute_timeout, `rest` not yet read
    | ScanIdle(glib: bool, bh: BhId, rest: seq<BhId>)        // a scheduled one was seen, read of `idle` next
    | Blocked(glib: bool, timeout: Timeout, timer: Timeout)  // in poll(); `timer` is the deadline it was given
    | Awake(glib: bool)                                      // poll() returned
    | Accept                                                 // exchange of `notified` next
    | Clear                                                  // `notified` was set, clearing the event next
    | Dispatch
    | Walk(rest: seq<BhId>)                                  // aio_bh_poll

  datatype State = State(
    list: seq<BhId>,               // the order of first_bh
    bhs: map<BhId, Bh>,
    threads: seq<ThreadPc>,
    loop: LoopPc,
    outer: seq<seq<BhId>>,         // walks suspended in a callback that polls again
    glib: bool, polls: nat,        // notify_me: bit 0, and the count in the upper bits
    notifier: bool, notified: bool)

  /** Steps of a thread inside `qemu_bh_schedule` or `aio_notify`. */
  datatype ThreadAct = ClearIdle(bh: BhId) | Exchange | EnterNotify | ReadNotifyMe | RaiseEvent | RaiseNotified

  /** Single stores to the list or to the flags of a bottom half, by any thread. */
  datatype BhAct = NewBh | Cancel | MarkDeleted | SetIdle | SetScheduled

  /** Steps of the loop thread up to the dispatch, and in the walk that follows. */
  datatype SleepAct = EnterPoll(viaGlib: bool) | PollNow | ReadFirst | ScanOne | ReadIdle | ScanEnd(deadline: Timeout) | Wake | Abandon
  datatype WalkAct = Leave | TakeNotified | ClearEvent | BeginWalk | SkipDispatch | WalkOne | EndWalk | Resume

  datatype Step = Thread(t: nat, ta: ThreadAct) | Store(bh: BhId, ba: BhAct) | Sleep(sa: SleepAct) | Run(wa: WalkAct)

  predicate NotifyMe(s: State) {
    s.glib || s.polls != 0
  }

  predicate Live(s: State, b: BhId) {
    b in s.bhs && !s.bhs[b].deleted
  }

  /** The loop thread runs its own code or a callback, so it may schedule an idle bottom half. */
  predicate InLoopThread(s: State) {
    s.loop.Running? || s.loop.Walk?
  }

  /** `qemu_soonest_timeout`. */
  function Soonest(a: Timeout, b: Timeout): Timeout {
    if a.Forever? then b else if b.Forever? then a else if a.ns < b.ns then a else b
  }

  function SetThread(s: State, t: nat, pc: ThreadPc): State
    requires t < |s.threads|
  {
    s.(threads := s.threads[t := pc])
  }

  function SetBh(s: State, b: BhId, bh: Bh): State {
    s.(bhs := s.bhs[b := bh])
  }

  function Disarm(bh: Bh): Bh {
    bh.(scheduled := false, drops := if bh.scheduled then bh.drops + 1 else bh.drops)
  }

  /** `scheduled = 1`: an exchange, or the plain store of `qemu_bh_schedule_idle`. */
  function Arm(bh: Bh): Bh {
    bh.(scheduled := true, arms := if bh.scheduled then bh.arms else bh.arms + 1)
  }

  function KeepLive(list: seq<BhId>, bhs: map<BhId, Bh>): seq<BhId> {
    if list == [] then []
    else (if list[0] in bhs && bhs[list[0]].deleted then [] else [list[0]]) + KeepLive(list[1..], bhs)
  }

  ghost predicate ThreadNext(s: State, t: nat, act: ThreadAct, s': State) {
    t < |s.threads| &&
    match act
    case ClearIdle(b) =>
      s.threads[t].Outside? && b in s.bhs && s' == SetThread(SetBh(s, b, s.bhs[b].(idle := false)), t, Armed(b))
    case Exchange =>
      s.threads[t].Armed? && s.threads[t].bh in s.bhs
      && var b := s.threads[t].bh;
         s' == SetThread(SetBh(s, b, Arm(s.bhs[b])), t, if s.bhs[b].scheduled then Outside else Notify)
    case EnterNotify =>
      s.threads[t].Outside? && s' == SetThread(s, t, Notify)
    case ReadNotifyMe =>
      s.threads[t].Notify? && s' == SetThread(s, t, if NotifyMe(s) then SetEvent else Outside)
    case RaiseEvent =>
      s.threads[t].SetEvent? && s' == SetThread(s.(notifier := true), t, SetNotified)
    case RaiseNotified =>
      s.threads[t].SetNotified? && s' == SetThread(s.(notified := true), t, Outside)
  }

  /** With `remoteIdle`, `qemu_bh_schedule_idle` may be called from any thread. */
  ghost predicate StoreNext(s: State, b: BhId, act: BhAct, s': State, remoteIdle: bool) {
    match act
    case NewBh =>
      b !in s.bhs && s' == s.(list := [b] + s.list, bhs := s.bhs[b := Bh(false, false, false, 0, 0, 0)])
    case Cancel =>
      b in s.bhs && s' == SetBh(s, b, Disarm(s.bhs[b]))
    case MarkDeleted =>
      b in s.bhs && s' == SetBh(s, b, s.bhs[b].(deleted := true))
    case SetIdle =>
      b in s.bhs && (InLoopThread(s) || remoteIdle) && s' == SetBh(s, b, s.bhs[b].(idle := true))
    case SetScheduled =>
      b in s.bhs && (InLoopThread(s) || remoteIdle) && s' == SetBh(s, b, Arm(s.bhs[b]))
  }

  ghost predicate SleepNext(s: State, act: SleepAct, s': State) {
    match act
    case EnterPoll(g) =>
      InLoopThread(s)
      && s' == s.(loop := Entered(g),
                  outer := if s.loop.Walk? then s.outer + [s.loop.rest] else s.outer,
                  glib := s.glib || g,
                  polls := if g then s.polls else s.polls + 1)
    case PollNow =>  // a call that does not block: `notify_me` is not raised
      InLoopThread(s) && s' == s.(loop := Accept, outer := if s.loop.Walk? then s.outer + [s.loop.rest] else s.outer)
    case ReadFirst =>
      s.loop.Entered? && s' == s.(loop := Scan(s.loop.glib, s.list, Forever))
    case ScanOne =>
      s.loop.Scan? && s.loop.rest != [] && s.loop.rest[0] in s.bhs
      && var b := s.loop.rest[0];
         s' == s.(loop := if Live(s, b) && s.bhs[b].scheduled then ScanIdle(s.loop.glib, b, s.loop.rest[1..])
                          else Scan(s.loop.glib, s.loop.rest[1..], s.loop.timeout))
    case ReadIdle =>
      s.loop.ScanIdle? && s.loop.bh in s.bhs
      && s' == s.(loop := if s.bhs[s.loop.bh].idle then Scan(s.loop.glib, s.loop.rest, IDLE_PERIOD)
                          else Blocked(s.loop.glib, Ns(0), Forever))
    case ScanEnd(deadline) =>
      s.loop.Scan? && s.loop.rest == [] && s' == s.(loop := Blocked(s.loop.glib, Soonest(s.loop.timeout, deadline), deadline))
    case Wake =>
      s.loop.Blocked? && s' == s.(loop := Awake(s.loop.glib))
    case Abandon =>  // GLib need not follow a prepare with a check
      s.loop.Blocked? && s.loop.glib && s' == s.(loop := Running)
  }

  ghost predicate WalkNext(s: State, act: WalkAct, s': State) {
    match act
    case Leave =>
      s.loop.Awake? && (s.loop.glib || s.polls > 0)
      && s' == s.(loop := Accept,
                  glib := if s.loop.glib then false else s.glib,
                  polls := if s.loop.glib then s.polls else s.polls - 1)
    case TakeNotified =>
      s.loop.Accept? && s' == s.(notified := false, loop := if s.notified then Clear else Dispatch)
    case ClearEvent =>
      s.loop.Clear? && s' == s.(notifier := false, loop := Dispatch)
    case BeginWalk =>
      s.loop.Dispatch? && s' == s.(loop := Walk(s.list))
    case SkipDispatch =>
      s.loop.Dispatch? && s' == s.(loop := Running)
    case WalkOne =>
      s.loop.Walk? && s.loop.rest != [] && s.loop.rest[0] in s.bhs
      && var b := s.loop.rest[0]; var bh := s.bhs[b];
         var s1 := if !bh.deleted && bh.scheduled
                   then SetBh(s, b, bh.(scheduled := false, idle := false, runs := bh.runs + 1)) else s;
         s' == s1.(loop := Walk(s.loop.rest[1..]))
    case EndWalk =>
      s.loop.Walk? && s.loop.rest == []
      && s' == (if s.outer == [] then
                  s.(loop := Running, list := KeepLive(s.list, s.bhs),
                     bhs := map b | b in s.bhs && !s.bhs[b].deleted :: s.bhs[b])
                else s.(loop := Running))
    case Resume =>
      s.loop.Running? && s.outer != []
      && s' == s.(loop := Walk(s.outer[|s.outer| - 1]), outer := s.outer[..|s.outer| - 1])
  }

  /** One atomic step of some thread. */
  ghost predicate Next(s: State, step: Step, s': State, remoteIdle: bool) {
    match step
    case Thread(t, act) => ThreadNext(s, t, act, s')
    case Store(b, act) => StoreNext(s, b, act, s', remoteIdle)
    case Sleep(act) => SleepNext(s, act, s')
    case Run(act) => WalkNext(s, act, s')
  }

  predicate Init(s: State) {
    && s.list == [] && s.bhs == map[] && s.loop.Running? && s.outer == []
    && !s.glib && s.polls == 0 && !s.notifier && !s.notified
    && forall t :: 0 <= t < |s.threads| ==> s.threads[t].Outside?
  }

  /** A run: an initial state, then one step at a time. */
  ghost predicate IsRun(run: seq<State>, remoteIdle: bool) {
    && run != [] && Init(run[0])
    && forall k {:trigger StepsTo(run[k], run[k + 1], remoteIdle)} :: 0 <= k < |run| - 1 ==> StepsTo(run[k], run[k + 1], remoteIdle)
  }

  ghost predicate StepsTo(s: State, s': State, remoteIdle: bool) {
    exists step :: Next(s, step, s', remoteIdle)
  }

  // ------------------------------------------------------------ the invariant

  /** From raising `notify_me` until poll() returns. */
  predicate Drowsy(s: State) {
    s.loop.Entered? || s.loop.Scan? || s.loop.ScanIdle? || s.loop.Blocked?
  }

  /** Some thread has decided, or is bound to decide, to set the event. */
  predicate Pending(s: State) {
    exists t :: 0 <= t < |s.threads| && (s.threads[t].Notify? || s.threads[t].SetEvent?)
  }

  /** The loop is on its way to an endless sleep and will not read the flags of `b` again. */
  predicate Missed(s: State, b: BhId) {
    || (s.loop.Scan? && s.loop.timeout.Forever? && b !in s.loop.rest)
    || (s.loop.Blocked? && s.loop.timeout.Forever?)
  }

  ghost predicate WakeUps(s: State) {
    forall b :: Live(s, b) && s.bhs[b].scheduled && Missed(s, b) ==> s.notifier || Pending(s)
  }

  /** Bottom halves in the list are exactly those allocated. */
  ghost predicate ListOk(s: State) {
    forall b :: b in s.bhs <==> b in s.list
  }

  /** `notify_me` is raised while the loop may sleep, and the count of polls is lowered when it no longer does. */
  ghost predicate Raised(s: State) {
    && (Drowsy(s) || s.loop.Awake? ==> if s.loop.glib then s.glib else s.polls > 0)
    && (Drowsy(s) ==> NotifyMe(s))
    && s.polls == if (Drowsy(s) || s.loop.Awake?) && !s.loop.glib then 1 else 0
  }

  /** A set event is accounted for: by `notified`, or by a thread or the loop about to deal with it. */
  ghost predicate EventTracked(s: State) {
    s.notifier ==> s.notified || s.loop.Clear? || exists t :: 0 <= t < |s.threads| && s.threads[t].SetNotified?
  }

  /** Each arming of a bottom half is run once, dropped by one cancel, or still waiting. */
  ghost predicate Accounted(s: State) {
    forall b :: b in s.bhs ==> CountsOk(s.bhs[b])
  }

  predicate CountsOk(bh: Bh) {
    bh.arms == bh.runs + bh.drops + (if bh.scheduled then 1 else 0)
  }

  predicate NoLonger(a: Timeout, b: Timeout) {
    b.Forever? || (a.Ns? && a.ns <= b.ns)
  }

  predicate Scanning(s: State) { s.loop.Scan? || s.loop.ScanIdle? }

  /** A scan has met nothing but idle bottom halves, and a sleep is not longer than its timer allows. */
  predicate TimeoutOk(s: State) {
    && (s.loop.Scan? ==> s.loop.timeout.Forever? || s.loop.timeout == Ns(10_000_000))
    && (s.loop.Blocked? ==> NoLonger(s.loop.timeout, s.loop.timer))
  }

  ghost predicate Inv(s: State) {
    ListOk(s) && Raised(s) && WakeUps(s) && EventTracked(s) && Accounted(s) && TimeoutOk(s)
  }

  lemma {:induction false} KeepLiveMembers(list: seq<BhId>, bhs: map<BhId, Bh>, b: BhId)
    ensures b in KeepLive(list, bhs) <==> b in list && !(b in bhs && bhs[b].deleted)
  {
    if list != [] {
      KeepLiveMembers(list[1..], bhs, b);
      assert list == [list[0]] + list[1..];
    }
  }

  // Each kind of step keeps the invariant.

  lemma ThreadEvent(s: State, t: nat, act: ThreadAct, s': State)
    requires EventTracked(s) && ThreadNext(s, t, act, s')
    ensures EventTracked(s')
  {
    if s'.notifier && !s'.notified && !s'.loop.Clear? && !act.RaiseEvent? {
      var u :| 0 <= u < |s.threads| && s.threads[u].SetNotified?;
      assert s'.threads[u].SetNotified?;
    }
    assert act.RaiseEvent? ==> s'.threads[t].SetNotified?;
  }

  lemma ThreadWakeUps(s: State, t: nat, act: ThreadAct, s': State)
    requires WakeUps(s) && Raised(s) && ThreadNext(s, t, act, s')
    ensures WakeUps(s')
  {
    forall b | Live(s', b) && s'.bhs[b].scheduled && Missed(s', b)
      ensures s'.notifier || Pending(s')
    {
      if act.Exchange? && !s.bhs[s.threads[t].bh].scheduled {
        assert s'.threads[t].Notify?;
      } else {
        assert Live(s, b) && s.bhs[b].scheduled && Missed(s, b);
        if Pending(s) { PendingThread(s, t, act, s'); }
      }
    }
  }

  lemma ThreadAccounted(s: State, t: nat, act: ThreadAct, s': State)
    requires ListOk(s) && Accounted(s) && ThreadNext(s, t, act, s')
    ensures ListOk(s') && Accounted(s')
  {
    forall b
      ensures b in s'.bhs <==> b in s'.list
      ensures b in s'.bhs ==> CountsOk(s'.bhs[b])
    {
      assert b in s.bhs <==> b in s.list;
      if b in s.bhs { assert CountsOk(s.bhs[b]); }
    }
  }

  lemma InvThread(s: State, t: nat, act: ThreadAct, s': State)
    requires Inv(s) && ThreadNext(s, t, act, s')
    ensures Inv(s')
  {
    ThreadEvent(s, t, act, s');
    ThreadWakeUps(s, t, act, s');
    ThreadAccounted(s, t, act, s');
    ThreadFrame(s, t, act, s');
  }

  /** A thread on its way to set the event stays so, or sets it, as long as the loop may sleep. */
  lemma PendingThread(s: State, t: nat, act: ThreadAct, s': State)
    requires ThreadNext(s, t, act, s') && NotifyMe(s) && Pending(s)
    ensures s'.notifier || Pending(s')
  {
    var u :| 0 <= u < |s.threads| && (s.threads[u].Notify? || s.threads[u].SetEvent?);
    assert s'.notifier || s'.threads[u].Notify? || s'.threads[u].SetEvent?;
  }

  /** A store to one bottom half keeps its counts in step. */
  lemma StoreAccounted(s: State, b: BhId, act: BhAct, s': State)
    requires Accounted(s) && StoreNext(s, b, act, s', false)
    ensures Accounted(s')
  {
    forall x | x in s'.bhs
      ensures CountsOk(s'.bhs[x])
    {
      if x in s.bhs { assert CountsOk(s.bhs[x]); }
    }
  }

  lemma StoreList(s: State, b: BhId, act: BhAct, s': State)
    requires ListOk(s) && StoreNext(s, b, act, s', false)
    ensures ListOk(s')
  {
    forall x
      ensures x in s'.bhs <==> x in s'.list
    {
      assert x in s.bhs <==> x in s.list;
    }
  }

  lemma InvStore(s: State, b: BhId, act: BhAct, s': State)
    requires Inv(s) && StoreNext(s, b, act, s', false)
    ensures Inv(s')
  {
    StoreAccounted(s, b, act, s');
    StoreList(s, b, act, s');
    assert s'.threads == s.threads && s'.loop == s.loop;
    forall x | Live(s', x) && s'.bhs[x].scheduled && Missed(s', x)
      ensures s'.notifier || Pending(s')
    {
      assert Live(s, x) && s.bhs[x].scheduled && Missed(s, x);
    }
  }

  lemma SleepTimeout(s: State, act: SleepAct, s': State)
    requires TimeoutOk(s) && SleepNext(s, act, s')
    ensures TimeoutOk(s')
  {
  }

  lemma SleepWakeUps(s: State, act: SleepAct, s': State)
    requires ListOk(s) && WakeUps(s) && SleepNext(s, act, s')
    ensures WakeUps(s')
  {
    assert s'.threads == s.threads && s'.bhs == s.bhs && s'.notifier == s.notifier;
    forall b | Live(s', b) && s'.bhs[b].scheduled && Missed(s', b)
      ensures s'.notifier || Pending(s')
    {
      if act.ScanOne? {
        assert s.loop.rest == [s.loop.rest[0]] + s.loop.rest[1..];
      }
      assert Missed(s, b);
    }
  }

  lemma SleepRaised(s: State, act: SleepAct, s': State)
    requires Raised(s) && SleepNext(s, act, s')
    ensures Raised(s')
  {
  }

  lemma SleepAccounted(s: State, act: SleepAct, s': State)
    requires ListOk(s) && Accounted(s) && EventTracked(s) && SleepNext(s, act, s')
    ensures ListOk(s') && Accounted(s') && EventTracked(s')
  {
    assert s'.list == s.list && s'.bhs == s.bhs && s'.threads == s.threads && s'.notifier == s.notifier && s'.notified == s.notified;
  }

  lemma InvSleep(s: State, act: SleepAct, s': State)
    requires Inv(s) && SleepNext(s, act, s')
    ensures Inv(s')
  {
    SleepTimeout(s, act, s');
    SleepWakeUps(s, act, s');
    SleepRaised(s, act, s');
    SleepAccounted(s, act, s');
  }

  lemma WalkAccounted(s: State, act: WalkAct, s': State)
    requires Accounted(s) && WalkNext(s, act, s')
    ensures Accounted(s')
  {
    forall x | x in s'.bhs
      ensures CountsOk(s'.bhs[x])
    {
      assert CountsOk(s.bhs[x]);
    }
  }

  lemma WalkList(s: State, act: WalkAct, s': State)
    requires ListOk(s) && WalkNext(s, act, s')
    ensures ListOk(s')
  {
    forall b
      ensures b in s'.bhs <==> b in s'.list
    {
      assert b in s.bhs <==> b in s.list;
      KeepLiveMembers(s.list, s.bhs, b);
    }
  }

  lemma InvWalk(s: State, act: WalkAct, s': State)
    requires Inv(s) && WalkNext(s, act, s')
    ensures Inv(s')
  {
    WalkAccounted(s, act, s');
    WalkList(s, act, s');
    assert s'.threads == s.threads;
    assert !s'.loop.Scan? && !s'.loop.Blocked?;
  }

  lemma InvKept(s: State, step: Step, s': State)
    requires Inv(s) && Next(s, step, s', false)
    ensures Inv(s')
  {
    match step
    case Thread(t, act) => InvThread(s, t, act, s');
    case Store(b, act) => InvStore(s, b, act, s');
    case Sleep(act) => InvSleep(s, act, s');
    case Run(act) => InvWalk(s, act, s');
  }

  lemma StepAt(run: seq<State>, k: nat, remoteIdle: bool)
    requires IsRun(run, remoteIdle) && k + 1 < |run|
    ensures StepsTo(run[k], run[k + 1], remoteIdle)
  {
  }

  lemma InvAfterStep(s: State, s': State)
    requires Inv(s) && StepsTo(s, s', false)
    ensures Inv(s')
  {
    var step :| Next(s, step, s', false);
    InvKept(s, step, s');
  }

  lemma InvFirst(run: seq<State>)
    requires IsRun(run, false)
    ensures Inv(run[0])
  {
  }

  lemma InvNext(run: seq<State>, k: nat)
    requires IsRun(run, false) && k + 1 < |run| && Inv(run[k])
    ensures Inv(run[k + 1])
  {
    StepAt(run, k, false);
    InvAfterStep(run[k], run[k + 1]);
  }

  lemma {:induction false} InvAlways(run: seq<State>, k: nat)
    requires IsRun(run, false) && k < |run|
    ensures Inv(run[k])
  {
    if k == 0 {
      InvFirst(run);
    } else {
      InvAlways(run, k - 1);
      InvNext(run, k - 1);
    }
  }

  // ------------------------------------------------------------ safety over whole runs

  /**
   No lost wake-up: when the loop sleeps without a timeout and a live bottom half is scheduled,
   the event is set, or some thread past its exchange is bound to set it.
   */
  lemma NoLostWakeUp(run: seq<State>, k: nat, b: BhId)
    requires IsRun(run, false) && k < |run|
    ensures !WakeUpLost(run[k], b)
  {
    InvAlways(run, k);
  }

  lemma PendingStep(s: State, step: Step, s': State, t: nat)
    requires Next(s, step, s', false) && NotifyMe(s) && s.loop.Blocked? && s'.loop.Blocked?
    requires StillDelivering(s, t)
    ensures StillDelivering(s', t)
  {
    match step
    case Thread(u, act) => PendingStepThread(s, u, act, s', t);
    case Store(b, act) => assert s'.threads == s.threads && s'.notifier == s.notifier;
    case Sleep(act) =>
    case Run(act) =>
  }

  lemma PendingStepThread(s: State, u: nat, act: ThreadAct, s': State, t: nat)
    requires ThreadNext(s, u, act, s') && NotifyMe(s) && StillDelivering(s, t)
    ensures StillDelivering(s', t)
  {
  }

  /** "Bound to": as long as the loop sleeps, such a thread leaves these two steps only by setting the event. */
  lemma {:induction false} PendingDelivers(run: seq<State>, k: nat, j: nat, t: nat)
    requires IsRun(run, false) && k <= j < |run| && t < |run[k].threads|
    requires forall i :: k <= i <= j ==> run[i].loop.Blocked?
    requires run[k].threads[t].Notify? || run[k].threads[t].SetEvent?
    ensures StillDelivering(run[j], t)
    decreases j - k
  {
    if j > k {
      assert run[j - 1].loop.Blocked? && run[j].loop.Blocked?;
      PendingDelivers(run, k, j - 1, t);
      RaisedAlways(run, j - 1);
      StepAt(run, j - 1, false);
      PendingAfterStep(run[j - 1], run[j], t);
    }
  }

  lemma RaisedAlways(run: seq<State>, k: nat)
    requires IsRun(run, false) && k < |run|
    ensures Drowsy(run[k]) ==> NotifyMe(run[k])
  {
    InvAlways(run, k);
  }

  lemma PendingAfterStep(s: State, s': State, t: nat)
    requires StepsTo(s, s', false) && NotifyMe(s) && s.loop.Blocked? && s'.loop.Blocked?
    requires StillDelivering(s, t)
    ensures StillDelivering(s', t)
  {
    var step :| Next(s, step, s', false);
    PendingStep(s, step, s', t);
  }

  predicate StillDelivering(s: State, t: nat) {
    t < |s.threads| && (s.notifier || s.threads[t].Notify? || s.threads[t].SetEvent?)
  }

  /** The event does not stay set for nothing: with no thread inside aio_notify, an accept leaves it clear. */
  lemma AcceptClears(run: seq<State>, k: nat)
    requires IsRun(run, false) && k < |run|
    requires run[k].loop.Dispatch? && !run[k].notified
    requires forall t :: 0 <= t < |run[k].threads| ==> !run[k].threads[t].SetNotified?
    ensures !run[k].notifier
  {
    InvAlways(run, k);
  }

  /** After an accept with no thread between reading `notify_me` and the end of aio_notify, neither flag is left over. */
  lemma AcceptQuiets(run: seq<State>, i: nat, j: nat)
    requires IsRun(run, false) && i < j < |run| && run[i].loop.Accept?
    requires forall k {:trigger Accepting(run[k])} :: i < k < j ==> Accepting(run[k])
    requires forall k {:trigger Calm(run[k])} :: i <= k <= j ==> Calm(run[k])
    ensures run[j].loop.Clear? || run[j].loop.Dispatch? ==> !run[j].notified
    ensures run[j].loop.Dispatch? ==> !run[j].notifier
  {
    forall k: nat | i <= k < j
      ensures QuietAccept(run[k], run[k + 1])
    {
      QuietAcceptAt(run, k);
    }
    QuietAcceptLasts(run, i, j);
  }

  /** Neither flag is left over. */
  predicate Quiet(s: State) {
    (s.loop.Clear? || s.loop.Dispatch? ==> !s.notified) && (s.loop.Dispatch? ==> !s.notifier)
  }

  predicate QuietAccept(s: State, s': State) {
    Accepting(s) && Quiet(s) && Calm(s) && Calm(s') ==> Quiet(s')
  }

  lemma QuietAcceptAt(run: seq<State>, k: nat)
    requires IsRun(run, false) && k + 1 < |run|
    ensures QuietAccept(run[k], run[k + 1])
  {
    StepAt(run, k, false);
    EventAlways(run, k + 1);
    QuietAcceptStep(run[k], run[k + 1]);
  }

  lemma EventAlways(run: seq<State>, k: nat)
    requires IsRun(run, false) && k < |run|
    ensures EventTracked(run[k])
  {
    InvAlways(run, k);
  }

  lemma QuietAcceptStep(s: State, s': State)
    requires StepsTo(s, s', false) && EventTracked(s')
    ensures QuietAccept(s, s')
  {
    if Accepting(s) && Quiet(s) && Calm(s) && Calm(s') {
      QuietStep(s, s');
      assert forall t :: 0 <= t < |s'.threads| ==> Idle(s'.threads[t]);
    }
  }

  lemma {:induction false} QuietAcceptLasts(run: seq<State>, i: nat, j: nat)
    requires i < j < |run| && run[i].loop.Accept?
    requires forall k {:trigger Accepting(run[k])} :: i < k < j ==> Accepting(run[k])
    requires forall k {:trigger Calm(run[k])} :: i <= k <= j ==> Calm(run[k])
    requires forall k {:trigger QuietAccept(run[k], run[k + 1])} :: i <= k < j ==> QuietAccept(run[k], run[k + 1])
    ensures Quiet(run[j])
    decreases j
  {
    var k := j - 1;
    if i < k {
      QuietAcceptLasts(run, i, k);
      assert Accepting(run[k]);
    }
    assert Calm(run[k]) && Calm(run[j]) && QuietAccept(run[k], run[k + 1]);
  }

  predicate Accepting(s: State) { s.loop.Accept? || s.loop.Clear? }

  predicate Idle(pc: ThreadPc) { !pc.SetEvent? && !pc.SetNotified? }

  /** No thread is between reading `notify_me` and the end of aio_notify. */
  predicate Calm(s: State) { forall t :: 0 <= t < |s.threads| ==> Idle(s.threads[t]) }

  lemma QuietStep(s: State, s': State)
    requires StepsTo(s, s', false) && (s.loop.Accept? || (s.loop.Clear? && !s.notified))
    requires Calm(s)
    ensures s'.loop.Clear? || s'.loop.Dispatch? ==> !s'.notified
  {
    var step :| Next(s, step, s', false);
    match step
    case Thread(t, act) => QuietThread(s, t, act, s');
    case Store(b, act) => StoreFrame(s, b, act, s');
    case Sleep(act) => SleepFrame(s, act, s');
    case Run(act) => QuietRun(s, act, s');
  }

  lemma QuietThread(s: State, t: nat, act: ThreadAct, s': State)
    requires ThreadNext(s, t, act, s') && Calm(s)
    ensures s'.loop == s.loop && s'.notified == s.notified
  {
    assert Idle(s.threads[t]);
  }

  lemma QuietRun(s: State, act: WalkAct, s': State)
    requires WalkNext(s, act, s') && (s.loop.Accept? || (s.loop.Clear? && !s.notified))
    ensures s'.loop.Clear? || s'.loop.Dispatch? ==> !s'.notified
  {
  }

  // What each kind of step leaves alone.

  lemma ThreadFrame(s: State, t: nat, act: ThreadAct, s': State)
    requires ThreadNext(s, t, act, s')
    ensures s'.loop == s.loop && s'.glib == s.glib && s'.polls == s.polls
  {
  }

  lemma StoreFrame(s: State, b: BhId, act: BhAct, s': State)
    requires StoreNext(s, b, act, s', false)
    ensures s'.loop == s.loop && s'.notified == s.notified
  {
  }

  lemma SleepFrame(s: State, act: SleepAct, s': State)
    requires SleepNext(s, act, s')
    ensures !s.loop.Accept? && !s.loop.Clear?
    ensures !Drowsy(s) ==> !Scanning(s') && !s'.loop.Blocked?
  {
  }

  lemma RunFrame(s: State, act: WalkAct, s': State)
    requires WalkNext(s, act, s')
    ensures !Drowsy(s) && !Scanning(s') && !s'.loop.Blocked?
  {
  }

  /** On its way to sleep the loop moves only by its own steps. */
  lemma LoopMoves(s: State, s': State) returns (moved: bool, act: SleepAct)
    requires StepsTo(s, s', false)
    ensures if moved then SleepNext(s, act, s') else s'.loop == s.loop || (!Drowsy(s) && !Scanning(s') && !s'.loop.Blocked?)
  {
    var step :| Next(s, step, s', false);
    moved, act := step.Sleep?, Wake;
    match step
    case Thread(t, a) => ThreadFrame(s, t, a, s');
    case Store(b, a) => StoreFrame(s, b, a, s');
    case Sleep(a) => act := a;
    case Run(a) => RunFrame(s, a, s');
  }

  /** Over every run, a bottom half runs once for each arming that was not cancelled and is not waiting. */
  lemma RunsOncePerArming(run: seq<State>, k: nat, b: BhId)
    requires IsRun(run, false) && k < |run| && b in run[k].bhs
    ensures run[k].bhs[b].runs + run[k].bhs[b].drops + (if run[k].bhs[b].scheduled then 1 else 0) == run[k].bhs[b].arms
  {
    InvAlways(run, k);
    assert CountsOk(run[k].bhs[b]);
  }

  // ------------------------------------------------------------ how long the loop sleeps

  /** In every state of every run the loop sleeps no longer than until the next timer. */
  lemma NeverPastTimer(run: seq<State>, k: nat)
    requires IsRun(run, false) && k < |run| && run[k].loop.Blocked?
    ensures run[k].loop.timer.Ns? ==> run[k].loop.timeout.Ns? && run[k].loop.timeout.ns <= run[k].loop.timer.ns
  {
    InvAlways(run, k);
  }

  /** A live bottom half waits to be run. */
  predicate Due(s: State, b: BhId) { Live(s, b) && s.bhs[b].scheduled }

  predicate DueNow(s: State, b: BhId) { Due(s, b) && !s.bhs[b].idle }

  /** What a scan says about a bottom half that has been due all along: still ahead of it, just met, or heeded. */
  predicate Heeded(s: State, b: BhId) {
    || (s.loop.Scan? && (b in s.loop.rest || s.loop.timeout == Ns(10_000_000)))
    || s.loop.ScanIdle?
    || (s.loop.Blocked? && NoLonger(s.loop.timeout, Ns(10_000_000)))
  }

  /** The same for one that has not been idle. */
  predicate HeededNow(s: State, b: BhId) {
    || (s.loop.Scan? && b in s.loop.rest)
    || (s.loop.ScanIdle? && (s.loop.bh == b || b in s.loop.rest))
    || (s.loop.Blocked? && s.loop.timeout == Ns(0))
  }

  lemma ScanStep(s: State, s': State, b: BhId)
    requires StepsTo(s, s', false) && Scanning(s) && (Scanning(s') || s'.loop.Blocked?) && Due(s, b) && TimeoutOk(s)
    ensures Heeded(s, b) ==> Heeded(s', b)
    ensures HeededNow(s, b) && DueNow(s, b) ==> HeededNow(s', b)
  {
    var moved, act := LoopMoves(s, s');
    if s.loop.Scan? && s.loop.rest != [] {
      assert s.loop.rest == [s.loop.rest[0]] + s.loop.rest[1..];
    }
  }

  lemma ScanBegins(s: State, s': State, b: BhId)
    requires StepsTo(s, s', false) && s.loop.Entered? && Scanning(s') && Due(s, b) && ListOk(s)
    ensures Heeded(s', b) && HeededNow(s', b)
  {
    var moved, act := LoopMoves(s, s');
  }

  /**
   A bottom half that is scheduled all through the computation of the timeout keeps the sleep to 10 ms, and
   to nothing at all if it is not idle.
   */
  lemma {:induction false} ScheduledCutsSleep(run: seq<State>, i: nat, j: nat, b: BhId)
    requires IsRun(run, false) && i + 1 < j < |run| && run[i].loop.Entered? && (Scanning(run[j]) || run[j].loop.Blocked?)
    requires forall k {:trigger Scanning(run[k])} :: i < k < j ==> Scanning(run[k])
    requires forall k {:trigger Due(run[k], b)} :: i <= k <= j ==> Due(run[k], b)
    ensures Heeded(run[j], b)
    ensures (forall k {:trigger DueNow(run[k], b)} :: i <= k <= j ==> DueNow(run[k], b)) ==> HeededNow(run[j], b)
    decreases j
  {
    assert Scanning(run[j - 1]) && Due(run[i], b) && Due(run[j - 1], b);
    if i + 2 == j {
      HeededFirst(run, i, b);
    } else {
      ScheduledCutsSleep(run, i, j - 1, b);
    }
    HeededNext(run, j - 1, b);
  }

  lemma HeededFirst(run: seq<State>, i: nat, b: BhId)
    requires IsRun(run, false) && i + 1 < |run| && run[i].loop.Entered? && Scanning(run[i + 1]) && Due(run[i], b)
    ensures Heeded(run[i + 1], b) && HeededNow(run[i + 1], b)
  {
    InvAlways(run, i);
    StepAt(run, i, false);
    ScanBegins(run[i], run[i + 1], b);
  }

  lemma HeededNext(run: seq<State>, k: nat, b: BhId)
    requires IsRun(run, false) && k + 1 < |run| && Scanning(run[k]) && (Scanning(run[k + 1]) || run[k + 1].loop.Blocked?) && Due(run[k], b)
    ensures Heeded(run[k], b) ==> Heeded(run[k + 1], b)
    ensures HeededNow(run[k], b) && DueNow(run[k], b) ==> HeededNow(run[k + 1], b)
  {
    InvAlways(run, k);
    StepAt(run, k, false);
    ScanStep(run[k], run[k + 1], b);
  }

  /** No bottom half waits to be run. */
  predicate NoneDue(s: State) { forall b :: b in s.bhs ==> !Due(s, b) }

  predicate Undisturbed(s: State) {
    (s.loop.Scan? && s.loop.timeout.Forever?) || (s.loop.Blocked? && s.loop.timeout == s.loop.timer)
  }

  /** A step of a scan that nothing disturbs. */
  predicate QuietScan(s: State, s': State) {
    NoneDue(s) && (s.loop.Entered? || (s.loop.Scan? && Undisturbed(s))) && (Scanning(s') || s'.loop.Blocked?) ==> Undisturbed(s')
  }

  lemma QuietScanStep(s: State, s': State)
    requires StepsTo(s, s', false)
    ensures QuietScan(s, s')
  {
    var moved, act := LoopMoves(s, s');
  }

  lemma QuietScanAt(run: seq<State>, k: nat)
    requires IsRun(run, false) && k + 1 < |run|
    ensures QuietScan(run[k], run[k + 1])
  {
    StepAt(run, k, false);
    QuietScanStep(run[k], run[k + 1]);
  }

  lemma {:induction false} QuietScanLasts(run: seq<State>, i: nat, j: nat)
    requires i < j < |run| && run[i].loop.Entered? && (Scanning(run[j]) || run[j].loop.Blocked?)
    requires forall k {:trigger Scanning(run[k])} :: i < k < j ==> Scanning(run[k])
    requires forall k {:trigger NoneDue(run[k])} :: i <= k <= j ==> NoneDue(run[k])
    requires forall k {:trigger QuietScan(run[k], run[k + 1])} :: i <= k < j ==> QuietScan(run[k], run[k + 1])
    ensures Undisturbed(run[j])
    decreases j
  {
    if i + 1 < j {
      assert Scanning(run[j - 1]);
      QuietScanLasts(run, i, j - 1);
    }
    var k := j - 1;
    assert NoneDue(run[k]) && QuietScan(run[k], run[k + 1]);
  }

  /** With nothing scheduled all through the computation, the loop sleeps until its timer. */
  lemma NothingScheduledSleeps(run: seq<State>, i: nat, j: nat)
    requires IsRun(run, false) && i < j < |run| && run[i].loop.Entered? && run[j].loop.Blocked?
    requires forall k {:trigger Scanning(run[k])} :: i < k < j ==> Scanning(run[k])
    requires forall k {:trigger NoneDue(run[k])} :: i <= k <= j ==> NoneDue(run[k])
    ensures run[j].loop.timeout == run[j].loop.timer
  {
    forall k: nat | i <= k < j
      ensures QuietScan(run[k], run[k + 1])
    {
      QuietScanAt(run, k);
    }
    QuietScanLasts(run, i, j);
  }

  // ------------------------------------------------------------ a walk skips nothing

  /** What the walk at nesting depth `d` has still to visit. */
  function RestAt(s: State, d: nat): seq<BhId> {
    if d < |s.outer| then s.outer[d] else if s.loop.Walk? then s.loop.rest else []
  }

  /** The walk at depth `d` has not ended. */
  predicate Walking(s: State, d: nat) {
    d < |s.outer| || (d == |s.outer| && s.loop.Walk?)
  }

  /** `b` has run or been cancelled since its counts summed to `base`, or it is deleted. */
  predicate Settled(s: State, b: BhId, base: nat) {
    b in s.bhs && (s.bhs[b].deleted || s.bhs[b].runs + s.bhs[b].drops > base)
  }

  predicate Waiting(s: State, b: BhId, base: nat, d: nat) {
    b in s.bhs && s.bhs[b].scheduled && s.bhs[b].runs + s.bhs[b].drops == base && b in RestAt(s, d)
  }

  lemma WalkAfterStep(s: State, s': State, b: BhId, base: nat, d: nat)
    requires StepsTo(s, s', false) && Walking(s, d) && Walking(s', d)
    requires Settled(s, b, base) || Waiting(s, b, base, d)
    ensures Settled(s', b, base) || Waiting(s', b, base, d)
  {
    var step :| Next(s, step, s', false);
    match step
    case Thread(u, act) => WalkStepThread(s, u, act, s', b, base, d);
    case Store(x, act) => WalkStepStore(s, x, act, s', b, base, d);
    case Sleep(act) => assert RestAt(s', d) == RestAt(s, d) && s'.bhs == s.bhs;
    case Run(act) => WalkStepRun(s, act, s', b, base, d);
  }

  lemma WalkStepThread(s: State, t: nat, act: ThreadAct, s': State, b: BhId, base: nat, d: nat)
    requires ThreadNext(s, t, act, s')
    requires Settled(s, b, base) || Waiting(s, b, base, d)
    ensures Settled(s', b, base) || Waiting(s', b, base, d)
  {
    assert s'.outer == s.outer && s'.loop == s.loop;
  }

  lemma WalkStepStore(s: State, x: BhId, act: BhAct, s': State, b: BhId, base: nat, d: nat)
    requires StoreNext(s, x, act, s', false)
    requires Settled(s, b, base) || Waiting(s, b, base, d)
    ensures Settled(s', b, base) || Waiting(s', b, base, d)
  {
    assert s'.outer == s.outer && s'.loop == s.loop;
  }

  lemma WalkStepRun(s: State, act: WalkAct, s': State, b: BhId, base: nat, d: nat)
    requires WalkNext(s, act, s') && Walking(s, d) && Walking(s', d)
    requires Settled(s, b, base) || Waiting(s, b, base, d)
    ensures Settled(s', b, base) || Waiting(s', b, base, d)
  {
    if act.WalkOne? {
      assert s.loop.rest == [s.loop.rest[0]] + s.loop.rest[1..];
    } else {
      assert RestAt(s', d) == RestAt(s, d);
    }
  }

  /**
   A walk, whatever its callbacks do and however deeply they poll again, ends with every bottom half
   that was scheduled and ahead of it run, cancelled or deleted.
   */
  lemma {:induction false} WalkSettlesAll(run: seq<State>, k: nat, j: nat, b: BhId, base: nat, d: nat)
    requires IsRun(run, false) && k <= j < |run|
    requires forall i :: k <= i <= j ==> Walking(run[i], d)
    requires Waiting(run[k], b, base, d)
    ensures Settled(run[j], b, base) || Waiting(run[j], b, base, d)
    ensures RestAt(run[j], d) == [] ==> Settled(run[j], b, base)
    decreases j - k
  {
    if j > k {
      assert Walking(run[j - 1], d) && Walking(run[j], d);
      WalkSettlesAll(run, k, j - 1, b, base, d);
      StepAt(run, j - 1, false);
      WalkAfterStep(run[j - 1], run[j], b, base, d);
    }
  }

  /** A walk leaves the stack only at its end, when it has nothing left to visit. */
  predicate EndsDone(s: State, s': State, d: nat) {
    Walking(s, d) && !Walking(s', d) ==> s.loop == Walk([]) && |s.outer| == d && s'.loop.Running? && s'.outer == s.outer
  }

  lemma EndsDoneStep(s: State, s': State, d: nat)
    requires StepsTo(s, s', false)
    ensures EndsDone(s, s', d)
  {
    var step :| Next(s, step, s', false);
    match step
    case Thread(t, act) => ThreadFrame(s, t, act, s');
    case Store(b, act) => StoreFrame(s, b, act, s');
    case Sleep(act) =>
    case Run(act) => EndsDoneRun(s, act, s', d);
  }

  lemma EndsDoneRun(s: State, act: WalkAct, s': State, d: nat)
    requires WalkNext(s, act, s')
    ensures EndsDone(s, s', d)
  {
  }

  lemma WalkStarts(s: State, s': State, b: BhId)
    requires StepsTo(s, s', false) && ListOk(s) && s.loop.Dispatch? && s'.loop.Walk? && Due(s, b)
    ensures Waiting(s', b, s.bhs[b].runs + s.bhs[b].drops, |s'.outer|)
  {
    var step :| Next(s, step, s', false);
    match step
    case Thread(t, act) => ThreadFrame(s, t, act, s');
    case Store(x, act) => StoreFrame(s, x, act, s');
    case Sleep(act) =>
    case Run(act) => assert s'.list == s.list && s'.bhs == s.bhs && s'.outer == s.outer;
  }

  /**
   From the beginning of a dispatch walk to its end, with anything in between: a bottom half that was due
   when the walk began has run, was cancelled or is deleted when it ends.
   */
  lemma WalkServesAll(run: seq<State>, k: nat, j: nat, b: BhId)
    requires IsRun(run, false) && k + 1 < j < |run| && run[k].loop.Dispatch? && run[k + 1].loop.Walk? && Due(run[k], b)
    requires forall i {:trigger Walking(run[i], |run[k + 1].outer|)} :: k < i < j ==> Walking(run[i], |run[k + 1].outer|)
    requires !Walking(run[j], |run[k + 1].outer|)
    ensures Settled(run[j - 1], b, run[k].bhs[b].runs + run[k].bhs[b].drops)
  {
    var d, base := |run[k + 1].outer|, run[k].bhs[b].runs + run[k].bhs[b].drops;
    InvAlways(run, k);
    StepAt(run, k, false);
    WalkStarts(run[k], run[k + 1], b);
    WalkSettlesAll(run, k + 1, j - 1, b, base, d);
    StepAt(run, j - 1, false);
    assert Walking(run[j - 1], d);
    EndsDoneStep(run[j - 1], run[j], d);
  }

  /** The end of an outermost walk frees what is deleted; the end of a nested one frees nothing. */
  lemma WalkEndFrees(run: seq<State>, k: nat)
    requires IsRun(run, false) && k + 1 < |run| && run[k].loop == Walk([]) && run[k + 1].loop.Running?
    ensures forall b :: b in run[k + 1].bhs <==> b in run[k].bhs && (run[k].outer == [] ==> !run[k].bhs[b].deleted)
    ensures forall b :: b in run[k + 1].bhs ==> run[k + 1].bhs[b] == run[k].bhs[b]
    ensures ListOk(run[k + 1])
  {
    InvAlways(run, k + 1);
    StepAt(run, k, false);
    WalkEndStep(run[k], run[k + 1]);
  }

  lemma WalkEndStep(s: State, s': State)
    requires StepsTo(s, s', false) && s.loop == Walk([]) && s'.loop.Running?
    ensures forall b :: b in s'.bhs <==> b in s.bhs && (s.outer == [] ==> !s.bhs[b].deleted)
    ensures forall b :: b in s'.bhs ==> s'.bhs[b] == s.bhs[b]
  {
    var step :| Next(s, step, s', false);
    match step
    case Thread(t, act) => ThreadFrame(s, t, act, s');
    case Store(x, act) => StoreFrame(s, x, act, s');
    case Sleep(act) =>
    case Run(act) =>
  }

  // ------------------------------------------------------------ the life of one bottom half

  /** What one step may do to one bottom half. */
  predicate BhStep(s: State, s': State, b: BhId) {
    b in s.bhs && b in s'.bhs ==>
      var x, y := s.bhs[b], s'.bhs[b];
      && (x.deleted ==> y.deleted) && x.runs <= y.runs && x.drops <= y.drops && x.arms <= y.arms
      && (x.runs < y.runs ==> RunNow(s, b) && y == x.(scheduled := false, idle := false, runs := x.runs + 1))
  }

  /** A walk stands on the bottom half, and it is due. */
  predicate RunNow(s: State, b: BhId) { s.loop.Walk? && s.loop.rest != [] && s.loop.rest[0] == b && Due(s, b) }

  lemma BhStepThread(s: State, t: nat, act: ThreadAct, s': State, b: BhId)
    requires ThreadNext(s, t, act, s')
    ensures BhStep(s, s', b)
  {
  }

  lemma BhStepStore(s: State, x: BhId, act: BhAct, s': State, b: BhId)
    requires StoreNext(s, x, act, s', false)
    ensures BhStep(s, s', b)
  {
  }

  lemma BhStepRun(s: State, act: WalkAct, s': State, b: BhId)
    requires WalkNext(s, act, s')
    ensures BhStep(s, s', b)
  {
  }

  /** A bottom half runs only where a walk stands on it while it is due, and is then neither scheduled nor idle. */
  lemma RunsWhereDue(run: seq<State>, k: nat, b: BhId)
    requires IsRun(run, false) && k + 1 < |run|
    ensures BhStep(run[k], run[k + 1], b)
  {
    StepAt(run, k, false);
    AnyBhStep(run[k], run[k + 1], b);
  }

  lemma AnyBhStep(s: State, s': State, b: BhId)
    requires StepsTo(s, s', false)
    ensures BhStep(s, s', b)
  {
    var step :| Next(s, step, s', false);
    match step
    case Thread(t, act) => BhStepThread(s, t, act, s', b);
    case Store(x, act) => BhStepStore(s, x, act, s', b);
    case Sleep(act) => assert s'.bhs == s.bhs;
    case Run(act) => BhStepRun(s, act, s', b);
  }

  /** From `k` to `j` the bottom half is in the list. */
  predicate Stays(run: seq<State>, k: nat, j: nat, b: BhId) {
    k <= j < |run| && forall i {:trigger run[i].bhs} :: k <= i <= j ==> b in run[i].bhs
  }

  lemma {:induction false} CountsGrow(run: seq<State>, k: nat, j: nat, b: BhId)
    requires IsRun(run, false) && Stays(run, k, j, b)
    ensures run[k].bhs[b].runs <= run[j].bhs[b].runs && run[k].bhs[b].drops <= run[j].bhs[b].drops
    ensures run[k].bhs[b].deleted ==> run[j].bhs[b].deleted && run[j].bhs[b].runs == run[k].bhs[b].runs
    decreases j
  {
    if k < j {
      CountsGrow(run, k, j - 1, b);
      RunsWhereDue(run, j - 1, b);
    }
  }

  /** After a cancel a bottom half does not run until it is armed again. */
  lemma CancelHolds(run: seq<State>, k: nat, j: nat, b: BhId)
    requires IsRun(run, false) && k < j && Stays(run, k, j, b) && StoreNext(run[k], b, Cancel, run[k + 1], false)
    requires run[j].bhs[b].arms == run[k].bhs[b].arms
    ensures run[j].bhs[b].runs == run[k].bhs[b].runs && !run[j].bhs[b].scheduled
  {
    CountsGrow(run, k + 1, j, b);
    RunsOncePerArming(run, k + 1, b);
    RunsOncePerArming(run, j, b);
  }

  /** After its deletion a bottom half never runs. */
  lemma DeletedNeverRuns(run: seq<State>, k: nat, j: nat, b: BhId)
    requires IsRun(run, false) && k < j && Stays(run, k, j, b) && StoreNext(run[k], b, MarkDeleted, run[k + 1], false)
    ensures run[j].bhs[b].deleted && run[j].bhs[b].runs == run[k].bhs[b].runs
  {
    CountsGrow(run, k + 1, j, b);
  }

  // ------------------------------------------------------------ whole calls, undisturbed

  /** `qemu_bh_schedule` on its own: the bottom half is scheduled and not idle, and `aio_notify` follows only if it was not scheduled. */
  lemma ScheduleAlone(s: State, t: nat, b: BhId) returns (s1: State, s2: State)
    requires t < |s.threads| && s.threads[t].Outside? && b in s.bhs
    ensures ThreadNext(s, t, ClearIdle(b), s1) && ThreadNext(s1, t, Exchange, s2)
    ensures s2.bhs == s.bhs[b := s2.bhs[b]] && DueNow(s2, b) == Live(s, b) && s2.bhs[b].runs == s.bhs[b].runs
    ensures s2 == s.(bhs := s2.bhs, threads := s.threads[t := if s.bhs[b].scheduled then Outside else Notify])
  {
    var bh := s.bhs[b].(idle := false);
    s1 := s.(bhs := s.bhs[b := bh], threads := s.threads[t := Armed(b)]);
    s2 := s1.(bhs := s1.bhs[b := Arm(bh)], threads := s1.threads[t := if bh.scheduled then Outside else Notify]);
  }

  /** `aio_notify` on its own: the event and `notified` are set if `notify_me` is not zero, and nothing else changes. */
  lemma NotifyAlone(s: State, t: nat) returns (s1: State, s2: State, s3: State, s4: State)
    requires t < |s.threads| && s.threads[t].Outside?
    ensures ThreadNext(s, t, EnterNotify, s1) && ThreadNext(s1, t, ReadNotifyMe, s2)
    ensures if s.glib || s.polls > 0 then ThreadNext(s2, t, RaiseEvent, s3) && ThreadNext(s3, t, RaiseNotified, s4) else s4 == s2
    ensures s4 == if s.glib || s.polls > 0 then s.(notifier := true, notified := true) else s
  {
    s1 := s.(threads := s.threads[t := Notify]);
    s2 := s.(threads := s.threads[t := if NotifyMe(s) then SetEvent else Outside]);
    s3 := s.(threads := s.threads[t := SetNotified], notifier := true);
    s4 := if NotifyMe(s) then s.(notifier := true, notified := true) else s;
  }

  // ------------------------------------------------------------ `notify_me` goes down

  /** The check of a GSource iteration lowers bit 0 of `notify_me`; a step raises it only by entering a prepare. */
  predicate BitStep(s: State, s': State) {
    && (s.loop == Awake(true) && s'.loop.Accept? ==> !s'.glib)
    && (!s.glib && s'.glib ==> s'.loop == Entered(true))
  }

  lemma AnyBitStep(s: State, s': State)
    requires StepsTo(s, s', false)
    ensures BitStep(s, s')
  {
    var step :| Next(s, step, s', false);
    match step
    case Thread(t, act) => ThreadFrame(s, t, act, s');
    case Store(b, act) => StoreFrame(s, b, act, s');
    case Sleep(act) =>
    case Run(act) =>
  }

  /** From a check to the next prepare, bit 0 of `notify_me` is clear. */
  lemma {:induction false} CheckLowers(run: seq<State>, k: nat, j: nat)
    requires IsRun(run, false) && k < j < |run| && run[k].loop == Awake(true) && run[k + 1].loop.Accept?
    requires forall i {:trigger run[i].loop} :: k < i <= j ==> run[i].loop != Entered(true)
    ensures !run[j].glib
    decreases j
  {
    if k + 1 < j { CheckLowers(run, k, j - 1); }
    StepAt(run, j - 1, false);
    AnyBitStep(run[j - 1], run[j]);
  }

  // ------------------------------------------------------------ the loop is never stuck

  predicate Suffix(rest: seq<BhId>, list: seq<BhId>) {
    |rest| <= |list| && forall i :: 0 <= i < |rest| ==> rest[i] == list[|list| - |rest| + i]
  }

  /** What the loop has still to look at is what follows in the list: new ones come in front, and nothing goes meanwhile. */
  predicate RestOk(s: State) {
    && (forall d :: 0 <= d < |s.outer| ==> Suffix(s.outer[d], s.list))
    && (s.loop.Scan? || s.loop.Walk? ==> Suffix(s.loop.rest, s.list))
    && (s.loop.ScanIdle? ==> Suffix([s.loop.bh] + s.loop.rest, s.list))
  }

  lemma SuffixSteps(rest: seq<BhId>, list: seq<BhId>, b: BhId)
    requires Suffix(rest, list)
    ensures Suffix(rest, [b] + list)
    ensures rest != [] ==> Suffix(rest[1..], list) && rest[0] in list
  {
    if rest != [] {
      assert rest[0] == list[|list| - |rest|];
    }
  }

  lemma RestStep(s: State, s': State)
    requires StepsTo(s, s', false) && RestOk(s)
    ensures RestOk(s')
  {
    var step :| Next(s, step, s', false);
    match step
    case Thread(t, act) => RestThread(s, t, act, s');
    case Store(b, act) => RestStore(s, b, act, s');
    case Sleep(act) => RestSleep(s, act, s');
    case Run(act) => RestRun(s, act, s');
  }

  lemma RestThread(s: State, t: nat, act: ThreadAct, s': State)
    requires ThreadNext(s, t, act, s') && RestOk(s)
    ensures RestOk(s')
  {
    assert s'.list == s.list && s'.outer == s.outer && s'.loop == s.loop;
  }

  lemma RestStore(s: State, b: BhId, act: BhAct, s': State)
    requires StoreNext(s, b, act, s', false) && RestOk(s)
    ensures RestOk(s')
  {
    assert s'.outer == s.outer && s'.loop == s.loop && (s'.list == s.list || s'.list == [b] + s.list);
    forall d | 0 <= d < |s'.outer|
      ensures Suffix(s'.outer[d], s'.list)
    {
      SuffixSteps(s.outer[d], s.list, b);
    }
    if s.loop.Scan? || s.loop.Walk? { SuffixSteps(s.loop.rest, s.list, b); }
    if s.loop.ScanIdle? { SuffixSteps([s.loop.bh] + s.loop.rest, s.list, b); }
  }

  lemma RestSleep(s: State, act: SleepAct, s': State)
    requires SleepNext(s, act, s') && RestOk(s)
    ensures RestOk(s')
  {
    assert s'.list == s.list;
    if Scanning(s) {
      RestScan(s, act, s');
    }
  }

  lemma RestScan(s: State, act: SleepAct, s': State)
    requires SleepNext(s, act, s') && RestOk(s) && Scanning(s)
    ensures RestOk(s')
  {
    assert s'.list == s.list && s'.outer == s.outer;
    if s.loop.ScanIdle? {
      SuffixSteps([s.loop.bh] + s.loop.rest, s.list, 0);
      assert ([s.loop.bh] + s.loop.rest)[1..] == s.loop.rest;
    } else if s.loop.rest != [] {
      SuffixSteps(s.loop.rest, s.list, 0);
      assert [s.loop.rest[0]] + s.loop.rest[1..] == s.loop.rest;
    }
  }

  lemma RestRun(s: State, act: WalkAct, s': State)
    requires WalkNext(s, act, s') && RestOk(s)
    ensures RestOk(s')
  {
    if act.WalkOne? { SuffixSteps(s.loop.rest, s.list, 0); }
  }

  /** In every state of every run, what a scan or a walk has still to look at is the rest of the list. */
  lemma {:induction false} RestAlways(run: seq<State>, k: nat)
    requires IsRun(run, false) && k < |run|
    ensures RestOk(run[k])
  {
    if k > 0 {
      RestAlways(run, k - 1);
      StepAt(run, k - 1, false);
      RestStep(run[k - 1], run[k]);
    }
  }

  ghost predicate CanSleep(s: State, act: SleepAct) { exists s' :: SleepNext(s, act, s') }

  ghost predicate CanRun(s: State, act: WalkAct) { exists s' :: WalkNext(s, act, s') }

  /** What the loop looks at next is allocated. */
  predicate HeadOk(s: State) {
    && ((s.loop.Scan? || s.loop.Walk?) && s.loop.rest != [] ==> s.loop.rest[0] in s.bhs)
    && (s.loop.ScanIdle? ==> s.loop.bh in s.bhs)
  }

  lemma HeadAllocated(s: State)
    requires RestOk(s) && ListOk(s)
    ensures HeadOk(s)
  {
    if s.loop.Scan? || s.loop.Walk? { SuffixSteps(s.loop.rest, s.list, 0); }
    if s.loop.ScanIdle? { SuffixSteps([s.loop.bh] + s.loop.rest, s.list, 0); }
  }

  lemma SleepEnabled(s: State)
    requires HeadOk(s) && (s.loop.Running? || Drowsy(s))
    ensures exists act :: CanSleep(s, act)
    ensures s.loop.Blocked? ==> CanSleep(s, Wake)
  {
    if s.loop.Running? {
      assert SleepNext(s, PollNow, s.(loop := Accept));
      assert CanSleep(s, PollNow);
    } else if s.loop.Entered? {
      assert SleepNext(s, ReadFirst, s.(loop := Scan(s.loop.glib, s.list, Forever)));
      assert CanSleep(s, ReadFirst);
    } else if s.loop.Blocked? {
      assert SleepNext(s, Wake, s.(loop := Awake(s.loop.glib)));
      assert CanSleep(s, Wake);
    } else {
      ScanEnabled(s);
    }
  }

  lemma ScanEnabled(s: State)
    requires HeadOk(s) && Scanning(s)
    ensures exists act :: CanSleep(s, act)
  {
    if s.loop.ScanIdle? {
      var next := if s.bhs[s.loop.bh].idle then Scan(s.loop.glib, s.loop.rest, Ns(10_000_000)) else Blocked(s.loop.glib, Ns(0), Forever);
      assert SleepNext(s, ReadIdle, s.(loop := next));
      assert CanSleep(s, ReadIdle);
    } else if s.loop.rest == [] {
      assert SleepNext(s, ScanEnd(Forever), s.(loop := Blocked(s.loop.glib, Soonest(s.loop.timeout, Forever), Forever)));
      assert CanSleep(s, ScanEnd(Forever));
    } else {
      var b, rest := s.loop.rest[0], s.loop.rest[1..];
      var next := if Due(s, b) then ScanIdle(s.loop.glib, b, rest) else Scan(s.loop.glib, rest, s.loop.timeout);
      assert SleepNext(s, ScanOne, s.(loop := next));
      assert CanSleep(s, ScanOne);
    }
  }

  lemma RunEnabled(s: State)
    requires HeadOk(s) && Raised(s) && !s.loop.Running? && !Drowsy(s)
    ensures exists act :: CanRun(s, act)
    ensures s.loop.Awake? ==> CanRun(s, Leave)
  {
    if s.loop.Awake? {
      assert WalkNext(s, Leave, if s.loop.glib then s.(loop := Accept, glib := false) else s.(loop := Accept, polls := s.polls - 1));
      assert CanRun(s, Leave);
    } else if s.loop.Accept? {
      assert WalkNext(s, TakeNotified, s.(notified := false, loop := if s.notified then Clear else Dispatch));
      assert CanRun(s, TakeNotified);
    } else if s.loop.Clear? {
      assert WalkNext(s, ClearEvent, s.(notifier := false, loop := Dispatch));
      assert CanRun(s, ClearEvent);
    } else if s.loop.Dispatch? {
      assert WalkNext(s, BeginWalk, s.(loop := Walk(s.list)));
      assert CanRun(s, BeginWalk);
    } else {
      WalkEnabled(s);
    }
  }

  lemma WalkEnabled(s: State)
    requires HeadOk(s) && s.loop.Walk?
    ensures exists act :: CanRun(s, act)
  {
    if s.loop.rest == [] {
      var after := if s.outer == [] then s.(list := KeepLive(s.list, s.bhs), bhs := map b | b in s.bhs && !s.bhs[b].deleted :: s.bhs[b]) else s;
      assert WalkNext(s, EndWalk, after.(loop := Running));
      assert CanRun(s, EndWalk);
    } else {
      var b := s.loop.rest[0];
      var bh := s.bhs[b].(scheduled := false, idle := false, runs := s.bhs[b].runs + 1);
      assert WalkNext(s, WalkOne, (if Due(s, b) then SetBh(s, b, bh) else s).(loop := Walk(s.loop.rest[1..])));
      assert CanRun(s, WalkOne);
    }
  }

  /**
   In every state of every run the loop thread has a step: it never looks at a bottom half that is gone, a
   sleep can end whether or not the event is set, and each poll it entered it can leave.
   */
  lemma NeverStuck(run: seq<State>, k: nat)
    requires IsRun(run, false) && k < |run|
    ensures (exists act :: CanSleep(run[k], act)) || (exists act :: CanRun(run[k], act))
    ensures run[k].loop.Blocked? ==> CanSleep(run[k], Wake)
    ensures run[k].loop.Awake? ==> CanRun(run[k], Leave)
  {
    InvAlways(run, k);
    RestAlways(run, k);
    HeadAllocated(run[k]);
    if run[k].loop.Running? || Drowsy(run[k]) { SleepEnabled(run[k]); } else { RunEnabled(run[k]); }
  }

  // ------------------------------------------------------------ why idle scheduling stays in the loop thread

  /** The loop goes to sleep over an unscheduled bottom half, then another thread schedules it as idle. */
  function SleepThenIdle(k: nat): State {
    var bh := Bh(false, false, false, 0, 0, 0);
    var s0 := State([], map[], [], Running, [], false, 0, false, false);
    var s1 := s0.(list := [7], bhs := map[7 := bh]);
    var s2 := s1.(loop := Entered(false), polls := 1);
    if k == 0 then s0
    else if k == 1 then s1
    else if k == 2 then s2
    else if k == 3 then s2.(loop := Scan(false, [7], Forever))
    else if k == 4 then s2.(loop := Scan(false, [], Forever))
    else if k == 5 then s2.(loop := Blocked(false, Forever, Forever))
    else if k == 6 then s2.(loop := Blocked(false, Forever, Forever), bhs := map[7 := bh.(idle := true)])
    else s2.(loop := Blocked(false, Forever, Forever), bhs := map[7 := bh.(idle := true, scheduled := true, arms := 1)])
  }

  lemma SleepThenIdleStep(k: nat)
    requires k < 7
    ensures StepsTo(SleepThenIdle(k), SleepThenIdle(k + 1), true)
  {
    var step := [Store(7, NewBh), Sleep(EnterPoll(false)), Sleep(ReadFirst), Sleep(ScanOne), Sleep(ScanEnd(Forever)),
                 Store(7, SetIdle), Store(7, SetScheduled)][k];
    var s, s' := SleepThenIdle(k), SleepThenIdle(k + 1);
    if k == 3 { assert s.loop.rest[1..] == []; }
    assert Next(s, step, s', true);
  }

  lemma RunGrows(run: seq<State>, s: State, s': State, remoteIdle: bool)
    requires IsRun(run, remoteIdle) && run[|run| - 1] == s && StepsTo(s, s', remoteIdle)
    ensures IsRun(run + [s'], remoteIdle)
  {
    var longer := run + [s'];
    forall k | 0 <= k < |run|
      ensures StepsTo(longer[k], longer[k + 1], remoteIdle)
    {
      if k + 1 < |run| { assert StepsTo(run[k], run[k + 1], remoteIdle); }
    }
  }

  lemma {:induction false} SleepThenIdleRun(n: nat) returns (run: seq<State>)
    requires n < 8
    ensures |run| == n + 1 && IsRun(run, true) && run[n] == SleepThenIdle(n)
  {
    if n == 0 {
      run := [SleepThenIdle(0)];
    } else {
      run := SleepThenIdleRun(n - 1);
      assert StepsTo(SleepThenIdle(n - 1), SleepThenIdle(n), true) by { SleepThenIdleStep(n - 1); }
      RunGrows(run, SleepThenIdle(n - 1), SleepThenIdle(n), true);
      run := run + [SleepThenIdle(n)];
    }
  }

  /** With `qemu_bh_schedule_idle` allowed in another thread the wake-up is lost: it never notifies. */
  lemma RemoteIdleLosesWakeUp()
    ensures exists run: seq<State> :: |run| == 8 && IsRun(run, true) && WakeUpLost(run[7], 7)
  {
    var run := SleepThenIdleRun(7);
  }

  /** The loop sleeps without a timeout over a live scheduled bottom half, and nothing will wake it. */
  predicate WakeUpLost(s: State, b: BhId) {
    && s.loop.Blocked? && s.loop.timeout.Forever?
    && Live(s, b) && s.bhs[b].scheduled
    && !s.notifier && !Pending(s)
  }
}
