/**
 The list walks of the event loop, with callbacks that poll again and delete what is being walked:
 `aio_bh_poll` over the singly linked bottom halves of qemu/async.c, and `aio_dispatch` and
 `aio_poll` over the descriptor handlers of qemu/aio-posix.c.

 Memory is a map from addresses to nodes; reading a freed node is a missing key.  A walk that is
 inside a callback is a frame on a stack, so any nesting of polls is a sequence of the calls below.
 */
module AioWalks {
  import opened Options
  import opened Runs

  type Addr = nat

  predicate Distinct(order: seq<Addr>) {
    forall i, j :: 0 <= i < j < |order| ==> order[i] != order[j]
  }

  // ------------------------------------------------------------ bottom halves

  datatype Bh = Bh(next: Option<Addr>, scheduled: bool, deleted: bool)

  /** One activation of `aio_bh_poll`: at the head of its loop, or inside a callback. */
  datatype BhFrame =
    | AtNode(cursor: Option<Addr>)
    | InCallback(bh: Addr, next: Option<Addr>)

  function Ptr(order: seq<Addr>, i: nat): Option<Addr> {
    if i < |order| then Some(order[i]) else None
  }

  /** The pointers from `first` run through the nodes of `order` and end. */
  ghost predicate Chain(heap: map<Addr, Bh>, first: Option<Addr>, order: seq<Addr>) {
    && first == Ptr(order, 0)
    && Distinct(order)
    && forall i :: 0 <= i < |order| ==> LinkOk(heap, order, i)
  }

  ghost predicate LinkOk(heap: map<Addr, Bh>, order: seq<Addr>, i: nat)
    requires i < |order|
  {
    order[i] in heap && heap[order[i]].next == Ptr(order, i + 1)
  }

  /** The nodes of the list and nothing else are allocated. */
  ghost predicate Allocated(heap: map<Addr, Bh>, order: seq<Addr>) {
    forall a :: a in heap <==> a in order
  }

  predicate InHeap(heap: map<Addr, Bh>, p: Option<Addr>) {
    p.Some? ==> p.value in heap
  }

  predicate FrameSafe(heap: map<Addr, Bh>, f: BhFrame) {
    match f
    case AtNode(c) => InHeap(heap, c)
    case InCallback(b, n) => b in heap && InHeap(heap, n)
  }

  predicate FramesSafe(heap: map<Addr, Bh>, frames: seq<BhFrame>) {
    forall i :: 0 <= i < |frames| ==> FrameSafe(heap, frames[i])
  }

  /** The bottom halves that a sweep keeps, in order. */
  ghost function Survivors(heap: map<Addr, Bh>, order: seq<Addr>): seq<Addr> {
    if order == [] then []
    else (if order[0] in heap && heap[order[0]].deleted then [] else [order[0]]) + Survivors(heap, order[1..])
  }

  lemma {:induction false} SurvivorsMembers(heap: map<Addr, Bh>, order: seq<Addr>, a: Addr)
    ensures a in Survivors(heap, order) <==> a in order && !(a in heap && heap[a].deleted)
  {
    if order != [] {
      assert order == [order[0]] + order[1..];
      SurvivorsMembers(heap, order[1..], a);
    }
  }

  class BhContext {
    var heap: map<Addr, Bh>
    var first: Option<Addr>
    var frames: seq<BhFrame>
    var walking: nat
    ghost var order: seq<Addr>

    ghost predicate Valid()
      reads this
    {
      && Chain(heap, first, order)
      && Allocated(heap, order)
      && walking == |frames|
      && FramesSafe(heap, frames)
    }

    ghost function Now(): BhState
      reads this
    {
      BhState(order, heap, frames)
    }

    constructor ()
      ensures Valid() && Now() == BhState([], map[], [])
    {
      heap, first, frames, walking, order := map[], None, [], 0, [];
    }

    /** `aio_bh_new`: at the head, so no walk in progress meets the new node. */
    method New(a: Addr)
      requires Valid() && a !in heap
      modifies this`heap, this`first, this`order
      ensures Valid() && order == [a] + old(order)
      ensures heap == old(heap)[a := Bh(old(first), false, false)]
    {
      PushKeepsChain(heap, first, order, a);
      heap := heap[a := Bh(first, false, false)];
      first := Some(a);
      order := [a] + order;
    }

    /** Any store to the flags of a bottom half: schedule, cancel, `qemu_bh_delete`. */
    method SetFlags(a: Addr, scheduled: bool, deleted: bool)
      requires Valid() && a in heap && (heap[a].deleted ==> deleted)
      modifies this`heap
      ensures Valid() && heap == old(heap)[a := old(heap)[a].(scheduled := scheduled, deleted := deleted)]
    {
      FlagsKeepChain(heap, first, order, a, heap[a].(scheduled := scheduled, deleted := deleted));
      heap := heap[a := heap[a].(scheduled := scheduled, deleted := deleted)];
    }

    /** A new activation of `aio_bh_poll`, at top level or from a callback. */
    method Enter()
      requires Valid() && (frames == [] || frames[|frames| - 1].InCallback?)
      modifies this`frames, this`walking
      ensures Valid() && frames == old(frames) + [AtNode(first)]
    {
      walking := walking + 1;
      frames := frames + [AtNode(first)];
    }

    /** One turn of the loop up to the callback, which is called iff `called`. */
    method Visit() returns (called: bool)
      requires Valid() && frames != [] && frames[|frames| - 1].AtNode? && frames[|frames| - 1].cursor.Some?
      modifies this`frames, this`heap
      ensures Valid() && |frames| == |old(frames)|
      ensures var a := old(frames)[|old(frames)| - 1].cursor.value;
              && a in old(heap)
              && called == (!old(heap)[a].deleted && old(heap)[a].scheduled)
              && heap == (if called then old(heap)[a := old(heap)[a].(scheduled := false)] else old(heap))
              && frames == old(frames)[|frames| - 1 := if called then InCallback(a, old(heap)[a].next) else AtNode(old(heap)[a].next)]
    {
      var top := |frames| - 1;
      assert FrameSafe(heap, frames[top]);
      var a := frames[top].cursor.value;
      var next := heap[a].next;
      NextAllocated(heap, first, order, a);
      called := !heap[a].deleted && heap[a].scheduled;
      if called {
        FlagsKeepChain(heap, first, order, a, heap[a].(scheduled := false));
        heap := heap[a := heap[a].(scheduled := false)];
        frames := frames[top := InCallback(a, next)];
      } else {
        frames := frames[top := AtNode(next)];
      }
    }

    /** The callback returns. */
    method Return()
      requires Valid() && frames != [] && frames[|frames| - 1].InCallback?
      modifies this`frames
      ensures Valid() && frames == old(frames)[|frames| - 1 := AtNode(old(frames)[|frames| - 1].next)]
    {
      assert FrameSafe(heap, frames[|frames| - 1]);
      frames := frames[|frames| - 1 := AtNode(frames[|frames| - 1].next)];
    }

    /** The list from `first`, as a reader of the links sees it. */
    method List() returns (list: seq<Addr>)
      requires Valid()
      ensures list == order
    {
      list := [];
      var cur := first;
      while cur.Some?
        invariant list <= order && cur == Ptr(order, |list|)
        decreases |order| - |list|
      {
        CurrentLink(heap, first, order, |list|);
        list := list + [cur.value];
        cur := heap[cur.value].next;
      }
    }

    /** The walk reaches the end of the list; the outermost one removes what is deleted. */
    method Leave()
      requires Valid() && frames != [] && frames[|frames| - 1] == AtNode(None)
      modifies this
      ensures Valid() && frames == old(frames)[..|old(frames)| - 1]
      ensures frames != [] ==> heap == old(heap) && order == old(order)
      ensures frames == [] ==> Swept(old(heap), old(order), heap, order)
    {
      walking := walking - 1;
      frames := frames[..|frames| - 1];
      if walking == 0 {
        Sweep();
      }
    }

    /** The cursor of the sweep is at node `k`; `prev` stands for the pointer `bhp`. */
    ghost predicate SweepingAt(prev: Option<Addr>, cur: Option<Addr>, heap0: map<Addr, Bh>, order0: seq<Addr>, k: nat)
      reads this
    {
      CursorAt(heap, first, order, prev, cur, k) && SweptTo(heap0, order0, heap, order, k)
    }

    /** `*bhp = bh->next; g_free(bh)`, where `bhp` is `&first` or the `next` field of `prev`. */
    method Unlink(prev: Option<Addr>, bh: Addr, ghost heap0: map<Addr, Bh>, ghost order0: seq<Addr>, ghost k: nat)
      returns (next: Option<Addr>)
      requires SweepingAt(prev, Some(bh), heap0, order0, k) && bh in heap && heap[bh].deleted
      modifies this`heap, this`first, this`order
      ensures SweepingAt(prev, next, heap0, order0, k) && |order| == old(|order|) - 1
    {
      ghost var order' := order[..k] + order[k + 1..];
      assert LinkOk(heap, order, k);
      SweepDrops(heap0, order0, heap, first, order, k, order');
      next := heap[bh].next;
      if prev.None? {
        first := next;
      } else {
        heap := heap[prev.value := heap[prev.value].(next := next)];
      }
      heap := heap - {bh};
      order := order';
      assert heap == Unlinked(old(heap), old(order), k);
    }

    /** The loop that unlinks and frees deleted bottom halves. */
    method Sweep()
      requires Valid() && frames == []
      modifies this`heap, this`first, this`order
      ensures Valid() && Swept(old(heap), old(order), heap, order)
    {
      ghost var heap0, order0, k := heap, order, 0;
      var prev: Option<Addr>, cur := None, first;
      SweepBegins(heap, first, order);
      while cur.Some?
        invariant SweepingAt(prev, cur, heap0, order0, k)
        decreases |order| - k
      {
        var bh := cur.value;
        CurrentLink(heap, first, order, k);
        if heap[bh].deleted {
          cur := Unlink(prev, bh, heap0, order0, k);
        } else {
          SweepKeeps(heap0, order0, heap, first, order, prev, cur, k);
          prev, cur := cur, heap[bh].next;
          k := k + 1;
        }
      }
      SweepDone(heap0, order0, heap, order, k);
    }
  }

  /** The list is whole, and the cursor stands on node `k` after node `prev`. */
  ghost predicate CursorAt(heap: map<Addr, Bh>, first: Option<Addr>, order: seq<Addr>, prev: Option<Addr>, cur: Option<Addr>, k: nat) {
    && Chain(heap, first, order) && Allocated(heap, order) && k <= |order|
    && cur == Ptr(order, k) && prev == (if k == 0 then None else Some(order[k - 1]))
  }

  lemma SweepBegins(heap: map<Addr, Bh>, first: Option<Addr>, order: seq<Addr>)
    requires Chain(heap, first, order) && Allocated(heap, order)
    ensures CursorAt(heap, first, order, None, first, 0) && SweptTo(heap, order, heap, order, 0)
  {
    assert order[..0] + Survivors(heap, order[0..]) == Survivors(heap, order);
  }

  lemma CurrentLink(heap: map<Addr, Bh>, first: Option<Addr>, order: seq<Addr>, k: nat)
    requires Chain(heap, first, order) && k < |order|
    ensures LinkOk(heap, order, k)
  {
  }

  /** The sweep has read up to node `k`: what it kept and what it will keep are the survivors. */
  ghost predicate SweptTo(heap0: map<Addr, Bh>, order0: seq<Addr>, heap: map<Addr, Bh>, order: seq<Addr>, k: nat)
    requires k <= |order|
  {
    && Survivors(heap0, order0) == order[..k] + Survivors(heap0, order[k..])
    && Allocated(heap0, order0)
    && forall a :: a in heap ==> a in heap0 && heap[a] == heap0[a].(next := heap[a].next)
  }

  /** The heap after node `k` is unlinked through its predecessor, or through `first`, and freed. */
  ghost function Unlinked(heap: map<Addr, Bh>, order: seq<Addr>, k: nat): map<Addr, Bh>
    requires k < |order| && order[k] in heap && (k > 0 ==> order[k - 1] in heap)
  {
    (if k == 0 then heap else heap[order[k - 1] := heap[order[k - 1]].(next := heap[order[k]].next)]) - {order[k]}
  }

  lemma SweepDrops(heap0: map<Addr, Bh>, order0: seq<Addr>, heap: map<Addr, Bh>, first: Option<Addr>, order: seq<Addr>,
                   k: nat, order': seq<Addr>)
    requires Chain(heap, first, order) && Allocated(heap, order)
    requires k < |order| && LinkOk(heap, order, k) && heap[order[k]].deleted && SweptTo(heap0, order0, heap, order, k)
    requires order' == order[..k] + order[k + 1..]
    ensures k > 0 ==> LinkOk(heap, order, k - 1)
    ensures Chain(Unlinked(heap, order, k), if k == 0 then heap[order[k]].next else first, order')
    ensures Allocated(Unlinked(heap, order, k), order') && SweptTo(heap0, order0, Unlinked(heap, order, k), order', k)
    ensures heap[order[k]].next == Ptr(order', k) && (k > 0 ==> order'[k - 1] == order[k - 1])
  {
    UnlinkKeepsChain(heap, first, order, k);
    RemoveMembers(order, k);
    SurvivorsDrop(heap0, order0, heap, order, k);
  }

  lemma SurvivorsDrop(heap0: map<Addr, Bh>, order0: seq<Addr>, heap: map<Addr, Bh>, order: seq<Addr>, k: nat)
    requires k < |order| && order[k] in heap && heap[order[k]].deleted && SweptTo(heap0, order0, heap, order, k)
    ensures var order' := order[..k] + order[k + 1..];
            Survivors(heap0, order0) == order'[..k] + Survivors(heap0, order'[k..])
  {
    assert order[k..][1..] == order[k + 1..] == (order[..k] + order[k + 1..])[k..];
    assert (order[..k] + order[k + 1..])[..k] == order[..k];
  }

  lemma SweepKeeps(heap0: map<Addr, Bh>, order0: seq<Addr>, heap: map<Addr, Bh>, first: Option<Addr>, order: seq<Addr>,
                   prev: Option<Addr>, cur: Option<Addr>, k: nat)
    requires CursorAt(heap, first, order, prev, cur, k) && SweptTo(heap0, order0, heap, order, k)
    requires k < |order| && LinkOk(heap, order, k) && !heap[order[k]].deleted
    ensures CursorAt(heap, first, order, cur, heap[order[k]].next, k + 1) && SweptTo(heap0, order0, heap, order, k + 1)
  {
    assert order[k..][1..] == order[k + 1..];
    assert order[..k + 1] == order[..k] + [order[k]];
  }

  lemma SweepDone(heap0: map<Addr, Bh>, order0: seq<Addr>, heap: map<Addr, Bh>, order: seq<Addr>, k: nat)
    requires k == |order| && SweptTo(heap0, order0, heap, order, k) && Allocated(heap, order)
    ensures Swept(heap0, order0, heap, order)
  {
    assert order[..k] == order && order[k..] == [];
    forall a
      ensures a in heap <==> a in heap0 && !heap0[a].deleted
    {
      SurvivorsMembers(heap0, order0, a);
    }
  }

  /** Exactly the deleted nodes are gone, the survivors stand in order with their flags. */
  ghost predicate Swept(heap0: map<Addr, Bh>, order0: seq<Addr>, heap: map<Addr, Bh>, order: seq<Addr>) {
    && order == Survivors(heap0, order0)
    && (forall a :: a in heap <==> a in heap0 && !heap0[a].deleted)
    && (forall a :: a in heap ==> heap[a] == heap0[a].(next := heap[a].next))
  }

  lemma PushKeepsChain(heap: map<Addr, Bh>, first: Option<Addr>, order: seq<Addr>, a: Addr)
    requires Chain(heap, first, order) && Allocated(heap, order) && a !in heap
    ensures Chain(heap[a := Bh(first, false, false)], Some(a), [a] + order)
  {
    var heap', order' := heap[a := Bh(first, false, false)], [a] + order;
    forall i | 0 <= i < |order'|
      ensures LinkOk(heap', order', i)
    {
      if i > 0 { assert LinkOk(heap, order, i - 1); }
    }
  }

  lemma FlagsKeepChain(heap: map<Addr, Bh>, first: Option<Addr>, order: seq<Addr>, a: Addr, bh: Bh)
    requires Chain(heap, first, order) && a in heap && bh.next == heap[a].next
    ensures Chain(heap[a := bh], first, order)
  {
    var heap' := heap[a := bh];
    forall i | 0 <= i < |order|
      ensures LinkOk(heap', order, i)
    {
      assert LinkOk(heap, order, i);
    }
  }

  lemma NextAllocated(heap: map<Addr, Bh>, first: Option<Addr>, order: seq<Addr>, a: Addr)
    requires Chain(heap, first, order) && Allocated(heap, order) && a in heap
    ensures InHeap(heap, heap[a].next)
  {
    var i :| 0 <= i < |order| && order[i] == a;
    assert LinkOk(heap, order, i);
  }

  lemma UnlinkKeepsChain(heap: map<Addr, Bh>, first: Option<Addr>, order: seq<Addr>, k: nat)
    requires Chain(heap, first, order) && k < |order|
    ensures LinkOk(heap, order, k) && (k > 0 ==> LinkOk(heap, order, k - 1))
    ensures Chain(Unlinked(heap, order, k), if k == 0 then heap[order[k]].next else first, order[..k] + order[k + 1..])
  {
    assert LinkOk(heap, order, k) && (k > 0 ==> LinkOk(heap, order, k - 1));
    var order' := order[..k] + order[k + 1..];
    forall i | 0 <= i < |order'|
      ensures LinkOk(Unlinked(heap, order, k), order', i)
    {
      assert LinkOk(heap, order, if i < k then i else i + 1);
    }
  }

  lemma RemoveMembers(order: seq<Addr>, k: nat)
    requires Distinct(order) && k < |order|
    ensures var order' := order[..k] + order[k + 1..];
            Distinct(order') && forall a :: a in order' <==> a in order && a != order[k]
  {
    var order' := order[..k] + order[k + 1..];
    forall i, j | 0 <= i < j < |order'|
      ensures order'[i] != order'[j]
    {
      assert order'[i] == order[if i < k then i else i + 1] && order'[j] == order[if j < k then j else j + 1];
    }
    forall a
      ensures a in order' <==> a in order && a != order[k]
    {
      if a in order && a != order[k] {
        var i :| 0 <= i < |order| && order[i] == a;
        assert order'[if i < k then i else i - 1] == a;
      }
    }
  }

  datatype BhOp =
    | OpNew(bh: Addr)
    | OpFlags(bh: Addr, scheduled: bool, deleted: bool)
    | OpEnter
    | OpVisit
    | OpReturn
    | OpLeave

  /** The list, its nodes, and the walks that are on. */
  datatype BhState = BhState(list: seq<Addr>, heap: map<Addr, Bh>, frames: seq<BhFrame>)

  /** What one operation does; one that the call stack does not allow does nothing. */
  ghost predicate BhMoves(m: BhState, op: BhOp, m': BhState) {
    var n := |m.frames|;
    match op
    case OpNew(a) =>
      if a !in m.heap then m' == BhState([a] + m.list, m.heap[a := Bh(Ptr(m.list, 0), false, false)], m.frames) else m' == m
    case OpFlags(a, s, d) =>
      if a in m.heap then m' == m.(heap := m.heap[a := m.heap[a].(scheduled := s, deleted := d || m.heap[a].deleted)]) else m' == m
    case OpEnter =>
      if n == 0 || m.frames[n - 1].InCallback? then m' == m.(frames := m.frames + [AtNode(Ptr(m.list, 0))]) else m' == m
    case OpVisit =>
      if n > 0 && m.frames[n - 1].AtNode? && m.frames[n - 1].cursor.Some? then VisitMoves(m, m.frames[n - 1].cursor.value, m') else m' == m
    case OpReturn =>
      if n > 0 && m.frames[n - 1].InCallback? then m' == m.(frames := m.frames[n - 1 := AtNode(m.frames[n - 1].next)]) else m' == m
    case OpLeave =>
      if n > 0 && m.frames[n - 1] == AtNode(None) then
        && m'.frames == m.frames[..n - 1]
        && if n == 1 then Swept(m.heap, m.list, m'.heap, m'.list) else m'.heap == m.heap && m'.list == m.list
      else m' == m
  }

  /** The walk on top of the stack is at node `a`: its callback runs iff it is scheduled and not deleted. */
  ghost predicate VisitMoves(m: BhState, a: Addr, m': BhState)
    requires m.frames != []
  {
    && a in m.heap
    && var bh, top := m.heap[a], |m.frames| - 1;
       if bh.scheduled && !bh.deleted
       then m' == BhState(m.list, m.heap[a := bh.(scheduled := false)], m.frames[top := InCallback(a, bh.next)])
       else m' == m.(frames := m.frames[top := AtNode(bh.next)])
  }

  /** The links run through the list, its nodes and no others are allocated, and so is every node a walk stands on or goes to. */
  ghost predicate BhStateOk(m: BhState) {
    Chain(m.heap, Ptr(m.list, 0), m.list) && Allocated(m.heap, m.list) && FramesSafe(m.heap, m.frames)
  }

  method PerformBh(ctx: BhContext, op: BhOp)
    requires ctx.Valid()
    modifies ctx
    ensures ctx.Valid() && BhMoves(old(ctx.Now()), op, ctx.Now())
  {
    var top := |ctx.frames| - 1;
    match op
    case OpNew(a) =>
      if a !in ctx.heap { ctx.New(a); }
    case OpFlags(a, s, d) =>
      if a in ctx.heap { ctx.SetFlags(a, s, d || ctx.heap[a].deleted); }
    case OpEnter =>
      if top < 0 || ctx.frames[top].InCallback? { ctx.Enter(); }
    case OpVisit =>
      if top >= 0 && ctx.frames[top].AtNode? && ctx.frames[top].cursor.Some? { var called := ctx.Visit(); }
    case OpReturn =>
      if top >= 0 && ctx.frames[top].InCallback? { ctx.Return(); }
    case OpLeave =>
      if top >= 0 && ctx.frames[top] == AtNode(None) { ctx.Leave(); }
  }

  /**
   Any sequence of list operations, polls, nested polls and deletions, in any order that the call stack
   allows (an operation the stack does not allow is skipped).  Every node a walk reads is allocated, no
   callback runs on a deleted bottom half, and when an outermost walk ends exactly the deleted ones are gone
   and the others stand in their order.
   */
  method DriveBottomHalves(ops: seq<BhOp>) returns (run: seq<BhState>)
    ensures Follows(run, ops, BhMoves) && run[0] == BhState([], map[], []) && Always(run, |run|, BhStateOk)
  {
    var ctx := new BhContext();
    run := [BhState([], ctx.heap, ctx.frames)];
    for k := 0 to |ops|
      invariant ctx.Valid() && fresh(ctx)
      invariant Follows(run, ops[..k], BhMoves) && run[0] == BhState([], map[], []) && Always(run, k + 1, BhStateOk)
      invariant run[k] == ctx.Now()
    {
      PerformBh(ctx, ops[k]);
      var list := ctx.List();
      var m := BhState(list, ctx.heap, ctx.frames);
      assert ops[..k + 1] == ops[..k] + [ops[k]];
      FollowsNext(run, ops[..k], ops[k], m, BhMoves);
      AlwaysNext(run, k + 1, m, BhStateOk);
      run := run + [m];
    }
    assert ops[..|ops|] == ops;
  }

  // ------------------------------------------------------------ descriptor handlers

  /** What poll() can report: readable, hung up, in error, writable. */
  datatype Condition = In | Hup | Err | Out

  datatype Handler = Handler(fd: int, read: bool, write: bool, revents: set<Condition>, deleted: bool)

  /** `pfd.events`: what the callbacks of a handler wait for. */
  function Events(h: Handler): set<Condition> {
    (if h.read then {In, Hup, Err} else {}) + (if h.write then {Out, Err} else {})
  }

  datatype Phase = BeforeRead | InRead | BeforeWrite | InWrite | Done

  /**
   * `aio_poll` around poll() with its array of nodes, or one turn of the loop in `aio_dispatch`: what its
   * handler was when the turn began and at each of the two tests, and which callbacks have run.
   */
  datatype HandlerFrame =
    | Polling(nodes: seq<Addr>)
    | Dispatching(node: Addr, revents: set<Condition>, phase: Phase, begun: Handler, atRead: Handler, atWrite: Handler, ranRead: bool, ranWrite: bool)

  /** The read callback is due: the handler is live and has one, and something it waited for lets it read. */
  predicate ReadDue(begun: Handler, now: Handler) {
    && !now.deleted && now.read
    && ((In in begun.revents && begun.read) || (Hup in begun.revents && begun.read) || (Err in begun.revents && (begun.read || begun.write)))
  }

  predicate WriteDue(begun: Handler, now: Handler) {
    && !now.deleted && now.write
    && ((Out in begun.revents && begun.write) || (Err in begun.revents && (begun.read || begun.write)))
  }

  /** So far the turn has run exactly the callbacks that were due. */
  predicate TurnOk(f: HandlerFrame) {
    f.Dispatching? ==>
      && f.revents == f.begun.revents * Events(f.begun)
      && (f.phase.BeforeRead? ==> !f.ranRead && !f.ranWrite)
      && (f.phase.InRead? ==> f.ranRead && !f.ranWrite)
      && (f.phase.BeforeWrite? ==> !f.ranWrite)
      && (f.phase.InWrite? ==> f.ranWrite)
      && (!f.phase.BeforeRead? ==> (f.ranRead <==> ReadDue(f.begun, f.atRead)))
      && (f.phase.InWrite? || f.phase.Done? ==> (f.ranWrite <==> WriteDue(f.begun, f.atWrite)))
  }

  /** The list, its nodes, and the polls and turns that are on. */
  datatype HandlerState = HandlerState(list: seq<Addr>, heap: map<Addr, Handler>, frames: seq<HandlerFrame>)

  predicate LiveFor(m: HandlerState, fd: int, a: Addr) { a in m.heap && m.heap[a].fd == fd && !m.heap[a].deleted }

  /** A handler goes: at once if nobody walks the list, and otherwise by a mark. */
  predicate FdDropped(m: HandlerState, a: Addr, m': HandlerState)
    requires a in m.heap
  {
    if m.frames == [] then a in m.list && var k := IndexOf(m.list, a); m' == HandlerState(m.list[..k] + m.list[k + 1..], m.heap - {a}, m.frames)
    else m' == m.(heap := m.heap[a := m.heap[a].(deleted := true, revents := {})])
  }

  /** `aio_set_fd_handler`: the live handler of the descriptor goes, gets the callbacks, or is made. */
  ghost predicate FdSet(m: HandlerState, fd: int, read: bool, write: bool, spare: Addr, m': HandlerState) {
    if exists a :: LiveFor(m, fd, a)
    then exists a :: LiveFor(m, fd, a)
                     && if read || write then m' == m.(heap := m.heap[a := m.heap[a].(read := read, write := write)]) else FdDropped(m, a, m')
    else m' == if read || write then HandlerState([spare] + m.list, m.heap[spare := Handler(fd, read, write, {}, false)], m.frames) else m
  }

  /** The descriptor has one live handler with these callbacks, or none; others are untouched; no node is freed while somebody walks. */
  ghost predicate FdHandled(m: HandlerState, fd: int, read: bool, write: bool, m': HandlerState) {
    && (forall a :: a in m.heap && m.heap[a].fd != fd ==> a in m'.heap && m'.heap[a] == m.heap[a])
    && (m.frames != [] ==> forall a :: a in m.heap ==> a in m'.heap)
    && ((exists a :: LiveFor(m', fd, a)) <==> read || write)
    && forall a :: LiveFor(m', fd, a) ==> m'.heap[a].read == read && m'.heap[a].write == write
  }

  lemma DroppedHandled(m: HandlerState, fd: int, a: Addr, m': HandlerState)
    requires LiveFor(m, fd, a) && OneLivePerFd(m.heap) && FdDropped(m, a, m')
    ensures FdHandled(m, fd, false, false, m')
  {
    assert forall b :: b in m.heap && b != a && m.heap[b].fd == fd ==> m.heap[b].deleted;
    assert forall b :: !LiveFor(m', fd, b);
  }

  lemma PutHandled(m: HandlerState, fd: int, read: bool, write: bool, a: Addr, h: Handler, m': HandlerState)
    requires OneLivePerFd(m.heap) && (read || write) && h.fd == fd && !h.deleted && h.read == read && h.write == write
    requires if a in m.heap then LiveFor(m, fd, a) else forall b :: !LiveFor(m, fd, b)
    requires m'.heap == m.heap[a := h]
    ensures FdHandled(m, fd, read, write, m')
  {
    assert LiveFor(m', fd, a);
    forall b | LiveFor(m', fd, b)
      ensures b == a
    {
      if b != a { assert LiveFor(m, fd, b); }
    }
  }

  lemma FdSetMeans(m: HandlerState, fd: int, read: bool, write: bool, spare: Addr, m': HandlerState)
    requires FdSet(m, fd, read, write, spare, m') && OneLivePerFd(m.heap) && spare !in m.heap
    ensures FdHandled(m, fd, read, write, m')
  {
    if exists x :: LiveFor(m, fd, x) {
      var a :| LiveFor(m, fd, a)
               && if read || write then m' == m.(heap := m.heap[a := m.heap[a].(read := read, write := write)]) else FdDropped(m, a, m');
      if read || write {
        PutHandled(m, fd, read, write, a, m.heap[a].(read := read, write := write), m');
      } else {
        DroppedHandled(m, fd, a, m');
      }
    } else if read || write {
      PutHandled(m, fd, read, write, spare, Handler(fd, read, write, {}, false), m');
    }
  }

  /** A turn notes and clears what poll() reported for its node. */
  predicate TurnBegins(m: HandlerState, node: Addr, m': HandlerState) {
    && node in m.heap
    && var h := m.heap[node];
       m' == HandlerState(m.list, m.heap[node := h.(revents := {})],
                          m.frames + [Dispatching(node, h.revents * Events(h), BeforeRead, h, h, h, false, false)])
  }

  /** The walk goes on to the node behind its own, which is freed if it is deleted and no other walk is on. */
  predicate TurnEnds(m: HandlerState, next: Option<Addr>, m': HandlerState)
    requires m.frames != [] && m.frames[|m.frames| - 1].Dispatching?
  {
    var node := m.frames[|m.frames| - 1].node;
    && node in m.heap && node in m.list
    && next == Ptr(m.list, IndexOf(m.list, node) + 1)
    && m' == Reaped(m.(frames := m.frames[..|m.frames| - 1]), node)
  }

  /** Without the node, if it is deleted and no walk is on. */
  function Reaped(m: HandlerState, node: Addr): HandlerState
    requires node in m.heap && node in m.list
  {
    if m.frames == [] && m.heap[node].deleted
    then var k := IndexOf(m.list, node); HandlerState(m.list[..k] + m.list[k + 1..], m.heap - {node}, m.frames)
    else m
  }

  class HandlerContext {
    var list: seq<Addr>
    var heap: map<Addr, Handler>
    var frames: seq<HandlerFrame>
    var walking: nat

    ghost predicate Valid()
      reads this
    {
      && Distinct(list)
      && (forall a :: a in heap <==> a in list)
      && walking == |frames|
      && (forall i :: 0 <= i < |frames| ==> HandlerFrameSafe(heap.Keys, frames[i]))
      && (forall i :: 0 <= i < |frames| - 1 ==> InHandlerCallback(frames[i]))
      && (forall i {:trigger TurnOk(frames[i])} :: 0 <= i < |frames| ==> TurnOk(frames[i]))
      && OneLivePerFd(heap)
    }

    function Now(): HandlerState
      reads this
    {
      HandlerState(list, heap, frames)
    }

    constructor ()
      ensures Valid() && Now() == HandlerState([], map[], [])
    {
      list, heap, frames, walking := [], map[], [], 0;
    }

    /** `find_aio_handler`. */
    method Find(fd: int) returns (node: Option<Addr>)
      requires Valid()
      ensures node.Some? ==> node.value in heap && heap[node.value].fd == fd && !heap[node.value].deleted
      ensures node.None? ==> forall a :: a in heap && heap[a].fd == fd ==> heap[a].deleted
    {
      for i := 0 to |list|
        invariant forall j :: 0 <= j < i ==> heap[list[j]].fd == fd ==> heap[list[j]].deleted
      {
        if heap[list[i]].fd == fd && !heap[list[i]].deleted {
          return Some(list[i]);
        }
      }
      node := None;
    }

    /** `aio_set_fd_handler`; `spare` is the address that g_new0 returns if it is called. */
    method SetFdHandler(fd: int, read: bool, write: bool, spare: Addr)
      requires Valid() && spare !in heap
      modifies this`list, this`heap
      ensures Valid() && FdSet(old(Now()), fd, read, write, spare, Now())
      ensures FdHandled(old(Now()), fd, read, write, Now())
    {
      ghost var m := Now();
      SetFd(fd, read, write, spare);
      FdSetMeans(m, fd, read, write, spare, Now());
    }

    method SetFd(fd: int, read: bool, write: bool, spare: Addr)
      requires Valid() && spare !in heap
      modifies this`list, this`heap
      ensures Valid() && FdSet(old(Now()), fd, read, write, spare, Now())
    {
      var node := Find(fd);
      ghost var m := Now();
      assert node.Some? ==> LiveFor(m, fd, node.value);
      if read || write {
        PutHandler(fd, read, write, node, spare);
      } else if node.Some? {
        RemoveHandler(fd, node.value);
        assert FdDropped(m, node.value, Now());
      }
    }

    /** The handler goes at once, or is marked while somebody walks the list. */
    method RemoveHandler(fd: int, node: Addr)
      requires Valid() && node in heap && heap[node].fd == fd && !heap[node].deleted
      modifies this`list, this`heap
      ensures Valid()
      ensures forall a :: a in heap && heap[a].fd == fd ==> heap[a].deleted
      ensures walking != 0 ==> list == old(list)
      ensures walking != 0 ==> heap == old(heap)[node := old(heap)[node].(deleted := true, revents := {})]
      ensures walking == 0 ==> heap == old(heap) - {node} && var k := IndexOf(old(list), node); list == old(list)[..k] + old(list)[k + 1..]
    {
      if walking != 0 {
        heap := heap[node := heap[node].(deleted := true, revents := {})];
      } else {
        FreeNode(node);
      }
    }

    /** `QLIST_REMOVE` and `g_free`, while nobody walks. */
    method FreeNode(node: Addr)
      requires Valid() && frames == [] && node in heap && node in list
      modifies this`list, this`heap
      ensures Valid() && heap == old(heap) - {node} && var k := IndexOf(old(list), node); list == old(list)[..k] + old(list)[k + 1..]
    {
      var k := IndexOf(list, node);
      RemoveMembers(list, k);
      list := list[..k] + list[k + 1..];
      heap := heap - {node};
    }

    /** The handler is made if there is none, and its callbacks are set. */
    method PutHandler(fd: int, read: bool, write: bool, node: Option<Addr>, spare: Addr)
      requires Valid() && spare !in heap
      requires node.Some? ==> node.value in heap && heap[node.value].fd == fd && !heap[node.value].deleted
      requires node.None? ==> forall a :: a in heap && heap[a].fd == fd ==> heap[a].deleted
      modifies this`list, this`heap
      ensures Valid()
      ensures node.Some? ==> list == old(list) && heap == old(heap)[node.value := old(heap)[node.value].(read := read, write := write)]
      ensures node.None? ==> list == [spare] + old(list) && heap == old(heap)[spare := Handler(fd, read, write, {}, false)]
    {
      var a := spare;
      if node.None? {
        list := [a] + list;
        heap := heap[a := Handler(fd, false, false, {}, false)];
      } else {
        a := node.value;
      }
      heap := heap[a := heap[a].(read := read, write := write)];
    }

    /** `aio_poll` up to poll(): note the live handlers with something to wait for. */
    method BeginPoll()
      requires Valid() && (frames == [] || InHandlerCallback(frames[|frames| - 1]))
      modifies this`frames, this`walking
      ensures Valid() && frames == old(frames) + [Polling(Pollable(heap, list))]
      ensures var nodes := frames[|frames| - 1].nodes;
              forall a :: a in nodes <==> a in heap && !heap[a].deleted && (heap[a].read || heap[a].write)
    {
      var nodes := Waiting();
      Push(Polling(nodes));
    }

    /** One more user walks the list. */
    method Push(f: HandlerFrame)
      requires Valid() && HandlerFrameSafe(heap.Keys, f) && TurnOk(f) && (frames == [] || InHandlerCallback(frames[|frames| - 1]))
      modifies this`frames, this`walking
      ensures Valid() && frames == old(frames) + [f]
    {
      walking := walking + 1;
      frames := frames + [f];
    }

    /** One user less. */
    method Pop()
      requires Valid() && frames != []
      modifies this`frames, this`walking
      ensures Valid() && frames == old(frames)[..|old(frames)| - 1]
    {
      walking := walking - 1;
      frames := frames[..|frames| - 1];
    }

    /** The array for poll(). */
    method Waiting() returns (nodes: seq<Addr>)
      requires Valid()
      ensures nodes == Pollable(heap, list)
      ensures forall a :: a in nodes <==> a in heap && !heap[a].deleted && (heap[a].read || heap[a].write)
    {
      nodes := [];
      assert list[..|list|] == list;
      for i := 0 to |list|
        invariant nodes == Pollable(heap, list[..i])
      {
        assert list[..i + 1][..i] == list[..i];
        if !heap[list[i]].deleted && (heap[list[i]].read || heap[list[i]].write) {
          nodes := nodes + [list[i]];
        }
      }
      PollableMembers(heap, list);
    }

    /** After poll(): store the results through the noted pointers, if poll() reported any. */
    method EndPoll(ret: int, reported: int -> set<Condition>)
      requires Valid() && frames != [] && frames[|frames| - 1].Polling?
      modifies this`heap, this`frames, this`walking
      ensures Valid() && frames == old(frames)[..|old(frames)| - 1] && heap.Keys == old(heap).Keys
      ensures var nodes := old(frames)[|old(frames)| - 1].nodes;
              forall a :: a in heap ==>
                heap[a] == if ret > 0 && a in nodes then old(heap)[a].(revents := reported(old(heap)[a].fd)) else old(heap)[a]
    {
      var top := |frames| - 1;
      var nodes := frames[top].nodes;
      assert HandlerFrameSafe(heap.Keys, frames[top]);
      if ret > 0 {
        StoreResults(nodes, reported);
      }
      walking := walking - 1;
      frames := frames[..top];
    }

    method StoreResults(nodes: seq<Addr>, reported: int -> set<Condition>)
      requires forall j :: 0 <= j < |nodes| ==> nodes[j] in heap
      modifies this`heap
      ensures heap.Keys == old(heap).Keys
      ensures forall a :: a in heap ==> heap[a] == if a in nodes then old(heap)[a].(revents := reported(old(heap)[a].fd)) else old(heap)[a]
    {
      for i := 0 to |nodes|
        invariant heap.Keys == old(heap).Keys
        invariant forall a :: a in heap ==>
                    heap[a] == if a in nodes[..i] then old(heap)[a].(revents := reported(old(heap)[a].fd)) else old(heap)[a]
      {
        var a := nodes[i];
        heap := heap[a := heap[a].(revents := reported(heap[a].fd))];
        assert nodes[..i + 1] == nodes[..i] + [a];
      }
      assert nodes[..|nodes|] == nodes;
    }

    /** Start a turn of the dispatch loop at `node`. */
    method BeginTurn(node: Addr)
      requires Valid() && node in heap && (frames == [] || InHandlerCallback(frames[|frames| - 1]))
      modifies this`heap, this`frames, this`walking
      ensures Valid() && TurnBegins(old(Now()), node, Now())
    {
      var h := heap[node];
      Push(Dispatching(node, h.revents * Events(h), BeforeRead, h, h, h, false, false));
      heap := heap[node := h.(revents := {})];
      assert heap.Keys == old(heap).Keys;
    }

    /** The test before io_read; `called` tells whether the callback runs.  The test before io_write follows in any case. */
    method TestRead() returns (called: bool)
      requires Valid() && frames != []
      requires var f := frames[|frames| - 1]; f.Dispatching? && f.phase.BeforeRead?
      modifies this`frames
      ensures Valid() && |frames| == old(|frames|)
      ensures var f := old(frames)[|old(frames)| - 1];
              && f.node in heap && (called <==> ReadDue(f.begun, heap[f.node]))
              && frames == old(frames)[|frames| - 1 := f.(phase := if called then InRead else BeforeWrite, atRead := heap[f.node], ranRead := called)]
    {
      var top := |frames| - 1;
      var f := frames[top];
      assert HandlerFrameSafe(heap.Keys, f) && TurnOk(f);
      var h := heap[f.node];
      called := !h.deleted && f.revents * {In, Hup, Err} != {} && h.read;
      MayRead(f);
      frames := frames[top := f.(phase := if called then InRead else BeforeWrite, atRead := h, ranRead := called)];
    }

    /** The test before io_write. */
    method TestWrite() returns (called: bool)
      requires Valid() && frames != []
      requires var f := frames[|frames| - 1]; f.Dispatching? && f.phase.BeforeWrite?
      modifies this`frames
      ensures Valid() && |frames| == old(|frames|)
      ensures var f := old(frames)[|old(frames)| - 1];
              && f.node in heap && (called <==> WriteDue(f.begun, heap[f.node]))
              && frames == old(frames)[|frames| - 1 := f.(phase := if called then InWrite else Done, atWrite := heap[f.node], ranWrite := called)]
    {
      var top := |frames| - 1;
      var f := frames[top];
      assert HandlerFrameSafe(heap.Keys, f) && TurnOk(f);
      var h := heap[f.node];
      called := !h.deleted && f.revents * {Out, Err} != {} && h.write;
      MayWrite(f);
      frames := frames[top := f.(phase := if called then InWrite else Done, atWrite := h, ranWrite := called)];
    }

    /** A callback returns; after io_read the write test follows. */
    method Return()
      requires Valid() && frames != [] && InHandlerCallback(frames[|frames| - 1])
      modifies this`frames
      ensures Valid()
      ensures var f := old(frames)[|frames| - 1];
              frames == old(frames)[|frames| - 1 := f.(phase := if f.phase.InRead? then BeforeWrite else Done)]
    {
      var top := |frames| - 1;
      var f := frames[top];
      assert HandlerFrameSafe(heap.Keys, f) && TurnOk(f);
      frames := frames[top := f.(phase := if f.phase.InRead? then BeforeWrite else Done)];
    }

    /** Both callbacks of the turn are over: step to the next node, and free this one if nobody else walks. */
    method EndTurn() returns (next: Option<Addr>)
      requires Valid() && frames != [] && frames[|frames| - 1].Dispatching? && frames[|frames| - 1].phase.Done?
      modifies this
      ensures Valid() && frames == old(frames)[..|old(frames)| - 1]
      ensures var f := old(frames)[|old(frames)| - 1]; (f.ranRead <==> ReadDue(f.begun, f.atRead)) && (f.ranWrite <==> WriteDue(f.begun, f.atWrite))
      ensures next.Some? ==> next.value in heap
      ensures TurnEnds(old(Now()), next, Now())
    {
      var top := |frames| - 1;
      var tmp := frames[top].node;
      assert HandlerFrameSafe(heap.Keys, frames[top]) && TurnOk(frames[top]);
      var k := IndexOf(list, tmp);
      next := Ptr(list, k + 1);
      Pop();
      Reap(tmp);
    }

    /** A deleted node is freed if nobody walks. */
    method Reap(node: Addr)
      requires Valid() && node in heap && node in list
      modifies this`list, this`heap
      ensures Valid() && Now() == Reaped(old(Now()), node)
      ensures forall a :: a in old(heap) && a != node ==> a in heap
    {
      if walking == 0 && heap[node].deleted {
        FreeNode(node);
      }
    }
  }

  /** The handlers `aio_poll` puts in its array. */
  function Pollable(heap: map<Addr, Handler>, list: seq<Addr>): seq<Addr> {
    if list == [] then []
    else
      var a := list[|list| - 1];
      Pollable(heap, list[..|list| - 1]) + if a in heap && !heap[a].deleted && (heap[a].read || heap[a].write) then [a] else []
  }

  lemma {:induction false} PollableMembers(heap: map<Addr, Handler>, list: seq<Addr>)
    requires Distinct(list)
    ensures var nodes := Pollable(heap, list);
            Distinct(nodes) && forall a :: a in nodes <==> a in list && a in heap && !heap[a].deleted && (heap[a].read || heap[a].write)
  {
    if list != [] {
      var n := |list| - 1;
      PollableMembers(heap, list[..n]);
      assert list == list[..n] + [list[n]];
    }
  }

  lemma MayRead(f: HandlerFrame)
    requires f.Dispatching? && f.revents == f.begun.revents * Events(f.begun)
    ensures f.revents * {In, Hup, Err} != {} <==>
              (In in f.begun.revents && f.begun.read) || (Hup in f.begun.revents && f.begun.read)
              || (Err in f.begun.revents && (f.begun.read || f.begun.write))
  {
    var s := f.revents * {In, Hup, Err};
    if In in s || Hup in s || Err in s {
    } else {
      assert s == {};
    }
  }

  lemma MayWrite(f: HandlerFrame)
    requires f.Dispatching? && f.revents == f.begun.revents * Events(f.begun)
    ensures f.revents * {Out, Err} != {} <==>
              (Out in f.begun.revents && f.begun.write) || (Err in f.begun.revents && (f.begun.read || f.begun.write))
  {
    var s := f.revents * {Out, Err};
    if Out in s || Err in s {
    } else {
      assert s == {};
    }
  }

  predicate InHandlerCallback(f: HandlerFrame) {
    f.Dispatching? && (f.phase.InRead? || f.phase.InWrite?)
  }

  predicate HandlerFrameSafe(live: set<Addr>, f: HandlerFrame) {
    match f
    case Polling(nodes) => forall i :: 0 <= i < |nodes| ==> nodes[i] in live
    case Dispatching(node, _, _, _, _, _, _, _) => node in live
  }

  ghost predicate OneLivePerFd(heap: map<Addr, Handler>) {
    forall a, b :: a in heap && b in heap && heap[a].fd == heap[b].fd && !heap[a].deleted && !heap[b].deleted ==> a == b
  }

  datatype HandlerOp =
    | OpSetFd(fd: int, read: bool, write: bool, spare: Addr)
    | OpBeginPoll
    | OpEndPoll(ret: int, reported: int -> set<Condition>)
    | OpDispatch
    | OpTest
    | OpReturnCb
    | OpEndTurn

  predicate MayNest(m: HandlerState) { m.frames == [] || InHandlerCallback(m.frames[|m.frames| - 1]) }

  /** What one operation does; one that the call stack does not allow does nothing. */
  ghost predicate HandlerMoves(m: HandlerState, op: HandlerOp, m': HandlerState) {
    var n := |m.frames|;
    match op
    case OpSetFd(fd, read, write, spare) => if spare !in m.heap then FdSet(m, fd, read, write, spare, m') else m' == m
    case OpBeginPoll => m' == if MayNest(m) then m.(frames := m.frames + [Polling(Pollable(m.heap, m.list))]) else m
    case OpEndPoll(ret, reported) => if n > 0 && m.frames[n - 1].Polling? then PollEnds(m, ret, reported, m') else m' == m
    case OpDispatch => if m.list != [] && MayNest(m) then TurnBegins(m, m.list[0], m') else m' == m
    case OpTest => if n > 0 && m.frames[n - 1].Dispatching? then TestMoves(m, m') else m' == m
    case OpReturnCb =>
      m' == if n > 0 && InHandlerCallback(m.frames[n - 1])
            then m.(frames := m.frames[n - 1 := m.frames[n - 1].(phase := if m.frames[n - 1].phase.InRead? then BeforeWrite else Done)])
            else m
    case OpEndTurn =>
      if n > 0 && m.frames[n - 1].Dispatching? && m.frames[n - 1].phase.Done?
      then exists next, mid :: TurnEnds(m, next, mid) && if next.Some? then TurnBegins(mid, next.value, m') else m' == mid
      else m' == m
  }

  /** Results go to the handlers noted before poll(), if it reported any. */
  ghost predicate PollEnds(m: HandlerState, ret: int, reported: int -> set<Condition>, m': HandlerState)
    requires m.frames != [] && m.frames[|m.frames| - 1].Polling?
  {
    var nodes := m.frames[|m.frames| - 1].nodes;
    && m'.list == m.list && m'.frames == m.frames[..|m.frames| - 1] && m'.heap.Keys == m.heap.Keys
    && forall a :: a in m.heap ==> m'.heap[a] == if ret > 0 && a in nodes then m.heap[a].(revents := reported(m.heap[a].fd)) else m.heap[a]
  }

  /** The test of the turn that is on: its callback runs iff it is due. */
  ghost predicate TestMoves(m: HandlerState, m': HandlerState)
    requires m.frames != [] && m.frames[|m.frames| - 1].Dispatching?
  {
    var top := |m.frames| - 1;
    var f := m.frames[top];
    && f.node in m.heap
    && var h := m.heap[f.node];
       m' == if f.phase.BeforeRead? then
               var due := ReadDue(f.begun, h);
               m.(frames := m.frames[top := f.(phase := if due then InRead else BeforeWrite, atRead := h, ranRead := due)])
             else if f.phase.BeforeWrite? then
               var due := WriteDue(f.begun, h);
               m.(frames := m.frames[top := f.(phase := if due then InWrite else Done, atWrite := h, ranWrite := due)])
             else m
  }

  /**
   * The nodes of the list and no others are allocated, and so are the nodes that poll results go to or that a turn
   * is on; a descriptor has one live handler at most; and each turn has run exactly the callbacks that were due.
   */
  ghost predicate HandlerStateOk(m: HandlerState) {
    && Distinct(m.list) && (forall a :: a in m.heap <==> a in m.list) && OneLivePerFd(m.heap)
    && (forall i :: 0 <= i < |m.frames| ==> HandlerFrameSafe(m.heap.Keys, m.frames[i]))
    && forall i {:trigger TurnOk(m.frames[i])} :: 0 <= i < |m.frames| ==> TurnOk(m.frames[i])
  }

  /**
   Any sequence of registrations, removals, polls and dispatches, nested through callbacks in any way the
   call stack allows: every node that a poll result is stored through or a walk stands on is allocated at
   that moment, a callback runs only on a live handler, of which a descriptor has one at most, and a turn
   runs the callbacks that are due at their tests, no more and no fewer, and frees its own node and nothing else, if that is marked deleted and no other walk is on.
   */
  method DriveHandlers(ops: seq<HandlerOp>) returns (run: seq<HandlerState>)
    ensures Follows(run, ops, HandlerMoves) && run[0] == HandlerState([], map[], []) && Always(run, |run|, HandlerStateOk)
  {
    var ctx := new HandlerContext();
    run := [ctx.Now()];
    for k := 0 to |ops|
      invariant ctx.Valid() && fresh(ctx)
      invariant Follows(run, ops[..k], HandlerMoves) && run[0] == HandlerState([], map[], []) && Always(run, k + 1, HandlerStateOk)
      invariant run[k] == ctx.Now()
    {
      PerformHandlerOp(ctx, ops[k]);
      assert ops[..k + 1] == ops[..k] + [ops[k]];
      FollowsNext(run, ops[..k], ops[k], ctx.Now(), HandlerMoves);
      AlwaysNext(run, k + 1, ctx.Now(), HandlerStateOk);
      run := run + [ctx.Now()];
    }
    assert ops[..|ops|] == ops;
  }

  method PerformHandlerOp(ctx: HandlerContext, op: HandlerOp)
    requires ctx.Valid()
    modifies ctx
    ensures ctx.Valid() && HandlerMoves(old(ctx.Now()), op, ctx.Now())
  {
    var top := |ctx.frames| - 1;
    match op
    case OpSetFd(_, _, _, _) =>
      PerformSetFd(ctx, op);
    case OpBeginPoll =>
      if top < 0 || InHandlerCallback(ctx.frames[top]) { ctx.BeginPoll(); }
    case OpEndPoll(ret, reported) =>
      if top >= 0 && ctx.frames[top].Polling? { ctx.EndPoll(ret, reported); }
    case OpDispatch =>
      if ctx.list != [] && (top < 0 || InHandlerCallback(ctx.frames[top])) { ctx.BeginTurn(ctx.list[0]); }
    case OpTest =>
      PerformTest(ctx);
    case OpReturnCb =>
      if top >= 0 && InHandlerCallback(ctx.frames[top]) { ctx.Return(); }
    case OpEndTurn =>
      PerformEndTurn(ctx);
  }

  method PerformSetFd(ctx: HandlerContext, op: HandlerOp)
    requires ctx.Valid() && op.OpSetFd?
    modifies ctx
    ensures ctx.Valid() && HandlerMoves(old(ctx.Now()), op, ctx.Now())
  {
    if op.spare !in ctx.heap { ctx.SetFdHandler(op.fd, op.read, op.write, op.spare); }
  }

  method PerformTest(ctx: HandlerContext)
    requires ctx.Valid()
    modifies ctx
    ensures ctx.Valid() && HandlerMoves(old(ctx.Now()), OpTest, ctx.Now())
  {
    var top := |ctx.frames| - 1;
    if top >= 0 && ctx.frames[top].Dispatching? {
      assert HandlerFrameSafe(ctx.heap.Keys, ctx.frames[top]);
      if ctx.frames[top].phase.BeforeRead? {
        var called := ctx.TestRead();
      } else if ctx.frames[top].phase.BeforeWrite? {
        var called := ctx.TestWrite();
      }
    }
  }

  method PerformEndTurn(ctx: HandlerContext)
    requires ctx.Valid()
    modifies ctx
    ensures ctx.Valid() && HandlerMoves(old(ctx.Now()), OpEndTurn, ctx.Now())
  {
    var top := |ctx.frames| - 1;
    if top >= 0 && ctx.frames[top].Dispatching? && ctx.frames[top].phase.Done? {
      ghost var m := ctx.Now();
      var next := ctx.EndTurn();
      ghost var mid := ctx.Now();
      if next.Some? { ctx.BeginTurn(next.value); }
      assert TurnEnds(m, next, mid) && if next.Some? then TurnBegins(mid, next.value, ctx.Now()) else ctx.Now() == mid;
    }
  }

  function IndexOf(list: seq<Addr>, a: Addr): (k: nat)
    requires a in list
    ensures k < |list| && list[k] == a
  {
    if list[0] == a then 0 else 1 + IndexOf(list[1..], a)
  }
}
