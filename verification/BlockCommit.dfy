/** Committing an overlay image into its backing image, sector by sector, with failures anywhere. */
module BlockCommit {
  import opened Arithmetic
  import opened Options

  const COMMIT_BUF_SECTORS: nat := 2048

  datatype Errno = NoMedium | NotSupported | Busy | NoAccess | NoLength | Truncate | NoMemory | Status | Read | Write | MakeEmpty

  // ------------------------------------------------------------ what the guest sees

  /** Sector `s` of an overlay: its own data where allocated, else the backing image, which reads as zeros past its end. */
  function Visible<T>(overlay: seq<Option<T>>, backing: seq<T>, zero: T, s: nat): T
    requires s < |overlay|
  {
    if overlay[s].Some? then overlay[s].value else if s < |backing| then backing[s] else zero
  }

  /** Both pairs of images show the guest the same contents. */
  ghost predicate SameView<T>(o: seq<Option<T>>, b: seq<T>, o': seq<Option<T>>, b': seq<T>, zero: T) {
    |o'| == |o| && forall s :: 0 <= s < |o| ==> Visible(o', b', zero, s) == Visible(o, b, zero, s)
  }

  /** Every allocated sector before `upto` has reached the backing image. */
  ghost predicate Copied<T>(o: seq<Option<T>>, b: seq<T>, upto: nat) {
    |o| <= |b| && forall s :: 0 <= s < upto && s < |o| && o[s].Some? ==> b[s] == o[s].value
  }

  /** Each sector of `b'` is what it was, zero if it is new, or what the overlay holds for it. */
  ghost predicate Between<T>(o: seq<Option<T>>, b: seq<T>, b': seq<T>, zero: T) {
    |b| <= |b'| && forall s :: 0 <= s < |b'| ==> b'[s] == (if s < |b| then b[s] else zero) || (s < |o| && o[s] == Some(b'[s]))
  }

  lemma BetweenTrans<T>(o: seq<Option<T>>, b: seq<T>, b1: seq<T>, b2: seq<T>, zero: T)
    requires Between(o, b, b1, zero) && Between(o, b1, b2, zero) && |b2| == |b1|
    ensures Between(o, b, b2, zero)
  {
  }

  // ------------------------------------------------------------ failures and choices outside the loop's control

  /** A write that fails may have stored any of its sectors. */
  datatype WriteFault = NoFault | FailsAfter(stored: set<nat>)

  /** Emptying the overlay: not offered by the driver, done, or failing after some sectors were dropped. */
  datatype Emptying = NotOffered | Done | FailsHalfway(dropped: set<nat>)

  datatype Environment = Environment(
    hasDriver: bool, hasBacking: bool, blocked: bool, reopenFails: bool, reopenBackFails: bool, lengthFails: bool, truncateFails: bool,
    noBuffer: bool, statusFails: set<nat>, readFails: set<nat>, writeFault: nat -> WriteFault, runLength: nat -> nat, emptying: Emptying)

  /** The sectors from `s` on with the same allocation state, at least one and at most `max`. */
  function SameRun<T>(o: seq<Option<T>>, s: nat, max: nat): (n: nat)
    requires s < |o| && max > 0
    ensures 0 < n <= max && s + n <= |o|
    ensures forall i :: s <= i < s + n ==> o[i].Some? == o[s].Some?
    decreases max
  {
    if max == 1 || s + 1 == |o| || o[s + 1].Some? != o[s].Some? then 1 else 1 + SameRun(o, s + 1, max - 1)
  }

  /** What `bdrv_is_allocated` finds at a sector: a run of any positive length that fits the buffer. */
  function RunAt<T>(env: Environment, o: seq<Option<T>>, s: nat): (n: nat)
    requires s < |o|
    ensures 0 < n <= 2048 && s + n <= |o|
    ensures forall i :: s <= i < s + n ==> o[i].Some? == o[s].Some?
  {
    SameRun(o, s, Min(COMMIT_BUF_SECTORS, Max(1, env.runLength(s))))
  }

  /** From sector `from` on, the copy asks for the allocation state at `s`, if nothing stops it. */
  ghost predicate Visited<T>(env: Environment, o: seq<Option<T>>, from: nat, s: nat)
    decreases |o| - from
  {
    from == s || (from < |o| && Visited(env, o, from + RunAt(env, o, from), s))
  }

  lemma {:induction false} VisitAbove<T>(env: Environment, o: seq<Option<T>>, from: nat, s: nat)
    requires Visited(env, o, from, s)
    ensures from <= s
    decreases |o| - from
  {
    if from != s { VisitAbove(env, o, from + RunAt(env, o, from), s); }
  }

  lemma {:induction false} VisitStep<T>(env: Environment, o: seq<Option<T>>, from: nat, s: nat)
    requires Visited(env, o, from, s) && s < |o|
    ensures Visited(env, o, from, s + RunAt(env, o, s))
    decreases |o| - from
  {
    if from != s { VisitStep(env, o, from + RunAt(env, o, from), s); }
  }

  /** The visit after `s` is the one behind its run. */
  lemma {:induction false} VisitNext<T>(env: Environment, o: seq<Option<T>>, from: nat, s: nat, t: nat)
    requires Visited(env, o, from, s) && Visited(env, o, from, t) && s < |o| && s < t
    ensures s + RunAt(env, o, s) <= t
    decreases |o| - from
  {
    VisitAbove(env, o, from, s);
    if from == s {
      VisitAbove(env, o, from + RunAt(env, o, from), t);
    } else {
      VisitNext(env, o, from + RunAt(env, o, from), s, t);
    }
  }

  /** Every sector is in the run of a visited one, which shares its allocation state. */
  lemma {:induction false} VisitsCover<T>(env: Environment, o: seq<Option<T>>, from: nat, x: nat) returns (v: nat)
    requires from <= x < |o|
    ensures Visited(env, o, from, v) && v <= x < v + RunAt(env, o, v) && o[v].Some? == o[x].Some?
    decreases |o| - from
  {
    v := from;
    if x >= from + RunAt(env, o, from) {
      v := VisitsCover(env, o, from + RunAt(env, o, from), x);
    }
  }

  /** Why the copy stops with `e` at a sector: its state, its data above, or its place below cannot be had. */
  predicate Causes<T>(env: Environment, o: seq<Option<T>>, s: nat, e: Errno)
    requires s < |o|
  {
    || (e == Status && s in env.statusFails)
    || (e == Read && s !in env.statusFails && o[s].Some? && s in env.readFails)
    || (e == Write && s !in env.statusFails && o[s].Some? && s !in env.readFails && env.writeFault(s).FailsAfter?)
  }

  predicate Passes<T>(env: Environment, o: seq<Option<T>>, s: nat)
    requires s < |o|
  {
    s !in env.statusFails && (o[s].Some? ==> s !in env.readFails && env.writeFault(s).NoFault?)
  }

  /** Nothing stops the copy. */
  ghost predicate CopyPasses<T>(env: Environment, o: seq<Option<T>>) { PassesUpto(env, o, |o|) }

  ghost predicate PassesUpto<T>(env: Environment, o: seq<Option<T>>, upto: nat)
    requires upto <= |o|
  {
    forall s: nat :: s < upto && Visited(env, o, 0, s) ==> Passes(env, o, s)
  }

  /** The copy stops with `e`, at the first visited sector that does not pass. */
  ghost predicate CopyStops<T>(env: Environment, o: seq<Option<T>>, e: Errno) {
    exists s: nat :: StopsAt(env, o, s, e)
  }

  ghost predicate StopsAt<T>(env: Environment, o: seq<Option<T>>, s: nat, e: Errno) {
    s < |o| && Visited(env, o, 0, s) && Causes(env, o, s, e) && PassesUpto(env, o, s)
  }

  /** The copy passes or stops, and it stops with one error. */
  lemma StopsOnce<T>(env: Environment, o: seq<Option<T>>, e: Errno, e': Errno)
    requires CopyStops(env, o, e)
    ensures !CopyPasses(env, o) && (CopyStops(env, o, e') ==> e' == e)
  {
    var s: nat :| StopsAt(env, o, s, e);
    assert Visited(env, o, 0, s) && !Passes(env, o, s);
    if CopyStops(env, o, e') {
      var s': nat :| StopsAt(env, o, s', e');
      assert Visited(env, o, 0, s') && !Passes(env, o, s');
    }
  }

  lemma PassesNext<T>(env: Environment, o: seq<Option<T>>, s: nat)
    requires s < |o| && Visited(env, o, 0, s) && PassesUpto(env, o, s) && Passes(env, o, s)
    ensures var t := s + RunAt(env, o, s); Visited(env, o, 0, t) && PassesUpto(env, o, t)
  {
    VisitStep(env, o, 0, s);
    forall t: nat | t < s + RunAt(env, o, s) && Visited(env, o, 0, t)
      ensures Passes(env, o, t)
    {
      if s < t { VisitNext(env, o, 0, s, t); }
    }
  }

  /** What stands between the call and the first look at the images. */
  predicate Admitted(env: Environment, readOnly: bool) {
    env.hasDriver && env.hasBacking && !env.blocked && !(readOnly && env.reopenFails)
  }

  /** What stands between that and the copy. */
  predicate Prepared<T>(env: Environment, o: seq<Option<T>>, b: seq<T>) {
    !env.lengthFails && !(|o| > |b| && env.truncateFails) && !env.noBuffer
  }

  /** The reason each error stands for. */
  ghost predicate FailsWith<T>(env: Environment, o: seq<Option<T>>, b: seq<T>, readOnly: bool, e: Errno) {
    match e
    case NoMedium => !env.hasDriver
    case NotSupported => env.hasDriver && !env.hasBacking
    case Busy => env.hasDriver && env.hasBacking && env.blocked
    case NoAccess => env.hasDriver && env.hasBacking && !env.blocked && readOnly && env.reopenFails
    case NoLength => Admitted(env, readOnly) && env.lengthFails
    case Truncate => Admitted(env, readOnly) && !env.lengthFails && |o| > |b| && env.truncateFails
    case NoMemory => Admitted(env, readOnly) && !env.lengthFails && !(|o| > |b| && env.truncateFails) && env.noBuffer
    case Status | Read | Write => Admitted(env, readOnly) && Prepared(env, o, b) && CopyStops(env, o, e)
    case MakeEmpty => Admitted(env, readOnly) && Prepared(env, o, b) && CopyPasses(env, o) && env.emptying.FailsHalfway?
  }

  /** No commit has two reasons to fail. */
  lemma OneOutcome<T>(env: Environment, o: seq<Option<T>>, b: seq<T>, readOnly: bool, e: Errno, e': Errno)
    requires FailsWith(env, o, b, readOnly, e) && FailsWith(env, o, b, readOnly, e')
    ensures e' == e
  {
    if CopyStops(env, o, e) { StopsOnce(env, o, e, e'); }
    if CopyStops(env, o, e') { StopsOnce(env, o, e', e); }
  }

  class Commit<T> {
    var overlay: seq<Option<T>>
    var backing: seq<T>
    var readOnly: bool
    const zero: T

    constructor (overlay: seq<Option<T>>, backing: seq<T>, readOnly: bool, zero: T)
      ensures this.overlay == overlay && this.backing == backing && this.readOnly == readOnly && this.zero == zero
    {
      this.overlay, this.backing, this.readOnly, this.zero := overlay, backing, readOnly, zero;
    }

    /** `bdrv_is_allocated`: the state of the first sector, and a run of any positive length that shares it. */
    method IsAllocated(env: Environment, sector: nat) returns (ret: Option<bool>, n: nat)
      requires sector < |overlay|
      ensures ret.None? <==> sector in env.statusFails
      ensures ret.Some? ==> ret.value == overlay[sector].Some?
      ensures n == RunAt(env, overlay, sector) && forall i :: sector <= i < sector + n ==> overlay[i].Some? == overlay[sector].Some?
    {
      n := RunAt(env, overlay, sector);
      ret := if sector in env.statusFails then None else Some(overlay[sector].Some?);
    }

    /** `bdrv_truncate` to a larger size; the new sectors read as zeros. */
    method Grow(sectors: nat)
      requires |backing| <= sectors
      modifies this`backing
      ensures |backing| == sectors && backing[..|old(backing)|] == old(backing)
      ensures Between(overlay, old(backing), backing, zero)
      ensures SameView(overlay, old(backing), overlay, backing, zero)
    {
      backing := backing + seq(sectors - |backing|, i => zero);
    }

    /** `bdrv_write` to the backing image; on failure only the sectors of `stored` changed. */
    method WriteBacking(sector: nat, data: seq<T>, fault: WriteFault) returns (ok: bool)
      requires sector + |data| <= |backing|
      modifies this`backing
      ensures ok <==> fault.NoFault?
      ensures |backing| == |old(backing)|
      ensures forall s :: 0 <= s < |backing| ==>
                backing[s] == (if sector <= s < sector + |data| && (fault.NoFault? || s in fault.stored) then data[s - sector] else old(backing)[s])
    {
      ok := fault.NoFault?;
      backing := seq(|backing|, s requires 0 <= s < |backing| reads this =>
        if sector <= s < sector + |data| && (fault.NoFault? || s in fault.stored) then data[s - sector] else backing[s]);
    }

    /** One allocated run: read it and write it below; `ret` tells which of the two failed. */
    method CopyRun(env: Environment, sector: nat, n: nat) returns (ret: Option<Errno>)
      requires 0 < n && sector + n <= |overlay| <= |backing|
      requires forall i :: sector <= i < sector + n ==> overlay[i].Some?
      requires Copied(overlay, backing, sector)
      modifies this`backing
      ensures |backing| == |old(backing)| && SameView(overlay, old(backing), overlay, backing, zero)
      ensures backing[|overlay|..] == old(backing)[|overlay|..]
      ensures Between(overlay, old(backing), backing, zero)
      ensures ret.None? ==> Copied(overlay, backing, sector + n)
      ensures ret.None? <==> sector !in env.readFails && env.writeFault(sector).NoFault?
      ensures ret == Some(Read) <==> sector in env.readFails
      ensures ret == Some(Write) <==> sector !in env.readFails && env.writeFault(sector).FailsAfter?
    {
      if sector in env.readFails {
        return Some(Read);
      }
      var buf := seq(n, i requires 0 <= i < n reads this requires sector + n <= |overlay| => Visible(overlay, backing, zero, sector + i));
      var ok := WriteBacking(sector, buf, env.writeFault(sector));
      if !ok {
        return Some(Write);
      }
      return None;
    }

    /** The guest sees what it saw over `b`, and nothing foreign has been written. */
    ghost predicate Keeps(b: seq<T>)
      reads this
    {
      && |overlay| <= |backing| == |b| && SameView(overlay, b, overlay, backing, zero) && Between(overlay, b, backing, zero)
      && backing[|overlay|..] == b[|overlay|..]
    }

    /** One round of the copy loop: the state of a run, and the run copied if it is allocated. */
    method CopyNext(env: Environment, sector: nat, ghost b: seq<T>) returns (ret: Option<Errno>, n: nat)
      requires sector < |overlay| && Copied(overlay, backing, sector) && Keeps(b)
      modifies this`backing
      ensures n == RunAt(env, overlay, sector) && Keeps(b)
      ensures ret.None? <==> Passes(env, overlay, sector)
      ensures ret.Some? ==> Causes(env, overlay, sector, ret.value)
      ensures ret.None? ==> Copied(overlay, backing, sector + n)
    {
      ghost var before := backing;
      var status;
      status, n := IsAllocated(env, sector);
      if status.None? {
        return Some(Status), n;
      }
      ret := None;
      if status.value {
        ret := CopyRun(env, sector, n);
        BetweenTrans(overlay, b, before, backing, zero);
      }
    }

    /** The copy loop of `bdrv_commit`. */
    method CopyAll(env: Environment) returns (ret: Option<Errno>)
      requires |overlay| <= |backing|
      modifies this`backing
      ensures Keeps(old(backing))
      ensures ret.None? <==> CopyPasses(env, overlay)
      ensures ret.Some? ==> CopyStops(env, overlay, ret.value)
      ensures ret.None? ==> Copied(overlay, backing, |overlay|)
    {
      var sector := 0;
      while sector < |overlay|
        invariant sector <= |overlay| && Keeps(old(backing)) && Copied(overlay, backing, sector)
        invariant Visited(env, overlay, 0, sector) && PassesUpto(env, overlay, sector)
      {
        var n;
        ret, n := CopyNext(env, sector, old(backing));
        if ret.Some? {
          assert StopsAt(env, overlay, sector, ret.value);
          StopsOnce(env, overlay, ret.value, ret.value);
          return;
        }
        PassesNext(env, overlay, sector);
        sector := sector + n;
      }
      return None;
    }

    /** The driver's `bdrv_make_empty`: whatever it drops, the backing image already holds. */
    method MakeEmpty(env: Environment) returns (ret: Option<Errno>)
      requires Copied(overlay, backing, |overlay|)
      modifies this`overlay
      ensures SameView(old(overlay), backing, overlay, backing, zero) && Copied(overlay, backing, |overlay|)
      ensures ret == if env.emptying.FailsHalfway? then Some(Errno.MakeEmpty) else None
      ensures env.emptying.Done? ==> forall s :: 0 <= s < |overlay| ==> overlay[s].None?
      ensures env.emptying.NotOffered? ==> overlay == old(overlay)
      ensures env.emptying.FailsHalfway? ==> forall s :: 0 <= s < |overlay| ==>
                overlay[s] == if s in env.emptying.dropped then None else old(overlay)[s]
    {
      match env.emptying
      case NotOffered =>
        ret := None;
      case Done =>
        overlay := seq(|overlay|, s => None);
        ret := None;
      case FailsHalfway(dropped) =>
        overlay := seq(|overlay|, s requires 0 <= s < |overlay| reads this => if s in dropped then None else overlay[s]);
        ret := Some(Errno.MakeEmpty);
    }

    /** The backing image alone reads as the overlay did. */
    ghost predicate Standalone(o: seq<Option<T>>, b: seq<T>)
      reads this
    {
      |o| <= |backing| && forall s :: 0 <= s < |o| ==> backing[s] == Visible(o, b, zero, s)
    }

    lemma CopiedStandsAlone(o: seq<Option<T>>, b: seq<T>)
      requires Copied(overlay, backing, |overlay|) && SameView(o, b, overlay, backing, zero)
      ensures Standalone(o, b)
    {
    }

    /** The part of `bdrv_commit` between opening the backing image for writing and the clean-up. */
    method Body(env: Environment) returns (ret: Option<Errno>)
      modifies this`overlay, this`backing
      ensures SameView(old(overlay), old(backing), overlay, backing, zero) && Between(old(overlay), old(backing), backing, zero)
      ensures |old(backing)| > |overlay| ==> backing[|overlay|..] == old(backing)[|overlay|..]
      ensures ret.None? ==> Standalone(old(overlay), old(backing)) && |backing| == Max(|overlay|, |old(backing)|)
      ensures ret.None? && env.emptying.Done? ==> forall s :: 0 <= s < |overlay| ==> overlay[s].None?
      ensures ret.None? && env.emptying.NotOffered? ==> overlay == old(overlay)
      ensures ret.Some? && ret != Some(Errno.MakeEmpty) ==> overlay == old(overlay)
      ensures ret == Some(NoLength) || ret == Some(Truncate) ==> backing == old(backing)
      ensures ret.None? <==> Prepared(env, old(overlay), old(backing)) && CopyPasses(env, old(overlay)) && !env.emptying.FailsHalfway?
      ensures ret.Some? ==> ret.value !in {NoMedium, NotSupported, Busy, NoAccess}
      ensures ret.Some? && Admitted(env, readOnly) ==> FailsWith(env, old(overlay), old(backing), readOnly, ret.value)
    {
      if env.lengthFails {
        return Some(NoLength);
      }
      if |overlay| > |backing| {
        if env.truncateFails {
          return Some(Truncate);
        }
        Grow(|overlay|);
      }
      if env.noBuffer {
        return Some(NoMemory);
      }
      ghost var grown := backing;
      ret := CopyAll(env);
      BetweenTrans(overlay, old(backing), grown, backing, zero);
      if ret.Some? {
        return;
      }
      ret := MakeEmpty(env);
      if ret.None? { CopiedStandsAlone(old(overlay), old(backing)); }
    }

    /**
     * `bdrv_commit`.  It goes through if and only if nothing it meets stands in the way, and an error
     * names the first thing that did; a call that is refused touches nothing.
     */
    method Run(env: Environment) returns (ret: Option<Errno>)
      modifies this
      ensures ret.None? <==>
                && env.hasDriver && env.hasBacking && !env.blocked && !(old(readOnly) && env.reopenFails)
                && !env.lengthFails && !(|old(overlay)| > |old(backing)| && env.truncateFails) && !env.noBuffer
                && CopyPasses(env, old(overlay)) && !env.emptying.FailsHalfway?
      ensures ret.Some? ==> FailsWith(env, old(overlay), old(backing), old(readOnly), ret.value)
      ensures !env.hasDriver || !env.hasBacking || env.blocked || (old(readOnly) && env.reopenFails) ==>
                overlay == old(overlay) && backing == old(backing) && readOnly == old(readOnly)
      ensures env.hasDriver && env.hasBacking && !env.blocked && !(old(readOnly) && env.reopenFails) ==>
                readOnly == (old(readOnly) && !env.reopenBackFails)
      ensures SameView(old(overlay), old(backing), overlay, backing, zero) && Between(old(overlay), old(backing), backing, zero)
      ensures |old(backing)| > |overlay| ==> backing[|overlay|..] == old(backing)[|overlay|..]
      ensures ret.None? ==> Standalone(old(overlay), old(backing)) && |backing| == Max(|overlay|, |old(backing)|)
      ensures ret.None? && env.emptying.Done? ==> forall s :: 0 <= s < |overlay| ==> overlay[s].None?
      ensures ret.None? && env.emptying.NotOffered? ==> overlay == old(overlay)
      ensures ret.Some? && ret != Some(Errno.MakeEmpty) ==> overlay == old(overlay)
      ensures ret == Some(NoLength) || ret == Some(Truncate) ==> backing == old(backing)
    {
      if !env.hasDriver {
        return Some(NoMedium);
      }
      if !env.hasBacking {
        return Some(NotSupported);
      }
      if env.blocked {
        return Some(Busy);
      }
      var ro := readOnly;
      if ro {
        if env.reopenFails {
          return Some(NoAccess);
        }
        readOnly := false;
      }
      ret := Body(env);
      if ro && !env.reopenBackFails {
        readOnly := true;
      }
    }
  }

  /**
   * A commit of any overlay into any backing image, with any failure: the guest sees the same
   * contents before and after, and after success the backing image alone gives them.
   */
  method CommitImage<T>(overlay: seq<Option<T>>, backing: seq<T>, readOnly: bool, zero: T, env: Environment)
    returns (ret: Option<Errno>, overlay': seq<Option<T>>, backing': seq<T>)
    ensures ret.None? <==>
              && env.hasDriver && env.hasBacking && !env.blocked && !(readOnly && env.reopenFails)
              && !env.lengthFails && !(|overlay| > |backing| && env.truncateFails) && !env.noBuffer
              && CopyPasses(env, overlay) && !env.emptying.FailsHalfway?
    ensures ret.Some? ==> FailsWith(env, overlay, backing, readOnly, ret.value)
    ensures !env.hasDriver || !env.hasBacking || env.blocked || (readOnly && env.reopenFails) ==> overlay' == overlay && backing' == backing
    ensures SameView(overlay, backing, overlay', backing', zero) && Between(overlay, backing, backing', zero)
    ensures ret.None? ==> |overlay| <= |backing'| && forall s :: 0 <= s < |overlay| ==> backing'[s] == Visible(overlay, backing, zero, s)
    ensures |backing| > |overlay| ==> |backing'| >= |backing| && backing'[|overlay|..] == backing[|overlay|..]
    ensures |overlay'| == |overlay| && (ret.None? && env.emptying.Done? ==> forall s :: 0 <= s < |overlay| ==> overlay'[s].None?)
    ensures (ret.None? && env.emptying.NotOffered?) || (ret.Some? && ret != Some(Errno.MakeEmpty)) ==> overlay' == overlay
  {
    var c := new Commit(overlay, backing, readOnly, zero);
    ret := c.Run(env);
    overlay', backing' := c.overlay, c.backing;
  }
}
