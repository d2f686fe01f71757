/** Instruction counting: the budget of a slice, its refills, and the virtual clock it drives. */
module Icount {
  import opened Arithmetic
  import opened Runs

  const DECR_MAX: nat := 0xffff
  const CF_COUNT_MASK: nat := 0x7fff
  const INT32_MAX: nat := 0x7fff_ffff

  // ------------------------------------------------------------ time

  /** `cpu_icount_to_ns`. */
  function ToNs(icount: int, shift: nat): int { icount * Pow2(shift) }

  /** `qemu_icount_round`. */
  function Round(count: nat, shift: nat): nat { (count + Pow2(shift) - 1) / Pow2(shift) }

  /** The deadline `tcg_get_icount_limit` works with; a negative one means that no timer is set. */
  function Clamp(deadline: int): nat { if deadline < 0 || deadline > INT32_MAX then INT32_MAX else deadline }

  /** The budget is the least number of instructions that reaches the deadline. */
  lemma RoundIsLeast(deadline: nat, shift: nat)
    ensures ToNs(Round(deadline, shift), shift) >= deadline
    ensures ToNs(Round(deadline, shift), shift) < deadline + Pow2(shift)
    ensures forall n :: 0 <= n < Round(deadline, shift) ==> ToNs(n, shift) < deadline
  {
    var p, q := Pow2(shift), Round(deadline, shift);
    var a := deadline + p - 1;
    assert a == q * p + a % p;
    forall n | 0 <= n < q
      ensures n * p < deadline
    {
      Below(n, q, p);
    }
  }

  /** `n` is the least number of instructions, of 2^shift ns each, that takes `ns` nanoseconds or more. */
  ghost predicate LeastFor(n: nat, ns: nat, shift: nat) {
    n * Pow2(shift) >= ns && forall m: nat :: m < n ==> m * Pow2(shift) < ns
  }

  /** A budget reaches the next timer; without a timer in reach, it is good for 2^31 - 1 ns. */
  ghost predicate BudgetFor(n: nat, deadline: int, shift: nat) {
    && (0 <= deadline <= 0x7fff_ffff ==> LeastFor(n, deadline, shift))
    && (deadline < 0 || deadline > 0x7fff_ffff ==> LeastFor(n, 0x7fff_ffff, shift))
  }

  lemma BudgetIsLeast(deadline: int, shift: nat)
    ensures BudgetFor(Round(Clamp(deadline), shift), deadline, shift)
  {
    RoundIsLeast(Clamp(deadline), shift);
    forall m: nat | m < Round(Clamp(deadline), shift)
      ensures m * Pow2(shift) < Clamp(deadline)
    {
      assert ToNs(m, shift) < Clamp(deadline);
    }
  }

  lemma Below(n: int, q: int, p: nat)
    requires n < q
    ensures n * p <= q * p - p
  {
    assert q * p - n * p == (q - n) * p;
    assert (q - n - 1) * p >= 0;
    assert (q - n) * p == (q - n - 1) * p + p;
  }

  // ------------------------------------------------------------ state

  /** `icount_decr` and `icount_extra` of a CPU; `high` is set by an interrupt and makes the word negative. */
  datatype Budget = Budget(low: nat, high: bool, extra: nat)

  const SPENT: Budget := Budget(0, false, 0)

  predicate BudgetOk(b: Budget) { b.low <= DECR_MAX }

  function Left(b: Budget): nat { b.low + b.extra }

  datatype Exit = Continue | LeaveLoop

  /** No CPU but the current one holds a budget. */
  predicate OthersSpent(cpus: seq<Budget>, current: int) {
    forall c :: 0 <= c < |cpus| && c != current ==> Left(cpus[c]) == 0
  }

  lemma SpentWith(cpus: seq<Budget>, current: nat, b: Budget)
    requires current < |cpus| && OthersSpent(cpus, current)
    ensures OthersSpent(cpus[current := b], current) && (Left(b) == 0 ==> OthersSpent(cpus[current := b], -1))
  {
  }

  class Timers {
    const shift: nat
    var qemuIcount: int
    var cpus: seq<Budget>
    var current: int
    // Instructions executed by all CPUs, and what they were when the slice began with what budget.
    ghost var executed: nat
    ghost var sliceStart: nat
    ghost var sliceBudget: nat

    constructor (ncpus: nat, shift: nat)
      ensures Valid() && executed == 0 && current == -1 && |cpus| == ncpus && this.shift == shift
    {
      this.shift, qemuIcount, cpus, current := shift, 0, seq(ncpus, c => SPENT), -1;
      executed, sliceStart, sliceBudget := 0, 0, 0;
    }

    ghost function Now(): Clock
      reads this
    {
      Clock(qemuIcount, cpus, current, executed)
    }

    /** `cpu_get_icount_raw`. */
    function Raw(): int
      requires current < |cpus|
      reads this
    {
      if current >= 0 then qemuIcount - Left(cpus[current]) else qemuIcount
    }

    /** The counter is right, no CPU but the current one holds a budget, and nothing of the slice is lost. */
    ghost predicate Valid()
      reads this
    {
      && -1 <= current < |cpus| && Raw() == executed
      && OthersSpent(cpus, current)
      && (current >= 0 ==> BudgetOk(cpus[current]))
      && (current >= 0 ==> sliceStart <= executed && executed - sliceStart + Left(cpus[current]) == sliceBudget)
    }

    /** `tcg_cpu_exec` up to `cpu_exec`: a budget that just reaches the next deadline. */
    method BeginSlice(cpu: nat, deadline: int)
      requires Valid() && current == -1 && cpu < |cpus|
      modifies this
      ensures Valid() && current == cpu && executed == old(executed) && sliceStart == executed && |cpus| == |old(cpus)|
      ensures BudgetFor(sliceBudget, deadline, shift) && cpus[cpu].low + cpus[cpu].extra == sliceBudget
      ensures cpus[cpu].low == (if sliceBudget > 0xffff then 0xffff else sliceBudget) && cpus == old(cpus)[cpu := cpus[cpu]]
      ensures cpus[cpu].high == old(cpus)[cpu].high
    {
      qemuIcount := qemuIcount - Left(cpus[cpu]);
      cpus := cpus[cpu := cpus[cpu].(low := 0, extra := 0)];
      var count := Round(Clamp(deadline), shift);
      BudgetIsLeast(deadline, shift);
      qemuIcount := qemuIcount + count;
      var decr := if count > DECR_MAX then DECR_MAX else count;
      cpus := cpus[cpu := cpus[cpu].(low := decr, extra := count - decr)];
      current := cpu;
      sliceStart, sliceBudget := executed, count;
    }

    /**
     * Generated code for a block of `insns` instructions, of which the first `done` complete before an
     * exception, if one comes; the block does not start when the decrementer would go below zero.
     */
    method RunBlock(insns: nat, done: nat) returns (ran: nat, expired: bool)
      requires Valid() && current >= 0 && done <= insns
      modifies this`cpus, this`executed
      ensures Valid() && |cpus| == |old(cpus)| && executed == old(executed) + ran
      ensures expired <==> old(cpus)[current].high || old(cpus)[current].low < insns
      ensures ran == if expired then 0 else done
      ensures cpus == old(cpus)[current := old(cpus)[current].(low := old(cpus)[current].low - ran)]
    {
      var b := cpus[current];
      expired := b.high || b.low < insns;
      ran := 0;
      if !expired {
        b := b.(low := b.low - insns);
        b := b.(low := b.low + (insns - done));
        cpus := cpus[current := b];
        ran := done;
        executed := executed + done;
      }
    }

    /** The `TB_EXIT_ICOUNT_EXPIRED` case of `cpu_exec`; `tail` is how much of the uncached block runs. */
    method Expired(tail: nat) returns (ran: nat, exit: Exit)
      requires Valid() && current >= 0
      modifies this`cpus, this`executed
      ensures Valid() && |cpus| == |old(cpus)| && executed == old(executed) + ran
      ensures exit == Continue <==> old(cpus)[current].extra > 0 && !old(cpus)[current].high
      ensures exit == Continue ==> ran == 0 && cpus[current].low + cpus[current].extra == old(cpus)[current].low + old(cpus)[current].extra
      ensures exit == Continue ==> cpus[current].low == 0xffff || cpus[current].extra == 0
      ensures exit == Continue ==> 0 < cpus[current].low <= 0xffff && !cpus[current].high
      ensures exit == LeaveLoop ==> ran == if old(cpus)[current].high then 0 else Min(tail, Min(old(cpus)[current].low, 0x7fff))
      ensures exit == LeaveLoop ==> cpus[current] == old(cpus)[current].(low := old(cpus)[current].low - ran)
      ensures cpus == old(cpus)[current := cpus[current]]
    {
      var b := cpus[current];
      ran := 0;
      if b.extra > 0 && !b.high {
        var extra := b.extra + b.low;
        var left := if extra < DECR_MAX then extra else DECR_MAX;
        cpus := cpus[current := b.(low := left, extra := extra - left)];
        exit := Continue;
      } else {
        if !b.high && b.low > 0 {
          var cycles := if b.low > CF_COUNT_MASK then CF_COUNT_MASK else b.low;
          ran := if tail < cycles then tail else cycles;
          cpus := cpus[current := b.(low := b.low - ran)];
          executed := executed + ran;
        }
        exit := LeaveLoop;
      }
    }

    /** An interrupt from another thread. */
    method Interrupt(cpu: nat)
      requires Valid() && cpu < |cpus|
      modifies this`cpus
      ensures Valid() && cpus == old(cpus)[cpu := old(cpus)[cpu].(high := true)]
    {
      cpus := cpus[cpu := cpus[cpu].(high := true)];
    }

    /** `tcg_cpu_exec` after `cpu_exec`: the unused budget goes back. */
    method EndSlice() returns (left: nat)
      requires Valid() && current >= 0
      modifies this
      ensures Valid() && current == -1 && |cpus| == |old(cpus)| && qemuIcount == executed == old(executed)
      ensures cpus == old(cpus)[old(current) := Budget(0, false, 0)]
      ensures sliceStart == old(sliceStart) <= executed && executed - sliceStart + left == sliceBudget == old(sliceBudget)
    {
      var c, b := current, cpus[current];
      left := b.low + b.extra;
      var rest := cpus[c := SPENT];
      assert OthersSpent(rest, -1) by { SpentWith(cpus, c, SPENT); }
      qemuIcount := qemuIcount - left;
      cpus := rest;
      current := -1;
    }
  }

  /** A slice: the instructions it executed, the part of its budget it gave back, and the next timer when it began. */
  datatype Slice = Slice(used: nat, left: nat, deadline: int)

  /** The clock is less than one instruction time past the next timer, and has reached it if nothing was given back. */
  ghost predicate OnTime(s: Slice, shift: nat) {
    && (0 <= s.deadline <= 0x7fff_ffff ==> s.used * Pow2(shift) < s.deadline + Pow2(shift))
    && (0 <= s.deadline <= 0x7fff_ffff && s.left == 0 ==> s.used * Pow2(shift) >= s.deadline)
    && (s.deadline < 0 || s.deadline > 0x7fff_ffff ==> s.used * Pow2(shift) < 0x7fff_ffff + Pow2(shift))
    && ((s.deadline < 0 || s.deadline > 0x7fff_ffff) && s.left == 0 ==> s.used * Pow2(shift) >= 0x7fff_ffff)
  }

  /** A slice never runs a whole instruction time past its deadline. */
  lemma SliceBound(s: Slice, shift: nat)
    requires BudgetFor(s.used + s.left, s.deadline, shift)
    ensures OnTime(s, shift)
  {
    var p, ns := Pow2(shift), if 0 <= s.deadline <= 0x7fff_ffff then s.deadline else 0x7fff_ffff;
    assert LeastFor(s.used + s.left, ns, shift);
    if s.used > 0 {
      var m: nat := s.used - 1;
      assert m < s.used + s.left && m * p < ns;
      assert s.used * p == m * p + p;
    }
  }

  // ------------------------------------------------------------ whole runs

  datatype IcountOp =
    | Begin(cpu: nat, deadline: int)
    | Block(insns: nat, done: nat)
    | Expire(tail: nat)
    | Raise(cpu: nat)
    | End

  /** The counter, the budgets, the CPU that runs (or -1), and the instructions all CPUs have executed. */
  datatype Clock = Clock(qemuIcount: int, cpus: seq<Budget>, current: int, executed: nat)

  /** What one operation does; one that the state does not allow does nothing. */
  ghost predicate IcountMoves(m: Clock, op: IcountOp, m': Clock, shift: nat) {
    -1 <= m.current < |m.cpus| &&
    match op
    case Begin(cpu, deadline) =>
      if m.current == -1 && cpu < |m.cpus| then BeginMoves(m, cpu, deadline, m', shift) else m' == m
    case Block(insns, done) => if m.current >= 0 && done <= insns then BlockMoves(m, insns, done, m') else m' == m
    case Expire(tail) => if m.current >= 0 then ExpireMoves(m, tail, m') else m' == m
    case Raise(cpu) => if cpu < |m.cpus| then m' == m.(cpus := m.cpus[cpu := m.cpus[cpu].(high := true)]) else m' == m
    case End =>
      if m.current >= 0 then m' == m.(qemuIcount := m.executed, cpus := m.cpus[m.current := Budget(0, false, 0)], current := -1) else m' == m
  }

  ghost predicate BeginMoves(m: Clock, cpu: nat, deadline: int, m': Clock, shift: nat)
    requires cpu < |m.cpus|
  {
    && |m'.cpus| == |m.cpus| && m'.cpus == m.cpus[cpu := m'.cpus[cpu]] && m'.current == cpu && m'.executed == m.executed
    && var n, b := Left(m'.cpus[cpu]), m'.cpus[cpu];
       BudgetFor(n, deadline, shift) && b.low == Min(n, 0xffff) && b.high == m.cpus[cpu].high
  }

  ghost predicate BlockMoves(m: Clock, insns: nat, done: nat, m': Clock)
    requires 0 <= m.current < |m.cpus|
  {
    var b := m.cpus[m.current];
    if b.high || b.low < insns then m' == m
    else b.low >= done && m' == m.(cpus := m.cpus[m.current := b.(low := b.low - done)], executed := m.executed + done)
  }

  ghost predicate ExpireMoves(m: Clock, tail: nat, m': Clock)
    requires 0 <= m.current < |m.cpus|
  {
    var b := m.cpus[m.current];
    if b.extra > 0 && !b.high
    then var n := b.low + b.extra;
         m' == m.(cpus := m.cpus[m.current := Budget(Min(n, 0xffff), false, n - Min(n, 0xffff))])
    else var ran: nat := if b.high then 0 else Min(tail, Min(b.low, 0x7fff));
         m' == m.(cpus := m.cpus[m.current := b.(low := b.low - ran)], executed := m.executed + ran)
  }

  method PerformIcount(t: Timers, op: IcountOp) returns (ran: nat)
    requires t.Valid()
    modifies t
    ensures t.Valid() && |t.cpus| == |old(t.cpus)| && t.executed == old(t.executed) + ran
    ensures IcountMoves(old(t.Now()), op, t.Now(), t.shift)
    ensures old(t.current) >= 0 ==> t.sliceStart == old(t.sliceStart) && t.sliceBudget == old(t.sliceBudget)
    ensures old(t.current) < 0 && t.current >= 0 ==> op.Begin? && t.sliceStart == t.executed && BudgetFor(t.sliceBudget, op.deadline, t.shift)
  {
    ran := 0;
    match op
    case Begin(cpu, d) =>
      if t.current == -1 && cpu < |t.cpus| { t.BeginSlice(cpu, d); }
    case Block(insns, done) =>
      if t.current >= 0 && done <= insns {
        var expired;
        ran, expired := t.RunBlock(insns, done);
      }
    case Expire(tail) =>
      if t.current >= 0 {
        var exit;
        ran, exit := t.Expired(tail);
      }
    case Raise(cpu) =>
      if cpu < |t.cpus| { t.Interrupt(cpu); }
    case End =>
      if t.current >= 0 { var left := t.EndSlice(); }
  }

  ghost function IcountMove(shift: nat): (Clock, IcountOp, Clock) -> bool {
    (m, op, m') => IcountMoves(m, op, m', shift)
  }

  /** The counter at the start and after each operation; the raw counter is always the number of instructions executed. */
  ghost predicate IcountRun(run: seq<Clock>, ops: seq<IcountOp>, ncpus: nat, shift: nat) {
    && Follows(run, ops, IcountMove(shift)) && Always(run, |run|, RawIsExecuted)
    && run[0].current == -1 && run[0].executed == 0 && |run[0].cpus| == ncpus
  }

  predicate RawIsExecuted(m: Clock) {
    -1 <= m.current < |m.cpus| && m.executed == if m.current >= 0 then m.qemuIcount - Left(m.cpus[m.current]) else m.qemuIcount
  }

  lemma IcountRunGrows(run: seq<Clock>, ops: seq<IcountOp>, op: IcountOp, m: Clock, ncpus: nat, shift: nat)
    requires IcountRun(run, ops, ncpus, shift) && RawIsExecuted(m) && IcountMoves(run[|ops|], op, m, shift)
    ensures IcountRun(run + [m], ops + [op], ncpus, shift)
  {
    FollowsNext(run, ops, op, m, IcountMove(shift));
    AlwaysNext(run, |run|, m, RawIsExecuted);
  }

  /** From state `b` the CPU runs without a break up to state `e`. */
  predicate Running(run: seq<Clock>, ops: seq<IcountOp>, b: nat, e: nat) {
    && b < e < |run| <= |ops| + 1 && run[b].current < 0 && ops[b].Begin?
    && (forall k :: b < k <= e ==> 0 <= run[k].current < |run[k].cpus|)
  }

  /** The slice so far. */
  function SliceOf(run: seq<Clock>, ops: seq<IcountOp>, b: nat, e: nat): Slice
    requires Running(run, ops, b, e) && run[b].executed <= run[e].executed
  {
    Slice(run[e].executed - run[b].executed, Left(run[e].cpus[run[e].current]), ops[b].deadline)
  }

  ghost predicate SliceOk(run: seq<Clock>, ops: seq<IcountOp>, b: nat, e: nat, shift: nat) {
    Running(run, ops, b, e) ==> run[b].executed <= run[e].executed && OnTime(SliceOf(run, ops, b, e), shift)
  }

  /**
   * Any run of slices on any number of CPUs: the raw counter is always the number of instructions
   * executed, and every slice is on time at every point of the run.
   */
  method DriveIcount(ops: seq<IcountOp>, ncpus: nat, shift: nat) returns (run: seq<Clock>)
    ensures IcountRun(run, ops, ncpus, shift)
    ensures forall b: nat, e: nat {:trigger SliceOk(run, ops, b, e, shift)} :: SliceOk(run, ops, b, e, shift)
  {
    var t := new Timers(ncpus, shift);
    var executed := 0;
    run := [Clock(t.qemuIcount, t.cpus, t.current, 0)];
    ghost var begun := 0;
    for i := 0 to |ops|
      invariant fresh(t) && t.Valid() && t.executed == executed && |t.cpus| == ncpus && t.shift == shift
      invariant IcountRun(run, ops[..i], ncpus, shift) && run[i] == t.Now()
      invariant t.current >= 0 ==> Running(run, ops, begun, i) && run[begun].executed == t.sliceStart && BudgetFor(t.sliceBudget, ops[begun].deadline, shift)
      invariant forall b: nat, e: nat {:trigger SliceOk(run, ops, b, e, shift)} :: SliceOk(run, ops, b, e, shift)
    {
      if t.current < 0 { begun := i; }
      ghost var was := run;
      var ran := PerformIcount(t, ops[i]);
      executed := executed + ran;
      assert ops[..i + 1] == ops[..i] + [ops[i]];
      IcountRunGrows(run, ops[..i], ops[i], t.Now(), ncpus, shift);
      run := run + [Clock(t.qemuIcount, t.cpus, t.current, executed)];
      SlicesGrow(was, run, ops, begun, i, t.sliceBudget, shift);
    }
    assert ops[..|ops|] == ops;
  }

  /** One state more: the slices that were on time are, and so is the one that is running. */
  lemma SlicesGrow(run: seq<Clock>, run': seq<Clock>, ops: seq<IcountOp>, begun: nat, i: nat, budget: nat, shift: nat)
    requires |run| == i + 1 <= |ops| && |run'| == i + 2 && run' == run + [run'[i + 1]] && begun <= i
    requires forall b: nat, e: nat {:trigger SliceOk(run, ops, b, e, shift)} :: SliceOk(run, ops, b, e, shift)
    requires run'[i + 1].current >= 0 ==>
               && Running(run', ops, begun, i + 1) && run'[begun].executed <= run'[i + 1].executed
               && BudgetFor(budget, ops[begun].deadline, shift)
               && run'[i + 1].executed - run'[begun].executed + Left(run'[i + 1].cpus[run'[i + 1].current]) == budget
    ensures forall b: nat, e: nat {:trigger SliceOk(run', ops, b, e, shift)} :: SliceOk(run', ops, b, e, shift)
  {
    forall b: nat, e: nat
      ensures SliceOk(run', ops, b, e, shift)
    {
      if !Running(run', ops, b, e) {
      } else if e <= i {
        assert forall k :: 0 <= k <= i ==> run'[k] == run[k];
        assert Running(run, ops, b, e) && SliceOk(run, ops, b, e, shift);
      } else {
        OneStart(run', ops, b, begun, e);
        SliceBound(SliceOf(run', ops, begun, i + 1), shift);
      }
    }
  }

  /** A state belongs to one slice. */
  lemma OneStart(run: seq<Clock>, ops: seq<IcountOp>, b: nat, c: nat, e: nat)
    requires Running(run, ops, b, e) && Running(run, ops, c, e)
    ensures b == c
  {
  }
}
