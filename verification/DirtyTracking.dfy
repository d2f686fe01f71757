/**
 * Dirty tracking: a store may bypass the bitmaps only through a TLB entry whose page is already
 * dirty for every client.  The bitmaps are shared; every virtual CPU has its own TLB.
 */
module DirtyTracking {
  import opened Arithmetic
  import opened DirtyBitmap
  import opened Runs
  import opened SoftTlb

  const CLIENTS: nat := 3
  const DIRTY_MEMORY_VGA: nat := 0
  const DIRTY_MEMORY_CODE: nat := 1
  const DIRTY_MEMORY_MIGRATION: nat := 2
  const PAGE: nat := TARGET_PAGE_SIZE

  // ------------------------------------------------------------ where RAM is in the host

  datatype HostBlock = HostBlock(host: nat, offset: nat, length: nat)

  predicate BlockAligned(b: HostBlock) {
    && b.host % PAGE == 0 && b.offset % PAGE == 0 && b.length % PAGE == 0
    && b.host + b.length <= WORD && b.offset + b.length <= WORD
  }

  predicate Disjoint(a: HostBlock, b: HostBlock) {
    && (a.host + a.length <= b.host || b.host + b.length <= a.host)
    && (a.offset + a.length <= b.offset || b.offset + b.length <= a.offset)
  }

  predicate GeometryOk(blocks: seq<HostBlock>) {
    && (forall i :: 0 <= i < |blocks| ==> BlockAligned(blocks[i]))
    && (forall i, j :: 0 <= i < j < |blocks| ==> Disjoint(blocks[i], blocks[j]))
  }

  predicate HasHost(b: HostBlock, h: nat) { b.host <= h < b.host + b.length }

  predicate HasPage(b: HostBlock, page: nat) { b.offset <= page * PAGE < b.offset + b.length }

  /** The RAM page behind a host address, or -1. */
  function RamPage(blocks: seq<HostBlock>, h: nat): int {
    if blocks == [] then -1
    else
      var b := blocks[|blocks| - 1];
      if HasHost(b, h) then (h - b.host + b.offset) / PAGE else RamPage(blocks[..|blocks| - 1], h)
  }

  lemma {:induction false} FoundIn(blocks: seq<HostBlock>, h: nat) returns (j: nat)
    requires GeometryOk(blocks) && RamPage(blocks, h) >= 0
    ensures j < |blocks| && HasHost(blocks[j], h) && RamPage(blocks, h) == (h - blocks[j].host + blocks[j].offset) / PAGE
    ensures HasPage(blocks[j], RamPage(blocks, h))
  {
    j := |blocks| - 1;
    if !HasHost(blocks[j], h) {
      j := FoundIn(blocks[..|blocks| - 1], h);
    } else {
      assert BlockAligned(blocks[j]);
    }
  }

  /** A RAM page belongs to one block, so its host address is known. */
  lemma HostOfPage(blocks: seq<HostBlock>, h: nat, i: nat)
    requires GeometryOk(blocks) && i < |blocks| && RamPage(blocks, h) >= 0 && HasPage(blocks[i], RamPage(blocks, h))
    ensures HasHost(blocks[i], h) && RamPage(blocks, h) == (h - blocks[i].host + blocks[i].offset) / PAGE
  {
    var j := FoundIn(blocks, h);
    assert j == i;
  }

  lemma {:induction false} PageOfHost(blocks: seq<HostBlock>, h: nat, i: nat)
    requires GeometryOk(blocks) && i < |blocks| && HasHost(blocks[i], h)
    ensures RamPage(blocks, h) == (h - blocks[i].host + blocks[i].offset) / PAGE
  {
    var last := |blocks| - 1;
    if i != last {
      assert Disjoint(blocks[i], blocks[last]);
      PageOfHost(blocks[..last], h, i);
    }
  }

  // ------------------------------------------------------------ the invariant

  predicate BitmapsOk(dirty: seq<Bitmap>, blocks: seq<HostBlock>) {
    |dirty| == CLIENTS && forall c, i :: 0 <= c < CLIENTS && 0 <= i < |blocks| ==> blocks[i].offset + blocks[i].length <= Capacity(dirty[c]) * PAGE
  }

  /** The negation of `cpu_physical_memory_is_clean`. */
  predicate AllDirty(dirty: seq<Bitmap>, page: nat) {
    && |dirty| == CLIENTS
    && Bit(dirty[DIRTY_MEMORY_VGA], page) && Bit(dirty[DIRTY_MEMORY_CODE], page) && Bit(dirty[DIRTY_MEMORY_MIGRATION], page)
  }

  /** Stores through the entry end in RAM, directly or through the not-dirty handler. */
  predicate WritesRam(e: Entry) { !e.write.invalid && !e.write.mmio }

  predicate MapsRam(e: Entry, blocks: seq<HostBlock>) {
    WritesRam(e) ==> HostOf(e) % PAGE == 0 && RamPage(blocks, HostOf(e)) >= 0
  }

  /** A store that goes straight to memory goes to a page dirty for all clients. */
  predicate Tracked(e: Entry, blocks: seq<HostBlock>, dirty: seq<Bitmap>) {
    MapsRam(e, blocks) && (IsDirtyRam(e) ==> AllDirty(dirty, RamPage(blocks, HostOf(e))))
  }

  predicate TableAll(t: Table, p: Entry -> bool) {
    forall m, i :: 0 <= m < |t| && 0 <= i < |t[m]| ==> p(t[m][i])
  }

  predicate TlbAll(t: Tlb, p: Entry -> bool) { TableAll(t.main, p) && TableAll(t.victim, p) }

  /** Every entry of every CPU. */
  predicate AllEntries(cpus: seq<Tlb>, p: Entry -> bool) {
    forall c :: 0 <= c < |cpus| ==> TlbAll(cpus[c], p)
  }

  function IsTracked(blocks: seq<HostBlock>, dirty: seq<Bitmap>): Entry -> bool {
    e => Tracked(e, blocks, dirty)
  }

  /** What an update does to all entries, from what it does to one. */
  lemma LiftUpdate(t: Table, t': Table, u: Update, given: Entry -> bool, after: Entry -> bool, before: Entry -> bool)
    requires Updated(t, t', u) && TableAll(t, given)
    requires forall e :: given(e) ==> (after(Apply(u, e)) <==> before(e))
    ensures TableAll(t', after) <==> TableAll(t, before)
  {
    forall m, i | 0 <= m < |t| && 0 <= i < |t[m]|
      ensures |t'[m]| == |t[m]| && (after(t'[m][i]) <==> before(t[m][i]))
    {
      assert RowUpdated(t[m], t'[m], u);
      assert given(t[m][i]);
    }
    assert forall m :: 0 <= m < |t| ==> RowUpdated(t[m], t'[m], u);
  }

  lemma WeakenAll(t: Tlb, p: Entry -> bool, q: Entry -> bool)
    requires TlbAll(t, p) && forall e :: p(e) ==> q(e)
    ensures TlbAll(t, q)
  {
  }

  // ------------------------------------------------------------ clearing

  /** Pages the loop over entries reaches: those that start less than `length` bytes after the first. */
  predicate Reached(start: nat, length: nat, page: nat) {
    FirstPage(start) <= page && (page - FirstPage(start)) * PAGE < length
  }

  predicate Cleared(start: nat, length: nat, page: nat) {
    FirstPage(start) <= page < EndPage(start, length)
  }

  /** The range touches no more pages than its length alone needs. */
  predicate NoStraddle(start: nat, length: nat) {
    start % PAGE + length <= (length + PAGE - 1) / PAGE * PAGE
  }

  /** `tlb_reset_dirty_range_all` passes the length unrounded: it reaches every cleared page exactly when nothing straddles. */
  lemma ReachedIff(start: nat, length: nat)
    requires length > 0
    ensures NoStraddle(start, length) <==> forall page: nat :: Cleared(start, length, page) ==> Reached(start, length, page)
  {
    var last := EndPage(start, length) - 1;
    assert Cleared(start, length, last);
    if NoStraddle(start, length) {
      forall page: nat | Cleared(start, length, page)
        ensures Reached(start, length, page)
      {
      }
    }
  }

  /** One page of bytes from the middle of page 0: pages 0 and 1 are cleared, and only page 0 is reset. */
  lemma StraddleMisses()
    ensures !NoStraddle(PAGE / 2, PAGE) && Cleared(PAGE / 2, PAGE, 0) && Cleared(PAGE / 2, PAGE, 1)
    ensures Reached(PAGE / 2, PAGE, 0) && !Reached(PAGE / 2, PAGE, 1)
  {
  }

  function HostStart(b: HostBlock, start: nat): nat
    requires b.offset <= start && BlockAligned(b)
  {
    b.host + (start - start % PAGE) - b.offset
  }

  lemma Distance(b: HostBlock, start: nat, h: nat, page: nat)
    requires BlockAligned(b) && b.offset <= start && HasHost(b, h) && h % PAGE == 0
    requires page == (h - b.host + b.offset) / PAGE
    ensures h - HostStart(b, start) == (page - FirstPage(start)) * PAGE
  {
    assert start - start % PAGE == FirstPage(start) * PAGE;
    assert h - b.host + b.offset == page * PAGE;
  }

  lemma NoWrap(h: nat, from: nat)
    requires from <= h < WORD
    ensures (h - from) % WORD == h - from
  {
  }

  lemma ResetEffect(e: Entry, from: nat, length: nat, distance: nat)
    requires IsDirtyRam(e) && HostOf(e) == from + distance
    ensures IsDirtyRam(Apply(ResetDirtyRange(from, length), e)) <==> distance >= length
  {
    NoWrap(HostOf(e), from);
  }

  /** The wrapping comparison of `tlb_reset_dirty_range` is the page comparison. */
  lemma ResetReaches(blocks: seq<HostBlock>, i: nat, start: nat, length: nat, e: Entry)
    requires GeometryOk(blocks) && i < |blocks| && blocks[i].offset <= start && 0 < length
    requires start + length <= blocks[i].offset + blocks[i].length
    requires IsDirtyRam(e) && MapsRam(e, blocks) && Cleared(start, length, RamPage(blocks, HostOf(e)))
    ensures IsDirtyRam(Apply(ResetDirtyRange(HostStart(blocks[i], start), length), e)) <==> !Reached(start, length, RamPage(blocks, HostOf(e)))
  {
    var b, h, page := blocks[i], HostOf(e), RamPage(blocks, HostOf(e));
    ClearedInside(b, start, length, page);
    HostOfPage(blocks, h, i);
    Distance(b, start, h, page);
    ResetEffect(e, HostStart(b, start), length, h - HostStart(b, start));
  }

  lemma ClearedInside(b: HostBlock, start: nat, length: nat, page: nat)
    requires BlockAligned(b) && b.offset <= start && start + length <= b.offset + b.length && Cleared(start, length, page)
    ensures HasPage(b, page)
  {
  }

  // The bitmaps after clearing a range of one client.
  ghost predicate ClearedFor(dirty: seq<Bitmap>, dirty': seq<Bitmap>, client: nat, start: nat, length: nat) {
    && |dirty| == CLIENTS && client < CLIENTS && |dirty'| == CLIENTS && dirty' == dirty[client := dirty'[client]]
    && RangeIs(dirty[client], dirty'[client], FirstPage(start), EndPage(start, length), false)
  }

  predicate SpanOk(blocks: seq<HostBlock>, i: nat, start: nat, length: nat) {
    && GeometryOk(blocks) && i < |blocks| && blocks[i].offset <= start && 0 < length
    && start + length <= blocks[i].offset + blocks[i].length
  }

  /** The reset reaches the entry, or did not have to. */
  predicate ResetSuffices(e: Entry, blocks: seq<HostBlock>, start: nat, length: nat) {
    var page := RamPage(blocks, HostOf(e));
    IsDirtyRam(e) && page >= 0 && Cleared(start, length, page) ==> Reached(start, length, page)
  }

  lemma ClearedBits(dirty: seq<Bitmap>, dirty': seq<Bitmap>, client: nat, start: nat, length: nat, page: nat)
    requires ClearedFor(dirty, dirty', client, start, length)
    ensures Cleared(start, length, page) ==> !AllDirty(dirty', page)
    ensures !Cleared(start, length, page) ==> (AllDirty(dirty', page) <==> AllDirty(dirty, page))
  {
    assert Bit(dirty'[client], page) == if Cleared(start, length, page) then false else Bit(dirty[client], page);
  }

  /** One entry after a clear and its reset: it is tracked exactly when the reset reached it. */
  lemma ClearedEntry(blocks: seq<HostBlock>, i: nat, start: nat, length: nat, client: nat, dirty: seq<Bitmap>, dirty': seq<Bitmap>, e: Entry)
    requires SpanOk(blocks, i, start, length) && ClearedFor(dirty, dirty', client, start, length) && Tracked(e, blocks, dirty)
    ensures Tracked(Apply(ResetDirtyRange(HostStart(blocks[i], start), length), e), blocks, dirty') <==> ResetSuffices(e, blocks, start, length)
  {
    MarkKeepsEntry(ResetDirtyRange(HostStart(blocks[i], start), length), e);
    if IsDirtyRam(e) {
      var page := RamPage(blocks, HostOf(e));
      ClearedBits(dirty, dirty', client, start, length, page);
      if Cleared(start, length, page) {
        ResetReaches(blocks, i, start, length, e);
      }
    }
  }

  /** Nothing was dirty: nothing changes and no entry is affected. */
  lemma NothingCleared(blocks: seq<HostBlock>, start: nat, length: nat, client: nat, dirty: seq<Bitmap>, dirty': seq<Bitmap>, e: Entry)
    requires ClearedFor(dirty, dirty', client, start, length) && Tracked(e, blocks, dirty)
    requires !SomeDirty(dirty[client], FirstPage(start), EndPage(start, length))
    ensures Tracked(e, blocks, dirty') && ResetSuffices(e, blocks, start, length)
  {
    if IsDirtyRam(e) {
      ClearedBits(dirty, dirty', client, start, length, RamPage(blocks, HostOf(e)));
    }
  }

  /** The reset is right for every TLB content exactly when the range does not straddle. */
  lemma ResetRightIff(blocks: seq<HostBlock>, i: nat, start: nat, length: nat)
    requires SpanOk(blocks, i, start, length)
    ensures NoStraddle(start, length) <==>
            forall e :: IsDirtyRam(e) && MapsRam(e, blocks) && Cleared(start, length, RamPage(blocks, HostOf(e)))
              ==> !IsDirtyRam(Apply(ResetDirtyRange(HostStart(blocks[i], start), length), e))
  {
    ReachedIff(start, length);
    if NoStraddle(start, length) {
      forall e | IsDirtyRam(e) && MapsRam(e, blocks) && Cleared(start, length, RamPage(blocks, HostOf(e)))
        ensures !IsDirtyRam(Apply(ResetDirtyRange(HostStart(blocks[i], start), length), e))
      {
        ResetReaches(blocks, i, start, length, e);
      }
    } else {
      var page: nat :| Cleared(start, length, page) && !Reached(start, length, page);
      var e := EntryFor(blocks, i, start, length, page);
      ResetReaches(blocks, i, start, length, e);
    }
  }

  /** Some entry maps any given page of a block. */
  lemma EntryFor(blocks: seq<HostBlock>, i: nat, start: nat, length: nat, page: nat) returns (e: Entry)
    requires SpanOk(blocks, i, start, length) && Cleared(start, length, page)
    ensures IsDirtyRam(e) && MapsRam(e, blocks) && RamPage(blocks, HostOf(e)) == page
  {
    var b := blocks[i];
    ClearedInside(b, start, length, page);
    var h := HostAddress(b, page);
    PageOfHost(blocks, h, i);
    e := EntryAt(h);
  }

  lemma EntryAt(h: nat) returns (e: Entry)
    requires h < WORD
    ensures IsDirtyRam(e) && HostOf(e) == h
  {
    e := Entry(NO_WORD, Word(0, false, false, false), NO_WORD, h);
  }

  lemma HostAddress(b: HostBlock, page: nat) returns (h: nat)
    requires BlockAligned(b) && HasPage(b, page)
    ensures HasHost(b, h) && h % PAGE == 0 && (h - b.host + b.offset) / PAGE == page && h < WORD
  {
    var o, k := b.offset / PAGE, b.host / PAGE;
    assert b.offset == o * PAGE && b.host == k * PAGE;
    h := (page - o + k) * PAGE;
    assert h - b.host + b.offset == page * PAGE;
  }

  // ------------------------------------------------------------ setting

  ghost predicate Grown(dirty: seq<Bitmap>, dirty': seq<Bitmap>) {
    && |dirty| == CLIENTS && |dirty'| == CLIENTS
    && (forall c :: 0 <= c < CLIENTS ==> |dirty'[c]| == |dirty[c]|)
    && forall c, page: nat :: 0 <= c < CLIENTS && Bit(dirty[c], page) ==> Bit(dirty'[c], page)
  }

  lemma GrownKeeps(e: Entry, blocks: seq<HostBlock>, dirty: seq<Bitmap>, dirty': seq<Bitmap>)
    requires Grown(dirty, dirty') && Tracked(e, blocks, dirty)
    ensures Tracked(e, blocks, dirty')
  {
  }

  /** The entry is one that `tlb_set_dirty` marks. */
  predicate Marks(e: Entry, vpage: nat) { e.write == Word(vpage, false, true, false) }

  /** A bitmap in which one page is dirty and no other. */
  function OnlyPage(page: nat): (m: Bitmap)
    ensures forall q: nat :: Bit(m, q) <==> q == page
  {
    var n := page / DIRTY_MEMORY_BLOCK_SIZE + 1;
    seq(n, b => seq(DIRTY_MEMORY_BLOCK_SIZE, i => b * DIRTY_MEMORY_BLOCK_SIZE + i == page))
  }

  /** Marking an entry is right for every bitmap in which a page is dirty for all clients exactly when the entry maps that page. */
  lemma MarkRightIff(e: Entry, vpage: nat, page: nat, blocks: seq<HostBlock>)
    requires Marks(e, vpage) && MapsRam(e, blocks)
    ensures RamPage(blocks, HostOf(e)) == page <==>
            forall dirty :: AllDirty(dirty, page) ==> Tracked(Apply(SoftTlb.SetDirty(vpage), e), blocks, dirty)
  {
    var e' := Apply(SoftTlb.SetDirty(vpage), e);
    assert HostOf(e') == HostOf(e) && IsDirtyRam(e');
    var m := OnlyPage(page);
    var dirty := [m, m, m];
    assert AllDirty(dirty, page);
    if RamPage(blocks, HostOf(e)) != page {
      assert !AllDirty(dirty, RamPage(blocks, HostOf(e)));
    }
  }

  /** The page a marked entry maps is the page just written, or was dirty for all clients before. */
  predicate MarkSafe(e: Entry, vpage: nat, page: int, blocks: seq<HostBlock>, dirty: seq<Bitmap>) {
    var q := RamPage(blocks, HostOf(e));
    Marks(e, vpage) ==> q == page || (q >= 0 && AllDirty(dirty, q))
  }

  lemma MarkedEntry(e: Entry, vpage: nat, page: nat, blocks: seq<HostBlock>, dirty: seq<Bitmap>, dirty': seq<Bitmap>)
    requires Tracked(e, blocks, dirty') && AllDirty(dirty', page)
    requires forall q: nat :: q != page ==> (AllDirty(dirty', q) <==> AllDirty(dirty, q))
    ensures Tracked(Apply(SoftTlb.SetDirty(vpage), e), blocks, dirty') <==> MarkSafe(e, vpage, page, blocks, dirty)
  {
  }

  lemma HostOfFill(f: Fill)
    requires f.canWrite && f.host < WORD
    ensures HostOf(NewEntry(f)) == f.host
  {
    var x := f.page * VPAGE_SIZE;
    AddBack(x, f.host);
  }

  lemma AddBack(x: nat, h: nat)
    requires h < WORD
    ensures (x + (h - x) % WORD) % WORD == h
  {
  }

  // ------------------------------------------------------------ filling

  datatype Target = IoTarget | RomDeviceTarget(host: nat) | RamTarget(block: nat, offset: nat, readOnly: bool)

  predicate TargetOk(target: Target, blocks: seq<HostBlock>) {
    target.RamTarget? ==> target.block < |blocks| && target.offset % PAGE == 0 && target.offset < blocks[target.block].length
  }

  /** How the fill sees its target: the host address, and whether the page is clean. */
  function MemoryOf(target: Target, blocks: seq<HostBlock>, dirty: seq<Bitmap>): (Memory, nat)
    requires TargetOk(target, blocks)
  {
    match target
    case IoTarget => (IoMemory, 0)
    case RomDeviceTarget(host) => (RomDevice, host)
    case RamTarget(b, offset, readOnly) =>
      (Ram(readOnly, !AllDirty(dirty, (blocks[b].offset + offset) / PAGE)), blocks[b].host + offset)
  }

  /** Stores through a new entry go to the RAM page the fill was for, and bypass the bitmaps exactly if that page is dirty for all clients. */
  lemma FilledMaps(f: Fill, target: Target, blocks: seq<HostBlock>, dirty: seq<Bitmap>)
    requires GeometryOk(blocks) && TargetOk(target, blocks) && (f.memory, f.host) == MemoryOf(target, blocks, dirty)
    ensures WritesRam(NewEntry(f)) <==> f.canWrite && !f.watched && target.RamTarget? && !target.readOnly
    ensures WritesRam(NewEntry(f)) ==>
              var page := (blocks[target.block].offset + target.offset) / 4096;
              && HostOf(NewEntry(f)) % PAGE == 0 && RamPage(blocks, HostOf(NewEntry(f))) == page
              && (IsDirtyRam(NewEntry(f)) <==> AllDirty(dirty, page))
  {
    if WritesRam(NewEntry(f)) {
      var b := blocks[target.block];
      assert BlockAligned(b);
      AlignedSum(b.host, target.offset);
      HostOfFill(f);
      PageOfHost(blocks, f.host, target.block);
      assert f.host - b.host + b.offset == b.offset + target.offset;
    }
  }

  /** Reads through a new entry go where the fill was for: to a device, or to the host page of the target. */
  lemma FilledReads(f: Fill, target: Target, blocks: seq<HostBlock>, dirty: seq<Bitmap>)
    requires TargetOk(target, blocks) && (f.memory, f.host) == MemoryOf(target, blocks, dirty)
    ensures f.canRead ==> (NewEntry(f).read.mmio <==> target.IoTarget? || f.watched)
    ensures var host := (f.page * 4096 + NewEntry(f).addend) % 0x1_0000_0000_0000_0000;
            match target
            case IoTarget => true
            case RomDeviceTarget(h) => host == h % 0x1_0000_0000_0000_0000
            case RamTarget(b, offset, _) => host == (blocks[b].host + offset) % 0x1_0000_0000_0000_0000
  {
    FillServes(f);
  }

  lemma FilledTracked(f: Fill, target: Target, blocks: seq<HostBlock>, dirty: seq<Bitmap>)
    requires GeometryOk(blocks) && TargetOk(target, blocks) && (f.memory, f.host) == MemoryOf(target, blocks, dirty)
    ensures Tracked(NewEntry(f), blocks, dirty)
  {
    FilledMaps(f, target, blocks, dirty);
  }

  lemma AlignedSum(a: nat, b: nat)
    requires a % PAGE == 0 && b % PAGE == 0
    ensures (a + b) % PAGE == 0
  {
  }

  // ------------------------------------------------------------ the machine

  ghost predicate CpusOk(cpus: seq<Tlb>, modes: nat, held: seq<set<Fill>>) {
    |held| == |cpus| && forall c :: 0 <= c < |cpus| ==> Inv(cpus[c], modes, held[c])
  }

  lemma TrackedEverywhere(cpus: seq<Tlb>, blocks: seq<HostBlock>, dirty: seq<Bitmap>, dirty': seq<Bitmap>)
    requires AllEntries(cpus, IsTracked(blocks, dirty)) && Grown(dirty, dirty')
    ensures AllEntries(cpus, IsTracked(blocks, dirty'))
  {
    forall c | 0 <= c < |cpus|
      ensures TlbAll(cpus[c], IsTracked(blocks, dirty'))
    {
      forall e | IsTracked(blocks, dirty)(e)
        ensures IsTracked(blocks, dirty')(e)
      {
        GrownKeeps(e, blocks, dirty, dirty');
      }
      WeakenAll(cpus[c], IsTracked(blocks, dirty), IsTracked(blocks, dirty'));
    }
  }

  lemma OnlyOldKeeps(t: Tlb, t': Tlb, p: Entry -> bool)
    requires OnlyOld(t, t') && TlbAll(t, p) && p(EMPTY)
    ensures TlbAll(t', p)
  {
    forall m, e | 0 <= m < |t.main| && OldEntry(t, m, e)
      ensures p(e)
    {
      if e in t.main[m] {
        var i :| 0 <= i < |t.main[m]| && t.main[m][i] == e;
      } else if e in t.victim[m] {
        var i :| 0 <= i < |t.victim[m]| && t.victim[m][i] == e;
      }
    }
  }

  lemma FillTracked(t: Tlb, t': Tlb, f: Fill, modes: nat, p: Entry -> bool)
    requires TlbShaped(t, modes) && FillOk(f, modes) && TlbAll(t, p) && p(NewEntry(f))
    requires Placed(t, t', f)
    ensures TlbAll(t', p)
  {
  }

  /** The one slot `tlb_set_dirty` visits is the only one its page can be in. */
  lemma SlotIsEnough(t: Table, t': Table, page: nat, held: set<Fill>)
    requires MainOk(t, held) && SlotUpdated(t, t', page % TLB_SIZE, SoftTlb.SetDirty(page))
    ensures Updated(t, t', SoftTlb.SetDirty(page))
  {
    forall m | 0 <= m < |t|
      ensures RowUpdated(t[m], t'[m], SoftTlb.SetDirty(page))
    {
      forall i | 0 <= i < |t[m]|
        ensures t'[m][i] == Apply(SoftTlb.SetDirty(page), t[m][i])
      {
        assert AtHome(t[m][i], i);
      }
    }
  }

  predicate AllMarkSafe(t: Tlb, vpage: nat, page: int, blocks: seq<HostBlock>, dirty: seq<Bitmap>) {
    TlbAll(t, e => MarkSafe(e, vpage, page, blocks, dirty))
  }

  lemma SetDirtyTracked(t: Tlb, t': Tlb, vpage: nat, page: nat, blocks: seq<HostBlock>, dirty: seq<Bitmap>, dirty': seq<Bitmap>)
    requires TlbAll(t, IsTracked(blocks, dirty')) && AllDirty(dirty', page)
    requires forall q: nat :: q != page ==> (AllDirty(dirty', q) <==> AllDirty(dirty, q))
    requires Updated(t.main, t'.main, SoftTlb.SetDirty(vpage)) && Updated(t.victim, t'.victim, SoftTlb.SetDirty(vpage))
    ensures TlbAll(t', IsTracked(blocks, dirty')) <==> AllMarkSafe(t, vpage, page, blocks, dirty)
  {
    var p, u := IsTracked(blocks, dirty'), SoftTlb.SetDirty(vpage);
    var q := (e: Entry) => MarkSafe(e, vpage, page, blocks, dirty);
    forall e | p(e)
      ensures p(Apply(u, e)) <==> q(e)
    {
      MarkedEntry(e, vpage, page, blocks, dirty, dirty');
    }
    LiftUpdate(t.main, t'.main, u, p, p, q);
    LiftUpdate(t.victim, t'.victim, u, p, p, q);
  }

  predicate AllResetSuffice(cpus: seq<Tlb>, blocks: seq<HostBlock>, start: nat, length: nat) {
    AllEntries(cpus, e => ResetSuffices(e, blocks, start, length))
  }

  ghost predicate AllReset(cpus: seq<Tlb>, cpus': seq<Tlb>, u: Update) {
    && |cpus'| == |cpus|
    && forall c :: 0 <= c < |cpus| ==> Updated(cpus[c].main, cpus'[c].main, u) && Updated(cpus[c].victim, cpus'[c].victim, u)
  }

  lemma ClearTracked(cpus: seq<Tlb>, cpus': seq<Tlb>, blocks: seq<HostBlock>, i: nat, start: nat, length: nat, client: nat,
                     dirty: seq<Bitmap>, dirty': seq<Bitmap>)
    requires SpanOk(blocks, i, start, length) && ClearedFor(dirty, dirty', client, start, length)
    requires AllEntries(cpus, IsTracked(blocks, dirty))
    requires AllReset(cpus, cpus', ResetDirtyRange(HostStart(blocks[i], start), length))
    ensures AllEntries(cpus', IsTracked(blocks, dirty')) <==> AllResetSuffice(cpus, blocks, start, length)
  {
    var p, p', u := IsTracked(blocks, dirty), IsTracked(blocks, dirty'), ResetDirtyRange(HostStart(blocks[i], start), length);
    var q := (e: Entry) => ResetSuffices(e, blocks, start, length);
    forall e | p(e)
      ensures p'(Apply(u, e)) <==> q(e)
    {
      ClearedEntry(blocks, i, start, length, client, dirty, dirty', e);
    }
    forall c | 0 <= c < |cpus|
      ensures TlbAll(cpus'[c], p') <==> TlbAll(cpus[c], q)
    {
      assert TlbAll(cpus[c], p);
      LiftUpdate(cpus[c].main, cpus'[c].main, u, p, p', q);
      LiftUpdate(cpus[c].victim, cpus'[c].victim, u, p, p', q);
    }
    assert AllEntries(cpus, q) <==> AllResetSuffice(cpus, blocks, start, length);
  }

  lemma NothingClearedTracked(cpus: seq<Tlb>, blocks: seq<HostBlock>, start: nat, length: nat, client: nat, dirty: seq<Bitmap>, dirty': seq<Bitmap>)
    requires ClearedFor(dirty, dirty', client, start, length) && AllEntries(cpus, IsTracked(blocks, dirty))
    requires !SomeDirty(dirty[client], FirstPage(start), EndPage(start, length))
    ensures AllEntries(cpus, IsTracked(blocks, dirty')) && AllResetSuffice(cpus, blocks, start, length)
  {
    var q := (e: Entry) => ResetSuffices(e, blocks, start, length);
    forall e | IsTracked(blocks, dirty)(e)
      ensures IsTracked(blocks, dirty')(e) && q(e)
    {
      NothingCleared(blocks, start, length, client, dirty, dirty', e);
    }
    forall c | 0 <= c < |cpus|
      ensures TlbAll(cpus[c], IsTracked(blocks, dirty')) && TlbAll(cpus[c], q)
    {
      WeakenAll(cpus[c], IsTracked(blocks, dirty), IsTracked(blocks, dirty'));
      WeakenAll(cpus[c], IsTracked(blocks, dirty), q);
    }
    assert AllEntries(cpus, q) <==> AllResetSuffice(cpus, blocks, start, length);
  }

  lemma NoStraddleSuffices(cpus: seq<Tlb>, blocks: seq<HostBlock>, start: nat, length: nat)
    requires 0 < length && NoStraddle(start, length)
    ensures AllResetSuffice(cpus, blocks, start, length)
  {
    ReachedIff(start, length);
  }

  lemma SpanFits(blocks: seq<HostBlock>, i: nat, start: nat, length: nat, dirty: seq<Bitmap>, client: nat)
    requires SpanOk(blocks, i, start, length) && BitmapsOk(dirty, blocks) && client < CLIENTS
    ensures EndPage(start, length) <= Capacity(dirty[client])
  {
    assert blocks[i].offset + blocks[i].length <= Capacity(dirty[client]) * PAGE;
  }

  /** The bitmaps after a store through the not-dirty handler. */
  ghost predicate WrittenBits(dirty: seq<Bitmap>, dirty': seq<Bitmap>, ramAddr: nat, size: nat, unprotect: bool) {
    && |dirty| == CLIENTS && |dirty'| == CLIENTS
    && RangeIs(dirty[DIRTY_MEMORY_VGA], dirty'[DIRTY_MEMORY_VGA], FirstPage(ramAddr), EndPage(ramAddr, size), true)
    && RangeIs(dirty[DIRTY_MEMORY_MIGRATION], dirty'[DIRTY_MEMORY_MIGRATION], FirstPage(ramAddr), EndPage(ramAddr, size), true)
    && var page := FirstPage(ramAddr);
       RangeIs(dirty[DIRTY_MEMORY_CODE], dirty'[DIRTY_MEMORY_CODE], page, if unprotect then page + 1 else page, true)
  }

  /** One CPU's entries for the virtual page are marked; the other CPUs are as they were. */
  ghost predicate CpuMarked(cpus: seq<Tlb>, cpus': seq<Tlb>, c: nat, vpage: nat) {
    && c < |cpus| == |cpus'| && cpus' == cpus[c := cpus'[c]]
    && Updated(cpus[c].main, cpus'[c].main, SoftTlb.SetDirty(vpage)) && Updated(cpus[c].victim, cpus'[c].victim, SoftTlb.SetDirty(vpage))
  }

  class SoftMmu {
    const modes: nat
    const blocks: seq<HostBlock>
    var cpus: seq<Tlb>
    var dirty: seq<Bitmap>
    ghost var held: seq<set<Fill>>

    ghost predicate Valid()
      reads this
    {
      GeometryOk(blocks) && BitmapsOk(dirty, blocks) && CpusOk(cpus, modes, held)
    }

    function Now(): Mmu
      reads this
    {
      Mmu(cpus, dirty)
    }

    ghost predicate Tracking()
      reads this
    {
      TrackedNow(Now(), blocks)
    }

    constructor (modes: nat, blocks: seq<HostBlock>, ncpus: nat, dirty: seq<Bitmap>)
      requires GeometryOk(blocks) && BitmapsOk(dirty, blocks)
      ensures Valid() && Tracking()
      ensures this.modes == modes && this.blocks == blocks && |cpus| == ncpus && this.dirty == dirty
      ensures forall c :: 0 <= c < ncpus ==> TableEmpty(cpus[c].main) && TableEmpty(cpus[c].victim)
    {
      var t := SoftTlb.Flush(modes);
      this.modes, this.blocks, this.dirty := modes, blocks, dirty;
      cpus := seq(ncpus, c => t);
      held := seq(ncpus, c => {});
    }

    /** A TLB operation that installs nothing: flushes and victim swaps. */
    method Maintain(c: nat, op: TlbOp)
      requires Valid() && Tracking() && c < |cpus| && OpOk(op, modes)
      requires !op.SetPageOp? && !op.ResetDirtyOp? && !op.SetDirtyOp?
      modifies this`cpus, this`held
      ensures Valid() && Tracking() && |cpus| == |old(cpus)| && cpus == old(cpus)[c := cpus[c]]
      ensures StepDone(old(cpus)[c], op, cpus[c], modes) && OnlyOld(old(cpus)[c], cpus[c])
    {
      var t, h := SoftTlb.Step(cpus[c], op, modes, held[c]);
      OnlyOldKeeps(cpus[c], t, IsTracked(blocks, dirty));
      cpus, held := cpus[c := t], held[c := h];
    }

    /** `tlb_set_page_with_attrs`. */
    method SetPage(c: nat, f: Fill, target: Target)
      requires Valid() && Tracking() && c < |cpus| && FillOk(f, modes) && TargetOk(target, blocks)
      requires (f.memory, f.host) == MemoryOf(target, blocks, dirty)
      modifies this`cpus, this`held
      ensures Valid() && Tracking() && |cpus| == |old(cpus)| && cpus == old(cpus)[c := cpus[c]]
      ensures TlbMoves(old(cpus)[c], SetPageOp(f), cpus[c], modes)
    {
      FilledTracked(f, target, blocks, dirty);
      var t := SoftTlb.SetPage(cpus[c], f, modes, held[c]);
      FillTracked(cpus[c], t, f, modes, IsTracked(blocks, dirty));
      cpus, held := cpus[c := t], held[c := held[c] + {f}];
    }

    /** `cpu_physical_memory_set_dirty_range` for the chosen clients. */
    method SetDirty(start: nat, length: nat, clients: seq<bool>)
      requires Valid() && Tracking() && |clients| == CLIENTS
      requires forall k :: 0 <= k < CLIENTS ==> EndPage(start, length) <= Capacity(dirty[k])
      modifies this`dirty
      ensures Valid() && Tracking()
      ensures forall k :: 0 <= k < CLIENTS ==>
                if clients[k] then RangeIs(old(dirty)[k], dirty[k], FirstPage(start), EndPage(start, length), true) else dirty[k] == old(dirty)[k]
    {
      ghost var was := dirty;
      for k := 0 to CLIENTS
        invariant |dirty| == CLIENTS
        invariant forall j :: k <= j < CLIENTS ==> dirty[j] == was[j]
        invariant forall j :: 0 <= j < k ==>
                    if clients[j] then RangeIs(was[j], dirty[j], FirstPage(start), EndPage(start, length), true) else dirty[j] == was[j]
      {
        if clients[k] {
          var m := SetDirtyRange(dirty[k], start, length);
          dirty := dirty[k := m];
        }
      }
      assert Grown(was, dirty);
      TrackedEverywhere(cpus, blocks, was, dirty);
    }

    /** `cpu_physical_memory_test_and_clear_dirty` with its TLB reset; `i` is the block the range lies in. */
    method TestAndClear(start: nat, length: nat, client: nat, i: nat) returns (wasDirty: bool)
      requires Valid() && Tracking() && client < CLIENTS && (length > 0 ==> SpanOk(blocks, i, start, length))
      modifies this`cpus, this`dirty
      ensures Valid() && |cpus| == |old(cpus)|
      ensures length == 0 ==> !wasDirty && dirty == old(dirty) && cpus == old(cpus)
      ensures length > 0 ==> ClearedFor(old(dirty), dirty, client, start, length)
      ensures length > 0 ==> (wasDirty <==> SomeDirty(old(dirty)[client], FirstPage(start), EndPage(start, length)))
      ensures if wasDirty then AllReset(old(cpus), cpus, ResetDirtyRange(HostStart(blocks[i], start), length)) else cpus == old(cpus)
      ensures length > 0 ==> (Tracking() <==> AllResetSuffice(old(cpus), blocks, start, length))
      ensures length == 0 || NoStraddle(start, length) ==> Tracking()
    {
      if length == 0 {
        return false;
      }
      SpanFits(blocks, i, start, length, dirty, client);
      ghost var was := dirty;
      var m;
      m, wasDirty := DirtyBitmap.TestAndClear(dirty[client], start, length);
      dirty := dirty[client := m];
      if NoStraddle(start, length) { NoStraddleSuffices(cpus, blocks, start, length); }
      if wasDirty {
        ResetAll(HostStart(blocks[i], start), length);
        ClearTracked(old(cpus), cpus, blocks, i, start, length, client, was, dirty);
      } else {
        NothingClearedTracked(cpus, blocks, start, length, client, was, dirty);
      }
    }

    /** The loop over the CPUs in `tlb_reset_dirty_range_all`. */
    method ResetAll(from: nat, length: nat)
      requires CpusOk(cpus, modes, held)
      modifies this`cpus
      ensures CpusOk(cpus, modes, held) && AllReset(old(cpus), cpus, ResetDirtyRange(from, length))
    {
      for c := 0 to |cpus|
        invariant |cpus| == |old(cpus)| && CpusOk(cpus, modes, held)
        invariant forall k :: 0 <= k < c ==>
                    Updated(old(cpus)[k].main, cpus[k].main, ResetDirtyRange(from, length)) &&
                    Updated(old(cpus)[k].victim, cpus[k].victim, ResetDirtyRange(from, length))
        invariant forall k :: c <= k < |cpus| ==> cpus[k] == old(cpus)[k]
      {
        var t := SoftTlb.ResetDirty(cpus[c], from, length, modes, held[c]);
        cpus := cpus[c := t];
      }
    }

    /** The entry through which mode `mode` of CPU `c` stores to a virtual page. */
    function StoreEntry(c: nat, mode: nat, vpage: nat): Entry
      requires c < |cpus| && mode < |cpus[c].main| && |cpus[c].main[mode]| == TLB_SIZE
      reads this
    {
      cpus[c].main[mode][vpage % TLB_SIZE]
    }

    /** What the caller of `notdirty_mem_write` can tell beforehand: no entry will be marked that it should not be. */
    predicate StoreSafe(c: nat, vpage: nat, page: int, unprotect: bool)
      requires c < |cpus| && |dirty| == CLIENTS && page >= 0
      reads this
    {
      unprotect || Bit(dirty[DIRTY_MEMORY_CODE], page) ==> AllMarkSafe(cpus[c], vpage, page, blocks, dirty)
    }

    /**
     * `notdirty_mem_write` for a store of `size` bytes that came through a not-dirty entry; `unprotect`
     * says that invalidating the translated code removed the page's code protection.
     */
    method NotDirtyWrite(c: nat, mode: nat, vpage: nat, offset: nat, size: nat, unprotect: bool)
      requires Valid() && Tracking() && c < |cpus| && mode < modes && 0 < size && offset + size <= PAGE
      requires Marks(StoreEntry(c, mode, vpage), vpage)
      modifies this`cpus, this`dirty
      ensures Valid() && |cpus| == |old(cpus)|
      ensures Stored(old(Now()), Now(), c, old(StoreEntry(c, mode, vpage)), vpage, offset, size, unprotect, blocks)
      ensures var page := RamPage(blocks, HostOf(old(StoreEntry(c, mode, vpage))));
              page >= 0 && (Tracking() <==> old(StoreSafe(c, vpage, page, unprotect)))
    {
      EntryIsTracked(cpus, c, mode, vpage % TLB_SIZE, IsTracked(blocks, dirty));
      var page := RamPage(blocks, HostOf(StoreEntry(c, mode, vpage)));
      RamPageFits(blocks, HostOf(StoreEntry(c, mode, vpage)), offset, size, dirty);
      WriteAndMark(c, vpage, page, offset, size, unprotect);
    }

    method WriteAndMark(c: nat, vpage: nat, page: nat, offset: nat, size: nat, unprotect: bool)
      requires Valid() && Tracking() && c < |cpus| && 0 < size && offset + size <= PAGE
      requires forall k :: 0 <= k < CLIENTS ==> EndPage(page * PAGE + offset, size) <= Capacity(dirty[k])
      modifies this`cpus, this`dirty
      ensures Valid() && |cpus| == |old(cpus)| && WrittenBits(old(dirty), dirty, page * PAGE + offset, size, unprotect)
      ensures if AllDirty(dirty, page) then CpuMarked(old(cpus), cpus, c, vpage) else cpus == old(cpus)
      ensures Tracking() <==> old(StoreSafe(c, vpage, page, unprotect))
    {
      SetWrittenBits(page * PAGE + offset, size, unprotect);
      OtherPagesKept(old(dirty), dirty, page, offset, size, unprotect);
      if AllDirty(dirty, page) {
        MarkDirty(c, vpage, page, old(dirty));
      }
    }

    /** The bitmap half: the code bit if protection was removed, then the other two clients. */
    method SetWrittenBits(ramAddr: nat, size: nat, unprotect: bool)
      requires Valid() && Tracking() && 0 < size
      requires forall k :: 0 <= k < CLIENTS ==> EndPage(ramAddr, size) <= Capacity(dirty[k])
      modifies this`dirty
      ensures Valid() && Tracking() && WrittenBits(old(dirty), dirty, ramAddr, size, unprotect)
    {
      if !Bit(dirty[DIRTY_MEMORY_CODE], FirstPage(ramAddr)) && unprotect {
        OnePageFits(ramAddr, size, dirty);
        SetDirty(FirstPage(ramAddr) * PAGE, PAGE, [false, true, false]);
      }
      SetDirty(ramAddr, size, [true, false, true]);
      PageInRange(ramAddr, size);
    }

    /** `tlb_set_dirty` after a store to `page`: tracking survives exactly when no entry it marks maps a page that was clean. */
    method MarkDirty(c: nat, vpage: nat, ghost page: nat, ghost before: seq<Bitmap>)
      requires Valid() && Tracking() && c < |cpus| && AllDirty(dirty, page)
      requires forall q: nat :: q != page ==> (AllDirty(dirty, q) <==> AllDirty(before, q))
      modifies this`cpus
      ensures Valid() && |cpus| == |old(cpus)| && CpuMarked(old(cpus), cpus, c, vpage)
      ensures Tracking() <==> AllMarkSafe(old(cpus)[c], vpage, page, blocks, before)
    {
      var t := SoftTlb.SetDirtyPage(cpus[c], vpage, modes, held[c]);
      SlotIsEnough(cpus[c].main, t.main, vpage, held[c]);
      SetDirtyTracked(cpus[c], t, vpage, page, blocks, before, dirty);
      ReplaceCpu(cpus, c, t, IsTracked(blocks, dirty));
      cpus := cpus[c := t];
    }
  }

  lemma EntryIsTracked(cpus: seq<Tlb>, c: nat, mode: nat, i: nat, p: Entry -> bool)
    requires AllEntries(cpus, p) && c < |cpus| && mode < |cpus[c].main| && i < |cpus[c].main[mode]|
    ensures p(cpus[c].main[mode][i])
  {
    assert TlbAll(cpus[c], p);
  }

  /** A page of RAM has its bits in every bitmap. */
  lemma RamPageFits(blocks: seq<HostBlock>, h: nat, offset: nat, size: nat, dirty: seq<Bitmap>)
    requires GeometryOk(blocks) && BitmapsOk(dirty, blocks) && RamPage(blocks, h) >= 0 && 0 < size && offset + size <= PAGE
    ensures forall k :: 0 <= k < CLIENTS ==> EndPage(RamPage(blocks, h) * PAGE + offset, size) <= Capacity(dirty[k])
  {
    var j := FoundIn(blocks, h);
    var page := RamPage(blocks, h);
    OnePageSpan(page, offset, size);
    PageBelow(page, blocks[j].offset + blocks[j].length);
    forall k | 0 <= k < CLIENTS
      ensures page + 1 <= Capacity(dirty[k])
    {
      assert blocks[j].offset + blocks[j].length <= Capacity(dirty[k]) * PAGE;
    }
  }

  lemma OnePageSpan(page: nat, offset: nat, size: nat)
    requires 0 < size && offset + size <= PAGE
    ensures FirstPage(page * PAGE + offset) == page && EndPage(page * PAGE + offset, size) == page + 1
  {
  }

  lemma PageBelow(page: nat, end: nat)
    requires page * PAGE < end && end % PAGE == 0
    ensures (page + 1) * PAGE <= end
  {
  }

  /** A store inside a page changes the bits of that page only; afterwards it is dirty for all iff its code bit was set or gets set. */
  lemma OtherPagesKept(dirty: seq<Bitmap>, dirty': seq<Bitmap>, page: nat, offset: nat, size: nat, unprotect: bool)
    requires WrittenBits(dirty, dirty', page * PAGE + offset, size, unprotect) && 0 < size && offset + size <= PAGE
    ensures forall q: nat :: q != page ==> (AllDirty(dirty', q) <==> AllDirty(dirty, q))
    ensures AllDirty(dirty', page) <==> unprotect || Bit(dirty[DIRTY_MEMORY_CODE], page)
  {
    OnePageSpan(page, offset, size);
  }

  lemma ReplaceCpu(cpus: seq<Tlb>, c: nat, t: Tlb, p: Entry -> bool)
    requires AllEntries(cpus, p) && c < |cpus|
    ensures AllEntries(cpus[c := t], p) <==> TlbAll(t, p)
  {
    assert cpus[c := t][c] == t;
  }

  lemma PageInRange(start: nat, length: nat)
    requires 0 < length
    ensures FirstPage(start) <= FirstPage(start) < EndPage(start, length)
  {
  }

  lemma OnePageFits(start: nat, length: nat, dirty: seq<Bitmap>)
    requires 0 < length && |dirty| == CLIENTS && forall k :: 0 <= k < CLIENTS ==> EndPage(start, length) <= Capacity(dirty[k])
    ensures forall k :: 0 <= k < CLIENTS ==> EndPage(FirstPage(start) * PAGE, PAGE) <= Capacity(dirty[k])
  {
    PageInRange(start, length);
  }

  // ------------------------------------------------------------ whole runs

  datatype MmuOp =
    | TlbWork(cpu: nat, op: TlbOp)
    | FillOp(cpu: nat, fill: Fill, target: Target)
    | MarkOp(block: nat, start: nat, length: nat, clients: seq<bool>)
    | ClearOp(block: nat, start: nat, length: nat, client: nat)
    | StoreOp(cpu: nat, mode: nat, vpage: nat, offset: nat, size: nat, unprotect: bool)

  predicate MmuOpOk(op: MmuOp, ncpus: nat, modes: nat, blocks: seq<HostBlock>) {
    match op
    case TlbWork(c, o) => c < ncpus && OpOk(o, modes) && !o.SetPageOp? && !o.ResetDirtyOp? && !o.SetDirtyOp?
    case FillOp(c, f, target) => c < ncpus && FillOk(f, modes) && TargetOk(target, blocks)
    case MarkOp(i, start, length, clients) => SpanOk(blocks, i, start, length) && |clients| == CLIENTS
    case ClearOp(i, start, length, client) => SpanOk(blocks, i, start, length) && client < CLIENTS
    case StoreOp(c, mode, _, offset, size, _) => c < ncpus && mode < modes && 0 < size && offset + size <= PAGE
  }

  /** The TLBs of the CPUs and the bitmaps. */
  datatype Mmu = Mmu(cpus: seq<Tlb>, dirty: seq<Bitmap>)

  /** Only CPU `c` has changed. */
  predicate OnlyCpu(m: Mmu, m': Mmu, c: nat) {
    && c < |m.cpus| == |m'.cpus| && m'.cpus == m.cpus[c := m'.cpus[c]] && m'.dirty == m.dirty
  }

  ghost predicate BitsMarked(dirty: seq<Bitmap>, dirty': seq<Bitmap>, start: nat, length: nat, clients: seq<bool>) {
    && |dirty| == |dirty'| == |clients| == CLIENTS
    && forall k :: 0 <= k < CLIENTS ==>
         if clients[k] then RangeIs(dirty[k], dirty'[k], FirstPage(start), EndPage(start, length), true) else dirty'[k] == dirty[k]
  }

  /** What one operation does to the machine. */
  ghost predicate MmuMoves(m: Mmu, op: MmuOp, m': Mmu, blocks: seq<HostBlock>, modes: nat) {
    |m'.cpus| == |m.cpus| && MmuOpOk(op, |m.cpus|, modes, blocks) &&
    match op
    case TlbWork(c, o) => OnlyCpu(m, m', c) && TlbMoves(m.cpus[c], o, m'.cpus[c], modes)
    case FillOp(c, f, target) =>
      var (memory, host) := MemoryOf(target, blocks, m.dirty);
      OnlyCpu(m, m', c) && TlbMoves(m.cpus[c], SetPageOp(f.(memory := memory, host := host)), m'.cpus[c], modes)
    case MarkOp(_, start, length, clients) => m'.cpus == m.cpus && BitsMarked(m.dirty, m'.dirty, start, length, clients)
    case ClearOp(i, start, length, client) =>
      && ClearedFor(m.dirty, m'.dirty, client, start, length)
      && if SomeDirty(m.dirty[client], FirstPage(start), EndPage(start, length))
         then AllReset(m.cpus, m'.cpus, ResetDirtyRange(HostStart(blocks[i], start), length))
         else m'.cpus == m.cpus
    case StoreOp(c, mode, vpage, offset, size, unprotect) =>
      && mode < |m.cpus[c].main| && |m.cpus[c].main[mode]| == TLB_SIZE
      && var e := m.cpus[c].main[mode][vpage % TLB_SIZE];
         if Marks(e, vpage) then Stored(m, m', c, e, vpage, offset, size, unprotect, blocks) else m' == m
  }

  /** A store through a not-dirty entry: the bits of its page, and the marks if that page is now dirty for all. */
  ghost predicate Stored(m: Mmu, m': Mmu, c: nat, e: Entry, vpage: nat, offset: nat, size: nat, unprotect: bool, blocks: seq<HostBlock>) {
    var page := RamPage(blocks, HostOf(e));
    && page >= 0 && WrittenBits(m.dirty, m'.dirty, page * PAGE + offset, size, unprotect)
    && (if AllDirty(m'.dirty, page) then CpuMarked(m.cpus, m'.cpus, c, vpage) else m'.cpus == m.cpus)
  }

  /** The fill gives a CPU a way to store to RAM. */
  predicate WritableFill(op: MmuOp) {
    op.FillOp? && op.fill.canWrite && !op.fill.watched && op.target.RamTarget? && !op.target.readOnly
  }

  function TargetPage(op: MmuOp, blocks: seq<HostBlock>): nat
    requires WritableFill(op) && TargetOk(op.target, blocks)
  {
    (blocks[op.target.block].offset + op.target.offset) / PAGE
  }

  predicate FillsOk(ops: seq<MmuOp>, blocks: seq<HostBlock>) {
    forall i :: 0 <= i < |ops| && WritableFill(ops[i]) ==> TargetOk(ops[i].target, blocks)
  }

  /** On each CPU, all writable RAM fills of one virtual page are for one RAM page. */
  predicate OneTarget(ops: seq<MmuOp>, blocks: seq<HostBlock>)
    requires FillsOk(ops, blocks)
  {
    forall i, j :: 0 <= i < |ops| && 0 <= j < |ops| && WritableFill(ops[i]) && WritableFill(ops[j])
                   && ops[i].cpu == ops[j].cpu && ops[i].fill.page == ops[j].fill.page
      ==> TargetPage(ops[i], blocks) == TargetPage(ops[j], blocks)
  }

  /** The RAM page of the first writable fill of a virtual page on a CPU, or -1. */
  ghost function TargetOf(ops: seq<MmuOp>, blocks: seq<HostBlock>, c: nat, v: nat): int
    requires FillsOk(ops, blocks)
  {
    if ops == [] then -1
    else
      var n := |ops| - 1;
      var p := TargetOf(ops[..n], blocks, c, v);
      if p >= 0 then p
      else if WritableFill(ops[n]) && ops[n].cpu == c && ops[n].fill.page == v then TargetPage(ops[n], blocks)
      else -1
  }

  lemma {:induction false} TargetFound(ops: seq<MmuOp>, blocks: seq<HostBlock>, c: nat, v: nat)
    requires FillsOk(ops, blocks) && TargetOf(ops, blocks, c, v) >= 0
    ensures exists i :: 0 <= i < |ops| && WritableFill(ops[i]) && ops[i].cpu == c && ops[i].fill.page == v
                        && TargetPage(ops[i], blocks) == TargetOf(ops, blocks, c, v)
  {
    var n := |ops| - 1;
    if TargetOf(ops[..n], blocks, c, v) >= 0 {
      TargetFound(ops[..n], blocks, c, v);
      var i :| 0 <= i < n && WritableFill(ops[i]) && ops[i].cpu == c && ops[i].fill.page == v
               && TargetPage(ops[i], blocks) == TargetOf(ops, blocks, c, v);
      assert WritableFill(ops[i]);
    } else {
      assert WritableFill(ops[n]);
    }
  }

  /** After a fill its page has the fill's target, if the fills agree. */
  lemma LastTarget(ops: seq<MmuOp>, blocks: seq<HostBlock>, op: MmuOp)
    requires FillsOk(ops + [op], blocks) && OneTarget(ops + [op], blocks) && WritableFill(op) && TargetOk(op.target, blocks)
    ensures FillsOk(ops, blocks) && TargetOf(ops + [op], blocks, op.cpu, op.fill.page) == TargetPage(op, blocks)
  {
    var all, n := ops + [op], |ops|;
    assert all[..n] == ops && all[n] == op;
    assert forall i :: 0 <= i < n ==> all[i] == ops[i];
    if TargetOf(ops, blocks, op.cpu, op.fill.page) >= 0 {
      TargetFound(all[..n], blocks, op.cpu, op.fill.page);
      var i :| 0 <= i < n && WritableFill(all[i]) && all[i].cpu == op.cpu && all[i].fill.page == op.fill.page
               && TargetPage(all[i], blocks) == TargetOf(ops, blocks, op.cpu, op.fill.page);
      assert TargetPage(all[i], blocks) == TargetPage(all[n], blocks);
    }
  }

  lemma PrefixAgrees(ops: seq<MmuOp>, blocks: seq<HostBlock>, op: MmuOp)
    requires FillsOk(ops + [op], blocks)
    ensures FillsOk(ops, blocks) && (OneTarget(ops + [op], blocks) ==> OneTarget(ops, blocks))
    ensures forall c, v :: TargetOf(ops, blocks, c, v) >= 0 ==> TargetOf(ops + [op], blocks, c, v) == TargetOf(ops, blocks, c, v)
  {
    var all, n := ops + [op], |ops|;
    assert all[..n] == ops && forall i :: 0 <= i < n ==> all[i] == ops[i];
  }

  /** Stores of CPU `c` through the entry go where its fills of the virtual page go. */
  ghost function MapsBy(ops: seq<MmuOp>, blocks: seq<HostBlock>, c: nat): Entry -> bool
    requires FillsOk(ops, blocks)
  {
    e => WritesRam(e) ==> RamPage(blocks, HostOf(e)) >= 0 && RamPage(blocks, HostOf(e)) == TargetOf(ops, blocks, c, e.write.page)
  }

  ghost predicate AllMap(cpus: seq<Tlb>, ops: seq<MmuOp>, blocks: seq<HostBlock>)
    requires FillsOk(ops, blocks)
  {
    forall c :: 0 <= c < |cpus| ==> TlbAll(cpus[c], MapsBy(ops, blocks, c))
  }

  lemma MapsGrow(cpus: seq<Tlb>, ops: seq<MmuOp>, blocks: seq<HostBlock>, op: MmuOp)
    requires FillsOk(ops, blocks) && FillsOk(ops + [op], blocks) && AllMap(cpus, ops, blocks)
    ensures AllMap(cpus, ops + [op], blocks)
  {
    PrefixAgrees(ops, blocks, op);
    forall c | 0 <= c < |cpus|
      ensures TlbAll(cpus[c], MapsBy(ops + [op], blocks, c))
    {
      WeakenAll(cpus[c], MapsBy(ops, blocks, c), MapsBy(ops + [op], blocks, c));
    }
  }

  /** A mark or a reset moves no store. */
  lemma MarkKeepsMap(u: Update, e: Entry, ops: seq<MmuOp>, blocks: seq<HostBlock>, c: nat)
    requires !u.FlushEntry? && FillsOk(ops, blocks) && MapsBy(ops, blocks, c)(e)
    ensures MapsBy(ops, blocks, c)(Apply(u, e))
  {
    MarkKeepsEntry(u, e);
  }

  lemma UpdateKeepsMap(t: Tlb, t': Tlb, u: Update, ops: seq<MmuOp>, blocks: seq<HostBlock>, c: nat)
    requires !u.FlushEntry? && FillsOk(ops, blocks) && TlbAll(t, MapsBy(ops, blocks, c))
    requires Updated(t.main, t'.main, u) && Updated(t.victim, t'.victim, u)
    ensures TlbAll(t', MapsBy(ops, blocks, c))
  {
    var p := MapsBy(ops, blocks, c);
    forall e | p(e)
      ensures p(Apply(u, e)) <==> p(e)
    {
      MarkKeepsMap(u, e, ops, blocks, c);
    }
    LiftUpdate(t.main, t'.main, u, p, p, p);
    LiftUpdate(t.victim, t'.victim, u, p, p, p);
  }

  lemma ResetKeepsMaps(cpus: seq<Tlb>, cpus': seq<Tlb>, u: Update, ops: seq<MmuOp>, blocks: seq<HostBlock>)
    requires !u.FlushEntry? && FillsOk(ops, blocks) && AllMap(cpus, ops, blocks) && AllReset(cpus, cpus', u)
    ensures AllMap(cpus', ops, blocks)
  {
    forall c | 0 <= c < |cpus|
      ensures TlbAll(cpus'[c], MapsBy(ops, blocks, c))
    {
      UpdateKeepsMap(cpus[c], cpus'[c], u, ops, blocks, c);
    }
  }

  lemma OneCpuKeepsMaps(cpus: seq<Tlb>, cpus': seq<Tlb>, c: nat, ops: seq<MmuOp>, blocks: seq<HostBlock>)
    requires FillsOk(ops, blocks) && AllMap(cpus, ops, blocks) && c < |cpus| == |cpus'| && cpus' == cpus[c := cpus'[c]]
    requires TlbAll(cpus'[c], MapsBy(ops, blocks, c))
    ensures AllMap(cpus', ops, blocks)
  {
    forall k | 0 <= k < |cpus'|
      ensures TlbAll(cpus'[k], MapsBy(ops, blocks, k))
    {
      if k != c { assert cpus'[k] == cpus[k]; }
    }
  }

  /** When fills agree, every entry a store marks maps the page just written. */
  lemma AgreeingStore(t: Tlb, e: Entry, vpage: nat, ops: seq<MmuOp>, blocks: seq<HostBlock>, c: nat, dirty: seq<Bitmap>)
    requires FillsOk(ops, blocks) && TlbAll(t, MapsBy(ops, blocks, c)) && MapsBy(ops, blocks, c)(e) && Marks(e, vpage)
    ensures AllMarkSafe(t, vpage, RamPage(blocks, HostOf(e)), blocks, dirty)
  {
    var page := RamPage(blocks, HostOf(e));
    var q := (x: Entry) => MarkSafe(x, vpage, page, blocks, dirty);
    WeakenAll(t, MapsBy(ops, blocks, c), q);
    assert TlbAll(t, q) <==> AllMarkSafe(t, vpage, page, blocks, dirty);
  }

  predicate NoneStraddles(ops: seq<MmuOp>) {
    forall j :: 0 <= j < |ops| && ops[j].ClearOp? ==> NoStraddle(ops[j].start, ops[j].length)
  }

  /** What is known of the maps before an operation is known after it. */
  ghost predicate StillMaps(cpus: seq<Tlb>, cpus': seq<Tlb>, done: seq<MmuOp>, op: MmuOp, blocks: seq<HostBlock>)
    requires FillsOk(done, blocks) && FillsOk(done + [op], blocks)
  {
    OneTarget(done + [op], blocks) && AllMap(cpus, done, blocks) ==> AllMap(cpus', done + [op], blocks)
  }

  method PerformMaintain(mmu: SoftMmu, op: MmuOp, ghost done: seq<MmuOp>)
    requires mmu.Valid() && mmu.Tracking() && MmuOpOk(op, |mmu.cpus|, mmu.modes, mmu.blocks) && op.TlbWork?
    requires FillsOk(done, mmu.blocks) && FillsOk(done + [op], mmu.blocks)
    modifies mmu
    ensures mmu.Valid() && mmu.Tracking() && |mmu.cpus| == |old(mmu.cpus)|
    ensures MmuMoves(old(mmu.Now()), op, mmu.Now(), mmu.blocks, mmu.modes)
    ensures StillMaps(old(mmu.cpus), mmu.cpus, done, op, mmu.blocks)
  {
    ghost var cpus0 := mmu.cpus;
    mmu.Maintain(op.cpu, op.op);
    if AllMap(cpus0, done, mmu.blocks) {
      MapsGrow(cpus0, done, mmu.blocks, op);
      OnlyOldKeeps(cpus0[op.cpu], mmu.cpus[op.cpu], MapsBy(done + [op], mmu.blocks, op.cpu));
      OneCpuKeepsMaps(cpus0, mmu.cpus, op.cpu, done + [op], mmu.blocks);
    }
  }

  method PerformFill(mmu: SoftMmu, op: MmuOp, ghost done: seq<MmuOp>)
    requires mmu.Valid() && mmu.Tracking() && MmuOpOk(op, |mmu.cpus|, mmu.modes, mmu.blocks) && op.FillOp?
    requires FillsOk(done, mmu.blocks) && FillsOk(done + [op], mmu.blocks)
    modifies mmu
    ensures mmu.Valid() && mmu.Tracking() && |mmu.cpus| == |old(mmu.cpus)|
    ensures MmuMoves(old(mmu.Now()), op, mmu.Now(), mmu.blocks, mmu.modes)
    ensures StillMaps(old(mmu.cpus), mmu.cpus, done, op, mmu.blocks)
  {
    ghost var cpus0, dirty0 := mmu.cpus, mmu.dirty;
    var (memory, host) := MemoryOf(op.target, mmu.blocks, mmu.dirty);
    var f := op.fill.(memory := memory, host := host);
    mmu.SetPage(op.cpu, f, op.target);
    if AllMap(cpus0, done, mmu.blocks) && OneTarget(done + [op], mmu.blocks) {
      MapsGrow(cpus0, done, mmu.blocks, op);
      NewEntryMaps(f, op, done, mmu.blocks, dirty0);
      FillTracked(cpus0[op.cpu], mmu.cpus[op.cpu], f, mmu.modes, MapsBy(done + [op], mmu.blocks, op.cpu));
      OneCpuKeepsMaps(cpus0, mmu.cpus, op.cpu, done + [op], mmu.blocks);
    }
  }

  lemma NewEntryMaps(f: Fill, op: MmuOp, done: seq<MmuOp>, blocks: seq<HostBlock>, dirty: seq<Bitmap>)
    requires GeometryOk(blocks) && op.FillOp? && TargetOk(op.target, blocks) && (f.memory, f.host) == MemoryOf(op.target, blocks, dirty)
    requires f == op.fill.(memory := f.memory, host := f.host)
    requires FillsOk(done + [op], blocks) && OneTarget(done + [op], blocks)
    ensures MapsBy(done + [op], blocks, op.cpu)(NewEntry(f))
  {
    FilledMaps(f, op.target, blocks, dirty);
    if WritesRam(NewEntry(f)) {
      LastTarget(done, blocks, op);
    }
  }

  method PerformClear(mmu: SoftMmu, op: MmuOp, ghost done: seq<MmuOp>) returns (good: bool)
    requires mmu.Valid() && mmu.Tracking() && MmuOpOk(op, |mmu.cpus|, mmu.modes, mmu.blocks) && op.ClearOp?
    requires FillsOk(done, mmu.blocks) && FillsOk(done + [op], mmu.blocks)
    modifies mmu
    ensures mmu.Valid() && |mmu.cpus| == |old(mmu.cpus)| && (good <==> mmu.Tracking())
    ensures !good ==> !NoStraddle(op.start, op.length)
    ensures MmuMoves(old(mmu.Now()), op, mmu.Now(), mmu.blocks, mmu.modes)
    ensures StillMaps(old(mmu.cpus), mmu.cpus, done, op, mmu.blocks)
  {
    ghost var cpus0 := mmu.cpus;
    good := AllResetSuffice(mmu.cpus, mmu.blocks, op.start, op.length);
    var wasDirty := mmu.TestAndClear(op.start, op.length, op.client, op.block);
    if AllMap(cpus0, done, mmu.blocks) {
      MapsGrow(cpus0, done, mmu.blocks, op);
      if wasDirty {
        ResetKeepsMaps(cpus0, mmu.cpus, ResetDirtyRange(HostStart(mmu.blocks[op.block], op.start), op.length), done + [op], mmu.blocks);
      }
    }
  }

  method PerformStore(mmu: SoftMmu, op: MmuOp, ghost done: seq<MmuOp>) returns (good: bool)
    requires mmu.Valid() && mmu.Tracking() && MmuOpOk(op, |mmu.cpus|, mmu.modes, mmu.blocks) && op.StoreOp?
    requires FillsOk(done, mmu.blocks) && FillsOk(done + [op], mmu.blocks)
    modifies mmu
    ensures mmu.Valid() && |mmu.cpus| == |old(mmu.cpus)| && (good <==> mmu.Tracking())
    ensures AllMap(old(mmu.cpus), done, mmu.blocks) ==> good
    ensures MmuMoves(old(mmu.Now()), op, mmu.Now(), mmu.blocks, mmu.modes)
    ensures StillMaps(old(mmu.cpus), mmu.cpus, done, op, mmu.blocks)
  {
    good := true;
    if Marks(mmu.StoreEntry(op.cpu, op.mode, op.vpage), op.vpage) {
      good := PerformMarkingStore(mmu, op, done);
    } else if AllMap(mmu.cpus, done, mmu.blocks) {
      MapsGrow(mmu.cpus, done, mmu.blocks, op);
    }
  }

  method PerformMarkingStore(mmu: SoftMmu, op: MmuOp, ghost done: seq<MmuOp>) returns (good: bool)
    requires mmu.Valid() && mmu.Tracking() && MmuOpOk(op, |mmu.cpus|, mmu.modes, mmu.blocks) && op.StoreOp?
    requires Marks(mmu.StoreEntry(op.cpu, op.mode, op.vpage), op.vpage)
    requires FillsOk(done, mmu.blocks) && FillsOk(done + [op], mmu.blocks)
    modifies mmu
    ensures mmu.Valid() && |mmu.cpus| == |old(mmu.cpus)| && (good <==> mmu.Tracking())
    ensures AllMap(old(mmu.cpus), done, mmu.blocks) ==> good
    ensures Stored(old(mmu.Now()), mmu.Now(), op.cpu, old(mmu.StoreEntry(op.cpu, op.mode, op.vpage)), op.vpage, op.offset, op.size, op.unprotect, mmu.blocks)
    ensures StillMaps(old(mmu.cpus), mmu.cpus, done, op, mmu.blocks)
  {
    ghost var cpus0 := mmu.cpus;
    var e := mmu.StoreEntry(op.cpu, op.mode, op.vpage);
    EntryIsTracked(cpus0, op.cpu, op.mode, op.vpage % TLB_SIZE, IsTracked(mmu.blocks, mmu.dirty));
    StoreAgrees(cpus0, op, done, mmu.blocks, mmu.dirty);
    good := mmu.StoreSafe(op.cpu, op.vpage, RamPage(mmu.blocks, HostOf(e)), op.unprotect);
    mmu.NotDirtyWrite(op.cpu, op.mode, op.vpage, op.offset, op.size, op.unprotect);
    StoreStillMaps(cpus0, mmu.cpus, op, done, mmu.blocks);
  }

  /** A store after fills that agree marks no entry it should not. */
  lemma StoreAgrees(cpus: seq<Tlb>, op: MmuOp, done: seq<MmuOp>, blocks: seq<HostBlock>, dirty: seq<Bitmap>)
    requires FillsOk(done, blocks) && op.StoreOp? && op.cpu < |cpus| && op.mode < |cpus[op.cpu].main| && |cpus[op.cpu].main[op.mode]| == TLB_SIZE
    requires Marks(cpus[op.cpu].main[op.mode][op.vpage % TLB_SIZE], op.vpage)
    ensures AllMap(cpus, done, blocks) ==>
              AllMarkSafe(cpus[op.cpu], op.vpage, RamPage(blocks, HostOf(cpus[op.cpu].main[op.mode][op.vpage % TLB_SIZE])), blocks, dirty)
  {
    var e := cpus[op.cpu].main[op.mode][op.vpage % TLB_SIZE];
    if AllMap(cpus, done, blocks) {
      assert TlbAll(cpus[op.cpu], MapsBy(done, blocks, op.cpu)) && MapsBy(done, blocks, op.cpu)(e);
      AgreeingStore(cpus[op.cpu], e, op.vpage, done, blocks, op.cpu, dirty);
    }
  }

  lemma StoreStillMaps(cpus: seq<Tlb>, cpus': seq<Tlb>, op: MmuOp, done: seq<MmuOp>, blocks: seq<HostBlock>)
    requires FillsOk(done, blocks) && FillsOk(done + [op], blocks) && op.StoreOp?
    requires cpus' == cpus || CpuMarked(cpus, cpus', op.cpu, op.vpage)
    ensures StillMaps(cpus, cpus', done, op, blocks)
  {
    if AllMap(cpus, done, blocks) {
      MapsGrow(cpus, done, blocks, op);
      if cpus' != cpus {
        UpdateKeepsMap(cpus[op.cpu], cpus'[op.cpu], SoftTlb.SetDirty(op.vpage), done + [op], blocks, op.cpu);
        OneCpuKeepsMaps(cpus, cpus', op.cpu, done + [op], blocks);
      }
    }
  }

  method Perform(mmu: SoftMmu, op: MmuOp, ncpus: nat, ghost done: seq<MmuOp>) returns (good: bool)
    requires mmu.Valid() && mmu.Tracking() && |mmu.cpus| == ncpus && MmuOpOk(op, ncpus, mmu.modes, mmu.blocks)
    requires FillsOk(done, mmu.blocks) && FillsOk(done + [op], mmu.blocks)
    modifies mmu
    ensures mmu.Valid() && |mmu.cpus| == ncpus && (good <==> mmu.Tracking())
    ensures !good ==> (op.ClearOp? && !NoStraddle(op.start, op.length)) || (op.StoreOp? && !AllMap(old(mmu.cpus), done, mmu.blocks))
    ensures MmuMoves(old(mmu.Now()), op, mmu.Now(), mmu.blocks, mmu.modes)
    ensures StillMaps(old(mmu.cpus), mmu.cpus, done, op, mmu.blocks)
  {
    good := true;
    match op
    case TlbWork(_, _) =>
      PerformMaintain(mmu, op, done);
    case FillOp(_, _, _) =>
      PerformFill(mmu, op, done);
    case MarkOp(i, start, length, clients) =>
      SpanFitsAll(mmu.blocks, i, start, length, mmu.dirty);
      if AllMap(mmu.cpus, done, mmu.blocks) { MapsGrow(mmu.cpus, done, mmu.blocks, op); }
      mmu.SetDirty(start, length, clients);
    case ClearOp(_, _, _, _) =>
      good := PerformClear(mmu, op, done);
    case StoreOp(_, _, _, _, _, _) =>
      good := PerformStore(mmu, op, done);
  }

  lemma SpanFitsAll(blocks: seq<HostBlock>, i: nat, start: nat, length: nat, dirty: seq<Bitmap>)
    requires SpanOk(blocks, i, start, length) && BitmapsOk(dirty, blocks)
    ensures forall k :: 0 <= k < CLIENTS ==> EndPage(start, length) <= Capacity(dirty[k])
  {
    forall k | 0 <= k < CLIENTS
      ensures EndPage(start, length) <= Capacity(dirty[k])
    {
      SpanFits(blocks, i, start, length, dirty, k);
    }
  }

  ghost function MmuMove(blocks: seq<HostBlock>, modes: nat): (Mmu, MmuOp, Mmu) -> bool {
    (m, op, m') => MmuMoves(m, op, m', blocks, modes)
  }

  ghost predicate TrackedNow(m: Mmu, blocks: seq<HostBlock>) { AllEntries(m.cpus, IsTracked(blocks, m.dirty)) }

  ghost function IsTrackedNow(blocks: seq<HostBlock>): Mmu -> bool {
    m => TrackedNow(m, blocks)
  }

  ghost predicate StartsEmpty(m: Mmu, ncpus: nat, dirty: seq<Bitmap>) {
    |m.cpus| == ncpus && m.dirty == dirty && forall c :: 0 <= c < ncpus ==> TableEmpty(m.cpus[c].main) && TableEmpty(m.cpus[c].victim)
  }

  /** The operation is a clear that straddles, or a store after fills that do not agree. */
  predicate LosesTracking(ops: seq<MmuOp>, stop: nat, blocks: seq<HostBlock>) {
    && stop < |ops|
    && (|| (ops[stop].ClearOp? && !NoStraddle(ops[stop].start, ops[stop].length))
        || (ops[stop].StoreOp? && FillsOk(ops[..stop], blocks) && !OneTarget(ops[..stop], blocks)))
  }

  lemma LossHasReason(ops: seq<MmuOp>, stop: nat, blocks: seq<HostBlock>)
    requires LosesTracking(ops, stop, blocks) && FillsOk(ops, blocks)
    ensures !(OneTarget(ops, blocks) && NoneStraddles(ops))
  {
    assert forall i :: 0 <= i < stop ==> ops[..stop][i] == ops[i];
  }

  /** As long as the fills so far agree, every CPU stores where they say. */
  ghost predicate Agreeing(ops: seq<MmuOp>, n: nat, cpus: seq<Tlb>, blocks: seq<HostBlock>) {
    n <= |ops| && FillsOk(ops[..n], blocks) && (OneTarget(ops[..n], blocks) ==> AllMap(cpus, ops[..n], blocks))
  }

  predicate OpsOk(ops: seq<MmuOp>, ncpus: nat, modes: nat, blocks: seq<HostBlock>) {
    forall j :: 0 <= j < |ops| ==> MmuOpOk(ops[j], ncpus, modes, blocks)
  }

  lemma AllFillsOk(ops: seq<MmuOp>, ncpus: nat, modes: nat, blocks: seq<HostBlock>)
    requires OpsOk(ops, ncpus, modes, blocks)
    ensures FillsOk(ops, blocks)
  {
    forall i | 0 <= i < |ops| && WritableFill(ops[i])
      ensures TargetOk(ops[i].target, blocks)
    {
      assert MmuOpOk(ops[i], ncpus, modes, blocks);
    }
  }

  /**
   * The run of the first `steps` operations from an empty machine.  Everything was tracked before each of
   * them; everything is now, unless tracking is lost, and then the last one was of a kind that can lose it.
   */
  ghost predicate RunSoFar(run: seq<Mmu>, ops: seq<MmuOp>, steps: nat, lost: bool, blocks: seq<HostBlock>, modes: nat, ncpus: nat, dirty0: seq<Bitmap>) {
    && steps <= |ops| && Follows(run, ops[..steps], MmuMove(blocks, modes)) && StartsEmpty(run[0], ncpus, dirty0)
    && Always(run, steps, IsTrackedNow(blocks)) && (TrackedNow(run[steps], blocks) <==> !lost)
    && (lost ==> steps > 0 && LosesTracking(ops, steps - 1, blocks))
  }

  lemma RunBegins(ops: seq<MmuOp>, m: Mmu, blocks: seq<HostBlock>, modes: nat, ncpus: nat, dirty0: seq<Bitmap>)
    requires StartsEmpty(m, ncpus, dirty0) && TrackedNow(m, blocks)
    ensures RunSoFar([m], ops, 0, false, blocks, modes, ncpus, dirty0)
  {
  }

  lemma RunGoesOn(run: seq<Mmu>, ops: seq<MmuOp>, steps: nat, m: Mmu, good: bool, blocks: seq<HostBlock>, modes: nat, ncpus: nat, dirty0: seq<Bitmap>)
    requires RunSoFar(run, ops, steps, false, blocks, modes, ncpus, dirty0) && steps < |ops|
    requires MmuMoves(run[steps], ops[steps], m, blocks, modes)
    requires (good <==> TrackedNow(m, blocks)) && (!good ==> LosesTracking(ops, steps, blocks))
    ensures RunSoFar(run + [m], ops, steps + 1, !good, blocks, modes, ncpus, dirty0)
  {
    assert ops[..steps + 1] == ops[..steps] + [ops[steps]];
    FollowsNext(run, ops[..steps], ops[steps], m, MmuMove(blocks, modes));
    AlwaysNext(run, steps, m, IsTrackedNow(blocks));
  }

  lemma RunHasReason(run: seq<Mmu>, ops: seq<MmuOp>, steps: nat, lost: bool, blocks: seq<HostBlock>, modes: nat, ncpus: nat, dirty0: seq<Bitmap>)
    requires RunSoFar(run, ops, steps, lost, blocks, modes, ncpus, dirty0) && FillsOk(ops, blocks)
    ensures OneTarget(ops, blocks) && NoneStraddles(ops) ==> !lost
  {
    if lost { LossHasReason(ops, steps - 1, blocks); }
  }

  /** The next operation. */
  method PerformNext(mmu: SoftMmu, ops: seq<MmuOp>, steps: nat, ncpus: nat) returns (good: bool)
    requires mmu.Valid() && mmu.Tracking() && |mmu.cpus| == ncpus && steps < |ops|
    requires MmuOpOk(ops[steps], ncpus, mmu.modes, mmu.blocks) && Agreeing(ops, steps, mmu.cpus, mmu.blocks)
    modifies mmu
    ensures mmu.Valid() && |mmu.cpus| == ncpus && (good <==> mmu.Tracking())
    ensures !good ==> LosesTracking(ops, steps, mmu.blocks)
    ensures MmuMoves(old(mmu.Now()), ops[steps], mmu.Now(), mmu.blocks, mmu.modes)
    ensures Agreeing(ops, steps + 1, mmu.cpus, mmu.blocks)
  {
    assert ops[..steps + 1] == ops[..steps] + [ops[steps]];
    PrefixAgrees(ops[..steps], mmu.blocks, ops[steps]);
    good := Perform(mmu, ops[steps], ncpus, ops[..steps]);
  }

  method Advance(mmu: SoftMmu, ops: seq<MmuOp>, run: seq<Mmu>, steps: nat, ncpus: nat, ghost dirty0: seq<Bitmap>) returns (run': seq<Mmu>, lost: bool)
    requires mmu.Valid() && mmu.Tracking() && |mmu.cpus| == ncpus && steps < |ops| && OpsOk(ops, ncpus, mmu.modes, mmu.blocks)
    requires Agreeing(ops, steps, mmu.cpus, mmu.blocks)
    requires RunSoFar(run, ops, steps, false, mmu.blocks, mmu.modes, ncpus, dirty0) && run[steps] == mmu.Now()
    modifies mmu
    ensures mmu.Valid() && |mmu.cpus| == ncpus && (!lost ==> mmu.Tracking())
    ensures Agreeing(ops, steps + 1, mmu.cpus, mmu.blocks)
    ensures RunSoFar(run', ops, steps + 1, lost, mmu.blocks, mmu.modes, ncpus, dirty0) && run'[steps + 1] == mmu.Now()
  {
    assert MmuOpOk(ops[steps], ncpus, mmu.modes, mmu.blocks);
    var good := PerformNext(mmu, ops, steps, ncpus);
    RunGoesOn(run, ops, steps, mmu.Now(), good, mmu.blocks, mmu.modes, ncpus, dirty0);
    run', lost := run + [mmu.Now()], !good;
  }

  method Start(ops: seq<MmuOp>, modes: nat, blocks: seq<HostBlock>, ncpus: nat, dirty0: seq<Bitmap>) returns (mmu: SoftMmu, run: seq<Mmu>)
    requires GeometryOk(blocks) && BitmapsOk(dirty0, blocks)
    ensures fresh(mmu) && mmu.Valid() && mmu.Tracking() && |mmu.cpus| == ncpus && mmu.modes == modes && mmu.blocks == blocks
    ensures Agreeing(ops, 0, mmu.cpus, blocks)
    ensures RunSoFar(run, ops, 0, false, blocks, modes, ncpus, dirty0) && run[0] == mmu.Now()
  {
    mmu := new SoftMmu(modes, blocks, ncpus, dirty0);
    run := [mmu.Now()];
    RunBegins(ops, mmu.Now(), blocks, modes, ncpus, dirty0);
  }

  /**
   * Any run of fills, flushes, victim swaps, stores and bitmap updates over any number of CPUs keeps
   * dirty tracking, unless it comes to a clear that straddles or to a store after two fills of one
   * virtual page on one CPU for different RAM; the run stops where tracking is lost.
   */
  method DriveMmu(ops: seq<MmuOp>, modes: nat, blocks: seq<HostBlock>, ncpus: nat, dirty0: seq<Bitmap>)
    returns (run: seq<Mmu>, steps: nat, lost: bool)
    requires GeometryOk(blocks) && BitmapsOk(dirty0, blocks) && OpsOk(ops, ncpus, modes, blocks)
    ensures RunSoFar(run, ops, steps, lost, blocks, modes, ncpus, dirty0) && (lost || steps == |ops|)
    ensures FillsOk(ops, blocks)
    ensures OneTarget(ops, blocks) && NoneStraddles(ops) ==> !lost
  {
    AllFillsOk(ops, ncpus, modes, blocks);
    var mmu;
    mmu, run := Start(ops, modes, blocks, ncpus, dirty0);
    steps, lost := 0, false;
    while steps < |ops| && !lost
      invariant fresh(mmu) && mmu.Valid() && (!lost ==> mmu.Tracking()) && |mmu.cpus| == ncpus && mmu.modes == modes && mmu.blocks == blocks
      invariant steps <= |ops| && Agreeing(ops, steps, mmu.cpus, blocks)
      invariant RunSoFar(run, ops, steps, lost, blocks, modes, ncpus, dirty0) && run[steps] == mmu.Now()
    {
      run, lost := Advance(mmu, ops, run, steps, ncpus, dirty0);
      steps := steps + 1;
    }
    RunHasReason(run, ops, steps, lost, blocks, modes, ncpus, dirty0);
  }

  /** Two pages of RAM, and bitmaps in which both are clean. */
  const TWO_PAGES: seq<HostBlock> := [HostBlock(0x1000_0000, 0, 2 * PAGE)]

  function CleanBitmaps(): (dirty: seq<Bitmap>)
    ensures BitmapsOk(dirty, TWO_PAGES) && forall c, page: nat :: 0 <= c < CLIENTS ==> !Bit(dirty[c], page)
  {
    var m: Bitmap := [seq(DIRTY_MEMORY_BLOCK_SIZE, i => false)];
    [m, m, m]
  }

  function KernelOrUser(mode: nat, vpage: nat): Fill {
    Fill(mode, vpage, 0, Ram(false, true), 0x1000_0000 + mode * PAGE, false, true, true, false)
  }

  lemma CrossModeEntries(mode: nat, vpage: nat, dirty: seq<Bitmap>)
    requires mode < 2 && !AllDirty(dirty, mode)
    ensures GeometryOk(TWO_PAGES) && TargetOk(RamTarget(0, mode * PAGE, false), TWO_PAGES)
    ensures var f := KernelOrUser(mode, vpage);
            && (f.memory, f.host) == MemoryOf(RamTarget(0, mode * PAGE, false), TWO_PAGES, dirty)
            && Marks(NewEntry(f), vpage) && RamPage(TWO_PAGES, HostOf(NewEntry(f))) == mode
  {
    var f := KernelOrUser(mode, vpage);
    HostOfFill(f);
    PageOfHost(TWO_PAGES, f.host, 0);
  }

  /** Two pages of RAM, both clean, and one CPU with two modes. */
  ghost predicate TwoPageMachine(mmu: SoftMmu)
    reads mmu
  {
    && mmu.Valid() && mmu.Tracking()
    && mmu.modes == 2 && mmu.blocks == TWO_PAGES && !AllDirty(mmu.dirty, 0) && !AllDirty(mmu.dirty, 1) && |mmu.cpus| == 1
  }

  method MapMode(mmu: SoftMmu, mode: nat, vpage: nat)
    requires TwoPageMachine(mmu) && mode < 2 && vpage < Pow2(VPAGE_BITS)
    modifies mmu
    ensures TwoPageMachine(mmu) && mmu.StoreEntry(0, mode, vpage) == NewEntry(KernelOrUser(mode, vpage))
    ensures mmu.StoreEntry(0, 1 - mode, vpage) == old(mmu.StoreEntry(0, 1 - mode, vpage))
  {
    CrossModeEntries(mode, vpage, mmu.dirty);
    mmu.SetPage(0, KernelOrUser(mode, vpage), RamTarget(0, mode * PAGE, false));
  }

  /**
   * `tlb_set_dirty` matches on the virtual page in every mode.  A CPU maps one virtual page to page 0 in
   * mode 0 and to page 1 in mode 1, both clean, and stores once through mode 0: the entry of mode 1 then
   * writes to page 1 unseen.
   */
  method SetDirtyCrossesModes(vpage: nat) returns (cpus: seq<Tlb>, dirty: seq<Bitmap>)
    requires vpage < Pow2(VPAGE_BITS)
    ensures |cpus| == 1 && !AllEntries(cpus, IsTracked(TWO_PAGES, dirty))
  {
    var mmu := new SoftMmu(2, TWO_PAGES, 1, CleanBitmaps());
    MapMode(mmu, 0, vpage);
    MapMode(mmu, 1, vpage);
    CrossModeEntries(0, vpage, mmu.dirty);
    CrossModeEntries(1, vpage, mmu.dirty);
    assert !MarkSafe(mmu.StoreEntry(0, 1, vpage), vpage, 0, TWO_PAGES, mmu.dirty);
    assert !AllMarkSafe(mmu.cpus[0], vpage, 0, TWO_PAGES, mmu.dirty);
    mmu.NotDirtyWrite(0, 0, vpage, 0, 4, true);
    cpus, dirty := mmu.cpus, mmu.dirty;
  }
}
