/**
 * The software TLB of one virtual CPU: a direct mapped main table and a small fully associative
 * victim table per MMU mode.  Large guest pages are entered one target page at a time, and one
 * aligned region remembers where large pages have been.
 */
module SoftTlb {
  import opened Arithmetic
  import opened Runs

  const TLB_SIZE: nat := 256
  const VTLB_SIZE: nat := 8
  const VPAGE_BITS: nat := 52
  const VPAGE_SIZE: nat := 4096
  const WORD: nat := 0x1_0000_0000_0000_0000

  /** One comparator: a virtual page number and the three flag bits below it. */
  datatype Word = Word(page: nat, invalid: bool, notDirty: bool, mmio: bool)

  datatype Entry = Entry(read: Word, write: Word, code: Word, addend: nat)

  /** What `memset(..., -1, ...)` leaves. */
  const NO_WORD: Word := Word(0xF_FFFF_FFFF_FFFF, true, true, true)
  const EMPTY: Entry := Entry(NO_WORD, NO_WORD, NO_WORD, 0xFFFF_FFFF_FFFF_FFFF)

  predicate Hits(w: Word, page: nat) { !w.invalid && w.page == page }

  predicate EntryHits(e: Entry, page: nat) { Hits(e.read, page) || Hits(e.write, page) || Hits(e.code, page) }

  /** `page & ~(2^shift - 1)`. */
  function MaskDown(page: nat, shift: nat): nat {
    if shift == 0 then page else 2 * MaskDown(page / 2, shift - 1)
  }

  /** Pages that agree above a mask agree above every wider one. */
  lemma {:induction false} WiderMask(p: nat, q: nat, n: nat, m: nat)
    requires n <= m && MaskDown(p, n) == MaskDown(q, n)
    ensures MaskDown(p, m) == MaskDown(q, m)
  {
    if n > 0 {
      WiderMask(p / 2, q / 2, n - 1, m - 1);
    }
  }

  lemma {:induction false} MaskTwice(p: nat, n: nat, m: nat)
    requires n <= m
    ensures MaskDown(MaskDown(p, n), m) == MaskDown(p, m)
  {
    if n > 0 {
      assert MaskDown(p, n) / 2 == MaskDown(p / 2, n - 1);
      MaskTwice(p / 2, n - 1, m - 1);
    }
  }

  lemma {:induction false} MaskAll(p: nat, n: nat)
    requires p < Pow2(n)
    ensures MaskDown(p, n) == 0
  {
    if n > 0 {
      MaskAll(p / 2, n - 1);
    }
  }

  /** The mask really is the aligned block that holds the page. */
  lemma {:induction false} MaskIsAlignedBlock(p: nat, n: nat)
    ensures MaskDown(p, n) <= p < MaskDown(p, n) + Pow2(n)
    ensures forall q :: MaskDown(p, n) <= q < MaskDown(p, n) + Pow2(n) ==> MaskDown(q, n) == MaskDown(p, n)
  {
    if n > 0 {
      MaskIsAlignedBlock(p / 2, n - 1);
      forall q | MaskDown(p, n) <= q < MaskDown(p, n) + Pow2(n)
        ensures MaskDown(q, n) == MaskDown(p, n)
      {
        assert MaskDown(q / 2, n - 1) == MaskDown(p / 2, n - 1);
      }
    }
  }

  /** The block number is the page number without the masked bits. */
  lemma {:induction false} MaskIsDiv(p: nat, n: nat)
    ensures MaskDown(p, n) == p / Pow2(n) * Pow2(n)
  {
    if n > 0 {
      MaskIsDiv(p / 2, n - 1);
      HalfThenDiv(p, Pow2(n - 1), Pow2(n));
    }
  }

  lemma HalfThenDiv(p: nat, d: nat, e: nat)
    requires d > 0 && e == 2 * d
    ensures 2 * (p / 2 / d * d) == p / e * e
  {
    var q, r := p / 2 / d, p / 2 % d;
    var x := q * d;
    assert p / 2 == x + r;
    assert q * e == 2 * x by { assert q * (2 * d) == 2 * (q * d); }
    assert p == q * e + (2 * r + p % 2);
    DivModUnique(p, e, q, 2 * r + p % 2);
  }

  // ------------------------------------------------------------ state

  type Table = seq<seq<Entry>>

  /** `tlb_flush_addr` and `tlb_flush_mask`: absent, or an aligned block of 2^shift pages. */
  datatype Region = NoRegion | Region(page: nat, shift: nat)

  datatype Tlb = Tlb(main: Table, victim: Table, vtlbIndex: nat, region: Region)

  predicate Shaped(t: Table, modes: nat, size: nat) {
    |t| == modes && forall m :: 0 <= m < modes ==> |t[m]| == size
  }

  predicate TlbShaped(t: Tlb, modes: nat) {
    Shaped(t.main, modes, TLB_SIZE) && Shaped(t.victim, modes, VTLB_SIZE)
  }

  predicate InRegion(r: Region, page: nat) {
    r.Region? && MaskDown(page, r.shift) == r.page
  }

  datatype Memory = IoMemory | RomDevice | Ram(readOnly: bool, clean: bool)

  /**
   * The arguments of `tlb_set_page_with_attrs` after translation: `host` is the address of the page
   * in the host (0 for I/O), `watched` says that a watchpoint on the page applies.
   */
  datatype Fill = Fill(mode: nat, page: nat, shift: nat, memory: Memory, host: nat, watched: bool,
                       canRead: bool, canWrite: bool, canExec: bool)

  function NewEntry(f: Fill): Entry {
    var address := Word(f.page, false, false, f.memory.IoMemory? || f.watched);
    Entry(
      if f.canRead then address else NO_WORD,
      if !f.canWrite then NO_WORD
      else if f.memory.RomDevice? || (f.memory.Ram? && f.memory.readOnly) then address.(mmio := true)
      else if f.memory.Ram? && f.memory.clean then address.(notDirty := true)
      else address,
      if f.canExec then Word(f.page, false, false, f.memory.IoMemory?) else NO_WORD,
      (f.host - f.page * VPAGE_SIZE) % WORD)
  }

  /**
   * What the entry of a fill does: each kind of access to the page of the fill, and to no other, finds it if
   * the fill grants it; I/O, watched pages and writes to ROM go through callbacks; and a RAM access lands on
   * the host page of the fill.
   */
  ghost predicate Serves(e: Entry, f: Fill) {
    && (forall p: nat :: Hits(e.read, p) <==> f.canRead && p == f.page)
    && (forall p: nat :: Hits(e.write, p) <==> f.canWrite && p == f.page)
    && (forall p: nat :: Hits(e.code, p) <==> f.canExec && p == f.page)
    && (f.canRead ==> !e.read.notDirty && (e.read.mmio <==> f.memory == IoMemory || f.watched))
    && (f.canExec ==> !e.code.notDirty && (e.code.mmio <==> f.memory == IoMemory))
    && (f.canWrite ==> (e.write.mmio <==> f.memory == IoMemory || f.watched || f.memory == RomDevice || (f.memory.Ram? && f.memory.readOnly)))
    && (f.page * 4096 + e.addend) % 0x1_0000_0000_0000_0000 == f.host % 0x1_0000_0000_0000_0000
  }

  /** A new entry notes that its page is clean exactly if it is writable RAM that is. */
  lemma FillServes(f: Fill)
    ensures Serves(NewEntry(f), f)
    ensures f.canWrite ==> (NewEntry(f).write.notDirty <==> f.memory.Ram? && !f.memory.readOnly && f.memory.clean)
  {
    var a, b := f.page * VPAGE_SIZE, (f.host - f.page * VPAGE_SIZE) / WORD;
    assert NewEntry(f).addend == f.host - a - b * WORD;
    assert a + NewEntry(f).addend == f.host - b * WORD;
    AddMultiple(f.host, -b, WORD);
  }

  lemma AddMultiple(a: int, k: int, d: nat)
    requires d > 0
    ensures (a + k * d) % d == a % d
  {
    assert a + k * d == (a / d + k) * d + a % d;
    DivModUnique(a + k * d, d, a / d + k, a % d);
  }

  predicate FillOk(f: Fill, modes: nat) {
    f.mode < modes && f.page < Pow2(VPAGE_BITS) && f.shift < VPAGE_BITS
  }

  /** The pages a fill translates: the 2^shift pages around its own. */
  predicate Contains(f: Fill, page: nat) { MaskDown(page, f.shift) == MaskDown(f.page, f.shift) }

  /** The entry is what the fill made, except perhaps for the not-dirty mark. */
  predicate MadeBy(e: Entry, f: Fill) {
    var n := NewEntry(f);
    && e.read == n.read && e.code == n.code && e.addend == n.addend
    && e.write == n.write.(notDirty := e.write.notDirty)
  }

  lemma MadeServes(e: Entry, f: Fill)
    requires MadeBy(e, f)
    ensures Serves(e, f)
  {
    FillServes(f);
  }

  /** A fill is for the pages whose numbers differ from its own in the low `shift` bits alone. */
  lemma ContainsIff(f: Fill, page: nat)
    ensures Contains(f, page) <==> page / Pow2(f.shift) == f.page / Pow2(f.shift)
  {
    MaskIsDiv(page, f.shift);
    MaskIsDiv(f.page, f.shift);
    var a, b, d := page / Pow2(f.shift), f.page / Pow2(f.shift), Pow2(f.shift);
    if a * d == b * d {
      DivModUnique(a * d, d, a, 0);
      DivModUnique(b * d, d, b, 0);
    }
  }

  /** No access can match. */
  predicate Dead(e: Entry) { e.read.invalid && e.write.invalid && e.code.invalid }

  /** The entry cannot match, or a fill held in its mode made it. */
  ghost predicate EntryOk(e: Entry, mode: nat, held: set<Fill>) {
    Dead(e) || exists f :: f in held && f.mode == mode && MadeBy(e, f)
  }

  /** A main entry sits in the slot its page selects. */
  predicate AtHome(e: Entry, i: nat) {
    && (e.read.invalid || e.read.page % TLB_SIZE == i)
    && (e.write.invalid || e.write.page % TLB_SIZE == i)
    && (e.code.invalid || e.code.page % TLB_SIZE == i)
  }

  ghost predicate RowOk(row: seq<Entry>, mode: nat, held: set<Fill>) {
    forall i :: 0 <= i < |row| ==> EntryOk(row[i], mode, held)
  }

  predicate RowAtHome(row: seq<Entry>) {
    forall i :: 0 <= i < |row| ==> AtHome(row[i], i)
  }

  predicate RowNoneHits(row: seq<Entry>, page: nat) {
    forall i :: 0 <= i < |row| ==> !EntryHits(row[i], page)
  }

  ghost predicate MainOk(t: Table, held: set<Fill>) {
    forall m :: 0 <= m < |t| ==> RowOk(t[m], m, held) && RowAtHome(t[m])
  }

  ghost predicate VictimOk(t: Table, held: set<Fill>) {
    forall m :: 0 <= m < |t| ==> RowOk(t[m], m, held)
  }

  /** Every large page of a fill held lies inside the region. */
  ghost predicate Covered(r: Region, held: set<Fill>) {
    && (r.Region? ==> r.shift <= VPAGE_BITS && r.page < Pow2(VPAGE_BITS))
    && forall x :: x in held && x.shift > 0 ==> r.Region? && x.shift <= r.shift && MaskDown(x.page, r.shift) == r.page
  }

  /** Nothing is cached that the guest has not installed, or has flushed since. */
  ghost predicate Inv(t: Tlb, modes: nat, held: set<Fill>) {
    TlbShaped(t, modes) && MainOk(t.main, held) && VictimOk(t.victim, held) && Covered(t.region, held)
  }

  // ------------------------------------------------------------ one entry, one table

  /** What the walks do to one entry. */
  datatype Update = FlushEntry(page: nat) | ResetDirtyRange(start: nat, length: nat) | SetDirty(page: nat)

  /** `tlb_is_dirty_ram`. */
  predicate IsDirtyRam(e: Entry) { !e.write.invalid && !e.write.mmio && !e.write.notDirty }

  /** Where a write through the entry lands in the host. */
  function HostOf(e: Entry): nat { (e.write.page * VPAGE_SIZE + e.addend) % WORD }

  function Apply(u: Update, e: Entry): Entry {
    match u
    case FlushEntry(page) => if EntryHits(e, page) then EMPTY else e
    case ResetDirtyRange(start, length) =>
      if IsDirtyRam(e) && (HostOf(e) - start) % WORD < length then e.(write := e.write.(notDirty := true)) else e
    case SetDirty(page) =>
      if e.write == Word(page, false, true, false) then e.(write := Word(page, false, false, false)) else e
  }

  /** The three updates in plain words. */
  lemma ApplyMeans(u: Update, e: Entry)
    ensures var e' := Apply(u, e);
            match u
            case FlushEntry(page) =>
              if (!e.read.invalid && e.read.page == page) || (!e.write.invalid && e.write.page == page) || (!e.code.invalid && e.code.page == page)
              then e'.read.invalid && e'.write.invalid && e'.code.invalid else e' == e
            case ResetDirtyRange(start, length) =>
              e' == e.(write := e'.write) && e'.write == e.write.(notDirty := e'.write.notDirty)
              && (e'.write.notDirty <==>
                    (e.write.notDirty
                     || (!e.write.invalid && !e.write.mmio
                         && ((e.write.page * 4096 + e.addend) % 0x1_0000_0000_0000_0000 - start) % 0x1_0000_0000_0000_0000 < length)))
            case SetDirty(page) =>
              e' == e.(write := e'.write) && e'.write == e.write.(notDirty := e'.write.notDirty)
              && (e'.write.notDirty <==> e.write.notDirty && !(!e.write.invalid && !e.write.mmio && e.write.page == page))
  {
  }

  /** `t'` is `t` with the update applied to every entry. */
  predicate Updated(t: Table, t': Table, u: Update) {
    |t'| == |t| && forall m :: 0 <= m < |t| ==> RowUpdated(t[m], t'[m], u)
  }

  predicate RowUpdated(row: seq<Entry>, row': seq<Entry>, u: Update) {
    |row'| == |row| && forall i :: 0 <= i < |row| ==> row'[i] == Apply(u, row[i])
  }

  /** `t'` is `t` with the update applied to slot `i` of every mode. */
  predicate SlotUpdated(t: Table, t': Table, i: nat, u: Update) {
    && |t'| == |t|
    && forall m :: 0 <= m < |t| ==> i < |t[m]| && t'[m] == t[m][i := Apply(u, t[m][i])]
  }

  method UpdateRow(row: seq<Entry>, u: Update) returns (row': seq<Entry>)
    ensures RowUpdated(row, row', u)
  {
    row' := row;
    for i := 0 to |row|
      invariant |row'| == |row|
      invariant forall j :: 0 <= j < i ==> row'[j] == Apply(u, row[j])
      invariant forall j :: i <= j < |row| ==> row'[j] == row[j]
    {
      row' := row'[i := Apply(u, row'[i])];
    }
  }

  method UpdateAll(t: Table, u: Update) returns (t': Table)
    ensures Updated(t, t', u)
  {
    t' := t;
    for m := 0 to |t|
      invariant |t'| == |t|
      invariant forall k :: 0 <= k < m ==> RowUpdated(t[k], t'[k], u)
      invariant forall k :: m <= k < |t| ==> t'[k] == t[k]
    {
      var row := UpdateRow(t'[m], u);
      t' := t'[m := row];
    }
  }

  method UpdateSlot(t: Table, i: nat, u: Update) returns (t': Table)
    requires forall m :: 0 <= m < |t| ==> i < |t[m]|
    ensures SlotUpdated(t, t', i, u)
  {
    t' := t;
    for m := 0 to |t|
      invariant |t'| == |t|
      invariant forall k :: 0 <= k < m ==> t'[k] == t[k][i := Apply(u, t[k][i])]
      invariant forall k :: m <= k < |t| ==> t'[k] == t[k]
    {
      t' := t'[m := t'[m][i := Apply(u, t'[m][i])]];
    }
  }

  // ------------------------------------------------------------ flushing

  ghost function AfterFlushPage(held: set<Fill>, page: nat): set<Fill> {
    set x | x in held && !Contains(x, page)
  }

  ghost function AfterFlushModes(held: set<Fill>, modes: seq<nat>): set<Fill> {
    set x | x in held && x.mode !in modes
  }

  ghost function AfterFlushPageModes(held: set<Fill>, page: nat, modes: seq<nat>): set<Fill> {
    set x | x in held && !(x.mode in modes && Contains(x, page))
  }

  predicate TableEmpty(t: Table) {
    forall m, i :: 0 <= m < |t| && 0 <= i < |t[m]| ==> t[m][i] == EMPTY
  }

  predicate NoneHits(t: Table, page: nat) {
    forall m :: 0 <= m < |t| ==> RowNoneHits(t[m], page)
  }

  /** A flush drops entries and makes none. */
  predicate Thinned(t: Table, t': Table) {
    |t'| == |t| && forall m :: 0 <= m < |t| ==> RowThinned(t[m], t'[m])
  }

  predicate RowThinned(row: seq<Entry>, row': seq<Entry>) {
    |row'| == |row| && forall i :: 0 <= i < |row| ==> row'[i] == row[i] || row'[i] == EMPTY
  }

  function EmptyRow(size: nat): (row: seq<Entry>)
    ensures |row| == size && forall i :: 0 <= i < size ==> row[i] == EMPTY
  {
    seq(size, i => EMPTY)
  }

  /** `tlb_flush`. */
  method Flush(modes: nat) returns (t': Tlb)
    ensures TlbShaped(t', modes) && TableEmpty(t'.main) && TableEmpty(t'.victim) && t'.region == NoRegion
    ensures Inv(t', modes, {})
  {
    t' := Tlb(seq(modes, m => EmptyRow(TLB_SIZE)), seq(modes, m => EmptyRow(VTLB_SIZE)), 0, NoRegion);
  }

  /** The region test is membership in an aligned block. */
  lemma InRegionIff(r: Region, page: nat)
    requires r.Region? ==> r.page == r.page / Pow2(r.shift) * Pow2(r.shift)
    ensures InRegion(r, page) <==> r.Region? && r.page <= page < r.page + Pow2(r.shift)
  {
    if r.Region? {
      MaskIsAlignedBlock(page, r.shift);
      MaskIsAlignedBlock(r.page, r.shift);
      MaskIsDiv(r.page, r.shift);
    }
  }

  /** A large page that holds the address forces the region test. */
  lemma LargePageForcesFlush(r: Region, held: set<Fill>, x: Fill, page: nat)
    requires Covered(r, held) && x in held && x.shift > 0 && Contains(x, page)
    ensures InRegion(r, page)
  {
    WiderMask(page, x.page, x.shift, r.shift);
  }

  lemma LargePagesForceFlush(r: Region, held: set<Fill>, page: nat)
    requires Covered(r, held)
    ensures (exists x :: x in held && x.shift > 0 && Contains(x, page)) ==> InRegion(r, page)
  {
    forall x | x in held && x.shift > 0 && Contains(x, page)
      ensures InRegion(r, page)
    {
      LargePageForcesFlush(r, held, x, page);
    }
  }

  /** `held'` keeps everything of a mode that is not for the page. */
  ghost predicate Spares(held: set<Fill>, held': set<Fill>, mode: nat, page: nat) {
    forall x :: x in held && x.mode == mode && !Contains(x, page) ==> x in held'
  }

  /** One entry after `tlb_flush_entry`: it is gone, or its fill is one the flush spares. */
  lemma EntryFlushed(e: Entry, mode: nat, r: Region, held: set<Fill>, held': set<Fill>, page: nat)
    requires Covered(r, held) && !InRegion(r, page) && EntryOk(e, mode, held) && Spares(held, held', mode, page)
    ensures var e' := Apply(FlushEntry(page), e); EntryOk(e', mode, held') && !EntryHits(e', page)
  {
    if !EntryHits(e, page) && !Dead(e) {
      var f :| f in held && f.mode == mode && MadeBy(e, f);
      if f.shift > 0 && Contains(f, page) {
        LargePageForcesFlush(r, held, f, page);
      }
      assert f in held';
    }
  }

  /** Visiting the one slot the page can occupy is enough in a row of the main table. */
  lemma MainRowFlushed(row: seq<Entry>, row': seq<Entry>, mode: nat, r: Region, held: set<Fill>, held': set<Fill>, page: nat)
    requires RowOk(row, mode, held) && RowAtHome(row) && |row| == TLB_SIZE
    requires row' == row[page % TLB_SIZE := Apply(FlushEntry(page), row[page % TLB_SIZE])]
    requires Covered(r, held) && !InRegion(r, page) && Spares(held, held', mode, page)
    ensures RowOk(row', mode, held') && RowAtHome(row') && RowNoneHits(row', page)
  {
    forall i | 0 <= i < |row'|
      ensures EntryOk(row'[i], mode, held') && AtHome(row'[i], i) && !EntryHits(row'[i], page)
    {
      assert EntryOk(row[i], mode, held) && AtHome(row[i], i);
      EntryFlushed(row[i], mode, r, held, held', page);
    }
  }

  lemma VictimRowFlushed(row: seq<Entry>, row': seq<Entry>, mode: nat, r: Region, held: set<Fill>, held': set<Fill>, page: nat)
    requires RowOk(row, mode, held) && RowUpdated(row, row', FlushEntry(page))
    requires Covered(r, held) && !InRegion(r, page) && Spares(held, held', mode, page)
    ensures RowOk(row', mode, held') && RowNoneHits(row', page)
  {
    forall i | 0 <= i < |row'|
      ensures EntryOk(row'[i], mode, held') && !EntryHits(row'[i], page)
    {
      assert EntryOk(row[i], mode, held);
      EntryFlushed(row[i], mode, r, held, held', page);
    }
  }

  /** A row nobody touched, when nothing of its mode was dropped. */
  lemma RowKept(row: seq<Entry>, mode: nat, held: set<Fill>, held': set<Fill>)
    requires RowOk(row, mode, held) && forall x :: x in held && x.mode == mode ==> x in held'
    ensures RowOk(row, mode, held')
  {
    forall i | 0 <= i < |row|
      ensures EntryOk(row[i], mode, held')
    {
      if !Dead(row[i]) {
        var f :| f in held && f.mode == mode && MadeBy(row[i], f);
        assert f in held';
      }
    }
  }

  lemma EmptyRowOk(row: seq<Entry>, mode: nat, held: set<Fill>)
    requires forall i :: 0 <= i < |row| ==> row[i] == EMPTY
    ensures RowOk(row, mode, held) && RowAtHome(row) && forall page :: RowNoneHits(row, page)
  {
  }

  /** `tlb_flush_page`.  What is still held afterwards was held before and is not for the page. */
  method FlushPage(t: Tlb, page: nat, modes: nat, ghost held: set<Fill>) returns (t': Tlb, ghost held': set<Fill>)
    requires Inv(t, modes, held)
    ensures Inv(t', modes, held') && held' == if InRegion(t.region, page) then {} else AfterFlushPage(held, page)
    ensures NoneHits(t'.main, page) && NoneHits(t'.victim, page)
    ensures Thinned(t.main, t'.main) && Thinned(t.victim, t'.victim)
    ensures InRegion(t.region, page) ==> TableEmpty(t'.main) && TableEmpty(t'.victim) && t'.region == NoRegion
    ensures !InRegion(t.region, page) ==> SlotUpdated(t.main, t'.main, page % TLB_SIZE, FlushEntry(page))
    ensures !InRegion(t.region, page) ==> Updated(t.victim, t'.victim, FlushEntry(page)) && t'.region == t.region
    ensures (exists x :: x in held && x.shift > 0 && Contains(x, page)) ==> TableEmpty(t'.main) && TableEmpty(t'.victim)
  {
    LargePagesForceFlush(t.region, held, page);
    if t.region.Region? && MaskDown(page, t.region.shift) == t.region.page {
      t' := Flush(modes);
      held' := {};
      return;
    }
    var main := UpdateSlot(t.main, page % TLB_SIZE, FlushEntry(page));
    var victim := UpdateAll(t.victim, FlushEntry(page));
    t' := t.(main := main, victim := victim);
    held' := AfterFlushPage(held, page);
    forall m | 0 <= m < modes
      ensures RowOk(main[m], m, held') && RowAtHome(main[m]) && RowNoneHits(main[m], page)
      ensures RowOk(victim[m], m, held') && RowNoneHits(victim[m], page)
    {
      MainRowFlushed(t.main[m], main[m], m, t.region, held, held', page);
      VictimRowFlushed(t.victim[m], victim[m], m, t.region, held, held', page);
    }
  }

  /** The listed rows are emptied, the others are as they were. */
  predicate ModesEmptied(t: Table, t': Table, list: seq<nat>) {
    && |t'| == |t|
    && (forall m :: 0 <= m < |t| && m in list ==> |t'[m]| == |t[m]| && forall i :: 0 <= i < |t[m]| ==> t'[m][i] == EMPTY)
    && (forall m :: 0 <= m < |t| && m !in list ==> t'[m] == t[m])
  }

  lemma ModeListed(list: seq<nat>, k: nat)
    requires k < |list|
    ensures forall m :: m in list[..k + 1] <==> m in list[..k] || m == list[k]
  {
    assert list[..k + 1] == list[..k] + [list[k]];
  }

  /** `v_tlb_flush_by_mmuidx`: empties the listed modes; the region is kept. */
  method FlushByMmuIdx(t: Tlb, list: seq<nat>, modes: nat, ghost held: set<Fill>) returns (t': Tlb)
    requires Inv(t, modes, held) && forall m :: m in list ==> m < modes
    ensures Inv(t', modes, AfterFlushModes(held, list)) && t'.region == t.region
    ensures ModesEmptied(t.main, t'.main, list) && ModesEmptied(t.victim, t'.victim, list)
  {
    t' := t;
    for k := 0 to |list|
      invariant t'.region == t.region
      invariant ModesEmptied(t.main, t'.main, list[..k]) && ModesEmptied(t.victim, t'.victim, list[..k])
    {
      ModeListed(list, k);
      assert list[k] in list;
      t' := t'.(main := t'.main[list[k] := EmptyRow(TLB_SIZE)], victim := t'.victim[list[k] := EmptyRow(VTLB_SIZE)]);
    }
    assert list[..|list|] == list;
    ghost var held' := AfterFlushModes(held, list);
    forall m | 0 <= m < modes
      ensures RowOk(t'.main[m], m, held') && RowAtHome(t'.main[m]) && RowOk(t'.victim[m], m, held')
    {
      if m in list {
        EmptyRowOk(t'.main[m], m, held');
        EmptyRowOk(t'.victim[m], m, held');
      } else {
        RowKept(t.main[m], m, held, held');
        RowKept(t.victim[m], m, held, held');
      }
    }
  }

  /** The listed modes are cleared of the page, the others are as they were. */
  predicate ModesFlushed(t: Tlb, t': Tlb, list: seq<nat>, page: nat)
    requires TlbShaped(t, |t.main|)
  {
    && TlbShaped(t', |t.main|)
    && (forall m :: 0 <= m < |t.main| && m in list ==>
          t'.main[m] == t.main[m][page % TLB_SIZE := Apply(FlushEntry(page), t.main[m][page % TLB_SIZE])])
    && (forall m :: 0 <= m < |t.main| && m in list ==> RowUpdated(t.victim[m], t'.victim[m], FlushEntry(page)))
    && (forall m :: 0 <= m < |t.main| && m !in list ==> t'.main[m] == t.main[m] && t'.victim[m] == t.victim[m])
  }

  /** The loop of `tlb_flush_page_by_mmuidx` over the modes it is given. */
  method FlushListedModes(t: Tlb, page: nat, list: seq<nat>) returns (t': Tlb)
    requires TlbShaped(t, |t.main|) && forall m :: m in list ==> m < |t.main|
    ensures t'.region == t.region && ModesFlushed(t, t', list, page)
  {
    t' := t;
    for k := 0 to |list|
      invariant t'.region == t.region && ModesFlushed(t, t', list[..k], page)
    {
      ModeListed(list, k);
      assert list[k] in list;
      var m, home := list[k], page % TLB_SIZE;
      var row := UpdateRow(t'.victim[m], FlushEntry(page));
      t' := t'.(main := t'.main[m := t'.main[m][home := Apply(FlushEntry(page), t'.main[m][home])]],
                victim := t'.victim[m := row]);
    }
    assert list[..|list|] == list;
  }

  /** `tlb_flush_page_by_mmuidx`. */
  method FlushPageByMmuIdx(t: Tlb, page: nat, list: seq<nat>, modes: nat, ghost held: set<Fill>)
    returns (t': Tlb, ghost held': set<Fill>)
    requires Inv(t, modes, held) && forall m :: m in list ==> m < modes
    ensures Inv(t', modes, held') && t'.region == t.region
    ensures held' == if InRegion(t.region, page) then AfterFlushModes(held, list) else AfterFlushPageModes(held, page, list)
    ensures Thinned(t.main, t'.main) && Thinned(t.victim, t'.victim)
    ensures forall m :: m in list ==> RowNoneHits(t'.main[m], page) && RowNoneHits(t'.victim[m], page)
    ensures if InRegion(t.region, page) then ModesEmptied(t.main, t'.main, list) && ModesEmptied(t.victim, t'.victim, list)
            else ModesFlushed(t, t', list, page)
  {
    if t.region.Region? && MaskDown(page, t.region.shift) == t.region.page {
      t' := FlushByMmuIdx(t, list, modes, held);
      held' := AfterFlushModes(held, list);
      return;
    }
    t' := FlushListedModes(t, page, list);
    held' := AfterFlushPageModes(held, page, list);
    forall m | 0 <= m < modes
      ensures RowOk(t'.main[m], m, held') && RowAtHome(t'.main[m]) && RowOk(t'.victim[m], m, held')
      ensures m in list ==> RowNoneHits(t'.main[m], page) && RowNoneHits(t'.victim[m], page)
    {
      if m in list {
        MainRowFlushed(t.main[m], t'.main[m], m, t.region, held, held', page);
        VictimRowFlushed(t.victim[m], t'.victim[m], m, t.region, held, held', page);
      } else {
        RowKept(t.main[m], m, held, held');
        RowKept(t.victim[m], m, held, held');
      }
    }
  }

  // ------------------------------------------------------------ filling

  /** The least mask at or above `mask` under which both pages agree. */
  function CommonMask(p: nat, q: nat, mask: nat): (m: nat)
    requires mask <= VPAGE_BITS
    ensures mask <= m <= VPAGE_BITS
    decreases VPAGE_BITS - mask
  {
    if mask == VPAGE_BITS || MaskDown(p, mask) == MaskDown(q, mask) then mask else CommonMask(p, q, mask + 1)
  }

  /** The region after a large page: the smallest aligned block with both. */
  function Widened(r: Region, page: nat, shift: nat): Region
    requires shift <= VPAGE_BITS && (r.Region? ==> r.shift <= VPAGE_BITS)
  {
    if r.NoRegion? then Region(MaskDown(page, shift), shift)
    else
      var mask := CommonMask(r.page, page, if shift > r.shift then shift else r.shift);
      Region(MaskDown(r.page, mask), mask)
  }

  lemma {:induction false} CommonIsLeast(p: nat, q: nat, mask: nat, m: nat)
    requires mask <= m <= VPAGE_BITS && MaskDown(p, m) == MaskDown(q, m)
    ensures CommonMask(p, q, mask) <= m && MaskDown(p, CommonMask(p, q, mask)) == MaskDown(q, CommonMask(p, q, mask))
    decreases VPAGE_BITS - mask
  {
    if mask < m && MaskDown(p, mask) != MaskDown(q, mask) {
      CommonIsLeast(p, q, mask + 1, m);
    }
  }

  /** The aligned block of 2^shift pages with number `k` holds the page. */
  ghost predicate BlockHolds(k: nat, shift: nat, page: nat) { page / Pow2(shift) == k }

  /** The region holds the old region and the new large page, and no smaller aligned block does. */
  lemma WidenedIsSmallest(r: Region, page: nat, shift: nat)
    requires shift <= VPAGE_BITS && page < Pow2(VPAGE_BITS)
    requires r.Region? ==> r.shift <= VPAGE_BITS && r.page < Pow2(VPAGE_BITS)
    ensures var r' := Widened(r, page, shift);
            && r'.Region? && r'.page == page / Pow2(r'.shift) * Pow2(r'.shift)
            && shift <= r'.shift <= VPAGE_BITS && (r.Region? ==> r.shift <= r'.shift && r'.page == r.page / Pow2(r'.shift) * Pow2(r'.shift))
            && (r.NoRegion? ==> r'.shift == shift)
            && (r.Region? ==> forall k: nat, s: nat :: shift <= s && r.shift <= s && BlockHolds(k, s, r.page) && BlockHolds(k, s, page) ==> r'.shift <= s)
  {
    var r' := Widened(r, page, shift);
    if r.Region? {
      var start := if shift > r.shift then shift else r.shift;
      MaskAll(r.page, VPAGE_BITS);
      MaskAll(page, VPAGE_BITS);
      CommonIsLeast(r.page, page, start, VPAGE_BITS);
      MaskIsDiv(r.page, r'.shift);
      forall k: nat, s: nat | start <= s && BlockHolds(k, s, r.page) && BlockHolds(k, s, page)
        ensures r'.shift <= s
      {
        if s <= VPAGE_BITS {
          MaskIsDiv(r.page, s);
          MaskIsDiv(page, s);
          CommonIsLeast(r.page, page, start, s);
        }
      }
    }
    MaskIsDiv(page, r'.shift);
  }

  /** `tlb_add_large_page`: widen the region until it holds the new page; `shift` is log2(size) - 12. */
  method AddLargePage(r: Region, page: nat, shift: nat, ghost held: set<Fill>, ghost f: Fill) returns (r': Region)
    requires Covered(r, held) && page == f.page < Pow2(VPAGE_BITS) && 0 < shift == f.shift < VPAGE_BITS
    ensures Covered(r', held + {f}) && r' == Widened(r, page, shift)
    ensures r'.Region? && shift <= r'.shift && r'.page <= page
    ensures r.Region? ==> r.shift <= r'.shift && InRegion(r', r.page)
  {
    if r.NoRegion? {
      MaskIsAlignedBlock(page, shift);
      r' := Region(MaskDown(page, shift), shift);
      return;
    }
    var mask := if shift > r.shift then shift else r.shift;
    ghost var start := mask;
    while MaskDown(r.page, mask) != MaskDown(page, mask)
      invariant start <= mask <= VPAGE_BITS && CommonMask(r.page, page, mask) == CommonMask(r.page, page, start)
      decreases VPAGE_BITS - mask
    {
      if mask == VPAGE_BITS {
        MaskAll(r.page, mask);
        MaskAll(page, mask);
        assert false;
      }
      mask := mask + 1;
    }
    r' := Region(MaskDown(r.page, mask), mask);
    MaskIsAlignedBlock(page, mask);
    forall x | x in held && x.shift > 0
      ensures MaskDown(x.page, mask) == r'.page
    {
      MaskTwice(x.page, r.shift, mask);
    }
  }

  /** The new entry is in its slot, and what was there is in the victim table. */
  predicate Placed(t: Tlb, t': Tlb, f: Fill)
    requires TlbShaped(t, |t.main|) && f.mode < |t.main|
  {
    var home, k := f.page % TLB_SIZE, t.vtlbIndex % VTLB_SIZE;
    && t'.main == t.main[f.mode := t.main[f.mode][home := NewEntry(f)]]
    && t'.victim == t.victim[f.mode := t.victim[f.mode][k := t.main[f.mode][home]]]
  }

  lemma NewEntryOk(f: Fill, held: set<Fill>)
    requires f in held
    ensures EntryOk(NewEntry(f), f.mode, held) && AtHome(NewEntry(f), f.page % TLB_SIZE)
  {
    assert MadeBy(NewEntry(f), f);
  }

  lemma PlacedInRow(row: seq<Entry>, i: nat, e: Entry, mode: nat, held: set<Fill>)
    requires RowOk(row, mode, held) && i < |row| && EntryOk(e, mode, held)
    ensures RowOk(row[i := e], mode, held)
    ensures RowAtHome(row) && AtHome(e, i) ==> RowAtHome(row[i := e])
  {
  }

  /** `tlb_set_page_with_attrs`: the entry that was in the slot moves to the victim table. */
  method SetPage(t: Tlb, f: Fill, modes: nat, ghost held: set<Fill>) returns (t': Tlb)
    requires Inv(t, modes, held) && FillOk(f, modes)
    ensures Inv(t', modes, held + {f})
    ensures Placed(t, t', f) && t'.vtlbIndex == (t.vtlbIndex + 1) % 0x1_0000_0000
    ensures var e := t'.main[f.mode][f.page % TLB_SIZE];
            && Serves(e, f)
            && (f.canWrite ==> (e.write.notDirty <==> f.memory.Ram? && !f.memory.readOnly && f.memory.clean))
    ensures t'.region == if f.shift != 0 then Widened(t.region, f.page, f.shift) else t.region
  {
    var vidx := t.vtlbIndex % VTLB_SIZE;
    var region := t.region;
    ghost var held' := held + {f};
    if f.shift != 0 {
      region := AddLargePage(t.region, f.page, f.shift, held, f);
    }
    var home := f.page % TLB_SIZE;
    var main := t.main[f.mode := t.main[f.mode][home := NewEntry(f)]];
    var victim := t.victim[f.mode := t.victim[f.mode][vidx := t.main[f.mode][home]]];
    forall m | 0 <= m < modes
      ensures RowOk(main[m], m, held') && RowAtHome(main[m]) && RowOk(victim[m], m, held')
    {
      RowKept(t.main[m], m, held, held');
      RowKept(t.victim[m], m, held, held');
      if m == f.mode {
        NewEntryOk(f, held');
        PlacedInRow(t.main[m], home, NewEntry(f), m, held');
        PlacedInRow(t.victim[m], vidx, t.main[m][home], m, held');
      }
    }
    t' := Tlb(main, victim, (t.vtlbIndex + 1) % 0x1_0000_0000, region);
    FillServes(f);
  }

  datatype Access = Load | Store | Fetch

  function Comparator(e: Entry, a: Access): Word {
    match a case Load => e.read case Store => e.write case Fetch => e.code
  }

  predicate FastHit(e: Entry, a: Access, page: nat) { Comparator(e, a) == Word(page, false, false, false) }

  lemma SwapKeepsEntries(a: seq<Entry>, b: seq<Entry>, i: nat, k: nat)
    requires i < |a| && k < |b|
    ensures multiset(a[i := b[k]]) + multiset(b[k := a[i]]) == multiset(a) + multiset(b)
  {
  }

  lemma VictimComesHome(e: Entry, a: Access, page: nat, mode: nat, held: set<Fill>)
    requires EntryOk(e, mode, held) && FastHit(e, a, page)
    ensures AtHome(e, page % TLB_SIZE)
  {
    var f :| f in held && f.mode == mode && MadeBy(e, f);
    assert f.page == page;
  }

  /** `VICTIM_TLB_HIT`: search the victims from the top and swap a match into the main table. */
  method VictimTlbHit(t: Tlb, mode: nat, page: nat, a: Access, modes: nat, ghost held: set<Fill>) returns (t': Tlb, hit: bool)
    requires Inv(t, modes, held) && mode < modes
    ensures Inv(t', modes, held) && t'.region == t.region
    ensures hit <==> exists k :: 0 <= k < VTLB_SIZE && FastHit(t.victim[mode][k], a, page)
    ensures hit ==> FastHit(t'.main[mode][page % TLB_SIZE], a, page)
    ensures VictimDone(t, t', mode, page, a)
    ensures SameEntries(t, t', mode)
  {
    var vidx := VTLB_SIZE - 1;
    var home := page % TLB_SIZE;
    t', hit := t, false;
    while vidx >= 0
      invariant -1 <= vidx < VTLB_SIZE
      invariant forall k :: vidx < k < VTLB_SIZE ==> !FastHit(t.victim[mode][k], a, page)
    {
      if Comparator(t.victim[mode][vidx], a) == Word(page, false, false, false) {
        assert FastHit(t.victim[mode][vidx], a, page);
        var e, v := t.main[mode][home], t.victim[mode][vidx];
        t' := t.(main := t.main[mode := t.main[mode][home := v]], victim := t.victim[mode := t.victim[mode][vidx := e]]);
        assert EntryOk(v, mode, held) && EntryOk(e, mode, held);
        VictimComesHome(v, a, page, mode, held);
        PlacedInRow(t.main[mode], home, v, mode, held);
        PlacedInRow(t.victim[mode], vidx, e, mode, held);
        SwapKeepsEntries(t.main[mode], t.victim[mode], home, vidx);
        assert SwappedIn(t, t', mode, home, vidx);
        return t', true;
      }
      vidx := vidx - 1;
    }
  }

  /** A load looks at the read word, a store at the write word and a fetch at the code word, with no flag set. */
  lemma FastHitMeans(e: Entry, page: nat)
    ensures FastHit(e, Load, page) <==> Hits(e.read, page) && !e.read.notDirty && !e.read.mmio
    ensures FastHit(e, Store, page) <==> Hits(e.write, page) && !e.write.notDirty && !e.write.mmio
    ensures FastHit(e, Fetch, page) <==> Hits(e.code, page) && !e.code.notDirty && !e.code.mmio
  {
  }

  /** A main entry and a victim have changed places. */
  predicate SwappedIn(t: Tlb, t': Tlb, mode: nat, i: nat, k: nat)
    requires mode < |t.main| && mode < |t.victim| && i < |t.main[mode]| && k < |t.victim[mode]|
  {
    && t'.main == t.main[mode := t.main[mode][i := t.victim[mode][k]]]
    && t'.victim == t.victim[mode := t.victim[mode][k := t.main[mode][i]]]
  }

  /** The topmost victim that matches has been swapped in, or nothing matches and nothing changed. */
  ghost predicate VictimDone(t: Tlb, t': Tlb, mode: nat, page: nat, a: Access)
    requires TlbShaped(t, |t.main|) && mode < |t.main|
  {
    if exists k :: 0 <= k < VTLB_SIZE && FastHit(t.victim[mode][k], a, page)
    then exists k :: 0 <= k < VTLB_SIZE && FastHit(t.victim[mode][k], a, page) && SwappedIn(t, t', mode, page % TLB_SIZE, k)
                     && forall j :: k < j < VTLB_SIZE ==> !FastHit(t.victim[mode][j], a, page)
    else t' == t
  }

  /** A swap inside one mode: no entry is lost or made. */
  ghost predicate SameEntries(t: Tlb, t': Tlb, mode: nat)
    requires mode < |t.main| && mode < |t.victim|
  {
    && |t'.main| == |t.main| && |t'.victim| == |t.victim|
    && multiset(t'.main[mode]) + multiset(t'.victim[mode]) == multiset(t.main[mode]) + multiset(t.victim[mode])
    && (forall m :: 0 <= m < |t.main| && m != mode ==> t'.main[m] == t.main[m])
    && (forall m :: 0 <= m < |t.victim| && m != mode ==> t'.victim[m] == t.victim[m])
  }

  // ------------------------------------------------------------ dirty marks

  /** A dirty mark changes no comparator's page and no validity. */
  lemma MarkKeepsEntry(u: Update, e: Entry)
    requires !u.FlushEntry?
    ensures var e' := Apply(u, e);
            e'.read == e.read && e'.code == e.code && e'.addend == e.addend
            && e'.write.page == e.write.page && e'.write.invalid == e.write.invalid && e'.write.mmio == e.write.mmio
  {
  }

  lemma MarkedRow(row: seq<Entry>, row': seq<Entry>, u: Update, mode: nat, held: set<Fill>)
    requires !u.FlushEntry? && RowOk(row, mode, held) && |row'| == |row|
    requires forall i :: 0 <= i < |row| ==> row'[i] == Apply(u, row[i]) || row'[i] == row[i]
    ensures RowOk(row', mode, held) && (RowAtHome(row) ==> RowAtHome(row'))
  {
    forall i | 0 <= i < |row|
      ensures EntryOk(row'[i], mode, held) && (AtHome(row[i], i) ==> AtHome(row'[i], i))
    {
      MarkKeepsEntry(u, row[i]);
      assert EntryOk(row[i], mode, held);
      if !Dead(row[i]) {
        var f :| f in held && f.mode == mode && MadeBy(row[i], f);
        assert MadeBy(row'[i], f);
      }
    }
  }

  /** `tlb_reset_dirty`. */
  method ResetDirty(t: Tlb, start: nat, length: nat, modes: nat, ghost held: set<Fill>) returns (t': Tlb)
    requires Inv(t, modes, held)
    ensures Inv(t', modes, held) && t'.region == t.region
    ensures Updated(t.main, t'.main, ResetDirtyRange(start, length)) && Updated(t.victim, t'.victim, ResetDirtyRange(start, length))
  {
    var u := ResetDirtyRange(start, length);
    var main := UpdateAll(t.main, u);
    var victim := UpdateAll(t.victim, u);
    forall m | 0 <= m < modes
      ensures RowOk(main[m], m, held) && RowAtHome(main[m]) && RowOk(victim[m], m, held)
    {
      MarkedRow(t.main[m], main[m], u, m, held);
      MarkedRow(t.victim[m], victim[m], u, m, held);
    }
    t' := t.(main := main, victim := victim);
  }

  /** `tlb_set_dirty`. */
  method SetDirtyPage(t: Tlb, page: nat, modes: nat, ghost held: set<Fill>) returns (t': Tlb)
    requires Inv(t, modes, held)
    ensures Inv(t', modes, held) && t'.region == t.region
    ensures SlotUpdated(t.main, t'.main, page % TLB_SIZE, SetDirty(page)) && Updated(t.victim, t'.victim, SetDirty(page))
  {
    var u := SetDirty(page);
    var main := UpdateSlot(t.main, page % TLB_SIZE, u);
    var victim := UpdateAll(t.victim, u);
    forall m | 0 <= m < modes
      ensures RowOk(main[m], m, held) && RowAtHome(main[m]) && RowOk(victim[m], m, held)
    {
      MarkedRow(t.main[m], main[m], u, m, held);
      MarkedRow(t.victim[m], victim[m], u, m, held);
    }
    t' := t.(main := main, victim := victim);
  }

  // ------------------------------------------------------------ whole runs

  datatype TlbOp =
    | FlushOp
    | FlushPageOp(page: nat)
    | FlushModesOp(list: seq<nat>)
    | FlushPageModesOp(page: nat, list: seq<nat>)
    | SetPageOp(fill: Fill)
    | VictimOp(mode: nat, page: nat, access: Access)
    | ResetDirtyOp(start: nat, length: nat)
    | SetDirtyOp(page: nat)

  predicate OpOk(op: TlbOp, modes: nat) {
    match op
    case SetPageOp(f) => FillOk(f, modes)
    case VictimOp(mode, _, _) => mode < modes
    case FlushModesOp(list) => forall m :: m in list ==> m < modes
    case FlushPageModesOp(_, list) => forall m :: m in list ==> m < modes
    case _ => true
  }

  /** The operation tells the TLB to forget the fill's translation. */
  predicate Flushes(op: TlbOp, x: Fill) {
    match op
    case FlushOp => true
    case FlushPageOp(page) => Contains(x, page)
    case FlushModesOp(list) => x.mode in list
    case FlushPageModesOp(page, list) => x.mode in list && Contains(x, page)
    case _ => false
  }

  predicate Installs(op: TlbOp, x: Fill) { op == SetPageOp(x) }

  /** Installed by some operation and flushed by none after it. */
  ghost predicate Live(ops: seq<TlbOp>, x: Fill) {
    exists j :: 0 <= j < |ops| && Installs(ops[j], x) && forall k :: j < k < |ops| ==> !Flushes(ops[k], x)
  }

  ghost predicate AllLive(ops: seq<TlbOp>, held: set<Fill>) {
    forall x :: x in held ==> Live(ops, x)
  }

  lemma StaysLive(ops: seq<TlbOp>, op: TlbOp, x: Fill)
    requires Live(ops, x) && !Flushes(op, x)
    ensures Live(ops + [op], x)
  {
    var j :| 0 <= j < |ops| && Installs(ops[j], x) && forall k :: j < k < |ops| ==> !Flushes(ops[k], x);
    var ops' := ops + [op];
    assert Installs(ops'[j], x);
    forall k | j < k < |ops'|
      ensures !Flushes(ops'[k], x)
    {
    }
  }

  lemma BecomesLive(ops: seq<TlbOp>, op: TlbOp, x: Fill)
    requires Installs(op, x)
    ensures Live(ops + [op], x)
  {
    var ops' := ops + [op];
    assert Installs(ops'[|ops|], x);
  }

  lemma HeldStayLive(ops: seq<TlbOp>, op: TlbOp, held: set<Fill>, held': set<Fill>)
    requires AllLive(ops, held)
    requires forall x :: x in held' ==> Installs(op, x) || (x in held && !Flushes(op, x))
    ensures AllLive(ops + [op], held')
  {
    forall x | x in held'
      ensures Live(ops + [op], x)
    {
      if Installs(op, x) {
        BecomesLive(ops, op, x);
      } else {
        StaysLive(ops, op, x);
      }
    }
  }

  /** No entry that was not in the same mode before. */
  predicate OnlyOld(t: Tlb, t': Tlb) {
    && |t'.main| == |t.main| && |t'.victim| == |t.victim| == |t.main|
    && (forall m, i :: 0 <= m < |t'.main| && 0 <= i < |t'.main[m]| ==> OldEntry(t, m, t'.main[m][i]))
    && (forall m, i :: 0 <= m < |t'.victim| && 0 <= i < |t'.victim[m]| ==> OldEntry(t, m, t'.victim[m][i]))
  }

  predicate OldEntry(t: Tlb, mode: nat, e: Entry)
    requires mode < |t.main| && mode < |t.victim|
  {
    e == EMPTY || e in t.main[mode] || e in t.victim[mode]
  }

  lemma ThinnedIsOld(t: Tlb, t': Tlb)
    requires |t.victim| == |t.main| && Thinned(t.main, t'.main) && Thinned(t.victim, t'.victim)
    ensures OnlyOld(t, t')
  {
    forall m, i | 0 <= m < |t'.main| && 0 <= i < |t'.main[m]|
      ensures OldEntry(t, m, t'.main[m][i])
    {
      assert RowThinned(t.main[m], t'.main[m]);
      assert t.main[m][i] in t.main[m];
    }
    forall m, i | 0 <= m < |t'.victim| && 0 <= i < |t'.victim[m]|
      ensures OldEntry(t, m, t'.victim[m][i])
    {
      assert RowThinned(t.victim[m], t'.victim[m]);
      assert t.victim[m][i] in t.victim[m];
    }
  }

  lemma SwappedIsOld(t: Tlb, t': Tlb, mode: nat)
    requires |t.victim| == |t.main| && mode < |t.main| && SameEntries(t, t', mode)
    ensures OnlyOld(t, t')
  {
    forall m, i | 0 <= m < |t'.main| && 0 <= i < |t'.main[m]|
      ensures OldEntry(t, m, t'.main[m][i])
    {
      if m == mode {
        assert t'.main[m][i] in multiset(t'.main[mode]) + multiset(t'.victim[mode]);
      }
    }
    forall m, i | 0 <= m < |t'.victim| && 0 <= i < |t'.victim[m]|
      ensures OldEntry(t, m, t'.victim[m][i])
    {
      if m == mode {
        assert t'.victim[m][i] in multiset(t'.main[mode]) + multiset(t'.victim[mode]);
      }
    }
  }

  lemma EmptiedIsOld(t: Tlb, t': Tlb)
    requires |t.victim| == |t.main| && |t'.main| == |t.main| && |t'.victim| == |t.main|
    requires TableEmpty(t'.main) && TableEmpty(t'.victim)
    ensures OnlyOld(t, t')
  {
  }

  lemma ModesEmptiedIsOld(t: Tlb, t': Tlb, list: seq<nat>)
    requires |t.victim| == |t.main| && ModesEmptied(t.main, t'.main, list) && ModesEmptied(t.victim, t'.victim, list)
    ensures OnlyOld(t, t')
  {
    ThinnedIsOld(t, t');
  }

  /** What each operation does to the tables. */
  ghost predicate StepDone(t: Tlb, op: TlbOp, t': Tlb, modes: nat)
    requires TlbShaped(t, modes) && TlbShaped(t', modes) && OpOk(op, modes)
  {
    match op
    case FlushOp => TableEmpty(t'.main) && TableEmpty(t'.victim)
    case FlushPageOp(page) =>
      if InRegion(t.region, page) then TableEmpty(t'.main) && TableEmpty(t'.victim)
      else SlotUpdated(t.main, t'.main, page % TLB_SIZE, FlushEntry(page)) && Updated(t.victim, t'.victim, FlushEntry(page))
    case FlushModesOp(list) => ModesEmptied(t.main, t'.main, list) && ModesEmptied(t.victim, t'.victim, list)
    case FlushPageModesOp(page, list) =>
      if InRegion(t.region, page) then ModesEmptied(t.main, t'.main, list) && ModesEmptied(t.victim, t'.victim, list)
      else ModesFlushed(t, t', list, page)
    case SetPageOp(f) => Placed(t, t', f)
    case VictimOp(mode, page, access) =>
      SameEntries(t, t', mode) && VictimDone(t, t', mode, page, access)
    case ResetDirtyOp(start, length) =>
      Updated(t.main, t'.main, ResetDirtyRange(start, length)) && Updated(t.victim, t'.victim, ResetDirtyRange(start, length))
    case SetDirtyOp(page) =>
      SlotUpdated(t.main, t'.main, page % TLB_SIZE, SetDirty(page)) && Updated(t.victim, t'.victim, SetDirty(page))
  }

  /** The remembered region after an operation. */
  function RegionAfter(r: Region, op: TlbOp): Region {
    match op
    case FlushOp => NoRegion
    case FlushPageOp(page) => if InRegion(r, page) then NoRegion else r
    case SetPageOp(f) =>
      if f.shift != 0 && f.shift <= VPAGE_BITS && (r.Region? ==> r.shift <= VPAGE_BITS) then Widened(r, f.page, f.shift) else r
    case _ => r
  }

  /** The fills whose entries may still be cached after an operation. */
  ghost function HeldAfter(r: Region, op: TlbOp, held: set<Fill>): set<Fill> {
    match op
    case FlushOp => {}
    case FlushPageOp(page) => if InRegion(r, page) then {} else AfterFlushPage(held, page)
    case FlushModesOp(list) => AfterFlushModes(held, list)
    case FlushPageModesOp(page, list) =>
      if InRegion(r, page) then AfterFlushModes(held, list) else AfterFlushPageModes(held, page, list)
    case SetPageOp(f) => held + {f}
    case _ => held
  }

  lemma HeldAfterSpares(r: Region, op: TlbOp, held: set<Fill>)
    ensures forall x :: x in HeldAfter(r, op, held) ==> Installs(op, x) || (x in held && !Flushes(op, x))
  {
  }

  /** The region and the fills held after a run, from its operations alone. */
  function RunRegion(ops: seq<TlbOp>): Region {
    if ops == [] then NoRegion else RegionAfter(RunRegion(ops[..|ops| - 1]), ops[|ops| - 1])
  }

  ghost function RunHeld(ops: seq<TlbOp>): set<Fill> {
    if ops == [] then {}
    else HeldAfter(RunRegion(ops[..|ops| - 1]), ops[|ops| - 1], RunHeld(ops[..|ops| - 1]))
  }

  /** The last operation flushes a page that lies in a large page held before it. */
  ghost predicate FlushesLargePage(ops: seq<TlbOp>) {
    && ops != [] && ops[|ops| - 1].FlushPageOp?
    && exists x :: x in RunHeld(ops[..|ops| - 1]) && x.shift > 0 && Contains(x, ops[|ops| - 1].page)
  }

  /** One operation; what it spares or installs is held afterwards, or less after a forced flush. */
  method Step(t: Tlb, op: TlbOp, modes: nat, ghost held: set<Fill>) returns (t': Tlb, ghost held': set<Fill>)
    requires Inv(t, modes, held) && OpOk(op, modes)
    ensures Inv(t', modes, held') && held' == HeldAfter(t.region, op, held) && t'.region == RegionAfter(t.region, op)
    ensures StepDone(t, op, t', modes)
    ensures op.SetPageOp? || op.ResetDirtyOp? || op.SetDirtyOp? || OnlyOld(t, t')
  {
    held' := held;
    var hit: bool;
    match op
    case FlushOp =>
      t' := Flush(modes);
      held' := {};
      EmptiedIsOld(t, t');
    case FlushPageOp(page) =>
      t', held' := FlushPage(t, page, modes, held);
      ThinnedIsOld(t, t');
    case FlushModesOp(list) =>
      t' := FlushByMmuIdx(t, list, modes, held);
      held' := AfterFlushModes(held, list);
      ModesEmptiedIsOld(t, t', list);
    case FlushPageModesOp(page, list) =>
      t', held' := FlushPageByMmuIdx(t, page, list, modes, held);
      ThinnedIsOld(t, t');
    case SetPageOp(f) =>
      t' := SetPage(t, f, modes, held);
      held' := held + {f};
    case VictimOp(mode, page, access) =>
      t', hit := VictimTlbHit(t, mode, page, access, modes, held);
      SwappedIsOld(t, t', mode);
    case ResetDirtyOp(start, length) =>
      t' := ResetDirty(t, start, length, modes, held);
    case SetDirtyOp(page) =>
      t' := SetDirtyPage(t, page, modes, held);
  }

  /** Some operation of the run filled the entry, and none after it flushes that fill's translation. */
  ghost predicate Provenance(ops: seq<TlbOp>, mode: nat, e: Entry) {
    exists j :: 0 <= j < |ops| && FilledAt(ops, j, mode, e)
  }

  ghost predicate FilledAt(ops: seq<TlbOp>, j: nat, mode: nat, e: Entry) {
    && j < |ops| && ops[j].SetPageOp? && ops[j].fill.mode == mode && MadeBy(e, ops[j].fill) && Serves(e, ops[j].fill)
    && forall k :: j < k < |ops| ==> !Flushes(ops[k], ops[j].fill)
  }

  lemma LargePageSeen(r: Region, op: TlbOp, held: set<Fill>)
    requires Covered(r, held)
    ensures op.FlushPageOp? && (exists x :: x in held && x.shift > 0 && Contains(x, op.page)) ==> InRegion(r, op.page)
  {
    if op.FlushPageOp? {
      LargePagesForceFlush(r, held, op.page);
    }
  }

  lemma EntryIsLive(ops: seq<TlbOp>, row: seq<Entry>, mode: nat, i: nat, held: set<Fill>)
    requires AllLive(ops, held) && RowOk(row, mode, held) && i < |row| && !Dead(row[i])
    ensures Provenance(ops, mode, row[i])
  {
    assert EntryOk(row[i], mode, held);
    var f :| f in held && f.mode == mode && MadeBy(row[i], f);
    assert Live(ops, f);
    var j :| 0 <= j < |ops| && Installs(ops[j], f) && forall k :: j < k < |ops| ==> !Flushes(ops[k], f);
    MadeServes(row[i], f);
    assert FilledAt(ops, j, mode, row[i]);
  }

  /** An access that finds an entry has been granted by a fill of the run for that page, in that mode, that no later operation flushes. */
  ghost predicate Granted(ops: seq<TlbOp>, mode: nat, e: Entry) {
    && (forall p: nat :: Hits(e.read, p) ==> exists j :: 0 <= j < |ops| && FilledAt(ops, j, mode, e) && ops[j].fill.page == p && ops[j].fill.canRead)
    && (forall p: nat :: Hits(e.write, p) ==> exists j :: 0 <= j < |ops| && FilledAt(ops, j, mode, e) && ops[j].fill.page == p && ops[j].fill.canWrite)
    && (forall p: nat :: Hits(e.code, p) ==> exists j :: 0 <= j < |ops| && FilledAt(ops, j, mode, e) && ops[j].fill.page == p && ops[j].fill.canExec)
  }

  lemma ProvenanceGrants(ops: seq<TlbOp>, mode: nat, e: Entry)
    requires Dead(e) || Provenance(ops, mode, e)
    ensures Granted(ops, mode, e)
  {
    if !Dead(e) {
      var j :| 0 <= j < |ops| && FilledAt(ops, j, mode, e);
    }
  }

  lemma RunGrants(ops: seq<TlbOp>, t: Tlb, modes: nat, held: set<Fill>)
    requires Inv(t, modes, held) && AllLive(ops, held)
    ensures forall m, i :: 0 <= m < modes && 0 <= i < TLB_SIZE && !Dead(t.main[m][i]) ==> Provenance(ops, m, t.main[m][i])
    ensures forall m, i :: 0 <= m < modes && 0 <= i < VTLB_SIZE && !Dead(t.victim[m][i]) ==> Provenance(ops, m, t.victim[m][i])
    ensures forall m, i :: 0 <= m < modes && 0 <= i < TLB_SIZE ==> Granted(ops, m, t.main[m][i])
    ensures forall m, i :: 0 <= m < modes && 0 <= i < VTLB_SIZE ==> Granted(ops, m, t.victim[m][i])
  {
    forall m, i | 0 <= m < modes && 0 <= i < TLB_SIZE && !Dead(t.main[m][i])
      ensures Provenance(ops, m, t.main[m][i])
    {
      EntryIsLive(ops, t.main[m], m, i, held);
    }
    forall m, i | 0 <= m < modes && 0 <= i < VTLB_SIZE && !Dead(t.victim[m][i])
      ensures Provenance(ops, m, t.victim[m][i])
    {
      EntryIsLive(ops, t.victim[m], m, i, held);
    }
    forall m, i | 0 <= m < modes && 0 <= i < TLB_SIZE
      ensures Granted(ops, m, t.main[m][i])
    {
      ProvenanceGrants(ops, m, t.main[m][i]);
    }
    forall m, i | 0 <= m < modes && 0 <= i < VTLB_SIZE
      ensures Granted(ops, m, t.victim[m][i])
    {
      ProvenanceGrants(ops, m, t.victim[m][i]);
    }
  }

  /** One operation of a run. */
  ghost predicate TlbMoves(t: Tlb, op: TlbOp, t': Tlb, modes: nat) {
    TlbShaped(t, modes) && TlbShaped(t', modes) && OpOk(op, modes) && StepDone(t, op, t', modes)
  }

  ghost function TlbMove(modes: nat): (Tlb, TlbOp, Tlb) -> bool {
    (t, op, t') => TlbMoves(t, op, t', modes)
  }

  /** The TLB at the start, which is empty, and after each operation. */
  ghost predicate TlbRun(run: seq<Tlb>, ops: seq<TlbOp>, modes: nat) {
    Follows(run, ops, TlbMove(modes)) && TableEmpty(run[0].main) && TableEmpty(run[0].victim) && run[0].region == NoRegion
  }

  /** What is known of the TLB after the operations of a run. */
  ghost predicate TlbAfter(t: Tlb, run: seq<Tlb>, ops: seq<TlbOp>, modes: nat, held: set<Fill>) {
    && Inv(t, modes, held) && AllLive(ops, held) && held == RunHeld(ops) && t.region == RunRegion(ops)
    && (FlushesLargePage(ops) ==> TableEmpty(t.main) && TableEmpty(t.victim))
    && TlbRun(run, ops, modes) && run[|ops|] == t
  }

  method NextOp(t: Tlb, run: seq<Tlb>, ghost ops: seq<TlbOp>, op: TlbOp, modes: nat, ghost held: set<Fill>)
    returns (t': Tlb, run': seq<Tlb>, ghost held': set<Fill>)
    requires TlbAfter(t, run, ops, modes, held) && OpOk(op, modes)
    ensures TlbAfter(t', run', ops + [op], modes, held')
  {
    HeldAfterSpares(t.region, op, held);
    LargePageSeen(t.region, op, held);
    t', held' := Step(t, op, modes, held);
    FollowsNext(run, ops, op, t', TlbMove(modes));
    run' := run + [t'];
    HeldStayLive(ops, op, held, held');
    assert (ops + [op])[..|ops|] == ops;
  }

  /**
   * A run gives a TLB after each operation, and each operation does what it should to the one before.  After
   * the run, every entry that can match was made by one fill of the run, except for the not-dirty
   * mark, and no operation after that fill flushes a page of it, be it large or small.  A flush inside a
   * large page that is still held leaves nothing at all.
   */
  method DriveTlb(ops: seq<TlbOp>, modes: nat) returns (run: seq<Tlb>, t: Tlb)
    requires forall j :: 0 <= j < |ops| ==> OpOk(ops[j], modes)
    ensures TlbRun(run, ops, modes) && t == run[|ops|] && TlbShaped(t, modes)
    ensures forall m, i :: 0 <= m < modes && 0 <= i < TLB_SIZE && !Dead(t.main[m][i]) ==> Provenance(ops, m, t.main[m][i])
    ensures forall m, i :: 0 <= m < modes && 0 <= i < VTLB_SIZE && !Dead(t.victim[m][i]) ==> Provenance(ops, m, t.victim[m][i])
    ensures forall m, i :: 0 <= m < modes && 0 <= i < TLB_SIZE ==> Granted(ops, m, t.main[m][i])
    ensures forall m, i :: 0 <= m < modes && 0 <= i < VTLB_SIZE ==> Granted(ops, m, t.victim[m][i])
    ensures FlushesLargePage(ops) ==> TableEmpty(t.main) && TableEmpty(t.victim)
    ensures t.region == RunRegion(ops)
  {
    t := Flush(modes);
    run := [t];
    ghost var held: set<Fill> := {};
    for j := 0 to |ops|
      invariant TlbAfter(t, run, ops[..j], modes, held)
    {
      t, run, held := NextOp(t, run, ops[..j], ops[j], modes, held);
      assert ops[..j + 1] == ops[..j] + [ops[j]];
    }
    assert ops[..|ops|] == ops;
    RunGrants(ops, t, modes, held);
  }
}
