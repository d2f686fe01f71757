/**
 Guest RAM bookkeeping of qemu/exec.c: the list of RAM blocks with its best-fit offset search, and
 the dirty bitmaps, which are split into fixed-size blocks so that they can grow.
 */
module DirtyBitmap {
  import opened Arithmetic

  const TARGET_PAGE_SIZE: nat := 4096
  const DIRTY_MEMORY_BLOCK_SIZE: nat := 256 * 1024 * 8

  /** The bitmap of one client: pages in blocks of DIRTY_MEMORY_BLOCK_SIZE bits. */
  type Bits = s: seq<bool> | |s| == DIRTY_MEMORY_BLOCK_SIZE
    witness seq(DIRTY_MEMORY_BLOCK_SIZE, i => false)
  type Bitmap = seq<Bits>

  /** Pages for which the bitmap has a bit. */
  function Capacity(m: Bitmap): nat {
    |m| * DIRTY_MEMORY_BLOCK_SIZE
  }

  lemma BlockOf(m: Bitmap, page: nat)
    requires page < Capacity(m)
    ensures page / DIRTY_MEMORY_BLOCK_SIZE < |m|
  {
  }

  /** The bitmap as one flat array; a page beyond it counts as clean. */
  function Bit(m: Bitmap, page: nat): bool {
    var b := page / DIRTY_MEMORY_BLOCK_SIZE;
    b < |m| && m[b][page % DIRTY_MEMORY_BLOCK_SIZE]
  }

  /** First page of a byte range, and the page after its last. */
  function FirstPage(start: nat): nat { start / TARGET_PAGE_SIZE }
  function EndPage(start: nat, length: nat): nat { (start + length + TARGET_PAGE_SIZE - 1) / TARGET_PAGE_SIZE }

  /** They are the pages that have a byte in the range. */
  lemma TouchedPages(start: nat, length: nat, page: nat)
    requires length > 0
    ensures FirstPage(start) <= page < EndPage(start, length) <==> start < page * 4096 + 4096 && page * 4096 < start + length
  {
  }

  /** `m'` is `m` with the pages from `lo` to `hi` set to `value`. */
  ghost predicate RangeIs(m: Bitmap, m': Bitmap, lo: nat, hi: nat, value: bool) {
    && |m'| == |m|
    && forall page: nat :: Bit(m', page) == if lo <= page < hi then value else Bit(m, page)
  }

  /** `bitmap_set_atomic` or the clearing half of `bitmap_test_and_clear_atomic` on one block. */
  function Overwrite(b: Bits, offset: nat, num: nat, value: bool): Bits {
    seq(DIRTY_MEMORY_BLOCK_SIZE, i requires 0 <= i < DIRTY_MEMORY_BLOCK_SIZE => if offset <= i < offset + num then value else b[i])
  }

  predicate AnySet(b: Bits, offset: nat, num: nat)
    requires offset + num <= DIRTY_MEMORY_BLOCK_SIZE
  {
    exists i :: offset <= i < offset + num && b[i]
  }

  /** Overwriting a piece of one block is a flat range update. */
  lemma ChunkIsRange(m: Bitmap, page: nat, num: nat, value: bool)
    requires page < Capacity(m) && page % DIRTY_MEMORY_BLOCK_SIZE + num <= DIRTY_MEMORY_BLOCK_SIZE
    ensures var b := page / DIRTY_MEMORY_BLOCK_SIZE;
            b < |m| && RangeIs(m, m[b := Overwrite(m[b], page % DIRTY_MEMORY_BLOCK_SIZE, num, value)], page, page + num, value)
  {
    var b, o := page / DIRTY_MEMORY_BLOCK_SIZE, page % DIRTY_MEMORY_BLOCK_SIZE;
    BlockOf(m, page);
    var m' := m[b := Overwrite(m[b], o, num, value)];
    forall q: nat
      ensures Bit(m', q) == if page <= q < page + num then value else Bit(m, q)
    {
      if q / DIRTY_MEMORY_BLOCK_SIZE == b {
        assert q == b * DIRTY_MEMORY_BLOCK_SIZE + q % DIRTY_MEMORY_BLOCK_SIZE;
      }
    }
  }

  lemma RangeTrans(m0: Bitmap, m1: Bitmap, m2: Bitmap, lo: nat, mid: nat, hi: nat, value: bool)
    requires RangeIs(m0, m1, lo, mid, value) && RangeIs(m1, m2, mid, hi, value) && lo <= mid <= hi
    ensures RangeIs(m0, m2, lo, hi, value)
  {
  }

  /** The chunked loop of `cpu_physical_memory_set_dirty_range`, for one client. */
  method SetDirtyRange(m: Bitmap, start: nat, length: nat) returns (m': Bitmap)
    requires EndPage(start, length) <= Capacity(m)
    ensures RangeIs(m, m', FirstPage(start), EndPage(start, length), true)
  {
    var end, page := EndPage(start, length), FirstPage(start);
    var idx := page / DIRTY_MEMORY_BLOCK_SIZE;
    var offset := page % DIRTY_MEMORY_BLOCK_SIZE;
    var base := page - offset;
    m' := m;
    while page < end
      invariant FirstPage(start) <= page && (page <= end || page == FirstPage(start))
      invariant idx == page / DIRTY_MEMORY_BLOCK_SIZE || page == end
      invariant page < end ==> base + offset == page && base == idx * DIRTY_MEMORY_BLOCK_SIZE && offset < DIRTY_MEMORY_BLOCK_SIZE
      invariant RangeIs(m, m', FirstPage(start), page, true)
      decreases end - page
    {
      var next := Min(end, base + DIRTY_MEMORY_BLOCK_SIZE);
      DivModUnique(page, DIRTY_MEMORY_BLOCK_SIZE, idx, offset);
      ChunkIsRange(m', page, next - page, true);
      RangeTrans(m, m', m'[idx := Overwrite(m'[idx], offset, next - page, true)], FirstPage(start), page, next, true);
      m' := m'[idx := Overwrite(m'[idx], offset, next - page, true)];
      page := next;
      idx := idx + 1;
      offset := 0;
      base := base + DIRTY_MEMORY_BLOCK_SIZE;
      if page < end { DivModUnique(page, DIRTY_MEMORY_BLOCK_SIZE, idx, 0); }
    }
  }

  /** Some page from `lo` to `hi` is dirty. */
  ghost predicate SomeDirty(m: Bitmap, lo: nat, hi: nat) {
    exists page: nat :: lo <= page < hi && Bit(m, page)
  }

  /** The chunked loop of `cpu_physical_memory_test_and_clear_dirty`, for one client. */
  method TestAndClear(m: Bitmap, start: nat, length: nat) returns (m': Bitmap, dirty: bool)
    requires EndPage(start, length) <= Capacity(m)
    ensures length == 0 ==> m' == m && !dirty
    ensures length > 0 ==> RangeIs(m, m', FirstPage(start), EndPage(start, length), false)
    ensures length > 0 ==> (dirty <==> SomeDirty(m, FirstPage(start), EndPage(start, length)))
  {
    m', dirty := m, false;
    if length == 0 {
      return;
    }
    var end, page := EndPage(start, length), FirstPage(start);
    while page < end
      invariant FirstPage(start) <= page <= end
      invariant RangeIs(m, m', FirstPage(start), page, false)
      invariant dirty <==> SomeDirty(m, FirstPage(start), page)
    {
      var idx := page / DIRTY_MEMORY_BLOCK_SIZE;
      var offset := page % DIRTY_MEMORY_BLOCK_SIZE;
      var num := Min(end - page, DIRTY_MEMORY_BLOCK_SIZE - offset);
      ClearChunk(m, m', FirstPage(start), page, num);
      dirty := dirty || AnySet(m'[idx], offset, num);
      m' := m'[idx := Overwrite(m'[idx], offset, num, false)];
      page := page + num;
    }
  }

  lemma ClearChunk(m: Bitmap, m': Bitmap, lo: nat, page: nat, num: nat)
    requires RangeIs(m, m', lo, page, false) && lo <= page
    requires page < Capacity(m) && page % DIRTY_MEMORY_BLOCK_SIZE + num <= DIRTY_MEMORY_BLOCK_SIZE
    ensures var b := page / DIRTY_MEMORY_BLOCK_SIZE; var o := page % DIRTY_MEMORY_BLOCK_SIZE;
            && b < |m'|
            && RangeIs(m, m'[b := Overwrite(m'[b], o, num, false)], lo, page + num, false)
            && (SomeDirty(m, lo, page + num) <==> SomeDirty(m, lo, page) || AnySet(m'[b], o, num))
  {
    var b, o := page / DIRTY_MEMORY_BLOCK_SIZE, page % DIRTY_MEMORY_BLOCK_SIZE;
    ChunkIsRange(m', page, num, false);
    RangeTrans(m, m', m'[b := Overwrite(m'[b], o, num, false)], lo, page, page + num, false);
    ChunkAnySet(m', page, num);
    DirtySoFar(m, m', lo, page, num);
  }

  lemma BitAt(m: Bitmap, b: nat, i: nat)
    requires b < |m| && i < DIRTY_MEMORY_BLOCK_SIZE
    ensures Bit(m, b * DIRTY_MEMORY_BLOCK_SIZE + i) == m[b][i]
  {
    DivModUnique(b * DIRTY_MEMORY_BLOCK_SIZE + i, DIRTY_MEMORY_BLOCK_SIZE, b, i);
  }

  lemma ChunkAnySet(m: Bitmap, page: nat, num: nat)
    requires page < Capacity(m) && page % DIRTY_MEMORY_BLOCK_SIZE + num <= DIRTY_MEMORY_BLOCK_SIZE
    ensures var b := page / DIRTY_MEMORY_BLOCK_SIZE;
            b < |m| && (AnySet(m[b], page % DIRTY_MEMORY_BLOCK_SIZE, num) <==> SomeDirty(m, page, page + num))
  {
    var b, o := page / DIRTY_MEMORY_BLOCK_SIZE, page % DIRTY_MEMORY_BLOCK_SIZE;
    BlockOf(m, page);
    if AnySet(m[b], o, num) {
      var i :| o <= i < o + num && m[b][i];
      BitAt(m, b, i);
    }
    if SomeDirty(m, page, page + num) {
      var q :| page <= q < page + num && Bit(m, q);
      BitAt(m, b, q - b * DIRTY_MEMORY_BLOCK_SIZE);
    }
  }

  lemma DirtySoFar(m: Bitmap, m': Bitmap, lo: nat, page: nat, num: nat)
    requires RangeIs(m, m', lo, page, false) && lo <= page
    ensures SomeDirty(m, lo, page + num) <==> SomeDirty(m, lo, page) || SomeDirty(m', page, page + num)
  {
    if SomeDirty(m, lo, page + num) {
      var q: nat :| lo <= q < page + num && Bit(m, q);
      assert q >= page ==> Bit(m', q);
    }
    if SomeDirty(m', page, page + num) {
      var q: nat :| page <= q < page + num && Bit(m', q);
      assert Bit(m, q);
    }
  }
}

module RamAllocator {
  import opened Arithmetic
  import opened DirtyBitmap
  import opened Runs

  const RAM_ADDR_MAX: nat := 0xFFFF_FFFF_FFFF_FFFF
  const DIRTY_MEMORY_NUM: nat := 3

  datatype RamBlock = RamBlock(id: nat, offset: nat, maxLength: nat, usedLength: nat)

  function End(b: RamBlock): nat { b.offset + b.maxLength }

  /** Lengths and offsets are whole pages: `qemu_ram_alloc_internal` rounds sizes up to host pages. */
  predicate BlockOk(b: RamBlock) {
    && 0 < b.maxLength && b.maxLength % TARGET_PAGE_SIZE == 0 && b.offset % TARGET_PAGE_SIZE == 0
    && b.usedLength <= b.maxLength && End(b) <= RAM_ADDR_MAX
  }

  predicate Apart(a: RamBlock, b: RamBlock) {
    End(a) <= b.offset || End(b) <= a.offset
  }

  predicate BlocksOk(blocks: seq<RamBlock>) {
    && (forall i :: 0 <= i < |blocks| ==> BlockOk(blocks[i]))
    && (forall i, j :: 0 <= i < j < |blocks| ==> Apart(blocks[i], blocks[j]))
  }

  predicate SortedBySize(blocks: seq<RamBlock>) {
    forall i, j :: 0 <= i < j < |blocks| ==> blocks[i].maxLength >= blocks[j].maxLength
  }

  // ------------------------------------------------------------ gaps

  /** The first block start at or after `end`, or RAM_ADDR_MAX if there is none. */
  ghost function NextStart(blocks: seq<RamBlock>, end: nat): nat {
    if blocks == [] then RAM_ADDR_MAX
    else
      var n, b := NextStart(blocks[..|blocks| - 1], end), blocks[|blocks| - 1];
      if b.offset >= end then Min(n, b.offset) else n
  }

  lemma {:induction false} NextStartIsFirst(blocks: seq<RamBlock>, end: nat)
    requires end <= RAM_ADDR_MAX
    ensures end <= NextStart(blocks, end) <= RAM_ADDR_MAX
    ensures NextStart(blocks, end) == RAM_ADDR_MAX || exists i :: 0 <= i < |blocks| && blocks[i].offset == NextStart(blocks, end)
    ensures forall i :: 0 <= i < |blocks| && blocks[i].offset >= end ==> NextStart(blocks, end) <= blocks[i].offset
  {
    if blocks != [] {
      NextStartIsFirst(blocks[..|blocks| - 1], end);
    }
  }

  /** Free bytes between block `i` and what follows it. */
  ghost function Gap(blocks: seq<RamBlock>, i: nat): int
    requires i < |blocks|
  {
    NextStart(blocks, End(blocks[i])) - End(blocks[i])
  }

  /** A block placed in a gap of at least its size overlaps nothing. */
  lemma PlacedApart(blocks: seq<RamBlock>, i: nat, b: RamBlock)
    requires BlocksOk(blocks) && i < |blocks| && b.offset == End(blocks[i]) && b.maxLength <= Gap(blocks, i)
    ensures forall j :: 0 <= j < |blocks| ==> Apart(blocks[j], b)
    ensures End(b) <= RAM_ADDR_MAX && b.offset % TARGET_PAGE_SIZE == 0
  {
    NextStartIsFirst(blocks, End(blocks[i]));
    forall j | 0 <= j < |blocks|
      ensures Apart(blocks[j], b)
    {
      assert j < i ==> Apart(blocks[j], blocks[i]);
      assert i < j ==> Apart(blocks[i], blocks[j]);
    }
  }

  /** The inner loop of `find_ram_offset`. */
  method ComputeNextStart(blocks: seq<RamBlock>, end: nat) returns (next: nat)
    ensures next == NextStart(blocks, end)
  {
    next := RAM_ADDR_MAX;
    for i := 0 to |blocks|
      invariant next == NextStart(blocks[..i], end)
    {
      assert blocks[..i + 1][..i] == blocks[..i];
      if blocks[i].offset >= end {
        next := Min(next, blocks[i].offset);
      }
    }
    assert blocks[..|blocks|] == blocks;
  }

  /** Block `i` is followed by a gap of at least `size`, the first of the smallest such gaps among the first `n`. */
  ghost predicate BestFit(blocks: seq<RamBlock>, size: nat, i: nat, n: nat)
    requires i < |blocks| && n <= |blocks|
  {
    && Gap(blocks, i) >= size
    && forall j :: 0 <= j < n && Gap(blocks, j) >= size ==> Gap(blocks, i) < Gap(blocks, j) || (Gap(blocks, i) == Gap(blocks, j) && i <= j)
  }

  /** `find_ram_offset`; the call to abort() is the result `ok`, and `best` is the block that precedes the gap. */
  method FindRamOffset(blocks: seq<RamBlock>, size: nat) returns (ok: bool, offset: nat, ghost best: nat)
    requires 0 < size && BlocksOk(blocks)
    ensures blocks == [] ==> ok && offset == 0
    ensures ok && blocks != [] ==> best < |blocks| && offset == End(blocks[best]) && BestFit(blocks, size, best, |blocks|)
    ensures !ok ==> blocks != [] && forall j :: 0 <= j < |blocks| ==> Gap(blocks, j) < size
  {
    best := 0;
    if blocks == [] {
      return true, 0, 0;
    }
    offset := RAM_ADDR_MAX;
    var mingap: nat := RAM_ADDR_MAX;
    for i := 0 to |blocks|
      invariant offset == RAM_ADDR_MAX ==> mingap == RAM_ADDR_MAX && forall j :: 0 <= j < i ==> Gap(blocks, j) < size
      invariant offset != RAM_ADDR_MAX ==> best < i && offset == End(blocks[best]) && mingap == Gap(blocks, best)
                                           && BestFit(blocks, size, best, i)
    {
      var end := End(blocks[i]);
      var next := ComputeNextStart(blocks, end);
      NextStartIsFirst(blocks, end);
      assert BlockOk(blocks[i]);
      if next - end >= size && next - end < mingap {
        offset := end;
        mingap := next - end;
        best := i;
      }
    }
    ok := offset != RAM_ADDR_MAX;
  }

  // ------------------------------------------------------------ the list

  /** `last_ram_offset`. */
  function LastRamOffset(blocks: seq<RamBlock>): nat {
    if blocks == [] then 0 else Max(LastRamOffset(blocks[..|blocks| - 1]), End(blocks[|blocks| - 1]))
  }

  lemma {:induction false} LastCovers(blocks: seq<RamBlock>, i: nat)
    requires i < |blocks|
    ensures End(blocks[i]) <= LastRamOffset(blocks)
  {
    if i < |blocks| - 1 { LastCovers(blocks[..|blocks| - 1], i); }
  }

  lemma {:induction false} LastReached(blocks: seq<RamBlock>, bound: nat)
    requires forall i :: 0 <= i < |blocks| ==> End(blocks[i]) <= bound
    ensures LastRamOffset(blocks) <= bound
  {
    if blocks != [] { LastReached(blocks[..|blocks| - 1], bound); }
  }

  method ComputeLastRamOffset(blocks: seq<RamBlock>) returns (last: nat)
    ensures last == LastRamOffset(blocks)
  {
    last := 0;
    for i := 0 to |blocks|
      invariant last == LastRamOffset(blocks[..i])
    {
      assert blocks[..i + 1][..i] == blocks[..i];
      last := Max(last, End(blocks[i]));
    }
    assert blocks[..|blocks|] == blocks;
  }

  /** Every page below `ramSize` has a bit in every client's bitmap. */
  ghost predicate Covers(dirty: seq<Bitmap>, ramSize: nat) {
    |dirty| == DIRTY_MEMORY_NUM && forall c :: 0 <= c < DIRTY_MEMORY_NUM ==> ramSize <= Capacity(dirty[c])
  }

  /** No bit of a page below `ramSize` differs. */
  ghost predicate SameBelow(dirty: seq<Bitmap>, dirty': seq<Bitmap>, ramSize: nat) {
    |dirty| == |dirty'| && forall c, page: nat :: 0 <= c < |dirty| && page < ramSize ==> Bit(dirty'[c], page) == Bit(dirty[c], page)
  }

  lemma CapacityIffBlocks(m: Bitmap, ramSize: nat)
    ensures ramSize <= Capacity(m) <==> DivRoundUp(ramSize, DIRTY_MEMORY_BLOCK_SIZE) <= |m|
  {
  }

  /** The new bitmap of one client in `dirty_memory_extend`. */
  function Extended(m: Bitmap, oldNum: nat, newNum: nat): Bitmap
    requires oldNum <= |m| && oldNum <= newNum
  {
    m[..oldNum] + seq(newNum - oldNum, j => seq(DIRTY_MEMORY_BLOCK_SIZE, i => false))
  }

  /** `dirty_memory_extend`: sizes are in pages. */
  method DirtyMemoryExtend(dirty: seq<Bitmap>, oldSize: nat, newSize: nat) returns (dirty': seq<Bitmap>)
    requires Covers(dirty, oldSize) && oldSize <= newSize
    ensures Covers(dirty', newSize) && SameBelow(dirty, dirty', oldSize)
    ensures GrownBits(dirty, dirty', oldSize, newSize)
  {
    var oldNum := DivRoundUp(oldSize, DIRTY_MEMORY_BLOCK_SIZE);
    var newNum := DivRoundUp(newSize, DIRTY_MEMORY_BLOCK_SIZE);
    dirty' := dirty;
    if newNum <= oldNum {
      forall c | 0 <= c < DIRTY_MEMORY_NUM ensures newSize <= Capacity(dirty[c]) {
        CapacityIffBlocks(dirty[c], oldSize);
        CapacityIffBlocks(dirty[c], newSize);
      }
      return;
    }
    for i := 0 to DIRTY_MEMORY_NUM
      invariant |dirty'| == DIRTY_MEMORY_NUM
      invariant forall c :: i <= c < DIRTY_MEMORY_NUM ==> dirty'[c] == dirty[c]
      invariant forall c :: 0 <= c < i ==> ClientGrown(dirty[c], dirty'[c], oldSize, newSize)
    {
      ClientGrows(dirty[i], oldSize, newSize);
      dirty' := dirty'[i := Extended(dirty[i], oldNum, newNum)];
    }
    AllGrown(dirty, dirty', oldSize, newSize);
  }

  ghost predicate ClientGrown(m: Bitmap, m': Bitmap, oldSize: nat, newSize: nat) {
    newSize <= Capacity(m') && GrownBitmap(m, m', LastOf(oldSize))
  }

  lemma ClientGrows(m: Bitmap, oldSize: nat, newSize: nat)
    requires oldSize <= Capacity(m) && oldSize <= newSize
    ensures var oldNum, newNum := DivRoundUp(oldSize, DIRTY_MEMORY_BLOCK_SIZE), DivRoundUp(newSize, DIRTY_MEMORY_BLOCK_SIZE);
            oldNum <= |m| && oldNum <= newNum && ClientGrown(m, Extended(m, oldNum, newNum), oldSize, newSize)
  {
    var oldNum, newNum := DivRoundUp(oldSize, DIRTY_MEMORY_BLOCK_SIZE), DivRoundUp(newSize, DIRTY_MEMORY_BLOCK_SIZE);
    CapacityIffBlocks(m, oldSize);
    RoundedUp(oldSize, newSize);
    CapacityIffBlocks(Extended(m, oldNum, newNum), newSize);
    ExtendedBits(m, oldNum, newNum);
  }

  lemma AllGrown(dirty: seq<Bitmap>, dirty': seq<Bitmap>, oldSize: nat, newSize: nat)
    requires |dirty| == |dirty'| == DIRTY_MEMORY_NUM && oldSize <= newSize && LastOf(oldSize) < LastOf(newSize)
    requires forall c :: 0 <= c < DIRTY_MEMORY_NUM ==> ClientGrown(dirty[c], dirty'[c], oldSize, newSize)
    ensures Covers(dirty', newSize) && SameBelow(dirty, dirty', oldSize) && GrownBits(dirty, dirty', oldSize, newSize)
  {
    forall c | 0 <= c < DIRTY_MEMORY_NUM
      ensures newSize <= Capacity(dirty'[c]) && GrownBitmap(dirty[c], dirty'[c], LastOf(oldSize))
    {
      assert ClientGrown(dirty[c], dirty'[c], oldSize, newSize);
    }
  }

  /** Bits below `limit` are kept, and the others are clear. */
  ghost predicate GrownBitmap(m: Bitmap, m': Bitmap, limit: nat) {
    forall page: nat {:trigger Bit(m', page)} :: Bit(m', page) <==> page < limit && Bit(m, page)
  }

  /** The last bitmap block in use is kept whole and the pages of new ones are clean; without a new one nothing changes. */
  ghost predicate GrownBits(dirty: seq<Bitmap>, dirty': seq<Bitmap>, oldSize: nat, newSize: nat) {
    && |dirty'| == |dirty| && LastOf(oldSize) <= LastOf(newSize)
    && (LastOf(oldSize) == LastOf(newSize) ==> dirty' == dirty)
    && (LastOf(oldSize) < LastOf(newSize) ==> forall c :: 0 <= c < |dirty| ==> GrownBitmap(dirty[c], dirty'[c], LastOf(oldSize)))
  }

  /** The end of the bitmap block that has the bit of the last of `size` pages. */
  function LastOf(size: nat): (limit: nat)
    ensures size <= limit < size + 2097152 && limit % 2097152 == 0
  {
    DivRoundUp(size, DIRTY_MEMORY_BLOCK_SIZE) * DIRTY_MEMORY_BLOCK_SIZE
  }

  lemma RoundedUp(oldSize: nat, newSize: nat)
    requires oldSize <= newSize
    ensures DivRoundUp(oldSize, DIRTY_MEMORY_BLOCK_SIZE) <= DivRoundUp(newSize, DIRTY_MEMORY_BLOCK_SIZE)
  {
  }

  lemma ExtendedBits(m: Bitmap, oldNum: nat, newNum: nat)
    requires oldNum <= |m| && oldNum <= newNum
    ensures GrownBitmap(m, Extended(m, oldNum, newNum), oldNum * DIRTY_MEMORY_BLOCK_SIZE)
  {
    var m' := Extended(m, oldNum, newNum);
    forall page: nat
      ensures Bit(m', page) <==> page < oldNum * DIRTY_MEMORY_BLOCK_SIZE && Bit(m, page)
    {
      var b := page / DIRTY_MEMORY_BLOCK_SIZE;
      assert page < oldNum * DIRTY_MEMORY_BLOCK_SIZE <==> b < oldNum;
      if b < oldNum { assert m'[b] == m[b]; }
    }
  }

  /** The loop that finds where to insert, biggest block first. */
  method InsertPosition(blocks: seq<RamBlock>, maxLength: nat) returns (k: nat)
    ensures k <= |blocks|
    ensures forall i :: 0 <= i < k ==> blocks[i].maxLength >= maxLength
    ensures k < |blocks| ==> blocks[k].maxLength < maxLength
  {
    k := 0;
    while k < |blocks| && !(blocks[k].maxLength < maxLength)
      invariant k <= |blocks| && forall i :: 0 <= i < k ==> blocks[i].maxLength >= maxLength
    {
      k := k + 1;
    }
  }

  function Inserted(blocks: seq<RamBlock>, k: nat, b: RamBlock): seq<RamBlock>
    requires k <= |blocks|
  {
    blocks[..k] + [b] + blocks[k..]
  }

  /** The block stands behind all that are at least as large and in front of the first that is smaller. */
  predicate InsertedAt(blocks: seq<RamBlock>, blocks': seq<RamBlock>, k: nat, b: RamBlock) {
    && k <= |blocks| && blocks' == Inserted(blocks, k, b)
    && (forall i :: 0 <= i < k ==> blocks[i].maxLength >= b.maxLength) && (k < |blocks| ==> blocks[k].maxLength < b.maxLength)
  }

  lemma InsertedOk(blocks: seq<RamBlock>, k: nat, b: RamBlock)
    requires BlocksOk(blocks) && SortedBySize(blocks) && BlockOk(b) && k <= |blocks|
    requires forall j :: 0 <= j < |blocks| ==> Apart(blocks[j], b)
    requires forall i :: 0 <= i < k ==> blocks[i].maxLength >= b.maxLength
    requires k < |blocks| ==> blocks[k].maxLength < b.maxLength
    ensures BlocksOk(Inserted(blocks, k, b)) && SortedBySize(Inserted(blocks, k, b))
  {
    var blocks' := Inserted(blocks, k, b);
    forall i, j | 0 <= i < j < |blocks'|
      ensures Apart(blocks'[i], blocks'[j]) && blocks'[i].maxLength >= blocks'[j].maxLength
    {
      var i', j' := if i < k then i else i - 1, if j < k then j else j - 1;
      if i != k && j != k {
        assert Apart(blocks[i'], blocks[j']);
      } else if i == k {
        assert Apart(blocks[j'], b);
      } else {
        assert Apart(blocks[i'], b);
      }
    }
  }

  lemma InsertedLast(blocks: seq<RamBlock>, k: nat, b: RamBlock, blocks': seq<RamBlock>)
    requires k <= |blocks| && blocks' == Inserted(blocks, k, b)
    ensures LastRamOffset(blocks') / TARGET_PAGE_SIZE <= Max(LastRamOffset(blocks) / TARGET_PAGE_SIZE, End(b) / TARGET_PAGE_SIZE)
  {
    var bound := Max(LastRamOffset(blocks), End(b));
    forall i | 0 <= i < |blocks'|
      ensures End(blocks'[i]) <= bound
    {
      if i < k {
        LastCovers(blocks, i);
      } else if i > k {
        LastCovers(blocks, i - 1);
      }
    }
    LastReached(blocks', bound);
  }

  lemma RemovedOk(blocks: seq<RamBlock>, k: nat, blocks': seq<RamBlock>)
    requires BlocksOk(blocks) && SortedBySize(blocks) && k < |blocks| && blocks' == blocks[..k] + blocks[k + 1..]
    ensures BlocksOk(blocks') && SortedBySize(blocks')
  {
    forall i, j | 0 <= i < j < |blocks'|
      ensures Apart(blocks'[i], blocks'[j]) && blocks'[i].maxLength >= blocks'[j].maxLength
    {
      var i', j' := if i < k then i else i + 1, if j < k then j else j + 1;
      assert blocks'[i] == blocks[i'] && blocks'[j] == blocks[j'] && Apart(blocks[i'], blocks[j']);
    }
  }

  lemma RemovedLast(blocks: seq<RamBlock>, k: nat, blocks': seq<RamBlock>)
    requires k < |blocks| && blocks' == blocks[..k] + blocks[k + 1..]
    ensures LastRamOffset(blocks') <= LastRamOffset(blocks)
  {
    forall i | 0 <= i < |blocks'|
      ensures End(blocks'[i]) <= LastRamOffset(blocks)
    {
      LastCovers(blocks, if i < k then i else i + 1);
    }
    LastReached(blocks', LastRamOffset(blocks));
  }

  class RamList {
    var blocks: seq<RamBlock>
    var dirty: seq<Bitmap>

    ghost predicate Valid()
      reads this
    {
      BlocksOk(blocks) && SortedBySize(blocks) && Covers(dirty, LastRamOffset(blocks) / TARGET_PAGE_SIZE)
    }

    constructor ()
      ensures Valid() && blocks == []
    {
      blocks, dirty := [], seq(DIRTY_MEMORY_NUM, i => []);
    }

    /** `ram_block_add`: the call fails when no gap is large enough, and then changes nothing. */
    method Add(id: nat, maxLength: nat, usedLength: nat) returns (ok: bool, b: RamBlock, ghost best: nat, ghost k: nat)
      requires Valid()
      requires 0 < maxLength <= RAM_ADDR_MAX && maxLength % TARGET_PAGE_SIZE == 0 && usedLength <= maxLength
      modifies this
      ensures Valid()
      ensures !ok ==> blocks == old(blocks) && dirty == old(dirty)
      ensures !ok ==> blocks != [] && forall j :: 0 <= j < |blocks| ==> Gap(blocks, j) < maxLength
      ensures ok ==> b == RamBlock(id, b.offset, maxLength, usedLength)
      ensures ok && old(blocks) == [] ==> b.offset == 0
      ensures ok && old(blocks) != [] ==> best < |old(blocks)| && b.offset == End(old(blocks)[best])
                                          && BestFit(old(blocks), maxLength, best, |old(blocks)|)
      ensures ok ==> InsertedAt(old(blocks), blocks, k, b)
      ensures ok ==> DirtyAfterAdd(old(dirty), dirty, old(blocks), b)
      ensures ok ==> BitsAfterAdd(old(dirty), dirty, LastRamOffset(old(blocks)) / TARGET_PAGE_SIZE, b)
    {
      var last := ComputeLastRamOffset(blocks);
      var oldSize := last / TARGET_PAGE_SIZE;
      var offset;
      k := 0;
      ok, offset, best := FindRamOffset(blocks, maxLength);
      b := RamBlock(id, offset, maxLength, usedLength);
      if !ok { return; }
      if blocks != [] { PlacedApart(blocks, best, b); }
      k := Register(b, oldSize);
    }

    /** The second half of `ram_block_add`: the bitmaps grow, the block enters the list, its used pages become dirty. */
    method Register(b: RamBlock, oldSize: nat) returns (ghost k: nat)
      requires Valid() && BlockOk(b) && oldSize == LastRamOffset(blocks) / TARGET_PAGE_SIZE
      requires forall j :: 0 <= j < |blocks| ==> Apart(blocks[j], b)
      modifies this
      ensures Valid() && InsertedAt(old(blocks), blocks, k, b)
      ensures DirtyAfterAdd(old(dirty), dirty, old(blocks), b) && BitsAfterAdd(old(dirty), dirty, oldSize, b)
    {
      var newSize := Max(oldSize, End(b) / TARGET_PAGE_SIZE);
      if newSize > oldSize {
        dirty := DirtyMemoryExtend(dirty, oldSize, newSize);
      }
      ghost var dirty1 := dirty;
      var pos := InsertPosition(blocks, b.maxLength);
      k := pos;
      InsertedOk(blocks, k, b);
      InsertedLast(blocks, k, b, Inserted(blocks, pos, b));
      blocks := Inserted(blocks, pos, b);
      UsedPages(b);
      dirty := SetDirtyAll(dirty, b.offset, b.usedLength, newSize);
      DirtyAdded(old(dirty), dirty1, dirty, old(blocks), b);
      BitsAdded(old(dirty), dirty1, dirty, oldSize, newSize, b);
    }

    /** `qemu_ram_free` of block `k`. */
    method Free(k: nat)
      requires Valid() && k < |blocks|
      modifies this`blocks
      ensures Valid() && blocks == old(blocks)[..k] + old(blocks)[k + 1..]
    {
      RemovedOk(blocks, k, blocks[..k] + blocks[k + 1..]);
      RemovedLast(blocks, k, blocks[..k] + blocks[k + 1..]);
      blocks := blocks[..k] + blocks[k + 1..];
    }
  }

  /** The dirty bits of every existing block are kept; the used pages of the new block are dirty for all clients. */
  ghost predicate DirtyAfterAdd(dirty0: seq<Bitmap>, dirty: seq<Bitmap>, blocks0: seq<RamBlock>, b: RamBlock) {
    && |dirty0| == |dirty| == DIRTY_MEMORY_NUM
    && (forall c, i, page: nat :: 0 <= c < DIRTY_MEMORY_NUM && 0 <= i < |blocks0| && InBlock(blocks0[i], page) ==>
          Bit(dirty[c], page) == Bit(dirty0[c], page))
    && (forall c, page: nat :: 0 <= c < DIRTY_MEMORY_NUM && FirstPage(b.offset) <= page < EndPage(b.offset, b.usedLength) ==>
          Bit(dirty[c], page))
  }

  /** Beyond the bitmap blocks in use before, exactly the used pages of the new block are dirty; in them, these are and the rest is as it was. */
  ghost predicate BitsAfterAdd(dirty0: seq<Bitmap>, dirty: seq<Bitmap>, oldSize: nat, b: RamBlock) {
    && |dirty0| == |dirty| == DIRTY_MEMORY_NUM
    && forall c, page: nat :: 0 <= c < DIRTY_MEMORY_NUM ==>
         (Bit(dirty[c], page) <==>
            (FirstPage(b.offset) <= page < EndPage(b.offset, b.usedLength)
             || (Bit(dirty0[c], page) && (page < LastOf(oldSize) || End(b) / TARGET_PAGE_SIZE <= LastOf(oldSize)))))
  }

  lemma BitsAdded(dirty0: seq<Bitmap>, dirty1: seq<Bitmap>, dirty: seq<Bitmap>, oldSize: nat, newSize: nat, b: RamBlock)
    requires |dirty0| == |dirty1| == |dirty| == DIRTY_MEMORY_NUM && newSize == Max(oldSize, End(b) / TARGET_PAGE_SIZE)
    requires if newSize > oldSize then GrownBits(dirty0, dirty1, oldSize, newSize) else dirty1 == dirty0
    requires forall c :: 0 <= c < DIRTY_MEMORY_NUM ==>
               RangeIs(dirty1[c], dirty[c], FirstPage(b.offset), EndPage(b.offset, b.usedLength), true)
    ensures BitsAfterAdd(dirty0, dirty, oldSize, b)
  {
    Boundary(oldSize, newSize);
    forall c, page: nat | 0 <= c < DIRTY_MEMORY_NUM
      ensures Bit(dirty1[c], page) <==> Bit(dirty0[c], page) && (page < LastOf(oldSize) || newSize <= LastOf(oldSize))
    {
    }
  }

  lemma Boundary(oldSize: nat, newSize: nat)
    requires oldSize <= newSize
    ensures newSize <= LastOf(oldSize) <==> LastOf(newSize) == LastOf(oldSize)
  {
  }

  predicate InBlock(b: RamBlock, page: nat) {
    b.offset <= page * TARGET_PAGE_SIZE < End(b)
  }

  lemma UsedPages(b: RamBlock)
    requires BlockOk(b)
    ensures EndPage(b.offset, b.usedLength) <= End(b) / TARGET_PAGE_SIZE
  {
  }

  /** A page of a block placed elsewhere is no page of `b`. */
  lemma OtherPage(a: RamBlock, b: RamBlock, page: nat)
    requires BlockOk(a) && BlockOk(b) && Apart(a, b) && InBlock(a, page)
    ensures !(FirstPage(b.offset) <= page < EndPage(b.offset, b.usedLength))
    ensures page < End(a) / TARGET_PAGE_SIZE
  {
  }

  lemma DirtyAdded(dirty0: seq<Bitmap>, dirty1: seq<Bitmap>, dirty: seq<Bitmap>, blocks0: seq<RamBlock>, b: RamBlock)
    requires BlocksOk(blocks0) && BlockOk(b) && forall j :: 0 <= j < |blocks0| ==> Apart(blocks0[j], b)
    requires |dirty0| == |dirty1| == |dirty| == DIRTY_MEMORY_NUM
    requires SameBelow(dirty0, dirty1, LastRamOffset(blocks0) / TARGET_PAGE_SIZE)
    requires forall c :: 0 <= c < DIRTY_MEMORY_NUM ==>
               RangeIs(dirty1[c], dirty[c], FirstPage(b.offset), EndPage(b.offset, b.usedLength), true)
    ensures DirtyAfterAdd(dirty0, dirty, blocks0, b)
  {
    forall c, i, page: nat | 0 <= c < DIRTY_MEMORY_NUM && 0 <= i < |blocks0| && InBlock(blocks0[i], page)
      ensures Bit(dirty[c], page) == Bit(dirty0[c], page)
    {
      LastCovers(blocks0, i);
      OtherPage(blocks0[i], b, page);
      assert Bit(dirty1[c], page) == Bit(dirty0[c], page);
    }
  }

  /** `cpu_physical_memory_set_dirty_range` with DIRTY_CLIENTS_ALL. */
  method SetDirtyAll(dirty: seq<Bitmap>, start: nat, length: nat, ramSize: nat) returns (dirty': seq<Bitmap>)
    requires Covers(dirty, ramSize) && EndPage(start, length) <= ramSize
    ensures Covers(dirty', ramSize)
    ensures forall c :: 0 <= c < DIRTY_MEMORY_NUM ==>
              RangeIs(dirty[c], dirty'[c], FirstPage(start), EndPage(start, length), true)
  {
    dirty' := dirty;
    for i := 0 to DIRTY_MEMORY_NUM
      invariant |dirty'| == DIRTY_MEMORY_NUM
      invariant forall c :: 0 <= c < DIRTY_MEMORY_NUM ==> |dirty'[c]| == |dirty[c]|
      invariant forall c :: i <= c < DIRTY_MEMORY_NUM ==> dirty'[c] == dirty[c]
      invariant forall c :: 0 <= c < i ==> RangeIs(dirty[c], dirty'[c], FirstPage(start), EndPage(start, length), true)
    {
      var m := SetDirtyRange(dirty'[i], start, length);
      dirty' := dirty'[i := m];
    }
  }

  datatype RamOp = OpAdd(id: nat, maxLength: nat, usedLength: nat) | OpFree(k: nat)

  datatype Ram = Ram(blocks: seq<RamBlock>, dirty: seq<Bitmap>)

  ghost predicate NoGap(blocks: seq<RamBlock>, length: nat) {
    blocks != [] && forall j :: 0 <= j < |blocks| ==> Gap(blocks, j) < length
  }

  /** The block is placed in the best gap, enters the list at `k`, and its used pages become dirty. */
  ghost predicate AddedAs(m: Ram, m': Ram, b: RamBlock, best: nat, k: nat) {
    && (if m.blocks == [] then b.offset == 0
        else best < |m.blocks| && b.offset == End(m.blocks[best]) && BestFit(m.blocks, b.maxLength, best, |m.blocks|))
    && InsertedAt(m.blocks, m'.blocks, k, b)
    && DirtyAfterAdd(m.dirty, m'.dirty, m.blocks, b) && BitsAfterAdd(m.dirty, m'.dirty, LastRamOffset(m.blocks) / TARGET_PAGE_SIZE, b)
  }

  /** What one operation does; one with arguments no caller may pass does nothing. */
  ghost predicate RamMoves(m: Ram, op: RamOp, m': Ram) {
    match op
    case OpAdd(id, max, used) =>
      if 0 < max <= RAM_ADDR_MAX && max % TARGET_PAGE_SIZE == 0 && used <= max && !NoGap(m.blocks, max)
      then exists offset, best, k :: AddedAs(m, m', RamBlock(id, offset, max, used), best, k)
      else m' == m
    case OpFree(i) =>
      if i < |m.blocks| then m' == m.(blocks := m.blocks[..i] + m.blocks[i + 1..]) else m' == m
  }

  method PerformRam(ram: RamList, op: RamOp)
    requires ram.Valid()
    modifies ram
    ensures ram.Valid() && RamMoves(old(Ram(ram.blocks, ram.dirty)), op, Ram(ram.blocks, ram.dirty))
  {
    match op
    case OpAdd(id, m, u) =>
      if 0 < m <= RAM_ADDR_MAX && m % TARGET_PAGE_SIZE == 0 && u <= m {
        var ok, b, best, k := ram.Add(id, m, u);
        assert ok ==> AddedAs(old(Ram(ram.blocks, ram.dirty)), Ram(ram.blocks, ram.dirty), RamBlock(id, b.offset, m, u), best, k);
      }
    case OpFree(i) =>
      if i < |ram.blocks| { ram.Free(i); }
  }

  /** In each state of a run blocks are apart and sorted, and every block's pages have dirty bits. */
  ghost predicate RamOk(m: Ram) {
    && BlocksOk(m.blocks) && SortedBySize(m.blocks) && |m.dirty| == DIRTY_MEMORY_NUM
    && forall c, i :: 0 <= c < DIRTY_MEMORY_NUM && 0 <= i < |m.blocks| ==> End(m.blocks[i]) / TARGET_PAGE_SIZE <= Capacity(m.dirty[c])
  }

  lemma ValidRam(m: Ram)
    requires BlocksOk(m.blocks) && SortedBySize(m.blocks) && Covers(m.dirty, LastRamOffset(m.blocks) / TARGET_PAGE_SIZE)
    ensures RamOk(m)
  {
    forall c, i | 0 <= c < DIRTY_MEMORY_NUM && 0 <= i < |m.blocks|
      ensures End(m.blocks[i]) / TARGET_PAGE_SIZE <= Capacity(m.dirty[c])
    {
      LastCovers(m.blocks, i);
    }
  }

  /** Any run of additions and removals: each does what it should, and blocks stay apart, sorted and covered by the bitmaps. */
  method DriveRam(ops: seq<RamOp>) returns (run: seq<Ram>)
    ensures Follows(run, ops, RamMoves) && run[0].blocks == [] && Always(run, |run|, RamOk)
  {
    var ram := new RamList();
    run := [Ram(ram.blocks, ram.dirty)];
    ValidRam(run[0]);
    for k := 0 to |ops|
      invariant ram.Valid() && fresh(ram)
      invariant Follows(run, ops[..k], RamMoves) && run[0].blocks == [] && Always(run, k + 1, RamOk)
      invariant run[k] == Ram(ram.blocks, ram.dirty)
    {
      PerformRam(ram, ops[k]);
      var m := Ram(ram.blocks, ram.dirty);
      ValidRam(m);
      assert ops[..k + 1] == ops[..k] + [ops[k]];
      FollowsNext(run, ops[..k], ops[k], m, RamMoves);
      AlwaysNext(run, k + 1, m, RamOk);
      run := run + [m];
    }
    assert ops[..|ops|] == ops;
  }
}
