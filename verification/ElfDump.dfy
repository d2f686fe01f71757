/** The ELF form of the guest dump: program headers point into a stream of guest memory. */
module ElfDump {
  import opened Arithmetic
  import opened FlatFile
  import opened Options

  /** A block of guest physical memory from `start` up to but not including `end`. */
  datatype Block = Block(start: nat, end: nat, host: seq<Byte>)

  /** The range a dump is limited to, if any. */
  datatype Filter = NoFilter | Filter(begin: nat, length: nat)

  predicate BlocksOk(blocks: seq<Block>) {
    && (forall i :: 0 <= i < |blocks| ==> blocks[i].start < blocks[i].end && |blocks[i].host| == blocks[i].end - blocks[i].start)
    && (forall i, j :: 0 <= i < j < |blocks| ==> blocks[i].end <= blocks[j].start)
  }

  predicate Wanted(f: Filter, addr: nat) { f.NoFilter? || f.begin <= addr < f.begin + f.length }

  /** What the guest sees at a physical address. */
  ghost predicate MemoryIs(blocks: seq<Block>, addr: nat, byte: Byte) {
    exists i :: 0 <= i < |blocks| && blocks[i].start <= addr < blocks[i].end
                && addr - blocks[i].start < |blocks[i].host| && blocks[i].host[addr - blocks[i].start] == byte
  }

  ghost predicate InMemory(blocks: seq<Block>, addr: nat) {
    exists i :: 0 <= i < |blocks| && blocks[i].start <= addr < blocks[i].end
  }

  // ------------------------------------------------------------ the stream

  predicate OutOfRange(b: Block, f: Filter) { f.Filter? && (b.start >= f.begin + f.length || b.end <= f.begin) }

  function Lo(b: Block, f: Filter): nat { if f.Filter? then Max(f.begin, b.start) else b.start }

  function Hi(b: Block, f: Filter): nat { if f.Filter? then Min(f.begin + f.length, b.end) else b.end }

  /** The part of a block that the filter lets through. */
  function Part(b: Block, f: Filter): seq<Byte> {
    var from, n := Lo(b, f) - b.start, Hi(b, f) - Lo(b, f);
    if 0 <= from && 0 <= n && from + n <= |b.host| then seq(n, j requires 0 <= j < n => b.host[from + j]) else []
  }

  function Parts(blocks: seq<Block>, f: Filter): (parts: seq<seq<Byte>>)
    ensures |parts| == |blocks| && forall i :: 0 <= i < |blocks| ==> parts[i] == Part(blocks[i], f)
  {
    seq(|blocks|, i requires 0 <= i < |blocks| => Part(blocks[i], f))
  }

  function Flatten(parts: seq<seq<Byte>>): seq<Byte> {
    if parts == [] then [] else Flatten(parts[..|parts| - 1]) + parts[|parts| - 1]
  }

  /** Guest memory in the order the dump stores it. */
  function Stream(blocks: seq<Block>, f: Filter): seq<Byte> { Flatten(Parts(blocks, f)) }

  /** Where the k-th part begins. */
  function PartOffset(parts: seq<seq<Byte>>, k: nat): nat
    requires k <= |parts|
  {
    |Flatten(parts[..k])|
  }

  lemma FlattenStep(parts: seq<seq<Byte>>, k: nat)
    requires k < |parts|
    ensures Flatten(parts[..k + 1]) == Flatten(parts[..k]) + parts[k]
  {
    assert parts[..k + 1][..k] == parts[..k];
  }

  lemma {:induction false} FlattenGrows(parts: seq<seq<Byte>>, k: nat)
    requires k <= |parts|
    ensures Flatten(parts[..k]) <= Flatten(parts)
  {
    var n := |parts| - 1;
    if k <= n {
      FlattenGrows(parts[..n], k);
      assert parts[..n][..k] == parts[..k];
    } else {
      assert parts[..k] == parts;
    }
  }

  /** Where the bytes of a part lie. */
  lemma FlattenByte(parts: seq<seq<Byte>>, k: nat, j: nat)
    requires k < |parts| && j < |parts[k]|
    ensures var at := PartOffset(parts, k); at + j < |Flatten(parts)| && Flatten(parts)[at + j] == parts[k][j]
  {
    FlattenStep(parts, k);
    FlattenGrows(parts, k + 1);
    var at := PartOffset(parts, k);
    assert Flatten(parts[..k + 1])[at + j] == parts[k][j];
  }

  lemma PartSize(b: Block, f: Filter)
    requires b.start < b.end && |b.host| == b.end - b.start
    ensures |Part(b, f)| == if OutOfRange(b, f) then 0 else Hi(b, f) - Lo(b, f)
    ensures !OutOfRange(b, f) ==> Lo(b, f) <= Hi(b, f)
  {
  }

  lemma PartIs(b: Block, f: Filter, start: nat, size: int)
    requires b.start < b.end && |b.host| == b.end - b.start && !OutOfRange(b, f)
    requires b.start + start == Lo(b, f) && b.start + start + size == Hi(b, f)
    ensures 0 <= size && start + size <= |b.host| && Part(b, f) == b.host[start..start + size]
  {
    var lo, hi := Lo(b, f), Hi(b, f);
    assert lo <= hi && lo - b.start == start && hi - b.start == start + size;
  }

  // ------------------------------------------------------------ program headers

  datatype Placement = NotStored | Stored(offset: nat, fileSize: nat)

  /** The bytes are guest memory from `addr` on. */
  ghost predicate IsMemory(bytes: seq<Byte>, blocks: seq<Block>, addr: nat) {
    forall i :: 0 <= i < |bytes| ==> MemoryIs(blocks, addr + i, bytes[i])
  }

  /** The file from `offset` on is guest memory from `addr` on. */
  ghost predicate Shows(file: seq<Byte>, offset: nat, size: nat, blocks: seq<Block>, addr: nat) {
    offset + size <= |file| && IsMemory(file[offset..offset + size], blocks, addr)
  }

  /** The address is in the part of block `k` that is dumped. */
  predicate Dumped(blocks: seq<Block>, f: Filter, k: nat, addr: nat) {
    k < |blocks| && !OutOfRange(blocks[k], f) && Lo(blocks[k], f) <= addr < Hi(blocks[k], f)
  }

  /** What a part has to be: the dumped bytes of block `k`, and nothing else. */
  ghost predicate PartFits(blocks: seq<Block>, f: Filter, part: seq<Byte>, k: nat)
    requires k < |blocks|
  {
    && |part| == (if OutOfRange(blocks[k], f) then 0 else Hi(blocks[k], f) - Lo(blocks[k], f))
    && forall addr: nat :: Dumped(blocks, f, k, addr) ==> IsByte(blocks, addr, part, addr - Lo(blocks[k], f))
  }

  ghost predicate IsByte(blocks: seq<Block>, addr: nat, bytes: seq<Byte>, p: int) {
    0 <= p < |bytes| && MemoryIs(blocks, addr, bytes[p])
  }

  ghost predicate PartsFit(blocks: seq<Block>, f: Filter, parts: seq<seq<Byte>>) {
    |parts| == |blocks| && forall k :: 0 <= k < |blocks| ==> PartFits(blocks, f, parts[k], k)
  }

  lemma PartIsMemory(blocks: seq<Block>, f: Filter, k: nat, addr: nat)
    requires BlocksOk(blocks) && Dumped(blocks, f, k, addr)
    ensures IsByte(blocks, addr, Part(blocks[k], f), addr - Lo(blocks[k], f))
  {
    var b, j := blocks[k], addr - Lo(blocks[k], f);
    PartSize(b, f);
    PartByte(b, f, j);
    assert addr - b.start == Lo(b, f) - b.start + j;
  }

  lemma PartsDoFit(blocks: seq<Block>, f: Filter)
    requires BlocksOk(blocks)
    ensures PartsFit(blocks, f, Parts(blocks, f))
  {
    forall k | 0 <= k < |blocks|
      ensures PartFits(blocks, f, Part(blocks[k], f), k)
    {
      PartSize(blocks[k], f);
      forall addr: nat | Dumped(blocks, f, k, addr)
        ensures IsByte(blocks, addr, Part(blocks[k], f), addr - Lo(blocks[k], f))
      {
        PartIsMemory(blocks, f, k, addr);
      }
    }
  }

  /** What is dumped of a block is what the filter wants of it. */
  lemma DumpedIff(blocks: seq<Block>, f: Filter, k: nat, addr: nat)
    requires BlocksOk(blocks) && k < |blocks|
    ensures Dumped(blocks, f, k, addr) <==> blocks[k].start <= addr < blocks[k].end && (f.Filter? ==> f.begin <= addr < f.begin + f.length)
  {
  }

  /** Byte `j` of a part is the byte of the block behind the `j`-th that is wanted. */
  lemma PartByte(b: Block, f: Filter, j: nat)
    requires b.start < b.end && |b.host| == b.end - b.start && j < |Part(b, f)|
    ensures b.start <= Lo(b, f) && Lo(b, f) + j < b.end && Wanted(f, Lo(b, f) + j)
    ensures Part(b, f)[j] == b.host[Lo(b, f) - b.start + j]
  {
  }

  /** A wanted byte is in its part. */
  lemma PartHas(b: Block, f: Filter, addr: nat)
    requires b.start <= addr < b.end && |b.host| == b.end - b.start && Wanted(f, addr)
    ensures b.start <= Lo(b, f) <= addr && addr - Lo(b, f) < |Part(b, f)|
  {
  }

  /** The stream has every wanted byte of guest memory. */
  lemma StreamHas(blocks: seq<Block>, f: Filter, k: nat, addr: nat) returns (p: nat)
    requires BlocksOk(blocks) && k < |blocks| && blocks[k].start <= addr < blocks[k].end && Wanted(f, addr)
    ensures p < |Stream(blocks, f)| && Stream(blocks, f)[p] == blocks[k].host[addr - blocks[k].start]
    ensures p == PartOffset(Parts(blocks, f), k) + (addr - Lo(blocks[k], f))
  {
    var b := blocks[k];
    PartHas(b, f, addr);
    PartByte(b, f, addr - Lo(b, f));
    assert addr - b.start == Lo(b, f) - b.start + (addr - Lo(b, f));
    p := Place(Parts(blocks, f), k, Part(b, f), addr - Lo(b, f));
  }

  /** The stream has nothing else: each of its bytes is a wanted byte of one block, in the place of that byte. */
  lemma StreamOnly(blocks: seq<Block>, f: Filter, p: nat) returns (k: nat, addr: nat)
    requires BlocksOk(blocks) && p < |Stream(blocks, f)|
    ensures k < |blocks| && blocks[k].start <= addr < blocks[k].end && Wanted(f, addr)
    ensures Stream(blocks, f)[p] == blocks[k].host[addr - blocks[k].start]
    ensures p == PartOffset(Parts(blocks, f), k) + (addr - Lo(blocks[k], f))
  {
    var j;
    k, j := Locate(Parts(blocks, f), p);
    PartByte(blocks[k], f, j);
    addr := Lo(blocks[k], f) + j;
    assert addr - blocks[k].start == Lo(blocks[k], f) - blocks[k].start + j;
  }

  /** The part a position of the stream lies in. */
  lemma {:induction false} PartOf(parts: seq<seq<Byte>>, n: nat, p: nat) returns (k: nat)
    requires n <= |parts| && p < PartOffset(parts, n)
    ensures k < n && PartOffset(parts, k) <= p < PartOffset(parts, k) + |parts[k]|
  {
    k := n - 1;
    FlattenStep(parts, k);
    if p < PartOffset(parts, k) {
      k := PartOf(parts, k, p);
    }
  }

  lemma Place(parts: seq<seq<Byte>>, k: nat, part: seq<Byte>, j: nat) returns (p: nat)
    requires k < |parts| && parts[k] == part && j < |part|
    ensures p == PartOffset(parts, k) + j && p < |Flatten(parts)| && Flatten(parts)[p] == part[j]
  {
    FlattenByte(parts, k, j);
    p := PartOffset(parts, k) + j;
  }

  lemma Locate(parts: seq<seq<Byte>>, p: nat) returns (k: nat, j: nat)
    requires p < |Flatten(parts)|
    ensures k < |parts| && j < |parts[k]| && p == PartOffset(parts, k) + j && Flatten(parts)[p] == parts[k][j]
  {
    assert parts[..|parts|] == parts;
    k := PartOf(parts, |parts|, p);
    j := p - PartOffset(parts, k);
    FlattenByte(parts, k, j);
  }

  lemma ByteShows(file: seq<Byte>, memoryOffset: nat, blocks: seq<Block>, f: Filter, parts: seq<seq<Byte>>, k: nat, addr: nat)
    requires k < |blocks| == |parts| && PartFits(blocks, f, parts[k], k) && Dumped(blocks, f, k, addr)
    requires |file| >= memoryOffset && file[memoryOffset..] == Flatten(parts)
    ensures IsByte(blocks, addr, file, addr - Lo(blocks[k], f) + memoryOffset + PartOffset(parts, k))
  {
    var j := addr - Lo(blocks[k], f);
    assert IsByte(blocks, addr, parts[k], j);
    FlattenByte(parts, k, j);
    FileByte(file, memoryOffset, Flatten(parts), PartOffset(parts, k) + j);
  }

  lemma FileByte(file: seq<Byte>, memoryOffset: nat, stream: seq<Byte>, j: nat)
    requires |file| >= memoryOffset && file[memoryOffset..] == stream && j < |stream|
    ensures memoryOffset + j < |file| && file[memoryOffset + j] == stream[j]
  {
  }

  /** The dumped part of block `k` is in the file from `base` on. */
  ghost predicate BlockShown(file: seq<Byte>, base: nat, blocks: seq<Block>, f: Filter, k: nat)
    requires k < |blocks|
  {
    forall addr: nat :: Dumped(blocks, f, k, addr) ==> IsByte(blocks, addr, file, addr - Lo(blocks[k], f) + base)
  }

  /** The file holds the blocks one after the other, block `k` from `offs[k]` on. */
  ghost predicate LaidOut(file: seq<Byte>, memoryOffset: nat, blocks: seq<Block>, f: Filter, offs: seq<nat>) {
    && |offs| == |blocks| + 1 && offs[0] == memoryOffset
    && (forall k :: 0 <= k < |blocks| ==> BlockShown(file, offs[k], blocks, f, k))
    && (forall k :: 0 <= k < |blocks| ==> NextOffset(offs, k, blocks[k], f))
  }

  predicate NextOffset(offs: seq<nat>, k: nat, b: Block, f: Filter) {
    k + 1 < |offs| && offs[k + 1] == offs[k] + if OutOfRange(b, f) then 0 else Hi(b, f) - Lo(b, f)
  }

  lemma FileLaidOut(file: seq<Byte>, memoryOffset: nat, blocks: seq<Block>, f: Filter) returns (offs: seq<nat>)
    requires BlocksOk(blocks) && |file| >= memoryOffset && file[memoryOffset..] == Stream(blocks, f)
    ensures LaidOut(file, memoryOffset, blocks, f, offs)
  {
    PartsDoFit(blocks, f);
    offs := PartsLaidOut(file, memoryOffset, blocks, f, Parts(blocks, f));
  }

  lemma PartsLaidOut(file: seq<Byte>, memoryOffset: nat, blocks: seq<Block>, f: Filter, parts: seq<seq<Byte>>) returns (offs: seq<nat>)
    requires PartsFit(blocks, f, parts) && |file| >= memoryOffset && file[memoryOffset..] == Flatten(parts)
    ensures LaidOut(file, memoryOffset, blocks, f, offs)
  {
    offs := seq(|blocks| + 1, k requires 0 <= k <= |blocks| => memoryOffset + PartOffset(parts, k));
    forall k | 0 <= k < |blocks|
      ensures BlockShown(file, offs[k], blocks, f, k) && NextOffset(offs, k, blocks[k], f)
    {
      assert PartFits(blocks, f, parts[k], k);
      FlattenStep(parts, k);
      forall addr: nat | Dumped(blocks, f, k, addr)
        ensures IsByte(blocks, addr, file, addr - Lo(blocks[k], f) + offs[k])
      {
        ByteShows(file, memoryOffset, blocks, f, parts, k, addr);
      }
    }
  }

  lemma RangeShows(file: seq<Byte>, base: nat, blocks: seq<Block>, f: Filter, k: nat, addr: nat, size: nat)
    requires Dumped(blocks, f, k, addr) && addr + size <= Hi(blocks[k], f) && BlockShown(file, base, blocks, f, k)
    ensures Shows(file, addr - Lo(blocks[k], f) + base, size, blocks, addr)
  {
    var p := addr - Lo(blocks[k], f) + base;
    assert Dumped(blocks, f, k, if size > 0 then addr + size - 1 else addr);
    var bytes := file[p..p + size];
    forall i | 0 <= i < |bytes|
      ensures MemoryIs(blocks, addr + i, bytes[i])
    {
      assert Dumped(blocks, f, k, addr + i);
      assert IsByte(blocks, addr + i, file, addr + i - Lo(blocks[k], f) + base);
    }
  }

  /** The window the three passes compute for a block that is not out of range. */
  function Window(b: Block, f: Filter): (int, int) {
    if f.NoFilter? then (b.start, b.end - b.start)
    else
      var start := if f.begin <= b.start then b.start else f.begin;
      var size := b.end - start;
      (start, if f.begin + f.length < b.end then size - (b.end - (f.begin + f.length)) else size)
  }

  lemma WindowIs(b: Block, f: Filter)
    requires b.start < b.end && !OutOfRange(b, f)
    ensures Window(b, f).0 == Lo(b, f) && Window(b, f).0 + Window(b, f).1 == Hi(b, f) >= Lo(b, f)
  {
  }

  /** `get_offset_range`: where the memory at an address is in the file, and for how many bytes. */
  method GetOffsetRange(blocks: seq<Block>, f: Filter, memoryOffset: nat, addr: nat, mappingLength: nat, ghost file: seq<Byte>)
    returns (r: Placement)
    requires BlocksOk(blocks) && |file| >= memoryOffset && file[memoryOffset..] == Stream(blocks, f)
    ensures r.NotStored? <==> !(Wanted(f, addr) && InMemory(blocks, addr))
    ensures r.Stored? ==> memoryOffset <= r.offset && r.fileSize <= mappingLength && Shows(file, r.offset, r.fileSize, blocks, addr)
    ensures r.Stored? && r.fileSize < mappingLength ==> EndsBlock(blocks, f, addr, r.fileSize)
  {
    if f.Filter? && (addr < f.begin || addr >= f.begin + f.length) {
      return NotStored;
    }
    ghost var offs := FileLaidOut(file, memoryOffset, blocks, f);
    r := SearchBlocks(blocks, f, memoryOffset, addr, mappingLength, file, offs);
  }

  /** The loop of `get_offset_range`. */
  method SearchBlocks(blocks: seq<Block>, f: Filter, memoryOffset: nat, addr: nat, mappingLength: nat, ghost file: seq<Byte>, ghost offs: seq<nat>)
    returns (r: Placement)
    requires BlocksOk(blocks) && Wanted(f, addr) && LaidOut(file, memoryOffset, blocks, f, offs)
    ensures r.NotStored? <==> !InMemory(blocks, addr)
    ensures r.Stored? ==> memoryOffset <= r.offset && r.fileSize <= mappingLength && Shows(file, r.offset, r.fileSize, blocks, addr)
    ensures r.Stored? && r.fileSize < mappingLength ==> EndsBlock(blocks, f, addr, r.fileSize)
  {
    var offset := memoryOffset;
    for k := 0 to |blocks|
      invariant memoryOffset <= offset == offs[k]
      invariant forall i :: 0 <= i < k ==> !(blocks[i].start <= addr < blocks[i].end)
    {
      assert NextOffset(offs, k, blocks[k], f);
      if !OutOfRange(blocks[k], f) {
        var (start, size) := Window(blocks[k], f);
        WindowIs(blocks[k], f);
        if start <= addr < start + size {
          r := Stored(addr - start + offset, if addr + mappingLength <= start + size then mappingLength else size - (addr - start));
          RangeShows(file, offset, blocks, f, k, addr, r.fileSize);
          return;
        }
        offset := offset + size;
      }
    }
    return NotStored;
  }

  /** The placement stops short only at the end of what was dumped of the block. */
  ghost predicate EndsBlock(blocks: seq<Block>, f: Filter, addr: nat, size: nat) {
    exists i :: 0 <= i < |blocks| && blocks[i].start <= addr < blocks[i].end && addr + size == Hi(blocks[i], f)
  }

  /** `dump_calculate_size`. */
  method DumpCalculateSize(blocks: seq<Block>, f: Filter) returns (total: nat)
    requires BlocksOk(blocks)
    ensures total == |Stream(blocks, f)|
  {
    total := 0;
    ghost var parts := Parts(blocks, f);
    for k := 0 to |blocks|
      invariant total == PartOffset(parts, k)
    {
      var b := blocks[k];
      FlattenStep(parts, k);
      PartSize(b, f);
      var size := b.end - b.start;
      if f.Filter? {
        size := Min(f.begin + f.length, b.end) - Max(f.begin, b.start);
        size := if size > 0 then size else 0;
      }
      total := total + size;
    }
    assert parts[..|blocks|] == parts;
  }

  // ------------------------------------------------------------ what comes before the memory

  const UINT16_MAX: nat := 0xFFFF
  const UINT32: nat := 0x1_0000_0000

  /** A stretch of guest memory a program header describes. */
  datatype Mapping = Mapping(addr: nat, length: nat)

  datatype DumpError = BadBegin | WriteFailed

  /** The bytes of the ELF header, the note header, each load header, the section header and the notes. */
  datatype Encoding = Encoding(header: seq<Byte>, note: seq<Byte>, load: (Mapping, Placement) -> seq<Byte>, section: seq<Byte>, notes: seq<Byte>)

  function EhdrSize(class64: bool): nat { if class64 then 64 else 52 }

  function PhdrSize(class64: bool): nat { if class64 then 56 else 32 }

  function ShdrSize(class64: bool): nat { if class64 then 64 else 40 }

  ghost predicate EncodingOk(enc: Encoding, class64: bool) {
    && |enc.header| == EhdrSize(class64) && |enc.note| == PhdrSize(class64) && |enc.section| == ShdrSize(class64)
    && forall m, r :: |enc.load(m, r)| == PhdrSize(class64)
  }

  /** So many mappings do not fit the 16-bit count of the ELF header; a section header then holds the count. */
  predicate HaveSection(num: nat) { num >= UINT16_MAX - 2 }

  /** Program headers with the note: `phdr_num`, or `sh_info` where there is a section header. */
  function PhdrCount(num: nat): nat
    requires num < UINT32
  {
    if !HaveSection(num) || num <= UINT32 - 2 then 1 + num else UINT32 - 1
  }

  function MemoryOffset(class64: bool, num: nat, noteSize: nat): nat
    requires num < UINT32
  {
    EhdrSize(class64) + PhdrSize(class64) * PhdrCount(num) + (if HaveSection(num) then ShdrSize(class64) else 0) + noteSize
  }

  /** Writes in front of the memory: header, note header, load headers, section header, notes. */
  function PreambleWrites(num: nat): nat
    requires num < UINT32
  {
    2 + (PhdrCount(num) - 1) + (if HaveSection(num) then 1 else 0) + 1
  }

  function Loads(enc: Encoding, mappings: seq<Mapping>, headers: seq<Placement>): seq<Byte>
    requires |headers| <= |mappings|
  {
    var n := |headers| - 1;
    if n < 0 then [] else Loads(enc, mappings, headers[..n]) + enc.load(mappings[n], headers[n])
  }

  lemma LoadsStep(base: seq<Byte>, enc: Encoding, mappings: seq<Mapping>, headers: seq<Placement>, r: Placement)
    requires |headers| < |mappings|
    ensures base + Loads(enc, mappings, headers + [r]) == base + Loads(enc, mappings, headers) + enc.load(mappings[|headers|], r)
  {
    assert (headers + [r])[..|headers|] == headers;
  }

  lemma {:induction false} LoadsSize(enc: Encoding, class64: bool, mappings: seq<Mapping>, headers: seq<Placement>)
    requires EncodingOk(enc, class64) && |headers| <= |mappings|
    ensures |Loads(enc, mappings, headers)| == PhdrSize(class64) * |headers|
  {
    if headers != [] {
      LoadsSize(enc, class64, mappings, headers[..|headers| - 1]);
    }
  }

  function Preamble(enc: Encoding, mappings: seq<Mapping>, headers: seq<Placement>): seq<Byte>
    requires |headers| <= |mappings|
  {
    enc.header + enc.note + Loads(enc, mappings, headers) + (if HaveSection(|mappings|) then enc.section else []) + enc.notes
  }

  /** What `dump_begin` writes is as long as `dump_init` calculated. */
  lemma PreambleSize(enc: Encoding, class64: bool, mappings: seq<Mapping>, headers: seq<Placement>)
    requires EncodingOk(enc, class64) && |headers| <= |mappings| < UINT32 && 1 + |headers| == PhdrCount(|mappings|)
    ensures |Preamble(enc, mappings, headers)| == MemoryOffset(class64, |mappings|, |enc.notes|)
  {
    LoadsSize(enc, class64, mappings, headers);
  }

  lemma WholeSize(enc: Encoding, class64: bool, mappings: seq<Mapping>, headers: seq<Placement>, stream: seq<Byte>)
    requires EncodingOk(enc, class64) && |headers| <= |mappings| < UINT32 && 1 + |headers| == PhdrCount(|mappings|)
    ensures |Preamble(enc, mappings, headers) + stream| == MemoryOffset(class64, |mappings|, |enc.notes|) + |stream|
    ensures |headers| == Min(|mappings|, UINT32 - 2)
  {
    PreambleSize(enc, class64, mappings, headers);
  }

  /** What a program header promises. */
  ghost predicate HeaderRight(file: seq<Byte>, memoryOffset: nat, blocks: seq<Block>, f: Filter, m: Mapping, r: Placement) {
    && (r.NotStored? <==> !(Wanted(f, m.addr) && InMemory(blocks, m.addr)))
    && (r.Stored? ==> memoryOffset <= r.offset && r.fileSize <= m.length && Shows(file, r.offset, r.fileSize, blocks, m.addr))
    && (r.Stored? && r.fileSize < m.length ==> EndsBlock(blocks, f, m.addr, r.fileSize))
  }

  ghost predicate HeadersRight(file: seq<Byte>, memoryOffset: nat, blocks: seq<Block>, f: Filter, mappings: seq<Mapping>, headers: seq<Placement>) {
    |headers| <= |mappings| && forall i :: 0 <= i < |headers| ==> HeaderRight(file, memoryOffset, blocks, f, mappings[i], headers[i])
  }

  lemma HeadersGrow(file: seq<Byte>, memoryOffset: nat, blocks: seq<Block>, f: Filter, mappings: seq<Mapping>, headers: seq<Placement>, r: Placement)
    requires |headers| < |mappings| && HeadersRight(file, memoryOffset, blocks, f, mappings, headers)
    requires HeaderRight(file, memoryOffset, blocks, f, mappings[|headers|], r)
    ensures HeadersRight(file, memoryOffset, blocks, f, mappings, headers + [r])
  {
  }

  // ------------------------------------------------------------ writing the stream

  /** Blocks from `i` up to `j` are all out of range. */
  predicate SkippedFrom(blocks: seq<Block>, f: Filter, i: nat, j: nat) {
    forall k :: i <= k < j && k < |blocks| ==> OutOfRange(blocks[k], f)
  }

  /** Writes that `write_memory` needs: a page at a time, then the rest. */
  function PageWrites(size: nat, pageSize: nat): nat
    requires pageSize > 0
    decreases size
  {
    if size == 0 then 0 else 1 + PageWrites(if size < pageSize then 0 else size - pageSize, pageSize)
  }

  /** The same for all the parts. */
  function MemoryWrites(parts: seq<seq<Byte>>, pageSize: nat): nat
    requires pageSize > 0
  {
    if parts == [] then 0
    else MemoryWrites(parts[..|parts| - 1], pageSize) + PageWrites(|parts[|parts| - 1]|, pageSize)
  }

  lemma WritesStep(parts: seq<seq<Byte>>, k: nat, pageSize: nat)
    requires pageSize > 0 && k < |parts|
    ensures MemoryWrites(parts[..k + 1], pageSize) == MemoryWrites(parts[..k], pageSize) + PageWrites(|parts[k]|, pageSize)
  {
    assert parts[..k + 1][..k] == parts[..k];
  }

  lemma {:induction false} WritesGrow(parts: seq<seq<Byte>>, k: nat, pageSize: nat)
    requires pageSize > 0 && k <= |parts|
    ensures MemoryWrites(parts[..k], pageSize) <= MemoryWrites(parts, pageSize)
  {
    var n := |parts| - 1;
    if k <= n {
      WritesGrow(parts[..n], k, pageSize);
      assert parts[..n][..k] == parts[..k];
    } else {
      assert parts[..k] == parts;
    }
  }

  /** Blocks that are out of range add nothing to the file and take no write. */
  lemma {:induction false} NothingAdded(blocks: seq<Block>, f: Filter, parts: seq<seq<Byte>>, i: nat, j: nat, pageSize: nat)
    requires pageSize > 0 && PartsFit(blocks, f, parts) && i <= j <= |blocks| && SkippedFrom(blocks, f, i, j)
    ensures Flatten(parts[..j]) == Flatten(parts[..i]) && MemoryWrites(parts[..j], pageSize) == MemoryWrites(parts[..i], pageSize)
    decreases j
  {
    if i < j {
      assert PartFits(blocks, f, parts[j - 1], j - 1);
      NothingAdded(blocks, f, parts, i, j - 1, pageSize);
      EmptyAdds(parts, j - 1, pageSize);
    }
  }

  lemma EmptyAdds(parts: seq<seq<Byte>>, k: nat, pageSize: nat)
    requires pageSize > 0 && k < |parts| && |parts[k]| == 0
    ensures Flatten(parts[..k + 1]) == Flatten(parts[..k]) && MemoryWrites(parts[..k + 1], pageSize) == MemoryWrites(parts[..k], pageSize)
  {
    FlattenStep(parts, k);
    WritesStep(parts, k, pageSize);
  }

  class ElfWriter {
    const blocks: seq<Block>
    const filter: Filter
    const pageSize: nat
    var file: seq<Byte>
    var writtenSize: nat
    var room: nat
    var nextBlock: nat
    var start: nat

    constructor (blocks: seq<Block>, filter: Filter, pageSize: nat, room: nat)
      ensures this.blocks == blocks && this.filter == filter && this.pageSize == pageSize
      ensures file == [] && writtenSize == 0 && this.room == room
    {
      this.blocks, this.filter, this.pageSize := blocks, filter, pageSize;
      file, writtenSize, this.room, nextBlock, start := [], 0, room, 0, 0;
    }

    /** The position is a block that is dumped, from the first byte that is. */
    predicate Positioned()
      reads this
    {
      && BlocksOk(blocks) && nextBlock < |blocks| && !OutOfRange(blocks[nextBlock], filter)
      && start == Lo(blocks[nextBlock], filter) - blocks[nextBlock].start
    }

    method FdWrite(data: seq<Byte>) returns (ok: bool)
      modifies this`file, this`room
      ensures ok <==> old(room) > 0
      ensures if ok then file == old(file) + data && room == old(room) - 1 else file == old(file) && room == 0
    {
      ok := room > 0;
      if ok {
        file, room := file + data, room - 1;
      }
    }

    /** `write_data`: memory counts as written, headers do not. */
    method WriteData(data: seq<Byte>) returns (ok: bool)
      modifies this`file, this`writtenSize, this`room
      ensures ok <==> old(room) > 0
      ensures if ok then file == old(file) + data && writtenSize == old(writtenSize) + |data| && room == old(room) - 1
              else file == old(file) && room == 0
    {
      ok := FdWrite(data);
      if ok {
        writtenSize := writtenSize + |data|;
      }
    }

    /** `write_elf64_load` or `write_elf32_load`, with the range it is for. */
    method ElfLoad(enc: Encoding, memoryOffset: nat, m: Mapping, ghost whole: seq<Byte>) returns (ok: bool, r: Placement)
      requires BlocksOk(blocks) && |whole| >= memoryOffset && whole[memoryOffset..] == Stream(blocks, filter)
      modifies this`file, this`room
      ensures HeaderRight(whole, memoryOffset, blocks, filter, m, r)
      ensures ok <==> old(room) > 0
      ensures ok ==> file == old(file) + enc.load(m, r) && room == old(room) - 1
    {
      r := GetOffsetRange(blocks, filter, memoryOffset, m.addr, m.length, whole);
      ok := FdWrite(enc.load(m, r));
    }

    /** The loop of `write_elf_loads`; `whole` is what the memory is going to be, behind `memoryOffset` bytes. */
    method ElfLoads(enc: Encoding, memoryOffset: nat, mappings: seq<Mapping>, ghost whole: seq<Byte>)
      returns (ok: bool, headers: seq<Placement>)
      requires BlocksOk(blocks) && |whole| >= memoryOffset && whole[memoryOffset..] == Stream(blocks, filter)
      requires |mappings| < UINT32
      modifies this`file, this`room
      ensures HeadersRight(whole, memoryOffset, blocks, filter, mappings, headers)
      ensures ok ==> 1 + |headers| == PhdrCount(|mappings|) && file == old(file) + Loads(enc, mappings, headers)
      ensures ok <==> old(room) + 1 >= PhdrCount(|mappings|)
      ensures ok ==> room == old(room) - |headers|
    {
      headers := [];
      var maxIndex := PhdrCount(|mappings|);
      assert 1 <= maxIndex <= 1 + |mappings| && (|mappings| > 0 ==> 1 < maxIndex);
      while |headers| < |mappings|
        invariant 1 + |headers| <= maxIndex && (1 + |headers| < maxIndex || |headers| == |mappings|)
        invariant HeadersRight(whole, memoryOffset, blocks, filter, mappings, headers)
        invariant file == old(file) + Loads(enc, mappings, headers) && room == old(room) - |headers|
      {
        var r;
        ok, r := ElfLoad(enc, memoryOffset, mappings[|headers|], whole);
        if !ok {
          return;
        }
        LoadsStep(old(file), enc, mappings, headers, r);
        HeadersGrow(whole, memoryOffset, blocks, filter, mappings, headers, r);
        headers := headers + [r];
        if 1 + |headers| >= maxIndex {
          break;
        }
      }
      ok := true;
    }

    /** `dump_begin`: everything in front of the memory. */
    method DumpBegin(enc: Encoding, memoryOffset: nat, mappings: seq<Mapping>, ghost whole: seq<Byte>)
      returns (ok: bool, headers: seq<Placement>)
      requires BlocksOk(blocks) && |whole| >= memoryOffset && whole[memoryOffset..] == Stream(blocks, filter)
      requires |mappings| < UINT32 && file == []
      modifies this`file, this`room
      ensures HeadersRight(whole, memoryOffset, blocks, filter, mappings, headers)
      ensures ok ==> 1 + |headers| == PhdrCount(|mappings|) && file == Preamble(enc, mappings, headers)
      ensures ok <==> old(room) >= PreambleWrites(|mappings|)
      ensures ok ==> room == old(room) - PreambleWrites(|mappings|)
    {
      headers := [];
      ok := WriteBoth(enc.header, enc.note);
      if !ok {
        return;
      }
      ok, headers := ElfLoads(enc, memoryOffset, mappings, whole);
      if !ok {
        return;
      }
      if HaveSection(|mappings|) {
        ok := WriteBoth(enc.section, enc.notes);
      } else {
        ok := FdWrite(enc.notes);
      }
    }

    /** Two writes, the second if the first succeeds. */
    method WriteBoth(a: seq<Byte>, b: seq<Byte>) returns (ok: bool)
      modifies this`file, this`room
      ensures ok <==> old(room) >= 2
      ensures ok ==> file == old(file) + a + b && room == old(room) - 2
    {
      ok := FdWrite(a);
      if ok {
        ok := FdWrite(b);
      }
    }

    /** The loop of `write_memory`: whole pages. */
    method WritePages(host: seq<Byte>, from: nat, size: nat) returns (ok: bool, done: nat)
      requires pageSize > 0 && from + size <= |host|
      modifies this`file, this`writtenSize, this`room
      ensures done <= size
      ensures ok ==> size - done == size % pageSize && room <= old(room)
      ensures ok ==> file == old(file) + host[from..from + done] && writtenSize == old(writtenSize) + done
      ensures ok ==> PageWrites(size, pageSize) == old(room) - room + PageWrites(size - done, pageSize)
      ensures !ok ==> old(room) < PageWrites(size, pageSize)
    {
      var i := 0;
      ok, done := true, 0;
      assert host[from..from] == [];
      while i < size / pageSize
        invariant i <= size / pageSize && done == i * pageSize <= size
        invariant file == old(file) + host[from..from + done] && writtenSize == old(writtenSize) + done
        invariant room == old(room) - i && PageWrites(size, pageSize) == i + PageWrites(size - done, pageSize)
      {
        PageFits(i, size, pageSize);
        ok := WriteData(host[from + done..from + done + pageSize]);
        if !ok {
          return;
        }
        Joined(host, from, done, pageSize);
        i, done := i + 1, done + pageSize;
      }
      PagesThenRest(size, pageSize);
      ok := true;
    }

    /** `write_memory`: whole pages, then the rest. */
    method WriteMemory(host: seq<Byte>, from: nat, size: nat) returns (ok: bool)
      requires pageSize > 0 && from + size <= |host|
      modifies this`file, this`writtenSize, this`room
      ensures ok ==> file == old(file) + host[from..from + size] && writtenSize == old(writtenSize) + size
      ensures ok <==> old(room) >= PageWrites(size, pageSize)
      ensures ok ==> room == old(room) - PageWrites(size, pageSize)
    {
      var done;
      ok, done := WritePages(host, from, size);
      if ok && size % pageSize != 0 {
        Joined(host, from, done, size - done);
        ok := WriteData(host[from + done..from + size]);
      }
    }

    /** `get_start_block`. */
    method GetStartBlock() returns (found: bool)
      requires BlocksOk(blocks) && (blocks == [] ==> filter.Filter?)
      modifies this`nextBlock, this`start
      ensures found ==> Positioned() && SkippedFrom(blocks, filter, 0, nextBlock)
      ensures !found ==> SkippedFrom(blocks, filter, 0, |blocks|)
    {
      if filter.NoFilter? {
        nextBlock, start := 0, 0;
        return true;
      }
      for k := 0 to |blocks|
        invariant SkippedFrom(blocks, filter, 0, k)
      {
        if !OutOfRange(blocks[k], filter) {
          nextBlock := k;
          start := if filter.begin > blocks[k].start then filter.begin - blocks[k].start else 0;
          return true;
        }
      }
      return false;
    }

    /** `get_next_block`. */
    method GetNextBlock() returns (more: bool)
      requires BlocksOk(blocks) && nextBlock < |blocks|
      modifies this`nextBlock, this`start
      ensures more ==> Positioned() && old(nextBlock) < nextBlock && SkippedFrom(blocks, filter, old(nextBlock) + 1, nextBlock)
      ensures !more ==> SkippedFrom(blocks, filter, old(nextBlock) + 1, |blocks|)
    {
      var k := nextBlock + 1;
      while k < |blocks|
        invariant old(nextBlock) < k <= |blocks| && SkippedFrom(blocks, filter, old(nextBlock) + 1, k)
      {
        start, nextBlock := 0, k;
        if !OutOfRange(blocks[k], filter) {
          if filter.Filter? && filter.begin > blocks[k].start {
            start := filter.begin - blocks[k].start;
          }
          return true;
        }
        k := k + 1;
      }
      return false;
    }

    /** One round of `dump_iterate`: the block the position is on. */
    method DumpBlock() returns (ok: bool)
      requires Positioned() && pageSize > 0
      modifies this`file, this`writtenSize, this`room
      ensures ok ==> file == old(file) + Part(blocks[nextBlock], filter)
      ensures ok ==> writtenSize == old(writtenSize) + |Part(blocks[nextBlock], filter)|
      ensures ok <==> old(room) >= PageWrites(|Part(blocks[nextBlock], filter)|, pageSize)
      ensures ok ==> room == old(room) - PageWrites(|Part(blocks[nextBlock], filter)|, pageSize)
    {
      var b := blocks[nextBlock];
      var size := b.end - b.start;
      if filter.Filter? {
        size := size - start;
        if filter.begin + filter.length < b.end {
          size := size - (b.end - (filter.begin + filter.length));
        }
      }
      PartIs(b, filter, start, size);
      ok := WriteMemory(b.host, start, size);
    }

    /** The parts of the first `k` blocks have been written after `base`. */
    ghost predicate Emitted(base: seq<Byte>, size: nat, allowed: nat, parts: seq<seq<Byte>>, k: nat)
      reads this
      requires k <= |parts| && pageSize > 0
    {
      && file == base + Flatten(parts[..k]) && writtenSize == size + |Flatten(parts[..k])|
      && room == allowed - MemoryWrites(parts[..k], pageSize)
    }

    /** The block the position is on has been written as well. */
    method EmitBlock(ghost base: seq<Byte>, ghost size: nat, ghost allowed: nat, ghost parts: seq<seq<Byte>>) returns (ok: bool)
      requires Positioned() && pageSize > 0 && |parts| == |blocks| && parts[nextBlock] == Part(blocks[nextBlock], filter)
      requires Emitted(base, size, allowed, parts, nextBlock)
      modifies this`file, this`writtenSize, this`room
      ensures ok ==> Emitted(base, size, allowed, parts, nextBlock + 1)
      ensures !ok ==> allowed < MemoryWrites(parts, pageSize)
    {
      ghost var k := nextBlock;
      FlattenStep(parts, k);
      WritesStep(parts, k, pageSize);
      WritesGrow(parts, k + 1, pageSize);
      ok := DumpBlock();
      assert base + Flatten(parts[..k]) + parts[k] == base + Flatten(parts[..k + 1]);
    }

    /** One round, and the step to the next block. */
    method Round(ghost base: seq<Byte>, ghost size: nat, ghost allowed: nat, ghost parts: seq<seq<Byte>>) returns (ok: bool, more: bool)
      requires Positioned() && pageSize > 0 && PartsFit(blocks, filter, parts) && parts[nextBlock] == Part(blocks[nextBlock], filter)
      requires Emitted(base, size, allowed, parts, nextBlock)
      modifies this
      ensures ok && more ==> Positioned() && old(nextBlock) < nextBlock && Emitted(base, size, allowed, parts, nextBlock)
      ensures ok && !more ==> Emitted(base, size, allowed, parts, |blocks|)
      ensures !ok ==> allowed < MemoryWrites(parts, pageSize)
    {
      more := false;
      ok := EmitBlock(base, size, allowed, parts);
      if !ok {
        return;
      }
      ghost var k := nextBlock + 1;
      more := GetNextBlock();
      NothingAdded(blocks, filter, parts, k, if more then nextBlock else |blocks|, pageSize);
    }

    /** `dump_iterate`: the file grows by the stream. */
    method DumpIterate() returns (ok: bool)
      requires Positioned() && pageSize > 0 && SkippedFrom(blocks, filter, 0, nextBlock)
      modifies this
      ensures ok ==> file == old(file) + Stream(blocks, filter) && writtenSize == old(writtenSize) + |Stream(blocks, filter)|
      ensures ok <==> old(room) >= MemoryWrites(Parts(blocks, filter), pageSize)
    {
      ghost var parts := Parts(blocks, filter);
      PartsDoFit(blocks, filter);
      ok := Iterate(parts);
      assert parts[..|blocks|] == parts;
    }

    method Iterate(ghost parts: seq<seq<Byte>>) returns (ok: bool)
      requires Positioned() && pageSize > 0 && SkippedFrom(blocks, filter, 0, nextBlock) && PartsFit(blocks, filter, parts)
      requires forall k :: 0 <= k < |blocks| ==> parts[k] == Part(blocks[k], filter)
      modifies this
      ensures ok ==> Emitted(old(file), old(writtenSize), old(room), parts, |blocks|)
      ensures !ok ==> old(room) < MemoryWrites(parts, pageSize)
    {
      ghost var base, size, allowed := file, writtenSize, room;
      NothingAdded(blocks, filter, parts, 0, nextBlock, pageSize);
      assert parts[..0] == [];
      var more;
      ok, more := Round(base, size, allowed, parts);
      while ok && more
        invariant ok && more ==> Positioned() && Emitted(base, size, allowed, parts, nextBlock)
        invariant ok && !more ==> Emitted(base, size, allowed, parts, |blocks|)
        invariant !ok ==> allowed < MemoryWrites(parts, pageSize)
        decreases ok && more, |blocks| - nextBlock
      {
        ok, more := Round(base, size, allowed, parts);
      }
    }

    /** `create_vmcore`. */
    method CreateVmcore(class64: bool, enc: Encoding, mappings: seq<Mapping>) returns (ok: bool, headers: seq<Placement>)
      requires Positioned() && pageSize > 0 && SkippedFrom(blocks, filter, 0, nextBlock)
      requires EncodingOk(enc, class64) && |mappings| < UINT32 && file == []
      modifies this
      ensures |headers| <= |mappings|
      ensures ok ==> 1 + |headers| == PhdrCount(|mappings|) && file == Preamble(enc, mappings, headers) + Stream(blocks, filter)
      ensures ok ==> HeadersRight(file, MemoryOffset(class64, |mappings|, |enc.notes|), blocks, filter, mappings, headers)
      ensures ok <==> old(room) >= PreambleWrites(|mappings|) + MemoryWrites(Parts(blocks, filter), pageSize)
    {
      var offset := MemoryOffset(class64, |mappings|, |enc.notes|);
      ghost var whole := seq(offset, i => 0) + Stream(blocks, filter);
      ok, headers := DumpBegin(enc, offset, mappings, whole);
      if !ok {
        return;
      }
      ghost var front := file;
      ok := DumpIterate();
      if ok {
        PreambleSize(enc, class64, mappings, headers);
        HeadersMove(whole, front, offset, blocks, filter, mappings, headers);
      }
    }
  }

  lemma PageFits(i: nat, size: nat, pageSize: nat)
    requires pageSize > 0 && i < size / pageSize
    ensures i * pageSize + pageSize == (i + 1) * pageSize <= size
  {
    MulMono(i + 1, size / pageSize, pageSize);
    assert size == size / pageSize * pageSize + size % pageSize;
    assert (i + 1) * pageSize == i * pageSize + pageSize;
  }

  lemma PagesThenRest(size: nat, pageSize: nat)
    requires pageSize > 0
    ensures size / pageSize * pageSize + size % pageSize == size
  {
  }

  lemma Joined(host: seq<Byte>, from: nat, done: nat, more: nat)
    requires from + done + more <= |host|
    ensures host[from..from + done] + host[from + done..from + done + more] == host[from..from + (done + more)]
  {
  }

  // ------------------------------------------------------------ a whole dump

  /**
   * An ELF dump to an empty file on which `room` writes succeed.  The offsets in the program headers are
   * computed from `memory_offset` before anything is written, and what they say holds of the finished file.
   */
  method DumpElf(blocks: seq<Block>, f: Filter, pageSize: nat, class64: bool, enc: Encoding, mappings: seq<Mapping>, room: nat)
    returns (error: Option<DumpError>, file: seq<Byte>, total: nat, headers: seq<Placement>)
    requires BlocksOk(blocks) && pageSize > 0 && (blocks == [] ==> f.Filter?)
    requires EncodingOk(enc, class64) && |mappings| < UINT32
    ensures error == Some(BadBegin) <==>
              f.Filter? && forall k :: 0 <= k < |blocks| ==> blocks[k].start >= f.begin + f.length || blocks[k].end <= f.begin
    ensures error == Some(WriteFailed) <==>
              && error != Some(BadBegin)
              && room < 3 + Min(|mappings|, 0xFFFF_FFFE) + (if |mappings| >= 65533 then 1 else 0) + MemoryWrites(Parts(blocks, f), pageSize)
    ensures error.None? ==>
              |file| == (if class64 then 64 + 56 * (1 + |headers|) else 52 + 32 * (1 + |headers|))
                        + (if |mappings| < 65533 then 0 else if class64 then 64 else 40) + |enc.notes| + total
    ensures error.None? ==> |headers| == Min(|mappings|, 0xFFFF_FFFE)
    ensures error.None? ==>
              file == enc.header + enc.note + Loads(enc, mappings, headers) + (if |mappings| >= 65533 then enc.section else []) + enc.notes
                      + Stream(blocks, f)
    ensures error.None? ==> var offset := MemoryOffset(class64, |mappings|, |enc.notes|);
                            && file == Preamble(enc, mappings, headers) + Stream(blocks, f) && |file| == offset + total
                            && HeadersRight(file, offset, blocks, f, mappings, headers)
  {
    total := DumpCalculateSize(blocks, f);
    file, headers := [], [];
    var w := new ElfWriter(blocks, f, pageSize, room);
    var found := w.GetStartBlock();
    if !found {
      return Some(BadBegin), file, total, headers;
    }
    assert !OutOfRange(blocks[w.nextBlock], f);
    var ok;
    ok, headers := w.CreateVmcore(class64, enc, mappings);
    file := w.file;
    if ok { WholeSize(enc, class64, mappings, headers, Stream(blocks, f)); }
    error := if ok then None else Some(WriteFailed);
  }

  /** Headers hold of any file that has the memory at the same offset. */
  lemma HeadersMove(whole: seq<Byte>, front: seq<Byte>, offset: nat, blocks: seq<Block>, f: Filter, mappings: seq<Mapping>, headers: seq<Placement>)
    requires |front| == offset <= |whole| && whole[offset..] == Stream(blocks, f)
    requires HeadersRight(whole, offset, blocks, f, mappings, headers)
    ensures HeadersRight(front + Stream(blocks, f), offset, blocks, f, mappings, headers)
  {
    var file := front + Stream(blocks, f);
    assert file[offset..] == whole[offset..];
    forall i | 0 <= i < |headers| && headers[i].Stored?
      ensures Shows(file, headers[i].offset, headers[i].fileSize, blocks, mappings[i].addr)
    {
      assert HeaderRight(whole, offset, blocks, f, mappings[i], headers[i]);
      SliceMoves(whole, file, offset, headers[i].offset, headers[i].offset + headers[i].fileSize);
    }
    forall i | 0 <= i < |headers|
      ensures HeaderRight(file, offset, blocks, f, mappings[i], headers[i])
    {
      assert HeaderRight(whole, offset, blocks, f, mappings[i], headers[i]);
    }
  }

  lemma SliceMoves(whole: seq<Byte>, file: seq<Byte>, offset: nat, lo: nat, hi: nat)
    requires offset <= lo <= hi <= |whole| && offset <= |file| && file[offset..] == whole[offset..]
    ensures hi <= |file| && file[lo..hi] == whole[lo..hi]
  {
    assert |file[offset..]| == |whole[offset..]|;
    forall i | lo <= i < hi
      ensures file[i] == whole[i]
    {
      assert file[i] == file[offset..][i - offset] && whole[i] == whole[offset..][i - offset];
    }
  }
}
