/** The two page bitmaps of a kdump-compressed dump, streamed through a buffer of one page. */
module KdumpBitmap {
  import opened Arithmetic
  import opened FlatFile
  import opened Options
  import opened PhysPages

  const CHAR_BIT: nat := 8

  // ------------------------------------------------------------ bits of a byte

  predicate BitOf(b: nat, k: nat) { if k == 0 then b % 2 == 1 else BitOf(b / 2, k - 1) }

  /** `b | 1 << k` or `b & ~(1 << k)`. */
  function PutBit(b: nat, k: nat, value: bool): nat {
    if k == 0 then b - b % 2 + (if value then 1 else 0) else 2 * PutBit(b / 2, k - 1, value) + b % 2
  }

  lemma {:induction false} PutBitRange(b: nat, k: nat, value: bool, n: nat)
    requires k < n && b < Pow2(n)
    ensures PutBit(b, k, value) < Pow2(n)
  {
    if k > 0 {
      PutBitRange(b / 2, k - 1, value, n - 1);
    } else {
      assert Pow2(n) % 2 == 0;
    }
  }

  lemma {:induction false} PutBitExact(b: nat, k: nat, value: bool, j: nat)
    ensures BitOf(PutBit(b, k, value), j) == if j == k then value else BitOf(b, j)
  {
    if k > 0 && j > 0 {
      PutBitExact(b / 2, k - 1, value, j - 1);
    }
  }

  lemma ByteRange()
    ensures Pow2(8) == 256
  {
    assert Pow2(4) == 16;
  }

  lemma {:induction false} ZeroByte(k: nat)
    ensures !BitOf(0, k)
  {
    if k > 0 {
      ZeroByte(k - 1);
    }
  }

  // ------------------------------------------------------------ what the bitmap should show

  /** Byte `y` of the bitmap shows the set of page frames. */
  ghost predicate Shows(b: nat, y: nat, bits: set<nat>) {
    forall k :: 0 <= k < CHAR_BIT ==> (BitOf(b, k) <==> y * CHAR_BIT + k in bits)
  }

  ghost predicate ShownAt(log: seq<Record>, at: nat, y: nat, bits: set<nat>) {
    var b := ByteAt(log, at + y);
    b.Some? && Shows(b.value, y, bits)
  }

  /** The first `n` bytes of the bitmap at `at` are in the file. */
  ghost predicate Written(log: seq<Record>, at: nat, n: nat, bits: set<nat>) {
    forall y :: 0 <= y < n ==> ShownAt(log, at, y, bits)
  }

  /** The buffer is the piece of the bitmap that starts at byte `n`. */
  ghost predicate Buffered(buf: seq<Byte>, n: nat, bits: set<nat>) {
    forall j :: 0 <= j < |buf| ==> Shows(buf[j], n + j, bits)
  }

  /** Both bitmaps up to byte `n`, and the buffer from there. */
  ghost predicate Streamed(log: seq<Record>, base: nat, len: nat, buf: seq<Byte>, n: nat, bits: set<nat>) {
    && Written(log, base, n, bits) && Written(log, base + len, n, bits) && Buffered(buf, n, bits)
    && forall p :: p in bits ==> p < (n + |buf|) * CHAR_BIT
  }

  /** The buffer a page's bit belongs to, and the byte of the bitmap where that buffer starts. */
  function BufferOf(pfn: nat, size: nat): nat
    requires size > 0
  {
    pfn / (size * CHAR_BIT)
  }

  function BufferStart(pfn: nat, size: nat): nat
    requires size > 0
  {
    size * BufferOf(pfn, size)
  }

  /** Where a page's bit is: which byte of the bitmap, which byte of the buffer, which bit. */
  lemma PlaceOfBit(pfn: nat, size: nat)
    requires size > 0
    ensures var r := pfn % (size * CHAR_BIT);
            pfn / CHAR_BIT == BufferStart(pfn, size) + r / CHAR_BIT && r / CHAR_BIT < size && r % CHAR_BIT == pfn % CHAR_BIT
  {
    var bits := size * CHAR_BIT;
    var q, r := pfn / bits, pfn % bits;
    assert pfn == bits * q + r;
    var x := size * q;
    assert bits * q == x * CHAR_BIT;
  }

  lemma DivMono(p: nat, q: nat, d: nat)
    requires p <= q && d > 0
    ensures p / d <= q / d
  {
    var a, b := p / d, q / d;
    assert p == a * d + p % d && q == b * d + q % d;
    assert a * d - b * d == (a - b) * d;
    if a > b {
      MulMono(1, a - b, d);
    }
  }

  lemma FlushWritten(log: seq<Record>, log': seq<Record>, at: nat, buf: seq<Byte>, n: nat, bits: set<nat>)
    requires Written(log, at, n, bits) && Buffered(buf, n, bits) && Holds(log', at + n, buf)
    requires forall p: nat :: at <= p < at + n ==> ByteAt(log', p) == ByteAt(log, p)
    ensures Written(log', at, n + |buf|, bits)
  {
    forall y | 0 <= y < n + |buf|
      ensures ShownAt(log', at, y, bits)
    {
      if y < n {
        assert ShownAt(log, at, y, bits);
      } else {
        var j := y - n;
        assert ByteAt(log', at + n + j) == Some(buf[j]) && at + y == at + n + j;
        assert Shows(buf[j], n + j, bits);
      }
    }
  }

  /** Writing the buffer out moves the stream on by one buffer of zeros. */
  lemma FlushStep(log: seq<Record>, log': seq<Record>, base: nat, len: nat, buf: seq<Byte>, zeros: seq<Byte>, n: nat, bits: set<nat>)
    requires Streamed(log, base, len, buf, n, bits) && n + |buf| <= len && |zeros| == |buf|
    requires forall j :: 0 <= j < |zeros| ==> zeros[j] == 0
    requires forall p :: p in bits ==> p < (n + |buf|) * CHAR_BIT
    requires Holds(log', base + n, buf) && Holds(log', base + len + n, buf)
    requires forall p: nat :: p < base + n || base + n + |buf| <= p < base + len + n ==> ByteAt(log', p) == ByteAt(log, p)
    ensures Streamed(log', base, len, zeros, n + |buf|, bits)
  {
    FlushWritten(log, log', base, buf, n, bits);
    FlushWritten(log, log', base + len, buf, n, bits);
    forall j | 0 <= j < |zeros|
      ensures Shows(zeros[j], n + |buf| + j, bits)
    {
      forall k | 0 <= k < CHAR_BIT
        ensures !BitOf(zeros[j], k)
      {
        ZeroByte(k);
      }
    }
  }

  /** Putting one bit of the buffer. */
  lemma PutStep(buf: seq<Byte>, buf': seq<Byte>, n: nat, pfn: nat, value: bool, bits: set<nat>)
    requires Buffered(buf, n, bits) && n <= pfn / CHAR_BIT < n + |buf|
    requires |buf'| == |buf| && buf' == buf[pfn / CHAR_BIT - n := buf'[pfn / CHAR_BIT - n]]
    requires buf'[pfn / CHAR_BIT - n] == PutBit(buf[pfn / CHAR_BIT - n], pfn % CHAR_BIT, value)
    ensures Buffered(buf', n, if value then bits + {pfn} else bits - {pfn})
  {
    var bits' := if value then bits + {pfn} else bits - {pfn};
    forall j | 0 <= j < |buf'|
      ensures Shows(buf'[j], n + j, bits')
    {
      assert Shows(buf[j], n + j, bits);
      forall k | 0 <= k < CHAR_BIT
        ensures BitOf(buf'[j], k) <==> (n + j) * CHAR_BIT + k in bits'
      {
        if j == pfn / CHAR_BIT - n {
          PutBitExact(buf[j], pfn % CHAR_BIT, value, k);
        }
      }
    }
  }

  lemma PutKeepsWritten(log: seq<Record>, at: nat, n: nat, pfn: nat, value: bool, bits: set<nat>)
    requires Written(log, at, n, bits) && n <= pfn / CHAR_BIT
    ensures Written(log, at, n, if value then bits + {pfn} else bits - {pfn})
  {
    var bits' := if value then bits + {pfn} else bits - {pfn};
    forall y | 0 <= y < n
      ensures ShownAt(log, at, y, bits')
    {
      assert ShownAt(log, at, y, bits);
      assert Shows(ByteAt(log, at + y).value, y, bits');
    }
  }

  // ------------------------------------------------------------ the stream

  lemma NextOffset(c: nat, last: nat, size: nat)
    requires c <= last && size > 0
    ensures c < last ==> size * c + size == size * (c + 1) <= size * last
    ensures size * c < size * last ==> c < last
  {
    assert size * (c + 1) == size * c + size;
    if c < last {
      MulMono(c + 1, last, size);
    }
  }

  /** The two writes of one round, to the same place in both bitmaps. */
  method WriteBoth(w: FlatWriter, at: nat, at2: nat, data: seq<Byte>) returns (ok: bool)
    requires at + |data| <= at2
    modifies w
    ensures ok ==> Holds(w.log, at, data) && Holds(w.log, at2, data)
    ensures forall p: nat :: p < at || at + |data| <= p < at2 || at2 + |data| <= p ==> ByteAt(w.log, p) == ByteAt(old(w.log), p)
    ensures !ok ==> w.Full()
  {
    ghost var before := w.log;
    ok := w.WriteBuffer(at, data);
    if ok {
      ghost var between := w.log;
      ok := w.WriteBuffer(at2, data);
      if ok { HoldsKept(between, w.log, at, data, at2, at2 + |data|); }
    }
  }

  method Clear(buf: array<Byte>)
    modifies buf
    ensures forall j :: 0 <= j < buf.Length ==> buf[j] == 0
  {
    forall j | 0 <= j < buf.Length {
      buf[j] := 0;
    }
  }

  /** One round of the loop: the buffer goes to both bitmaps and is cleared. */
  method FlushBuffer(w: FlatWriter, base: nat, len: nat, offset: nat, buf: array<Byte>, ghost bits: set<nat>) returns (ok: bool)
    requires Streamed(w.log, base, len, buf[..], offset, bits) && offset + buf.Length <= len
    modifies w, buf
    ensures OnlyWithin(old(w.log), w.log, base, base + len + len)
    ensures ok ==> Streamed(w.log, base, len, buf[..], offset + buf.Length, bits)
    ensures !ok ==> w.Full()
  {
    ghost var log, data := w.log, buf[..];
    ok := WriteBoth(w, base + offset, base + len + offset, buf[..]);
    if ok {
      Clear(buf);
      FlushStep(log, w.log, base, len, data, buf[..], offset, bits);
    }
  }

  /** Flush until the buffer is the one with index `last`. */
  method FlushUntil(w: FlatWriter, base: nat, len: nat, first: nat, last: nat, buf: array<Byte>, ghost bits: set<nat>) returns (ok: bool)
    requires buf.Length > 0 && first <= last && buf.Length * last <= len
    requires Streamed(w.log, base, len, buf[..], buf.Length * first, bits)
    modifies w, buf
    ensures OnlyWithin(old(w.log), w.log, base, base + len + len)
    ensures ok ==> Streamed(w.log, base, len, buf[..], buf.Length * last, bits)
    ensures !ok ==> w.Full()
  {
    var oldOffset, newOffset := buf.Length * first, buf.Length * last;
    ghost var c := first;
    NextOffset(c, last, buf.Length);
    while oldOffset < newOffset
      invariant c <= last && oldOffset == buf.Length * c && (oldOffset < newOffset ==> c < last) && (c < last ==> oldOffset + buf.Length <= newOffset)
      invariant Streamed(w.log, base, len, buf[..], oldOffset, bits)
      invariant OnlyWithin(old(w.log), w.log, base, base + len + len)
      decreases newOffset - oldOffset
    {
      ghost var log := w.log;
      ok := FlushBuffer(w, base, len, oldOffset, buf, bits);
      WithinTrans(old(w.log), log, w.log, base, base + len + len);
      if !ok {
        return;
      }
      NextOffset(c, last, buf.Length);
      oldOffset := oldOffset + buf.Length;
      c := c + 1;
      NextOffset(c, last, buf.Length);
    }
    ok := true;
  }

  /** Put the bit of page `pfn` in the buffer that starts at byte `n` of the bitmap. */
  method PutInBuffer(buf: array<Byte>, byte: nat, bit: nat, value: bool, ghost n: nat, ghost pfn: nat, ghost bits: set<nat>)
    requires Buffered(buf[..], n, bits) && byte < buf.Length && bit == pfn % CHAR_BIT && n + byte == pfn / CHAR_BIT
    modifies buf
    ensures Buffered(buf[..], n, if value then bits + {pfn} else bits - {pfn})
  {
    ByteRange();
    PutBitRange(buf[byte], bit, value, 8);
    ghost var was := buf[..];
    buf[byte] := PutBit(buf[byte], bit, value);
    PutStep(was, buf[..], n, pfn, value, bits);
  }

  /** `set_dump_bitmap`: flush until the buffer is the one that holds the bit, then put the bit. */
  method SetDumpBitmap(w: FlatWriter, base: nat, len: nat, lastPfn: nat, pfn: nat, value: bool, buf: array<Byte>, ghost bits: set<nat>)
    returns (ok: bool)
    requires buf.Length > 0 && lastPfn <= pfn
    requires BufferStart(pfn, buf.Length) <= len
    requires Streamed(w.log, base, len, buf[..], BufferStart(lastPfn, buf.Length), bits)
    modifies w, buf
    ensures OnlyWithin(old(w.log), w.log, base, base + len + len)
    ensures ok ==> Streamed(w.log, base, len, buf[..], BufferStart(pfn, buf.Length), if value then bits + {pfn} else bits - {pfn})
    ensures !ok ==> w.Full()
  {
    DivMono(lastPfn, pfn, buf.Length * CHAR_BIT);
    ok := FlushUntil(w, base, len, BufferOf(lastPfn, buf.Length), BufferOf(pfn, buf.Length), buf, bits);
    if !ok {
      return;
    }
    PlaceOfBit(pfn, buf.Length);
    var r := pfn % (buf.Length * CHAR_BIT);
    ghost var n := BufferStart(pfn, buf.Length);
    PutInBuffer(buf, r / CHAR_BIT, r % CHAR_BIT, value, n, pfn, bits);
    PutKeepsWritten(w.log, base, n, pfn, value, bits);
    PutKeepsWritten(w.log, base + len, n, pfn, value, bits);
  }

  // ------------------------------------------------------------ layout

  const DISKDUMP_HEADER_BLOCKS: nat := 1
  const UINT32: nat := 0x1_0000_0000

  function MaxMapnr(blocks: seq<Block>): nat
    requires blocks != []
  {
    blocks[|blocks| - 1].last
  }

  /** `len_dump_bitmap` in pages, from `max_mapnr`. */
  function BitmapPages(maxMapnr: nat, size: nat): nat
    requires size > 0
  {
    DivRoundUp(DivRoundUp(maxMapnr, CHAR_BIT), size)
  }

  /** `offset_dump_bitmap` and `offset_page` as `create_header64` computes them, in 32 bits. */
  function OffsetDumpBitmap(subHdrSize: nat, size: nat): nat { (DISKDUMP_HEADER_BLOCKS + subHdrSize) * size % UINT32 }

  function OffsetPage(subHdrSize: nat, bitmapPages: nat, size: nat): nat {
    var bitmapBlocks := bitmapPages * 2 % UINT32;
    (DISKDUMP_HEADER_BLOCKS + subHdrSize + bitmapBlocks) % UINT32 * size % UINT32
  }

  lemma ModMul(a: nat, b: nat)
    ensures a % UINT32 * b % UINT32 == a * b % UINT32
  {
    var q, r := a / UINT32, a % UINT32;
    Distribute(UINT32, q, r, b);
    AddMultiple(r * b, q * b);
  }

  lemma Distribute(m: nat, q: nat, r: nat, b: nat)
    ensures (m * q + r) * b == r * b + m * (q * b)
  {
    assert (m * q + r) * b == m * q * b + r * b;
    assert m * q * b == m * (q * b);
  }

  lemma AddMultiple(x: nat, k: nat)
    ensures (x + UINT32 * k) % UINT32 == x % UINT32
  {
  }

  /** The second bitmap ends where the page section begins exactly while the layout fits 32 bits. */
  lemma LayoutIff(subHdrSize: nat, bitmapPages: nat, size: nat)
    requires size > 0 && (DISKDUMP_HEADER_BLOCKS + subHdrSize) * size < UINT32
    ensures var len := bitmapPages * size;
            OffsetPage(subHdrSize, bitmapPages, size) == OffsetDumpBitmap(subHdrSize, size) + len + len
            <==> (1 + subHdrSize + bitmapPages * 2) * size < 0x1_0000_0000
  {
    var h, len := DISKDUMP_HEADER_BLOCKS + subHdrSize, bitmapPages * size;
    OffsetPageIs(subHdrSize, bitmapPages, size);
    assert (h + bitmapPages * 2) * size == h * size + len + len by {
      Distribute(2, bitmapPages, h, size);
    }
    WrapIff(h * size, len);
  }

  lemma OffsetPageIs(subHdrSize: nat, bitmapPages: nat, size: nat)
    ensures OffsetPage(subHdrSize, bitmapPages, size) == (DISKDUMP_HEADER_BLOCKS + subHdrSize + bitmapPages * 2) * size % UINT32
  {
    var h, b := DISKDUMP_HEADER_BLOCKS + subHdrSize, bitmapPages * 2;
    assert (h + b % UINT32) % UINT32 == (h + b) % UINT32;
    ModMul(h + b, size);
  }

  lemma WrapIff(n: nat, len: nat)
    requires n < UINT32
    ensures (n + len + len) % UINT32 == n % UINT32 + len + len <==> n + len + len < UINT32
  {
  }

  /** 64 TiB of guest memory in pages of 4096 bytes: the page section would begin at the bitmaps. */
  lemma LayoutWraps()
    ensures OffsetPage(1, BitmapPages(0x4_0000_0000, 4096), 4096) == 8192 == OffsetDumpBitmap(1, 4096)
  {
  }

  lemma DivDiv(a: nat, size: nat)
    requires size > 0
    ensures a / CHAR_BIT / size == BufferOf(a, size)
  {
    PlaceOfBit(a, size);
    var q, r := BufferOf(a, size), a % (size * CHAR_BIT) / CHAR_BIT;
    assert a / CHAR_BIT == q * size + r;
    DivModUnique(a / CHAR_BIT, size, q, r);
  }

  lemma DivStep(x: nat, size: nat)
    requires size > 0
    ensures DivRoundUp(x + 1, size) == x / size + 1
  {
    var q := x / size;
    assert x + size == (q + 1) * size + x % size;
    DivModUnique(x + size, size, q + 1, x % size);
  }

  /** The bitmap has as many buffers as it takes to reach the last page. */
  lemma BuffersNeeded(maxMapnr: nat, size: nat)
    requires maxMapnr > 0 && size > 0
    ensures BitmapPages(maxMapnr, size) == BufferOf(maxMapnr - 1, size) + 1
  {
    var a := maxMapnr - 1;
    assert DivRoundUp(maxMapnr, CHAR_BIT) == a / CHAR_BIT + 1;
    DivStep(a / CHAR_BIT, size);
    DivDiv(a, size);
  }

  lemma BufferFits(pfn: nat, maxMapnr: nat, size: nat)
    requires pfn < maxMapnr && size > 0
    ensures BufferStart(pfn, size) + size <= BitmapPages(maxMapnr, size) * size
    ensures pfn == maxMapnr - 1 ==> BufferStart(pfn, size) + size == BitmapPages(maxMapnr, size) * size
  {
    BuffersNeeded(maxMapnr, size);
    DivMono(pfn, maxMapnr - 1, size * CHAR_BIT);
    var q, n := BufferOf(pfn, size), BitmapPages(maxMapnr, size);
    MulMono(q + 1, n, size);
    assert (q + 1) * size == size * q + size;
  }

  lemma NextBuffer(pfn: nat, size: nat)
    requires size > 0
    ensures BufferStart(pfn + size * CHAR_BIT, size) == BufferStart(pfn, size) + size
  {
    var per := size * CHAR_BIT;
    var q := pfn / per;
    assert pfn + per == (q + 1) * per + pfn % per;
    DivModUnique(pfn + per, per, q + 1, pfn % per);
    assert size * (q + 1) == size * q + size;
  }

  // ------------------------------------------------------------ the whole bitmap

  /** The first k pages of the enumeration. */
  ghost function Listed(blocks: seq<Block>, k: nat): set<nat>
    requires k <= Count(blocks)
  {
    if k == 0 then {} else Listed(blocks, k - 1) + {PageAt(blocks, k - 1)}
  }

  lemma {:induction false} ListedExact(blocks: seq<Block>, k: nat, p: nat)
    requires k <= Count(blocks)
    ensures p in Listed(blocks, k) <==> exists j :: 0 <= j < k && PageAt(blocks, j) == p
  {
    if k > 0 {
      ListedExact(blocks, k - 1, p);
      if p in Listed(blocks, k) {
        if p == PageAt(blocks, k - 1) {
          var j := k - 1;
          assert 0 <= j < k && PageAt(blocks, j) == p;
        }
      } else {
        assert p != PageAt(blocks, k - 1);
        forall j | 0 <= j < k
          ensures PageAt(blocks, j) != p
        {
        }
      }
    }
  }

  lemma ListedBelow(blocks: seq<Block>, pageSize: nat, k: nat)
    requires BlocksOk(blocks, pageSize) && 0 < k <= Count(blocks)
    ensures forall p :: p in Listed(blocks, k) ==> p <= PageAt(blocks, k - 1)
  {
    forall p | p in Listed(blocks, k)
      ensures p <= PageAt(blocks, k - 1)
    {
      ListedExact(blocks, k, p);
      var j :| 0 <= j < k && PageAt(blocks, j) == p;
      if j < k - 1 { PagesIncrease(blocks, pageSize, j, k - 1); }
    }
  }

  lemma ListedAll(blocks: seq<Block>, pageSize: nat, p: nat)
    requires BlocksOk(blocks, pageSize)
    ensures p in Listed(blocks, Count(blocks)) <==> InBlocks(blocks, p)
  {
    ListedExact(blocks, Count(blocks), p);
    if InBlocks(blocks, p) {
      var k := EveryPageListed(blocks, pageSize, p);
    } else {
      forall j | 0 <= j < Count(blocks)
        ensures PageAt(blocks, j) != p
      {
        PageIsInBlocks(blocks, pageSize, j);
      }
    }
  }

  lemma LastPage(blocks: seq<Block>, pageSize: nat)
    requires BlocksOk(blocks, pageSize) && blocks != []
    ensures Count(blocks) > 0 && PageAt(blocks, Count(blocks) - 1) == MaxMapnr(blocks) - 1
  {
    assert BlockOk(blocks[|blocks| - 1], pageSize);
  }

  lemma SomePages(blocks: seq<Block>, pageSize: nat)
    requires BlocksOk(blocks, pageSize) && blocks != []
    ensures Count(blocks) > 0
  {
    LastPage(blocks, pageSize);
  }

  /** The bit of page `p` in the bitmap at `at`. */
  predicate PageBit(log: seq<Record>, at: nat, p: nat) {
    var b := ByteAt(log, at + p / 8);
    b.Some? && BitOf(b.value, p % 8)
  }

  /** Two equal bitmaps of `len` bytes, in which the bit of a page is set exactly if the page exists. */
  ghost predicate BitmapsRight(log: seq<Record>, base: nat, len: nat, blocks: seq<Block>) {
    && (forall p: nat :: p < len * 8 ==> (PageBit(log, base, p) <==> InBlocks(blocks, p)))
    && (forall p: nat :: p < len * 8 ==> (PageBit(log, base + len, p) <==> InBlocks(blocks, p)))
    && (forall p: nat :: base <= p < base + len + len ==> ByteAt(log, p).Some?)
  }

  lemma StreamDone(log: seq<Record>, base: nat, len: nat, buf: seq<Byte>, blocks: seq<Block>, pageSize: nat)
    requires BlocksOk(blocks, pageSize) && Streamed(log, base, len, buf, len, Listed(blocks, Count(blocks)))
    ensures BitmapsRight(log, base, len, blocks)
  {
    var bits := Listed(blocks, Count(blocks));
    WrittenBits(log, base, len, bits, blocks, pageSize);
    WrittenBits(log, base + len, len, bits, blocks, pageSize);
    WrittenBytes(log, base, len, bits);
  }

  lemma WrittenBytes(log: seq<Record>, base: nat, len: nat, bits: set<nat>)
    requires Written(log, base, len, bits) && Written(log, base + len, len, bits)
    ensures forall p: nat :: base <= p < base + len + len ==> ByteAt(log, p).Some?
  {
    forall p: nat | base <= p < base + len + len
      ensures ByteAt(log, p).Some?
    {
      if p < base + len {
        assert ShownAt(log, base, p - base, bits);
      } else {
        assert ShownAt(log, base + len, p - base - len, bits);
      }
    }
  }

  lemma WrittenBit(log: seq<Record>, at: nat, len: nat, bits: set<nat>, p: nat)
    requires Written(log, at, len, bits) && p < len * 8
    ensures PageBit(log, at, p) <==> p in bits
  {
    var y, k := p / 8, p % 8;
    assert ShownAt(log, at, y, bits);
    var b := ByteAt(log, at + y).value;
    assert Shows(b, y, bits) && y * CHAR_BIT + k == p;
    assert BitOf(b, k) <==> y * CHAR_BIT + k in bits;
  }

  lemma WrittenBits(log: seq<Record>, at: nat, len: nat, bits: set<nat>, blocks: seq<Block>, pageSize: nat)
    requires BlocksOk(blocks, pageSize) && bits == Listed(blocks, Count(blocks)) && Written(log, at, len, bits)
    ensures forall p: nat :: p < len * 8 ==> (PageBit(log, at, p) <==> InBlocks(blocks, p))
  {
    forall p: nat | p < len * 8
      ensures PageBit(log, at, p) <==> InBlocks(blocks, p)
    {
      WrittenBit(log, at, len, bits, p);
      ListedAll(blocks, pageSize, p);
    }
  }

  lemma StreamBegins(log: seq<Record>, base: nat, len: nat, buf: seq<Byte>)
    requires forall j :: 0 <= j < |buf| ==> buf[j] == 0
    ensures Streamed(log, base, len, buf, 0, {})
  {
    forall j | 0 <= j < |buf|
      ensures Shows(buf[j], 0 + j, {})
    {
      forall k | 0 <= k < CHAR_BIT
        ensures !BitOf(buf[j], k)
      {
        ZeroByte(k);
      }
    }
  }

  /** The last page seen, as the loop keeps it; 0 before the first. */
  function LastSeen(blocks: seq<Block>, k: nat): nat
    requires k <= Count(blocks)
  {
    if k == 0 then 0 else PageAt(blocks, k - 1)
  }

  lemma NextSeen(blocks: seq<Block>, pageSize: nat, k: nat)
    requires BlocksOk(blocks, pageSize) && k < Count(blocks) && pageSize > 0
    ensures LastSeen(blocks, k) <= PageAt(blocks, k)
    ensures BufferStart(PageAt(blocks, k), pageSize) <= BitmapPages(MaxMapnr(blocks), pageSize) * pageSize
  {
    if k > 0 { PagesIncrease(blocks, pageSize, k - 1, k); }
    PageIsInBlocks(blocks, pageSize, k);
    BufferFits(PageAt(blocks, k), MaxMapnr(blocks), pageSize);
  }

  lemma SyncStep(blocks: seq<Block>, size: nat, len: nat)
    requires BlocksOk(blocks, size) && blocks != [] && size > 0 && len == BitmapPages(MaxMapnr(blocks), size) * size
    ensures Count(blocks) > 0
    ensures var last, all := LastSeen(blocks, Count(blocks)), Listed(blocks, Count(blocks));
            BufferStart(last + size * CHAR_BIT, size) == len && all - {last + size * CHAR_BIT} == all
  {
    LastPage(blocks, size);
    var last := LastSeen(blocks, Count(blocks));
    BufferFits(last, MaxMapnr(blocks), size);
    NextBuffer(last, size);
    ListedBelow(blocks, size, Count(blocks));
  }

  /** `write_dump_bitmap`. */
  method WriteDumpBitmap(w: FlatWriter, blocks: seq<Block>, size: nat, base: nat, len: nat) returns (ok: bool, numDumpable: nat)
    requires BlocksOk(blocks, size) && blocks != [] && size > 0 && len == BitmapPages(MaxMapnr(blocks), size) * size
    modifies w
    ensures ok ==> numDumpable == Count(blocks) && BitmapsRight(w.log, base, len, blocks)
    ensures OnlyWithin(old(w.log), w.log, base, base + len + len)
    ensures !ok ==> w.Full()
  {
    var buf := new Byte[size](i => 0);
    StreamBegins(w.log, base, len, buf[..]);
    numDumpable := 0;
    var lastPfn := 0;
    SomePages(blocks, size);
    NextPageIs(blocks, size, START, 0);
    var it := NextPage(blocks, size, START);
    while it.more
      invariant numDumpable <= Count(blocks) && lastPfn == LastSeen(blocks, numDumpable)
      invariant On(blocks, it, numDumpable)
      invariant Streamed(w.log, base, len, buf[..], BufferStart(lastPfn, size), Listed(blocks, numDumpable))
      invariant OnlyWithin(old(w.log), w.log, base, base + len + len)
      decreases Count(blocks) - numDumpable
    {
      ghost var log := w.log;
      ok := SetPageBit(w, blocks, size, base, len, lastPfn, it.pfn, buf, numDumpable);
      WithinTrans(old(w.log), log, w.log, base, base + len + len);
      if !ok {
        return;
      }
      lastPfn := it.pfn;
      numDumpable := numDumpable + 1;
      NextPageIs(blocks, size, it, numDumpable);
      it := NextPage(blocks, size, it);
    }
    if numDumpable > 0 {
      ghost var log := w.log;
      ok := SyncDumpBitmap(w, blocks, size, base, len, lastPfn, buf);
      WithinTrans(old(w.log), log, w.log, base, base + len + len);
    }
  }

  /** One round of the loop in `write_dump_bitmap`. */
  method SetPageBit(w: FlatWriter, ghost blocks: seq<Block>, size: nat, base: nat, len: nat, lastPfn: nat, pfn: nat, buf: array<Byte>, ghost k: nat)
    returns (ok: bool)
    requires BlocksOk(blocks, size) && size > 0 && k < Count(blocks) && len == BitmapPages(MaxMapnr(blocks), size) * size
    requires buf.Length == size && lastPfn == LastSeen(blocks, k) && pfn == PageAt(blocks, k)
    requires Streamed(w.log, base, len, buf[..], BufferStart(lastPfn, size), Listed(blocks, k))
    modifies w, buf
    ensures ok ==> Streamed(w.log, base, len, buf[..], BufferStart(pfn, size), Listed(blocks, k + 1))
    ensures OnlyWithin(old(w.log), w.log, base, base + len + len)
    ensures !ok ==> w.Full()
  {
    NextSeen(blocks, size, k);
    ok := SetDumpBitmap(w, base, len, lastPfn, pfn, true, buf, Listed(blocks, k));
  }

  /** The last call of `write_dump_bitmap`, which only pushes the buffer out. */
  method SyncDumpBitmap(w: FlatWriter, ghost blocks: seq<Block>, size: nat, base: nat, len: nat, lastPfn: nat, buf: array<Byte>) returns (ok: bool)
    requires BlocksOk(blocks, size) && blocks != [] && size > 0 && len == BitmapPages(MaxMapnr(blocks), size) * size
    requires buf.Length == size && lastPfn == LastSeen(blocks, Count(blocks))
    requires Streamed(w.log, base, len, buf[..], BufferStart(lastPfn, size), Listed(blocks, Count(blocks)))
    modifies w, buf
    ensures ok ==> BitmapsRight(w.log, base, len, blocks)
    ensures OnlyWithin(old(w.log), w.log, base, base + len + len)
    ensures !ok ==> w.Full()
  {
    SyncStep(blocks, size, len);
    ok := SetDumpBitmap(w, base, len, lastPfn, lastPfn + size * CHAR_BIT, false, buf, Listed(blocks, Count(blocks)));
    if ok { StreamDone(w.log, base, len, buf[..], blocks, size); }
  }
}
