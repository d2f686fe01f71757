/** The page section of a kdump-compressed dump: a table of descriptors, then the page data. */
module KdumpPages {
  import opened Arithmetic
  import opened FlatFile
  import opened KdumpBitmap
  import opened Options
  import opened PhysPages

  const DESC_SIZE: nat := 24

  // ------------------------------------------------------------ buffered writing

  lemma Drained(log: seq<Record>, log': seq<Record>, start: nat, sent: seq<Byte>, n: nat, offset: nat, data: seq<Byte>)
    requires n <= |sent| && offset == start + n && data == sent[n..] && Holds(log, start, sent[..n])
    requires Holds(log', offset, data) && OnlyWithin(log, log', offset, offset + |data|)
    ensures Holds(log', start, sent) && OnlyWithin(log, log', start, start + |sent|)
  {
    HoldsKept(log, log', start, sent[..n], start + n, start + |sent|);
    HoldsAppend(log', start, sent[..n], sent[n..]);
    assert sent[..n] + sent[n..] == sent;
  }

  /** `DataCache`: a buffer in front of the file.  `sent` is everything handed to it so far. */
  class DataCache {
    const out: FlatWriter
    const buf: array<Byte>
    var dataSize: nat
    var offset: nat
    ghost const start: nat
    ghost var sent: seq<Byte>

    ghost function Flushed(): (n: int)
      reads this
    {
      |sent| - dataSize
    }

    /** The file holds what was flushed and the buffer holds the rest. */
    ghost predicate Valid()
      reads this, buf, out
    {
      && dataSize <= buf.Length && dataSize <= |sent| && offset == start + Flushed()
      && buf[..dataSize] == sent[Flushed()..]
      && Holds(out.log, start, sent[..Flushed()])
    }

    /** `prepare_data_cache`. */
    constructor (out: FlatWriter, offset: nat, size: nat)
      ensures Valid() && fresh(buf) && this.out == out && start == offset && sent == [] && dataSize == 0 && buf.Length == 4 * size
    {
      this.out, this.offset, dataSize := out, offset, 0;
      buf := new Byte[4 * size](i => 0);
      start, sent := offset, [];
    }

    /** `write_cache`: append, or with `sync` push everything out.  The file ends up as if nothing were buffered. */
    method WriteCache(data: seq<Byte>, sync: bool) returns (ok: bool)
      requires Valid() && |data| <= buf.Length
      modifies this, buf, out
      ensures ok ==> Valid() && sent == if sync then old(sent) else old(sent) + data
      ensures ok && sync ==> Holds(out.log, start, sent)
      ensures OnlyWithin(old(out.log), out.log, start, start + |old(sent)|)
      ensures (if sync then old(dataSize) == 0 else old(dataSize) + |data| <= buf.Length) ==> ok && out.log == old(out.log)
      ensures !ok ==> out.Full()
    {
      if (!sync && dataSize + |data| > buf.Length) || (sync && dataSize > 0) {
        ok := Drain();
        if !ok {
          return;
        }
      }
      if !sync {
        Append(data);
      }
      ok := true;
    }

    method Drain() returns (ok: bool)
      requires Valid()
      modifies this, out
      ensures ok ==> Valid() && dataSize == 0 && sent == old(sent) && Holds(out.log, start, sent)
      ensures OnlyWithin(old(out.log), out.log, start, start + |old(sent)|)
      ensures !ok ==> out.Full()
    {
      ghost var log, n := out.log, Flushed();
      var data := buf[..dataSize];
      assert data == sent[n..] && offset == start + n && offset + |data| == start + |sent|;
      ok := out.WriteBuffer(offset, data);
      if ok {
        Drained(log, out.log, start, sent, n, offset, data);
        offset := offset + dataSize;
        dataSize := 0;
        assert sent[..|sent|] == sent && sent[|sent|..] == [] == buf[..0];
      } else {
        assert out.log == log;
      }
    }

    method Append(data: seq<Byte>)
      requires Valid() && dataSize + |data| <= buf.Length
      modifies this, buf
      ensures Valid() && sent == old(sent) + data
    {
      ghost var n, was := Flushed(), buf[..dataSize];
      forall i | 0 <= i < |data| {
        buf[dataSize + i] := data[i];
      }
      dataSize := dataSize + |data|;
      sent := sent + data;
      assert buf[..dataSize] == was + data;
      assert sent[..n] == old(sent)[..n] && sent[n..] == old(sent)[n..] + data;
    }
  }

  // ------------------------------------------------------------ reading the file back

  function ReadRange(log: seq<Record>, at: nat, n: nat): Option<seq<Byte>>
    decreases n, at
  {
    if n == 0 then Some([])
    else
      var front, last := ReadRange(log, at, n - 1), ByteAt(log, at + n - 1);
      if front.Some? && last.Some? then Some(front.value + [last.value]) else None
  }

  lemma {:induction false} ReadHeld(log: seq<Record>, at: nat, data: seq<Byte>)
    requires Holds(log, at, data)
    ensures ReadRange(log, at, |data|) == Some(data)
  {
    if data != [] {
      var n := |data| - 1;
      ReadHeld(log, at, data[..n]);
      assert ByteAt(log, at + n) == Some(data[n]);
      assert data[..n] + [data[n]] == data;
    }
  }

  datatype PageDescriptor = PageDescriptor(offset: nat, size: nat, flags: nat, pageFlags: nat)

  function EncodeDesc(d: PageDescriptor, big: bool): (s: seq<Byte>)
    ensures |s| == DESC_SIZE
  {
    Encode(d.offset, 8, big) + Encode(d.size, 4, big) + Encode(d.flags, 4, big) + Encode(d.pageFlags, 8, big)
  }

  function DecodeDesc(s: seq<Byte>, big: bool): PageDescriptor
    requires |s| == DESC_SIZE
  {
    PageDescriptor(Decode(s[..8], big), Decode(s[8..12], big), Decode(s[12..16], big), Decode(s[16..], big))
  }

  predicate DescFits(d: PageDescriptor) {
    d.offset < Limit(8) && d.size < Limit(4) && d.flags < Limit(4) && d.pageFlags < Limit(8)
  }

  /** A packed descriptor: the offset in bytes 0 to 7, the size in 8 to 11, the flags in 12 to 15, the page flags in 16 to 23. */
  lemma DescLayout(d: PageDescriptor, big: bool, i: nat)
    requires i < 24
    ensures EncodeDesc(d, big)[i] ==
            if i < 8 then d.offset / Limit(if big then 7 - i else i) % 256
            else if i < 12 then d.size / Limit(if big then 11 - i else i - 8) % 256
            else if i < 16 then d.flags / Limit(if big then 15 - i else i - 12) % 256
            else d.pageFlags / Limit(if big then 23 - i else i - 16) % 256
  {
    if i < 8 {
      EncodeByte(d.offset, 8, big, i);
    } else if i < 12 {
      EncodeByte(d.size, 4, big, i - 8);
    } else if i < 16 {
      EncodeByte(d.flags, 4, big, i - 12);
    } else {
      EncodeByte(d.pageFlags, 8, big, i - 16);
    }
  }

  lemma DescRoundTrip(d: PageDescriptor, big: bool)
    requires DescFits(d)
    ensures DecodeDesc(EncodeDesc(d, big), big) == d
  {
    var s := EncodeDesc(d, big);
    assert s[..8] == Encode(d.offset, 8, big) && s[8..12] == Encode(d.size, 4, big);
    assert s[12..16] == Encode(d.flags, 4, big) && s[16..] == Encode(d.pageFlags, 8, big);
    DecodeEncode(d.offset, 8, big);
    DecodeEncode(d.size, 4, big);
    DecodeEncode(d.flags, 4, big);
    DecodeEncode(d.pageFlags, 8, big);
  }

  /** The compression library in use: its flag, and compression that its decompression undoes. */
  datatype Codec = Codec(flag: nat, compress: Page -> Option<seq<Byte>>, decompress: seq<Byte> -> Page)

  ghost predicate CodecOk(c: Codec) {
    0 < c.flag < Limit(4) && forall p :: c.compress(p).Some? ==> c.decompress(c.compress(p).value) == p
  }

  function DecodePage(c: Codec, flags: nat, data: seq<Byte>): Page {
    if flags == 0 then data else c.decompress(data)
  }

  /** What a reader of the dump finds as page `k`. */
  function ReadPage(log: seq<Record>, offsetPage: nat, k: nat, c: Codec, big: bool): Option<Page> {
    match ReadRange(log, offsetPage + DESC_SIZE * k, DESC_SIZE)
    case None => None
    case Some(raw) =>
      if |raw| != DESC_SIZE then None
      else
        var d := DecodeDesc(raw, big);
        match ReadRange(log, d.offset, d.size)
        case None => None
        case Some(data) => Some(DecodePage(c, d.flags, data))
  }

  // ------------------------------------------------------------ the page section

  /** The descriptor leads to data that decodes to the page. */
  ghost predicate Placed(d: PageDescriptor, data: seq<Byte>, start: nat, c: Codec, page: Page) {
    && DescFits(d) && start <= d.offset && d.offset - start + d.size <= |data|
    && DecodePage(c, d.flags, data[d.offset - start..d.offset - start + d.size]) == page
  }

  lemma PlacedGrows(d: PageDescriptor, data: seq<Byte>, more: seq<Byte>, start: nat, c: Codec, page: Page)
    requires Placed(d, data, start, c, page)
    ensures Placed(d, data + more, start, c, page)
  {
    var lo, hi := d.offset - start, d.offset - start + d.size;
    assert (data + more)[lo..hi] == data[lo..hi];
  }

  ghost function DescStream(descs: seq<PageDescriptor>, big: bool): seq<Byte> {
    if descs == [] then [] else DescStream(descs[..|descs| - 1], big) + EncodeDesc(descs[|descs| - 1], big)
  }

  lemma {:induction false} StreamAt(descs: seq<PageDescriptor>, big: bool, k: nat)
    requires k <= |descs|
    ensures |DescStream(descs, big)| == DESC_SIZE * |descs|
    ensures k < |descs| ==> DescStream(descs, big)[DESC_SIZE * k..DESC_SIZE * k + DESC_SIZE] == EncodeDesc(descs[k], big)
  {
    if descs != [] {
      var n := |descs| - 1;
      StreamAt(descs[..n], big, Min(k, n));
      if k < n {
        var front := DescStream(descs[..n], big);
        assert DescStream(descs, big)[..|front|] == front;
        assert DescStream(descs, big)[DESC_SIZE * k..DESC_SIZE * k + DESC_SIZE] == front[DESC_SIZE * k..DESC_SIZE * k + DESC_SIZE];
      }
    }
  }

  lemma StreamGrows(descs: seq<PageDescriptor>, d: PageDescriptor, big: bool)
    ensures DescStream(descs + [d], big) == DescStream(descs, big) + EncodeDesc(d, big)
  {
    assert (descs + [d])[..|descs|] == descs;
  }

  lemma HeldPart(log: seq<Record>, at: nat, data: seq<Byte>, lo: nat, hi: nat)
    requires Holds(log, at, data) && lo <= hi <= |data|
    ensures Holds(log, at + lo, data[lo..hi])
  {
    forall i | 0 <= i < hi - lo
      ensures ByteAt(log, at + lo + i) == Some(data[lo..hi][i])
    {
      assert ByteAt(log, at + (lo + i)) == Some(data[lo + i]);
    }
  }

  /** A reader of the finished file finds the page the k-th descriptor was made for. */
  lemma PageReads(log: seq<Record>, offsetPage: nat, descs: seq<PageDescriptor>, data: seq<Byte>, k: nat, c: Codec, big: bool, page: Page)
    requires k < |descs| && Holds(log, offsetPage, DescStream(descs, big))
    requires Holds(log, offsetPage + DESC_SIZE * |descs|, data)
    requires Placed(descs[k], data, offsetPage + DESC_SIZE * |descs|, c, page)
    ensures ReadPage(log, offsetPage, k, c, big) == Some(page)
  {
    var d, start := descs[k], offsetPage + DESC_SIZE * |descs|;
    DescReads(log, offsetPage, descs, k, big);
    DescRoundTrip(d, big);
    var lo := d.offset - start;
    PartReads(log, start, data, lo, lo + d.size);
    ReaderFollows(log, offsetPage, k, c, big, EncodeDesc(d, big), d, data[lo..lo + d.size], page);
  }

  lemma ReaderFollows(log: seq<Record>, offsetPage: nat, k: nat, c: Codec, big: bool, raw: seq<Byte>, d: PageDescriptor, bytes: seq<Byte>, page: Page)
    requires |raw| == DESC_SIZE && ReadRange(log, offsetPage + DESC_SIZE * k, DESC_SIZE) == Some(raw)
    requires DecodeDesc(raw, big) == d && ReadRange(log, d.offset, d.size) == Some(bytes)
    requires DecodePage(c, d.flags, bytes) == page
    ensures ReadPage(log, offsetPage, k, c, big) == Some(page)
  {
  }

  lemma DescReads(log: seq<Record>, offsetPage: nat, descs: seq<PageDescriptor>, k: nat, big: bool)
    requires k < |descs| && Holds(log, offsetPage, DescStream(descs, big))
    ensures ReadRange(log, offsetPage + DESC_SIZE * k, DESC_SIZE) == Some(EncodeDesc(descs[k], big))
  {
    StreamAt(descs, big, k);
    PartReads(log, offsetPage, DescStream(descs, big), DESC_SIZE * k, DESC_SIZE * k + DESC_SIZE);
  }

  lemma PartReads(log: seq<Record>, at: nat, data: seq<Byte>, lo: nat, hi: nat)
    requires Holds(log, at, data) && lo <= hi <= |data|
    ensures ReadRange(log, at + lo, hi - lo) == Some(data[lo..hi])
  {
    HeldPart(log, at, data, lo, hi);
    ReadHeld(log, at + lo, data[lo..hi]);
  }

  predicate IsZeroPage(page: Page) { forall i :: 0 <= i < |page| ==> page[i] == 0 }

  /** The descriptor cache fills the table of `num` entries; the data cache starts where the table ends. */
  ghost predicate Pair(desc: DataCache, data: DataCache, num: nat)
    reads desc, data, desc.buf, data.buf, desc.out
  {
    && desc.out == data.out && desc != data && desc.buf != data.buf
    && desc.Valid() && data.Valid()
    && desc.start + DESC_SIZE * num == data.start && |desc.sent| <= DESC_SIZE * num
  }

  method AppendDesc(desc: DataCache, data: DataCache, num: nat, bytes: seq<Byte>) returns (ok: bool)
    requires Pair(desc, data, num) && |bytes| <= desc.buf.Length && |desc.sent| + |bytes| <= DESC_SIZE * num
    modifies desc, desc.buf, desc.out
    ensures ok ==> Pair(desc, data, num) && desc.sent == old(desc.sent) + bytes
    ensures forall p: nat :: p < desc.start ==> ByteAt(desc.out.log, p) == ByteAt(old(desc.out.log), p)
    ensures !ok ==> desc.out.Full()
  {
    ghost var log := desc.out.log;
    ok := desc.WriteCache(bytes, false);
    HoldsKept(log, data.out.log, data.start, data.sent[..data.Flushed()], desc.start, desc.start + |old(desc.sent)|);
  }

  method AppendData(desc: DataCache, data: DataCache, num: nat, bytes: seq<Byte>) returns (ok: bool)
    requires Pair(desc, data, num) && |bytes| <= data.buf.Length
    modifies data, data.buf, data.out
    ensures ok ==> Pair(desc, data, num) && data.sent == old(data.sent) + bytes
    ensures forall p: nat :: p < desc.start ==> ByteAt(desc.out.log, p) == ByteAt(old(desc.out.log), p)
    ensures !ok ==> data.out.Full()
  {
    ghost var log := data.out.log;
    ok := data.WriteCache(bytes, false);
    HoldsKept(log, desc.out.log, desc.start, desc.sent[..desc.Flushed()], data.start, data.start + |old(data.sent)|);
  }

  /** What is stored for a page that is not zero: its flag and its bytes. */
  function Stored(c: Codec, page: Page): (nat, seq<Byte>) {
    var z := c.compress(page);
    if z.Some? && |z.value| < |page| then (c.flag, z.value) else (0, page)
  }

  lemma StoredPlaced(c: Codec, page: Page, data: seq<Byte>, start: nat, d: PageDescriptor)
    requires CodecOk(c) && start + |data| < Limit(8) && |page| < Limit(4)
    requires d == PageDescriptor(start + |data|, |Stored(c, page).1|, Stored(c, page).0, 0)
    ensures Placed(d, data + Stored(c, page).1, start, c, page) && |Stored(c, page).1| <= |page|
  {
    var bytes := Stored(c, page).1;
    assert (data + bytes)[|data|..|data| + |bytes|] == bytes;
    assert 0 < Limit(4) && 0 < Limit(8);
  }

  /** One round of the loop in `write_dump_pages`. */
  method DumpPage(desc: DataCache, data: DataCache, num: nat, page: Page, zero: PageDescriptor, offsetData: nat, c: Codec, big: bool)
    returns (ok: bool, offsetData': nat, ghost d: PageDescriptor)
    requires Pair(desc, data, num) && CodecOk(c) && |page| <= data.buf.Length && DESC_SIZE <= desc.buf.Length
    requires |desc.sent| + DESC_SIZE <= DESC_SIZE * num && offsetData == data.start + |data.sent| < Limit(8) && |page| < Limit(4)
    requires IsZeroPage(page) ==> Placed(zero, data.sent, data.start, c, page)
    modifies desc, desc.buf, data, data.buf, desc.out
    ensures forall p: nat :: p < desc.start ==> ByteAt(desc.out.log, p) == ByteAt(old(desc.out.log), p)
    ensures ok ==> Pair(desc, data, num) && desc.sent == old(desc.sent) + EncodeDesc(d, big)
    ensures ok ==> Placed(d, data.sent, data.start, c, page) && old(data.sent) <= data.sent
    ensures ok ==> offsetData' == data.start + |data.sent| <= offsetData + |page|
    ensures ok && IsZeroPage(page) ==> d == zero && data.sent == old(data.sent)
    ensures ok && !IsZeroPage(page) ==>
              && d.offset == offsetData && d.size == |data.sent| - |old(data.sent)| && d.pageFlags == 0
              && (if c.compress(page).Some? && |c.compress(page).value| < |page|
                  then d.flags == c.flag && data.sent == old(data.sent) + c.compress(page).value
                  else d.flags == 0 && data.sent == old(data.sent) + page)
    ensures !ok ==> desc.out.Full()
  {
    offsetData' := offsetData;
    if IsZeroPage(page) {
      d := zero;
      ok := AppendDesc(desc, data, num, EncodeDesc(zero, big));
    } else {
      var (flags, bytes) := Stored(c, page);
      var pd := PageDescriptor(offsetData, |bytes|, flags, 0);
      d := pd;
      StoredPlaced(c, page, data.sent, data.start, pd);
      ok := AppendData(desc, data, num, bytes);
      if !ok {
        return;
      }
      offsetData' := offsetData + |bytes|;
      ok := AppendDesc(desc, data, num, EncodeDesc(pd, big));
    }
  }

  /** Every page so far has a descriptor that leads to it. */
  ghost predicate AllPlaced(descs: seq<PageDescriptor>, data: seq<Byte>, start: nat, c: Codec, blocks: seq<Block>)
    requires |descs| <= Count(blocks)
  {
    forall i :: 0 <= i < |descs| ==> Placed(descs[i], data, start, c, ContentAt(blocks, i))
  }

  lemma AllPlacedGrows(descs: seq<PageDescriptor>, d: PageDescriptor, data: seq<Byte>, data': seq<Byte>, start: nat, c: Codec, blocks: seq<Block>)
    requires |descs| < Count(blocks) && AllPlaced(descs, data, start, c, blocks) && data <= data'
    requires Placed(d, data', start, c, ContentAt(blocks, |descs|))
    ensures AllPlaced(descs + [d], data', start, c, blocks)
  {
    forall i | 0 <= i < |descs + [d]|
      ensures Placed((descs + [d])[i], data', start, c, ContentAt(blocks, i))
    {
      if i < |descs| {
        assert data' == data + data'[|data|..];
        PlacedGrows(descs[i], data, data'[|data|..], start, c, ContentAt(blocks, i));
      }
    }
  }

  /** The shared zero page. */
  lemma ZeroPlaced(size: nat, start: nat, c: Codec, data: seq<Byte>)
    requires size <= |data| && size < Limit(4) && start < Limit(8) && forall i :: 0 <= i < size ==> data[i] == 0
    ensures forall page: Page :: |page| == size && IsZeroPage(page) ==> Placed(PageDescriptor(start, size, 0, 0), data, start, c, page)
  {
    forall page: Page | |page| == size && IsZeroPage(page)
      ensures Placed(PageDescriptor(start, size, 0, 0), data, start, c, page)
    {
      assert data[0..size] == page;
      assert 0 < Limit(4) && 0 < Limit(8);
    }
  }

  /** The two final flushes. */
  method SyncBoth(desc: DataCache, data: DataCache, num: nat) returns (ok: bool)
    requires Pair(desc, data, num)
    modifies desc, desc.buf, data, data.buf, desc.out
    ensures forall p: nat :: p < desc.start ==> ByteAt(desc.out.log, p) == ByteAt(old(desc.out.log), p)
    ensures ok ==> Holds(desc.out.log, desc.start, old(desc.sent)) && Holds(desc.out.log, data.start, old(data.sent))
    ensures !ok ==> desc.out.Full()
  {
    ghost var log0 := desc.out.log;
    ok := desc.WriteCache([], true);
    if ok {
      HoldsKept(log0, desc.out.log, data.start, data.sent[..data.Flushed()], desc.start, desc.start + |old(desc.sent)|);
      ghost var log1 := desc.out.log;
      ok := data.WriteCache([], true);
      HoldsKept(log1, desc.out.log, desc.start, desc.sent, data.start, data.start + |old(data.sent)|);
    }
  }

  lemma RoomLeft(k: nat, num: nat, size: nat)
    requires k < num
    ensures size * (k + 1) <= size * (num + 1) && size * (k + 1) + size == size * (k + 2)
  {
    MulMono(k + 1, num + 1, size);
  }

  /** The page that all zero pages share comes first. */
  method WriteZeroPage(desc: DataCache, data: DataCache, ghost blocks: seq<Block>, size: nat, num: nat, ghost c: Codec, ghost big: bool) returns (ok: bool)
    requires Pair(desc, data, num) && desc.sent == [] && data.sent == [] && num == Count(blocks) && size <= data.buf.Length
    modifies data, data.buf, data.out
    ensures ok ==> Progress(desc, data, [], blocks, size, num, data.start + size, c, big)
    ensures forall p: nat :: p < desc.start ==> ByteAt(desc.out.log, p) == ByteAt(old(desc.out.log), p)
    ensures !ok ==> data.out.Full()
  {
    ok := AppendData(desc, data, num, seq(size, i => 0));
  }

  /** `write_dump_pages`: the file then gives back every page of guest memory. */
  method WriteDumpPages(w: FlatWriter, blocks: seq<Block>, size: nat, offsetPage: nat, num: nat, c: Codec, big: bool) returns (ok: bool)
    requires BlocksOk(blocks, size) && blocks != [] && num == Count(blocks) && CodecOk(c)
    requires DESC_SIZE <= 4 * size && size < Limit(4) && offsetPage + DESC_SIZE * num + size * (num + 1) < Limit(8)
    modifies w
    ensures ok ==> forall k: nat :: k < num ==> ReadPage(w.log, offsetPage, k, c, big) == Some(ContentAt(blocks, k))
    ensures forall p: nat :: p < offsetPage ==> ByteAt(w.log, p) == ByteAt(old(w.log), p)
    ensures !ok ==> w.Full()
  {
    var offsetData := offsetPage + DESC_SIZE * num;
    var desc := new DataCache(w, offsetPage, size);
    var data := new DataCache(w, offsetData, size);
    var zero := PageDescriptor(offsetData, size, 0, 0);
    ok := WriteZeroPage(desc, data, blocks, size, num, c, big);
    if !ok {
      return;
    }
    ok := DumpAll(desc, data, blocks, size, num, zero, c, big);
  }

  /** Between two rounds of the loop: a descriptor per page so far, and the zero page in front of the data. */
  ghost predicate Progress(desc: DataCache, data: DataCache, descs: seq<PageDescriptor>, blocks: seq<Block>, size: nat, num: nat,
                           offsetData: nat, c: Codec, big: bool)
    reads desc, data, desc.buf, data.buf, desc.out
  {
    && Pair(desc, data, num) && |descs| <= num == Count(blocks) && offsetData == data.start + |data.sent|
    && SoFar(descs, desc.sent, data.sent, data.start, blocks, size, c, big)
  }

  ghost predicate SoFar(descs: seq<PageDescriptor>, table: seq<Byte>, bytes: seq<Byte>, start: nat, blocks: seq<Block>, size: nat, c: Codec, big: bool) {
    && |descs| <= Count(blocks)
    && table == DescStream(descs, big) && AllPlaced(descs, bytes, start, c, blocks)
    && size <= |bytes| <= size * (|descs| + 1)
    && (forall i :: 0 <= i < size ==> bytes[i] == 0)
  }

  lemma SoFarNext(descs: seq<PageDescriptor>, table: seq<Byte>, bytes: seq<Byte>, start: nat, blocks: seq<Block>, size: nat, c: Codec, big: bool,
                  d: PageDescriptor, bytes': seq<Byte>)
    requires SoFar(descs, table, bytes, start, blocks, size, c, big) && |descs| < Count(blocks) && bytes <= bytes' && |bytes'| <= |bytes| + size
    requires Placed(d, bytes', start, c, ContentAt(blocks, |descs|))
    ensures SoFar(descs + [d], table + EncodeDesc(d, big), bytes', start, blocks, size, c, big)
  {
    RoomLeft(|descs|, Count(blocks), size);
    StreamGrows(descs, d, big);
    AllPlacedGrows(descs, d, bytes, bytes', start, c, blocks);
  }

  lemma BytesFit(descs: seq<PageDescriptor>, table: seq<Byte>, bytes: seq<Byte>, start: nat, blocks: seq<Block>, size: nat, c: Codec, big: bool, num: nat)
    requires SoFar(descs, table, bytes, start, blocks, size, c, big) && |descs| < num
    ensures |table| == DESC_SIZE * |descs| && |bytes| <= size * (num + 1)
  {
    RoomLeft(|descs|, num, size);
    StreamAt(descs, big, 0);
  }

  lemma ZeroKnown(bytes: seq<Byte>, start: nat, blocks: seq<Block>, size: nat, c: Codec, k: nat)
    requires BlocksOk(blocks, size) && k < Count(blocks) && size <= |bytes| && size < Limit(4) && start < Limit(8)
    requires forall i :: 0 <= i < size ==> bytes[i] == 0
    ensures var page := ContentAt(blocks, k);
            |page| == size && (IsZeroPage(page) ==> Placed(PageDescriptor(start, size, 0, 0), bytes, start, c, page))
  {
    ContentSize(blocks, size, k);
    ZeroPlaced(size, start, c, bytes);
  }

  /** What does not change during the loop. */
  ghost predicate Setting(desc: DataCache, data: DataCache, blocks: seq<Block>, size: nat, num: nat, zero: PageDescriptor, c: Codec) {
    && desc.buf.Length == data.buf.Length == 4 * size && DESC_SIZE <= 4 * size && size < Limit(4)
    && BlocksOk(blocks, size) && blocks != [] && num == Count(blocks) && CodecOk(c)
    && desc.start + DESC_SIZE * num + size * (num + 1) < Limit(8) && zero == PageDescriptor(data.start, size, 0, 0)
  }

  method DumpNext(desc: DataCache, data: DataCache, ghost descs: seq<PageDescriptor>, ghost blocks: seq<Block>, size: nat, num: nat,
                  zero: PageDescriptor, offsetData: nat, c: Codec, big: bool, page: Page)
    returns (ok: bool, offsetData': nat, ghost d: PageDescriptor)
    requires Progress(desc, data, descs, blocks, size, num, offsetData, c, big) && Setting(desc, data, blocks, size, num, zero, c)
    requires |descs| < num && page == ContentAt(blocks, |descs|)
    modifies desc, desc.buf, data, data.buf, desc.out
    ensures forall p: nat :: p < desc.start ==> ByteAt(desc.out.log, p) == ByteAt(old(desc.out.log), p)
    ensures ok ==> Progress(desc, data, descs + [d], blocks, size, num, offsetData', c, big)
    ensures !ok ==> desc.out.Full()
  {
    ghost var table, bytes := desc.sent, data.sent;
    BytesFit(descs, table, bytes, data.start, blocks, size, c, big, num);
    ZeroKnown(bytes, data.start, blocks, size, c, |descs|);
    ok, offsetData', d := DumpPage(desc, data, num, page, zero, offsetData, c, big);
    if ok { SoFarNext(descs, table, bytes, data.start, blocks, size, c, big, d, data.sent); }
  }

  lemma AllRead(log: seq<Record>, offsetPage: nat, descs: seq<PageDescriptor>, data: seq<Byte>, blocks: seq<Block>, c: Codec, big: bool)
    requires |descs| == Count(blocks) && Holds(log, offsetPage, DescStream(descs, big))
    requires Holds(log, offsetPage + DESC_SIZE * |descs|, data)
    requires AllPlaced(descs, data, offsetPage + DESC_SIZE * |descs|, c, blocks)
    ensures forall k: nat :: k < Count(blocks) ==> ReadPage(log, offsetPage, k, c, big) == Some(ContentAt(blocks, k))
  {
    forall k: nat | k < Count(blocks)
      ensures ReadPage(log, offsetPage, k, c, big) == Some(ContentAt(blocks, k))
    {
      PageReads(log, offsetPage, descs, data, k, c, big, ContentAt(blocks, k));
    }
  }

  /** The loop of `write_dump_pages` and the final flushes. */
  method DumpAll(desc: DataCache, data: DataCache, blocks: seq<Block>, size: nat, num: nat, zero: PageDescriptor, c: Codec, big: bool)
    returns (ok: bool)
    requires Setting(desc, data, blocks, size, num, zero, c) && Progress(desc, data, [], blocks, size, num, zero.offset + size, c, big)
    modifies desc, desc.buf, data, data.buf, desc.out
    ensures ok ==> forall k: nat :: k < num ==> ReadPage(desc.out.log, desc.start, k, c, big) == Some(ContentAt(blocks, k))
    ensures forall p: nat :: p < desc.start ==> ByteAt(desc.out.log, p) == ByteAt(old(desc.out.log), p)
    ensures !ok ==> desc.out.Full()
  {
    ghost var descs: seq<PageDescriptor> := [];
    ghost var d := zero;
    var offsetData: nat := zero.offset + size;
    NextPageIs(blocks, size, START, 0);
    var it := NextPage(blocks, size, START);
    while it.more
      invariant Progress(desc, data, descs, blocks, size, num, offsetData, c, big) && On(blocks, it, |descs|)
      invariant forall p: nat :: p < desc.start ==> ByteAt(desc.out.log, p) == ByteAt(old(desc.out.log), p)
      decreases num - |descs|
    {
      ok, offsetData, d := DumpNext(desc, data, descs, blocks, size, num, zero, offsetData, c, big, it.buf);
      if !ok {
        return;
      }
      descs := descs + [d];
      NextPageIs(blocks, size, it, |descs|);
      it := NextPage(blocks, size, it);
    }
    ok := FinishPages(desc, data, descs, blocks, size, num, offsetData, c, big);
  }

  method FinishPages(desc: DataCache, data: DataCache, ghost descs: seq<PageDescriptor>, ghost blocks: seq<Block>, size: nat, num: nat,
                     offsetData: nat, c: Codec, big: bool)
    returns (ok: bool)
    requires Progress(desc, data, descs, blocks, size, num, offsetData, c, big) && |descs| == num
    modifies desc, desc.buf, data, data.buf, desc.out
    ensures ok ==> forall k: nat :: k < num ==> ReadPage(desc.out.log, desc.start, k, c, big) == Some(ContentAt(blocks, k))
    ensures forall p: nat :: p < desc.start ==> ByteAt(desc.out.log, p) == ByteAt(old(desc.out.log), p)
    ensures !ok ==> desc.out.Full()
  {
    ghost var bytes := data.sent;
    ok := SyncBoth(desc, data, num);
    if ok { AllRead(desc.out.log, desc.start, descs, bytes, blocks, c, big); }
  }

  // ------------------------------------------------------------ the whole dump

  function SubHdrSize(subHeader: seq<Byte>, notes: seq<Byte>, size: nat): nat
    requires size > 0
  {
    DivRoundUp(|subHeader| + |notes|, size)
  }

  /** The layout up to the page section does not wrap in 32 bits. */
  predicate LayoutFits(subHdrSize: nat, blocks: seq<Block>, size: nat)
    requires size > 0 && blocks != []
  {
    (1 + subHdrSize + BitmapPages(MaxMapnr(blocks), size) * 2) * size < 0x1_0000_0000
  }

  /** The page section fits a file with 64-bit offsets. */
  predicate FileFits(blocks: seq<Block>, size: nat) {
    var n := Count(blocks);
    UINT32 + DESC_SIZE * n + size * (n + 1) < Limit(8)
  }

  lemma FittingLayout(subHdrSize: nat, blocks: seq<Block>, size: nat)
    requires size > 0 && blocks != []
    ensures var pages := BitmapPages(MaxMapnr(blocks), size);
            OffsetPage(subHdrSize, pages, size) < UINT32
    ensures var pages := BitmapPages(MaxMapnr(blocks), size);
            LayoutFits(subHdrSize, blocks, size) ==>
              OffsetPage(subHdrSize, pages, size) == OffsetDumpBitmap(subHdrSize, size) + pages * size + pages * size
  {
    var h, pages := DISKDUMP_HEADER_BLOCKS + subHdrSize, BitmapPages(MaxMapnr(blocks), size);
    if LayoutFits(subHdrSize, blocks, size) {
      MulMono(h, h + pages * 2, size);
      LayoutIff(subHdrSize, pages, size);
    }
  }

  /** The header is in the first block, the sub header begins the second, and the notes follow it. */
  ghost predicate HeadersHeld(log: seq<Record>, size: nat, header: seq<Byte>, subHeader: seq<Byte>, notes: seq<Byte>) {
    && (|header| <= size ==> Holds(log, 0, header))
    && Holds(log, size, subHeader) && Holds(log, size + |subHeader|, notes)
  }

  /** The bitmaps begin at the first block behind the notes. */
  lemma NotesEnd(subHeader: seq<Byte>, notes: seq<Byte>, blocks: seq<Block>, size: nat)
    requires size > 0 && blocks != [] && LayoutFits(SubHdrSize(subHeader, notes, size), blocks, size)
    ensures var end, base := size + |subHeader| + |notes|, OffsetDumpBitmap(SubHdrSize(subHeader, notes, size), size);
            base % size == 0 && end <= base < end + size
  {
    var n, sub := |subHeader| + |notes|, SubHdrSize(subHeader, notes, size);
    var a := n + size - 1;
    assert a == sub * size + a % size;
    MulMono(1 + sub, 1 + sub + BitmapPages(MaxMapnr(blocks), size) * 2, size);
    assert (1 + sub) * size == size + sub * size;
    DivModUnique((1 + sub) * size, size, 1 + sub, 0);
  }

  lemma HeadersKept(log: seq<Record>, log': seq<Record>, size: nat, header: seq<Byte>, subHeader: seq<Byte>, notes: seq<Byte>, upto: nat)
    requires HeadersHeld(log, size, header, subHeader, notes) && size + |subHeader| + |notes| <= upto
    requires forall p: nat :: p < upto ==> ByteAt(log', p) == ByteAt(log, p)
    ensures HeadersHeld(log', size, header, subHeader, notes)
  {
  }

  /**
   * `create_kdump_vmcore`: headers, bitmaps, pages.  If every write succeeds, the k-th page reads back
   * as its contents, and while the layout fits 32 bits both bitmaps show exactly the pages that exist
   * and the headers are where they were written.
   */
  method CreateKdumpVmcore(w: FlatWriter, blocks: seq<Block>, size: nat, header: seq<Byte>, subHeader: seq<Byte>, notes: seq<Byte>, c: Codec, big: bool)
    returns (ok: bool)
    requires BlocksOk(blocks, size) && blocks != [] && CodecOk(c) && DESC_SIZE <= 4 * size && size < Limit(4)
    requires FileFits(blocks, size)
    modifies w
    ensures ok && LayoutFits(SubHdrSize(subHeader, notes, size), blocks, size) ==>
              var sub, pages := SubHdrSize(subHeader, notes, size), BitmapPages(MaxMapnr(blocks), size);
              BitmapsRight(w.log, OffsetDumpBitmap(sub, size), pages * size, blocks) && HeadersHeld(w.log, size, header, subHeader, notes)
    ensures ok ==> var sub, pages := SubHdrSize(subHeader, notes, size), BitmapPages(MaxMapnr(blocks), size);
                   forall k: nat :: k < Count(blocks) ==>
                     ReadPage(w.log, OffsetPage(sub, pages, size), k, c, big) == Some(ContentAt(blocks, k))
    ensures !ok ==> w.Full()
  {
    var sub, pages := SubHdrSize(subHeader, notes, size), BitmapPages(MaxMapnr(blocks), size);
    ok := WriteHeaders(w, size, header, subHeader, notes);
    if !ok {
      return;
    }
    ghost var headed := w.log;
    FittingLayout(sub, blocks, size);
    var base, len, offsetPage := OffsetDumpBitmap(sub, size), pages * size, OffsetPage(sub, pages, size);
    var num;
    ok, num := WriteDumpBitmap(w, blocks, size, base, len);
    if !ok {
      return;
    }
    ghost var log := w.log;
    ok := WriteDumpPages(w, blocks, size, offsetPage, num, c, big);
    if LayoutFits(sub, blocks, size) {
      BitmapsKept(log, w.log, base, len, blocks);
      NotesEnd(subHeader, notes, blocks, size);
      HeadersKept(headed, log, size, header, subHeader, notes, base);
      HeadersKept(log, w.log, size, header, subHeader, notes, base);
    }
  }

  lemma BitmapsKept(log: seq<Record>, log': seq<Record>, base: nat, len: nat, blocks: seq<Block>)
    requires BitmapsRight(log, base, len, blocks)
    requires forall p: nat :: p < base + len + len ==> ByteAt(log', p) == ByteAt(log, p)
    ensures BitmapsRight(log', base, len, blocks)
  {
    forall p: nat | p < len * 8
      ensures PageBit(log', base, p) == PageBit(log, base, p) && PageBit(log', base + len, p) == PageBit(log, base + len, p)
    {
    }
  }

  /** The three writes of `create_header64`; what is in them is left to the caller. */
  method WriteHeaders(w: FlatWriter, size: nat, header: seq<Byte>, subHeader: seq<Byte>, notes: seq<Byte>) returns (ok: bool)
    modifies w
    ensures ok ==> HeadersHeld(w.log, size, header, subHeader, notes)
    ensures !ok ==> w.Full()
  {
    ok := w.WriteBuffer(0, header);
    if ok {
      ok := w.WriteBuffer(DISKDUMP_HEADER_BLOCKS * size, subHeader);
    }
    if ok {
      ok := w.WriteBuffer(DISKDUMP_HEADER_BLOCKS * size + |subHeader|, notes);
    }
  }

  /** A dump to an empty file on which `room` writes succeed, and what a reader makes of it. */
  method DumpGuest(blocks: seq<Block>, size: nat, header: seq<Byte>, subHeader: seq<Byte>, notes: seq<Byte>, c: Codec, big: bool, room: nat)
    returns (ok: bool, log: seq<Record>)
    requires BlocksOk(blocks, size) && blocks != [] && CodecOk(c) && DESC_SIZE <= 4 * size && size < Limit(4)
    requires FileFits(blocks, size)
    ensures ok && LayoutFits(SubHdrSize(subHeader, notes, size), blocks, size) ==>
              var sub, pages := SubHdrSize(subHeader, notes, size), BitmapPages(MaxMapnr(blocks), size);
              BitmapsRight(log, OffsetDumpBitmap(sub, size), pages * size, blocks) && HeadersHeld(log, size, header, subHeader, notes)
    ensures ok ==> var sub, pages := SubHdrSize(subHeader, notes, size), BitmapPages(MaxMapnr(blocks), size);
                   forall k: nat :: k < Count(blocks) ==>
                     ReadPage(log, OffsetPage(sub, pages, size), k, c, big) == Some(ContentAt(blocks, k))
    ensures !ok ==> |log| == room
  {
    var w := new FlatWriter(room);
    ok := CreateKdumpVmcore(w, blocks, size, header, subHeader, notes, c, big);
    log := w.log;
  }
}
