/** Guest physical memory as the dump sees it: sorted blocks, enumerated page by page. */
module PhysPages {
  import opened FlatFile

  type Page = seq<Byte>

  /** A block of whole pages, from page frame `first` up to but not including `last`. */
  datatype Block = Block(first: nat, last: nat, content: seq<Page>)

  predicate BlockOk(b: Block, pageSize: nat) {
    b.first < b.last && |b.content| == b.last - b.first && forall i :: 0 <= i < |b.content| ==> |b.content[i]| == pageSize
  }

  predicate BlocksOk(blocks: seq<Block>, pageSize: nat) {
    && (forall i :: 0 <= i < |blocks| ==> BlockOk(blocks[i], pageSize))
    && (forall i, j :: 0 <= i < j < |blocks| ==> blocks[i].last <= blocks[j].first)
  }

  predicate InBlocks(blocks: seq<Block>, p: nat) {
    exists i :: 0 <= i < |blocks| && blocks[i].first <= p < blocks[i].last
  }

  // ------------------------------------------------------------ the enumeration

  function Count(blocks: seq<Block>): nat {
    if blocks == [] then 0
    else
      var b := blocks[|blocks| - 1];
      Count(blocks[..|blocks| - 1]) + if b.first < b.last then b.last - b.first else 0
  }

  /** The k-th page frame number in block order. */
  function PageAt(blocks: seq<Block>, k: nat): nat
    requires k < Count(blocks)
  {
    var n := |blocks| - 1;
    var before := Count(blocks[..n]);
    if k < before then PageAt(blocks[..n], k) else blocks[n].first + (k - before)
  }

  function ContentAt(blocks: seq<Block>, k: nat): Page
    requires k < Count(blocks)
  {
    var n := |blocks| - 1;
    var before := Count(blocks[..n]);
    if k < before then ContentAt(blocks[..n], k)
    else if k - before < |blocks[n].content| then blocks[n].content[k - before] else []
  }

  lemma Shorter(blocks: seq<Block>, pageSize: nat)
    requires BlocksOk(blocks, pageSize) && blocks != []
    ensures BlocksOk(blocks[..|blocks| - 1], pageSize) && BlockOk(blocks[|blocks| - 1], pageSize)
  {
  }

  lemma {:induction false} ContentSize(blocks: seq<Block>, pageSize: nat, k: nat)
    requires BlocksOk(blocks, pageSize) && k < Count(blocks)
    ensures |ContentAt(blocks, k)| == pageSize
  {
    Shorter(blocks, pageSize);
    if k < Count(blocks[..|blocks| - 1]) {
      ContentSize(blocks[..|blocks| - 1], pageSize, k);
    }
  }

  lemma {:induction false} PageIsInBlocks(blocks: seq<Block>, pageSize: nat, k: nat)
    requires BlocksOk(blocks, pageSize) && k < Count(blocks)
    ensures InBlocks(blocks, PageAt(blocks, k)) && PageAt(blocks, k) < blocks[|blocks| - 1].last
  {
    var n := |blocks| - 1;
    var b := blocks[n];
    Shorter(blocks, pageSize);
    if k < Count(blocks[..n]) {
      PageIsInBlocks(blocks[..n], pageSize, k);
      var i :| 0 <= i < n && blocks[i].first <= PageAt(blocks, k) < blocks[i].last;
      assert blocks[i].last <= b.first;
    }
  }

  /** The enumeration is in increasing order. */
  lemma {:induction false} PagesIncrease(blocks: seq<Block>, pageSize: nat, j: nat, k: nat)
    requires BlocksOk(blocks, pageSize) && j < k < Count(blocks)
    ensures PageAt(blocks, j) < PageAt(blocks, k)
  {
    var n := |blocks| - 1;
    var before := Count(blocks[..n]);
    Shorter(blocks, pageSize);
    if k < before {
      PagesIncrease(blocks[..n], pageSize, j, k);
    } else if j < before {
      PageIsInBlocks(blocks[..n], pageSize, j);
      assert blocks[n - 1].last <= blocks[n].first;
    }
  }

  /** The enumeration misses nothing. */
  lemma {:induction false} EveryPageListed(blocks: seq<Block>, pageSize: nat, p: nat) returns (k: nat)
    requires BlocksOk(blocks, pageSize) && InBlocks(blocks, p)
    ensures k < Count(blocks) && PageAt(blocks, k) == p
  {
    var n := |blocks| - 1;
    var b := blocks[n];
    Shorter(blocks, pageSize);
    if b.first <= p < b.last {
      k := Count(blocks[..n]) + (p - b.first);
    } else {
      var i :| 0 <= i < |blocks| && blocks[i].first <= p < blocks[i].last;
      assert blocks[..n][i] == blocks[i];
      k := EveryPageListed(blocks[..n], pageSize, p);
    }
  }

  // ------------------------------------------------------------ the iterator

  /** The iterator stands on page `pfn` of block `b`, the k-th page. */
  predicate At(blocks: seq<Block>, b: int, pfn: nat, k: nat) {
    0 <= b < |blocks| && blocks[b].first <= pfn < blocks[b].last && k < Count(blocks) && PageAt(blocks, k) == pfn
  }

  lemma {:induction false} AtIsPage(blocks: seq<Block>, pageSize: nat, b: nat, pfn: nat, k: nat)
    requires BlocksOk(blocks, pageSize) && b < |blocks| && blocks[b].first <= pfn < blocks[b].last
    requires k == Count(blocks[..b]) + (pfn - blocks[b].first)
    ensures k < Count(blocks) && PageAt(blocks, k) == pfn
    ensures blocks[b].content[pfn - blocks[b].first] == ContentAt(blocks, k)
  {
    var n := |blocks| - 1;
    Shorter(blocks, pageSize);
    if b < n {
      assert blocks[..n][..b] == blocks[..b];
      AtIsPage(blocks[..n], pageSize, b, pfn, k);
    }
  }

  lemma IndexOf(blocks: seq<Block>, pageSize: nat, b: nat, pfn: nat, k: nat)
    requires BlocksOk(blocks, pageSize) && At(blocks, b, pfn, k)
    ensures k == Count(blocks[..b]) + (pfn - blocks[b].first)
  {
    var i := Count(blocks[..b]) + (pfn - blocks[b].first);
    AtIsPage(blocks, pageSize, b, pfn, i);
    if i < k {
      PagesIncrease(blocks, pageSize, i, k);
    } else if k < i {
      PagesIncrease(blocks, pageSize, k, i);
    }
  }

  lemma CountStep(blocks: seq<Block>, pageSize: nat, b: nat)
    requires BlocksOk(blocks, pageSize) && b < |blocks|
    ensures Count(blocks[..b + 1]) == Count(blocks[..b]) + (blocks[b].last - blocks[b].first)
  {
    assert blocks[..b + 1][..b] == blocks[..b];
    assert BlockOk(blocks[b], pageSize);
  }

  /** Where the iteration is: `block` is -1 before the first page, and `more` is false after the last. */
  datatype Cursor = Cursor(more: bool, block: int, pfn: nat, buf: Page)

  const START: Cursor := Cursor(true, -1, 0, [])

  /** `get_next_page`, which moves the caller's block and page frame number on. */
  function NextPage(blocks: seq<Block>, pageSize: nat, it: Cursor): Cursor
    requires BlocksOk(blocks, pageSize) && blocks != [] && it.block < |blocks|
    requires it.block >= 0 ==> blocks[it.block].first <= it.pfn < blocks[it.block].last
  {
    if it.block < 0 then
      assert BlockOk(blocks[0], pageSize);
      Cursor(true, 0, blocks[0].first, blocks[0].content[0])
    else
      var b, pfn := blocks[it.block], it.pfn + 1;
      assert BlockOk(b, pageSize);
      if b.first <= pfn && pfn + 1 <= b.last then Cursor(true, it.block, pfn, b.content[pfn - b.first])
      else if it.block + 1 == |blocks| then Cursor(false, it.block, it.pfn, it.buf)
      else
        var b' := blocks[it.block + 1];
        assert BlockOk(b', pageSize);
        Cursor(true, it.block + 1, b'.first, b'.content[0])
  }

  /** The cursor has just given the page before `next`. */
  predicate Before(blocks: seq<Block>, it: Cursor, next: nat) {
    if it.block < 0 then next == 0 else next > 0 && At(blocks, it.block, it.pfn, next - 1)
  }

  /** The cursor is on page `next`, or past the end. */
  predicate On(blocks: seq<Block>, it: Cursor, next: nat) {
    && it.more == (next < Count(blocks))
    && (it.more ==> At(blocks, it.block, it.pfn, next) && it.buf == ContentAt(blocks, next))
  }

  predicate CursorOk(blocks: seq<Block>, pageSize: nat, it: Cursor, next: nat) {
    BlocksOk(blocks, pageSize) && blocks != [] && it.block < |blocks| && Before(blocks, it, next)
  }

  lemma FirstOfBlock(blocks: seq<Block>, pageSize: nat, b: nat, k: nat)
    requires BlocksOk(blocks, pageSize) && b < |blocks| && k == Count(blocks[..b])
    ensures BlockOk(blocks[b], pageSize) && At(blocks, b, blocks[b].first, k) && blocks[b].content[0] == ContentAt(blocks, k)
  {
    assert BlockOk(blocks[b], pageSize);
    AtIsPage(blocks, pageSize, b, blocks[b].first, k);
  }

  lemma NextInBlock(blocks: seq<Block>, pageSize: nat, b: nat, pfn: nat, k: nat)
    requires BlocksOk(blocks, pageSize) && At(blocks, b, pfn, k) && pfn + 1 < blocks[b].last
    ensures BlockOk(blocks[b], pageSize) && At(blocks, b, pfn + 1, k + 1)
    ensures blocks[b].content[pfn + 1 - blocks[b].first] == ContentAt(blocks, k + 1)
  {
    IndexOf(blocks, pageSize, b, pfn, k);
    AtIsPage(blocks, pageSize, b, pfn + 1, k + 1);
  }

  lemma EndOfBlock(blocks: seq<Block>, pageSize: nat, b: nat, pfn: nat, k: nat)
    requires BlocksOk(blocks, pageSize) && At(blocks, b, pfn, k) && pfn + 1 == blocks[b].last
    ensures k + 1 == Count(blocks[..b + 1])
  {
    IndexOf(blocks, pageSize, b, pfn, k);
    CountStep(blocks, pageSize, b);
  }

  /** Each call gives the next page of the enumeration. */
  lemma NextPageIs(blocks: seq<Block>, pageSize: nat, it: Cursor, next: nat)
    requires CursorOk(blocks, pageSize, it, next)
    ensures On(blocks, NextPage(blocks, pageSize, it), next)
  {
    var b, it' := it.block, NextPage(blocks, pageSize, it);
    if b < 0 {
      FirstOfBlock(blocks, pageSize, 0, 0);
    } else if it.pfn + 1 < blocks[b].last {
      NextInBlock(blocks, pageSize, b, it.pfn, next - 1);
      assert it' == Cursor(true, b, it.pfn + 1, ContentAt(blocks, next));
    } else {
      EndOfBlock(blocks, pageSize, b, it.pfn, next - 1);
      if b + 1 == |blocks| {
        assert blocks[..b + 1] == blocks;
        assert !it'.more;
      } else {
        FirstOfBlock(blocks, pageSize, b + 1, next);
        assert it' == Cursor(true, b + 1, blocks[b + 1].first, ContentAt(blocks, next));
      }
    }
  }
}
