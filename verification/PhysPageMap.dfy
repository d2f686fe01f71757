/**
 The multi-level physical page map of qemu/exec.c: a radix tree whose bottom entries hold
 section numbers, filled by `phys_page_set`, path-compressed by `phys_page_compact` and
 searched by `phys_page_find`.

 A tree is a sequence of nodes.  An entry at height `i` decides the low `i` base-512 digits
 of a page index: it is a leaf (skip 0) that holds a section number, or it points `skip`
 levels down to a node, or it points nowhere (NIL).
 */
module PhysMap {
  import opened Arithmetic

  const P_L2_SIZE: nat := 512
  const PHYS_MAP_NODE_NIL: nat := 0x3FF_FFFF
  const PHYS_SECTION_UNASSIGNED: nat := 0

  datatype PhysPageEntry = PhysPageEntry(skip: nat, ptr: nat)

  type Node = s: seq<PhysPageEntry> | |s| == P_L2_SIZE
    witness seq(P_L2_SIZE, i => PhysPageEntry(0, 0))

  /** Pages below an entry at height `i`: 512 to the power `i`. */
  function Span(i: nat): (r: nat)
    ensures r >= 1
  {
    if i == 0 then 1 else P_L2_SIZE * Span(i - 1)
  }

  /** A page index without its low `i` digits. */
  function Top(index: nat, i: nat): nat {
    if i == 0 then index else Top(index, i - 1) / P_L2_SIZE
  }

  /** The digit of a page index that selects a slot in a node at `level`. */
  function Digit(index: nat, level: nat): (j: nat)
    ensures j < P_L2_SIZE
  {
    Top(index, level) % P_L2_SIZE
  }

  /** The section number that the search loop of `phys_page_find` ends on. */
  function Walk(nodes: seq<Node>, e: PhysPageEntry, i: nat, index: nat): (s: nat)
    decreases i
  {
    if e.skip == 0 || i < e.skip then e.ptr
    else if e.ptr == PHYS_MAP_NODE_NIL || e.ptr >= |nodes| then PHYS_SECTION_UNASSIGNED
    else Walk(nodes, nodes[e.ptr][Digit(index, i - e.skip)], i - e.skip, index)
  }

  // ---------------------------------------------------------------- digits

  /** The first page whose index, without its low `i` digits, is `k`. */
  function Lo(k: nat, i: nat): nat {
    k * Span(i)
  }

  /** Slot `j` of a node starts `j` slots after the node. */
  lemma LoOfSlot(k: nat, j: nat, level: nat)
    ensures Lo(P_L2_SIZE * k + j, level) == Lo(k, level + 1) + j * Span(level)
  {
  }

  lemma {:induction false} TopRange(q: nat, i: nat)
    ensures Lo(Top(q, i), i) <= q < Lo(Top(q, i), i) + Span(i)
  {
    if i > 0 {
      TopRange(q, i - 1);
      var t := Top(q, i - 1);
      LoOfSlot(t / P_L2_SIZE, t % P_L2_SIZE, i - 1);
      MulMono(t % P_L2_SIZE + 1, P_L2_SIZE, Span(i - 1));
      assert (t % P_L2_SIZE + 1) * Span(i - 1) == t % P_L2_SIZE * Span(i - 1) + Span(i - 1);
    }
  }

  lemma TopUnique(q: nat, i: nat, k: nat)
    requires Lo(k, i) <= q < Lo(k, i) + Span(i)
    ensures Top(q, i) == k
  {
    TopRange(q, i);
    DivModUnique(q, Span(i), k, q - Lo(k, i));
    DivModUnique(q, Span(i), Top(q, i), q - Lo(Top(q, i), i));
  }

  // ------------------------------------------------- shape of a tree being built

  /** Where a node sits: it holds the pages that are `key` without their low `level + 1` digits. */
  datatype Shape = Shape(level: nat, key: nat)

  /** An entry at height `i` for the pages with key `k`, before any compaction. */
  ghost predicate EntryOk(e: PhysPageEntry, i: nat, k: nat, shape: seq<Shape>) {
    && e.skip <= 1
    && (e.skip == 0 ==> e.ptr < PHYS_MAP_NODE_NIL && (i > 0 ==> e.ptr != PHYS_SECTION_UNASSIGNED))
    && (e.skip == 1 ==>
          && i >= 1
          && (e.ptr != PHYS_MAP_NODE_NIL ==> e.ptr < |shape| && shape[e.ptr] == Shape(i - 1, k)))
  }

  ghost predicate SlotOk(nodes: seq<Node>, shape: seq<Shape>, n: nat, j: nat)
    requires n < |nodes| == |shape| && j < P_L2_SIZE
  {
    EntryOk(nodes[n][j], shape[n].level, P_L2_SIZE * shape[n].key + j, shape)
  }

  ghost predicate TreeOk(nodes: seq<Node>, shape: seq<Shape>) {
    && |nodes| == |shape| < PHYS_MAP_NODE_NIL
    && (forall n, j :: 0 <= n < |nodes| && 0 <= j < P_L2_SIZE ==> SlotOk(nodes, shape, n, j))
  }

  /** A non-leaf entry with a node. */
  ghost predicate Inner(e: PhysPageEntry, i: nat, k: nat, shape: seq<Shape>) {
    EntryOk(e, i, k, shape) && e.skip == 1 && e.ptr != PHYS_MAP_NODE_NIL
  }

  /** Every entry finds what it found before, except on the pages from `lo` to `hi`. */
  ghost predicate Unchanged(nodes0: seq<Node>, shape: seq<Shape>, nodes1: seq<Node>, lo: nat, hi: nat) {
    forall e, i: nat, q: nat {:trigger EntryOk(e, i, Top(q, i), shape), Walk(nodes1, e, i, q)} ::
      EntryOk(e, i, Top(q, i), shape) && !(lo <= q < hi) ==> Walk(nodes1, e, i, q) == Walk(nodes0, e, i, q)
  }

  /** Adding a node changes no search. */
  lemma {:induction false} WalkAppend(nodes: seq<Node>, shape: seq<Shape>, x: Node, e: PhysPageEntry, i: nat, q: nat)
    requires TreeOk(nodes, shape) && EntryOk(e, i, Top(q, i), shape)
    ensures Walk(nodes + [x], e, i, q) == Walk(nodes, e, i, q)
    decreases i
  {
    if e.skip == 1 && e.ptr != PHYS_MAP_NODE_NIL {
      assert SlotOk(nodes, shape, e.ptr, Digit(q, i - 1));
      WalkAppend(nodes, shape, x, nodes[e.ptr][Digit(q, i - 1)], i - 1, q);
    }
  }

  /** A search from height `i` reads nodes below level `i` only. */
  lemma {:induction false} WalkLow(nodes: seq<Node>, shape: seq<Shape>, n: nat, x: Node, e: PhysPageEntry, i: nat, q: nat)
    requires TreeOk(nodes, shape) && EntryOk(e, i, Top(q, i), shape)
    requires n < |nodes| && i <= shape[n].level
    ensures Walk(nodes[n := x], e, i, q) == Walk(nodes, e, i, q)
    decreases i
  {
    if e.skip == 1 && e.ptr != PHYS_MAP_NODE_NIL {
      assert SlotOk(nodes, shape, e.ptr, Digit(q, i - 1));
      WalkLow(nodes, shape, n, x, nodes[e.ptr][Digit(q, i - 1)], i - 1, q);
    }
  }

  /** `e'` may stand in slot `j` of node `n`, and finds the same there outside [lo, hi). */
  ghost predicate SlotSame(nodes: seq<Node>, shape: seq<Shape>, n: nat, j: nat, e': PhysPageEntry, lo: nat, hi: nat)
    requires n < |nodes| == |shape| && j < P_L2_SIZE
  {
    var l := shape[n].level;
    && EntryOk(e', l, P_L2_SIZE * shape[n].key + j, shape)
    && forall p: nat :: Top(p, l) == P_L2_SIZE * shape[n].key + j && !(lo <= p < hi) ==>
         Walk(nodes, e', l, p) == Walk(nodes, nodes[n][j], l, p)
  }

  /** Replacing one slot by an entry that finds the same outside [lo, hi). */
  lemma {:induction false} WalkSlot(nodes: seq<Node>, shape: seq<Shape>, n: nat, j: nat, e': PhysPageEntry,
                                    lo: nat, hi: nat, e: PhysPageEntry, i: nat, q: nat)
    requires TreeOk(nodes, shape) && EntryOk(e, i, Top(q, i), shape)
    requires n < |nodes| && j < P_L2_SIZE && !(lo <= q < hi)
    requires SlotSame(nodes, shape, n, j, e', lo, hi)
    ensures Walk(nodes[n := nodes[n][j := e']], e, i, q) == Walk(nodes, e, i, q)
    decreases i
  {
    if e.skip == 1 && e.ptr != PHYS_MAP_NODE_NIL {
      var k := Digit(q, i - 1);
      assert SlotOk(nodes, shape, e.ptr, k);
      if e.ptr == n && k == j {
        WalkLow(nodes, shape, n, nodes[n][j := e'], e', i - 1, q);
      } else {
        WalkSlot(nodes, shape, n, j, e', lo, hi, nodes[e.ptr][k], i - 1, q);
      }
    }
  }

  lemma AppendUnchanged(nodes: seq<Node>, shape: seq<Shape>, x: Node)
    requires TreeOk(nodes, shape)
    ensures Unchanged(nodes, shape, nodes + [x], 0, 0)
  {
    forall e, i: nat, q: nat | EntryOk(e, i, Top(q, i), shape)
      ensures Walk(nodes + [x], e, i, q) == Walk(nodes, e, i, q)
    {
      WalkAppend(nodes, shape, x, e, i, q);
    }
  }

  lemma SlotUnchanged(nodes: seq<Node>, shape: seq<Shape>, n: nat, j: nat, e': PhysPageEntry, lo: nat, hi: nat)
    requires TreeOk(nodes, shape)
    requires n < |nodes| && j < P_L2_SIZE
    requires SlotSame(nodes, shape, n, j, e', lo, hi)
    ensures Unchanged(nodes, shape, nodes[n := nodes[n][j := e']], lo, hi)
    ensures TreeOk(nodes[n := nodes[n][j := e']], shape)
  {
    var nodes' := nodes[n := nodes[n][j := e']];
    forall e, i: nat, q: nat | EntryOk(e, i, Top(q, i), shape) && !(lo <= q < hi)
      ensures Walk(nodes', e, i, q) == Walk(nodes, e, i, q)
    {
      WalkSlot(nodes, shape, n, j, e', lo, hi, e, i, q);
    }
    forall m, k | 0 <= m < |nodes'| && 0 <= k < P_L2_SIZE
      ensures SlotOk(nodes', shape, m, k)
    {
      assert SlotOk(nodes, shape, m, k);
    }
  }

  /** Chaining two steps that each leave the pages outside [lo, hi) alone. */
  lemma UnchangedTrans(n0: seq<Node>, s0: seq<Shape>, n1: seq<Node>, s1: seq<Shape>, n2: seq<Node>,
                       lo: nat, mid: nat, hi: nat)
    requires Unchanged(n0, s0, n1, lo, mid) && Unchanged(n1, s1, n2, mid, hi)
    requires s0 <= s1 && lo <= mid <= hi
    ensures Unchanged(n0, s0, n2, lo, hi)
  {
    forall e, i: nat, q: nat | EntryOk(e, i, Top(q, i), s0) && !(lo <= q < hi)
      ensures Walk(n2, e, i, q) == Walk(n0, e, i, q)
    {
      assert EntryOk(e, i, Top(q, i), s1);
      assert Walk(n1, e, i, q) == Walk(n0, e, i, q);
    }
  }

  /** What `phys_map_node_alloc` fills a new node with. */
  function FreshNode(leaf: bool): Node {
    seq(P_L2_SIZE, i => if leaf then PhysPageEntry(0, PHYS_SECTION_UNASSIGNED)
                        else PhysPageEntry(1, PHYS_MAP_NODE_NIL))
  }

  lemma AppendTreeOk(nodes: seq<Node>, shape: seq<Shape>, level: nat, key: nat)
    requires TreeOk(nodes, shape) && |nodes| + 1 < PHYS_MAP_NODE_NIL
    ensures TreeOk(nodes + [FreshNode(level == 0)], shape + [Shape(level, key)])
  {
    var nodes' := nodes + [FreshNode(level == 0)];
    var shape' := shape + [Shape(level, key)];
    forall m, j | 0 <= m < |nodes'| && 0 <= j < P_L2_SIZE
      ensures SlotOk(nodes', shape', m, j)
    {
      if m < |nodes| { assert SlotOk(nodes, shape, m, j); }
    }
  }

  lemma FreshWalk(nodes: seq<Node>, e: PhysPageEntry, i: nat)
    requires i >= 1 && e.skip == 1 && e.ptr < |nodes| < PHYS_MAP_NODE_NIL && nodes[e.ptr] == FreshNode(i == 1)
    ensures forall q: nat :: Walk(nodes, e, i, q) == PHYS_SECTION_UNASSIGNED
  {
  }

  // ---------------------------------------------------- progress of the range update

  /** A flat range update: the pages from `lo` to `hi` find `leaf`, every other page finds what it found. */
  ghost predicate RangeSet(n0: seq<Node>, r0: PhysPageEntry, n1: seq<Node>, r1: PhysPageEntry,
                           levels: nat, lo: nat, hi: nat, leaf: nat)
  {
    forall q :: 0 <= q < Span(levels) ==>
      Walk(n1, r1, levels, q) == if lo <= q < hi then leaf else Walk(n0, r0, levels, q)
  }

  /** The pages from `lo` to `hi` hold no section yet. */
  ghost predicate Unassigned(nodes: seq<Node>, e: PhysPageEntry, i: nat, lo: nat, hi: nat) {
    forall q :: lo <= q < hi ==> Walk(nodes, e, i, q) == PHYS_SECTION_UNASSIGNED
  }

  /** Nodes above `level` are as before, except for the slot `lp`. */
  ghost predicate AboveKept(nodes0: seq<Node>, shape0: seq<Shape>, nodes1: seq<Node>, level: int, lp: Ref) {
    && |nodes0| == |shape0| <= |nodes1|
    && forall m :: 0 <= m < |nodes0| && shape0[m].level > level ==>
         if lp.Slot? && lp.node == m then
           lp.idx < P_L2_SIZE && nodes1[m] == nodes0[m][lp.idx := nodes1[m][lp.idx]]
         else
           nodes1[m] == nodes0[m]
  }

  /**
   Between two points of the loop over the node that `e` points to: the pages from `lo` to `mid`
   now find `leaf`, all others find what they found, and nodes above are untouched.
   */
  ghost predicate Progress(n1: seq<Node>, s1: seq<Shape>, n2: seq<Node>, s2: seq<Shape>,
                           e: PhysPageEntry, i: nat, lo: nat, mid: nat, leaf: nat)
  {
    && TreeOk(n2, s2)
    && s1 <= s2
    && Unchanged(n1, s1, n2, lo, mid)
    && (forall q :: lo <= q < mid ==> Walk(n2, e, i, q) == leaf)
    && AboveKept(n1, s1, n2, i - 1, Root)
  }

  lemma ProgressTrans(n1: seq<Node>, s1: seq<Shape>, n2: seq<Node>, s2: seq<Shape>, n3: seq<Node>, s3: seq<Shape>,
                      e: PhysPageEntry, i: nat, k: nat, lo: nat, mid: nat, hi: nat, leaf: nat)
    requires Progress(n1, s1, n2, s2, e, i, lo, mid, leaf) && Progress(n2, s2, n3, s3, e, i, mid, hi, leaf)
    requires Inner(e, i, k, s1) && Lo(k, i) <= lo <= mid <= hi <= Lo(k, i) + Span(i)
    ensures Progress(n1, s1, n3, s3, e, i, lo, hi, leaf)
  {
    UnchangedTrans(n1, s1, n2, s2, n3, lo, mid, hi);
    forall q | lo <= q < mid
      ensures Walk(n3, e, i, q) == leaf
    {
      TopUnique(q, i, k);
      assert EntryOk(e, i, Top(q, i), s2);
    }
  }

  /** The branch that stores a whole slot. */
  lemma ProgressLeaf(nodes: seq<Node>, shape: seq<Shape>, e: PhysPageEntry, i: nat, k: nat, j: nat, leaf: nat)
    requires TreeOk(nodes, shape) && Inner(e, i, k, shape) && j < P_L2_SIZE
    requires PHYS_SECTION_UNASSIGNED != leaf < PHYS_MAP_NODE_NIL
    ensures var s := Lo(P_L2_SIZE * k + j, i - 1);
            Progress(nodes, shape, nodes[e.ptr := nodes[e.ptr][j := PhysPageEntry(0, leaf)]], shape,
                     e, i, s, s + Span(i - 1), leaf)
  {
    var e' := PhysPageEntry(0, leaf);
    var s, l := Lo(P_L2_SIZE * k + j, i - 1), i - 1;
    var nodes' := nodes[e.ptr := nodes[e.ptr][j := e']];
    forall p: nat | Top(p, l) == P_L2_SIZE * k + j
      ensures s <= p < s + Span(l)
    {
      TopRange(p, l);
    }
    SlotUnchanged(nodes, shape, e.ptr, j, e', s, s + Span(l));
    forall q: nat | s <= q < s + Span(l)
      ensures Walk(nodes', e, i, q) == leaf
    {
      TopUnique(q, l, P_L2_SIZE * k + j);
    }
  }

  /** A page of slot `j` is searched for in slot `j`. */
  lemma WalkIntoSlot(nodes: seq<Node>, e: PhysPageEntry, i: nat, k: nat, j: nat, q: nat)
    requires e.skip == 1 && i >= 1 && e.ptr < |nodes| && e.ptr != PHYS_MAP_NODE_NIL && j < P_L2_SIZE
    requires Lo(P_L2_SIZE * k + j, i - 1) <= q < Lo(P_L2_SIZE * k + j, i - 1) + Span(i - 1)
    ensures Walk(nodes, e, i, q) == Walk(nodes, nodes[e.ptr][j], i - 1, q)
    ensures Top(q, i - 1) == P_L2_SIZE * k + j
  {
    TopUnique(q, i - 1, P_L2_SIZE * k + j);
  }

  /** The branch that recurses into slot `j`. */
  lemma ProgressSub(nodes: seq<Node>, shape: seq<Shape>, nodes': seq<Node>, shape': seq<Shape>,
                    e: PhysPageEntry, i: nat, k: nat, j: nat, lo: nat, hi: nat, leaf: nat)
    requires TreeOk(nodes, shape) && Inner(e, i, k, shape) && j < P_L2_SIZE && i >= 2
    requires TreeOk(nodes', shape') && shape <= shape' && Unchanged(nodes, shape, nodes', lo, hi)
    requires AboveKept(nodes, shape, nodes', i - 2, Slot(e.ptr, j))
    requires var s := Lo(P_L2_SIZE * k + j, i - 1); s <= lo <= hi <= s + Span(i - 1)
    requires var l := i - 1; forall q :: lo <= q < hi ==> Walk(nodes', nodes'[e.ptr][j], l, q) == leaf
    ensures Progress(nodes, shape, nodes', shape', e, i, lo, hi, leaf)
  {
    forall q: nat | lo <= q < hi
      ensures Walk(nodes', e, i, q) == leaf
    {
      WalkIntoSlot(nodes', e, i, k, j, q);
    }
  }

  lemma RestUnassigned(n1: seq<Node>, s1: seq<Shape>, n2: seq<Node>, s2: seq<Shape>, e: PhysPageEntry, i: nat, k: nat,
                       lo: nat, mid: nat, hi: nat, hi': nat, leaf: nat)
    requires Progress(n1, s1, n2, s2, e, i, lo, mid, leaf) && Inner(e, i, k, s1)
    requires Unassigned(n1, e, i, lo, hi) && Lo(k, i) <= lo <= mid && hi' <= hi <= Lo(k, i) + Span(i)
    ensures Unassigned(n2, e, i, mid, hi')
  {
    forall q | mid <= q < hi'
      ensures Walk(n2, e, i, q) == PHYS_SECTION_UNASSIGNED
    {
      TopUnique(q, i, k);
      assert EntryOk(e, i, Top(q, i), s1);
    }
  }

  /** An entry about to be descended into is not a leaf, since a page below it is unassigned. */
  lemma SlotUnassigned(nodes: seq<Node>, shape: seq<Shape>, e: PhysPageEntry, i: nat, k: nat, j: nat, lo: nat, hi: nat)
    requires TreeOk(nodes, shape) && Inner(e, i, k, shape) && j < P_L2_SIZE
    requires var s := Lo(P_L2_SIZE * k + j, i - 1); s <= lo < hi <= s + Span(i - 1)
    requires Unassigned(nodes, e, i, lo, hi)
    ensures Unassigned(nodes, nodes[e.ptr][j], i - 1, lo, hi)
    ensures i > 1 ==> nodes[e.ptr][j].skip == 1
    ensures SlotOk(nodes, shape, e.ptr, j) && shape[e.ptr] == Shape(i - 1, k)
  {
    var l := i - 1;
    forall q | lo <= q < hi
      ensures Walk(nodes, nodes[e.ptr][j], l, q) == PHYS_SECTION_UNASSIGNED
    {
      WalkIntoSlot(nodes, e, i, k, j, q);
    }
    assert SlotOk(nodes, shape, e.ptr, j);
    assert Walk(nodes, nodes[e.ptr][j], l, lo) == PHYS_SECTION_UNASSIGNED;
  }

  /** The whole effect of storing `leaf` for the pages from `lo` to `hi` below one entry. */
  ghost predicate Filled(n0: seq<Node>, s0: seq<Shape>, e0: PhysPageEntry,
                         n1: seq<Node>, s1: seq<Shape>, e1: PhysPageEntry,
                         i: nat, k: nat, lo: nat, hi: nat, leaf: nat)
  {
    && TreeOk(n1, s1)
    && s0 <= s1
    && Unchanged(n0, s0, n1, lo, hi)
    && (forall q :: lo <= q < hi ==> Walk(n1, e1, i, q) == leaf)
    && (forall q: nat :: Top(q, i) == k && !(lo <= q < hi) ==> Walk(n1, e1, i, q) == Walk(n0, e0, i, q))
  }

  lemma FinishLevel(n0: seq<Node>, s0: seq<Shape>, e0: PhysPageEntry, n1: seq<Node>, s1: seq<Shape>,
                    n2: seq<Node>, s2: seq<Shape>, e: PhysPageEntry,
                    i: nat, k: nat, lo: nat, hi: nat, leaf: nat, lp: Ref)
    requires Unchanged(n0, s0, n1, 0, 0) && s0 <= s1 && Inner(e, i, k, s1) && |n0| == |s0|
    requires forall q: nat :: Top(q, i) == k ==> Walk(n1, e, i, q) == Walk(n0, e0, i, q)
    requires AboveKept(n0, s0, n1, i - 1, lp) && |n1| == |s1|
    requires Progress(n1, s1, n2, s2, e, i, lo, hi, leaf) && lo <= hi
    ensures Filled(n0, s0, e0, n2, s2, e, i, k, lo, hi, leaf)
    ensures AboveKept(n0, s0, n2, i - 1, lp)
  {
    forall e, i: nat, q: nat | EntryOk(e, i, Top(q, i), s0) && !(lo <= q < hi)
      ensures Walk(n2, e, i, q) == Walk(n0, e, i, q)
    {
      assert EntryOk(e, i, Top(q, i), s1);
      assert Walk(n1, e, i, q) == Walk(n0, e, i, q);
    }
    assert forall q: nat :: Top(q, i) == k ==> EntryOk(e, i, Top(q, i), s1);
  }

  // ------------------------------------------------------------ node allocation

  /** Nodes one call at `level` may allocate for the pages from `index`, below an entry with key `k`. */
  function MaxAlloc(level: nat, k: nat, index: nat, nb: nat): nat {
    if index == Lo(k, level + 1) || index + nb >= Lo(k, level + 1) + Span(level + 1) then level + 1 else 2 * level + 1
  }

  /** Nodes that storing into the slot with key `kj` may allocate. */
  function SlotAlloc(level: nat, kj: nat, index: nat, nb: nat): nat {
    if level == 0 || (index == Lo(kj, level) && nb >= Span(level)) then 0 else MaxAlloc(level - 1, kj, index, nb)
  }

  /** Nodes allocated by the loop when it reaches slot `j` with `left` pages to go. */
  function Used(level: nat, k: nat, index: nat, nb: nat, j0: nat, j: nat, left: nat): nat {
    if j == j0 then 0
    else if left != 0 then if index == Lo(P_L2_SIZE * k + j0, level) then 0 else level
    else MaxAlloc(level, k, index, nb) - 1
  }

  /** The arithmetic of one turn of the loop: the slot that holds `cur`, where it ends, and what it may allocate. */
  lemma LoopStep(level: nat, k: nat, index: nat, nb: nat, j0: nat, j: nat, cur: nat, left: nat) returns (end: nat)
    requires Top(index, level + 1) == k
    requires j0 == Digit(index, level) <= j < P_L2_SIZE && cur + left == index + nb && left > 0
    requires if j == j0 then cur == index else cur == Min(index + nb, Lo(P_L2_SIZE * k + j, level))
    ensures var s := Lo(P_L2_SIZE * k + j, level);
            && s <= cur < s + Span(level)
            && end == Min(cur + left, s + Span(level)) == Min(index + nb, Lo(P_L2_SIZE * k + (j + 1), level))
    ensures Lo(k, level + 1) <= index <= cur < end <= Min(index + nb, Lo(k, level + 1) + Span(level + 1))
    ensures Used(level, k, index, nb, j0, j, left) + SlotAlloc(level, P_L2_SIZE * k + j, cur, left)
            <= Used(level, k, index, nb, j0, j + 1, cur + left - end) <= MaxAlloc(level, k, index, nb) - 1
  {
    TopRange(index, level);
    LoOfSlot(k, j0, level);
    LoOfSlot(k, j, level);
    LoOfSlot(k, j + 1, level);
    SlotOffsets(j0, j, Span(level));
    end := Min(cur + left, Lo(P_L2_SIZE * k + j, level) + Span(level));
    UsedStep(level, k, index, nb, j0, j, cur, left,
             Lo(k, level + 1), Lo(P_L2_SIZE * k + j0, level), Lo(P_L2_SIZE * k + j, level));
  }

  lemma SlotOffsets(j0: nat, j: nat, s: nat)
    requires j0 <= j < P_L2_SIZE
    ensures (j + 1) * s == j * s + s <= P_L2_SIZE * s
    ensures j0 < j ==> j0 * s + s <= j * s
  {
    MulMono(j + 1, P_L2_SIZE, s);
    if j0 < j {
      MulMono(j0 + 1, j, s);
      assert (j0 + 1) * s == j0 * s + s;
    }
  }

  /** The allocation part of `LoopStep`, with the start of the node and of its slots as plain numbers. */
  lemma UsedStep(level: nat, k: nat, index: nat, nb: nat, j0: nat, j: nat, cur: nat, left: nat, b: nat, x0: nat, x: nat)
    requires b == Lo(k, level + 1) && x0 == Lo(P_L2_SIZE * k + j0, level) && x == Lo(P_L2_SIZE * k + j, level)
    requires b <= x0 <= index < x0 + Span(level) && x + Span(level) <= b + Span(level + 1)
    requires j0 <= j && cur + left == index + nb && left > 0
    requires if j == j0 then cur == index else cur == x && x >= x0 + Span(level)
    ensures var left' := cur + left - Min(cur + left, x + Span(level));
            Used(level, k, index, nb, j0, j, left) + SlotAlloc(level, P_L2_SIZE * k + j, cur, left)
            <= Used(level, k, index, nb, j0, j + 1, left') <= MaxAlloc(level, k, index, nb) - 1
  {
  }

  /** A whole slot starts at a multiple of its span. */
  lemma AlignedInSlot(kj: nat, level: nat, cur: nat)
    requires Lo(kj, level) <= cur < Lo(kj, level) + Span(level)
    ensures cur % Span(level) == 0 <==> cur == Lo(kj, level)
  {
    DivModUnique(cur, Span(level), kj, cur - Lo(kj, level));
  }

  // ------------------------------------------------------------ the map object

  /** Where `lp` points: the root entry or a slot of a node. */
  datatype Ref = Root | Slot(node: nat, idx: nat)

  class PhysPageMap {
    const levels: nat
    var root: PhysPageEntry
    var nodes: seq<Node>
    var nodesAlloc: nat
    ghost var shape: seq<Shape>

    constructor (levels: nat)
      requires levels >= 1
      ensures this.levels == levels && Building() && nodes == []
      ensures root == PhysPageEntry(1, PHYS_MAP_NODE_NIL)
    {
      this.levels := levels;
      root := PhysPageEntry(1, PHYS_MAP_NODE_NIL);
      nodes, nodesAlloc, shape := [], 0, [];
    }

    ghost predicate Building()
      reads this
    {
      && levels >= 1
      && TreeOk(nodes, shape)
      && EntryOk(root, levels, 0, shape)
      && root.skip == 1
      && |nodes| <= nodesAlloc
    }

    predicate RefIn(lp: Ref)
      reads this
    {
      lp.Slot? ==> lp.node < |nodes| && lp.idx < P_L2_SIZE
    }

    function Entry(lp: Ref): PhysPageEntry
      requires RefIn(lp)
      reads this
    {
      if lp.Root? then root else nodes[lp.node][lp.idx]
    }

    /** `lp` is the place of an entry at height `i` with key `k`. */
    ghost predicate Place(lp: Ref, i: nat, k: nat)
      reads this
    {
      && |nodes| == |shape|
      && RefIn(lp)
      && EntryOk(Entry(lp), i, k, shape)
      && (lp.Slot? ==> shape[lp.node].level == i && k == P_L2_SIZE * shape[lp.node].key + lp.idx)
    }

    method SetEntry(lp: Ref, e: PhysPageEntry)
      requires RefIn(lp)
      modifies this`root, this`nodes
      ensures lp.Root? ==> root == e && nodes == old(nodes)
      ensures lp.Slot? ==> root == old(root) &&
                           nodes == old(nodes)[lp.node := old(nodes)[lp.node][lp.idx := e]]
    {
      if lp.Root? {
        root := e;
      } else {
        nodes := nodes[lp.node := nodes[lp.node][lp.idx := e]];
      }
    }

    /** `phys_map_node_reserve`. */
    method NodeReserve(n: nat)
      modifies this`nodesAlloc
      ensures |nodes| + n <= nodesAlloc
      ensures nodesAlloc >= old(nodesAlloc)
      ensures old(|nodes| + n <= nodesAlloc) ==> nodesAlloc == old(nodesAlloc)
    {
      if |nodes| + n > nodesAlloc {
        nodesAlloc := Max(nodesAlloc * 2, 16);
        nodesAlloc := Max(nodesAlloc, |nodes| + n);
      }
    }

    /** Give the entry at `lp` a node if it has none: the first statement of `phys_page_set_level`. */
    method EnsureNode(lp: Ref, level: nat, ghost i: nat, ghost k: nat)
      requires i == level + 1
      requires TreeOk(nodes, shape) && Place(lp, i, k) && Entry(lp).skip == 1
      requires |nodes| < nodesAlloc && |nodes| + 1 < PHYS_MAP_NODE_NIL
      modifies this`root, this`nodes, this`shape
      ensures TreeOk(nodes, shape) && Place(lp, i, k) && old(shape) <= shape
      ensures Inner(Entry(lp), i, k, shape)
      ensures |nodes| <= old(|nodes|) + 1
      ensures Unchanged(old(nodes), old(shape), nodes, 0, 0)
      ensures forall q: nat :: Top(q, i) == k ==>
                Walk(nodes, Entry(lp), i, q) == Walk(old(nodes), old(Entry(lp)), i, q)
      ensures lp.Slot? ==> root == old(root)
      ensures AboveKept(old(nodes), old(shape), nodes, level, lp)
    {
      var e := Entry(lp);
      if e.skip != 0 && e.ptr == PHYS_MAP_NODE_NIL {
        ghost var nodes0, shape0 := nodes, shape;
        var ret := |nodes|;
        nodes := nodes + [FreshNode(level == 0)];
        shape := shape + [Shape(level, k)];
        AppendTreeOk(nodes0, shape0, level, k);
        AppendUnchanged(nodes0, shape0, FreshNode(level == 0));
        ghost var nodes1 := nodes;
        var e' := PhysPageEntry(e.skip, ret);
        FreshWalk(nodes, e', i);
        if lp.Slot? {
          SlotUnchanged(nodes, shape, lp.node, lp.idx, e', 0, 0);
          UnchangedTrans(nodes0, shape0, nodes1, shape, nodes1[lp.node := nodes1[lp.node][lp.idx := e']], 0, 0, 0);
        }
        SetEntry(lp, e');
        assert forall q: nat :: Top(q, i) == k ==> EntryOk(e', i, Top(q, i), shape);
        assert forall q: nat :: Top(q, i) == k ==> Walk(nodes, e', i, q) == Walk(nodes1, e', i, q);
      }
    }

    /**
     The recursion of `phys_page_set_level`: store `leaf` for `nb` pages from `index`, as far as
     the entry at `lp` reaches.  Results are the in-out parameters `*index` and `*nb`.
     */
    method SetLevel(lp: Ref, index: nat, nb: nat, leaf: nat, level: nat, ghost i: nat, ghost k: nat)
      returns (index': nat, nb': nat)
      requires i == level + 1
      requires TreeOk(nodes, shape) && Place(lp, i, k) && Entry(lp).skip == 1
      requires Top(index, i) == k && nb > 0
      requires PHYS_SECTION_UNASSIGNED != leaf < PHYS_MAP_NODE_NIL
      requires Unassigned(nodes, Entry(lp), i, index, Min(index + nb, Lo(k, i) + Span(i)))
      requires |nodes| + MaxAlloc(level, k, index, nb) <= nodesAlloc
      requires |nodes| + MaxAlloc(level, k, index, nb) < PHYS_MAP_NODE_NIL
      modifies this`root, this`nodes, this`shape
      ensures Place(lp, i, k) && Entry(lp).skip == 1
      ensures index' == Min(index + nb, Lo(k, i) + Span(i)) && index' + nb' == index + nb
      ensures Filled(old(nodes), old(shape), old(Entry(lp)), nodes, shape, Entry(lp), i, k, index, index', leaf)
      ensures AboveKept(old(nodes), old(shape), nodes, level, lp)
      ensures lp.Slot? ==> root == old(root)
      ensures |nodes| <= old(|nodes|) + MaxAlloc(level, k, index, nb)
      decreases level, 2
    {
      TopRange(index, i);
      EnsureNode(lp, level, i, k);
      var e := Entry(lp);
      ghost var nodes1, shape1 := nodes, shape;
      StillUnassigned(old(nodes), old(Entry(lp)), nodes, e, i, k, index, Min(index + nb, Lo(k, i) + Span(i)));
      index', nb' := FillNode(e, index, nb, leaf, level, i, k);
      FinishLevel(old(nodes), old(shape), old(Entry(lp)), nodes1, shape1, nodes, shape, e, i, k, index, index', leaf, lp);
    }

    /** The loop of `phys_page_set_level` over the slots of the node that `e` points to. */
    method FillNode(e: PhysPageEntry, index: nat, nb: nat, leaf: nat, level: nat, ghost i: nat, ghost k: nat)
      returns (index': nat, nb': nat)
      requires i == level + 1
      requires TreeOk(nodes, shape) && Inner(e, i, k, shape)
      requires Top(index, i) == k && nb > 0
      requires PHYS_SECTION_UNASSIGNED != leaf < PHYS_MAP_NODE_NIL
      requires Unassigned(nodes, e, i, index, Min(index + nb, Lo(k, i) + Span(i)))
      requires |nodes| + MaxAlloc(level, k, index, nb) - 1 <= nodesAlloc
      requires |nodes| + MaxAlloc(level, k, index, nb) - 1 < PHYS_MAP_NODE_NIL
      modifies this`root, this`nodes, this`shape
      ensures index' == Min(index + nb, Lo(k, i) + Span(i)) && index' + nb' == index + nb
      ensures Progress(old(nodes), old(shape), nodes, shape, e, i, index, index', leaf)
      ensures root == old(root)
      ensures |nodes| <= old(|nodes|) + MaxAlloc(level, k, index, nb) - 1
      decreases level, 1
    {
      ghost var nodes1, shape1, j0 := nodes, shape, Digit(index, level);
      ghost var top := Min(index + nb, Lo(k, i) + Span(i));
      TopRange(index, i);
      var j := Digit(index, level);
      index', nb' := index, nb;
      while nb' != 0 && j < P_L2_SIZE
        invariant j0 <= j <= P_L2_SIZE && index' + nb' == index + nb && index <= index' <= top
        invariant if j == j0 then index' == index else index' == Min(index + nb, Lo(P_L2_SIZE * k + j, level))
        invariant Progress(nodes1, shape1, nodes, shape, e, i, index, index', leaf)
        invariant root == old(root)
        invariant |nodes| <= |nodes1| + Used(level, k, index, nb, j0, j, nb')
        decreases P_L2_SIZE - j
      {
        ghost var nodes2, shape2, index2 := nodes, shape, index';
        ghost var end := LoopStep(level, k, index, nb, j0, j, index', nb');
        RestUnassigned(nodes1, shape1, nodes, shape, e, i, k, index, index', top, end, leaf);
        index', nb' := SetSlot(e, j, index', nb', leaf, level, i, k);
        ProgressTrans(nodes1, shape1, nodes2, shape2, nodes, shape, e, i, k, index, index2, index', leaf);
        j := j + 1;
      }
      LoOfSlot(k, P_L2_SIZE, level);
    }

    /** The body of the loop in `phys_page_set_level`, for slot `j` of the node that `e` points to. */
    method SetSlot(e: PhysPageEntry, j: nat, index: nat, nb: nat, leaf: nat, level: nat, ghost i: nat, ghost k: nat)
      returns (index': nat, nb': nat)
      requires i == level + 1 && j < P_L2_SIZE
      requires TreeOk(nodes, shape) && Inner(e, i, k, shape)
      requires Lo(P_L2_SIZE * k + j, level) <= index < Lo(P_L2_SIZE * k + j, level) + Span(level) && nb > 0
      requires PHYS_SECTION_UNASSIGNED != leaf < PHYS_MAP_NODE_NIL
      requires Unassigned(nodes, e, i, index, Min(index + nb, Lo(P_L2_SIZE * k + j, level) + Span(level)))
      requires |nodes| + SlotAlloc(level, P_L2_SIZE * k + j, index, nb) <= nodesAlloc
      requires |nodes| + SlotAlloc(level, P_L2_SIZE * k + j, index, nb) < PHYS_MAP_NODE_NIL
      modifies this`root, this`nodes, this`shape
      ensures index' == Min(index + nb, Lo(P_L2_SIZE * k + j, level) + Span(level)) && index' + nb' == index + nb
      ensures Progress(old(nodes), old(shape), nodes, shape, e, i, index, index', leaf)
      ensures root == old(root)
      ensures |nodes| <= old(|nodes|) + SlotAlloc(level, P_L2_SIZE * k + j, index, nb)
      decreases level, 0
    {
      var step := Span(level);
      ghost var kj := P_L2_SIZE * k + j;
      AlignedInSlot(kj, level, index);
      if index % step == 0 && nb >= step {
        ProgressLeaf(nodes, shape, e, i, k, j, leaf);
        SetEntry(Slot(e.ptr, j), PhysPageEntry(0, leaf));
        index', nb' := index + step, nb - step;
      } else {
        SlotUnassigned(nodes, shape, e, i, k, j, index, Min(index + nb, Lo(kj, level) + step));
        TopUnique(index, level, kj);
        index', nb' := SetLevel(Slot(e.ptr, j), index, nb, leaf, level - 1, level, kj);
        ProgressSub(old(nodes), old(shape), nodes, shape, e, i, k, j, index, index', leaf);
      }
    }

    /** `phys_page_set`: a flat update of the page range, within the nodes reserved up front. */
    method Set(index: nat, nb: nat, leaf: nat)
      requires Building()
      requires nb > 0 && index + nb <= Span(levels)
      requires PHYS_SECTION_UNASSIGNED != leaf < PHYS_MAP_NODE_NIL
      requires Unassigned(nodes, root, levels, index, index + nb)
      requires |nodes| + 2 * levels - 1 < PHYS_MAP_NODE_NIL
      modifies this
      ensures Building()
      ensures RangeSet(old(nodes), old(root), nodes, root, levels, index, index + nb, leaf)
      ensures |nodes| <= old(|nodes|) + 2 * levels - 1
    {
      NodeReserve(3 * levels);
      assert Place(Root, levels, 0) && Entry(Root) == root;
      TopUnique(index, levels, 0);
      var end, left := SetLevel(Root, index, nb, leaf, levels - 1, levels, 0);
      forall q | 0 <= q < Span(levels)
        ensures Walk(nodes, root, levels, q)
                == if index <= q < index + nb then leaf else Walk(old(nodes), old(root), levels, q)
      {
        TopUnique(q, levels, 0);
      }
    }

    /** The search loop of `phys_page_find`: a step never leaves the node array, and never goes below level 0. */
    method Find(index: nat) returns (s: nat)
      requires TreeLv(nodes, shape) && EntryLv(root, levels, shape)
      ensures s == Walk(nodes, root, levels, index)
    {
      var lp, i := root, levels as int;
      while lp.skip != 0 && i - lp.skip >= 0
        invariant 0 <= i && EntryLv(lp, i, shape)
        invariant Walk(nodes, lp, i, index) == Walk(nodes, root, levels, index)
        decreases i
      {
        i := i - lp.skip;
        if lp.ptr == PHYS_MAP_NODE_NIL {
          return PHYS_SECTION_UNASSIGNED;
        }
        assert SlotLv(nodes, shape, lp.ptr, Digit(index, i));
        lp := nodes[lp.ptr][Digit(index, i)];
      }
      s := lp.ptr;
    }

    /** `phys_page_compact` on the entry at `lp`, of height `i`. */
    method Compact(lp: Ref, ghost i: nat)
      requires TreeLv(nodes, shape) && PlaceLv(lp, i) && Entry(lp).skip > 0
      modifies this`root, this`nodes
      ensures TreeLv(nodes, shape) && PlaceLv(lp, i)
      ensures AllRefine(old(nodes), nodes, shape)
      ensures Refines(old(nodes), old(Entry(lp)), nodes, Entry(lp), i)
      ensures AboveKept(old(nodes), shape, nodes, i - 1, lp)
      ensures lp.Slot? ==> root == old(root)
      ensures Entry(lp).ptr == PHYS_MAP_NODE_NIL <==> old(Entry(lp)).ptr == PHYS_MAP_NODE_NIL
      ensures TightBelow(nodes, Entry(lp), i) && AllStayTight(old(nodes), nodes, shape)
      decreases i
    {
      var e := Entry(lp);
      if e.ptr == PHYS_MAP_NODE_NIL {
        return;
      }
      var valid, validPtr := CompactSlots(e, i);
      if valid != 1 {
        return;
      }
      var child := nodes[e.ptr][validPtr];
      if e.skip + child.skip >= 8 {
        return;
      }
      BypassTight(nodes, shape, e, i, validPtr);
      Bypass(nodes, shape, e, i, validPtr);
      ghost var nodes1 := nodes;
      if lp.Slot? {
        SlotRefines(nodes, shape, lp.node, lp.idx, Shortcut(e, child));
      }
      SetEntry(lp, if child.skip == 0 then PhysPageEntry(0, child.ptr)
                   else PhysPageEntry(e.skip + child.skip, child.ptr));
      FinishCompact(old(nodes), nodes1, nodes, shape, e, Entry(lp), i);
      if lp.Slot? {
        StayTight(nodes1, shape, lp.node, lp.idx, Entry(lp));
        AllTightTrans(old(nodes), nodes1, nodes, shape);
      }
    }

    /** The loop of `phys_page_compact`: compact every child, and note the last slot in use and how many there are. */
    method CompactSlots(e: PhysPageEntry, ghost i: nat) returns (valid: nat, validPtr: nat)
      requires TreeLv(nodes, shape) && EntryLv(e, i, shape) && e.skip > 0 && e.ptr != PHYS_MAP_NODE_NIL
      modifies this`root, this`nodes
      ensures TreeLv(nodes, shape) && AllRefine(old(nodes), nodes, shape)
      ensures AboveKept(old(nodes), shape, nodes, i - 1, Root)
      ensures root == old(root)
      ensures valid == 1 ==> validPtr < P_L2_SIZE && OnlyChild(nodes[e.ptr], validPtr)
      ensures valid != 1 ==> forall v: nat :: !OnlyChild(nodes[e.ptr], v)
      ensures SlotsTight(nodes, e.ptr, i - e.skip, P_L2_SIZE) && AllStayTight(old(nodes), nodes, shape)
      decreases i, 0
    {
      ghost var l := i - e.skip;
      valid, validPtr := 0, P_L2_SIZE;
      ghost var other: nat := P_L2_SIZE;
      for k := 0 to P_L2_SIZE
        invariant TreeLv(nodes, shape) && AllRefine(old(nodes), nodes, shape)
        invariant AboveKept(old(nodes), shape, nodes, l, Root)
        invariant root == old(root)
        invariant valid == 0 ==> forall m :: 0 <= m < k ==> nodes[e.ptr][m].ptr == PHYS_MAP_NODE_NIL
        invariant valid == 1 ==> validPtr < k && nodes[e.ptr][validPtr].ptr != PHYS_MAP_NODE_NIL
                                 && forall m :: 0 <= m < k && m != validPtr ==> nodes[e.ptr][m].ptr == PHYS_MAP_NODE_NIL
        invariant valid > 1 ==> other < validPtr < k && nodes[e.ptr][other].ptr != PHYS_MAP_NODE_NIL && nodes[e.ptr][validPtr].ptr != PHYS_MAP_NODE_NIL
        invariant SlotsTight(nodes, e.ptr, l, k) && AllStayTight(old(nodes), nodes, shape)
      {
        ghost var before := nodes;
        if nodes[e.ptr][k].ptr != PHYS_MAP_NODE_NIL {
          other := validPtr;
          validPtr := k;
          valid := valid + 1;
          if nodes[e.ptr][k].skip != 0 {
            ghost var nodes1 := nodes;
            assert SlotLv(nodes, shape, e.ptr, k);
            Compact(Slot(e.ptr, k), l);
            AllRefineTrans(old(nodes), nodes1, nodes, shape);
            AllTightTrans(old(nodes), nodes1, nodes, shape);
          }
        }
        SlotsStayTight(before, nodes, shape, e.ptr, l, k);
      }
      if valid > 1 {
        TwoChildren(nodes[e.ptr], other, validPtr);
      } else if valid == 0 {
        NoChildren(nodes[e.ptr]);
      }
    }

    /** `phys_page_compact_all`. */
    method CompactAll()
      requires TreeLv(nodes, shape) && EntryLv(root, levels, shape)
      modifies this`root, this`nodes
      ensures TreeLv(nodes, shape) && EntryLv(root, levels, shape)
      ensures Refines(old(nodes), old(root), nodes, root, levels)
      ensures TightBelow(nodes, root, levels)
    {
      if root.skip != 0 {
        Compact(Root, levels);
      }
    }

    /** `lp` is the place of an entry at height `i`, in a tree that may be compacted. */
    ghost predicate PlaceLv(lp: Ref, i: nat)
      reads this
    {
      && |nodes| == |shape|
      && RefIn(lp)
      && EntryLv(Entry(lp), i, shape)
      && (lp.Slot? ==> shape[lp.node].level == i)
    }
  }

  lemma StillUnassigned(n0: seq<Node>, e0: PhysPageEntry, n1: seq<Node>, e: PhysPageEntry, i: nat, k: nat, lo: nat, hi: nat)
    requires forall q: nat :: Top(q, i) == k ==> Walk(n1, e, i, q) == Walk(n0, e0, i, q)
    requires Unassigned(n0, e0, i, lo, hi) && Lo(k, i) <= lo && hi <= Lo(k, i) + Span(i)
    ensures Unassigned(n1, e, i, lo, hi)
  {
    forall q | lo <= q < hi
      ensures Walk(n1, e, i, q) == PHYS_SECTION_UNASSIGNED
    {
      TopUnique(q, i, k);
    }
  }

  // ------------------------------------------------------- compacted trees

  /** An entry at height `i` that may skip several levels. */
  ghost predicate EntryLv(e: PhysPageEntry, i: nat, shape: seq<Shape>) {
    && (e.skip == 0 ==> e.ptr < PHYS_MAP_NODE_NIL)
    && (e.skip > 0 ==>
          && e.skip <= i
          && (e.ptr != PHYS_MAP_NODE_NIL ==> e.ptr < |shape| && shape[e.ptr].level == i - e.skip))
  }

  ghost predicate SlotLv(nodes: seq<Node>, shape: seq<Shape>, n: nat, j: nat)
    requires n < |nodes| == |shape| && j < P_L2_SIZE
  {
    EntryLv(nodes[n][j], shape[n].level, shape)
  }

  ghost predicate TreeLv(nodes: seq<Node>, shape: seq<Shape>) {
    && |nodes| == |shape| < PHYS_MAP_NODE_NIL
    && forall n, j :: 0 <= n < |nodes| && 0 <= j < P_L2_SIZE ==> SlotLv(nodes, shape, n, j)
  }

  lemma TreeOkIsLv(nodes: seq<Node>, shape: seq<Shape>)
    requires TreeOk(nodes, shape)
    ensures TreeLv(nodes, shape)
  {
    forall n, j | 0 <= n < |nodes| && 0 <= j < P_L2_SIZE
      ensures SlotLv(nodes, shape, n, j)
    {
      assert SlotOk(nodes, shape, n, j);
    }
  }

  /**
   What compaction may do to a search: it finds what it found before, or, on a page that held
   nothing, it runs into the section of some other page.
   */
  ghost predicate Refines(n0: seq<Node>, e0: PhysPageEntry, n1: seq<Node>, e1: PhysPageEntry, i: nat) {
    forall q: nat :: RefinesAt(n0, e0, n1, e1, i, q)
  }

  ghost predicate RefinesAt(n0: seq<Node>, e0: PhysPageEntry, n1: seq<Node>, e1: PhysPageEntry, i: nat, q: nat) {
    || Walk(n1, e1, i, q) == Walk(n0, e0, i, q)
    || (Walk(n0, e0, i, q) == PHYS_SECTION_UNASSIGNED
        && exists p: nat :: Walk(n1, e1, i, q) == Walk(n0, e0, i, p))
  }

  ghost predicate AllRefine(n0: seq<Node>, n1: seq<Node>, shape: seq<Shape>) {
    forall e, i: nat :: EntryLv(e, i, shape) ==> Refines(n0, e, n1, e, i)
  }

  lemma RefinesTrans(n0: seq<Node>, e0: PhysPageEntry, n1: seq<Node>, e1: PhysPageEntry,
                     n2: seq<Node>, e2: PhysPageEntry, i: nat)
    requires Refines(n0, e0, n1, e1, i) && Refines(n1, e1, n2, e2, i)
    ensures Refines(n0, e0, n2, e2, i)
  {
    forall q: nat
      ensures RefinesAt(n0, e0, n2, e2, i, q)
    {
      assert RefinesAt(n1, e1, n2, e2, i, q) && RefinesAt(n0, e0, n1, e1, i, q);
      if Walk(n2, e2, i, q) != Walk(n1, e1, i, q) {
        var p: nat :| Walk(n2, e2, i, q) == Walk(n1, e1, i, p);
        assert RefinesAt(n0, e0, n1, e1, i, p);
      }
    }
  }

  lemma AllRefineTrans(n0: seq<Node>, n1: seq<Node>, n2: seq<Node>, shape: seq<Shape>)
    requires AllRefine(n0, n1, shape) && AllRefine(n1, n2, shape)
    ensures AllRefine(n0, n2, shape)
  {
    forall e, i: nat | EntryLv(e, i, shape)
      ensures Refines(n0, e, n2, e, i)
    {
      RefinesTrans(n0, e, n1, e, n2, e, i);
    }
  }

  lemma FinishCompact(n0: seq<Node>, n1: seq<Node>, n2: seq<Node>, shape: seq<Shape>, e: PhysPageEntry, e': PhysPageEntry, i: nat)
    requires AllRefine(n0, n1, shape) && AllRefine(n1, n2, shape)
    requires EntryLv(e, i, shape) && EntryLv(e', i, shape) && Refines(n1, e, n1, e', i)
    ensures AllRefine(n0, n2, shape) && Refines(n0, e, n2, e', i)
  {
    AllRefineTrans(n0, n1, n2, shape);
    RefinesTrans(n1, e, n1, e', n2, e', i);
    RefinesTrans(n0, e, n1, e, n2, e', i);
  }

  // ------------------------------------------------- nothing is left to compact

  /** The entry does not lead to a node with one slot in use, unless the skip over it would not fit three bits. */
  ghost predicate Tight(nodes: seq<Node>, e: PhysPageEntry)
    requires e.ptr < |nodes|
  {
    forall v: nat :: OnlyChild(nodes[e.ptr], v) ==> e.skip + nodes[e.ptr][v].skip >= 8
  }

  /** No entry from `e` down does. */
  ghost predicate TightBelow(nodes: seq<Node>, e: PhysPageEntry, i: nat)
    decreases i, 0
  {
    e.skip == 0 || i < e.skip || e.ptr == PHYS_MAP_NODE_NIL || e.ptr >= |nodes|
    || (Tight(nodes, e) && SlotsTight(nodes, e.ptr, i - e.skip, P_L2_SIZE))
  }

  ghost predicate SlotsTight(nodes: seq<Node>, n: nat, i: nat, upto: nat)
    requires n < |nodes| && upto <= P_L2_SIZE
    decreases i, 1
  {
    forall j {:trigger TightBelow(nodes, nodes[n][j], i)} :: 0 <= j < upto ==> TightBelow(nodes, nodes[n][j], i)
  }

  ghost predicate AllStayTight(n0: seq<Node>, n1: seq<Node>, shape: seq<Shape>) {
    forall e, i: nat {:trigger TightBelow(n1, e, i)} :: EntryLv(e, i, shape) && TightBelow(n0, e, i) ==> TightBelow(n1, e, i)
  }

  lemma AllTightTrans(n0: seq<Node>, n1: seq<Node>, n2: seq<Node>, shape: seq<Shape>)
    requires AllStayTight(n0, n1, shape) && AllStayTight(n1, n2, shape)
    ensures AllStayTight(n0, n2, shape)
  {
    forall e, i: nat | EntryLv(e, i, shape) && TightBelow(n0, e, i)
      ensures TightBelow(n2, e, i)
    {
      assert TightBelow(n1, e, i);
    }
  }

  /** An entry with nothing to compact below it does not see a slot that still has. */
  lemma {:induction false} StaysTight(nodes: seq<Node>, shape: seq<Shape>, n: nat, j: nat, x: PhysPageEntry, e: PhysPageEntry, i: nat)
    requires TreeLv(nodes, shape) && EntryLv(e, i, shape) && TightBelow(nodes, e, i)
    requires n < |nodes| && j < P_L2_SIZE && nodes[n][j].skip > 0 && nodes[n][j].ptr < |nodes| && !Tight(nodes, nodes[n][j])
    ensures TightBelow(nodes[n := nodes[n][j := x]], e, i)
    decreases i
  {
    var nodes' := nodes[n := nodes[n][j := x]];
    if e.skip != 0 && e.ptr != PHYS_MAP_NODE_NIL {
      var l := i - e.skip;
      assert SlotLv(nodes, shape, e.ptr, j);
      assert TightBelow(nodes, nodes[e.ptr][j], l);
      assert e.ptr != n;
      forall k | 0 <= k < P_L2_SIZE
        ensures TightBelow(nodes', nodes'[e.ptr][k], l)
      {
        assert SlotLv(nodes, shape, e.ptr, k);
        assert TightBelow(nodes, nodes[e.ptr][k], l);
        StaysTight(nodes, shape, n, j, x, nodes[e.ptr][k], l);
      }
    }
  }

  lemma StayTight(nodes: seq<Node>, shape: seq<Shape>, n: nat, j: nat, x: PhysPageEntry)
    requires TreeLv(nodes, shape)
    requires n < |nodes| && j < P_L2_SIZE && nodes[n][j].skip > 0 && nodes[n][j].ptr < |nodes| && !Tight(nodes, nodes[n][j])
    ensures AllStayTight(nodes, nodes[n := nodes[n][j := x]], shape)
  {
    forall e, i: nat | EntryLv(e, i, shape) && TightBelow(nodes, e, i)
      ensures TightBelow(nodes[n := nodes[n][j := x]], e, i)
    {
      StaysTight(nodes, shape, n, j, x, e, i);
    }
  }

  /** Slots before `k` stay done while slot `k` is dealt with. */
  lemma SlotsStayTight(n0: seq<Node>, n1: seq<Node>, shape: seq<Shape>, n: nat, l: nat, k: nat)
    requires TreeLv(n0, shape) && n < |n0| <= |n1| && k < P_L2_SIZE && shape[n].level == l
    requires SlotsTight(n0, n, l, k) && AllStayTight(n0, n1, shape) && n1[n] == n0[n][k := n1[n][k]] && TightBelow(n1, n1[n][k], l)
    ensures SlotsTight(n1, n, l, k + 1)
  {
    forall j | 0 <= j < k + 1
      ensures TightBelow(n1, n1[n][j], l)
    {
      if j < k {
        assert SlotLv(n0, shape, n, j);
        assert TightBelow(n0, n0[n][j], l);
      }
    }
  }

  /** A skipped node leaves nothing to compact either, and there was something before. */
  lemma BypassTight(nodes: seq<Node>, shape: seq<Shape>, e: PhysPageEntry, i: nat, v: nat)
    requires TreeLv(nodes, shape) && EntryLv(e, i, shape) && e.skip > 0 && e.ptr != PHYS_MAP_NODE_NIL
    requires OnlyChild(nodes[e.ptr], v) && e.skip + nodes[e.ptr][v].skip < 8 && SlotsTight(nodes, e.ptr, i - e.skip, P_L2_SIZE)
    ensures TightBelow(nodes, Shortcut(e, nodes[e.ptr][v]), i) && !Tight(nodes, e)
  {
    assert SlotLv(nodes, shape, e.ptr, v);
    assert TightBelow(nodes, nodes[e.ptr][v], i - e.skip);
  }

  /** In a tree of fewer than eight levels no skip is too long: every node that is reached has no slot in use, or two and more. */
  lemma NoLoneChild(nodes: seq<Node>, shape: seq<Shape>, e: PhysPageEntry, i: nat, v: nat)
    requires TreeLv(nodes, shape) && EntryLv(e, i, shape) && TightBelow(nodes, e, i) && i < 8 && v < P_L2_SIZE
    ensures e.skip > 0 && e.ptr != PHYS_MAP_NODE_NIL ==> !OnlyChild(nodes[e.ptr], v)
    ensures e.skip > 0 && e.ptr != PHYS_MAP_NODE_NIL ==> TightBelow(nodes, nodes[e.ptr][v], i - e.skip)
  {
    if e.skip > 0 && e.ptr != PHYS_MAP_NODE_NIL {
      assert SlotLv(nodes, shape, e.ptr, v);
    }
  }

  /** The low `i` digits of a page index. */
  function Low(q: nat, i: nat): (r: nat)
    ensures r < Span(i)
  {
    if i == 0 then 0 else q % P_L2_SIZE + P_L2_SIZE * Low(q / P_L2_SIZE, i - 1)
  }

  /** Dropping the last digit first makes every later digit the one before. */
  lemma {:induction false} TopShift(q: nat, l: nat)
    ensures Top(q / P_L2_SIZE, l) == Top(q, l + 1)
  {
    if l > 0 { TopShift(q, l - 1); }
  }

  /** Pages with the same digits below level `i` find the same. */
  lemma {:induction false} WalkSameDigits(nodes: seq<Node>, e: PhysPageEntry, i: nat, q: nat, p: nat)
    requires forall l :: 0 <= l < i ==> Digit(q, l) == Digit(p, l)
    ensures Walk(nodes, e, i, q) == Walk(nodes, e, i, p)
    decreases i
  {
    if e.skip != 0 && e.skip <= i && e.ptr != PHYS_MAP_NODE_NIL && e.ptr < |nodes| {
      var l := i - e.skip;
      assert Digit(q, l) == Digit(p, l);
      WalkSameDigits(nodes, nodes[e.ptr][Digit(q, l)], l, q, p);
    }
  }

  lemma {:induction false} LowDigits(q: nat, i: nat, l: nat)
    requires l < i
    ensures Digit(Low(q, i), l) == Digit(q, l)
    decreases i
  {
    if l > 0 {
      assert Low(q, i) / P_L2_SIZE == Low(q / P_L2_SIZE, i - 1);
      LowDigits(q / P_L2_SIZE, i - 1, l - 1);
      TopShift(q, l - 1);
      TopShift(Low(q, i), l - 1);
    }
  }

  /** Some page below `Span(i)` finds whatever `q` finds. */
  lemma WalkLowDigits(nodes: seq<Node>, e: PhysPageEntry, i: nat, q: nat)
    ensures Walk(nodes, e, i, q) == Walk(nodes, e, i, Low(q, i))
  {
    forall l | 0 <= l < i
      ensures Digit(q, l) == Digit(Low(q, i), l)
    {
      LowDigits(q, i, l);
    }
    WalkSameDigits(nodes, e, i, q, Low(q, i));
  }

  /** The page with digit `j` at level `l` that agrees with `q` below. */
  function Splice(q: nat, l: nat, j: nat): nat {
    if l == 0 then j else q % P_L2_SIZE + P_L2_SIZE * Splice(q / P_L2_SIZE, l - 1, j)
  }

  lemma {:induction false} SpliceDigits(q: nat, l: nat, j: nat, m: nat)
    requires m <= l && j < P_L2_SIZE
    ensures Digit(Splice(q, l, j), m) == if m == l then j else Digit(q, m)
    decreases l
  {
    if m > 0 {
      assert Splice(q, l, j) / P_L2_SIZE == Splice(q / P_L2_SIZE, l - 1, j);
      SpliceDigits(q / P_L2_SIZE, l - 1, j, m - 1);
      TopShift(q, m - 1);
      TopShift(Splice(q, l, j), m - 1);
    }
  }

  lemma SpliceWalk(nodes: seq<Node>, e: PhysPageEntry, i: nat, q: nat, j: nat)
    requires 0 < e.skip <= i && e.ptr < |nodes| && e.ptr != PHYS_MAP_NODE_NIL && j < P_L2_SIZE
    ensures var l := i - e.skip;
            Walk(nodes, e, i, Splice(q, l, j)) == Walk(nodes, nodes[e.ptr][j], l, q)
  {
    var l := i - e.skip;
    var p := Splice(q, l, j);
    SpliceDigits(q, l, j, l);
    forall m | 0 <= m < l
      ensures Digit(p, m) == Digit(q, m)
    {
      SpliceDigits(q, l, j, m);
    }
    WalkSameDigits(nodes, nodes[e.ptr][j], l, p, q);
  }

  lemma {:induction false} WalkLowLv(nodes: seq<Node>, shape: seq<Shape>, n: nat, x: Node, e: PhysPageEntry, i: nat, q: nat)
    requires TreeLv(nodes, shape) && EntryLv(e, i, shape)
    requires n < |nodes| && i <= shape[n].level
    ensures Walk(nodes[n := x], e, i, q) == Walk(nodes, e, i, q)
    decreases i
  {
    if e.skip != 0 && e.ptr != PHYS_MAP_NODE_NIL {
      var j := Digit(q, i - e.skip);
      assert SlotLv(nodes, shape, e.ptr, j);
      WalkLowLv(nodes, shape, n, x, nodes[e.ptr][j], i - e.skip, q);
    }
  }

  ghost predicate OnlyChild(p: Node, v: nat) {
    && v < P_L2_SIZE
    && p[v].ptr != PHYS_MAP_NODE_NIL
    && forall m :: 0 <= m < P_L2_SIZE && m != v ==> p[m].ptr == PHYS_MAP_NODE_NIL
  }

  lemma TwoChildren(p: Node, a: nat, b: nat)
    requires a < b < P_L2_SIZE && p[a].ptr != PHYS_MAP_NODE_NIL && p[b].ptr != PHYS_MAP_NODE_NIL
    ensures forall v: nat :: !OnlyChild(p, v)
  {
    forall v: nat
      ensures !OnlyChild(p, v)
    {
      assert v != a || v != b;
    }
  }

  lemma NoChildren(p: Node)
    requires forall m :: 0 <= m < P_L2_SIZE ==> p[m].ptr == PHYS_MAP_NODE_NIL
    ensures forall v: nat :: !OnlyChild(p, v)
  {
  }

  /** The entry that skips a node with one child. */
  function Shortcut(e: PhysPageEntry, child: PhysPageEntry): PhysPageEntry {
    if child.skip == 0 then PhysPageEntry(0, child.ptr) else PhysPageEntry(e.skip + child.skip, child.ptr)
  }

  lemma Bypass(nodes: seq<Node>, shape: seq<Shape>, e: PhysPageEntry, i: nat, v: nat)
    requires TreeLv(nodes, shape) && EntryLv(e, i, shape) && e.skip > 0 && e.ptr != PHYS_MAP_NODE_NIL
    requires OnlyChild(nodes[e.ptr], v)
    ensures EntryLv(Shortcut(e, nodes[e.ptr][v]), i, shape)
    ensures Refines(nodes, e, nodes, Shortcut(e, nodes[e.ptr][v]), i)
    ensures Shortcut(e, nodes[e.ptr][v]).ptr != PHYS_MAP_NODE_NIL
  {
    var child, l := nodes[e.ptr][v], i - e.skip;
    var e' := Shortcut(e, child);
    assert SlotLv(nodes, shape, e.ptr, v);
    forall q: nat
      ensures RefinesAt(nodes, e, nodes, e', i, q)
    {
      assert Walk(nodes, e', i, q) == Walk(nodes, child, l, q);
      if Digit(q, l) != v {
        assert SlotLv(nodes, shape, e.ptr, Digit(q, l));
        SpliceWalk(nodes, e, i, q, v);
        assert Walk(nodes, e', i, q) == Walk(nodes, e, i, Splice(q, l, v));
      }
    }
  }

  lemma {:induction false} SlotRefinesAt(nodes: seq<Node>, shape: seq<Shape>, n: nat, j: nat, e': PhysPageEntry,
                                         e: PhysPageEntry, i: nat, q: nat)
    requires TreeLv(nodes, shape) && EntryLv(e, i, shape) && n < |nodes| && j < P_L2_SIZE
    requires EntryLv(e', shape[n].level, shape) && Refines(nodes, nodes[n][j], nodes, e', shape[n].level)
    ensures RefinesAt(nodes, e, nodes[n := nodes[n][j := e']], e, i, q)
    decreases i
  {
    var nodes' := nodes[n := nodes[n][j := e']];
    if e.skip != 0 && e.ptr != PHYS_MAP_NODE_NIL {
      var l := i - e.skip;
      var k := Digit(q, l);
      assert SlotLv(nodes, shape, e.ptr, k);
      var x, x' := nodes[e.ptr][k], nodes'[e.ptr][k];
      if e.ptr == n && k == j {
        WalkLowLv(nodes, shape, n, nodes[n][j := e'], e', l, q);
        assert RefinesAt(nodes, x, nodes, e', l, q);
      } else {
        SlotRefinesAt(nodes, shape, n, j, e', x, l, q);
      }
      if Walk(nodes', x', l, q) != Walk(nodes, x, l, q) {
        var p: nat :| Walk(nodes', x', l, q) == Walk(nodes, x, l, p);
        SpliceWalk(nodes, e, i, p, k);
        assert Walk(nodes', e, i, q) == Walk(nodes, e, i, Splice(p, l, k));
      }
    }
  }

  lemma SlotRefines(nodes: seq<Node>, shape: seq<Shape>, n: nat, j: nat, e': PhysPageEntry)
    requires TreeLv(nodes, shape) && n < |nodes| && j < P_L2_SIZE
    requires EntryLv(e', shape[n].level, shape) && Refines(nodes, nodes[n][j], nodes, e', shape[n].level)
    ensures TreeLv(nodes[n := nodes[n][j := e']], shape)
    ensures AllRefine(nodes, nodes[n := nodes[n][j := e']], shape)
  {
    var nodes' := nodes[n := nodes[n][j := e']];
    forall e, i: nat | EntryLv(e, i, shape)
      ensures Refines(nodes, e, nodes', e, i)
    {
      forall q: nat
        ensures RefinesAt(nodes, e, nodes', e, i, q)
      {
        SlotRefinesAt(nodes, shape, n, j, e', e, i, q);
      }
    }
    forall m, k | 0 <= m < |nodes'| && 0 <= k < P_L2_SIZE
      ensures SlotLv(nodes', shape, m, k)
    {
      assert SlotLv(nodes, shape, m, k);
    }
  }
}
