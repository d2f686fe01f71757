/**
 The dispatch table of an address space in qemu/exec.c: `mem_begin` starts an empty table,
 `mem_add` cuts each memory section into pieces and registers them, `mem_commit` compacts
 and publishes the table, and `address_space_translate_internal` looks addresses up in it
 through a one-entry cache.
 */
module MemoryDispatch {
  import opened Arithmetic
  import opened Options
  import opened PhysMap

  const TARGET_PAGE_BITS: nat := 12
  const TARGET_PAGE_SIZE: nat := 4096
  const ADDR_SPACE: nat := 0x1_0000_0000_0000_0000
  const P_L2_LEVELS: nat := 6
  const NODES_PER_SECTION: nat := 2 * P_L2_LEVELS - 1

  datatype Region =
    | IoMemUnassigned
    | IoMemNotdirty
    | IoMemRom
    | IoMemWatch
    | SubpageIo(table: nat)
    | Guest(id: nat, ram: bool)

  /** A MemoryRegionSection: `size` is a 128-bit number, so 2^64 is a possible size. */
  datatype Section = Section(mr: Region, start: nat, offset: nat, size: nat)

  function Wrap64(x: int): (r: nat)
    ensures r < ADDR_SPACE
  {
    x % ADDR_SPACE
  }

  /** `addr` is one of the addresses of `s`. */
  predicate Covers(s: Section, addr: nat) {
    s.start <= addr < s.start + s.size
  }

  /** `section_covers_addr`, which works on 64-bit numbers. */
  predicate SectionCoversAddr(s: Section, addr: nat) {
    s.size >= ADDR_SPACE || s.start <= addr <= Wrap64(s.start + s.size - 1)
  }

  /** For a section inside the address space, the wrapping check is the plain interval test. */
  lemma CoverCheckIsInterval(s: Section, addr: nat)
    requires s.size > 0 && s.start + s.size <= ADDR_SPACE && addr < ADDR_SPACE
    ensures SectionCoversAddr(s, addr) <==> Covers(s, addr)
  {
  }

  /** What the memory core hands to a listener: a non-empty section inside the address space. */
  predicate Proper(s: Section) {
    s.mr.Guest? && s.size > 0 && s.start + s.size <= ADDR_SPACE && s.offset < ADDR_SPACE
  }

  predicate Disjoint(s: Section, t: Section) {
    s.start + s.size <= t.start || t.start + t.size <= s.start
  }

  predicate PairwiseDisjoint(view: seq<Section>) {
    forall i, j :: 0 <= i < j < |view| ==> Disjoint(view[i], view[j])
  }

  // ------------------------------------------------------------ the table as a value

  datatype Tree = Tree(nodes: seq<Node>, root: PhysPageEntry)

  function At(t: Tree, page: nat): nat {
    Walk(t.nodes, t.root, P_L2_LEVELS, page)
  }

  /** `phys_page_find`. */
  function FindSection(t: Tree, sections: seq<Section>, addr: nat): nat {
    var s := At(t, addr / TARGET_PAGE_SIZE);
    if s < |sections| && Covers(sections[s], addr) then s else PHYS_SECTION_UNASSIGNED
  }

  /** A subpage section stands for the section that its table holds for the byte. */
  function Descend(sections: seq<Section>, subpages: seq<seq<nat>>, s: nat, addr: nat): nat {
    if s < |sections| && sections[s].mr.SubpageIo? then
      var k := sections[s].mr.table;
      if k < |subpages| && |subpages[k]| == TARGET_PAGE_SIZE then subpages[k][addr % TARGET_PAGE_SIZE]
      else PHYS_SECTION_UNASSIGNED
    else s
  }

  /** The uncached search followed by subpage resolution. */
  function Resolve(t: Tree, sections: seq<Section>, subpages: seq<seq<nat>>, addr: nat): nat {
    Descend(sections, subpages, FindSection(t, sections, addr), addr)
  }

  function Dummies(): seq<Section> {
    [Section(IoMemUnassigned, 0, 0, ADDR_SPACE), Section(IoMemNotdirty, 0, 0, ADDR_SPACE),
     Section(IoMemRom, 0, 0, ADDR_SPACE), Section(IoMemWatch, 0, 0, ADDR_SPACE)]
  }

  /** `p` is a piece of `a`, with the region offset moved along. */
  ghost predicate PieceOf(p: Section, a: Section) {
    && p.mr == a.mr
    && a.start <= p.start
    && p.start + p.size <= a.start + a.size
    && p.offset == Wrap64(a.offset + (p.start - a.start))
  }

  /** The section array: four dummies, then pieces and subpage containers with tables of their own. */
  ghost predicate SectionsOk(sections: seq<Section>, subpages: seq<seq<nat>>) {
    && 4 <= |sections| <= TARGET_PAGE_SIZE
    && sections[..4] == Dummies()
    && (forall s :: 4 <= s < |sections| ==> SectionOk(sections[s], subpages))
    && (forall s, s' :: 4 <= s < s' < |sections| && sections[s].mr.SubpageIo? ==> sections[s].mr != sections[s'].mr)
    && (forall k :: 0 <= k < |subpages| ==> |subpages[k]| == TARGET_PAGE_SIZE)
  }

  ghost predicate SectionOk(s: Section, subpages: seq<seq<nat>>) {
    && s.size > 0
    && s.start + s.size <= ADDR_SPACE
    && (s.mr.Guest? || (s.mr.SubpageIo? && s.mr.table < |subpages| && s.size == TARGET_PAGE_SIZE
                        && s.start % TARGET_PAGE_SIZE == 0 && s.offset == 0))
  }

  /** A page that holds a section lies wholly inside it. */
  ghost predicate LeafOk(t: Tree, sections: seq<Section>, page: nat) {
    var s := At(t, page);
    s != PHYS_SECTION_UNASSIGNED ==>
      4 <= s < |sections| && sections[s].start <= page * TARGET_PAGE_SIZE
      && page * TARGET_PAGE_SIZE + TARGET_PAGE_SIZE <= sections[s].start + sections[s].size
  }

  ghost predicate LeavesOk(t: Tree, sections: seq<Section>) {
    forall page :: 0 <= page < Span(P_L2_LEVELS) ==> LeafOk(t, sections, page)
  }

  /** What a lookup resolves to is unassigned or a piece that covers the address. */
  ghost predicate ResolvesOk(t: Tree, sections: seq<Section>, subpages: seq<seq<nat>>, addr: nat) {
    var r := Resolve(t, sections, subpages, addr);
    r != PHYS_SECTION_UNASSIGNED ==> 4 <= r < |sections| && sections[r].mr.Guest? && Covers(sections[r], addr)
  }

  ghost predicate AllResolveOk(t: Tree, sections: seq<Section>, subpages: seq<seq<nat>>) {
    forall addr :: 0 <= addr < ADDR_SPACE ==> ResolvesOk(t, sections, subpages, addr)
  }

  /** A piece is found at every address that it covers, a container on its whole page. */
  ghost predicate Owns(t: Tree, sections: seq<Section>, subpages: seq<seq<nat>>, s: nat, addr: nat)
    requires s < |sections|
  {
    Covers(sections[s], addr) ==>
      if sections[s].mr.SubpageIo? then FindSection(t, sections, addr) == s
      else Resolve(t, sections, subpages, addr) == s
  }

  ghost predicate AllOwn(t: Tree, sections: seq<Section>, subpages: seq<seq<nat>>) {
    forall s, addr :: 4 <= s < |sections| && 0 <= addr < ADDR_SPACE ==> Owns(t, sections, subpages, s, addr)
  }

  /** Every piece comes from a section of the view, and every covered address is assigned. */
  ghost predicate Origins(sections: seq<Section>, view: seq<Section>) {
    forall s :: 4 <= s < |sections| && sections[s].mr.Guest? ==> HasOrigin(sections[s], view)
  }

  ghost predicate HasOrigin(p: Section, view: seq<Section>) {
    exists i :: 0 <= i < |view| && PieceOf(p, view[i])
  }

  ghost predicate Complete(t: Tree, sections: seq<Section>, subpages: seq<seq<nat>>, view: seq<Section>) {
    forall i, addr :: 0 <= i < |view| && 0 <= addr < ADDR_SPACE && Covers(view[i], addr) ==>
      Resolve(t, sections, subpages, addr) != PHYS_SECTION_UNASSIGNED
  }

  /** A container (other than one just made) holds at least one piece. */
  ghost predicate InUse(t: Tree, sections: seq<Section>, subpages: seq<seq<nat>>, except: nat) {
    forall s :: 4 <= s < |sections| && sections[s].mr.SubpageIo? && s != except ==>
      SomePiece(t, sections, subpages, sections[s])
  }

  ghost predicate SomePiece(t: Tree, sections: seq<Section>, subpages: seq<seq<nat>>, s: Section) {
    exists addr :: 0 <= addr < ADDR_SPACE && Covers(s, addr)
      && Resolve(t, sections, subpages, addr) != PHYS_SECTION_UNASSIGNED
  }

  ghost predicate ViewOk(view: seq<Section>) {
    (forall i :: 0 <= i < |view| ==> Proper(view[i])) && PairwiseDisjoint(view)
  }

  ghost predicate Consistent(t: Tree, sections: seq<Section>, subpages: seq<seq<nat>>, view: seq<Section>, except: nat) {
    && SectionsOk(sections, subpages)
    && LeavesOk(t, sections)
    && AllResolveOk(t, sections, subpages)
    && AllOwn(t, sections, subpages)
    && Origins(sections, view)
    && Complete(t, sections, subpages, view)
    && InUse(t, sections, subpages, except)
    && ViewOk(view)
  }

  // ------------------------------------------------------------ what consistency gives

  /** The region and offset that the view itself assigns to an address. */
  ghost predicate Answers(view: seq<Section>, addr: nat, mr: Region, xlat: nat) {
    && (forall i :: 0 <= i < |view| && Covers(view[i], addr) ==>
          mr == view[i].mr && xlat == Wrap64(addr - view[i].start + view[i].offset))
    && ((forall i :: 0 <= i < |view| ==> !Covers(view[i], addr)) ==>
          mr == IoMemUnassigned && xlat == addr)
  }

  lemma CoverUnique(view: seq<Section>, i: nat, j: nat, addr: nat)
    requires ViewOk(view) && i < |view| && j < |view| && addr < ADDR_SPACE
    requires Covers(view[i], addr) && Covers(view[j], addr)
    ensures i == j
  {
  }

  /** Moving the offset along with the start leaves the translation alone. */
  lemma SameXlat(p: Section, a: Section, addr: nat)
    requires PieceOf(p, a)
    ensures Wrap64(Wrap64(addr - p.start) + p.offset) == Wrap64(addr - a.start + a.offset)
  {
    var x, y := addr - p.start, a.offset + (p.start - a.start);
    var i, j := x / ADDR_SPACE, y / ADDR_SPACE;
    assert x % ADDR_SPACE + y % ADDR_SPACE == (x + y) - (i + j) * ADDR_SPACE;
  }

  /** A piece that covers an address comes from the only section of the view that does. */
  lemma PieceAnswers(p: Section, view: seq<Section>, addr: nat)
    requires ViewOk(view) && HasOrigin(p, view) && addr < ADDR_SPACE
    requires p.size > 0 && p.start + p.size <= ADDR_SPACE && Covers(p, addr)
    ensures Answers(view, addr, p.mr, Wrap64(Wrap64(addr - p.start) + p.offset))
    ensures exists i :: 0 <= i < |view| && Covers(view[i], addr)
  {
    var j :| 0 <= j < |view| && PieceOf(p, view[j]);
    SameXlat(p, view[j], addr);
    forall i | 0 <= i < |view| && Covers(view[i], addr)
      ensures i == j
    {
      CoverUnique(view, i, j, addr);
    }
  }

  /** A resolving lookup answers as the flat view does. */
  lemma ResolveAnswers(t: Tree, sections: seq<Section>, subpages: seq<seq<nat>>, view: seq<Section>, addr: nat)
    requires SectionsOk(sections, subpages) && AllResolveOk(t, sections, subpages)
    requires Origins(sections, view) && Complete(t, sections, subpages, view) && ViewOk(view)
    requires addr < ADDR_SPACE
    ensures var r := Resolve(t, sections, subpages, addr);
            r < |sections| && Answers(view, addr, sections[r].mr, Wrap64(Wrap64(addr - sections[r].start) + sections[r].offset))
  {
    var r := Resolve(t, sections, subpages, addr);
    assert ResolvesOk(t, sections, subpages, addr);
    if r == PHYS_SECTION_UNASSIGNED {
      assert sections[..4][0] == sections[0];
      assert forall i :: 0 <= i < |view| ==> !Covers(view[i], addr);
    } else {
      assert SectionOk(sections[r], subpages);
      PieceAnswers(sections[r], view, addr);
    }
  }

  /** Compaction changes no lookup: a page that runs into a foreign section fails the cover check. */
  lemma CompactionKeepsFind(t0: Tree, t1: Tree, sections: seq<Section>, subpages: seq<seq<nat>>, addr: nat)
    requires SectionsOk(sections, subpages) && LeavesOk(t0, sections) && AllOwn(t0, sections, subpages)
    requires addr < ADDR_SPACE
    requires Refines(t0.nodes, t0.root, t1.nodes, t1.root, P_L2_LEVELS)
    ensures FindSection(t1, sections, addr) == FindSection(t0, sections, addr)
  {
    var q := addr / TARGET_PAGE_SIZE;
    assert RefinesAt(t0.nodes, t0.root, t1.nodes, t1.root, P_L2_LEVELS, q);
    if At(t1, q) != At(t0, q) {
      var p: nat :| Walk(t1.nodes, t1.root, P_L2_LEVELS, q) == Walk(t0.nodes, t0.root, P_L2_LEVELS, p);
      var s := ForeignLeaf(t0, sections, p);
      assert s == At(t1, q);
      if Covers(sections[s], addr) {
        assert Owns(t0, sections, subpages, s, addr);
      }
    }
  }

  /** Any page number, however large, finds what some page of the address space finds. */
  lemma ForeignLeaf(t: Tree, sections: seq<Section>, p: nat) returns (s: nat)
    requires LeavesOk(t, sections)
    ensures s == At(t, p)
    ensures s == PHYS_SECTION_UNASSIGNED || 4 <= s < |sections|
  {
    WalkLowDigits(t.nodes, t.root, P_L2_LEVELS, p);
    s := At(t, p);
    assert LeafOk(t, sections, Low(p, P_L2_LEVELS));
  }

  // ------------------------------------------------------------ registering one piece

  ghost predicate DisjointFrom(p: Section, view: seq<Section>) {
    forall i :: 0 <= i < |view| ==> Disjoint(p, view[i])
  }

  /** An address of a piece that is new to the view is covered by no registered piece. */
  lemma NewAddress(sections: seq<Section>, subpages: seq<seq<nat>>, view: seq<Section>, piece: Section, s: nat, addr: nat)
    requires SectionsOk(sections, subpages) && Origins(sections, view) && ViewOk(view)
    requires Proper(piece) && DisjointFrom(piece, view) && addr < ADDR_SPACE && Covers(piece, addr)
    requires 4 <= s < |sections|
    ensures sections[s].mr.Guest? ==> !Covers(sections[s], addr)
  {
    if sections[s].mr.Guest? {
      assert SectionOk(sections[s], subpages) && HasOrigin(sections[s], view);
      var j :| 0 <= j < |view| && PieceOf(sections[s], view[j]);
      assert Disjoint(piece, view[j]);
    }
  }

  /** No page of a new piece is held by another piece, nor by a container that is in use. */
  lemma NewPage(t: Tree, sections: seq<Section>, subpages: seq<seq<nat>>, view: seq<Section>, piece: Section, page: nat)
    requires Consistent(t, sections, subpages, view, 0)
    requires Proper(piece) && DisjointFrom(piece, view)
    requires piece.start <= page * TARGET_PAGE_SIZE
    requires page * TARGET_PAGE_SIZE + TARGET_PAGE_SIZE <= piece.start + piece.size
    requires page < Span(P_L2_LEVELS)
    ensures At(t, page) == PHYS_SECTION_UNASSIGNED
  {
    var s: nat, base: nat := At(t, page), page * TARGET_PAGE_SIZE;
    if 4 <= s < |sections| {
      NewAddress(sections, subpages, view, piece, s, base);
      assert SectionOk(sections[s], subpages);
      if sections[s].mr.SubpageIo? {
        assert SomePiece(t, sections, subpages, sections[s]);
        var addr :| 0 <= addr < ADDR_SPACE && Covers(sections[s], addr)
                    && Resolve(t, sections, subpages, addr) != PHYS_SECTION_UNASSIGNED;
        if Covers(piece, addr) {
          NewUnresolved(t, sections, subpages, view, piece, addr);
        }
      }
    }
    assert LeafOk(t, sections, page);
  }

  lemma NewUnresolved(t: Tree, sections: seq<Section>, subpages: seq<seq<nat>>, view: seq<Section>, piece: Section, addr: nat)
    requires SectionsOk(sections, subpages) && Origins(sections, view) && ViewOk(view)
    requires AllResolveOk(t, sections, subpages)
    requires Proper(piece) && DisjointFrom(piece, view) && addr < ADDR_SPACE && Covers(piece, addr)
    ensures Resolve(t, sections, subpages, addr) == PHYS_SECTION_UNASSIGNED
  {
    var r := Resolve(t, sections, subpages, addr);
    if 4 <= r < |sections| {
      NewAddress(sections, subpages, view, piece, r, addr);
    }
    assert ResolvesOk(t, sections, subpages, addr);
  }

  /** The assertion in `register_subpage`: the page of a new subpage piece holds nothing or a container. */
  lemma SubpageAssertion(t: Tree, sections: seq<Section>, subpages: seq<seq<nat>>, view: seq<Section>, piece: Section)
    requires SectionsOk(sections, subpages) && LeavesOk(t, sections) && Origins(sections, view) && ViewOk(view)
    requires Proper(piece) && DisjointFrom(piece, view)
    ensures var page := piece.start / TARGET_PAGE_SIZE;
            var s := FindSection(t, sections, page * TARGET_PAGE_SIZE);
            && s == At(t, page)
            && s < |sections|
            && (sections[s].mr.SubpageIo? || (s == PHYS_SECTION_UNASSIGNED && sections[s].mr == IoMemUnassigned))
            && (sections[s].mr.SubpageIo? ==> sections[s].start == page * TARGET_PAGE_SIZE)
  {
    var page := piece.start / TARGET_PAGE_SIZE;
    var base := page * TARGET_PAGE_SIZE;
    PagesFit();
    assert LeafOk(t, sections, page);
    assert sections[..4][0] == sections[0];
    var s := At(t, page);
    if s != PHYS_SECTION_UNASSIGNED {
      assert SectionOk(sections[s], subpages);
      NewAddress(sections, subpages, view, piece, s, piece.start);
    }
  }

  predicate Container(sections: seq<Section>, s: nat) {
    s < |sections| && sections[s].mr.SubpageIo?
  }

  /** The new piece owns its addresses; every other address resolves as before, and containers stay put. */
  ghost predicate Grown(t: Tree, sections: seq<Section>, subpages: seq<seq<nat>>,
                        t': Tree, subpages': seq<seq<nat>>, piece: Section)
  {
    var sections' := sections + [piece];
    && (forall addr :: 0 <= addr < ADDR_SPACE ==>
          Resolve(t', sections', subpages', addr)
          == if Covers(piece, addr) then |sections| else Resolve(t, sections, subpages, addr))
    && (forall addr :: 0 <= addr < ADDR_SPACE && Container(sections, FindSection(t, sections, addr)) ==>
          FindSection(t', sections', addr) == FindSection(t, sections, addr))
  }

  /** Growing keeps what lookups promise. */
  lemma GrownLookups(t: Tree, sections: seq<Section>, subpages: seq<seq<nat>>, view: seq<Section>,
                     t': Tree, subpages': seq<seq<nat>>, piece: Section)
    requires SectionsOk(sections, subpages) && Origins(sections, view) && ViewOk(view)
    requires AllResolveOk(t, sections, subpages) && AllOwn(t, sections, subpages)
    requires Proper(piece) && DisjointFrom(piece, view)
    requires Grown(t, sections, subpages, t', subpages', piece)
    ensures AllResolveOk(t', sections + [piece], subpages') && AllOwn(t', sections + [piece], subpages')
  {
    var sections' := sections + [piece];
    forall addr | 0 <= addr < ADDR_SPACE
      ensures ResolvesOk(t', sections', subpages', addr)
    {
      assert ResolvesOk(t, sections, subpages, addr);
    }
    forall s, addr | 4 <= s < |sections'| && 0 <= addr < ADDR_SPACE
      ensures Owns(t', sections', subpages', s, addr)
    {
      if s < |sections| && Covers(sections[s], addr) {
        assert Owns(t, sections, subpages, s, addr);
        assert SectionOk(sections[s], subpages);
        if sections[s].mr.Guest? && Covers(piece, addr) {
          NewAddress(sections, subpages, view, piece, s, addr);
        }
      }
    }
  }

  /** Growing the table by one piece grows the view by that piece. */
  lemma GrownView(t: Tree, sections: seq<Section>, subpages: seq<seq<nat>>, view: seq<Section>,
                  t': Tree, subpages': seq<seq<nat>>, piece: Section, except: nat)
    requires 4 <= |sections| && Origins(sections, view) && ViewOk(view)
    requires Complete(t, sections, subpages, view) && InUse(t, sections, subpages, except)
    requires Proper(piece) && DisjointFrom(piece, view)
    requires Grown(t, sections, subpages, t', subpages', piece)
    requires 4 <= except < |sections| ==> exists addr :: 0 <= addr < ADDR_SPACE && Covers(sections[except], addr) && Covers(piece, addr)
    ensures ViewOk(view + [piece]) && Origins(sections + [piece], view + [piece])
    ensures Complete(t', sections + [piece], subpages', view + [piece])
    ensures InUse(t', sections + [piece], subpages', 0)
  {
    var sections', view' := sections + [piece], view + [piece];
    forall s | 4 <= s < |sections'| && sections'[s].mr.Guest?
      ensures HasOrigin(sections'[s], view')
    {
      if s < |sections| {
        assert HasOrigin(sections[s], view);
        var j :| 0 <= j < |view| && PieceOf(sections[s], view[j]);
        assert view'[j] == view[j];
      } else {
        assert PieceOf(piece, view'[|view|]);
      }
    }
    forall s | 4 <= s < |sections'| && sections'[s].mr.SubpageIo?
      ensures SomePiece(t', sections', subpages', sections'[s])
    {
      if s != except {
        assert SomePiece(t, sections, subpages, sections[s]);
        var addr :| 0 <= addr < ADDR_SPACE && Covers(sections[s], addr)
                    && Resolve(t, sections, subpages, addr) != PHYS_SECTION_UNASSIGNED;
        assert Resolve(t', sections', subpages', addr) != PHYS_SECTION_UNASSIGNED;
      } else {
        var addr :| 0 <= addr < ADDR_SPACE && Covers(sections[except], addr) && Covers(piece, addr);
        assert Resolve(t', sections', subpages', addr) != PHYS_SECTION_UNASSIGNED;
      }
    }
  }

  /** `t'` holds `s` on the pages from `lo` to `hi`, and what `t` holds elsewhere. */
  ghost predicate TreeSet(t: Tree, t': Tree, lo: nat, hi: nat, s: nat) {
    RangeSet(t.nodes, t.root, t'.nodes, t'.root, P_L2_LEVELS, lo, hi, s)
  }

  lemma PagesFit()
    ensures P_L2_LEVELS == (64 - TARGET_PAGE_BITS - 1) / 9 + 1
    ensures Span(P_L2_LEVELS) == 0x40_0000_0000_0000
  {
    assert Span(3) == 0x800_0000;
    assert Span(6) == 512 * (512 * (512 * Span(3)));
  }

  /** A whole-page piece stored in the tree. */
  lemma MultipageGrows(t: Tree, sections: seq<Section>, subpages: seq<seq<nat>>, t': Tree, piece: Section)
    requires SectionsOk(sections, subpages) && LeavesOk(t, sections) && |sections| < TARGET_PAGE_SIZE
    requires Proper(piece) && piece.start % TARGET_PAGE_SIZE == 0 && piece.size % TARGET_PAGE_SIZE == 0
    requires var lo := piece.start / TARGET_PAGE_SIZE;
             var hi := lo + piece.size / TARGET_PAGE_SIZE;
             && TreeSet(t, t', lo, hi, |sections|)
             && Unassigned(t.nodes, t.root, P_L2_LEVELS, lo, hi)
    ensures LeavesOk(t', sections + [piece]) && SectionsOk(sections + [piece], subpages)
    ensures Grown(t, sections, subpages, t', subpages, piece)
  {
    PagesFit();
    var sections' := sections + [piece];
    assert sections'[..4] == sections[..4];
    forall page | 0 <= page < Span(P_L2_LEVELS)
      ensures LeafOk(t', sections', page)
    {
      assert LeafOk(t, sections, page);
    }
    forall addr | 0 <= addr < ADDR_SPACE
      ensures FindSection(t', sections', addr) == if Covers(piece, addr) then |sections| else FindSection(t, sections, addr)
    {
      assert LeafOk(t, sections, addr / TARGET_PAGE_SIZE);
    }
    assert sections[..4][0] == sections[0];
  }

  /** A fresh container on an unassigned page changes no lookup. */
  lemma ContainerGrows(t: Tree, sections: seq<Section>, subpages: seq<seq<nat>>, view: seq<Section>, t': Tree, page: nat)
    requires Consistent(t, sections, subpages, view, 0) && |sections| < TARGET_PAGE_SIZE
    requires page * TARGET_PAGE_SIZE < ADDR_SPACE && At(t, page) == PHYS_SECTION_UNASSIGNED
    requires TreeSet(t, t', page, page + 1, |sections|)
    ensures var c := Section(SubpageIo(|subpages|), page * TARGET_PAGE_SIZE, 0, TARGET_PAGE_SIZE);
            var zeros := seq(TARGET_PAGE_SIZE, i => PHYS_SECTION_UNASSIGNED);
            Consistent(t', sections + [c], subpages + [zeros], view, |sections|)
  {
    PagesFit();
    var c := Section(SubpageIo(|subpages|), page * TARGET_PAGE_SIZE, 0, TARGET_PAGE_SIZE);
    var sections' := sections + [c];
    var subpages' := subpages + [seq(TARGET_PAGE_SIZE, i => PHYS_SECTION_UNASSIGNED)];
    assert sections'[..4] == sections[..4];
    assert SectionsOk(sections', subpages') by {
      forall s | 4 <= s < |sections'| ensures SectionOk(sections'[s], subpages') {
        if s < |sections| { assert SectionOk(sections[s], subpages); }
      }
    }
    assert LeavesOk(t', sections') by {
      forall q | 0 <= q < Span(P_L2_LEVELS) ensures LeafOk(t', sections', q) {
        assert LeafOk(t, sections, q);
      }
    }
    ContainerFinds(t, sections, subpages, t', page);
    ContainerLookups(t, sections, subpages, view, t', page);
  }

  lemma ContainerFinds(t: Tree, sections: seq<Section>, subpages: seq<seq<nat>>, t': Tree, page: nat)
    requires SectionsOk(sections, subpages) && LeavesOk(t, sections)
    requires page * TARGET_PAGE_SIZE < ADDR_SPACE && At(t, page) == PHYS_SECTION_UNASSIGNED
    requires TreeSet(t, t', page, page + 1, |sections|)
    ensures var c := Section(SubpageIo(|subpages|), page * TARGET_PAGE_SIZE, 0, TARGET_PAGE_SIZE);
            var subpages' := subpages + [seq(TARGET_PAGE_SIZE, i => PHYS_SECTION_UNASSIGNED)];
            forall addr :: 0 <= addr < ADDR_SPACE ==>
              && FindSection(t', sections + [c], addr)
                 == (if addr / TARGET_PAGE_SIZE == page then |sections| else FindSection(t, sections, addr))
              && Resolve(t', sections + [c], subpages', addr) == Resolve(t, sections, subpages, addr)
  {
    PagesFit();
    var c := Section(SubpageIo(|subpages|), page * TARGET_PAGE_SIZE, 0, TARGET_PAGE_SIZE);
    var sections' := sections + [c];
    var subpages' := subpages + [seq(TARGET_PAGE_SIZE, i => PHYS_SECTION_UNASSIGNED)];
    assert sections[..4][0] == sections[0];
    forall addr | 0 <= addr < ADDR_SPACE
      ensures FindSection(t', sections', addr)
              == (if addr / TARGET_PAGE_SIZE == page then |sections| else FindSection(t, sections, addr))
      ensures Resolve(t', sections', subpages', addr) == Resolve(t, sections, subpages, addr)
    {
      assert LeafOk(t, sections, addr / TARGET_PAGE_SIZE);
      var s := FindSection(t, sections, addr);
      if 4 <= s { assert SectionOk(sections[s], subpages); }
    }
  }

  lemma ContainerLookups(t: Tree, sections: seq<Section>, subpages: seq<seq<nat>>, view: seq<Section>, t': Tree, page: nat)
    requires Consistent(t, sections, subpages, view, 0)
    requires page * TARGET_PAGE_SIZE < ADDR_SPACE && At(t, page) == PHYS_SECTION_UNASSIGNED
    requires TreeSet(t, t', page, page + 1, |sections|)
    ensures var c := Section(SubpageIo(|subpages|), page * TARGET_PAGE_SIZE, 0, TARGET_PAGE_SIZE);
            var sections' := sections + [c];
            var subpages' := subpages + [seq(TARGET_PAGE_SIZE, i => PHYS_SECTION_UNASSIGNED)];
            && AllResolveOk(t', sections', subpages') && AllOwn(t', sections', subpages')
            && Origins(sections', view) && Complete(t', sections', subpages', view)
            && InUse(t', sections', subpages', |sections|)
  {
    var c := Section(SubpageIo(|subpages|), page * TARGET_PAGE_SIZE, 0, TARGET_PAGE_SIZE);
    var sections' := sections + [c];
    var subpages' := subpages + [seq(TARGET_PAGE_SIZE, i => PHYS_SECTION_UNASSIGNED)];
    ContainerFinds(t, sections, subpages, t', page);
    forall addr | 0 <= addr < ADDR_SPACE
      ensures ResolvesOk(t', sections', subpages', addr)
    {
      assert ResolvesOk(t, sections, subpages, addr);
    }
    forall s, addr | 4 <= s < |sections'| && 0 <= addr < ADDR_SPACE
      ensures Owns(t', sections', subpages', s, addr)
    {
      if s < |sections| {
        assert Owns(t, sections, subpages, s, addr);
      }
    }
    forall s | 4 <= s < |sections'| && sections'[s].mr.Guest?
      ensures HasOrigin(sections'[s], view)
    {
      assert HasOrigin(sections[s], view);
    }
    forall s | 4 <= s < |sections'| && sections'[s].mr.SubpageIo? && s != |sections|
      ensures SomePiece(t', sections', subpages', sections'[s])
    {
      assert SomePiece(t, sections, subpages, sections[s]);
    }
  }

  /** The table of a subpage after `subpage_register`. */
  function Registered(table: seq<nat>, lo: nat, hi: nat, s: nat): (r: seq<nat>)
    ensures |r| == |table|
    ensures forall i :: 0 <= i < |table| ==> r[i] == if lo <= i <= hi then s else table[i]
  {
    seq(|table|, i requires 0 <= i < |table| => if lo <= i <= hi then s else table[i])
  }

  /** A piece inside one page, entered in the table of the page's container. */
  lemma SubpageGrows(t: Tree, sections: seq<Section>, subpages: seq<seq<nat>>, c: nat, piece: Section)
    requires SectionsOk(sections, subpages) && LeavesOk(t, sections) && AllOwn(t, sections, subpages)
    requires |sections| < TARGET_PAGE_SIZE
    requires Proper(piece) && piece.start % TARGET_PAGE_SIZE + piece.size <= TARGET_PAGE_SIZE
    requires 4 <= c < |sections| && sections[c].mr.SubpageIo?
    requires sections[c].start == piece.start / TARGET_PAGE_SIZE * TARGET_PAGE_SIZE
    ensures var k := sections[c].mr.table;
            var lo := piece.start % TARGET_PAGE_SIZE;
            k < |subpages| && |subpages[k]| == TARGET_PAGE_SIZE &&
            var subpages' := subpages[k := Registered(subpages[k], lo, lo + piece.size - 1, |sections|)];
            && LeavesOk(t, sections + [piece]) && SectionsOk(sections + [piece], subpages')
            && Grown(t, sections, subpages, t, subpages', piece)
            && (exists addr :: 0 <= addr < ADDR_SPACE && Covers(sections[c], addr) && Covers(piece, addr))
  {
    assert SectionOk(sections[c], subpages);
    var k := sections[c].mr.table;
    var lo := piece.start % TARGET_PAGE_SIZE;
    var sections' := sections + [piece];
    var subpages' := subpages[k := Registered(subpages[k], lo, lo + piece.size - 1, |sections|)];
    assert sections'[..4] == sections[..4];
    assert SectionsOk(sections', subpages') by {
      forall s | 4 <= s < |sections'| ensures SectionOk(sections'[s], subpages') {
        if s < |sections| { assert SectionOk(sections[s], subpages); }
      }
    }
    PagesFit();
    forall q | 0 <= q < Span(P_L2_LEVELS) ensures LeafOk(t, sections', q) {
      assert LeafOk(t, sections, q);
    }
    forall addr | 0 <= addr < ADDR_SPACE
      ensures FindSection(t, sections', addr) == FindSection(t, sections, addr)
      ensures Resolve(t, sections', subpages', addr)
              == if Covers(piece, addr) then |sections| else Resolve(t, sections, subpages, addr)
    {
      SubpageResolves(t, sections, subpages, c, piece, addr);
    }
    assert Covers(sections[c], piece.start) && Covers(piece, piece.start);
  }

  lemma SubpageResolves(t: Tree, sections: seq<Section>, subpages: seq<seq<nat>>, c: nat, piece: Section, addr: nat)
    requires SectionsOk(sections, subpages) && LeavesOk(t, sections) && AllOwn(t, sections, subpages)
    requires Proper(piece) && piece.start % TARGET_PAGE_SIZE + piece.size <= TARGET_PAGE_SIZE
    requires 4 <= c < |sections| && sections[c].mr.SubpageIo? && SectionOk(sections[c], subpages)
    requires sections[c].start == piece.start / TARGET_PAGE_SIZE * TARGET_PAGE_SIZE
    requires addr < ADDR_SPACE
    ensures var k := sections[c].mr.table;
            var lo := piece.start % TARGET_PAGE_SIZE;
            var subpages' := subpages[k := Registered(subpages[k], lo, lo + piece.size - 1, |sections|)];
            && FindSection(t, sections + [piece], addr) == FindSection(t, sections, addr)
            && Resolve(t, sections + [piece], subpages', addr)
               == if Covers(piece, addr) then |sections| else Resolve(t, sections, subpages, addr)
  {
    PagesFit();
    assert LeafOk(t, sections, addr / TARGET_PAGE_SIZE);
    assert Owns(t, sections, subpages, c, addr);
    var s := FindSection(t, sections, addr);
    if 4 <= s { assert SectionOk(sections[s], subpages); }
    assert sections[..4][0] == sections[0];
  }

  /** All pages of a new piece are unassigned, so `phys_page_set` may be called on them. */
  lemma PagesUnassigned(t: Tree, sections: seq<Section>, subpages: seq<seq<nat>>, view: seq<Section>, piece: Section)
    requires Consistent(t, sections, subpages, view, 0)
    requires Proper(piece) && DisjointFrom(piece, view) && piece.start % TARGET_PAGE_SIZE == 0
    ensures var lo := piece.start / TARGET_PAGE_SIZE; var hi := lo + piece.size / TARGET_PAGE_SIZE;
            hi <= Span(P_L2_LEVELS) && Unassigned(t.nodes, t.root, P_L2_LEVELS, lo, hi)
  {
    var lo := piece.start / TARGET_PAGE_SIZE;
    var hi := lo + piece.size / TARGET_PAGE_SIZE;
    PagesFit();
    forall page: nat | lo <= page < hi
      ensures Walk(t.nodes, t.root, P_L2_LEVELS, page) == PHYS_SECTION_UNASSIGNED
    {
      NewPage(t, sections, subpages, view, piece, page);
      assert At(t, page) == PHYS_SECTION_UNASSIGNED;
    }
  }

  lemma MultipageConsistent(t: Tree, sections: seq<Section>, subpages: seq<seq<nat>>, view: seq<Section>, piece: Section,
                            t': Tree, sections': seq<Section>, view': seq<Section>)
    requires Consistent(t, sections, subpages, view, 0) && |sections| < TARGET_PAGE_SIZE
    requires Proper(piece) && DisjointFrom(piece, view)
    requires piece.start % TARGET_PAGE_SIZE == 0 && piece.size % TARGET_PAGE_SIZE == 0
    requires var lo := piece.start / TARGET_PAGE_SIZE;
             TreeSet(t, t', lo, lo + piece.size / TARGET_PAGE_SIZE, |sections|)
    requires sections' == sections + [piece] && view' == view + [piece]
    ensures Consistent(t', sections', subpages, view', 0)
  {
    PagesUnassigned(t, sections, subpages, view, piece);
    MultipageGrows(t, sections, subpages, t', piece);
    GrownLookups(t, sections, subpages, view, t', subpages, piece);
    GrownView(t, sections, subpages, view, t', subpages, piece, 0);
  }

  lemma SubpageConsistent(t: Tree, sections: seq<Section>, subpages: seq<seq<nat>>, view: seq<Section>, piece: Section,
                          c: nat, except: nat, sections': seq<Section>, subpages': seq<seq<nat>>, view': seq<Section>)
    requires Consistent(t, sections, subpages, view, except) && |sections| < TARGET_PAGE_SIZE
    requires Proper(piece) && DisjointFrom(piece, view) && (except == 0 || except == c)
    requires piece.start % TARGET_PAGE_SIZE + piece.size <= TARGET_PAGE_SIZE
    requires 4 <= c && Container(sections, c)
    requires sections[c].start == piece.start / TARGET_PAGE_SIZE * TARGET_PAGE_SIZE
    requires sections' == sections + [piece] && view' == view + [piece]
    requires var k := sections[c].mr.table; var lo := piece.start % TARGET_PAGE_SIZE;
             k < |subpages| && subpages' == subpages[k := Registered(subpages[k], lo, lo + piece.size - 1, |sections|)]
    ensures Consistent(t, sections', subpages', view', 0)
  {
    SubpageGrows(t, sections, subpages, c, piece);
    GrownLookups(t, sections, subpages, view, t, subpages', piece);
    GrownView(t, sections, subpages, view, t, subpages', piece, except);
  }

  // ------------------------------------------------------------ how a section is cut, and what that costs

  function PageDown(addr: nat): nat { addr / TARGET_PAGE_SIZE * TARGET_PAGE_SIZE }

  function PageUp(addr: nat): nat { PageDown(addr + TARGET_PAGE_SIZE - 1) }

  /** The end of the head, of the run of whole pages or of the tail of `s` that holds `addr`. */
  function PieceEnd(s: Section, addr: nat): nat {
    var first, last, end := PageUp(s.start), PageDown(s.start + s.size), s.start + s.size;
    if addr < first then Min(first, end) else if addr < last then last else end
  }

  lemma PieceEndBounds(s: Section, addr: nat)
    requires Covers(s, addr)
    ensures addr < PieceEnd(s, addr) <= s.start + s.size
  {
  }

  /** `p` ends where the head, the whole pages or the tail of `a` ends, whichever it is. */
  ghost predicate IsCut(p: Section, a: Section) {
    forall addr: nat {:trigger EndsWith(p, a, addr)} :: Covers(p, addr) ==> EndsWith(p, a, addr)
  }

  ghost predicate EndsWith(p: Section, a: Section, addr: nat) { PieceEnd(a, addr) == p.start + p.size }

  ghost predicate CutFrom(p: Section, asked: seq<Section>) {
    exists i :: 0 <= i < |asked| && PieceOf(p, asked[i]) && IsCut(p, asked[i])
  }

  /** Every piece in the table is the head, the whole pages or the tail of a section asked for. */
  ghost predicate Shaped(sections: seq<Section>, asked: seq<Section>) {
    forall s {:trigger CutFrom(sections[s], asked)} :: 4 <= s < |sections| && sections[s].mr.Guest? ==> CutFrom(sections[s], asked)
  }

  lemma ShapedGrows(sections: seq<Section>, asked: seq<Section>, more: Section)
    requires Shaped(sections, asked)
    ensures Shaped(sections, asked + [more])
  {
    forall s | 4 <= s < |sections| && sections[s].mr.Guest?
      ensures CutFrom(sections[s], asked + [more])
    {
      assert CutFrom(sections[s], asked);
      var i :| 0 <= i < |asked| && PieceOf(sections[s], asked[i]) && IsCut(sections[s], asked[i]);
      assert (asked + [more])[i] == asked[i];
    }
  }

  /** Heads, runs of whole pages and tails of a section: each takes a section number. */
  function PieceCount(s: Section): nat {
    var first, last, end := PageUp(s.start), PageDown(s.start + s.size), s.start + s.size;
    if first > last then 1
    else (if s.start < first then 1 else 0) + (if first < last then 1 else 0) + (if last < end then 1 else 0)
  }

  /** The pages that a section covers in part: each needs a container, which takes a number as well. */
  function PartialPages(s: Section): set<nat> {
    var end := s.start + s.size;
    (if s.start % TARGET_PAGE_SIZE != 0 then {s.start / TARGET_PAGE_SIZE} else {})
    + (if end % TARGET_PAGE_SIZE != 0 then {end / TARGET_PAGE_SIZE} else {})
  }

  /** A page is one of them exactly if some of it but not all of it is in the section. */
  lemma PartialPagesAre(s: Section, page: nat)
    requires Proper(s)
    ensures page in PartialPages(s) <==>
              && s.start < page * TARGET_PAGE_SIZE + TARGET_PAGE_SIZE && page * TARGET_PAGE_SIZE < s.start + s.size
              && !(s.start <= page * TARGET_PAGE_SIZE && page * TARGET_PAGE_SIZE + TARGET_PAGE_SIZE <= s.start + s.size)
  {
  }

  /** The pages that have a container. */
  ghost function ContainerPages(sections: seq<Section>): set<nat> {
    set s | 4 <= s < |sections| && sections[s].mr.SubpageIo? :: sections[s].start / TARGET_PAGE_SIZE
  }

  function Missing(page: nat, have: set<nat>): nat { if page in have then 0 else 1 }

  /** The section numbers that adding `s` takes while the pages of `have` have a container. */
  function Need(s: Section, have: set<nat>): nat { PieceCount(s) + |PartialPages(s) - have| }

  /** Which pieces a section is cut into, and the pages of its head and tail. */
  datatype Plan = Plan(head: bool, whole: bool, tail: bool, headPage: nat, tailPage: nat)

  function PlanOf(s: Section): Plan
    requires Proper(s)
  {
    var n, end := HeadSize(s), s.start + s.size;
    Plan(n > 0, s.size - n >= TARGET_PAGE_SIZE, n < s.size && TailOf(s),
         s.start / TARGET_PAGE_SIZE, end / TARGET_PAGE_SIZE)
  }

  /** Numbers for whole pages and a tail that are still to come, and the page that gets a container. */
  function Left(whole: bool, tail: bool, page: nat, have: set<nat>): nat {
    (if whole then 1 else 0) + (if tail then 1 + Missing(page, have) else 0)
  }

  function TailPages(tail: bool, page: nat): set<nat> { if tail then {page} else {} }

  function Cost(p: Plan, have: set<nat>): nat {
    if p.head then 1 + Missing(p.headPage, have) + Left(p.whole, p.tail, p.tailPage, have + {p.headPage})
    else Left(p.whole, p.tail, p.tailPage, have)
  }

  function PlanPages(p: Plan): set<nat> {
    TailPages(p.head, p.headPage) + TailPages(p.tail, p.tailPage)
  }

  lemma MissingOne(a: nat, have: set<nat>)
    ensures |{a} - have| == Missing(a, have)
  {
    assert {a} - have == if a in have then {} else {a};
  }

  lemma MissingTwo(a: nat, b: nat, have: set<nat>)
    requires a != b
    ensures |{a} + {b} - have| == Missing(a, have) + Missing(b, have)
  {
    MissingOne(a, have);
    MissingOne(b, have);
    assert {a} + {b} - have == ({a} - have) + ({b} - have);
  }

  /** The cost of the pieces in turn is the cost of the section. */
  lemma PlanCosts(s: Section, have: set<nat>)
    requires Proper(s)
    ensures Cost(PlanOf(s), have) == Need(s, have) && PlanPages(PlanOf(s)) == PartialPages(s)
  {
    PlanCounts(s);
    PlanPagesAre(s);
    var p := PlanOf(s);
    if p.head && p.tail {
      MissingTwo(p.headPage, p.tailPage, have);
    } else if p.head {
      MissingOne(p.headPage, have);
      assert PartialPages(s) == {p.headPage};
    } else if p.tail {
      MissingOne(p.tailPage, have);
      assert PartialPages(s) == {p.tailPage};
    }
  }

  lemma PlanCounts(s: Section)
    requires Proper(s)
    ensures var p := PlanOf(s);
            PieceCount(s) == (if p.head then 1 else 0) + (if p.whole then 1 else 0) + (if p.tail then 1 else 0)
  {
    if s.start % TARGET_PAGE_SIZE != 0 { HeadIs(s); }
  }

  lemma PlanPagesAre(s: Section)
    requires Proper(s)
    ensures var p := PlanOf(s);
            PartialPages(s) == PlanPages(p) && (p.head && p.tail ==> p.headPage != p.tailPage)
  {
    if s.start % TARGET_PAGE_SIZE != 0 {
      HeadIs(s);
      var n, page, end := HeadSize(s), s.start / TARGET_PAGE_SIZE, s.start + s.size;
      if n == s.size {
        assert end % TARGET_PAGE_SIZE != 0 ==> end / TARGET_PAGE_SIZE == page;
      } else {
        assert end > page * TARGET_PAGE_SIZE + TARGET_PAGE_SIZE;
      }
    }
  }

  /** The head in terms of page boundaries. */
  lemma HeadIs(s: Section)
    requires Proper(s) && s.start % TARGET_PAGE_SIZE != 0
    ensures s.start + HeadSize(s) == Min(PageUp(s.start), s.start + s.size)
    ensures PageUp(s.start) == s.start / TARGET_PAGE_SIZE * TARGET_PAGE_SIZE + TARGET_PAGE_SIZE
  {
    HeadLength(s.start);
  }

  /** The numbers that one piece takes, and the page that gets a container. */
  function PieceNeed(now: Section, whole: bool, have: set<nat>): nat {
    if whole then 1 else 1 + Missing(now.start / TARGET_PAGE_SIZE, have)
  }

  function PiecePages(now: Section, whole: bool): set<nat> {
    if whole then {} else {now.start / TARGET_PAGE_SIZE}
  }

  /** What is left of a section at a page boundary decides which pieces are still to come. */
  lemma RestIs(s: Section, done: nat, rest: nat, now: nat)
    requires done + rest == s.size && rest > 0 && (s.start + done) % TARGET_PAGE_SIZE == 0
    requires now == if rest < TARGET_PAGE_SIZE then rest else rest / TARGET_PAGE_SIZE * TARGET_PAGE_SIZE
    ensures rest < TARGET_PAGE_SIZE ==> TailOf(s) && (s.start + done) / TARGET_PAGE_SIZE == (s.start + s.size) / TARGET_PAGE_SIZE
    ensures now < rest <==> rest >= TARGET_PAGE_SIZE && TailOf(s)
  {
    assert (s.start + s.size) % TARGET_PAGE_SIZE == rest % TARGET_PAGE_SIZE;
  }

  predicate TailOf(s: Section) { (s.start + s.size) % TARGET_PAGE_SIZE != 0 }

  /**
   With `n` numbers given out and containers on the pages of `have`, the whole pages and the tail still
   to come lead to `n'` numbers and containers on the pages of `have'`.
   */
  ghost predicate Account(n: nat, have: set<nat>, whole: bool, tail: bool, page: nat, n': nat, have': set<nat>) {
    n + Left(whole, tail, page, have) == n' && have + TailPages(tail, page) == have'
  }

  lemma AccountHead(p: Plan, have: set<nat>, n: nat)
    ensures var cost := if p.head then 1 + Missing(p.headPage, have) else 0;
            && cost <= Cost(p, have)
            && Account(n + cost, have + TailPages(p.head, p.headPage), p.whole, p.tail, p.tailPage, n + Cost(p, have), have + PlanPages(p))
  {
    assert have + TailPages(false, p.headPage) == have;
    assert have + TailPages(p.head, p.headPage) + TailPages(p.tail, p.tailPage) == have + PlanPages(p);
  }

  lemma HeadBill(s: Section, n: nat, have: set<nat>) returns (n': nat, have': set<nat>)
    requires Proper(s)
    ensures n' == n + Need(s, have) && have' == have + PartialPages(s) && n + HeadNeed(s, have) <= n'
    ensures Account(n + HeadNeed(s, have), have + TailPages(HeadSize(s) > 0, s.start / TARGET_PAGE_SIZE), s.size - HeadSize(s) >= TARGET_PAGE_SIZE,
                    HeadSize(s) < s.size && TailOf(s), (s.start + s.size) / TARGET_PAGE_SIZE, n', have')
  {
    PlanCosts(s, have);
    AccountHead(PlanOf(s), have, n);
    n', have' := n + Need(s, have), have + PartialPages(s);
  }

  lemma AccountNext(n: nat, have: set<nat>, whole: bool, tail: bool, page: nat, n': nat, have': set<nat>, remain: Section, more: bool)
    requires Account(n, have, whole, tail, page, n', have')
    requires !whole ==> tail && page == remain.start / TARGET_PAGE_SIZE
    requires more <==> whole && tail
    ensures n + PieceNeed(remain, whole, have) <= n'
    ensures Account(n + PieceNeed(remain, whole, have), have + PiecePages(remain, whole), false, more, page, n', have')
  {
    assert have + {} == have;
    assert have + {page} + {} == have + {page};
  }

  function HeadNeed(s: Section, have: set<nat>): nat
    requires Proper(s)
  {
    if HeadSize(s) > 0 then 1 + Missing(s.start / TARGET_PAGE_SIZE, have) else 0
  }

  lemma HeadPiece(s: Section)
    requires Proper(s)
    ensures s.offset == Wrap64(s.offset + 0) && s.(size := HeadSize(s)) == Section(s.mr, s.start + 0, Wrap64(s.offset + 0), HeadSize(s))
  {
  }

  /** The head, the whole pages behind `done` bytes and the tail are cuts. */
  lemma HeadIsCut(s: Section)
    requires Proper(s) && s.start % TARGET_PAGE_SIZE != 0
    ensures IsCut(s.(size := HeadSize(s)), s)
  {
    HeadIs(s);
  }

  lemma WholeIsCut(s: Section, done: nat, now: Section)
    requires done <= s.size && (s.start + done) % TARGET_PAGE_SIZE == 0 && s.size - done >= TARGET_PAGE_SIZE
    requires now.start == s.start + done && now.size == (s.size - done) / TARGET_PAGE_SIZE * TARGET_PAGE_SIZE
    requires done < TARGET_PAGE_SIZE
    ensures IsCut(now, s)
  {
    assert now.start + now.size == PageDown(s.start + s.size);
    assert PageUp(s.start) == s.start + done;
  }

  lemma TailIsCut(s: Section, done: nat, now: Section)
    requires done <= s.size && (s.start + done) % TARGET_PAGE_SIZE == 0 && s.size - done < TARGET_PAGE_SIZE
    requires now.start == s.start + done && now.size == s.size - done
    ensures IsCut(now, s)
  {
    if now.size > 0 {
      assert PageDown(s.start + s.size) == now.start;
      assert PageUp(s.start) <= now.start;
    }
  }

  lemma NextIsCut(asked: seq<Section>, s: Section, now: Section, done: nat)
    requires s in asked && done + now.size <= s.size && IsCut(now, s)
    requires now == Section(s.mr, s.start + done, Wrap64(s.offset + done), now.size)
    ensures CutFrom(now, asked)
  {
    var i :| 0 <= i < |asked| && asked[i] == s;
    assert PieceOf(now, asked[i]);
  }

  lemma GuestAdded(sections: seq<Section>, sections': seq<Section>, piece: Section, asked: seq<Section>)
    requires 4 <= |sections| && sections' == sections + [piece] && piece.mr.Guest? && Shaped(sections, asked) && CutFrom(piece, asked)
    ensures ContainerPages(sections') == ContainerPages(sections) && Shaped(sections', asked)
  {
    ContainersKept(sections, sections', piece);
  }

  lemma ContainersKept(sections: seq<Section>, sections': seq<Section>, more: Section)
    requires sections' == sections + [more]
    ensures ContainerPages(sections) <= ContainerPages(sections')
  {
    forall p | p in ContainerPages(sections)
      ensures p in ContainerPages(sections')
    {
      var s :| 4 <= s < |sections| && sections[s].mr.SubpageIo? && sections[s].start / TARGET_PAGE_SIZE == p;
      assert sections'[s] == sections[s];
    }
  }

  lemma ContainerAdded(sections: seq<Section>, sections': seq<Section>, c: Section, asked: seq<Section>)
    requires 4 <= |sections| && sections' == sections + [c] && c.mr.SubpageIo? && Shaped(sections, asked)
    ensures ContainerPages(sections') == ContainerPages(sections) + {c.start / TARGET_PAGE_SIZE} && Shaped(sections', asked)
  {
    var page := c.start / TARGET_PAGE_SIZE;
    assert sections'[|sections|] == c;
    ContainersKept(sections, sections', c);
    assert page in ContainerPages(sections');
  }

  /** The tree holds a container on exactly the pages that have one. */
  lemma HasContainer(t: Tree, sections: seq<Section>, subpages: seq<seq<nat>>, page: nat)
    requires SectionsOk(sections, subpages) && AllOwn(t, sections, subpages) && page * TARGET_PAGE_SIZE < ADDR_SPACE
    requires var s := At(t, page); Container(sections, s) ==> 4 <= s && sections[s].start == page * TARGET_PAGE_SIZE
    ensures Container(sections, At(t, page)) <==> page in ContainerPages(sections)
  {
    if page in ContainerPages(sections) {
      var s :| 4 <= s < |sections| && sections[s].mr.SubpageIo? && sections[s].start / TARGET_PAGE_SIZE == page;
      ContainerFound(t, sections, subpages, s, page);
    }
  }

  lemma ContainerFound(t: Tree, sections: seq<Section>, subpages: seq<seq<nat>>, s: nat, page: nat)
    requires SectionsOk(sections, subpages) && AllOwn(t, sections, subpages) && page * TARGET_PAGE_SIZE < ADDR_SPACE
    requires 4 <= s < |sections| && sections[s].mr.SubpageIo? && sections[s].start / TARGET_PAGE_SIZE == page
    ensures At(t, page) == s
  {
    assert SectionOk(sections[s], subpages);
    var addr := page * TARGET_PAGE_SIZE;
    assert Covers(sections[s], addr) && addr / TARGET_PAGE_SIZE == page;
    assert Owns(t, sections, subpages, s, addr);
  }

  // ------------------------------------------------------------ the dispatch object

  /** The part of `s` that the loop of `mem_add` has registered, once it has registered some. */
  ghost function Prefix(s: Section, done: nat): seq<Section> {
    if done == 0 then [] else [s.(size := done)]
  }

  /** Two adjacent pieces of one section count as one. */
  lemma MergePieces(t: Tree, sections: seq<Section>, subpages: seq<seq<nat>>, view: seq<Section>,
                    s: Section, done: nat, more: nat, view': seq<Section>)
    requires view' == view + Prefix(s, done + more)
    requires Proper(s) && done + more <= s.size && more > 0 && DisjointFrom(s, view)
    requires var piece := Section(s.mr, s.start + done, Wrap64(s.offset + done), more);
             Consistent(t, sections, subpages, view + Prefix(s, done) + [piece], 0)
    ensures Consistent(t, sections, subpages, view', 0)
  {
    var piece := Section(s.mr, s.start + done, Wrap64(s.offset + done), more);
    var whole := s.(size := done + more);
    var v0, v1 := view + Prefix(s, done) + [piece], view';
    assert v0[|v0| - 1] == piece;
    assert PieceOf(piece, whole);
    assert done > 0 ==> v0[|view|] == s.(size := done);
    assert ViewOk(v1) by {
      assert forall i :: 0 <= i < |view| ==> v0[i] == view[i];
    }
    forall r | 4 <= r < |sections| && sections[r].mr.Guest?
      ensures HasOrigin(sections[r], v1)
    {
      assert HasOrigin(sections[r], v0);
      var j :| 0 <= j < |v0| && PieceOf(sections[r], v0[j]);
      if j < |view| {
        assert PieceOf(sections[r], v1[j]);
      } else {
        PieceOfPiece(sections[r], v0[j], whole);
        assert PieceOf(sections[r], v1[|view|]);
      }
    }
    forall i, addr | 0 <= i < |v1| && 0 <= addr < ADDR_SPACE && Covers(v1[i], addr)
      ensures Resolve(t, sections, subpages, addr) != PHYS_SECTION_UNASSIGNED
    {
      if i < |view| {
        assert Covers(v0[i], addr);
      } else {
        if addr >= s.start + done {
          assert Covers(v0[|v0| - 1], addr);
        } else {
        }
      }
    }
  }

  lemma PieceOfPiece(p: Section, q: Section, a: Section)
    requires PieceOf(p, q) && PieceOf(q, a)
    ensures PieceOf(p, a)
  {
    var x, d := a.offset + (q.start - a.start), p.start - q.start;
    var k := x / ADDR_SPACE;
    assert x % ADDR_SPACE + d == (x + d) - k * ADDR_SPACE;
  }

  /** The piece of `s` that follows its first `done` bytes is new to a view that holds those bytes. */
  lemma NextPieceNew(view: seq<Section>, s: Section, done: nat, more: nat)
    requires Proper(s) && done + more <= s.size && more > 0 && DisjointFrom(s, view)
    ensures var piece := Section(s.mr, s.start + done, Wrap64(s.offset + done), more);
            Proper(piece) && DisjointFrom(piece, view + Prefix(s, done))
  {
    var piece := Section(s.mr, s.start + done, Wrap64(s.offset + done), more);
    forall i | 0 <= i < |view + Prefix(s, done)|
      ensures Disjoint(piece, (view + Prefix(s, done))[i])
    {
      if i < |view| { assert Disjoint(s, view[i]); }
    }
  }

  lemma SubpageTable(sections: seq<Section>, subpages: seq<seq<nat>>, c: nat)
    requires SectionsOk(sections, subpages) && 4 <= c && Container(sections, c)
    ensures sections[c].mr.table < |subpages| && |subpages[sections[c].mr.table]| == TARGET_PAGE_SIZE
  {
    assert SectionOk(sections[c], subpages);
  }

  class AddressSpaceDispatch {
    const pages: PhysPageMap
    var sections: seq<Section>
    var subpages: seq<seq<nat>>
    var mru: Option<nat>
    ghost var view: seq<Section>
    ghost var built: Tree

    function Current(): Tree
      reads this, pages
    {
      Tree(pages.nodes, pages.root)
    }

    /** Between `mem_begin` and `mem_commit`. */
    ghost predicate Rendering(except: nat)
      reads this, pages
    {
      && pages.levels == P_L2_LEVELS
      && pages.Building()
      && |pages.nodes| <= NODES_PER_SECTION * |sections|
      && Consistent(Current(), sections, subpages, view, except)
    }

    /** `mem_begin`. */
    constructor ()
      ensures fresh(pages) && Rendering(0) && view == [] && mru == None && sections == Dummies()
      ensures Shaped(sections, view) && ContainerPages(sections) == {}
    {
      pages := new PhysPageMap(P_L2_LEVELS);
      sections, subpages, mru, view := Dummies(), [], None, [];
      built := Tree([], PhysPageEntry(0, 0));
      new;
      assert forall page: nat :: At(Current(), page) == PHYS_SECTION_UNASSIGNED;
    }

    /** `phys_section_add`; the assertion on the number of sections is the result `ok`. */
    method SectionAdd(s: Section) returns (ok: bool, index: nat)
      modifies this`sections
      ensures ok <==> old(|sections|) < TARGET_PAGE_SIZE
      ensures ok ==> sections == old(sections) + [s] && index == old(|sections|)
      ensures !ok ==> sections == old(sections)
    {
      ok, index := |sections| < TARGET_PAGE_SIZE, |sections|;
      if ok {
        sections := sections + [s];
      }
    }

    /** `register_multipage`. */
    method RegisterMultipage(now: Section, ghost asked: seq<Section>) returns (ok: bool)
      requires Rendering(0) && Proper(now) && DisjointFrom(now, view) && Shaped(sections, asked) && CutFrom(now, asked)
      requires now.start % TARGET_PAGE_SIZE == 0 && now.size % TARGET_PAGE_SIZE == 0
      modifies this`sections, this`view, pages
      ensures ok <==> old(|sections|) + 1 <= TARGET_PAGE_SIZE
      ensures ok ==> Rendering(0) && view == old(view) + [now] && |sections| == old(|sections|) + 1
      ensures ok ==> Shaped(sections, asked) && ContainerPages(sections) == old(ContainerPages(sections))
    {
      var index;
      ok, index := SectionAdd(now);
      if !ok { return; }
      var start, numPages := now.start / TARGET_PAGE_SIZE, now.size / TARGET_PAGE_SIZE;
      PagesUnassigned(old(Current()), old(sections), subpages, view, now);
      view := view + [now];
      pages.Set(start, numPages, index);
      assert |pages.nodes| <= NODES_PER_SECTION * |sections|;
      ghost var t := Current();
      assert TreeSet(old(Current()), t, start, start + numPages, index);
      MultipageConsistent(old(Current()), old(sections), subpages, old(view), now, t, sections, view);
      GuestAdded(old(sections), sections, now, asked);
    }

    /** The part of `register_subpage` that makes a container when the page has none. */
    method NewContainer(page: nat, ghost asked: seq<Section>) returns (ok: bool, c: nat)
      requires Rendering(0) && page * TARGET_PAGE_SIZE < ADDR_SPACE && Shaped(sections, asked)
      requires At(Current(), page) == PHYS_SECTION_UNASSIGNED
      modifies this`sections, this`subpages, pages
      ensures ok <==> old(|sections|) + 1 <= TARGET_PAGE_SIZE
      ensures ok ==> Shaped(sections, asked) && ContainerPages(sections) == old(ContainerPages(sections)) + {page}
      ensures ok ==> Rendering(c) && c == old(|sections|) && |sections| == old(|sections|) + 1
                     && sections[c].mr.SubpageIo? && sections[c].start == page * TARGET_PAGE_SIZE
    {
      ok, c := SectionAdd(Section(SubpageIo(|subpages|), page * TARGET_PAGE_SIZE, 0, TARGET_PAGE_SIZE));
      if !ok { return; }
      subpages := subpages + [seq(TARGET_PAGE_SIZE, i => PHYS_SECTION_UNASSIGNED)];
      PagesFit();
      pages.Set(page, 1, c);
      ContainerGrows(old(Current()), old(sections), old(subpages), view, Current(), page);
      ContainerAdded(old(sections), sections, sections[c], asked);
    }

    /** `subpage_register` on table `k`. */
    method SubpageRegister(k: nat, start: nat, end: nat, section: nat)
      requires k < |subpages| && |subpages[k]| == TARGET_PAGE_SIZE
      requires start <= end < TARGET_PAGE_SIZE
      modifies this`subpages
      ensures subpages == old(subpages)[k := Registered(old(subpages)[k], start, end, section)]
    {
      var idx := start;
      ghost var table0 := subpages[k];
      while idx <= end
        invariant start <= idx <= end + 1
        invariant |subpages| == |old(subpages)| && |subpages[k]| == TARGET_PAGE_SIZE
        invariant subpages == old(subpages)[k := subpages[k]]
        invariant forall i :: 0 <= i < TARGET_PAGE_SIZE ==>
                    subpages[k][i] == if start <= i < idx then section else table0[i]
      {
        var table: seq<nat> := subpages[k][idx := section];
        subpages := subpages[k := table];
        idx := idx + 1;
      }
      assert subpages[k] == Registered(table0, start, end, section);
    }

    /** `register_subpage`. */
    method RegisterSubpage(now: Section, ghost asked: seq<Section>) returns (ok: bool)
      requires Rendering(0) && Proper(now) && DisjointFrom(now, view) && Shaped(sections, asked) && CutFrom(now, asked)
      requires now.start % TARGET_PAGE_SIZE + now.size <= TARGET_PAGE_SIZE
      modifies this`sections, this`subpages, this`view, pages
      ensures ok <==> old(|sections|) + 1 + Missing(now.start / TARGET_PAGE_SIZE, old(ContainerPages(sections))) <= TARGET_PAGE_SIZE
      ensures ok ==> |sections| == old(|sections|) + 1 + Missing(now.start / TARGET_PAGE_SIZE, old(ContainerPages(sections)))
      ensures ok ==> Rendering(0) && view == old(view) + [now] && Shaped(sections, asked)
      ensures ok ==> ContainerPages(sections) == old(ContainerPages(sections)) + {now.start / TARGET_PAGE_SIZE}
    {
      var page := now.start / TARGET_PAGE_SIZE;
      SubpageAssertion(Current(), sections, subpages, view, now);
      TreeOkIsLv(pages.nodes, pages.shape);
      var existing := pages.Find(page);
      assert existing == At(Current(), page);
      assert sections[existing].mr.SubpageIo? || sections[existing].mr == IoMemUnassigned;
      assert sections[..4][0] == sections[0] && sections[..4][1] == sections[1];
      assert sections[..4][2] == sections[2] && sections[..4][3] == sections[3];
      HasContainer(Current(), sections, subpages, page);
      ok := true;
      ghost var except := 0;
      if !sections[existing].mr.SubpageIo? {
        ok, existing := NewContainer(page, asked);
        if !ok { return; }
        except := existing;
      }
      assert Container(sections, existing) && 4 <= existing by {
        assert sections[..4][0] == sections[0] && sections[..4][1] == sections[1];
        assert sections[..4][2] == sections[2] && sections[..4][3] == sections[3];
      }
      ok := EnterPiece(existing, now, except, asked);
    }

    /** The last two statements of `register_subpage`: number the piece and enter it in the table. */
    method EnterPiece(c: nat, now: Section, ghost except: nat, ghost asked: seq<Section>) returns (ok: bool)
      requires Rendering(except) && Proper(now) && DisjointFrom(now, view) && (except == 0 || except == c)
      requires now.start % TARGET_PAGE_SIZE + now.size <= TARGET_PAGE_SIZE
      requires 4 <= c && Container(sections, c) && Shaped(sections, asked) && CutFrom(now, asked)
      requires sections[c].start == now.start / TARGET_PAGE_SIZE * TARGET_PAGE_SIZE
      modifies this`sections, this`subpages, this`view
      ensures ok <==> old(|sections|) + 1 <= TARGET_PAGE_SIZE
      ensures ok ==> Shaped(sections, asked) && ContainerPages(sections) == old(ContainerPages(sections))
      ensures ok ==> Rendering(0) && view == old(view) + [now] && |sections| == old(|sections|) + 1
    {
      SubpageTable(sections, subpages, c);
      var k := sections[c].mr.table;
      var start := now.start % TARGET_PAGE_SIZE;
      var index;
      ok, index := SectionAdd(now);
      if !ok { return; }
      SubpageRegister(k, start, start + now.size - 1, index);
      view := view + [now];
      SubpageConsistent(Current(), old(sections), old(subpages), old(view), now, c, except, sections, subpages, view);
      GuestAdded(old(sections), sections, now, asked);
    }

    /** Register the next piece of `section`, after its first `done` bytes. */
    method AddPiece(section: Section, now: Section, whole: bool, ghost view0: seq<Section>, ghost done: nat)
      returns (ok: bool)
      requires Shaped(sections, view0 + [section]) && IsCut(now, section)
      requires Rendering(0) && view == view0 + Prefix(section, done)
      requires Proper(section) && DisjointFrom(section, view0)
      requires now.size > 0 && done + now.size <= section.size
      requires now == Section(section.mr, section.start + done, Wrap64(section.offset + done), now.size)
      requires whole ==> now.start % TARGET_PAGE_SIZE == 0 && now.size % TARGET_PAGE_SIZE == 0
      requires !whole ==> now.start % TARGET_PAGE_SIZE + now.size <= TARGET_PAGE_SIZE
      modifies this`sections, this`subpages, this`view, pages
      ensures ok <==> old(|sections|) + PieceNeed(now, whole, old(ContainerPages(sections))) <= TARGET_PAGE_SIZE
      ensures ok ==> |sections| == old(|sections|) + PieceNeed(now, whole, old(ContainerPages(sections)))
      ensures ok ==> ContainerPages(sections) == old(ContainerPages(sections)) + PiecePages(now, whole)
      ensures ok ==> Rendering(0) && view == view0 + Prefix(section, done + now.size) && Shaped(sections, view0 + [section])
    {
      NextPieceNew(view0, section, done, now.size);
      NextIsCut(view0 + [section], section, now, done);
      if whole {
        ok := RegisterMultipage(now, view0 + [section]);
      } else {
        ok := RegisterSubpage(now, view0 + [section]);
      }
      if ok {
        view := view0 + Prefix(section, done + now.size);
        MergePieces(Current(), sections, subpages, view0, section, done, now.size, view);
      }
    }

    /** One turn of the loop of `mem_add`: `remain` is cut at a page boundary, or is the tail. */
    method AddNext(section: Section, remain: Section, ghost view0: seq<Section>, ghost done: nat)
      returns (ok: bool, now: Section)
      requires Rendering(0) && view == view0 + Prefix(section, done)
      requires Proper(section) && DisjointFrom(section, view0)
      requires done < section.size && (section.start + done) % TARGET_PAGE_SIZE == 0
      requires Shaped(sections, view0 + [section]) && (done < TARGET_PAGE_SIZE || section.size - done < TARGET_PAGE_SIZE)
      requires remain == Section(section.mr, section.start + done, Wrap64(section.offset + done), section.size - done)
      modifies this`sections, this`subpages, this`view, pages
      ensures 0 < now.size <= remain.size && now == remain.(size := now.size)
      ensures now.size == if remain.size < TARGET_PAGE_SIZE then remain.size else remain.size / TARGET_PAGE_SIZE * TARGET_PAGE_SIZE
      ensures now.size == remain.size || ((section.start + done + now.size) % TARGET_PAGE_SIZE == 0
                                          && remain.size >= TARGET_PAGE_SIZE > remain.size - now.size)
      ensures ok <==> old(|sections|) + PieceNeed(remain, remain.size >= TARGET_PAGE_SIZE, old(ContainerPages(sections))) <= TARGET_PAGE_SIZE
      ensures ok ==> |sections| == old(|sections|) + PieceNeed(remain, remain.size >= TARGET_PAGE_SIZE, old(ContainerPages(sections)))
      ensures ok ==> ContainerPages(sections) == old(ContainerPages(sections)) + PiecePages(remain, remain.size >= TARGET_PAGE_SIZE)
      ensures ok ==> Rendering(0) && view == view0 + Prefix(section, done + now.size) && Shaped(sections, view0 + [section])
    {
      now := remain;
      if remain.size < TARGET_PAGE_SIZE {
        TailIsCut(section, done, now);
        ok := AddPiece(section, now, false, view0, done);
      } else if remain.start % TARGET_PAGE_SIZE != 0 {
        assert false;
      } else {
        now := now.(size := now.size / TARGET_PAGE_SIZE * TARGET_PAGE_SIZE);
        WholeIsCut(section, done, now);
        ok := AddPiece(section, now, true, view0, done);
      }
    }

    /** The first statement of `mem_add`: a subpage piece up to the first page boundary. */
    method AddHead(section: Section) returns (ok: bool, now: Section)
      requires Rendering(0) && Proper(section) && DisjointFrom(section, view) && Shaped(sections, view)
      modifies this`sections, this`subpages, this`view, pages
      ensures now == section.(size := now.size) && now.size <= section.size && now.size < TARGET_PAGE_SIZE
      ensures now.size < section.size ==> (section.start + now.size) % TARGET_PAGE_SIZE == 0
      ensures now.size == HeadSize(section)
      ensures ok <==> old(|sections|) + HeadNeed(section, old(ContainerPages(sections))) <= TARGET_PAGE_SIZE
      ensures ok ==> |sections| == old(|sections|) + HeadNeed(section, old(ContainerPages(sections)))
      ensures ok ==> ContainerPages(sections) == old(ContainerPages(sections)) + TailPages(now.size > 0, section.start / TARGET_PAGE_SIZE)
      ensures ok ==> Rendering(0) && view == old(view) + Prefix(section, now.size) && Shaped(sections, old(view) + [section])
    {
      now, ok := section.(size := HeadSize(section)), true;
      assert view == view + Prefix(section, 0);
      ShapedGrows(sections, view, section);
      if section.start % TARGET_PAGE_SIZE != 0 {
        HeadPiece(section);
        HeadIsCut(section);
        ok := AddPiece(section, now, false, view, 0);
      }
    }

    /**
     `mem_add`: a leading subpage piece, whole pages, a trailing subpage piece.  The call fails
     if and only if the table has no room for the numbers that these pieces and the containers of
     pages that had none take.
     */
    method MemAdd(section: Section) returns (ok: bool)
      requires Rendering(0) && Proper(section) && DisjointFrom(section, view) && Shaped(sections, view)
      modifies this`sections, this`subpages, this`view, pages
      ensures ok <==> old(|sections|) + Need(section, old(ContainerPages(sections))) <= TARGET_PAGE_SIZE
      ensures ok ==> Rendering(0) && Shaped(sections, view) && view == old(view) + [section]
      ensures ok ==> |sections| == old(|sections|) + Need(section, old(ContainerPages(sections)))
      ensures ok ==> ContainerPages(sections) == old(ContainerPages(sections)) + PartialPages(section)
    {
      ghost var n, have := HeadBill(section, |sections|, ContainerPages(sections));
      var now;
      ok, now := AddHead(section);
      if ok {
        ok := AddRest(section, now, old(view), n, have);
      }
    }

    /** The loop of `mem_add`, which is to end with `n` section numbers and containers on the pages of `have`. */
    method AddRest(section: Section, head: Section, ghost view0: seq<Section>, ghost n: nat, ghost have: set<nat>) returns (ok: bool)
      requires Rendering(0) && view == view0 + Prefix(section, head.size) && Shaped(sections, view0 + [section])
      requires Proper(section) && DisjointFrom(section, view0)
      requires head == section.(size := head.size) && head.size <= section.size && head.size < TARGET_PAGE_SIZE
      requires head.size < section.size ==> (section.start + head.size) % TARGET_PAGE_SIZE == 0
      requires Account(|sections|, ContainerPages(sections), section.size - head.size >= TARGET_PAGE_SIZE,
                       head.size < section.size && TailOf(section), (section.start + section.size) / TARGET_PAGE_SIZE, n, have)
      modifies this`sections, this`subpages, this`view, pages
      ensures ok <==> n <= TARGET_PAGE_SIZE
      ensures ok ==> Rendering(0) && Shaped(sections, view) && view == view0 + [section]
      ensures ok ==> |sections| == n && ContainerPages(sections) == have
    {
      var now, remain := head, section;
      ghost var base: nat, page := 0, (section.start + section.size) / TARGET_PAGE_SIZE;
      HeadPiece(section);
      while remain.size != now.size
        invariant Rendering(0) && view == view0 + Prefix(section, base + now.size) && Shaped(sections, view0 + [section])
        invariant base + remain.size == section.size && now.size <= remain.size
        invariant remain == Section(section.mr, section.start + base, Wrap64(section.offset + base), remain.size)
        invariant now.size < remain.size ==> (section.start + base + now.size) % TARGET_PAGE_SIZE == 0
        invariant base + now.size < TARGET_PAGE_SIZE || remain.size - now.size < TARGET_PAGE_SIZE
        invariant Account(|sections|, ContainerPages(sections), remain.size - now.size >= TARGET_PAGE_SIZE,
                          now.size < remain.size && TailOf(section), page, n, have)
        decreases remain.size - now.size
      {
        remain := Section(remain.mr, Wrap64(remain.start + now.size), Wrap64(remain.offset + now.size), remain.size - now.size);
        Advance(section, base, now.size);
        base := base + now.size;
        ok, now := AddRound(section, remain, view0, base, n, have);
        if !ok { return; }
      }
      ok := true;
      assert section.(size := section.size) == section;
    }

    /** One turn of the loop, and what it leaves to be paid. */
    method AddRound(section: Section, remain: Section, ghost view0: seq<Section>, ghost done: nat, ghost n: nat, ghost have: set<nat>)
      returns (ok: bool, now: Section)
      requires Rendering(0) && view == view0 + Prefix(section, done) && Shaped(sections, view0 + [section])
      requires Proper(section) && DisjointFrom(section, view0)
      requires done < section.size && (section.start + done) % TARGET_PAGE_SIZE == 0
      requires done < TARGET_PAGE_SIZE || section.size - done < TARGET_PAGE_SIZE
      requires remain == Section(section.mr, section.start + done, Wrap64(section.offset + done), section.size - done)
      requires Account(|sections|, ContainerPages(sections), remain.size >= TARGET_PAGE_SIZE, TailOf(section),
                       (section.start + section.size) / TARGET_PAGE_SIZE, n, have)
      modifies this`sections, this`subpages, this`view, pages
      ensures 0 < now.size <= remain.size && now == remain.(size := now.size) && remain.size - now.size < TARGET_PAGE_SIZE
      ensures now.size < remain.size ==> (section.start + done + now.size) % TARGET_PAGE_SIZE == 0
      ensures !ok ==> n > TARGET_PAGE_SIZE
      ensures ok ==> Rendering(0) && view == view0 + Prefix(section, done + now.size) && Shaped(sections, view0 + [section])
      ensures ok ==> Account(|sections|, ContainerPages(sections), false, now.size < remain.size && TailOf(section),
                             (section.start + section.size) / TARGET_PAGE_SIZE, n, have)
    {
      ghost var n0, have0, page := |sections|, ContainerPages(sections), (section.start + section.size) / TARGET_PAGE_SIZE;
      ok, now := AddNext(section, remain, view0, done);
      RestIs(section, done, remain.size, now.size);
      AccountNext(n0, have0, remain.size >= TARGET_PAGE_SIZE, TailOf(section), page, n, have, remain, now.size < remain.size);
    }

    /** The table holds the sections `flat`. */
    ghost predicate Holds(flat: seq<Section>)
      reads this, pages
    {
      && Rendering(0) && view == flat && Shaped(sections, view)
      && |sections| == Numbers(flat) && ContainerPages(sections) == SharedPages(flat)
    }

    method AddSection(section: Section, ghost flat: seq<Section>, ghost flat': seq<Section>) returns (ok: bool)
      requires Proper(section) && DisjointFrom(section, flat) && Holds(flat) && flat' == flat + [section]
      modifies this`sections, this`subpages, this`view, pages
      ensures ok <==> Numbers(flat') <= TARGET_PAGE_SIZE
      ensures ok ==> Holds(flat')
    {
      NumbersGrow(flat, section, flat');
      ok := MemAdd(section);
    }

    method AddAll(flat: seq<Section>) returns (ok: bool)
      requires forall i :: 0 <= i < |flat| ==> Proper(flat[i])
      requires PairwiseDisjoint(flat) && Holds([])
      modifies this`sections, this`subpages, this`view, pages
      ensures ok <==> Numbers(flat) <= TARGET_PAGE_SIZE
      ensures ok ==> Holds(flat)
    {
      ok := true;
      for i := 0 to |flat|
        invariant ok && Holds(flat[..i])
      {
        ghost var done, next := flat[..i], flat[..i + 1];
        NextSection(flat, i, done, next);
        ok := AddSection(flat[i], done, next);
        if !ok { return; }
      }
      assert flat[..|flat|] == flat;
    }

    /** After `mem_commit`: the compacted tree finds what the built one found, and the cache holds a result. */
    ghost predicate Published()
      reads this, pages
    {
      && pages.levels == P_L2_LEVELS
      && TreeLv(pages.nodes, pages.shape)
      && EntryLv(pages.root, pages.levels, pages.shape)
      && Consistent(built, sections, subpages, view, 0) && Shaped(sections, view)
      && OnShared(sections, view)
      && (forall addr :: 0 <= addr < ADDR_SPACE ==>
            FindSection(Current(), sections, addr) == FindSection(built, sections, addr))
      && (mru.Some? ==> mru.value == PHYS_SECTION_UNASSIGNED || 4 <= mru.value < |sections|)
    }

    /** `mem_commit`. */
    method Commit()
      requires Rendering(0) && mru == None && Shaped(sections, view) && ContainerPages(sections) == SharedPages(view)
      modifies this`built, pages
      ensures Published()
    {
      built := Current();
      TreeOkIsLv(pages.nodes, pages.shape);
      pages.CompactAll();
      forall addr | 0 <= addr < ADDR_SPACE
        ensures FindSection(Current(), sections, addr) == FindSection(built, sections, addr)
      {
        CompactionKeepsFind(built, Current(), sections, subpages, addr);
      }
    }

    /** `phys_page_find` on the published tree. */
    method PhysPageFind(addr: nat) returns (section: nat)
      requires Published() && addr < ADDR_SPACE
      ensures section == FindSection(built, sections, addr) && section < |sections|
    {
      CoverChecks(sections, subpages, addr);
      section := pages.Find(addr / TARGET_PAGE_SIZE);
      assert section == At(Current(), addr / TARGET_PAGE_SIZE);
      assert FindSection(Current(), sections, addr) == FindSection(built, sections, addr);
      if section >= |sections| || !SectionCoversAddr(sections[section], addr) {
        section := PHYS_SECTION_UNASSIGNED;
      }
    }

    /**
     `address_space_lookup_region`.  The cache is transparent for a resolving lookup; any other gives the
     cached section if that covers the address, and else what the search finds.
     */
    method LookupRegion(addr: nat, resolveSubpage: bool) returns (section: nat)
      requires Published() && addr < ADDR_SPACE
      modifies this`mru
      ensures Published() && section < |sections|
      ensures resolveSubpage ==> section == Resolve(built, sections, subpages, addr)
      ensures !resolveSubpage ==>
                section == if Cached(old(mru), sections, addr) then old(mru).value else FindSection(built, sections, addr)
      ensures mru == if Cached(old(mru), sections, addr) then old(mru) else Some(section)
      ensures section == FindSection(built, sections, addr) || section == Resolve(built, sections, subpages, addr)
    {
      var update := true;
      CachedHit(built, sections, subpages, mru, addr);
      CoverChecks(sections, subpages, addr);
      if mru.Some? && mru.value != PHYS_SECTION_UNASSIGNED && SectionCoversAddr(sections[mru.value], addr) {
        section, update := mru.value, false;
      } else {
        section := PhysPageFind(addr);
      }
      FoundIsContainer(built, sections, subpages, addr);
      if resolveSubpage && sections[section].mr.SubpageIo? {
        section := subpages[sections[section].mr.table][addr % TARGET_PAGE_SIZE];
      }
      if update {
        mru := Some(section);
      }
    }

    /** `address_space_translate_internal`. */
    method TranslateInternal(addr: nat, plen: nat, resolveSubpage: bool) returns (section: nat, xlat: nat, len: nat)
      requires Published() && addr < ADDR_SPACE && plen < ADDR_SPACE
      modifies this`mru
      ensures Published() && section < |sections|
      ensures RightReply(view, Query(addr, plen, resolveSubpage), Reply(sections[section].mr, xlat, len))
      ensures Answered(old(mru), built, sections, subpages, Query(addr, plen, resolveSubpage), section, mru)
    {
      section := LookupRegion(addr, resolveSubpage);
      var s := sections[section];
      var rel := Wrap64(addr - s.start);
      xlat := Wrap64(rel + s.offset);
      len := plen;
      if s.mr.Guest? && s.mr.ram {
        len := Wrap64(Min(s.size - rel, plen));
      }
      FoundAnswers(built, sections, subpages, view, Query(addr, plen, resolveSubpage), section, xlat, len);
    }

    /** The next of a row of lookups. */
    method Ask(queries: seq<Query>, k: nat) returns (r: Reply)
      requires Published() && k < |queries| && Seen(mru, built, sections, subpages, queries[..k])
      requires forall j :: 0 <= j < |queries| ==> queries[j].addr < ADDR_SPACE && queries[j].plen < ADDR_SPACE
      modifies this`mru
      ensures Published() && RightReply(view, queries[k], r)
      ensures FirstOn(view, queries, k) ==> Unresolved(view, queries[k], r)
      ensures Seen(mru, built, sections, subpages, queries[..k + 1])
    {
      var s, xlat, len := TranslateInternal(queries[k].addr, queries[k].plen, queries[k].resolveSubpage);
      r := Reply(sections[s].mr, xlat, len);
      FirstIsRight(built, sections, subpages, view, old(mru), queries, k, s, mru, r);
    }
  }

  /** The cached section, if there is one other than unassigned, covers the address. */
  predicate Cached(mru: Option<nat>, sections: seq<Section>, addr: nat) {
    mru.Some? && mru.value != PHYS_SECTION_UNASSIGNED && mru.value < |sections| && Covers(sections[mru.value], addr)
  }

  /** The section `s` that a lookup gives and the cache `mru'` it leaves. */
  ghost predicate Answered(mru: Option<nat>, t: Tree, sections: seq<Section>, subpages: seq<seq<nat>>, q: Query, s: nat, mru': Option<nat>) {
    && s == (if q.resolveSubpage then Resolve(t, sections, subpages, q.addr)
             else if Cached(mru, sections, q.addr) then mru.value else FindSection(t, sections, q.addr))
    && mru' == if Cached(mru, sections, q.addr) then mru else Some(s)
  }

  /** Whatever is cached is there because of one of the lookups so far. */
  ghost predicate Seen(mru: Option<nat>, t: Tree, sections: seq<Section>, subpages: seq<seq<nat>>, past: seq<Query>) {
    mru.Some? && mru.value >= 4 ==>
      exists j :: 0 <= j < |past| && FoundBy(t, sections, subpages, past[j], mru.value)
  }

  ghost predicate FoundBy(t: Tree, sections: seq<Section>, subpages: seq<seq<nat>>, q: Query, s: nat) {
    s == if q.resolveSubpage then Resolve(t, sections, subpages, q.addr) else FindSection(t, sections, q.addr)
  }

  lemma SeenNext(mru: Option<nat>, mru': Option<nat>, t: Tree, sections: seq<Section>, subpages: seq<seq<nat>>, past: seq<Query>, q: Query, s: nat)
    requires Seen(mru, t, sections, subpages, past) && Answered(mru, t, sections, subpages, q, s, mru')
    ensures Seen(mru', t, sections, subpages, past + [q])
  {
    if mru'.Some? && mru'.value >= 4 {
      if Cached(mru, sections, q.addr) {
        var j :| 0 <= j < |past| && FoundBy(t, sections, subpages, past[j], mru.value);
        assert (past + [q])[j] == past[j];
      } else {
        assert FoundBy(t, sections, subpages, (past + [q])[|past|], s);
      }
    }
  }

  lemma {:induction false} SharedBy(view: seq<Section>, page: nat) returns (i: nat)
    requires page in SharedPages(view)
    ensures i < |view| && page in PartialPages(view[i])
  {
    var n := |view| - 1;
    i := n;
    if page !in PartialPages(view[n]) {
      i := SharedBy(view[..n], page);
    }
  }

  /** No section covers the whole of a page that one covers in part. */
  lemma SharedIsNotWhole(view: seq<Section>, page: nat, j: nat)
    requires ViewOk(view) && page in SharedPages(view) && j < |view|
    ensures !(view[j].start <= page * TARGET_PAGE_SIZE && page * TARGET_PAGE_SIZE + TARGET_PAGE_SIZE <= view[j].start + view[j].size)
  {
    var i := SharedBy(view, page);
    PartialPagesAre(view[i], page);
    if i < j {
      assert Disjoint(view[i], view[j]);
    } else if j < i {
      assert Disjoint(view[j], view[i]);
    }
  }

  /** A piece with an address on a page that is covered in part lies inside that page. */
  lemma StaysOnPage(p: Section, view: seq<Section>, addr: nat, addr': nat)
    requires ViewOk(view) && CutFrom(p, view) && Covers(p, addr) && Covers(p, addr') && addr / TARGET_PAGE_SIZE in SharedPages(view)
    ensures addr' / TARGET_PAGE_SIZE == addr / TARGET_PAGE_SIZE
    ensures !(p.start <= addr / TARGET_PAGE_SIZE * TARGET_PAGE_SIZE
              && addr / TARGET_PAGE_SIZE * TARGET_PAGE_SIZE + TARGET_PAGE_SIZE <= p.start + p.size)
  {
    var j :| 0 <= j < |view| && PieceOf(p, view[j]) && IsCut(p, view[j]);
    SharedIsNotWhole(view, addr / TARGET_PAGE_SIZE, j);
    assert EndsWith(p, view[j], addr) && EndsWith(p, view[j], addr');
    SamePiece(view[j], addr, addr', p.start + p.size);
  }

  lemma SamePiece(a: Section, addr: nat, addr': nat, end: nat)
    requires Covers(a, addr) && Covers(a, addr') && addr < end && addr' < end
    requires PieceEnd(a, addr) == end == PieceEnd(a, addr')
    ensures var base := addr / TARGET_PAGE_SIZE * TARGET_PAGE_SIZE;
            (a.start <= base && base + TARGET_PAGE_SIZE <= a.start + a.size) || addr' / TARGET_PAGE_SIZE == addr / TARGET_PAGE_SIZE
  {
  }

  /** The search stops at a container on every page that some section covers in part. */
  lemma SharedFindsContainer(t: Tree, sections: seq<Section>, subpages: seq<seq<nat>>, view: seq<Section>, addr: nat)
    requires SectionsOk(sections, subpages) && AllOwn(t, sections, subpages) && OnShared(sections, view)
    requires addr < ADDR_SPACE && addr / TARGET_PAGE_SIZE in SharedPages(view)
    ensures Container(sections, FindSection(t, sections, addr))
  {
    var page := addr / TARGET_PAGE_SIZE;
    assert HasPage(sections, page);
    var s :| 4 <= s < |sections| && sections[s].mr.SubpageIo? && sections[s].start / TARGET_PAGE_SIZE == page;
    assert SectionOk(sections[s], subpages);
    assert Covers(sections[s], addr);
    assert Owns(t, sections, subpages, s, addr);
  }

  /** The first lookups of a page that is covered in part, as long as they do not resolve, give its container. */
  lemma FirstOnShared(t: Tree, sections: seq<Section>, subpages: seq<seq<nat>>, view: seq<Section>, mru: Option<nat>, past: seq<Query>, q: Query, s: nat, mru': Option<nat>)
    requires Consistent(t, sections, subpages, view, 0) && Shaped(sections, view) && OnShared(sections, view)
    requires Seen(mru, t, sections, subpages, past) && Answered(mru, t, sections, subpages, q, s, mru')
    requires mru.Some? ==> mru.value == PHYS_SECTION_UNASSIGNED || 4 <= mru.value < |sections|
    requires !q.resolveSubpage && q.addr < ADDR_SPACE && q.addr / TARGET_PAGE_SIZE in SharedPages(view)
    requires forall j :: 0 <= j < |past| ==> past[j].addr < ADDR_SPACE
    requires forall j :: 0 <= j < |past| && past[j].resolveSubpage ==> past[j].addr / TARGET_PAGE_SIZE != q.addr / TARGET_PAGE_SIZE
    ensures Container(sections, s)
  {
    if Cached(mru, sections, q.addr) {
      var m := mru.value;
      assert SectionOk(sections[m], subpages);
      if sections[m].mr.Guest? {
        var j :| 0 <= j < |past| && FoundBy(t, sections, subpages, past[j], m);
        NotCached(t, sections, subpages, view, m, past[j], q.addr);
      }
    } else {
      SharedFindsContainer(t, sections, subpages, view, q.addr);
    }
  }

  lemma NotCached(t: Tree, sections: seq<Section>, subpages: seq<seq<nat>>, view: seq<Section>, m: nat, q: Query, addr: nat)
    requires Consistent(t, sections, subpages, view, 0) && Shaped(sections, view)
    requires 4 <= m < |sections| && sections[m].mr.Guest? && FoundBy(t, sections, subpages, q, m) && q.addr < ADDR_SPACE
    requires addr / TARGET_PAGE_SIZE in SharedPages(view) && Covers(sections[m], addr)
    ensures q.resolveSubpage && q.addr / TARGET_PAGE_SIZE == addr / TARGET_PAGE_SIZE
  {
    PagesFit();
    assert CutFrom(sections[m], view);
    assert LeafOk(t, sections, q.addr / TARGET_PAGE_SIZE);
    assert ResolvesOk(t, sections, subpages, q.addr);
    assert Covers(sections[m], q.addr);
    StaysOnPage(sections[m], view, addr, q.addr);
  }

  lemma FoundAnswers(t: Tree, sections: seq<Section>, subpages: seq<seq<nat>>, view: seq<Section>, q: Query, s: nat, xlat: nat, len: nat)
    requires Consistent(t, sections, subpages, view, 0) && Shaped(sections, view) && OnShared(sections, view)
    requires q.addr < ADDR_SPACE && q.plen < ADDR_SPACE && s < |sections|
    requires s == Resolve(t, sections, subpages, q.addr) || (!q.resolveSubpage && s == FindSection(t, sections, q.addr))
    requires xlat == Wrap64(Wrap64(q.addr - sections[s].start) + sections[s].offset)
    requires len == if sections[s].mr.Guest? && sections[s].mr.ram
                    then Wrap64(Min(sections[s].size - Wrap64(q.addr - sections[s].start), q.plen)) else q.plen
    ensures RightReply(view, q, Reply(sections[s].mr, xlat, len))
  {
    if s == Resolve(t, sections, subpages, q.addr) {
      TranslateAnswers(t, sections, subpages, view, q, s, xlat, len);
    } else {
      ContainerAnswers(t, sections, subpages, view, q, s, xlat);
    }
  }

  lemma TranslateAnswers(t: Tree, sections: seq<Section>, subpages: seq<seq<nat>>, view: seq<Section>, q: Query, r: nat, xlat: nat, len: nat)
    requires SectionsOk(sections, subpages) && AllResolveOk(t, sections, subpages)
    requires Origins(sections, view) && Complete(t, sections, subpages, view) && ViewOk(view) && Shaped(sections, view)
    requires q.addr < ADDR_SPACE && q.plen < ADDR_SPACE
    requires r == Resolve(t, sections, subpages, q.addr) && r < |sections|
    requires xlat == Wrap64(Wrap64(q.addr - sections[r].start) + sections[r].offset)
    requires len == if sections[r].mr.Guest? && sections[r].mr.ram
                    then Wrap64(Min(sections[r].size - Wrap64(q.addr - sections[r].start), q.plen)) else q.plen
    ensures Resolved(view, q, Reply(sections[r].mr, xlat, len))
  {
    ResolveAnswers(t, sections, subpages, view, q.addr);
    if sections[r].mr.Guest? && sections[r].mr.ram {
      RamClamp(t, sections, subpages, view, q.addr, q.plen, len);
    }
  }

  lemma ContainerAnswers(t: Tree, sections: seq<Section>, subpages: seq<seq<nat>>, view: seq<Section>, q: Query, s: nat, xlat: nat)
    requires SectionsOk(sections, subpages) && LeavesOk(t, sections) && OnShared(sections, view) && q.addr < ADDR_SPACE
    requires s == FindSection(t, sections, q.addr) != Resolve(t, sections, subpages, q.addr) && s < |sections|
    requires xlat == Wrap64(Wrap64(q.addr - sections[s].start) + sections[s].offset)
    ensures Unresolved(view, q, Reply(sections[s].mr, xlat, q.plen))
  {
    PagesFit();
    var page := q.addr / TARGET_PAGE_SIZE;
    assert LeafOk(t, sections, page);
    assert sections[..4][0] == sections[0];
    assert Container(sections, s) && SectionOk(sections[s], subpages);
    assert sections[s].start == page * TARGET_PAGE_SIZE;
    assert HasPage(sections, page);
  }

  function PageAlign(addr: nat): nat {
    Wrap64((addr + TARGET_PAGE_SIZE - 1) / TARGET_PAGE_SIZE * TARGET_PAGE_SIZE)
  }

  /** Bytes before the first page boundary, at most the section: the first `now.size` of `mem_add`. */
  function HeadSize(s: Section): (n: nat)
    requires Proper(s)
    ensures n <= s.size && s.start % TARGET_PAGE_SIZE + n <= TARGET_PAGE_SIZE
    ensures n == 0 <==> s.start % TARGET_PAGE_SIZE == 0
    ensures n < s.size ==> (s.start + n) % TARGET_PAGE_SIZE == 0
  {
    if s.start % TARGET_PAGE_SIZE != 0 then
      HeadLength(s.start);
      Min(Wrap64(PageAlign(s.start) - s.start), s.size)
    else 0
  }

  lemma HeadLength(start: nat)
    requires start < ADDR_SPACE && start % TARGET_PAGE_SIZE != 0
    ensures Wrap64(PageAlign(start) - start) == TARGET_PAGE_SIZE - start % TARGET_PAGE_SIZE
  {
    var k := start / TARGET_PAGE_SIZE;
    assert (start + TARGET_PAGE_SIZE - 1) / TARGET_PAGE_SIZE == k + 1;
  }

  /** Moving on within a section: the address does not wrap, the region offset wraps once at most. */
  lemma Advance(s: Section, base: nat, n: nat)
    requires Proper(s) && base + n < s.size
    ensures Wrap64(s.start + base + n) == s.start + base + n
    ensures Wrap64(Wrap64(s.offset + base) + n) == Wrap64(s.offset + (base + n))
  {
    var k := (s.offset + base) / ADDR_SPACE;
    assert (s.offset + base) % ADDR_SPACE + n == (s.offset + (base + n)) - k * ADDR_SPACE;
  }

  /** The clamped length of a RAM access: up to the end of the head, the whole pages or the tail that holds the address. */
  ghost predicate RamLength(view: seq<Section>, addr: nat, plen: nat, len: nat) {
    exists i :: 0 <= i < |view| && Covers(view[i], addr) && len == Min(PieceEnd(view[i], addr) - addr, plen)
  }

  lemma RamClamp(t: Tree, sections: seq<Section>, subpages: seq<seq<nat>>, view: seq<Section>, addr: nat, plen: nat, len: nat)
    requires SectionsOk(sections, subpages) && AllResolveOk(t, sections, subpages) && Shaped(sections, view)
    requires addr < ADDR_SPACE && plen < ADDR_SPACE
    requires var r := Resolve(t, sections, subpages, addr);
             r < |sections| && sections[r].mr.Guest? && len == Wrap64(Min(sections[r].size - Wrap64(addr - sections[r].start), plen))
    ensures RamLength(view, addr, plen, len)
  {
    var r := Resolve(t, sections, subpages, addr);
    assert ResolvesOk(t, sections, subpages, addr);
    assert sections[..4][0] == sections[0];
    assert SectionOk(sections[r], subpages);
    assert CutFrom(sections[r], view);
    PieceClamp(sections[r], view, addr, plen);
  }

  lemma PieceClamp(p: Section, view: seq<Section>, addr: nat, plen: nat)
    requires CutFrom(p, view) && p.size > 0 && p.start + p.size <= ADDR_SPACE
    requires addr < ADDR_SPACE && plen < ADDR_SPACE && Covers(p, addr)
    ensures RamLength(view, addr, plen, Wrap64(Min(p.size - Wrap64(addr - p.start), plen)))
  {
    var j :| 0 <= j < |view| && PieceOf(p, view[j]) && IsCut(p, view[j]);
    ClampIs(p, addr, plen);
    assert Covers(view[j], addr) && EndsWith(p, view[j], addr);
  }

  lemma ClampIs(p: Section, addr: nat, plen: nat)
    requires p.start + p.size <= ADDR_SPACE && plen < ADDR_SPACE && Covers(p, addr)
    ensures Wrap64(Min(p.size - Wrap64(addr - p.start), plen)) == Min(p.start + p.size - addr, plen)
  {
    assert Wrap64(addr - p.start) == addr - p.start;
  }

  lemma CoverChecks(sections: seq<Section>, subpages: seq<seq<nat>>, addr: nat)
    requires SectionsOk(sections, subpages) && addr < ADDR_SPACE
    ensures forall s :: 0 <= s < |sections| ==> (SectionCoversAddr(sections[s], addr) <==> Covers(sections[s], addr))
  {
    forall s | 0 <= s < |sections|
      ensures SectionCoversAddr(sections[s], addr) <==> Covers(sections[s], addr)
    {
      if s < 4 {
        assert sections[s] == sections[..4][s];
      } else {
        assert SectionOk(sections[s], subpages);
      }
      CoverCheckIsInterval(sections[s], addr);
    }
  }

  /** A cached section that covers the address is the one that the search would end on. */
  lemma CachedHit(t: Tree, sections: seq<Section>, subpages: seq<seq<nat>>, mru: Option<nat>, addr: nat)
    requires SectionsOk(sections, subpages) && AllOwn(t, sections, subpages) && addr < ADDR_SPACE
    requires mru.Some? ==> mru.value == PHYS_SECTION_UNASSIGNED || 4 <= mru.value < |sections|
    ensures mru.Some? && mru.value != PHYS_SECTION_UNASSIGNED && Covers(sections[mru.value], addr) ==>
              (Container(sections, mru.value) && FindSection(t, sections, addr) == mru.value)
              || (sections[mru.value].mr.Guest? && Resolve(t, sections, subpages, addr) == mru.value)
  {
    if mru.Some? && mru.value != PHYS_SECTION_UNASSIGNED {
      assert Owns(t, sections, subpages, mru.value, addr);
      assert SectionOk(sections[mru.value], subpages);
    }
  }

  /** What the search finds is unassigned, a piece, or a container whose table gives the resolved section. */
  lemma FoundIsContainer(t: Tree, sections: seq<Section>, subpages: seq<seq<nat>>, addr: nat)
    requires SectionsOk(sections, subpages) && LeavesOk(t, sections) && AllResolveOk(t, sections, subpages) && addr < ADDR_SPACE
    ensures var s := FindSection(t, sections, addr); var r := Resolve(t, sections, subpages, addr);
            && s < |sections| && r < |sections|
            && (s == PHYS_SECTION_UNASSIGNED || 4 <= s) && (r == PHYS_SECTION_UNASSIGNED || 4 <= r)
            && !sections[r].mr.SubpageIo?
            && (sections[s].mr.SubpageIo? ==>
                  sections[s].mr.table < |subpages| && |subpages[sections[s].mr.table]| == TARGET_PAGE_SIZE)
  {
    PagesFit();
    assert LeafOk(t, sections, addr / TARGET_PAGE_SIZE);
    assert ResolvesOk(t, sections, subpages, addr);
    assert sections[..4][0] == sections[0];
    var s := FindSection(t, sections, addr);
    if 4 <= s { assert SectionOk(sections[s], subpages); }
  }

  datatype Query = Query(addr: nat, plen: nat, resolveSubpage: bool)
  datatype Reply = Reply(mr: Region, xlat: nat, len: nat)

  ghost predicate HasPage(sections: seq<Section>, page: nat) { page in ContainerPages(sections) }

  /** Containers are on exactly the pages that some section covers in part. */
  ghost predicate OnShared(sections: seq<Section>, view: seq<Section>) {
    forall page: nat {:trigger HasPage(sections, page)} :: HasPage(sections, page) <==> page in SharedPages(view)
  }

  /** What the view says about an address. */
  ghost predicate Resolved(view: seq<Section>, q: Query, r: Reply) {
    && Answers(view, q.addr, r.mr, r.xlat)
    && (if r.mr.Guest? && r.mr.ram then RamLength(view, q.addr, q.plen, r.len) else r.len == q.plen)
  }

  /** The container of a page that some section covers in part. */
  ghost predicate Unresolved(view: seq<Section>, q: Query, r: Reply) {
    && r.mr.SubpageIo? && q.addr / TARGET_PAGE_SIZE in SharedPages(view)
    && r.xlat == q.addr % TARGET_PAGE_SIZE && r.len == q.plen
  }

  /** A resolving lookup gives what the view says; any other may stop at a container. */
  ghost predicate RightReply(view: seq<Section>, q: Query, r: Reply) {
    Resolved(view, q, r) || (!q.resolveSubpage && Unresolved(view, q, r))
  }

  /**
   On a page that some section covers in part, a lookup that does not resolve gives the container as long as
   no lookup on that page has resolved.
   */
  ghost predicate FirstStops(view: seq<Section>, queries: seq<Query>, replies: seq<Reply>) {
    |replies| <= |queries| && forall k :: 0 <= k < |replies| && FirstOn(view, queries, k) ==> Unresolved(view, queries[k], replies[k])
  }

  ghost predicate FirstOn(view: seq<Section>, queries: seq<Query>, k: nat) {
    && k < |queries| && !queries[k].resolveSubpage && queries[k].addr / TARGET_PAGE_SIZE in SharedPages(view)
    && forall j :: 0 <= j < k && queries[j].resolveSubpage ==> queries[j].addr / TARGET_PAGE_SIZE != queries[k].addr / TARGET_PAGE_SIZE
  }

  ghost predicate AllRight(view: seq<Section>, queries: seq<Query>, replies: seq<Reply>) {
    |replies| <= |queries| && forall k :: 0 <= k < |replies| ==> RightReply(view, queries[k], replies[k])
  }

  /** Heads, runs of whole pages and tails of all sections. */
  function PieceTotal(flat: seq<Section>): nat {
    if flat == [] then 0 else PieceTotal(flat[..|flat| - 1]) + PieceCount(flat[|flat| - 1])
  }

  /** The pages that some section covers in part. */
  function SharedPages(flat: seq<Section>): set<nat> {
    if flat == [] then {} else SharedPages(flat[..|flat| - 1]) + PartialPages(flat[|flat| - 1])
  }

  /** The section numbers that a table for `flat` takes. */
  function Numbers(flat: seq<Section>): nat { 4 + PieceTotal(flat) + |SharedPages(flat)| }

  lemma NumbersGrow(flat: seq<Section>, section: Section, flat': seq<Section>)
    requires flat' == flat + [section]
    ensures Numbers(flat') == Numbers(flat) + Need(section, SharedPages(flat))
    ensures SharedPages(flat') == SharedPages(flat) + PartialPages(section)
  {
    assert flat'[..|flat|] == flat;
    var have, more := SharedPages(flat), PartialPages(section);
    assert have + more == have + (more - have);
  }

  lemma NextDisjoint(flat: seq<Section>, i: nat)
    requires i < |flat| && PairwiseDisjoint(flat)
    ensures DisjointFrom(flat[i], flat[..i])
  {
    forall j | 0 <= j < i
      ensures Disjoint(flat[i], flat[..i][j])
    {
      assert Disjoint(flat[j], flat[i]);
    }
  }

  /** The section that is added next. */
  lemma NextSection(flat: seq<Section>, i: nat, done: seq<Section>, next: seq<Section>)
    requires i < |flat| && PairwiseDisjoint(flat) && done == flat[..i] && next == flat[..i + 1]
    ensures next == done + [flat[i]] && DisjointFrom(flat[i], done) && Numbers(next) <= Numbers(flat)
  {
    NumbersMonotone(flat, i + 1);
    NextDisjoint(flat, i);
  }

  lemma {:induction false} NumbersMonotone(flat: seq<Section>, i: nat)
    requires i <= |flat|
    ensures Numbers(flat[..i]) <= Numbers(flat)
    decreases |flat| - i
  {
    if i == |flat| {
      assert flat[..i] == flat;
    } else {
      NumbersGrow(flat[..i], flat[i], flat[..i + 1]);
      NumbersMonotone(flat, i + 1);
    }
  }

  /** `mem_begin`, `mem_add` for every section and `mem_commit`. */
  method Render(flat: seq<Section>) returns (ok: bool, d: AddressSpaceDispatch)
    requires forall i :: 0 <= i < |flat| ==> Proper(flat[i])
    requires PairwiseDisjoint(flat)
    ensures ok <==> Numbers(flat) <= TARGET_PAGE_SIZE
    ensures fresh(d) && fresh(d.pages)
    ensures ok ==> d.Published() && d.view == flat && d.mru == None
  {
    d := new AddressSpaceDispatch();
    ok := d.AddAll(flat);
    if ok {
      d.Commit();
    }
  }

  lemma FirstIsRight(t: Tree, sections: seq<Section>, subpages: seq<seq<nat>>, view: seq<Section>, mru: Option<nat>,
                     queries: seq<Query>, k: nat, s: nat, mru': Option<nat>, r: Reply)
    requires Consistent(t, sections, subpages, view, 0) && Shaped(sections, view) && OnShared(sections, view)
    requires k < |queries| && forall j :: 0 <= j < |queries| ==> queries[j].addr < ADDR_SPACE
    requires Seen(mru, t, sections, subpages, queries[..k]) && Answered(mru, t, sections, subpages, queries[k], s, mru')
    requires mru.Some? ==> mru.value == PHYS_SECTION_UNASSIGNED || 4 <= mru.value < |sections|
    requires s < |sections| && RightReply(view, queries[k], r) && r.mr == sections[s].mr
    ensures Seen(mru', t, sections, subpages, queries[..k + 1])
    ensures FirstOn(view, queries, k) ==> Unresolved(view, queries[k], r)
  {
    SeenNext(mru, mru', t, sections, subpages, queries[..k], queries[k], s);
    assert queries[..k + 1] == queries[..k] + [queries[k]];
    if FirstOn(view, queries, k) {
      FirstOnShared(t, sections, subpages, view, mru, queries[..k], queries[k], s, mru');
      NotInView(view, queries[k], r);
    }
  }

  lemma NotInView(view: seq<Section>, q: Query, r: Reply)
    requires ViewOk(view) && r.mr.SubpageIo?
    ensures !Resolved(view, q, r)
  {
    if i: nat :| i < |view| && Covers(view[i], q.addr) {
      assert Proper(view[i]);
    }
  }

  /**
   A whole life of a dispatch table: begin, add every section of the view, commit, then any mix of
   resolving and non-resolving lookups.  It fails if and only if the view takes more section numbers
   than there are, and every resolving lookup answers as the flat view does.
   */
  method RenderAndTranslate(flat: seq<Section>, queries: seq<Query>) returns (ok: bool, replies: seq<Reply>)
    requires forall i :: 0 <= i < |flat| ==> Proper(flat[i])
    requires PairwiseDisjoint(flat)
    requires forall i :: 0 <= i < |queries| ==> queries[i].addr < ADDR_SPACE && queries[i].plen < ADDR_SPACE
    ensures ok <==> Numbers(flat) <= TARGET_PAGE_SIZE
    ensures ok ==> |replies| == |queries| && AllRight(flat, queries, replies) && FirstStops(flat, queries, replies)
  {
    replies := [];
    var d;
    ok, d := Render(flat);
    if !ok { return; }
    for k := 0 to |queries|
      invariant d.Published() && d.view == flat && fresh(d) && fresh(d.pages)
      invariant |replies| == k && AllRight(flat, queries, replies) && FirstStops(flat, queries, replies)
      invariant Seen(d.mru, d.built, d.sections, d.subpages, queries[..k])
    {
      var reply := d.Ask(queries, k);
      replies := replies + [reply];
    }
  }
}
