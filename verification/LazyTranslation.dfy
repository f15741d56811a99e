/** The slot-specific parts of a core's translation tables (MMU/ARMv6/mmu.c): level 2 entries that
    are filled in when an access faults, from the blocks of the loaded slot, and emptied again by
    loops that stop early when another slot is loaded. */
module LazyTranslation {
  import opened Words
  import opened SlotBlocks

  const SECTION := 0x10_0000
  const ENTRIES := 256
  const APP_FIRST := 8            // the first page of application memory
  const STACK_BASE := 0xffd0_0000 // the section of the SVC stack
  const STACK_TOP := 0xff         // the page at svc_stack_top

  /** A level 2 entry: check_task_slot_l2, a page of memory, or a handler of another kind. */
  datatype Entry = AskSlot | Page(frame: nat) | OtherHandler

  type Table = s: seq<Entry> | |s| == ENTRIES witness seq(256, _ => AskSlot)

  // ---- what the blocks of a slot say ----

  /** The blocks consist of pages, of memory that exists. */
  predicate Paged(bs: seq<Block>) {
    forall i | 0 <= i < |bs| :: OfPages(bs[i])
  }

  predicate OfPages(b: Block) {
    b.virtualBase % PAGE == 0 && b.physicalBase % PAGE == 0 && b.size % PAGE == 0 && b.physicalBase + b.size <= WORD_SIZE
  }

  function FirstPage(b: Block, section: int): int {
    (b.virtualBase - section) / PAGE
  }

  function PageCount(b: Block): nat {
    b.size / PAGE
  }

  /** The block starts in the section, and does not overrun it. */
  predicate InSection(b: Block, section: int) {
    section <= b.virtualBase && b.End() <= section + SECTION
  }

  /** No block lies partly in the section and partly outside. */
  predicate KeepsTo(bs: seq<Block>, section: int) {
    forall i | 0 <= i < |bs| :: InSection(bs[i], section) || bs[i].End() <= section || section + SECTION <= bs[i].virtualBase
  }

  /** The i-th page of the section belongs to the block. */
  predicate Covers(b: Block, section: int, i: int) {
    InSection(b, section) && FirstPage(b, section) <= i < FirstPage(b, section) + PageCount(b)
  }

  function FrameIn(b: Block, section: int, i: int): int {
    b.physicalBase / PAGE + (i - FirstPage(b, section))
  }

  /** The i-th entry of the table says no more than the blocks do. */
  ghost predicate EntryOk(s: Table, bs: seq<Block>, section: int, i: int)
    requires 0 <= i < ENTRIES
  {
    s[i].Page? ==> exists k | 0 <= k < |bs| :: Covers(bs[k], section, i) && s[i].frame == FrameIn(bs[k], section, i)
  }

  /** Between lo and hi every entry either asks the slot or is the page the slot's blocks give. */
  ghost predicate Caches(s: Table, bs: seq<Block>, section: int, lo: nat, hi: nat) {
    forall i | lo <= i < hi && i < ENTRIES :: !s[i].OtherHandler? && EntryOk(s, bs, section, i)
  }

  /** Every block is mapped completely or not at all. */
  ghost predicate WholeBlocks(s: Table, bs: seq<Block>, section: int) {
    forall k, i, j | 0 <= k < |bs| && 0 <= i < ENTRIES && 0 <= j < ENTRIES
                     && Covers(bs[k], section, i) && Covers(bs[k], section, j) ::
      s[i].Page? ==> s[j].Page?
  }

  // ---- filling ----

  /** n entries from base on become consecutive pages. */
  function Mapped(s: Table, base: int, n: nat, frame: nat): (r: Table)
    requires 0 <= base && base + n <= ENTRIES
  {
    seq(ENTRIES, i requires 0 <= i < ENTRIES => if base <= i < base + n then Page(frame + (i - base)) else s[i])
  }

  function MapBlock(s: Table, b: Block, section: int): (r: Table)
    requires InSection(b, section) && OfPages(b) && section % PAGE == 0
  {
    Mapped(s, FirstPage(b, section), PageCount(b), b.physicalBase / PAGE)
  }

  lemma CoversIsHolds(b: Block, section: int, i: int)
    requires b.virtualBase % PAGE == 0 && b.size % PAGE == 0 && section % PAGE == 0 && InSection(b, section)
    ensures Covers(b, section, i) <==> b.Holds(section + i * PAGE)
    ensures 0 <= FirstPage(b, section) && FirstPage(b, section) + PageCount(b) <= ENTRIES
  {
  }

  lemma OneCover(bs: seq<Block>, section: int, k: nat, m: nat, i: int)
    requires Apart(bs) && Paged(bs) && section % PAGE == 0 && k < |bs| && m < |bs|
    requires Covers(bs[k], section, i) && Covers(bs[m], section, i)
    ensures k == m
  {
    CoversIsHolds(bs[k], section, i);
    CoversIsHolds(bs[m], section, i);
  }

  /** Mapping one of the slot's blocks keeps the table a cache of the blocks. */
  lemma MapKeepsCache(s: Table, bs: seq<Block>, section: int, k: nat, lo: nat, hi: nat)
    requires Caches(s, bs, section, lo, hi) && Paged(bs) && section % PAGE == 0 && k < |bs| && InSection(bs[k], section)
    ensures Caches(MapBlock(s, bs[k], section), bs, section, lo, hi)
  {
    CoversIsHolds(bs[k], section, 0);
    var r := MapBlock(s, bs[k], section);
    forall i | lo <= i < hi && i < ENTRIES
      ensures !r[i].OtherHandler? && EntryOk(r, bs, section, i)
    {
      if Covers(bs[k], section, i) {
        assert r[i] == Page(FrameIn(bs[k], section, i));
      } else {
        assert r[i] == s[i] && EntryOk(s, bs, section, i);
      }
    }
  }

  lemma MapKeepsWhole(s: Table, bs: seq<Block>, section: int, k: nat)
    requires WholeBlocks(s, bs, section) && Apart(bs) && Paged(bs) && section % PAGE == 0
    requires k < |bs| && InSection(bs[k], section)
    ensures WholeBlocks(MapBlock(s, bs[k], section), bs, section)
  {
    CoversIsHolds(bs[k], section, 0);
    var r := MapBlock(s, bs[k], section);
    forall m, i, j | 0 <= m < |bs| && 0 <= i < ENTRIES && 0 <= j < ENTRIES
                     && Covers(bs[m], section, i) && Covers(bs[m], section, j)
      ensures r[i].Page? ==> r[j].Page?
    {
      if Covers(bs[k], section, i) {
        OneCover(bs, section, k, m, i);
      } else if Covers(bs[k], section, j) {
        OneCover(bs, section, k, m, j);
      }
    }
  }

  // ---- emptying ----

  function ClearedApp(s: Table): Table {
    seq(ENTRIES, i requires 0 <= i < ENTRIES => if i >= APP_FIRST then AskSlot else s[i])
  }

  /** An entry that asks the slot comes before it, and another after it. */
  predicate BetweenAsks(s: Table, j: int) {
    && (exists i | 0 <= i < j && i < STACK_TOP :: s[i] == AskSlot)
    && (exists k | j < k < STACK_TOP && 0 <= k :: s[k] == AskSlot)
  }

  /** What clear_svc_stack_area leaves: it works inwards from both ends, up to the first entries
      that already ask the slot. */
  function ClearedStack(s: Table): Table {
    seq(ENTRIES, j requires 0 <= j < ENTRIES => if j < STACK_TOP && !BetweenAsks(s, j) then AskSlot else s[j])
  }

  /** No page lies between two entries that ask the slot. */
  predicate PagesAtEndsOnly(s: Table) {
    forall j | 0 <= j < STACK_TOP && s[j] != AskSlot :: !BetweenAsks(s, j)
  }

  predicate AllAsk(s: Table, lo: nat, hi: nat) {
    forall i | lo <= i < hi && i < ENTRIES :: s[i] == AskSlot
  }

  lemma ClearsIffPagesAtEnds(s: Table)
    ensures AllAsk(ClearedStack(s), 0, STACK_TOP) <==> PagesAtEndsOnly(s)
  {
    forall j | 0 <= j < STACK_TOP
      ensures ClearedStack(s)[j] == AskSlot <==> s[j] == AskSlot || !BetweenAsks(s, j)
    {
    }
  }

  /** Every block of the stack section starts at its bottom or ends at the top of the stack. */
  predicate TouchesEnds(bs: seq<Block>) {
    forall k | 0 <= k < |bs| && InSection(bs[k], STACK_BASE) :: EndBlock(bs[k])
  }

  predicate EndBlock(b: Block) {
    b.virtualBase == STACK_BASE || b.End() == STACK_BASE + STACK_TOP * PAGE
  }

  /** The pages of the section are below the top of the stack. */
  predicate BelowTop(bs: seq<Block>) {
    forall k | 0 <= k < |bs| && InSection(bs[k], STACK_BASE) :: bs[k].End() <= STACK_BASE + STACK_TOP * PAGE
  }

  /** Some table that caches the blocks, whole. */
  ghost predicate Possible(s: Table, bs: seq<Block>) {
    Caches(s, bs, STACK_BASE, 0, STACK_TOP) && WholeBlocks(s, bs, STACK_BASE)
  }

  lemma EndBlocksAtEnds(s: Table, bs: seq<Block>)
    requires Possible(s, bs) && Apart(bs) && Paged(bs) && BelowTop(bs) && TouchesEnds(bs)
    ensures PagesAtEndsOnly(s)
  {
    forall j | 0 <= j < STACK_TOP && s[j] != AskSlot
      ensures !BetweenAsks(s, j)
    {
      assert EntryOk(s, bs, STACK_BASE, j);
      var k :| 0 <= k < |bs| && Covers(bs[k], STACK_BASE, j);
      assert bs[k].virtualBase % PAGE == 0 && bs[k].size % PAGE == 0;
      if bs[k].virtualBase == STACK_BASE {
        forall i | 0 <= i < j
          ensures s[i] != AskSlot
        {
          assert Covers(bs[k], STACK_BASE, i);
        }
      } else {
        forall i | j < i < STACK_TOP
          ensures s[i] != AskSlot
        {
          assert Covers(bs[k], STACK_BASE, i);
        }
      }
    }
  }

  lemma InnerBlockIsLeft(bs: seq<Block>, k: nat) returns (s: Table)
    requires Apart(bs) && Paged(bs) && BelowTop(bs)
    requires k < |bs| && InSection(bs[k], STACK_BASE) && !EndBlock(bs[k])
    ensures Possible(s, bs) && !PagesAtEndsOnly(s)
  {
    var empty: Table := seq(ENTRIES, _ => AskSlot);
    s := MapBlock(empty, bs[k], STACK_BASE);
    MapKeepsCache(empty, bs, STACK_BASE, k, 0, STACK_TOP);
    MapKeepsWhole(empty, bs, STACK_BASE, k);
    CoversIsHolds(bs[k], STACK_BASE, 0);
    var j := FirstPage(bs[k], STACK_BASE);
    assert bs[k].virtualBase % PAGE == 0 && bs[k].size % PAGE == 0;
    assert 0 < j && j + PageCount(bs[k]) < STACK_TOP && PageCount(bs[k]) > 0;
    assert s[0] == AskSlot && s[j + PageCount(bs[k])] == AskSlot && s[j].Page?;
    assert BetweenAsks(s, j);
  }

  /** Stopping at the first unmapped entry from each end empties the stack area, whichever blocks
      have been mapped, if and only if every block of the slot there touches one of the ends. */
  lemma ClearsAlwaysIffEndBlocks(bs: seq<Block>)
    requires Apart(bs) && Paged(bs) && BelowTop(bs)
    ensures (forall s: Table | Possible(s, bs) :: AllAsk(ClearedStack(s), 0, STACK_TOP)) <==> TouchesEnds(bs)
  {
    if TouchesEnds(bs) {
      forall s: Table | Possible(s, bs)
        ensures AllAsk(ClearedStack(s), 0, STACK_TOP)
      {
        EndBlocksAtEnds(s, bs);
        ClearsIffPagesAtEnds(s);
      }
    } else {
      var k :| 0 <= k < |bs| && InSection(bs[k], STACK_BASE) && !EndBlock(bs[k]);
      var s := InnerBlockIsLeft(bs, k);
      ClearsIffPagesAtEnds(s);
    }
  }

  // ---- whole runs ----

  /** The slot-specific tables of a core, and the blocks of the slot that is loaded. */
  datatype Mmu = Mmu(app: Table, stack: Table, blocks: seq<Block>)

  /** Adjust is TaskSlot_adjust_app_memory for the loaded slot. */
  datatype Event =
    | Fault(va: word)
    | SwitchTo(blocks: seq<Block>)
    | Add(block: Block)
    | Adjust(newLimit: word, physical: word)

  /** The blocks a slot may have: see README.md. */
  predicate GoodSlot(bs: seq<Block>) {
    && Apart(bs) && Paged(bs) && KeepsTo(bs, 0) && KeepsTo(bs, STACK_BASE)
    && BelowTop(bs) && TouchesEnds(bs)
    && forall k | 0 <= k < |bs| && InSection(bs[k], 0) :: bs[k].virtualBase >= APP_BASE
  }

  ghost predicate Ok(m: Mmu) {
    && GoodSlot(m.blocks)
    && Caches(m.app, m.blocks, 0, APP_FIRST, ENTRIES)
    && Possible(m.stack, m.blocks)
  }

  predicate InApp(va: word) {
    APP_BASE <= va < SECTION
  }

  predicate InStack(va: word) {
    STACK_BASE <= va < STACK_BASE + STACK_TOP * PAGE
  }

  function EntryFor(m: Mmu, va: word): Entry
    requires InApp(va) || InStack(va)
  {
    if InApp(va) then m.app[va / PAGE] else m.stack[(va - STACK_BASE) / PAGE]
  }

  /** The handler runs for an entry that asks the slot; without a block it halts. */
  predicate Enabled(m: Mmu, e: Event) {
    match e
    case Fault(va) =>
      (InApp(va) || InStack(va)) && EntryFor(m, va) == AskSlot && Holding(m.blocks, va) && GoodSlot(m.blocks)
    case SwitchTo(bs) => GoodSlot(bs)
    case Add(b) => Clear(m.blocks, b) && GoodSlot(Insert(m.blocks, b))
    case Adjust(newLimit, physical) =>
      Apart(m.blocks) && newLimit <= SECTION && GoodSlot(Grow(m.blocks, newLimit, physical))
  }

  function BlockAt(bs: seq<Block>, va: int): (k: nat)
    requires Holding(bs, va)
    ensures k < |bs| && bs[k].Holds(va)
  {
    if bs[0].Holds(va) then 0
    else
      assert exists i | 0 <= i < |bs| - 1 :: bs[1..][i].Holds(va) by {
        var i :| 0 <= i < |bs| && bs[i].Holds(va);
        assert bs[1..][i - 1].Holds(va);
      }
      1 + BlockAt(bs[1..], va)
  }

  lemma OnlyBlockAt(bs: seq<Block>, va: int, k: nat)
    requires Apart(bs) && k < |bs| && bs[k].Holds(va)
    ensures Holding(bs, va) && BlockAt(bs, va) == k
  {
    assert Holding(bs, va);
    var m := BlockAt(bs, va);
    assert !(m < k) && !(k < m);
  }

  lemma BlockIsInSection(bs: seq<Block>, va: word)
    requires GoodSlot(bs) && Holding(bs, va)
    ensures InApp(va) ==> InSection(bs[BlockAt(bs, va)], 0)
    ensures InStack(va) ==> InSection(bs[BlockAt(bs, va)], STACK_BASE)
  {
  }

  lemma GoodSlotsAreApart(bs: seq<Block>)
    requires GoodSlot(bs)
    ensures Apart(bs)
    ensures forall b | b in bs :: OfPages(b) && b.size > 0
  {
  }

  function Next(m: Mmu, e: Event): Mmu
    requires Enabled(m, e)
  {
    match e
    case Fault(va) =>
      BlockIsInSection(m.blocks, va);
      var b := m.blocks[BlockAt(m.blocks, va)];
      if InApp(va) then m.(app := MapBlock(m.app, b, 0)) else m.(stack := MapBlock(m.stack, b, STACK_BASE))
    case SwitchTo(bs) => Mmu(ClearedApp(m.app), ClearedStack(m.stack), bs)
    case Add(b) => m.(blocks := Insert(m.blocks, b))
    case Adjust(newLimit, physical) => m.(blocks := Grow(m.blocks, newLimit, physical))
  }

  /** Where the slot's blocks put an address. */
  function Physical(bs: seq<Block>, va: int): int
    requires Holding(bs, va)
  {
    var b := bs[BlockAt(bs, va)];
    b.physicalBase + (va - b.virtualBase)
  }

  lemma FaultKeepsOk(m: Mmu, va: word)
    requires Ok(m) && Enabled(m, Fault(va))
    ensures Ok(Next(m, Fault(va)))
  {
    var k := BlockAt(m.blocks, va);
    BlockIsInSection(m.blocks, va);
    if InApp(va) {
      MapKeepsCache(m.app, m.blocks, 0, k, APP_FIRST, ENTRIES);
    } else {
      MapKeepsCache(m.stack, m.blocks, STACK_BASE, k, 0, STACK_TOP);
      MapKeepsWhole(m.stack, m.blocks, STACK_BASE, k);
    }
  }

  lemma AddKeepsCache(s: Table, bs: seq<Block>, section: int, p: nat, b: Block, lo: nat, hi: nat)
    requires Caches(s, bs, section, lo, hi) && p <= |bs|
    ensures Caches(s, InsertAt(bs, p, b), section, lo, hi)
  {
    var r := InsertAt(bs, p, b);
    forall i | lo <= i < hi && i < ENTRIES && s[i].Page?
      ensures EntryOk(s, r, section, i)
    {
      assert EntryOk(s, bs, section, i);
      var k :| 0 <= k < |bs| && Covers(bs[k], section, i) && s[i].frame == FrameIn(bs[k], section, i);
      assert r[if k < p then k else k + 1] == bs[k];
    }
  }

  /** No page of a new block can have been mapped already, so it too is mapped as a whole or not
      at all. */
  lemma AddKeepsWhole(s: Table, bs: seq<Block>, p: nat, b: Block)
    requires Possible(s, bs) && Paged(bs) && OfPages(b) && p <= |bs|
    requires InSection(b, STACK_BASE) ==> b.End() <= STACK_BASE + STACK_TOP * PAGE && Clear(bs, b)
    ensures WholeBlocks(s, InsertAt(bs, p, b), STACK_BASE)
  {
    var r := InsertAt(bs, p, b);
    forall k, i, j | 0 <= k < |r| && 0 <= i < ENTRIES && 0 <= j < ENTRIES
                     && Covers(r[k], STACK_BASE, i) && Covers(r[k], STACK_BASE, j)
      ensures s[i].Page? ==> s[j].Page?
    {
      if k == p {
        NewIsUnmapped(s, bs, b, i);
      } else {
        assert r[k] == bs[if k < p then k else k - 1];
      }
    }
  }

  lemma NewIsUnmapped(s: Table, bs: seq<Block>, b: Block, i: nat)
    requires Caches(s, bs, STACK_BASE, 0, STACK_TOP) && Clear(bs, b) && Paged(bs) && OfPages(b)
    requires b.End() <= STACK_BASE + STACK_TOP * PAGE && Covers(b, STACK_BASE, i)
    ensures !s[i].Page?
  {
    CoversIsHolds(b, STACK_BASE, i);
    forall k | 0 <= k < |bs|
      ensures !Covers(bs[k], STACK_BASE, i)
    {
      if InSection(bs[k], STACK_BASE) {
        CoversIsHolds(bs[k], STACK_BASE, i);
      }
    }
    assert EntryOk(s, bs, STACK_BASE, i);
  }

  lemma AddKeepsOk(m: Mmu, b: Block)
    requires Ok(m) && Enabled(m, Add(b))
    ensures Ok(Next(m, Add(b)))
  {
    var p, r := Rank(m.blocks, b.virtualBase), Insert(m.blocks, b);
    assert r[p] == b;
    assert InSection(b, STACK_BASE) ==> b.End() <= STACK_BASE + STACK_TOP * PAGE;
    assert OfPages(b);
    hide Apart, KeepsTo, TouchesEnds, Covers, EntryOk, WholeBlocks;
    AddKeepsCache(m.app, m.blocks, 0, p, b, APP_FIRST, ENTRIES);
    AddKeepsCache(m.stack, m.blocks, STACK_BASE, p, b, 0, STACK_TOP);
    AddKeepsWhole(m.stack, m.blocks, p, b);
  }

  /** Within the first MiB, growing adds one block of application memory, or nothing. */
  lemma GrowAdds(bs: seq<Block>, newLimit: word, physical: word)
    requires Apart(bs) && newLimit <= SECTION
    ensures if newLimit <= AppTop(bs) then Grow(bs, newLimit, physical) == bs
            else
              AppTop(bs) >= 0 &&
              Grow(bs, newLimit, physical) == InsertAt(bs, AppEnd(bs), Block(AppTop(bs), physical, newLimit - AppTop(bs)))
  {
    TopIsInApp(bs);
    hide AppTop, AppEnd, Apart;
    if newLimit > AppTop(bs) {
      assert Cut(newLimit - AppTop(bs)) == newLimit - AppTop(bs);
    }
  }

  /** The entry that map_block writes for the p-th page of a block. */
  function EntryOfPage(b: Block, p: nat): nat {
    b.virtualBase / PAGE % ENTRIES + p
  }

  /** map_block stays in its table if and only if the block ends in the section it starts in. */
  lemma StaysInTableIff(b: Block)
    requires OfPages(b) && b.size > 0
    ensures (forall p | 0 <= p < PageCount(b) :: EntryOfPage(b, p) < ENTRIES)
            <==> InSection(b, b.virtualBase / SECTION * SECTION)
  {
    var section, first, pages := b.virtualBase / SECTION, b.virtualBase / PAGE % ENTRIES, PageCount(b);
    PageOfSection(b.virtualBase);
    assert b.End() == section * SECTION + (first + pages) * PAGE;
    assert EntryOfPage(b, pages - 1) == first + pages - 1;
  }

  lemma PageOfSection(va: nat)
    requires va % PAGE == 0
    ensures va == va / SECTION * SECTION + va / PAGE % ENTRIES * PAGE
  {
    var k, r := va / SECTION, va / PAGE % ENTRIES;
    var q := va / PAGE / ENTRIES;
    assert va == (q * ENTRIES + r) * PAGE;
    assert va / SECTION == q;
  }

  /** Growing by less than a MiB is accepted also if the new block crosses the end of the first MiB,
      where map_block would leave its table; it does if and only if the new limit is beyond. */
  lemma GrownBlockStaysIff(bs: seq<Block>, newLimit: word, physical: word)
    requires Apart(bs) && AppTop(bs) < newLimit && newLimit - AppTop(bs) < SIZE_RANGE
    ensures var r, p := Grow(bs, newLimit, physical), AppEnd(bs);
            && p < |r| == |bs| + 1 && r[p] == Block(AppTop(bs), physical, newLimit - AppTop(bs))
            && (InSection(r[p], 0) <==> newLimit <= SECTION)
  {
    TopIsInApp(bs);
  }

  lemma TopIsInApp(bs: seq<Block>)
    requires Apart(bs)
    ensures AppTop(bs) >= APP_BASE
  {
    var low, end := LowBlocks(bs, 0), AppEnd(bs);
    assert low < end ==> low == end - 1 || bs[low].End() <= bs[end - 1].virtualBase;
  }

  lemma AdjustKeepsOk(m: Mmu, newLimit: word, physical: word)
    requires Ok(m) && Enabled(m, Adjust(newLimit, physical))
    ensures Ok(Next(m, Adjust(newLimit, physical)))
  {
    var bs := m.blocks;
    GrowAdds(bs, newLimit, physical);
    if newLimit > AppTop(bs) {
      var p, b := AppEnd(bs), Block(AppTop(bs), physical, newLimit - AppTop(bs));
      assert InsertAt(bs, p, b)[p] == b;
      assert OfPages(b) && Paged(bs);
      hide Apart, KeepsTo, TouchesEnds, BelowTop, Covers, EntryOk, WholeBlocks, AppTop, AppEnd, Grow;
      AddKeepsCache(m.app, bs, 0, p, b, APP_FIRST, ENTRIES);
      AddKeepsCache(m.stack, bs, STACK_BASE, p, b, 0, STACK_TOP);
      AddKeepsWhole(m.stack, bs, p, b);
    }
  }

  /** After a switch nothing of the old slot is left, although the loops stop early. */
  lemma SwitchForgets(m: Mmu, bs: seq<Block>)
    requires Ok(m) && GoodSlot(bs)
    ensures var n := Next(m, SwitchTo(bs));
            n.blocks == bs && Ok(n) && AllAsk(n.app, APP_FIRST, ENTRIES) && AllAsk(n.stack, 0, STACK_TOP)
  {
    EndBlocksAtEnds(m.stack, m.blocks);
    ClearsIffPagesAtEnds(m.stack);
    var n := Next(m, SwitchTo(bs));
    assert forall i | APP_FIRST <= i < ENTRIES :: n.app[i] == AskSlot;
    forall k, i, j | 0 <= k < |bs| && 0 <= i < ENTRIES && 0 <= j < ENTRIES
                     && Covers(bs[k], STACK_BASE, i) && Covers(bs[k], STACK_BASE, j)
      ensures n.stack[i].Page? ==> n.stack[j].Page?
    {
      assert bs[k].virtualBase % PAGE == 0 && bs[k].size % PAGE == 0 && bs[k].End() <= STACK_BASE + STACK_TOP * PAGE;
      assert i < STACK_TOP && n.stack[i] == AskSlot;
    }
  }

  /** A new block gives its own addresses their memory, and leaves the others where they are. */
  lemma InsertAtPlaces(bs: seq<Block>, p: nat, b: Block, va: int)
    requires p <= |bs| && Apart(InsertAt(bs, p, b))
    ensures var r := InsertAt(bs, p, b);
            && (Holding(r, va) <==> Holding(bs, va) || b.Holds(va))
            && (b.Holds(va) ==> Physical(r, va) == b.physicalBase + (va - b.virtualBase))
            && (Holding(bs, va) ==> Physical(r, va) == Physical(bs, va))
  {
    var r := InsertAt(bs, p, b);
    hide Apart, GoodSlot;
    InsertAtHolding(bs, p, b, va);
    if Holding(bs, va) {
      var k := BlockAt(bs, va);
      assert r[if k < p then k else k + 1] == bs[k];
      OnlyBlockAt(r, va, if k < p then k else k + 1);
    }
    if b.Holds(va) {
      assert r[p] == b;
      OnlyBlockAt(r, va, p);
    }
  }

  /** Adding a block gives the slot exactly the block's addresses as well, in the block's memory. */
  lemma AddGives(m: Mmu, b: Block, va: int)
    requires Enabled(m, Add(b))
    ensures var n := Next(m, Add(b));
            && n.app == m.app && n.stack == m.stack
            && (Holding(n.blocks, va) <==> Holding(m.blocks, va) || b.virtualBase <= va < b.virtualBase + b.size)
            && (b.virtualBase <= va < b.virtualBase + b.size ==> Physical(n.blocks, va) == b.physicalBase + (va - b.virtualBase))
            && (Holding(m.blocks, va) ==> Physical(n.blocks, va) == Physical(m.blocks, va))
  {
    GoodSlotsAreApart(Insert(m.blocks, b));
    hide GoodSlot, Apart, Physical;
    InsertAtPlaces(m.blocks, Rank(m.blocks, b.virtualBase), b, va);
  }

  lemma GrowPlaces(bs: seq<Block>, newLimit: word, physical: word, va: int)
    requires Apart(bs) && newLimit <= SECTION && Apart(Grow(bs, newLimit, physical))
    ensures var r, top := Grow(bs, newLimit, physical), AppTop(bs);
            && (Holding(r, va) <==> Holding(bs, va) || top <= va < newLimit)
            && (top <= va < newLimit ==> Physical(r, va) == physical + (va - top))
            && (Holding(bs, va) ==> Physical(r, va) == Physical(bs, va))
  {
    hide Apart, Holding, Physical, Grow, InsertAt, AppTop, AppEnd;
    GrowAdds(bs, newLimit, physical);
    var top := AppTop(bs);
    if newLimit > top {
      InsertAtPlaces(bs, AppEnd(bs), Block(top, physical, newLimit - top), va);
    }
  }

  /** Growing gives the slot exactly the addresses up to the new limit as well, in the memory that
      was passed. */
  lemma AdjustGives(m: Mmu, newLimit: word, physical: word, va: int)
    requires Enabled(m, Adjust(newLimit, physical))
    ensures var n, top := Next(m, Adjust(newLimit, physical)), AppTop(m.blocks);
            && n.app == m.app && n.stack == m.stack
            && (Holding(n.blocks, va) <==> Holding(m.blocks, va) || top <= va < newLimit)
            && (top <= va < newLimit ==> Physical(n.blocks, va) == physical + (va - top))
            && (Holding(m.blocks, va) ==> Physical(n.blocks, va) == Physical(m.blocks, va))
  {
    GoodSlotsAreApart(Grow(m.blocks, newLimit, physical));
    hide GoodSlot, Apart, Physical, Holding, Grow, AppTop;
    GrowPlaces(m.blocks, newLimit, physical, va);
  }

  predicate AllEnabled(m: Mmu, events: seq<Event>)
    decreases |events|
  {
    events == [] || (Enabled(m, events[0]) && AllEnabled(Next(m, events[0]), events[1..]))
  }

  function After(m: Mmu, events: seq<Event>): Mmu
    requires AllEnabled(m, events)
    decreases |events|
  {
    if events == [] then m else After(Next(m, events[0]), events[1..])
  }

  /** In every run of faults and switches, an entry for an address of the application or the stack
      asks the slot, or gives exactly the physical page that the loaded slot's blocks do. */
  lemma {:induction false} RunIsCache(m: Mmu, events: seq<Event>, va: word)
    requires Ok(m) && AllEnabled(m, events) && (InApp(va) || InStack(va))
    ensures Ok(After(m, events))
    ensures var n := After(m, events);
            match EntryFor(n, va)
            case AskSlot => true
            case Page(frame) => Holding(n.blocks, va) && frame * PAGE + va % PAGE == Physical(n.blocks, va)
            case OtherHandler => false
    decreases |events|
  {
    if events == [] {
      PageIsRight(m, va);
    } else {
      match events[0] {
        case Fault(va') => FaultKeepsOk(m, va');
        case SwitchTo(bs) => SwitchForgets(m, bs);
        case Add(b) => AddKeepsOk(m, b);
        case Adjust(newLimit, physical) => AdjustKeepsOk(m, newLimit, physical);
      }
      RunIsCache(Next(m, events[0]), events[1..], va);
    }
  }

  /** An event changes only what is the slot's: not the entries of the core's own zero page, below
      0x8000, nor those at and above the top of the SVC stack. */
  lemma EventKeepsOwn(m: Mmu, e: Event, i: nat)
    requires Enabled(m, e) && i < ENTRIES
    ensures i * 0x1000 < 0x8000 ==> Next(m, e).app[i] == m.app[i]
    ensures i >= STACK_TOP ==> Next(m, e).stack[i] == m.stack[i]
  {
    hide Apart, KeepsTo, TouchesEnds;
    if e.Fault? {
      BlockIsInSection(m.blocks, e.va);
      assert OfPages(m.blocks[BlockAt(m.blocks, e.va)]);
    }
  }

  lemma EventsKeepOwn(m: Mmu, e: Event)
    requires Enabled(m, e)
    ensures forall i | 0 <= i < ENTRIES && i * 0x1000 < 0x8000 :: Next(m, e).app[i] == m.app[i]
    ensures forall i | STACK_TOP <= i < ENTRIES :: Next(m, e).stack[i] == m.stack[i]
  {
    hide Next, Enabled;
    forall i | 0 <= i < ENTRIES
      ensures i * 0x1000 < 0x8000 ==> Next(m, e).app[i] == m.app[i]
      ensures i >= STACK_TOP ==> Next(m, e).stack[i] == m.stack[i]
    {
      EventKeepsOwn(m, e, i);
    }
  }

  /** Nor does any run. */
  lemma {:induction false} RunKeepsOwn(m: Mmu, events: seq<Event>, i: nat)
    requires AllEnabled(m, events) && i < ENTRIES
    ensures i * 0x1000 < 0x8000 ==> After(m, events).app[i] == m.app[i]
    ensures i >= STACK_TOP ==> After(m, events).stack[i] == m.stack[i]
    decreases |events|
  {
    hide Next, Enabled;
    if events != [] {
      EventKeepsOwn(m, events[0], i);
      RunKeepsOwn(Next(m, events[0]), events[1..], i);
    }
  }

  lemma PageIsRight(m: Mmu, va: word)
    requires Ok(m) && (InApp(va) || InStack(va))
    ensures !EntryFor(m, va).OtherHandler?
    ensures EntryFor(m, va).Page? ==>
              Holding(m.blocks, va) && EntryFor(m, va).frame * PAGE + va % PAGE == Physical(m.blocks, va)
  {
    hide EntryOk, Apart, WholeBlocks, KeepsTo, TouchesEnds, BelowTop;
    if InApp(va) {
      FrameIsRight(m.app, m.blocks, 0, va);
    } else {
      FrameIsRight(m.stack, m.blocks, STACK_BASE, va);
    }
  }

  lemma FrameIsRight(s: Table, bs: seq<Block>, section: int, va: word)
    requires Apart(bs) && Paged(bs) && section % PAGE == 0 && section <= va < section + SECTION
    requires EntryOk(s, bs, section, (va - section) / PAGE)
    ensures var e := s[(va - section) / PAGE];
            e.Page? ==> Holding(bs, va) && e.frame * PAGE + va % PAGE == Physical(bs, va)
  {
    hide Apart;
    var i := (va - section) / PAGE;
    if s[i].Page? {
      var k :| 0 <= k < |bs| && Covers(bs[k], section, i) && s[i].frame == FrameIn(bs[k], section, i);
      var b := bs[k];
      OffsetInFrame(b, section, va);
      OnlyBlockAt(bs, va, k);
    }
  }

  lemma OffsetInFrame(b: Block, section: int, va: int)
    requires b.virtualBase % PAGE == 0 && b.size % PAGE == 0 && b.physicalBase % PAGE == 0 && section % PAGE == 0
    requires Covers(b, section, (va - section) / PAGE)
    ensures b.Holds(va)
    ensures FrameIn(b, section, (va - section) / PAGE) * PAGE + va % PAGE == b.physicalBase + (va - b.virtualBase)
  {
  }

  /** The entry for the address is the page where the slot's blocks put it. */
  predicate Translates(m: Mmu, va: word) {
    && (InApp(va) || InStack(va)) && Holding(m.blocks, va) && EntryFor(m, va).Page?
    && EntryFor(m, va).frame * PAGE + va % PAGE == Physical(m.blocks, va)
  }

  /** A fault that is handled leaves the page that was wanted. */
  lemma FaultResolves(m: Mmu, va: word)
    requires Enabled(m, Fault(va))
    ensures Translates(Next(m, Fault(va)), va) && Next(m, Fault(va)).blocks == m.blocks
  {
    var b := m.blocks[BlockAt(m.blocks, va)];
    BlockIsInSection(m.blocks, va);
    assert OfPages(b);
    var section := if InApp(va) then 0 else STACK_BASE;
    var i := (va - section) / PAGE;
    CoversIsHolds(b, section, i);
    PageHeld(b, va);
    hide GoodSlot;
    assert Covers(b, section, i);
    OffsetInFrame(b, section, va);
  }

  lemma PageHeld(b: Block, va: int)
    requires b.virtualBase % PAGE == 0 && b.size % PAGE == 0 && b.Holds(va)
    ensures b.Holds(va / PAGE * PAGE)
  {
  }

  // ---- where it starts ----

  /** initialise_l2tt_for_section, for the first MiB. */
  function FirstApp(): Table {
    seq(ENTRIES, i requires 0 <= i < ENTRIES => if i >= APP_FIRST then AskSlot else OtherHandler)
  }

  /** What Initialise_privileged_mode_stacks makes of a table from the pool, which holds whatever it
      does, for the section of the SVC stack. */
  function FirstStack(pool: Table): Table {
    ClearedStack(pool[STACK_TOP := OtherHandler])
  }

  /** The loops that stop early leave a good state to start with exactly if nothing but the asking
      handler lies between two words that happen to be the asking handler. */
  lemma StartIsOkIff(pool: Table, bs: seq<Block>)
    requires GoodSlot(bs)
    ensures PagesAtEndsOnly(pool) ==> Ok(Mmu(FirstApp(), FirstStack(pool), bs))
    ensures AllAsk(FirstStack(pool), 0, STACK_TOP) <==> PagesAtEndsOnly(pool)
  {
    var s := pool[STACK_TOP := OtherHandler];
    forall j | 0 <= j < STACK_TOP
      ensures s[j] == pool[j] && (BetweenAsks(s, j) <==> BetweenAsks(pool, j))
    {
      SameBetween(s, pool, j);
    }
    ClearsIffPagesAtEnds(s);
    if PagesAtEndsOnly(pool) {
      var t := FirstStack(pool);
      hide PagesAtEndsOnly, ClearedStack, FirstStack, GoodSlot;
      UnmappedIsPossible(t, bs);
    }
  }

  lemma SameBetween(s: Table, t: Table, j: nat)
    requires j < STACK_TOP && forall i | 0 <= i < STACK_TOP :: s[i] == t[i]
    ensures BetweenAsks(s, j) <==> BetweenAsks(t, j)
  {
  }

  lemma SameAtEnds(s: Table, t: Table)
    requires forall i | 0 <= i < STACK_TOP :: s[i] == t[i]
    ensures PagesAtEndsOnly(s) <==> PagesAtEndsOnly(t)
  {
    forall j | 0 <= j < STACK_TOP
      ensures BetweenAsks(s, j) <==> BetweenAsks(t, j)
    {
      SameBetween(s, t, j);
    }
  }

  lemma UnmappedIsPossible(s: Table, bs: seq<Block>)
    requires AllAsk(s, 0, STACK_TOP) && BelowTop(bs) && Paged(bs)
    ensures Possible(s, bs)
  {
    forall k, i, j | 0 <= k < |bs| && 0 <= i < ENTRIES && 0 <= j < ENTRIES
                     && Covers(bs[k], STACK_BASE, i) && Covers(bs[k], STACK_BASE, j)
      ensures s[i].Page? ==> s[j].Page?
    {
      assert OfPages(bs[k]);
      assert i < STACK_TOP;
    }
  }

  /** Every run from there. */
  lemma RunFromStartIsCache(pool: Table, bs: seq<Block>, events: seq<Event>, va: word)
    requires PagesAtEndsOnly(pool) && GoodSlot(bs) && AllEnabled(Mmu(FirstApp(), FirstStack(pool), bs), events)
    requires InApp(va) || InStack(va)
    ensures var n := After(Mmu(FirstApp(), FirstStack(pool), bs), events);
            match EntryFor(n, va)
            case AskSlot => true
            case Page(frame) => Holding(n.blocks, va) && frame * PAGE + va % PAGE == Physical(n.blocks, va)
            case OtherHandler => false
  {
    StartIsOkIff(pool, bs);
    RunIsCache(Mmu(FirstApp(), FirstStack(pool), bs), events, va);
  }

  // ---- the tables in memory ----

  /** A level 1 entry of a slot's areas: check_task_slot_l1, a table, or something else. */
  datatype Section = AskSlotSection | ToTable | OtherSection

  predicate AnyTable(sections: seq<Section>, first: nat, end: nat)
    requires first <= end <= |sections|
  {
    exists i | first <= i < end :: sections[i].ToTable?
  }

  const SECTIONS := 4096
  const APP_SECTIONS := 0x200    // up to app_memory_limit
  const PIPES_FIRST := 0xc00     // the sections of the pipes area
  const PIPES_END := 0xd00

  const FRAMES := 0x10_0000 // page_base has 20 bits

  /** Where map_block starts, and that neither the table nor the memory ends before the block. */
  lemma MapPlace(b: Block, section: int)
    requires OfPages(b) && b.size > 0 && InSection(b, section) && (section == 0 || section == STACK_BASE)
    ensures b.virtualBase / SECTION == section / SECTION
    ensures b.virtualBase / PAGE % ENTRIES == FirstPage(b, section) && FirstPage(b, section) + PageCount(b) <= ENTRIES
    ensures b.physicalBase / PAGE + PageCount(b) <= FRAMES
  {
    var v, n, f := b.virtualBase / PAGE, b.size / PAGE, b.physicalBase / PAGE;
    assert b.virtualBase == v * PAGE && b.size == n * PAGE && b.physicalBase == f * PAGE;
    var s := section / PAGE;
    assert section == s * PAGE && s % ENTRIES == 0 && s <= v && v + n <= s + ENTRIES;
    ModUnique(s / ENTRIES, ENTRIES, v - s, v);
  }

  class LocalTables {
    const app: array<Entry>
    const stack: array<Entry>
    const sections: array<Section>

    ghost predicate Valid() {
      app.Length == ENTRIES && stack.Length == ENTRIES && app != stack && sections.Length == SECTIONS
    }

    ghost function State(slot: SlotMemory): Mmu
      reads app, stack, slot, slot.blocks
      requires Valid()
    {
      Mmu(app[..], stack[..], slot.Contents())
    }

    /** map_block, for a block of either section. */
    method MapPages(b: Block, section: int)
      requires Valid() && OfPages(b) && b.size > 0 && InSection(b, section) && (section == 0 || section == STACK_BASE)
      modifies app, stack
      ensures section == 0 ==> app[..] == MapBlock(old(app[..]), b, section) && stack[..] == old(stack[..])
      ensures section != 0 ==> stack[..] == MapBlock(old(stack[..]), b, section) && app[..] == old(app[..])
    {
      MapPlace(b, section);
      var table := if b.virtualBase / SECTION == 0 then app else stack;
      ghost var was: Table := table[..];
      var base, pageBase := b.virtualBase / PAGE % ENTRIES, b.physicalBase / PAGE;
      var page, count := 0, b.size / PAGE;
      ghost var frame: nat := pageBase;
      hide InSection, FirstPage, OfPages;
      while page < count
        invariant page <= count && (page < count ==> pageBase == frame + page)
        invariant table[..] == Mapped(was, base, page, frame)
        invariant table == stack ==> app[..] == old(app[..])
        invariant table == app ==> stack[..] == old(stack[..])
      {
        assert frame + page < FRAMES;
        table[base + page] := Page(pageBase);
        pageBase := (pageBase + 1) % FRAMES;
        page := page + 1;
      }
    }

    /** check_task_slot_l2: it halts the core if the slot has no block for the address, and
        otherwise fills the table in. */
    method CheckTaskSlot(address: word, slot: SlotMemory) returns (mapped: bool)
      requires Valid() && slot.Valid() && GoodSlot(slot.Contents())
      requires (InApp(address) || InStack(address)) && EntryFor(State(slot), address) == AskSlot
      modifies app, stack
      ensures mapped <==> Holding(slot.Contents(), address)
      ensures mapped ==> State(slot) == Next(old(State(slot)), Fault(address))
      ensures mapped ==> Translates(State(slot), address)
      ensures forall i | 0 <= i < ENTRIES && i * 0x1000 < 0x8000 :: app[i] == old(app[i])
      ensures forall i | STACK_TOP <= i < ENTRIES :: stack[i] == old(stack[i])
      ensures !mapped ==> State(slot) == old(State(slot))
    {
      hide GoodSlot, EntryFor, Apart, Physical, Translates, SlotMemory.Valid, SlotMemory.Contents;
      ghost var bs := slot.Contents();
      GoodSlotsAreApart(bs);
      var found, b := slot.FindBlock(address);
      mapped := b.size != 0;
      assert mapped == found by {
        assert found ==> b in bs && b.size > 0;
      }
      if mapped {
        ghost var k :| 0 <= k < |bs| && bs[k] == b;
        OnlyBlockAt(bs, address, k);
        BlockIsInSection(bs, address);
        ghost var m := State(slot);
        FaultResolves(m, address);
        EventsKeepOwn(m, Fault(address));
        MapPages(b, if InApp(address) then 0 else STACK_BASE);
        assert slot.Contents() == bs;
      }
    }

    /** initialise_l2tt_for_section, for the first MiB. */
    method InitialiseApp()
      requires Valid()
      modifies app
      ensures app[..] == FirstApp()
      ensures forall i | 0 <= i < ENTRIES :: app[i] == if i * 0x1000 < 0x8000 then OtherHandler else AskSlot
    {
      for i := 0 to APP_FIRST
        invariant forall k | 0 <= k < i :: app[k] == OtherHandler
      {
        app[i] := OtherHandler;
      }
      for i := APP_FIRST to ENTRIES
        invariant forall k | 0 <= k < APP_FIRST :: app[k] == OtherHandler
        invariant forall k | APP_FIRST <= k < i :: app[k] == AskSlot
      {
        app[i] := AskSlot;
      }
    }

    /** The part of Initialise_privileged_mode_stacks for the SVC stack. */
    method InitialiseSvcStack()
      requires Valid()
      modifies stack
      ensures stack[..] == FirstStack(old(stack[..]))
      ensures stack[STACK_TOP] == OtherHandler
      ensures (forall i | 0 <= i < STACK_TOP :: stack[i] == AskSlot) <==> PagesAtEndsOnly(old(stack[..]))
    {
      ghost var pool: Table := stack[..];
      stack[STACK_TOP] := OtherHandler;
      assert stack[..] == pool[STACK_TOP := OtherHandler];
      SameAtEnds(stack[..], pool);
      ClearSvcStackArea();
    }

    /** The loop over level 1 entries in clear_app_area and clear_pipes_area: a core with a table in
        the area halts. */
    method ClearSections(first: nat, end: nat) returns (halted: bool)
      requires Valid() && first <= end <= SECTIONS
      modifies sections
      ensures halted <==> AnyTable(old(sections[..]), first, end)
      ensures !halted ==> forall i | 0 <= i < SECTIONS ::
                            sections[i] == if first <= i < end then AskSlotSection else old(sections[i])
    {
      ghost var was := sections[..];
      halted := false;
      for k := first to end
        invariant !halted && !AnyTable(was, first, k)
        invariant forall i | 0 <= i < SECTIONS :: sections[i] == if first <= i < k then AskSlotSection else old(sections[i])
      {
        if sections[k].ToTable? {
          return true;
        }
        sections[k] := AskSlotSection;
      }
    }

    /** clear_app_area: it halts the core if a slot has got a table for a later MiB. */
    method ClearAppArea() returns (halted: bool)
      requires Valid()
      modifies app, sections
      ensures app[..] == ClearedApp(old(app[..]))
      ensures forall i | 0 <= i < ENTRIES :: app[i] == if i * 0x1000 < 0x8000 then old(app[i]) else AskSlot
      ensures halted <==> AnyTable(old(sections[..]), 1, APP_SECTIONS)
      ensures !halted ==> forall i | 0 <= i < SECTIONS ::
                            sections[i] == if 1 <= i < APP_SECTIONS then AskSlotSection else old(sections[i])
    {
      for i := APP_FIRST to ENTRIES
        modifies app
        invariant forall k | APP_FIRST <= k < i :: app[k] == AskSlot
        invariant forall k | 0 <= k < ENTRIES && (k < APP_FIRST || i <= k) :: app[k] == old(app[k])
      {
        app[i] := AskSlot;
      }
      assert sections[..] == old(sections[..]);
      halted := ClearSections(1, APP_SECTIONS);
    }

    /** Downwards from the top of the stack, to the first entry that asks the slot. */
    method ClearDown() returns (entry: nat)
      requires Valid()
      modifies stack
      ensures entry < STACK_TOP
      ensures forall i | 0 <= i < ENTRIES ::
                stack[i] == if entry <= i < STACK_TOP then AskSlot else old(stack[i])
      ensures forall i | entry < i < STACK_TOP :: old(stack[i]) != AskSlot
      ensures entry == 0 || old(stack[entry]) == AskSlot
    {
      entry := STACK_TOP;
      while entry > 0
        invariant entry <= STACK_TOP
        invariant forall i | 0 <= i < ENTRIES ::
            stack[i] == if entry <= i < STACK_TOP then AskSlot else old(stack[i])
        invariant forall i | entry <= i < STACK_TOP :: old(stack[i]) != AskSlot
      {
        entry := entry - 1;
        if stack[entry] == AskSlot {
          return;
        }
        stack[entry] := AskSlot;
      }
    }

    method ClearSvcStackArea()
      requires Valid()
      modifies stack
      ensures stack[..] == ClearedStack(old(stack[..]))
      ensures forall i | STACK_TOP <= i < ENTRIES :: stack[i] == old(stack[i])
      ensures (forall i | 0 <= i < STACK_TOP :: stack[i] == AskSlot) <==> PagesAtEndsOnly(old(stack[..]))
    {
      ghost var was: Table := stack[..];
      ghost var down := ClearDown();
      ghost var half: Table := stack[..];
      var entry := 0;
      while entry < STACK_TOP && stack[entry] != AskSlot
        invariant entry <= down
        invariant forall i | 0 <= i < entry :: stack[i] == AskSlot && was[i] != AskSlot
        invariant forall i | entry <= i < ENTRIES :: stack[i] == half[i]
      {
        stack[entry] := AskSlot;
        entry := entry + 1;
      }
      forall j | 0 <= j < ENTRIES
        ensures stack[j] == ClearedStack(was)[j]
      {
        if entry < j < down {
          assert was[entry] == AskSlot && was[down] == AskSlot;
          assert BetweenAsks(was, j);
        }
      }
      ClearsIffPagesAtEnds(was);
    }

    /** MMU_switch_to: it halts the core if a slot has got more tables. */
    method SwitchTo(slot: SlotMemory, ghost loaded: SlotMemory) returns (halted: bool)
      requires Valid() && GoodSlot(slot.Contents())
      modifies app, stack, sections
      ensures halted <==> AnyTable(old(sections[..]), 1, APP_SECTIONS) || AnyTable(old(sections[..]), PIPES_FIRST, PIPES_END)
      ensures !halted ==> State(slot) == Next(old(State(loaded)), Event.SwitchTo(slot.Contents()))
      ensures forall i | 0 <= i < ENTRIES :: app[i] == if i * 0x1000 < 0x8000 then old(app[i]) else AskSlot
      ensures forall i | STACK_TOP <= i < ENTRIES :: stack[i] == old(stack[i])
      ensures !halted ==> ((forall i | 0 <= i < STACK_TOP :: stack[i] == AskSlot) <==> PagesAtEndsOnly(old(stack[..])))
      ensures !halted ==> forall i | 0 <= i < SECTIONS ::
                            sections[i] == if 1 <= i < APP_SECTIONS || PIPES_FIRST <= i < PIPES_END then AskSlotSection
                                           else old(sections[i])
    {
      halted := ClearAppArea();
      if halted {
        return;
      }
      assert forall i | PIPES_FIRST <= i < PIPES_END :: sections[..][i] == old(sections[..])[i];
      halted := ClearSections(PIPES_FIRST, PIPES_END);
      if halted {
        return;
      }
      ClearSvcStackArea();
    }
  }

  function StandardStack(workspace: word, pages: word): seq<Block> {
    [Block(STACK_BASE, workspace, PAGE), Block(STACK_BASE + (STACK_TOP - 40) * PAGE, pages, 40 * PAGE)]
  }

  /** What every slot starts with meets the conditions on its blocks. */
  lemma StandardStackIsGood(workspace: word, pages: word)
    requires workspace % PAGE == 0 && workspace + PAGE <= WORD_SIZE
    requires pages % PAGE == 0 && pages + 40 * PAGE <= WORD_SIZE
    ensures GoodSlot(StandardStack(workspace, pages))
    ensures var s := StandardStack(workspace, pages);
            && |s| == 2 && s[0] == Block(0xffd0_0000, workspace, 0x1000) && s[1].physicalBase == pages
            && s[1].size == 40 * 0x1000 && s[1].End() == 0xffdf_f000
  {
  }

  lemma StandardOrder(workspace: Block, pages: Block)
    requires workspace.virtualBase <= pages.virtualBase
    ensures Insert([], workspace) == [workspace]
    ensures Insert([workspace], pages) == [workspace, pages]
  {
    assert Rank([workspace], pages.virtualBase) == 1;
  }

  /** standard_svc_stack. */
  method StandardSvcStack(slot: SlotMemory, workspace: word, pages: word)
    requires slot.Valid() && slot.Contents() == []
    modifies slot.blocks
    ensures slot.Valid() && slot.Contents() == StandardStack(workspace, pages)
  {
    hide SlotMemory.Valid, SlotMemory.Contents, Insert, Rank;
    StandardOrder(StandardStack(workspace, pages)[0], StandardStack(workspace, pages)[1]);
    var initialSize, top := 4096 * 40, STACK_BASE + STACK_TOP * PAGE;
    slot.AddMemory(workspace, top - top % SECTION, 4096);
    slot.AddMemory(pages, top - initialSize, initialSize);
  }
}
