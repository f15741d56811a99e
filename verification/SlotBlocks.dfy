/** The memory blocks of a TaskSlot: a sorted, zero-terminated array that lazy translation looks
    addresses up in (TaskSlot/simple/task_slot.c). */
module SlotBlocks {
  import opened Words

  const SIZE_RANGE := 0x10_0000 // the size field is 20 bits wide

  /** What the size field keeps. */
  function Cut(size: int): (r: nat)
    ensures r < SIZE_RANGE && (size >= 0 ==> r <= size) && (0 <= size < SIZE_RANGE ==> r == size)
  {
    size % SIZE_RANGE
  }

  const BLOCKS := 50
  const APP_BASE := 0x8000
  const APP_LIMIT := 0x2000_0000

  datatype Block = Block(virtualBase: word, physicalBase: word, size: nat) {
    function End(): int {
      virtualBase + size
    }

    predicate Holds(va: int) {
      virtualBase <= va < End()
    }
  }

  const UNUSED := Block(0, 0, 0)

  const NO_MEMORY: word := 0xffff_ffff

  // ---- block lists ----

  /** In address order, non-empty, and without overlaps or wrap-around. */
  predicate Apart(bs: seq<Block>) {
    && (forall i | 0 <= i < |bs| :: 0 < bs[i].size && bs[i].End() < WORD_SIZE)
    && (forall i, j | 0 <= i < j < |bs| :: bs[i].End() <= bs[j].virtualBase)
  }

  predicate Holding(bs: seq<Block>, va: int) {
    exists i | 0 <= i < |bs| :: bs[i].Holds(va)
  }

  /** How many blocks start no later than va. */
  function Rank(bs: seq<Block>, va: word): (p: nat)
    ensures p <= |bs| && (forall i | 0 <= i < p :: bs[i].virtualBase <= va)
    ensures p < |bs| ==> bs[p].virtualBase > va
  {
    if bs == [] || bs[0].virtualBase > va then 0 else 1 + Rank(bs[1..], va)
  }

  function InsertAt(bs: seq<Block>, p: nat, b: Block): (r: seq<Block>)
    requires p <= |bs|
  {
    bs[..p] + [b] + bs[p..]
  }

  function Insert(bs: seq<Block>, b: Block): seq<Block> {
    InsertAt(bs, Rank(bs, b.virtualBase), b)
  }

  predicate Clear(bs: seq<Block>, b: Block) {
    forall i | 0 <= i < |bs| :: bs[i].End() <= b.virtualBase || b.End() <= bs[i].virtualBase
  }

  lemma InsertAtKeepsApart(bs: seq<Block>, p: nat, b: Block)
    requires Apart(bs) && p <= |bs| && 0 < b.size && b.End() < WORD_SIZE
    requires forall i | 0 <= i < p :: bs[i].End() <= b.virtualBase
    requires forall i | p <= i < |bs| :: b.End() <= bs[i].virtualBase
    ensures Apart(InsertAt(bs, p, b))
  {
  }

  lemma InsertAtHolding(bs: seq<Block>, p: nat, b: Block, va: int)
    requires p <= |bs|
    ensures Holding(InsertAt(bs, p, b), va) <==> Holding(bs, va) || b.Holds(va)
  {
    var r := InsertAt(bs, p, b);
    assert r[p] == b;
    if Holding(bs, va) {
      var i :| 0 <= i < |bs| && bs[i].Holds(va);
      assert r[if i < p then i else i + 1].Holds(va);
    }
    if Holding(r, va) {
      var i :| 0 <= i < |r| && r[i].Holds(va);
      assert i < p ==> bs[i].Holds(va);
      assert i > p ==> bs[i - 1].Holds(va);
    }
  }

  /** A block that overlaps none goes to its place: order and disjointness are kept, and exactly
      its addresses become mapped. */
  lemma InsertKeepsApart(bs: seq<Block>, b: Block)
    requires Apart(bs) && Clear(bs, b) && 0 < b.size && b.End() < WORD_SIZE
    ensures Apart(Insert(bs, b))
    ensures forall va :: Holding(Insert(bs, b), va) <==> Holding(bs, va) || b.Holds(va)
  {
    var p := Rank(bs, b.virtualBase);
    InsertAtKeepsApart(bs, p, b);
    forall va
      ensures Holding(InsertAt(bs, p, b), va) <==> Holding(bs, va) || b.Holds(va)
    {
      InsertAtHolding(bs, p, b, va);
    }
  }

  // ---- application memory ----

  /** The first block, from the i-th on, that is not below the application area. */
  function LowBlocks(bs: seq<Block>, i: nat): (k: nat)
    requires i <= |bs|
    ensures i <= k <= |bs|
    ensures forall j | i <= j < k :: bs[j].virtualBase < APP_BASE
    ensures k < |bs| ==> bs[k].virtualBase >= APP_BASE
    decreases |bs| - i
  {
    if i == |bs| || bs[i].virtualBase >= APP_BASE then i else LowBlocks(bs, i + 1)
  }

  /** One past the last block, from the i-th on, that ends within the application area; above if
      there is none. */
  function LastApp(bs: seq<Block>, i: nat, above: nat): (k: nat)
    requires above <= i <= |bs|
    ensures above <= k <= |bs| && (k == above || i < k)
    ensures forall j | i <= j < |bs| && bs[j].End() <= APP_LIMIT :: j < k
    ensures k > above ==> bs[k - 1].End() <= APP_LIMIT
    decreases |bs| - i
  {
    if i == |bs| then above
    else LastApp(bs, i + 1, if bs[i].End() <= APP_LIMIT then i + 1 else above)
  }

  lemma LastAppStep(bs: seq<Block>, i: nat, above: nat)
    requires Apart(bs) && above <= i < |bs|
    ensures LastApp(bs, i, above) == LastApp(bs, i + 1, if bs[i].End() <= APP_LIMIT then i + 1 else above)
    ensures bs[i].End() < WORD_SIZE && Add(bs[i].virtualBase, bs[i].size) == bs[i].End()
  {
  }

  lemma LastAppDone(bs: seq<Block>, above: nat)
    requires above <= |bs|
    ensures LastApp(bs, |bs|, above) == above
  {
  }

  function AppEnd(bs: seq<Block>): (k: nat)
    ensures LowBlocks(bs, 0) <= k <= |bs|
  {
    LastApp(bs, LowBlocks(bs, 0), LowBlocks(bs, 0))
  }

  function AppTop(bs: seq<Block>): int {
    if AppEnd(bs) > LowBlocks(bs, 0) then bs[AppEnd(bs) - 1].End() else APP_BASE
  }

  /** The scan has looked at i blocks; above and top describe the last app block among them. */
  ghost predicate AppScan(bs: seq<Block>, i: nat, above: nat, top: int) {
    var low := LowBlocks(bs, 0);
    && low <= above <= i <= |bs| && LastApp(bs, low, low) == LastApp(bs, i, above)
    && top == if above > low then bs[above - 1].End() else APP_BASE
  }

  lemma AppScanStarts(bs: seq<Block>)
    ensures AppScan(bs, LowBlocks(bs, 0), LowBlocks(bs, 0), APP_BASE)
  {
  }

  lemma AppScanStep(bs: seq<Block>, i: nat, above: nat, top: int)
    requires Apart(bs) && AppScan(bs, i, above, top) && i < |bs|
    ensures bs[i].End() < WORD_SIZE && Add(bs[i].virtualBase, bs[i].size) == bs[i].End()
    ensures if bs[i].End() <= APP_LIMIT then AppScan(bs, i + 1, i + 1, bs[i].End()) else AppScan(bs, i + 1, above, top)
  {
    LastAppStep(bs, i, above);
  }

  lemma AppScanDone(bs: seq<Block>, above: nat, top: int)
    requires AppScan(bs, |bs|, above, top)
    ensures above == AppEnd(bs) && top == AppTop(bs)
  {
    LastAppDone(bs, above);
  }

  /** What TaskSlot_adjust_app_memory makes of the blocks. Only 20 bits of the size are kept, and a
      size of zero ends the list. */
  function Grow(bs: seq<Block>, newLimit: word, physical: word): seq<Block>
    requires Apart(bs)
  {
    var size := Cut(newLimit - AppTop(bs));
    if newLimit <= AppTop(bs) then bs
    else if size == 0 then bs[..AppEnd(bs)]
    else InsertAt(bs, AppEnd(bs), Block(AppTop(bs), physical, size))
  }

  lemma GrowIs(bs: seq<Block>, newLimit: word, physical: word)
    requires Apart(bs)
    ensures newLimit <= AppTop(bs) ==> Grow(bs, newLimit, physical) == bs
    ensures newLimit > AppTop(bs) ==>
              var b := Block(AppTop(bs), physical, Cut(newLimit - AppTop(bs)));
              Grow(bs, newLimit, physical) == if b.size == 0 then bs[..AppEnd(bs)] else InsertAt(bs, AppEnd(bs), b)
  {
    hide Apart, AppTop, AppEnd, InsertAt;
  }

  /** No block crosses an end of the application area. */
  predicate WithinAreas(bs: seq<Block>) {
    forall i | 0 <= i < |bs| ::
      || bs[i].End() <= APP_BASE
      || (APP_BASE <= bs[i].virtualBase && bs[i].End() <= APP_LIMIT)
      || APP_LIMIT <= bs[i].virtualBase
  }

  /** The application has exactly the memory below the limit, without gaps. */
  ghost predicate HasAppMemory(bs: seq<Block>, limit: int) {
    forall va | APP_BASE <= va < APP_LIMIT :: Holding(bs, va) <==> va < limit
  }

  lemma AppTopIsLimit(bs: seq<Block>, limit: int)
    requires Apart(bs) && WithinAreas(bs) && HasAppMemory(bs, limit) && APP_BASE <= limit <= APP_LIMIT
    ensures AppTop(bs) == limit
    ensures forall i | 0 <= i < AppEnd(bs) :: bs[i].End() <= limit
    ensures forall i | AppEnd(bs) <= i < |bs| :: APP_LIMIT <= bs[i].virtualBase
  {
    var low, end, top := LowBlocks(bs, 0), AppEnd(bs), AppTop(bs);
    forall i | end <= i < |bs|
      ensures APP_LIMIT <= bs[i].virtualBase
    {
      assert bs[low].virtualBase >= APP_BASE;
      assert i == low || bs[low].End() <= bs[i].virtualBase;
    }
    forall i | 0 <= i < end
      ensures bs[i].End() <= top
    {
      if i < low {
        assert bs[i].End() <= APP_BASE;
        assert low < end ==> bs[i].End() <= bs[end - 1].virtualBase;
      } else {
        assert i == end - 1 || bs[i].End() <= bs[end - 1].virtualBase;
      }
    }
    if low < end {
      assert bs[end - 1].virtualBase >= APP_BASE by {
        assert end - 1 == low || bs[low].End() <= bs[end - 1].virtualBase;
      }
      assert bs[end - 1].Holds(top - 1);
      assert Holding(bs, top - 1);
    }
    if top < APP_LIMIT {
      assert !Holding(bs, top);
    }
  }

  /** Order, disjointness and areas are kept, and exactly the addresses of the new block, which is
      cut to 20 bits of size, are added. */
  lemma GrowAddsCutBlock(bs: seq<Block>, oldLimit: int, newLimit: word, physical: word)
    requires Apart(bs) && WithinAreas(bs) && HasAppMemory(bs, oldLimit)
    requires APP_BASE <= oldLimit < newLimit <= APP_LIMIT && Cut(newLimit - oldLimit) > 0
    ensures var r := Grow(bs, newLimit, physical);
            && Apart(r) && WithinAreas(r)
            && forall va :: Holding(r, va) <==>
                              Holding(bs, va) || oldLimit <= va < oldLimit + Cut(newLimit - oldLimit)
  {
    var end, size := AppEnd(bs), Cut(newLimit - oldLimit);
    hide Apart, WithinAreas, HasAppMemory, AppTop, AppEnd, InsertAt, Grow, Holding, Cut;
    AppTopIsLimit(bs, oldLimit);
    GrowIs(bs, newLimit, physical);
    InsertBetween(bs, end, Block(oldLimit, physical, size));
  }

  /** A block goes into the application area, above the app blocks. */
  lemma InsertBetween(bs: seq<Block>, end: nat, b: Block)
    requires Apart(bs) && WithinAreas(bs) && end <= |bs|
    requires 0 < b.size && APP_BASE <= b.virtualBase && b.End() <= APP_LIMIT
    requires forall i | 0 <= i < end :: bs[i].End() <= b.virtualBase
    requires forall i | end <= i < |bs| :: APP_LIMIT <= bs[i].virtualBase
    ensures var r := InsertAt(bs, end, b);
            && Apart(r) && WithinAreas(r)
            && forall va :: Holding(r, va) <==> Holding(bs, va) || b.virtualBase <= va < b.End()
  {
    hide Holding, Apart, WithinAreas, InsertAt;
    InsertAtKeepsApart(bs, end, b);
    InsertAtKeepsAreas(bs, end, b);
    forall va
      ensures Holding(InsertAt(bs, end, b), va) <==> Holding(bs, va) || b.Holds(va)
    {
      InsertAtHolding(bs, end, b, va);
    }
  }

  lemma InsertAtKeepsAreas(bs: seq<Block>, p: nat, b: Block)
    requires WithinAreas(bs) && p <= |bs| && WithinAreas([b])
    ensures WithinAreas(InsertAt(bs, p, b))
  {
    assert [b][0] == b;
  }

  /** A growth by whole MiBs ends the list after the app blocks. */
  lemma GrowByMiBs(bs: seq<Block>, oldLimit: int, newLimit: word, physical: word)
    requires Apart(bs) && WithinAreas(bs) && HasAppMemory(bs, oldLimit)
    requires APP_BASE <= oldLimit < newLimit <= APP_LIMIT && Cut(newLimit - oldLimit) == 0
    ensures var r := Grow(bs, newLimit, physical);
            Apart(r) && WithinAreas(r) && !Holding(r, newLimit - 1)
  {
    var end := AppEnd(bs);
    AppTopIsLimit(bs, oldLimit);
    assert Grow(bs, newLimit, physical) == bs[..end];
    hide *;
    CutOff(bs, end, newLimit - 1);
  }

  lemma CutOff(bs: seq<Block>, end: nat, va: int)
    requires Apart(bs) && WithinAreas(bs) && end <= |bs|
    requires forall i | 0 <= i < end :: bs[i].End() <= va
    ensures Apart(bs[..end]) && WithinAreas(bs[..end]) && !Holding(bs[..end], va)
  {
  }

  /** Growing leaves the application with exactly the memory below the new limit if and only if it
      grows by less than a MiB; order and disjointness are kept in any case. */
  lemma GrowsIffUnderMiB(bs: seq<Block>, oldLimit: int, newLimit: word, physical: word)
    requires Apart(bs) && WithinAreas(bs) && HasAppMemory(bs, oldLimit)
    requires APP_BASE <= oldLimit <= newLimit <= APP_LIMIT
    ensures Apart(Grow(bs, newLimit, physical)) && WithinAreas(Grow(bs, newLimit, physical))
    ensures HasAppMemory(Grow(bs, newLimit, physical), newLimit) <==> newLimit - oldLimit < SIZE_RANGE
  {
    hide Apart, WithinAreas, AppTop, Holding;
    if oldLimit == newLimit {
      AppTopIsLimit(bs, oldLimit);
    } else {
      var size, r := Cut(newLimit - oldLimit), Grow(bs, newLimit, physical);
      if size > 0 {
        GrowAddsCutBlock(bs, oldLimit, newLimit, physical);
      } else {
        GrowByMiBs(bs, oldLimit, newLimit, physical);
      }
      if newLimit - oldLimit >= SIZE_RANGE {
        assert !Holding(r, newLimit - 1);
      }
    }
  }

  // ---- the array ----

  /** The entries before the first of size zero. */
  function Live(s: seq<Block>): (bs: seq<Block>)
    ensures |bs| <= |s| && bs == s[..|bs|] && forall i | 0 <= i < |bs| :: bs[i].size > 0
    ensures |bs| < |s| ==> s[|bs|].size == 0
  {
    if s == [] || s[0].size == 0 then [] else [s[0]] + Live(s[1..])
  }

  lemma {:induction false} LiveIs(s: seq<Block>, bs: seq<Block>)
    requires bs <= s && (forall i | 0 <= i < |bs| :: bs[i].size > 0) && (|bs| < |s| ==> s[|bs|].size == 0)
    ensures Live(s) == bs
  {
    if bs != [] {
      LiveIs(s[1..], bs[1..]);
    }
  }

  lemma LiveParts(s: seq<Block>)
    ensures forall i | 0 <= i < |Live(s)| :: s[i] == Live(s)[i]
  {
  }

  /** What there is room for. */
  function Kept(bs: seq<Block>): seq<Block> {
    if |bs| <= BLOCKS then bs else bs[..BLOCKS]
  }

  lemma KeptInsert(bs: seq<Block>, i: nat, b: Block)
    requires |bs| <= BLOCKS && i <= |bs|
    ensures if i == BLOCKS then Kept(InsertAt(bs, i, b)) == bs
            else Kept(InsertAt(bs, i, b)) == InsertAt(if |bs| == BLOCKS then bs[..BLOCKS - 1] else bs, i, b)
  {
  }

  class SlotMemory {
    const blocks: array<Block>
    var memoryLimit: word      // handlers[0].code
    var applicationSpace: word // handlers[14].code

    ghost predicate Valid()
      reads blocks
    {
      && blocks.Length == BLOCKS
      && forall i | |Live(blocks[..])| <= i < BLOCKS :: blocks[i].size == 0
    }

    ghost function Contents(): (bs: seq<Block>)
      reads blocks
    {
      Live(blocks[..])
    }

    constructor ()
      ensures Valid() && Contents() == [] && fresh(blocks)
    {
      blocks := new Block[BLOCKS](_ => UNUSED);
      memoryLimit, applicationSpace := 0, 0;
    }

    /** Make room at entry i, by moving the entries from there on up by one. */
    method ShiftUp(i: nat, last: nat)
      requires i <= last < blocks.Length
      modifies blocks
      ensures forall k | 0 <= k < blocks.Length :: blocks[k] == old(blocks[if i < k <= last then k - 1 else k])
    {
      var j := last;
      while j > i
        invariant i <= j <= last
        invariant forall k | 0 <= k < blocks.Length :: blocks[k] == old(blocks[if j < k <= last then k - 1 else k])
      {
        blocks[j] := blocks[j - 1];
        j := j - 1;
      }
    }

    /** The search of add_memory_to_slot: BLOCKS if there is no place. */
    method FindPlace(virtualBase: word) returns (i: nat)
      requires Valid()
      ensures i == Rank(Contents(), virtualBase)
    {
      ghost var bs := Contents();
      i := 0;
      while i < BLOCKS && blocks[i].size != 0 && blocks[i].virtualBase <= virtualBase
        invariant i <= |bs| <= BLOCKS && Rank(bs, virtualBase) == i + Rank(bs[i..], virtualBase)
        decreases |bs| - i
      {
        assert i < |bs| && blocks[i] == bs[i] && bs[i..][1..] == bs[i + 1..];
        i := i + 1;
      }
      assert i < |bs| ==> blocks[i] == bs[i];
    }

    /** add_memory_to_slot. A full array drops its last block. The assertions compare the entry with
        the next one, which there has to be. */
    method AddMemory(physicalBase: word, virtualBase: word, size: word)
      requires Valid() && Rank(Contents(), virtualBase) != BLOCKS - 1
      modifies blocks
      ensures Cut(size) > 0 ==>
                Valid() && Contents() == Kept(Insert(old(Contents()), Block(virtualBase, physicalBase, Cut(size))))
      ensures Cut(size) == 0 ==> Contents() == old(Contents())[..Rank(old(Contents()), virtualBase)]
    {
      ghost var bs := Contents();
      var i := FindPlace(virtualBase);
      if i < BLOCKS {
        InsertBlock(i, Block(virtualBase, physicalBase, Cut(size)));
      } else {
        KeptInsert(bs, i, Block(virtualBase, physicalBase, Cut(size)));
        assert bs[..i] == bs;
      }
    }

    /** The part of it for an entry that has been found. */
    method InsertBlock(i: nat, b: Block)
      requires Valid() && i <= |Contents()| && i + 1 < BLOCKS
      modifies blocks
      ensures b.size > 0 ==> Valid() && Contents() == Kept(InsertAt(old(Contents()), i, b))
      ensures b.size == 0 ==> Contents() == old(Contents())[..i]
    {
      ghost var was, bs := blocks[..], Contents();
      LiveParts(was);
      ghost var kept := if |bs| == BLOCKS then bs[..BLOCKS - 1] else bs;
      KeptInsert(bs, i, b);
      hide Live, Kept, InsertAt, SlotMemory.Contents;
      assert forall k | 0 <= k < |kept| :: was[k] == kept[k] && kept[k].size > 0;
      ShiftUp(i, BLOCKS - 1);
      assert blocks[i] == blocks[i + 1]; // asserted by the kernel
      Put(i, b, kept);
    }

    /** A block is stored in the entry that has been freed for it between those of bs. */
    method Put(i: nat, b: Block, ghost bs: seq<Block>)
      requires i <= |bs| < blocks.Length == BLOCKS && forall k | 0 <= k < |bs| :: bs[k].size > 0
      requires forall k | 0 <= k < i :: blocks[k] == bs[k]
      requires forall k | i <= k < |bs| :: blocks[k + 1] == bs[k]
      requires forall k | |bs| + 1 <= k < BLOCKS :: blocks[k].size == 0
      modifies blocks
      ensures b.size > 0 ==> Valid() && Contents() == InsertAt(bs, i, b)
      ensures b.size == 0 ==> Contents() == bs[..i]
    {
      blocks[i] := b;
      ghost var r := InsertAt(bs, i, b);
      assert forall k | 0 <= k < |r| :: r[k] == blocks[k];
      LiveIs(blocks[..], if b.size > 0 then r else bs[..i]);
    }

    /** The scan of Kernel_physical_address, which gives up at the first block above the address: it
        finds a block if and only if one holds the address. */
    method FindBlock(va: word) returns (found: bool, b: Block)
      requires Valid() && Apart(Contents())
      ensures found <==> Holding(Contents(), va)
      ensures found ==> b in Contents() && b.Holds(va)
      ensures !found ==> b == UNUSED
    {
      ghost var bs := Contents();
      found, b := false, UNUSED;
      var i := 0;
      while i < BLOCKS && blocks[i].size != 0 && blocks[i].virtualBase <= va
        invariant i <= |bs| && forall k | 0 <= k < i :: !bs[k].Holds(va)
        invariant !found && b == UNUSED
      {
        assert i < |bs| && blocks[i] == bs[i];
        if blocks[i].virtualBase <= va && Add(blocks[i].virtualBase, blocks[i].size) > va {
          return true, blocks[i];
        }
        i := i + 1;
      }
      assert i < |bs| ==> blocks[i] == bs[i];
    }

    /** The first loop of TaskSlot_adjust_app_memory. */
    method FindLow() returns (i: nat)
      requires Valid() && |Contents()| < BLOCKS
      ensures i == LowBlocks(Contents(), 0)
    {
      ghost var bs := Contents();
      i := 0;
      while blocks[i].size != 0 && blocks[i].virtualBase < APP_BASE
        invariant i <= |bs| < BLOCKS && LowBlocks(bs, 0) == LowBlocks(bs, i)
        decreases |bs| - i
      {
        assert i < |bs| && blocks[i] == bs[i];
        i := i + 1;
      }
      assert i < |bs| ==> blocks[i] == bs[i];
    }

    /** The second loop: the entry above the last app block, and where that block ends. */
    method FindAppTop() returns (above: nat, top: word, firstUnused: nat)
      requires Valid() && Apart(Contents()) && |Contents()| < BLOCKS
      ensures above == AppEnd(Contents()) && top == AppTop(Contents()) && firstUnused == |Contents()|
    {
      hide Apart, Live, AppScan, AppEnd, AppTop;
      ghost var bs := Contents();
      var i := FindLow();
      AppScanStarts(bs);
      above, top := i, APP_BASE;
      while blocks[i].size != 0
        invariant i <= |bs| < BLOCKS && AppScan(bs, i, above, top)
        decreases |bs| - i
      {
        assert i < |bs| && blocks[i] == bs[i];
        AppScanStep(bs, i, above, top);
        var blockTop := Add(blocks[i].virtualBase, blocks[i].size);
        if blockTop <= APP_LIMIT {
          top, above := blockTop, i + 1;
        }
        i := i + 1;
      }
      assert i == |bs|;
      AppScanDone(bs, above, top);
      firstUnused := i;
    }

    /** The blocks from entry i up to the first unused one move up for a new block. */
    method InsertBelow(i: nat, firstUnused: nat, b: Block)
      requires Valid() && i <= |Contents()| == firstUnused < BLOCKS
      modifies blocks
      ensures b.size > 0 ==> Valid() && Contents() == InsertAt(old(Contents()), i, b)
      ensures b.size == 0 ==> Contents() == old(Contents())[..i]
    {
      ghost var was, bs := blocks[..], Contents();
      LiveParts(was);
      hide Live, InsertAt, Contents;
      assert forall k | 0 <= k < |bs| :: was[k] == bs[k] && bs[k].size > 0;
      ShiftUp(i, firstUnused);
      Put(i, b, bs);
    }

    /** TaskSlot_adjust_app_memory; physical is what Kernel_allocate_pages returns, and the kernel
        halts if that is nothing. Shrinking is ignored, except by the handlers. */
    method AdjustAppMemory(newLimit: word, physical: word) returns (halted: bool)
      requires Valid() && Apart(Contents()) && |Contents()| < BLOCKS
      requires newLimit % 0x1000 == 0 && newLimit <= APP_LIMIT
      modifies this`memoryLimit, this`applicationSpace, blocks
      ensures halted <==> AppTop(old(Contents())) < newLimit && physical == NO_MEMORY
      ensures Contents() == Grow(old(Contents()), newLimit, physical)
      ensures !halted ==> memoryLimit == applicationSpace == newLimit
      ensures halted ==> memoryLimit == old(memoryLimit) && applicationSpace == old(applicationSpace)
    {
      hide AppEnd, AppTop, Apart, Grow, InsertAt, Cut, Live, Contents, Valid;
      GrowIs(Contents(), newLimit, physical);
      var above, top, firstUnused := FindAppTop();
      if top < newLimit {
        InsertBelow(above, firstUnused, Block(top, physical, Cut(newLimit - top)));
        if physical == NO_MEMORY {
          return true;
        }
      }
      memoryLimit := newLimit;
      applicationSpace := newLimit;
      halted := false;
    }
  }
}
